/** The accepted keys byte by byte. */
module SshKeyLayouts {
  import opened Options
  import opened SshKeys

  const ED25519_NAME: Bytes := [115, 115, 104, 45, 101, 100, 50, 53, 53, 49, 57]
  const ECDSA_NAME: Bytes := [101, 99, 100, 115, 97, 45, 115, 104, 97, 50, 45, 110, 105, 115, 116, 112, 50, 53, 54]
  const CURVE_NAME: Bytes := [110, 105, 115, 116, 112, 50, 53, 54]
  const SK_NAME: Bytes :=
    [115, 107, 45, 115, 115, 104, 45, 101, 100, 50, 53, 53, 49, 57,
     64, 111, 112, 101, 110, 115, 115, 104, 46, 99, 111, 109]

  /** The name and the length 32, each number in four bytes. */
  const ED25519_HEAD: Bytes := ([0, 0, 0, 11] + ED25519_NAME) + [0, 0, 0, 32]

  /** The name and that of the curve, the length 65, and the mark of an uncompressed point. */
  const ECDSA_HEAD: Bytes := (([0, 0, 0, 19] + ECDSA_NAME) + ([0, 0, 0, 8] + CURVE_NAME)) + ([0, 0, 0, 65] + [4])

  /** The name and the length 32. */
  const SK_HEAD: Bytes := ([0, 0, 0, 26] + SK_NAME) + [0, 0, 0, 32]

  lemma Ed25519InBytes()
    ensures IsAscii("ssh-ed25519") && Ascii("ssh-ed25519") == ED25519_NAME
  {
  }

  lemma EcdsaInBytes()
    ensures IsAscii("ecdsa-sha2-nistp256") && Ascii("ecdsa-sha2-nistp256") == ECDSA_NAME
  {
  }

  lemma CurveInBytes()
    ensures IsAscii("nistp256") && Ascii("nistp256") == CURVE_NAME
  {
  }

  lemma SkInBytes()
    ensures IsAscii("sk-ssh-ed25519@openssh.com") && Ascii("sk-ssh-ed25519@openssh.com") == SK_NAME
  {
  }

  lemma Associates(a: Bytes, b: Bytes, c: Bytes)
    ensures a + (b + c) == (a + b) + c
  {
  }

  lemma NumbersInBytes()
    ensures Uint32(8) == [0, 0, 0, 8] && Uint32(11) == [0, 0, 0, 11] && Uint32(19) == [0, 0, 0, 19]
    ensures Uint32(26) == [0, 0, 0, 26] && Uint32(32) == [0, 0, 0, 32] && Uint32(65) == [0, 0, 0, 65]
  {
  }

  lemma EncodingOfTwo(a: Bytes, b: Bytes)
    ensures Encoding([a, b]) == SshString(a) + SshString(b)
  {
    assert [a, b][1..] == [b] && [b][1..] == [] && Encoding([]) == [];
    assert Encoding([b]) == SshString(b);
  }

  lemma EncodingOfThree(a: Bytes, b: Bytes, c: Bytes)
    ensures Encoding([a, b, c]) == SshString(a) + (SshString(b) + SshString(c))
  {
    assert [a, b, c][1..] == [b, c];
    EncodingOfTwo(b, c);
  }

  // ----- Ed25519 -----

  ghost predicate StartsWith(blob: Bytes, head: Bytes) {
    |blob| >= |head| && blob[..|head|] == head
  }

  lemma Ed25519Encoding(key: Bytes)
    requires |key| == 32
    ensures Encoding([Ascii("ssh-ed25519"), key]) == ED25519_HEAD + key
  {
    Ed25519InBytes();
    NumbersInBytes();
    EncodingOfTwo(Ascii("ssh-ed25519"), key);
    Associates(SshString(ED25519_NAME), [0, 0, 0, 32], key);
  }

  /** Section 4 of RFC 8709: 51 bytes, of which the first 19 are fixed. */
  lemma Ed25519Layout(blob: Bytes)
    ensures BrowserAccepts("ssh-ed25519", blob) <==> |blob| == 51 && StartsWith(blob, ED25519_HEAD)
  {
    BrowserAcceptsExactly("ssh-ed25519", blob);
    Ed25519InBytes();
    if InGrammar("ssh-ed25519", blob) {
      var fields :| Spells("ssh-ed25519", fields, blob);
      assert [Ascii("ssh-ed25519")] + fields == [Ascii("ssh-ed25519"), fields[0]];
      Ed25519Encoding(fields[0]);
    }
    if |blob| == 51 && StartsWith(blob, ED25519_HEAD) {
      var key := blob[19..];
      Ed25519Encoding(key);
      assert blob == ED25519_HEAD + key;
      assert [Ascii("ssh-ed25519")] + [key] == [Ascii("ssh-ed25519"), key];
      assert Spells("ssh-ed25519", [key], blob);
    }
  }

  // ----- ECDSA over P-256 -----

  lemma EcdsaEncoding(point: Bytes)
    requires |point| == 65 && point[0] == 4
    ensures Encoding([Ascii("ecdsa-sha2-nistp256"), Ascii("nistp256"), point]) == ECDSA_HEAD + point[1..]
  {
    EcdsaInBytes();
    CurveInBytes();
    NumbersInBytes();
    EncodingOfThree(Ascii("ecdsa-sha2-nistp256"), Ascii("nistp256"), point);
    assert point == [4] + point[1..];
    Associates(SshString(ECDSA_NAME), SshString(CURVE_NAME), [0, 0, 0, 65] + point);
    Associates([0, 0, 0, 65], [4], point[1..]);
    Associates(SshString(ECDSA_NAME) + SshString(CURVE_NAME), [0, 0, 0, 65] + [4], point[1..]);
  }

  /** Section 3.1 of RFC 5656, with an uncompressed point: 104 bytes, of which the first 40 are fixed. */
  lemma EcdsaLayout(blob: Bytes)
    ensures BrowserAccepts("ecdsa-sha2-nistp256", blob) <==> |blob| == 104 && StartsWith(blob, ECDSA_HEAD)
  {
    BrowserAcceptsExactly("ecdsa-sha2-nistp256", blob);
    EcdsaInBytes();
    CurveInBytes();
    if InGrammar("ecdsa-sha2-nistp256", blob) {
      var fields :| Spells("ecdsa-sha2-nistp256", fields, blob);
      DecodeExactly(fields[0], "nistp256");
      assert [Ascii("ecdsa-sha2-nistp256")] + fields == [Ascii("ecdsa-sha2-nistp256"), Ascii("nistp256"), fields[1]];
      EcdsaEncoding(fields[1]);
    }
    if |blob| == 104 && StartsWith(blob, ECDSA_HEAD) {
      var point := blob[39..];
      assert point[0] == blob[..40][39] == 4;
      EcdsaEncoding(point);
      assert point[1..] == blob[40..];
      assert blob == ECDSA_HEAD + blob[40..];
      DecodeExactly(Ascii("nistp256"), "nistp256");
      assert [Ascii("ecdsa-sha2-nistp256")] + [Ascii("nistp256"), point]
          == [Ascii("ecdsa-sha2-nistp256"), Ascii("nistp256"), point];
      assert Spells("ecdsa-sha2-nistp256", [Ascii("nistp256"), point], blob);
    }
  }

  // ----- Security keys -----

  lemma SkEncoding(key: Bytes, application: Bytes)
    requires |key| == 32
    ensures Encoding([Ascii("sk-ssh-ed25519@openssh.com"), key, application])
            == SK_HEAD + key + SshString(application)
  {
    SkInBytes();
    NumbersInBytes();
    EncodingOfThree(Ascii("sk-ssh-ed25519@openssh.com"), key, application);
    Associates(SshString(SK_NAME), SshString(key), SshString(application));
    Associates(SshString(SK_NAME), [0, 0, 0, 32], key);
  }

  /** The length that four bytes spell. */
  function LengthAt(blob: Bytes, offset: nat): nat
    requires offset + 4 <= |blob|
  {
    blob[offset] as nat * 16_777_216 + blob[offset + 1] as nat * 65_536 + blob[offset + 2] as nat * 256
    + blob[offset + 3] as nat
  }

  /** 34 fixed bytes, 32 of the key, and an application of 1 to 16384 bytes with its length, which fills the rest. */
  ghost predicate SkForm(blob: Bytes) {
    && |blob| >= 70 && StartsWith(blob, SK_HEAD)
    && 1 <= LengthAt(blob, 66) <= 16_384 && |blob| == 70 + LengthAt(blob, 66)
  }

  lemma LengthRoundTrip(value: Bytes, blob: Bytes, offset: nat)
    requires offset + 4 <= |blob| && |value| <= 16_384
    ensures blob[offset..offset + 4] == Uint32(|value|) <==> LengthAt(blob, offset) == |value|
  {
    var four := blob[offset..offset + 4];
    assert BigEndian(four) == LengthAt(blob, offset);
    Uint32RoundTrip(|value|);
    BigEndianRoundTrip(four);
  }

  lemma SkParts(blob: Bytes, key: Bytes, application: Bytes)
    requires |key| == 32 && blob == SK_HEAD + key + SshString(application) && 1 <= |application| <= 16_384
    ensures SkForm(blob)
  {
    assert blob[..34] == SK_HEAD;
    assert blob[66..] == SshString(application);
    assert blob[66..70] == blob[66..][..4] == Uint32(|application|);
    LengthRoundTrip(application, blob, 66);
  }

  lemma SkFormSplits(blob: Bytes)
    requires SkForm(blob)
    ensures |blob| >= 70 && blob == SK_HEAD + blob[34..66] + SshString(blob[70..]) && 1 <= |blob[70..]| <= 16_384
  {
    LengthRoundTrip(blob[70..], blob, 66);
    assert blob[66..] == blob[66..70] + blob[70..];
    assert blob == blob[..34] + blob[34..66] + blob[66..];
  }

  lemma SkHasForm(blob: Bytes, fields: seq<Bytes>)
    requires Spells("sk-ssh-ed25519@openssh.com", fields, blob)
    ensures SkForm(blob)
  {
    var name := Ascii("sk-ssh-ed25519@openssh.com");
    assert [name] + fields == [name, fields[0], fields[1]];
    assert ([name] + fields)[2] == fields[1];
    SkEncoding(fields[0], fields[1]);
    SkParts(blob, fields[0], fields[1]);
  }

  lemma SkFormSpells(blob: Bytes)
    requires SkForm(blob)
    ensures |blob| >= 70 && Spells("sk-ssh-ed25519@openssh.com", [blob[34..66], blob[70..]], blob)
  {
    var name := Ascii("sk-ssh-ed25519@openssh.com");
    SkInBytes();
    SkFormSplits(blob);
    SkEncoding(blob[34..66], blob[70..]);
    assert [name] + [blob[34..66], blob[70..]] == [name, blob[34..66], blob[70..]];
  }

  /** OpenSSH's security-key type. */
  lemma SkLayout(blob: Bytes)
    ensures BrowserAccepts("sk-ssh-ed25519@openssh.com", blob) <==> SkForm(blob)
  {
    BrowserAcceptsExactly("sk-ssh-ed25519@openssh.com", blob);
    if InGrammar("sk-ssh-ed25519@openssh.com", blob) {
      var fields :| Spells("sk-ssh-ed25519@openssh.com", fields, blob);
      SkHasForm(blob, fields);
    }
    if SkForm(blob) {
      SkFormSpells(blob);
    }
  }

  // ----- The server's codes -----

  /** The blob begins with this name as a field. */
  ghost predicate Names(blob: Bytes, name: string) {
    IsAscii(name) && |name| <= 16_384 && StartsWith(blob, SshString(Ascii(name)))
  }

  lemma NamesExactly(blob: Bytes, name: string)
    ensures Names(blob, name) <==> Read(blob, 0).Some? && DecodeAscii(Read(blob, 0).value.value) == Some(name)
  {
    if Names(blob, name) {
      var field := Ascii(name);
      assert blob[0..4 + |field|] == blob[..|SshString(field)|];
      ReadExactly(blob, 0, Field(field, 4 + |field|));
      DecodeExactly(field, name);
    }
    if Read(blob, 0).Some? && DecodeAscii(Read(blob, 0).value.value) == Some(name) {
      var f := Read(blob, 0).value;
      ReadExactly(blob, 0, f);
      DecodeExactly(f.value, name);
      assert blob[..|SshString(f.value)|] == blob[0..f.next];
    }
  }

  ghost predicate NamesAnother(blob: Bytes, keyType: string) {
    exists name: string :: name != keyType && Names(blob, name)
  }

  /** The server accepts what the browser accepts of the three types; otherwise it names a mismatch exactly where the
      blob begins with another name, a rejected type exactly where it begins with the given name and this is none of the
      three, and calls everything else malformed. */
  lemma ServerVerdictExactly(keyType: string, blob: Bytes)
    ensures var known := keyType in {"ssh-ed25519", "ecdsa-sha2-nistp256", "sk-ssh-ed25519@openssh.com"};
            var verdict := ServerVerdict(keyType, blob);
            && (verdict == Accepted <==> known && BrowserAccepts(keyType, blob))
            && (verdict == TypeMismatch <==> NamesAnother(blob, keyType))
            && (verdict == TypeRejected <==> !known && Names(blob, keyType))
  {
    NamesExactly(blob, keyType);
    if NamesAnother(blob, keyType) {
      var name: string :| name != keyType && Names(blob, name);
      NamesExactly(blob, name);
    } else if Read(blob, 0).Some? && DecodeAscii(Read(blob, 0).value.value).Some? {
      NamesExactly(blob, DecodeAscii(Read(blob, 0).value.value).value);
    }
    if FieldCount(keyType).Some? {
      ValidatorsAgree(keyType, blob);
    }
  }
}
