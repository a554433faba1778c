/** The SSH public-key wire format: length-prefixed strings, and the browser's and the server's validators. */
module SshKeys {
  import opened Options

  newtype byte = x: int | 0 <= x < 256
  type Bytes = seq<byte>

  const MAX_FIELD: nat := 16 * 1024

  const ED25519: string := "ssh-ed25519"
  const ECDSA_P256: string := "ecdsa-sha2-nistp256"
  const SK_ED25519: string := "sk-ssh-ed25519@openssh.com"
  const NISTP256: string := "nistp256"

  // ----- Section 5 of RFC 4251: the string type -----

  /** `uint32`: four bytes, most significant first; larger numbers lose their high part. */
  function Uint32(n: nat): (b: Bytes)
    ensures |b| == 4
  {
    var n1 := n / 0x100;
    var n2 := n1 / 0x100;
    var n3 := n2 / 0x100;
    [(n3 % 0x100) as byte, (n2 % 0x100) as byte, (n1 % 0x100) as byte, (n % 0x100) as byte]
  }

  function BigEndian(b: Bytes): nat
    requires |b| == 4
  {
    ((b[0] as nat * 0x100 + b[1] as nat) * 0x100 + b[2] as nat) * 0x100 + b[3] as nat
  }

  lemma Uint32RoundTrip(n: nat)
    requires n < 0x1_0000_0000
    ensures BigEndian(Uint32(n)) == n
  {
    var n1 := n / 0x100;
    var n2 := n1 / 0x100;
    var n3 := n2 / 0x100;
    assert n3 < 0x100;
  }

  lemma LowByte(high: nat, low: byte)
    ensures (high * 0x100 + low as nat) / 0x100 == high && ((high * 0x100 + low as nat) % 0x100) as byte == low
  {
  }

  lemma BigEndianRoundTrip(b: Bytes)
    requires |b| == 4
    ensures Uint32(BigEndian(b)) == b
  {
    var n2 := b[0] as nat * 0x100 + b[1] as nat;
    var n1 := n2 * 0x100 + b[2] as nat;
    LowByte(b[0] as nat, b[1]);
    LowByte(n2, b[2]);
    LowByte(n1, b[3]);
  }

  /** `sshString` */
  function SshString(value: Bytes): Bytes {
    Uint32(|value|) + value
  }

  predicate IsAscii(s: string) {
    forall i :: 0 <= i < |s| ==> s[i] < '\U{0080}'
  }

  /** The bytes of an ASCII string. */
  function Ascii(s: string): (b: Bytes)
    requires IsAscii(s)
    ensures |b| == |s|
  {
    seq(|s|, i requires 0 <= i < |s| => s[i] as int as byte)
  }

  /** `decodeAscii` */
  function DecodeAscii(b: Bytes): Option<string> {
    if exists i :: 0 <= i < |b| && b[i] > 0x7f then None
    else Some(seq(|b|, i requires 0 <= i < |b| => b[i] as int as char))
  }

  /** Decoding succeeds with `s` exactly on the bytes of `s`. */
  lemma DecodeExactly(b: Bytes, s: string)
    ensures DecodeAscii(b) == Some(s) <==> IsAscii(s) && b == Ascii(s)
  {
    if DecodeAscii(b) == Some(s) {
      assert forall i :: 0 <= i < |b| ==> s[i] == b[i] as int as char;
    }
    if IsAscii(s) && b == Ascii(s) {
      assert forall i :: 0 <= i < |b| ==> b[i] == s[i] as int as byte;
      assert DecodeAscii(b).value == s;
    }
  }

  datatype Field = Field(value: Bytes, next: nat)

  /** `readSshString` and `_read_ssh_string`: nothing where the source raises. */
  function Read(blob: Bytes, offset: nat): (r: Option<Field>)
    ensures r.Some? ==> offset + 4 <= r.value.next <= |blob|
  {
    if offset + 4 > |blob| then None
    else
      var length := BigEndian(blob[offset..offset + 4]);
      var start := offset + 4;
      var end := start + length;
      if length > MAX_FIELD || end > |blob| then None else Some(Field(blob[start..end], end))
  }

  /** Reading succeeds exactly where the encoding of a legal field stands. */
  lemma ReadExactly(blob: Bytes, offset: nat, f: Field)
    requires offset <= |blob|
    ensures Read(blob, offset) == Some(f) <==>
            && |f.value| <= MAX_FIELD && f.next == offset + 4 + |f.value| <= |blob|
            && blob[offset..f.next] == SshString(f.value)
  {
    Uint32RoundTripSmall(f.value);
    if offset + 4 <= |blob| {
      BigEndianRoundTrip(blob[offset..offset + 4]);
    }
    if Read(blob, offset) == Some(f) {
      assert blob[offset..f.next] == blob[offset..offset + 4] + blob[offset + 4..f.next];
    } else if f.next == offset + 4 + |f.value| <= |blob| && blob[offset..f.next] == SshString(f.value) {
      assert blob[offset..offset + 4] == blob[offset..f.next][..4] == Uint32(|f.value|);
      assert blob[offset + 4..f.next] == blob[offset..f.next][4..] == f.value;
    }
  }

  lemma Uint32RoundTripSmall(value: Bytes)
    ensures |value| <= MAX_FIELD ==> BigEndian(Uint32(|value|)) == |value|
  {
    if |value| <= MAX_FIELD {
      Uint32RoundTrip(|value|);
    }
  }

  // ----- The grammar of a blob -----

  /** The fields one after the other, each with its length. */
  function Encoding(fields: seq<Bytes>): Bytes {
    if |fields| == 0 then [] else SshString(fields[0]) + Encoding(fields[1..])
  }

  predicate LegalFields(fields: seq<Bytes>) {
    forall i :: 0 <= i < |fields| ==> |fields[i]| <= MAX_FIELD
  }

  /** Reading `count` fields from an offset to the very end. */
  function ReadAll(blob: Bytes, offset: nat, count: nat): Option<seq<Bytes>>
    decreases count
  {
    if count == 0 then if offset == |blob| then Some([]) else None
    else
      match Read(blob, offset)
      case None => None
      case Some(f) =>
        match ReadAll(blob, f.next, count - 1)
        case None => None
        case Some(rest) => Some([f.value] + rest)
  }

  /** Reading to the end is the inverse of encoding, on legal fields and on nothing else. */
  lemma {:induction false} ReadAllExactly(blob: Bytes, offset: nat, fields: seq<Bytes>)
    requires offset <= |blob|
    ensures ReadAll(blob, offset, |fields|) == Some(fields) <==>
            LegalFields(fields) && blob[offset..] == Encoding(fields)
    decreases |fields|
  {
    if |fields| > 0 {
      var head, tail := fields[0], fields[1..];
      assert fields == [head] + tail;
      var next := offset + 4 + |head|;
      assert |Encoding(fields)| >= 4 + |head|;
      if next <= |blob| {
        ReadExactly(blob, offset, Field(head, next));
        ReadAllExactly(blob, next, tail);
        assert blob[offset..] == blob[offset..next] + blob[next..];
        if blob[offset..] == Encoding(fields) {
          assert blob[offset..next] == blob[offset..][..4 + |head|] == SshString(head);
          assert blob[next..] == blob[offset..][4 + |head|..] == Encoding(tail);
        }
      }
      if ReadAll(blob, offset, |fields|) == Some(fields) {
        var f := Read(blob, offset).value;
        assert [f.value] + ReadAll(blob, f.next, |tail|).value == [head] + tail;
        assert f.value == head && ReadAll(blob, f.next, |tail|).value == tail;
        ReadExactly(blob, offset, f);
      }
    }
  }

  // ----- The validators -----

  /** The number of fields after the type that a known key type has. */
  function FieldCount(keyType: string): Option<nat> {
    if keyType == ED25519 then Some(1) else if keyType == ECDSA_P256 || keyType == SK_ED25519 then Some(2) else None
  }

  /** What the fields must be: sections 4 of RFC 8709 and 3.1 of RFC 5656, and OpenSSH's security-key type. */
  predicate LegalKey(keyType: string, fields: seq<Bytes>) {
    if keyType == ED25519 then |fields| == 1 && |fields[0]| == 32
    else if keyType == ECDSA_P256 then
      |fields| == 2 && DecodeAscii(fields[0]) == Some(NISTP256) && |fields[1]| == 65 && fields[1][0] == 4
    else if keyType == SK_ED25519 then |fields| == 2 && |fields[0]| == 32 && |fields[1]| > 0
    else false
  }

  /** The browser's `validateBlob`; false where it throws. */
  predicate BrowserAccepts(keyType: string, blob: Bytes) {
    var embedded := Read(blob, 0);
    if embedded.None? || DecodeAscii(embedded.value.value) != Some(keyType) then false
    else if keyType == ED25519 then
      var key := Read(blob, embedded.value.next);
      key.Some? && |key.value.value| == 32 && key.value.next == |blob|
    else if keyType == ECDSA_P256 then
      var curve := Read(blob, embedded.value.next);
      if curve.None? then false
      else
        var point := Read(blob, curve.value.next);
        && point.Some?
        && DecodeAscii(curve.value.value) == Some(NISTP256) && |point.value.value| == 65 && point.value.value[0] == 4
        && point.value.next == |blob|
    else if keyType == SK_ED25519 then
      var key := Read(blob, embedded.value.next);
      if key.None? then false
      else
        var application := Read(blob, key.value.next);
        && application.Some?
        && |key.value.value| == 32 && |application.value.value| != 0
        && application.value.next == |blob|
    else embedded.value.next == |blob|
  }

  datatype Verdict = Accepted | Malformed | TypeMismatch | TypeRejected

  /** The server's `_validate_blob`, with the code it raises. */
  function ServerVerdict(keyType: string, blob: Bytes): Verdict {
    var encoded := Read(blob, 0);
    if encoded.None? then Malformed
    else
      var decoded := DecodeAscii(encoded.value.value);
      if decoded.None? then Malformed
      else if decoded.value != keyType then TypeMismatch
      else
        var after := encoded.value.next;
        if keyType == ED25519 then
          var key := Read(blob, after);
          if key.None? || |key.value.value| != 32 then Malformed
          else Ending(blob, key.value.next)
        else if keyType == ECDSA_P256 then
          var curve := Read(blob, after);
          if curve.None? then Malformed
          else
            var point := Read(blob, curve.value.next);
            if point.None? || curve.value.value != Ascii(NISTP256) || |point.value.value| != 65
               || point.value.value[..1] != [4] then Malformed
            else Ending(blob, point.value.next)
        else if keyType == SK_ED25519 then
          var key := Read(blob, after);
          if key.None? then Malformed
          else
            var application := Read(blob, key.value.next);
            if application.None? || |key.value.value| != 32 || |application.value.value| == 0 then Malformed
            else Ending(blob, application.value.next)
        else TypeRejected
  }

  function Ending(blob: Bytes, offset: nat): Verdict {
    if offset == |blob| then Accepted else Malformed
  }

  /** A blob of the given type: its name, then legal fields, then nothing. */
  ghost predicate InGrammar(keyType: string, blob: Bytes) {
    exists fields :: Spells(keyType, fields, blob)
  }

  ghost predicate Spells(keyType: string, fields: seq<Bytes>, blob: Bytes) {
    && IsAscii(keyType) && LegalFields([Ascii(keyType)] + fields) && LegalKey(keyType, fields)
    && blob == Encoding([Ascii(keyType)] + fields)
  }

  lemma SpellsExactly(keyType: string, fields: seq<Bytes>, blob: Bytes)
    requires IsAscii(keyType)
    ensures LegalFields([Ascii(keyType)] + fields) && blob == Encoding([Ascii(keyType)] + fields) <==>
            ReadAll(blob, 0, |fields| + 1) == Some([Ascii(keyType)] + fields)
  {
    ReadAllExactly(blob, 0, [Ascii(keyType)] + fields);
    assert blob[0..] == blob;
  }

  lemma ReadAllOne(blob: Bytes, offset: nat)
    ensures ReadAll(blob, offset, 1) ==
            match Read(blob, offset)
            case Some(b) => if b.next == |blob| then Some([b.value]) else None
            case None => None
  {
    if Read(blob, offset).Some? {
      var b := Read(blob, offset).value;
      assert ReadAll(blob, b.next, 0) == if b.next == |blob| then Some([]) else None;
      assert [b.value] + [] == [b.value];
    }
  }

  lemma ReadAllTwo(blob: Bytes, offset: nat)
    ensures ReadAll(blob, offset, 2) ==
            match Read(blob, offset)
            case None => None
            case Some(b) =>
              match Read(blob, b.next)
              case Some(c) => if c.next == |blob| then Some([b.value, c.value]) else None
              case None => None
  {
    if Read(blob, offset).Some? {
      var b := Read(blob, offset).value;
      ReadAllOne(blob, b.next);
      if Read(blob, b.next).Some? {
        var c := Read(blob, b.next).value;
        assert [b.value] + [c.value] == [b.value, c.value];
      }
    }
  }

  /** For the known types the browser accepts exactly the reading of a legal key. */
  lemma AcceptsAsRead(keyType: string, blob: Bytes)
    requires FieldCount(keyType).Some?
    ensures BrowserAccepts(keyType, blob) <==>
            && Read(blob, 0).Some?
            && DecodeAscii(Read(blob, 0).value.value) == Some(keyType)
            && var rest := ReadAll(blob, Read(blob, 0).value.next, FieldCount(keyType).value);
               rest.Some? && LegalKey(keyType, rest.value)
  {
    if Read(blob, 0).Some? {
      ReadAllOne(blob, Read(blob, 0).value.next);
      ReadAllTwo(blob, Read(blob, 0).value.next);
    }
  }

  /** The browser accepts a blob exactly when it is the encoding of a legal key, with nothing trailing. */
  lemma BrowserAcceptsExactly(keyType: string, blob: Bytes)
    requires FieldCount(keyType).Some?
    ensures BrowserAccepts(keyType, blob) <==> InGrammar(keyType, blob)
  {
    AcceptsAsRead(keyType, blob);
    var n := FieldCount(keyType).value;
    if BrowserAccepts(keyType, blob) {
      var f := Read(blob, 0).value;
      var fields := ReadAll(blob, f.next, n).value;
      DecodeExactly(f.value, keyType);
      SpellsExactly(keyType, fields, blob);
      assert |fields| == n;
      assert Spells(keyType, fields, blob);
    }
    if InGrammar(keyType, blob) {
      var fields :| Spells(keyType, fields, blob);
      SpellsExactly(keyType, fields, blob);
      assert |fields| == n;
      var f := Read(blob, 0).value;
      var rest := ReadAll(blob, f.next, n).value;
      assert [f.value] + rest == [Ascii(keyType)] + fields;
      assert f.value == Ascii(keyType) && rest == fields;
      DecodeExactly(f.value, keyType);
    }
  }

  /** The two validators agree on every blob of the three allowed types. */
  lemma ValidatorsAgree(keyType: string, blob: Bytes)
    requires FieldCount(keyType).Some?
    ensures BrowserAccepts(keyType, blob) <==> ServerVerdict(keyType, blob) == Accepted
  {
    if keyType == ECDSA_P256 && Read(blob, 0).Some? && Read(blob, Read(blob, 0).value.next).Some? {
      DecodeExactly(Read(blob, Read(blob, 0).value.next).value.value, NISTP256);
    }
  }

  /** On any other type the server rejects, while the browser's check alone lets a bare type name pass; its caller
      allows only the three types. */
  lemma ValidatorsAgreeExactly(keyType: string)
    ensures (forall blob :: BrowserAccepts(keyType, blob) <==> ServerVerdict(keyType, blob) == Accepted) <==>
            FieldCount(keyType).Some? || !IsAscii(keyType) || |keyType| > MAX_FIELD
  {
    if FieldCount(keyType).Some? {
      forall blob ensures BrowserAccepts(keyType, blob) <==> ServerVerdict(keyType, blob) == Accepted {
        ValidatorsAgree(keyType, blob);
      }
    } else if IsAscii(keyType) && |keyType| <= MAX_FIELD {
      var blob := SshString(Ascii(keyType));
      ReadExactly(blob, 0, Field(Ascii(keyType), |blob|));
      DecodeExactly(Ascii(keyType), keyType);
      assert BrowserAccepts(keyType, blob) && ServerVerdict(keyType, blob) != Accepted;
    } else {
      forall blob ensures !BrowserAccepts(keyType, blob) {
        if Read(blob, 0).Some? {
          DecodeExactly(Read(blob, 0).value.value, keyType);
          ReadExactly(blob, 0, Read(blob, 0).value);
        }
      }
    }
  }

  // ----- Generated keys -----

  /** `publicBlob` */
  function PublicBlob(publicKey: Bytes): Bytes {
    SshString(Ascii(ED25519)) + SshString(publicKey)
  }

  /** The blob of every 32-byte key is accepted by both sides and decodes back to the key. */
  lemma PublicBlobRoundTrip(publicKey: Bytes)
    requires |publicKey| == 32
    ensures BrowserAccepts(ED25519, PublicBlob(publicKey)) && ServerVerdict(ED25519, PublicBlob(publicKey)) == Accepted
    ensures ReadAll(PublicBlob(publicKey), 0, 2) == Some([Ascii(ED25519), publicKey])
  {
    var blob := PublicBlob(publicKey);
    var fields := [publicKey];
    var all := [Ascii(ED25519)] + fields;
    assert all == [Ascii(ED25519), publicKey];
    assert Encoding([publicKey]) == SshString(publicKey) by {
      assert [publicKey][1..] == [] && Encoding([]) == [];
    }
    assert all[1..] == [publicKey];
    assert blob == Encoding(all);
    assert Spells(ED25519, fields, blob);
    BrowserAcceptsExactly(ED25519, blob);
    ValidatorsAgree(ED25519, blob);
    SpellsExactly(ED25519, fields, blob);
  }

  // ----- The browser's buffers -----

  /** `concatBytes`: one buffer of the total size, filled part by part. */
  method ConcatBytes(values: seq<Bytes>) returns (result: array<byte>)
    ensures fresh(result) && result[..] == Joined(values)
  {
    var size := TotalSize(values);
    result := new byte[size](_ => 0);
    var offset := 0;
    var index := 0;
    while index < |values|
      invariant index <= |values| && offset == |Joined(values[..index])|
      invariant offset + |Joined(values[index..])| == size == result.Length
      invariant result[..offset] == Joined(values[..index])
    {
      var value := values[index];
      JoinedStep(values, index);
      ghost var before := result[..offset];
      forall i | 0 <= i < |value| {
        result[offset + i] := value[i];
      }
      assert result[..offset + |value|] == before + value;
      offset := offset + |value|;
      index := index + 1;
    }
    assert values[..index] == values && values[index..] == [];
    assert result[..] == result[..offset];
  }

  function Joined(values: seq<Bytes>): Bytes {
    if |values| == 0 then [] else values[0] + Joined(values[1..])
  }

  /** `values.reduce((total, value) => total + value.length, 0)` */
  method TotalSize(values: seq<Bytes>) returns (size: nat)
    ensures size == |Joined(values)|
  {
    size := 0;
    var index := 0;
    while index < |values|
      invariant index <= |values| && size + |Joined(values[index..])| == |Joined(values)|
    {
      assert values[index..][1..] == values[index + 1..];
      size := size + |values[index]|;
      index := index + 1;
    }
  }

  lemma {:induction false} JoinedAppend(values: seq<Bytes>, value: Bytes)
    ensures Joined(values + [value]) == Joined(values) + value
  {
    if |values| == 0 {
      assert values + [value] == [value] && [value][1..] == [] && Joined([]) == [];
    } else {
      assert (values + [value])[1..] == values[1..] + [value];
      JoinedAppend(values[1..], value);
    }
  }

  lemma JoinedStep(values: seq<Bytes>, index: nat)
    requires index < |values|
    ensures Joined(values[..index + 1]) == Joined(values[..index]) + values[index]
    ensures Joined(values[index..]) == values[index] + Joined(values[index + 1..])
  {
    assert values[..index + 1] == values[..index] + [values[index]];
    assert values[index..][1..] == values[index + 1..];
    JoinedAppend(values[..index], values[index]);
  }

  /** `publicBlob`, through the buffers. */
  method PublicBlobBuffer(publicKey: Bytes) returns (result: array<byte>)
    ensures result[..] == PublicBlob(publicKey)
  {
    result := ConcatBytes([SshString(Ascii(ED25519)), SshString(publicKey)]);
    ghost var parts := [SshString(Ascii(ED25519)), SshString(publicKey)];
    assert parts[1..] == [SshString(publicKey)] && parts[1..][1..] == [];
    assert Joined([]) == [] && Joined(parts[1..]) == SshString(publicKey);
  }

  /** `validateBlob`, with the offset it advances. */
  method ValidateBlob(keyType: string, blob: Bytes) returns (ok: bool)
    ensures ok == BrowserAccepts(keyType, blob)
    ensures FieldCount(keyType).Some? ==> (ok <==> InGrammar(keyType, blob))
  {
    if FieldCount(keyType).Some? {
      BrowserAcceptsExactly(keyType, blob);
    }
    var embedded := Read(blob, 0);
    if embedded.None? || DecodeAscii(embedded.value.value) != Some(keyType) {
      return false;
    }
    var offset := embedded.value.next;
    if keyType == ED25519 {
      var key := Read(blob, offset);
      if key.None? || |key.value.value| != 32 {
        return false;
      }
      offset := key.value.next;
    } else if keyType == ECDSA_P256 {
      var curve := Read(blob, offset);
      if curve.None? {
        return false;
      }
      var point := Read(blob, curve.value.next);
      if point.None? || DecodeAscii(curve.value.value) != Some(NISTP256) || |point.value.value| != 65
         || point.value.value[0] != 4 {
        return false;
      }
      offset := point.value.next;
    } else if keyType == SK_ED25519 {
      var key := Read(blob, offset);
      if key.None? {
        return false;
      }
      var application := Read(blob, key.value.next);
      if application.None? || |key.value.value| != 32 || |application.value.value| == 0 {
        return false;
      }
      offset := application.value.next;
    }
    return offset == |blob|;
  }
}
