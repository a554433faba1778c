/** Splitting terminal input into messages of bounded UTF-8 size, greedily. */
module InputChunks {

  /** `encoder.encode(character).length` */
  function Utf8Length(c: char): (n: nat)
    ensures 1 <= n <= 4
  {
    if c < '\U{0080}' then 1 else if c < '\U{0800}' then 2 else if c <= '\U{ffff}' then 3 else 4
  }

  function Size(s: string): (n: nat)
    ensures n >= |s|
  {
    if |s| == 0 then 0 else Utf8Length(s[0]) + Size(s[1..])
  }

  // ----- The bytes, as section 3 of RFC 3629 lays them out -----

  type Byte = b: int | 0 <= b < 256

  /** A leading byte that tells their number, and six bits in each further byte. */
  function Utf8(c: char): (bytes: seq<Byte>) {
    var n := c as int;
    if n < 0x80 then [n]
    else if n < 0x800 then [0xC0 + n / 0x40, 0x80 + n % 0x40]
    else if n < 0x10000 then [0xE0 + n / 0x1000, 0x80 + n / 0x40 % 0x40, 0x80 + n % 0x40]
    else [0xF0 + n / 0x40000, 0x80 + n / 0x1000 % 0x40, 0x80 + n / 0x40 % 0x40, 0x80 + n % 0x40]
  }

  function Utf8Text(s: string): (bytes: seq<Byte>) {
    if |s| == 0 then [] else Utf8(s[0]) + Utf8Text(s[1..])
  }

  /** How many bytes a leading byte announces; none for a continuation byte or one that is not used. */
  function Announced(lead: Byte): nat {
    if lead < 0x80 then 1
    else if 0xC0 <= lead < 0xE0 then 2
    else if 0xE0 <= lead < 0xF0 then 3
    else if 0xF0 <= lead < 0xF8 then 4
    else 0
  }

  /** The bits that such a number of bytes holds. */
  function Payload(bytes: seq<Byte>): int {
    if |bytes| == 1 then bytes[0]
    else if |bytes| == 2 then (bytes[0] as int - 0xC0) * 0x40 + (bytes[1] as int - 0x80)
    else if |bytes| == 3 then
      (bytes[0] as int - 0xE0) * 0x1000 + (bytes[1] as int - 0x80) * 0x40 + (bytes[2] as int - 0x80)
    else if |bytes| == 4 then
      (bytes[0] as int - 0xF0) * 0x40000 + (bytes[1] as int - 0x80) * 0x1000 + (bytes[2] as int - 0x80) * 0x40
      + (bytes[3] as int - 0x80)
    else -1
  }

  /** A character's bytes announce their number, continue as they should and hold its code point. */
  lemma Utf8ReadsBack(c: char)
    ensures var bytes := Utf8(c);
            && |bytes| == Utf8Length(c) && Announced(bytes[0]) == |bytes| && Payload(bytes) == c as int
            && forall i :: 1 <= i < |bytes| ==> 0x80 <= bytes[i] < 0xC0
  {
    var n := c as int;
    assert n / 0x1000 == n / 0x40 / 0x40 && n / 0x40000 == n / 0x1000 / 0x40;
  }

  /** The size of a text is the number of its bytes. */
  lemma {:induction false} SizeIsBytes(s: string)
    ensures Size(s) == |Utf8Text(s)|
  {
    if |s| > 0 {
      Utf8ReadsBack(s[0]);
      SizeIsBytes(s[1..]);
    }
  }

  /** So the bytes of a text read back as the text. */
  lemma {:induction false} Utf8TextDetermines(a: string, b: string)
    requires Utf8Text(a) == Utf8Text(b)
    ensures a == b
  {
    if |a| > 0 && |b| > 0 {
      Utf8ReadsBack(a[0]);
      Utf8ReadsBack(b[0]);
      FirstDetermined(Utf8(a[0]), Utf8Text(a[1..]), Utf8(b[0]), Utf8Text(b[1..]));
      Utf8TextDetermines(a[1..], b[1..]);
      assert a == [a[0]] + a[1..] && b == [b[0]] + b[1..];
    } else if |a| > 0 {
      Utf8ReadsBack(a[0]);
    } else if |b| > 0 {
      Utf8ReadsBack(b[0]);
    }
  }

  lemma FirstDetermined(a: seq<Byte>, restA: seq<Byte>, b: seq<Byte>, restB: seq<Byte>)
    requires a + restA == b + restB && |a| > 0 && |b| > 0
    requires Announced(a[0]) == |a| && Announced(b[0]) == |b|
    ensures a == b && restA == restB
  {
    assert (a + restA)[0] == a[0] && (b + restB)[0] == b[0];
    assert (a + restA)[..|a|] == a && (b + restB)[..|b|] == b;
    assert (a + restA)[|a|..] == restA && (b + restB)[|b|..] == restB;
  }

  // ----- Splitting -----

  function Flatten(chunks: seq<string>): string {
    if |chunks| == 0 then "" else chunks[0] + Flatten(chunks[1..])
  }

  /** A message the splitter may send: within the bound, or one character that alone is beyond it. */
  predicate Legal(chunk: string, maximumBytes: int) {
    |chunk| == 1 || Size(chunk) <= maximumBytes
  }

  predicate LegalSplit(chunks: seq<string>, value: string, maximumBytes: int) {
    Flatten(chunks) == value && forall i :: 0 <= i < |chunks| ==> Legal(chunks[i], maximumBytes)
  }

  /** How many more characters fit after `size` bytes. */
  function Extent(value: string, size: nat, maximumBytes: int): (n: nat)
    ensures n <= |value|
  {
    if |value| == 0 || size + Utf8Length(value[0]) > maximumBytes then 0
    else 1 + Extent(value[1..], size + Utf8Length(value[0]), maximumBytes)
  }

  /** The first character is always taken. */
  function FirstLength(value: string, maximumBytes: int): (n: nat)
    requires value != ""
    ensures 1 <= n <= |value|
  {
    1 + Extent(value[1..], Utf8Length(value[0]), maximumBytes)
  }

  function Greedy(value: string, maximumBytes: int): seq<string>
    decreases |value|
  {
    if value == "" then []
    else
      var n := FirstLength(value, maximumBytes);
      [value[..n]] + Greedy(value[n..], maximumBytes)
  }

  lemma {:induction false} SizeSplit(s: string, k: nat)
    requires k <= |s|
    ensures Size(s) == Size(s[..k]) + Size(s[k..])
  {
    if k > 0 {
      assert s[1..][..k - 1] == s[..k][1..] && s[1..][k - 1..] == s[k..];
      SizeSplit(s[1..], k - 1);
    } else {
      assert s[0..] == s;
    }
  }

  /** What is taken fits, and nothing longer would. */
  lemma {:induction false} ExtentIsMaximal(value: string, size: nat, maximumBytes: int, n: nat)
    requires n <= |value|
    ensures Extent(value, size, maximumBytes) > 0 ==>
              size + Size(value[..Extent(value, size, maximumBytes)]) <= maximumBytes
    ensures size + Size(value[..n]) <= maximumBytes ==> n <= Extent(value, size, maximumBytes)
    decreases |value|
  {
    if |value| > 0 && size + Utf8Length(value[0]) <= maximumBytes {
      var m := if n == 0 then 0 else n - 1;
      ExtentIsMaximal(value[1..], size + Utf8Length(value[0]), maximumBytes, m);
      var e := Extent(value, size, maximumBytes);
      assert value[..e][1..] == value[1..][..e - 1];
      if n > 0 {
        assert value[..n][1..] == value[1..][..n - 1];
      }
      assert value[1..][..0] == "";
    } else if n > 0 {
      assert value[..n][0] == value[0];
    }
  }

  /** The first chunk is the longest legal prefix. */
  lemma FirstIsLongest(value: string, maximumBytes: int, n: nat)
    requires value != "" && n <= |value|
    ensures Legal(value[..FirstLength(value, maximumBytes)], maximumBytes)
    ensures Legal(value[..n], maximumBytes) ==> n <= FirstLength(value, maximumBytes)
  {
    var f := FirstLength(value, maximumBytes);
    assert value[..f][1..] == value[1..][..f - 1];
    ExtentIsMaximal(value[1..], Utf8Length(value[0]), maximumBytes, if n == 0 then 0 else n - 1);
    if n > 1 {
      assert value[..n][1..] == value[1..][..n - 1];
    }
  }

  /** The chunks are a legal split with no empty part. */
  lemma {:induction false} GreedyIsLegal(value: string, maximumBytes: int)
    ensures LegalSplit(Greedy(value, maximumBytes), value, maximumBytes)
    ensures forall i :: 0 <= i < |Greedy(value, maximumBytes)| ==> Greedy(value, maximumBytes)[i] != ""
    decreases |value|
  {
    if value != "" {
      var n := FirstLength(value, maximumBytes);
      FirstIsLongest(value, maximumBytes, n);
      GreedyIsLegal(value[n..], maximumBytes);
      assert value[..n] + value[n..] == value;
    }
  }

  /** When every character fits by itself, no chunk is beyond the bound. */
  lemma WithinBound(value: string, maximumBytes: int)
    requires maximumBytes >= 4
    ensures forall i :: 0 <= i < |Greedy(value, maximumBytes)| ==> Size(Greedy(value, maximumBytes)[i]) <= maximumBytes
  {
    GreedyIsLegal(value, maximumBytes);
    forall i | 0 <= i < |Greedy(value, maximumBytes)| ensures Size(Greedy(value, maximumBytes)[i]) <= maximumBytes {
      var chunk := Greedy(value, maximumBytes)[i];
      assert |chunk| == 1 ==> Size(chunk) == Utf8Length(chunk[0]) + Size(chunk[1..]);
    }
  }

  /** Starting later never needs more chunks. */
  lemma {:induction false} SuffixNeedsNoMore(value: string, k: nat, maximumBytes: int)
    requires k <= |value|
    ensures |Greedy(value[k..], maximumBytes)| <= |Greedy(value, maximumBytes)|
    decreases |value|
  {
    if k == 0 {
      assert value[0..] == value;
    } else if k < |value| {
      var f := FirstLength(value, maximumBytes);
      if k >= f {
        assert value[f..][k - f..] == value[k..];
        SuffixNeedsNoMore(value[f..], k - f, maximumBytes);
      } else {
        var s := value[k..];
        RestOfFirstFits(value, k, maximumBytes);
        var g := FirstLength(s, maximumBytes);
        assert s[g..] == value[f..][k + g - f..];
        SuffixNeedsNoMore(value[f..], k + g - f, maximumBytes);
      }
    }
  }

  /** From inside the first chunk, one chunk reaches at least as far. */
  lemma RestOfFirstFits(value: string, k: nat, maximumBytes: int)
    requires 0 < k < |value| && k < FirstLength(value, maximumBytes)
    ensures k + FirstLength(value[k..], maximumBytes) >= FirstLength(value, maximumBytes)
  {
    var f := FirstLength(value, maximumBytes);
    FirstIsLongest(value, maximumBytes, f);
    assert value[..f][k..] == value[k..][..f - k];
    SizeSplit(value[..f], k);
    FirstIsLongest(value[k..], maximumBytes, f - k);
  }

  /** No order-preserving split into legal chunks, with or without empty parts, uses fewer. */
  lemma {:induction false} GreedyIsOptimal(value: string, other: seq<string>, maximumBytes: int)
    requires LegalSplit(other, value, maximumBytes)
    ensures |Greedy(value, maximumBytes)| <= |other|
    decreases |other|
  {
    if value != "" {
      var a := other[0];
      assert other[0] + Flatten(other[1..]) == value;
      assert value[|a|..] == Flatten(other[1..]) && value[..|a|] == a;
      GreedyIsOptimal(value[|a|..], other[1..], maximumBytes);
      var f := FirstLength(value, maximumBytes);
      FirstIsLongest(value, maximumBytes, |a|);
      assert value[|a|..][f - |a|..] == value[f..];
      SuffixNeedsNoMore(value[|a|..], f - |a|, maximumBytes);
    }
  }

  /** The chunk under construction, of `size` bytes, with the text still to come. */
  function Continue(current: string, size: nat, rest: string, maximumBytes: int): seq<string> {
    if current == "" then Greedy(rest, maximumBytes)
    else
      var n := Extent(rest, size, maximumBytes);
      [current + rest[..n]] + Greedy(rest[n..], maximumBytes)
  }

  lemma ContinueEmpty(rest: string, maximumBytes: int)
    requires rest != ""
    ensures Continue("", 0, rest, maximumBytes) == Continue([rest[0]], Utf8Length(rest[0]), rest[1..], maximumBytes)
  {
    var n := FirstLength(rest, maximumBytes);
    assert [rest[0]] + rest[1..][..n - 1] == rest[..n];
    assert rest[1..][n - 1..] == rest[n..];
  }

  lemma ContinueOverflow(current: string, size: nat, rest: string, maximumBytes: int)
    requires current != "" && rest != "" && size + Utf8Length(rest[0]) > maximumBytes
    ensures Continue(current, size, rest, maximumBytes) == [current] + Continue("", 0, rest, maximumBytes)
  {
    assert current + rest[..0] == current && rest[0..] == rest;
  }

  lemma ContinueExtend(current: string, size: nat, rest: string, maximumBytes: int)
    requires current != "" && rest != "" && size + Utf8Length(rest[0]) <= maximumBytes
    ensures Continue(current, size, rest, maximumBytes) ==
            Continue(current + [rest[0]], size + Utf8Length(rest[0]), rest[1..], maximumBytes)
  {
    var n := Extent(rest, size, maximumBytes);
    assert current + [rest[0]] + rest[1..][..n - 1] == current + rest[..n];
    assert rest[1..][n - 1..] == rest[n..];
  }

  /** One character, as the loop takes it. */
  lemma ContinueStep(current: string, size: nat, rest: string, maximumBytes: int)
    requires rest != "" && (current == "" ==> size == 0)
    ensures Continue(current, size, rest, maximumBytes) ==
            if current != "" && size + Utf8Length(rest[0]) > maximumBytes
            then [current] + Continue([rest[0]], Utf8Length(rest[0]), rest[1..], maximumBytes)
            else Continue(current + [rest[0]], size + Utf8Length(rest[0]), rest[1..], maximumBytes)
  {
    ContinueEmpty(rest, maximumBytes);
    if current == "" {
      assert current + [rest[0]] == [rest[0]];
    } else if size + Utf8Length(rest[0]) > maximumBytes {
      ContinueOverflow(current, size, rest, maximumBytes);
    } else {
      ContinueExtend(current, size, rest, maximumBytes);
    }
  }

  /** What the greedy split promises: the same text, no empty chunk, no chunk beyond the bound, and no legal split
      with fewer chunks. */
  ghost predicate Best(chunks: seq<string>, value: string, maximumBytes: int) {
    && Flatten(chunks) == value
    && (forall i :: 0 <= i < |chunks| ==> chunks[i] != "")
    && (maximumBytes >= 4 ==> forall i :: 0 <= i < |chunks| ==> |Utf8Text(chunks[i])| <= maximumBytes)
    && (forall other :: LegalSplit(other, value, maximumBytes) ==> |chunks| <= |other|)
  }

  lemma GreedyIsBest(value: string, maximumBytes: int)
    ensures Best(Greedy(value, maximumBytes), value, maximumBytes)
  {
    GreedyIsLegal(value, maximumBytes);
    if maximumBytes >= 4 {
      WithinBound(value, maximumBytes);
      forall i | 0 <= i < |Greedy(value, maximumBytes)|
        ensures |Utf8Text(Greedy(value, maximumBytes)[i])| <= maximumBytes
      {
        SizeIsBytes(Greedy(value, maximumBytes)[i]);
      }
    }
    forall other | LegalSplit(other, value, maximumBytes) ensures |Greedy(value, maximumBytes)| <= |other| {
      GreedyIsOptimal(value, other, maximumBytes);
    }
  }

  /** The loop from a given state on. */
  function Run(chunks: seq<string>, current: string, size: nat, rest: string, maximumBytes: int): seq<string>
    decreases |rest|
  {
    if rest == "" then if current != "" then chunks + [current] else chunks
    else
      var nextSize := Utf8Length(rest[0]);
      if current != "" && size + nextSize > maximumBytes then
        Run(chunks + [current], [rest[0]], nextSize, rest[1..], maximumBytes)
      else Run(chunks, current + [rest[0]], size + nextSize, rest[1..], maximumBytes)
  }

  lemma Reassociate(chunks: seq<string>, current: string, tail: seq<string>)
    ensures chunks + [current] + tail == chunks + ([current] + tail)
  {
  }

  lemma RunEnd(chunks: seq<string>, current: string, size: nat, maximumBytes: int)
    ensures Run(chunks, current, size, "", maximumBytes) == chunks + Continue(current, size, "", maximumBytes)
  {
    assert current + "" == current && Greedy("", maximumBytes) == [] && chunks + [] == chunks;
  }

  /** One round of the loop. */
  lemma RunStep(chunks: seq<string>, current: string, size: nat, rest: string, maximumBytes: int)
    requires rest != ""
    ensures Run(chunks, current, size, rest, maximumBytes)
            == if current != "" && size + Utf8Length(rest[0]) > maximumBytes
               then Run(chunks + [current], [rest[0]], Utf8Length(rest[0]), rest[1..], maximumBytes)
               else Run(chunks, current + [rest[0]], size + Utf8Length(rest[0]), rest[1..], maximumBytes)
  {
  }

  lemma {:induction false} RunContinues(chunks: seq<string>, current: string, size: nat, rest: string,
                                        maximumBytes: int)
    requires current == "" ==> size == 0
    ensures Run(chunks, current, size, rest, maximumBytes) == chunks + Continue(current, size, rest, maximumBytes)
    decreases |rest|
  {
    if rest == "" {
      RunEnd(chunks, current, size, maximumBytes);
    } else {
      var c, tail, n := rest[0], rest[1..], Utf8Length(rest[0]);
      if current != "" && size + n > maximumBytes {
        RunContinues(chunks + [current], [c], n, tail, maximumBytes);
        RunBreaks(chunks, current, size, rest, maximumBytes);
      } else {
        RunContinues(chunks, current + [c], size + n, tail, maximumBytes);
        ContinueStep(current, size, rest, maximumBytes);
        RunStep(chunks, current, size, rest, maximumBytes);
      }
    }
  }

  lemma RunBreaks(chunks: seq<string>, current: string, size: nat, rest: string, maximumBytes: int)
    requires rest != "" && current != "" && size + Utf8Length(rest[0]) > maximumBytes
    requires Run(chunks + [current], [rest[0]], Utf8Length(rest[0]), rest[1..], maximumBytes)
             == chunks + [current] + Continue([rest[0]], Utf8Length(rest[0]), rest[1..], maximumBytes)
    ensures Run(chunks, current, size, rest, maximumBytes) == chunks + Continue(current, size, rest, maximumBytes)
  {
    RunStep(chunks, current, size, rest, maximumBytes);
    ContinueStep(current, size, rest, maximumBytes);
    Reassociate(chunks, current, Continue([rest[0]], Utf8Length(rest[0]), rest[1..], maximumBytes));
  }

  /** The loop computes the greedy split. */
  lemma RunIsGreedy(value: string, maximumBytes: int)
    ensures Run([], "", 0, value, maximumBytes) == Greedy(value, maximumBytes)
  {
    RunContinues([], "", 0, value, maximumBytes);
    assert [] + Greedy(value, maximumBytes) == Greedy(value, maximumBytes);
  }

  /** `inputChunks` */
  method Chunks(value: string, maximumBytes: int := 4096) returns (chunks: seq<string>)
    ensures chunks == Greedy(value, maximumBytes) && Best(chunks, value, maximumBytes)
  {
    chunks := [];
    var current: string, size: nat := "", 0;
    ghost var rest := value;
    for index := 0 to |value|
      invariant rest == value[index..]
      invariant Run(chunks, current, size, rest, maximumBytes) == Run([], "", 0, value, maximumBytes)
    {
      var character := value[index];
      var nextSize := Utf8Length(character);
      if current != "" && size + nextSize > maximumBytes {
        chunks := chunks + [current];
        current, size := "", 0;
      }
      assert "" + [character] == [character];
      current := current + [character];
      size := size + nextSize;
      rest := rest[1..];
    }
    if current != "" {
      chunks := chunks + [current];
    }
    RunIsGreedy(value, maximumBytes);
    GreedyIsBest(value, maximumBytes);
  }
}
