/**
 The base64url decoder used on JWT payloads (packages-web/angular-auth/src/jwt.ts).

 The decoder keeps a JavaScript number that every `<<` wraps to 32 bits and never masks it.  The
 reference decoder is the grouping of section 4 of RFC 4648; the loop is proved equal to it, and
 the reference decoder is proved inverse to the RFC's encoder.
 */
module Base64Url {
  import opened Wrappers

  type Byte = bv8
  type Sextet = s: bv8 | s < 64

  datatype DecodeError = InvalidInput

  /** The letter at each index of the alphabet of line 1. */
  function Letter(k: nat): char
    requires k < 64
  {
    if k < 26 then 'A' + k as char
    else if k < 52 then 'a' + (k - 26) as char
    else if k < 62 then '0' + (k - 52) as char
    else if k == 62 then '+' else '/'
  }

  /** `base64Alphabet.indexOf(c)`. */
  function IndexOf(c: char): (i: int)
    ensures -1 <= i < 64
    ensures i >= 0 ==> Letter(i) == c
    ensures i < 0 ==> forall k | 0 <= k < 64 :: Letter(k) != c
  {
    if 'A' <= c <= 'Z' then (c - 'A') as int
    else if 'a' <= c <= 'z' then (c - 'a') as int + 26
    else if '0' <= c <= '9' then (c - '0') as int + 52
    else if c == '+' then 62 else if c == '/' then 63 else -1
  }

  function Narrow(i: int): Sextet
    requires 0 <= i < 64
  {
    i as bv8
  }

  /** The sextets before the first `=`, unless a character outside the alphabet comes first. */
  function Sextets(value: string): Option<seq<Sextet>> {
    if value == "" || value[0] == '=' then Some([])
    else if IndexOf(value[0]) < 0 then None
    else
      match Sextets(value[1..])
      case None => None
      case Some(rest) => Some([Narrow(IndexOf(value[0]))] + rest)
  }

  function FirstByte(p: Sextet, q: Sextet): Byte { (p << 2) | (q >> 4) }
  function SecondByte(q: Sextet, r: Sextet): Byte { (q << 4) | (r >> 2) }
  function ThirdByte(r: Sextet, s: Sextet): Byte { (r << 6) | s }

  /** Section 4 of RFC 4648: four sextets are three bytes; the bits short of a byte are dropped. */
  function Decode(s: seq<Sextet>): seq<Byte> {
    if |s| < 2 then []
    else if |s| == 2 then [FirstByte(s[0], s[1])]
    else if |s| == 3 then [FirstByte(s[0], s[1]), SecondByte(s[1], s[2])]
    else [FirstByte(s[0], s[1]), SecondByte(s[1], s[2]), ThirdByte(s[2], s[3])] + Decode(s[4..])
  }

  /** The byte one more sextet completes depends only on the position and the sextet before it. */
  function Completed(done: seq<Sextet>, s: Sextet): seq<Byte> {
    if |done| % 4 == 0 then []
    else
      var last := done[|done| - 1];
      if |done| % 4 == 1 then [FirstByte(last, s)]
      else if |done| % 4 == 2 then [SecondByte(last, s)]
      else [ThirdByte(last, s)]
  }

  function FirstGroup(s: seq<Sextet>): seq<Byte>
    requires |s| >= 4
  {
    [FirstByte(s[0], s[1]), SecondByte(s[1], s[2]), ThirdByte(s[2], s[3])]
  }

  lemma DecodeGroup(s: seq<Sextet>)
    requires |s| >= 4
    ensures Decode(s) == FirstGroup(s) + Decode(s[4..])
  {
  }

  lemma DecodeFourth(done: seq<Sextet>, s: Sextet)
    requires |done| == 3
    ensures Decode(done + [s]) == Decode(done) + Completed(done, s)
  {
    var all := done + [s];
    DecodeGroup(all);
    assert all[4..] == [];
    assert FirstGroup(all) == [FirstByte(done[0], done[1]), SecondByte(done[1], done[2])] + [ThirdByte(done[2], s)];
  }

  lemma DecodeTwoMore(done: seq<Sextet>, s: Sextet)
    requires |done| == 2
    ensures Decode(done + [s]) == [FirstByte(done[0], done[1]), SecondByte(done[1], s)]
    ensures Decode(done) == [FirstByte(done[0], done[1])]
  {
  }

  lemma DecodeThird(done: seq<Sextet>, s: Sextet)
    requires |done| == 2
    ensures Decode(done + [s]) == Decode(done) + Completed(done, s)
  {
    DecodeTwoMore(done, s);
  }

  lemma DecodeSecond(done: seq<Sextet>, s: Sextet)
    requires |done| == 1
    ensures Decode(done + [s]) == Decode(done) + Completed(done, s)
  {
    assert Decode(done + [s]) == [FirstByte(done[0], s)];
  }

  lemma DecodeFirst(done: seq<Sextet>, s: Sextet)
    requires done == []
    ensures Decode(done + [s]) == Decode(done) + Completed(done, s)
  {
    assert done + [s] == [s];
  }

  lemma DecodeSnocShort(done: seq<Sextet>, s: Sextet)
    requires |done| < 4
    ensures Decode(done + [s]) == Decode(done) + Completed(done, s)
  {
    match |done| {
      case 0 => DecodeFirst(done, s);
      case 1 => DecodeSecond(done, s);
      case 2 => DecodeThird(done, s);
      case _ => DecodeFourth(done, s);
    }
  }

  lemma Regroup(a: seq<Byte>, b: seq<Byte>, c: seq<Byte>)
    ensures a + (b + c) == a + b + c
  {
  }

  lemma {:induction false} DecodeSnoc(done: seq<Sextet>, s: Sextet)
    ensures Decode(done + [s]) == Decode(done) + Completed(done, s)
    decreases |done|
  {
    if |done| < 4 {
      DecodeSnocShort(done, s);
    } else {
      var all, tail := done + [s], done[4..];
      DecodeSnoc(tail, s);
      assert all[4..] == tail + [s];
      DecodeGroup(done);
      DecodeGroup(all);
      CompletedTail(done, s);
      Regroup(FirstGroup(done), Decode(tail), Completed(tail, s));
    }
  }

  lemma CompletedTail(done: seq<Sextet>, s: Sextet)
    requires |done| >= 4
    ensures Completed(done[4..], s) == Completed(done, s)
  {
    assert |done[4..]| % 4 == |done| % 4;
  }

  // ----- The loop -----

  /** The bits waiting after `n` sextets: never eight or more. */
  function Waiting(n: nat): (bits: nat) {
    if n % 4 == 0 then 0 else if n % 4 == 1 then 6 else if n % 4 == 2 then 4 else 2
  }

  /** JavaScript's `>>` on a 32-bit number, which copies the sign bit in from the left. */
  function SignedShift(buffer: bv32, bits: nat): bv32
    requires bits in {0, 2, 4}
  {
    var negative := buffer >= 0x8000_0000;
    if bits == 0 then buffer
    else if bits == 2 then (buffer >> 2) | (if negative then 0xC000_0000 else 0)
    else (buffer >> 4) | (if negative then 0xF000_0000 else 0)
  }

  /** The low six bits of the accumulator are always the last sextet. */
  predicate Intact(buffer: bv32, done: seq<Sextet>) {
    done != [] ==> Holds(buffer, done[|done| - 1])
  }

  predicate Holds(buffer: bv32, last: Sextet) {
    buffer & 0x3f == last as bv32
  }

  function Push(buffer: bv32, sextet: Sextet): bv32 {
    (buffer << 6) | (sextet as bv32)
  }

  function Emit(buffer: bv32, bits: nat): Byte
    requires bits in {0, 2, 4}
  {
    (SignedShift(buffer, bits) & 0xff) as bv8
  }

  /** `decodeBase64`, with the accumulator wrapped to 32 bits and never masked. */
  method DecodeBase64(value: string) returns (r: Result<seq<Byte>, DecodeError>)
    ensures Sextets(value) == None ==> r == Err(InvalidInput)
    ensures Sextets(value).Some? ==> r == Ok(Decode(Sextets(value).value))
  {
    var output: seq<Byte> := [];
    var buffer: bv32, bits := 0, 0;
    ghost var done: seq<Sextet> := [];
    var i := 0;
    assert value[0..] == value;
    PrependNothing(Sextets(value));
    while i < |value|
      invariant 0 <= i <= |value|
      invariant Consistent(done, buffer, bits, output)
      invariant Sextets(value) == Prepend(done, Sextets(value[i..]))
    {
      var character := value[i];
      if character == '=' {
        PrependEnd(done, value[i..]);
        return Ok(output);
      }
      var index := IndexOf(character);
      if index < 0 {
        return Err(InvalidInput);
      }
      SextetsStep(done, value[i..]);
      assert value[i..][1..] == value[i + 1..];
      buffer, bits, output := Turn(buffer, bits, output, Narrow(index), done);
      done := done + [Narrow(index)];
      i := i + 1;
    }
    PrependEnd(done, value[i..]);
    return Ok(output);
  }

  /** The body of the loop once the sextet is known. */
  method Turn(buffer: bv32, bits: nat, output: seq<Byte>, sextet: Sextet, ghost done: seq<Sextet>)
    returns (buffer': bv32, bits': nat, output': seq<Byte>)
    requires Consistent(done, buffer, bits, output)
    ensures Consistent(done + [sextet], buffer', bits', output')
  {
    PushKeepsIntactBits(buffer, 0, sextet);
    DecodeSnoc(done, sextet);
    Quiet(done, sextet);
    buffer', bits', output' := Push(buffer, sextet), bits + 6, output;
    if bits' >= 8 {
      bits' := bits' - 8;
      EmitsCompleted(buffer, done, sextet, bits');
      output' := output + [Emit(buffer', bits')];
    }
  }

  /** What the loop knows after the sextets `done`. */
  ghost predicate Consistent(done: seq<Sextet>, buffer: bv32, bits: nat, output: seq<Byte>) {
    bits == Waiting(|done|) && Intact(buffer, done) && output == Decode(done)
  }

  lemma PrependEnd(done: seq<Sextet>, rest: string)
    requires rest == "" || rest[0] == '='
    ensures Prepend(done, Sextets(rest)) == Some(done)
  {
    assert done + [] == done;
  }

  ghost function Prepend(done: seq<Sextet>, rest: Option<seq<Sextet>>): Option<seq<Sextet>> {
    match rest
    case None => None
    case Some(s) => Some(done + s)
  }

  lemma PrependNothing(rest: Option<seq<Sextet>>)
    ensures Prepend([], rest) == rest
  {
    if rest.Some? {
      assert [] + rest.value == rest.value;
    }
  }

  lemma SextetsStep(done: seq<Sextet>, value: string)
    requires value != "" && value[0] != '=' && IndexOf(value[0]) >= 0
    ensures Prepend(done, Sextets(value)) == Prepend(done + [Narrow(IndexOf(value[0]))], Sextets(value[1..]))
  {
    if Sextets(value[1..]).Some? {
      var rest := Sextets(value[1..]).value;
      assert done + ([Narrow(IndexOf(value[0]))] + rest) == done + [Narrow(IndexOf(value[0]))] + rest;
    }
  }

  /** Wrapping to 32 bits never damages a bit the decoder still reads. */
  lemma PushKeepsIntactBits(buffer: bv32, last: Sextet, sextet: Sextet)
    ensures Holds(Push(buffer, sextet), sextet)
    ensures Holds(buffer, last) ==>
              && Emit(Push(buffer, sextet), 4) == FirstByte(last, sextet)
              && Emit(Push(buffer, sextet), 2) == SecondByte(last, sextet)
              && Emit(Push(buffer, sextet), 0) == ThirdByte(last, sextet)
  {
    if Holds(buffer, last) {
      EmitFirst(buffer, last, sextet);
      EmitSecond(buffer, last, sextet);
      EmitThird(buffer, last, sextet);
    }
  }

  lemma EmitFirst(buffer: bv32, last: Sextet, sextet: Sextet)
    requires Holds(buffer, last)
    ensures Emit(Push(buffer, sextet), 4) == FirstByte(last, sextet)
  {
  }

  lemma EmitSecond(buffer: bv32, last: Sextet, sextet: Sextet)
    requires Holds(buffer, last)
    ensures Emit(Push(buffer, sextet), 2) == SecondByte(last, sextet)
  {
  }

  lemma EmitThird(buffer: bv32, last: Sextet, sextet: Sextet)
    requires Holds(buffer, last)
    ensures Emit(Push(buffer, sextet), 0) == ThirdByte(last, sextet)
  {
  }

  /** What one turn of the loop emits is exactly what the RFC's grouping completes. */
  lemma EmitsCompleted(buffer: bv32, done: seq<Sextet>, sextet: Sextet, bits: nat)
    requires Intact(buffer, done)
    requires bits + 2 == Waiting(|done|)
    ensures Completed(done, sextet) == [Emit(Push(buffer, sextet), bits)]
  {
    PushKeepsIntactBits(buffer, done[|done| - 1], sextet);
  }

  lemma Quiet(done: seq<Sextet>, sextet: Sextet)
    ensures Waiting(|done| + 1) == if Waiting(|done|) == 0 then 6 else Waiting(|done|) - 2
    ensures Waiting(|done|) == 0 ==> Completed(done, sextet) == []
  {
  }

  // ----- RFC 4648 -----

  function FirstSextet(a: Byte): Sextet { a >> 2 }
  function SecondSextet(a: Byte, b: Byte): Sextet { ((a & 0x3) << 4) | (b >> 4) }
  function ThirdSextet(b: Byte, c: Byte): Sextet { ((b & 0xf) << 2) | (c >> 6) }
  function LastSextet(c: Byte): Sextet { c & 0x3f }

  /** The six-bit groups of section 4 of RFC 4648, final group zero-filled. */
  function SextetsOf(bytes: seq<Byte>): seq<Sextet> {
    if |bytes| == 0 then []
    else if |bytes| == 1 then [FirstSextet(bytes[0]), SecondSextet(bytes[0], 0)]
    else if |bytes| == 2 then
      [FirstSextet(bytes[0]), SecondSextet(bytes[0], bytes[1]), ThirdSextet(bytes[1], 0)]
    else
      [FirstSextet(bytes[0]), SecondSextet(bytes[0], bytes[1]), ThirdSextet(bytes[1], bytes[2]), LastSextet(bytes[2])]
      + SextetsOf(bytes[3..])
  }

  /** The letter of a sextet in the url and filename safe alphabet, section 5 of RFC 4648. */
  function UrlLetter(s: Sextet): char {
    var k := s as int;
    if k == 62 then '-' else if k == 63 then '_' else Letter(k)
  }

  /** The base64url text of section 5 of RFC 4648, without padding. */
  function EncodeUrl(bytes: seq<Byte>): string {
    Letters(SextetsOf(bytes))
  }

  function Letters(sextets: seq<Sextet>): string {
    if sextets == [] then "" else [UrlLetter(sextets[0])] + Letters(sextets[1..])
  }

  lemma GroupOfBytes(a: Byte, b: Byte, c: Byte)
    ensures FirstByte(FirstSextet(a), SecondSextet(a, b)) == a
    ensures SecondByte(SecondSextet(a, b), ThirdSextet(b, c)) == b
    ensures ThirdByte(ThirdSextet(b, c), LastSextet(c)) == c
  {
  }

  lemma GroupOfSextets(p: Sextet, q: Sextet, r: Sextet, s: Sextet)
    ensures FirstSextet(FirstByte(p, q)) == p
    ensures SecondSextet(FirstByte(p, q), SecondByte(q, r)) == q
    ensures ThirdSextet(SecondByte(q, r), ThirdByte(r, s)) == r
    ensures LastSextet(ThirdByte(r, s)) == s
    ensures SecondSextet(FirstByte(p, q), 0) == q <==> q & 0xf == 0
    ensures ThirdSextet(SecondByte(q, r), 0) == r <==> r & 0x3 == 0
  {
  }

  /** Decoding undoes encoding on every byte sequence. */
  lemma {:induction false} DecodeInvertsSextets(bytes: seq<Byte>)
    ensures Decode(SextetsOf(bytes)) == bytes
  {
    var s := SextetsOf(bytes);
    if |bytes| == 1 {
      GroupOfBytes(bytes[0], 0, 0);
    } else if |bytes| == 2 {
      GroupOfBytes(bytes[0], bytes[1], 0);
    } else if |bytes| >= 3 {
      GroupOfBytes(bytes[0], bytes[1], bytes[2]);
      DecodeInvertsSextets(bytes[3..]);
      assert s[4..] == SextetsOf(bytes[3..]);
      assert bytes == [bytes[0], bytes[1], bytes[2]] + bytes[3..];
    }
  }

  /** A canonical group string: no lone final sextet, and zero fill bits. */
  predicate Canonical(s: seq<Sextet>) {
    && |s| % 4 != 1
    && (|s| % 4 == 2 ==> s[|s| - 1] & 0xf == 0)
    && (|s| % 4 == 3 ==> s[|s| - 1] & 0x3 == 0)
  }

  /** Decoding forgets nothing exactly on canonical input. */
  lemma {:induction false} EncodeInvertsDecode(s: seq<Sextet>)
    ensures SextetsOf(Decode(s)) == s <==> Canonical(s)
    decreases |s|
  {
    if |s| < 4 {
      EncodeShort(s);
    } else {
      EncodeGroup(s);
      EncodeInvertsDecode(s[4..]);
      var head, tail, again := s[..4], s[4..], SextetsOf(Decode(s[4..]));
      assert s == head + tail;
      assert (head + again)[4..] == again;
      CanonicalTail(s);
    }
  }

  lemma CanonicalTail(s: seq<Sextet>)
    requires |s| >= 4
    ensures Canonical(s) <==> Canonical(s[4..])
  {
    assert |s| % 4 == |s[4..]| % 4;
    assert |s| > 4 ==> s[|s| - 1] == s[4..][|s| - 5];
  }

  lemma EncodeTwo(s: seq<Sextet>)
    requires |s| == 2
    ensures SextetsOf(Decode(s)) == s <==> Canonical(s)
  {
    GroupOfSextets(s[0], s[1], 0, 0);
  }

  lemma EncodeThree(s: seq<Sextet>)
    requires |s| == 3
    ensures SextetsOf(Decode(s)) == s <==> Canonical(s)
  {
    GroupOfSextets(s[0], s[1], s[2], 0);
  }

  lemma EncodeShort(s: seq<Sextet>)
    requires |s| < 4
    ensures SextetsOf(Decode(s)) == s <==> Canonical(s)
  {
    match |s| {
      case 2 => EncodeTwo(s);
      case 3 => EncodeThree(s);
      case _ => assert Decode(s) == [];
    }
  }

  lemma {:induction false} EncodeGroup(s: seq<Sextet>)
    requires |s| >= 4
    ensures SextetsOf(Decode(s)) == s[..4] + SextetsOf(Decode(s[4..]))
  {
    GroupOfSextets(s[0], s[1], s[2], s[3]);
    assert Decode(s)[3..] == Decode(s[4..]);
    assert s[..4] == [s[0], s[1], s[2], s[3]];
  }

  // ----- decodeBase64Url -----

  function NormalizeLetter(c: char): char {
    if c == '-' then '+' else if c == '_' then '/' else c
  }

  /** `value.replace(/-/g, '+').replace(/_/g, '/')`. */
  function Normalize(value: string): (r: string) {
    if value == "" then "" else [NormalizeLetter(value[0])] + Normalize(value[1..])
  }

  function Padding(length: nat): string {
    if length % 4 == 0 then "" else if length % 4 == 1 then "===" else if length % 4 == 2 then "==" else "="
  }

  /** `decodeBase64Url` up to the bytes it hands to `TextDecoder`. */
  method DecodeBase64Url(value: string) returns (r: Result<seq<Byte>, DecodeError>)
    ensures Sextets(Normalize(value)) == None ==> r == Err(InvalidInput)
    ensures Sextets(Normalize(value)).Some? ==> r == Ok(Decode(Sextets(Normalize(value)).value))
  {
    var normalized := Normalize(value);
    PaddingIsIgnored(normalized, Padding(|normalized|));
    r := DecodeBase64(normalized + Padding(|normalized|));
  }

  lemma {:induction false} PaddingIsIgnored(value: string, padding: string)
    requires padding == "" || padding[0] == '='
    ensures Sextets(value + padding) == Sextets(value)
  {
    if value == "" {
      assert value + padding == padding;
    } else {
      assert (value + padding)[1..] == value[1..] + padding;
      PaddingIsIgnored(value[1..], padding);
    }
  }

  /** Each letter of the url alphabet, normalized, is found at its own index. */
  lemma UrlLetterIndex(s: Sextet)
    ensures var n := NormalizeLetter(UrlLetter(s));
            n != '=' && IndexOf(n) >= 0 && Narrow(IndexOf(n)) == s
  {
    var k := s as int;
    assert IndexOf(Letter(k)) == k;
    assert NormalizeLetter(UrlLetter(s)) == Letter(k);
    assert Narrow(k) == s;
  }

  lemma {:induction false} LettersRoundTrip(sextets: seq<Sextet>)
    ensures Sextets(Normalize(Letters(sextets))) == Some(sextets)
  {
    if sextets != [] {
      var text := Letters(sextets);
      LettersRoundTrip(sextets[1..]);
      UrlLetterIndex(sextets[0]);
      assert text[0] == UrlLetter(sextets[0]) && text[1..] == Letters(sextets[1..]);
      assert Normalize(text)[1..] == Normalize(text[1..]);
      assert [sextets[0]] + sextets[1..] == sextets;
    }
  }

  /** With the contract of `DecodeBase64Url`: any bytes come back from their unpadded text. */
  lemma RoundTrip(bytes: seq<Byte>)
    ensures var sextets := Sextets(Normalize(EncodeUrl(bytes)));
            sextets.Some? && Decode(sextets.value) == bytes
  {
    LettersRoundTrip(SextetsOf(bytes));
    DecodeInvertsSextets(bytes);
  }
}
