/**
 JavaScript text: sequences of UTF-16 code units, lone surrogates included, with the UTF-8 length
 that `TextEncoder` gives it and the code points that `Array.from` splits it into.
 */
module Utf16 {
  type CodeUnit = u: int | 0 <= u < 0x1_0000
  type Text = seq<CodeUnit>

  predicate IsHigh(u: CodeUnit) { 0xD800 <= u <= 0xDBFF }
  predicate IsLow(u: CodeUnit) { 0xDC00 <= u <= 0xDFFF }

  predicate StartsWithPair(t: Text) {
    |t| > 1 && IsHigh(t[0]) && IsLow(t[1])
  }

  predicate EndsHigh(t: Text) {
    t != [] && IsHigh(t[|t| - 1])
  }

  // ----- UTF-8 length (section 3 of RFC 3629) -----

  /** The bytes of one unpaired unit; a lone surrogate is encoded as U+FFFD, three bytes. */
  function UnitBytes(u: CodeUnit): nat {
    if u < 0x80 then 1 else if u < 0x800 then 2 else 3
  }

  function Utf8Length(t: Text): nat {
    if t == [] then 0
    else if StartsWithPair(t) then 4 + Utf8Length(t[2..])
    else UnitBytes(t[0]) + Utf8Length(t[1..])
  }

  /** Lengths add up wherever the cut does not fall inside a surrogate pair. */
  lemma {:induction false} Utf8LengthAppend(a: Text, b: Text)
    requires EndsHigh(a) ==> b == [] || !IsLow(b[0])
    ensures Utf8Length(a + b) == Utf8Length(a) + Utf8Length(b)
    decreases |a|
  {
    if a == [] {
      assert a + b == b;
    } else if StartsWithPair(a) {
      assert (a + b)[2..] == a[2..] + b;
      Utf8LengthAppend(a[2..], b);
    } else {
      assert (a + b)[1..] == a[1..] + b;
      Utf8LengthAppend(a[1..], b);
    }
  }

  // ----- Code points -----

  function PairPoint(high: CodeUnit, low: CodeUnit): nat
    requires IsHigh(high) && IsLow(low)
  {
    0x1_0000 + (high - 0xD800) * 0x400 + (low - 0xDC00)
  }

  /** The code points of a text; a lone surrogate is a point of its own. */
  function CodePoints(t: Text): seq<nat> {
    if t == [] then []
    else if StartsWithPair(t) then [PairPoint(t[0], t[1])] + CodePoints(t[2..])
    else [t[0]] + CodePoints(t[1..])
  }

  /** A text is determined by its code points. */
  lemma {:induction false} CodePointsInjective(a: Text, b: Text)
    requires CodePoints(a) == CodePoints(b)
    ensures a == b
    decreases |a|
  {
    var pa, pb := CodePoints(a), CodePoints(b);
    if a == [] || b == [] {
    } else if StartsWithPair(a) {
      assert pb[0] >= 0x1_0000 && StartsWithPair(b);
      PairPointInjective(a[0], a[1], b[0], b[1]);
      assert pa[1..] == CodePoints(a[2..]) && pb[1..] == CodePoints(b[2..]);
      CodePointsInjective(a[2..], b[2..]);
      assert a == [a[0], a[1]] + a[2..] && b == [b[0], b[1]] + b[2..];
    } else {
      assert pa[0] < 0x1_0000 && !StartsWithPair(b);
      assert pa[1..] == CodePoints(a[1..]) && pb[1..] == CodePoints(b[1..]);
      CodePointsInjective(a[1..], b[1..]);
      assert a == [a[0]] + a[1..] && b == [b[0]] + b[1..];
    }
  }

  lemma PairPointInjective(h: CodeUnit, l: CodeUnit, h': CodeUnit, l': CodeUnit)
    requires IsHigh(h) && IsLow(l) && IsHigh(h') && IsLow(l')
    requires PairPoint(h, l) == PairPoint(h', l')
    ensures h == h' && l == l'
  {
  }
}
