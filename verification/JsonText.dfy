/**
 Canonical JSON trees and their text (packages-web/angular/src/idempotency.ts:82-93), with the proof
 that the text can be read in one way only.  A tree is what `normalizeJson` returns: an object is the
 list of its entries.
 */
module JsonText {
  import opened Utf16
  import opened CodePointOrder

  /** A finite number is coded by an integer, 0 standing for zero; `-0` has already become 0. */
  datatype Tree =
    | Null
    | Bool(value: bool)
    | Number(code: int)
    | String(text: Text)
    | Array(items: seq<Tree>)
    | Object(entries: seq<(Text, Tree)>)

  // ----- Numerals -----

  predicate NumeralUnit(u: CodeUnit) {
    48 <= u <= 57 || u == 45 || u == 43 || u == 46 || u == 101
  }

  predicate Numeral(t: Text) {
    t != [] && (48 <= t[0] <= 57 || t[0] == 45) && forall i :: 0 <= i < |t| ==> NumeralUnit(t[i])
  }

  /** What is assumed of number printing: numerals only, and different ones for different numbers. */
  ghost predicate Numerals(numeral: int -> Text) {
    (forall n :: Numeral(numeral(n))) && (forall m, n :: numeral(m) == numeral(n) ==> m == n)
  }

  // ----- Strings -----

  function HexDigit(n: nat): CodeUnit
    requires n < 16
  {
    if n < 10 then 48 + n else 87 + n
  }

  function UnicodeEscape(u: CodeUnit): Text {
    [92, 117, HexDigit(u / 4096), HexDigit(u / 256 % 16), HexDigit(u / 16 % 16), HexDigit(u % 16)]
  }

  /** One unit that is not half of a surrogate pair, as `JSON.stringify` writes it. */
  function EscapeUnit(u: CodeUnit): Text {
    if u == 34 then [92, 34]
    else if u == 92 then [92, 92]
    else if u == 8 then [92, 98]
    else if u == 9 then [92, 116]
    else if u == 10 then [92, 110]
    else if u == 12 then [92, 102]
    else if u == 13 then [92, 114]
    else if u < 32 || 0xD800 <= u <= 0xDFFF then UnicodeEscape(u)
    else [u]
  }

  function Escape(t: Text): Text {
    if t == [] then []
    else if StartsWithPair(t) then t[..2] + Escape(t[2..])
    else EscapeUnit(t[0]) + Escape(t[1..])
  }

  function Quote(t: Text): Text {
    [34] + Escape(t) + [34]
  }

  // ----- Trees -----

  const NULL: Text := [110, 117, 108, 108]
  const TRUE: Text := [116, 114, 117, 101]
  const FALSE: Text := [102, 97, 108, 115, 101]

  /** `stringifyCanonical`: `Rest` and `RestEntries` write what follows the first element, each after a comma. */
  function Print(numeral: int -> Text, t: Tree): Text
    decreases t
  {
    match t
    case Null => NULL
    case Bool(value) => if value then TRUE else FALSE
    case Number(code) => numeral(code)
    case String(text) => Quote(text)
    case Array(items) => [91] + (if items == [] then [] else Print(numeral, items[0]) + Rest(numeral, items[1..])) + [93]
    case Object(entries) =>
      [123] + (if entries == [] then [] else PrintEntry(numeral, entries[0]) + RestEntries(numeral, entries[1..])) + [125]
  }

  function Rest(numeral: int -> Text, items: seq<Tree>): Text
    decreases items
  {
    if items == [] then [] else [44] + Print(numeral, items[0]) + Rest(numeral, items[1..])
  }

  function PrintEntry(numeral: int -> Text, entry: (Text, Tree)): Text
    decreases entry
  {
    Quote(entry.0) + [58] + Print(numeral, entry.1)
  }

  function RestEntries(numeral: int -> Text, entries: seq<(Text, Tree)>): Text
    decreases entries
  {
    if entries == [] then [] else [44] + PrintEntry(numeral, entries[0]) + RestEntries(numeral, entries[1..])
  }

  // ----- Strings can be read in one way -----

  lemma UnicodeEscapeUnique(u: CodeUnit, v: CodeUnit)
    requires UnicodeEscape(u) == UnicodeEscape(v)
    ensures u == v
  {
    HexDigitsSumUp(u);
    HexDigitsSumUp(v);
    assert UnicodeEscape(u)[2] == UnicodeEscape(v)[2] && UnicodeEscape(u)[3] == UnicodeEscape(v)[3];
    assert UnicodeEscape(u)[4] == UnicodeEscape(v)[4] && UnicodeEscape(u)[5] == UnicodeEscape(v)[5];
  }

  lemma HexDigitsSumUp(u: CodeUnit)
    ensures u == 4096 * (u / 4096) + 256 * (u / 256 % 16) + 16 * (u / 16 % 16) + u % 16
  {
    assert u / 256 / 16 == u / 4096 && u / 16 / 16 == u / 256;
  }

  /** The second unit of an escape, or 0 when the unit stands for itself. */
  function EscapeKind(u: CodeUnit): CodeUnit {
    if |EscapeUnit(u)| == 1 then 0 else EscapeUnit(u)[1]
  }

  lemma EscapeKindUnique(u: CodeUnit, v: CodeUnit)
    requires EscapeKind(u) == EscapeKind(v) && EscapeKind(u) != 0 && EscapeKind(u) != 117
    ensures u == v
  {
  }

  lemma EscapeUnitUnique(u: CodeUnit, x: Text, v: CodeUnit, y: Text)
    requires EscapeUnit(u) + x == EscapeUnit(v) + y
    ensures u == v && x == y
  {
    var eu, ev := EscapeUnit(u), EscapeUnit(v);
    assert (eu + x)[0] == eu[0] && (ev + y)[0] == ev[0];
    if |eu| > 1 {
      assert (eu + x)[1] == eu[1] && (ev + y)[1] == ev[1];
    }
    assert EscapeKind(u) == EscapeKind(v);
    assert |eu| == |ev|;
    assert (eu + x)[..|eu|] == eu && (ev + y)[..|ev|] == ev;
    if EscapeKind(u) == 117 {
      UnicodeEscapeUnique(u, v);
    } else if EscapeKind(u) != 0 {
      EscapeKindUnique(u, v);
    }
    assert (eu + x)[|eu|..] == x && (ev + y)[|ev|..] == y;
  }

  function Step(t: Text): nat
    requires t != []
    ensures 0 < Step(t) <= |t|
  {
    if StartsWithPair(t) then 2 else 1
  }

  function Chunk(t: Text): Text
    requires t != []
  {
    if StartsWithPair(t) then t[..2] else EscapeUnit(t[0])
  }

  lemma ChunkStarts(t: Text)
    requires t != []
    ensures Chunk(t) != [] && Chunk(t)[0] != 34
  {
  }

  lemma EscapeChunk(t: Text, x: Text)
    requires t != []
    ensures Escape(t) + x == Chunk(t) + (Escape(t[Step(t)..]) + x)
    ensures Chunk(t) != [] && Chunk(t)[0] != 34
  {
    var rest := Escape(t[Step(t)..]);
    assert Escape(t) == Chunk(t) + rest;
    Concat3(Chunk(t), rest, x);
    ChunkStarts(t);
  }

  lemma Concat3(a: Text, b: Text, c: Text)
    ensures a + b + c == a + (b + c)
  {
  }

  lemma ChunkUnique(a: Text, x: Text, b: Text, y: Text)
    requires a != [] && b != [] && Chunk(a) + x == Chunk(b) + y
    ensures Step(a) == Step(b) && a[..Step(a)] == b[..Step(b)] && x == y
  {
    assert (Chunk(a) + x)[0] == Chunk(a)[0] && (Chunk(b) + y)[0] == Chunk(b)[0];
    if StartsWithPair(a) {
      assert StartsWithPair(b);
      assert (Chunk(a) + x)[..2] == a[..2] && (Chunk(b) + y)[..2] == b[..2];
      assert (Chunk(a) + x)[2..] == x && (Chunk(b) + y)[2..] == y;
    } else {
      EscapeUnitUnique(a[0], x, b[0], y);
      assert a[..1] == [a[0]] && b[..1] == [b[0]];
    }
  }

  lemma {:induction false} EscapeUnique(a: Text, x: Text, b: Text, y: Text)
    requires Escape(a) + ([34] + x) == Escape(b) + ([34] + y)
    ensures a == b && x == y
    decreases |a| + |b|
  {
    var qx, qy := [34] + x, [34] + y;
    if a != [] {
      EscapeChunk(a, qx);
      assert (Escape(a) + qx)[0] != 34;
    }
    if b != [] {
      EscapeChunk(b, qy);
      assert (Escape(b) + qy)[0] != 34;
    }
    if a == [] || b == [] {
      assert a == [] ==> Escape(a) + qx == qx;
      assert b == [] ==> Escape(b) + qy == qy;
      assert x == qx[1..] && y == qy[1..];
    } else {
      ChunkUnique(a, Escape(a[Step(a)..]) + qx, b, Escape(b[Step(b)..]) + qy);
      EscapeUnique(a[Step(a)..], x, b[Step(b)..], y);
      assert a == a[..Step(a)] + a[Step(a)..] && b == b[..Step(b)] + b[Step(b)..];
    }
  }

  lemma CutBoth(p: Text, x: Text, q: Text, y: Text)
    requires p == q && p + x == q + y
    ensures x == y
  {
    assert (p + x)[|p|..] == x && (q + y)[|q|..] == y;
  }

  lemma QuoteText(t: Text, x: Text)
    ensures Quote(t) + x == [34] + (Escape(t) + ([34] + x))
  {
    var e := Escape(t);
    assert [34] + e + [34] + x == [34] + (e + ([34] + x));
  }

  lemma QuoteUnique(a: Text, x: Text, b: Text, y: Text)
    requires Quote(a) + x == Quote(b) + y
    ensures a == b && x == y
  {
    QuoteText(a, x);
    QuoteText(b, y);
    CutBoth([34], Escape(a) + ([34] + x), [34], Escape(b) + ([34] + y));
    EscapeUnique(a, x, b, y);
  }

  // ----- Trees can be read in one way -----

  /** Text after which a numeral cannot go on. */
  predicate Closed(x: Text) {
    x == [] || !NumeralUnit(x[0])
  }

  lemma NumeralUnique(m: Text, x: Text, n: Text, y: Text)
    requires Numeral(m) && Numeral(n) && Closed(x) && Closed(y)
    requires m + x == n + y
    ensures m == n && x == y
  {
    NumeralNotLonger(m, x, n, y);
    NumeralNotLonger(n, y, m, x);
    assert (m + x)[..|m|] == m && (n + y)[..|n|] == n;
    assert (m + x)[|m|..] == x && (n + y)[|n|..] == y;
  }

  lemma NumeralNotLonger(m: Text, x: Text, n: Text, y: Text)
    requires Numeral(n) && Closed(x) && m + x == n + y
    ensures |m| >= |n|
  {
    var t := n + y;
    assert forall i :: 0 <= i < |n| ==> NumeralUnit(t[i]);
    assert x != [] ==> t[|m|] == x[0];
  }

  /** The first unit tells the kind of a value. */
  lemma PrintStarts(numeral: int -> Text, t: Tree)
    requires Numerals(numeral)
    ensures Print(numeral, t) != []
    ensures var first := Print(numeral, t)[0];
            match t
            case Null => first == 110
            case Bool(value) => first == if value then 116 else 102
            case Number(_) => 48 <= first <= 57 || first == 45
            case String(_) => first == 34
            case Array(_) => first == 91
            case Object(_) => first == 123
  {
    if t.Number? {
      assert Numeral(numeral(t.code));
    }
  }

  lemma {:induction false} PrintUnique(numeral: int -> Text, a: Tree, x: Text, b: Tree, y: Text)
    requires Numerals(numeral) && Closed(x) && Closed(y)
    requires Print(numeral, a) + x == Print(numeral, b) + y
    ensures a == b && x == y
    decreases a, 1
  {
    PrintStarts(numeral, a);
    PrintStarts(numeral, b);
    var pa, pb := Print(numeral, a), Print(numeral, b);
    assert (pa + x)[0] == pa[0] && (pb + y)[0] == pb[0];
    match a
    case Null => CutBoth(pa, x, pb, y);
    case Bool(_) => CutBoth(pa, x, pb, y);
    case Number(code) =>
      assert Numeral(numeral(code)) && Numeral(numeral(b.code));
      NumeralUnique(pa, x, pb, y);
    case String(text) => QuoteUnique(text, x, b.text, y);
    case Array(items) => ArrayUnique(numeral, items, x, b.items, y);
    case Object(entries) => ObjectUnique(numeral, entries, x, b.entries, y);
  }

  /** After its first unit an array's text is the text of its items each after a comma, without the first comma. */
  lemma ArrayAsRest(numeral: int -> Text, items: seq<Tree>, x: Text)
    requires items != []
    ensures Print(numeral, Array(items)) + x == [91] + (Print(numeral, items[0]) + (Rest(numeral, items[1..]) + ([93] + x)))
    ensures Rest(numeral, items) + ([93] + x) == [44] + (Print(numeral, items[0]) + (Rest(numeral, items[1..]) + ([93] + x)))
  {
    Regroup([91], Print(numeral, items[0]), Rest(numeral, items[1..]), [93], x);
    Regroup([44], Print(numeral, items[0]), Rest(numeral, items[1..]), [93], x);
  }

  lemma EmptyArray(numeral: int -> Text, items: seq<Tree>, x: Text)
    requires Numerals(numeral)
    ensures items == [] ==> Print(numeral, Array(items)) + x == [91, 93] + x
    ensures |Print(numeral, Array(items))| >= 2 && (Print(numeral, Array(items))[1] == 93 <==> items == [])
  {
    if items != [] {
      PrintStarts(numeral, items[0]);
      assert Print(numeral, Array(items))[1] == Print(numeral, items[0])[0];
    }
  }

  lemma {:induction false} ArrayUnique(numeral: int -> Text, a: seq<Tree>, x: Text, b: seq<Tree>, y: Text)
    requires Numerals(numeral)
    requires Print(numeral, Array(a)) + x == Print(numeral, Array(b)) + y
    ensures a == b && x == y
    decreases a, 1
  {
    EmptyArray(numeral, a, x);
    EmptyArray(numeral, b, y);
    var pa, pb := Print(numeral, Array(a)), Print(numeral, Array(b));
    assert (pa + x)[1] == pa[1] && (pb + y)[1] == pb[1];
    if a == [] {
      CutBoth([91, 93], x, [91, 93], y);
    } else {
      ArrayAsRest(numeral, a, x);
      ArrayAsRest(numeral, b, y);
      var ta := Print(numeral, a[0]) + (Rest(numeral, a[1..]) + ([93] + x));
      var tb := Print(numeral, b[0]) + (Rest(numeral, b[1..]) + ([93] + y));
      CutBoth([91], ta, [91], tb);
      RestUnique(numeral, a, x, b, y);
    }
  }

  lemma RestCloses(numeral: int -> Text, items: seq<Tree>, cx: Text)
    requires cx != [] && cx[0] == 93
    ensures Closed(Rest(numeral, items) + cx)
    ensures (Rest(numeral, items) + cx)[0] == if items == [] then 93 else 44
  {
  }

  lemma {:induction false} RestUnique(numeral: int -> Text, a: seq<Tree>, x: Text, b: seq<Tree>, y: Text)
    requires Numerals(numeral)
    requires Rest(numeral, a) + ([93] + x) == Rest(numeral, b) + ([93] + y)
    ensures a == b && x == y
    decreases a, 0
  {
    RestCloses(numeral, a, [93] + x);
    RestCloses(numeral, b, [93] + y);
    if a == [] {
      assert Rest(numeral, a) + ([93] + x) == [93] + x && Rest(numeral, b) + ([93] + y) == [93] + y;
      CutBoth([93], x, [93], y);
    } else {
      ArrayAsRest(numeral, a, x);
      ArrayAsRest(numeral, b, y);
      var ra, rb := Rest(numeral, a[1..]) + ([93] + x), Rest(numeral, b[1..]) + ([93] + y);
      CutBoth([44], Print(numeral, a[0]) + ra, [44], Print(numeral, b[0]) + rb);
      RestCloses(numeral, a[1..], [93] + x);
      RestCloses(numeral, b[1..], [93] + y);
      PrintUnique(numeral, a[0], ra, b[0], rb);
      RestUnique(numeral, a[1..], x, b[1..], y);
      assert a == [a[0]] + a[1..] && b == [b[0]] + b[1..];
    }
  }

  lemma EntryText(numeral: int -> Text, entry: (Text, Tree), x: Text)
    ensures PrintEntry(numeral, entry) + x == Quote(entry.0) + ([58] + (Print(numeral, entry.1) + x))
  {
  }

  lemma {:induction false} EntryUnique(numeral: int -> Text, a: (Text, Tree), x: Text, b: (Text, Tree), y: Text)
    requires Numerals(numeral) && Closed(x) && Closed(y)
    requires PrintEntry(numeral, a) + x == PrintEntry(numeral, b) + y
    ensures a == b && x == y
    decreases a, 1
  {
    EntryText(numeral, a, x);
    EntryText(numeral, b, y);
    var ta, tb := Print(numeral, a.1) + x, Print(numeral, b.1) + y;
    QuoteUnique(a.0, [58] + ta, b.0, [58] + tb);
    CutBoth([58], ta, [58], tb);
    PrintUnique(numeral, a.1, x, b.1, y);
  }

  lemma Regroup(left: Text, first: Text, rest: Text, right: Text, x: Text)
    ensures left + (first + rest) + right + x == left + (first + (rest + (right + x)))
    ensures left + first + rest + (right + x) == left + (first + (rest + (right + x)))
  {
  }

  lemma ObjectAsRest(numeral: int -> Text, entries: seq<(Text, Tree)>, x: Text)
    requires entries != []
    ensures Print(numeral, Object(entries)) + x ==
            [123] + (PrintEntry(numeral, entries[0]) + (RestEntries(numeral, entries[1..]) + ([125] + x)))
    ensures RestEntries(numeral, entries) + ([125] + x) ==
            [44] + (PrintEntry(numeral, entries[0]) + (RestEntries(numeral, entries[1..]) + ([125] + x)))
  {
    Regroup([123], PrintEntry(numeral, entries[0]), RestEntries(numeral, entries[1..]), [125], x);
    Regroup([44], PrintEntry(numeral, entries[0]), RestEntries(numeral, entries[1..]), [125], x);
  }

  lemma EmptyObject(numeral: int -> Text, entries: seq<(Text, Tree)>, x: Text)
    ensures entries == [] ==> Print(numeral, Object(entries)) + x == [123, 125] + x
    ensures |Print(numeral, Object(entries))| >= 2 && (Print(numeral, Object(entries))[1] == 125 <==> entries == [])
  {
    if entries != [] {
      assert Print(numeral, Object(entries))[1] == PrintEntry(numeral, entries[0])[0] == 34;
    }
  }

  lemma {:induction false} ObjectUnique(numeral: int -> Text, a: seq<(Text, Tree)>, x: Text, b: seq<(Text, Tree)>, y: Text)
    requires Numerals(numeral)
    requires Print(numeral, Object(a)) + x == Print(numeral, Object(b)) + y
    ensures a == b && x == y
    decreases a, 1
  {
    EmptyObject(numeral, a, x);
    EmptyObject(numeral, b, y);
    var pa, pb := Print(numeral, Object(a)), Print(numeral, Object(b));
    assert (pa + x)[1] == pa[1] && (pb + y)[1] == pb[1];
    if a == [] {
      CutBoth([123, 125], x, [123, 125], y);
    } else {
      ObjectAsRest(numeral, a, x);
      ObjectAsRest(numeral, b, y);
      var ta := PrintEntry(numeral, a[0]) + (RestEntries(numeral, a[1..]) + ([125] + x));
      var tb := PrintEntry(numeral, b[0]) + (RestEntries(numeral, b[1..]) + ([125] + y));
      CutBoth([123], ta, [123], tb);
      RestEntriesUnique(numeral, a, x, b, y);
    }
  }

  lemma RestEntriesClose(numeral: int -> Text, entries: seq<(Text, Tree)>, cx: Text)
    requires cx != [] && cx[0] == 125
    ensures Closed(RestEntries(numeral, entries) + cx)
    ensures (RestEntries(numeral, entries) + cx)[0] == if entries == [] then 125 else 44
  {
  }

  lemma {:induction false} RestEntriesUnique(numeral: int -> Text, a: seq<(Text, Tree)>, x: Text, b: seq<(Text, Tree)>, y: Text)
    requires Numerals(numeral)
    requires RestEntries(numeral, a) + ([125] + x) == RestEntries(numeral, b) + ([125] + y)
    ensures a == b && x == y
    decreases a, 0
  {
    RestEntriesClose(numeral, a, [125] + x);
    RestEntriesClose(numeral, b, [125] + y);
    if a == [] {
      assert RestEntries(numeral, a) + ([125] + x) == [125] + x && RestEntries(numeral, b) + ([125] + y) == [125] + y;
      CutBoth([125], x, [125], y);
    } else {
      ObjectAsRest(numeral, a, x);
      ObjectAsRest(numeral, b, y);
      var ra, rb := RestEntries(numeral, a[1..]) + ([125] + x), RestEntries(numeral, b[1..]) + ([125] + y);
      CutBoth([44], PrintEntry(numeral, a[0]) + ra, [44], PrintEntry(numeral, b[0]) + rb);
      RestEntriesClose(numeral, a[1..], [125] + x);
      RestEntriesClose(numeral, b[1..], [125] + y);
      EntryUnique(numeral, a[0], ra, b[0], rb);
      RestEntriesUnique(numeral, a[1..], x, b[1..], y);
      assert a == [a[0]] + a[1..] && b == [b[0]] + b[1..];
    }
  }

  /** Different trees have different texts. */
  lemma PrintInjective(numeral: int -> Text, a: Tree, b: Tree)
    requires Numerals(numeral)
    ensures Print(numeral, a) == Print(numeral, b) <==> a == b
  {
    if Print(numeral, a) == Print(numeral, b) {
      assert Print(numeral, a) + [] == Print(numeral, b) + [];
      PrintUnique(numeral, a, [], b, []);
    }
  }

  // ----- The assumption on numerals can be met -----

  function Ones(n: nat): Text
    ensures |Ones(n)| == n && forall i :: 0 <= i < n ==> Ones(n)[i] == 49
  {
    if n == 0 then [] else [49] + Ones(n - 1)
  }

  function Tally(n: int): Text {
    if n == 0 then [48] else if n > 0 then Ones(n) else [45] + Ones(-n)
  }

  lemma NumeralsExist()
    ensures Numerals(Tally)
  {
    forall m, n | Tally(m) == Tally(n) ensures m == n {
      assert Tally(m)[0] == Tally(n)[0] && |Tally(m)| == |Tally(n)|;
    }
  }

  // ----- The text has no lone surrogate -----

  predicate WellFormed(t: Text) {
    t == [] ||
    if StartsWithPair(t) then WellFormed(t[2..]) else !IsHigh(t[0]) && !IsLow(t[0]) && WellFormed(t[1..])
  }

  lemma {:induction false} WellFormedAppend(a: Text, b: Text)
    requires WellFormed(a) && WellFormed(b)
    ensures WellFormed(a + b)
    decreases |a|
  {
    if a == [] {
      assert a + b == b;
    } else if StartsWithPair(a) {
      WellFormedAppend(a[2..], b);
      assert (a + b)[2..] == a[2..] + b;
    } else {
      WellFormedAppend(a[1..], b);
      assert (a + b)[1..] == a[1..] + b;
    }
  }

  lemma {:induction false} PlainIsWellFormed(t: Text)
    requires forall i :: 0 <= i < |t| ==> t[i] < 0xD800
    ensures WellFormed(t)
    decreases |t|
  {
    if t != [] {
      PlainIsWellFormed(t[1..]);
    }
  }

  lemma {:induction false} EscapeIsWellFormed(t: Text)
    ensures WellFormed(Escape(t))
    decreases |t|
  {
    if t == [] {
    } else if StartsWithPair(t) {
      EscapeIsWellFormed(t[2..]);
      assert (t[..2] + Escape(t[2..]))[2..] == Escape(t[2..]);
    } else {
      EscapeIsWellFormed(t[1..]);
      assert WellFormed(EscapeUnit(t[0])) by {
        if |EscapeUnit(t[0])| > 1 {
          PlainIsWellFormed(EscapeUnit(t[0]));
        } else {
          assert EscapeUnit(t[0])[1..] == [];
        }
      }
      WellFormedAppend(EscapeUnit(t[0]), Escape(t[1..]));
    }
  }

  lemma QuoteIsWellFormed(t: Text)
    ensures WellFormed(Quote(t))
  {
    EscapeIsWellFormed(t);
    PlainIsWellFormed([34]);
    WellFormedAppend([34], Escape(t));
    WellFormedAppend([34] + Escape(t), [34]);
  }

  /** Encoding the text in UTF-8 replaces nothing: lone surrogates are escaped. */
  lemma {:induction false} PrintIsWellFormed(numeral: int -> Text, t: Tree)
    requires Numerals(numeral)
    ensures WellFormed(Print(numeral, t))
    decreases t, 1
  {
    match t
    case Null => PlainIsWellFormed(NULL);
    case Bool(_) =>
      PlainIsWellFormed(TRUE);
      PlainIsWellFormed(FALSE);
    case Number(code) =>
      assert Numeral(numeral(code));
      PlainIsWellFormed(numeral(code));
    case String(text) => QuoteIsWellFormed(text);
    case Array(items) =>
      if items != [] {
        PrintIsWellFormed(numeral, items[0]);
        RestIsWellFormed(numeral, items[1..]);
        WellFormedAppend(Print(numeral, items[0]), Rest(numeral, items[1..]));
      }
      Bracketed([91], if items == [] then [] else Print(numeral, items[0]) + Rest(numeral, items[1..]), [93]);
    case Object(entries) =>
      if entries != [] {
        EntryIsWellFormed(numeral, entries[0]);
        RestEntriesAreWellFormed(numeral, entries[1..]);
        WellFormedAppend(PrintEntry(numeral, entries[0]), RestEntries(numeral, entries[1..]));
      }
      Bracketed([123], if entries == [] then [] else PrintEntry(numeral, entries[0]) + RestEntries(numeral, entries[1..]), [125]);
  }

  lemma Bracketed(left: Text, t: Text, right: Text)
    requires |left| == 1 && left[0] < 0xD800 && |right| == 1 && right[0] < 0xD800 && WellFormed(t)
    ensures WellFormed(left + t + right)
  {
    PlainIsWellFormed(left);
    PlainIsWellFormed(right);
    WellFormedAppend(left, t);
    WellFormedAppend(left + t, right);
  }

  lemma {:induction false} RestIsWellFormed(numeral: int -> Text, items: seq<Tree>)
    requires Numerals(numeral)
    ensures WellFormed(Rest(numeral, items))
    decreases items, 0
  {
    if items != [] {
      PrintIsWellFormed(numeral, items[0]);
      RestIsWellFormed(numeral, items[1..]);
      PlainIsWellFormed([44]);
      WellFormedAppend([44], Print(numeral, items[0]));
      WellFormedAppend([44] + Print(numeral, items[0]), Rest(numeral, items[1..]));
    }
  }

  lemma {:induction false} EntryIsWellFormed(numeral: int -> Text, entry: (Text, Tree))
    requires Numerals(numeral)
    ensures WellFormed(PrintEntry(numeral, entry))
    decreases entry, 1
  {
    QuoteIsWellFormed(entry.0);
    PrintIsWellFormed(numeral, entry.1);
    PlainIsWellFormed([58]);
    WellFormedAppend(Quote(entry.0), [58]);
    WellFormedAppend(Quote(entry.0) + [58], Print(numeral, entry.1));
  }

  lemma {:induction false} RestEntriesAreWellFormed(numeral: int -> Text, entries: seq<(Text, Tree)>)
    requires Numerals(numeral)
    ensures WellFormed(RestEntries(numeral, entries))
    decreases entries, 0
  {
    if entries != [] {
      EntryIsWellFormed(numeral, entries[0]);
      RestEntriesAreWellFormed(numeral, entries[1..]);
      PlainIsWellFormed([44]);
      WellFormedAppend([44], PrintEntry(numeral, entries[0]));
      WellFormedAppend([44] + PrintEntry(numeral, entries[0]), RestEntries(numeral, entries[1..]));
    }
  }
}
