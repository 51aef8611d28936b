/**
 Cache-Control text (tools/http-cache-semantics-safe/index.js:67-75 and 91-143): parsing a header
 into a directive map, normalizing such a map, and printing it again.

 A JavaScript object with string keys is a `map`; `order` is the order in which a loop over the
 object's keys meets them.
 */
module CacheControl {
  import opened Wrappers

  /** A directive's value: `true` for a bare directive, else its text. */
  datatype Value = Flag | Str(text: string)

  type Directives = map<string, Value>

  predicate Truthy(value: Value) {
    value != Str("")
  }

  /** The directive is present with a value other than the empty text. */
  predicate On(cc: Directives, name: string) {
    name in cc && Truthy(cc[name])
  }

  // ----- Text -----

  /** White space and line terminators, as `trim` and `\s` count them. */
  predicate Space(c: char) {
    var code := c as int;
    9 <= code <= 13 || code == 32 || code == 0xA0 || code == 0x1680 || 0x2000 <= code <= 0x200A ||
    code == 0x2028 || code == 0x2029 || code == 0x202F || code == 0x205F || code == 0x3000 || code == 0xFEFF
  }

  function TrimStart(s: string): string {
    if s != "" && Space(s[0]) then TrimStart(s[1..]) else s
  }

  function TrimEnd(s: string): string {
    if s != "" && Space(s[|s| - 1]) then TrimEnd(s[..|s| - 1]) else s
  }

  function Trim(s: string): string {
    TrimEnd(TrimStart(s))
  }

  predicate Trimmed(s: string) {
    s != "" ==> !Space(s[0]) && !Space(s[|s| - 1])
  }

  function LowerChar(c: char): char {
    if 'A' <= c <= 'Z' then c - 'A' + 'a' else c
  }

  function Lower(s: string): (r: string)
    ensures |r| == |s|
    ensures forall i :: 0 <= i < |s| ==> r[i] == LowerChar(s[i])
  {
    if s == "" then "" else [LowerChar(s[0])] + Lower(s[1..])
  }

  /** Where the first separator stands, or the length. */
  function Until(s: string, separator: char): (n: nat)
    ensures n <= |s| && separator !in s[..n] && (n < |s| ==> s[n] == separator)
  {
    if s == "" || s[0] == separator then 0
    else
      assert s == [s[0]] + s[1..];
      1 + Until(s[1..], separator)
  }

  function Split(s: string, separator: char): (parts: seq<string>)
    ensures |parts| >= 1
  {
    var n := Until(s, separator);
    if n == |s| then [s] else [s[..n]] + Split(s[n + 1..], separator)
  }

  /** Drops one leading and one trailing quotation mark. */
  function StripQuotes(s: string): string {
    var unquoted := if s != "" && s[0] == '"' then s[1..] else s;
    if unquoted != "" && unquoted[|unquoted| - 1] == '"' then unquoted[..|unquoted| - 1] else unquoted
  }

  function Key(raw: string): string {
    Lower(Trim(raw))
  }

  predicate NormalKey(key: string) {
    Trimmed(key) && forall i :: 0 <= i < |key| ==> LowerChar(key[i]) == key[i]
  }

  // ----- Numbers -----

  function Digits(s: string, value: int): int {
    if s != "" && '0' <= s[0] <= '9' then Digits(s[1..], value * 10 + (s[0] as int - '0' as int)) else value
  }

  /** `toNumberOrZero`: the decimal integer a text starts with, or 0. */
  function Number(s: string): int {
    var body := TrimStart(s);
    if body != "" && body[0] == '-' then -Digits(body[1..], 0)
    else if body != "" && body[0] == '+' then Digits(body[1..], 0)
    else Digits(body, 0)
  }

  function NumberOf(cc: Directives, name: string): int {
    if name in cc && cc[name].Str? then Number(cc[name].text) else 0
  }

  // ----- Parsing -----

  /** Writing a text or `true` to `__proto__` leaves an object as it is. */
  const PROTO := "__proto__"

  function Assign(cc: Directives, key: string, value: Value): Directives {
    if key == PROTO then cc else cc[key := value]
  }

  predicate Restrictive(key: string) {
    key == "private" || key == "no-store" || key == "no-cache" || key == "must-revalidate" || key == "proxy-revalidate"
  }

  /** A restrictive directive with an empty value counts as bare. */
  function Firm(key: string, value: Value): Value {
    if Restrictive(key) && !Truthy(value) then Flag else value
  }

  /** The loop of `normalizeCacheControl` over the keys still to come. */
  function NormalizeFrom(done: Directives, directives: Directives, order: seq<string>): Directives
    requires forall key :: key in order ==> key in directives
    decreases |order|
  {
    if order == [] then done
    else
      var key := Key(order[0]);
      NormalizeFrom(Assign(done, key, Firm(key, directives[order[0]])), directives, order[1..])
  }

  ghost predicate Lists(order: seq<string>, directives: Directives) {
    (forall key :: key in order <==> key in directives) &&
    forall i, j :: 0 <= i < j < |order| ==> order[i] != order[j]
  }

  function Normalize(directives: Directives, order: seq<string>): Directives
    requires forall key :: key in order ==> key in directives
  {
    NormalizeFrom(map[], directives, order)
  }

  method NormalizeCacheControl(directives: Directives, order: seq<string>) returns (normalized: Directives)
    requires Lists(order, directives)
    ensures normalized == Normalize(directives, order)
  {
    normalized := map[];
    for i := 0 to |order|
      invariant NormalizeFrom(normalized, directives, order[i..]) == Normalize(directives, order)
    {
      var key := Key(order[i]);
      normalized := Assign(normalized, key, Firm(key, directives[order[i]]));
      assert order[i..][1..] == order[i + 1..];
    }
  }

  /** One comma-separated part: its key and its value up to a second `=`. */
  function PartValue(part: string): Value {
    var pieces := Split(part, '=');
    if |pieces| < 2 then Flag else Str(StripQuotes(Trim(pieces[1])))
  }

  function PartKey(part: string): string {
    Key(Split(part, '=')[0])
  }

  function ReadParts(done: Directives, parts: seq<string>): Directives
    decreases |parts|
  {
    if parts == [] then done
    else ReadParts(Assign(done, PartKey(parts[0]), PartValue(parts[0])), parts[1..])
  }

  /** What a normalized directive map is. */
  ghost predicate Normal(cc: Directives) {
    forall key :: key in cc ==> NormalKey(key) && key != PROTO && Firm(key, cc[key]) == cc[key]
  }

  /** Every restrictive directive firm, whatever the order of the keys. */
  function FirmAll(cc: Directives): Directives {
    map key | key in cc :: Firm(key, cc[key])
  }

  function Parse(header: Option<string>): Directives {
    if header == None || header.value == "" then map[]
    else FirmAll(ReadParts(map[], Split(Trim(header.value), ',')))
  }

  /** The keys in the order in which the parts first set them. */
  function ReadKeys(order: seq<string>, parts: seq<string>): seq<string>
    decreases |parts|
  {
    if parts == [] then order
    else
      var key := PartKey(parts[0]);
      ReadKeys(if key == PROTO || key in order then order else order + [key], parts[1..])
  }

  function Keys(header: Option<string>): seq<string> {
    if header == None || header.value == "" then []
    else ReadKeys([], Split(Trim(header.value), ','))
  }

  lemma {:induction false} ReadKeysListRead(cc: Directives, order: seq<string>, parts: seq<string>)
    requires Lists(order, cc)
    ensures Lists(ReadKeys(order, parts), ReadParts(cc, parts))
    decreases |parts|
  {
    if parts != [] {
      var key := PartKey(parts[0]);
      ReadKeysListRead(Assign(cc, key, PartValue(parts[0])),
                       if key == PROTO || key in order then order else order + [key], parts[1..]);
    }
  }

  lemma KeysListParsed(header: Option<string>)
    ensures Lists(Keys(header), Parse(header))
  {
    if header.Some? && header.value != "" {
      ReadKeysListRead(map[], [], Split(Trim(header.value), ','));
    }
  }

  lemma {:induction false} ReadPartsNormal(done: Directives, parts: seq<string>)
    requires forall key :: key in done ==> NormalKey(key) && key != PROTO
    ensures forall key :: key in ReadParts(done, parts) ==> NormalKey(key) && key != PROTO
    decreases |parts|
  {
    if parts != [] {
      KeyIsNormal(Split(parts[0], '=')[0]);
      ReadPartsNormal(Assign(done, PartKey(parts[0]), PartValue(parts[0])), parts[1..]);
    }
  }

  /** What is left to read gives what all the parts give. */
  ghost predicate Reading(cc: Directives, order: seq<string>, parts: seq<string>, i: nat)
    requires i <= |parts|
  {
    ReadParts(cc, parts[i..]) == ReadParts(map[], parts) && ReadKeys(order, parts[i..]) == ReadKeys([], parts)
  }

  function WithKey(order: seq<string>, key: string): seq<string> {
    if key == PROTO || key in order then order else order + [key]
  }

  lemma ReadNext(cc: Directives, order: seq<string>, parts: seq<string>, i: nat)
    requires i < |parts| && Reading(cc, order, parts, i)
    ensures Reading(Assign(cc, PartKey(parts[i]), PartValue(parts[i])), WithKey(order, PartKey(parts[i])), parts, i + 1)
  {
    assert parts[i..][1..] == parts[i + 1..];
  }

  lemma ReadAll(cc: Directives, order: seq<string>, parts: seq<string>)
    requires Reading(cc, order, parts, |parts|)
    ensures cc == ReadParts(map[], parts) && order == ReadKeys([], parts) && Lists(order, cc)
    ensures forall key :: key in cc ==> NormalKey(key) && key != PROTO
  {
    assert parts[|parts|..] == [];
    ReadKeysListRead(map[], [], parts);
    ReadPartsNormal(map[], parts);
  }

  /** The parsed object, and its keys in the order in which they were set. */
  method ParseCacheControl(header: Option<string>) returns (cc: Directives, order: seq<string>)
    ensures cc == Parse(header)
    ensures order == Keys(header) && Lists(order, cc)
  {
    cc, order := map[], [];
    if header == None || header.value == "" {
      return;
    }
    var parts := Split(Trim(header.value), ',');
    assert parts[0..] == parts;
    for i := 0 to |parts|
      invariant Reading(cc, order, parts, i)
    {
      var key, value := PartKey(parts[i]), PartValue(parts[i]);
      ReadNext(cc, order, parts, i);
      if key != PROTO && key !in order {
        order := order + [key];
      }
      cc := Assign(cc, key, value);
    }
    ReadAll(cc, order, parts);
    NormalizeIsFirmAll(cc, order);
    cc := NormalizeCacheControl(cc, order);
  }

  // ----- Printing -----

  function PrintOne(key: string, value: Value): string {
    match value
    case Flag => key
    case Str(text) => key + "=" + text
  }

  function Join(parts: seq<string>): string {
    if parts == [] then ""
    else if |parts| == 1 then parts[0]
    else parts[0] + ", " + Join(parts[1..])
  }

  function PrintAll(cc: Directives, order: seq<string>): (parts: seq<string>)
    requires forall key :: key in order ==> key in cc
    ensures |parts| == |order|
    ensures forall i :: 0 <= i < |order| ==> parts[i] == PrintOne(order[i], cc[order[i]])
  {
    if order == [] then [] else [PrintOne(order[0], cc[order[0]])] + PrintAll(cc, order[1..])
  }

  function Format(cc: Directives, order: seq<string>): Option<string>
    requires forall key :: key in order ==> key in cc
  {
    if order == [] then None else Some(Join(PrintAll(cc, order)))
  }

  method FormatCacheControl(cc: Directives, order: seq<string>) returns (header: Option<string>)
    requires forall key :: key in order ==> key in cc
    ensures header == Format(cc, order)
  {
    var parts: seq<string> := [];
    for i := 0 to |order|
      invariant |parts| == i
      invariant forall j :: 0 <= j < i ==> parts[j] == PrintOne(order[j], cc[order[j]])
    {
      var k := order[i];
      parts := parts + [if cc[k] == Flag then k else k + "=" + cc[k].text];
    }
    assert parts == PrintAll(cc, order);
    header := if parts == [] then None else Some(Join(parts));
  }

  // ----- Trimming and lower-casing -----

  lemma {:induction false} TrimStartShortens(s: string)
    ensures |TrimStart(s)| <= |s|
    ensures |TrimStart(s)| == |s| ==> TrimStart(s) == s
    ensures TrimStart(s) != "" ==> !Space(TrimStart(s)[0]) && TrimStart(s)[|TrimStart(s)| - 1] == s[|s| - 1]
    ensures forall c :: c in TrimStart(s) ==> c in s
  {
    if s != "" && Space(s[0]) {
      TrimStartShortens(s[1..]);
    }
  }

  lemma {:induction false} TrimEndShortens(s: string)
    ensures |TrimEnd(s)| <= |s|
    ensures |TrimEnd(s)| == |s| ==> TrimEnd(s) == s
    ensures TrimEnd(s) != "" ==> TrimEnd(s)[0] == s[0] && !Space(TrimEnd(s)[|TrimEnd(s)| - 1])
    ensures forall c :: c in TrimEnd(s) ==> c in s
  {
    if s != "" && Space(s[|s| - 1]) {
      TrimEndShortens(s[..|s| - 1]);
    }
  }

  lemma TrimTrims(s: string)
    ensures Trimmed(Trim(s))
    ensures |Trim(s)| <= |s|
    ensures |Trim(s)| == |s| ==> Trim(s) == s
    ensures Trimmed(s) ==> Trim(s) == s
    ensures forall c :: c in Trim(s) ==> c in s
  {
    TrimStartShortens(s);
    TrimEndShortens(TrimStart(s));
  }

  lemma KeyIsNormal(raw: string)
    ensures NormalKey(Key(raw))
  {
    TrimTrims(raw);
  }

  /** Key texts that `Key` leaves alone are exactly the trimmed lower-case ones. */
  lemma KeyKeepsExactly(key: string)
    ensures Key(key) == key <==> NormalKey(key)
  {
    TrimTrims(key);
    if NormalKey(key) {
      assert Key(key) == key;
    } else if Key(key) == key {
      KeyIsNormal(key);
    }
  }

  // ----- Normalization -----

  /** What one key holds after the loop of `normalizeCacheControl`. */
  lemma {:induction false} NormalizeFromAt(done: Directives, cc: Directives, order: seq<string>, key: string)
    requires forall k :: k in order ==> k in cc && NormalKey(k) && k != PROTO
    ensures key in NormalizeFrom(done, cc, order) <==> key in done || key in order
    ensures key in order ==> NormalizeFrom(done, cc, order)[key] == Firm(key, cc[key])
    ensures key in done && key !in order ==> NormalizeFrom(done, cc, order)[key] == done[key]
    decreases |order|
  {
    if order != [] {
      var first := order[0];
      KeyKeepsExactly(first);
      NormalizeFromAt(done[first := Firm(first, cc[first])], cc, order[1..], key);
    }
  }

  lemma NormalizeIsFirmAll(cc: Directives, order: seq<string>)
    requires Lists(order, cc)
    requires forall key :: key in cc ==> NormalKey(key) && key != PROTO
    ensures Normalize(cc, order) == FirmAll(cc)
  {
    var all := Normalize(cc, order);
    forall key
      ensures key in all <==> key in cc
      ensures key in cc ==> all[key] == Firm(key, cc[key])
    {
      NormalizeFromAt(map[], cc, order, key);
    }
  }

  lemma {:induction false} NormalizeFromIsNormal(done: Directives, cc: Directives, order: seq<string>)
    requires forall key :: key in order ==> key in cc
    requires Normal(done)
    ensures Normal(NormalizeFrom(done, cc, order))
    decreases |order|
  {
    if order != [] {
      var key := Key(order[0]);
      KeyIsNormal(order[0]);
      NormalizeFromIsNormal(Assign(done, key, Firm(key, cc[order[0]])), cc, order[1..]);
    }
  }

  /** Normalizing always gives a normal map, and changes exactly the maps that are not normal. */
  lemma NormalizeSettles(cc: Directives, order: seq<string>)
    requires Lists(order, cc)
    ensures Normal(Normalize(cc, order))
    ensures Normalize(cc, order) == cc <==> Normal(cc)
  {
    NormalizeFromIsNormal(map[], cc, order);
    if Normal(cc) {
      NormalizeIsFirmAll(cc, order);
    }
  }

  // ----- Splitting -----

  lemma SplitAt(a: string, separator: char, rest: string)
    requires separator !in a
    ensures Split(a + [separator] + rest, separator) == [a] + Split(rest, separator)
  {
    var s := a + [separator] + rest;
    var n := Until(s, separator);
    assert s[|a|] == separator && s[..|a|] == a;
    assert n == |a|;
    assert s[|a| + 1..] == rest;
  }

  lemma SplitWhole(a: string, separator: char)
    requires separator !in a
    ensures Split(a, separator) == [a]
  {
  }

  /** The parts with one more character at the end of the last. */
  function Lengthened(parts: seq<string>, c: char): seq<string>
    requires parts != []
  {
    if |parts| == 1 then [parts[0] + [c]] else [parts[0]] + Lengthened(parts[1..], c)
  }

  lemma {:induction false} SplitSnoc(s: string, separator: char, c: char)
    requires c != separator
    ensures Split(s + [c], separator) == Lengthened(Split(s, separator), c)
    decreases |s|
  {
    var n := Until(s, separator);
    if n == |s| {
      assert s[..n] == s;
      SplitWhole(s + [c], separator);
    } else {
      var head, tail := s[..n], s[n + 1..];
      assert s + [c] == head + [separator] + (tail + [c]);
      SplitAt(head, separator, tail + [c]);
      SplitSnoc(tail, separator, c);
      LengthenedRest(head, Split(tail, separator), c);
    }
  }

  lemma LengthenedRest(head: string, rest: seq<string>, c: char)
    requires rest != []
    ensures Lengthened([head] + rest, c) == [head] + Lengthened(rest, c)
  {
    assert ([head] + rest)[1..] == rest;
  }

  /** Pieces of a text that do not hold the separator. */
  ghost predicate Pieces(parts: seq<string>, s: string, separator: char) {
    forall i :: 0 <= i < |parts| ==> PieceOf(parts[i], s, separator)
  }

  ghost predicate PieceOf(piece: string, s: string, separator: char) {
    forall k :: 0 <= k < |piece| ==> piece[k] in s && piece[k] != separator
  }

  lemma {:induction false} SplitPieces(s: string, separator: char)
    ensures Pieces(Split(s, separator), s, separator)
    decreases |s|
  {
    var n := Until(s, separator);
    if n == |s| {
      WholePiece(s, separator);
    } else {
      SplitPieces(s[n + 1..], separator);
      PiecesCons(s, n, separator, Split(s[n + 1..], separator));
    }
  }

  lemma WholePiece(s: string, separator: char)
    requires Until(s, separator) == |s|
    ensures Pieces([s], s, separator)
  {
    assert s[..|s|] == s;
  }

  /** A first piece in front of pieces of the rest. */
  lemma PiecesCons(s: string, n: nat, separator: char, rest: seq<string>)
    requires n < |s| && separator !in s[..n] && Pieces(rest, s[n + 1..], separator)
    ensures Pieces([s[..n]] + rest, s, separator)
  {
    assert PieceOf(s[..n], s, separator);
    forall i | 0 <= i < |rest|
      ensures PieceOf(rest[i], s, separator)
    {
      assert PieceOf(rest[i], s[n + 1..], separator);
    }
  }

  lemma PiecesLack(parts: seq<string>, s: string, separator: char)
    requires Pieces(parts, s, separator)
    ensures forall i :: 0 <= i < |parts| ==> separator !in parts[i]
  {
    assert forall i :: 0 <= i < |parts| ==> PieceOf(parts[i], s, separator);
  }

  lemma PiecesKeep(parts: seq<string>, s: string, separator: char, missing: char)
    requires Pieces(parts, s, separator) && missing !in s
    ensures forall i :: 0 <= i < |parts| ==> missing !in parts[i]
  {
    assert forall i :: 0 <= i < |parts| ==> PieceOf(parts[i], s, separator);
  }

  // ----- A trailing space does not matter -----

  lemma {:induction false} TrimStartSnoc(s: string, c: char)
    requires Space(c)
    ensures TrimStart(s + [c]) == if TrimStart(s) == "" then "" else TrimStart(s) + [c]
  {
    if s == "" {
      assert TrimStart([c]) == TrimStart([c][1..]);
    } else if Space(s[0]) {
      assert (s + [c])[1..] == s[1..] + [c];
      TrimStartSnoc(s[1..], c);
    }
  }

  lemma TrimSnoc(s: string, c: char)
    requires Space(c)
    ensures Trim(s + [c]) == Trim(s)
  {
    TrimStartSnoc(s, c);
    if TrimStart(s) != "" {
      var t := TrimStart(s) + [c];
      assert t[..|t| - 1] == TrimStart(s);
    }
  }

  lemma PartSnoc(part: string, c: char)
    requires Space(c)
    ensures PartKey(part + [c]) == PartKey(part) && PartValue(part + [c]) == PartValue(part)
  {
    SplitSnoc(part, '=', c);
    var pieces := Split(part, '=');
    TrimSnoc(pieces[0], c);
    if |pieces| > 1 {
      TrimSnoc(pieces[1], c);
    }
  }

  lemma ReadOne(done: Directives, first: string, rest: seq<string>)
    ensures ReadParts(done, [first] + rest) == ReadParts(Assign(done, PartKey(first), PartValue(first)), rest)
  {
    assert ([first] + rest)[1..] == rest;
  }

  /** A space after the last part does not matter. */
  lemma {:induction false} ReadLastPart(done: Directives, parts: seq<string>, c: char)
    requires parts != [] && Space(c)
    ensures ReadParts(done, Lengthened(parts, c)) == ReadParts(done, parts)
    decreases |parts|
  {
    var first, rest := parts[0], parts[1..];
    assert parts == [first] + rest;
    ReadOne(done, first, rest);
    if rest == [] {
      PartSnoc(first, c);
      ReadOne(done, first + [c], []);
      assert Lengthened(parts, c) == [first + [c]] + [];
    } else {
      ReadLastPart(Assign(done, PartKey(first), PartValue(first)), rest, c);
      ReadOne(done, first, Lengthened(rest, c));
    }
  }

  lemma TrailingSpace(done: Directives, s: string, c: char)
    requires Space(c)
    ensures ReadParts(done, Split(s + [c], ',')) == ReadParts(done, Split(s, ','))
  {
    SplitSnoc(s, ',', c);
    ReadLastPart(done, Split(s, ','), c);
  }

  lemma {:induction false} TrailingSpaces(done: Directives, s: string)
    ensures ReadParts(done, Split(TrimEnd(s), ',')) == ReadParts(done, Split(s, ','))
    decreases |s|
  {
    if s != "" && Space(s[|s| - 1]) {
      var shorter, last := s[..|s| - 1], s[|s| - 1];
      TrailingSpaces(done, shorter);
      TrailingSpace(done, shorter, last);
      assert shorter + [last] == s;
    }
  }

  // ----- Reading a printed map -----

  /** A text that cannot be cut: no comma and no equals sign. */
  predicate Whole(s: string) {
    ',' !in s && '=' !in s
  }

  predicate WholeEntry(key: string, value: Value) {
    key != PROTO && NormalKey(key) && Whole(key) && (value.Str? ==> Whole(value.text))
  }

  function Reread(value: Value): Value {
    if value.Str? then Str(StripQuotes(Trim(value.text))) else Flag
  }

  lemma ReadKeyed(lead: string, key: string, text: string)
    requires '=' !in lead && '=' !in key && '=' !in text
    ensures Split(lead + (key + "=" + text), '=') == [lead + key, text]
  {
    SplitAt(lead + key, '=', text);
    SplitWhole(text, '=');
    assert lead + (key + "=" + text) == lead + key + ['='] + text;
  }

  lemma KeySpaced(key: string)
    requires NormalKey(key)
    ensures Key(key) == key && Key(" " + key) == key
  {
    KeyKeepsExactly(key);
    assert Space(' ') && (" " + key)[1..] == key;
  }

  /** A printed entry, alone or after the space of its separator, is read back. */
  lemma ReadPrinted(lead: string, key: string, value: Value)
    requires WholeEntry(key, value) && (lead == "" || lead == " ")
    ensures PartKey(lead + PrintOne(key, value)) == key && PartValue(lead + PrintOne(key, value)) == Reread(value)
  {
    KeySpaced(key);
    assert "" + key == key;
    if value.Str? {
      ReadKeyed(lead, key, value.text);
    } else {
      SplitWhole(lead + key, '=');
    }
  }

  /** Parts as the splitting of a joined text leaves them: each but the first after its separator's space. */
  function Spaced(parts: seq<string>, lead: string): seq<string> {
    if parts == [] then [] else [lead + parts[0]] + Spaced(parts[1..], " ")
  }

  lemma JoinTwo(lead: string, part: string, rest: string)
    ensures lead + (part + ", " + rest) == lead + part + [','] + (" " + rest)
  {
    assert ", " == [','] + " ";
  }

  lemma {:induction false} SplitJoined(parts: seq<string>, lead: string)
    requires parts != [] && ',' !in lead
    requires forall i :: 0 <= i < |parts| ==> ',' !in parts[i]
    ensures Split(lead + Join(parts), ',') == Spaced(parts, lead)
    decreases |parts|
  {
    var first := lead + parts[0];
    if |parts| == 1 {
      SplitWhole(first, ',');
      assert Spaced(parts[1..], " ") == [];
    } else {
      var rest := Join(parts[1..]);
      JoinTwo(lead, parts[0], rest);
      SplitAt(first, ',', " " + rest);
      SplitJoined(parts[1..], " ");
    }
  }

  ghost predicate Printable(cc: Directives) {
    forall key :: key in cc ==> WholeEntry(key, cc[key])
  }

  lemma ReadFirst(done: Directives, cc: Directives, order: seq<string>, lead: string)
    requires lead == "" || lead == " "
    requires order != [] && forall k :: k in order ==> k in cc
    requires WholeEntry(order[0], cc[order[0]])
    ensures ReadParts(done, Spaced(PrintAll(cc, order), lead)) ==
            ReadParts(done[order[0] := Reread(cc[order[0]])], Spaced(PrintAll(cc, order[1..]), " "))
  {
    var part := PrintOne(order[0], cc[order[0]]);
    ReadPrinted(lead, order[0], cc[order[0]]);
    var rest := Spaced(PrintAll(cc, order[1..]), " ");
    assert PrintAll(cc, order)[1..] == PrintAll(cc, order[1..]);
    ReadOne(done, lead + part, rest);
  }

  /** What one key holds after the printed entries have been read. */
  lemma {:induction false} ReadSpaced(done: Directives, cc: Directives, order: seq<string>, lead: string, key: string)
    requires lead == "" || lead == " "
    requires Printable(cc)
    requires forall k :: k in order ==> k in cc
    ensures var read := ReadParts(done, Spaced(PrintAll(cc, order), lead));
            (key in read <==> key in done || key in order) &&
            (key in order ==> read[key] == Reread(cc[key])) &&
            (key in done && key !in order ==> read[key] == done[key])
    decreases |order|
  {
    if order != [] {
      var first := order[0];
      ReadSpaced(done[first := Reread(cc[first])], cc, order[1..], " ", key);
      ReadFirst(done, cc, order, lead);
    }
  }

  lemma PrintedIsWhole(cc: Directives, order: seq<string>)
    requires Printable(cc)
    requires forall k :: k in order ==> k in cc
    ensures forall i :: 0 <= i < |order| ==> ',' !in PrintAll(cc, order)[i]
  {
    forall i | 0 <= i < |order| ensures ',' !in PrintAll(cc, order)[i] {
      assert WholeEntry(order[i], cc[order[i]]);
    }
  }

  /** The one map that prints as the empty text. */
  const EMPTY_FLAG: Directives := map["" := Flag]

  /** A printed entry starts with its key or its equals sign, so with no space. */
  lemma PrintOneStarts(key: string, value: Value)
    requires NormalKey(key)
    ensures PrintOne(key, value) != "" ==> !Space(PrintOne(key, value)[0])
  {
    if key == "" && value.Str? {
      assert PrintOne(key, value)[0] == '=';
    }
  }

  lemma JoinStarts(parts: seq<string>)
    requires parts != [] && (parts[0] == "" ==> |parts| > 1)
    ensures Join(parts) != "" && Join(parts)[0] == if parts[0] == "" then ',' else parts[0][0]
  {
  }

  lemma FormatStarts(cc: Directives, order: seq<string>)
    requires order != [] && (forall key :: key in order ==> key in cc) && NormalKey(order[0])
    requires PrintOne(order[0], cc[order[0]]) == "" ==> |order| > 1
    ensures Join(PrintAll(cc, order)) != "" && TrimStart(Join(PrintAll(cc, order))) == Join(PrintAll(cc, order))
  {
    var parts := PrintAll(cc, order);
    PrintOneStarts(order[0], cc[order[0]]);
    JoinStarts(parts);
    assert !Space(Join(parts)[0]);
  }

  lemma LoneKey(cc: Directives, order: seq<string>)
    requires Lists(order, cc) && order != [] && PrintOne(order[0], cc[order[0]]) == ""
    ensures |order| == 1 <==> cc == EMPTY_FLAG
  {
    assert order[0] == "" && cc[""] == Flag;
    if |order| > 1 {
      assert order[1] != order[0] && order[1] in cc;
    } else {
      assert forall key :: key in cc <==> key == "";
    }
  }

  lemma ParseJoined(cc: Directives, order: seq<string>)
    requires order != [] && Printable(cc) && forall k :: k in order ==> k in cc
    requires Join(PrintAll(cc, order)) != "" && TrimStart(Join(PrintAll(cc, order))) == Join(PrintAll(cc, order))
    ensures Parse(Format(cc, order)) == FirmAll(ReadParts(map[], Spaced(PrintAll(cc, order), "")))
  {
    var parts := PrintAll(cc, order);
    SplitPrinted(cc, order);
    TrailingSpaces(map[], Join(parts));
  }

  lemma SplitPrinted(cc: Directives, order: seq<string>)
    requires order != [] && Printable(cc) && forall k :: k in order ==> k in cc
    ensures Split(Join(PrintAll(cc, order)), ',') == Spaced(PrintAll(cc, order), "")
  {
    var parts := PrintAll(cc, order);
    PrintedIsWhole(cc, order);
    SplitJoined(parts, "");
    assert "" + Join(parts) == Join(parts);
  }

  /** Parsing a printed map of uncuttable entries reads back each entry, trimmed and unquoted. */
  lemma ParsePrinted(cc: Directives, order: seq<string>, key: string)
    requires Lists(order, cc) && Printable(cc) && cc != EMPTY_FLAG
    ensures key in Parse(Format(cc, order)) <==> key in cc
    ensures key in cc ==> Parse(Format(cc, order))[key] == Firm(key, Reread(cc[key]))
  {
    if order != [] {
      assert WholeEntry(order[0], cc[order[0]]);
      if PrintOne(order[0], cc[order[0]]) == "" {
        LoneKey(cc, order);
      }
      FormatStarts(cc, order);
      ParseJoined(cc, order);
      ReadSpaced(map[], cc, order, "", key);
    }
  }

  // ----- The round trip -----

  predicate Unquoted(s: string) {
    s != "" ==> s[0] != '"' && s[|s| - 1] != '"'
  }

  /** A map that survives printing and parsing. */
  ghost predicate Safe(cc: Directives) {
    forall key :: key in cc ==>
      key != PROTO && NormalKey(key) && Whole(key) && Firm(key, cc[key]) == cc[key] &&
      (cc[key].Str? ==> Whole(cc[key].text) && Trimmed(cc[key].text) && Unquoted(cc[key].text))
  }

  lemma RereadKeepsExactly(s: string)
    ensures StripQuotes(Trim(s)) == s <==> Trimmed(s) && Unquoted(s)
  {
    TrimTrims(s);
  }

  lemma LowerKeepsWhole(s: string)
    requires Whole(s)
    ensures Whole(Lower(s))
  {
  }

  lemma StripQuotesKeeps(s: string, c: char)
    requires c !in s
    ensures c !in StripQuotes(s)
  {
  }

  lemma PieceIsWhole(piece: string)
    requires Whole(piece)
    ensures Whole(Key(piece)) && Whole(StripQuotes(Trim(piece)))
  {
    TrimTrims(piece);
    LowerKeepsWhole(Trim(piece));
    StripQuotesKeeps(Trim(piece), ',');
    StripQuotesKeeps(Trim(piece), '=');
  }

  lemma PartIsWhole(part: string)
    requires ',' !in part
    ensures Whole(PartKey(part)) && NormalKey(PartKey(part))
    ensures PartValue(part).Str? ==> Whole(PartValue(part).text)
  {
    var pieces := Split(part, '=');
    SplitPieces(part, '=');
    PiecesLack(pieces, part, '=');
    PiecesKeep(pieces, part, '=', ',');
    KeyIsNormal(pieces[0]);
    PieceIsWhole(pieces[0]);
    if |pieces| >= 2 {
      PieceIsWhole(pieces[1]);
    }
  }

  /** What every parsed map is like: nothing in it can be cut. */
  ghost predicate Uncut(cc: Directives) {
    forall key :: key in cc ==>
      key != PROTO && NormalKey(key) && Whole(key) && (cc[key].Str? ==> Whole(cc[key].text))
  }

  lemma {:induction false} ReadPartsUncut(done: Directives, parts: seq<string>)
    requires Uncut(done)
    requires forall i :: 0 <= i < |parts| ==> ',' !in parts[i]
    ensures Uncut(ReadParts(done, parts))
    decreases |parts|
  {
    if parts != [] {
      PartIsWhole(parts[0]);
      ReadPartsUncut(Assign(done, PartKey(parts[0]), PartValue(parts[0])), parts[1..]);
    }
  }

  lemma ParseIsNormal(header: Option<string>)
    ensures Uncut(Parse(header)) && Normal(Parse(header))
  {
    if header.Some? && header.value != "" {
      var parts := Split(Trim(header.value), ',');
      SplitPieces(Trim(header.value), ',');
      PiecesLack(parts, Trim(header.value), ',');
      ReadPartsUncut(map[], parts);
    }
  }

  /** What a printed map of uncuttable entries parses to. */
  lemma ParsePrintedAll(cc: Directives, order: seq<string>)
    requires Lists(order, cc) && Printable(cc) && cc != EMPTY_FLAG
    ensures Parse(Format(cc, order)) == map key | key in cc :: Firm(key, Reread(cc[key]))
  {
    forall key
      ensures key in Parse(Format(cc, order)) <==> key in cc
      ensures key in cc ==> Parse(Format(cc, order))[key] == Firm(key, Reread(cc[key]))
    {
      ParsePrinted(cc, order, key);
    }
  }

  lemma SafeIsKept(cc: Directives)
    requires Safe(cc)
    ensures (map key | key in cc :: Firm(key, Reread(cc[key]))) == cc
  {
    forall key | key in cc ensures Reread(cc[key]) == cc[key] {
      if cc[key].Str? {
        RereadKeepsExactly(cc[key].text);
      }
    }
  }

  lemma KeptIsSafe(cc: Directives)
    requires Uncut(cc) && Normal(cc)
    requires (map key | key in cc :: Firm(key, Reread(cc[key]))) == cc
    ensures Safe(cc)
  {
    forall key | key in cc && cc[key].Str? ensures Trimmed(cc[key].text) && Unquoted(cc[key].text) {
      assert Firm(key, Reread(cc[key])) == cc[key];
      RereadKeepsExactly(cc[key].text);
    }
  }

  /**
   Printing and parsing gives a map back, in whatever order its keys are printed, exactly when the map is
   safe and is not the one that prints as the empty text.
   */
  lemma FormatRoundTrip(cc: Directives, order: seq<string>)
    requires Lists(order, cc)
    ensures Parse(Format(cc, order)) == cc <==> Safe(cc) && cc != EMPTY_FLAG
  {
    if cc == EMPTY_FLAG {
      EmptyKeyAloneIsLost(order);
      assert "" in EMPTY_FLAG;
    } else {
      if Safe(cc) {
        assert Printable(cc);
        ParsePrintedAll(cc, order);
        SafeIsKept(cc);
      }
      if Parse(Format(cc, order)) == cc {
        ParseIsNormal(Format(cc, order));
        assert Printable(cc);
        ParsePrintedAll(cc, order);
        KeptIsSafe(cc);
      }
    }
  }

  /** The empty bare directive alone prints as the empty text, which parses to nothing. */
  lemma EmptyKeyAloneIsLost(order: seq<string>)
    requires Lists(order, EMPTY_FLAG)
    ensures Parse(Format(EMPTY_FLAG, order)) == map[]
  {
    assert "" in order;
    assert order[0] in order;
    LoneKey(EMPTY_FLAG, order);
  }

  // ----- One more directive -----

  /** A header of one safe directive with a value. */
  lemma ParseOneValue(key: string, text: string)
    requires Safe(map[key := Str(text)])
    ensures Parse(Some(key + "=" + text)) == map[key := Str(text)]
  {
    var cc: Directives := map[key := Str(text)];
    assert PrintAll(cc, [key]) == [key + "=" + text];
    assert Format(cc, [key]) == Some(key + "=" + text);
    FormatRoundTrip(cc, [key]);
  }

  lemma {:induction false} TrimStartAppend(a: string, b: string)
    requires b != "" && !Space(b[0])
    ensures TrimStart(a + b) == TrimStart(a) + b
  {
    if a == "" {
      assert a + b == b;
    } else if Space(a[0]) {
      TrimStartAppend(a[1..], b);
      assert (a + b)[1..] == a[1..] + b;
    }
  }

  lemma SplitCut(s: string, separator: char)
    ensures var n := Until(s, separator);
            if n == |s| then separator !in s && Split(s, separator) == [s]
            else s == s[..n] + [separator] + s[n + 1..] && Split(s, separator) == [s[..n]] + Split(s[n + 1..], separator)
  {
    var n := Until(s, separator);
    if n == |s| {
      assert s[..n] == s;
    } else {
      CutOut(s, n);
    }
  }

  lemma CutOut(s: string, n: nat)
    requires n < |s|
    ensures s == s[..n] + [s[n]] + s[n + 1..]
  {
  }

  lemma JoinThree(a: string, separator: char, b: string, c: string)
    ensures a + [separator] + b + [separator] + c == a + [separator] + (b + [separator] + c)
  {
  }

  lemma JoinParts(first: string, parts: seq<string>, more: seq<string>)
    ensures [first] + (parts + more) == [first] + parts + more
  {
  }

  lemma SplitAppendStep(head: string, tail: string, separator: char, b: string)
    requires separator !in head
    requires Split(tail + [separator] + b, separator) == Split(tail, separator) + Split(b, separator)
    ensures Split(head + [separator] + tail + [separator] + b, separator) ==
            Split(head + [separator] + tail, separator) + Split(b, separator)
  {
    var rest := tail + [separator] + b;
    JoinThree(head, separator, tail, b);
    SplitAt(head, separator, rest);
    SplitAt(head, separator, tail);
    JoinParts(head, Split(tail, separator), Split(b, separator));
  }

  lemma {:induction false} SplitAppend(a: string, separator: char, b: string)
    ensures Split(a + [separator] + b, separator) == Split(a, separator) + Split(b, separator)
    decreases |a|
  {
    var n := Until(a, separator);
    SplitCut(a, separator);
    if n == |a| {
      SplitAt(a, separator, b);
    } else {
      SplitAppend(a[n + 1..], separator, b);
      SplitAppendStep(a[..n], a[n + 1..], separator, b);
    }
  }

  lemma {:induction false} ReadSnoc(done: Directives, parts: seq<string>, last: string)
    ensures ReadParts(done, parts + [last]) == Assign(ReadParts(done, parts), PartKey(last), PartValue(last))
    decreases |parts|
  {
    if parts == [] {
      ReadOne(done, last, []);
      assert parts + [last] == [last] + [];
    } else {
      ReadSnoc(Assign(done, PartKey(parts[0]), PartValue(parts[0])), parts[1..], last);
      ReadOne(done, parts[0], parts[1..] + [last]);
      assert parts + [last] == [parts[0]] + (parts[1..] + [last]);
    }
  }

  /** A directive that can be added to a header as it is. */
  predicate Plain(directive: string) {
    directive != "" && directive != PROTO && NormalKey(directive) && Whole(directive)
  }

  lemma AddedPart(front: string, directive: string)
    requires Plain(directive)
    ensures TrimEnd(front + ", " + directive) == front + [','] + (" " + directive)
  {
    var s := front + ", " + directive;
    assert s[|s| - 1] == directive[|directive| - 1];
    assert ", " == [','] + " ";
  }

  lemma TrimOneMore(header: string, directive: string)
    requires Plain(directive)
    ensures Trim(header + ", " + directive) == TrimStart(header) + [','] + (" " + directive)
  {
    var rest := ", " + directive;
    assert rest[0] == ',' && header + ", " + directive == header + rest;
    TrimStartAppend(header, rest);
    assert TrimStart(header) + rest == TrimStart(header) + ", " + directive;
    AddedPart(TrimStart(header), directive);
  }

  /** A header that is the directive alone. */
  lemma ParseAlone(directive: string)
    requires Plain(directive)
    ensures Parse(Some(directive)) == map[directive := Flag]
  {
    TrimTrims(directive);
    SplitWhole(directive, ',');
    ReadPrinted("", directive, Flag);
    assert "" + directive == directive;
    ReadOne(map[], directive, []);
    assert [directive] + [] == [directive];
  }

  lemma ReadOneMore(front: string, directive: string)
    requires Plain(directive)
    ensures ReadParts(map[], Split(front + [','] + (" " + directive), ',')) ==
            ReadParts(map[], Split(front, ','))[directive := Flag]
  {
    var part := " " + directive;
    SplitAppend(front, ',', part);
    SplitWhole(part, ',');
    ReadPrinted(" ", directive, Flag);
    ReadSnoc(map[], Split(front, ','), part);
  }

  lemma FirmOneMore(cc: Directives, directive: string)
    ensures FirmAll(cc[directive := Flag]) == FirmAll(cc)[directive := Flag]
  {
  }

  /** A directive added to a header is a bare directive added to the parsed map. */
  lemma ParseOneMore(header: string, directive: string)
    requires header != "" && Plain(directive)
    ensures Parse(Some(header + ", " + directive)) == Parse(Some(header))[directive := Flag]
  {
    var front := TrimStart(header);
    TrimOneMore(header, directive);
    ReadOneMore(front, directive);
    TrailingSpaces(map[], front);
    FirmOneMore(ReadParts(map[], Split(front, ',')), directive);
  }
}
