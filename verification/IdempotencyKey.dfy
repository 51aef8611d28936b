/**
 What canonical JSON and idempotency keys identify (packages-web/angular/src/idempotency.ts:82-122).
 */
module IdempotencyKey {
  import opened Wrappers
  import opened Utf16
  import opened CodePointOrder
  import opened JsonText
  import opened JsonNormalize

  // ----- JSON values -----

  /** A JSON value: the members of an object have no order, and there is one zero. */
  datatype Json =
    | JNull
    | JBool(flag: bool)
    | JNumber(number: int)
    | JString(chars: Text)
    | JArray(elements: seq<Json>)
    | JObject(members: map<Text, Json>)

  /** The value of the heap stands for the JSON value. */
  ghost predicate Denotes(heap: Heap, v: Value, j: Json)
    decreases j
  {
    match j
    case JNull => v.NullValue?
    case JBool(flag) => v == BoolValue(flag)
    case JNumber(number) => v == NumberValue(Finite(number)) || (number == 0 && v == NumberValue(NegativeZero))
    case JString(chars) => v == StringValue(chars)
    case JArray(elements) =>
      v.Reference? && v.ref in heap && heap[v.ref].ArrayObject? &&
      var slots := heap[v.ref].slots;
      |slots| == |elements| &&
      forall i :: 0 <= i < |slots| ==> slots[i].Some? && Denotes(heap, slots[i].value, elements[i])
    case JObject(members) =>
      v.Reference? && v.ref in heap && heap[v.ref].PlainObject? &&
      var values := heap[v.ref].values;
      values.Keys == members.Keys && forall k :: k in members ==> Denotes(heap, values[k], members[k])
  }

  /** Both values stand for one JSON value: they are equal up to the order of object keys and `-0 = 0`. */
  ghost predicate SameJson(h1: Heap, v1: Value, h2: Heap, v2: Value) {
    exists j :: Denotes(h1, v1, j) && Denotes(h2, v2, j)
  }

  /** A value stands for at most one JSON value. */
  lemma {:induction false} DenotesOne(heap: Heap, v: Value, a: Json, b: Json)
    requires Denotes(heap, v, a) && Denotes(heap, v, b)
    ensures a == b
    decreases a
  {
    match a
    case JArray(elements) =>
      forall i | 0 <= i < |elements| ensures elements[i] == b.elements[i] {
        DenotesOne(heap, heap[v.ref].slots[i].value, elements[i], b.elements[i]);
      }
    case JObject(members) =>
      forall k | k in members ensures members[k] == b.members[k] {
        DenotesOne(heap, heap[v.ref].values[k], members[k], b.members[k]);
      }
    case _ =>
  }

  // ----- The JSON value of a tree -----

  function Meaning(t: Tree): Json
    decreases t, 1
  {
    match t
    case Null => JNull
    case Bool(value) => JBool(value)
    case Number(code) => JNumber(code)
    case String(text) => JString(text)
    case Array(items) => JArray(Meanings(items))
    case Object(entries) => JObject(Members(entries))
  }

  function Meanings(items: seq<Tree>): (js: seq<Json>)
    ensures |js| == |items|
    decreases items, 0
  {
    if items == [] then [] else [Meaning(items[0])] + Meanings(items[1..])
  }

  function Members(entries: seq<(Text, Tree)>): (members: map<Text, Json>)
    decreases entries, 0
  {
    if entries == [] then map[] else Members(entries[1..])[entries[0].0 := EntryMeaning(entries[0])]
  }

  function EntryMeaning(entry: (Text, Tree)): Json
    decreases entry, 1
  {
    Meaning(entry.1)
  }

  function KeysOf(entries: seq<(Text, Tree)>): (keys: seq<Text>)
    ensures |keys| == |entries|
    ensures forall i :: 0 <= i < |entries| ==> keys[i] == entries[i].0
  {
    if entries == [] then [] else [entries[0].0] + KeysOf(entries[1..])
  }

  lemma {:induction false} MeaningsAt(items: seq<Tree>, i: nat)
    requires i < |items|
    ensures Meanings(items)[i] == Meaning(items[i])
    decreases i
  {
    if i > 0 {
      MeaningsAt(items[1..], i - 1);
    }
  }

  lemma {:induction false} MemberKeys(entries: seq<(Text, Tree)>)
    ensures forall k :: k in Members(entries) <==> k in KeysOf(entries)
  {
    if entries != [] {
      MemberKeys(entries[1..]);
    }
  }

  lemma {:induction false} MembersAt(entries: seq<(Text, Tree)>, i: nat)
    requires i < |entries| && Distinct(KeysOf(entries))
    ensures entries[i].0 in Members(entries) && Members(entries)[entries[i].0] == Meaning(entries[i].1)
    decreases i
  {
    if i > 0 {
      assert KeysOf(entries)[0] != KeysOf(entries)[i];
      assert KeysOf(entries)[1..] == KeysOf(entries[1..]);
      MembersAt(entries[1..], i - 1);
    }
  }

  // ----- Normalized trees are canonical -----

  /** Every object in the tree lists its keys in ascending order. */
  ghost predicate Canonical(t: Tree)
    decreases t
  {
    match t
    case Array(items) => forall i :: 0 <= i < |items| ==> Canonical(items[i])
    case Object(entries) => Ascending(KeysOf(entries)) && forall i :: 0 <= i < |entries| ==> Canonical(entries[i].1)
    case _ => true
  }

  lemma AscendingIsDistinct(keys: seq<Text>)
    requires Ascending(keys)
    ensures Distinct(keys)
  {
    forall i, j | 0 <= i < j < |keys| ensures keys[i] != keys[j] {
      assert Less(keys[i], keys[j]);
      LessIsTotal(keys[i], keys[j]);
    }
  }

  /** A canonical tree is determined by its JSON value. */
  lemma {:induction false} MeaningDetermines(a: Tree, b: Tree)
    requires Canonical(a) && Canonical(b)
    requires Meaning(a) == Meaning(b)
    ensures a == b
    decreases a
  {
    match a
    case Array(items) =>
      forall i | 0 <= i < |items| ensures items[i] == b.items[i] {
        MeaningsAt(items, i);
        MeaningsAt(b.items, i);
        MeaningDetermines(items[i], b.items[i]);
      }
    case Object(entries) =>
      MemberKeys(entries);
      MemberKeys(b.entries);
      AscendingDetermined(KeysOf(entries), KeysOf(b.entries));
      AscendingIsDistinct(KeysOf(entries));
      forall i | 0 <= i < |entries| ensures entries[i] == b.entries[i] {
        assert KeysOf(entries)[i] == KeysOf(b.entries)[i];
        MembersAt(entries, i);
        MembersAt(b.entries, i);
        MeaningDetermines(entries[i].1, b.entries[i].1);
      }
    case _ =>
  }

  // ----- Normalizing keeps the meaning -----

  /** What a value normalizes to is canonical and means what the value stands for. */
  lemma {:induction false} NormalizeKeepsMeaning(heap: Heap, v: Value, active: set<Ref>)
    requires ValidHeap(heap) && Known(heap, v)
    requires Normalize(heap, v, active).Ok?
    ensures var t := Normalize(heap, v, active).value; Canonical(t) && Denotes(heap, v, Meaning(t))
    decreases |heap.Keys - active|, 0
  {
    if v.Reference? {
      LessToVisit(heap, active, v.ref);
      ItemsAreKnown(heap, heap[v.ref]);
      var all := active + {v.ref};
      AllNormalize(heap, Items(heap[v.ref]), all);
      ItemsKeepMeaning(heap, Items(heap[v.ref]), all);
      var trees := NormalizeAll(heap, Items(heap[v.ref]), all).value;
      if heap[v.ref].ArrayObject? {
        ArrayKeepsMeaning(heap, v, trees);
      } else {
        ObjectKeepsMeaning(heap, v, trees);
      }
    }
  }

  /** Each tree is canonical and means what its item stands for. */
  ghost predicate Faithful(heap: Heap, items: seq<Option<Value>>, trees: seq<Tree>) {
    |items| == |trees| &&
    forall i :: 0 <= i < |items| ==> items[i].Some? && Canonical(trees[i]) && Denotes(heap, items[i].value, Meaning(trees[i]))
  }

  lemma {:induction false} ItemsKeepMeaning(heap: Heap, items: seq<Option<Value>>, active: set<Ref>)
    requires ValidHeap(heap)
    requires forall i :: 0 <= i < |items| && items[i].Some? ==> Known(heap, items[i].value)
    requires NormalizeAll(heap, items, active).Ok?
    ensures Faithful(heap, items, NormalizeAll(heap, items, active).value)
    decreases |heap.Keys - active|, 1
  {
    AllNormalize(heap, items, active);
    var trees := NormalizeAll(heap, items, active).value;
    forall i | 0 <= i < |items|
      ensures items[i].Some? && Canonical(trees[i]) && Denotes(heap, items[i].value, Meaning(trees[i]))
    {
      NormalizeKeepsMeaning(heap, items[i].value, active);
    }
  }

  lemma ArrayKeepsMeaning(heap: Heap, v: Value, trees: seq<Tree>)
    requires v.Reference? && v.ref in heap && heap[v.ref].ArrayObject?
    requires Faithful(heap, heap[v.ref].slots, trees)
    ensures Canonical(Array(trees)) && Denotes(heap, v, Meaning(Array(trees)))
  {
    forall i | 0 <= i < |trees| ensures Denotes(heap, heap[v.ref].slots[i].value, Meanings(trees)[i]) {
      MeaningsAt(trees, i);
    }
  }

  lemma MemberDenotes(heap: Heap, keys: seq<Text>, values: map<Text, Value>, trees: seq<Tree>, k: Text)
    requires Ascending(keys) && |trees| == |keys| && (forall k :: k in keys <==> k in values) && k in values
    requires Faithful(heap, Select(keys, values), trees)
    ensures k in Members(Zip(keys, trees)) && Denotes(heap, values[k], Members(Zip(keys, trees))[k])
  {
    assert KeysOf(Zip(keys, trees)) == keys;
    AscendingIsDistinct(keys);
    var i :| 0 <= i < |keys| && keys[i] == k;
    MembersAt(Zip(keys, trees), i);
    assert Select(keys, values)[i] == Some(values[k]);
  }

  lemma MembersKeepMeaning(heap: Heap, keys: seq<Text>, values: map<Text, Value>, trees: seq<Tree>, k: Text)
    requires Ascending(keys) && |trees| == |keys| && forall k :: k in keys <==> k in values
    requires Faithful(heap, Select(keys, values), trees)
    ensures k in Members(Zip(keys, trees)) <==> k in values
    ensures k in values ==> Denotes(heap, values[k], Members(Zip(keys, trees))[k])
  {
    var entries := Zip(keys, trees);
    assert KeysOf(entries) == keys;
    MemberKeys(entries);
    if k in values {
      MemberDenotes(heap, keys, values, trees, k);
    }
  }

  lemma EntriesAreCanonical(keys: seq<Text>, trees: seq<Tree>)
    requires Ascending(keys) && |trees| == |keys|
    requires forall i :: 0 <= i < |trees| ==> Canonical(trees[i])
    ensures Canonical(Object(Zip(keys, trees)))
  {
    assert KeysOf(Zip(keys, trees)) == keys;
  }

  lemma ObjectKeepsMeaning(heap: Heap, v: Value, trees: seq<Tree>)
    requires v.Reference? && v.ref in heap && heap[v.ref].PlainObject? && ValidObject(heap, heap[v.ref])
    requires Faithful(heap, Items(heap[v.ref]), trees)
    ensures var t := Assemble(heap[v.ref], trees); Canonical(t) && Denotes(heap, v, Meaning(t))
  {
    var obj := heap[v.ref];
    var keys := Sort(obj.keys);
    SortAscends(obj.keys);
    EntriesAreCanonical(keys, trees);
    var members := Members(Zip(keys, trees));
    forall k
      ensures k in members <==> k in obj.values
      ensures k in obj.values ==> Denotes(heap, obj.values[k], members[k])
    {
      MembersKeepMeaning(heap, keys, obj.values, trees, k);
    }
    assert obj.values.Keys == members.Keys;
    assert Denotes(heap, v, JObject(members));
  }

  // ----- Canonical JSON is a normal form -----

  function CanonicalJson(numeral: int -> Text, heap: Heap, v: Value): Result<Text, JsonError>
    requires ValidHeap(heap) && Known(heap, v)
  {
    var t := Normalize(heap, v, {});
    if t.Err? then Err(t.error) else Ok(Print(numeral, t.value))
  }

  lemma SameTrees(h1: Heap, v1: Value, t1: Tree, h2: Heap, v2: Value, t2: Tree)
    requires Canonical(t1) && Denotes(h1, v1, Meaning(t1))
    requires Canonical(t2) && Denotes(h2, v2, Meaning(t2))
    ensures SameJson(h1, v1, h2, v2) <==> t1 == t2
  {
    if SameJson(h1, v1, h2, v2) {
      var j :| Denotes(h1, v1, j) && Denotes(h2, v2, j);
      SharedMeaning(h1, v1, t1, h2, v2, t2, j);
      MeaningDetermines(t1, t2);
    }
    if t1 == t2 {
      assert Denotes(h2, v2, Meaning(t1));
    }
  }

  lemma SharedMeaning(h1: Heap, v1: Value, t1: Tree, h2: Heap, v2: Value, t2: Tree, j: Json)
    requires Denotes(h1, v1, Meaning(t1)) && Denotes(h1, v1, j)
    requires Denotes(h2, v2, Meaning(t2)) && Denotes(h2, v2, j)
    ensures Meaning(t1) == Meaning(t2)
  {
    DenotesOne(h1, v1, j, Meaning(t1));
    DenotesOne(h2, v2, j, Meaning(t2));
  }

  /** Two acceptable values have the same canonical JSON exactly when they are the same JSON value. */
  lemma CanonicalJsonIsANormalForm(numeral: int -> Text, h1: Heap, v1: Value, h2: Heap, v2: Value)
    requires Numerals(numeral)
    requires ValidHeap(h1) && Known(h1, v1) && ValidHeap(h2) && Known(h2, v2)
    requires CanonicalJson(numeral, h1, v1).Ok? && CanonicalJson(numeral, h2, v2).Ok?
    ensures CanonicalJson(numeral, h1, v1) == CanonicalJson(numeral, h2, v2) <==> SameJson(h1, v1, h2, v2)
  {
    var t1, t2 := Normalize(h1, v1, {}).value, Normalize(h2, v2, {}).value;
    NormalizeKeepsMeaning(h1, v1, {});
    NormalizeKeepsMeaning(h2, v2, {});
    PrintInjective(numeral, t1, t2);
    SameTrees(h1, v1, t1, h2, v2, t2);
  }

  // ----- Composite keys -----

  /** Visible ASCII without the colon, 1 to 80 units. */
  predicate ValidComponent(value: Text) {
    1 <= |value| <= 80 && forall i :: 0 <= i < |value| ==> 33 <= value[i] <= 126 && value[i] != 58
  }

  datatype KeyError = InvalidParts | InvalidBody(error: JsonError)

  function CreateKey(numeral: int -> Text, sha256Hex: Text -> Text, action: Text, target: Text, heap: Heap, body: Value)
    : Result<Text, KeyError>
    requires ValidHeap(heap) && Known(heap, body)
  {
    if !ValidComponent(action) || !ValidComponent(target) then Err(InvalidParts)
    else
      var canonical := CanonicalJson(numeral, heap, body);
      if canonical.Err? then Err(InvalidBody(canonical.error))
      else Ok(action + [58] + target + [58] + sha256Hex(canonical.value))
  }

  lemma ComponentEnds(a: Text, x: Text, b: Text, y: Text)
    requires ValidComponent(a) && ValidComponent(b)
    requires a + [58] + x == b + [58] + y
    ensures a == b && x == y
  {
    var s, t := a + [58] + x, b + [58] + y;
    assert s[|a|] == 58 && t[|b|] == 58;
    assert forall i :: 0 <= i < |a| ==> s[i] == a[i];
    assert forall i :: 0 <= i < |b| ==> t[i] == b[i];
    assert |a| == |b|;
    assert s[..|a|] == a && t[..|b|] == b && s[|a| + 1..] == x && t[|b| + 1..] == y;
  }

  lemma KeyParts(a1: Text, t1: Text, d1: Text, a2: Text, t2: Text, d2: Text)
    requires ValidComponent(a1) && ValidComponent(t1) && ValidComponent(a2) && ValidComponent(t2)
    ensures a1 + [58] + t1 + [58] + d1 == a2 + [58] + t2 + [58] + d2 <==> a1 == a2 && t1 == t2 && d1 == d2
  {
    var rest1, rest2 := t1 + [58] + d1, t2 + [58] + d2;
    assert a1 + [58] + t1 + [58] + d1 == a1 + [58] + rest1;
    assert a2 + [58] + t2 + [58] + d2 == a2 + [58] + rest2;
    if a1 + [58] + rest1 == a2 + [58] + rest2 {
      ComponentEnds(a1, rest1, a2, rest2);
      ComponentEnds(t1, d1, t2, d2);
    }
  }

  /**
   Equal keys name the same action, the same target and the same JSON body, unless the two canonical
   texts are a collision of the hash function; the same action, target and JSON body always give the same key.
   */
  lemma KeyIdentifiesCommand(numeral: int -> Text, sha256Hex: Text -> Text,
                             a1: Text, t1: Text, h1: Heap, v1: Value, a2: Text, t2: Text, h2: Heap, v2: Value)
    requires Numerals(numeral)
    requires ValidHeap(h1) && Known(h1, v1) && ValidHeap(h2) && Known(h2, v2)
    requires CreateKey(numeral, sha256Hex, a1, t1, h1, v1).Ok? && CreateKey(numeral, sha256Hex, a2, t2, h2, v2).Ok?
    ensures var sameKey := CreateKey(numeral, sha256Hex, a1, t1, h1, v1) == CreateKey(numeral, sha256Hex, a2, t2, h2, v2);
            var c1, c2 := CanonicalJson(numeral, h1, v1).value, CanonicalJson(numeral, h2, v2).value;
            (sameKey ==> a1 == a2 && t1 == t2 && (SameJson(h1, v1, h2, v2) || (c1 != c2 && sha256Hex(c1) == sha256Hex(c2)))) &&
            (a1 == a2 && t1 == t2 && SameJson(h1, v1, h2, v2) ==> sameKey)
  {
    CanonicalJsonIsANormalForm(numeral, h1, v1, h2, v2);
    KeyParts(a1, t1, sha256Hex(CanonicalJson(numeral, h1, v1).value), a2, t2, sha256Hex(CanonicalJson(numeral, h2, v2).value));
  }
}
