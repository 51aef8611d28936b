/**
 `normalizeJson` (packages-web/angular/src/idempotency.ts:31-80) on a graph of objects.

 A value is a primitive or a reference into a heap.  An object is an array with its slots, a plain
 object with its keys in the order it lists them, or something that is neither; objects with a
 `toJSON` method are not modelled.
 */
module JsonNormalize {
  import opened Wrappers
  import opened Utf16
  import opened CodePointOrder
  import opened JsonText

  type Ref = nat

  datatype Float = NotANumber | Infinite(negative: bool) | NegativeZero | Finite(code: int)

  datatype Value =
    | NullValue
    | BoolValue(flag: bool)
    | NumberValue(number: Float)
    | StringValue(chars: Text)
    | Reference(ref: Ref)
    | NotWire

  /**
   `extra` tells of an own property of an array that is not one of its indices, `symbols` of a property
   named by a symbol; an empty slot is a hole.
   */
  datatype Obj =
    | ArrayObject(slots: seq<Option<Value>>, extra: bool, symbols: bool)
    | PlainObject(keys: seq<Text>, values: map<Text, Value>, symbols: bool)
    | OtherObject

  type Heap = map<Ref, Obj>

  datatype JsonError = NonFinite | NotWireJson | Cycle | NonJsonObject | SymbolProperty | OmittedProperty | Hole

  predicate Known(heap: Heap, v: Value) {
    v.Reference? ==> v.ref in heap
  }

  ghost predicate ValidObject(heap: Heap, obj: Obj) {
    match obj
    case ArrayObject(slots, _, _) => forall i :: 0 <= i < |slots| && slots[i].Some? ==> Known(heap, slots[i].value)
    case PlainObject(keys, values, _) =>
      Distinct(keys) && (forall k :: k in keys <==> k in values) && forall k :: k in values ==> Known(heap, values[k])
    case OtherObject => true
  }

  /** References lead to objects, and the keys of an object are distinct. */
  ghost predicate ValidHeap(heap: Heap) {
    forall r :: r in heap ==> ValidObject(heap, heap[r])
  }

  /** What is wrong with an object itself, before its contents are looked at. */
  function Fault(obj: Obj): Option<JsonError> {
    match obj
    case OtherObject => Some(NonJsonObject)
    case PlainObject(_, _, symbols) => if symbols then Some(SymbolProperty) else None
    case ArrayObject(_, extra, symbols) =>
      if symbols then Some(SymbolProperty) else if extra then Some(OmittedProperty) else None
  }

  function Select(keys: seq<Text>, values: map<Text, Value>): (items: seq<Option<Value>>)
    requires forall k :: k in keys ==> k in values
    ensures |items| == |keys|
    ensures forall i :: 0 <= i < |keys| ==> items[i] == Some(values[keys[i]])
  {
    if keys == [] then [] else [Some(values[keys[0]])] + Select(keys[1..], values)
  }

  /** The contents of an object in the order in which they are normalized. */
  function Items(obj: Obj): seq<Option<Value>>
    requires obj.PlainObject? ==> forall k :: k in obj.keys ==> k in obj.values
  {
    match obj
    case ArrayObject(slots, _, _) => slots
    case PlainObject(keys, values, _) => Select(Sort(keys), values)
    case OtherObject => []
  }

  function Zip(keys: seq<Text>, trees: seq<Tree>): (entries: seq<(Text, Tree)>)
    requires |keys| == |trees|
    ensures |entries| == |keys|
    ensures forall i :: 0 <= i < |keys| ==> entries[i] == (keys[i], trees[i])
  {
    if keys == [] then [] else [(keys[0], trees[0])] + Zip(keys[1..], trees[1..])
  }

  function Assemble(obj: Obj, trees: seq<Tree>): Tree
    requires obj.PlainObject? ==> |trees| == |obj.keys|
  {
    if obj.PlainObject? then Object(Zip(Sort(obj.keys), trees)) else Array(trees)
  }

  lemma ItemsAreKnown(heap: Heap, obj: Obj)
    requires ValidObject(heap, obj)
    ensures forall i :: 0 <= i < |Items(obj)| && Items(obj)[i].Some? ==> Known(heap, Items(obj)[i].value)
    ensures obj.PlainObject? ==> |Items(obj)| == |obj.keys|
  {
  }

  lemma LessToVisit(heap: Heap, active: set<Ref>, ref: Ref)
    requires ref in heap && ref !in active
    ensures |heap.Keys - (active + {ref})| < |heap.Keys - active|
  {
    assert heap.Keys - active == heap.Keys - (active + {ref}) + {ref};
  }

  // ----- Normalization -----

  /** `active` holds the objects being normalized further out; each step into an object leaves fewer to visit. */
  function Normalize(heap: Heap, v: Value, active: set<Ref>): Result<Tree, JsonError>
    requires ValidHeap(heap) && Known(heap, v)
    decreases |heap.Keys - active|, 0, 0
  {
    match v
    case NullValue => Ok(Null)
    case BoolValue(flag) => Ok(Bool(flag))
    case StringValue(chars) => Ok(String(chars))
    case NumberValue(number) =>
      (match number
       case NotANumber => Err(NonFinite)
       case Infinite(_) => Err(NonFinite)
       case NegativeZero => Ok(Number(0))
       case Finite(code) => Ok(Number(code)))
    case NotWire => Err(NotWireJson)
    case Reference(ref) =>
      if ref in active then Err(Cycle)
      else if Fault(heap[ref]).Some? then Err(Fault(heap[ref]).value)
      else
        LessToVisit(heap, active, ref);
        ItemsAreKnown(heap, heap[ref]);
        var trees := NormalizeAll(heap, Items(heap[ref]), active + {ref});
        if trees.Err? then Err(trees.error) else Ok(Assemble(heap[ref], trees.value))
  }

  /** What an object without a fault of its own normalizes to, `active` including the object itself. */
  function Contents(heap: Heap, obj: Obj, active: set<Ref>): Result<Tree, JsonError>
    requires ValidHeap(heap) && ValidObject(heap, obj)
  {
    ItemsAreKnown(heap, obj);
    var trees := NormalizeAll(heap, Items(obj), active);
    if trees.Err? then Err(trees.error) else Ok(Assemble(obj, trees.value))
  }

  function NormalizeAll(heap: Heap, items: seq<Option<Value>>, active: set<Ref>): (r: Result<seq<Tree>, JsonError>)
    requires ValidHeap(heap)
    requires forall i :: 0 <= i < |items| && items[i].Some? ==> Known(heap, items[i].value)
    ensures r.Ok? ==> |r.value| == |items|
    decreases |heap.Keys - active|, 1, |items|
  {
    if items == [] then Ok([])
    else if items[0] == None then Err(Hole)
    else
      var first := Normalize(heap, items[0].value, active);
      if first.Err? then Err(first.error)
      else
        var rest := NormalizeAll(heap, items[1..], active);
        if rest.Err? then rest else Ok([first.value] + rest.value)
  }

  /** All items normalize exactly when each does. */
  lemma {:induction false} AllNormalize(heap: Heap, items: seq<Option<Value>>, active: set<Ref>)
    requires ValidHeap(heap)
    requires forall i :: 0 <= i < |items| && items[i].Some? ==> Known(heap, items[i].value)
    ensures NormalizeAll(heap, items, active).Ok? <==>
            forall i :: 0 <= i < |items| ==> items[i].Some? && Normalize(heap, items[i].value, active).Ok?
    ensures NormalizeAll(heap, items, active).Ok? ==>
            forall i :: 0 <= i < |items| ==>
              Normalize(heap, items[i].value, active) == Ok(NormalizeAll(heap, items, active).value[i])
    decreases |items|
  {
    if items != [] {
      AllNormalize(heap, items[1..], active);
      assert forall i :: 0 < i < |items| ==> items[i] == items[1..][i - 1];
      assert forall i :: 0 <= i < |items| - 1 ==> items[1..][i] == items[i + 1];
    }
  }

  // ----- When it fails -----

  predicate Child(obj: Obj, v: Value) {
    match obj
    case ArrayObject(slots, _, _) => Some(v) in slots
    case PlainObject(keys, values, _) => exists k :: k in keys && k in values && values[k] == v
    case OtherObject => false
  }

  predicate BadObject(obj: Obj) {
    Fault(obj).Some? || (obj.ArrayObject? && None in obj.slots)
  }

  /** A value that cannot be normalized whatever it leads to. */
  predicate BadValue(heap: Heap, v: Value) {
    match v
    case NumberValue(number) => number.NotANumber? || number.Infinite?
    case NotWire => true
    case Reference(ref) => ref in heap && BadObject(heap[ref])
    case _ => false
  }

  /** A walk through the graph: each value is a reference to an object that holds the next. */
  ghost predicate Walk(heap: Heap, vs: seq<Value>) {
    vs != [] &&
    forall i :: 0 <= i < |vs| - 1 ==> vs[i].Reference? && vs[i].ref in heap && Child(heap[vs[i].ref], vs[i + 1])
  }

  /** The walk ends in a bad value, in an active object, or where it has been before. */
  ghost predicate Faulty(heap: Heap, active: set<Ref>, vs: seq<Value>) {
    Walk(heap, vs) &&
    var last := vs[|vs| - 1];
    BadValue(heap, last) || (last.Reference? && last.ref in active) || last in vs[..|vs| - 1]
  }

  lemma ChildrenAreItems(heap: Heap, obj: Obj, v: Value)
    requires ValidObject(heap, obj) && !BadObject(obj)
    ensures Child(obj, v) <==> Some(v) in Items(obj)
    ensures None !in Items(obj)
  {
    if obj.PlainObject? {
      var items := Items(obj);
      if Child(obj, v) {
        var k :| k in obj.keys && obj.values[k] == v;
        assert k in Sort(obj.keys);
        var i :| 0 <= i < |items| && Sort(obj.keys)[i] == k;
        assert items[i] == Some(v);
      }
      if Some(v) in items {
        var i :| 0 <= i < |items| && items[i] == Some(v);
        assert Sort(obj.keys)[i] in obj.keys;
      }
    }
  }

  /** Every failure has a reason: a walk that is faulty. */
  lemma {:induction false} FailureHasWalk(heap: Heap, v: Value, active: set<Ref>) returns (vs: seq<Value>)
    requires ValidHeap(heap) && Known(heap, v)
    requires Normalize(heap, v, active).Err?
    ensures vs != [] && vs[0] == v && Faulty(heap, active, vs)
    decreases |heap.Keys - active|
  {
    vs := [v];
    if v.Reference? && v.ref !in active && !BadObject(heap[v.ref]) {
      var obj := heap[v.ref];
      ItemsAreKnown(heap, obj);
      AllNormalize(heap, Items(obj), active + {v.ref});
      ChildrenAreItems(heap, obj, v);
      var i :| 0 <= i < |Items(obj)| &&
               (Items(obj)[i] == None || Normalize(heap, Items(obj)[i].value, active + {v.ref}).Err?);
      assert Items(obj)[i] in Items(obj);
      var child := Items(obj)[i].value;
      ChildrenAreItems(heap, obj, child);
      LessToVisit(heap, active, v.ref);
      var rest := FailureHasWalk(heap, child, active + {v.ref});
      vs := [v] + rest;
      WalkPrepend(heap, active, v, rest);
    }
  }

  lemma WalkPrepend(heap: Heap, active: set<Ref>, v: Value, rest: seq<Value>)
    requires v.Reference? && v.ref in heap && rest != [] && Child(heap[v.ref], rest[0])
    requires Faulty(heap, active + {v.ref}, rest)
    ensures Faulty(heap, active, [v] + rest)
  {
    var vs := [v] + rest;
    forall i | 0 <= i < |vs| - 1 ensures vs[i].Reference? && vs[i].ref in heap && Child(heap[vs[i].ref], vs[i + 1]) {
      if i > 0 {
        assert vs[i] == rest[i - 1] && vs[i + 1] == rest[i];
      }
    }
    assert vs[..|vs| - 1] == [v] + rest[..|rest| - 1];
  }

  /** And every faulty walk makes it fail. */
  lemma {:induction false} WalkMeansFailure(heap: Heap, v: Value, active: set<Ref>, vs: seq<Value>)
    requires ValidHeap(heap) && Known(heap, v)
    requires vs != [] && vs[0] == v && Faulty(heap, active, vs)
    ensures Normalize(heap, v, active).Err?
    decreases |vs|
  {
    if |vs| == 1 {
      assert vs[..0] == [];
      if v.Reference? && v.ref !in active {
        ItemsAreKnown(heap, heap[v.ref]);
        AllNormalize(heap, Items(heap[v.ref]), active + {v.ref});
      }
    } else if v.ref !in active && Fault(heap[v.ref]) == None {
      var obj := heap[v.ref];
      var items := Items(obj);
      ItemsAreKnown(heap, obj);
      AllNormalize(heap, items, active + {v.ref});
      if !BadObject(obj) {
        ChildrenAreItems(heap, obj, vs[1]);
        var i :| 0 <= i < |items| && items[i] == Some(vs[1]);
        WalkTail(heap, active, vs);
        WalkMeansFailure(heap, vs[1], active + {v.ref}, vs[1..]);
      }
    }
  }

  lemma WalkTail(heap: Heap, active: set<Ref>, vs: seq<Value>)
    requires |vs| > 1 && Faulty(heap, active, vs)
    ensures Faulty(heap, active + {vs[0].ref}, vs[1..])
  {
    var rest := vs[1..];
    forall i | 0 <= i < |rest| - 1 ensures rest[i].Reference? && rest[i].ref in heap && Child(heap[rest[i].ref], rest[i + 1]) {
      assert rest[i] == vs[i + 1] && rest[i + 1] == vs[i + 2];
    }
    assert vs[..|vs| - 1] == [vs[0]] + rest[..|rest| - 1];
  }

  /** On any graph: `normalizeJson` fails exactly when a bad value or a cycle can be reached. */
  lemma FailsExactly(heap: Heap, v: Value)
    requires ValidHeap(heap) && Known(heap, v)
    ensures Normalize(heap, v, {}).Err? <==> exists vs: seq<Value> :: vs != [] && vs[0] == v && Faulty(heap, {}, vs)
  {
    if Normalize(heap, v, {}).Err? {
      var vs := FailureHasWalk(heap, v, {});
    }
    if vs: seq<Value> :| vs != [] && vs[0] == v && Faulty(heap, {}, vs) {
      WalkMeansFailure(heap, v, {}, vs);
    }
  }

  /** On a graph without bad values it fails exactly when a walk comes back to where it has been; shared objects are accepted. */
  lemma FailsExactlyOnCycles(heap: Heap, v: Value)
    requires ValidHeap(heap) && Known(heap, v)
    requires !BadValue(heap, v)
    requires forall r, child :: r in heap && Child(heap[r], child) ==> !BadValue(heap, child)
    ensures Normalize(heap, v, {}).Err? <==>
            exists vs: seq<Value> :: vs != [] && vs[0] == v && Walk(heap, vs) && vs[|vs| - 1] in vs[..|vs| - 1]
  {
    FailsExactly(heap, v);
    if vs: seq<Value> :| vs != [] && vs[0] == v && Faulty(heap, {}, vs) {
      var last := |vs| - 1;
      if last > 0 {
        assert Child(heap[vs[last - 1].ref], vs[last]);
      }
      assert !BadValue(heap, vs[last]);
    }
    if vs: seq<Value> :| vs != [] && vs[0] == v && Walk(heap, vs) && vs[|vs| - 1] in vs[..|vs| - 1] {
      assert Faulty(heap, {}, vs);
    }
  }

  // ----- The recursive procedure with its active set -----

  class Normalizer {
    var active: set<Ref>

    constructor ()
      ensures active == {}
    {
      active := {};
    }

    /** Success or failure, the active set is left as it was found. */
    method NormalizeJson(heap: Heap, v: Value) returns (r: Result<Tree, JsonError>)
      requires ValidHeap(heap) && Known(heap, v)
      modifies this
      ensures active == old(active)
      ensures r == Normalize(heap, v, old(active))
      decreases |heap.Keys - active|, 1
    {
      match v
      case NullValue => r := Ok(Null);
      case BoolValue(flag) => r := Ok(Bool(flag));
      case StringValue(chars) => r := Ok(String(chars));
      case NumberValue(number) =>
        if number.NotANumber? || number.Infinite? {
          r := Err(NonFinite);
        } else {
          r := Ok(Number(if number.NegativeZero? then 0 else number.code));
        }
      case NotWire => r := Err(NotWireJson);
      case Reference(ref) =>
        if ref in active {
          return Err(Cycle);
        }
        var fault := Fault(heap[ref]);
        if fault.Some? {
          return Err(fault.value);
        }
        LessToVisit(heap, active, ref);
        active := active + {ref};
        if heap[ref].ArrayObject? {
          r := NormalizeArray(heap, ref);
        } else {
          r := NormalizeObject(heap, ref);
        }
        active := active - {ref};
    }

    method NormalizeArray(heap: Heap, ref: Ref) returns (r: Result<Tree, JsonError>)
      requires ValidHeap(heap) && ref in heap && heap[ref].ArrayObject?
      modifies this
      ensures active == old(active)
      ensures r == Contents(heap, heap[ref], old(active))
      decreases |heap.Keys - active|, 2
    {
      var slots := heap[ref].slots;
      var normalized: seq<Tree> := [];
      for index := 0 to |slots|
        invariant active == old(active)
        invariant Begun(heap, slots, active, index, normalized)
      {
        if slots[index] == None {
          StopsAt(heap, slots, active, index, normalized);
          return Err(Hole);
        }
        var item := NormalizeJson(heap, slots[index].value);
        if item.Err? {
          StopsAt(heap, slots, active, index, normalized);
          return Err(item.error);
        }
        normalized := normalized + [item.value];
      }
      Finishes(heap, slots, active, normalized);
      r := Ok(Array(normalized));
    }

    method NormalizeObject(heap: Heap, ref: Ref) returns (r: Result<Tree, JsonError>)
      requires ValidHeap(heap) && ref in heap && heap[ref].PlainObject?
      modifies this
      ensures active == old(active)
      ensures r == Contents(heap, heap[ref], old(active))
      decreases |heap.Keys - active|, 2
    {
      var obj := heap[ref];
      ItemsAreKnown(heap, obj);
      ghost var items := Items(obj);
      var properties := Sort(obj.keys);
      var entries: seq<(Text, Tree)> := [];
      ghost var normalized: seq<Tree> := [];
      for index := 0 to |properties|
        invariant active == old(active)
        invariant Begun(heap, items, active, index, normalized)
        invariant Paired(properties, normalized, entries)
      {
        var item := NormalizeJson(heap, obj.values[properties[index]]);
        if item.Err? {
          StopsAt(heap, items, active, index, normalized);
          return Err(item.error);
        }
        PairOne(properties, normalized, entries, item.value);
        entries := entries + [(properties[index], item.value)];
        normalized := normalized + [item.value];
      }
      Finishes(heap, items, active, normalized);
      assert entries == Zip(properties, normalized);
      r := Ok(Object(entries));
    }
  }

  ghost predicate Paired(keys: seq<Text>, trees: seq<Tree>, entries: seq<(Text, Tree)>) {
    |entries| == |trees| <= |keys| && forall j :: 0 <= j < |entries| ==> entries[j] == (keys[j], trees[j])
  }

  lemma PairOne(keys: seq<Text>, trees: seq<Tree>, entries: seq<(Text, Tree)>, tree: Tree)
    requires Paired(keys, trees, entries) && |trees| < |keys|
    ensures Paired(keys, trees + [tree], entries + [(keys[|trees|], tree)])
  {
  }

  /** The first `count` items have been normalized to `done`. */
  ghost predicate Begun(heap: Heap, items: seq<Option<Value>>, active: set<Ref>, count: nat, done: seq<Tree>)
    requires ValidHeap(heap)
    requires forall i :: 0 <= i < |items| && items[i].Some? ==> Known(heap, items[i].value)
  {
    count <= |items| && |done| == count &&
    forall i :: 0 <= i < count ==> items[i].Some? && Normalize(heap, items[i].value, active) == Ok(done[i])
  }

  lemma {:induction false} StopsAt(heap: Heap, items: seq<Option<Value>>, active: set<Ref>, index: nat, done: seq<Tree>)
    requires ValidHeap(heap) && index < |items|
    requires forall i :: 0 <= i < |items| && items[i].Some? ==> Known(heap, items[i].value)
    requires Begun(heap, items, active, index, done)
    requires items[index].Some? ==> Normalize(heap, items[index].value, active).Err?
    ensures NormalizeAll(heap, items, active) ==
            Err(if items[index] == None then Hole else Normalize(heap, items[index].value, active).error)
    decreases index
  {
    if index > 0 {
      assert items[1..][index - 1] == items[index];
      StopsAt(heap, items[1..], active, index - 1, done[1..]);
    }
  }

  lemma Finishes(heap: Heap, items: seq<Option<Value>>, active: set<Ref>, done: seq<Tree>)
    requires ValidHeap(heap)
    requires forall i :: 0 <= i < |items| && items[i].Some? ==> Known(heap, items[i].value)
    requires Begun(heap, items, active, |items|, done)
    ensures NormalizeAll(heap, items, active) == Ok(done)
  {
    AllNormalize(heap, items, active);
    assert NormalizeAll(heap, items, active).value == done;
  }
}
