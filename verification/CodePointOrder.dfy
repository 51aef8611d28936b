/**
 The order in which canonical JSON lists the keys of an object: by code points, not by UTF-16 code
 units (packages-web/angular/src/idempotency.ts:21-29 and 73).
 */
module CodePointOrder {
  import opened Utf16

  /** Negative, zero or positive, as the first differing code point or else the lengths say. */
  function Difference(a: seq<nat>, b: seq<nat>): int {
    if a == [] || b == [] then |a| - |b|
    else if a[0] != b[0] then a[0] - b[0]
    else Difference(a[1..], b[1..])
  }

  function Compare(left: Text, right: Text): int {
    Difference(CodePoints(left), CodePoints(right))
  }

  predicate Less(left: Text, right: Text) {
    Compare(left, right) < 0
  }

  method CompareCodePoints(left: Text, right: Text) returns (difference: int)
    ensures difference == Compare(left, right)
  {
    var a, b := CodePoints(left), CodePoints(right);
    var index := 0;
    while index < (if |a| < |b| then |a| else |b|)
      invariant 0 <= index <= |a| && index <= |b|
      invariant Difference(a[index..], b[index..]) == Difference(a, b)
    {
      difference := a[index] as int - b[index] as int;
      if difference != 0 {
        return;
      }
      assert a[index..][1..] == a[index + 1..] && b[index..][1..] == b[index + 1..];
      index := index + 1;
    }
    difference := |a| - |b|;
  }

  // ----- A strict total order -----

  lemma {:induction false} DifferenceSwaps(a: seq<nat>, b: seq<nat>)
    ensures Difference(a, b) == -Difference(b, a)
    ensures Difference(a, b) == 0 <==> a == b
    decreases |a|
  {
    if a != [] && b != [] && a[0] == b[0] {
      DifferenceSwaps(a[1..], b[1..]);
      assert a == [a[0]] + a[1..] && b == [b[0]] + b[1..];
    }
  }

  lemma {:induction false} DifferenceChains(a: seq<nat>, b: seq<nat>, c: seq<nat>)
    requires Difference(a, b) < 0 && Difference(b, c) < 0
    ensures Difference(a, c) < 0
    decreases |a|
  {
    if a != [] && b != [] && c != [] && a[0] == b[0] == c[0] {
      DifferenceChains(a[1..], b[1..], c[1..]);
    }
  }

  lemma LessIsTotal(a: Text, b: Text)
    ensures Compare(a, b) == -Compare(b, a)
    ensures Compare(a, b) == 0 <==> a == b
    ensures Less(a, b) || a == b || Less(b, a)
    ensures !Less(a, a) && !(Less(a, b) && Less(b, a))
  {
    DifferenceSwaps(CodePoints(a), CodePoints(b));
    DifferenceSwaps(CodePoints(a), CodePoints(a));
    if Compare(a, b) == 0 {
      CodePointsInjective(a, b);
    }
  }

  lemma LessIsTransitive(a: Text, b: Text, c: Text)
    requires Less(a, b) && Less(b, c)
    ensures Less(a, c)
  {
    DifferenceChains(CodePoints(a), CodePoints(b), CodePoints(c));
  }

  /** It is not the order of the code units: U+FF5E comes before U+1F600, whose first unit is smaller. */
  lemma NotTheCodeUnitOrder()
    ensures Less([0xFF5E], [0xD83D, 0xDE00]) && 0xD83D < 0xFF5E
  {
    assert CodePoints([0xFF5E]) == [0xFF5E] + CodePoints([]);
    assert CodePoints([0xD83D, 0xDE00])[0] == 0x1F600;
  }

  // ----- Sorting keys -----

  predicate Ascending(keys: seq<Text>) {
    forall i, j :: 0 <= i < j < |keys| ==> Less(keys[i], keys[j])
  }

  predicate Distinct(keys: seq<Text>) {
    forall i, j :: 0 <= i < j < |keys| ==> keys[i] != keys[j]
  }

  function Insert(key: Text, keys: seq<Text>): (r: seq<Text>)
    ensures |r| == |keys| + 1
    ensures forall k :: k in r <==> k == key || k in keys
  {
    if keys == [] then [key]
    else if Less(keys[0], key) then
      var rest := Insert(key, keys[1..]);
      assert forall k :: k in keys <==> k == keys[0] || k in keys[1..];
      [keys[0]] + rest
    else [key] + keys
  }

  /** The keys in the order of `compareCodePoints`. */
  function Sort(keys: seq<Text>): (r: seq<Text>)
    ensures |r| == |keys|
    ensures forall k :: k in r <==> k in keys
  {
    if keys == [] then [] else Insert(keys[0], Sort(keys[1..]))
  }

  lemma {:induction false} InsertKeepsAscending(key: Text, keys: seq<Text>)
    requires Ascending(keys) && key !in keys
    ensures Ascending(Insert(key, keys))
  {
    if keys == [] {
      return;
    }
    LessIsTotal(keys[0], key);
    var r := Insert(key, keys);
    if Less(keys[0], key) {
      InsertKeepsAscending(key, keys[1..]);
      forall j | 0 < j < |r| ensures Less(r[0], r[j]) {
        assert r[j] in Insert(key, keys[1..]);
        assert r[j] == key || r[j] in keys[1..];
      }
    } else {
      forall j | 0 < j < |r| ensures Less(r[0], r[j]) {
        if j > 1 {
          LessIsTransitive(key, keys[0], keys[j - 1]);
        }
      }
    }
  }

  lemma {:induction false} SortAscends(keys: seq<Text>)
    requires Distinct(keys)
    ensures Ascending(Sort(keys))
  {
    if keys != [] {
      SortAscends(keys[1..]);
      InsertKeepsAscending(keys[0], Sort(keys[1..]));
    }
  }

  /** An ascending sequence is determined by its elements. */
  lemma {:induction false} AscendingDetermined(a: seq<Text>, b: seq<Text>)
    requires Ascending(a) && Ascending(b)
    requires forall k :: k in a <==> k in b
    ensures a == b
  {
    assert a != [] ==> a[0] in a;
    assert b != [] ==> b[0] in b;
    if a != [] && b != [] {
      HeadIsLeast(a, b);
      HeadIsLeast(b, a);
      LessIsTotal(a[0], b[0]);
      TailsAgree(a, b);
      TailsAgree(b, a);
      AscendingDetermined(a[1..], b[1..]);
      assert a == [a[0]] + a[1..] && b == [b[0]] + b[1..];
    }
  }

  lemma HeadIsLeast(a: seq<Text>, b: seq<Text>)
    requires Ascending(a) && a != [] && b != []
    requires forall k :: k in a <==> k in b
    ensures !Less(b[0], a[0])
  {
    assert b[0] in a;
    var i :| 0 <= i < |a| && a[i] == b[0];
    LessIsTotal(a[0], b[0]);
  }

  lemma TailsAgree(a: seq<Text>, b: seq<Text>)
    requires Ascending(a) && Ascending(b) && a != [] && b != [] && a[0] == b[0]
    requires forall k :: k in a <==> k in b
    ensures forall k :: k in a[1..] ==> k in b[1..]
  {
    forall k | k in a[1..] ensures k in b[1..] {
      var i :| 0 <= i < |a| - 1 && a[1..][i] == k;
      assert Less(a[0], a[i + 1]);
      LessIsTotal(a[0], k);
      assert k in b;
    }
  }

  /** So the sorted keys do not depend on the order in which the object lists them. */
  lemma SortForgetsOrder(a: seq<Text>, b: seq<Text>)
    requires Distinct(a) && Distinct(b)
    requires forall k :: k in a <==> k in b
    ensures Sort(a) == Sort(b)
  {
    SortAscends(a);
    SortAscends(b);
    AscendingDetermined(Sort(a), Sort(b));
  }
}
