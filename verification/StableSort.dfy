/** Python's sorted(items, key=..., reverse=True): a stable descending sort. */
module StableSort {
  function Insert<T>(x: T, sorted: seq<T>, key: T -> real): (r: seq<T>)
    ensures |r| == |sorted| + 1
  {
    if sorted == [] || key(x) >= key(sorted[0]) then [x] + sorted else [sorted[0]] + Insert(x, sorted[1..], key)
  }

  function SortDescending<T>(items: seq<T>, key: T -> real): (r: seq<T>)
    ensures |r| == |items|
  {
    if items == [] then [] else Insert(items[0], SortDescending(items[1..], key), key)
  }

  // A higher key, or the same key and an earlier place.
  predicate Before<T>(a: T, b: T, key: T -> real, order: T -> int) {
    key(a) > key(b) || (key(a) == key(b) && order(a) < order(b))
  }

  ghost predicate Sorted<T>(s: seq<T>, key: T -> real, order: T -> int) {
    forall i, j :: 0 <= i < j < |s| ==> Before(s[i], s[j], key, order)
  }

  ghost predicate InOrder<T>(s: seq<T>, order: T -> int) {
    forall i, j :: 0 <= i < j < |s| ==> order(s[i]) < order(s[j])
  }

  lemma {:induction false} InsertPermutes<T(!new)>(x: T, sorted: seq<T>, key: T -> real)
    ensures multiset(Insert(x, sorted, key)) == multiset(sorted) + multiset{x}
    ensures forall y :: y in Insert(x, sorted, key) ==> y == x || y in sorted
  {
    if sorted != [] {
      assert sorted == [sorted[0]] + sorted[1..];
      InsertPermutes(x, sorted[1..], key);
    }
  }

  lemma {:induction false} InsertKeepsSorted<T(!new)>(x: T, sorted: seq<T>, key: T -> real, order: T -> int)
    requires Sorted(sorted, key, order) && forall y :: y in sorted ==> order(x) < order(y)
    ensures Sorted(Insert(x, sorted, key), key, order)
  {
    if sorted != [] {
      var head, rest := sorted[0], sorted[1..];
      assert forall i | 0 <= i < |rest| :: rest[i] == sorted[i + 1] && Before(head, sorted[i + 1], key, order);
      if key(x) < key(head) {
        InsertKeepsSorted(x, rest, key, order);
        InsertPermutes(x, rest, key);
        var inserted := Insert(x, rest, key);
        assert forall y | y in inserted :: Before(head, y, key, order);
        assert Insert(x, sorted, key) == [head] + inserted;
      } else {
        assert forall i | 0 <= i < |sorted| :: Before(x, sorted[i], key, order);
      }
    }
  }

  lemma {:induction false} SortPermutes<T(!new)>(items: seq<T>, key: T -> real)
    ensures multiset(SortDescending(items, key)) == multiset(items)
  {
    if items != [] {
      assert items == [items[0]] + items[1..];
      SortPermutes(items[1..], key);
      InsertPermutes(items[0], SortDescending(items[1..], key), key);
    }
  }

  lemma SameElements<T(!new)>(sorted: seq<T>, items: seq<T>, key: T -> real)
    requires sorted == SortDescending(items, key)
    ensures forall y :: y in sorted <==> y in items
  {
    SortPermutes(items, key);
    forall y ensures y in sorted <==> y in items {
      assert y in multiset(sorted) <==> y in multiset(items);
    }
  }

  lemma {:induction false} SortedByKey<T(!new)>(items: seq<T>, key: T -> real, order: T -> int)
    requires InOrder(items, order)
    ensures Sorted(SortDescending(items, key), key, order)
  {
    if items != [] {
      var first, rest := items[0], items[1..];
      assert forall i | 0 <= i < |rest| :: rest[i] == items[i + 1] && order(first) < order(items[i + 1]);
      SortedByKey(rest, key, order);
      var sorted := SortDescending(rest, key);
      SameElements(sorted, rest, key);
      forall y | y in sorted ensures order(first) < order(y) {
        assert y in rest;
        var i :| 0 <= i < |rest| && rest[i] == y;
      }
      InsertKeepsSorted(first, sorted, key, order);
    }
  }

  // The result is a permutation, by descending key, and keeps the given order among equal keys.
  lemma Sorts<T(!new)>(items: seq<T>, key: T -> real, order: T -> int)
    requires InOrder(items, order)
    ensures multiset(SortDescending(items, key)) == multiset(items)
    ensures forall y :: y in SortDescending(items, key) <==> y in items
    ensures Sorted(SortDescending(items, key), key, order)
  {
    SortPermutes(items, key);
    SameElements(SortDescending(items, key), items, key);
    SortedByKey(items, key, order);
  }

  // ----- items with distinct identities

  ghost predicate Distinct(ids: seq<nat>) {
    forall i, j :: 0 <= i < j < |ids| ==> ids[i] != ids[j]
  }

  function PlaceOf(ids: seq<nat>, x: nat): (k: nat)
    ensures x in ids ==> k < |ids| && ids[k] == x
  {
    if ids == [] then 0 else if ids[0] == x then 0 else 1 + PlaceOf(ids[1..], x)
  }

  // A higher key, or the same key and listed first in `ids`.
  ghost predicate Ahead<T>(a: T, b: T, key: T -> real, ids: seq<nat>, id: T -> nat) {
    key(a) > key(b) || (key(a) == key(b) && PlaceOf(ids, id(a)) < PlaceOf(ids, id(b)))
  }

  lemma SortsDistinct<T(!new)>(items: seq<T>, sorted: seq<T>, key: T -> real, ids: seq<nat>, id: T -> nat)
    requires sorted == SortDescending(items, key)
    requires Distinct(ids) && |items| == |ids| && forall k :: 0 <= k < |items| ==> id(items[k]) == ids[k]
    ensures forall y :: y in sorted <==> y in items
    ensures forall i, j :: 0 <= i < j < |sorted| ==> id(sorted[i]) != id(sorted[j]) && Ahead(sorted[i], sorted[j], key, ids, id)
  {
    hide SortDescending;
    var place := (x: T) => PlaceOf(ids, id(x));
    forall i, j | 0 <= i < j < |items| ensures place(items[i]) < place(items[j]) {
      assert ids[i] in ids && ids[j] in ids;
    }
    Sorts(items, key, place);
    hide PlaceOf;
    forall i, j | 0 <= i < j < |sorted| ensures id(sorted[i]) != id(sorted[j]) && Ahead(sorted[i], sorted[j], key, ids, id) {
      assert Before(sorted[i], sorted[j], key, place);
      assert sorted[i] in items && sorted[j] in items;
      var a :| 0 <= a < |items| && items[a] == sorted[i];
      var b :| 0 <= b < |items| && items[b] == sorted[j];
      assert a != b;
    }
  }
}
