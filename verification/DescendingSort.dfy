/**
 `list.sort(key=..., reverse=True)`: a stable descending sort by a two-part key,
 compared part by part as Python compares tuples.
 */
module DescendingSort {
  type Key = (real, int)

  predicate Above(k: Key, l: Key) {
    k.0 > l.0 || (k.0 == l.0 && k.1 > l.1)
  }

  function Insert<T>(x: T, sorted: seq<T>, key: T -> Key): seq<T> {
    if sorted == [] || !Above(key(sorted[0]), key(x)) then [x] + sorted
    else [sorted[0]] + Insert(x, sorted[1..], key)
  }

  function Sort<T>(xs: seq<T>, key: T -> Key): seq<T> {
    if xs == [] then [] else Insert(xs[0], Sort(xs[1..], key), key)
  }

  ghost predicate Sorted<T>(xs: seq<T>, key: T -> Key) {
    forall i, j :: 0 <= i < j < |xs| ==> !Above(key(xs[j]), key(xs[i]))
  }

  /** The elements with one key, in order. */
  function WithKey<T>(xs: seq<T>, k: Key, key: T -> Key): seq<T> {
    if xs == [] then []
    else (if key(xs[0]) == k then [xs[0]] else []) + WithKey(xs[1..], k, key)
  }

  /** Descending, and elements with equal keys keep their order. */
  ghost predicate StableSortOf<T>(sorted: seq<T>, xs: seq<T>, key: T -> Key) {
    Sorted(sorted, key) && forall k: Key :: WithKey(sorted, k, key) == WithKey(xs, k, key)
  }

  /** Position `i` holds the first of the elements with the highest key. */
  ghost predicate FirstBest<T>(xs: seq<T>, i: nat, key: T -> Key) {
    && i < |xs|
    && (forall j :: 0 <= j < |xs| ==> !Above(key(xs[j]), key(xs[i])))
    && (forall j :: 0 <= j < i ==> Above(key(xs[i]), key(xs[j])))
  }

  lemma {:induction false} InsertKeepsElements<T>(x: T, sorted: seq<T>, key: T -> Key)
    ensures multiset(Insert(x, sorted, key)) == multiset(sorted) + multiset{x}
  {
    if sorted != [] && Above(key(sorted[0]), key(x)) {
      InsertKeepsElements(x, sorted[1..], key);
      assert sorted == [sorted[0]] + sorted[1..];
    }
  }

  lemma {:induction false} InsertSorts<T>(x: T, sorted: seq<T>, key: T -> Key)
    requires Sorted(sorted, key)
    ensures Sorted(Insert(x, sorted, key), key)
  {
    InsertKeepsElements(x, sorted, key);
    if sorted != [] && Above(key(sorted[0]), key(x)) {
      var rest := Insert(x, sorted[1..], key);
      InsertSorts(x, sorted[1..], key);
      InsertKeepsElements(x, sorted[1..], key);
      forall j | 0 <= j < |rest| ensures !Above(key(rest[j]), key(sorted[0])) {
        assert rest[j] in multiset(rest);
        assert rest[j] == x || rest[j] in multiset(sorted[1..]);
      }
    }
  }

  lemma {:induction false} InsertKeepsGroups<T>(x: T, sorted: seq<T>, k: Key, key: T -> Key)
    ensures WithKey(Insert(x, sorted, key), k, key) == WithKey([x] + sorted, k, key)
  {
    assert ([x] + sorted)[1..] == sorted;
    if sorted != [] && Above(key(sorted[0]), key(x)) {
      var rest := Insert(x, sorted[1..], key);
      InsertKeepsGroups(x, sorted[1..], k, key);
      assert ([sorted[0]] + rest)[1..] == rest;
      assert ([x] + sorted[1..])[1..] == sorted[1..];
    }
  }

  lemma {:induction false} SortIsStable<T>(xs: seq<T>, key: T -> Key)
    ensures StableSortOf(Sort(xs, key), xs, key)
    ensures multiset(Sort(xs, key)) == multiset(xs)
  {
    if xs != [] {
      var rest := Sort(xs[1..], key);
      SortIsStable(xs[1..], key);
      InsertSorts(xs[0], rest, key);
      InsertKeepsElements(xs[0], rest, key);
      assert xs == [xs[0]] + xs[1..];
      forall k: Key ensures WithKey(Sort(xs, key), k, key) == WithKey(xs, k, key) {
        InsertKeepsGroups(xs[0], rest, k, key);
        assert ([xs[0]] + rest)[1..] == rest;
      }
    }
  }

  /** The head of a sorted list is the first element of the group of its key. */
  lemma HeadLeadsGroup<T>(xs: seq<T>, key: T -> Key)
    requires xs != []
    ensures WithKey(xs, key(xs[0]), key) != [] && WithKey(xs, key(xs[0]), key)[0] == xs[0]
  {
  }

  lemma {:induction false} GroupMember<T>(xs: seq<T>, k: Key, key: T -> Key)
    requires WithKey(xs, k, key) != []
    ensures exists i :: 0 <= i < |xs| && key(xs[i]) == k
  {
    if key(xs[0]) != k {
      GroupMember(xs[1..], k, key);
      var i :| 0 <= i < |xs[1..]| && key(xs[1..][i]) == k;
      assert key(xs[i + 1]) == k;
    }
  }

  /** There is only one stable descending sort, so any correct sort computes this one. */
  lemma {:induction false} StableSortIsUnique<T>(a: seq<T>, b: seq<T>, key: T -> Key)
    requires Sorted(a, key) && Sorted(b, key)
    requires forall k: Key :: WithKey(a, k, key) == WithKey(b, k, key)
    ensures a == b
  {
    if a == [] || b == [] {
      if a != [] {
        HeadLeadsGroup(a, key);
      }
      if b != [] {
        HeadLeadsGroup(b, key);
      }
    } else {
      HeadLeadsGroup(a, key);
      HeadLeadsGroup(b, key);
      GroupMember(b, key(a[0]), key);
      GroupMember(a, key(b[0]), key);
      assert key(a[0]) == key(b[0]);
      forall k: Key ensures WithKey(a[1..], k, key) == WithKey(b[1..], k, key) {
        var first := if key(a[0]) == k then [a[0]] else [];
        assert WithKey(a, k, key) == first + WithKey(a[1..], k, key);
        assert WithKey(b, k, key) == first + WithKey(b[1..], k, key);
        assert WithKey(a, k, key)[|first|..] == WithKey(b, k, key)[|first|..];
      }
      StableSortIsUnique(a[1..], b[1..], key);
    }
  }

  /** The head of the sort is the first of the best. */
  lemma {:induction false} SortPutsFirstBestFirst<T>(xs: seq<T>, i: nat, key: T -> Key)
    requires FirstBest(xs, i, key)
    ensures Sort(xs, key) != [] && Sort(xs, key)[0] == xs[i]
  {
    SortIsStable(xs[1..], key);
    var rest := Sort(xs[1..], key);
    if i > 0 {
      SortPutsFirstBestFirst(xs[1..], i - 1, key);
    } else if rest != [] {
      assert rest[0] in multiset(rest);
      assert rest[0] in xs[1..];
      var j :| 0 <= j < |xs[1..]| && xs[1..][j] == rest[0];
      assert xs[j + 1] == rest[0];
    }
  }

  lemma {:induction false} FirstBestExists<T>(xs: seq<T>, key: T -> Key)
    requires xs != []
    ensures exists i: nat :: FirstBest(xs, i, key)
  {
    if |xs| == 1 {
      assert FirstBest(xs, 0, key);
    } else {
      FirstBestExists(xs[1..], key);
      var i: nat :| FirstBest(xs[1..], i, key);
      assert forall j :: 0 < j < |xs| ==> xs[j] == xs[1..][j - 1];
      if Above(key(xs[i + 1]), key(xs[0])) {
        assert FirstBest(xs, i + 1, key);
      } else {
        assert FirstBest(xs, 0, key);
      }
    }
  }
}
