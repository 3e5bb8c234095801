/**
 * Python's `list.sort(key=...)`: a stable sort by an integer key.
 * `sort(key=k, reverse=True)` is also stable (records with equal keys keep
 * their order), so it is the same as a stable ascending sort on the negated key.
 */
module StableSort {

  predicate SortedBy<T>(s: seq<T>, key: T -> int) {
    forall i, j :: 0 <= i < j < |s| ==> key(s[i]) <= key(s[j])
  }

  /** The elements of `s` whose key is `k`, in their order in `s`. */
  function WithKey<T>(s: seq<T>, key: T -> int, k: int): seq<T> {
    if s == [] then []
    else (if key(s[0]) == k then [s[0]] else []) + WithKey(s[1..], key, k)
  }

  /** Inserts `x` before the first element whose key is not smaller than its own. */
  function Insert<T>(x: T, s: seq<T>, key: T -> int): (r: seq<T>)
    ensures |r| == |s| + 1
    ensures multiset(r) == multiset(s) + multiset{x}
  {
    if s == [] then [x]
    else if key(x) <= key(s[0]) then [x] + s
    else
      assert s == [s[0]] + s[1..];
      [s[0]] + Insert(x, s[1..], key)
  }

  /** Every element of `s` has a key at least `lo`. */
  predicate KeysAtLeast<T>(s: seq<T>, key: T -> int, lo: int) {
    forall i :: 0 <= i < |s| ==> lo <= key(s[i])
  }

  lemma {:induction false} InsertSorted<T>(x: T, s: seq<T>, key: T -> int)
    requires SortedBy(s, key)
    ensures SortedBy(Insert(x, s, key), key)
    ensures forall lo :: KeysAtLeast(s, key, lo) && lo <= key(x) ==> KeysAtLeast(Insert(x, s, key), key, lo)
  {
    if s == [] {
    } else if key(x) <= key(s[0]) {
      var r := [x] + s;
      assert forall i :: 1 <= i < |r| ==> r[i] == s[i - 1];
    } else {
      var tail := Insert(x, s[1..], key);
      var r := [s[0]] + tail;
      assert SortedBy(s[1..], key);
      assert KeysAtLeast(s[1..], key, key(s[0]));
      InsertSorted(x, s[1..], key);
      assert KeysAtLeast(tail, key, key(s[0]));
      assert forall i :: 1 <= i < |r| ==> r[i] == tail[i - 1];
      forall lo | KeysAtLeast(s, key, lo) && lo <= key(x) ensures KeysAtLeast(r, key, lo) {
        assert KeysAtLeast(s[1..], key, lo);
      }
    }
  }

  /** Insertion sort: ascending by key, equal keys in input order. */
  function SortBy<T>(s: seq<T>, key: T -> int): (r: seq<T>)
    ensures |r| == |s|
    ensures multiset(r) == multiset(s)
    ensures SortedBy(r, key)
  {
    if s == [] then []
    else
      assert s == [s[0]] + s[1..];
      InsertSorted(s[0], SortBy(s[1..], key), key);
      Insert(s[0], SortBy(s[1..], key), key)
  }

  lemma WithKeyCons<T>(y: T, t: seq<T>, key: T -> int, k: int)
    ensures WithKey([y] + t, key, k) == (if key(y) == k then [y] else []) + WithKey(t, key, k)
  {
    assert ([y] + t)[0] == y && ([y] + t)[1..] == t;
  }

  /** Inserting `x` puts it ahead of every element with the same key, and moves nothing else. */
  lemma {:induction false} InsertWithKey<T>(x: T, s: seq<T>, key: T -> int, k: int)
    ensures WithKey(Insert(x, s, key), key, k)
         == (if key(x) == k then [x] else []) + WithKey(s, key, k)
  {
    if s == [] {
      assert Insert(x, s, key) == [x] + [];
      WithKeyCons(x, [], key, k);
    } else if key(x) <= key(s[0]) {
      assert Insert(x, s, key) == [x] + s;
      WithKeyCons(x, s, key, k);
    } else {
      InsertWithKey(x, s[1..], key, k);
      InsertWithKeyPastHead(x, s, key, k);
    }
  }

  /** The step of `InsertWithKey` where `x` goes past the first element. */
  lemma InsertWithKeyPastHead<T>(x: T, s: seq<T>, key: T -> int, k: int)
    requires s != [] && key(x) > key(s[0])
    requires WithKey(Insert(x, s[1..], key), key, k)
          == (if key(x) == k then [x] else []) + WithKey(s[1..], key, k)
    ensures WithKey(Insert(x, s, key), key, k)
         == (if key(x) == k then [x] else []) + WithKey(s, key, k)
  {
    var tail := Insert(x, s[1..], key);
    assert Insert(x, s, key) == [s[0]] + tail;
    assert s == [s[0]] + s[1..];
    WithKeyCons(s[0], tail, key, k);
    WithKeyCons(s[0], s[1..], key, k);
    var rest := WithKey(s[1..], key, k);
    if key(x) == k {
      assert key(s[0]) != k;
      assert WithKey(Insert(x, s, key), key, k) == [x] + rest;
    } else {
      assert WithKey(tail, key, k) == rest;
    }
  }

  /** Stability: for every key, the elements with that key keep their relative order. */
  lemma {:induction false} SortByStable<T>(s: seq<T>, key: T -> int, k: int)
    ensures WithKey(SortBy(s, key), key, k) == WithKey(s, key, k)
  {
    if s != [] {
      SortByStable(s[1..], key, k);
      InsertWithKey(s[0], SortBy(s[1..], key), key, k);
    }
  }
}
