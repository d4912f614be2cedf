/**
 * Python's `list.sort(key=...)`: a stable, ascending sort by an integer key.
 * It is modelled by a stable insertion sort, and the three facts that pin a
 * stable sort down are proved about it: the result is ordered by the key, it
 * is a permutation of the input, and elements with equal keys keep their
 * relative order.
 */
module Sorting {

  ghost predicate SortedBy<T>(s: seq<T>, key: T -> int)
  {
    forall i, j :: 0 <= i < j < |s| ==> key(s[i]) <= key(s[j])
  }

  /** Insert `x` after every element of `t` whose key is not larger than its own. */
  function Insert<T>(t: seq<T>, x: T, key: T -> int): (r: seq<T>)
    ensures multiset(r) == multiset(t) + multiset{x}
    decreases |t|
  {
    if t == [] || key(t[|t| - 1]) <= key(x) then t + [x]
    else
      assert t == t[..|t| - 1] + [t[|t| - 1]];
      Insert(t[..|t| - 1], x, key) + [t[|t| - 1]]
  }

  /** The stable sort: insert the elements one by one, in input order. */
  function SortBy<T>(s: seq<T>, key: T -> int): (r: seq<T>)
    ensures multiset(r) == multiset(s)
    decreases |s|
  {
    if s == [] then []
    else
      assert s == s[..|s| - 1] + [s[|s| - 1]];
      Insert(SortBy(s[..|s| - 1], key), s[|s| - 1], key)
  }

  /** The elements of `s` whose key is `k`, in their order in `s`. */
  function WithKey<T>(s: seq<T>, key: T -> int, k: int): seq<T>
    decreases |s|
  {
    if s == [] then []
    else WithKey(s[..|s| - 1], key, k) + (if key(s[|s| - 1]) == k then [s[|s| - 1]] else [])
  }

  lemma {:induction false} WithKeyAppend<T>(a: seq<T>, b: seq<T>, key: T -> int, k: int)
    ensures WithKey(a + b, key, k) == WithKey(a, key, k) + WithKey(b, key, k)
    decreases |b|
  {
    if b == [] {
      assert a + b == a;
    } else {
      var b' := b[..|b| - 1];
      assert (a + b)[..|a + b| - 1] == a + b';
      WithKeyAppend(a, b', key, k);
    }
  }

  lemma {:induction false} InsertSorted<T>(t: seq<T>, x: T, key: T -> int)
    requires SortedBy(t, key)
    ensures SortedBy(Insert(t, x, key), key)
    decreases |t|
  {
    if t == [] || key(t[|t| - 1]) <= key(x) {
    } else {
      var t', l := t[..|t| - 1], t[|t| - 1];
      InsertSorted(t', x, key);
      var r' := Insert(t', x, key);
      forall i | 0 <= i < |r'|
        ensures key(r'[i]) <= key(l)
      {
        assert r'[i] in multiset(r');
        assert r'[i] in t' || r'[i] == x;
      }
    }
  }

  /** `WithKey` of a sequence ending in `l`. */
  lemma WithKeySnoc<T>(u: seq<T>, l: T, key: T -> int, k: int)
    ensures WithKey(u + [l], key, k) == WithKey(u, key, k) + (if key(l) == k then [l] else [])
  {
    assert (u + [l])[..|u + [l]| - 1] == u;
  }

  lemma {:induction false} InsertStable<T>(t: seq<T>, x: T, key: T -> int, k: int)
    ensures WithKey(Insert(t, x, key), key, k) == WithKey(t, key, k) + (if key(x) == k then [x] else [])
    decreases |t|
  {
    if t == [] || key(t[|t| - 1]) <= key(x) {
      WithKeySnoc(t, x, key, k);
    } else {
      var t', l := t[..|t| - 1], t[|t| - 1];
      assert t == t' + [l];
      InsertStable(t', x, key, k);
      WithKeySnoc(Insert(t', x, key), l, key, k);
      WithKeySnoc(t', l, key, k);
    }
  }

  /** The sort orders its result by the key. */
  lemma {:induction false} SortBySorted<T>(s: seq<T>, key: T -> int)
    ensures SortedBy(SortBy(s, key), key)
    decreases |s|
  {
    if s != [] {
      SortBySorted(s[..|s| - 1], key);
      InsertSorted(SortBy(s[..|s| - 1], key), s[|s| - 1], key);
    }
  }

  /** The sort is stable: for every key, the elements carrying it appear in input order. */
  lemma {:induction false} SortByStable<T>(s: seq<T>, key: T -> int, k: int)
    ensures WithKey(SortBy(s, key), key, k) == WithKey(s, key, k)
    decreases |s|
  {
    if s != [] {
      SortByStable(s[..|s| - 1], key, k);
      InsertStable(SortBy(s[..|s| - 1], key), s[|s| - 1], key, k);
    }
  }

  /** The last element after an insertion: `x` unless something larger was already last. */
  lemma InsertLast<T>(t: seq<T>, x: T, key: T -> int)
    ensures var r := Insert(t, x, key);
            |r| == |t| + 1 &&
            r[|r| - 1] == if t == [] || key(t[|t| - 1]) <= key(x) then x else t[|t| - 1]
  {
    var r := Insert(t, x, key);
    assert |r| == |multiset(r)|;
  }

  /**
   * The position of the element that a stable sort puts last: the largest
   * key, and among equal keys the one that comes last.
   */
  function LastMaxIndex<T>(s: seq<T>, key: T -> int): (k: nat)
    requires s != []
    ensures k < |s|
    ensures forall i :: 0 <= i < |s| ==> key(s[i]) <= key(s[k])
    ensures forall i :: k < i < |s| ==> key(s[i]) < key(s[k])
    decreases |s|
  {
    if |s| == 1 then 0
    else
      var k := LastMaxIndex(s[..|s| - 1], key);
      if key(s[k]) <= key(s[|s| - 1]) then |s| - 1 else k
  }

  /** Sorting and then taking the last element yields the element `LastMaxIndex` names. */
  lemma {:induction false} SortedLast<T>(s: seq<T>, key: T -> int)
    requires s != []
    ensures var sorted := SortBy(s, key);
            |sorted| == |s| && sorted[|sorted| - 1] == s[LastMaxIndex(s, key)]
    decreases |s|
  {
    var p, x := s[..|s| - 1], s[|s| - 1];
    var t := SortBy(p, key);
    assert SortBy(s, key) == Insert(t, x, key);
    InsertLast(t, x, key);
    if p != [] {
      SortedLast(p, key);
    } else {
      assert |t| == 0;
    }
  }
}
