/**
 * Ranking by a two-part key, as both sorts in the source do it: Rust's
 * `sort_by(|a, b| a.x.cmp(&b.x).then(a.y.partial_cmp(&b.y)...))`, which is a
 * stable sort.  Modelled by a stable insertion sort; the lemmas show it is
 * sorted, a permutation, stable, and the only arrangement with those
 * properties, so any stable sort gives the same list.
 */
module Ranking {

  /** An integer compared first, then a real. */
  datatype Key = Key(primary: int, secondary: real)

  predicate KeyLe(a: Key, b: Key)
  {
    a.primary < b.primary || (a.primary == b.primary && a.secondary <= b.secondary)
  }

  lemma KeyLeTotalOrder(a: Key, b: Key, c: Key)
    ensures KeyLe(a, a)
    ensures KeyLe(a, b) || KeyLe(b, a)
    ensures KeyLe(a, b) && KeyLe(b, a) ==> a == b
    ensures KeyLe(a, b) && KeyLe(b, c) ==> KeyLe(a, c)
  {
  }

  ghost predicate SortedByKey<T>(s: seq<T>, key: T -> Key)
  {
    forall i, j :: 0 <= i < j < |s| ==> KeyLe(key(s[i]), key(s[j]))
  }

  /** The elements of s whose key is k, in their order in s. */
  function WithKey<T>(s: seq<T>, key: T -> Key, k: Key): (r: seq<T>)
    ensures |r| <= |s|
    ensures forall i :: 0 <= i < |r| ==> key(r[i]) == k
  {
    if s == [] then []
    else (if key(s[0]) == k then [s[0]] else []) + WithKey(s[1..], key, k)
  }

  /** Put x in front of the first element whose key is not below x's. */
  function Insert<T>(x: T, s: seq<T>, key: T -> Key): (r: seq<T>)
    ensures |r| == |s| + 1
    ensures multiset(r) == multiset(s) + multiset{x}
  {
    if s == [] || KeyLe(key(x), key(s[0])) then [x] + s
    else
      assert s == [s[0]] + s[1..];
      [s[0]] + Insert(x, s[1..], key)
  }

  function SortByKey<T>(s: seq<T>, key: T -> Key): (r: seq<T>)
    ensures |r| == |s|
    ensures multiset(r) == multiset(s)
  {
    if s == [] then []
    else
      assert s == [s[0]] + s[1..];
      Insert(s[0], SortByKey(s[1..], key), key)
  }

  lemma {:induction false} InsertSorted<T>(x: T, s: seq<T>, key: T -> Key)
    requires SortedByKey(s, key)
    ensures SortedByKey(Insert(x, s, key), key)
    decreases |s|
  {
    if s != [] && !KeyLe(key(x), key(s[0])) {
      InsertSorted(x, s[1..], key);
      var r := Insert(x, s, key);
      var tail := Insert(x, s[1..], key);
      assert r == [s[0]] + tail;
      forall j | 0 < j < |r|
        ensures KeyLe(key(s[0]), key(r[j]))
      {
        assert r[j] in multiset(tail);
        assert r[j] == x || r[j] in multiset(s[1..]);
        if r[j] != x {
          var k :| 0 <= k < |s[1..]| && s[1..][k] == r[j];
          assert s[k + 1] == r[j];
        }
      }
    }
  }

  /** The ranked list is ordered by key. */
  lemma {:induction false} SortByKeySorted<T>(s: seq<T>, key: T -> Key)
    ensures SortedByKey(SortByKey(s, key), key)
    decreases |s|
  {
    if s != [] {
      SortByKeySorted(s[1..], key);
      InsertSorted(s[0], SortByKey(s[1..], key), key);
    }
  }

  lemma WithKeyCons<T>(y: T, s: seq<T>, key: T -> Key, k: Key)
    ensures WithKey([y] + s, key, k) == (if key(y) == k then [y] else []) + WithKey(s, key, k)
  {
    assert ([y] + s)[0] == y && ([y] + s)[1..] == s;
  }

  lemma {:induction false} WithKeyInsert<T>(x: T, s: seq<T>, key: T -> Key, k: Key)
    ensures WithKey(Insert(x, s, key), key, k) == (if key(x) == k then [x] else []) + WithKey(s, key, k)
    decreases |s|
  {
    WithKeyCons(x, s, key, k);
    if s != [] && !KeyLe(key(x), key(s[0])) {
      var tail := Insert(x, s[1..], key);
      WithKeyInsert(x, s[1..], key, k);
      WithKeyCons(s[0], tail, key, k);
      WithKeyCons(s[0], s[1..], key, k);
      assert s == [s[0]] + s[1..];
      var w := WithKey(s[1..], key, k);
      if key(x) == k {
        KeyLeTotalOrder(key(x), key(s[0]), key(x));
        assert WithKey(Insert(x, s, key), key, k) == [] + ([x] + w);
      } else {
        assert WithKey(Insert(x, s, key), key, k) == WithKey([s[0]] + tail, key, k);
      }
    }
  }

  /** Stability: elements with equal keys keep their relative order. */
  lemma {:induction false} SortByKeyStable<T>(s: seq<T>, key: T -> Key, k: Key)
    ensures WithKey(SortByKey(s, key), key, k) == WithKey(s, key, k)
    decreases |s|
  {
    if s != [] {
      SortByKeyStable(s[1..], key, k);
      WithKeyInsert(s[0], SortByKey(s[1..], key), key, k);
    }
  }

  lemma {:induction false} WithKeyEmpty<T>(s: seq<T>, key: T -> Key)
    requires s != []
    ensures WithKey(s, key, key(s[0])) != []
  {
  }

  lemma {:induction false} WithKeyMember<T>(s: seq<T>, key: T -> Key, k: Key)
    requires WithKey(s, key, k) != []
    ensures exists i :: 0 <= i < |s| && key(s[i]) == k
    decreases |s|
  {
    if key(s[0]) != k {
      WithKeyMember(s[1..], key, k);
      var i :| 0 <= i < |s[1..]| && key(s[1..][i]) == k;
      assert key(s[i + 1]) == k;
    }
  }

  /** Two ordered lists with the same elements of every key start with the same element. */
  lemma SortedStableHead<T>(t: seq<T>, u: seq<T>, key: T -> Key)
    requires t != [] && u != []
    requires SortedByKey(t, key) && SortedByKey(u, key)
    requires forall k :: WithKey(t, key, k) == WithKey(u, key, k)
    ensures t[0] == u[0]
  {
    var a, b := key(t[0]), key(u[0]);
    WithKeyEmpty(t, key);
    WithKeyEmpty(u, key);
    assert WithKey(u, key, a) == WithKey(t, key, a);
    assert WithKey(t, key, b) == WithKey(u, key, b);
    WithKeyMember(u, key, a);
    WithKeyMember(t, key, b);
    var i :| 0 <= i < |u| && key(u[i]) == a;
    var j :| 0 <= j < |t| && key(t[j]) == b;
    assert KeyLe(b, a) by { if i > 0 { assert KeyLe(key(u[0]), key(u[i])); } }
    assert KeyLe(a, b) by { if j > 0 { assert KeyLe(key(t[0]), key(t[j])); } }
    KeyLeTotalOrder(a, b, a);
    assert WithKey(t, key, a)[0] == t[0];
    assert WithKey(u, key, a)[0] == u[0];
  }

  lemma WithKeyTail<T>(t: seq<T>, u: seq<T>, key: T -> Key, k: Key)
    requires t != [] && u != [] && t[0] == u[0]
    requires WithKey(t, key, k) == WithKey(u, key, k)
    ensures WithKey(t[1..], key, k) == WithKey(u[1..], key, k)
  {
    var x, y := WithKey(t[1..], key, k), WithKey(u[1..], key, k);
    if key(t[0]) == k {
      assert WithKey(t, key, k) == [t[0]] + x;
      assert WithKey(u, key, k) == [t[0]] + y;
      assert ([t[0]] + x)[1..] == x;
      assert ([t[0]] + y)[1..] == y;
    } else {
      assert [] + x == x && [] + y == y;
      assert WithKey(t, key, k) == x;
      assert WithKey(u, key, k) == y;
    }
  }

  /**
   * Two lists ordered by key with the same elements of every key, in the same
   * order, are the same list: the result of a stable sort is unique.
   */
  lemma {:induction false} SortedStableUnique<T>(t: seq<T>, u: seq<T>, key: T -> Key)
    requires SortedByKey(t, key) && SortedByKey(u, key)
    requires forall k :: WithKey(t, key, k) == WithKey(u, key, k)
    ensures t == u
    decreases |t|
  {
    if t == [] || u == [] {
      if t != [] {
        WithKeyEmpty(t, key);
      } else if u != [] {
        WithKeyEmpty(u, key);
      }
    } else {
      SortedStableHead(t, u, key);
      forall k
        ensures WithKey(t[1..], key, k) == WithKey(u[1..], key, k)
      {
        WithKeyTail(t, u, key, k);
      }
      SortedStableUnique(t[1..], u[1..], key);
      assert t == [t[0]] + t[1..];
      assert u == [u[0]] + u[1..];
    }
  }

  /** Any stable ordering by key of s is SortByKey(s). */
  lemma StableSortIsSortByKey<T>(s: seq<T>, t: seq<T>, key: T -> Key)
    requires SortedByKey(t, key)
    requires forall k :: WithKey(t, key, k) == WithKey(s, key, k)
    ensures t == SortByKey(s, key)
  {
    SortByKeySorted(s, key);
    forall k
      ensures WithKey(t, key, k) == WithKey(SortByKey(s, key), key, k)
    {
      SortByKeyStable(s, key, k);
    }
    SortedStableUnique(t, SortByKey(s, key), key);
  }
}
