/**
 * The engine's stable `Array.prototype.sort` with a numeric comparator,
 * modelled as a functional insertion sort. `SortDescBy(s, key)` is what
 * `s.sort((a, b) => key(b) - key(a))` leaves in `s`; an ascending sort is the
 * descending sort by the negated key.
 */
module Sorting {

  /** Non-increasing by `key`. */
  ghost predicate SortedDesc<T>(s: seq<T>, key: T -> real)
  {
    forall i, j :: 0 <= i < j < |s| ==> key(s[i]) >= key(s[j])
  }

  /** Puts `x` before the first element whose key is at most its own (so `x` stays ahead of its ties). */
  function Insert<T>(x: T, t: seq<T>, key: T -> real): (r: seq<T>)
    ensures |r| == |t| + 1
    ensures multiset(r) == multiset(t) + multiset{x}
  {
    if t == [] then [x]
    else if key(t[0]) <= key(x) then [x] + t
    else
      assert t == [t[0]] + t[1..];
      [t[0]] + Insert(x, t[1..], key)
  }

  /** Stable sort, highest key first. */
  function SortDescBy<T>(s: seq<T>, key: T -> real): (r: seq<T>)
    ensures |r| == |s|
    ensures multiset(r) == multiset(s)
  {
    if s == [] then []
    else
      assert s == [s[0]] + s[1..];
      Insert(s[0], SortDescBy(s[1..], key), key)
  }

  lemma {:induction false} InsertSorted<T>(x: T, t: seq<T>, key: T -> real)
    requires SortedDesc(t, key)
    ensures SortedDesc(Insert(x, t, key), key)
  {
    if t != [] && key(t[0]) > key(x) {
      var rest := Insert(x, t[1..], key);
      InsertSorted(x, t[1..], key);
      forall j | 0 <= j < |rest| ensures key(t[0]) >= key(rest[j]) {
        assert rest[j] in multiset(rest);
        assert rest[j] == x || rest[j] in multiset(t[1..]);
        if rest[j] != x {
          var k :| 0 <= k < |t[1..]| && t[1..][k] == rest[j];
          assert key(t[0]) >= key(t[k + 1]);
        }
      }
    }
  }

  /** The sorted copy is non-increasing by `key`. */
  lemma {:induction false} SortDescBySorted<T>(s: seq<T>, key: T -> real)
    ensures SortedDesc(SortDescBy(s, key), key)
  {
    if s != [] {
      SortDescBySorted(s[1..], key);
      InsertSorted(s[0], SortDescBy(s[1..], key), key);
    }
  }

  /** The elements of `s` whose key is `k`, in the order of `s`. */
  function WithKey<T>(s: seq<T>, key: T -> real, k: real): (r: seq<T>)
    ensures |r| <= |s|
    ensures forall i :: 0 <= i < |r| ==> key(r[i]) == k
  {
    if s == [] then []
    else
      var rest := WithKey(s[1..], key, k);
      if key(s[0]) == k then [s[0]] + rest else rest
  }

  /** `Insert` passes only elements with a higher key, so `x` lands right in front of its ties. */
  lemma {:induction false} InsertWithKey<T>(x: T, t: seq<T>, key: T -> real, k: real)
    ensures WithKey(Insert(x, t, key), key, k) == (if key(x) == k then [x] else []) + WithKey(t, key, k)
  {
    if t == [] {
      assert [x][1..] == [];
    } else if key(t[0]) <= key(x) {
      assert ([x] + t)[1..] == t;
    } else {
      var rest := Insert(x, t[1..], key);
      InsertWithKey(x, t[1..], key, k);
      assert ([t[0]] + rest)[1..] == rest;
      if key(t[0]) == k {
        assert key(x) != k;
      }
    }
  }

  /** Stability: elements with equal keys come out of the sort in the order they went in. */
  lemma {:induction false} SortDescByStable<T>(s: seq<T>, key: T -> real, k: real)
    ensures WithKey(SortDescBy(s, key), key, k) == WithKey(s, key, k)
  {
    if s != [] {
      SortDescByStable(s[1..], key, k);
      InsertWithKey(s[0], SortDescBy(s[1..], key), key, k);
    }
  }

  /**
   * The first `k` of a sorted sequence: still sorted, drawn from it, and no
   * element left out has a key above any element kept.
   */
  lemma SortedPrefixDominates<T>(s: seq<T>, key: T -> real, k: nat)
    requires SortedDesc(s, key) && k <= |s|
    ensures SortedDesc(s[..k], key)
    ensures multiset(s[..k]) <= multiset(s)
    ensures forall x, y :: x in multiset(s) - multiset(s[..k]) && y in s[..k] ==> key(x) <= key(y)
  {
    assert s == s[..k] + s[k..];
    assert multiset(s) == multiset(s[..k]) + multiset(s[k..]);
    forall x, y | x in multiset(s) - multiset(s[..k]) && y in s[..k] ensures key(x) <= key(y) {
      assert x in s[k..];
      var i :| 0 <= i < |s[k..]| && s[k..][i] == x;
      var j :| 0 <= j < k && s[..k][j] == y;
      assert s[j] == y && s[k + i] == x;
    }
  }
}
