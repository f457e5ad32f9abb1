/**
 * Python's `list.sort(key=...)`: a stable sort by a key. Keys are pairs of
 * integers compared lexicographically, which covers the integer keys and the
 * `(season, episode)` tuple keys of the listing views.
 *
 * `SortBy` is the reference definition (insertion of each element, in input
 * order, after every element whose key is not greater); `SortInPlace` sorts
 * an array in place and is proved to produce exactly `SortBy`. The lemmas
 * show that the result is ordered by key, is a permutation of the input, and
 * keeps the input order among elements with equal keys.
 */
module StableSort {

  /** A sort key: a pair of integers ordered lexicographically. */
  datatype Rank = Rank(major: int, minor: int)

  predicate RankLe(a: Rank, b: Rank)
  {
    a.major < b.major || (a.major == b.major && a.minor <= b.minor)
  }

  predicate RankLt(a: Rank, b: Rank)
  {
    !RankLe(b, a)
  }

  ghost predicate SortedBy<T>(s: seq<T>, key: T -> Rank)
  {
    forall i, j :: 0 <= i < j < |s| ==> RankLe(key(s[i]), key(s[j]))
  }

  /** The elements of `s` whose key is `k`, in their order in `s`. */
  function WithKey<T>(s: seq<T>, key: T -> Rank, k: Rank): seq<T>
  {
    if s == [] then []
    else WithKey(s[..|s| - 1], key, k) + (if key(s[|s| - 1]) == k then [s[|s| - 1]] else [])
  }

  /** `x` inserted into `s` just before the trailing elements whose key is
      strictly greater than `x`'s. */
  function Insert<T>(s: seq<T>, x: T, key: T -> Rank): seq<T>
  {
    if s == [] || RankLe(key(s[|s| - 1]), key(x)) then s + [x]
    else Insert(s[..|s| - 1], x, key) + [s[|s| - 1]]
  }

  /** The stable sort of `s` by `key`. */
  function SortBy<T>(s: seq<T>, key: T -> Rank): seq<T>
  {
    if s == [] then [] else Insert(SortBy(s[..|s| - 1], key), s[|s| - 1], key)
  }

  lemma {:induction false} WithKeyAppend<T>(a: seq<T>, b: seq<T>, key: T -> Rank, k: Rank)
    ensures WithKey(a + b, key, k) == WithKey(a, key, k) + WithKey(b, key, k)
    decreases |b|
  {
    if b != [] {
      assert (a + b)[..|a + b| - 1] == a + b[..|b| - 1];
      WithKeyAppend(a, b[..|b| - 1], key, k);
    } else {
      assert a + b == a;
    }
  }

  lemma {:induction false} InsertSorted<T>(s: seq<T>, x: T, key: T -> Rank)
    requires SortedBy(s, key)
    ensures SortedBy(Insert(s, x, key), key)
    ensures |Insert(s, x, key)| == |s| + 1
    ensures forall i :: 0 <= i < |s| ==>
      Insert(s, x, key)[i] == x || Insert(s, x, key)[i] in s
    decreases |s|
  {
    if s != [] && !RankLe(key(s[|s| - 1]), key(x)) {
      var p := s[..|s| - 1];
      assert SortedBy(p, key);
      InsertSorted(p, x, key);
      var r := Insert(p, x, key);
      forall i | 0 <= i < |r|
        ensures RankLe(key(r[i]), key(s[|s| - 1]))
      {
        if r[i] != x {
          var j :| 0 <= j < |p| && p[j] == r[i] by {
            assert i < |p| || r[i] in p;
          }
          assert s[j] == p[j];
        }
      }
    }
  }

  lemma {:induction false} InsertPerm<T>(s: seq<T>, x: T, key: T -> Rank)
    ensures multiset(Insert(s, x, key)) == multiset(s) + multiset{x}
    decreases |s|
  {
    if s != [] && !RankLe(key(s[|s| - 1]), key(x)) {
      var p := s[..|s| - 1];
      InsertPerm(p, x, key);
      assert s == p + [s[|s| - 1]];
    }
  }

  /** Inserting `x` appends it to the elements with its key, and leaves the
      elements of every other key in order. */
  lemma {:induction false} InsertStable<T>(s: seq<T>, x: T, key: T -> Rank, k: Rank)
    ensures WithKey(Insert(s, x, key), key, k) == WithKey(s, key, k) + (if key(x) == k then [x] else [])
    decreases |s|
  {
    if s == [] || RankLe(key(s[|s| - 1]), key(x)) {
      WithKeyAppend(s, [x], key, k);
      assert WithKey([x], key, k) == WithKey([], key, k) + (if key(x) == k then [x] else []);
    } else {
      var p := s[..|s| - 1];
      var last := s[|s| - 1];
      InsertStable(p, x, key, k);
      WithKeyAppend(Insert(p, x, key), [last], key, k);
      assert WithKey([last], key, k) == WithKey([], key, k) + (if key(last) == k then [last] else []);
      assert WithKey(s, key, k) == WithKey(p, key, k) + (if key(last) == k then [last] else []);
    }
  }

  /** The result of a stable sort is ordered by key. */
  lemma {:induction false} SortSorted<T>(s: seq<T>, key: T -> Rank)
    ensures SortedBy(SortBy(s, key), key)
    ensures |SortBy(s, key)| == |s|
    decreases |s|
  {
    if s != [] {
      SortSorted(s[..|s| - 1], key);
      InsertSorted(SortBy(s[..|s| - 1], key), s[|s| - 1], key);
    }
  }

  /** The result of a stable sort is a permutation of its input. */
  lemma {:induction false} SortPerm<T>(s: seq<T>, key: T -> Rank)
    ensures multiset(SortBy(s, key)) == multiset(s)
    decreases |s|
  {
    if s != [] {
      SortPerm(s[..|s| - 1], key);
      InsertPerm(SortBy(s[..|s| - 1], key), s[|s| - 1], key);
      assert s == s[..|s| - 1] + [s[|s| - 1]];
    }
  }

  /** Stability: for every key, the elements with that key appear in the
      result in the same order as in the input. */
  lemma {:induction false} SortStable<T>(s: seq<T>, key: T -> Rank, k: Rank)
    ensures WithKey(SortBy(s, key), key, k) == WithKey(s, key, k)
    decreases |s|
  {
    if s != [] {
      SortStable(s[..|s| - 1], key, k);
      InsertStable(SortBy(s[..|s| - 1], key), s[|s| - 1], key, k);
    }
  }

  /** No element of `s` has key `k` when every key in `s` is below it. */
  lemma {:induction false} WithKeyAbsent<T>(s: seq<T>, key: T -> Rank, k: Rank)
    requires forall i :: 0 <= i < |s| ==> RankLt(key(s[i]), k)
    ensures WithKey(s, key, k) == []
    decreases |s|
  {
    if s != [] {
      WithKeyAbsent(s[..|s| - 1], key, k);
    }
  }

  /** Two sequences ordered by key that agree on the elements of every key
      are equal. */
  lemma {:induction false} SortedUnique<T>(u: seq<T>, v: seq<T>, key: T -> Rank)
    requires SortedBy(u, key) && SortedBy(v, key)
    requires forall k :: WithKey(u, key, k) == WithKey(v, key, k)
    ensures u == v
    decreases |u| + |v|
  {
    if u == [] || v == [] {
      var w := if u == [] then v else u;
      assert w == [] || WithKey(w, key, key(w[|w| - 1])) != [];
    } else {
      var x, y := u[|u| - 1], v[|v| - 1];
      if RankLt(key(x), key(y)) {
        assert WithKey(v, key, key(y)) != [];
        WithKeyAbsent(u, key, key(y));
      } else if RankLt(key(y), key(x)) {
        assert WithKey(u, key, key(x)) != [];
        WithKeyAbsent(v, key, key(x));
      } else {
        assert key(x) == key(y);
        var u', v' := u[..|u| - 1], v[..|v| - 1];
        var wu, wv := WithKey(u', key, key(x)), WithKey(v', key, key(x));
        assert wu + [x] == wv + [y];
        assert x == (wv + [y])[|wu|];
        forall k
          ensures WithKey(u', key, k) == WithKey(v', key, k)
        {
          assert WithKey(u, key, k) == WithKey(v, key, k);
          if k == key(x) {
            assert wu == (wu + [x])[..|wu|];
            assert wv == (wv + [y])[..|wv|];
          } else {
            assert WithKey(u, key, k) == WithKey(u', key, k) + [] == WithKey(u', key, k);
            assert WithKey(v, key, k) == WithKey(v', key, k) + [] == WithKey(v', key, k);
          }
        }
        SortedUnique(u', v', key);
      }
    }
  }

  /** The stable sort is the only arrangement of `s` that is ordered by key
      and keeps the input order among equal keys. */
  lemma SortByIsUnique<T>(s: seq<T>, t: seq<T>, key: T -> Rank)
    requires SortedBy(t, key)
    requires forall k :: WithKey(t, key, k) == WithKey(s, key, k)
    ensures t == SortBy(s, key)
  {
    SortSorted(s, key);
    forall k
      ensures WithKey(t, key, k) == WithKey(SortBy(s, key), key, k)
    {
      SortStable(s, key, k);
    }
    SortedUnique(t, SortBy(s, key), key);
  }

  /** `Insert` in split form: `x` goes at position `j` when the element before
      `j` is not greater than `x` and every element from `j` on is. */
  lemma {:induction false} InsertAt<T>(s: seq<T>, x: T, key: T -> Rank, j: nat)
    requires j <= |s|
    requires j == 0 || RankLe(key(s[j - 1]), key(x))
    requires forall k :: j <= k < |s| ==> RankLt(key(x), key(s[k]))
    ensures Insert(s, x, key) == s[..j] + [x] + s[j..]
    decreases |s|
  {
    if j < |s| {
      var p := s[..|s| - 1];
      InsertAt(p, x, key, j);
      assert p[..j] == s[..j];
      assert s[j..] == p[j..] + [s[|s| - 1]];
    } else {
      assert s[..j] == s;
    }
  }

  /** One step of insertion sort: with `a[..i]` sorted, shift its elements
      with a key greater than `a[i]`'s one place right and put `a[i]` in the
      gap. */
  method InsertLast<T>(a: array<T>, i: nat, key: T -> Rank)
    requires i < a.Length
    modifies a
    ensures a[..i + 1] == Insert(old(a[..i]), old(a[i]), key)
    ensures a[i + 1..] == old(a[i + 1..])
  {
    ghost var sorted := a[..i];
    var x := a[i];
    var j := i;
    while j > 0 && RankLt(key(x), key(a[j - 1]))
      invariant 0 <= j <= i
      invariant forall k :: 0 <= k < j ==> a[k] == sorted[k]
      invariant forall k :: j < k <= i ==> a[k] == sorted[k - 1]
      invariant forall k :: i < k < a.Length ==> a[k] == old(a[k])
      invariant forall k :: j <= k < i ==> RankLt(key(x), key(sorted[k]))
    {
      a[j] := a[j - 1];
      j := j - 1;
    }
    a[j] := x;
    ghost var placed := sorted[..j] + [x] + sorted[j..];
    forall k | 0 <= k <= i
      ensures a[k] == placed[k]
    {
      if k > j {
        assert placed[k] == sorted[k - 1];
      }
    }
    assert a[..i + 1] == placed;
    assert a[i + 1..] == old(a[i + 1..]);
    InsertAt(sorted, x, key, j);
  }

  /** `list.sort(key=key)` on an array: insertion sort, one element at a
      time from the left. */
  method SortInPlace<T>(a: array<T>, key: T -> Rank)
    modifies a
    ensures a[..] == SortBy(old(a[..]), key)
  {
    ghost var input := a[..];
    var i := 0;
    while i < a.Length
      invariant 0 <= i <= a.Length
      invariant a[..i] == SortBy(input[..i], key)
      invariant a[i..] == input[i..]
    {
      ghost var before := a[..];
      InsertLast(a, i, key);
      ghost var next := input[..i + 1];
      assert next[..i] == input[..i] && next[i] == before[i];
      assert SortBy(next, key) == Insert(SortBy(input[..i], key), input[i], key);
      assert a[i + 1..] == before[i + 1..] == input[i + 1..];
      i := i + 1;
    }
    assert a[..] == a[..a.Length];
    assert input[..a.Length] == input;
  }
}
