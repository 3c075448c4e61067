/** The array operations the source relies on: `filter`, `find`, `slice`
    and the stable `sort` of ECMAScript 2019 with a numeric comparator. */
module Seqs {
  import opened Wrappers

  /** `r` is `s` with some elements left out, the rest in their order. */
  ghost predicate IsSubseq<T>(r: seq<T>, s: seq<T>)
    decreases |s|
  {
    r == [] || (s != [] && if r[0] == s[0] then IsSubseq(r[1..], s[1..]) else IsSubseq(r, s[1..]))
  }

  /** `s.filter(p)`. */
  function Filter<T>(s: seq<T>, p: T -> bool): (r: seq<T>)
    ensures |r| <= |s|
  {
    if s == [] then []
    else if p(s[0]) then [s[0]] + Filter(s[1..], p)
    else Filter(s[1..], p)
  }

  /** What `filter` promises: exactly the elements satisfying `p`, each as
      often as in `s`, in their order in `s`. */
  lemma {:induction false} FilterSpec<T>(s: seq<T>, p: T -> bool)
    ensures var r := Filter(s, p);
      && (forall x :: x in r ==> x in s && p(x))
      && (forall x :: x in s && p(x) ==> x in r)
      && (forall x :: x in s && p(x) ==> multiset(r)[x] == multiset(s)[x])
      && multiset(r) <= multiset(s)
      && IsSubseq(r, s)
  {
    if s != [] {
      FilterSpec(s[1..], p);
      assert s == [s[0]] + s[1..];
    }
  }

  /** Filtering a second time with the same test changes nothing. */
  lemma {:induction false} FilterIdempotent<T>(s: seq<T>, p: T -> bool)
    ensures Filter(Filter(s, p), p) == Filter(s, p)
  {
    if s != [] {
      FilterIdempotent(s[1..], p);
    }
  }

  /** Filtering distributes over concatenation. */
  lemma {:induction false} FilterAppend<T>(a: seq<T>, b: seq<T>, p: T -> bool)
    ensures Filter(a + b, p) == Filter(a, p) + Filter(b, p)
  {
    if a == [] {
      assert a + b == b;
    } else {
      assert (a + b)[1..] == a[1..] + b;
      FilterAppend(a[1..], b, p);
    }
  }

  /** Nothing passes the filter when no element satisfies the predicate. */
  lemma {:induction false} FilterNone<T>(s: seq<T>, p: T -> bool)
    requires forall i :: 0 <= i < |s| ==> !p(s[i])
    ensures Filter(s, p) == []
  {
    if s != [] {
      FilterNone(s[1..], p);
    }
  }

  /** `s.slice(0, n)` for a non-negative `n`. */
  function Take<T>(s: seq<T>, n: nat): (r: seq<T>)
    ensures |r| == if n < |s| then n else |s|
    ensures r == s[..|r|]
  {
    if n < |s| then s[..n] else s
  }

  /** `s.findIndex(p)` (and the element `s.find(p)` returns): the first
      index whose element satisfies `p`, or None. */
  function FirstIndex<T>(s: seq<T>, p: T -> bool): (r: Option<nat>)
    ensures r.Some? ==> r.value < |s| && p(s[r.value]) && forall j :: 0 <= j < r.value ==> !p(s[j])
    ensures r.None? <==> forall j :: 0 <= j < |s| ==> !p(s[j])
  {
    if s == [] then None
    else if p(s[0]) then Some(0)
    else
      match FirstIndex(s[1..], p)
      case None => None
      case Some(i) => Some(i + 1)
  }

  // ---------------------------------------------------------------- stable sort

  /** The elements of `s` whose key is `k`, in their order in `s`. */
  function WithKey<T>(s: seq<T>, key: T -> int, k: int): seq<T> {
    if s == [] then []
    else (if key(s[0]) == k then [s[0]] else []) + WithKey(s[1..], key, k)
  }

  ghost predicate NonIncreasing<T>(s: seq<T>, key: T -> int) {
    forall i, j :: 0 <= i < j < |s| ==> key(s[i]) >= key(s[j])
  }

  /** What a stable sort by descending key promises: the same elements,
      keys never increase, and elements with equal keys keep their order. */
  ghost predicate IsStableSortDesc<T>(r: seq<T>, s: seq<T>, key: T -> int) {
    && multiset(r) == multiset(s)
    && NonIncreasing(r, key)
    && forall k :: WithKey(r, key, k) == WithKey(s, key, k)
  }

  function InsertDesc<T>(x: T, t: seq<T>, key: T -> int): (r: seq<T>)
    ensures |r| == |t| + 1
  {
    if t == [] || key(t[0]) <= key(x) then [x] + t
    else [t[0]] + InsertDesc(x, t[1..], key)
  }

  /** `[...s].sort((a, b) => key(b) - key(a))`: ECMAScript's sort is stable,
      so this is a stable sort by descending key (insertion sort here). */
  function SortDesc<T>(s: seq<T>, key: T -> int): (r: seq<T>)
    ensures |r| == |s|
  {
    if s == [] then [] else InsertDesc(s[0], SortDesc(s[1..], key), key)
  }

  lemma {:induction false} InsertDescPermutes<T>(x: T, t: seq<T>, key: T -> int)
    ensures multiset(InsertDesc(x, t, key)) == multiset([x] + t)
  {
    if t != [] && key(t[0]) > key(x) {
      InsertDescPermutes(x, t[1..], key);
      assert t == [t[0]] + t[1..];
    }
  }

  lemma NonIncreasingCons<T>(a: T, b: seq<T>, key: T -> int)
    requires NonIncreasing(b, key)
    requires forall y :: y in b ==> key(a) >= key(y)
    ensures NonIncreasing([a] + b, key)
  {
    var r := [a] + b;
    forall i, j | 0 <= i < j < |r| ensures key(r[i]) >= key(r[j]) {
      assert r[j] == b[j - 1];
      if i > 0 {
        assert r[i] == b[i - 1];
      }
    }
  }

  lemma {:induction false} InsertDescSorted<T>(x: T, t: seq<T>, key: T -> int)
    requires NonIncreasing(t, key)
    ensures NonIncreasing(InsertDesc(x, t, key), key)
  {
    if t == [] || key(t[0]) <= key(x) {
      forall y | y in t ensures key(x) >= key(y) {
        var m :| 0 <= m < |t| && t[m] == y;
      }
      NonIncreasingCons(x, t, key);
    } else {
      var rest := InsertDesc(x, t[1..], key);
      InsertDescSorted(x, t[1..], key);
      InsertDescPermutes(x, t[1..], key);
      forall y | y in rest ensures key(t[0]) >= key(y) {
        assert y in multiset(rest);
        assert y in multiset([x] + t[1..]);
        if y != x {
          assert y in t[1..];
          var m :| 0 <= m < |t[1..]| && t[1..][m] == y;
          assert t[m + 1] == y;
        }
      }
      NonIncreasingCons(t[0], rest, key);
    }
  }

  lemma {:induction false} InsertDescStable<T>(x: T, t: seq<T>, key: T -> int, k: int)
    ensures WithKey(InsertDesc(x, t, key), key, k) == WithKey([x] + t, key, k)
  {
    if t != [] && key(t[0]) > key(x) {
      var r := InsertDesc(x, t, key);
      assert r[1..] == InsertDesc(x, t[1..], key);
      InsertDescStable(x, t[1..], key, k);
      assert ([x] + t)[1..] == t;
      assert ([x] + t[1..])[1..] == t[1..];
    }
  }

  /** The sort is a stable descending sort: a permutation of its input whose
      keys never increase, with equal-key elements in their input order. */
  lemma {:induction false} SortDescIsStable<T>(s: seq<T>, key: T -> int)
    ensures IsStableSortDesc(SortDesc(s, key), s, key)
  {
    if s != [] {
      var rest := SortDesc(s[1..], key);
      SortDescIsStable(s[1..], key);
      InsertDescPermutes(s[0], rest, key);
      InsertDescSorted(s[0], rest, key);
      assert s == [s[0]] + s[1..];
      forall k ensures WithKey(SortDesc(s, key), key, k) == WithKey(s, key, k) {
        InsertDescStable(s[0], rest, key, k);
        assert ([s[0]] + rest)[1..] == rest;
      }
    }
  }

  /** The equal-key elements of a prefix are a prefix of the equal-key elements. */
  lemma {:induction false} WithKeyPrefix<T>(s: seq<T>, n: nat, key: T -> int, k: int)
    requires n <= |s|
    ensures WithKey(s[..n], key, k) <= WithKey(s, key, k)
  {
    if n > 0 {
      assert s[..n][1..] == s[1..][..n - 1];
      WithKeyPrefix(s[1..], n - 1, key, k);
    }
  }

  lemma PrefixMultiset<T>(s: seq<T>, n: nat)
    requires n <= |s|
    ensures multiset(s[..n]) <= multiset(s)
  {
    assert s == s[..n] + s[n..];
  }

  /** No element left out of a prefix of a sorted sequence has a greater
      key than one kept. */
  lemma PrefixOfSortedLeftOut<T>(sorted: seq<T>, n: nat, key: T -> int)
    requires n <= |sorted| && NonIncreasing(sorted, key)
    ensures forall x, y :: multiset(sorted[..n])[x] < multiset(sorted)[x] && y in sorted[..n] ==> key(y) >= key(x)
  {
    var r := sorted[..n];
    assert sorted == r + sorted[n..];
    assert multiset(sorted) == multiset(r) + multiset(sorted[n..]);
    forall x, y | multiset(r)[x] < multiset(sorted)[x] && y in r
      ensures key(y) >= key(x)
    {
      assert x in multiset(sorted[n..]);
      var m :| 0 <= m < |sorted[n..]| && sorted[n..][m] == x;
      var i :| 0 <= i < n && r[i] == y;
      assert sorted[n + m] == x && sorted[i] == y;
    }
  }

  /** `[...s].sort(by key, descending).slice(0, n)`: the first `n` elements
      of the stable sort. They are elements of `s`, keys never increase, no
      element left out has a greater key than one kept, equal-key elements
      keep their input order, and nothing is left out when `s` is short. */
  lemma TopByKey<T>(s: seq<T>, key: T -> int, n: nat)
    ensures var r := Take(SortDesc(s, key), n);
      && |r| == (if |s| < n then |s| else n)
      && NonIncreasing(r, key)
      && multiset(r) <= multiset(s)
      && (|s| <= n ==> multiset(r) == multiset(s))
      && (forall x, y :: multiset(r)[x] < multiset(s)[x] && y in r ==> key(y) >= key(x))
      && (forall k :: WithKey(r, key, k) <= WithKey(s, key, k))
  {
    var sorted := SortDesc(s, key);
    SortDescIsStable(s, key);
    var r := Take(sorted, n);
    PrefixMultiset(sorted, |r|);
    PrefixOfSortedLeftOut(sorted, |r|, key);
    forall k ensures WithKey(r, key, k) <= WithKey(s, key, k) {
      WithKeyPrefix(sorted, |r|, key, k);
    }
  }
}
