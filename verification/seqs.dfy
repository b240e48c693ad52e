/**
  Sequence utilities shared by the store, the presence table and the views:
  filtering, first-match search, summing, and the newest-first ordering that
  every listing of the application uses.
 */
module Seqs {
  import opened Wrappers

  /** The elements of `s` that satisfy `p`, in their original order. */
  function Filter<T(!new)>(s: seq<T>, p: T -> bool): (r: seq<T>)
    ensures |r| <= |s|
    ensures forall i :: 0 <= i < |r| ==> p(r[i])
    ensures forall x :: x in r <==> x in s && p(x)
  {
    if |s| == 0 then []
    else
      assert s == [s[0]] + s[1..];
      if p(s[0]) then [s[0]] + Filter(s[1..], p) else Filter(s[1..], p)
  }

  /** Filtering keeps each accepted element as often as it occurs, and drops the rest. */
  lemma {:induction false} FilterMultiset<T(!new)>(s: seq<T>, p: T -> bool)
    ensures forall x :: multiset(Filter(s, p))[x] == if p(x) then multiset(s)[x] else 0
  {
    if |s| > 0 {
      assert s == [s[0]] + s[1..];
      FilterMultiset(s[1..], p);
    }
  }

  lemma {:induction false} FilterAppend<T(!new)>(a: seq<T>, b: seq<T>, p: T -> bool)
    ensures Filter(a + b, p) == Filter(a, p) + Filter(b, p)
  {
    if |a| == 0 {
      assert a + b == b;
    } else {
      assert (a + b)[1..] == a[1..] + b;
      FilterAppend(a[1..], b, p);
    }
  }

  /** Filtering a sequence whose elements all satisfy `p` changes nothing. */
  lemma {:induction false} FilterAll<T(!new)>(s: seq<T>, p: T -> bool)
    requires forall i :: 0 <= i < |s| ==> p(s[i])
    ensures Filter(s, p) == s
  {
    if |s| > 0 {
      FilterAll(s[1..], p);
    }
  }

  /** The sum of `f` over the elements of `s` (the source's `reduce((sum, x) => sum + f(x), 0)`). */
  function Sum<T>(s: seq<T>, f: T -> int): int
  {
    if |s| == 0 then 0 else f(s[0]) + Sum(s[1..], f)
  }

  lemma {:induction false} SumAppend<T>(a: seq<T>, b: seq<T>, f: T -> int)
    ensures Sum(a + b, f) == Sum(a, f) + Sum(b, f)
  {
    if |a| == 0 {
      assert a + b == b;
    } else {
      assert (a + b)[1..] == a[1..] + b;
      SumAppend(a[1..], b, f);
    }
  }

  /**
    Replacing an element that `p` rejects by one it accepts adds exactly that
    element to the filtered sequence (and its `f` to the sum); replacing it by one
    it rejects changes nothing.
   */
  lemma {:induction false} FilterReplace<T(!new)>(s: seq<T>, i: nat, y: T, p: T -> bool, f: T -> int)
    requires i < |s| && !p(s[i])
    ensures p(y) ==> |Filter(s[i := y], p)| == |Filter(s, p)| + 1
    ensures p(y) ==> Sum(Filter(s[i := y], p), f) == Sum(Filter(s, p), f) + f(y)
    ensures !p(y) ==> Filter(s[i := y], p) == Filter(s, p)
  {
    var t := s[i := y];
    if i == 0 {
      assert t[1..] == s[1..];
    } else {
      assert t[1..] == s[1..][i - 1 := y];
      assert t[0] == s[0];
      FilterReplace(s[1..], i - 1, y, p, f);
    }
  }

  /** Filtering a sequence none of whose elements satisfy `p` leaves nothing. */
  lemma {:induction false} FilterNone<T(!new)>(s: seq<T>, p: T -> bool)
    requires forall i :: 0 <= i < |s| ==> !p(s[i])
    ensures Filter(s, p) == []
  {
    if |s| > 0 {
      FilterNone(s[1..], p);
    }
  }

  /** A filter that drops nothing kept every element: all of them satisfy `p`. */
  lemma {:induction false} FilterKeepsAll<T(!new)>(s: seq<T>, p: T -> bool)
    requires |Filter(s, p)| == |s|
    ensures forall i :: 0 <= i < |s| ==> p(s[i])
  {
    if |s| > 0 {
      var t := s[1..];
      var ft := Filter(t, p);
      assert |ft| <= |t|;
      assert Filter(s, p) == if p(s[0]) then [s[0]] + ft else ft;
      if p(s[0]) {
        FilterKeepsAll(t, p);
        assert forall i :: 1 <= i < |s| ==> s[i] == t[i - 1];
      }
    }
  }

  /** Filtering by `p` and by its negation `q` splits `s`: the two counts add up to its length. */
  lemma {:induction false} FilterPartition<T(!new)>(s: seq<T>, p: T -> bool, q: T -> bool)
    requires forall x :: q(x) == !p(x)
    ensures |Filter(s, p)| + |Filter(s, q)| == |s|
  {
    if |s| > 0 {
      FilterPartition(s[1..], p, q);
    }
  }

  /** The index of the first element satisfying `p` (the source's `find` / `findIndex`). */
  function FirstIndex<T>(s: seq<T>, p: T -> bool): (r: Option<nat>)
    ensures r.Some? ==> r.value < |s| && p(s[r.value])
    ensures r.Some? ==> forall j :: 0 <= j < r.value ==> !p(s[j])
    ensures r.None? <==> forall j :: 0 <= j < |s| ==> !p(s[j])
  {
    if |s| == 0 then None
    else if p(s[0]) then Some(0)
    else match FirstIndex(s[1..], p)
      case None => None
      case Some(i) => Some(i + 1)
  }

  /** `FirstIndex` returns the first position whose element satisfies `p`. */
  lemma FirstIndexAt<T>(s: seq<T>, p: T -> bool, i: nat)
    requires i < |s| && p(s[i])
    requires forall j :: 0 <= j < i ==> !p(s[j])
    ensures FirstIndex(s, p) == Some(i)
  {
    assert !(forall j :: 0 <= j < |s| ==> !p(s[j]));
  }

  /** No two elements of `s` share a key. */
  predicate UniqueBy<T, K(==)>(s: seq<T>, key: T -> K)
  {
    forall i, j :: 0 <= i < j < |s| ==> key(s[i]) != key(s[j])
  }

  /** `s` is ordered by `key`, largest first (the source's `orderBy: { ...: 'desc' }`). */
  predicate SortedDesc<T>(s: seq<T>, key: T -> int)
  {
    forall i, j :: 0 <= i < j < |s| ==> key(s[i]) >= key(s[j])
  }

  /** Inserts `x` into a newest-first sequence, ahead of the elements with an equal key. */
  function InsertDesc<T>(x: T, s: seq<T>, key: T -> int): (r: seq<T>)
    requires SortedDesc(s, key)
    ensures |r| == |s| + 1
    ensures SortedDesc(r, key)
    ensures multiset(r) == multiset(s) + multiset{x}
    ensures r[0] == x || (|s| > 0 && r[0] == s[0])
  {
    if |s| == 0 || key(x) >= key(s[0]) then [x] + s
    else
      var rest := InsertDesc(x, s[1..], key);
      assert s == [s[0]] + s[1..];
      assert key(s[0]) >= key(rest[0]);
      [s[0]] + rest
  }

  /** A stable newest-first ordering of `s`: a permutation of it, sorted by `key` descending. */
  function SortDesc<T>(s: seq<T>, key: T -> int): (r: seq<T>)
    ensures |r| == |s|
    ensures SortedDesc(r, key)
    ensures multiset(r) == multiset(s)
  {
    if |s| == 0 then []
    else
      assert s == [s[0]] + s[1..];
      InsertDesc(s[0], SortDesc(s[1..], key), key)
  }

  /** The first `min(limit, |s|)` elements of `s`. */
  function Take<T>(s: seq<T>, limit: nat): (r: seq<T>)
    ensures |r| == if limit < |s| then limit else |s|
    ensures r == s[..|r|]
  {
    if limit < |s| then s[..limit] else s
  }

  /**
    `r` answers "the `limit` newest elements of `pool`": it has the right size, is
    drawn from `pool`, is newest first, and nothing of `pool` it leaves out is
    newer than anything it returns.
   */
  ghost predicate IsNewestFirstPage<T(!new)>(r: seq<T>, pool: seq<T>, key: T -> int, limit: nat)
  {
    && |r| == (if limit < |pool| then limit else |pool|)
    && multiset(r) <= multiset(pool)
    && SortedDesc(r, key)
    && forall x, i :: x in multiset(pool) - multiset(r) && 0 <= i < |r| ==> key(x) <= key(r[i])
  }

  /** In a newest-first sequence, nothing after position `n` is newer than anything before it. */
  lemma SortedPrefixDominates<T>(sorted: seq<T>, key: T -> int, n: nat)
    requires n <= |sorted|
    requires SortedDesc(sorted, key)
    ensures forall x, i :: x in multiset(sorted[n..]) && 0 <= i < n ==> key(x) <= key(sorted[..n][i])
  {
    forall x, i | x in multiset(sorted[n..]) && 0 <= i < n
      ensures key(x) <= key(sorted[..n][i])
    {
      var rest := sorted[n..];
      assert x in rest;
      var k :| 0 <= k < |rest| && rest[k] == x;
      assert sorted[n + k] == x;
    }
  }

  /** Cutting a sequence at `n`: the prefix is part of it, and taking it away leaves the suffix. */
  lemma PrefixMultiset<T>(s: seq<T>, n: nat)
    requires n <= |s|
    ensures multiset(s[..n]) <= multiset(s)
    ensures multiset(s) - multiset(s[..n]) == multiset(s[n..])
  {
    assert s == s[..n] + s[n..];
  }

  /** The `limit` newest elements of `pool`, newest first (`orderBy desc` followed by `take`). */
  function NewestFirst<T(!new)>(pool: seq<T>, key: T -> int, limit: nat): (r: seq<T>)
    ensures IsNewestFirstPage(r, pool, key, limit)
  {
    var sorted := SortDesc(pool, key);
    TakeOfSortedIsPage(sorted, pool, key, limit);
    Take(sorted, limit)
  }

  /** A prefix of a newest-first arrangement of `pool` is a newest-first page of it. */
  lemma TakeOfSortedIsPage<T(!new)>(sorted: seq<T>, pool: seq<T>, key: T -> int, limit: nat)
    requires |sorted| == |pool| && multiset(sorted) == multiset(pool) && SortedDesc(sorted, key)
    ensures IsNewestFirstPage(Take(sorted, limit), pool, key, limit)
  {
    var n := |Take(sorted, limit)|;
    assert Take(sorted, limit) == sorted[..n];
    PrefixMultiset(sorted, n);
    SortedPrefixDominates(sorted, key, n);
  }

  /** The first `n` of the `limit` newest elements are the `n` newest, for `n <= limit`. */
  lemma PageOfPage<T(!new)>(r: seq<T>, pool: seq<T>, key: T -> int, limit: nat, n: nat)
    requires IsNewestFirstPage(r, pool, key, limit) && n <= limit
    ensures IsNewestFirstPage(Take(r, n), pool, key, n)
  {
    var t := Take(r, n);
    var rest := r[|t|..];
    assert t == r[..|t|];
    PrefixMultiset(r, |t|);
    SortedPrefixDominates(r, key, |t|);
    forall x, i | x in multiset(pool) - multiset(t) && 0 <= i < |t|
      ensures key(x) <= key(t[i])
    {
      if x !in multiset(rest) {
        assert x in multiset(pool) - multiset(r);
        assert t[i] == r[i];
      }
    }
  }
}
