/** Sorting by a strict total order. A sorted list is determined by its elements, which is what makes
    a ranking independent of the order in which candidates arrive. */
module Ranking {
  import opened Collections

  ghost predicate TotalOrder<T(!new)>(before: (T, T) -> bool) {
    && (forall x :: !before(x, x))
    && (forall x, y, z :: before(x, y) && before(y, z) ==> before(x, z))
    && (forall x, y :: x != y ==> before(x, y) || before(y, x))
  }

  ghost predicate Ranked<T(!new)>(s: seq<T>, before: (T, T) -> bool) {
    forall i, j | 0 <= i < j < |s| :: before(s[i], s[j])
  }

  function Insert<T(!new)>(x: T, s: seq<T>, before: (T, T) -> bool): seq<T> {
    if s == [] || before(x, s[0]) then [x] + s else [s[0]] + Insert(x, s[1..], before)
  }

  /** The comparison sort of the libraries used by both languages. */
  function Sort<T(!new)>(s: seq<T>, before: (T, T) -> bool): seq<T> {
    if s == [] then [] else Insert(s[0], Sort(s[1..], before), before)
  }

  lemma {:induction false} InsertKeepsRank<T(!new)>(x: T, s: seq<T>, before: (T, T) -> bool)
    requires TotalOrder(before) && Ranked(s, before) && x !in s
    ensures Ranked(Insert(x, s, before), before)
    ensures Elements(Insert(x, s, before)) == Elements(s) + {x}
    ensures |Insert(x, s, before)| == |s| + 1
  {
    if s == [] || before(x, s[0]) {
    } else {
      InsertKeepsRank(x, s[1..], before);
      var rest := Insert(x, s[1..], before);
      assert s == [s[0]] + s[1..];
      assert forall y :: y in rest <==> y in s[1..] || y == x by {
        assert forall y :: y in rest <==> y in Elements(rest);
        assert forall y :: y in s[1..] <==> y in Elements(s[1..]);
      }
      assert before(s[0], x);
      assert forall j | 0 <= j < |rest| :: rest[j] in rest;
    }
  }

  /** Sorting a list without duplicates yields a ranking of the same elements. */
  lemma {:induction false} SortRanks<T(!new)>(s: seq<T>, before: (T, T) -> bool)
    requires TotalOrder(before) && NoDuplicates(s)
    ensures Ranked(Sort(s, before), before)
    ensures Elements(Sort(s, before)) == Elements(s)
    ensures |Sort(s, before)| == |s|
  {
    if s != [] {
      SortRanks(s[1..], before);
      var rest := Sort(s[1..], before);
      assert s == [s[0]] + s[1..];
      assert s[0] !in rest by {
        assert forall x :: x in rest <==> x in Elements(rest);
        assert s[0] !in s[1..];
      }
      InsertKeepsRank(s[0], rest, before);
    }
  }

  lemma NoElements<T>(s: seq<T>)
    requires s != []
    ensures Elements(s) != {}
  {
    assert s[0] in Elements(s);
  }

  /** Two rankings of the same elements are the same list. */
  lemma {:induction false} RankingIsUnique<T(!new)>(a: seq<T>, b: seq<T>, before: (T, T) -> bool)
    requires TotalOrder(before) && Ranked(a, before) && Ranked(b, before) && Elements(a) == Elements(b)
    ensures a == b
  {
    if b != [] { NoElements(b); }
    if a == [] {
      assert Elements(a) == {};
    } else {
      assert a[0] in Elements(a);
      assert b != [] && b[0] in Elements(b);
      assert a[0] == b[0] by {
        assert a[0] in b && b[0] in a;
      }
      TailElements(a, before);
      TailElements(b, before);
      RankingIsUnique(a[1..], b[1..], before);
    }
  }

  lemma TailElements<T(!new)>(s: seq<T>, before: (T, T) -> bool)
    requires TotalOrder(before) && Ranked(s, before) && s != []
    ensures Elements(s[1..]) == Elements(s) - {s[0]}
    ensures Ranked(s[1..], before)
  {
    assert s == [s[0]] + s[1..];
    assert s[0] !in s[1..];
  }

  function Filter<T(!new)>(s: seq<T>, keep: set<T>): (r: seq<T>)
    ensures forall x :: x in r <==> x in s && x in keep
  {
    if s == [] then [] else (if s[0] in keep then [s[0]] else []) + Filter(s[1..], keep)
  }

  lemma {:induction false} FilterKeepsRank<T(!new)>(s: seq<T>, keep: set<T>, before: (T, T) -> bool)
    requires Ranked(s, before)
    ensures Ranked(Filter(s, keep), before)
  {
    if s != [] {
      assert forall i, j | 0 <= i < j < |s[1..]| :: s[1..][i] == s[i + 1] && s[1..][j] == s[j + 1];
      FilterKeepsRank(s[1..], keep, before);
      var rest := Filter(s[1..], keep);
      forall j | 0 <= j < |rest|
        ensures before(s[0], rest[j])
      {
        assert rest[j] in rest;
        var k :| 0 <= k < |s[1..]| && s[1..][k] == rest[j];
        assert before(s[0], s[k + 1]);
      }
    }
  }

  /** Ranking a part of the candidates is the same as ranking all of them and keeping the part. */
  lemma RankThenFilter<T(!new)>(all: seq<T>, part: seq<T>, before: (T, T) -> bool)
    requires TotalOrder(before) && NoDuplicates(all) && NoDuplicates(part)
    requires Elements(part) <= Elements(all)
    ensures Sort(part, before) == Filter(Sort(all, before), Elements(part))
  {
    SortRanks(all, before);
    SortRanks(part, before);
    FilterKeepsRank(Sort(all, before), Elements(part), before);
    var kept := Filter(Sort(all, before), Elements(part));
    assert Elements(kept) == Elements(part) by {
      assert forall x :: x in Sort(all, before) <==> x in Elements(Sort(all, before));
    }
    RankingIsUnique(Sort(part, before), kept, before);
  }

  function Take<T>(s: seq<T>, n: nat): (r: seq<T>)
    ensures |r| == if n < |s| then n else |s|
    ensures r <= s
  {
    if n < |s| then s[..n] else s
  }

  /** `top` holds the `n` best candidates, best first. */
  ghost predicate IsTop<T(!new)>(top: seq<T>, candidates: seq<T>, before: (T, T) -> bool, n: nat) {
    && Ranked(top, before)
    && |top| == (if n < |candidates| then n else |candidates|)
    && (forall x | x in top :: x in candidates)
    && (forall x, y | x in candidates && x !in top && y in top :: before(y, x))
  }

  /** A prefix of the sorted candidates holds the best ones. */
  lemma PrefixIsTop<T(!new)>(candidates: seq<T>, before: (T, T) -> bool, n: nat)
    requires TotalOrder(before) && NoDuplicates(candidates)
    ensures IsTop(Take(Sort(candidates, before), n), candidates, before, n)
  {
    SortRanks(candidates, before);
    var sorted := Sort(candidates, before);
    var top := Take(sorted, n);
    forall x
      ensures x in candidates <==> x in sorted
    {
      assert x in Elements(candidates) <==> x in Elements(sorted);
    }
    forall x, y | x in candidates && x !in top && y in top
      ensures before(y, x)
    {
      var i :| 0 <= i < |sorted| && sorted[i] == x;
      var j :| 0 <= j < |top| && top[j] == y;
      assert sorted[j] == y;
      assert forall k | 0 <= k < |top| :: sorted[k] == top[k] && top[k] in top;
    }
  }

  lemma {:induction false} FilterAll<T(!new)>(s: seq<T>, keep: set<T>)
    requires forall x | x in s :: x in keep
    ensures Filter(s, keep) == s
  {
    if s != [] {
      FilterAll(s[1..], keep);
    }
  }
}
