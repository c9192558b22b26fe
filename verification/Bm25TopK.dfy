/** Top-k retrieval over the index, with and without a list of allowed documents. */
module Bm25TopK {
  import opened Wrappers
  import opened Collections
  import opened Ranking
  import opened Bm25Spec
  import opened Bm25

  function ScoreAt(scores: seq<real>, d: nat): real {
    if d < |scores| then scores[d] else 0.0
  }

  /** Higher scores first; equal scores by ascending document id. */
  function Better(scores: seq<real>): (nat, nat) -> bool {
    (a: nat, b: nat) => ScoreAt(scores, a) > ScoreAt(scores, b) || (ScoreAt(scores, a) == ScoreAt(scores, b) && a < b)
  }

  lemma BetterIsTotal(scores: seq<real>)
    ensures TotalOrder(Better(scores))
  {
  }

  function AllIds(n: nat): (r: seq<nat>)
    ensures |r| == n && forall d | 0 <= d < n :: r[d] == d
    ensures NoDuplicates(r)
  {
    seq(n, d requires 0 <= d < n => d)
  }

  function WithScores(ids: seq<nat>, scores: seq<real>): (r: seq<(nat, real)>)
    requires forall i | 0 <= i < |ids| :: ids[i] < |scores|
    ensures |r| == |ids| && forall i | 0 <= i < |ids| :: r[i] == (ids[i], scores[ids[i]])
  {
    seq(|ids|, i requires 0 <= i < |ids| => (ids[i], scores[ids[i]]))
  }

  function IdsOf(r: seq<(nat, real)>): (ids: seq<nat>)
    ensures |ids| == |r| && forall i | 0 <= i < |r| :: ids[i] == r[i].0
  {
    seq(|r|, i requires 0 <= i < |r| => r[i].0)
  }

  function DirectScores(c: Corpus, query: seq<string>, p: Params, ln: Log): (r: seq<real>)
    ensures |r| == |c| && forall d | 0 <= d < |c| :: r[d] == Score(c, d, query, p, ln)
  {
    seq(|c|, d requires 0 <= d < |c| => Score(c, d, query, p, ln))
  }

  /** The complete ranking of the corpus by direct score. */
  function FullRanking(scores: seq<real>): seq<nat> {
    Sort(AllIds(|scores|), Better(scores))
  }

  lemma FullRankingElements(scores: seq<real>)
    ensures forall d: nat :: d in FullRanking(scores) <==> d < |scores|
  {
    BetterIsTotal(scores);
    SortRanks(AllIds(|scores|), Better(scores));
    forall d: nat
      ensures d in FullRanking(scores) <==> d < |scores|
    {
      assert d in Elements(FullRanking(scores)) <==> d in Elements(AllIds(|scores|));
      if d < |scores| { assert AllIds(|scores|)[d] == d; }
    }
  }

  /** The best allowed documents: rank everything, keep the allowed ones, cut. */
  function TopAllowed(scores: seq<real>, allowed: set<nat>, n: nat): seq<nat> {
    Take(Filter(FullRanking(scores), allowed), n)
  }

  /** Scores fall along the list, equal ones with rising document ids, and nothing left out scores more. */
  predicate BestFirst(r: seq<(nat, real)>, candidates: seq<nat>, scores: seq<real>) {
    && (forall i, j | 0 <= i < j < |r| :: r[i].1 > r[j].1 || (r[i].1 == r[j].1 && r[i].0 < r[j].0))
    && (forall i | 0 <= i < |r| :: r[i].0 in candidates && r[i].0 < |scores| && r[i].1 == scores[r[i].0])
    && (forall d, i | d in candidates && d < |scores| && d !in IdsOf(r) && 0 <= i < |r| :: scores[d] <= r[i].1)
  }

  lemma TopIsBestFirst(r: seq<(nat, real)>, candidates: seq<nat>, scores: seq<real>, n: nat)
    requires IsTop(IdsOf(r), candidates, Better(scores), n)
    requires forall i | 0 <= i < |r| :: r[i].0 < |scores| && r[i].1 == scores[r[i].0]
    ensures BestFirst(r, candidates, scores)
  {
    var ids := IdsOf(r);
    forall i, j | 0 <= i < j < |r|
      ensures r[i].1 > r[j].1 || (r[i].1 == r[j].1 && r[i].0 < r[j].0)
    {
      assert Better(scores)(ids[i], ids[j]);
    }
    assert forall i | 0 <= i < |r| :: ids[i] in ids;
    forall d, i | d in candidates && d < |scores| && d !in ids && 0 <= i < |r|
      ensures scores[d] <= r[i].1
    {
      assert Better(scores)(ids[i], d);
    }
  }

  method RankDocIds(scores: seq<real>, ids: seq<nat>, n: nat) returns (r: seq<(nat, real)>)
    requires NoDuplicates(ids) && forall i | 0 <= i < |ids| :: ids[i] < |scores|
    ensures IsTop(IdsOf(r), ids, Better(scores), n)
    ensures IdsOf(r) == Take(Sort(ids, Better(scores)), n)
    ensures forall i | 0 <= i < |r| :: r[i].0 < |scores| && r[i].1 == scores[r[i].0]
    ensures BestFirst(r, ids, scores)
  {
    BetterIsTotal(scores);
    SortRanks(ids, Better(scores));
    var sorted := Sort(ids, Better(scores));
    forall i | 0 <= i < |sorted| ensures sorted[i] < |scores| {
      assert sorted[i] in Elements(ids);
      assert sorted[i] in ids;
    }
    PrefixIsTop(ids, Better(scores), n);
    r := WithScores(Take(sorted, n), scores);
    assert IdsOf(r) == Take(sorted, n);
    TopIsBestFirst(r, ids, scores, n);
  }

  /** The `n` best documents by direct score, best first. */
  method ScoreTopK(idx: Index, query: seq<string>, n: nat, ghost c: Corpus, ghost p: Params, ghost ln: Log) returns (r: seq<(nat, real)>)
    requires idx == IndexOf(c, p, ln)
    ensures forall i | 0 <= i < |r| :: r[i].0 < |c| && r[i].1 == Score(c, r[i].0, query, p, ln)
    ensures IsTop(IdsOf(r), AllIds(|c|), Better(DirectScores(c, query, p, ln)), n)
    ensures IdsOf(r) == TopAllowed(DirectScores(c, query, p, ln), Elements(AllIds(|c|)), n)
    ensures BestFirst(r, AllIds(|c|), DirectScores(c, query, p, ln))
  {
    if idx.size == 0 {
      r := [];
      NothingAllowed(DirectScores(c, query, p, ln), Elements(AllIds(|c|)));
      return;
    }
    var scores := ScoresForQuery(idx, query, c, p, ln);
    assert scores == DirectScores(c, query, p, ln);
    r := RankDocIds(scores, AllIds(idx.size), n);
    AllAllowed(scores, n);
    BetterIsTotal(scores);
    PrefixIsTop(AllIds(|c|), Better(scores), n);
  }

  /** With every id allowed, filtering changes nothing. */
  lemma AllAllowed(scores: seq<real>, n: nat)
    ensures TopAllowed(scores, Elements(AllIds(|scores|)), n) == Take(FullRanking(scores), n)
  {
    FullRankingElements(scores);
    forall d | d in FullRanking(scores)
      ensures d in Elements(AllIds(|scores|))
    {
      assert AllIds(|scores|)[d] == d;
    }
    FilterAll(FullRanking(scores), Elements(AllIds(|scores|)));
  }

  /** Distinct allowed ids in first-seen order, or a complaint about one out of range. */
  method DistinctAllowed(allowed: seq<nat>, size: nat) returns (r: Result<seq<nat>>)
    ensures r.Err? <==> exists i | 0 <= i < |allowed| :: allowed[i] >= size
    ensures r.Ok? ==> NoDuplicates(r.value) && Elements(r.value) == Elements(allowed)
  {
    var seen := new bool[size](_ => false);
    var ids: seq<nat> := [];
    for i := 0 to |allowed|
      invariant forall k | 0 <= k < i :: allowed[k] < size
      invariant NoDuplicates(ids) && Elements(ids) == Elements(allowed[..i])
      invariant forall d | 0 <= d < size :: seen[d] <==> d in ids
    {
      var d: nat := allowed[i];
      if d >= size {
        return Err("allowed document index out of range");
      }
      assert allowed[..i + 1] == allowed[..i] + [d];
      ElementsAppend<nat>(allowed[..i], d);
      ElementsAppend<nat>(ids, d);
      if !seen[d] {
        seen[d] := true;
        ids := ids + [d];
      } else {
        assert d in Elements(ids);
        assert Elements(ids) + {d} == Elements(ids);
      }
    }
    assert allowed[..|allowed|] == allowed;
    r := Ok(ids);
  }

  /** Filtering before the cut: the result is the complete ranking, restricted to the allowed ids,
      then cut. It depends only on which ids are allowed, not on their order or repetition. */
  method ScoreTopKFiltered(idx: Index, query: seq<string>, n: nat, allowed: seq<nat>, ghost c: Corpus, ghost p: Params, ghost ln: Log)
    returns (r: Result<seq<(nat, real)>>)
    requires idx == IndexOf(c, p, ln)
    ensures r.Err? <==> c != [] && exists i | 0 <= i < |allowed| :: allowed[i] >= |c|
    ensures r.Ok? ==> IdsOf(r.value) == TopAllowed(DirectScores(c, query, p, ln), Elements(allowed), n)
    ensures r.Ok? ==> forall i | 0 <= i < |r.value| :: r.value[i].0 < |c| && r.value[i].1 == Score(c, r.value[i].0, query, p, ln)
    ensures r.Ok? && c != [] ==> BestFirst(r.value, allowed, DirectScores(c, query, p, ln))
  {
    if idx.size == 0 || allowed == [] {
      NothingAllowed(DirectScores(c, query, p, ln), Elements(allowed));
      return Ok([]);
    }
    var distinct := DistinctAllowed(allowed, idx.size);
    if distinct.Err? {
      return Err(distinct.code);
    }
    var ids := distinct.value;
    var scores := ScoresForQuery(idx, query, c, p, ln);
    assert scores == DirectScores(c, query, p, ln);
    AllowedInRange(ids, allowed, |c|);
    var ranked := RankDocIds(scores, ids, n);
    BetterIsTotal(scores);
    RankThenFilter(AllIds(|c|), ids, Better(scores));
    assert forall d :: d in ids <==> d in Elements(ids);
    assert forall d :: d in allowed <==> d in Elements(allowed);
    r := Ok(ranked);
  }

  lemma NothingAllowed(scores: seq<real>, allowed: set<nat>)
    requires scores == [] || allowed == {}
    ensures Filter(FullRanking(scores), allowed) == []
  {
    FullRankingElements(scores);
    var kept := Filter(FullRanking(scores), allowed);
    assert Elements(kept) == {};
    if kept != [] { NoElements(kept); }
  }

  lemma AllowedInRange(ids: seq<nat>, allowed: seq<nat>, n: nat)
    requires Elements(ids) == Elements(allowed) && forall i | 0 <= i < |allowed| :: allowed[i] < n
    ensures forall i | 0 <= i < |ids| :: ids[i] < n
    ensures Elements(ids) <= Elements(AllIds(n))
  {
    forall d | d in ids
      ensures d < n && d in AllIds(n)
    {
      assert d in Elements(ids);
      assert d in allowed;
      assert AllIds(n)[d] == d;
    }
    assert forall i | 0 <= i < |ids| :: ids[i] in ids;
  }
}
