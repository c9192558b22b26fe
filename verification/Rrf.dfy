/** Reciprocal rank fusion of two ranked lists. */
module Rrf {
  import opened Collections
  import opened Ranking
  import opened Fractions

  /** A retrieved document, known by its identity key. */
  datatype Doc = Doc(key: string)

  datatype Fused = Fused(key: string, score: real)

  // ----- The order of the output

  /** Strings compare by their first difference. */
  predicate LexLess(a: string, b: string) {
    if b == [] then false
    else if a == [] then true
    else if a[0] != b[0] then a[0] < b[0]
    else LexLess(a[1..], b[1..])
  }

  lemma {:induction false} LexIrreflexive(a: string)
    ensures !LexLess(a, a)
  {
    if a != [] { LexIrreflexive(a[1..]); }
  }

  lemma {:induction false} LexTransitive(a: string, b: string, c: string)
    requires LexLess(a, b) && LexLess(b, c)
    ensures LexLess(a, c)
  {
    if a != [] && a[0] == b[0] == c[0] { LexTransitive(a[1..], b[1..], c[1..]); }
  }

  lemma {:induction false} LexConnected(a: string, b: string)
    requires a != b
    ensures LexLess(a, b) || LexLess(b, a)
  {
    if a != [] && b != [] && a[0] == b[0] {
      assert a == [a[0]] + a[1..] && b == [b[0]] + b[1..];
      LexConnected(a[1..], b[1..]);
    }
  }

  /** One string is less at this place: they agree before it, and there it has the smaller character or ends. */
  predicate LessAt(a: string, b: string, k: nat) {
    k <= |a| && k < |b| && a[..k] == b[..k] && (k == |a| || a[k] < b[k])
  }

  lemma {:induction false} LexExactly(a: string, b: string)
    ensures LexLess(a, b) <==> exists k: nat :: LessAt(a, b, k)
  {
    if a != [] && b != [] && a[0] == b[0] {
      LexExactly(a[1..], b[1..]);
      if k: nat :| LessAt(a[1..], b[1..], k) {
        assert a[..k + 1] == [a[0]] + a[1..][..k] && b[..k + 1] == [b[0]] + b[1..][..k];
        assert LessAt(a, b, k + 1);
      }
      if k: nat :| LessAt(a, b, k) {
        assert k > 0;
        assert a[1..][..k - 1] == a[..k][1..] && b[1..][..k - 1] == b[..k][1..];
        assert LessAt(a[1..], b[1..], k - 1);
      }
    } else {
      assert LexLess(a, b) ==> LessAt(a, b, 0);
      if k: nat :| LessAt(a, b, k) && k > 0 {
        assert a[..k][0] == b[..k][0];
      }
    }
  }

  /** Higher scores first, equal scores by ascending key. */
  function Higher(score: string -> real): (string, string) -> bool {
    (a: string, b: string) => score(a) > score(b) || (score(a) == score(b) && LexLess(a, b))
  }

  lemma HigherIsTotal(score: string -> real)
    ensures TotalOrder(Higher(score))
  {
    var before := Higher(score);
    forall x ensures !before(x, x) { LexIrreflexive(x); }
    forall x, y, z | before(x, y) && before(y, z) ensures before(x, z) {
      if score(x) == score(y) == score(z) { LexTransitive(x, y, z); }
    }
    forall x, y | x != y ensures before(x, y) || before(y, x) { LexConnected(x, y); }
  }

  // ----- The direct definition

  /** The constant of the fusion; `pole` is what a division by zero yields, any value whatever. */
  datatype Smoothing = Smoothing(constant: real, pole: real)

  function Weight(k: Smoothing, rank: nat): real
  {
    var denominator := k.constant + rank as real;
    if denominator == 0.0 then k.pole else 1.0 / denominator
  }

  /** The sum of 1 / (k + rank) over the places where the key occurs in one list. */
  function Share(docs: seq<Doc>, key: string, k: Smoothing): real
  {
    if docs == [] then 0.0
    else Share(docs[..|docs| - 1], key, k) + (if docs[|docs| - 1].key == key then Weight(k, |docs|) else 0.0)
  }

  /** With a non-negative constant the weight is the reciprocal of constant plus rank, and a better rank
      weighs more. */
  lemma BetterRankWeighsMore(k: Smoothing, rank: nat, worse: nat)
    requires k.constant >= 0.0 && 1 <= rank < worse
    ensures Weight(k, rank) * (k.constant + rank as real) == 1.0
    ensures 0.0 < Weight(k, worse) < Weight(k, rank)
  {
    var v, w := k.constant + rank as real, k.constant + worse as real;
    QuotientTimes(1.0, v);
    DenominatorGrowsStrictly(1.0, v, w);
    assert Weight(k, rank) == Quotient(1.0, v) && Weight(k, worse) == Quotient(1.0, w);
  }

  lemma {:induction false} AbsentHasNoShare(docs: seq<Doc>, key: string, k: Smoothing)
    requires key !in Keys(docs)
    ensures Share(docs, key, k) == 0.0
  {
    if docs != [] {
      var init := docs[..|docs| - 1];
      assert Keys(docs)[|docs| - 1] == docs[|docs| - 1].key;
      assert Keys(docs) == Keys(init) + [docs[|docs| - 1].key];
      AbsentHasNoShare(init, key, k);
    }
  }

  /** In a list without repetition a key's share is the weight of its one rank. */
  lemma {:induction false} ShareIsWeight(docs: seq<Doc>, i: nat, k: Smoothing)
    requires i < |docs| && NoDuplicates(Keys(docs))
    ensures Share(docs, docs[i].key, k) == Weight(k, i + 1)
  {
    var init, last := docs[..|docs| - 1], docs[|docs| - 1];
    assert Keys(docs) == Keys(init) + [last.key];
    assert forall j | 0 <= j < |init| :: Keys(init)[j] == Keys(docs)[j];
    if i < |init| {
      assert Keys(docs)[i] != Keys(docs)[|init|];
      ShareIsWeight(init, i, k);
    } else {
      AbsentHasNoShare(init, last.key, k);
    }
  }

  /** One key stands before another in a list, or only the first stands in it. */
  predicate Precedes(docs: seq<Doc>, a: string, b: string) {
    exists i | 0 <= i < |docs| :: docs[i].key == a && forall j | 0 <= j <= i :: docs[j].key != b
  }

  lemma {:induction false} LaterSharesLess(docs: seq<Doc>, i: nat, j: nat, k: Smoothing)
    requires k.constant >= 0.0 && NoDuplicates(Keys(docs)) && i < j < |docs|
    ensures Share(docs, docs[i].key, k) > Share(docs, docs[j].key, k)
  {
    ShareIsWeight(docs, i, k);
    ShareIsWeight(docs, j, k);
    BetterRankWeighsMore(k, i + 1, j + 1);
  }

  lemma {:induction false} PresentSharesMore(docs: seq<Doc>, i: nat, b: string, k: Smoothing)
    requires k.constant >= 0.0 && NoDuplicates(Keys(docs)) && i < |docs| && b !in Keys(docs)
    ensures Share(docs, docs[i].key, k) > Share(docs, b, k)
  {
    ShareIsWeight(docs, i, k);
    AbsentHasNoShare(docs, b, k);
    BetterRankWeighsMore(k, i + 1, i + 2);
  }

  lemma {:induction false} PrecedingSharesMore(docs: seq<Doc>, a: string, b: string, k: Smoothing)
    requires k.constant >= 0.0 && NoDuplicates(Keys(docs)) && Precedes(docs, a, b)
    ensures Share(docs, a, k) > Share(docs, b, k)
  {
    var i :| 0 <= i < |docs| && docs[i].key == a && forall j | 0 <= j <= i :: docs[j].key != b;
    if b in Keys(docs) {
      var j :| 0 <= j < |docs| && Keys(docs)[j] == b;
      LaterSharesLess(docs, i, j, k);
    } else {
      PresentSharesMore(docs, i, b, k);
    }
  }

  /** A key that precedes another in both lists is fused before it. */
  lemma {:induction false} PrecedingInBothWins(vector: seq<Doc>, bm25: seq<Doc>, a: string, b: string, k: Smoothing)
    requires k.constant >= 0.0 && NoDuplicates(Keys(vector)) && NoDuplicates(Keys(bm25))
    requires Precedes(vector, a, b) && Precedes(bm25, a, b)
    ensures Higher(RrfScore(vector, bm25, k))(a, b)
  {
    PrecedingSharesMore(vector, a, b, k);
    PrecedingSharesMore(bm25, a, b, k);
  }

  function RrfScore(vector: seq<Doc>, bm25: seq<Doc>, k: Smoothing): string -> real
  {
    (key: string) => Share(vector, key, k) + Share(bm25, key, k)
  }

  function Keys(docs: seq<Doc>): (r: seq<string>)
    ensures |r| == |docs| && forall i | 0 <= i < |r| :: r[i] == docs[i].key
  {
    seq(|docs|, i requires 0 <= i < |docs| => docs[i].key)
  }

  function AllKeys(vector: seq<Doc>, bm25: seq<Doc>): set<string> {
    Elements(Keys(vector)) + Elements(Keys(bm25))
  }

  lemma KeysAppend(docs: seq<Doc>, i: nat)
    requires i < |docs|
    ensures Elements(Keys(docs[..i + 1])) == Elements(Keys(docs[..i])) + {docs[i].key}
  {
    assert Keys(docs[..i + 1]) == Keys(docs[..i]) + [docs[i].key];
  }

  // ----- The fusion

  method AddOrUpdateDoc(scores: map<string, real>, key: string, score: real) returns (r: map<string, real>)
    ensures r.Keys == scores.Keys + {key}
    ensures forall x | x in scores && x != key :: r[x] == scores[x]
    ensures r[key] - (if key in scores then scores[key] else 0.0) == score
  {
    if key in scores {
      r := scores[key := scores[key] + score];
    } else {
      r := scores[key := score];
    }
  }

  lemma {:induction false} AbsentKeyHasNoShare(docs: seq<Doc>, key: string, k: Smoothing)
    requires key !in Elements(Keys(docs))
    ensures Share(docs, key, k) == 0.0
  {
    if docs != [] {
      var n := |docs| - 1;
      assert docs[..n + 1] == docs;
      KeysAppend(docs, n);
      AbsentKeyHasNoShare(docs[..n], key, k);
    }
  }

  /** The map after both lists have contributed as far as stated. */
  ghost predicate Scored(scores: map<string, real>, vector: seq<Doc>, bm25: seq<Doc>, k: Smoothing)
  {
    && scores.Keys == AllKeys(vector, bm25)
    && forall key | key in scores :: scores[key] == Share(vector, key, k) + Share(bm25, key, k)
  }

  lemma ScoredStep(scores: map<string, real>, r: map<string, real>, before: seq<Doc>, docs: seq<Doc>, i: nat, k: Smoothing)
    requires i < |docs| && Scored(scores, before, docs[..i], k)
    requires var key := docs[i].key;
             && r.Keys == scores.Keys + {key}
             && (forall x | x in scores && x != key :: r[x] == scores[x])
             && r[key] == (if key in scores then scores[key] else 0.0) + Weight(k, i + 1)
    ensures Scored(r, before, docs[..i + 1], k)
  {
    var key := docs[i].key;
    KeysAppend(docs, i);
    assert docs[..i + 1][..i] == docs[..i];
    if key !in scores {
      AbsentKeyHasNoShare(before, key, k);
      AbsentKeyHasNoShare(docs[..i], key, k);
    }
  }

  method AddList(scores: map<string, real>, docs: seq<Doc>, k: Smoothing, ghost before: seq<Doc>) returns (r: map<string, real>)
    requires Scored(scores, before, [], k)
    ensures Scored(r, before, docs, k)
  {
    r := scores;
    for i := 0 to |docs|
      invariant Scored(r, before, docs[..i], k)
    {
      ghost var last := r;
      r := AddOrUpdateDoc(r, docs[i].key, Weight(k, i + 1));
      ScoredStep(last, r, before, docs, i, k);
    }
    assert docs[..|docs|] == docs;
  }

  function KeysOf(r: seq<Fused>): (keys: seq<string>)
    ensures |keys| == |r| && forall i | 0 <= i < |r| :: keys[i] == r[i].key
  {
    seq(|r|, i requires 0 <= i < |r| => r[i].key)
  }

  /** `top` is the fused ranking of the two lists, cut after `n` keys. */
  ghost predicate FusedTop(top: seq<string>, vector: seq<Doc>, bm25: seq<Doc>, k: Smoothing, n: nat)
  {
    exists order: seq<string> ::
      && Ranked(order, Higher(RrfScore(vector, bm25, k)))
      && Elements(order) == AllKeys(vector, bm25)
      && top == Take(order, n)
  }

  function Lookup(scores: map<string, real>): string -> real {
    (key: string) => if key in scores then scores[key] else 0.0
  }

  /** Sorting the map's entries, in whatever order they come, gives the fused ranking. */
  lemma SortedEntriesAreFused(scores: map<string, real>, keys: seq<string>, vector: seq<Doc>, bm25: seq<Doc>, k: Smoothing, n: nat)
    requires Scored(scores, vector, bm25, k) && NoDuplicates(keys) && Elements(keys) == scores.Keys
    ensures var top := Take(Sort(keys, Higher(Lookup(scores))), n);
            FusedTop(top, vector, bm25, k, n) && NoDuplicates(top) && forall i | 0 <= i < |top| :: top[i] in scores
  {
    var before := Higher(Lookup(scores));
    HigherIsTotal(Lookup(scores));
    SortRanks(keys, before);
    var order := Sort(keys, before);
    OrderAgrees(scores, order, vector, bm25, k);
    assert forall i | 0 <= i < |order| :: order[i] in Elements(order);
    assert NoDuplicates(order);
  }

  lemma OrderAgrees(scores: map<string, real>, order: seq<string>, vector: seq<Doc>, bm25: seq<Doc>, k: Smoothing)
    requires Scored(scores, vector, bm25, k)
    requires Ranked(order, Higher(Lookup(scores))) && Elements(order) == scores.Keys
    ensures Ranked(order, Higher(RrfScore(vector, bm25, k)))
  {
    var found, direct := Lookup(scores), RrfScore(vector, bm25, k);
    forall i, j | 0 <= i < j < |order|
      ensures Higher(direct)(order[i], order[j])
    {
      assert order[i] in Elements(order) && order[j] in Elements(order);
      assert Higher(found)(order[i], order[j]);
      assert found(order[i]) == direct(order[i]) && found(order[j]) == direct(order[j]);
    }
  }

  /** One entry per key, scored by the sum over all its occurrences, in fused order; whatever
      order the hash map is walked in. */
  method RrfFusion(vector: seq<Doc>, bm25: seq<Doc>, k: Smoothing, n: nat) returns (r: seq<Fused>)
    ensures FusedTop(KeysOf(r), vector, bm25, k, n) && NoDuplicates(KeysOf(r))
    ensures forall i | 0 <= i < |r| :: r[i].score == RrfScore(vector, bm25, k)(r[i].key)
    ensures forall i, j | 0 <= i < j < |r| :: r[i].score > r[j].score || (r[i].score == r[j].score && LexLess(r[i].key, r[j].key))
  {
    var scores := AddList(map[], vector, k, []);
    ScoredSwap(scores, vector, k);
    scores := AddList(scores, bm25, k, vector);
    var keys := ListOf(scores.Keys);
    SortedEntriesAreFused(scores, keys, vector, bm25, k, n);
    var top := Take(Sort(keys, Higher(Lookup(scores))), n);
    r := seq(|top|, i requires 0 <= i < |top| => Fused(top[i], scores[top[i]]));
    assert KeysOf(r) == top;
    FusedIsFalling(r, vector, bm25, k, n);
  }

  lemma FusedIsFalling(r: seq<Fused>, vector: seq<Doc>, bm25: seq<Doc>, k: Smoothing, n: nat)
    requires FusedTop(KeysOf(r), vector, bm25, k, n)
    requires forall i | 0 <= i < |r| :: r[i].score == RrfScore(vector, bm25, k)(r[i].key)
    ensures forall i, j | 0 <= i < j < |r| :: r[i].score > r[j].score || (r[i].score == r[j].score && LexLess(r[i].key, r[j].key))
  {
    var before := Higher(RrfScore(vector, bm25, k));
    var order: seq<string> :| Ranked(order, before) && Elements(order) == AllKeys(vector, bm25) && KeysOf(r) == Take(order, n);
    forall i, j | 0 <= i < j < |r|
      ensures r[i].score > r[j].score || (r[i].score == r[j].score && LexLess(r[i].key, r[j].key))
    {
      assert r[i].key == KeysOf(r)[i] == order[i] && r[j].key == KeysOf(r)[j] == order[j];
      assert before(order[i], order[j]);
    }
  }

  lemma ScoredSwap(scores: map<string, real>, docs: seq<Doc>, k: Smoothing)
    requires Scored(scores, [], docs, k)
    ensures Scored(scores, docs, [], k)
  {
  }

  lemma SwappedRanking(order: seq<string>, vector: seq<Doc>, bm25: seq<Doc>, k: Smoothing)
    requires Ranked(order, Higher(RrfScore(bm25, vector, k)))
    ensures Ranked(order, Higher(RrfScore(vector, bm25, k)))
  {
    var here, there := RrfScore(vector, bm25, k), RrfScore(bm25, vector, k);
    forall i, j | 0 <= i < j < |order|
      ensures Higher(here)(order[i], order[j])
    {
      assert Higher(there)(order[i], order[j]);
      assert here(order[i]) == there(order[i]) && here(order[j]) == there(order[j]);
    }
  }

  /** The fused ranking and its scores are unchanged when the two lists are swapped. */
  lemma FusionIsSymmetric(top: seq<string>, vector: seq<Doc>, bm25: seq<Doc>, k: Smoothing, n: nat)
    requires FusedTop(top, bm25, vector, k, n)
    ensures FusedTop(top, vector, bm25, k, n)
    ensures forall key :: RrfScore(vector, bm25, k)(key) == RrfScore(bm25, vector, k)(key)
  {
    var order: seq<string> :|
      Ranked(order, Higher(RrfScore(bm25, vector, k))) && Elements(order) == AllKeys(bm25, vector) && top == Take(order, n);
    SwappedRanking(order, vector, bm25, k);
  }

  /** The fused ranking is determined by the two lists alone. */
  lemma FusionIsDetermined(a: seq<string>, b: seq<string>, vector: seq<Doc>, bm25: seq<Doc>, k: Smoothing, n: nat)
    requires FusedTop(a, vector, bm25, k, n) && FusedTop(b, vector, bm25, k, n)
    ensures a == b
  {
    var before := Higher(RrfScore(vector, bm25, k));
    HigherIsTotal(RrfScore(vector, bm25, k));
    var first: seq<string> :| Ranked(first, before) && Elements(first) == AllKeys(vector, bm25) && a == Take(first, n);
    var second: seq<string> :| Ranked(second, before) && Elements(second) == AllKeys(vector, bm25) && b == Take(second, n);
    RankingIsUnique(first, second, before);
  }
}
