/** Abstention-threshold calibration: a finite grid that is optimal over a continuum. */
module Calibration {
  import opened Wrappers
  import opened Collections
  import opened Ranking
  import opened Fractions

  /** A report row; a signal that is missing or not finite is absent. */
  datatype Row = Row(id: string, distance: Option<real>, bm25: Option<real>, answerable: bool)

  /** A lower bound on BM25 scores; no finite score reaches infinity. */
  datatype Bound = Finite(value: real) | Infinity

  datatype Thresholds = Thresholds(maxDistance: real, minBm25: Bound)

  predicate Reaches(score: real, b: Bound) { b.Finite? && score >= b.value }

  predicate Accepts(row: Row, t: Thresholds) {
    || (row.distance.Some? && row.distance.value <= t.maxDistance)
    || (row.bm25.Some? && Reaches(row.bm25.value, t.minBm25))
  }

  datatype Tally = Tally(tp: nat, tn: nat, fp: nat, fn: nat)

  function Add(c: Tally, row: Row, accepted: bool): Tally {
    if row.answerable && accepted then c.(tp := c.tp + 1)
    else if row.answerable then c.(fn := c.fn + 1)
    else if accepted then c.(fp := c.fp + 1)
    else c.(tn := c.tn + 1)
  }

  /** How many rows fall into each cell of the confusion matrix. */
  function TallyOf(rows: seq<Row>, t: Thresholds): Tally {
    if rows == [] then Tally(0, 0, 0, 0)
    else
      var last := rows[|rows| - 1];
      Add(TallyOf(rows[..|rows| - 1], t), last, Accepts(last, t))
  }

  datatype Rates = Rates(samples: nat, acceptance: real, abstention: real, balanced: real, falseAccept: real, falseReject: real)

  function Ratio(a: nat, b: nat): real {
    a as real / (if b > 1 then b else 1) as real
  }

  function RatesOf(c: Tally): Rates {
    var tpr, tnr := Ratio(c.tp, c.tp + c.fn), Ratio(c.tn, c.tn + c.fp);
    Rates(c.tp + c.tn + c.fp + c.fn, tpr, tnr, (tpr + tnr) / 2.0, Ratio(c.fp, c.fp + c.tn), Ratio(c.fn, c.fn + c.tp))
  }

  /** What calibration is given: a hash that deals rows into folds, the measure that turns a
      confusion matrix into rates, and the acceptance floor. Nothing below depends on which
      measure it is; the program uses `RatesOf`. */
  datatype Setup = Setup(hash: string -> nat, measure: Tally -> Rates, floor: real)

  method ComputeRates(rows: seq<Row>, t: Thresholds, e: Setup) returns (r: Rates)
    ensures r == e.measure(TallyOf(rows, t))
  {
    var tp, tn, fp, fn := 0, 0, 0, 0;
    for i := 0 to |rows|
      invariant Tally(tp, tn, fp, fn) == TallyOf(rows[..i], t)
    {
      var row := rows[i];
      assert rows[..i + 1][..i] == rows[..i];
      var predicted := Accepts(row, t);
      if row.answerable && predicted { tp := tp + 1; }
      else if row.answerable { fn := fn + 1; }
      else if predicted { fp := fp + 1; }
      else { tn := tn + 1; }
    }
    assert rows[..|rows|] == rows;
    r := e.measure(Tally(tp, tn, fp, fn));
  }

  // ----- Folds and the selection key

  const FOLDS := 5

  /** The rows whose hashed identity falls into fold `i`. */
  function FoldRows(rows: seq<Row>, i: nat, e: Setup): seq<Row> {
    if rows == [] then []
    else
      var last := rows[|rows| - 1];
      FoldRows(rows[..|rows| - 1], i, e) + (if e.hash(last.id) % FOLDS == i then [last] else [])
  }

  function Balanced(rows: seq<Row>, i: nat, e: Setup, t: Thresholds): real {
    e.measure(TallyOf(FoldRows(rows, i, e), t)).balanced
  }

  datatype Key = Key(worst: real, mean: real, accept: real, reject: real, distance: real)

  /** Lexicographic comparison of selection keys. */
  predicate Less(k: Key, l: Key) {
    || k.worst < l.worst
    || (k.worst == l.worst && k.mean < l.mean)
    || (k.worst == l.worst && k.mean == l.mean && k.accept < l.accept)
    || (k.worst == l.worst && k.mean == l.mean && k.accept == l.accept && k.reject < l.reject)
    || (k.worst == l.worst && k.mean == l.mean && k.accept == l.accept && k.reject == l.reject && k.distance < l.distance)
  }

  function MinOf(xs: seq<real>): real
    requires xs != []
  {
    if |xs| == 1 then xs[0]
    else
      var m := MinOf(xs[..|xs| - 1]);
      if xs[|xs| - 1] < m then xs[|xs| - 1] else m
  }

  function SumOf(xs: seq<real>): real {
    if xs == [] then 0.0 else SumOf(xs[..|xs| - 1]) + xs[|xs| - 1]
  }

  function Balances(rows: seq<Row>, e: Setup, t: Thresholds): (r: seq<real>)
    ensures |r| == FOLDS && forall i | 0 <= i < FOLDS :: r[i] == Balanced(rows, i, e, t)
  {
    seq(FOLDS, i requires 0 <= i < FOLDS => Balanced(rows, i, e, t))
  }

  function MakeKey(balances: seq<real>, overall: Rates, maxDistance: real): Key
    requires balances != []
  {
    Key(MinOf(balances), Mean(SumOf(balances), FOLDS), -overall.falseAccept, -overall.falseReject, -maxDistance)
  }

  function KeyOf(rows: seq<Row>, e: Setup, t: Thresholds): Key {
    MakeKey(Balances(rows, e, t), e.measure(TallyOf(rows, t)), t.maxDistance)
  }

  predicate MeetsFloor(rows: seq<Row>, t: Thresholds, e: Setup) {
    e.measure(TallyOf(rows, t)).acceptance >= e.floor
  }

  // ----- Why a grid is enough

  predicate SameDecisions(rows: seq<Row>, t: Thresholds, u: Thresholds) {
    forall i | 0 <= i < |rows| :: Accepts(rows[i], t) == Accepts(rows[i], u)
  }

  lemma {:induction false} SameDecisionsSameTally(rows: seq<Row>, t: Thresholds, u: Thresholds)
    requires SameDecisions(rows, t, u)
    ensures TallyOf(rows, t) == TallyOf(rows, u)
  {
    if rows != [] {
      SameDecisionsSameTally(rows[..|rows| - 1], t, u);
    }
  }

  lemma {:induction false} SameDecisionsInFold(rows: seq<Row>, i: nat, e: Setup, t: Thresholds, u: Thresholds)
    requires SameDecisions(rows, t, u)
    ensures SameDecisions(FoldRows(rows, i, e), t, u)
  {
    if rows != [] {
      SameDecisionsInFold(rows[..|rows| - 1], i, e, t, u);
    }
  }

  lemma SameDecisionsSameBalance(rows: seq<Row>, i: nat, e: Setup, t: Thresholds, u: Thresholds)
    requires SameDecisions(rows, t, u)
    ensures Balanced(rows, i, e, t) == Balanced(rows, i, e, u)
  {
    SameDecisionsInFold(rows, i, e, t, u);
    SameDecisionsSameTally(FoldRows(rows, i, e), t, u);
  }

  predicate EqualButDistance(k: Key, l: Key) {
    k.worst == l.worst && k.mean == l.mean && k.accept == l.accept && k.reject == l.reject
  }

  lemma KeyDistance(balances: seq<real>, overall: Rates, x: real, y: real)
    requires balances != []
    ensures EqualButDistance(MakeKey(balances, overall, x), MakeKey(balances, overall, y))
  {
  }

  /** Thresholds that decide every row alike differ at most in the last key component. */
  lemma SameDecisionsSameKey(rows: seq<Row>, e: Setup, t: Thresholds, u: Thresholds)
    requires SameDecisions(rows, t, u)
    ensures EqualButDistance(KeyOf(rows, e, t), KeyOf(rows, e, u))
    ensures MeetsFloor(rows, t, e) <==> MeetsFloor(rows, u, e)
  {
    SameDecisionsSameTally(rows, t, u);
    assert Balances(rows, e, t) == Balances(rows, e, u) by {
      forall i | 0 <= i < FOLDS ensures Balanced(rows, i, e, t) == Balanced(rows, i, e, u) {
        SameDecisionsSameBalance(rows, i, e, t, u);
      }
    }
    assert KeyOf(rows, e, t) == MakeKey(Balances(rows, e, u), e.measure(TallyOf(rows, u)), t.maxDistance);
    KeyDistance(Balances(rows, e, u), e.measure(TallyOf(rows, u)), t.maxDistance, u.maxDistance);
  }

  /** The largest candidate not above `d`. */
  lemma {:induction false} CandidateBelow(cands: seq<real>, d: real) returns (best: real)
    requires exists x | x in cands :: x <= d
    ensures best in cands && best <= d && forall x | x in cands && x <= d :: x <= best
  {
    var init, last := cands[..|cands| - 1], cands[|cands| - 1];
    assert cands == init + [last];
    if exists x | x in init :: x <= d {
      best := CandidateBelow(init, d);
      if best < last <= d { best := last; }
    } else {
      best := last;
    }
  }

  predicate AtMost(b: Bound, c: Bound) { c.Infinity? || (b.Finite? && b.value <= c.value) }

  /** The smallest candidate not below `b`. */
  lemma {:induction false} CandidateAbove(cands: seq<Bound>, b: Bound) returns (best: Bound)
    requires exists x | x in cands :: AtMost(b, x)
    ensures best in cands && AtMost(b, best) && forall x | x in cands && AtMost(b, x) :: AtMost(best, x)
  {
    var init, last := cands[..|cands| - 1], cands[|cands| - 1];
    assert cands == init + [last];
    if exists x | x in init :: AtMost(b, x) {
      best := CandidateAbove(init, b);
      if AtMost(b, last) && !AtMost(best, last) { best := last; }
    } else {
      best := last;
    }
  }

  // ----- The grid

  predicate Covers(distances: seq<real>, bounds: seq<Bound>, rows: seq<Row>) {
    && (forall i | 0 <= i < |rows| :: rows[i].distance.Some? ==> rows[i].distance.value in distances)
    && (forall i | 0 <= i < |rows| :: rows[i].bm25.Some? ==> Finite(rows[i].bm25.value) in bounds)
    && 0.0 in distances && Infinity in bounds
  }

  /** Every pair of thresholds whose distance is not below all candidates is matched by a grid pair
      that decides every row alike and whose distance threshold is no larger. */
  lemma GridMatches(distances: seq<real>, bounds: seq<Bound>, rows: seq<Row>, u: Thresholds) returns (t: Thresholds)
    requires Covers(distances, bounds, rows) && exists x | x in distances :: x <= u.maxDistance
    ensures t.maxDistance in distances && t.minBm25 in bounds
    ensures SameDecisions(rows, t, u) && t.maxDistance <= u.maxDistance
  {
    var d := CandidateBelow(distances, u.maxDistance);
    assert AtMost(u.minBm25, Infinity);
    var b := CandidateAbove(bounds, u.minBm25);
    t := Thresholds(d, b);
    forall i | 0 <= i < |rows|
      ensures Accepts(rows[i], t) == Accepts(rows[i], u)
    {
      var row := rows[i];
      if row.bm25.Some? {
        assert Reaches(row.bm25.value, b) <==> AtMost(b, Finite(row.bm25.value));
        assert Reaches(row.bm25.value, u.minBm25) <==> AtMost(u.minBm25, Finite(row.bm25.value));
        assert AtMost(u.minBm25, b);
      }
    }
  }

  datatype Choice = Choice(key: Key, t: Thresholds)

  /** Position `at` holds the first of the largest keys among the first `count`. */
  predicate FirstLargest(scored: seq<Choice>, at: nat, count: nat) {
    && at < count <= |scored|
    && (forall j | 0 <= j < count :: !Less(scored[at].key, scored[j].key))
    && forall j | 0 <= j < at :: Less(scored[j].key, scored[at].key)
  }

  lemma LargerKeyTakesOver(scored: seq<Choice>, at: nat, i: nat)
    requires i < |scored| && FirstLargest(scored, at, i) && Less(scored[at].key, scored[i].key)
    ensures FirstLargest(scored, i, i + 1)
  {
    forall j | 0 <= j < i
      ensures Less(scored[j].key, scored[i].key) && !Less(scored[i].key, scored[j].key)
    {
      NotLessThenLess(scored[j].key, scored[at].key, scored[i].key);
    }
  }

  lemma NotLessThenLess(a: Key, b: Key, c: Key)
    requires !Less(b, a) && Less(b, c)
    ensures Less(a, c) && !Less(c, a)
  {
  }

  /** The first entry with the largest key. */
  method MaxByKey(scored: seq<Choice>) returns (best: Choice)
    requires scored != []
    ensures exists at | 0 <= at < |scored| :: FirstLargest(scored, at, |scored|) && best == scored[at]
  {
    best := scored[0];
    ghost var at := 0;
    for i := 1 to |scored|
      invariant FirstLargest(scored, at, i) && best == scored[at]
    {
      if Less(best.key, scored[i].key) {
        LargerKeyTakesOver(scored, at, i);
        best, at := scored[i], i;
      }
    }
  }

  function Ascending(): (real, real) -> bool { (x: real, y: real) => x < y }

  /** The distinct values of a signal, in ascending order. */
  method SortedValues(rows: seq<Row>, signal: Row -> Option<real>) returns (values: seq<real>)
    ensures Ranked(values, Ascending()) && forall i, j | 0 <= i < j < |values| :: values[i] < values[j]
    ensures forall i | 0 <= i < |rows| :: signal(rows[i]).Some? ==> signal(rows[i]).value in values
    ensures forall x | x in values :: exists i | 0 <= i < |rows| :: signal(rows[i]) == Some(x)
  {
    values := [];
    for i := 0 to |rows|
      invariant Ranked(values, Ascending())
      invariant forall k | 0 <= k < i :: signal(rows[k]).Some? ==> signal(rows[k]).value in values
      invariant forall x | x in values :: exists k | 0 <= k < i :: signal(rows[k]) == Some(x)
    {
      var s := signal(rows[i]);
      if s.Some? && s.value !in values {
        InsertKeepsRank(s.value, values, Ascending());
        ghost var before := values;
        values := Insert(s.value, values, Ascending());
        forall x ensures x in values <==> x in before || x == s.value {
          assert x in Elements(values) <==> x in Elements(before) + {s.value};
        }
      }
    }
  }

  /** The entry a grid pair contributes, if it meets the floor. */
  function Scored(rows: seq<Row>, e: Setup, t: Thresholds): seq<Choice> {
    if MeetsFloor(rows, t, e) then [Choice(KeyOf(rows, e, t), t)] else []
  }

  /** The rates of each fold. */
  method FoldMetrics(rows: seq<Row>, e: Setup, t: Thresholds) returns (folds: seq<Rates>)
    ensures |folds| == FOLDS && forall k | 0 <= k < FOLDS :: folds[k] == e.measure(TallyOf(FoldRows(rows, k, e), t))
  {
    folds := [];
    for i := 0 to FOLDS
      invariant |folds| == i && forall k | 0 <= k < i :: folds[k] == e.measure(TallyOf(FoldRows(rows, k, e), t))
    {
      var rates := ComputeRates(FoldRows(rows, i, e), t, e);
      folds := folds + [rates];
    }
  }

  method ScorePair(rows: seq<Row>, e: Setup, t: Thresholds) returns (entry: seq<Choice>)
    ensures entry == Scored(rows, e, t)
  {
    var metrics := ComputeRates(rows, t, e);
    if metrics.acceptance < e.floor {
      return [];
    }
    var folds := FoldMetrics(rows, e, t);
    var balances := seq(FOLDS, i requires 0 <= i < FOLDS => folds[i].balanced);
    assert balances == Balances(rows, e, t);
    entry := [Choice(MakeKey(balances, metrics, t.maxDistance), t)];
  }

  /** `entry` scores a grid pair that meets the floor. */
  predicate FromGrid(entry: Choice, distances: seq<real>, bounds: seq<Bound>, rows: seq<Row>, e: Setup) {
    && entry.t.maxDistance in distances && entry.t.minBm25 in bounds
    && MeetsFloor(rows, entry.t, e) && entry.key == KeyOf(rows, e, entry.t)
  }

  predicate Listed(scored: seq<Choice>, rows: seq<Row>, e: Setup, t: Thresholds) {
    MeetsFloor(rows, t, e) ==> Choice(KeyOf(rows, e, t), t) in scored
  }

  method ScoreGrid(distances: seq<real>, bounds: seq<Bound>, rows: seq<Row>, e: Setup) returns (scored: seq<Choice>)
    ensures forall s | s in scored :: FromGrid(s, distances, bounds, rows, e)
    ensures forall d, b | d in distances && b in bounds :: Listed(scored, rows, e, Thresholds(d, b))
  {
    scored := [];
    for i := 0 to |distances|
      invariant forall s | s in scored :: FromGrid(s, distances, bounds, rows, e)
      invariant forall k, l | 0 <= k < i && 0 <= l < |bounds| :: Listed(scored, rows, e, Thresholds(distances[k], bounds[l]))
    {
      for j := 0 to |bounds|
        invariant forall s | s in scored :: FromGrid(s, distances, bounds, rows, e)
        invariant forall k, l | 0 <= k < i && 0 <= l < |bounds| :: Listed(scored, rows, e, Thresholds(distances[k], bounds[l]))
        invariant forall l | 0 <= l < j :: Listed(scored, rows, e, Thresholds(distances[i], bounds[l]))
      {
        var entry := ScorePair(rows, e, Thresholds(distances[i], bounds[j]));
        scored := scored + entry;
      }
    }
  }

  datatype Outcome = Recommended(t: Thresholds, overall: Rates, folds: seq<Rates>) | InvalidFloor | NoPair

  /** Thresholds the search competes with: any real distance not below every candidate (in
      particular any non-negative one), and any real or infinite BM25 bound. */
  predicate Competes(rows: seq<Row>, u: Thresholds) {
    u.maxDistance >= 0.0 || exists i | 0 <= i < |rows| :: rows[i].distance.Some? && rows[i].distance.value <= u.maxDistance
  }

  /** A grid pair is at least as good as any competing pair that it matches. */
  lemma GridDominates(distances: seq<real>, bounds: seq<Bound>, rows: seq<Row>, e: Setup,
                      scored: seq<Choice>, u: Thresholds) returns (s: Choice)
    requires Covers(distances, bounds, rows) && Competes(rows, u) && MeetsFloor(rows, u, e)
    requires forall d, b | d in distances && b in bounds :: Listed(scored, rows, e, Thresholds(d, b))
    ensures s in scored && !Less(s.key, KeyOf(rows, e, u))
  {
    var t := GridMatches(distances, bounds, rows, u);
    SameDecisionsSameKey(rows, e, t, u);
    s := Choice(KeyOf(rows, e, t), t);
    assert Listed(scored, rows, e, Thresholds(t.maxDistance, t.minBm25));
  }

  lemma NobodyCompetes(distances: seq<real>, bounds: seq<Bound>, rows: seq<Row>, e: Setup, scored: seq<Choice>)
    requires Covers(distances, bounds, rows) && scored == []
    requires forall d, b | d in distances && b in bounds :: Listed(scored, rows, e, Thresholds(d, b))
    ensures forall u | Competes(rows, u) :: !MeetsFloor(rows, u, e)
  {
    forall u | Competes(rows, u)
      ensures !MeetsFloor(rows, u, e)
    {
      if MeetsFloor(rows, u, e) {
        var s := GridDominates(distances, bounds, rows, e, scored, u);
      }
    }
  }

  lemma BestOfGrid(distances: seq<real>, bounds: seq<Bound>, rows: seq<Row>, e: Setup, scored: seq<Choice>, best: Choice)
    requires Covers(distances, bounds, rows) && FromGrid(best, distances, bounds, rows, e)
    requires forall d, b | d in distances && b in bounds :: Listed(scored, rows, e, Thresholds(d, b))
    requires forall s | s in scored :: !Less(best.key, s.key)
    ensures BestOfCompeting(rows, e, best.t)
  {
    forall u | Competes(rows, u) && MeetsFloor(rows, u, e)
      ensures !Less(best.key, KeyOf(rows, e, u))
    {
      var s := GridDominates(distances, bounds, rows, e, scored, u);
      if Less(best.key, KeyOf(rows, e, u)) {
        LessThenNotLess(best.key, KeyOf(rows, e, u), s.key);
      }
    }
  }

  /** The pair competes, meets the floor, and no competing pair that meets the floor has a larger key;
      the rates are measured on all rows and on each fold. */
  ghost predicate Optimal(r: Outcome, rows: seq<Row>, e: Setup)
    requires r.Recommended?
  {
    && Competes(rows, r.t) && MeetsFloor(rows, r.t, e) && BestOfCompeting(rows, e, r.t)
    && r.overall == e.measure(TallyOf(rows, r.t)) && |r.folds| == FOLDS
    && forall k | 0 <= k < FOLDS :: r.folds[k] == e.measure(TallyOf(FoldRows(rows, k, e), r.t))
  }

  /** Calibration is optimal over the continuum: no competing pair that meets the floor has a larger
      key than the recommended one, and it gives up only when no competing pair meets the floor. */
  method Calibrate(rows: seq<Row>, e: Setup) returns (r: Outcome)
    ensures r.InvalidFloor? <==> !(0.0 <= e.floor <= 1.0)
    ensures r.Recommended? ==> Optimal(r, rows, e)
    ensures r.NoPair? <==> 0.0 <= e.floor <= 1.0 && forall u | Competes(rows, u) :: !MeetsFloor(rows, u, e)
  {
    if !(0.0 <= e.floor <= 1.0) {
      return InvalidFloor;
    }
    var distances := SortedValues(rows, (row: Row) => row.distance);
    var scores := SortedValues(rows, (row: Row) => row.bm25);
    var distanceCandidates := [0.0] + distances;
    var bm25Candidates := seq(|scores|, i requires 0 <= i < |scores| => Finite(scores[i])) + [Infinity];
    CandidatesCover(distances, scores, rows, distanceCandidates, bm25Candidates);
    var scored := ScoreGrid(distanceCandidates, bm25Candidates, rows, e);
    if scored == [] {
      NobodyCompetes(distanceCandidates, bm25Candidates, rows, e, scored);
      return NoPair;
    }
    var best := MaxByKey(scored);
    assert best in scored && forall s | s in scored :: !Less(best.key, s.key);
    assert FromGrid(best, distanceCandidates, bm25Candidates, rows, e);
    BestOfGrid(distanceCandidates, bm25Candidates, rows, e, scored, best);
    var overall := ComputeRates(rows, best.t, e);
    var folds := FoldMetrics(rows, e, best.t);
    r := Recommended(best.t, overall, folds);
  }

  lemma LessThenNotLess(a: Key, b: Key, c: Key)
    requires Less(a, b) && !Less(c, b)
    ensures Less(a, c)
  {
  }

  lemma CandidatesCover(distances: seq<real>, scores: seq<real>, rows: seq<Row>, ds: seq<real>, bs: seq<Bound>)
    requires ds == [0.0] + distances && |bs| == |scores| + 1 && bs[|scores|] == Infinity
    requires forall i | 0 <= i < |scores| :: bs[i] == Finite(scores[i])
    requires forall i | 0 <= i < |rows| :: rows[i].distance.Some? ==> rows[i].distance.value in distances
    requires forall i | 0 <= i < |rows| :: rows[i].bm25.Some? ==> rows[i].bm25.value in scores
    ensures Covers(ds, bs, rows)
  {
    forall i | 0 <= i < |rows| && rows[i].bm25.Some?
      ensures Finite(rows[i].bm25.value) in bs
    {
      var k :| 0 <= k < |scores| && scores[k] == rows[i].bm25.value;
      assert bs[k] == Finite(scores[k]);
    }
  }

  predicate AllDistancesPositive(rows: seq<Row>) {
    forall i | 0 <= i < |rows| && rows[i].distance.Some? :: rows[i].distance.value > 0.0
  }

  /** The pair accepts some row for its distance. */
  predicate UsesDistance(rows: seq<Row>, t: Thresholds) {
    exists i | 0 <= i < |rows| && rows[i].distance.Some? :: rows[i].distance.value <= t.maxDistance
  }

  /** A pair that accepts no row for its distance is beaten by every pair with a smaller distance
      threshold and the same BM25 threshold. */
  lemma SmallerUnusedDistanceWins(rows: seq<Row>, e: Setup, t: Thresholds, u: Thresholds)
    requires !UsesDistance(rows, t) && u.maxDistance < t.maxDistance && u.minBm25 == t.minBm25
    ensures MeetsFloor(rows, u, e) <==> MeetsFloor(rows, t, e)
    ensures Less(KeyOf(rows, e, t), KeyOf(rows, e, u))
  {
    assert SameDecisions(rows, t, u);
    SameDecisionsSameKey(rows, e, t, u);
  }

  /** No real pair at all that meets the floor has a larger key. */
  ghost predicate BestOfAll(rows: seq<Row>, e: Setup, t: Thresholds) {
    forall u | MeetsFloor(rows, u, e) :: !Less(KeyOf(rows, e, t), KeyOf(rows, e, u))
  }

  ghost predicate BestOfCompeting(rows: seq<Row>, e: Setup, t: Thresholds) {
    forall u | Competes(rows, u) && MeetsFloor(rows, u, e) :: !Less(KeyOf(rows, e, t), KeyOf(rows, e, u))
  }

  lemma UnusedDistanceLosesToZero(rows: seq<Row>, e: Setup, t: Thresholds, u: Thresholds)
    requires AllDistancesPositive(rows) && BestOfCompeting(rows, e, t) && UsesDistance(rows, t)
    requires MeetsFloor(rows, u, e) && !Competes(rows, u)
    ensures !Less(KeyOf(rows, e, t), KeyOf(rows, e, u))
  {
    var zero := Thresholds(0.0, u.minBm25);
    assert SameDecisions(rows, zero, u);
    SameDecisionsSameKey(rows, e, zero, u);
    assert Competes(rows, zero);
    assert EqualButDistance(KeyOf(rows, e, zero), KeyOf(rows, e, u));
    assert t.maxDistance > 0.0;
  }

  /** Comparison by everything but the distance threshold. */
  predicate RatesLess(k: Key, l: Key) {
    Less(k, l.(distance := k.distance))
  }

  /** Looking at distances pays on this report: some pair that meets the floor has better rates than every
      such pair that accepts no row for its distance. */
  ghost predicate DistanceHelps(rows: seq<Row>, e: Setup) {
    exists u | MeetsFloor(rows, u, e) :: BeatsUnused(rows, e, u)
  }

  ghost predicate BeatsUnused(rows: seq<Row>, e: Setup, u: Thresholds) {
    forall v | !UsesDistance(rows, v) && MeetsFloor(rows, v, e) :: RatesLess(KeyOf(rows, e, v), KeyOf(rows, e, u))
  }

  /** A pair that beats all unused distances does so for its own distance, so the search competes with it. */
  lemma HelpfulPairCompetes(rows: seq<Row>, e: Setup, u: Thresholds)
    requires MeetsFloor(rows, u, e) && BeatsUnused(rows, e, u)
    ensures Competes(rows, u)
  {
    assert !RatesLess(KeyOf(rows, e, u), KeyOf(rows, e, u));
    assert UsesDistance(rows, u);
  }

  lemma BestBeatsUnused(rows: seq<Row>, e: Setup, t: Thresholds, v: Thresholds)
    requires BestOfAll(rows, e, t) && !UsesDistance(rows, v) && MeetsFloor(rows, v, e)
    ensures RatesLess(KeyOf(rows, e, v), KeyOf(rows, e, t))
  {
    var least := if v.maxDistance < t.maxDistance then v.maxDistance else t.maxDistance;
    var lower := Thresholds(least - 1.0, v.minBm25);
    SmallerUnusedDistanceWins(rows, e, v, lower);
    assert SameDecisions(rows, v, lower);
    SameDecisionsSameKey(rows, e, v, lower);
    assert KeyOf(rows, e, t).distance < KeyOf(rows, e, lower).distance;
    assert !Less(KeyOf(rows, e, t), KeyOf(rows, e, lower));
  }

  /** When the recommended pair is the best of all real pairs, negative distance thresholds included:
      exactly when looking at distances pays on the report. */
  lemma BestOfAllExactly(rows: seq<Row>, e: Setup, t: Thresholds)
    requires BestOfCompeting(rows, e, t) && MeetsFloor(rows, t, e)
    ensures BestOfAll(rows, e, t) <==> DistanceHelps(rows, e)
  {
    if BestOfAll(rows, e, t) {
      forall v | !UsesDistance(rows, v) && MeetsFloor(rows, v, e)
        ensures RatesLess(KeyOf(rows, e, v), KeyOf(rows, e, t))
      {
        BestBeatsUnused(rows, e, t, v);
      }
      assert BeatsUnused(rows, e, t);
    }
    if DistanceHelps(rows, e) {
      var u :| MeetsFloor(rows, u, e) && BeatsUnused(rows, e, u);
      HelpfulPairCompetes(rows, e, u);
      forall w | MeetsFloor(rows, w, e)
        ensures !Less(KeyOf(rows, e, t), KeyOf(rows, e, w))
      {
        if !Competes(rows, w) {
          assert RatesLess(KeyOf(rows, e, w), KeyOf(rows, e, u));
          assert !Less(KeyOf(rows, e, t), KeyOf(rows, e, u));
        }
      }
    }
  }

  /** The same for a report whose distances are all positive: exactly when the recommended pair accepts
      some row for its distance, that is, when the recommended distance is not 0. */
  lemma BestOfPositiveExactly(rows: seq<Row>, e: Setup, t: Thresholds)
    requires AllDistancesPositive(rows) && BestOfCompeting(rows, e, t) && MeetsFloor(rows, t, e)
    ensures BestOfAll(rows, e, t) <==> UsesDistance(rows, t)
  {
    if UsesDistance(rows, t) {
      forall u | MeetsFloor(rows, u, e)
        ensures !Less(KeyOf(rows, e, t), KeyOf(rows, e, u))
      {
        if !Competes(rows, u) {
          UnusedDistanceLosesToZero(rows, e, t, u);
        }
      }
    } else {
      SmallerUnusedDistanceWins(rows, e, t, Thresholds(t.maxDistance - 1.0, t.minBm25));
    }
  }

  /** A report on which the program's own recommendation is beaten: one answerable row that only its
      BM25 score can accept. */
  lemma NegativeThresholdsBeatTheGrid(hash: string -> nat)
    ensures var rows := [Row("q", Some(1.0), Some(2.0), true)];
            var e := Setup(hash, (c: Tally) => RatesOf(c), 1.0);
            var t, u := Thresholds(0.0, Finite(2.0)), Thresholds(-1.0, Finite(2.0));
            && MeetsFloor(rows, t, e) && MeetsFloor(rows, u, e) && Less(KeyOf(rows, e, t), KeyOf(rows, e, u))
  {
    var rows := [Row("q", Some(1.0), Some(2.0), true)];
    var e := Setup(hash, (c: Tally) => RatesOf(c), 1.0);
    var t, u := Thresholds(0.0, Finite(2.0)), Thresholds(-1.0, Finite(2.0));
    assert rows[..0] == [] && TallyOf(rows, t) == Tally(1, 0, 0, 0);
    SmallerUnusedDistanceWins(rows, e, t, u);
  }

  // ----- What decisions, rates and the key mean

  /** Each threshold alone: a distance is accepted up to the one, a score from the other on, a missing
      signal or an infinite bound never; a row is accepted for either of its signals. */
  lemma AcceptsExactly(row: Row, x: real, b: Bound)
    ensures row.bm25.None? || b.Infinity? ==>
              (Accepts(row, Thresholds(x, b)) <==> exists d :: row.distance == Some(d) && d <= x)
    ensures row.distance.None? ==>
              (Accepts(row, Thresholds(x, b)) <==> exists s, y :: row.bm25 == Some(s) && b == Finite(y) && y <= s)
    ensures Accepts(row, Thresholds(x, b)) <==>
            Accepts(row.(bm25 := None), Thresholds(x, b)) || Accepts(row.(distance := None), Thresholds(x, b))
  {
  }

  function OfClass(rows: seq<Row>, answerable: bool): set<nat> {
    set i | 0 <= i < |rows| && rows[i].answerable == answerable
  }

  /** The rows of a class that are decided one way. */
  function Decided(rows: seq<Row>, t: Thresholds, answerable: bool, accepted: bool): set<nat> {
    set i | 0 <= i < |rows| && rows[i].answerable == answerable && Accepts(rows[i], t) == accepted
  }

  lemma DecidedStep(rows: seq<Row>, row: Row, t: Thresholds, answerable: bool, accepted: bool)
    ensures |Decided(rows + [row], t, answerable, accepted)|
            == |Decided(rows, t, answerable, accepted)| + if row.answerable == answerable && Accepts(row, t) == accepted then 1 else 0
  {
    var more, before := Decided(rows + [row], t, answerable, accepted), Decided(rows, t, answerable, accepted);
    if row.answerable == answerable && Accepts(row, t) == accepted {
      assert more == before + {|rows|};
    } else {
      assert more == before;
    }
  }

  /** Each cell of the confusion matrix is the number of rows of one class decided one way. */
  lemma {:induction false} TallyCountsRows(rows: seq<Row>, t: Thresholds)
    ensures var c := TallyOf(rows, t);
            && c.tp == |Decided(rows, t, true, true)| && c.fn == |Decided(rows, t, true, false)|
            && c.fp == |Decided(rows, t, false, true)| && c.tn == |Decided(rows, t, false, false)|
            && c.tp + c.tn + c.fp + c.fn == |rows|
  {
    if rows != [] {
      var front, row := rows[..|rows| - 1], rows[|rows| - 1];
      TallyCountsRows(front, t);
      assert rows == front + [row];
      DecidedStep(front, row, t, true, true);
      DecidedStep(front, row, t, true, false);
      DecidedStep(front, row, t, false, true);
      DecidedStep(front, row, t, false, false);
    }
  }

  lemma ClassIsDecided(rows: seq<Row>, t: Thresholds, answerable: bool)
    ensures |OfClass(rows, answerable)| == |Decided(rows, t, answerable, true)| + |Decided(rows, t, answerable, false)|
  {
    assert OfClass(rows, answerable) == Decided(rows, t, answerable, true) + Decided(rows, t, answerable, false);
  }

  /** `hit` and `miss` are the shares of a class that are decided the one way and the other. */
  predicate SharesOf(hit: real, miss: real, hits: nat, misses: nat, total: nat) {
    && hit * total as real == hits as real && miss * total as real == misses as real
    && (if total > 0 then miss == 1.0 - hit else hit == 0.0 && miss == 0.0)
  }

  lemma WholeIsOne(x: real, y: real, a: real, b: real, n: real)
    requires n > 0.0 && a + b == n && x * n == a && y * n == b
    ensures x + y == 1.0
  {
    SumTimes(x, y, n);
    CompareByProduct(x + y, 1.0, n);
    CompareByProduct(1.0, x + y, n);
  }

  lemma RatioShares(a: nat, b: nat)
    ensures SharesOf(Ratio(a, a + b), Ratio(b, b + a), a, b, a + b)
  {
    if a + b > 0 {
      TimesWhole(a, a + b);
      TimesWhole(b, a + b);
      assert Ratio(a, a + b) == Fraction(a, a + b) && Ratio(b, b + a) == Fraction(b, a + b);
      WholeIsOne(Ratio(a, a + b), Ratio(b, b + a), a as real, b as real, (a + b) as real);
    }
  }

  /** What the rates say of the rows: the acceptance rate is the share of the answerable rows that are
      accepted and the false reject rate the rest of them; the abstention rate is the share of the
      unanswerable rows that are rejected and the false accept rate the rest of them. */
  predicate Measures(r: Rates, rows: seq<Row>, t: Thresholds) {
    && r.samples == |rows|
    && SharesOf(r.acceptance, r.falseReject, |Decided(rows, t, true, true)|, |Decided(rows, t, true, false)|, |OfClass(rows, true)|)
    && SharesOf(r.abstention, r.falseAccept, |Decided(rows, t, false, false)|, |Decided(rows, t, false, true)|, |OfClass(rows, false)|)
    && 2.0 * r.balanced == r.acceptance + r.abstention
  }

  lemma RatesMeasure(rows: seq<Row>, t: Thresholds)
    ensures Measures(RatesOf(TallyOf(rows, t)), rows, t)
  {
    TallyCountsRows(rows, t);
    ClassIsDecided(rows, t, true);
    ClassIsDecided(rows, t, false);
    var c := TallyOf(rows, t);
    RatioShares(c.tp, c.fn);
    RatioShares(c.tn, c.fp);
  }

  /** The folds deal out the rows: each row goes, as often as it occurs, into the fold of its hash. */
  lemma {:induction false} FoldsDealRows(rows: seq<Row>, i: nat, e: Setup, row: Row)
    ensures multiset(FoldRows(rows, i, e))[row] == if e.hash(row.id) % FOLDS == i then multiset(rows)[row] else 0
  {
    if rows != [] {
      FoldsDealRows(rows[..|rows| - 1], i, e, row);
      assert rows == rows[..|rows| - 1] + [rows[|rows| - 1]];
    }
  }

  lemma {:induction false} MinIsLeast(xs: seq<real>)
    requires xs != []
    ensures MinOf(xs) in xs && forall x | x in xs :: MinOf(xs) <= x
  {
    if |xs| > 1 {
      MinIsLeast(xs[..|xs| - 1]);
      assert xs == xs[..|xs| - 1] + [xs[|xs| - 1]];
    }
  }

  lemma SumOfFive(xs: seq<real>)
    requires |xs| == 5
    ensures SumOf(xs) == xs[0] + xs[1] + xs[2] + xs[3] + xs[4]
  {
    assert SumOf(xs[..1]) == xs[0];
    assert xs[..2][..1] == xs[..1] && SumOf(xs[..2]) == xs[0] + xs[1];
    assert xs[..3][..2] == xs[..2] && SumOf(xs[..3]) == xs[0] + xs[1] + xs[2];
    assert xs[..4][..3] == xs[..3] && SumOf(xs[..4]) == xs[0] + xs[1] + xs[2] + xs[3];
  }

  /** What the key says of a pair: its worst fold, the mean over the folds, and the error rates over
      all rows and the distance threshold, which count against it. */
  ghost predicate KeyMeans(k: Key, rows: seq<Row>, e: Setup, t: Thresholds) {
    && (exists i | 0 <= i < FOLDS :: k.worst == Balanced(rows, i, e, t))
    && (forall i | 0 <= i < FOLDS :: k.worst <= Balanced(rows, i, e, t))
    && 5.0 * k.mean == Balanced(rows, 0, e, t) + Balanced(rows, 1, e, t) + Balanced(rows, 2, e, t) + Balanced(rows, 3, e, t) + Balanced(rows, 4, e, t)
    && k.accept + e.measure(TallyOf(rows, t)).falseAccept == 0.0
    && k.reject + e.measure(TallyOf(rows, t)).falseReject == 0.0
    && k.distance + t.maxDistance == 0.0
  }

  lemma KeyOfMeans(rows: seq<Row>, e: Setup, t: Thresholds)
    ensures KeyMeans(KeyOf(rows, e, t), rows, e, t)
  {
    var balances := Balances(rows, e, t);
    MinIsLeast(balances);
    SumOfFive(balances);
    forall i | 0 <= i < FOLDS
      ensures MinOf(balances) <= Balanced(rows, i, e, t)
    {
      assert balances[i] in balances;
    }
  }

  /** A key that is not less is better in the first component where the two differ. */
  predicate NoWorse(k: Key, l: Key) {
    && l.worst <= k.worst
    && (l.worst == k.worst ==>
          && l.mean <= k.mean
          && (l.mean == k.mean ==>
                && l.accept <= k.accept
                && (l.accept == k.accept ==>
                      && l.reject <= k.reject
                      && (l.reject == k.reject ==> l.distance <= k.distance))))
  }

  lemma NotLessIsNoWorse(k: Key, l: Key)
    ensures NoWorse(k, l) <==> !Less(k, l)
  {
  }

  lemma RatioInRange(a: nat, b: nat)
    requires a <= b
    ensures 0.0 <= Ratio(a, b) <= 1.0
  {
  }

  lemma RatesInRange(c: Tally)
    ensures var r := RatesOf(c);
            && 0.0 <= r.acceptance <= 1.0 && 0.0 <= r.abstention <= 1.0 && 0.0 <= r.balanced <= 1.0
            && 0.0 <= r.falseAccept <= 1.0 && 0.0 <= r.falseReject <= 1.0
  {
    RatioInRange(c.tp, c.tp + c.fn);
    RatioInRange(c.tn, c.tn + c.fp);
    RatioInRange(c.fp, c.fp + c.tn);
    RatioInRange(c.fn, c.fn + c.tp);
  }

  /** A pair that accepts more accepts no fewer answerable rows, of which there are equally many. */
  lemma {:induction false} WiderAcceptsMore(rows: seq<Row>, u: Thresholds, t: Thresholds)
    requires u.maxDistance <= t.maxDistance && u.minBm25 == t.minBm25
    ensures var c, d := TallyOf(rows, u), TallyOf(rows, t);
            c.tp <= d.tp && c.tp + c.fn == d.tp + d.fn
  {
    if rows != [] {
      WiderAcceptsMore(rows[..|rows| - 1], u, t);
    }
  }

  lemma RatioGrows(a: nat, b: nat, n: nat)
    requires a <= b
    ensures Ratio(a, n) <= Ratio(b, n)
  {
  }

  /** By the program's own rates, no pair at all meets a floor that no non-negative distance meets. */
  lemma NobodyMeetsFloor(rows: seq<Row>, e: Setup)
    requires forall c :: e.measure(c) == RatesOf(c)
    requires forall u | Competes(rows, u) :: !MeetsFloor(rows, u, e)
    ensures forall u :: !MeetsFloor(rows, u, e)
  {
    forall u
      ensures !MeetsFloor(rows, u, e)
    {
      if !Competes(rows, u) {
        var zero := Thresholds(0.0, u.minBm25);
        assert Competes(rows, zero) && !MeetsFloor(rows, zero, e);
        WiderAcceptsMore(rows, u, zero);
        var c, d := TallyOf(rows, u), TallyOf(rows, zero);
        RatioGrows(c.tp, d.tp, d.tp + d.fn);
      }
    }
  }

  /** What the program calibrates with: its own rates. */
  function ReportSetup(hash: string -> nat, floor: real): (e: Setup)
    ensures e.hash == hash && e.floor == floor && forall c :: e.measure(c) == RatesOf(c)
  {
    Setup(hash, (c: Tally) => RatesOf(c), floor)
  }

  /** No pair with a non-negative distance that meets the floor is better. */
  ghost predicate BestOfNonNegative(rows: seq<Row>, e: Setup, t: Thresholds) {
    forall u: Thresholds | u.maxDistance >= 0.0 && MeetsFloor(rows, u, e) :: NoWorse(KeyOf(rows, e, t), KeyOf(rows, e, u))
  }

  /** What the search shows of its recommendation. */
  lemma RecommendationIsBest(rows: seq<Row>, e: Setup, t: Thresholds)
    requires BestOfCompeting(rows, e, t) && MeetsFloor(rows, t, e)
    ensures BestOfNonNegative(rows, e, t)
    ensures BestOfAll(rows, e, t) <==> DistanceHelps(rows, e)
    ensures AllDistancesPositive(rows) ==> (BestOfAll(rows, e, t) <==> UsesDistance(rows, t))
  {
    forall u: Thresholds | u.maxDistance >= 0.0 && MeetsFloor(rows, u, e)
      ensures NoWorse(KeyOf(rows, e, t), KeyOf(rows, e, u))
    {
      assert Competes(rows, u);
      NotLessIsNoWorse(KeyOf(rows, e, t), KeyOf(rows, e, u));
    }
    BestOfAllExactly(rows, e, t);
    if AllDistancesPositive(rows) {
      BestOfPositiveExactly(rows, e, t);
    }
  }

  /** The reported rates are the rates of the rows and of each fold's rows under the recommended pair. */
  ghost predicate ReportsRates(t: Thresholds, overall: Rates, folds: seq<Rates>, rows: seq<Row>, e: Setup) {
    && Measures(overall, rows, t) && overall.acceptance >= e.floor
    && |folds| == FOLDS && forall k | 0 <= k < FOLDS :: Measures(folds[k], FoldRows(rows, k, e), t)
  }

  /** What the report promises: true rates, and no better pair with a non-negative distance; when also no
      negative one is better. */
  ghost predicate Recommends(r: Outcome, rows: seq<Row>, e: Setup)
    requires r.Recommended?
  {
    && ReportsRates(r.t, r.overall, r.folds, rows, e)
    && BestOfNonNegative(rows, e, r.t)
    && (BestOfAll(rows, e, r.t) <==> DistanceHelps(rows, e))
    && (AllDistancesPositive(rows) ==> (BestOfAll(rows, e, r.t) <==> UsesDistance(rows, r.t)))
  }

  lemma OptimalIsMeasured(r: Outcome, rows: seq<Row>, e: Setup)
    requires r.Recommended? && Optimal(r, rows, e) && forall c :: e.measure(c) == RatesOf(c)
    ensures ReportsRates(r.t, r.overall, r.folds, rows, e)
  {
    RatesMeasure(rows, r.t);
    forall k | 0 <= k < FOLDS
      ensures Measures(r.folds[k], FoldRows(rows, k, e), r.t)
    {
      RatesMeasure(FoldRows(rows, k, e), r.t);
    }
  }

  lemma OptimalIsRecommended(r: Outcome, rows: seq<Row>, e: Setup)
    requires r.Recommended? && Optimal(r, rows, e) && forall c :: e.measure(c) == RatesOf(c)
    ensures Recommends(r, rows, e)
  {
    RecommendationIsBest(rows, e, r.t);
    OptimalIsMeasured(r, rows, e);
  }

  /** The program's calibration: the generic search with the program's own rates. */
  method CalibrateReport(rows: seq<Row>, hash: string -> nat, floor: real) returns (r: Outcome, e: Setup)
    ensures e == ReportSetup(hash, floor)
    ensures r.InvalidFloor? <==> !(0.0 <= floor <= 1.0)
    ensures r.Recommended? ==> Recommends(r, rows, e)
    ensures r.NoPair? ==> forall u :: !MeetsFloor(rows, u, e)
  {
    e := ReportSetup(hash, floor);
    r := Calibrate(rows, e);
    if r.Recommended? {
      OptimalIsRecommended(r, rows, e);
    } else if r.NoPair? {
      NobodyMeetsFloor(rows, e);
    }
  }
}
