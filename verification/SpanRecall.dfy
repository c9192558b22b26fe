/** Gold-span recall: how much of each annotated requirement the kept intervals contain. */
module SpanRecall {
  import opened Wrappers
  import opened Fractions

  /** A half-open interval of one chunk. */
  datatype Span = Span(chunk: string, start: nat, end: nat)

  /** An interval as it is given: stripped chunk name, offsets where they are usable numbers. */
  datatype RawSpan = RawSpan(chunk: string, start: Option<nat>, end: Option<nat>)

  datatype Requirement = Requirement(id: string, spans: seq<RawSpan>)

  predicate Usable(r: RawSpan) {
    r.chunk != "" && r.start.Some? && r.end.Some? && r.start.value < r.end.value
  }

  function Clean(r: RawSpan): Span
    requires Usable(r)
  {
    Span(r.chunk, r.start.value, r.end.value)
  }

  /** The usable intervals, in order. */
  function Kept(raw: seq<RawSpan>): seq<Span> {
    if raw == [] then []
    else Kept(raw[..|raw| - 1]) + if Usable(raw[|raw| - 1]) then [Clean(raw[|raw| - 1])] else []
  }

  function Acceptable(r: Requirement): seq<Span> {
    if r.id == "" then [] else Kept(r.spans)
  }

  /** The alternatives of the requirements that have any. */
  function Annotated(rs: seq<Requirement>): seq<seq<Span>> {
    if rs == [] then []
    else
      var last := Acceptable(rs[|rs| - 1]);
      Annotated(rs[..|rs| - 1]) + if last == [] then [] else [last]
  }

  predicate Proper(s: Span) { s.chunk != "" && s.start < s.end }

  predicate ProperSpans(golds: seq<Span>) {
    forall i | 0 <= i < |golds| :: Proper(golds[i])
  }

  lemma {:induction false} KeptAreProper(raw: seq<RawSpan>)
    ensures ProperSpans(Kept(raw))
  {
    if raw != [] {
      KeptAreProper(raw[..|raw| - 1]);
    }
  }

  /** The kept intervals are exactly the given ones that name a chunk and are not empty. */
  lemma {:induction false} KeptExactly(raw: seq<RawSpan>, chunk: string, start: nat, end: nat)
    ensures Span(chunk, start, end) in Kept(raw) <==> chunk != "" && start < end && RawSpan(chunk, Some(start), Some(end)) in raw
  {
    if raw != [] {
      KeptExactly(raw[..|raw| - 1], chunk, start, end);
      assert raw == raw[..|raw| - 1] + [raw[|raw| - 1]];
    }
  }

  /** Requirements count one by one, each that is named and has a usable interval with all of those. */
  lemma {:induction false} AnnotatedExactly(rs: seq<Requirement>, r: Requirement)
    ensures Annotated([]) == []
    ensures Annotated(rs + [r]) == Annotated(rs) + if r.id != "" && Kept(r.spans) != [] then [Kept(r.spans)] else []
  {
    assert (rs + [r])[..|rs|] == rs;
  }

  lemma {:induction false} AnnotatedAreProper(rs: seq<Requirement>)
    ensures forall i | 0 <= i < |Annotated(rs)| :: Annotated(rs)[i] != [] && ProperSpans(Annotated(rs)[i])
  {
    if rs != [] {
      AnnotatedAreProper(rs[..|rs| - 1]);
      KeptAreProper(rs[|rs| - 1].spans);
    }
  }

  // ----- One gold interval against one kept interval

  function Min(a: int, b: int): int { if a < b then a else b }

  function Max(a: int, b: int): int { if a < b then b else a }

  function MaxReal(a: real, b: real): real { if a < b then b else a }

  function Overlap(gold: Span, kept: Span): nat {
    if gold.chunk != kept.chunk then 0 else Max(0, Min(gold.end, kept.end) - Max(gold.start, kept.start))
  }

  function Ratio(gold: Span, kept: Span): real
    requires Proper(gold)
  {
    Fraction(Overlap(gold, kept), gold.end - gold.start)
  }

  /** The interval lies inside the other, in the same chunk. */
  predicate Inside(a: Span, b: Span) {
    a.chunk == b.chunk && b.start <= a.start && a.end <= b.end
  }

  function Interval(lo: int, hi: int): (r: set<int>)
    ensures forall i :: i in r <==> lo <= i < hi
    decreases hi - lo
  {
    if lo < hi then Interval(lo, hi - 1) + {hi - 1} else {}
  }

  lemma {:induction false} IntervalSize(lo: int, hi: int)
    ensures |Interval(lo, hi)| == Max(0, hi - lo)
    decreases hi - lo
  {
    if lo < hi {
      IntervalSize(lo, hi - 1);
    }
  }

  /** The positions of the gold interval that the kept interval holds. */
  function Shared(gold: Span, kept: Span): set<int> {
    if gold.chunk == kept.chunk then Interval(gold.start, gold.end) * Interval(kept.start, kept.end) else {}
  }

  lemma OverlapCounts(gold: Span, kept: Span)
    ensures Overlap(gold, kept) == |Shared(gold, kept)|
  {
    var lo, hi := Max(gold.start, kept.start), Min(gold.end, kept.end);
    IntervalSize(lo, hi);
    assert Interval(gold.start, gold.end) * Interval(kept.start, kept.end) == Interval(lo, hi);
  }

  /** The ratio is the number of gold positions that are kept, over the length of the gold interval. */
  lemma RatioCounts(gold: Span, kept: Span)
    requires Proper(gold)
    ensures Ratio(gold, kept) == Fraction(|Shared(gold, kept)|, |Interval(gold.start, gold.end)|)
  {
    OverlapCounts(gold, kept);
    IntervalSize(gold.start, gold.end);
  }

  lemma RatioLaws(gold: Span, kept: Span)
    requires Proper(gold)
    ensures 0.0 <= Ratio(gold, kept) <= 1.0
    ensures Ratio(gold, kept) == 1.0 <==> Inside(gold, kept)
    ensures gold.chunk != kept.chunk ==> Ratio(gold, kept) == 0.0
  {
    FractionEnds(Overlap(gold, kept), gold.end - gold.start);
  }

  lemma RatioGrows(gold: Span, a: Span, b: Span)
    requires Proper(gold) && Inside(a, b)
    ensures Ratio(gold, a) <= Ratio(gold, b)
  {
    FractionGrows(Overlap(gold, a), Overlap(gold, b), gold.end - gold.start);
  }

  // ----- The best of one requirement

  predicate AtLeastAll(b: real, golds: seq<Span>, kept: seq<Span>)
    requires ProperSpans(golds)
  {
    forall i, j | 0 <= i < |golds| && 0 <= j < |kept| :: Ratio(golds[i], kept[j]) <= b
  }

  predicate Attained(b: real, golds: seq<Span>, kept: seq<Span>)
    requires ProperSpans(golds)
  {
    b == 0.0 || exists i, j | 0 <= i < |golds| && 0 <= j < |kept| :: Ratio(golds[i], kept[j]) == b
  }

  /** `b` is the largest fraction of an alternative that one kept interval contains, 0 if none. */
  predicate IsBest(b: real, golds: seq<Span>, kept: seq<Span>)
    requires ProperSpans(golds)
  {
    0.0 <= b && AtLeastAll(b, golds, kept) && Attained(b, golds, kept)
  }

  lemma BestIsUnique(b: real, c: real, golds: seq<Span>, kept: seq<Span>)
    requires ProperSpans(golds)
    requires IsBest(b, golds, kept) && IsBest(c, golds, kept)
    ensures b == c
  {
  }

  predicate InsideSome(x: Span, more: seq<Span>) {
    exists k | 0 <= k < |more| :: Inside(x, more[k])
  }

  /** Every interval of the first list lies inside one of the second. */
  predicate CoveredBy(few: seq<Span>, more: seq<Span>) {
    forall j | 0 <= j < |few| :: InsideSome(few[j], more)
  }

  lemma BestGrows(b: real, c: real, golds: seq<Span>, few: seq<Span>, more: seq<Span>)
    requires ProperSpans(golds)
    requires IsBest(b, golds, few) && IsBest(c, golds, more) && CoveredBy(few, more)
    ensures b <= c
  {
    if b > 0.0 {
      var i, j :| 0 <= i < |golds| && 0 <= j < |few| && Ratio(golds[i], few[j]) == b;
      assert InsideSome(few[j], more);
      var k :| 0 <= k < |more| && Inside(few[j], more[k]);
      RatioGrows(golds[i], few[j], more[k]);
    }
  }

  /** One alternative lies inside one kept interval. */
  predicate Contained(golds: seq<Span>, kept: seq<Span>) {
    exists i, j | 0 <= i < |golds| && 0 <= j < |kept| :: Inside(golds[i], kept[j])
  }

  lemma BestLaws(b: real, golds: seq<Span>, kept: seq<Span>)
    requires ProperSpans(golds)
    requires IsBest(b, golds, kept)
    ensures 0.0 <= b <= 1.0 && (b == 1.0 <==> Contained(golds, kept))
  {
    if b != 0.0 {
      var i, j :| 0 <= i < |golds| && 0 <= j < |kept| && Ratio(golds[i], kept[j]) == b;
      RatioLaws(golds[i], kept[j]);
    }
    if Contained(golds, kept) {
      var i, j :| 0 <= i < |golds| && 0 <= j < |kept| && Inside(golds[i], kept[j]);
      RatioLaws(golds[i], kept[j]);
    }
  }

  // ----- The mean

  function Sum(xs: seq<real>): real {
    if xs == [] then 0.0 else Sum(xs[..|xs| - 1]) + xs[|xs| - 1]
  }

  lemma {:induction false} SumParts(xs: seq<real>, ys: seq<real>, x: real)
    ensures Sum(xs + ys) == Sum(xs) + Sum(ys) && Sum([x]) == x
  {
    if ys == [] {
      assert xs + ys == xs;
    } else {
      SumParts(xs, ys[..|ys| - 1], x);
      assert (xs + ys)[..|xs + ys| - 1] == xs + ys[..|ys| - 1];
    }
    assert [x][..0] == [];
  }

  predicate InUnit(xs: seq<real>) {
    forall i | 0 <= i < |xs| :: 0.0 <= xs[i] <= 1.0
  }

  lemma {:induction false} SumLaws(xs: seq<real>)
    requires InUnit(xs)
    ensures 0.0 <= Sum(xs) <= |xs| as real
    ensures Sum(xs) == |xs| as real <==> forall i | 0 <= i < |xs| :: xs[i] == 1.0
  {
    if xs != [] {
      SumLaws(xs[..|xs| - 1]);
    }
  }

  lemma {:induction false} SumGrows(xs: seq<real>, ys: seq<real>)
    requires |xs| == |ys| && forall i | 0 <= i < |xs| :: xs[i] <= ys[i]
    ensures Sum(xs) <= Sum(ys)
  {
    if xs != [] {
      SumGrows(xs[..|xs| - 1], ys[..|ys| - 1]);
    }
  }

  /** The scores are the bests of the annotated requirements, in order. */
  predicate Scores(xs: seq<real>, annotated: seq<seq<Span>>, kept: seq<Span>)
    requires forall i | 0 <= i < |annotated| :: ProperSpans(annotated[i])
  {
    |xs| == |annotated| && forall i | 0 <= i < |xs| :: IsBest(xs[i], annotated[i], kept)
  }

  lemma {:induction false} ScoreLaws(xs: seq<real>, annotated: seq<seq<Span>>, kept: seq<Span>)
    requires annotated != [] && (forall i | 0 <= i < |annotated| :: ProperSpans(annotated[i])) && Scores(xs, annotated, kept)
    ensures 0.0 <= Mean(Sum(xs), |annotated|) <= 1.0
    ensures Mean(Sum(xs), |annotated|) == 1.0 <==> forall i | 0 <= i < |annotated| :: Contained(annotated[i], kept)
  {
    forall i | 0 <= i < |xs|
      ensures 0.0 <= xs[i] <= 1.0 && (xs[i] == 1.0 <==> Contained(annotated[i], kept))
    {
      BestLaws(xs[i], annotated[i], kept);
    }
    SumLaws(xs);
    MeanEnds(Sum(xs), |annotated|);
  }

  lemma {:induction false} ScoresGrow(xs: seq<real>, ys: seq<real>, annotated: seq<seq<Span>>, few: seq<Span>, more: seq<Span>)
    requires annotated != [] && forall i | 0 <= i < |annotated| :: ProperSpans(annotated[i])
    requires Scores(xs, annotated, few) && Scores(ys, annotated, more) && CoveredBy(few, more)
    ensures Mean(Sum(xs), |annotated|) <= Mean(Sum(ys), |annotated|)
  {
    forall i | 0 <= i < |xs|
      ensures xs[i] <= ys[i]
    {
      BestGrows(xs[i], ys[i], annotated[i], few, more);
    }
    SumGrows(xs, ys);
    MeanGrows(Sum(xs), Sum(ys), |annotated|);
  }

  // ----- The computation

  /** The usable intervals, as the loops collect them. */
  method CollectSpans(raw: seq<RawSpan>) returns (spans: seq<Span>)
    ensures spans == Kept(raw)
  {
    spans := [];
    for i := 0 to |raw|
      invariant spans == Kept(raw[..i])
    {
      assert raw[..i + 1][..i] == raw[..i];
      if Usable(raw[i]) {
        spans := spans + [Clean(raw[i])];
      }
    }
    assert raw[..|raw|] == raw;
  }

  method AcceptableGoldSpans(r: Requirement) returns (spans: seq<Span>)
    ensures spans == Acceptable(r) && ProperSpans(spans)
  {
    spans := [];
    if r.id != "" {
      spans := CollectSpans(r.spans);
      KeptAreProper(r.spans);
    }
  }

  method CollectAnnotated(rs: seq<Requirement>) returns (annotated: seq<seq<Span>>)
    ensures annotated == Annotated(rs)
  {
    annotated := [];
    for i := 0 to |rs|
      invariant annotated == Annotated(rs[..i])
    {
      assert rs[..i + 1][..i] == rs[..i];
      var spans := AcceptableGoldSpans(rs[i]);
      if spans != [] {
        annotated := annotated + [spans];
      }
    }
    assert rs[..|rs|] == rs;
  }

  type Groups = map<string, seq<Span>>

  /** Each chunk's intervals are exactly the kept ones of that chunk. */
  predicate Grouped(groups: Groups, kept: seq<Span>) {
    && (forall c | c in groups :: forall x | x in groups[c] :: x in kept && x.chunk == c)
    && forall x | x in kept :: x.chunk in groups && x in groups[x.chunk]
  }

  function AddToGroup(groups: Groups, x: Span): Groups {
    groups[x.chunk := (if x.chunk in groups then groups[x.chunk] else []) + [x]]
  }

  lemma AddKeepsGrouped(groups: Groups, kept: seq<Span>, x: Span)
    requires Grouped(groups, kept)
    ensures Grouped(AddToGroup(groups, x), kept + [x])
  {
  }

  method GroupByChunk(items: seq<RawSpan>) returns (groups: Groups)
    ensures Grouped(groups, Kept(items))
  {
    groups := map[];
    for i := 0 to |items|
      invariant Grouped(groups, Kept(items[..i]))
    {
      assert items[..i + 1][..i] == items[..i];
      if Usable(items[i]) {
        AddKeepsGrouped(groups, Kept(items[..i]), Clean(items[i]));
        groups := AddToGroup(groups, Clean(items[i]));
      }
    }
    assert items[..|items|] == items;
  }

  /** The best of one gold interval over its chunk is at least its ratio with any kept interval. */
  method BestOverGroup(gold: Span, group: seq<Span>, start: real) returns (best: real)
    requires Proper(gold)
    ensures start <= best && (best == start || exists j | 0 <= j < |group| :: Ratio(gold, group[j]) == best)
    ensures forall j | 0 <= j < |group| :: Ratio(gold, group[j]) <= best
  {
    best := start;
    for k := 0 to |group|
      invariant start <= best && (best == start || exists j | 0 <= j < k :: Ratio(gold, group[j]) == best)
      invariant forall j | 0 <= j < k :: Ratio(gold, group[j]) <= best
    {
      best := MaxReal(best, Ratio(gold, group[k]));
    }
  }

  lemma {:induction false} GroupBoundsAll(best: real, gold: Span, groups: Groups, kept: seq<Span>)
    requires Proper(gold) && Grouped(groups, kept) && 0.0 <= best
    requires gold.chunk in groups ==> forall x | x in groups[gold.chunk] :: Ratio(gold, x) <= best
    ensures forall j | 0 <= j < |kept| :: Ratio(gold, kept[j]) <= best
  {
    forall j | 0 <= j < |kept|
      ensures Ratio(gold, kept[j]) <= best
    {
      RatioLaws(gold, kept[j]);
      assert kept[j] in kept;
    }
  }

  /** The scores of one more alternative, over the intervals of its chunk alone. */
  method BestOfNext(golds: seq<Span>, k: nat, groups: Groups, start: real, ghost kept: seq<Span>) returns (best: real)
    requires ProperSpans(golds) && k < |golds| && Grouped(groups, kept) && 0.0 <= start
    ensures start <= best && forall j | 0 <= j < |kept| :: Ratio(golds[k], kept[j]) <= best
    ensures best == start || exists j | 0 <= j < |kept| :: Ratio(golds[k], kept[j]) == best
  {
    var group := if golds[k].chunk in groups then groups[golds[k].chunk] else [];
    best := BestOverGroup(golds[k], group, start);
    GroupBoundsAll(best, golds[k], groups, kept);
    if best != start {
      ghost var i :| 0 <= i < |group| && Ratio(golds[k], group[i]) == best;
      assert group[i] in kept;
      ghost var m :| 0 <= m < |kept| && kept[m] == group[i];
    }
  }

  lemma {:induction false} BestStep(start: real, best: real, golds: seq<Span>, k: nat, kept: seq<Span>)
    requires ProperSpans(golds) && k < |golds| && IsBest(start, golds[..k], kept)
    requires start <= best && forall j | 0 <= j < |kept| :: Ratio(golds[k], kept[j]) <= best
    requires best == start || exists j | 0 <= j < |kept| :: Ratio(golds[k], kept[j]) == best
    ensures IsBest(best, golds[..k + 1], kept)
  {
    var now := golds[..k + 1];
    assert now[k] == golds[k] && forall i | 0 <= i < k :: now[i] == golds[..k][i];
    if best == start && start != 0.0 {
      var i, j :| 0 <= i < k && 0 <= j < |kept| && Ratio(golds[..k][i], kept[j]) == start;
      assert Ratio(now[i], kept[j]) == best;
    } else if best != start {
      var j :| 0 <= j < |kept| && Ratio(golds[k], kept[j]) == best;
      assert Ratio(now[k], kept[j]) == best;
    }
  }

  method BestRecall(golds: seq<Span>, groups: Groups, ghost kept: seq<Span>) returns (best: real)
    requires ProperSpans(golds) && Grouped(groups, kept)
    ensures IsBest(best, golds, kept)
  {
    best := 0.0;
    for k := 0 to |golds|
      invariant IsBest(best, golds[..k], kept)
    {
      var more := BestOfNext(golds, k, groups, best, kept);
      BestStep(best, more, golds, k, kept);
      best := more;
    }
    assert golds[..|golds|] == golds;
  }

  /** `r` is the mean of the best scores, or absent when nothing is annotated. */
  ghost predicate IsRecall(r: Option<real>, items: seq<RawSpan>, rs: seq<Requirement>) {
    AnnotatedAreProper(rs);
    var annotated := Annotated(rs);
    if annotated == [] then r == None
    else r.Some? && exists xs: seq<real> | Scores(xs, annotated, Kept(items)) :: r.value == Mean(Sum(xs), |annotated|)
  }

  /** The recall of the kept intervals. */
  method EvidenceSpanGoldRecall(items: seq<RawSpan>, rs: seq<Requirement>) returns (r: Option<real>)
    ensures IsRecall(r, items, rs)
  {
    var annotated := CollectAnnotated(rs);
    AnnotatedAreProper(rs);
    if annotated == [] {
      return None;
    }
    var groups := GroupByChunk(items);
    var scores: seq<real> := [];
    for i := 0 to |annotated|
      invariant Scores(scores, annotated[..i], Kept(items))
    {
      var best := BestRecall(annotated[i], groups, Kept(items));
      scores := scores + [best];
    }
    assert annotated[..|annotated|] == annotated;
    var total := SumOf(scores);
    r := Some(Mean(total, |annotated|));
  }

  method SumOf(xs: seq<real>) returns (total: real)
    ensures total == Sum(xs)
  {
    total := 0.0;
    for i := 0 to |xs|
      invariant total == Sum(xs[..i])
    {
      assert xs[..i + 1][..i] == xs[..i];
      total := total + xs[i];
    }
    assert xs[..|xs|] == xs;
  }

  // ----- What the metric promises

  /** Nothing is reported exactly when no requirement has a usable annotation; otherwise the recall is
      between 0 and 1, and is 1 exactly when every annotated requirement has an alternative inside a
      single kept interval of the same chunk. */
  lemma {:induction false} RecallLaws(r: Option<real>, items: seq<RawSpan>, rs: seq<Requirement>)
    requires IsRecall(r, items, rs)
    ensures r.None? <==> Annotated(rs) == []
    ensures r.Some? ==> 0.0 <= r.value <= 1.0
    ensures r.Some? ==> (r.value == 1.0 <==> forall i | 0 <= i < |Annotated(rs)| :: Contained(Annotated(rs)[i], Kept(items)))
  {
    AnnotatedAreProper(rs);
    var annotated, kept := Annotated(rs), Kept(items);
    if annotated != [] {
      var xs: seq<real> :| Scores(xs, annotated, kept) && r.value == Mean(Sum(xs), |annotated|);
      ScoreLaws(xs, annotated, kept);
    }
  }

  /** When every kept interval of one context lies inside a kept interval of another, the recall of
      the first is no larger: adding items never lowers it, shrinking intervals never raises it. */
  lemma {:induction false} RecallGrows(r: Option<real>, few: seq<RawSpan>, q: Option<real>, more: seq<RawSpan>, rs: seq<Requirement>)
    requires IsRecall(r, few, rs) && IsRecall(q, more, rs) && CoveredBy(Kept(few), Kept(more))
    ensures r.Some? <==> q.Some?
    ensures r.Some? ==> r.value <= q.value
  {
    AnnotatedAreProper(rs);
    var annotated := Annotated(rs);
    if annotated != [] {
      var xs: seq<real> :| Scores(xs, annotated, Kept(few)) && r.value == Mean(Sum(xs), |annotated|);
      var ys: seq<real> :| Scores(ys, annotated, Kept(more)) && q.value == Mean(Sum(ys), |annotated|);
      ScoresGrow(xs, ys, annotated, Kept(few), Kept(more));
    }
  }

  lemma {:induction false} KeptConcat(a: seq<RawSpan>, b: seq<RawSpan>)
    ensures Kept(a + b) == Kept(a) + Kept(b)
  {
    if b == [] {
      assert a + b == a;
    } else {
      KeptConcat(a, b[..|b| - 1]);
      assert (a + b)[..|a + b| - 1] == a + b[..|b| - 1];
    }
  }

  /** Adding context items, anywhere, never lowers the recall. */
  lemma {:induction false} AddingItemsHelps(r: Option<real>, a: seq<RawSpan>, b: seq<RawSpan>, added: seq<RawSpan>, q: Option<real>, rs: seq<Requirement>)
    requires IsRecall(r, a + b, rs) && IsRecall(q, a + added + b, rs) && r.Some?
    ensures q.Some? && r.value <= q.value
  {
    KeptConcat(a, b);
    KeptConcat(a + added, b);
    KeptConcat(a, added);
    InsertionCovers(Kept(a), Kept(added), Kept(b));
    RecallGrows(r, a + b, q, a + added + b, rs);
  }

  lemma InsertionCovers(a: seq<Span>, added: seq<Span>, b: seq<Span>)
    ensures CoveredBy(a + b, a + added + b)
  {
    var few, more := a + b, a + added + b;
    forall j | 0 <= j < |few|
      ensures InsideSome(few[j], more)
    {
      var k := if j < |a| then j else j + |added|;
      assert more[k] == few[j];
      assert Inside(few[j], more[k]);
    }
  }
}
