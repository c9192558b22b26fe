/** Greedy packing of claims into bounded verifier batches, and why it is optimal. */
module ClaimBatches {
  import opened ClaimModel

  /** A claim together with its whole, untrimmed evidence set. */
  datatype Prepared = Prepared(unit: ClaimUnit, allowed: seq<Doc>)

  datatype Batch = Batch(overLimit: bool, claims: seq<Prepared>)

  /** The two limits; a claim limit below one acts like one. */
  datatype Limits = Limits(ledger: bool, maxClaims: int, maxDocs: int) {
    function ClaimLimit(): int {
      if maxClaims < 1 then 1 else maxClaims
    }

    predicate Over(c: Prepared) {
      |Ids(c.allowed, ledger)| > maxDocs
    }

    /** The claims may share one verifier call. */
    predicate Fits(claims: seq<Prepared>) {
      |claims| <= ClaimLimit() && |BatchIds(claims, ledger)| <= maxDocs
    }

    /** What any admissible split may use as one batch: an over-limit claim alone,
        or claims that fit together. */
    predicate Feasible(claims: seq<Prepared>) {
      claims != [] && (Fits(claims) || (|claims| == 1 && Over(claims[0])))
    }
  }

  function BatchIds(claims: seq<Prepared>, ledger: bool): set<string> {
    set c, x | c in claims && x in Ids(c.allowed, ledger) :: x
  }

  function Concat<T>(parts: seq<seq<T>>): seq<T> {
    if parts == [] then [] else Concat(parts[..|parts| - 1]) + parts[|parts| - 1]
  }

  function ClaimsOf(batches: seq<Batch>): (r: seq<seq<Prepared>>)
    ensures |r| == |batches|
    ensures forall i | 0 <= i < |r| :: r[i] == batches[i].claims
  {
    seq(|batches|, i requires 0 <= i < |batches| => batches[i].claims)
  }

  /** The identities of the retrieved documents that the claim names. */
  function UsableIds(unit: ClaimUnit, docs: seq<Doc>, ledger: bool): set<string> {
    set d | d in docs && MayUse(unit, d) && Identity(d, ledger) != "" :: Identity(d, ledger)
  }

  /** The claim carries its unit and one document for each identity that the unit names, whole. */
  predicate PreparedFrom(claim: Prepared, unit: ClaimUnit, docs: seq<Doc>, ledger: bool) {
    && claim.unit == unit
    && DistinctIds(claim.allowed, ledger)
    && Ids(claim.allowed, ledger) == UsableIds(unit, docs, ledger)
    && (forall d | d in claim.allowed :: d in docs && MayUse(unit, d))
  }

  lemma AllowedIds(unit: ClaimUnit, docs: seq<Doc>, ledger: bool)
    ensures Ids(AllowedDocs(unit, docs), ledger) == UsableIds(unit, docs, ledger)
    ensures forall d :: d in AllowedDocs(unit, docs) <==> d in docs && MayUse(unit, d)
  {
    forall d
      ensures d in AllowedDocs(unit, docs) <==> d in docs && MayUse(unit, d)
    {
      AllowedDocsExactly(unit, docs, d);
    }
  }

  /** `claims` are the units in order, each with its whole evidence set. */
  predicate Prepares(claims: seq<Prepared>, units: seq<ClaimUnit>, docs: seq<Doc>, ledger: bool) {
    && |claims| == |units|
    && forall i | 0 <= i < |units| :: PreparedFrom(claims[i], units[i], docs, ledger)
  }

  lemma PreparesAppend(claims: seq<Prepared>, units: seq<ClaimUnit>, i: nat, claim: Prepared, docs: seq<Doc>, ledger: bool)
    requires i < |units|
    requires Prepares(claims, units[..i], docs, ledger) && PreparedFrom(claim, units[i], docs, ledger)
    ensures Prepares(claims + [claim], units[..i + 1], docs, ledger)
  {
  }

  method PrepareClaim(unit: ClaimUnit, docs: seq<Doc>, ledger: bool) returns (claim: Prepared)
    ensures PreparedFrom(claim, unit, docs, ledger)
  {
    var allowed := UniqueAllowedDocs(AllowedDocs(unit, docs), ledger);
    AllowedIds(unit, docs, ledger);
    claim := Prepared(unit, allowed);
  }

  /** The batch could not have taken the first claim of the next one. */
  predicate Blocked(batch: seq<Prepared>, next: seq<Prepared>, limits: Limits) {
    next != [] && !limits.Feasible(batch + [next[0]])
  }

  predicate Maximal(batches: seq<seq<Prepared>>, limits: Limits) {
    forall j | 0 < j < |batches| :: Blocked(batches[j - 1], batches[j], limits)
  }

  lemma BatchIdsMonotone(small: seq<Prepared>, big: seq<Prepared>, ledger: bool)
    requires forall c | c in small :: c in big
    ensures BatchIds(small, ledger) <= BatchIds(big, ledger)
    ensures |BatchIds(small, ledger)| <= |BatchIds(big, ledger)|
  {
    SubsetSize(BatchIds(small, ledger), BatchIds(big, ledger));
  }

  lemma SubsetSize<T>(a: set<T>, b: set<T>)
    requires a <= b
    ensures |a| <= |b|
  {
    assert b == a + (b - a);
  }

  lemma SingletonIds(c: Prepared, ledger: bool)
    ensures BatchIds([c], ledger) == Ids(c.allowed, ledger)
  {
    assert c in [c];
  }

  /** A part of a feasible batch that is still non-empty is feasible. */
  lemma PartIsFeasible(part: seq<Prepared>, whole: seq<Prepared>, limits: Limits)
    requires limits.Feasible(whole) && part != [] && |part| <= |whole|
    requires forall c | c in part :: c in whole
    ensures limits.Feasible(part)
  {
    if limits.Fits(whole) {
      BatchIdsMonotone(part, whole, limits.ledger);
    } else {
      assert part[0] in whole;
      assert part == [whole[0]] == whole;
    }
  }

  function Offset<T>(parts: seq<seq<T>>, j: nat): nat
    requires j <= |parts|
  {
    |Concat(parts[..j])|
  }

  lemma {:induction false} PartIsSlice<T>(parts: seq<seq<T>>, j: nat)
    requires j < |parts|
    ensures Offset(parts, j) <= Offset(parts, j + 1) <= |Concat(parts)|
    ensures Concat(parts)[Offset(parts, j)..Offset(parts, j + 1)] == parts[j]
  {
    var n := |parts|;
    var init := parts[..n - 1];
    assert Concat(parts) == Concat(init) + parts[n - 1];
    if j == n - 1 {
      assert parts[..n] == parts;
    } else {
      PartIsSlice(init, j);
      assert init[..j] == parts[..j];
      assert init[..j + 1] == parts[..j + 1];
    }
  }

  /** A batch that starts no later than a blocked one also ends no later. */
  lemma BlockedBatchEndsLater(all: seq<Prepared>, from: nat, upto: nat, next: seq<Prepared>,
                              otherFrom: nat, otherUpto: nat, limits: Limits)
    requires otherFrom <= from <= upto < |all| && otherFrom <= otherUpto <= |all|
    requires next != [] && next[0] == all[upto]
    requires Blocked(all[from..upto], next, limits)
    requires limits.Feasible(all[otherFrom..otherUpto])
    ensures otherUpto <= upto
  {
    if otherUpto > upto {
      var extended := all[from..upto] + [next[0]];
      forall c | c in extended
        ensures c in all[otherFrom..otherUpto]
      {
        var k :| 0 <= k < |extended| && extended[k] == c;
        assert c == all[from + k] == all[otherFrom..otherUpto][from + k - otherFrom];
      }
      PartIsFeasible(extended, all[otherFrom..otherUpto], limits);
    }
  }

  /** After any number of batches, the maximal packing has covered at least as many
      claims as any other admissible split of the same list. */
  lemma {:induction false} StaysAhead(greedy: seq<seq<Prepared>>, other: seq<seq<Prepared>>, limits: Limits, j: nat)
    requires Concat(greedy) == Concat(other)
    requires Maximal(greedy, limits)
    requires forall b | b in other :: limits.Feasible(b)
    requires j <= |greedy| && j <= |other|
    ensures Offset(other, j) <= Offset(greedy, j)
  {
    if j > 0 {
      StaysAhead(greedy, other, limits, j - 1);
      PartIsSlice(greedy, j - 1);
      PartIsSlice(other, j - 1);
      if j == |greedy| {
        assert greedy[..j] == greedy;
      } else {
        PartIsSlice(greedy, j);
        assert other[j - 1] in other;
        assert Blocked(greedy[j - 1], greedy[j], limits);
        BlockedBatchEndsLater(Concat(greedy), Offset(greedy, j - 1), Offset(greedy, j), greedy[j],
                              Offset(other, j - 1), Offset(other, j), limits);
      }
    }
  }

  /** Greedy packing is optimal: no admissible split of the same claims is shorter. */
  lemma {:induction false} MaximalPackingIsOptimal(greedy: seq<seq<Prepared>>, other: seq<seq<Prepared>>, limits: Limits)
    requires Concat(greedy) == Concat(other)
    requires Maximal(greedy, limits) && forall i | 0 <= i < |greedy| :: greedy[i] != []
    requires forall b | b in other :: limits.Feasible(b)
    ensures |greedy| <= |other|
  {
    if |other| < |greedy| {
      var m := |other|;
      StaysAhead(greedy, other, limits, m);
      assert other[..m] == other;
      PartIsSlice(greedy, m);
    }
  }

  lemma BatchIdsAppend(claims: seq<Prepared>, c: Prepared, ledger: bool)
    ensures BatchIds(claims + [c], ledger) == BatchIds(claims, ledger) + Ids(c.allowed, ledger)
  {
    forall x | x in BatchIds(claims, ledger) + Ids(c.allowed, ledger)
      ensures x in BatchIds(claims + [c], ledger)
    {
      if x in Ids(c.allowed, ledger) {
        assert c in claims + [c];
      } else {
        var e :| e in claims && x in Ids(e.allowed, ledger);
        assert e in claims + [c];
      }
    }
  }

  lemma OverBlocks(claims: seq<Prepared>, c: Prepared, limits: Limits)
    requires c in claims && limits.Over(c) && |claims| >= 2
    ensures !limits.Feasible(claims)
  {
    SingletonIds(c, limits.ledger);
    BatchIdsMonotone([c], claims, limits.ledger);
  }

  /** Appending one batch keeps a packing's claims, shape and maximality. */
  lemma AppendBatch(batches: seq<Batch>, b: Batch, limits: Limits)
    requires Maximal(ClaimsOf(batches), limits)
    requires batches != [] ==> Blocked(batches[|batches| - 1].claims, b.claims, limits)
    ensures Maximal(ClaimsOf(batches + [b]), limits)
    ensures Concat(ClaimsOf(batches + [b])) == Concat(ClaimsOf(batches)) + b.claims
  {
    var parts, more := ClaimsOf(batches), ClaimsOf(batches + [b]);
    assert more == parts + [b.claims];
    assert more[..|more| - 1] == parts;
    forall j | 0 < j < |more|
      ensures Blocked(more[j - 1], more[j], limits)
    {
      if j < |parts| {
        assert Blocked(parts[j - 1], parts[j], limits);
      }
    }
  }

  predicate WellFormed(b: Batch, limits: Limits) {
    && b.claims != []
    && if b.overLimit then |b.claims| == 1 && limits.Over(b.claims[0]) else limits.Fits(b.claims)
  }

  /** The packing so far: closed batches and the batch still open. */
  datatype Packer = Packer(done: seq<Batch>, current: seq<Prepared>)

  function Flush(p: Packer): Packer {
    if p.current == [] then p else Packer(p.done + [Batch(false, p.current)], [])
  }

  function Take(p: Packer, c: Prepared, limits: Limits): Packer {
    if limits.Over(c) then Packer(Flush(p).done + [Batch(true, [c])], [])
    else
      var q := if p.current != [] && !limits.Fits(p.current + [c]) then Flush(p) else p;
      Packer(q.done, q.current + [c])
  }

  function Taken(p: Packer): seq<Prepared> {
    Concat(ClaimsOf(p.done)) + p.current
  }

  ghost predicate Sound(p: Packer, limits: Limits) {
    && Maximal(ClaimsOf(p.done), limits)
    && (forall b | b in p.done :: WellFormed(b, limits))
    && (p.current != [] ==> limits.Fits(p.current))
    && (p.done != [] ==>
          var last := p.done[|p.done| - 1];
          if p.current == [] then last.overLimit else Blocked(last.claims, p.current, limits))
  }

  lemma FlushKeeps(p: Packer, limits: Limits)
    requires Sound(p, limits)
    ensures Taken(Flush(p)) == Taken(p)
    ensures Maximal(ClaimsOf(Flush(p).done), limits)
    ensures forall b | b in Flush(p).done :: WellFormed(b, limits)
  {
    if p.current != [] {
      AppendBatch(p.done, Batch(false, p.current), limits);
    }
  }

  lemma TakeOverKeeps(p: Packer, c: Prepared, limits: Limits)
    requires Sound(p, limits) && limits.Over(c)
    ensures Sound(Take(p, c, limits), limits) && Taken(Take(p, c, limits)) == Taken(p) + [c]
  {
    FlushKeeps(p, limits);
    var done := Flush(p).done;
    if done != [] {
      var last := done[|done| - 1];
      assert last in done;
      OverBlocks(last.claims + [c], c, limits);
    }
    AppendBatch(done, Batch(true, [c]), limits);
  }

  /** The claim opens a batch; what precedes it, if anything, could not have taken it. */
  lemma OpenKeeps(p: Packer, c: Prepared, limits: Limits)
    requires Sound(p, limits) && !limits.Over(c) && p.current == []
    ensures Sound(Take(p, c, limits), limits) && Taken(Take(p, c, limits)) == Taken(p) + [c]
  {
    SingletonIds(c, limits.ledger);
    assert [] + [c] == [c];
    if p.done != [] {
      var last := p.done[|p.done| - 1];
      assert last in p.done;
      OverBlocks(last.claims + [c], last.claims[0], limits);
    }
  }

  /** The claim closes the open batch and opens the next. */
  lemma CloseKeeps(p: Packer, c: Prepared, limits: Limits)
    requires Sound(p, limits) && !limits.Over(c) && p.current != [] && !limits.Fits(p.current + [c])
    ensures Sound(Take(p, c, limits), limits) && Taken(Take(p, c, limits)) == Taken(p) + [c]
  {
    SingletonIds(c, limits.ledger);
    FlushKeeps(p, limits);
    assert [] + [c] == [c];
  }

  lemma TakeKeeps(p: Packer, c: Prepared, limits: Limits)
    requires Sound(p, limits)
    ensures Sound(Take(p, c, limits), limits) && Taken(Take(p, c, limits)) == Taken(p) + [c]
  {
    if limits.Over(c) {
      TakeOverKeeps(p, c, limits);
    } else if p.current == [] {
      OpenKeeps(p, c, limits);
    } else if !limits.Fits(p.current + [c]) {
      CloseKeeps(p, c, limits);
    }
  }

  /** The batches are admissible, and no split of the same claims into admissible batches is shorter. */
  ghost predicate Optimal(batches: seq<Batch>, limits: Limits) {
    && (forall b | b in batches :: limits.Feasible(b.claims))
    && forall other: seq<seq<Prepared>> |
      Concat(other) == Concat(ClaimsOf(batches)) && (forall b | b in other :: limits.Feasible(b)) ::
      |batches| <= |other|
  }

  /** An ordinary batch has one claim or as many as are allowed, and no more documents than are allowed; a
      flagged one is a single claim with too many documents of its own. */
  predicate WithinLimits(b: Batch, limits: Limits) {
    && b.claims != []
    && if b.overLimit then |b.claims| == 1 && |Ids(b.claims[0].allowed, limits.ledger)| > limits.maxDocs
       else (|b.claims| == 1 || |b.claims| <= limits.maxClaims) && |BatchIds(b.claims, limits.ledger)| <= limits.maxDocs
  }

  lemma WellFormedIsWithinLimits(b: Batch, limits: Limits)
    ensures WellFormed(b, limits) <==> WithinLimits(b, limits)
    ensures WellFormed(b, limits) ==> limits.Feasible(b.claims)
  {
  }

  lemma PackingIsOptimal(batches: seq<Batch>, limits: Limits)
    requires Maximal(ClaimsOf(batches), limits)
    requires forall b | b in batches :: WellFormed(b, limits)
    ensures Optimal(batches, limits) && forall b | b in batches :: WithinLimits(b, limits)
  {
    assert forall i | 0 <= i < |batches| :: batches[i] in batches;
    forall b | b in batches
      ensures limits.Feasible(b.claims) && WithinLimits(b, limits)
    {
      WellFormedIsWithinLimits(b, limits);
    }
    forall other: seq<seq<Prepared>> |
      Concat(other) == Concat(ClaimsOf(batches)) && (forall b | b in other :: limits.Feasible(b))
      ensures |batches| <= |other|
    {
      MaximalPackingIsOptimal(ClaimsOf(batches), other, limits);
    }
  }

  lemma PackedIsOptimal(p: Packer, limits: Limits)
    requires Sound(p, limits)
    ensures Concat(ClaimsOf(Flush(p).done)) == Taken(p) && Optimal(Flush(p).done, limits)
    ensures forall b | b in Flush(p).done :: WellFormed(b, limits) && WithinLimits(b, limits)
  {
    FlushKeeps(p, limits);
    PackingIsOptimal(Flush(p).done, limits);
    assert Taken(Flush(p)) == Concat(ClaimsOf(Flush(p).done));
  }

  lemma FitsAppend(claims: seq<Prepared>, c: Prepared, limits: Limits)
    requires claims != []
    ensures limits.Fits(claims + [c]) <==>
            |claims| < limits.maxClaims && |BatchIds(claims, limits.ledger) + Ids(c.allowed, limits.ledger)| <= limits.maxDocs
  {
    BatchIdsAppend(claims, c, limits.ledger);
  }

  /** One turn of the packing loop: closes the open batch when the claim cannot join it. */
  method PlaceClaim(batches: seq<Batch>, current: seq<Prepared>, currentIds: set<string>, claim: Prepared, limits: Limits)
    returns (batches': seq<Batch>, current': seq<Prepared>, currentIds': set<string>)
    requires currentIds == BatchIds(current, limits.ledger)
    ensures Packer(batches', current') == Take(Packer(batches, current), claim, limits)
    ensures currentIds' == BatchIds(current', limits.ledger)
  {
    batches', current', currentIds' := batches, current, currentIds;
    var allowedIds := Ids(claim.allowed, limits.ledger);
    if current != [] { FitsAppend(current, claim, limits); }
    if |allowedIds| > limits.maxDocs {
      if current != [] {
        batches', current', currentIds' := batches' + [Batch(false, current)], [], {};
      }
      batches' := batches' + [Batch(true, [claim])];
    } else {
      if current != [] && (|current| >= limits.maxClaims || |currentIds + allowedIds| > limits.maxDocs) {
        batches', current', currentIds' := batches' + [Batch(false, current)], [], {};
      }
      BatchIdsAppend(current', claim, limits.ledger);
      current' := current' + [claim];
      currentIds' := currentIds' + allowedIds;
    }
    assert current == [] ==> Flush(Packer(batches, current)).done == batches;
  }

  /** Packs the claims greedily. Nothing is lost, reordered or trimmed; over-limit claims
      stand alone and are flagged; every other batch obeys both limits; and no admissible
      split uses fewer batches. */
  method PackClaims(units: seq<ClaimUnit>, docs: seq<Doc>, limits: Limits) returns (batches: seq<Batch>)
    ensures Prepares(Concat(ClaimsOf(batches)), units, docs, limits.ledger)
    ensures forall b | b in batches :: WellFormed(b, limits) && WithinLimits(b, limits)
    ensures Optimal(batches, limits)
  {
    batches := [];
    var current: seq<Prepared> := [];
    var currentIds: set<string> := {};
    for i := 0 to |units|
      invariant Prepares(Taken(Packer(batches, current)), units[..i], docs, limits.ledger)
      invariant currentIds == BatchIds(current, limits.ledger)
      invariant Sound(Packer(batches, current), limits)
    {
      ghost var before := Packer(batches, current);
      var claim := PrepareClaim(units[i], docs, limits.ledger);
      PreparesAppend(Taken(before), units, i, claim, docs, limits.ledger);
      batches, current, currentIds := PlaceClaim(batches, current, currentIds, claim, limits);
      TakeKeeps(before, claim, limits);
    }
    PackedIsOptimal(Packer(batches, current), limits);
    if current != [] {
      batches := batches + [Batch(false, current)];
    }
    assert units[..|units|] == units;
  }
}
