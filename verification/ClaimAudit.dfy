/** The claim audit gate: an arbitrary verifier reply is post-processed until it is fail-closed. */
module ClaimAudit {
  import opened Wrappers
  import opened Collections
  import opened Fractions
  import opened Numerals
  import opened ClaimModel
  import opened ClaimBatches

  /** The text analyses the gate relies on, left abstract: whitespace compaction, citation
      extraction, and the recogniser of fixed structural labels and fixed advice. */
  datatype Lexer = Lexer(marker: string, compact: string -> string, refs: string -> seq<string>, structural: string -> bool) {
    predicate Auditable(fragment: string) {
      compact(fragment) != "" && compact(fragment) != marker
    }
  }

  datatype Verdict = Supported | Unsupported | Insufficient | NotFactual

  datatype Assessment = Assessment(claimId: string, verdict: Verdict, chunkIds: seq<string>, evidenceIds: seq<string>)

  /** What one verifier call may do: raise, or return any list of assessments whatever. */
  datatype Reply = Raised(error: string) | Returned(assessments: seq<Assessment>)

  datatype ClaimResult = ClaimResult(
    unit: ClaimUnit, verdict: Verdict,
    citedChunkIds: set<string>, supportingChunkIds: seq<string>,
    citedEvidenceIds: set<string>, supportingEvidenceIds: seq<string>)

  // ----- Claim units

  function NumberedUnit(i: nat, fragment: string, lex: Lexer): ClaimUnit {
    ClaimUnit("c" + Decimal(i + 1), fragment, lex.refs(fragment))
  }

  /** The fragments as claims c1, c2, and so on. */
  function Number(fragments: seq<string>, lex: Lexer): seq<ClaimUnit> {
    seq(|fragments|, i requires 0 <= i < |fragments| => NumberedUnit(i, fragments[i], lex))
  }

  predicate DistinctClaimIds(units: seq<ClaimUnit>) {
    forall i, j | 0 <= i < j < |units| :: units[i].claimId != units[j].claimId
  }

  /** The claims are the fragments in order, and their identifiers count from one. */
  lemma NumberedInOrder(fragments: seq<string>, lex: Lexer, i: nat)
    requires i < |fragments|
    ensures |Number(fragments, lex)| == |fragments|
    ensures var u := Number(fragments, lex)[i];
            && u.text == fragments[i] && u.refs == lex.refs(fragments[i])
            && |u.claimId| > 1 && u.claimId[0] == 'c' && AllDigits(u.claimId[1..]) && Value(u.claimId[1..]) == i + 1
  {
    DecimalValue(i + 1);
    assert Number(fragments, lex)[i].claimId[1..] == Decimal(i + 1);
  }

  lemma NumberedIdsAreDistinct(fragments: seq<string>, lex: Lexer)
    ensures DistinctClaimIds(Number(fragments, lex))
  {
    forall i, j | 0 <= i < j < |fragments|
      ensures Number(fragments, lex)[i].claimId != Number(fragments, lex)[j].claimId
    {
      if "c" + Decimal(i + 1) == "c" + Decimal(j + 1) {
        assert ("c" + Decimal(i + 1))[1..] == Decimal(i + 1);
        assert ("c" + Decimal(j + 1))[1..] == Decimal(j + 1);
        DecimalInjective(i + 1, j + 1);
      }
    }
  }

  /** The fragments that must be audited, in order. */
  function Audited(fragments: seq<string>, lex: Lexer): (r: seq<string>)
    ensures forall f :: f in r <==> f in fragments && lex.compact(f) != "" && lex.compact(f) != lex.marker
    ensures |r| <= |fragments|
  {
    if fragments == [] then []
    else
      var init, last := fragments[..|fragments| - 1], fragments[|fragments| - 1];
      assert fragments == init + [last];
      Audited(init, lex) + (if lex.Auditable(last) then [last] else [])
  }

  lemma {:induction false} AuditedSplit(s: seq<string>, t: seq<string>, lex: Lexer)
    ensures Audited(s + t, lex) == Audited(s, lex) + Audited(t, lex)
  {
    if t == [] {
      assert s + t == s;
    } else {
      var init := t[..|t| - 1];
      assert (s + t)[..|s + t| - 1] == s + init;
      AuditedSplit(s, init, lex);
    }
  }

  lemma AuditedStep(fragments: seq<string>, i: nat, lex: Lexer)
    requires i < |fragments|
    ensures Audited(fragments[..i + 1], lex) ==
            Audited(fragments[..i], lex) + if lex.Auditable(fragments[i]) then [fragments[i]] else []
  {
    assert fragments[..i + 1][..i] == fragments[..i];
  }

  lemma {:induction false} NumberAppend(fragments: seq<string>, fragment: string, lex: Lexer)
    ensures Number(fragments + [fragment], lex) == Number(fragments, lex) + [NumberedUnit(|fragments|, fragment, lex)]
  {
  }

  /** The limit on claims; the first claim is taken before it is looked at. */
  function UnitLimit(maxClaims: int): nat {
    if maxClaims < 1 then 1 else maxClaims
  }

  /** `units` are the first claims of the answer, as many as there are within the limit. */
  predicate UnitsOf(units: seq<ClaimUnit>, fragments: seq<string>, maxClaims: int, lex: Lexer) {
    var all := Number(Audited(fragments, lex), lex);
    units == if |all| <= UnitLimit(maxClaims) then all else all[..UnitLimit(maxClaims)]
  }

  lemma PrefixUnits(fragments: seq<string>, i: nat, maxClaims: int, lex: Lexer)
    requires i <= |fragments|
    requires |Audited(fragments[..i], lex)| <= UnitLimit(maxClaims)
    requires i == |fragments| || |Audited(fragments[..i], lex)| == UnitLimit(maxClaims)
    ensures UnitsOf(Number(Audited(fragments[..i], lex), lex), fragments, maxClaims, lex)
  {
    assert fragments == fragments[..i] + fragments[i..];
    AuditedSplit(fragments[..i], fragments[i..], lex);
  }

  /** Numbers the auditable fragments, stopping once the limit is reached. */
  method ExtractClaimUnits(fragments: seq<string>, maxClaims: int, lex: Lexer) returns (units: seq<ClaimUnit>)
    ensures UnitsOf(units, fragments, maxClaims, lex)
  {
    units := [];
    var i := 0;
    while i < |fragments| && (units == [] || |units| < maxClaims)
      invariant 0 <= i <= |fragments|
      invariant units == Number(Audited(fragments[..i], lex), lex)
      invariant |units| <= UnitLimit(maxClaims)
    {
      var fragment := fragments[i];
      AuditedStep(fragments, i, lex);
      if lex.Auditable(fragment) {
        NumberAppend(Audited(fragments[..i], lex), fragment, lex);
        units := units + [NumberedUnit(|units|, fragment, lex)];
      }
      i := i + 1;
    }
    PrefixUnits(fragments, i, maxClaims, lex);
  }

  // ----- One verdict

  /** First occurrences only, in order. */
  function Dedupe(s: seq<string>): (r: seq<string>)
    ensures forall x :: x in r <==> x in s
    ensures NoDuplicates(r)
  {
    if s == [] then []
    else
      var init, last := s[..|s| - 1], s[|s| - 1];
      assert s == init + [last];
      if last in Dedupe(init) then Dedupe(init) else Dedupe(init) + [last]
  }

  /** One of the elements is met before the other. */
  predicate MetBefore(s: seq<string>, x: string, y: string) {
    exists k | 0 <= k < |s| :: s[k] == x && y !in s[..k + 1]
  }

  /** The elements stand in the order in which they are first met. */
  lemma {:induction false} DedupeInOrder(s: seq<string>, i: nat, j: nat)
    requires i < j < |Dedupe(s)|
    ensures MetBefore(s, Dedupe(s)[i], Dedupe(s)[j])
  {
    var init, last := s[..|s| - 1], s[|s| - 1];
    var x, y := Dedupe(s)[i], Dedupe(s)[j];
    if j < |Dedupe(init)| {
      DedupeInOrder(init, i, j);
      var k :| 0 <= k < |init| && init[k] == x && y !in init[..k + 1];
      assert init[..k + 1] == s[..k + 1] && s[k] == x;
    } else {
      assert x in init && y == last && y !in init;
      var k :| 0 <= k < |init| && init[k] == x;
      assert s[k] == x && s[..k + 1] == init[..k + 1];
    }
  }

  function Within(ids: seq<string>, allowed: set<string>): seq<string> {
    Keep(ids, (x: string) => x in allowed)
  }

  /** The chunk behind an evidence identifier; empty when no document carries it. */
  function ChunkOf(docs: seq<Doc>, evidenceId: string): (r: string)
    ensures (exists d | d in docs :: d.evidenceId == evidenceId) ==>
              exists d | d in docs :: d.evidenceId == evidenceId && d.chunkId == r
    ensures (forall d | d in docs :: d.evidenceId != evidenceId) ==> r == ""
  {
    if docs == [] then ""
    else if docs[0].evidenceId == evidenceId then docs[0].chunkId
    else
      assert docs == [docs[0]] + docs[1..];
      ChunkOf(docs[1..], evidenceId)
  }

  function ChunksOf(docs: seq<Doc>, evidenceIds: seq<string>): seq<string> {
    if evidenceIds == [] then []
    else
      var c := ChunkOf(docs, evidenceIds[0]);
      (if c != "" then [c] else []) + ChunksOf(docs, evidenceIds[1..])
  }

  /** The chunk belongs to one of these evidence identifiers. */
  predicate BehindOne(docs: seq<Doc>, evidenceIds: seq<string>, chunk: string) {
    chunk != "" && exists e | e in evidenceIds :: ChunkOf(docs, e) == chunk
  }

  lemma {:induction false} ChunksOfExactly(docs: seq<Doc>, evidenceIds: seq<string>, chunk: string)
    ensures chunk in ChunksOf(docs, evidenceIds) <==> BehindOne(docs, evidenceIds, chunk)
  {
    if evidenceIds != [] {
      var rest := evidenceIds[1..];
      ChunksOfExactly(docs, rest, chunk);
      assert evidenceIds == [evidenceIds[0]] + rest;
      if BehindOne(docs, evidenceIds, chunk) && chunk != ChunkOf(docs, evidenceIds[0]) {
        var e :| e in evidenceIds && ChunkOf(docs, e) == chunk;
        assert e in rest;
      }
    }
  }

  lemma ChunksOfAll(docs: seq<Doc>, evidenceIds: seq<string>)
    ensures forall c :: c in ChunksOf(docs, evidenceIds) <==> BehindOne(docs, evidenceIds, c)
  {
    forall c
      ensures c in ChunksOf(docs, evidenceIds) <==> BehindOne(docs, evidenceIds, c)
    {
      ChunksOfExactly(docs, evidenceIds, c);
    }
  }

  function CitedChunkIds(claim: Prepared): set<string> { Ids(claim.allowed, false) }
  function CitedEvidenceIds(claim: Prepared): set<string> { Ids(claim.allowed, true) }

  /** The reply says something about the claim that the gate takes up as it stands. */
  predicate TakenUp(claim: Prepared, answer: Option<Assessment>, lex: Lexer) {
    && answer.Some?
    && !(answer.value.verdict == Supported && claim.unit.refs == [])
    && !(answer.value.verdict == NotFactual && !lex.structural(claim.unit.text))
  }

  /** The verifier names a piece of the claim's own evidence. */
  predicate NamesOwn(claim: Prepared, a: Assessment, ledger: bool) {
    if ledger then exists e | e in a.evidenceIds :: e in CitedEvidenceIds(claim)
    else exists c | c in a.chunkIds :: c in CitedChunkIds(claim)
  }

  /** The support that the gate reports: what the verifier names, as far as it is the claim's own. */
  ghost predicate SupportIs(r: ClaimResult, claim: Prepared, a: Assessment, batchDocs: seq<Doc>, ledger: bool) {
    && NoDuplicates(r.supportingEvidenceIds) && NoDuplicates(r.supportingChunkIds)
    && (if ledger then
          && (forall e | e in r.supportingEvidenceIds :: e in a.evidenceIds && e in CitedEvidenceIds(claim))
          && (forall e | e in a.evidenceIds && e in CitedEvidenceIds(claim) :: e in r.supportingEvidenceIds)
          && (forall c :: c in r.supportingChunkIds <==> BehindOne(batchDocs, r.supportingEvidenceIds, c))
        else
          && r.supportingEvidenceIds == []
          && (forall c | c in r.supportingChunkIds :: c in a.chunkIds && c in CitedChunkIds(claim))
          && (forall c | c in a.chunkIds && c in CitedChunkIds(claim) :: c in r.supportingChunkIds))
  }

  /** The gate's ruling on one claim, given the verifier's first assessment of it (if any). */
  function Judge(claim: Prepared, answer: Option<Assessment>, batchDocs: seq<Doc>, ledger: bool, lex: Lexer): (r: ClaimResult)
    ensures r.unit == claim.unit
    ensures r.citedChunkIds == CitedChunkIds(claim) && r.citedEvidenceIds == CitedEvidenceIds(claim)
    ensures r.verdict == Supported <==>
            answer.Some? && answer.value.verdict == Supported && claim.unit.refs != [] && NamesOwn(claim, answer.value, ledger)
    ensures r.verdict == NotFactual <==>
            answer.Some? && answer.value.verdict == NotFactual && lex.structural(claim.unit.text)
    ensures r.verdict == Unsupported <==>
            answer.Some? && (answer.value.verdict == Unsupported || (answer.value.verdict == Supported && claim.unit.refs == []))
    ensures TakenUp(claim, answer, lex) ==> SupportIs(r, claim, answer.value, batchDocs, ledger)
    ensures !TakenUp(claim, answer, lex) ==> r.supportingChunkIds == [] && r.supportingEvidenceIds == []
  {
    var ruling := (v: Verdict, chunks: seq<string>, evidence: seq<string>) =>
      ClaimResult(claim.unit, v, CitedChunkIds(claim), chunks, CitedEvidenceIds(claim), evidence);
    match answer
    case None => ruling(Insufficient, [], [])
    case Some(a) =>
      var evidence := if ledger then Dedupe(Within(a.evidenceIds, CitedEvidenceIds(claim))) else [];
      var chunks := if ledger then Dedupe(ChunksOf(batchDocs, evidence)) else Dedupe(Within(a.chunkIds, CitedChunkIds(claim)));
      var support := if ledger then evidence else chunks;
      assert ledger ==> forall e :: e in evidence <==> e in a.evidenceIds && e in CitedEvidenceIds(claim);
      ChunksOfAll(batchDocs, evidence);
      assert !ledger ==> forall c :: c in chunks <==> c in a.chunkIds && c in CitedChunkIds(claim);
      assert support != [] ==> support[0] in support;
      if a.verdict == Supported && claim.unit.refs == [] then ruling(Unsupported, [], [])
      else if a.verdict == Supported && support == [] then ruling(Insufficient, chunks, evidence)
      else if a.verdict == NotFactual && !lex.structural(claim.unit.text) then ruling(Insufficient, [], [])
      else ruling(a.verdict, chunks, evidence)
  }

  lemma MetFirst(s: seq<string>, x: string, y: string)
    ensures MetBefore(s, x, y) <==> s != [] && s[0] != y && (s[0] == x || MetBefore(s[1..], x, y))
  {
    if MetBefore(s, x, y) {
      var k :| 0 <= k < |s| && s[k] == x && y !in s[..k + 1];
      assert s[0] in s[..k + 1];
      if k > 0 {
        var m := k - 1;
        assert s[1..][..m + 1] == s[..k + 1][1..] && s[1..][m] == x;
      }
    }
    if s != [] && s[0] != y {
      if s[0] == x {
        assert s[0] == x && y !in s[..1];
      } else if MetBefore(s[1..], x, y) {
        var k :| 0 <= k < |s[1..]| && s[1..][k] == x && y !in s[1..][..k + 1];
        var m := k + 1;
        assert s[..m + 1] == [s[0]] + s[1..][..k + 1] && s[m] == x;
      }
    }
  }

  lemma {:induction false} WithinKeepsOrder(ids: seq<string>, allowed: set<string>, x: string, y: string)
    requires MetBefore(Within(ids, allowed), x, y) && y in allowed
    ensures MetBefore(ids, x, y)
  {
    var kept, rest := Within(ids, allowed), Within(ids[1..], allowed);
    MetFirst(kept, x, y);
    MetFirst(ids, x, y);
    if ids[0] in allowed {
      assert kept[0] == ids[0] && kept[1..] == rest;
    } else {
      assert kept == rest;
    }
    if ids[0] != x {
      WithinKeepsOrder(ids[1..], allowed, x, y);
    }
  }

  lemma OwnInOrder(ids: seq<string>, allowed: set<string>, i: nat, j: nat)
    requires i < j < |Dedupe(Within(ids, allowed))|
    ensures MetBefore(ids, Dedupe(Within(ids, allowed))[i], Dedupe(Within(ids, allowed))[j])
  {
    var own := Dedupe(Within(ids, allowed));
    DedupeInOrder(Within(ids, allowed), i, j);
    assert own[j] in own;
    WithinKeepsOrder(ids, allowed, own[i], own[j]);
  }

  /** The support stands in the order in which the verifier first names it, and the chunks behind evidence
      identifiers in the order of those. */
  lemma SupportInOrder(claim: Prepared, a: Assessment, batchDocs: seq<Doc>, ledger: bool, lex: Lexer, i: nat, j: nat)
    requires TakenUp(claim, Some(a), lex) && i < j
    ensures var r := Judge(claim, Some(a), batchDocs, ledger, lex);
            && (ledger && j < |r.supportingEvidenceIds| ==> MetBefore(a.evidenceIds, r.supportingEvidenceIds[i], r.supportingEvidenceIds[j]))
            && (ledger && j < |r.supportingChunkIds| ==>
                  MetBefore(ChunksOf(batchDocs, r.supportingEvidenceIds), r.supportingChunkIds[i], r.supportingChunkIds[j]))
            && (!ledger && j < |r.supportingChunkIds| ==> MetBefore(a.chunkIds, r.supportingChunkIds[i], r.supportingChunkIds[j]))
  {
    var r := Judge(claim, Some(a), batchDocs, ledger, lex);
    if ledger {
      if j < |r.supportingEvidenceIds| {
        OwnInOrder(a.evidenceIds, CitedEvidenceIds(claim), i, j);
      }
      if j < |r.supportingChunkIds| {
        DedupeInOrder(ChunksOf(batchDocs, r.supportingEvidenceIds), i, j);
      }
    } else if j < |r.supportingChunkIds| {
      OwnInOrder(a.chunkIds, CitedChunkIds(claim), i, j);
    }
  }

  lemma {:induction false} ChunksOfFirst(docs: seq<Doc>, e: string, rest: seq<string>)
    ensures ChunksOf(docs, [e] + rest) == ChunksOf(docs, [e]) + ChunksOf(docs, rest)
  {
    assert ([e] + rest)[1..] == rest && [e][1..] == [];
  }

  lemma {:induction false} ChunksInOrder(docs: seq<Doc>, a: seq<string>, b: seq<string>)
    ensures ChunksOf(docs, a + b) == ChunksOf(docs, a) + ChunksOf(docs, b)
  {
    if a == [] {
      assert a + b == b;
    } else {
      ChunksOfFirst(docs, a[0], a[1..]);
      ChunksOfFirst(docs, a[0], a[1..] + b);
      ChunksInOrder(docs, a[1..], b);
      assert a == [a[0]] + a[1..] && a + b == [a[0]] + (a[1..] + b);
    }
  }

  // ----- One verifier batch

  function AddDocs(acc: seq<Doc>, docs: seq<Doc>, ledger: bool): seq<Doc> {
    if docs == [] then acc
    else
      var init, d := AddDocs(acc, docs[..|docs| - 1], ledger), docs[|docs| - 1];
      if Identity(d, ledger) != "" && Identity(d, ledger) !in Ids(init, ledger) then init + [d] else init
  }

  /** The distinct documents of a batch, in first-seen order. */
  function BatchDocs(claims: seq<Prepared>, ledger: bool): seq<Doc> {
    if claims == [] then []
    else AddDocs(BatchDocs(claims[..|claims| - 1], ledger), claims[|claims| - 1].allowed, ledger)
  }

  lemma {:induction false} AddDocsIds(acc: seq<Doc>, docs: seq<Doc>, ledger: bool)
    requires DistinctIds(acc, ledger)
    ensures DistinctIds(AddDocs(acc, docs, ledger), ledger)
    ensures Ids(AddDocs(acc, docs, ledger), ledger) == Ids(acc, ledger) + Ids(docs, ledger)
  {
    if docs != [] {
      var init, d := docs[..|docs| - 1], docs[|docs| - 1];
      AddDocsIds(acc, init, ledger);
      IdsAppend(init, d, ledger);
      assert docs == init + [d];
      IdsAppend(AddDocs(acc, init, ledger), d, ledger);
      DistinctAppend(AddDocs(acc, init, ledger), d, ledger);
    }
  }

  /** Documents are shown in the order in which they are first seen. */
  lemma {:induction false} AddDocsExtends(acc: seq<Doc>, docs: seq<Doc>, ledger: bool)
    ensures acc <= AddDocs(acc, docs, ledger)
    ensures forall d | d in AddDocs(acc, docs, ledger) :: d in acc || d in docs
  {
    if docs != [] {
      AddDocsExtends(acc, docs[..|docs| - 1], ledger);
    }
  }

  lemma DistinctAppend(docs: seq<Doc>, d: Doc, ledger: bool)
    requires DistinctIds(docs, ledger)
    ensures Identity(d, ledger) != "" && Identity(d, ledger) !in Ids(docs, ledger) ==> DistinctIds(docs + [d], ledger)
  {
    assert forall i | 0 <= i < |docs| :: docs[i] in docs && Identity(docs[i], ledger) in Ids(docs, ledger);
  }

  /** A batch shows the verifier exactly one document per identity its claims may use. */
  lemma {:induction false} BatchDocsIds(claims: seq<Prepared>, ledger: bool)
    ensures DistinctIds(BatchDocs(claims, ledger), ledger)
    ensures Ids(BatchDocs(claims, ledger), ledger) == BatchIds(claims, ledger)
    ensures |BatchDocs(claims, ledger)| == |BatchIds(claims, ledger)|
  {
    if claims != [] {
      var init, c := claims[..|claims| - 1], claims[|claims| - 1];
      BatchDocsIds(init, ledger);
      AddDocsIds(BatchDocs(init, ledger), c.allowed, ledger);
      assert claims == init + [c];
      BatchIdsAppend(init, c, ledger);
    }
    DistinctIdsCount(BatchDocs(claims, ledger), ledger);
  }

  /** They are documents of its claims, in the order in which they are first seen. */
  lemma {:induction false} BatchDocsInOrder(claims: seq<Prepared>, ledger: bool)
    ensures claims != [] ==> BatchDocs(claims[..|claims| - 1], ledger) <= BatchDocs(claims, ledger)
    ensures forall d | d in BatchDocs(claims, ledger) :: exists c | c in claims :: d in c.allowed
  {
    if claims != [] {
      var init, last := claims[..|claims| - 1], claims[|claims| - 1];
      BatchDocsInOrder(init, ledger);
      AddDocsExtends(BatchDocs(init, ledger), last.allowed, ledger);
      forall d | d in BatchDocs(claims, ledger)
        ensures exists c | c in claims :: d in c.allowed
      {
        if d in BatchDocs(init, ledger) {
          var c :| c in init && d in c.allowed;
          assert c in claims;
        } else {
          assert last in claims;
        }
      }
    }
  }

  /** The verifier's first assessment that names the claim. */
  function FirstFor(assessments: seq<Assessment>, claimId: string): Option<Assessment> {
    if assessments == [] then None
    else
      var init, last := FirstFor(assessments[..|assessments| - 1], claimId), assessments[|assessments| - 1];
      if init.None? && last.claimId == claimId then Some(last) else init
  }

  lemma {:induction false} FirstForIsFirst(assessments: seq<Assessment>, claimId: string)
    ensures FirstFor(assessments, claimId).None? <==> forall i | 0 <= i < |assessments| :: assessments[i].claimId != claimId
    ensures FirstFor(assessments, claimId).Some? ==>
              exists i | 0 <= i < |assessments| ::
                && FirstFor(assessments, claimId) == Some(assessments[i]) && assessments[i].claimId == claimId
                && forall j | 0 <= j < i :: assessments[j].claimId != claimId
  {
    if assessments != [] {
      var init := assessments[..|assessments| - 1];
      FirstForIsFirst(init, claimId);
      if FirstFor(init, claimId).Some? {
        var i :| 0 <= i < |init| && FirstFor(init, claimId) == Some(init[i]) && init[i].claimId == claimId
                 && forall j | 0 <= j < i :: init[j].claimId != claimId;
        assert assessments[i] == init[i];
      } else {
        assert forall j | 0 <= j < |init| :: assessments[j] == init[j];
        assert assessments[|assessments| - 1].claimId == claimId ==>
                 FirstFor(assessments, claimId) == Some(assessments[|assessments| - 1]);
      }
    }
  }

  /** Rulings on all claims of a batch, in claim order. */
  function Rulings(claims: seq<Prepared>, assessments: seq<Assessment>, ledger: bool, lex: Lexer): (r: seq<ClaimResult>)
    ensures |r| == |claims|
    ensures forall i | 0 <= i < |r| ::
              r[i] == Judge(claims[i], FirstFor(assessments, claims[i].unit.claimId), BatchDocs(claims, ledger), ledger, lex)
  {
    seq(|claims|, i requires 0 <= i < |claims| =>
      Judge(claims[i], FirstFor(assessments, claims[i].unit.claimId), BatchDocs(claims, ledger), ledger, lex))
  }

  function UnitsIn(claims: seq<Prepared>): (r: seq<ClaimUnit>)
    ensures |r| == |claims| && forall i | 0 <= i < |r| :: r[i] == claims[i].unit
  {
    seq(|claims|, i requires 0 <= i < |claims| => claims[i].unit)
  }

  datatype BatchOutcome = Verified(results: seq<ClaimResult>) | Aborted(error: string)

  const PLANNER_ERROR := "RuntimeError"

  /** Appends the documents whose identity has not been seen yet. */
  method AddAllowed(start: seq<Doc>, allowed: seq<Doc>, ledger: bool) returns (docs: seq<Doc>)
    ensures docs == AddDocs(start, allowed, ledger)
  {
    docs := start;
    for j := 0 to |allowed|
      invariant docs == AddDocs(start, allowed[..j], ledger)
    {
      var d := allowed[j];
      assert allowed[..j + 1][..j] == allowed[..j];
      if Identity(d, ledger) != "" && Identity(d, ledger) !in Ids(docs, ledger) {
        docs := docs + [d];
      }
    }
    assert allowed[..|allowed|] == allowed;
  }

  /** The table finds each claim under its identifier. */
  predicate FindsClaims(byClaim: map<string, Prepared>, claims: seq<Prepared>) {
    forall k | 0 <= k < |claims| :: claims[k].unit.claimId in byClaim && byClaim[claims[k].unit.claimId] == claims[k]
  }

  lemma FindsNext(byClaim: map<string, Prepared>, claims: seq<Prepared>, i: nat)
    requires DistinctClaimIds(UnitsIn(claims)) && i < |claims| && FindsClaims(byClaim, claims[..i])
    ensures FindsClaims(byClaim[claims[i].unit.claimId := claims[i]], claims[..i + 1])
  {
    forall k | 0 <= k < i
      ensures claims[..i + 1][k] == claims[..i][k] && claims[k].unit.claimId != claims[i].unit.claimId
    {
      assert UnitsIn(claims)[k].claimId != UnitsIn(claims)[i].claimId;
    }
  }

  lemma BatchDocsStep(claims: seq<Prepared>, i: nat, ledger: bool)
    requires i < |claims|
    ensures BatchDocs(claims[..i + 1], ledger) == AddDocs(BatchDocs(claims[..i], ledger), claims[i].allowed, ledger)
  {
    assert claims[..i + 1][..i] == claims[..i];
  }

  method CollectDocs(claims: seq<Prepared>, ledger: bool) returns (docs: seq<Doc>, byClaim: map<string, Prepared>)
    requires DistinctClaimIds(UnitsIn(claims))
    ensures docs == BatchDocs(claims, ledger) && FindsClaims(byClaim, claims)
  {
    docs, byClaim := [], map[];
    for i := 0 to |claims|
      invariant docs == BatchDocs(claims[..i], ledger) && FindsClaims(byClaim, claims[..i])
    {
      FindsNext(byClaim, claims, i);
      BatchDocsStep(claims, i, ledger);
      byClaim := byClaim[claims[i].unit.claimId := claims[i]];
      docs := AddAllowed(docs, claims[i].allowed, ledger);
    }
    assert claims[..|claims|] == claims;
  }

  method FirstAssessments(assessments: seq<Assessment>, known: set<string>) returns (returned: map<string, Assessment>)
    ensures forall id | id in known ::
              FirstFor(assessments, id) == if id in returned then Some(returned[id]) else None
  {
    returned := map[];
    for i := 0 to |assessments|
      invariant forall id | id in known ::
                  FirstFor(assessments[..i], id) == if id in returned then Some(returned[id]) else None
    {
      var a := assessments[i];
      assert assessments[..i + 1][..i] == assessments[..i];
      if a.claimId in known && a.claimId !in returned {
        returned := returned[a.claimId := a];
      }
    }
    assert assessments[..|assessments|] == assessments;
  }

  method RuleOnBatch(claims: seq<Prepared>, byClaim: map<string, Prepared>, assessments: seq<Assessment>,
                     batchDocs: seq<Doc>, ledger: bool, lex: Lexer) returns (results: seq<ClaimResult>)
    requires batchDocs == BatchDocs(claims, ledger)
    requires FindsClaims(byClaim, claims)
    ensures results == Rulings(claims, assessments, ledger, lex)
  {
    var returned := FirstAssessments(assessments, byClaim.Keys);
    results := [];
    for i := 0 to |claims|
      invariant |results| == i
      invariant forall k | 0 <= k < i :: results[k] == Rulings(claims, assessments, ledger, lex)[k]
    {
      var claimId := claims[i].unit.claimId;
      var answer := if claimId in returned then Some(returned[claimId]) else None;
      results := results + [Judge(byClaim[claimId], answer, batchDocs, ledger, lex)];
    }
  }

  /** One verifier call. The evidence-limit error is raised exactly when the batch shows more
      distinct documents than allowed, so a batch that fits never raises it. */
  method VerifyBatch(claims: seq<Prepared>, reply: Reply, limits: Limits, lex: Lexer) returns (out: BatchOutcome)
    requires DistinctClaimIds(UnitsIn(claims))
    ensures out ==
            if |BatchIds(claims, limits.ledger)| > limits.maxDocs then Aborted(PLANNER_ERROR)
            else if reply.Raised? then Aborted(reply.error)
            else Verified(Rulings(claims, reply.assessments, limits.ledger, lex))
  {
    var batchDocs, byClaim := CollectDocs(claims, limits.ledger);
    BatchDocsIds(claims, limits.ledger);
    if |batchDocs| > limits.maxDocs {
      out := Aborted(PLANNER_ERROR);
    } else if reply.Raised? {
      out := Aborted(reply.error);
    } else {
      var results := RuleOnBatch(claims, byClaim, reply.assessments, batchDocs, limits.ledger, lex);
      out := Verified(results);
    }
  }

  // ----- The whole plan

  /** An over-limit claim is never sent to the verifier. */
  function OverLimitRuling(claim: Prepared): ClaimResult {
    ClaimResult(claim.unit, Insufficient, CitedChunkIds(claim), [], CitedEvidenceIds(claim), [])
  }

  datatype Progress = Progress(results: seq<ClaimResult>, calls: nat, error: Option<string>)

  /** The audit of one more batch; `reply(n)` is whatever the n-th verifier call does. */
  function Advance(p: Progress, b: Batch, reply: nat -> Reply, limits: Limits, lex: Lexer): Progress
    requires WellFormed(b, limits)
  {
    if p.error.Some? then p
    else if b.overLimit then p.(results := p.results + [OverLimitRuling(b.claims[0])])
    else match reply(p.calls)
      case Raised(e) => p.(error := Some(e))
      case Returned(assessments) =>
        Progress(p.results + Rulings(b.claims, assessments, limits.ledger, lex), p.calls + 1, None)
  }

  /** The audit after a prefix of the plan. */
  function Run(plan: seq<Batch>, reply: nat -> Reply, limits: Limits, lex: Lexer): Progress
    requires forall b | b in plan :: WellFormed(b, limits)
  {
    if plan == [] then Progress([], 0, None)
    else
      var b := plan[|plan| - 1];
      assert b in plan && WellFormed(b, limits);
      Advance(Run(plan[..|plan| - 1], reply, limits, lex), b, reply, limits, lex)
  }

  predicate Failing(v: Verdict) { v == Unsupported || v == Insufficient }

  function SupportOf(r: ClaimResult, ledger: bool): seq<string> {
    if ledger then r.supportingEvidenceIds else r.supportingChunkIds
  }

  /** The ruling concerns this claim and a non-failing one rests on the claim's own evidence or
      on fixed structural text. */
  predicate RuledOn(r: ClaimResult, claim: Prepared, ledger: bool, lex: Lexer) {
    && r.unit == claim.unit
    && (r.verdict == NotFactual ==> lex.structural(claim.unit.text))
    && (r.verdict == Supported ==>
          && SupportOf(r, ledger) != []
          && forall id | id in SupportOf(r, ledger) :: id in Ids(claim.allowed, ledger))
  }

  predicate AllRuledOn(results: seq<ClaimResult>, claims: seq<Prepared>, ledger: bool, lex: Lexer) {
    && |results| == |claims|
    && forall i | 0 <= i < |claims| :: RuledOn(results[i], claims[i], ledger, lex)
  }

  lemma RulingsRuleOn(claims: seq<Prepared>, assessments: seq<Assessment>, ledger: bool, lex: Lexer)
    ensures AllRuledOn(Rulings(claims, assessments, ledger, lex), claims, ledger, lex)
  {
    var r := Rulings(claims, assessments, ledger, lex);
    forall i | 0 <= i < |claims|
      ensures RuledOn(r[i], claims[i], ledger, lex)
    {
      var answer := FirstFor(assessments, claims[i].unit.claimId);
      assert r[i] == Judge(claims[i], answer, BatchDocs(claims, ledger), ledger, lex);
    }
  }

  lemma AllRuledOnConcat(r1: seq<ClaimResult>, c1: seq<Prepared>, r2: seq<ClaimResult>, c2: seq<Prepared>, ledger: bool, lex: Lexer)
    requires AllRuledOn(r1, c1, ledger, lex) && AllRuledOn(r2, c2, ledger, lex)
    ensures AllRuledOn(r1 + r2, c1 + c2, ledger, lex)
  {
  }

  /** Whatever the verifier replies, a run that does not abort rules on every claim exactly once,
      in order. */
  lemma {:induction false} RunRulesOnEveryClaim(plan: seq<Batch>, reply: nat -> Reply, limits: Limits, lex: Lexer)
    requires forall b | b in plan :: WellFormed(b, limits)
    requires Run(plan, reply, limits, lex).error.None?
    ensures AllRuledOn(Run(plan, reply, limits, lex).results, Concat(ClaimsOf(plan)), limits.ledger, lex)
  {
    if plan != [] {
      var init, b := plan[..|plan| - 1], plan[|plan| - 1];
      RunRulesOnEveryClaim(init, reply, limits, lex);
      var p := Run(init, reply, limits, lex);
      assert ClaimsOf(plan)[..|plan| - 1] == ClaimsOf(init);
      if b.overLimit {
        assert b in plan && b.claims == [b.claims[0]];
        AllRuledOnConcat(p.results, Concat(ClaimsOf(init)), [OverLimitRuling(b.claims[0])], b.claims, limits.ledger, lex);
      } else {
        var assessments := reply(p.calls).assessments;
        RulingsRuleOn(b.claims, assessments, limits.ledger, lex);
        AllRuledOnConcat(p.results, Concat(ClaimsOf(init)), Rulings(b.claims, assessments, limits.ledger, lex), b.claims, limits.ledger, lex);
      }
    }
  }

  /** A ruling that lets a claim through is justified by the claim itself. */
  predicate Justified(r: ClaimResult, docs: seq<Doc>, ledger: bool, lex: Lexer) {
    || (r.verdict == NotFactual && lex.structural(r.unit.text))
    || (&& r.verdict == Supported && SupportOf(r, ledger) != []
        && forall id | id in SupportOf(r, ledger) :: exists d | d in docs :: MayUse(r.unit, d) && Identity(d, ledger) == id != "")
  }

  lemma RuledClaimIsJustified(r: ClaimResult, claim: Prepared, unit: ClaimUnit, docs: seq<Doc>, ledger: bool, lex: Lexer)
    requires PreparedFrom(claim, unit, docs, ledger) && RuledOn(r, claim, ledger, lex) && !Failing(r.verdict)
    ensures r.unit == unit && Justified(r, docs, ledger, lex)
  {
    if r.verdict == Supported {
      forall id | id in SupportOf(r, ledger)
        ensures exists d | d in docs :: MayUse(r.unit, d) && Identity(d, ledger) == id != ""
      {
        var d :| d in claim.allowed && Identity(d, ledger) != "" && Identity(d, ledger) == id;
      }
    }
  }

  /** The assessment names this document as its evidence. */
  predicate Names(a: Assessment, d: Doc, ledger: bool) {
    if ledger then d.evidenceId != "" && d.evidenceId in a.evidenceIds else d.chunkId != "" && d.chunkId in a.chunkIds
  }

  /** What it takes for a claim to be let through: support by a retrieved document that the claim itself
      names, or fixed structural text that the verifier calls not factual. */
  predicate LetsThrough(unit: ClaimUnit, docs: seq<Doc>, answer: Option<Assessment>, ledger: bool, lex: Lexer) {
    && answer.Some?
    && match answer.value.verdict
       case Supported => unit.refs != [] && exists d | d in docs :: MayUse(unit, d) && Names(answer.value, d, ledger)
       case NotFactual => lex.structural(unit.text)
       case _ => false
  }

  lemma JudgedExactly(claim: Prepared, unit: ClaimUnit, docs: seq<Doc>, answer: Option<Assessment>, batchDocs: seq<Doc>, ledger: bool, lex: Lexer)
    requires PreparedFrom(claim, unit, docs, ledger)
    ensures !Failing(Judge(claim, answer, batchDocs, ledger, lex).verdict) <==> LetsThrough(unit, docs, answer, ledger, lex)
  {
    if answer.Some? && answer.value.verdict == Supported {
      NamesOwnExactly(claim, unit, docs, answer.value, ledger);
    }
  }

  lemma NamesOwnExactly(claim: Prepared, unit: ClaimUnit, docs: seq<Doc>, a: Assessment, ledger: bool)
    requires PreparedFrom(claim, unit, docs, ledger)
    ensures NamesOwn(claim, a, ledger) <==> exists d | d in docs :: MayUse(unit, d) && Names(a, d, ledger)
  {
    var ids := if ledger then a.evidenceIds else a.chunkIds;
    assert NamesOwn(claim, a, ledger) <==> exists x | x in ids :: x in UsableIds(unit, docs, ledger);
    if exists d | d in docs :: MayUse(unit, d) && Names(a, d, ledger) {
      var d :| d in docs && MayUse(unit, d) && Names(a, d, ledger);
      assert Identity(d, ledger) in ids && Identity(d, ledger) in UsableIds(unit, docs, ledger);
    }
    if NamesOwn(claim, a, ledger) {
      var x :| x in ids && x in UsableIds(unit, docs, ledger);
      var d :| d in docs && MayUse(unit, d) && Identity(d, ledger) != "" && Identity(d, ledger) == x;
      assert Names(a, d, ledger);
    }
  }

  predicate BatchLetsThrough(b: Batch, reply: Reply, docs: seq<Doc>, ledger: bool, lex: Lexer) {
    && !b.overLimit && reply.Returned?
    && forall c | c in b.claims :: LetsThrough(c.unit, docs, FirstFor(reply.assessments, c.unit.claimId), ledger, lex)
  }

  predicate AllPrepared(claims: seq<Prepared>, docs: seq<Doc>, ledger: bool) {
    forall c | c in claims :: PreparedFrom(c, c.unit, docs, ledger)
  }

  lemma RulingsLetThrough(claims: seq<Prepared>, assessments: seq<Assessment>, docs: seq<Doc>, ledger: bool, lex: Lexer)
    requires AllPrepared(claims, docs, ledger)
    ensures !AnyFailing(Rulings(claims, assessments, ledger, lex)) <==>
            forall c | c in claims :: LetsThrough(c.unit, docs, FirstFor(assessments, c.unit.claimId), ledger, lex)
  {
    var r := Rulings(claims, assessments, ledger, lex);
    forall i | 0 <= i < |claims|
      ensures !Failing(r[i].verdict) <==> LetsThrough(claims[i].unit, docs, FirstFor(assessments, claims[i].unit.claimId), ledger, lex)
    {
      assert claims[i] in claims;
      JudgedExactly(claims[i], claims[i].unit, docs, FirstFor(assessments, claims[i].unit.claimId), BatchDocs(claims, ledger), ledger, lex);
    }
  }

  lemma AnyFailingConcat(a: seq<ClaimResult>, b: seq<ClaimResult>)
    ensures AnyFailing(a + b) <==> AnyFailing(a) || AnyFailing(b)
  {
    if AnyFailing(a) {
      var i :| 0 <= i < |a| && Failing(a[i].verdict);
      assert Failing((a + b)[i].verdict);
    }
    if AnyFailing(b) {
      var i :| 0 <= i < |b| && Failing(b[i].verdict);
      assert Failing((a + b)[|a| + i].verdict);
    }
  }

  predicate PlanLetsThrough(plan: seq<Batch>, reply: nat -> Reply, docs: seq<Doc>, ledger: bool, lex: Lexer) {
    forall k | 0 <= k < |plan| :: BatchLetsThrough(plan[k], reply(k), docs, ledger, lex)
  }

  predicate Passing(p: Progress) {
    p.error.None? && !AnyFailing(p.results)
  }

  lemma AdvancePassesExactly(p: Progress, b: Batch, reply: nat -> Reply, limits: Limits, docs: seq<Doc>, lex: Lexer)
    requires WellFormed(b, limits) && AllPrepared(b.claims, docs, limits.ledger)
    ensures var q := Advance(p, b, reply, limits, lex);
            && (Passing(q) <==> Passing(p) && BatchLetsThrough(b, reply(p.calls), docs, limits.ledger, lex))
            && (Passing(q) ==> q.calls == p.calls + 1)
  {
    if p.error.None? {
      if b.overLimit {
        AnyFailingConcat(p.results, [OverLimitRuling(b.claims[0])]);
        assert Failing([OverLimitRuling(b.claims[0])][0].verdict);
      } else if reply(p.calls).Returned? {
        var assessments := reply(p.calls).assessments;
        RulingsLetThrough(b.claims, assessments, docs, limits.ledger, lex);
        AnyFailingConcat(p.results, Rulings(b.claims, assessments, limits.ledger, lex));
      }
    }
  }

  lemma PlanLetsThroughStep(plan: seq<Batch>, reply: nat -> Reply, docs: seq<Doc>, ledger: bool, lex: Lexer)
    requires plan != []
    ensures var n := |plan| - 1;
            PlanLetsThrough(plan, reply, docs, ledger, lex) <==>
            PlanLetsThrough(plan[..n], reply, docs, ledger, lex) && BatchLetsThrough(plan[n], reply(n), docs, ledger, lex)
  {
    var n := |plan| - 1;
    assert forall k | 0 <= k < n :: plan[..n][k] == plan[k];
  }

  /** A run lets everything through exactly when each claim is let through by the first assessment of it
      in the reply to its own batch; the replies are then those of as many calls as there are batches. */
  lemma {:induction false} RunPassesExactly(plan: seq<Batch>, reply: nat -> Reply, limits: Limits, docs: seq<Doc>, lex: Lexer)
    requires forall b | b in plan :: WellFormed(b, limits) && AllPrepared(b.claims, docs, limits.ledger)
    ensures var p := Run(plan, reply, limits, lex);
            && (Passing(p) <==> PlanLetsThrough(plan, reply, docs, limits.ledger, lex))
            && (Passing(p) ==> p.calls == |plan|)
  {
    if plan != [] {
      var n := |plan| - 1;
      RunPassesExactly(plan[..n], reply, limits, docs, lex);
      PlanLetsThroughStep(plan, reply, docs, limits.ledger, lex);
      AdvancePassesExactly(Run(plan[..n], reply, limits, lex), plan[n], reply, limits, docs, lex);
    }
  }

  lemma PlanIsPrepared(plan: seq<Batch>, units: seq<ClaimUnit>, docs: seq<Doc>, ledger: bool)
    requires Prepares(Concat(ClaimsOf(plan)), units, docs, ledger)
    ensures forall b | b in plan :: AllPrepared(b.claims, docs, ledger)
  {
    var all := Concat(ClaimsOf(plan));
    forall b, c | b in plan && c in b.claims
      ensures PreparedFrom(c, c.unit, docs, ledger)
    {
      var i :| 0 <= i < |plan| && plan[i] == b;
      var j :| 0 <= j < |b.claims| && b.claims[j] == c;
      PartIsSlice(ClaimsOf(plan), i);
      assert all[Offset(ClaimsOf(plan), i) + j] == c;
    }
  }

  datatype Status = Passed | Repaired | Failed | Error
  datatype AuditOutcome = AuditOutcome(passed: bool, status: Status, reason: string, results: seq<ClaimResult>, calls: nat)

  /** The single entry reported when the answer has more fragments than may be audited. */
  const OVERFLOW_RULING := ClaimResult(ClaimUnit("overflow", "", []), Insufficient, {}, [], {}, [])

  datatype Settings = Settings(maxClaims: int, limits: Limits)

  predicate AnyFailing(results: seq<ClaimResult>) {
    exists i | 0 <= i < |results| :: Failing(results[i].verdict)
  }

  predicate AuditableInFull(fragments: seq<string>, docs: seq<Doc>, settings: Settings) {
    docs != [] && |fragments| <= settings.maxClaims
  }

  method RunPlan(plan: seq<Batch>, reply: nat -> Reply, limits: Limits, lex: Lexer) returns (p: Progress)
    requires forall b | b in plan :: WellFormed(b, limits)
    requires DistinctClaimIds(UnitsIn(Concat(ClaimsOf(plan))))
    ensures p == Run(plan, reply, limits, lex)
  {
    p := Progress([], 0, None);
    for i := 0 to |plan|
      invariant p == Run(plan[..i], reply, limits, lex)
    {
      var b := plan[i];
      assert plan[..i + 1][..i] == plan[..i];
      BatchUnitsAreDistinct(plan, i);
      assert WellFormed(b, limits);
      if p.error.None? {
        if b.overLimit {
          p := p.(results := p.results + [OverLimitRuling(b.claims[0])]);
        } else {
          var out := VerifyBatch(b.claims, reply(p.calls), limits, lex);
          match out
          case Aborted(e) => p := p.(error := Some(e));
          case Verified(results) => p := Progress(p.results + results, p.calls + 1, None);
        }
      }
    }
    assert plan[..|plan|] == plan;
  }

  lemma BatchUnitsAreDistinct(plan: seq<Batch>, i: nat)
    requires i < |plan| && DistinctClaimIds(UnitsIn(Concat(ClaimsOf(plan))))
    ensures DistinctClaimIds(UnitsIn(plan[i].claims))
  {
    var parts := ClaimsOf(plan);
    PartIsSlice(parts, i);
    var all, b, off := UnitsIn(Concat(parts)), UnitsIn(plan[i].claims), Offset(parts, i);
    forall j, k | 0 <= j < k < |b|
      ensures b[j].claimId != b[k].claimId
    {
      assert b[j] == all[off + j] && b[k] == all[off + k];
    }
  }

  lemma AllJustified(results: seq<ClaimResult>, claims: seq<Prepared>, units: seq<ClaimUnit>, docs: seq<Doc>, ledger: bool, lex: Lexer)
    requires Prepares(claims, units, docs, ledger) && AllRuledOn(results, claims, ledger, lex) && !AnyFailing(results)
    ensures |results| == |units|
    ensures forall i | 0 <= i < |results| :: results[i].unit == units[i] && Justified(results[i], docs, ledger, lex)
  {
    forall i | 0 <= i < |results|
      ensures results[i].unit == units[i] && Justified(results[i], docs, ledger, lex)
    {
      RuledClaimIsJustified(results[i], claims[i], units[i], docs, ledger, lex);
    }
  }

  /** The audit of an answer that reached the verifier. Whatever the verifier replies, the answer
      passes only if every auditable fragment has exactly one ruling, each justified by documents
      the claim itself cites or by fixed structural text. */
  method AuditClaims(fragments: seq<string>, docs: seq<Doc>, settings: Settings, repairCount: nat,
                     reply: nat -> Reply, lex: Lexer)
    returns (r: AuditOutcome, ghost plan: seq<Batch>)
    ensures !AuditableInFull(fragments, docs, settings) ==> !r.passed && r.calls == 0
    ensures r.passed ==>
              && AuditableInFull(fragments, docs, settings)
              && |r.results| == |Audited(fragments, lex)|
              && forall i | 0 <= i < |r.results| ::
                   r.results[i].unit == Number(Audited(fragments, lex), lex)[i] && Justified(r.results[i], docs, settings.limits.ledger, lex)
    ensures AuditableInFull(fragments, docs, settings) ==>
              && (forall b | b in plan :: WellFormed(b, settings.limits)) && Optimal(plan, settings.limits)
              && Prepares(Concat(ClaimsOf(plan)), Number(Audited(fragments, lex), lex), docs, settings.limits.ledger)
              && var p := Run(plan, reply, settings.limits, lex);
                 r.results == p.results && r.calls == p.calls && (r.passed <==> p.error.None? && !AnyFailing(p.results))
    ensures r.passed <==> AuditableInFull(fragments, docs, settings) && PlanLetsThrough(plan, reply, docs, settings.limits.ledger, lex)
    ensures r.passed ==> r.status == (if repairCount > 0 then Repaired else Passed)
    ensures r.passed ==> r.reason == (if Audited(fragments, lex) == [] then "no_factual_statements" else "")
    ensures docs == [] ==> r.status == Error && r.reason == "no_evidence_documents"
    ensures docs != [] && |fragments| > settings.maxClaims ==> r.status == Failed && r.reason == "max_claims_exceeded"
    ensures AuditableInFull(fragments, docs, settings) && !r.passed ==>
              var p := Run(plan, reply, settings.limits, lex);
              if p.error.Some? then r.status == Error && r.reason == p.error.value
              else r.status == Failed && r.reason == "claims_not_supported"
  {
    plan := [];
    var good := if repairCount > 0 then Repaired else Passed;
    if docs == [] {
      return AuditOutcome(false, Error, "no_evidence_documents", [], 0), plan;
    }
    if |fragments| > settings.maxClaims {
      return AuditOutcome(false, Failed, "max_claims_exceeded", [OVERFLOW_RULING], 0), plan;
    }
    var units := ExtractClaimUnits(fragments, settings.maxClaims, lex);
    assert units == Number(Audited(fragments, lex), lex);
    NumberedIdsAreDistinct(Audited(fragments, lex), lex);
    var batches := PackClaims(units, docs, settings.limits);
    plan := batches;
    assert UnitsIn(Concat(ClaimsOf(plan))) == units;
    var p := RunPlan(batches, reply, settings.limits, lex);
    PlanIsPrepared(plan, units, docs, settings.limits.ledger);
    RunPassesExactly(plan, reply, settings.limits, docs, lex);
    if p.error.Some? {
      return AuditOutcome(false, Error, p.error.value, p.results, p.calls), plan;
    }
    RunRulesOnEveryClaim(plan, reply, settings.limits, lex);
    if AnyFailing(p.results) {
      return AuditOutcome(false, Failed, "claims_not_supported", p.results, p.calls), plan;
    }
    var reason := if units == [] then "no_factual_statements" else "";
    r := AuditOutcome(true, good, reason, p.results, p.calls);
    AllJustified(p.results, Concat(ClaimsOf(plan)), units, docs, settings.limits.ledger, lex);
  }

  // ----- Evidence identity across the document pool

  /** No two documents of the pool carry the same evidence identifier. */
  predicate UniqueEvidence(docs: seq<Doc>) {
    forall d, e | d in docs && e in docs && d.evidenceId == e.evidenceId != "" :: d == e
  }

  function PoolIdentity(d: Doc, index: nat): string {
    if d.evidenceId != "" then d.evidenceId
    else if d.chunkId != "" then d.chunkId
    else "__missing_" + Decimal(index)
  }

  /** Documents without any identifier are all different. */
  lemma MissingStayApart(d: Doc, i: nat, e: Doc, j: nat)
    requires d.evidenceId == "" && d.chunkId == "" && e.evidenceId == "" && e.chunkId == "" && i != j
    ensures PoolIdentity(d, i) != PoolIdentity(e, j)
  {
    if PoolIdentity(d, i) == PoolIdentity(e, j) {
      assert PoolIdentity(d, i)[10..] == Decimal(i) && PoolIdentity(e, j)[10..] == Decimal(j);
      DecimalInjective(i, j);
    }
  }

  /** No earlier candidate has the identity of this one. */
  predicate IsFirst(candidates: seq<Doc>, i: nat)
    requires i < |candidates|
  {
    forall j | 0 <= j < i :: PoolIdentity(candidates[j], j) != PoolIdentity(candidates[i], i)
  }

  /** The first candidate of each identity, in order. */
  function FirstOfEach(candidates: seq<Doc>): seq<Doc> {
    if candidates == [] then []
    else
      var n := |candidates| - 1;
      FirstOfEach(candidates[..n]) + if IsFirst(candidates, n) then [candidates[n]] else []
  }

  lemma FirstOfEachStep(candidates: seq<Doc>, i: nat)
    requires i < |candidates|
    ensures FirstOfEach(candidates[..i + 1]) ==
            FirstOfEach(candidates[..i]) + if IsFirst(candidates, i) then [candidates[i]] else []
  {
    assert candidates[..i + 1][..i] == candidates[..i];
    assert forall j | 0 <= j <= i :: candidates[..i + 1][j] == candidates[j];
  }

  function PoolIdentities(candidates: seq<Doc>, count: nat): set<string>
    requires count <= |candidates|
  {
    set k | 0 <= k < count :: PoolIdentity(candidates[k], k)
  }

  lemma SeenIsNotFirst(candidates: seq<Doc>, i: nat)
    requires i < |candidates|
    ensures PoolIdentity(candidates[i], i) in PoolIdentities(candidates, i) <==> !IsFirst(candidates, i)
    ensures PoolIdentities(candidates, i + 1) == PoolIdentities(candidates, i) + {PoolIdentity(candidates[i], i)}
  {
  }

  predicate EvidenceSeen(docs: seq<Doc>, seen: set<string>) {
    forall e | e in docs && e.evidenceId != "" :: e.evidenceId in seen
  }

  lemma AddedDocumentKeepsUniqueness(docs: seq<Doc>, d: Doc, seen: set<string>, index: nat)
    requires UniqueEvidence(docs) && EvidenceSeen(docs, seen) && PoolIdentity(d, index) !in seen
    ensures UniqueEvidence(docs + [d]) && EvidenceSeen(docs + [d], seen + {PoolIdentity(d, index)})
  {
    forall e, f | e in docs + [d] && f in docs + [d] && e.evidenceId == f.evidenceId != ""
      ensures e == f
    {
      assert (e in docs || e == d) && (f in docs || f == d);
    }
  }

  /** The pool after the first candidates. */
  predicate Pooled(docs: seq<Doc>, seen: set<string>, candidates: seq<Doc>, i: nat) {
    && i <= |candidates| && docs == FirstOfEach(candidates[..i]) && seen == PoolIdentities(candidates, i)
    && UniqueEvidence(docs) && EvidenceSeen(docs, seen)
  }

  lemma PoolStep(docs: seq<Doc>, seen: set<string>, candidates: seq<Doc>, i: nat)
    requires i < |candidates| && Pooled(docs, seen, candidates, i)
    ensures var identity := PoolIdentity(candidates[i], i);
            if identity in seen then Pooled(docs, seen, candidates, i + 1)
            else Pooled(docs + [candidates[i]], seen + {identity}, candidates, i + 1)
  {
    FirstOfEachStep(candidates, i);
    SeenIsNotFirst(candidates, i);
    if PoolIdentity(candidates[i], i) !in seen {
      AddedDocumentKeepsUniqueness(docs, candidates[i], seen, i);
    }
  }

  /** The document pool the audit draws from: the first candidate of each identity, in order. */
  method UniqueDocuments(candidates: seq<Doc>) returns (docs: seq<Doc>)
    ensures docs == FirstOfEach(candidates) && UniqueEvidence(docs)
  {
    docs := [];
    var seen: set<string> := {};
    for i := 0 to |candidates|
      invariant Pooled(docs, seen, candidates, i)
    {
      var identity := PoolIdentity(candidates[i], i);
      PoolStep(docs, seen, candidates, i);
      if identity !in seen {
        docs := docs + [candidates[i]];
        seen := seen + {identity};
      }
    }
    assert candidates[..|candidates|] == candidates;
  }

  /** With one document per evidence identifier, the chunks reported as support are exactly those of the
      claim's own documents that support it. */
  lemma SupportingChunksAreCited(claim: Prepared, answer: Option<Assessment>, batchDocs: seq<Doc>, docs: seq<Doc>, lex: Lexer, chunk: string)
    requires UniqueEvidence(docs)
    requires (forall d | d in batchDocs :: d in docs) && (forall d | d in claim.allowed :: d in docs)
    requires CitedEvidenceIds(claim) <= Ids(batchDocs, true)
    ensures var r := Judge(claim, answer, batchDocs, true, lex);
            chunk in r.supportingChunkIds <==>
            chunk != "" && exists d | d in claim.allowed :: d.chunkId == chunk && d.evidenceId in r.supportingEvidenceIds && d.evidenceId != ""
  {
    var r := Judge(claim, answer, batchDocs, true, lex);
    if TakenUp(claim, answer, lex) {
      forall d | d in claim.allowed && d.evidenceId in r.supportingEvidenceIds && d.evidenceId != ""
        ensures ChunkOf(batchDocs, d.evidenceId) == d.chunkId
      {
        ChunkOfOwn(d, batchDocs, docs);
      }
      if chunk in r.supportingChunkIds {
        assert BehindOne(batchDocs, r.supportingEvidenceIds, chunk);
        var e :| e in r.supportingEvidenceIds && ChunkOf(batchDocs, e) == chunk;
        assert e in CitedEvidenceIds(claim);
        var own :| own in claim.allowed && Identity(own, true) != "" && Identity(own, true) == e;
        assert own.chunkId == chunk;
      }
    }
  }

  lemma ChunkOfOwn(d: Doc, batchDocs: seq<Doc>, docs: seq<Doc>)
    requires UniqueEvidence(docs) && d in docs && (forall x | x in batchDocs :: x in docs)
    requires d.evidenceId != "" && d.evidenceId in Ids(batchDocs, true)
    ensures ChunkOf(batchDocs, d.evidenceId) == d.chunkId
  {
    var x :| x in batchDocs && Identity(x, true) != "" && Identity(x, true) == d.evidenceId;
    assert x.evidenceId == d.evidenceId && x == d;
    var y :| y in batchDocs && y.evidenceId == d.evidenceId && y.chunkId == ChunkOf(batchDocs, d.evidenceId);
  }

  // ----- The audit summary

  function Count(results: seq<ClaimResult>, v: Verdict): nat {
    if results == [] then 0 else Count(results[1..], v) + (if results[0].verdict == v then 1 else 0)
  }

  /** The factual claims with a document to their name. */
  function CountCited(results: seq<ClaimResult>): nat {
    if results == [] then 0
    else CountCited(results[1..]) + (if results[0].verdict != NotFactual && results[0].citedChunkIds != {} then 1 else 0)
  }

  datatype Counts = Counts(claims: nat, supported: nat, unsupported: nat, insufficient: nat, cited: nat, skipped: nat)

  lemma {:induction false} CountBound(results: seq<ClaimResult>, v: Verdict)
    ensures Count(results, v) <= |results|
  {
    if results != [] {
      CountBound(results[1..], v);
    }
  }

  function WithVerdict(results: seq<ClaimResult>, v: Verdict): set<nat> {
    set i: nat | i < |results| && results[i].verdict == v
  }

  function FactualAndCited(results: seq<ClaimResult>): set<nat> {
    set i: nat | i < |results| && results[i].verdict != NotFactual && results[i].citedChunkIds != {}
  }

  /** Counting is the size of the set of positions. */
  lemma {:induction false} CountIsSize(results: seq<ClaimResult>, v: Verdict)
    ensures Count(results, v) == |WithVerdict(results, v)| && CountCited(results) == |FactualAndCited(results)|
  {
    if results != [] {
      var rest := results[1..];
      CountIsSize(rest, v);
      ShiftedSize(WithVerdict(rest, v), WithVerdict(results, v));
      ShiftedSize(FactualAndCited(rest), FactualAndCited(results));
    }
  }

  /** Positions moved up by one, with or without position 0. */
  lemma {:induction false} ShiftedSize(small: set<nat>, big: set<nat>)
    requires forall i: nat :: i in small <==> i + 1 in big
    ensures |big| == |small| + if 0 in big then 1 else 0
    decreases small
  {
    if small == {} {
      assert big == {} || big == {0} by {
        forall i | i in big ensures i == 0 {
          assert i != 0 ==> i - 1 in small;
        }
      }
    } else {
      var i :| i in small;
      ShiftedSize(small - {i}, big - {i + 1});
    }
  }

  function AuditCounts(results: seq<ClaimResult>): Counts {
    CountBound(results, NotFactual);
    var claims := |results| - Count(results, NotFactual);
    Counts(claims, Count(results, Supported), Count(results, Unsupported), Count(results, Insufficient),
           CountCited(results), |results| - claims)
  }

  /** Every ruling is counted once, and the answer passes exactly when support is complete. */
  lemma {:induction false} CountsAddUp(results: seq<ClaimResult>)
    ensures var c := AuditCounts(results);
            && c.supported + c.unsupported + c.insufficient == c.claims && c.cited <= c.claims
            && c.claims + c.skipped == |results|
            && (AnyFailing(results) <==> c.supported < c.claims)
            && c.supported == |WithVerdict(results, Supported)| && c.unsupported == |WithVerdict(results, Unsupported)|
            && c.insufficient == |WithVerdict(results, Insufficient)| && c.skipped == |WithVerdict(results, NotFactual)|
            && c.cited == |FactualAndCited(results)|
  {
    CountIsSize(results, Supported);
    CountIsSize(results, Unsupported);
    CountIsSize(results, Insufficient);
    CountIsSize(results, NotFactual);
    if results != [] {
      CountsAddUp(results[1..]);
      assert results == [results[0]] + results[1..];
      assert AnyFailing(results) <==> Failing(results[0].verdict) || AnyFailing(results[1..]) by {
        if AnyFailing(results[1..]) {
          var i :| 0 <= i < |results[1..]| && Failing(results[1..][i].verdict);
          assert Failing(results[i + 1].verdict);
        }
        if AnyFailing(results) && !Failing(results[0].verdict) {
          var i :| 0 <= i < |results| && Failing(results[i].verdict);
          assert Failing(results[1..][i - 1].verdict);
        }
      }
    }
  }

  /** A share of the factual claims; there is none when there are no such claims. */
  function Rate(part: nat, claims: nat): Option<real> {
    if claims == 0 then None else Some(Fraction(part, claims))
  }

  /** The rate is the share `part` of `claims`. */
  predicate IsShare(rate: Option<real>, part: nat, claims: nat) {
    if claims == 0 then rate.None? else rate.Some? && 0.0 <= rate.value <= 1.0 && Product(rate.value, claims as real) == part as real
  }

  lemma RateIsShare(part: nat, claims: nat)
    requires part <= claims
    ensures IsShare(Rate(part, claims), part, claims)
    ensures Rate(part, claims) == Some(1.0) <==> part == claims && claims > 0
  {
    if claims > 0 {
      FractionEnds(part, claims);
      TimesWhole(part, claims);
    }
  }

  /** The rates of the summary are shares of the factual claims, absent without such claims, and the
      support rate is 1 exactly when there are factual claims and no ruling fails. */
  lemma SummaryRates(results: seq<ClaimResult>)
    ensures var c := AuditCounts(results);
            && IsShare(Rate(c.supported, c.claims), c.supported, c.claims)
            && IsShare(Rate(c.unsupported, c.claims), c.unsupported, c.claims)
            && IsShare(Rate(c.cited, c.claims), c.cited, c.claims)
            && (Rate(c.supported, c.claims) == Some(1.0) <==> c.claims > 0 && !AnyFailing(results))
            && (c.claims == 0 ==> !AnyFailing(results))
  {
    CountsAddUp(results);
    var c := AuditCounts(results);
    RateIsShare(c.supported, c.claims);
    RateIsShare(c.unsupported, c.claims);
    RateIsShare(c.cited, c.claims);
  }
}
