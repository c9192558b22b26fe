/** Documents, claim units and the closed evidence set of each claim. */
module ClaimModel {
  import opened Numerals

  /** A retrieved document as the audit reads it. `refKeys` are the physical citations
      (`document:…:Pn`, `knowledge:…`) that name it. Empty strings mean "absent"; the
      body tells apart documents that are alike in everything else. */
  datatype Doc = Doc(evidenceId: string, chunkId: string, refKeys: set<string>, body: string)

  datatype ClaimUnit = ClaimUnit(claimId: string, text: string, refs: seq<string>)

  /** The canonical E001 / E1000 spelling of an evidence identifier. */
  predicate IsValidEvidenceId(s: string) {
    && 4 <= |s| <= 160
    && s[0] == 'E'
    && (forall i | 1 <= i < |s| :: '0' <= s[i] <= '9')
    && (exists i | 1 <= i < |s| :: s[i] != '0')
    && (|s| == 4 || s[1] != '0')
  }

  /** The identifier with a given number: at least three digits. */
  function FormatEvidenceId(n: nat): string {
    "E" + ThreeWide(Decimal(n))
  }

  function ThreeWide(s: string): string {
    if |s| == 1 then "00" + s else if |s| == 2 then "0" + s else s
  }

  /** The valid identifiers are the short enough ones that are printed for a positive number. */
  lemma EvidenceIdSpelling(s: string)
    ensures IsValidEvidenceId(s) <==> |s| <= 160 && exists n: nat | n > 0 :: s == FormatEvidenceId(n)
  {
    if IsValidEvidenceId(s) {
      ValidIsFormatted(s);
    }
    if |s| <= 160 && exists n: nat | n > 0 :: s == FormatEvidenceId(n) {
      var n: nat :| n > 0 && s == FormatEvidenceId(n);
      FormattedIsValid(n);
    }
  }

  lemma FormattedIsValid(n: nat)
    requires n > 0
    ensures |FormatEvidenceId(n)| <= 160 ==> IsValidEvidenceId(FormatEvidenceId(n))
  {
    var d, s := Decimal(n), FormatEvidenceId(n);
    DecimalLeads(n);
    assert s[|s| - |d|] == d[0];
  }

  lemma ValidIsFormatted(s: string)
    requires IsValidEvidenceId(s)
    ensures exists n: nat | n > 0 :: s == FormatEvidenceId(n)
  {
    var d := s[1..];
    assert s == "E" + d && PlainDigits(d);
    var core := if d[0] != '0' then d else if d[1] != '0' then d[1..] else d[2..];
    assert core[0] != '0' by {
      assert d[0] == '0' ==> |d| == 3;
      var i :| 1 <= i < |s| && s[i] != '0';
      assert d[i - 1] != '0';
    }
    DecimalOfValue(core);
    assert d == if d[0] != '0' then core else if d[1] != '0' then "0" + core else "00" + core;
    assert s == FormatEvidenceId(Value(core));
  }

  function Keep<T(!new)>(s: seq<T>, p: T -> bool): (r: seq<T>)
    ensures forall x :: x in r <==> x in s && p(x)
    ensures |r| <= |s|
  {
    if s == [] then []
    else (if p(s[0]) then [s[0]] else []) + Keep(s[1..], p)
  }

  /** Keeping works element by element, in order. */
  lemma {:induction false} KeepConcat<T(!new)>(s: seq<T>, t: seq<T>, p: T -> bool)
    ensures Keep(s + t, p) == Keep(s, p) + Keep(t, p)
  {
    if s == [] {
      assert s + t == t;
    } else {
      assert (s + t)[1..] == s[1..] + t;
      KeepConcat(s[1..], t, p);
    }
  }

  /** Evidence identifiers, when the claim cites any, shut out its physical citations. */
  function AllowedDocs(unit: ClaimUnit, docs: seq<Doc>): seq<Doc> {
    var refs := set r | r in unit.refs;
    var evidenceRefs := set r | r in refs && IsValidEvidenceId(r);
    if evidenceRefs != {} then Keep(docs, (d: Doc) => d.evidenceId in evidenceRefs)
    else Keep(docs, (d: Doc) => refs * d.refKeys != {})
  }

  predicate UsesEvidenceIds(unit: ClaimUnit) {
    exists r | r in unit.refs :: IsValidEvidenceId(r)
  }

  /** The claim itself names this document: by its evidence identifier, once it names any such
      identifier, and otherwise by one of its physical citations. */
  predicate MayUse(unit: ClaimUnit, d: Doc) {
    if UsesEvidenceIds(unit) then IsValidEvidenceId(d.evidenceId) && d.evidenceId in unit.refs
    else exists r | r in unit.refs :: r in d.refKeys
  }

  /** A claim may use exactly the retrieved documents that it names itself. */
  lemma AllowedDocsExactly(unit: ClaimUnit, docs: seq<Doc>, d: Doc)
    ensures d in AllowedDocs(unit, docs) <==> d in docs && MayUse(unit, d)
  {
    var refs := set r | r in unit.refs;
    var evidenceRefs := set r | r in refs && IsValidEvidenceId(r);
    assert evidenceRefs != {} <==> UsesEvidenceIds(unit) by {
      if UsesEvidenceIds(unit) {
        var r :| r in unit.refs && IsValidEvidenceId(r);
        assert r in evidenceRefs;
      }
    }
    if !UsesEvidenceIds(unit) {
      assert refs * d.refKeys != {} <==> exists r | r in unit.refs :: r in d.refKeys by {
        if exists r | r in unit.refs :: r in d.refKeys {
          var r :| r in unit.refs && r in d.refKeys;
          assert r in refs * d.refKeys;
        }
      }
    }
  }

  /** And they keep their order, however the documents are split. */
  lemma AllowedDocsInOrder(unit: ClaimUnit, docs: seq<Doc>, more: seq<Doc>)
    ensures AllowedDocs(unit, docs + more) == AllowedDocs(unit, docs) + AllowedDocs(unit, more)
    ensures |docs| == 1 ==> AllowedDocs(unit, docs) == if MayUse(unit, docs[0]) then docs else []
  {
    var refs := set r | r in unit.refs;
    var evidenceRefs := set r | r in refs && IsValidEvidenceId(r);
    if evidenceRefs != {} {
      KeepConcat(docs, more, (d: Doc) => d.evidenceId in evidenceRefs);
    } else {
      KeepConcat(docs, more, (d: Doc) => refs * d.refKeys != {});
    }
    if |docs| == 1 {
      AllowedDocsExactly(unit, docs, docs[0]);
      assert docs == [docs[0]];
    }
  }

  function Identity(d: Doc, ledger: bool): string {
    if ledger then d.evidenceId else d.chunkId
  }

  /** The distinct, non-empty identities of a list of documents. */
  function Ids(docs: seq<Doc>, ledger: bool): set<string> {
    set d | d in docs && Identity(d, ledger) != "" :: Identity(d, ledger)
  }

  predicate DistinctIds(docs: seq<Doc>, ledger: bool) {
    && (forall i | 0 <= i < |docs| :: Identity(docs[i], ledger) != "")
    && (forall i, j | 0 <= i < j < |docs| :: Identity(docs[i], ledger) != Identity(docs[j], ledger))
  }

  /** No earlier document of the list carries the identity of `d`. */
  predicate FirstWithIdentity(docs: seq<Doc>, d: Doc, ledger: bool) {
    exists i | 0 <= i < |docs| ::
      docs[i] == d && forall j | 0 <= j < i :: Identity(docs[j], ledger) != Identity(d, ledger)
  }

  predicate AllFirst(unique: seq<Doc>, docs: seq<Doc>, ledger: bool) {
    forall d | d in unique :: d in docs && FirstWithIdentity(docs, d, ledger)
  }

  lemma AllFirstLater(unique: seq<Doc>, docs: seq<Doc>, d: Doc, ledger: bool)
    requires AllFirst(unique, docs, ledger)
    ensures AllFirst(unique, docs + [d], ledger)
  {
    forall x | x in unique
      ensures FirstWithIdentity(docs + [d], x, ledger)
    {
      var i :| 0 <= i < |docs| && docs[i] == x && forall j | 0 <= j < i :: Identity(docs[j], ledger) != Identity(x, ledger);
      assert (docs + [d])[i] == x;
    }
  }

  lemma AppendFirst(unique: seq<Doc>, docs: seq<Doc>, d: Doc, ledger: bool)
    requires AllFirst(unique, docs + [d], ledger) && DistinctIds(unique, ledger) && Ids(unique, ledger) == Ids(docs, ledger)
    requires Identity(d, ledger) != "" && Identity(d, ledger) !in Ids(docs, ledger)
    ensures AllFirst(unique + [d], docs + [d], ledger) && DistinctIds(unique + [d], ledger)
  {
    assert forall j | 0 <= j < |unique| :: unique[j] in unique && Identity(unique[j], ledger) in Ids(unique, ledger);
    forall j | 0 <= j < |docs|
      ensures Identity(docs[j], ledger) != Identity(d, ledger)
    {
      assert docs[j] in docs;
    }
    assert (docs + [d])[|docs|] == d;
  }

  /** One document per identity: the first one seen. */
  method UniqueAllowedDocs(docs: seq<Doc>, ledger: bool) returns (unique: seq<Doc>)
    ensures DistinctIds(unique, ledger)
    ensures Ids(unique, ledger) == Ids(docs, ledger)
    ensures AllFirst(unique, docs, ledger)
  {
    unique := [];
    var seen: set<string> := {};
    for i := 0 to |docs|
      invariant seen == Ids(unique, ledger) == Ids(docs[..i], ledger)
      invariant DistinctIds(unique, ledger)
      invariant AllFirst(unique, docs[..i], ledger)
    {
      var d := docs[i];
      var identity := Identity(d, ledger);
      assert docs[..i + 1] == docs[..i] + [d];
      IdsAppend(docs[..i], d, ledger);
      AllFirstLater(unique, docs[..i], d, ledger);
      if identity != "" && identity !in seen {
        IdsAppend(unique, d, ledger);
        AppendFirst(unique, docs[..i], d, ledger);
        seen := seen + {identity};
        unique := unique + [d];
      }
    }
    assert docs[..|docs|] == docs;
  }

  lemma IdsAppend(docs: seq<Doc>, d: Doc, ledger: bool)
    ensures Ids(docs + [d], ledger) ==
            Ids(docs, ledger) + (if Identity(d, ledger) != "" then {Identity(d, ledger)} else {})
  {
    forall x | x in Ids(docs, ledger)
      ensures x in Ids(docs + [d], ledger)
    {
      var e :| e in docs && Identity(e, ledger) != "" && Identity(e, ledger) == x;
      assert e in docs + [d];
    }
    assert d in docs + [d];
  }

  /** A list with one document per identity has as many documents as identities. */
  lemma {:induction false} DistinctIdsCount(docs: seq<Doc>, ledger: bool)
    requires DistinctIds(docs, ledger)
    ensures |Ids(docs, ledger)| == |docs|
  {
    if docs == [] {
    } else {
      var init, d := docs[..|docs| - 1], docs[|docs| - 1];
      assert docs == init + [d];
      DistinctIdsCount(init, ledger);
      IdsAppend(init, d, ledger);
      assert Identity(d, ledger) !in Ids(init, ledger);
    }
  }
}
