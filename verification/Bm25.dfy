/** The inverted index: posting lists, hash maps iterated in any order, and a prefix of a sort. */
module Bm25 {
  import opened Wrappers
  import opened Collections
  import opened Fractions
  import opened Bm25Spec

  datatype Posting = Posting(doc: nat, freq: real)

  datatype Index = Index(
    params: Params, avgdl: real, size: nat, docLen: seq<real>,
    idf: map<string, real>, postings: map<string, seq<Posting>>, corpus: Corpus)

  /** The documents that contain a term, in order, with its frequency in each. */
  function PostingList(c: Corpus, t: string): (r: seq<Posting>)
    ensures |r| == Df(c, t)
    ensures forall x | x in r :: x.doc < |c|
  {
    if c == [] then []
    else
      var n := |c| - 1;
      var freq := Tf(c[n], t);
      PostingList(c[..n], t) + (if freq > 0 then [Posting(n, freq as real)] else [])
  }

  function DocLengths(c: Corpus): (r: seq<real>)
    ensures |r| == |c| && forall d | 0 <= d < |c| :: r[d] == |c[d]| as real
  {
    seq(|c|, d requires 0 <= d < |c| => |c[d]| as real)
  }

  function IdfMap(c: Corpus, p: Params, ln: Log): map<string, real> {
    map t | t in Elements(Words(c)) :: Idf(c, t, p, ln)
  }

  function PostingMap(c: Corpus): map<string, seq<Posting>> {
    map t | t in Elements(Words(c)) :: PostingList(c, t)
  }

  /** The one index a corpus has. */
  function IndexOf(c: Corpus, p: Params, ln: Log): Index {
    Index(p, AvgDl(c), |c|, DocLengths(c), IdfMap(c, p, ln), PostingMap(c), c)
  }

  // ----- Building

  method CountTokens(doc: Document) returns (freqs: map<string, nat>)
    ensures freqs.Keys == Elements(doc)
    ensures forall t | t in freqs :: freqs[t] == Tf(doc, t)
  {
    freqs := map[];
    for i := 0 to |doc|
      invariant freqs.Keys == Elements(doc[..i])
      invariant forall t | t in freqs :: freqs[t] == Tf(doc[..i], t)
    {
      var w := doc[i];
      assert doc[..i + 1] == doc[..i] + [w];
      assert doc[..i + 1][..i] == doc[..i];
      TfPositive(doc[..i], w);
      freqs := freqs[w := (if w in freqs then freqs[w] else 0) + 1];
    }
    assert doc[..|doc|] == doc;
  }

  /** The posting lists and document frequencies of the first documents. */
  ghost predicate Posted(postings: map<string, seq<Posting>>, nd: map<string, nat>, c: Corpus) {
    && postings.Keys == nd.Keys == Elements(Words(c))
    && (forall t | t in postings :: postings[t] == PostingList(c, t))
    && (forall t | t in nd :: nd[t] == Df(c, t))
  }

  /** A document that contains the term adds one posting; one that does not adds none. */
  lemma PostingStep(c: Corpus, n: nat, t: string)
    requires n < |c|
    ensures t in c[n] ==>
              && PostingList(c[..n + 1], t) == PostingList(c[..n], t) + [Posting(n, Tf(c[n], t) as real)]
              && Df(c[..n + 1], t) == Df(c[..n], t) + 1
    ensures t !in c[n] ==> PostingList(c[..n + 1], t) == PostingList(c[..n], t) && Df(c[..n + 1], t) == Df(c[..n], t)
    ensures t !in Words(c[..n]) ==> PostingList(c[..n], t) == [] && Df(c[..n], t) == 0
    ensures t in Words(c[..n + 1]) <==> t in Words(c[..n]) || t in c[n]
  {
    assert c[..n + 1][..n] == c[..n];
    TfPositive(c[n], t);
    WordOccurs(c[..n], t);
    AddWordsElements(Words(c[..n]), c[n], t);
  }

  /** The state between two documents, when the words in `done` have been posted. */
  ghost predicate PostedPart(postings: map<string, seq<Posting>>, nd: map<string, nat>, c: Corpus, n: nat, done: set<string>)
    requires n < |c|
  {
    && postings.Keys == nd.Keys == Elements(Words(c[..n])) + done
    && (forall t | t in postings && t in done :: postings[t] == PostingList(c[..n + 1], t) && nd[t] == Df(c[..n + 1], t))
    && (forall t | t in postings && t !in done :: postings[t] == PostingList(c[..n], t) && nd[t] == Df(c[..n], t))
  }

  lemma PostedWhole(postings: map<string, seq<Posting>>, nd: map<string, nat>, c: Corpus, n: nat)
    requires n < |c| && PostedPart(postings, nd, c, n, Elements(c[n]))
    ensures Posted(postings, nd, c[..n + 1])
  {
    forall t
      ensures t in Words(c[..n + 1]) <==> t in Words(c[..n]) || t in c[n]
      ensures t !in c[n] ==> PostingList(c[..n + 1], t) == PostingList(c[..n], t) && Df(c[..n + 1], t) == Df(c[..n], t)
    {
      PostingStep(c, n, t);
    }
  }

  function AddPosting(postings: map<string, seq<Posting>>, w: string, x: Posting): map<string, seq<Posting>> {
    postings[w := (if w in postings then postings[w] else []) + [x]]
  }

  function AddOne(nd: map<string, nat>, w: string): map<string, nat> {
    nd[w := (if w in nd then nd[w] else 0) + 1]
  }

  lemma PostWord(postings: map<string, seq<Posting>>, nd: map<string, nat>, c: Corpus, n: nat, done: set<string>, w: string)
    requires n < |c| && PostedPart(postings, nd, c, n, done) && w in c[n] && w !in done
    ensures PostedPart(AddPosting(postings, w, Posting(n, Tf(c[n], w) as real)), AddOne(nd, w), c, n, done + {w})
  {
    PostingStep(c, n, w);
  }

  /** Adds one document's counts, whatever order its words come in. */
  method PostDocument(c: Corpus, n: nat, freqs: map<string, nat>, postings: map<string, seq<Posting>>, nd: map<string, nat>)
    returns (postings': map<string, seq<Posting>>, nd': map<string, nat>)
    requires n < |c| && Posted(postings, nd, c[..n])
    requires freqs.Keys == Elements(c[n]) && forall t | t in freqs :: freqs[t] == Tf(c[n], t)
    ensures Posted(postings', nd', c[..n + 1])
  {
    postings', nd' := postings, nd;
    var todo := freqs.Keys;
    ghost var done: set<string> := {};
    while todo != {}
      invariant todo !! done && todo + done == freqs.Keys
      invariant PostedPart(postings', nd', c, n, done)
      decreases todo
    {
      var w :| w in todo;
      PostWord(postings', nd', c, n, done, w);
      postings' := AddPosting(postings', w, Posting(n, freqs[w] as real));
      nd' := AddOne(nd', w);
      todo, done := todo - {w}, done + {w};
    }
    PostedWhole(postings', nd', c, n);
  }

  lemma IdfInsert(c: Corpus, done: set<string>, w: string, ln: Log)
    requires w in Words(c) && w !in done
    ensures SumWithin(Words(c), done + {w}, RawIdfs(c, ln)) == SumWithin(Words(c), done, RawIdfs(c, ln)) + RawIdf(c, w, ln)
  {
    WordsDistinct(c);
    DistinctTf(Words(c), w);
    SumWithinInsert(Words(c), done, w, RawIdfs(c, ln));
  }

  lemma IdfSum(c: Corpus, ln: Log)
    ensures SumWithin(Words(c), Elements(Words(c)), RawIdfs(c, ln)) == SumOver(Words(c), RawIdfs(c, ln))
  {
    SumWithinAll(Words(c), Elements(Words(c)), RawIdfs(c, ln));
  }

  ghost predicate RawSoFar(idf: map<string, real>, sum: real, negative: seq<string>, done: set<string>, c: Corpus, ln: Log) {
    && idf.Keys == done && (forall t | t in idf :: idf[t] == RawIdf(c, t, ln))
    && sum == SumWithin(Words(c), done, RawIdfs(c, ln))
    && (forall t :: t in negative <==> t in done && RawIdf(c, t, ln) < 0.0)
  }

  lemma RawStep(idf: map<string, real>, sum: real, negative: seq<string>, done: set<string>, w: string, value: real, c: Corpus, ln: Log)
    requires RawSoFar(idf, sum, negative, done, c, ln) && w in Words(c) && w !in done && value == RawIdf(c, w, ln)
    ensures RawSoFar(idf[w := value], sum + value, if value < 0.0 then negative + [w] else negative, done + {w}, c, ln)
  {
    IdfInsert(c, done, w, ln);
  }

  /** The raw values, their sum and the negative ones, whatever order the hash map is walked in. */
  method RawIdfLoop(nd: map<string, nat>, c: Corpus, ln: Log) returns (idf: map<string, real>, sum: real, negative: seq<string>)
    requires nd.Keys == Elements(Words(c)) && forall t | t in nd :: nd[t] == Df(c, t)
    ensures RawSoFar(idf, sum, negative, nd.Keys, c, ln)
  {
    idf, sum, negative := map[], 0.0, [];
    var todo := nd.Keys;
    ghost var done: set<string> := {};
    SumWithinNone(Words(c), RawIdfs(c, ln));
    while todo != {}
      invariant todo !! done && todo + done == nd.Keys
      invariant RawSoFar(idf, sum, negative, done, c, ln)
      decreases todo
    {
      var w :| w in todo;
      var value := IdfValue(|c|, nd[w], ln);
      RawStep(idf, sum, negative, done, w, value, c, ln);
      idf := idf[w := value];
      sum := sum + value;
      if value < 0.0 {
        negative := negative + [w];
      }
      todo, done := todo - {w}, done + {w};
    }
    assert done == nd.Keys;
  }

  lemma AverageFromSum(c: Corpus, ln: Log, n: nat, sum: real)
    requires n == |Elements(Words(c))| && sum == SumWithin(Words(c), Elements(Words(c)), RawIdfs(c, ln))
    ensures sum / (if n > 1 then n else 1) as real == AverageIdf(c, ln)
  {
    IdfSum(c, ln);
    WordsDistinct(c);
    CountShowsRepetition(Words(c));
  }

  lemma IdfEntry(c: Corpus, t: string, p: Params, ln: Log, average: real, value: real)
    requires average == AverageIdf(c, ln)
    requires value == if RawIdf(c, t, ln) < 0.0 then p.epsilon * average else RawIdf(c, t, ln)
    ensures value == Idf(c, t, p, ln)
  {
  }

  lemma IdfMapFromParts(idf: map<string, real>, negative: seq<string>, eps: real, average: real, c: Corpus, p: Params, ln: Log)
    requires average == AverageIdf(c, ln) && eps == p.epsilon * average
    requires idf.Keys == Elements(Words(c))
    requires forall t | t in idf :: idf[t] == if t in negative then eps else RawIdf(c, t, ln)
    requires forall t :: t in negative <==> t in idf.Keys && RawIdf(c, t, ln) < 0.0
    ensures idf == IdfMap(c, p, ln)
  {
    forall t | t in idf
      ensures idf[t] == Idf(c, t, p, ln)
    {
      IdfEntry(c, t, p, ln, average, idf[t]);
    }
  }

  method ComputeIdf(nd: map<string, nat>, c: Corpus, p: Params, ln: Log) returns (idf: map<string, real>)
    requires nd.Keys == Elements(Words(c)) && forall t | t in nd :: nd[t] == Df(c, t)
    ensures idf == IdfMap(c, p, ln)
  {
    var raw, sum, negative := RawIdfLoop(nd, c, ln);
    var unique := if |nd| > 1 then |nd| else 1;
    var average := sum / unique as real;
    var eps := p.epsilon * average;
    idf := Overwrite(raw, negative, eps);
    AverageFromSum(c, ln, |nd.Keys|, sum);
    IdfMapFromParts(idf, negative, eps, average, c, p, ln);
  }

  method Overwrite(idf: map<string, real>, words: seq<string>, value: real) returns (r: map<string, real>)
    requires forall w | w in words :: w in idf
    ensures r.Keys == idf.Keys
    ensures forall t | t in r :: r[t] == if t in words then value else idf[t]
  {
    r := idf;
    for i := 0 to |words|
      invariant r.Keys == idf.Keys
      invariant forall t | t in r :: r[t] == if t in words[..i] then value else idf[t]
    {
      r := r[words[i] := value];
      assert words[..i + 1] == words[..i] + [words[i]];
    }
    assert words[..|words|] == words;
  }

  method PostCorpus(c: Corpus)
    returns (postings: map<string, seq<Posting>>, nd: map<string, nat>, docLen: seq<real>, total: nat)
    ensures Posted(postings, nd, c) && postings == PostingMap(c)
    ensures docLen == DocLengths(c) && total == TotalTokens(c)
  {
    postings, nd, docLen, total := map[], map[], [], 0;
    for n := 0 to |c|
      invariant Posted(postings, nd, c[..n])
      invariant docLen == DocLengths(c[..n])
      invariant total == TotalTokens(c[..n])
    {
      assert c[..n + 1][..n] == c[..n];
      docLen := docLen + [|c[n]| as real];
      total := total + |c[n]|;
      var freqs := CountTokens(c[n]);
      postings, nd := PostDocument(c, n, freqs, postings, nd);
    }
    assert c[..|c|] == c;
  }

  /** Builds the index; in exact arithmetic the result depends on the corpus alone. */
  method BuildIndex(c: Corpus, p: Params, ln: Log) returns (idx: Index)
    ensures idx == IndexOf(c, p, ln)
  {
    var postings, nd, docLen, total := PostCorpus(c);
    var avgdl := if |c| > 0 then total as real / |c| as real else 0.0;
    var idf := ComputeIdf(nd, c, p, ln);
    idx := Index(p, avgdl, |c|, docLen, idf, postings, c);
  }

  /** Keeps some rows, appends new ones and builds again. */
  method RebuildFromKept(idx: Index, keep: seq<nat>, added: seq<Document>, ln: Log) returns (r: Result<Index>)
    ensures r.Err? <==> exists i | 0 <= i < |keep| :: keep[i] >= |idx.corpus|
    ensures r.Ok? ==> r.value == IndexOf(EditedRows(idx.corpus, keep, added), idx.params, ln)
  {
    var rows: seq<Document> := [];
    for i := 0 to |keep|
      invariant forall k | 0 <= k < i :: keep[k] < |idx.corpus|
      invariant rows == KeptRows(idx.corpus, keep[..i])
    {
      if keep[i] >= |idx.corpus| {
        return Err("keep index out of range");
      }
      assert keep[..i + 1][..i] == keep[..i];
      rows := rows + [idx.corpus[keep[i]]];
    }
    assert keep[..|keep|] == keep;
    var built := BuildIndex(rows + added, idx.params, ln);
    r := Ok(built);
  }

  function KeptRows(c: Corpus, keep: seq<nat>): Corpus
    requires forall i | 0 <= i < |keep| :: keep[i] < |c|
  {
    if keep == [] then [] else KeptRows(c, keep[..|keep| - 1]) + [c[keep[|keep| - 1]]]
  }

  function EditedRows(c: Corpus, keep: seq<nat>, added: seq<Document>): Corpus
    requires forall i | 0 <= i < |keep| :: keep[i] < |c|
  {
    KeptRows(c, keep) + added
  }

  datatype Edit = Edit(keep: seq<nat>, added: seq<Document>)

  /** The rows a chain of edits ends with, unless some edit keeps a row that is not there. */
  function FinalRows(c: Corpus, edits: seq<Edit>): Result<Corpus> {
    if edits == [] then Ok(c)
    else
      var before := FinalRows(c, edits[..|edits| - 1]);
      var e := edits[|edits| - 1];
      if before.Err? then before
      else if exists i | 0 <= i < |e.keep| :: e.keep[i] >= |before.value| then Err("keep index out of range")
      else Ok(EditedRows(before.value, e.keep, e.added))
  }

  /** A chain of incremental rebuilds gives exactly the index of one fresh build of its final rows. */
  method RebuildChain(c: Corpus, edits: seq<Edit>, p: Params, ln: Log) returns (r: Result<Index>)
    ensures r.Ok? <==> FinalRows(c, edits).Ok?
    ensures r.Ok? ==> r.value == IndexOf(FinalRows(c, edits).value, p, ln)
  {
    var first := BuildIndex(c, p, ln);
    r := Ok(first);
    for i := 0 to |edits|
      invariant r.Ok? <==> FinalRows(c, edits[..i]).Ok?
      invariant r.Ok? ==> r.value == IndexOf(FinalRows(c, edits[..i]).value, p, ln)
    {
      assert edits[..i + 1][..i] == edits[..i];
      if r.Ok? {
        r := RebuildFromKept(r.value, edits[i].keep, edits[i].added, ln);
      }
    }
    assert edits[..|edits|] == edits;
  }

  // ----- Scoring

  /** What one posting adds for a token that occurs `count` times in the query. */
  function Term(idx: Index, x: Posting, count: real, idf: real): real
    requires x.doc < |idx.docLen| && idx.avgdl != 0.0
  {
    Product(Product(count, idf), Saturation(x.freq, idx.docLen[x.doc], idx.avgdl, idx.params))
  }

  /** Every posting that scoring touches names a document and forces a positive average length; for
      parameters in the usual range its denominator is positive too. */
  lemma PostingIsDefined(c: Corpus, p: Params, t: string, x: Posting)
    requires x in PostingList(c, t)
    ensures x.doc < |c| && x.freq == Tf(c[x.doc], t) as real > 0.0 && AvgDl(c) > 0.0
    ensures p.Sane() ==> Denominator(x.freq, |c[x.doc]| as real, AvgDl(c), p) > 0.0
  {
    PostingIsOccurrence(c, t, x);
    OccurrenceForcesLength(c, x.doc, t);
    if p.Sane() {
      DenominatorPositive(x.freq, |c[x.doc]| as real, AvgDl(c), p);
    }
  }

  /** The term computed from a posting is the direct gain, once per occurrence in the query. */
  lemma TermIsGain(c: Corpus, p: Params, ln: Log, t: string, x: Posting, count: real)
    requires x in PostingList(c, t) && x.doc < |c| && AvgDl(c) > 0.0
    ensures Term(IndexOf(c, p, ln), x, count, Idf(c, t, p, ln)) == Product(count, Gain(c, x.doc, t, p, ln))
  {
    PostingIsOccurrence(c, t, x);
    ProductAssociates(count, Idf(c, t, p, ln), Saturation(x.freq, |c[x.doc]| as real, AvgDl(c), p));
  }

  lemma {:induction false} PostingIsOccurrence(c: Corpus, t: string, x: Posting)
    requires x in PostingList(c, t)
    ensures x.doc < |c| && x.freq == Tf(c[x.doc], t) as real && Tf(c[x.doc], t) > 0
  {
    var n := |c| - 1;
    if x in PostingList(c[..n], t) {
      PostingIsOccurrence(c[..n], t, x);
    }
  }

  predicate NoneBetween(c: Corpus, t: string, lo: nat, hi: nat)
    requires hi <= |c|
  {
    forall d | lo <= d < hi :: Tf(c[d], t) == 0
  }

  /** The document at which the rest of a posting list starts. */
  function RestFrom(list: seq<Posting>, j: nat, n: nat): nat {
    if j < |list| then list[j].doc else n
  }

  /** From this posting to the next, only documents without the term are skipped. */
  predicate WalksFrom(list: seq<Posting>, j: nat, c: Corpus, t: string)
    requires j < |list|
  {
    && list[j].doc < RestFrom(list, j + 1, |c|) <= |c|
    && NoneBetween(c, t, list[j].doc + 1, RestFrom(list, j + 1, |c|))
  }

  /** A posting list walks through the corpus in order and misses no document with the term. */
  predicate Walks(list: seq<Posting>, c: Corpus, t: string) {
    && RestFrom(list, 0, |c|) <= |c|
    && NoneBetween(c, t, 0, RestFrom(list, 0, |c|))
    && (forall j | 0 <= j < |list| :: WalksFrom(list, j, c, t))
  }

  lemma NoneBetweenExtends(c: Corpus, t: string, lo: nat, hi: nat, n: nat)
    requires n < |c| && hi <= n && NoneBetween(c[..n], t, lo, hi)
    ensures NoneBetween(c, t, lo, hi)
    ensures Tf(c[n], t) == 0 && hi == n ==> NoneBetween(c, t, lo, n + 1)
  {
    assert forall d | lo <= d < hi :: c[..n][d] == c[d];
  }

  lemma WalkExtends(init: seq<Posting>, list: seq<Posting>, c: Corpus, t: string, n: nat, j: nat)
    requires |c| == n + 1 && j < |init| && WalksFrom(init, j, c[..n], t)
    requires if Tf(c[n], t) > 0 then exists f :: list == init + [Posting(n, f)] else list == init
    ensures WalksFrom(list, j, c, t)
  {
    NoneBetweenExtends(c, t, init[j].doc + 1, RestFrom(init, j + 1, n), n);
  }

  lemma {:induction false} PostingsWalk(c: Corpus, t: string)
    ensures Walks(PostingList(c, t), c, t)
  {
    if c != [] {
      var n := |c| - 1;
      PostingsWalk(c[..n], t);
      var init, list := PostingList(c[..n], t), PostingList(c, t);
      NoneBetweenExtends(c, t, 0, RestFrom(init, 0, n), n);
      forall j | 0 <= j < |list|
        ensures WalksFrom(list, j, c, t)
      {
        if j < |init| {
          WalkExtends(init, list, c, t, n, j);
        }
      }
    }
  }

  /** What a token that occurs `count` times in the query adds to each document. */
  ghost predicate SharesOf(shares: seq<real>, c: Corpus, t: string, count: real, p: Params, ln: Log)
  {
    && |shares| == |c|
    && forall d {:trigger Gain(c, d, t, p, ln)} | 0 <= d < |c| :: shares[d] == Product(count, Gain(c, d, t, p, ln))
  }

  lemma MakeShares(c: Corpus, t: string, count: real, p: Params, ln: Log) returns (shares: seq<real>)
    ensures SharesOf(shares, c, t, count, p, ln)
  {
    shares := seq(|c|, d requires 0 <= d < |c| => Product(count, Gain(c, d, t, p, ln)));
  }

  function WithShare(s: seq<real>, d: nat, shares: seq<real>): seq<real>
    requires d < |s| == |shares|
  {
    Raised(s, d, shares[d])
  }

  function Raised(s: seq<real>, d: nat, amount: real): seq<real>
    requires d < |s|
  {
    s[d := s[d] + amount]
  }

  /** Documents without the token get nothing. */
  predicate AbsentAddNothing(shares: seq<real>, c: Corpus, t: string) {
    |shares| == |c| && forall d | 0 <= d < |c| && Tf(c[d], t) == 0 :: shares[d] == 0.0
  }

  lemma AbsentTokenSharesNothing(shares: seq<real>, c: Corpus, t: string, count: real, p: Params, ln: Log)
    requires SharesOf(shares, c, t, count, p, ln)
    ensures AbsentAddNothing(shares, c, t)
  {
    forall d | 0 <= d < |c| && Tf(c[d], t) == 0
      ensures shares[d] == 0.0
    {
      assert Gain(c, d, t, p, ln) == 0.0;
    }
  }

  lemma PostingShare(idx: Index, t: string, x: Posting, count: real, shares: seq<real>, c: Corpus, p: Params, ln: Log)
    requires idx == IndexOf(c, p, ln) && t in idx.idf && x in PostingList(c, t) && SharesOf(shares, c, t, count, p, ln)
    ensures x.doc < |idx.docLen| == |c| && idx.avgdl != 0.0
    ensures Term(idx, x, count, idx.idf[t]) == shares[x.doc]
  {
    PostingIsDefined(c, p, t, x);
    TermIsGain(c, p, ln, t, x, count);
  }

  method ScorePosting(scores: array<real>, idx: Index, t: string, x: Posting, count: real,
                      ghost shares: seq<real>, ghost c: Corpus, ghost p: Params, ghost ln: Log)
    requires idx == IndexOf(c, p, ln) && t in idx.idf && x in PostingList(c, t)
    requires scores.Length == |c| && SharesOf(shares, c, t, count, p, ln)
    modifies scores
    ensures x.doc < |c| && scores[..] == WithShare(old(scores[..]), x.doc, shares)
  {
    PostingShare(idx, t, x, count, shares, c, p, ln);
    var term := Term(idx, x, count, idx.idf[t]);
    AddAt(scores, x.doc, term);
  }

  method AddAt(scores: array<real>, d: nat, amount: real)
    requires d < scores.Length
    modifies scores
    ensures scores[..] == Raised(old(scores[..]), d, amount)
  {
    scores[d] := scores[d] + amount;
  }

  /** Adds one token's terms to the score vector. */
  method AddPostings(scores: array<real>, idx: Index, t: string, count: real,
                     ghost shares: seq<real>, ghost c: Corpus, ghost p: Params, ghost ln: Log)
    requires idx == IndexOf(c, p, ln) && t in idx.idf
    requires scores.Length == |c| && SharesOf(shares, c, t, count, p, ln)
    modifies scores
    ensures forall d | 0 <= d < |c| :: scores[d] == old(scores[d]) + shares[d]
  {
    var list := idx.postings[t];
    AbsentTokenSharesNothing(shares, c, t, count, p, ln);
    PostingsWalk(c, t);
    ghost var upto, start := RestFrom(list, 0, |c|), scores[..];
    for j := 0 to |list|
      invariant upto == RestFrom(list, j, |c|) <= |c|
      invariant ScoredUpTo(scores[..], start, shares, upto)
    {
      ghost var before := scores[..];
      ScorePosting(scores, idx, t, list[j], count, shares, c, p, ln);
      assert WalksFrom(list, j, c, t);
      ScoredFurther(before, scores[..], start, shares, list, j, c, t);
      upto := RestFrom(list, j + 1, |c|);
    }
    assert forall d | 0 <= d < |c| :: scores[d] == scores[..][d];
  }

  /** The documents below `upto` have their share added, the others have not. */
  predicate ScoredUpTo(now: seq<real>, start: seq<real>, shares: seq<real>, upto: nat) {
    && |now| == |start| == |shares| && upto <= |now|
    && (forall d | 0 <= d < upto :: now[d] == start[d] + shares[d])
    && forall d | upto <= d < |now| :: now[d] == start[d]
  }

  lemma ScoredFurther(before: seq<real>, now: seq<real>, start: seq<real>, shares: seq<real>, list: seq<Posting>, j: nat, c: Corpus, t: string)
    requires j < |list| && |shares| == |c| && WalksFrom(list, j, c, t)
    requires ScoredUpTo(before, start, shares, RestFrom(list, j, |c|))
    requires list[j].doc < |before| == |shares| && now == WithShare(before, list[j].doc, shares)
    requires AbsentAddNothing(shares, c, t)
    ensures ScoredUpTo(now, start, shares, RestFrom(list, j + 1, |c|))
  {
  }

  lemma UnknownTokenGainsNothing(c: Corpus, d: nat, t: string, p: Params, ln: Log)
    requires d < |c| && t !in Words(c)
    ensures Gain(c, d, t, p, ln) == 0.0
  {
    WordOccurs(c, t);
    NoOccurrence(c, d, t);
  }

  lemma {:induction false} NoOccurrence(c: Corpus, d: nat, t: string)
    requires d < |c| && Df(c, t) == 0
    ensures Tf(c[d], t) == 0
  {
    if d < |c| - 1 {
      NoOccurrence(c[..|c| - 1], d, t);
    }
  }

  /** Posting-list scoring gives every document its direct BM25 score, whatever order the query's
      hash map is walked in. */
  method ScoresForQuery(idx: Index, query: seq<string>, ghost c: Corpus, ghost p: Params, ghost ln: Log) returns (result: seq<real>)
    requires idx == IndexOf(c, p, ln)
    ensures |result| == |c| && forall d | 0 <= d < |c| :: result[d] == Score(c, d, query, p, ln)
  {
    var counts := CountTokens(query);
    var scores := new real[idx.size](_ => 0.0);
    var todo := counts.Keys;
    ghost var done: set<string> := {};
    NothingScoredYet(scores[..], c, query, p, ln);
    while todo != {}
      invariant todo !! done && todo + done == counts.Keys
      invariant ScoredBy(scores[..], done, c, query, p, ln)
      decreases todo
    {
      var t :| t in todo;
      ScoreToken(scores, idx, t, counts[t], done, query, c, p, ln);
      todo, done := todo - {t}, done + {t};
    }
    result := scores[..];
    forall d | 0 <= d < |c|
      ensures result[d] == Score(c, d, query, p, ln)
    {
      SumWithinAll(query, done, Gains(c, d, p, ln));
    }
  }

  /** Every document has the score of the query's tokens in `done`. */
  ghost predicate ScoredBy(scores: seq<real>, done: set<string>, c: Corpus, query: seq<string>, p: Params, ln: Log)
  {
    |scores| == |c| && forall d | 0 <= d < |c| :: scores[d] == SumWithin(query, done, Gains(c, d, p, ln))
  }

  lemma NothingScoredYet(scores: seq<real>, c: Corpus, query: seq<string>, p: Params, ln: Log)
    requires |scores| == |c| && forall d | 0 <= d < |c| :: scores[d] == 0.0
    ensures ScoredBy(scores, {}, c, query, p, ln)
  {
    forall d | 0 <= d < |c|
      ensures SumWithin(query, {}, Gains(c, d, p, ln)) == 0.0
    {
      SumWithinNone(query, Gains(c, d, p, ln));
    }
  }

  method ScoreToken(scores: array<real>, idx: Index, t: string, count: nat, ghost done: set<string>, ghost query: seq<string>,
                    ghost c: Corpus, ghost p: Params, ghost ln: Log)
    requires idx == IndexOf(c, p, ln) && t !in done && count == Tf(query, t)
    requires ScoredBy(scores[..], done, c, query, p, ln)
    modifies scores
    ensures ScoredBy(scores[..], done + {t}, c, query, p, ln)
  {
    ghost var before := scores[..];
    if t in idx.idf {
      ghost var shares := MakeShares(c, t, count as real, p, ln);
      AddPostings(scores, idx, t, count as real, shares, c, p, ln);
    }
    forall d | 0 <= d < |c|
      ensures scores[d] == SumWithin(query, done + {t}, Gains(c, d, p, ln))
    {
      assert before[d] == SumWithin(query, done, Gains(c, d, p, ln));
      TokenStep(c, d, query, done, t, p, ln);
    }
  }

  lemma TokenStep(c: Corpus, d: nat, query: seq<string>, done: set<string>, t: string, p: Params, ln: Log)
    requires d < |c| && t !in done
    ensures SumWithin(query, done + {t}, Gains(c, d, p, ln)) ==
            SumWithin(query, done, Gains(c, d, p, ln)) + Product(Tf(query, t) as real, Gain(c, d, t, p, ln))
    ensures t !in Words(c) ==> Product(Tf(query, t) as real, Gain(c, d, t, p, ln)) == 0.0
  {
    SumWithinInsert(query, done, t, Gains(c, d, p, ln));
    assert Gains(c, d, p, ln)(t) == Gain(c, d, t, p, ln);
    if t !in Words(c) {
      UnknownTokenGainsNothing(c, d, t, p, ln);
    }
  }
}
