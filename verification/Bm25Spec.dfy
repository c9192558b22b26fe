/** BM25 over a tokenised corpus, stated directly: no posting lists, no hash maps. */
module Bm25Spec {
  import opened Collections
  import opened Fractions

  type Document = seq<string>
  type Corpus = seq<Document>

  type Positive = x: real | x > 0.0 witness 1.0

  /** The natural logarithm is any function on the positive reals. */
  type Log = Positive -> real

  /** The parameters of the index; `pole` is what a division by zero yields, any value whatever. */
  datatype Params = Params(k1: real, b: real, epsilon: real, pole: real) {
    /** The usual range, in which no division by zero occurs. */
    predicate Sane() { k1 >= 0.0 && 0.0 <= b <= 1.0 }
  }

  function Tf(doc: Document, t: string): nat {
    if doc == [] then 0 else Tf(doc[..|doc| - 1], t) + (if doc[|doc| - 1] == t then 1 else 0)
  }

  lemma {:induction false} TfPositive(doc: Document, t: string)
    ensures Tf(doc, t) > 0 <==> t in doc
  {
    if doc != [] {
      TfPositive(doc[..|doc| - 1], t);
      assert doc == doc[..|doc| - 1] + [doc[|doc| - 1]];
    }
  }

  function TotalTokens(c: Corpus): nat {
    if c == [] then 0 else TotalTokens(c[..|c| - 1]) + |c[|c| - 1]|
  }

  function AvgDl(c: Corpus): (r: real)
    ensures r >= 0.0
  {
    if c == [] then 0.0 else TotalTokens(c) as real / |c| as real
  }

  /** The number of documents that contain the term. */
  function Df(c: Corpus, t: string): (r: nat)
    ensures r <= |c|
  {
    if c == [] then 0 else Df(c[..|c| - 1], t) + (if Tf(c[|c| - 1], t) > 0 then 1 else 0)
  }

  /** The distinct words of a corpus, in order of first appearance. */
  function AddWords(words: seq<string>, doc: Document): seq<string> {
    if doc == [] then words
    else
      var init, w := AddWords(words, doc[..|doc| - 1]), doc[|doc| - 1];
      if w in init then init else init + [w]
  }

  function Words(c: Corpus): seq<string> {
    if c == [] then [] else AddWords(Words(c[..|c| - 1]), c[|c| - 1])
  }

  function IdfValue(size: nat, df: nat, ln: Log): real
    requires df <= size
  {
    ln(size as real - df as real + 0.5) - ln(df as real + 0.5)
  }

  function RawIdf(c: Corpus, t: string, ln: Log): real {
    IdfValue(|c|, Df(c, t), ln)
  }

  // ----- Sums over tokens

  /** The sum of `g` over a list of tokens, repeated tokens counting every time. */
  function SumOver(tokens: seq<string>, g: string -> real): real {
    if tokens == [] then 0.0 else SumOver(tokens[..|tokens| - 1], g) + g(tokens[|tokens| - 1])
  }

  /** The part of the sum that comes from the tokens in `done`. */
  function SumWithin(tokens: seq<string>, done: set<string>, g: string -> real): real {
    if tokens == [] then 0.0
    else
      var t := tokens[|tokens| - 1];
      SumWithin(tokens[..|tokens| - 1], done, g) + (if t in done then g(t) else 0.0)
  }

  lemma {:induction false} SumWithinAll(tokens: seq<string>, done: set<string>, g: string -> real)
    requires forall t | t in tokens :: t in done
    ensures SumWithin(tokens, done, g) == SumOver(tokens, g)
  {
    if tokens != [] {
      SumWithinAll(tokens[..|tokens| - 1], done, g);
    }
  }

  lemma {:induction false} SumWithinNone(tokens: seq<string>, g: string -> real)
    ensures SumWithin(tokens, {}, g) == 0.0
  {
    if tokens != [] {
      SumWithinNone(tokens[..|tokens| - 1], g);
    }
  }

  /** Taking in one more distinct token adds its value once per occurrence. */
  lemma {:induction false} SumWithinInsert(tokens: seq<string>, done: set<string>, t: string, g: string -> real)
    requires t !in done
    ensures SumWithin(tokens, done + {t}, g) == SumWithin(tokens, done, g) + Product(Tf(tokens, t) as real, g(t))
  {
    if tokens != [] {
      SumWithinInsert(tokens[..|tokens| - 1], done, t, g);
      var n := Tf(tokens[..|tokens| - 1], t);
      assert (n + 1) as real * g(t) == n as real * g(t) + g(t);
    }
  }

  function RawIdfs(c: Corpus, ln: Log): string -> real {
    (t: string) => RawIdf(c, t, ln)
  }

  function AverageIdf(c: Corpus, ln: Log): real {
    var n := if |Words(c)| > 1 then |Words(c)| else 1;
    SumOver(Words(c), RawIdfs(c, ln)) / n as real
  }

  /** Negative values are replaced by a fraction of the average. */
  function Idf(c: Corpus, t: string, p: Params, ln: Log): real {
    if RawIdf(c, t, ln) < 0.0 then p.epsilon * AverageIdf(c, ln) else RawIdf(c, t, ln)
  }

  /** Length normalisation of a document. */
  function Norm(len: real, avgdl: real, p: Params): real
    requires avgdl != 0.0
  {
    1.0 - p.b + Quotient(Product(p.b, len), avgdl)
  }

  function Denominator(freq: real, len: real, avgdl: real, p: Params): real
    requires avgdl != 0.0
  {
    freq + Product(p.k1, Norm(len, avgdl, p))
  }

  lemma NormNonNegative(len: real, avgdl: real, p: Params)
    requires p.Sane() && len >= 0.0 && avgdl > 0.0
    ensures Norm(len, avgdl, p) >= 0.0
  {
    ProductGrows(p.b, 0.0, len);
    DenominatorGrows(Product(p.b, len), avgdl, avgdl);
  }

  /** One posting adds a well-defined amount: the denominator is at least the frequency. */
  lemma DenominatorPositive(freq: real, len: real, avgdl: real, p: Params)
    requires p.Sane() && freq > 0.0 && len >= 0.0 && avgdl > 0.0
    ensures Denominator(freq, len, avgdl, p) >= freq
  {
    NormNonNegative(len, avgdl, p);
    ProductGrows(p.k1, 0.0, Norm(len, avgdl, p));
  }

  function Saturation(freq: real, len: real, avgdl: real, p: Params): real
    requires avgdl != 0.0
  {
    var denominator := Denominator(freq, len, avgdl, p);
    if denominator == 0.0 then p.pole else Quotient(Product(freq, p.k1 + 1.0), denominator)
  }

  lemma ProductAssociates(x: real, y: real, z: real)
    ensures Product(Product(x, y), z) == Product(x, Product(y, z))
  {
  }

  lemma {:induction false} TokensInCorpus(c: Corpus, d: nat)
    requires d < |c|
    ensures TotalTokens(c) >= |c[d]|
  {
    if d < |c| - 1 {
      TokensInCorpus(c[..|c| - 1], d);
    }
  }

  lemma OccurrenceForcesLength(c: Corpus, d: nat, t: string)
    requires d < |c| && Tf(c[d], t) > 0
    ensures AvgDl(c) > 0.0
  {
    TokensInCorpus(c, d);
    assert c[d] != [];
  }

  /** What one occurrence of a query token adds to the score of document `d`. */
  function Gain(c: Corpus, d: nat, t: string, p: Params, ln: Log): real
    requires d < |c|
  {
    var freq := Tf(c[d], t) as real;
    if freq == 0.0 then 0.0
    else
      OccurrenceForcesLength(c, d, t);
      Product(Idf(c, t, p, ln), Saturation(freq, |c[d]| as real, AvgDl(c), p))
  }

  function Gains(c: Corpus, d: nat, p: Params, ln: Log): string -> real
    requires d < |c|
  {
    (t: string) => Gain(c, d, t, p, ln)
  }

  /** The direct score: every query token in turn, repeated tokens counting every time. */
  function Score(c: Corpus, d: nat, query: seq<string>, p: Params, ln: Log): real
    requires d < |c|
  {
    SumOver(query, Gains(c, d, p, ln))
  }

  // ----- Facts about the words of a corpus

  lemma {:induction false} AddWordsElements(words: seq<string>, doc: Document, w: string)
    ensures w in AddWords(words, doc) <==> w in words || w in doc
  {
    if doc != [] {
      AddWordsElements(words, doc[..|doc| - 1], w);
      assert doc == doc[..|doc| - 1] + [doc[|doc| - 1]];
    }
  }

  lemma {:induction false} AddWordsDistinct(words: seq<string>, doc: Document)
    requires NoDuplicates(words)
    ensures NoDuplicates(AddWords(words, doc))
  {
    if doc != [] {
      AddWordsDistinct(words, doc[..|doc| - 1]);
    }
  }

  lemma {:induction false} WordsDistinct(c: Corpus)
    ensures NoDuplicates(Words(c))
  {
    if c != [] {
      WordsDistinct(c[..|c| - 1]);
      AddWordsDistinct(Words(c[..|c| - 1]), c[|c| - 1]);
    }
  }

  lemma {:induction false} WordOccurs(c: Corpus, w: string)
    ensures w in Words(c) <==> Df(c, w) > 0
  {
    if c != [] {
      WordOccurs(c[..|c| - 1], w);
      AddWordsElements(Words(c[..|c| - 1]), c[|c| - 1], w);
      TfPositive(c[|c| - 1], w);
    }
  }

  lemma {:induction false} DistinctTf(words: seq<string>, w: string)
    requires NoDuplicates(words) && w in words
    ensures Tf(words, w) == 1
  {
    var init, last := words[..|words| - 1], words[|words| - 1];
    assert words == init + [last];
    TfPositive(init, w);
    if w != last {
      DistinctTf(init, w);
    }
  }

  // ----- What the parts of the formula mean

  /** The frequency of a term is the number of places where it stands. */
  lemma {:induction false} TfCounts(doc: Document, t: string)
    ensures Tf(doc, t) == |(set i | 0 <= i < |doc| && doc[i] == t)|
  {
    if doc != [] {
      var init := doc[..|doc| - 1];
      TfCounts(init, t);
      var before, now := set i | 0 <= i < |init| && init[i] == t, set i | 0 <= i < |doc| && doc[i] == t;
      assert now == if doc[|doc| - 1] == t then before + {|doc| - 1} else before;
    }
  }

  /** The document frequency is the number of documents that hold the term. */
  lemma {:induction false} DfCounts(c: Corpus, t: string)
    ensures Df(c, t) == |(set i | 0 <= i < |c| && t in c[i])|
  {
    if c != [] {
      var init := c[..|c| - 1];
      DfCounts(init, t);
      TfPositive(c[|c| - 1], t);
      var before, now := set i | 0 <= i < |init| && t in init[i], set i | 0 <= i < |c| && t in c[i];
      assert now == if t in c[|c| - 1] then before + {|c| - 1} else before;
    }
  }

  ghost predicate Increasing(ln: Log) {
    forall x: Positive, y: Positive | x < y :: ln(x) < ln(y)
  }

  /** The raw value is negative exactly for terms in more than half of the documents. */
  lemma IdfSign(size: nat, df: nat, ln: Log)
    requires Increasing(ln) && df <= size
    ensures IdfValue(size, df, ln) < 0.0 <==> 2 * df > size
  {
    var x, y := size as real - df as real + 0.5, df as real + 0.5;
    if 2 * df > size {
      assert ln(x) < ln(y);
    } else if 2 * df < size {
      assert ln(y) < ln(x);
    } else {
      assert x == y;
    }
  }

  /** Rarer terms have the larger raw value. */
  lemma RarerIsLarger(size: nat, df: nat, more: nat, ln: Log)
    requires Increasing(ln) && df < more <= size
    ensures IdfValue(size, more, ln) < IdfValue(size, df, ln)
  {
    assert ln(df as real + 0.5) < ln(more as real + 0.5);
    assert ln(size as real - more as real + 0.5) < ln(size as real - df as real + 0.5);
  }

  /** Terms in more than half of the documents weigh a fixed fraction of the average, all others their own
      raw value. */
  lemma CommonTermsAreFloored(c: Corpus, t: string, p: Params, ln: Log)
    requires Increasing(ln)
    ensures Idf(c, t, p, ln) == if 2 * Df(c, t) > |c| then p.epsilon * AverageIdf(c, ln) else RawIdf(c, t, ln)
  {
    IdfSign(|c|, Df(c, t), ln);
  }

  /** The average is over the distinct words of the corpus. */
  lemma AverageOverWords(c: Corpus, ln: Log)
    ensures Product(AverageIdf(c, ln), |Words(c)| as real) == SumOver(Words(c), RawIdfs(c, ln))
    ensures NoDuplicates(Words(c)) && forall w :: w in Words(c) <==> exists d | 0 <= d < |c| :: w in c[d]
  {
    WordsDistinct(c);
    if Words(c) != [] {
      QuotientTimes(SumOver(Words(c), RawIdfs(c, ln)), |Words(c)| as real);
    }
    forall w
      ensures w in Words(c) <==> exists d | 0 <= d < |c| :: w in c[d]
    {
      WordOccurs(c, w);
      DfCounts(c, w);
      var holding := set i | 0 <= i < |c| && w in c[i];
      if d :| 0 <= d < |c| && w in c[d] {
        assert d in holding;
      }
    }
  }

  /** Sums are taken token by token. */
  lemma {:induction false} SumOverParts(s: seq<string>, t: seq<string>, g: string -> real)
    ensures SumOver(s + t, g) == SumOver(s, g) + SumOver(t, g)
  {
    if t == [] {
      assert s + t == s;
    } else {
      SumOverParts(s, t[..|t| - 1], g);
      assert (s + t)[..|s + t| - 1] == s + t[..|t| - 1];
    }
  }

  lemma SumOverOne(w: string, g: string -> real)
    ensures SumOver([w], g) == g(w)
  {
    assert [w][..0] == [];
  }

  /** The average length is that of the documents: it times their number is the number of all tokens. */
  lemma {:induction false} AverageLength(c: Corpus, d: Document)
    ensures TotalTokens([]) == 0 && TotalTokens(c + [d]) == TotalTokens(c) + |d|
    ensures Product(AvgDl(c), |c| as real) == TotalTokens(c) as real
  {
    assert (c + [d])[..|c|] == c;
    if c != [] {
      QuotientTimes(TotalTokens(c) as real, |c| as real);
    }
  }

  function Times(x: Positive, y: Positive): (r: Positive)
    ensures r == x * y
  {
    PositiveProduct(x, y);
    x * y
  }

  ghost predicate TurnsProductsIntoSums(ln: Log) {
    forall x: Positive, y: Positive :: ln(Times(x, y)) == ln(x) + ln(y)
  }

  /** With a logarithm the raw value is the logarithm of the odds against the term. */
  lemma IdfIsLogOdds(size: nat, df: nat, ln: Log) returns (odds: Positive)
    requires df <= size && TurnsProductsIntoSums(ln)
    ensures odds * (df as real + 0.5) == size as real - df as real + 0.5
    ensures IdfValue(size, df, ln) == ln(odds)
  {
    var x, y := size as real - df as real + 0.5, df as real + 0.5;
    QuotientTimes(x, y);
    DenominatorGrowsStrictly(x, y, y + 1.0);
    odds := Quotient(x, y);
    assert Times(odds, y) == x;
  }

  /** A document of average length is not corrected; an empty one by the whole of `b`. */
  lemma NormEnds(avgdl: real, p: Params)
    requires avgdl > 0.0
    ensures Norm(avgdl, avgdl, p) == 1.0 && Norm(0.0, avgdl, p) == 1.0 - p.b
  {
    FactorCancels(p.b, avgdl);
    FactorCancels(0.0, avgdl);
  }

  lemma NormGrows(short: real, long: real, avgdl: real, p: Params)
    requires p.Sane() && 0.0 <= short <= long && avgdl > 0.0
    ensures 0.0 <= Norm(short, avgdl, p) <= Norm(long, avgdl, p)
  {
    NormNonNegative(short, avgdl, p);
    ProductGrows(p.b, short, long);
    NumeratorGrows(Product(p.b, short), Product(p.b, long), avgdl);
  }

  /** Saturation is a share of `k1 + 1`: that of the frequency, beside what the length adds. */
  lemma SaturationIsShare(freq: real, len: real, avgdl: real, p: Params) returns (q: real)
    requires p.Sane() && freq > 0.0 && len >= 0.0 && avgdl > 0.0
    ensures q == Product(p.k1, Norm(len, avgdl, p)) && q >= 0.0
    ensures Saturation(freq, len, avgdl, p) == Quotient(Product(freq, p.k1 + 1.0), freq + q)
  {
    NormNonNegative(len, avgdl, p);
    ProductGrows(p.k1, 0.0, Norm(len, avgdl, p));
    q := Product(p.k1, Norm(len, avgdl, p));
  }

  /** One occurrence in a document of average length counts once. */
  lemma PlainOccurrence(avgdl: real, p: Params)
    requires p.Sane() && avgdl > 0.0
    ensures Saturation(1.0, avgdl, avgdl, p) == 1.0
  {
    NormEnds(avgdl, p);
    var q := SaturationIsShare(1.0, avgdl, avgdl, p);
    FactorCancels(1.0, p.k1 + 1.0);
  }

  lemma SaturationBounded(freq: real, len: real, avgdl: real, p: Params)
    requires p.Sane() && freq > 0.0 && len >= 0.0 && avgdl > 0.0
    ensures 0.0 <= Saturation(freq, len, avgdl, p) <= p.k1 + 1.0
  {
    var q := SaturationIsShare(freq, len, avgdl, p);
    ShareBounded(freq, q, p.k1 + 1.0);
  }

  lemma SaturationGrows(freq: real, more: real, len: real, avgdl: real, p: Params)
    requires p.Sane() && 0.0 < freq <= more && len >= 0.0 && avgdl > 0.0
    ensures Saturation(freq, len, avgdl, p) <= Saturation(more, len, avgdl, p)
  {
    var q := SaturationIsShare(freq, len, avgdl, p);
    var r := SaturationIsShare(more, len, avgdl, p);
    ShareGrows(freq, more, q, p.k1 + 1.0);
  }

  lemma SaturationFalls(freq: real, short: real, long: real, avgdl: real, p: Params)
    requires p.Sane() && freq > 0.0 && 0.0 <= short <= long && avgdl > 0.0
    ensures Saturation(freq, long, avgdl, p) <= Saturation(freq, short, avgdl, p)
  {
    var q := SaturationIsShare(freq, short, avgdl, p);
    var r := SaturationIsShare(freq, long, avgdl, p);
    NormGrows(short, long, avgdl, p);
    ProductGrows(p.k1, Norm(short, avgdl, p), Norm(long, avgdl, p));
    ProductGrows(freq, 0.0, p.k1 + 1.0);
    DenominatorGrows(Product(freq, p.k1 + 1.0), freq + q, freq + r);
  }

  /** A document with more occurrences in no more words saturates more. */
  lemma DenserSaturatesMore(freq: real, more: real, short: real, long: real, avgdl: real, p: Params)
    requires p.Sane() && 0.0 < freq <= more && 0.0 <= short <= long && avgdl > 0.0
    ensures Saturation(freq, long, avgdl, p) <= Saturation(more, short, avgdl, p)
  {
    SaturationFalls(freq, short, long, avgdl, p);
    SaturationGrows(freq, more, short, avgdl, p);
  }

  lemma LargerFactor(idf: real, s: real, u: real)
    requires idf >= 0.0 && 0.0 <= s <= u
    ensures 0.0 <= Product(idf, s) <= Product(idf, u)
  {
    ProductGrows(idf, s, u);
    ProductGrows(idf, 0.0, s);
  }

  /** A term that does not count against a document gives it something between 0 and `k1 + 1` times its
      inverse document frequency. */
  lemma GainBounded(c: Corpus, d: nat, t: string, p: Params, ln: Log)
    requires p.Sane() && d < |c| && Idf(c, t, p, ln) >= 0.0
    ensures 0.0 <= Gain(c, d, t, p, ln) <= Product(Idf(c, t, p, ln), p.k1 + 1.0)
  {
    var idf := Idf(c, t, p, ln);
    LargerFactor(idf, 0.0, p.k1 + 1.0);
    if Tf(c[d], t) > 0 {
      OccurrenceForcesLength(c, d, t);
      SaturationBounded(Tf(c[d], t) as real, |c[d]| as real, AvgDl(c), p);
      LargerFactor(idf, Saturation(Tf(c[d], t) as real, |c[d]| as real, AvgDl(c), p), p.k1 + 1.0);
    }
  }

  /** Of two documents the one with at least as many occurrences in no more words gains at least as much. */
  lemma DenserGainsMore(c: Corpus, d: nat, better: nat, t: string, p: Params, ln: Log)
    requires p.Sane() && d < |c| && better < |c| && Idf(c, t, p, ln) >= 0.0
    requires Tf(c[d], t) <= Tf(c[better], t) && |c[better]| <= |c[d]|
    ensures Gain(c, d, t, p, ln) <= Gain(c, better, t, p, ln)
  {
    GainBounded(c, better, t, p, ln);
    if Tf(c[d], t) > 0 {
      OccurrenceForcesLength(c, d, t);
      var f, g, avgdl := Tf(c[d], t) as real, Tf(c[better], t) as real, AvgDl(c);
      SaturationBounded(f, |c[d]| as real, avgdl, p);
      DenserSaturatesMore(f, g, |c[better]| as real, |c[d]| as real, avgdl, p);
      LargerFactor(Idf(c, t, p, ln), Saturation(f, |c[d]| as real, avgdl, p), Saturation(g, |c[better]| as real, avgdl, p));
    }
  }
}
