/** Scanning an answer for citation tags, and judging the answer by them. */
module Citations {
  import opened Wrappers
  import opened Collections
  import opened Ranking
  import opened Numerals
  import opened CitationText

  /** The positions of an open bracket and of the close bracket that ends its tag. */
  datatype Span = Span(open: nat, close: nat)

  /** The first open bracket and the first close bracket after it. */
  function NextTag(text: string): (r: Option<Span>)
    ensures r.Some? ==> r.value.open < r.value.close < |text|
  {
    var open := FindFirst(text, IsOpen);
    if open.None? then None
    else
      var close := FindFirst(text[open.value + 1..], IsClose);
      if close.None? then None else Some(Span(open.value, open.value + 1 + close.value))
  }

  function Found(body: string): seq<Citation> {
    var c := ParseCitationBody(body);
    if c.None? then [] else [c.value]
  }

  predicate Within(tag: Option<Span>, text: string) {
    tag.Some? && tag.value.open < tag.value.close < |text|
  }

  /** What `parse` finds between the brackets of each tag, left to right. */
  function Scan(text: string, next: string -> Option<Span>, parse: string -> seq<Citation>): seq<Citation>
    decreases |text|
  {
    var tag := next(text);
    if !Within(tag, text) then []
    else parse(text[tag.value.open + 1..tag.value.close]) + Scan(text[tag.value.close + 1..], next, parse)
  }

  /** The citations of an answer. */
  function Extracted(answer: string): seq<Citation> {
    Scan(answer, NextTag, Found)
  }

  lemma NextTagAt(text: string, open: nat, close: nat)
    requires open < close < |text| && IsOpen(text[open]) && IsClose(text[close])
    requires NoOpen(text[..open]) && NoClose(text[open + 1..close])
    ensures NextTag(text) == Some(Span(open, close))
  {
    assert forall i | 0 <= i < open :: text[i] == text[..open][i];
    FindFirstAt(text, IsOpen, open);
    var rest := text[open + 1..];
    assert forall i | 0 <= i < close - open - 1 :: rest[i] == text[open + 1..close][i];
    FindFirstAt(rest, IsClose, close - open - 1);
  }

  predicate NoOpen(s: string) {
    forall i | 0 <= i < |s| :: !IsOpen(s[i])
  }

  lemma NoTag(text: string)
    requires forall i | 0 <= i < |text| :: !IsOpen(text[i])
    ensures NextTag(text) == None
  {
    FindFirstIsFirst(text, IsOpen);
  }

  predicate NoClose(s: string) {
    forall i | 0 <= i < |s| :: !IsClose(s[i])
  }

  lemma TagBodyHasNoClose(text: string)
    requires NextTag(text).Some?
    ensures NoClose(text[NextTag(text).value.open + 1..NextTag(text).value.close])
  {
    var open := FindFirst(text, IsOpen).value;
    FindFirstIsFirst(text[open + 1..], IsClose);
  }

  lemma TagAtBrackets(text: string)
    requires NextTag(text).Some?
    ensures var tag := NextTag(text).value; NoOpen(text[..tag.open]) && IsOpen(text[tag.open]) && IsClose(text[tag.close])
  {
    FindFirstIsFirst(text, IsOpen);
    var open := FindFirst(text, IsOpen).value;
    FindFirstIsFirst(text[open + 1..], IsClose);
  }

  /** The scan: each round moves past one close bracket, so it ends. */
  method ScanTags(text: string, next: string -> Option<Span>, parse: string -> seq<Citation>) returns (citations: seq<Citation>)
    ensures citations == Scan(text, next, parse)
  {
    citations := [];
    var rest := text;
    while Within(next(rest), rest)
      invariant Scan(text, next, parse) == citations + Scan(rest, next, parse)
      decreases |rest|
    {
      var tag := next(rest).value;
      citations := citations + parse(rest[tag.open + 1..tag.close]);
      rest := rest[tag.close + 1..];
    }
  }

  // ----- What is extracted, from the text alone

  /** A bracket pair of a text, with the text before it. */
  datatype Piece = Piece(filler: string, open: char, body: string, close: char)

  predicate PieceOk(p: Piece) {
    NoOpen(p.filler) && IsOpen(p.open) && NoClose(p.body) && IsClose(p.close)
  }

  predicate PiecesOk(pieces: seq<Piece>) {
    forall i | 0 <= i < |pieces| :: PieceOk(pieces[i])
  }

  /** No open bracket of the text is ever closed. */
  predicate Bare(s: string) {
    forall i, j | 0 <= i < j < |s| :: !(IsOpen(s[i]) && IsClose(s[j]))
  }

  function Joined(pieces: seq<Piece>, tail: string): string {
    if pieces == [] then tail
    else pieces[0].filler + [pieces[0].open] + pieces[0].body + [pieces[0].close] + Joined(pieces[1..], tail)
  }

  ghost predicate Readable(body: string) {
    exists c :: ReadsAs(body, c)
  }

  /** The list holds, in order, the citation of each body that is one. */
  ghost predicate Lists(pieces: seq<Piece>, cs: seq<Citation>) {
    if pieces == [] then cs == []
    else if Readable(pieces[0].body) then
      cs != [] && ReadsAs(pieces[0].body, cs[0]) && Lists(pieces[1..], cs[1..])
    else Lists(pieces[1..], cs)
  }

  /** The text falls into bracket pairs and a rest without one, and the pairs hold these citations. */
  ghost predicate CitationsOf(answer: string, cs: seq<Citation>) {
    exists pieces, tail :: PiecesOk(pieces) && Bare(tail) && answer == Joined(pieces, tail) && Lists(pieces, cs)
  }

  lemma NoTagIsBare(text: string)
    ensures NextTag(text).None? <==> Bare(text)
  {
    FindFirstIsFirst(text, IsOpen);
    var open := FindFirst(text, IsOpen);
    if open.Some? {
      var rest := text[open.value + 1..];
      FindFirstIsFirst(rest, IsClose);
      assert forall j | open.value < j < |text| :: text[j] == rest[j - open.value - 1];
    }
  }

  lemma {:induction false} Pieces(text: string) returns (pieces: seq<Piece>, tail: string)
    ensures PiecesOk(pieces) && Bare(tail) && text == Joined(pieces, tail)
    decreases |text|
  {
    NoTagIsBare(text);
    if NextTag(text).None? {
      pieces, tail := [], text;
    } else {
      var tag := NextTag(text).value;
      TagBodyHasNoClose(text);
      TagAtBrackets(text);
      var first := Piece(text[..tag.open], text[tag.open], text[tag.open + 1..tag.close], text[tag.close]);
      var rest;
      rest, tail := Pieces(text[tag.close + 1..]);
      pieces := [first] + rest;
      assert pieces[1..] == rest;
      assert text == text[..tag.open] + [text[tag.open]] + text[tag.open + 1..tag.close] + [text[tag.close]] + text[tag.close + 1..];
    }
  }

  lemma {:induction false} PiecesAreScanned(pieces: seq<Piece>, tail: string, cs: seq<Citation>)
    requires PiecesOk(pieces) && Bare(tail)
    ensures Lists(pieces, cs) <==> cs == Extracted(Joined(pieces, tail))
    decreases |pieces|
  {
    if pieces == [] {
      NoTagIsBare(tail);
    } else {
      var p, rest := pieces[0], pieces[1..];
      ExtractedFirst(p, Joined(rest, tail));
      FoundExactly(p.body);
      if !Readable(p.body) {
        PiecesAreScanned(rest, tail, cs);
      } else if cs != [] {
        PiecesAreScanned(rest, tail, cs[1..]);
        HeadAndRest(cs, Found(p.body), Extracted(Joined(rest, tail)));
      }
    }
  }

  lemma ExtractedFirst(p: Piece, after: string)
    requires PieceOk(p)
    ensures Extracted(p.filler + [p.open] + p.body + [p.close] + after) == Found(p.body) + Extracted(after)
  {
    ScanOne(p.filler, p.open, p.body, p.close, after, Found);
  }

  lemma HeadAndRest(cs: seq<Citation>, one: seq<Citation>, rest: seq<Citation>)
    requires cs != [] && |one| == 1
    ensures cs == one + rest <==> one == [cs[0]] && cs[1..] == rest
  {
    if one == [cs[0]] && cs[1..] == rest {
      assert cs == [cs[0]] + cs[1..];
    }
  }

  lemma FoundExactly(body: string)
    ensures forall c :: ReadsAs(body, c) <==> Found(body) == [c]
    ensures Found(body) == [] <==> !Readable(body)
  {
    forall c
      ensures ReadsAs(body, c) <==> ParseCitationBody(body) == Some(c)
    {
      BodyExactly(body, c);
    }
    if ParseCitationBody(body).Some? {
      assert ReadsAs(body, ParseCitationBody(body).value);
    }
  }

  /** What is extracted is what the bracket pairs of the text hold, in whatever way the text is taken
      apart into bracket pairs. */
  lemma ExtractedExactly(answer: string, cs: seq<Citation>)
    ensures cs == Extracted(answer) <==> CitationsOf(answer, cs)
  {
    var pieces, tail := Pieces(answer);
    PiecesAreScanned(pieces, tail, cs);
    if ps, t :| PiecesOk(ps) && Bare(t) && answer == Joined(ps, t) && Lists(ps, cs) {
      PiecesAreScanned(ps, t, cs);
    }
  }

  method ExtractCitations(answer: string) returns (citations: seq<Citation>)
    ensures citations == Extracted(answer) && CitationsOf(answer, citations)
  {
    citations := ScanTags(answer, NextTag, Found);
    ExtractedExactly(answer, citations);
  }

  // ----- Printing and extracting undo each other

  /** One printed citation, with the text before it and the marks chosen for it. */
  datatype Tag = Tag(filler: string, open: char, body: BodyText, close: char)

  predicate TagOk(t: Tag) {
    NoOpen(t.filler) && IsOpen(t.open) && BodyOk(t.body) && NoClose(t.body.source) && IsClose(t.close)
  }

  function PrintTag(t: Tag): string {
    t.filler + [t.open] + PrintBody(t.body) + [t.close]
  }

  function Print(tags: seq<Tag>, trailer: string): string {
    if tags == [] then trailer else PrintTag(tags[0]) + Print(tags[1..], trailer)
  }

  lemma PageHasNoClose(p: PageText, i: nat)
    requires PageOk(p) && i < |PrintPage(p)|
    ensures !IsClose(PrintPage(p)[i])
  {
    var core := Core(p);
    if |p.left| <= i < |p.left| + |core| {
      var j := i - |p.left|;
      assert PrintPage(p)[i] == core[j];
      if p.prefix.None? {
        assert DigitValue(core[j]).Some?;
      } else if j > |p.gap| {
        assert core[j] == p.digits[j - 1 - |p.gap|];
      }
    }
  }

  lemma {:induction false} BodyHasNoClose(b: BodyText)
    requires BodyOk(b) && NoClose(b.source)
    ensures NoClose(PrintBody(b))
  {
    var head := b.left + b.source + b.right;
    forall i | 0 <= i < |PrintBody(b)|
      ensures !IsClose(PrintBody(b)[i])
    {
      if i > |head| {
        PageHasNoClose(b.page, i - |head| - 1);
      } else if i < |head| {
        assert PrintBody(b)[i] == head[i];
      }
    }
  }

  lemma {:induction false} ScanStep(text: string, next: string -> Option<Span>, parse: string -> seq<Citation>, tag: Span)
    requires next(text) == Some(tag) && tag.open < tag.close < |text|
    ensures Scan(text, next, parse) == parse(text[tag.open + 1..tag.close]) + Scan(text[tag.close + 1..], next, parse)
  {
  }

  lemma {:induction false} ScanOne(filler: string, open: char, body: string, close: char, after: string, parse: string -> seq<Citation>)
    requires NoOpen(filler) && IsOpen(open) && NoClose(body) && IsClose(close)
    ensures Scan(filler + [open] + body + [close] + after, NextTag, parse) == parse(body) + Scan(after, NextTag, parse)
  {
    var text := filler + [open] + body + [close] + after;
    var tag := Span(|filler|, |filler| + 1 + |body|);
    assert text[..tag.open] == filler;
    assert text[tag.open + 1..tag.close] == body;
    assert text[tag.close + 1..] == after;
    NextTagAt(text, tag.open, tag.close);
    ScanStep(text, NextTag, parse, tag);
  }

  lemma {:induction false} ExtractOne(t: Tag, after: string)
    requires TagOk(t)
    ensures Extracted(PrintTag(t) + after) == [Cites(t.body)] + Extracted(after)
  {
    BodyHasNoClose(t.body);
    BodyRoundTrip(t.body);
    ScanOne(t.filler, t.open, PrintBody(t.body), t.close, after, Found);
  }

  function CitedBy(tags: seq<Tag>): seq<Citation>
    requires forall i | 0 <= i < |tags| :: TagOk(tags[i])
  {
    assert tags != [] ==> TagOk(tags[0]);
    if tags == [] then [] else [Cites(tags[0].body)] + CitedBy(tags[1..])
  }

  /** Any list of citations, printed with any of the accepted marks, digits and paddings among text
      without open brackets, is extracted as that list in order. */
  lemma {:induction false} ExtractUndoesPrint(tags: seq<Tag>, trailer: string)
    requires NoOpen(trailer) && forall i | 0 <= i < |tags| :: TagOk(tags[i])
    ensures Extracted(Print(tags, trailer)) == CitedBy(tags)
  {
    if tags == [] {
      NoTag(trailer);
    } else {
      ExtractUndoesPrint(tags[1..], trailer);
      ExtractOne(tags[0], Print(tags[1..], trailer));
    }
  }

  lemma ExtractOnly(t: Tag)
    requires TagOk(t)
    ensures Extracted(PrintTag(t)) == [Cites(t.body)]
  {
    NoTag("");
    assert PrintTag(t) + "" == PrintTag(t);
    ExtractOne(t, "");
  }

  predicate PrefixListed(prefix: string) {
    prefix == "" || (|prefix| == 1 && prefix[0] in "pP\U{FF50}\U{FF30}")
  }

  /** A page without white space. */
  function TightPage(prefix: string, digits: string): PageText {
    PageText("", if prefix == "" then None else Some(prefix[0]), "", digits, "")
  }

  lemma TightPagePrints(prefix: string, digits: string)
    requires PrefixListed(prefix) && digits != "" && AllDigits(digits) && Value(digits) <= I64_MAX
    ensures PageOk(TightPage(prefix, digits)) && PrintPage(TightPage(prefix, digits)) == prefix + digits
  {
  }

  /** A tag without white space. */
  function Tight(open: char, source: string, colon: char, page: PageText, close: char): Tag {
    Tag("", open, BodyText("", source, "", colon, page), close)
  }

  lemma TightPrints(open: char, source: string, colon: char, page: PageText, close: char)
    ensures PrintTag(Tight(open, source, colon, page, close)) == [open] + (source + [colon] + PrintPage(page)) + [close]
  {
  }

  /** Every combination of half-width and full-width marks is read, with or without a page prefix. */
  lemma {:induction false} EveryMarkIsRead(open: char, c: Citation, colon: char, prefix: string, close: char)
    requires CitationOk(c) && open in "[\U{FF3B}" && colon in ":\U{FF1A}" && PrefixListed(prefix) && close in "]\U{FF3D}"
    ensures Extracted([open] + (c.source + [colon] + (prefix + Decimal(c.page))) + [close]) == [c]
  {
    DecimalValue(c.page);
    TightPagePrints(prefix, Decimal(c.page));
    var page := TightPage(prefix, Decimal(c.page));
    TightPrints(open, c.source, colon, page, close);
    ExtractOnly(Tight(open, c.source, colon, page, close));
  }

  /** The plain printed form of a citation. */
  function Plain(c: Citation): Tag
    requires c.page >= 0
  {
    Tight('[', c.source, ':', TightPage("P", Decimal(c.page)), ']')
  }

  predicate CitationOk(c: Citation) {
    SourceText(c.source) && NoClose(c.source) && 0 <= c.page <= I64_MAX
  }

  lemma BodyGivesOkCitation(body: string)
    requires NoClose(body)
    requires ParseCitationBody(body).Some?
    ensures CitationOk(ParseCitationBody(body).value)
  {
    var b := BodyParts(body);
    forall i | 0 <= i < |b.source|
      ensures !IsClose(b.source[i])
    {
      assert b.source[i] == body[|b.left| + i];
    }
  }

  lemma {:induction false} ScanKeeps(text: string, next: string -> Option<Span>, parse: string -> seq<Citation>, good: Citation -> bool)
    requires forall t | Within(next(t), t) :: forall c | c in parse(t[next(t).value.open + 1..next(t).value.close]) :: good(c)
    ensures forall c | c in Scan(text, next, parse) :: good(c)
    decreases |text|
  {
    if Within(next(text), text) {
      ScanKeeps(text[next(text).value.close + 1..], next, parse, good);
    }
  }

  /** Whatever the text, every citation found in it can be printed again. */
  lemma {:induction false} ExtractedAreOk(answer: string)
    ensures forall c | c in Extracted(answer) :: CitationOk(c)
  {
    forall t | NextTag(t).Some?
      ensures forall c | c in Found(t[NextTag(t).value.open + 1..NextTag(t).value.close]) :: CitationOk(c)
    {
      var body := t[NextTag(t).value.open + 1..NextTag(t).value.close];
      TagBodyHasNoClose(t);
      if ParseCitationBody(body).Some? {
        BodyGivesOkCitation(body);
      }
    }
    ScanKeeps(answer, NextTag, Found, CitationOk);
  }

  /** The citation is the body between two brackets of the text, with no close bracket in between. */
  ghost predicate TaggedAt(text: string, open: nat, close: nat, c: Citation) {
    && open < close < |text| && IsOpen(text[open]) && IsClose(text[close])
    && NoClose(text[open + 1..close]) && ReadsAs(text[open + 1..close], c)
  }

  ghost predicate Tagged(text: string, c: Citation) {
    exists open: nat, close: nat :: TaggedAt(text, open, close, c)
  }

  lemma TaggedFirst(p: Piece, after: string, c: Citation)
    requires PieceOk(p) && ReadsAs(p.body, c)
    ensures Tagged(p.filler + [p.open] + p.body + [p.close] + after, c)
  {
    var text := p.filler + [p.open] + p.body + [p.close] + after;
    assert text[|p.filler| + 1..|p.filler| + 1 + |p.body|] == p.body;
    assert TaggedAt(text, |p.filler|, |p.filler| + 1 + |p.body|, c);
  }

  lemma TaggedLater(head: string, after: string, c: Citation)
    requires Tagged(after, c)
    ensures Tagged(head + after, c)
  {
    var open: nat, close: nat :| TaggedAt(after, open, close, c);
    assert (head + after)[|head| + open + 1..|head| + close] == after[open + 1..close];
    assert TaggedAt(head + after, |head| + open, |head| + close, c);
  }

  lemma {:induction false} ListedIsTagged(pieces: seq<Piece>, tail: string, cs: seq<Citation>, c: Citation)
    requires PiecesOk(pieces) && Lists(pieces, cs) && c in cs
    ensures Tagged(Joined(pieces, tail), c)
    decreases |pieces|
  {
    var p, after := pieces[0], Joined(pieces[1..], tail);
    if Readable(p.body) && c == cs[0] {
      TaggedFirst(p, after, c);
    } else {
      ListedIsTagged(pieces[1..], tail, if Readable(p.body) then cs[1..] else cs, c);
      TaggedLater(p.filler + [p.open] + p.body + [p.close], after, c);
    }
  }

  /** No citation is invented: each one stands between brackets of the text. */
  lemma ExtractedAreTagged(answer: string, c: Citation)
    requires c in Extracted(answer)
    ensures Tagged(answer, c)
  {
    ExtractedExactly(answer, Extracted(answer));
    var pieces, tail :| PiecesOk(pieces) && Bare(tail) && answer == Joined(pieces, tail) && Lists(pieces, Extracted(answer));
    ListedIsTagged(pieces, tail, Extracted(answer), c);
  }

  function Rendered(cs: seq<Citation>): seq<Tag>
    requires forall c | c in cs :: CitationOk(c)
  {
    assert cs != [] ==> CitationOk(cs[0]) by { if cs != [] { assert cs[0] in cs; } }
    if cs == [] then [] else [Plain(cs[0])] + Rendered(cs[1..])
  }

  lemma {:induction false} RenderedCites(cs: seq<Citation>)
    requires forall c | c in cs :: CitationOk(c)
    ensures forall i | 0 <= i < |Rendered(cs)| :: TagOk(Rendered(cs)[i])
    ensures CitedBy(Rendered(cs)) == cs
  {
    if cs != [] {
      RenderedCites(cs[1..]);
      assert cs[0] in cs && CitationOk(cs[0]);
      DecimalValue(cs[0].page);
      assert Rendered(cs)[1..] == Rendered(cs[1..]);
    }
  }

  /** Rewriting the citations of any text in plain form changes none of them. */
  lemma RewritingIsStable(answer: string)
    ensures forall c | c in Extracted(answer) :: CitationOk(c)
    ensures Extracted(Print(Rendered(Extracted(answer)), "")) == Extracted(answer)
  {
    ExtractedAreOk(answer);
    RenderedCites(Extracted(answer));
    ExtractUndoesPrint(Rendered(Extracted(answer)), "");
  }

  // ----- Judging an answer

  const FALLBACK_MARKER := "在所提供的参考资料中未找到与该问题相关的内容"

  /** The source and page fields of a retrieved document, where it has usable ones. */
  datatype DocMeta = DocMeta(source: Option<string>, page: Option<int>)

  predicate Usable(d: DocMeta) {
    d.source.Some? && d.source.value != "" && d.page.Some?
  }

  type Registry = map<string, set<int>>

  predicate Allows(r: Registry, source: string, page: int) {
    source in r && page in r[source]
  }

  predicate HasPage(docs: seq<DocMeta>, source: string, page: int) {
    source != "" && DocMeta(Some(source), Some(page)) in docs
  }

  predicate HasSource(docs: seq<DocMeta>, source: string) {
    exists i | 0 <= i < |docs| :: Usable(docs[i]) && docs[i].source.value == source
  }

  ghost predicate Registers(r: Registry, docs: seq<DocMeta>) {
    && (forall s :: s in r <==> HasSource(docs, s))
    && forall s, p :: Allows(r, s, p) <==> HasPage(docs, s, p)
  }

  lemma SourceStep(docs: seq<DocMeta>, d: DocMeta, s: string)
    ensures HasSource(docs + [d], s) <==> HasSource(docs, s) || (Usable(d) && d.source.value == s)
  {
    var more := docs + [d];
    assert forall i | 0 <= i < |docs| :: more[i] == docs[i];
    assert more[|docs|] == d;
  }

  lemma PageStep(docs: seq<DocMeta>, d: DocMeta, s: string, p: int)
    ensures HasPage(docs + [d], s, p) <==> HasPage(docs, s, p) || (Usable(d) && d.source.value == s && d.page.value == p)
  {
  }

  function Register(r: Registry, d: DocMeta): Registry {
    if Usable(d) then
      var s := d.source.value;
      r[s := (if s in r then r[s] else {}) + {d.page.value}]
    else r
  }

  lemma RegisterStep(r: Registry, docs: seq<DocMeta>, d: DocMeta)
    requires Registers(r, docs)
    ensures Registers(Register(r, d), docs + [d])
  {
    forall s
      ensures s in Register(r, d) <==> HasSource(docs + [d], s)
    {
      SourceStep(docs, d, s);
    }
    forall s, p
      ensures Allows(Register(r, d), s, p) <==> HasPage(docs + [d], s, p)
    {
      PageStep(docs, d, s, p);
      assert Allows(r, s, p) <==> HasPage(docs, s, p);
    }
  }

  /** The registry holds exactly the sources and pages of the usable documents. */
  method BuildAllowedRegistry(docs: seq<DocMeta>) returns (r: Registry)
    ensures Registers(r, docs)
  {
    r := map[];
    for k := 0 to |docs|
      invariant Registers(r, docs[..k])
    {
      RegisterStep(r, docs[..k], docs[k]);
      assert docs[..k + 1] == docs[..k] + [docs[k]];
      r := Register(r, docs[k]);
    }
    assert docs[..|docs|] == docs;
  }

  /** A citation of a page that its source does not have, with the pages it has, ascending. */
  datatype BadPage = BadPage(citation: Citation, validPages: seq<int>)

  datatype Verdict = Verdict(isValid: bool, missing: bool, invalidSources: seq<Citation>, invalidPages: seq<BadPage>)

  predicate OccursAt(s: string, part: string, i: nat) {
    i + |part| <= |s| && s[i..i + |part|] == part
  }

  predicate ContainsText(s: string, part: string) {
    exists i | 0 <= i <= |s| :: OccursAt(s, part, i)
  }

  /** The text has the part somewhere in it. */
  lemma ContainsExactly(s: string, part: string)
    ensures ContainsText(s, part) <==> exists left, right :: s == left + part + right
  {
    if ContainsText(s, part) {
      var i :| 0 <= i <= |s| && OccursAt(s, part, i);
      assert s == s[..i] + part + s[i + |part|..];
    }
    if left, right :| s == left + part + right {
      assert OccursAt(s, part, |left|);
    }
  }

  function Select(cs: seq<Citation>, keep: Citation -> bool): seq<Citation> {
    if cs == [] then []
    else Select(cs[..|cs| - 1], keep) + if keep(cs[|cs| - 1]) then [cs[|cs| - 1]] else []
  }

  lemma {:induction false} SelectEmpty(cs: seq<Citation>, keep: Citation -> bool)
    ensures Select(cs, keep) == [] <==> forall c | c in cs :: !keep(c)
  {
    if cs != [] {
      var front, last := cs[..|cs| - 1], cs[|cs| - 1];
      SelectEmpty(front, keep);
      assert cs == front + [last];
    }
  }

  /** Selecting keeps the order: it works on each part of a list alone. */
  lemma {:induction false} SelectParts(s: seq<Citation>, t: seq<Citation>, keep: Citation -> bool)
    ensures Select(s + t, keep) == Select(s, keep) + Select(t, keep)
  {
    if t == [] {
      assert s + t == s;
    } else {
      var front, last := t[..|t| - 1], t[|t| - 1];
      SelectParts(s, front, keep);
      assert (s + t)[..|s + t| - 1] == s + front && (s + t)[|s + t| - 1] == last;
    }
  }

  lemma SelectOne(c: Citation, keep: Citation -> bool)
    ensures Select([c], keep) == if keep(c) then [c] else []
  {
    assert [c][..0] == [];
  }

  /** Nothing is asked of an answer that is empty, has nothing to cite, or says that nothing was found. */
  predicate Exempt(answer: string, docs: seq<DocMeta>) {
    || answer == ""
    || (forall i | 0 <= i < |docs| :: !Usable(docs[i]))
    || ContainsText(answer, FALLBACK_MARKER)
  }

  function UnknownSource(docs: seq<DocMeta>): Citation -> bool {
    (c: Citation) => !HasSource(docs, c.source)
  }

  function UnknownPage(docs: seq<DocMeta>): Citation -> bool {
    (c: Citation) => HasSource(docs, c.source) && !HasPage(docs, c.source, c.page)
  }

  function Ascending(): (int, int) -> bool {
    (x: int, y: int) => x < y
  }

  /** Each listed pair is the citation at the same place, with exactly the pages of its source in order. */
  ghost predicate Reports(bad: seq<BadPage>, cs: seq<Citation>, docs: seq<DocMeta>) {
    && |bad| == |cs|
    && forall i | 0 <= i < |bad| :: ReportsOne(bad[i], cs[i], docs)
  }

  ghost predicate ReportsOne(bad: BadPage, c: Citation, docs: seq<DocMeta>) {
    && bad.citation == c && (forall i, j | 0 <= i < j < |bad.validPages| :: bad.validPages[i] < bad.validPages[j])
    && forall p :: p in bad.validPages <==> HasPage(docs, c.source, p)
  }

  /** The pages of a source as the ordered set lists them. */
  method PagesToList(pages: set<int>) returns (list: seq<int>)
    ensures (forall i, j | 0 <= i < j < |list| :: list[i] < list[j]) && Elements(list) == pages
  {
    var any := ListOf(pages);
    SortRanks(any, Ascending());
    list := Sort(any, Ascending());
  }

  method ReportPage(c: Citation, registry: Registry, ghost docs: seq<DocMeta>) returns (bad: BadPage)
    requires Registers(registry, docs) && c.source in registry
    ensures ReportsOne(bad, c, docs)
  {
    var pages := PagesToList(registry[c.source]);
    bad := BadPage(c, pages);
    forall p
      ensures p in pages <==> HasPage(docs, c.source, p)
    {
      assert p in pages <==> p in Elements(pages);
      assert Allows(registry, c.source, p) <==> HasPage(docs, c.source, p);
    }
  }

  /** The citations to sources that are not there, and those to pages their source does not have. */
  method SortCitations(cs: seq<Citation>, registry: Registry, ghost docs: seq<DocMeta>) returns (sources: seq<Citation>, pages: seq<BadPage>)
    requires Registers(registry, docs)
    ensures sources == Select(cs, UnknownSource(docs)) && Reports(pages, Select(cs, UnknownPage(docs)), docs)
  {
    sources, pages := [], [];
    for k := 0 to |cs|
      invariant sources == Select(cs[..k], UnknownSource(docs)) && Reports(pages, Select(cs[..k], UnknownPage(docs)), docs)
    {
      var c := cs[k];
      assert cs[..k + 1][..k] == cs[..k];
      assert Allows(registry, c.source, c.page) <==> HasPage(docs, c.source, c.page);
      if c.source !in registry {
        sources := sources + [c];
      } else if c.page !in registry[c.source] {
        var bad := ReportPage(c, registry, docs);
        pages := pages + [bad];
      }
    }
    assert cs[..|cs|] == cs;
  }

  lemma RegistryIsEmpty(registry: Registry, docs: seq<DocMeta>)
    requires Registers(registry, docs)
    ensures registry == map[] <==> forall i | 0 <= i < |docs| :: !Usable(docs[i])
  {
    forall i | 0 <= i < |docs| && Usable(docs[i])
      ensures docs[i].source.value in registry
    {
      assert HasSource(docs, docs[i].source.value);
    }
    if registry != map[] {
      var s :| s in registry;
      assert HasSource(docs, s);
    }
  }

  lemma NothingUnknown(cs: seq<Citation>, docs: seq<DocMeta>)
    requires forall c | c in cs :: c.source != ""
    ensures Select(cs, UnknownSource(docs)) == [] && Select(cs, UnknownPage(docs)) == []
            <==> forall c | c in cs :: HasPage(docs, c.source, c.page)
  {
    SelectEmpty(cs, UnknownSource(docs));
    SelectEmpty(cs, UnknownPage(docs));
    forall c | c in cs && HasPage(docs, c.source, c.page)
      ensures HasSource(docs, c.source)
    {
      var i :| 0 <= i < |docs| && docs[i] == DocMeta(Some(c.source), Some(c.page));
    }
    if Select(cs, UnknownSource(docs)) == [] && Select(cs, UnknownPage(docs)) == [] {
      forall c | c in cs
        ensures HasPage(docs, c.source, c.page)
      {
        assert !UnknownSource(docs)(c) && !UnknownPage(docs)(c);
      }
    }
  }

  /** An answer that is not exempt is valid exactly when it cites something and every citation names
      the source and page of a retrieved document; the report lists precisely the others. */
  method ValidateCitations(answer: string, docs: seq<DocMeta>) returns (v: Verdict)
    ensures v.isValid <==> Exempt(answer, docs)
                           || (Extracted(answer) != [] && forall c | c in Extracted(answer) :: HasPage(docs, c.source, c.page))
    ensures v.missing <==> !Exempt(answer, docs) && Extracted(answer) == []
    ensures !Exempt(answer, docs) ==> v.invalidSources == Select(Extracted(answer), UnknownSource(docs))
    ensures !Exempt(answer, docs) ==> Reports(v.invalidPages, Select(Extracted(answer), UnknownPage(docs)), docs)
    ensures Exempt(answer, docs) ==> v.invalidSources == [] && v.invalidPages == []
  {
    v := Verdict(true, false, [], []);
    if answer == "" {
      return;
    }
    var registry := BuildAllowedRegistry(docs);
    RegistryIsEmpty(registry, docs);
    if registry == map[] || ContainsText(answer, FALLBACK_MARKER) {
      return;
    }
    var cs := ExtractCitations(answer);
    if cs == [] {
      return Verdict(false, true, [], []);
    }
    var sources, pages := SortCitations(cs, registry, docs);
    ExtractedAreOk(answer);
    assert forall c | c in cs :: CitationOk(c);
    NothingUnknown(cs, docs);
    v := Verdict(sources == [] && pages == [], false, sources, pages);
  }
}
