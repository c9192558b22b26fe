/** The text side of citations: white space, page numbers and the body of one tag. */
module CitationText {
  import opened Wrappers
  import opened Numerals

  const I64_MAX: int := 0x7FFF_FFFF_FFFF_FFFF

  datatype Citation = Citation(source: string, page: int)

  predicate IsOpen(ch: char) { ch == '[' || ch == '\U{FF3B}' }

  predicate IsClose(ch: char) { ch == ']' || ch == '\U{FF3D}' }

  predicate IsColon(ch: char) { ch == ':' || ch == '\U{FF1A}' }

  predicate IsPagePrefix(ch: char) { ch == 'p' || ch == 'P' || ch == '\U{FF50}' || ch == '\U{FF30}' }

  /** The Unicode property White_Space. */
  predicate IsSpace(ch: char) {
    || '\U{0009}' <= ch <= '\U{000D}' || ch == ' ' || ch == '\U{0085}' || ch == '\U{00A0}' || ch == '\U{1680}'
    || '\U{2000}' <= ch <= '\U{200A}' || ch == '\U{2028}' || ch == '\U{2029}' || ch == '\U{202F}'
    || ch == '\U{205F}' || ch == '\U{3000}'
  }

  predicate Blank(s: string) {
    forall i | 0 <= i < |s| :: IsSpace(s[i])
  }

  predicate Trimmed(s: string) {
    s != "" ==> !IsSpace(s[0]) && !IsSpace(s[|s| - 1])
  }

  // ----- Trimming

  function TrimStart(s: string): string {
    if s != "" && IsSpace(s[0]) then TrimStart(s[1..]) else s
  }

  function TrimEnd(s: string): string {
    if s != "" && IsSpace(s[|s| - 1]) then TrimEnd(s[..|s| - 1]) else s
  }

  function Trim(s: string): string {
    TrimEnd(TrimStart(s))
  }

  lemma {:induction false} TrimStartPadded(pad: string, s: string)
    requires Blank(pad) && (s != "" ==> !IsSpace(s[0]))
    ensures TrimStart(pad + s) == s
  {
    if pad == "" {
      assert pad + s == s;
    } else {
      TrimStartPadded(pad[1..], s);
      assert (pad + s)[1..] == pad[1..] + s;
    }
  }

  lemma {:induction false} TrimEndPadded(s: string, pad: string)
    requires Blank(pad) && (s != "" ==> !IsSpace(s[|s| - 1]))
    ensures TrimEnd(s + pad) == s
  {
    if pad == "" {
      assert s + pad == s;
    } else {
      TrimEndPadded(s, pad[..|pad| - 1]);
      assert (s + pad)[..|s + pad| - 1] == s + pad[..|pad| - 1];
    }
  }

  /** Trimming removes exactly the padding of a text without spaces at its ends. */
  lemma TrimPadded(left: string, s: string, right: string)
    requires Blank(left) && Blank(right) && Trimmed(s) && s != ""
    ensures Trim(left + s + right) == s
  {
    assert left + s + right == left + (s + right);
    TrimStartPadded(left, s + right);
    TrimEndPadded(s, right);
  }

  lemma TrimOfTrimmed(s: string)
    requires Trimmed(s)
    ensures Trim(s) == s
  {
  }

  lemma {:induction false} TrimStartParts(s: string) returns (pad: string)
    ensures Blank(pad) && s == pad + TrimStart(s)
    ensures TrimStart(s) != "" ==> !IsSpace(TrimStart(s)[0])
  {
    pad := "";
    if s != "" && IsSpace(s[0]) {
      var rest := TrimStartParts(s[1..]);
      pad := [s[0]] + rest;
    }
  }

  lemma {:induction false} TrimEndParts(s: string) returns (pad: string)
    ensures Blank(pad) && s == TrimEnd(s) + pad
    ensures TrimEnd(s) != "" ==> !IsSpace(TrimEnd(s)[|TrimEnd(s)| - 1])
  {
    pad := "";
    if s != "" && IsSpace(s[|s| - 1]) {
      var rest := TrimEndParts(s[..|s| - 1]);
      pad := rest + [s[|s| - 1]];
    }
  }

  /** Every text is its trimmed form between two paddings. */
  lemma TrimParts(s: string) returns (left: string, right: string)
    ensures Blank(left) && Blank(right) && s == left + Trim(s) + right && Trimmed(Trim(s))
  {
    left := TrimStartParts(s);
    right := TrimEndParts(TrimStart(s));
  }

  // ----- Page numbers

  /** The sign and the digits of a page text. */
  function SignAndDigits(s: string, allowSign: bool): (bool, string) {
    var t := Trim(s);
    if allowSign && t != "" && t[0] == '-' then (true, TrimStart(t[1..]))
    else if allowSign && t != "" && t[0] == '+' then (false, TrimStart(t[1..]))
    else (false, t)
  }

  /** The page a text denotes: an optional sign and digits whose value fits in 63 bits. */
  function PageNumber(s: string, allowSign: bool): Option<int> {
    var (negative, digits) := SignAndDigits(s, allowSign);
    if digits == "" || !AllDigits(digits) || Value(digits) > I64_MAX then None
    else Some(if negative then 0 - Value(digits) else Value(digits))
  }

  /** A page text spelled out: white space, a sign where one is allowed, and digits. */
  datatype Numeral = Numeral(left: string, sign: string, gap: string, digits: string, right: string)

  predicate NumeralOk(u: Numeral, allowSign: bool) {
    && Blank(u.left) && Blank(u.gap) && Blank(u.right)
    && (u.sign == "" ==> u.gap == "") && (u.sign != "" ==> allowSign && (u.sign == "-" || u.sign == "+"))
    && u.digits != "" && AllDigits(u.digits) && Value(u.digits) <= I64_MAX
  }

  function PrintNumeral(u: Numeral): string {
    u.left + (u.sign + u.gap + u.digits) + u.right
  }

  function Denoted(u: Numeral): int
    requires AllDigits(u.digits)
  {
    if u.sign == "-" then 0 - Value(u.digits) else Value(u.digits)
  }

  lemma {:induction false} NumeralRoundTrip(u: Numeral, allowSign: bool)
    requires NumeralOk(u, allowSign)
    ensures PageNumber(PrintNumeral(u), allowSign) == Some(Denoted(u))
  {
    var core := u.sign + u.gap + u.digits;
    SignedCore(u.sign, u.gap, u.digits);
    TrimPadded(u.left, core, u.right);
    assert Trim(PrintNumeral(u)) == core;
    if u.sign == "" {
      assert core == u.digits && DigitValue(core[0]).Some?;
    } else {
      TrimStartPadded(u.gap, u.digits);
    }
  }

  lemma SignedCore(sign: string, gap: string, digits: string)
    requires digits != "" && AllDigits(digits) && (sign == "" ==> gap == "") && (sign != "" ==> sign == "-" || sign == "+")
    ensures Trimmed(sign + gap + digits) && Trimmed(digits)
    ensures sign != "" ==> (sign + gap + digits)[0] == sign[0] && (sign + gap + digits)[1..] == gap + digits
  {
    var core := sign + gap + digits;
    DigitsAreTrimmed(digits);
    assert core[|core| - 1] == digits[|digits| - 1];
    assert sign == "" ==> core == digits;
  }

  lemma {:induction false} NumeralParts(s: string, allowSign: bool) returns (u: Numeral)
    requires PageNumber(s, allowSign).Some?
    ensures NumeralOk(u, allowSign) && s == PrintNumeral(u) && PageNumber(s, allowSign) == Some(Denoted(u))
  {
    var left, right := TrimParts(s);
    var t := Trim(s);
    var (negative, digits) := SignAndDigits(s, allowSign);
    if allowSign && t != "" && (t[0] == '-' || t[0] == '+') {
      var gap := TrimStartParts(t[1..]);
      u := Numeral(left, [t[0]], gap, digits, right);
      assert t == [t[0]] + gap + digits;
    } else {
      u := Numeral(left, "", "", digits, right);
      assert t == "" + "" + digits;
    }
  }

  /** A text denotes a page exactly when it is digits that fit in 63 bits, between white space and,
      where signs are allowed, after one sign. */
  lemma PageNumberExactly(s: string, allowSign: bool, n: int)
    ensures PageNumber(s, allowSign) == Some(n)
            <==> exists u :: NumeralOk(u, allowSign) && s == PrintNumeral(u) && n == Denoted(u)
  {
    if PageNumber(s, allowSign) == Some(n) {
      var u := NumeralParts(s, allowSign);
    }
    if u :| NumeralOk(u, allowSign) && s == PrintNumeral(u) && n == Denoted(u) {
      NumeralRoundTrip(u, allowSign);
    }
  }

  lemma DigitsAreTrimmed(s: string)
    requires AllDigits(s)
    ensures Trimmed(s)
  {
  }

  /** Reads the digits with checked 64-bit arithmetic. It never fails early: an intermediate value
      overflows only when the whole number does. */
  method ParsePageNumber(s: string, allowSign: bool) returns (r: Option<int>)
    ensures r == PageNumber(s, allowSign)
    ensures r.Some? ==> -I64_MAX <= r.value <= I64_MAX
  {
    var (negative, digits) := SignAndDigits(s, allowSign);
    if digits == "" {
      return None;
    }
    var page := 0;
    for k := 0 to |digits|
      invariant AllDigits(digits[..k]) && page == Value(digits[..k]) <= I64_MAX
    {
      var digit := DigitValue(digits[k]);
      if digit.None? {
        return None;
      }
      DigitStep(digits, k);
      if page * 10 > I64_MAX || page * 10 + digit.value > I64_MAX {
        OverflowIsFinal(digits, k + 1);
        return None;
      }
      page := page * 10 + digit.value;
    }
    assert digits[..|digits|] == digits;
    r := Some(if negative then -page else page);
  }

  lemma {:induction false} DigitStep(digits: string, k: nat)
    requires k < |digits| && AllDigits(digits[..k]) && DigitValue(digits[k]).Some?
    ensures AllDigits(digits[..k + 1]) && Value(digits[..k + 1]) == Value(digits[..k]) * 10 + DigitValue(digits[k]).value
  {
    var more := digits[..k + 1];
    assert forall i | 0 <= i < k :: more[i] == digits[..k][i];
    assert more[..k] == digits[..k];
  }

  lemma OverflowIsFinal(digits: string, k: nat)
    requires k <= |digits| && AllDigits(digits[..k]) && Value(digits[..k]) > I64_MAX
    ensures AllDigits(digits) ==> Value(digits) > I64_MAX
  {
    if AllDigits(digits) {
      PrefixValueBound(digits, k);
    }
  }

  // ----- One tag

  /** The first position whose character passes the test. */
  function FindFirst(s: string, test: char -> bool): (r: Option<nat>)
    ensures r.Some? ==> r.value < |s|
  {
    if s == "" then None
    else if test(s[0]) then Some(0)
    else
      var r := FindFirst(s[1..], test);
      if r.None? then None else Some(r.value + 1)
  }

  lemma {:induction false} FindFirstIsFirst(s: string, test: char -> bool)
    ensures var r := FindFirst(s, test);
            && (r.None? ==> forall i | 0 <= i < |s| :: !test(s[i]))
            && (r.Some? ==> test(s[r.value]) && forall i | 0 <= i < r.value :: !test(s[i]))
  {
    if s != "" && !test(s[0]) {
      FindFirstIsFirst(s[1..], test);
      assert forall i | 0 < i < |s| :: s[i] == s[1..][i - 1];
    }
  }

  lemma {:induction false} FindFirstAt(s: string, test: char -> bool, i: nat)
    requires i < |s| && test(s[i]) && forall j | 0 <= j < i :: !test(s[j])
    ensures FindFirst(s, test) == Some(i)
  {
    if i > 0 {
      assert forall j | 0 <= j < i - 1 :: s[1..][j] == s[j + 1];
      FindFirstAt(s[1..], test, i - 1);
    }
  }

  /** The text after an optional page prefix. */
  function WithoutPrefix(s: string): string {
    if s != "" && IsPagePrefix(s[0]) then Trim(s[1..]) else s
  }

  function ParseCitationBody(body: string): (r: Option<Citation>)
    ensures r.Some? ==> r.value.source != "" && 0 <= r.value.page <= I64_MAX
  {
    var colon := FindFirst(body, IsColon);
    if colon.None? then None
    else
      var source := Trim(body[..colon.value]);
      if source == "" then None
      else
        var page := PageNumber(WithoutPrefix(Trim(body[colon.value + 1..])), false);
        if page.None? then None else Some(Citation(source, page.value))
  }

  /** One printed page: an optional prefix, digits, and white space around both. */
  datatype PageText = PageText(left: string, prefix: Option<char>, gap: string, digits: string, right: string)

  predicate PageOk(p: PageText) {
    && Blank(p.left) && Blank(p.gap) && Blank(p.right)
    && (p.prefix.Some? ==> IsPagePrefix(p.prefix.value)) && (p.prefix.None? ==> p.gap == "")
    && p.digits != "" && AllDigits(p.digits) && Value(p.digits) <= I64_MAX
  }

  function Core(p: PageText): string {
    if p.prefix.Some? then [p.prefix.value] + p.gap + p.digits else p.digits
  }

  function PrintPage(p: PageText): string {
    p.left + Core(p) + p.right
  }

  lemma {:induction false} PageRoundTrip(p: PageText)
    requires PageOk(p)
    ensures PageNumber(WithoutPrefix(Trim(PrintPage(p))), false) == Some(Value(p.digits))
  {
    DigitsAreTrimmed(p.digits);
    var core := Core(p);
    assert core[|core| - 1] == p.digits[|p.digits| - 1];
    TrimPadded(p.left, core, p.right);
    if p.prefix.Some? {
      assert core[1..] == p.gap + p.digits + "";
      TrimPadded(p.gap, p.digits, "");
    } else {
      assert DigitValue(core[0]).Some?;
    }
    TrimOfTrimmed(p.digits);
  }

  lemma {:induction false} PageParts(s: string) returns (p: PageText)
    requires PageNumber(WithoutPrefix(Trim(s)), false).Some?
    ensures PageOk(p) && s == PrintPage(p)
    ensures PageNumber(WithoutPrefix(Trim(s)), false) == Some(Value(p.digits))
  {
    var left, right := TrimParts(s);
    var t := Trim(s);
    var digits := WithoutPrefix(t);
    if t != "" && IsPagePrefix(t[0]) {
      var before, behind := TrimParts(t[1..]);
      TrimOfTrimmed(digits);
      p := PageText(left, Some(t[0]), before, digits, behind + right);
      assert t == [t[0]] + before + digits + behind;
    } else {
      TrimOfTrimmed(digits);
      p := PageText(left, None, "", digits, right);
    }
  }

  /** A source as the parser hands it out. */
  predicate SourceText(s: string) {
    s != "" && Trimmed(s) && forall i | 0 <= i < |s| :: !IsColon(s[i])
  }

  /** The body of a tag spelled out: the source between white space, a colon and a page. */
  datatype BodyText = BodyText(left: string, source: string, right: string, colon: char, page: PageText)

  predicate BodyOk(b: BodyText) {
    Blank(b.left) && Blank(b.right) && SourceText(b.source) && IsColon(b.colon) && PageOk(b.page)
  }

  function PrintBody(b: BodyText): string {
    b.left + b.source + b.right + [b.colon] + PrintPage(b.page)
  }

  function Cites(b: BodyText): Citation
    requires BodyOk(b)
  {
    Citation(b.source, Value(b.page.digits))
  }

  /** Parsing a printed body gives back its source and its page. */
  lemma BodyRoundTrip(b: BodyText)
    requires BodyOk(b)
    ensures ParseCitationBody(PrintBody(b)) == Some(Cites(b))
  {
    var head := b.left + b.source + b.right;
    var body := PrintBody(b);
    forall i | 0 <= i < |head|
      ensures !IsColon(body[i])
    {
      assert body[i] == head[i];
    }
    FindFirstAt(body, IsColon, |head|);
    assert body[..|head|] == head && body[|head| + 1..] == PrintPage(b.page);
    TrimPadded(b.left, b.source, b.right);
    PageRoundTrip(b.page);
  }

  lemma SourceParts(head: string) returns (left: string, right: string)
    requires Trim(head) != "" && forall i | 0 <= i < |head| :: !IsColon(head[i])
    ensures Blank(left) && Blank(right) && head == left + Trim(head) + right && SourceText(Trim(head))
  {
    left, right := TrimParts(head);
    var source := Trim(head);
    forall i | 0 <= i < |source|
      ensures !IsColon(source[i])
    {
      assert source[i] == head[|left| + i];
    }
  }

  lemma FirstColon(body: string)
    requires FindFirst(body, IsColon).Some?
    ensures var k := FindFirst(body, IsColon).value;
            && IsColon(body[k]) && body == body[..k] + [body[k]] + body[k + 1..]
            && forall i | 0 <= i < k :: !IsColon(body[..k][i])
  {
    FindFirstIsFirst(body, IsColon);
  }

  /** Whatever parses is a printed body of the citation it gives. */
  lemma {:induction false} BodyParts(body: string) returns (b: BodyText)
    requires ParseCitationBody(body).Some?
    ensures BodyOk(b) && body == PrintBody(b) && ParseCitationBody(body) == Some(Cites(b))
  {
    FirstColon(body);
    var k := FindFirst(body, IsColon).value;
    var left, right := SourceParts(body[..k]);
    var page := PageParts(body[k + 1..]);
    b := BodyText(left, Trim(body[..k]), right, body[k], page);
  }

  ghost predicate ReadsAs(body: string, c: Citation) {
    exists b :: BodyOk(b) && body == PrintBody(b) && c == Cites(b)
  }

  /** A body is read as a citation exactly when it is a printed body of that citation: a body without a
      colon, without a source, or without a page that fits in 63 bits gives none. */
  lemma BodyExactly(body: string, c: Citation)
    ensures ParseCitationBody(body) == Some(c) <==> ReadsAs(body, c)
  {
    if ParseCitationBody(body) == Some(c) {
      var b := BodyParts(body);
    }
    if b :| BodyOk(b) && body == PrintBody(b) && c == Cites(b) {
      BodyRoundTrip(b);
    }
  }
}
