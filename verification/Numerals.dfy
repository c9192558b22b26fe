/** Decimal numerals, half-width and full-width, as the citation parser reads them
    and as claim identifiers print them. */
module Numerals {
  import opened Wrappers

  /** The value of a decimal digit; full-width digits count like half-width ones. */
  function DigitValue(ch: char): (r: Option<nat>)
    ensures r.Some? ==> r.value < 10
  {
    if '0' <= ch <= '9' then Some(ch as int - '0' as int)
    else if '\U{FF10}' <= ch <= '\U{FF19}' then Some(ch as int - '\U{FF10}' as int)
    else None
  }

  const HALF_WIDTH := "0123456789"
  const FULL_WIDTH := "\U{FF10}\U{FF11}\U{FF12}\U{FF13}\U{FF14}\U{FF15}\U{FF16}\U{FF17}\U{FF18}\U{FF19}"

  /** The digits are the ten listed characters of either width, each worth its place in the list. */
  lemma DigitsListed(ch: char, k: nat)
    ensures DigitValue(ch) == Some(k) <==> k < 10 && (ch == HALF_WIDTH[k] || ch == FULL_WIDTH[k])
  {
    if k < 10 {
      assert HALF_WIDTH[k] as int == '0' as int + k;
      assert FULL_WIDTH[k] as int == '\U{FF10}' as int + k;
    }
  }

  predicate AllDigits(s: string) {
    forall i | 0 <= i < |s| :: DigitValue(s[i]).Some?
  }

  /** The number a digit string denotes. */
  function Value(s: string): nat
    requires AllDigits(s)
  {
    if s == [] then 0
    else Value(s[..|s| - 1]) * 10 + DigitValue(s[|s| - 1]).value
  }

  /** Half-width printing of a number, without leading zeros. */
  function Decimal(n: nat): (s: string) {
    var last := '0' + (n % 10) as char;
    if n < 10 then [last] else Decimal(n / 10) + [last]
  }

  lemma {:induction false} DecimalValue(n: nat)
    ensures Decimal(n) != [] && AllDigits(Decimal(n)) && Value(Decimal(n)) == n
  {
    var s := Decimal(n);
    if n >= 10 {
      DecimalValue(n / 10);
      assert s[..|s| - 1] == Decimal(n / 10);
    }
  }

  lemma DecimalInjective(m: nat, n: nat)
    requires Decimal(m) == Decimal(n)
    ensures m == n
  {
    DecimalValue(m);
    DecimalValue(n);
  }

  /** A prefix of a digit string never denotes more than the whole string. */
  lemma {:induction false} PrefixValueBound(s: string, k: nat)
    requires AllDigits(s) && k <= |s|
    ensures Value(s[..k]) <= Value(s)
  {
    if k < |s| {
      var init := s[..|s| - 1];
      PrefixValueBound(init, k);
      assert init[..k] == s[..k];
    } else {
      assert s[..k] == s;
    }
  }

  /** Half-width digits only. */
  predicate PlainDigits(s: string) {
    forall i | 0 <= i < |s| :: '0' <= s[i] <= '9'
  }

  /** A printed number has no leading zero. */
  lemma {:induction false} DecimalLeads(n: nat)
    requires n > 0
    ensures Decimal(n) != [] && PlainDigits(Decimal(n)) && Decimal(n)[0] != '0'
  {
    if n >= 10 {
      DecimalLeads(n / 10);
    }
  }

  /** A numeral without a leading zero is the printed form of its value. */
  lemma {:induction false} DecimalOfValue(s: string)
    requires s != [] && PlainDigits(s) && s[0] != '0'
    ensures AllDigits(s) && Value(s) > 0 && Decimal(Value(s)) == s
  {
    if |s| > 1 {
      DecimalOfValue(s[..|s| - 1]);
      assert s == s[..|s| - 1] + [s[|s| - 1]];
    }
  }
}
