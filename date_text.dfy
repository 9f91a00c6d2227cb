/**
 * The picker's `mmFormat` and `mmParse`: a day written as `YYYY/MM/DD`, and the
 * strict reading of that format (moment in strict mode: exactly four year
 * digits, two month digits, two day digits, `/` between them, and a day that
 * exists in the calendar).
 */
module DateText {
  import opened Wrappers
  import opened Calendar

  predicate IsDigit(c: char) {
    '0' <= c <= '9'
  }

  predicate AllDigits(s: string) {
    forall i :: 0 <= i < |s| ==> IsDigit(s[i])
  }

  function DigitChar(v: nat): (c: char)
    requires v < 10
    ensures IsDigit(c)
  {
    ('0' as int + v) as char
  }

  function DigitValue(c: char): (v: nat)
    requires IsDigit(c)
    ensures v < 10 && DigitChar(v) == c
  {
    c as int - '0' as int
  }

  function Pow10(w: nat): (p: nat)
    ensures p >= 1
  {
    if w == 0 then 1 else 10 * Pow10(w - 1)
  }

  /** The last w decimal digits of n, padded on the left with zeros. */
  function Fixed(n: nat, w: nat): (s: string)
    ensures |s| == w && AllDigits(s)
  {
    if w == 0 then [] else Fixed(n / 10, w - 1) + [DigitChar(n % 10)]
  }

  /** All decimal digits of n, without padding. */
  function Decimal(n: nat): (s: string)
    ensures |s| >= 1 && AllDigits(s)
    ensures n >= 10 ==> |s| >= 2
  {
    if n < 10 then [DigitChar(n)] else Decimal(n / 10) + [DigitChar(n % 10)]
  }

  /** The number written by a string of decimal digits. */
  function ValueOf(s: string): nat
    requires AllDigits(s)
  {
    if s == [] then 0 else ValueOf(s[..|s| - 1]) * 10 + DigitValue(s[|s| - 1])
  }

  /**
   * moment's zero-filling of a number to at least w digits: numbers below 10^w
   * are padded, larger ones keep all their digits.
   */
  function ZeroFill(n: nat, w: nat): string {
    if n < Pow10(w) then Fixed(n, w) else Decimal(n)
  }

  /** `mmFormat` of a present day: `YYYY/MM/DD`. */
  function FormatDay(d: Day): string {
    var c := ToCivil(d);
    ZeroFill(c.year, 4) + "/" + ZeroFill(c.month, 2) + "/" + ZeroFill(c.day, 2)
  }

  /** `mmParse`: strict `YYYY/MM/DD`; None stands for moment's invalid date. */
  function ParseDay(s: string): (r: Option<Day>)
    ensures r.Some? ==> |s| == 10 && s[4] == '/' && s[7] == '/'
  {
    if |s| == 10 && s[4] == '/' && s[7] == '/'
       && AllDigits(s[..4]) && AllDigits(s[5..7]) && AllDigits(s[8..])
    then
      var c := Civil(ValueOf(s[..4]), ValueOf(s[5..7]), ValueOf(s[8..]));
      if Valid(c) then Some(ToDay(c)) else None
    else None
  }

  /** `mmParse` of a value that may be `undefined` or `null`: such a value is an invalid date. */
  function ParseMaybe(s: Option<string>): Option<Day> {
    match s
    case None => None
    case Some(t) => ParseDay(t)
  }

  /** A present, valid result of `ParseMaybe` came from the day's own spelling. */
  lemma ParseMaybeExact(s: Option<string>)
    ensures ParseMaybe(s).Some? ==> s == Some(FormatDay(ParseMaybe(s).value))
  {
    if ParseMaybe(s).Some? {
      FormatParse(s.value);
    }
  }

  /** Reading back the w fixed digits of a number below 10^w gives the number. */
  lemma {:induction false} ValueOfFixed(n: nat, w: nat)
    requires n < Pow10(w)
    ensures ValueOf(Fixed(n, w)) == n
  {
    if w > 0 {
      var s := Fixed(n, w);
      assert s[..|s| - 1] == Fixed(n / 10, w - 1);
      ValueOfFixed(n / 10, w - 1);
    }
  }

  /** A string of w digits is the fixed-width spelling of the number it writes. */
  lemma {:induction false} FixedValueOf(s: string)
    requires AllDigits(s)
    ensures Fixed(ValueOf(s), |s|) == s
  {
    if s != [] {
      var init := s[..|s| - 1];
      var v := ValueOf(init) * 10 + DigitValue(s[|s| - 1]);
      assert v / 10 == ValueOf(init) && v % 10 == DigitValue(s[|s| - 1]);
      FixedValueOf(init);
      assert s == init + [s[|s| - 1]];
    }
  }

  /** A day whose year has at most four digits is written with exactly ten characters. */
  lemma FormatShape(d: Day)
    requires ToCivil(d).year < 10000
    ensures var c := ToCivil(d);
      FormatDay(d) == Fixed(c.year, 4) + "/" + Fixed(c.month, 2) + "/" + Fixed(c.day, 2)
  {
    var c := ToCivil(d);
    assert Pow10(4) == 10000 && Pow10(2) == 100;
  }

  /** The three fields of a `YYYY/MM/DD` string, as ParseDay cuts them. */
  lemma Fields(y: string, m: string, d: string)
    requires |y| == 4 && |m| == 2 && |d| == 2
    ensures var s := y + "/" + m + "/" + d;
      |s| == 10 && s[4] == '/' && s[7] == '/' && s[..4] == y && s[5..7] == m && s[8..] == d
  {
  }

  /** Formatting and then strictly parsing a day gives the same day back. */
  lemma ParseFormat(d: Day)
    requires ToCivil(d).year < 10000
    ensures ParseDay(FormatDay(d)) == Some(d)
  {
    var c := ToCivil(d);
    FormatShape(d);
    Fields(Fixed(c.year, 4), Fixed(c.month, 2), Fixed(c.day, 2));
    assert Pow10(4) == 10000 && Pow10(2) == 100;
    ValueOfFixed(c.year, 4);
    ValueOfFixed(c.month, 2);
    ValueOfFixed(c.day, 2);
  }

  /** Strict parsing accepts one spelling per day: the one `FormatDay` writes. */
  lemma FormatParse(s: string)
    requires ParseDay(s).Some?
    ensures FormatDay(ParseDay(s).value) == s
  {
    var c := Civil(ValueOf(s[..4]), ValueOf(s[5..7]), ValueOf(s[8..]));
    ToCivilToDay(c);
    FixedValueOf(s[..4]);
    FixedValueOf(s[5..7]);
    FixedValueOf(s[8..]);
    ValueOfBound(s[..4]);
    ValueOfBound(s[5..7]);
    ValueOfBound(s[8..]);
    FormatShape(ToDay(c));
    assert s == s[..4] + "/" + s[5..7] + "/" + s[8..];
  }

  lemma {:induction false} ValueOfBound(s: string)
    requires AllDigits(s)
    ensures ValueOf(s) < Pow10(|s|)
  {
    if s != [] {
      ValueOfBound(s[..|s| - 1]);
    }
  }

  /** A day after year 9999 is written with more than four year digits, which strict parsing refuses. */
  lemma LargeYearUnparseable(d: Day)
    requires ToCivil(d).year >= 10000
    ensures ParseDay(FormatDay(d)).None?
  {
    var c := ToCivil(d);
    assert Pow10(4) == 10000;
    DecimalLength(c.year, 4);
  }

  lemma {:induction false} DecimalLength(n: nat, w: nat)
    requires n >= Pow10(w)
    ensures |Decimal(n)| > w
  {
    if w > 0 {
      DecimalLength(n / 10, w - 1);
    }
  }
}
