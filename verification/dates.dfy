/** Calendar dates and Go's `time.Parse` with the layout "2006-01-02". */
module Dates {
  import opened Common

  /** A calendar day; clock time is always midnight UTC in this application. */
  datatype Date = Date(year: int, month: int, day: int)

  /** The zero `time.Time`, which `time.Parse` returns on failure:
      1 January of year 1. */
  const ZeroDate: Date := Date(1, 1, 1)

  /** Gregorian leap years, as Go's `time` package computes them. */
  predicate IsLeap(year: int) {
    year % 4 == 0 && (year % 100 != 0 || year % 400 == 0)
  }

  function DaysIn(month: int, year: int): int
    requires 1 <= month <= 12
  {
    if month == 2 then (if IsLeap(year) then 29 else 28)
    else if month == 4 || month == 6 || month == 9 || month == 11 then 30
    else 31
  }

  /** The dates a "2006-01-02" layout can denote: a four-digit year and a
      day that exists in its month. */
  predicate ValidDate(d: Date) {
    0 <= d.year <= 9999 && 1 <= d.month <= 12 && 1 <= d.day <= DaysIn(d.month, d.year)
  }

  /** `time.Parse("2006-01-02", s)`: exactly four year digits, '-', two month
      digits, '-', two day digits and nothing after; the month must be 1..12
      and the day must exist in that month of that year. */
  function ParseDate(s: string): (r: Option<Date>)
    ensures r.Some? ==> ValidDate(r.value)
    ensures r.Some? ==> |s| == 10 && s[4] == '-' && s[7] == '-'
  {
    if |s| != 10 || s[4] != '-' || s[7] != '-' then None
    else if !AllDigits(s[0..4]) || !AllDigits(s[5..7]) || !AllDigits(s[8..10]) then None
    else
      var d := Date(DigitsValue(s[0..4]), DigitsValue(s[5..7]), DigitsValue(s[8..10]));
      DigitsValueBound(s[0..4]);
      if 1 <= d.month <= 12 && 1 <= d.day <= DaysIn(d.month, d.year) then Some(d) else None
  }

  /** `ParseDate` of a well-shaped string, digit by digit: the form used to
      evaluate literal dates. */
  lemma ParseDateDigits(s: string)
    requires |s| == 10 && s[4] == '-' && s[7] == '-'
    requires forall i :: 0 <= i < 10 && i != 4 && i != 7 ==> IsDigit(s[i])
    ensures var d := Date(
        1000 * DigitValue(s[0]) + 100 * DigitValue(s[1]) + 10 * DigitValue(s[2]) + DigitValue(s[3]),
        10 * DigitValue(s[5]) + DigitValue(s[6]),
        10 * DigitValue(s[8]) + DigitValue(s[9]));
      ParseDate(s) == if 1 <= d.month <= 12 && 1 <= d.day <= DaysIn(d.month, d.year) then Some(d) else None
  {
    DigitsValue2(s[5..7]);
    DigitsValue2(s[8..10]);
    var y := s[0..4];
    DigitsValue2(y[..2]);
    assert y[..3][..2] == y[..2];
    assert DigitsValue(y[..3]) == DigitsValue(y[..2]) * 10 + DigitValue(y[2]);
    assert DigitsValue(y) == DigitsValue(y[..3]) * 10 + DigitValue(y[3]);
  }

  lemma DigitsValue2(s: string)
    requires |s| == 2 && AllDigits(s)
    ensures DigitsValue(s) == 10 * DigitValue(s[0]) + DigitValue(s[1])
  {
    assert s[..1][..0] == [];
    assert DigitsValue(s[..1]) == DigitValue(s[0]);
  }

  /** `t, _ := time.Parse(...)`: the parsed date, or the zero time on error. */
  function ParseDateOrZero(s: string): (d: Date)
    ensures ParseDate(s).Some? ==> d == ParseDate(s).value
    ensures ParseDate(s).None? ==> d == ZeroDate
  {
    match ParseDate(s)
    case Some(d) => d
    case None => ZeroDate
  }

  function Pow10(w: nat): nat {
    if w == 0 then 1 else 10 * Pow10(w - 1)
  }

  /** A string of `w` digits denotes a number below `10^w`. */
  lemma {:induction false} DigitsValueBound(s: string)
    requires AllDigits(s)
    ensures DigitsValue(s) < Pow10(|s|)
    decreases |s|
  {
    if |s| > 0 {
      DigitsValueBound(s[..|s| - 1]);
    }
  }

  /** `n` in exactly `w` decimal digits, zero-padded on the left. */
  function PadDigits(n: nat, w: nat): (s: string)
    requires n < Pow10(w)
    ensures |s| == w && AllDigits(s)
    ensures DigitsValue(s) == n
    decreases w
  {
    if w == 0 then ""
    else
      var prefix := PadDigits(n / 10, w - 1);
      var s := prefix + [DigitChar(n % 10)];
      assert s[..|s| - 1] == prefix;
      s
  }

  /** The "2006-01-02" rendering of a date. */
  function FormatDate(d: Date): (s: string)
    requires ValidDate(d)
    ensures |s| == 10
  {
    assert Pow10(4) == 10000 && Pow10(2) == 100;
    PadDigits(d.year, 4) + "-" + PadDigits(d.month, 2) + "-" + PadDigits(d.day, 2)
  }

  /** Two digit strings of the same length and value are the same string. */
  lemma {:induction false} DigitsValueInjective(a: string, b: string)
    requires |a| == |b| && AllDigits(a) && AllDigits(b)
    requires DigitsValue(a) == DigitsValue(b)
    ensures a == b
    decreases |a|
  {
    if |a| > 0 {
      var n := |a| - 1;
      var x, y := DigitsValue(a[..n]), DigitsValue(b[..n]);
      assert DigitsValue(a) == x * 10 + DigitValue(a[n]);
      assert DigitsValue(b) == y * 10 + DigitValue(b[n]);
      assert DigitValue(a[n]) == DigitValue(b[n]) && x == y;
      DigitsValueInjective(a[..n], b[..n]);
      assert a == a[..n] + [a[n]] && b == b[..n] + [b[n]];
    }
  }

  /** A digit field is the zero-padded rendering of its own value. */
  lemma PadDigitsOf(t: string, w: nat)
    requires |t| == w && AllDigits(t)
    ensures DigitsValue(t) < Pow10(w) && PadDigits(DigitsValue(t), w) == t
  {
    DigitsValueBound(t);
    DigitsValueInjective(PadDigits(DigitsValue(t), w), t);
  }

  /** A ten-character string is its three fields around its two dashes. */
  lemma DateFields(s: string)
    requires |s| == 10 && s[4] == '-' && s[7] == '-'
    ensures s == s[0..4] + "-" + s[5..7] + "-" + s[8..10]
  {
  }

  /** Every string the parser accepts is the rendering of the date it
      yields: nothing but the eight digits and two dashes is accepted. */
  lemma ParseThenFormat(s: string)
    requires ParseDate(s).Some?
    ensures FormatDate(ParseDate(s).value) == s
  {
    var d := ParseDate(s).value;
    var y, m, dd := s[0..4], s[5..7], s[8..10];
    assert AllDigits(y) && AllDigits(m) && AllDigits(dd);
    assert d == Date(DigitsValue(y), DigitsValue(m), DigitsValue(dd));
    PadDigitsOf(y, 4);
    PadDigitsOf(m, 2);
    PadDigitsOf(dd, 2);
    DateFields(s);
  }

  /** The parser accepts exactly the renderings of valid dates, each giving
      back its own date. */
  lemma ParseDateIff(s: string, d: Date)
    ensures ParseDate(s) == Some(d) <==> ValidDate(d) && s == FormatDate(d)
  {
    if ParseDate(s) == Some(d) {
      ParseThenFormat(s);
    }
    if ValidDate(d) && s == FormatDate(d) {
      FormatThenParse(d);
    }
  }

  /** The three fields joined by dashes sit at the layout's positions. */
  lemma JoinFields(y: string, m: string, dd: string)
    requires |y| == 4 && |m| == 2 && |dd| == 2
    ensures var s := y + "-" + m + "-" + dd;
      |s| == 10 && s[4] == '-' && s[7] == '-' && s[0..4] == y && s[5..7] == m && s[8..10] == dd
  {
    var s := y + "-" + m + "-" + dd;
    assert s[0..4] == y;
    assert s[5..7] == m;
    assert s[8..10] == dd;
  }

  /** Parsing a formatted date gives the date back. */
  lemma FormatThenParse(d: Date)
    requires ValidDate(d)
    ensures ParseDate(FormatDate(d)) == Some(d)
  {
    assert Pow10(4) == 10000 && Pow10(2) == 100;
    var y, m, dd := PadDigits(d.year, 4), PadDigits(d.month, 2), PadDigits(d.day, 2);
    JoinFields(y, m, dd);
    assert FormatDate(d) == y + "-" + m + "-" + dd;
  }
}
