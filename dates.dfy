/** Calendar dates as java.time.LocalDate treats them: the proleptic Gregorian calendar,
    ordered year first, then month, then day; the ISO `yyyy-mm-dd` text form; and the
    inclusive range test of DateUtils. */
module Dates {
  import opened Wrappers
  import opened Text

  datatype Date = Date(year: int, month: int, day: int)

  /** IsoChronology.isLeapYear. */
  predicate IsLeapYear(y: int) {
    y % 4 == 0 && (y % 100 != 0 || y % 400 == 0)
  }

  /** Month.length for the given year. */
  function DaysInMonth(y: int, m: int): (n: int)
    requires 1 <= m <= 12
    ensures 28 <= n <= 31
    ensures n == 29 <==> m == 2 && IsLeapYear(y)
  {
    if m == 2 then (if IsLeapYear(y) then 29 else 28)
    else if m == 4 || m == 6 || m == 9 || m == 11 then 30
    else 31
  }

  /** The date exists in the calendar: a month of the year and a day of that month. */
  predicate IsValidDate(d: Date) {
    1 <= d.month <= 12 && 1 <= d.day <= DaysInMonth(d.year, d.month)
  }

  /** LocalDate.isBefore: strictly earlier, comparing year, then month, then day. */
  predicate IsBefore(a: Date, b: Date) {
    a.year < b.year || (a.year == b.year && (a.month < b.month || (a.month == b.month && a.day < b.day)))
  }

  /** LocalDate.isAfter. */
  predicate IsAfter(a: Date, b: Date) {
    IsBefore(b, a)
  }

  /** The non-strict order: `a` is `b` or earlier. */
  predicate OnOrBefore(a: Date, b: Date) {
    a == b || IsBefore(a, b)
  }

  /** The order on dates is total: exactly one of before, equal, after holds. */
  lemma Trichotomy(a: Date, b: Date)
    ensures IsBefore(a, b) || a == b || IsAfter(a, b)
    ensures !(IsBefore(a, b) && IsAfter(a, b)) && !IsBefore(a, a)
  {
  }

  /** DateUtils.isInDateRange (DateUtils.java:19-21): neither before the start nor after the end. */
  function IsInDateRange(date: Date, startDate: Date, endDate: Date): (r: bool)
    ensures r <==> OnOrBefore(startDate, date) && OnOrBefore(date, endDate)
  {
    !(IsBefore(date, startDate) || IsAfter(date, endDate))
  }

  /** Both ends of the range belong to it whenever the range is not empty. */
  lemma RangeBoundsInclusive(startDate: Date, endDate: Date)
    requires OnOrBefore(startDate, endDate)
    ensures IsInDateRange(startDate, startDate, endDate)
    ensures IsInDateRange(endDate, startDate, endDate)
  {
  }

  /** A range whose start is after its end holds no date. */
  lemma {:induction false} ReversedRangeIsEmpty(date: Date, startDate: Date, endDate: Date)
    requires IsAfter(startDate, endDate)
    ensures !IsInDateRange(date, startDate, endDate)
  {
    if IsInDateRange(date, startDate, endDate) {
      assert OnOrBefore(startDate, date) && OnOrBefore(date, endDate);
      assert OnOrBefore(startDate, endDate);
      Trichotomy(startDate, endDate);
    }
  }

  function Power10(k: nat): (p: nat)
    ensures p >= 1
  {
    if k == 0 then 1 else 10 * Power10(k - 1)
  }

  /** A digit string of length k denotes a number below 10^k. */
  lemma {:induction false} DecimalValueBound(s: string)
    requires AllDigits(s)
    ensures DecimalValue(s) < Power10(|s|)
  {
    if s != [] {
      DecimalValueBound(s[..|s| - 1]);
    }
  }

  /** `n` written with exactly `width` digits, zero-padded on the left. */
  function Padded(n: nat, width: nat): (s: string)
    requires n < Power10(width)
    ensures |s| == width && AllDigits(s) && DecimalValue(s) == n
  {
    if width == 0 then []
    else
      var s := Padded(n / 10, width - 1) + [DigitChar(n % 10)];
      assert s[..|s| - 1] == Padded(n / 10, width - 1);
      s
  }

  /** Every digit string is the padded notation of its own value. */
  lemma {:induction false} PaddedOfDecimalValue(s: string)
    requires AllDigits(s)
    ensures DecimalValue(s) < Power10(|s|) && Padded(DecimalValue(s), |s|) == s
  {
    DecimalValueBound(s);
    if s != [] {
      var init := s[..|s| - 1];
      PaddedOfDecimalValue(init);
      var c := s[|s| - 1];
      var v, high := DecimalValue(s), DecimalValue(init);
      assert v == high * 10 + DigitValue(c);
      assert v / 10 == high && v % 10 == DigitValue(c);
      assert DigitChar(DigitValue(c)) == c;
      assert Padded(v, |s|) == Padded(high, |init|) + [c];
      assert s == init + [c];
    }
  }

  /** The text form `yyyy-mm-dd` of a date whose year has at most four digits. */
  function FormatIsoDate(d: Date): (s: string)
    requires 0 <= d.year <= 9999 && IsValidDate(d)
    ensures |s| == 10 && s[4] == '-' && s[7] == '-'
  {
    Padded(d.year, 4) + "-" + Padded(d.month, 2) + "-" + Padded(d.day, 2)
  }

  /** LocalDate.parse with DateTimeFormatter.ISO_DATE and its strict resolution, for the
      plain form: four year digits, a dash, two month digits, a dash, two day digits, and the
      date must exist in the calendar. */
  function ParseIsoDate(s: string): (r: Option<Date>)
    ensures r.Some? ==> IsValidDate(r.value) && 0 <= r.value.year <= 9999
  {
    if |s| == 10 && AllDigits(s[0..4]) && s[4] == '-' && AllDigits(s[5..7]) && s[7] == '-'
       && AllDigits(s[8..10])
    then
      DecimalValueBound(s[0..4]);
      var d := Date(DecimalValue(s[0..4]), DecimalValue(s[5..7]), DecimalValue(s[8..10]));
      if IsValidDate(d) then Some(d) else None
    else None
  }

  /** Formatting and then parsing gives back the date. */
  lemma FormatThenParse(d: Date)
    requires 0 <= d.year <= 9999 && IsValidDate(d)
    ensures ParseIsoDate(FormatIsoDate(d)) == Some(d)
  {
    var s := FormatIsoDate(d);
    assert s[0..4] == Padded(d.year, 4);
    assert s[5..7] == Padded(d.month, 2);
    assert s[8..10] == Padded(d.day, 2);
  }

  /** A ten-character text is its year, month and day fields with the separators between. */
  lemma TenCharacterFields(s: string)
    requires |s| == 10
    ensures s == s[0..4] + [s[4]] + s[5..7] + [s[7]] + s[8..10]
  {
    var t := s[0..4] + [s[4]] + s[5..7] + [s[7]] + s[8..10];
    assert |t| == 10;
    forall i | 0 <= i < 10
      ensures t[i] == s[i]
    {
    }
  }

  /** Every accepted text is the formatted form of the date it denotes, so the parse accepts
      exactly the formatted forms of valid dates. */
  lemma ParseThenFormat(s: string)
    requires ParseIsoDate(s).Some?
    ensures FormatIsoDate(ParseIsoDate(s).value) == s
  {
    var y, m, dd := s[0..4], s[5..7], s[8..10];
    var d := ParseIsoDate(s).value;
    assert d == Date(DecimalValue(y), DecimalValue(m), DecimalValue(dd));
    PaddedOfDecimalValue(y);
    PaddedOfDecimalValue(m);
    PaddedOfDecimalValue(dd);
    assert Padded(d.year, 4) == y && Padded(d.month, 2) == m && Padded(d.day, 2) == dd;
    TenCharacterFields(s);
    assert [s[4]] == "-" && [s[7]] == "-";
  }

  /** The value of a two-digit string. */
  lemma TwoDigitValue(t: string)
    requires |t| == 2 && AllDigits(t)
    ensures DecimalValue(t) == 10 * DigitValue(t[0]) + DigitValue(t[1])
  {
    var h := t[..1];
    assert h[..0] == [] && h[0] == t[0];
    assert DecimalValue(h) == DecimalValue(h[..0]) * 10 + DigitValue(h[0]);
    assert DecimalValue(t) == DecimalValue(h) * 10 + DigitValue(t[1]);
  }

  /** The value of a four-digit string. */
  lemma FourDigitValue(t: string)
    requires |t| == 4 && AllDigits(t)
    ensures DecimalValue(t) == 1000 * DigitValue(t[0]) + 100 * DigitValue(t[1]) + 10 * DigitValue(t[2]) + DigitValue(t[3])
  {
    var h := t[..3];
    TwoDigitValue(h[..2]);
    assert h[..2][0] == t[0] && h[..2][1] == t[1] && h[2] == t[2];
  }

  /** The date the parse reads from a text of the right shape, digit by digit. */
  lemma ParseIsoDateByDigits(s: string)
    requires |s| == 10 && AllDigits(s[0..4]) && s[4] == '-' && AllDigits(s[5..7]) && s[7] == '-'
    requires AllDigits(s[8..10])
    ensures var d := Date(1000 * DigitValue(s[0]) + 100 * DigitValue(s[1]) + 10 * DigitValue(s[2]) + DigitValue(s[3]),
                          10 * DigitValue(s[5]) + DigitValue(s[6]),
                          10 * DigitValue(s[8]) + DigitValue(s[9]));
            ParseIsoDate(s) == if IsValidDate(d) then Some(d) else None
  {
    FourDigitValue(s[0..4]);
    TwoDigitValue(s[5..7]);
    TwoDigitValue(s[8..10]);
  }

  /** An impossible day of the month is rejected: 2020-02-30 does not exist. */
  lemma ImpossibleDayRejected()
    ensures ParseIsoDate("2020-02-30") == None
  {
    var s := "2020-02-30";
    assert s[0..4] == "2020" && s[5..7] == "02" && s[8..10] == "30";
    assert AllDigits("2020") && AllDigits("02") && AllDigits("30");
    ParseIsoDateByDigits(s);
  }

  /** The last day of February of a leap year is accepted. */
  lemma LeapDayAccepted()
    ensures ParseIsoDate("2020-02-29") == Some(Date(2020, 2, 29))
  {
    var s := "2020-02-29";
    assert s[0..4] == "2020" && s[5..7] == "02" && s[8..10] == "29";
    assert AllDigits("2020") && AllDigits("02") && AllDigits("29");
    ParseIsoDateByDigits(s);
  }
}
