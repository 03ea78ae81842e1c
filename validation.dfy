/** The Validator: each check passes or fails with its own message; `ValidateDateStrings`
    runs the date checks in a fixed order and the first failing one decides the message.
    A Java `null` argument is `None`. */
module Validation {
  import opened Wrappers
  import opened Text
  import opened Dates

  const StartDateInvalid := "Entered start date is invalid"
  const EndDateInvalid := "Entered end date is invalid"
  const WrongOrder := "Dates are in wrong order"
  const DateInvalid := "Entered date is invalid"
  const CurrencyInvalid := "Entered currency code is invalid"
  const TooEarly := "2012-01-01 is the earliest possible date"

  /** The whole string matches the pattern `\w{3}`. */
  predicate IsCurrencyCode(s: string): (matches: bool)
    ensures matches <==> MatchesWhole(s, Repeat(AnyWordChar, 3))
  {
    |s| == 3 && forall i :: 0 <= i < 3 ==> IsWordChar(s[i])
  }

  /** The date an argument text denotes under the ISO format; a null text denotes none. */
  function ParsedDate(text: Option<string>): (r: Option<Date>)
    ensures r.Some? ==> text.Some? && IsValidDate(r.value)
  {
    if text.Some? then ParseIsoDate(text.value) else None
  }

  /** Validator.validateCurrency: passes exactly for a non-null string of three word characters. */
  function ValidateCurrency(currency: Option<string>): (r: Outcome<string>)
    ensures r.Pass? <==> currency.Some? && |currency.value| == 3
                         && forall i :: 0 <= i < |currency.value| ==> IsWordChar(currency.value[i])
    ensures r.Fail? ==> r.error == CurrencyInvalid
  {
    if currency.None? || !IsCurrencyCode(currency.value) then Fail(CurrencyInvalid) else Pass
  }

  /** Validator.validateDateString: passes exactly for a non-null text that parses as a date. */
  function ValidateDateString(date: Option<string>): (r: Outcome<string>)
    ensures r.Pass? <==> ParsedDate(date).Some?
    ensures r.Fail? ==> r.error == DateInvalid
  {
    if date.Some? && ParseIsoDate(date.value).Some? then Pass else Fail(DateInvalid)
  }

  /** Validator.validateDateOrder: a missing start is reported first, then a missing end; two
      dates pass exactly when the start is not after the end (equal dates pass). */
  function ValidateDateOrder(startDate: Option<Date>, endDate: Option<Date>): (r: Outcome<string>)
    ensures startDate.None? ==> r == Fail(StartDateInvalid)
    ensures startDate.Some? && endDate.None? ==> r == Fail(EndDateInvalid)
    ensures startDate.Some? && endDate.Some? ==>
              (r.Pass? <==> OnOrBefore(startDate.value, endDate.value)) && (r.Fail? ==> r.error == WrongOrder)
  {
    if startDate.None? then Fail(StartDateInvalid)
    else if endDate.None? then Fail(EndDateInvalid)
    else if IsAfter(startDate.value, endDate.value) then Fail(WrongOrder)
    else Pass
  }

  /** Validator.validateMinimumDate: passes exactly when the date is the minimum or later. The
      message names 2012-01-01 whatever minimum is given to it. */
  function ValidateMinimumDate(date: Date, minimumDate: Date): (r: Outcome<string>)
    ensures r.Pass? <==> OnOrBefore(minimumDate, date)
    ensures r.Fail? ==> r.error == TooEarly
  {
    if IsAfter(minimumDate, date) then Fail(TooEarly) else Pass
  }

  /** Validator.validateDateStrings: start format, end format, order, then the minimum on the
      start date; the first check that fails decides the message. */
  function ValidateDateStrings(startText: Option<string>, endText: Option<string>, minimumDate: Date)
    : (r: Outcome<string>)
    ensures ParsedDate(startText).None? ==> r == Fail(StartDateInvalid)
    ensures ParsedDate(startText).Some? && ParsedDate(endText).None? ==> r == Fail(EndDateInvalid)
    ensures ParsedDate(startText).Some? && ParsedDate(endText).Some? ==>
              var s, e := ParsedDate(startText).value, ParsedDate(endText).value;
              && (IsAfter(s, e) ==> r == Fail(WrongOrder))
              && (OnOrBefore(s, e) && IsBefore(s, minimumDate) ==> r == Fail(TooEarly))
              && (OnOrBefore(s, e) && OnOrBefore(minimumDate, s) ==> r == Pass)
    ensures r.Pass? ==>
              && ParsedDate(startText).Some? && ParsedDate(endText).Some?
              && OnOrBefore(minimumDate, ParsedDate(startText).value)
              && OnOrBefore(ParsedDate(startText).value, ParsedDate(endText).value)
  {
    if ValidateDateString(startText).Fail? then Fail(StartDateInvalid)
    else if ValidateDateString(endText).Fail? then Fail(EndDateInvalid)
    else
      var startDate := ParseIsoDate(startText.value).value;
      var endDate := ParseIsoDate(endText.value).value;
      match ValidateDateOrder(Some(startDate), Some(endDate))
      case Fail(message) => Fail(message)
      case Pass => ValidateMinimumDate(startDate, minimumDate)
  }

  /** The end date is never checked against the minimum, yet it is never earlier than it once
      validation passes. */
  lemma {:induction false} ValidatedEndNotBeforeMinimum(startText: Option<string>, endText: Option<string>,
                                                        minimumDate: Date)
    requires ValidateDateStrings(startText, endText, minimumDate).Pass?
    ensures ParsedDate(endText).Some? && OnOrBefore(minimumDate, ParsedDate(endText).value)
  {
    var s, e := ParsedDate(startText).value, ParsedDate(endText).value;
    assert OnOrBefore(minimumDate, s) && OnOrBefore(s, e);
    Trichotomy(minimumDate, e);
  }

  /** A date text validates exactly when it is the `yyyy-mm-dd` form of a date that exists. */
  lemma ValidDateTexts(text: string)
    ensures ValidateDateString(Some(text)).Pass? <==>
              exists d: Date :: 0 <= d.year <= 9999 && IsValidDate(d) && FormatIsoDate(d) == text
  {
    if ValidateDateString(Some(text)).Pass? {
      ParseThenFormat(text);
      var d := ParseIsoDate(text).value;
      assert 0 <= d.year <= 9999 && IsValidDate(d) && FormatIsoDate(d) == text;
    } else if d: Date :| 0 <= d.year <= 9999 && IsValidDate(d) && FormatIsoDate(d) == text {
      FormatThenParse(d);
    }
  }

  /** Currency codes: case is irrelevant to the pattern, which admits digits and `_` too, but not
      shorter codes, longer codes, punctuation or null. */
  lemma CurrencyExamples()
    ensures ValidateCurrency(Some("USD")).Pass? && ValidateCurrency(Some("usd")).Pass?
    ensures ValidateCurrency(Some("US")).Fail? && ValidateCurrency(Some("US1!")).Fail?
    ensures ValidateCurrency(None).Fail?
  {
  }

  /** An impossible calendar date fails as the start date with the start-date message. */
  lemma ImpossibleStartDate(endText: Option<string>, minimumDate: Date)
    ensures ValidateDateStrings(Some("2020-02-30"), endText, minimumDate) == Fail(StartDateInvalid)
  {
    ImpossibleDayRejected();
  }
}
