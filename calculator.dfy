/** NbpCalculator: validates the arguments, then lists the wanted data files and reads the
    ask and bid of the currency from each. The mean of the asks and the standard deviation of
    the bids, and their printing, are not part of this model. */
module Calculator {
  import opened Wrappers
  import opened Text
  import opened Dates
  import opened Validation
  import opened Remote
  import opened FileList
  import opened Xml

  /** The earliest date the calculator accepts. */
  const MinimumDate := Date(2012, 1, 1)

  /** The values the statistics are computed from: the asks give the mean, the bids the
      standard deviation. */
  datatype Series = Series(askValues: seq<string>, bidValues: seq<string>)

  /** The constructor's checks, in order: the dates first, then the currency code, so that
      the date message is the one reported when both are wrong. */
  function ValidateArguments(currency: Option<string>, startText: Option<string>, endText: Option<string>)
    : (r: Outcome<string>)
    ensures r.Pass? <==> && currency.Some? && IsCurrencyCode(currency.value)
                         && ParsedDate(startText).Some? && ParsedDate(endText).Some?
                         && OnOrBefore(MinimumDate, ParsedDate(startText).value)
                         && OnOrBefore(ParsedDate(startText).value, ParsedDate(endText).value)
    ensures ValidateDateStrings(startText, endText, MinimumDate).Fail? ==>
              r == ValidateDateStrings(startText, endText, MinimumDate)
    ensures ValidateDateStrings(startText, endText, MinimumDate).Pass? && r.Fail? ==> r.error == CurrencyInvalid
  {
    var dates := ValidateDateStrings(startText, endText, MinimumDate);
    if dates.Fail? then dates else ValidateCurrency(currency)
  }

  /** A bad start date is reported even when the currency code is bad too. */
  lemma DateMessageWins(endText: Option<string>)
    ensures ValidateArguments(Some("US"), Some("2020-02-30"), endText) == Fail(StartDateInvalid)
  {
    ImpossibleStartDate(endText, MinimumDate);
  }

  /** What calculate computes, or the fault that stops it: the wanted file names from the
      yearly indexes, then the entries read from those files. */
  function Pipeline(currency: string, startDate: Date, endDate: Date, currentYear: int,
                    indexes: Server, data: Server): Result<Series, Fault>
  {
    var gathered := GatherNames(IndexNames(startDate.year, endDate.year, currentYear), indexes, startDate, endDate);
    if gathered.fault.Some? then Failure(gathered.fault.value)
    else
      var extracted := Extraction(gathered.items, data, currency);
      if extracted.fault.Some? then Failure(extracted.fault.value)
      else Success(Series(Asks(extracted.items), Bids(extracted.items)))
  }

  /** The k-th ask and the k-th bid come from one data file, whose name's date lies in the
      range; there are as many asks as bids and none of them contains a comma. */
  lemma SeriesComesFromFilesInRange(currency: string, startDate: Date, endDate: Date, currentYear: int,
                                    indexes: Server, data: Server, s: Series)
    requires Pipeline(currency, startDate, endDate, currentYear, indexes, data) == Success(s)
    ensures |s.askValues| == |s.bidValues|
    ensures forall k :: 0 <= k < |s.askValues| ==>
              exists n :: && Wanted(n, startDate, endDate)
                          && FileEntry(n, data, currency) == Success(Some(AskBid(s.askValues[k], s.bidValues[k])))
    ensures forall k :: 0 <= k < |s.askValues| ==> ',' !in s.askValues[k] && ',' !in s.bidValues[k]
  {
    var dirs := IndexNames(startDate.year, endDate.year, currentYear);
    var names := GatherNames(dirs, indexes, startDate, endDate).items;
    var entries := Extraction(names, data, currency).items;
    GatheredNamesAreWanted(dirs, indexes, startDate, endDate);
    EntriesFollowMatchingFiles(names, data, currency);
    MatchingFilesAreGiven(names, data, currency);
    ExtractedValuesHaveNoComma(names, data, currency);
    var files := MatchingFiles(names, data, currency);
    forall k | 0 <= k < |s.askValues|
      ensures exists n :: && Wanted(n, startDate, endDate)
                          && FileEntry(n, data, currency) == Success(Some(AskBid(s.askValues[k], s.bidValues[k])))
    {
      assert entries[k] == AskBid(s.askValues[k], s.bidValues[k]);
      assert files[k] in files;
    }
    forall k | 0 <= k < |s.askValues|
      ensures ',' !in s.askValues[k] && ',' !in s.bidValues[k]
    {
      assert entries[k] in entries;
    }
  }

  /** A year index the server does not have stops the calculation with a connection fault. */
  lemma MissingIndexFails(currency: string, startDate: Date, endDate: Date, currentYear: int,
                          indexes: Server, data: Server)
    requires IndexNames(startDate.year, endDate.year, currentYear)[0] !in indexes
    ensures Pipeline(currency, startDate, endDate, currentYear, indexes, data) == Failure(ConnectionProblem)
  {
  }

  class NbpCalculator {
    const currency: string
    const startDate: Date
    const endDate: Date

    /** What the constructor's checks guarantee about the fields. */
    ghost predicate Valid()
      reads this
    {
      && IsCurrencyCode(currency)
      && IsValidDate(startDate) && IsValidDate(endDate)
      && OnOrBefore(MinimumDate, startDate) && OnOrBefore(startDate, endDate)
    }

    /** Stores arguments that have already passed the constructor's checks, so every
        calculator satisfies Valid(). */
    constructor (currency: string, startDate: Date, endDate: Date)
      requires IsCurrencyCode(currency)
      requires IsValidDate(startDate) && IsValidDate(endDate)
      requires OnOrBefore(MinimumDate, startDate) && OnOrBefore(startDate, endDate)
      ensures Valid()
      ensures this.currency == currency && this.startDate == startDate && this.endDate == endDate
    {
      this.currency := currency;
      this.startDate := startDate;
      this.endDate := endDate;
    }

    /** The NbpCalculator constructor: checks the arguments and either reports the first
        failed check's message or builds a calculator from the parsed dates. */
    static method Create(currency: Option<string>, startText: Option<string>, endText: Option<string>)
      returns (r: Result<NbpCalculator, string>)
      ensures ValidateArguments(currency, startText, endText).Fail? ==>
                r == Failure(ValidateArguments(currency, startText, endText).error)
      ensures ValidateArguments(currency, startText, endText).Pass? ==>
                && r.Success? && fresh(r.value) && r.value.Valid()
                && r.value.currency == currency.value
                && r.value.startDate == ParsedDate(startText).value
                && r.value.endDate == ParsedDate(endText).value
    {
      var checked := ValidateArguments(currency, startText, endText);
      if checked.Fail? {
        return Failure(checked.error);
      }
      var calculator := new NbpCalculator(currency.value, ParsedDate(startText).value, ParsedDate(endText).value);
      return Success(calculator);
    }

    /** calculate: reads the file list, then parses the files; the first fault stops it. */
    method Calculate(currentYear: int, indexes: Server, data: Server) returns (r: Result<Series, Fault>)
      requires Valid()
      ensures r == Pipeline(currency, startDate, endDate, currentYear, indexes, data)
    {
      var fileListReader := new FileListReader(startDate, endDate);
      var read := fileListReader.ReadFiles(currentYear, indexes);
      assert fileListReader.dirFiles == IndexNames(startDate.year, endDate.year, currentYear);
      if read.Fail? {
        return Failure(read.error);
      }
      var xmlFiles := fileListReader.XmlFiles();
      assert xmlFiles == GatherNames(IndexNames(startDate.year, endDate.year, currentYear), indexes, startDate, endDate).items;
      var xmlParser := new XmlParser(currency);
      var parsed := xmlParser.ParseFiles(xmlFiles, data);
      assert xmlParser.currency == currency;
      if parsed.Fail? {
        return Failure(parsed.error);
      }
      ghost var extracted := Extraction(xmlFiles, data, currency);
      assert xmlParser.ParsedAsksList() == [] + Asks(extracted.items) == Asks(extracted.items);
      assert xmlParser.ParsedBidsList() == [] + Bids(extracted.items) == Bids(extracted.items);
      return Success(Series(xmlParser.ParsedAsksList(), xmlParser.ParsedBidsList()));
    }
  }
}
