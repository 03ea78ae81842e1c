# nbpCalculator in Dafny

This project models the core of nbpCalculator, a batch job. It takes a currency code and a
date range, checks them, and lists the yearly index files of the NBP (the Polish central
bank) that cover the range. From each index it keeps the names of the exchange-rate tables
dated inside the range. It then reads the buying (ask) and selling (bid) rate of the currency
from each table. The program prints the mean of the asks and the standard deviation of the
bids. The model stops at the two value lists those statistics are computed from.

The modules follow the program's classes:

- `Wrappers`: `Option`, `Result` and `Outcome`. These stand in for Java's `null` and for
  exceptions.
- `Text`: the string operations the program uses, written out.
  - `String.indexOf` and `contains`.
  - `replace` of one character.
  - ASCII `equalsIgnoreCase`.
  - Decimal printing of an integer.
- `Dates`: calendar dates.
  - A `Date` datatype with Gregorian validity and lexicographic order.
  - `DateUtils.isInDateRange`.
  - The strict ISO `yyyy-mm-dd` parser and its formatter.
- `Validation`: `Validator`. Each check is an `Outcome` that carries the message the Java
  method throws.
- `Remote`: the server.
  - The server is a map from a file name to its lines. A name absent from the map is a
    connection failure.
  - The kinds of fault that stop the job.
  - `Partial`, the results gathered before a fault.
- `FileList`: `FileListReader`.
  - A class with the `dirFiles` and `xmlFiles` sequence fields.
  - Its loops are proved against the functions `IndexNames`, `KeptNames` and `GatherNames`.
- `Xml`: `XmlParser`.
  - A class with the ask and bid list fields.
  - The tag functions, the line scan `FindEntry`, and the per-file extraction `Extraction`.
- `Calculator`: `NbpCalculator`.
  - The constructor's checks, in their order, as `ValidateArguments`.
  - `Create`, which returns either the message or a calculator whose fields satisfy `Valid()`.
  - `Calculate`, which drives a `FileListReader` and an `XmlParser` and is proved equal to
    the function `Pipeline`.

Inputs that come from outside the program are parameters:

- Each index file and each data file is given as its sequence of lines.
- The current year, which the source reads from the clock, is passed in.

Runtime exceptions that the source does not catch are fault values:

- `UnparsableFileDate`: an index line has the name shape but no readable date.
- `MalformedEntry`: a tag value cannot be cut out of a line, or a marker is not followed by
  two lines.

The date inside a data-file name is resolved as Java's `yyMMdd` formatter resolves it by
default:

- a month outside 1..12 or a day outside 1..31 is an error;
- a day past the end of its month becomes the month's last day.

The model reproduces this, so a name dated February 30 counts as February 28 or 29.

## Model

| member | source | states |
|---|---|---|
| Text.IndexOf | src/pl/parser/nbp/files/XmlParser.java:115-116 | -1 exactly when the text never occurs; otherwise an occurrence with none before it |
| Text.IndexOfIsFirstOccurrence | src/pl/parser/nbp/files/XmlParser.java:115-116 | an occurrence with no earlier one is the position indexOf returns |
| Text.EqualsIgnoreCase | src/pl/parser/nbp/files/XmlParser.java:82 | equal ignoring case exactly when both strings upper-case to the same text; equal strings and case variants qualify; equal strings have equal length |
| Text.ReplaceChar | src/pl/parser/nbp/files/XmlParser.java:128 | same length, each replaced character becomes the new one, all others kept, none of the replaced character left |
| Text.NatToStringValue | src/pl/parser/nbp/files/FileListReader.java:57 | the decimal text written for a year reads back as that year |
| Text.NatToStringNoLeadingZero | src/pl/parser/nbp/files/FileListReader.java:57 | the decimal text of a number starts with 0 only for 0 itself, written as the single digit |
| Dates.IsInDateRange | src/pl/parser/nbp/utils/DateUtils.java:19-21 | true exactly when startDate <= date <= endDate |
| Dates.RangeBoundsInclusive | src/pl/parser/nbp/utils/DateUtils.java:20 | for an ordered range, the start date and the end date are both inside it |
| Dates.ReversedRangeIsEmpty | src/pl/parser/nbp/utils/DateUtils.java:20 | when startDate is after endDate no date is in range |
| Dates.Trichotomy | src/pl/parser/nbp/utils/DateUtils.java:20 | of two dates exactly one is before, equal to, or after the other |
| Dates.DaysInMonth | src/pl/parser/nbp/validation/Validator.java:70 | month lengths 28..31, 29 exactly for February of a leap year |
| Dates.ParseIsoDate | src/pl/parser/nbp/validation/Validator.java:68-74 | a parsed date is a valid calendar date with a four-digit year |
| Dates.FormatThenParse | src/pl/parser/nbp/NbpCalculator.java:21 | every valid date's yyyy-mm-dd text parses back to the date |
| Dates.ParseThenFormat | src/pl/parser/nbp/NbpCalculator.java:21 | every accepted text is the canonical text of its date |
| Dates.ImpossibleDayRejected | src/pl/parser/nbp/validation/Validator.java:68-74 | 2020-02-30 is rejected (strict resolution) |
| Dates.LeapDayAccepted | src/pl/parser/nbp/validation/Validator.java:68-74 | 2020-02-29 is accepted as that date |
| Validation.ParsedDate | src/pl/parser/nbp/validation/Validator.java:38-39 | a date is produced only from a present text and is a valid date |
| Validation.ValidateCurrency | src/pl/parser/nbp/validation/Validator.java:82-86 | passes exactly when the code is present and is three word characters; otherwise the currency message |
| Validation.ValidateDateString | src/pl/parser/nbp/validation/Validator.java:68-74 | passes exactly when the text is present and parses; otherwise the date message |
| Validation.ValidateDateOrder | src/pl/parser/nbp/validation/Validator.java:50-60 | a missing start is reported first, then a missing end; with both present it fails, with the order message, exactly when start is after end |
| Validation.ValidateMinimumDate | src/pl/parser/nbp/validation/Validator.java:94-98 | passes exactly when the minimum is on or before the date; the minimum itself passes |
| Validation.ValidateDateStrings | src/pl/parser/nbp/validation/Validator.java:27-42 | start text, end text, order, minimum in that order, the first failing check's message; success implies minimum <= start <= end |
| Validation.ValidatedEndNotBeforeMinimum | src/pl/parser/nbp/validation/Validator.java:38-41 | after success the end date, never checked directly, is not before the minimum |
| Validation.ValidDateTexts | src/pl/parser/nbp/validation/Validator.java:68-74 | a text passes exactly when it is the yyyy-mm-dd text of a valid date |
| Validation.CurrencyExamples | src/pl/parser/nbp/NbpCalculator.java:23 | USD and usd pass; US, US1! and a missing code fail |
| Validation.ImpossibleStartDate | src/pl/parser/nbp/validation/Validator.java:28-32 | a start of 2020-02-30 is reported as an invalid start date whatever the end |
| FileList.EmbeddedDate | src/pl/parser/nbp/files/FileListReader.java:85 | a date exactly when month is 1..12 and day 1..31; its year is 2000 + yy and month MM; a day past the month end is moved back; a valid written date is read as written |
| FileList.IsXmlFileName | src/pl/parser/nbp/files/FileListReader.java:84 | a line is a data-file name exactly when it matches `c\d{3}z\d{6}` as a whole |
| FileList.YearIndexName | src/pl/parser/nbp/files/FileListReader.java:57 | a past year's index name is dir followed by the year's decimal digits without leading zeros, behind a minus sign for a negative year |
| FileList.YearIndexNamesDiffer | src/pl/parser/nbp/files/FileListReader.java:56-58 | different years have different index names |
| FileList.IndexNamesDistinct | src/pl/parser/nbp/files/FileListReader.java:54-66 | no two positions of the index list hold the same name, so no index is read twice |
| FileList.FinalIndexName | src/pl/parser/nbp/files/FileListReader.java:60-64 | the last index is dir exactly when the range ends in the current year, otherwise dir followed by the end year |
| FileList.IndexNames | src/pl/parser/nbp/files/FileListReader.java:54-67 | end year - start year + 1 names for an ordered range |
| FileList.IndexNamesAt | src/pl/parser/nbp/files/FileListReader.java:56-58 | the k-th name before the last is the index of start year + k, so the years increase |
| FileList.IndexNamesLast | src/pl/parser/nbp/files/FileListReader.java:60-64 | the last name is the final index |
| FileList.StripByteOrderMark | src/pl/parser/nbp/files/FileListReader.java:81 | a byte-order mark at the start of the first line is dropped; every other line is kept |
| FileList.KeptNamesAreTheWantedLines | src/pl/parser/nbp/files/FileListReader.java:82-90 | fails, with the date fault, exactly when some name-shaped line has no readable date; otherwise every kept name has length 11, matches the name shape, is dated in range, and occurs as often as among the lines |
| FileList.GatheredNamesAreWanted | src/pl/parser/nbp/files/FileListReader.java:39-44 | every gathered name is a data-file name dated in the range |
| FileList.MissingIndexStopsGathering | src/pl/parser/nbp/files/FileListReader.java:91-96 | an index the server does not have stops the gathering with the connection fault after the names of the earlier indexes |
| FileList.FileListReader.constructor | src/pl/parser/nbp/files/FileListReader.java:28-33 | stores the range; both lists empty |
| FileList.FileListReader.XmlFiles | src/pl/parser/nbp/files/FileListReader.java:46-48 | every returned name is a data-file name dated inside the reader's range |
| FileList.FileListReader.ReadFiles | src/pl/parser/nbp/files/FileListReader.java:39-44 | appends the index names to dirFiles and to xmlFiles the concatenation of each index's kept names in index order; the first fault stops it |
| FileList.FileListReader.GetDirsToDownload | src/pl/parser/nbp/files/FileListReader.java:54-67 | returns the index names of the range |
| FileList.FileListReader.GetFilesToDownload | src/pl/parser/nbp/files/FileListReader.java:75-98 | returns the kept names of the index, the connection fault for a missing index, or the date fault |
| Xml.OpeningTag | src/pl/parser/nbp/files/XmlParser.java:98-100 | the tag name between `<` and `>` |
| Xml.ClosingTag | src/pl/parser/nbp/files/XmlParser.java:102-104 | the tag name between `</` and `>` |
| Xml.TagValueInLine | src/pl/parser/nbp/files/XmlParser.java:112-118 | no value when the closing tag is absent; a value is never longer than the line |
| Xml.TagValueOfElement | src/pl/parser/nbp/files/XmlParser.java:98-118 | an indented line with an element of the tag and a value free of the closing tag yields exactly the value |
| Xml.DecimalValueInLine | src/pl/parser/nbp/files/XmlParser.java:126-128 | a value exactly when the tag value exists; it is the tag value with each comma turned into a point and every other character kept, so it has no comma |
| Xml.DecimalValueOfElement | src/pl/parser/nbp/files/XmlParser.java:126-128 | an element line yields its value with commas turned into points |
| Xml.MarkerTest | src/pl/parser/nbp/files/XmlParser.java:82 | a line without the currency tag is no marker; a line with it is a fault when no value can be cut out, otherwise a marker exactly when the value equals the currency ignoring case |
| Xml.MarkerOfElement | src/pl/parser/nbp/files/XmlParser.java:82 | a currency element line is a marker exactly when its code equals the currency ignoring case |
| Xml.MarkerElement | src/pl/parser/nbp/files/XmlParser.java:82 | the element of a code equal to the currency ignoring case is a marker |
| Xml.MarkerLineExample | src/pl/parser/nbp/files/XmlParser.java:82 | the element with code USD is a marker for the request usd, the element with code EUR is not |
| Xml.EntryOfElements | src/pl/parser/nbp/files/XmlParser.java:83-86 | ask and bid element lines after a marker give the entry of their values |
| Xml.EntryAfterMarker | src/pl/parser/nbp/files/XmlParser.java:83-86 | an entry exactly when two lines follow and the first holds an ask value and the second a bid value; the entry is those normalised values; otherwise the malformed-entry fault |
| Xml.FindEntry | src/pl/parser/nbp/files/XmlParser.java:80-95 | only the malformed-entry fault can occur; a found entry's ask and bid hold no comma |
| Xml.FirstMarkerDecides | src/pl/parser/nbp/files/XmlParser.java:80-87 | when line i is the first marker, the file's entry is read from the lines after i, whatever follows |
| Xml.NoEntryWithoutMarker | src/pl/parser/nbp/files/XmlParser.java:80-95 | a file yields no entry and no fault exactly when none of its lines is a marker |
| Xml.FoundEntryFollowsFirstMarker | src/pl/parser/nbp/files/XmlParser.java:80-87 | a found entry's ask is read from the line right after the first marker and its bid from the line after that |
| Xml.Extraction | src/pl/parser/nbp/files/XmlParser.java:50-54 | never more entries than files |
| Xml.MatchingFilesAreGiven | src/pl/parser/nbp/files/XmlParser.java:50-54 | the files with the currency are among the given files |
| Xml.EntriesFollowMatchingFiles | src/pl/parser/nbp/files/XmlParser.java:50-54 | without a fault, one entry per file with the currency, and the k-th entry is that of the k-th such file |
| Xml.ExtractedValuesHaveNoComma | src/pl/parser/nbp/files/XmlParser.java:62-65 | no extracted ask or bid contains a comma |
| Xml.XmlParser.constructor | src/pl/parser/nbp/files/XmlParser.java:31-35 | both lists empty, currency stored |
| Xml.XmlParser.ParsedAsksList | src/pl/parser/nbp/files/XmlParser.java:37-39 | as many asks as bids, none with a comma |
| Xml.XmlParser.ParsedBidsList | src/pl/parser/nbp/files/XmlParser.java:41-43 | as many bids as asks, none with a comma |
| Xml.XmlParser.ParseFiles | src/pl/parser/nbp/files/XmlParser.java:50-54 | appends the asks and the bids of the files' entries in file order, the lists keep equal length, the first fault stops it |
| Xml.XmlParser.ParseFile | src/pl/parser/nbp/files/XmlParser.java:61-67 | appends the entry's ask and bid together, nothing when the file has no entry or fails |
| Xml.XmlParser.GetAskBidEntry | src/pl/parser/nbp/files/XmlParser.java:75-96 | returns the file's entry: the first marker's ask and bid, none, or the fault |
| Calculator.ValidateArguments | src/pl/parser/nbp/NbpCalculator.java:32-35 | passes exactly when the code is three word characters and 2012-01-01 <= start <= end; a date failure is reported before the currency |
| Calculator.DateMessageWins | src/pl/parser/nbp/NbpCalculator.java:33-34 | with a bad start date and a bad code, the start date message is reported |
| Calculator.SeriesComesFromFilesInRange | src/pl/parser/nbp/NbpCalculator.java:46-55 | as many asks as bids; the k-th ask and bid are the entry of one data file dated in range; no value has a comma |
| Calculator.MissingIndexFails | src/pl/parser/nbp/NbpCalculator.java:46-47 | a missing first index ends the calculation with the connection fault |
| Validation.IsCurrencyCode | src/pl/parser/nbp/NbpCalculator.java:23 | a code passes exactly when it matches `\w{3}` as a whole |
| Calculator.NbpCalculator.constructor | src/pl/parser/nbp/NbpCalculator.java:36-38 | stores arguments that passed the checks; the calculator has a `\w{3}` code and 2012-01-01 <= start <= end |
| Calculator.NbpCalculator.Create | src/pl/parser/nbp/NbpCalculator.java:32-39 | the first failed check's message, or a new calculator holding the parsed dates and the code, with 2012-01-01 <= start <= end and a three-word-character code |
| Calculator.NbpCalculator.Calculate | src/pl/parser/nbp/NbpCalculator.java:45-55 | the names FileListReader gathers go unchanged to XmlParser; the asks come out as askValues and the bids as bidValues |

## Left out

- Network access and character decoding. The `URL` and `Scanner` calls and the file
  encodings are not modelled. Files arrive as sequences of lines. An `IOException` or
  `MalformedURLException` is the one `ConnectionProblem` fault.
- The Scanner's `hasNext` is false once all the remaining input is whitespace, so the
  `hasNext` loops never reach the whitespace-only lines at the end of a file. The two
  `nextLine` calls after a currency marker do read such lines, and whitespace-only lines in
  the middle are read by both. The model reads every line. A whitespace-only line matches
  neither the name pattern nor the currency tag, so reading it changes nothing.
- The clock: the current year is a parameter of `GetDirsToDownload`, `ReadFiles` and
  `Calculate`.
- Dates.ParseIsoDate: accepts only a year of four digits with no sign. `ISO_DATE` also
  accepts an offset suffix (`2020-01-01+01:00`) and signed years: a `-` before four to ten
  digits (`-2020-01-01` is year -2020) and a `+` before five to ten. The model rejects all
  of these as invalid dates. So the message can differ from Java's:
  - a start such as `-2020-01-01` is reported as "Entered start date is invalid", where
    Java reports "2012-01-01 is the earliest possible date";
  - such an end after a valid start is reported as "Entered end date is invalid", where
    Java reports "Dates are in wrong order";
  - an argument with an offset suffix, or with a `+` year, is rejected here and can pass in
    Java.
- Xml.DecimalValueInLine: keeps the value as text after the comma replacement.
  `Double.valueOf` is not modelled. So a value that is not a number does not raise the
  `NumberFormatException` that would stop the Java program.
- Text.EqualsIgnoreCase: folds only ASCII letters, where Java also folds other scripts.
  The currency codes involved are ASCII.
- The statistics in MathUtils (the mean, the variance, `Math.sqrt`). They are
  floating-point numerics. `Calculate` returns the two value lists instead.
- The printing in `calculate` and the whole of MainClass. These are console I/O.
- The library classes' own exception messages. Faults other than the connection problem
  are kept as kinds, not as texts.
- The date format and the currency pattern are fixed to the constants `NbpCalculator`
  passes: ISO `yyyy-mm-dd` and `\w{3}`. They are not parameters. The minimum date is a
  parameter of `ValidateMinimumDate` and `ValidateDateStrings`, as in the source; only
  `ValidateArguments` fixes it to 2012-01-01.
