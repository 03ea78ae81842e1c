/** FileListReader: derives the index names that cover a date range, reads each index and
    keeps the data-file names whose embedded date is inside the range. */
module FileList {
  import opened Wrappers
  import opened Text
  import opened Dates
  import opened Remote

  const ByteOrderMark: char := '\U{FEFF}'

  /** The expression data-file names are matched against: `c\d{3}z\d{6}`. */
  const XmlFileNamePattern: seq<CharClass> := [Exactly('c')] + Repeat(AnyDigit, 3) + [Exactly('z')] + Repeat(AnyDigit, 6)

  /** The line matches `c\d{3}z\d{6}` as a whole: `c`, three digits, `z`, six digits. */
  predicate IsXmlFileName(line: string): (matches: bool)
    ensures matches <==> MatchesWhole(line, XmlFileNamePattern)
  {
    && |line| == 11 && line[0] == 'c' && line[4] == 'z'
    && (forall i :: 1 <= i < 4 ==> IsDigit(line[i]))
    && (forall i :: 5 <= i < 11 ==> IsDigit(line[i]))
  }

  /** The number written by the two digits at positions i and i + 1. */
  function TwoDigitsAt(s: string, i: nat): (n: nat)
    requires i + 2 <= |s| && IsDigit(s[i]) && IsDigit(s[i + 1])
    ensures n < 100
  {
    10 * DigitValue(s[i]) + DigitValue(s[i + 1])
  }

  /** The date written as `yyMMdd` in characters 5 to 10 of a data-file name, resolved as the
      pattern formatter resolves it by default: yy is 2000 + yy, a month outside 1..12 or a
      day outside 1..31 is a parse error, and a day past the end of its month is moved back
      to the month's last day. */
  function EmbeddedDate(name: string): (r: Option<Date>)
    requires IsXmlFileName(name)
    ensures r.Some? <==> 1 <= TwoDigitsAt(name, 7) <= 12 && 1 <= TwoDigitsAt(name, 9) <= 31
    ensures r.Some? ==> && IsValidDate(r.value) && 2000 <= r.value.year <= 2099
                        && r.value.year == 2000 + TwoDigitsAt(name, 5)
                        && r.value.month == TwoDigitsAt(name, 7)
                        && r.value.day <= TwoDigitsAt(name, 9)
    ensures r.Some? && TwoDigitsAt(name, 9) > DaysInMonth(r.value.year, r.value.month) ==>
              r.value.day == DaysInMonth(r.value.year, r.value.month)
    ensures var written := Date(2000 + TwoDigitsAt(name, 5), TwoDigitsAt(name, 7), TwoDigitsAt(name, 9));
            IsValidDate(written) ==> r == Some(written)
  {
    var yy, mm, dd := TwoDigitsAt(name, 5), TwoDigitsAt(name, 7), TwoDigitsAt(name, 9);
    if 1 <= mm <= 12 && 1 <= dd <= 31 then
      var year := 2000 + yy;
      var last := DaysInMonth(year, mm);
      Some(Date(year, mm, if dd <= last then dd else last))
    else None
  }

  /** The index of one past year: `dir` followed by the year in decimal, after a minus sign
      when the year is negative. */
  function YearIndexName(year: int): (name: string)
    ensures |name| > 3 && name[..3] == "dir"
    ensures year >= 0 ==> AllDigits(name[3..]) && DecimalValue(name[3..]) == year
    ensures year < 0 ==> name[3] == '-' && AllDigits(name[4..]) && DecimalValue(name[4..]) == -year
    ensures year >= 0 && name[3] == '0' ==> year == 0 && |name| == 4
    ensures year < 0 ==> name[4] != '0'
  {
    var digits := NatToString(if year < 0 then -year else year);
    NatToStringValue(if year < 0 then -year else year);
    NatToStringNoLeadingZero(if year < 0 then -year else year);
    var sign := if year < 0 then "-" else "";
    AfterPrefix("dir" + sign, digits);
    assert IntToString(year) == sign + digits;
    assert "dir" + IntToString(year) == ("dir" + sign) + digits;
    "dir" + IntToString(year)
  }

  /** Dropping a prefix's length from prefix + rest leaves rest. */
  lemma AfterPrefix(prefix: string, rest: string)
    ensures (prefix + rest)[|prefix|..] == rest
  {
  }

  /** Different years have different index names, so no index is read twice. */
  lemma YearIndexNamesDiffer(a: int, b: int)
    requires a != b
    ensures YearIndexName(a) != YearIndexName(b)
  {
    var na, nb := YearIndexName(a), YearIndexName(b);
    if a >= 0 && b < 0 {
      assert IsDigit(na[3]) && !IsDigit(nb[3]);
    } else if a < 0 && b >= 0 {
      assert !IsDigit(na[3]) && IsDigit(nb[3]);
    } else if a >= 0 {
      assert DecimalValue(na[3..]) != DecimalValue(nb[3..]);
    } else {
      assert DecimalValue(na[4..]) != DecimalValue(nb[4..]);
    }
  }

  /** The index read last: the current one when the range ends in the current year. */
  function FinalIndexName(endYear: int, currentYear: int): (name: string)
    ensures name == "dir" <==> endYear == currentYear
    ensures endYear != currentYear ==> name == YearIndexName(endYear)
  {
    if endYear == currentYear then "dir" else YearIndexName(endYear)
  }

  /** The indexes to read: one per year from startYear up to but excluding endYear, then the
      final one; endYear - startYear + 1 names when startYear <= endYear, one otherwise. */
  function IndexNames(startYear: int, endYear: int, currentYear: int): (names: seq<string>)
    ensures |names| == (if startYear < endYear then endYear - startYear else 0) + 1
    decreases endYear - startYear
  {
    if startYear < endYear then [YearIndexName(startYear)] + IndexNames(startYear + 1, endYear, currentYear)
    else [FinalIndexName(endYear, currentYear)]
  }

  /** The k-th index name, for k before the last, is `dir<startYear + k>`: the past years in
      increasing order. */
  lemma {:induction false} IndexNamesAt(startYear: int, endYear: int, currentYear: int, k: nat)
    requires k < endYear - startYear
    ensures IndexNames(startYear, endYear, currentYear)[k] == YearIndexName(startYear + k)
    decreases endYear - startYear
  {
    var names := IndexNames(startYear, endYear, currentYear);
    var later := IndexNames(startYear + 1, endYear, currentYear);
    assert names == [YearIndexName(startYear)] + later;
    if k > 0 {
      assert names[k] == later[k - 1];
      IndexNamesAt(startYear + 1, endYear, currentYear, k - 1);
      assert startYear + 1 + (k - 1) == startYear + k;
    }
  }

  /** The last index name is the final index: `dir` exactly when the range ends in the current
      year. */
  lemma {:induction false} IndexNamesLast(startYear: int, endYear: int, currentYear: int)
    ensures var names := IndexNames(startYear, endYear, currentYear);
            names[|names| - 1] == FinalIndexName(endYear, currentYear)
    decreases endYear - startYear
  {
    if startYear < endYear {
      IndexNamesLast(startYear + 1, endYear, currentYear);
    }
  }

  /** No index is named twice in the list of indexes to read. */
  lemma IndexNamesDistinct(startYear: int, endYear: int, currentYear: int, i: nat, j: nat)
    requires i < j < |IndexNames(startYear, endYear, currentYear)|
    ensures IndexNames(startYear, endYear, currentYear)[i] != IndexNames(startYear, endYear, currentYear)[j]
  {
    if j < endYear - startYear {
      PastIndexNamesDiffer(startYear, endYear, currentYear, i, j);
    } else {
      PastIndexNameIsNotLast(startYear, endYear, currentYear, i);
    }
  }

  lemma PastIndexNamesDiffer(startYear: int, endYear: int, currentYear: int, i: nat, j: nat)
    requires i < j < endYear - startYear
    ensures IndexNames(startYear, endYear, currentYear)[i] != IndexNames(startYear, endYear, currentYear)[j]
  {
    var names := IndexNames(startYear, endYear, currentYear);
    IndexNamesAt(startYear, endYear, currentYear, i);
    IndexNamesAt(startYear, endYear, currentYear, j);
    NamesOfDifferentYears(names[i], names[j], startYear + i, startYear + j);
  }

  lemma PastIndexNameIsNotLast(startYear: int, endYear: int, currentYear: int, i: nat)
    requires i < endYear - startYear
    ensures var names := IndexNames(startYear, endYear, currentYear);
            names[i] != names[|names| - 1]
  {
    var names := IndexNames(startYear, endYear, currentYear);
    IndexNamesAt(startYear, endYear, currentYear, i);
    IndexNamesLast(startYear, endYear, currentYear);
    if endYear == currentYear {
      assert |names[|names| - 1]| == 3 < |names[i]|;
    } else {
      NamesOfDifferentYears(names[i], names[|names| - 1], startYear + i, endYear);
    }
  }

  lemma NamesOfDifferentYears(x: string, y: string, a: int, b: int)
    requires a != b && x == YearIndexName(a) && y == YearIndexName(b)
    ensures x != y
  {
    YearIndexNamesDiffer(a, b);
  }

  /** The scanner's first step: a byte-order mark at the very start of the text is skipped. */
  function StripByteOrderMark(lines: seq<string>): (r: seq<string>)
    ensures |r| == |lines| && forall k :: 0 < k < |lines| ==> r[k] == lines[k]
    ensures |lines| > 0 && |lines[0]| > 0 && lines[0][0] == ByteOrderMark ==> r[0] == lines[0][1..]
    ensures |lines| > 0 && (|lines[0]| == 0 || lines[0][0] != ByteOrderMark) ==> r[0] == lines[0]
  {
    if |lines| > 0 && |lines[0]| > 0 && lines[0][0] == ByteOrderMark then [lines[0][1..]] + lines[1..]
    else lines
  }

  /** A line names a data file in the range: it has the name shape and its date is inside. */
  predicate Wanted(line: string, startDate: Date, endDate: Date) {
    IsXmlFileName(line) && EmbeddedDate(line).Some? && IsInDateRange(EmbeddedDate(line).value, startDate, endDate)
  }

  /** A line has the name shape but no date can be read from it. */
  predicate Undated(line: string) {
    IsXmlFileName(line) && EmbeddedDate(line).None?
  }

  /** `done` before the names the rest of the lines give, unless they fail. */
  function Prefixed(done: seq<string>, rest: Result<seq<string>, Fault>): Result<seq<string>, Fault> {
    match rest
    case Success(names) => Success(done + names)
    case Failure(f) => Failure(f)
  }

  lemma PrefixedNothing(rest: Result<seq<string>, Fault>)
    ensures Prefixed([], rest) == rest
  {
    if rest.Success? {
      assert [] + rest.value == rest.value;
    }
  }

  lemma PrefixedTwice(a: seq<string>, b: seq<string>, rest: Result<seq<string>, Fault>)
    ensures Prefixed(a, Prefixed(b, rest)) == Prefixed(a + b, rest)
  {
    if rest.Success? {
      assert a + (b + rest.value) == (a + b) + rest.value;
    }
  }

  /** The names kept from the lines of one index, in line order. */
  function KeptNames(lines: seq<string>, startDate: Date, endDate: Date): Result<seq<string>, Fault>
  {
    if lines == [] then Success([])
    else if Undated(lines[0]) then Failure(UnparsableFileDate)
    else Prefixed(if Wanted(lines[0], startDate, endDate) then [lines[0]] else [], KeptNames(lines[1..], startDate, endDate))
  }

  /** Reading one index fails exactly when one of its lines has the name shape and no date;
      otherwise it keeps every wanted line as often as it occurs and nothing else. */
  lemma {:induction false} KeptNamesAreTheWantedLines(lines: seq<string>, startDate: Date, endDate: Date)
    ensures KeptNames(lines, startDate, endDate).Failure? <==> exists k :: 0 <= k < |lines| && Undated(lines[k])
    ensures KeptNames(lines, startDate, endDate).Failure? ==> KeptNames(lines, startDate, endDate).error == UnparsableFileDate
    ensures KeptNames(lines, startDate, endDate).Success? ==>
              var names := KeptNames(lines, startDate, endDate).value;
              && |names| <= |lines|
              && (forall n :: n in names ==> Wanted(n, startDate, endDate) && |n| == 11)
              && (forall n :: Wanted(n, startDate, endDate) ==> multiset(names)[n] == multiset(lines)[n])
  {
    if lines != [] {
      var rest := lines[1..];
      KeptNamesAreTheWantedLines(rest, startDate, endDate);
      assert lines == [lines[0]] + rest;
      if KeptNames(lines, startDate, endDate).Failure? && !Undated(lines[0]) {
        var k :| 0 <= k < |rest| && Undated(rest[k]);
        assert Undated(lines[k + 1]);
      }
      if exists k :: 0 <= k < |lines| && Undated(lines[k]) {
        var k :| 0 <= k < |lines| && Undated(lines[k]);
        if k > 0 {
          assert Undated(rest[k - 1]);
        }
      }
      if KeptNames(lines, startDate, endDate).Success? {
        var names := KeptNames(lines, startDate, endDate).value;
        var head := if Wanted(lines[0], startDate, endDate) then [lines[0]] else [];
        assert names == head + KeptNames(rest, startDate, endDate).value;
        assert multiset(lines) == multiset([lines[0]]) + multiset(rest);
      }
    }
  }

  /** The names one index contributes, or why reading it failed. */
  function IndexFileNames(dir: string, indexes: Server, startDate: Date, endDate: Date): Result<seq<string>, Fault> {
    if dir !in indexes then Failure(ConnectionProblem)
    else KeptNames(StripByteOrderMark(indexes[dir]), startDate, endDate)
  }

  /** The names of all indexes in index order, stopping at the first index that fails. */
  function GatherNames(dirs: seq<string>, indexes: Server, startDate: Date, endDate: Date): Partial<string>
  {
    if dirs == [] then Partial([], None)
    else match IndexFileNames(dirs[0], indexes, startDate, endDate)
      case Failure(f) => Partial([], Some(f))
      case Success(names) => Join(names, GatherNames(dirs[1..], indexes, startDate, endDate))
  }

  /** Every gathered name is a data-file name whose date is inside the range. */
  lemma {:induction false} GatheredNamesAreWanted(dirs: seq<string>, indexes: Server, startDate: Date, endDate: Date)
    ensures forall n :: n in GatherNames(dirs, indexes, startDate, endDate).items ==> Wanted(n, startDate, endDate)
  {
    if dirs != [] {
      GatheredNamesAreWanted(dirs[1..], indexes, startDate, endDate);
      var first := IndexFileNames(dirs[0], indexes, startDate, endDate);
      if first.Success? {
        KeptNamesAreTheWantedLines(StripByteOrderMark(indexes[dirs[0]]), startDate, endDate);
      }
    }
  }

  /** An index that cannot be fetched, reached after indexes that all read well, stops the run
      with the connection fault; the names gathered are those of the earlier indexes only. */
  lemma {:induction false} MissingIndexStopsGathering(dirs: seq<string>, indexes: Server, startDate: Date, endDate: Date, k: nat)
    requires k < |dirs| && dirs[k] !in indexes
    requires forall j :: 0 <= j < k ==> IndexFileNames(dirs[j], indexes, startDate, endDate).Success?
    ensures GatherNames(dirs, indexes, startDate, endDate).fault == Some(ConnectionProblem)
    ensures GatherNames(dirs, indexes, startDate, endDate).items == GatherNames(dirs[..k], indexes, startDate, endDate).items
  {
    if k > 0 {
      MissingIndexStopsGathering(dirs[1..], indexes, startDate, endDate, k - 1);
      assert dirs[..k][1..] == dirs[1..][..k - 1];
    }
  }

  class FileListReader {
    const startDate: Date
    const endDate: Date
    var dirFiles: seq<string>
    var xmlFiles: seq<string>

    /** Every name kept so far is a data-file name dated inside the range. */
    ghost predicate Valid()
      reads this
    {
      forall n :: n in xmlFiles ==> Wanted(n, startDate, endDate)
    }

    constructor (startDate: Date, endDate: Date)
      ensures Valid()
      ensures this.startDate == startDate && this.endDate == endDate
      ensures dirFiles == [] && xmlFiles == []
    {
      this.startDate := startDate;
      this.endDate := endDate;
      dirFiles := [];
      xmlFiles := [];
    }

    /** getXmlFiles: data-file names, each dated inside the range. */
    function XmlFiles(): (names: seq<string>)
      requires Valid()
      reads this
      ensures forall n :: n in names ==>
                IsXmlFileName(n) && EmbeddedDate(n).Some? && IsInDateRange(EmbeddedDate(n).value, startDate, endDate)
    {
      xmlFiles
    }

    /** readFiles: appends the index names to dirFiles, then the names each index gives to
        xmlFiles, stopping at the first index that fails. */
    method ReadFiles(currentYear: int, indexes: Server) returns (o: Outcome<Fault>)
      requires Valid()
      modifies this
      ensures Valid()
      ensures dirFiles == old(dirFiles) + IndexNames(startDate.year, endDate.year, currentYear)
      ensures var gathered := GatherNames(dirFiles, indexes, startDate, endDate);
              && xmlFiles == old(xmlFiles) + gathered.items
              && o == (if gathered.fault.Some? then Fail(gathered.fault.value) else Pass)
    {
      var dirs := GetDirsToDownload(currentYear);
      dirFiles := dirFiles + dirs;
      GatheredNamesAreWanted(dirFiles, indexes, startDate, endDate);
      var i := 0;
      while i < |dirFiles|
        invariant 0 <= i <= |dirFiles|
        invariant dirFiles == old(dirFiles) + dirs
        invariant Join(xmlFiles, GatherNames(dirFiles[i..], indexes, startDate, endDate))
                  == Join(old(xmlFiles), GatherNames(dirFiles, indexes, startDate, endDate))
      {
        assert dirFiles[i..][0] == dirFiles[i] && dirFiles[i..][1..] == dirFiles[i + 1..];
        ghost var rest := GatherNames(dirFiles[i + 1..], indexes, startDate, endDate);
        var names := GetFilesToDownload(dirFiles[i], indexes);
        if names.Failure? {
          assert GatherNames(dirFiles[i..], indexes, startDate, endDate) == Partial([], Some(names.error));
          assert xmlFiles + [] == xmlFiles;
          return Fail(names.error);
        }
        assert GatherNames(dirFiles[i..], indexes, startDate, endDate) == Join(names.value, rest);
        JoinTwice(xmlFiles, names.value, rest);
        xmlFiles := xmlFiles + names.value;
        i := i + 1;
      }
      assert dirFiles[i..] == [] && xmlFiles + [] == xmlFiles;
      return Pass;
    }

    /** getDirsToDownload. */
    method GetDirsToDownload(currentYear: int) returns (dirs: seq<string>)
      ensures dirs == IndexNames(startDate.year, endDate.year, currentYear)
    {
      dirs := [];
      var year := startDate.year;
      while year < endDate.year
        invariant startDate.year <= year
        invariant dirs + IndexNames(year, endDate.year, currentYear) == IndexNames(startDate.year, endDate.year, currentYear)
      {
        var name := YearIndexName(year);
        assert IndexNames(year, endDate.year, currentYear) == [name] + IndexNames(year + 1, endDate.year, currentYear);
        dirs := dirs + [name];
        year := year + 1;
      }
      if endDate.year == currentYear {
        dirs := dirs + ["dir"];
      } else {
        dirs := dirs + [YearIndexName(endDate.year)];
      }
    }

    /** getFilesToDownload: the lines of one index, after a leading byte-order mark, that name
        a data file dated inside the range. */
    method GetFilesToDownload(dirFile: string, indexes: Server) returns (r: Result<seq<string>, Fault>)
      ensures r == IndexFileNames(dirFile, indexes, startDate, endDate)
    {
      if dirFile !in indexes {
        return Failure(ConnectionProblem);
      }
      var lines := StripByteOrderMark(indexes[dirFile]);
      var files: seq<string> := [];
      var i := 0;
      assert lines[0..] == lines;
      PrefixedNothing(KeptNames(lines, startDate, endDate));
      while i < |lines|
        invariant 0 <= i <= |lines|
        invariant KeptNames(lines, startDate, endDate) == Prefixed(files, KeptNames(lines[i..], startDate, endDate))
      {
        assert lines[i..][0] == lines[i] && lines[i..][1..] == lines[i + 1..];
        var line := lines[i];
        ghost var later := KeptNames(lines[i + 1..], startDate, endDate);
        assert !Undated(line) ==>
          KeptNames(lines[i..], startDate, endDate) == Prefixed(if Wanted(line, startDate, endDate) then [line] else [], later);
        PrefixedTwice(files, [line], later);
        PrefixedTwice(files, [], later);
        assert files + [] == files;
        if IsXmlFileName(line) {
          var date := EmbeddedDate(line);
          if date.None? {
            return Failure(UnparsableFileDate);
          }
          if IsInDateRange(date.value, startDate, endDate) {
            files := files + [line];
          }
        }
        i := i + 1;
      }
      assert lines[i..] == [] && files + [] == files;
      return Success(files);
    }
  }
}
