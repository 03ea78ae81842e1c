/** XmlParser: scans each data file for the first marker line of the wanted currency and
    takes the ask and bid from the two lines after it. Values stay as text with the decimal
    comma turned into a point; the numeric conversion that follows is not part of this model. */
module Xml {
  import opened Wrappers
  import opened Text
  import opened Remote

  const AskTag := "kurs_kupna"
  const BidTag := "kurs_sprzedazy"
  const CurrencyTag := "kod_waluty"

  /** The ask and bid read from one data file. */
  datatype AskBid = AskBid(ask: string, bid: string)

  function OpeningTag(tag: string): (t: string)
    ensures |t| == |tag| + 2 && t[0] == '<' && t[1..|t| - 1] == tag && t[|t| - 1] == '>'
  {
    "<" + tag + ">"
  }

  function ClosingTag(tag: string): (t: string)
    ensures |t| == |tag| + 3 && t[..2] == "</" && t[2..|t| - 1] == tag && t[|t| - 1] == '>'
  {
    "</" + tag + ">"
  }

  /** getTagValueInLine: the text from the end of the first opening tag to the first closing
      tag. When the opening tag is absent, String.indexOf gives -1 and the text starts at
      position |opening| - 1, as in the source; when the closing tag is absent or comes before
      that start, String.substring throws, which is None here. */
  function TagValueInLine(tag: string, line: string): (r: Option<string>)
    ensures !Contains(line, ClosingTag(tag)) ==> r == None
    ensures r.Some? ==> |r.value| <= |line|
  {
    var opening, closing := OpeningTag(tag), ClosingTag(tag);
    var openingEnd := IndexOf(line, opening) + |opening|;
    var closingPosition := IndexOf(line, closing);
    if openingEnd <= closingPosition then Some(line[openingEnd..closingPosition]) else None
  }

  /** A tag name made of word characters only, as the three tags the parser reads are. */
  predicate IsTagName(tag: string) {
    forall i :: 0 <= i < |tag| ==> IsWordChar(tag[i])
  }

  lemma KnownTagsAreTagNames()
    ensures IsTagName(AskTag) && IsTagName(BidTag) && IsTagName(CurrencyTag)
  {
  }

  /** No character of the text can start a tag. */
  predicate NoTagStart(s: string) {
    forall i :: 0 <= i < |s| ==> s[i] != '<'
  }

  /** Every `<` in the text is followed, within the text, by something other than `/`, so no
      closing tag starts inside it. */
  predicate NoClosingStart(s: string) {
    forall i :: 0 <= i < |s| && s[i] == '<' ==> i + 1 < |s| && s[i + 1] != '/'
  }

  /** The first opening tag of `p<tag>...` is the one after the indentation p. */
  lemma OpeningTagFirstAt(tag: string, p: string, v: string, c: string, rest: string)
    requires NoTagStart(p)
    ensures IndexOf(p + OpeningTag(tag) + v + c + rest, OpeningTag(tag)) == |p|
  {
    var o := OpeningTag(tag);
    var line := p + o + v + c + rest;
    assert line[|p|..|p| + |o|] == o by {
      assert line[..|p| + |o|] == p + o;
    }
    forall q | 0 <= q < |p|
      ensures !OccursAt(line, o, q)
    {
      assert line[q] == p[q];
    }
    IndexOfIsFirstOccurrence(line, o, |p|);
  }

  /** The indentation and an opening tag of word characters hold no start of a closing tag. */
  lemma OpeningHasNoClosingStart(tag: string, p: string)
    requires IsTagName(tag)
    requires NoTagStart(p)
    ensures NoClosingStart(p + OpeningTag(tag))
  {
    var s := p + OpeningTag(tag);
    forall i | 0 <= i < |s|
      ensures s[i] == '<' ==> i + 1 < |s| && s[i + 1] != '/'
    {
      if i < |p| {
        assert s[i] == p[i];
      } else if i > |p| {
        assert s[i] == OpeningTag(tag)[i - |p|];
      } else {
        assert s[i + 1] == OpeningTag(tag)[1];
      }
    }
  }

  /** The first closing tag after a closing-tag-free text and a value that holds none is the
      one right after the value. */
  lemma ClosingTagFirstAt(pre: string, v: string, c: string, rest: string)
    requires |c| >= 2 && c[0] == '<' && c[1] == '/'
    requires forall j :: 1 <= j < |c| ==> c[j] != '<'
    requires NoClosingStart(pre)
    requires !Contains(v, c)
    ensures IndexOf(pre + v + c + rest, c) == |pre| + |v|
  {
    var line := pre + v + c + rest;
    var k := |pre| + |v|;
    assert line[k..k + |c|] == c;
    forall q | 0 <= q < k
      ensures !OccursAt(line, c, q)
    {
      if q < |pre| {
        assert line[q] == pre[q];
        if pre[q] == '<' {
          assert line[q + 1] == pre[q + 1];
          assert line[q..q + |c|][1] != c[1];
        } else {
          assert line[q..q + |c|][0] != c[0];
        }
      } else if q + |c| <= k {
        assert line[q..q + |c|] == v[q - |pre|..q - |pre| + |c|];
        assert !OccursAt(v, c, q - |pre|);
      } else {
        assert line[k] == '<';
        assert line[q..q + |c|][k - q] != c[k - q];
      }
    }
    IndexOfIsFirstOccurrence(line, c, k);
  }

  /** A closing tag of word characters starts with `</` and has no other `<`. */
  lemma ClosingTagShape(tag: string)
    requires IsTagName(tag)
    ensures var c := ClosingTag(tag); |c| >= 2 && c[0] == '<' && c[1] == '/'
    ensures var c := ClosingTag(tag); forall j :: 1 <= j < |c| ==> c[j] != '<'
  {
    var c := ClosingTag(tag);
    forall j | 1 <= j < |c|
      ensures c[j] != '<'
    {
      if 2 <= j < |c| - 1 {
        assert c[j] == tag[j - 2];
      }
    }
  }

  /** For a tag of word characters, a line `p<tag>v</tag>rest` whose indentation p holds no
      `<` and whose value v holds no closing tag yields exactly v. */
  lemma TagValueOfElement(tag: string, p: string, v: string, rest: string)
    requires IsTagName(tag)
    requires NoTagStart(p)
    requires !Contains(v, ClosingTag(tag))
    ensures TagValueInLine(tag, p + OpeningTag(tag) + v + ClosingTag(tag) + rest) == Some(v)
  {
    var o, c := OpeningTag(tag), ClosingTag(tag);
    var line := p + o + v + c + rest;
    OpeningTagFirstAt(tag, p, v, c, rest);
    ClosingTagShape(tag);
    OpeningHasNoClosingStart(tag, p);
    ClosingTagFirstAt(p + o, v, c, rest);
    MiddleSlice(p + o, v, c, rest);
    TagValueBetween(tag, line, |p|, |p| + |o| + |v|);
  }

  lemma MiddleSlice(x: string, y: string, z: string, w: string)
    ensures (x + y + z + w)[|x|..|x| + |y|] == y
  {
    assert (x + y + z + w)[..|x| + |y|] == x + y;
  }

  /** The value of a line whose first opening and closing tags are known. */
  lemma TagValueBetween(tag: string, line: string, i: int, j: int)
    requires IndexOf(line, OpeningTag(tag)) == i && IndexOf(line, ClosingTag(tag)) == j
    requires i + |OpeningTag(tag)| <= j
    ensures TagValueInLine(tag, line) == Some(line[i + |OpeningTag(tag)|..j])
  {
  }

  /** getDoubleValueInLine up to the numeric conversion: the tag's value with every comma
      replaced by a point. */
  function DecimalValueInLine(tag: string, line: string): (r: Option<string>)
    ensures r.Some? <==> TagValueInLine(tag, line).Some?
    ensures r.Some? ==> ',' !in r.value && |r.value| == |TagValueInLine(tag, line).value|
    ensures r.Some? ==> var v := TagValueInLine(tag, line).value;
                        forall i :: 0 <= i < |v| ==> r.value[i] == (if v[i] == ',' then '.' else v[i])
  {
    match TagValueInLine(tag, line)
    case None => None
    case Some(value) => Some(ReplaceChar(value, ',', '.'))
  }

  /** Whether a line is the marker of the currency: it contains the currency tag and the value
      the tag encloses equals the currency ignoring case. None when the tag's value cannot be
      taken from the line. */
  function MarkerTest(line: string, currency: string): (r: Option<bool>)
    ensures !Contains(line, CurrencyTag) ==> r == Some(false)
    ensures r.None? <==> Contains(line, CurrencyTag) && TagValueInLine(CurrencyTag, line).None?
    ensures r == Some(true) <==>
              && Contains(line, CurrencyTag) && TagValueInLine(CurrencyTag, line).Some?
              && EqualsIgnoreCase(currency, TagValueInLine(CurrencyTag, line).value)
  {
    if !Contains(line, CurrencyTag) then Some(false)
    else match TagValueInLine(CurrencyTag, line)
      case None => None
      case Some(code) => Some(EqualsIgnoreCase(currency, code))
  }

  /** A well-formed currency element line is a marker exactly when its code equals the
      currency ignoring case. */
  lemma MarkerOfElement(p: string, code: string, rest: string, currency: string)
    requires NoTagStart(p)
    requires !Contains(code, ClosingTag(CurrencyTag))
    ensures MarkerTest(p + OpeningTag(CurrencyTag) + code + ClosingTag(CurrencyTag) + rest, currency)
            == Some(EqualsIgnoreCase(currency, code))
  {
    KnownTagsAreTagNames();
    TagValueOfElement(CurrencyTag, p, code, rest);
    TagNameInElement(CurrencyTag, p, code, ClosingTag(CurrencyTag), rest);
  }

  /** An element line contains its tag's name, right after the `<`. */
  lemma TagNameInElement(tag: string, p: string, v: string, c: string, rest: string)
    ensures Contains(p + OpeningTag(tag) + v + c + rest, tag)
  {
    var line := p + OpeningTag(tag) + v + c + rest;
    assert line[..|p| + 1 + |tag|] == p + "<" + tag;
    assert line[|p| + 1..|p| + 1 + |tag|] == tag;
    assert OccursAt(line, tag, |p| + 1);
  }

  /** The entry read from the two lines after a marker: the ask from the first, the bid from
      the second. A missing line or a missing tag is a malformed entry. */
  function EntryAfterMarker(following: seq<string>): (r: Result<Option<AskBid>, Fault>)
    ensures r.Success? <==> && |following| >= 2
                            && DecimalValueInLine(AskTag, following[0]).Some?
                            && DecimalValueInLine(BidTag, following[1]).Some?
    ensures r.Success? ==> r.value == Some(AskBid(DecimalValueInLine(AskTag, following[0]).value,
                                                  DecimalValueInLine(BidTag, following[1]).value))
    ensures r.Failure? ==> r.error == MalformedEntry
  {
    if |following| < 1 then Failure(MalformedEntry)
    else match DecimalValueInLine(AskTag, following[0])
      case None => Failure(MalformedEntry)
      case Some(ask) =>
        if |following| < 2 then Failure(MalformedEntry)
        else match DecimalValueInLine(BidTag, following[1])
          case None => Failure(MalformedEntry)
          case Some(bid) => Success(Some(AskBid(ask, bid)))
  }

  /** The entry of one data file: the lines are scanned in order until the first marker. */
  function FindEntry(lines: seq<string>, currency: string): (r: Result<Option<AskBid>, Fault>)
    ensures r.Failure? ==> r.error == MalformedEntry
    ensures r.Success? && r.value.Some? ==> ',' !in r.value.value.ask && ',' !in r.value.value.bid
  {
    if lines == [] then Success(None)
    else match MarkerTest(lines[0], currency)
      case None => Failure(MalformedEntry)
      case Some(isMarker) =>
        if isMarker then EntryAfterMarker(lines[1..]) else FindEntry(lines[1..], currency)
  }

  /** Only the first marker counts: the entry is read after it, whatever follows. */
  lemma {:induction false} FirstMarkerDecides(lines: seq<string>, currency: string, i: nat)
    requires i < |lines| && MarkerTest(lines[i], currency) == Some(true)
    requires forall j :: 0 <= j < i ==> MarkerTest(lines[j], currency) == Some(false)
    ensures FindEntry(lines, currency) == EntryAfterMarker(lines[i + 1..])
  {
    if i > 0 {
      FirstMarkerDecides(lines[1..], currency, i - 1);
      assert lines[1..][i..] == lines[i + 1..];
    }
  }

  /** A file yields no entry, and no failure, exactly when none of its lines is a marker. */
  lemma {:induction false} NoEntryWithoutMarker(lines: seq<string>, currency: string)
    ensures FindEntry(lines, currency) == Success(None) <==>
              forall j :: 0 <= j < |lines| ==> MarkerTest(lines[j], currency) == Some(false)
  {
    if lines != [] {
      NoEntryWithoutMarker(lines[1..], currency);
      if MarkerTest(lines[0], currency) == Some(false) {
        assert forall j :: 1 <= j < |lines| ==> lines[j] == lines[1..][j - 1];
      }
    }
  }

  /** Line i is the first marker of the currency. */
  predicate FirstMarkerAt(lines: seq<string>, currency: string, i: nat) {
    && i < |lines|
    && MarkerTest(lines[i], currency) == Some(true)
    && forall j :: 0 <= j < i ==> MarkerTest(lines[j], currency) == Some(false)
  }

  /** The two lines after line i hold the entry's ask and bid. */
  predicate EntryAfter(lines: seq<string>, i: nat, entry: AskBid) {
    && i + 2 < |lines|
    && DecimalValueInLine(AskTag, lines[i + 1]) == Some(entry.ask)
    && DecimalValueInLine(BidTag, lines[i + 2]) == Some(entry.bid)
  }

  /** A found entry comes from the first marker: the ask from the line right after it and the
      bid from the line after that. */
  lemma {:induction false} FoundEntryFollowsFirstMarker(lines: seq<string>, currency: string, entry: AskBid)
    requires FindEntry(lines, currency) == Success(Some(entry))
    ensures exists i: nat :: FirstMarkerAt(lines, currency, i) && EntryAfter(lines, i, entry)
  {
    if MarkerTest(lines[0], currency) == Some(true) {
      assert lines[1..][0] == lines[1] && lines[1..][1] == lines[2];
      assert FirstMarkerAt(lines, currency, 0) && EntryAfter(lines, 0, entry);
    } else {
      var tail := lines[1..];
      assert MarkerTest(lines[0], currency) == Some(false);
      assert FindEntry(tail, currency) == Success(Some(entry));
      FoundEntryFollowsFirstMarker(tail, currency, entry);
      var i: nat :| FirstMarkerAt(tail, currency, i) && EntryAfter(tail, i, entry);
      forall j | 0 <= j < i + 1
        ensures MarkerTest(lines[j], currency) == Some(false)
      {
        if j > 0 {
          assert lines[j] == tail[j - 1];
        }
      }
      assert lines[i + 1] == tail[i];
      assert FirstMarkerAt(lines, currency, i + 1);
      assert lines[i + 2] == tail[i + 1] && lines[i + 3] == tail[i + 2];
      assert EntryAfter(lines, i + 1, entry);
    }
  }

  /** A value shorter than the closing tag cannot contain it. */
  lemma ShortValueHasNoClosingTag(tag: string, v: string)
    requires |v| < |ClosingTag(tag)|
    ensures !Contains(v, ClosingTag(tag))
  {
  }

  /** The code USD marks the request usd; the code EUR does not. */
  lemma MarkerLineExample()
    ensures MarkerTest(OpeningTag(CurrencyTag) + "USD" + ClosingTag(CurrencyTag), "usd") == Some(true)
    ensures MarkerTest(OpeningTag(CurrencyTag) + "EUR" + ClosingTag(CurrencyTag), "usd") == Some(false)
  {
    ShortValueHasNoClosingTag(CurrencyTag, "USD");
    ShortValueHasNoClosingTag(CurrencyTag, "EUR");
    assert EqualsIgnoreCase("usd", "USD");
    assert ToUpperAscii("usd"[0]) != ToUpperAscii("EUR"[0]);
    MarkerOfElementBare("USD", "usd");
    MarkerOfElementBare("EUR", "usd");
  }

  /** MarkerOfElement for a line without indentation or trailing text. */
  lemma MarkerOfElementBare(code: string, currency: string)
    requires !Contains(code, ClosingTag(CurrencyTag))
    ensures MarkerTest(OpeningTag(CurrencyTag) + code + ClosingTag(CurrencyTag), currency)
            == Some(EqualsIgnoreCase(currency, code))
  {
    assert OpeningTag(CurrencyTag) + code + ClosingTag(CurrencyTag)
        == "" + OpeningTag(CurrencyTag) + code + ClosingTag(CurrencyTag) + "";
    MarkerOfElement("", code, "", currency);
  }

  /** A bare element line `<tag>v</tag>` yields v with its commas turned into points. */
  lemma DecimalValueOfElement(tag: string, v: string)
    requires IsTagName(tag)
    requires !Contains(v, ClosingTag(tag))
    ensures DecimalValueInLine(tag, OpeningTag(tag) + v + ClosingTag(tag)) == Some(ReplaceChar(v, ',', '.'))
  {
    assert OpeningTag(tag) + v + ClosingTag(tag) == "" + OpeningTag(tag) + v + ClosingTag(tag) + "";
    TagValueOfElement(tag, "", v, "");
  }

  /** The bare currency element of a code equal to the currency ignoring case is a marker. */
  lemma MarkerElement(code: string, currency: string)
    requires !Contains(code, ClosingTag(CurrencyTag)) && EqualsIgnoreCase(currency, code)
    ensures MarkerTest(OpeningTag(CurrencyTag) + code + ClosingTag(CurrencyTag), currency) == Some(true)
  {
    MarkerOfElementBare(code, currency);
  }

  /** Bare ask and bid elements right after a marker give the entry. */
  lemma EntryOfElements(ask: string, bid: string, after: seq<string>)
    requires !Contains(ask, ClosingTag(AskTag)) && !Contains(bid, ClosingTag(BidTag))
    ensures EntryAfterMarker([OpeningTag(AskTag) + ask + ClosingTag(AskTag),
                              OpeningTag(BidTag) + bid + ClosingTag(BidTag)] + after)
            == Success(Some(AskBid(ReplaceChar(ask, ',', '.'), ReplaceChar(bid, ',', '.'))))
  {
    KnownTagsAreTagNames();
    DecimalValueOfElement(AskTag, ask);
    DecimalValueOfElement(BidTag, bid);
  }

  /** The entry of the file with the given name, or why it could not be read. */
  function FileEntry(name: string, data: Server, currency: string): Result<Option<AskBid>, Fault> {
    if name !in data then Failure(ConnectionProblem) else FindEntry(data[name], currency)
  }

  /** The entries of the files in order, one per file that has the currency, stopping at the
      first file that fails; never more entries than files. */
  function Extraction(names: seq<string>, data: Server, currency: string): (r: Partial<AskBid>)
    ensures |r.items| <= |names|
  {
    if names == [] then Partial([], None)
    else match FileEntry(names[0], data, currency)
      case Failure(f) => Partial([], Some(f))
      case Success(found) =>
        Join(if found.Some? then [found.value] else [], Extraction(names[1..], data, currency))
  }

  /** The names of the files that hold the currency, in order. */
  function MatchingFiles(names: seq<string>, data: Server, currency: string): seq<string> {
    if names == [] then []
    else (if FileEntry(names[0], data, currency).Success? && FileEntry(names[0], data, currency).value.Some?
          then [names[0]] else [])
         + MatchingFiles(names[1..], data, currency)
  }

  /** The files that hold the currency are among the given files. */
  lemma {:induction false} MatchingFilesAreGiven(names: seq<string>, data: Server, currency: string)
    ensures forall n :: n in MatchingFiles(names, data, currency) ==> n in names
  {
    if names != [] {
      MatchingFilesAreGiven(names[1..], data, currency);
    }
  }

  /** When no file fails, the k-th entry is the entry of the k-th file that holds the
      currency, and there is one entry per such file. */
  lemma {:induction false} EntriesFollowMatchingFiles(names: seq<string>, data: Server, currency: string)
    requires Extraction(names, data, currency).fault == None
    ensures var entries, files := Extraction(names, data, currency).items, MatchingFiles(names, data, currency);
            && |entries| == |files|
            && forall k :: 0 <= k < |entries| ==> FileEntry(files[k], data, currency) == Success(Some(entries[k]))
  {
    if names != [] {
      EntriesFollowMatchingFiles(names[1..], data, currency);
    }
  }

  /** No extracted value contains a comma. */
  lemma {:induction false} ExtractedValuesHaveNoComma(names: seq<string>, data: Server, currency: string)
    ensures forall e :: e in Extraction(names, data, currency).items ==> ',' !in e.ask && ',' !in e.bid
  {
    if names != [] {
      ExtractedValuesHaveNoComma(names[1..], data, currency);
    }
  }

  function Asks(entries: seq<AskBid>): (asks: seq<string>)
    ensures |asks| == |entries| && forall k :: 0 <= k < |entries| ==> asks[k] == entries[k].ask
  {
    seq(|entries|, k requires 0 <= k < |entries| => entries[k].ask)
  }

  function Bids(entries: seq<AskBid>): (bids: seq<string>)
    ensures |bids| == |entries| && forall k :: 0 <= k < |entries| ==> bids[k] == entries[k].bid
  {
    seq(|entries|, k requires 0 <= k < |entries| => entries[k].bid)
  }

  lemma ValuesAppend(a: seq<AskBid>, b: seq<AskBid>)
    ensures Asks(a + b) == Asks(a) + Asks(b) && Bids(a + b) == Bids(a) + Bids(b)
  {
  }

  class XmlParser {
    var parsedAsksList: seq<string>
    var parsedBidsList: seq<string>
    const currency: string

    /** The two lists grow together, and every value is in the dot-decimal form. */
    ghost predicate Valid()
      reads this
    {
      && |parsedAsksList| == |parsedBidsList|
      && (forall k :: 0 <= k < |parsedAsksList| ==> ',' !in parsedAsksList[k])
      && (forall k :: 0 <= k < |parsedBidsList| ==> ',' !in parsedBidsList[k])
    }

    constructor (currency: string)
      ensures Valid() && this.currency == currency
      ensures parsedAsksList == [] && parsedBidsList == []
    {
      parsedAsksList := [];
      parsedBidsList := [];
      this.currency := currency;
    }

    /** getParsedAsksList: one ask per parsed entry, none of them with a comma. */
    function ParsedAsksList(): (asks: seq<string>)
      requires Valid()
      reads this
      ensures |asks| == |parsedBidsList| && forall k :: 0 <= k < |asks| ==> ',' !in asks[k]
    {
      parsedAsksList
    }

    /** getParsedBidsList: one bid per parsed entry, none of them with a comma. */
    function ParsedBidsList(): (bids: seq<string>)
      requires Valid()
      reads this
      ensures |bids| == |parsedAsksList| && forall k :: 0 <= k < |bids| ==> ',' !in bids[k]
    {
      parsedBidsList
    }

    /** parseFiles: parses the files in order, stopping at the first that fails. */
    method ParseFiles(xmlFileNames: seq<string>, data: Server) returns (o: Outcome<Fault>)
      requires Valid()
      modifies this
      ensures Valid()
      ensures var extracted := Extraction(xmlFileNames, data, currency);
              && parsedAsksList == old(parsedAsksList) + Asks(extracted.items)
              && parsedBidsList == old(parsedBidsList) + Bids(extracted.items)
              && o == (if extracted.fault.Some? then Fail(extracted.fault.value) else Pass)
    {
      ghost var done: seq<AskBid> := [];
      var i := 0;
      while i < |xmlFileNames|
        invariant 0 <= i <= |xmlFileNames|
        invariant Valid()
        invariant parsedAsksList == old(parsedAsksList) + Asks(done)
        invariant parsedBidsList == old(parsedBidsList) + Bids(done)
        invariant Join(done, Extraction(xmlFileNames[i..], data, currency)) == Extraction(xmlFileNames, data, currency)
      {
        assert xmlFileNames[i..][0] == xmlFileNames[i] && xmlFileNames[i..][1..] == xmlFileNames[i + 1..];
        ghost var rest := Extraction(xmlFileNames[i + 1..], data, currency);
        ghost var entry := FileEntry(xmlFileNames[i], data, currency);
        var outcome := ParseFile(xmlFileNames[i], data);
        if outcome.Fail? {
          assert done + [] == done;
          return outcome;
        }
        ghost var found := if entry.value.Some? then [entry.value.value] else [];
        assert Extraction(xmlFileNames[i..], data, currency) == Join(found, rest);
        JoinTwice(done, found, rest);
        ValuesAppend(done, found);
        done := done + found;
        i := i + 1;
      }
      assert xmlFileNames[i..] == [] && done + [] == done;
      return Pass;
    }

    /** parseFile: appends the file's ask and bid when it has the currency; a file without it
        changes nothing, and a file that fails changes nothing and reports the fault. */
    method ParseFile(xmlFileName: string, data: Server) returns (o: Outcome<Fault>)
      requires Valid()
      modifies this
      ensures Valid()
      ensures match FileEntry(xmlFileName, data, currency)
              case Failure(f) =>
                o == Fail(f) && parsedAsksList == old(parsedAsksList) && parsedBidsList == old(parsedBidsList)
              case Success(None) =>
                o == Pass && parsedAsksList == old(parsedAsksList) && parsedBidsList == old(parsedBidsList)
              case Success(Some(entry)) =>
                && o == Pass
                && parsedAsksList == old(parsedAsksList) + [entry.ask]
                && parsedBidsList == old(parsedBidsList) + [entry.bid]
    {
      var askBid := GetAskBidEntry(xmlFileName, data);
      if askBid.Failure? {
        return Fail(askBid.error);
      }
      if askBid.value.Some? {
        parsedAsksList := parsedAsksList + [askBid.value.value.ask];
        parsedBidsList := parsedBidsList + [askBid.value.value.bid];
      }
      return Pass;
    }

    /** getAskBidEntry: reads the file's lines until the first marker of the currency and takes
        the ask and bid from the next two lines. */
    method GetAskBidEntry(xmlFile: string, data: Server) returns (r: Result<Option<AskBid>, Fault>)
      ensures r == FileEntry(xmlFile, data, currency)
    {
      if xmlFile !in data {
        return Failure(ConnectionProblem);
      }
      var lines := data[xmlFile];
      var i := 0;
      while i < |lines|
        invariant 0 <= i <= |lines|
        invariant FindEntry(lines[i..], currency) == FindEntry(lines, currency)
      {
        assert lines[i..][0] == lines[i] && lines[i..][1..] == lines[i + 1..];
        var line := lines[i];
        var isMarker := false;
        if Contains(line, CurrencyTag) {
          var code := TagValueInLine(CurrencyTag, line);
          if code.None? {
            return Failure(MalformedEntry);
          }
          isMarker := EqualsIgnoreCase(currency, code.value);
        }
        if isMarker {
          if i + 1 >= |lines| {
            return Failure(MalformedEntry);
          }
          var ask := DecimalValueInLine(AskTag, lines[i + 1]);
          if ask.None? {
            return Failure(MalformedEntry);
          }
          if i + 2 >= |lines| {
            return Failure(MalformedEntry);
          }
          var bid := DecimalValueInLine(BidTag, lines[i + 2]);
          if bid.None? {
            return Failure(MalformedEntry);
          }
          assert lines[i + 1..][0] == lines[i + 1] && lines[i + 1..][1] == lines[i + 2];
          return Success(Some(AskBid(ask.value, bid.value)));
        }
        i := i + 1;
      }
      return Success(None);
    }
  }
}
