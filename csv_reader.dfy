/**
 * A small RFC 4180-style reader for comma-separated text, after rules 5 to 7
 * of section 2 of RFC 4180: a field in double quotes may hold commas, line
 * breaks and double quotes, each inner double quote written twice; an
 * unquoted field holds none of these. It departs from the RFC in three ways:
 * records end at a line feed (the separator the export writes) instead of
 * CRLF, a trailing comma reads as one more empty field, and records are not
 * required to have equal numbers of fields. It serves as the independent
 * reference against which the export is proved to round-trip.
 */
module CsvReader {
  import opened Wrappers
  import opened Strings
  import opened Types
  import opened ResultsTable

  /** A field read from the front of the input, and the input after it. */
  datatype Cut = Cut(field: string, rest: string)

  /** The fields of one record, the input after it, and whether a line feed announced another record. */
  datatype RecordCut = RecordCut(fields: seq<string>, rest: string, more: bool)

  /** The inside of a quoted field, after its opening quote, up to and without its closing quote. */
  function ReadQuotedBody(s: string): (r: Option<Cut>)
    ensures r.Some? ==> |r.value.rest| < |s|
  {
    if s == [] then None
    else if s[0] == '"' then
      if |s| >= 2 && s[1] == '"' then
        match ReadQuotedBody(s[2..])
        case None => None
        case Some(c) => Some(Cut("\"" + c.field, c.rest))
      else Some(Cut("", s[1..]))
    else
      match ReadQuotedBody(s[1..])
      case None => None
      case Some(c) => Some(Cut([s[0]] + c.field, c.rest))
  }

  /** An unquoted field: everything up to the next comma or line feed; a double quote in it is an error. */
  function ReadUnquoted(s: string): (r: Option<Cut>)
    ensures r.Some? ==> |r.value.rest| <= |s|
  {
    if s == [] || s[0] == ',' || s[0] == '\n' then Some(Cut("", s))
    else if s[0] == '"' then None
    else
      match ReadUnquoted(s[1..])
      case None => None
      case Some(c) => Some(Cut([s[0]] + c.field, c.rest))
  }

  function ReadField(s: string): (r: Option<Cut>)
    ensures r.Some? ==> |r.value.rest| <= |s|
  {
    if s != [] && s[0] == '"' then ReadQuotedBody(s[1..]) else ReadUnquoted(s)
  }

  /** One record: fields separated by commas, ended by a line feed or by the end of the input. */
  function ReadRecord(s: string): (r: Option<RecordCut>)
    ensures r.Some? ==> |r.value.fields| >= 1
    ensures r.Some? && r.value.more ==> |r.value.rest| < |s|
    ensures r.Some? && !r.value.more ==> r.value.rest == []
    decreases |s|
  {
    match ReadField(s)
    case None => None
    case Some(c) =>
      if c.rest == [] then Some(RecordCut([c.field], [], false))
      else if c.rest[0] == '\n' then Some(RecordCut([c.field], c.rest[1..], true))
      else if c.rest[0] == ',' then
        match ReadRecord(c.rest[1..])
        case None => None
        case Some(rc) => Some(RecordCut([c.field] + rc.fields, rc.rest, rc.more))
      else None
  }

  /** A whole document: records separated by line feeds. */
  function ReadCsv(s: string): (r: Option<seq<seq<string>>>)
    ensures r.Some? ==> |r.value| >= 1
    decreases |s|
  {
    match ReadRecord(s)
    case None => None
    case Some(rc) =>
      if !rc.more then Some([rc.fields])
      else
        match ReadCsv(rc.rest)
        case None => None
        case Some(records) => Some([rc.fields] + records)
  }

  // ---------------------------------------------------------------------------
  // Round trip of the export

  /** What may follow a field: nothing, a comma or a line feed. */
  predicate FieldEnd(rest: string)
  {
    rest == [] || rest[0] == ',' || rest[0] == '\n'
  }

  /** What may follow a record: nothing or a line feed. */
  predicate RecordEnd(tail: string)
  {
    tail == [] || tail[0] == '\n'
  }

  /** The record read from `line + tail` when `tail` is a record end. */
  function RecordAfter(fields: seq<string>, tail: string): (rc: RecordCut)
    requires RecordEnd(tail)
  {
    if tail == [] then RecordCut(fields, [], false) else RecordCut(fields, tail[1..], true)
  }

  /** `e` is read back as field `f`, whatever field end follows it. */
  ghost predicate EncodesField(e: string, f: string)
  {
    forall rest :: FieldEnd(rest) ==> ReadField(e + rest) == Some(Cut(f, rest))
  }

  /** `line` is read back as the record `fields`, whatever record end follows it. */
  ghost predicate EncodesRecord(line: string, fields: seq<string>)
  {
    forall tail :: RecordEnd(tail) ==> ReadRecord(line + tail) == Some(RecordAfter(fields, tail))
  }

  /** Doubled quotes and a closing quote are read back as the original text. */
  lemma {:induction false} QuotedBodyRoundTrip(s: string, rest: string)
    requires rest == [] || rest[0] != '"'
    ensures ReadQuotedBody(DoubleQuotes(s) + "\"" + rest) == Some(Cut(s, rest))
  {
    if s == [] {
      assert DoubleQuotes(s) + "\"" + rest == "\"" + rest;
      assert ("\"" + rest)[1..] == rest;
    } else {
      QuotedBodyRoundTrip(s[1..], rest);
      QuotedBodyStep(s, rest);
    }
  }

  /** The inductive step of QuotedBodyRoundTrip: one more character in front. */
  lemma QuotedBodyStep(s: string, rest: string)
    requires s != []
    requires ReadQuotedBody(DoubleQuotes(s[1..]) + "\"" + rest) == Some(Cut(s[1..], rest))
    ensures ReadQuotedBody(DoubleQuotes(s) + "\"" + rest) == Some(Cut(s, rest))
  {
    var later := DoubleQuotes(s[1..]) + "\"" + rest;
    var piece := if s[0] == '"' then "\"\"" else [s[0]];
    DoubleQuotesFront(s, rest);
    if s[0] == '"' {
      ReadAfterDoubledQuote(later);
    } else {
      ReadAfterPlainChar(s[0], later);
    }
    assert [s[0]] + s[1..] == s;
  }

  lemma DoubleQuotesFront(s: string, rest: string)
    requires s != []
    ensures DoubleQuotes(s) + "\"" + rest ==
      (if s[0] == '"' then "\"\"" else [s[0]]) + (DoubleQuotes(s[1..]) + "\"" + rest)
  {
  }

  lemma ReadAfterDoubledQuote(t: string)
    ensures ReadQuotedBody("\"\"" + t) ==
      match ReadQuotedBody(t)
      case None => None
      case Some(c) => Some(Cut("\"" + c.field, c.rest))
  {
    assert ("\"\"" + t)[2..] == t;
  }

  lemma ReadAfterPlainChar(ch: char, t: string)
    requires ch != '"'
    ensures ReadQuotedBody([ch] + t) ==
      match ReadQuotedBody(t)
      case None => None
      case Some(c) => Some(Cut([ch] + c.field, c.rest))
  {
    assert ([ch] + t)[1..] == t;
  }

  /** An escaped field is read back as the text it escapes: escapeCSV round-trips. */
  lemma EscapeRoundTrip(s: string, rest: string)
    requires FieldEnd(rest)
    ensures ReadField(EscapeCSV(s) + rest) == Some(Cut(s, rest))
  {
    var input := EscapeCSV(s) + rest;
    assert input == "\"" + (DoubleQuotes(s) + "\"" + rest);
    assert input[1..] == DoubleQuotes(s) + "\"" + rest;
    QuotedBodyRoundTrip(s, rest);
  }

  /** A plain field (no comma, line feed or quote) is read back unchanged. */
  lemma {:induction false} PlainRoundTrip(t: string, rest: string)
    requires ',' !in t && '\n' !in t && '"' !in t
    requires FieldEnd(rest)
    ensures ReadUnquoted(t + rest) == Some(Cut(t, rest))
  {
    if t == [] {
      assert t + rest == rest;
    } else {
      PlainRoundTrip(t[1..], rest);
      assert (t + rest)[1..] == t[1..] + rest;
      assert [t[0]] + t[1..] == t;
    }
  }

  lemma EscapeEncodes(s: string)
    ensures EncodesField(EscapeCSV(s), s)
  {
    forall rest | FieldEnd(rest) ensures ReadField(EscapeCSV(s) + rest) == Some(Cut(s, rest)) {
      EscapeRoundTrip(s, rest);
    }
  }

  lemma PlainEncodes(t: string)
    requires ',' !in t && '\n' !in t && '"' !in t
    ensures EncodesField(t, t)
  {
    forall rest | FieldEnd(rest) ensures ReadField(t + rest) == Some(Cut(t, rest)) {
      PlainRoundTrip(t, rest);
      assert t != [] ==> (t + rest)[0] == t[0];
    }
  }

  /** Fields that each read back, joined with commas, read back as one record. */
  lemma {:induction false} JoinedFieldsRoundTrip(encoded: seq<string>, fields: seq<string>, tail: string)
    requires |encoded| == |fields| >= 1
    requires forall i :: 0 <= i < |encoded| ==> EncodesField(encoded[i], fields[i])
    requires RecordEnd(tail)
    ensures ReadRecord(Join(encoded, ',') + tail) == Some(RecordAfter(fields, tail))
  {
    assert EncodesField(encoded[0], fields[0]);
    if |encoded| == 1 {
      assert FieldEnd(tail);
      assert ReadField(encoded[0] + tail) == Some(Cut(fields[0], tail));
      assert fields == [fields[0]];
    } else {
      var later := Join(encoded[1..], ',') + tail;
      assert Join(encoded, ',') + tail == encoded[0] + ([','] + later);
      assert ReadField(encoded[0] + ([','] + later)) == Some(Cut(fields[0], [','] + later));
      assert ([','] + later)[1..] == later;
      JoinedFieldsRoundTrip(encoded[1..], fields[1..], tail);
      assert [fields[0]] + fields[1..] == fields;
    }
  }

  lemma JoinedFieldsEncode(encoded: seq<string>, fields: seq<string>)
    requires |encoded| == |fields| >= 1
    requires forall i :: 0 <= i < |encoded| ==> EncodesField(encoded[i], fields[i])
    ensures EncodesRecord(Join(encoded, ','), fields)
  {
    forall tail | RecordEnd(tail) ensures ReadRecord(Join(encoded, ',') + tail) == Some(RecordAfter(fields, tail)) {
      JoinedFieldsRoundTrip(encoded, fields, tail);
    }
  }

  /** Lines that each read back as a record, joined with line feeds, read back as the list of records. */
  lemma {:induction false} JoinedLinesRoundTrip(lines: seq<string>, records: seq<seq<string>>)
    requires |lines| == |records| >= 1
    requires forall i :: 0 <= i < |lines| ==> EncodesRecord(lines[i], records[i])
    ensures ReadCsv(Join(lines, '\n')) == Some(records)
  {
    assert EncodesRecord(lines[0], records[0]);
    if |lines| == 1 {
      assert lines[0] + [] == lines[0];
      assert ReadRecord(lines[0] + []) == Some(RecordAfter(records[0], []));
      assert records == [records[0]];
    } else {
      var later := Join(lines[1..], '\n');
      assert Join(lines, '\n') == lines[0] + (['\n'] + later);
      assert ReadRecord(lines[0] + (['\n'] + later)) == Some(RecordAfter(records[0], ['\n'] + later));
      assert (['\n'] + later)[1..] == later;
      JoinedLinesRoundTrip(lines[1..], records[1..]);
      assert [records[0]] + records[1..] == records;
    }
  }

  lemma RowEncodes(r: AnalysisResult)
    ensures EncodesRecord(RowLine(r), RowFields(r))
  {
    EscapeEncodes(r.folderName);
    EscapeEncodes(r.fileName);
    EscapeEncodes(r.text);
    JoinedFieldsEncode([EscapeCSV(r.folderName), EscapeCSV(r.fileName), EscapeCSV(r.text)], RowFields(r));
  }

  lemma HeaderEncodes()
    ensures EncodesRecord(HeaderLine(), HeaderFields)
  {
    PlainEncodes("Folder Name");
    PlainEncodes("File Name");
    PlainEncodes("Text");
    JoinedFieldsEncode(HeaderFields, HeaderFields);
  }

  /**
   * Reading the exported CSV gives the header record and then, in order, one
   * record per result holding its folder name, file name and text, whatever
   * quotes, commas or line feeds those contain.
   */
  lemma CsvRoundTrip(data: seq<AnalysisResult>)
    ensures ReadCsv(ConvertToCSV(data)) == Some([HeaderFields] + RowRecords(data))
  {
    var lines := [HeaderLine()] + RowLines(data);
    var records := [HeaderFields] + RowRecords(data);
    RowsEncode(data);
    HeaderEncodes();
    forall i | 0 <= i < |lines| ensures EncodesRecord(lines[i], records[i]) {
      if i > 0 {
        assert lines[i] == RowLines(data)[i - 1] && records[i] == RowRecords(data)[i - 1];
      }
    }
    JoinedLinesRoundTrip(lines, records);
  }

  lemma RowsEncode(data: seq<AnalysisResult>)
    ensures forall i :: 0 <= i < |data| ==> EncodesRecord(RowLines(data)[i], RowRecords(data)[i])
  {
    forall i | 0 <= i < |data| ensures EncodesRecord(RowLines(data)[i], RowRecords(data)[i]) {
      RowEncodes(data[i]);
    }
  }

  /** The downloaded file is the byte-order mark followed by a CSV that reads back as above. */
  lemma ExportRoundTrip(data: seq<AnalysisResult>)
    ensures ExportContent(data)[0] == ByteOrderMark
    ensures ReadCsv(ExportContent(data)[1..]) == Some([HeaderFields] + RowRecords(data))
  {
    CsvRoundTrip(data);
  }
}
