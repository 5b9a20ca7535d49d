/** The record the analysis run produces for every uploaded file. */
module Types {
  datatype AnalysisResult = AnalysisResult(folderName: string, fileName: string, title: string, text: string)
}

/**
 * The pure logic of the results table (components/ResultsTable.tsx): the CSV
 * export, the byte-order-marked file content, whether a row offers a copy
 * button, and which of spinner, placeholder or table is shown.
 */
module ResultsTable {
  import opened Types
  import opened Strings

  /** Prefix of the texts the analysis run writes for a failed file. */
  const ErrorPrefix: string := "Error:"
  /** The text the analysis service returns when no article is found. */
  const NotFoundText: string := "No relevant article found."
  /** U+FEFF, written in front of the CSV so that spreadsheets read it as UTF-8. */
  const ByteOrderMark: char := '\U{FEFF}'
  /** The column titles of the CSV header line. */
  const HeaderFields: seq<string> := ["Folder Name", "File Name", "Text"]

  /** `s` with every double quote written twice; every other character kept in place. */
  function DoubleQuotes(s: string): (r: string)
    ensures '"' !in s ==> r == s
  {
    if s == [] then ""
    else (if s[0] == '"' then "\"\"" else [s[0]]) + DoubleQuotes(s[1..])
  }

  /** `escapeCSV`: the field in double quotes, with its inner double quotes doubled. */
  function EscapeCSV(s: string): (r: string)
    ensures |r| >= 2 && r[0] == '"' && r[|r| - 1] == '"'
  {
    "\"" + DoubleQuotes(s) + "\""
  }

  /** The header line, `header.join(',')`. */
  function HeaderLine(): (line: string)
  {
    Join(HeaderFields, ',')
  }

  /** The three fields a result contributes to the CSV; its title is not among them. */
  function RowFields(r: AnalysisResult): (fields: seq<string>)
  {
    [r.folderName, r.fileName, r.text]
  }

  /** One CSV row: the escaped folder name, file name and text, joined with commas. */
  function RowLine(r: AnalysisResult): (line: string)
  {
    Join([EscapeCSV(r.folderName), EscapeCSV(r.fileName), EscapeCSV(r.text)], ',')
  }

  function RowLines(data: seq<AnalysisResult>): (lines: seq<string>)
    ensures |lines| == |data|
    ensures forall i :: 0 <= i < |data| ==> lines[i] == RowLine(data[i])
  {
    seq(|data|, i requires 0 <= i < |data| => RowLine(data[i]))
  }

  /** The records a reader should get back for the results, in order. */
  function RowRecords(data: seq<AnalysisResult>): (records: seq<seq<string>>)
    ensures |records| == |data|
    ensures forall i :: 0 <= i < |data| ==> records[i] == RowFields(data[i])
  {
    seq(|data|, i requires 0 <= i < |data| => RowFields(data[i]))
  }

  /** `convertToCSV`: the header line and one row per result, joined with line feeds. */
  function ConvertToCSV(data: seq<AnalysisResult>): (csv: string)
    ensures HeaderLine() <= csv
    ensures data == [] ==> csv == HeaderLine()
  {
    JoinCons(HeaderLine(), RowLines(data), '\n');
    Join([HeaderLine()] + RowLines(data), '\n')
  }

  /** What the export writes into the downloaded file: the byte-order mark, then the CSV. */
  function ExportContent(data: seq<AnalysisResult>): (content: string)
    ensures |content| == |ConvertToCSV(data)| + 1
    ensures content[0] == ByteOrderMark && content[1..] == ConvertToCSV(data)
  {
    [ByteOrderMark] + ConvertToCSV(data)
  }

  /** The copy button is shown unless the text is an error text or the not-found sentinel. */
  function IsCopyable(text: string): (copyable: bool)
    ensures copyable <==> !(|text| >= 6 && text[..6] == "Error:") && text != NotFoundText
  {
    !(ErrorPrefix <= text || text == NotFoundText)
  }

  /** What the results table renders. */
  datatype View = Spinner | Placeholder | Table

  function ViewFor(isLoading: bool, results: seq<AnalysisResult>): (view: View)
    ensures view == Table <==> |results| > 0
    ensures view == Spinner <==> isLoading && |results| == 0
    ensures view == Placeholder <==> !isLoading && |results| == 0
  {
    if isLoading && |results| == 0 then Spinner
    else if !isLoading && |results| == 0 then Placeholder
    else Table
  }

  // ---------------------------------------------------------------------------
  // Properties

  /** The header line is the fixed text `Folder Name,File Name,Text`. */
  lemma HeaderLineText()
    ensures HeaderLine() == "Folder Name,File Name,Text"
  {
    JoinCons("Folder Name", ["File Name", "Text"], ',');
    JoinCons("File Name", ["Text"], ',');
    assert HeaderFields == ["Folder Name"] + ["File Name", "Text"];
  }

  /** Escaping adds the two enclosing quotes and one more quote for every quote in the text. */
  lemma EscapeLength(s: string)
    ensures |EscapeCSV(s)| == |s| + 2 + multiset(s)['"']
  {
    DoubleQuotesLength(s);
  }

  lemma {:induction false} DoubleQuotesLength(s: string)
    ensures |DoubleQuotes(s)| == |s| + multiset(s)['"']
  {
    if s != [] {
      DoubleQuotesLength(s[1..]);
      assert s == [s[0]] + s[1..];
      assert multiset(s) == multiset{s[0]} + multiset(s[1..]);
    }
  }

  /** Every character other than `"` occurs as often in the doubled text as in `s`; `"` occurs twice as often. */
  lemma {:induction false} DoubleQuotesCounts(s: string, c: char)
    ensures multiset(DoubleQuotes(s))[c] == if c == '"' then 2 * multiset(s)[c] else multiset(s)[c]
  {
    if s != [] {
      DoubleQuotesCounts(s[1..], c);
      DoubleQuotesFirst(s);
      assert s == [s[0]] + s[1..];
      assert multiset(s) == multiset{s[0]} + multiset(s[1..]);
    }
  }

  /** The characters the first character of `s` contributes to the doubled text. */
  lemma DoubleQuotesFirst(s: string)
    requires s != []
    ensures multiset(DoubleQuotes(s)) ==
      (if s[0] == '"' then multiset{'"', '"'} else multiset{s[0]}) + multiset(DoubleQuotes(s[1..]))
  {
    if s[0] == '"' {
      assert DoubleQuotes(s) == "\"\"" + DoubleQuotes(s[1..]);
    } else {
      assert DoubleQuotes(s) == [s[0]] + DoubleQuotes(s[1..]);
    }
  }

  /** Without results the CSV is the header line `Folder Name,File Name,Text` and nothing else. */
  lemma CsvOfNoResults()
    ensures ConvertToCSV([]) == "Folder Name,File Name,Text"
  {
    HeaderLineText();
  }

  /** One more result adds exactly one line, its row, at the end: rows come in input order. */
  lemma CsvAppendsRow(data: seq<AnalysisResult>, r: AnalysisResult)
    ensures ConvertToCSV(data + [r]) == ConvertToCSV(data) + "\n" + RowLine(r)
  {
    assert RowLines(data + [r]) == RowLines(data) + [RowLine(r)];
    assert [HeaderLine()] + RowLines(data + [r]) == ([HeaderLine()] + RowLines(data)) + [RowLine(r)];
    JoinSnoc([HeaderLine()] + RowLines(data), RowLine(r), '\n');
  }

  /** The CSV depends on the results only through folder name, file name and text: titles are never written. */
  lemma CsvIgnoresTitles(data: seq<AnalysisResult>, other: seq<AnalysisResult>)
    requires |data| == |other|
    requires forall i :: 0 <= i < |data| ==> RowFields(data[i]) == RowFields(other[i])
    ensures ConvertToCSV(data) == ConvertToCSV(other)
  {
    forall i | 0 <= i < |data| ensures RowLine(data[i]) == RowLine(other[i]) {
      assert RowFields(data[i])[0] == RowFields(other[i])[0];
      assert RowFields(data[i])[1] == RowFields(other[i])[1];
      assert RowFields(data[i])[2] == RowFields(other[i])[2];
    }
    assert RowLines(data) == RowLines(other);
  }

}
