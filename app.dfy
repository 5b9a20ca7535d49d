/**
 * The analysis run of App.tsx: turning each uploaded file into an inline
 * image part, mapping every file's outcome to one result row, and the
 * `results` / `isLoading` / `error` state that `handleAnalyze` updates.
 *
 * The remote analysis call is not modelled: for every file whose image part
 * was built, its outcome (a title and text, or a thrown value) is an input.
 */
module App {
  import opened Wrappers
  import opened Strings
  import opened Types
  import ResultsTable

  /** The folder name every result carries. */
  const FolderName: string := "Uploaded Articles"
  /** The title of a result whose analysis failed. */
  const ErrorTitle: string := "Error"
  /** The message used when the thrown value is not an `Error`. */
  const UnknownErrorMessage: string := "An unknown error occurred."
  const EmptySelectionError: string := "Please select at least one image file."
  const UnexpectedError: string := "An unexpected error occurred during analysis. Please check the console."

  /** A value thrown in JavaScript: an `Error` with its message, or anything else. */
  datatype Thrown = ErrorInstance(message: string) | OtherValue

  /** What a FileReader holds when `loadend` fires: the data URL of the file, or no string because the read failed. */
  datatype ReadOutcome = DataUrl(url: string) | ReadFailed(reason: Thrown)

  /** An uploaded file: its name, its declared MIME type, and what reading it yields. */
  datatype File = File(name: string, mimeType: string, read: ReadOutcome)

  /** The `inlineData` part sent to the service; `data` is None where JavaScript has `undefined`. */
  datatype InlineData = InlineData(data: Option<string>, mimeType: string)

  /** How one analysis call ends: the parsed title and text, or a thrown value. */
  datatype Outcome = Analyzed(title: string, text: string) | Failed(thrown: Thrown)

  /** How a promise ends up: fulfilled with a value, rejected with a thrown value, or never settled. */
  datatype Settlement<T> = Fulfilled(value: T) | Rejected(reason: Thrown) | Pending

  // ---------------------------------------------------------------------------
  // Building the image part

  /** `url.split(',')[1]`: the text between the first comma and the next one, or `undefined` without a comma. */
  function DataUrlPayload(url: string): (payload: Option<string>)
    ensures payload.Some? <==> ',' in url
    ensures payload.Some? ==> ',' !in payload.value
  {
    var parts := Split(url, ',');
    if |parts| >= 2 then Some(parts[1]) else None
  }

  /**
   * `fileToGenerativePart` as written: after a failed read the `loadend`
   * handler sees no string and never resolves the promise, so it stays pending.
   */
  function FileToGenerativePartAsWritten(file: File): (part: Settlement<InlineData>)
    ensures !part.Rejected?
    ensures part.Pending? <==> file.read.ReadFailed?
    ensures part.Fulfilled? <==> file.read.DataUrl?
    ensures part.Fulfilled? ==> part.value == InlineData(DataUrlPayload(file.read.url), file.mimeType)
  {
    match file.read
    case DataUrl(url) => Fulfilled(InlineData(DataUrlPayload(url), file.mimeType))
    case ReadFailed(_) => Pending
  }

  /**
   * `fileToGenerativePart` as intended: a failed read rejects with the
   * reader's error, so that only this file's analysis fails.
   */
  function FileToGenerativePart(file: File): (part: Settlement<InlineData>)
    ensures !part.Pending?
    ensures part.Fulfilled? <==> file.read.DataUrl?
    ensures part.Fulfilled? ==> part.value.mimeType == file.mimeType && part.value.data == DataUrlPayload(file.read.url)
    ensures part.Rejected? ==> part.reason == file.read.reason
  {
    match file.read
    case DataUrl(url) => Fulfilled(InlineData(DataUrlPayload(url), file.mimeType))
    case ReadFailed(reason) => Rejected(reason)
  }

  // ---------------------------------------------------------------------------
  // One result per file

  /** The message the catch block shows: an `Error`'s message, or a fixed text for any other thrown value. */
  function ErrorMessage(e: Thrown): (m: string)
    ensures e.ErrorInstance? ==> m == e.message
    ensures e.OtherValue? ==> m == UnknownErrorMessage
  {
    match e
    case ErrorInstance(message) => message
    case OtherValue => UnknownErrorMessage
  }

  /** The record the try/catch of one file produces from how its analysis ended. */
  function ResultFromOutcome(file: File, outcome: Outcome): (r: AnalysisResult)
    ensures r.folderName == FolderName && r.fileName == file.name
    ensures outcome.Analyzed? ==> r.title == outcome.title && r.text == outcome.text
    ensures outcome.Failed? ==> r.title == ErrorTitle && r.text == "Error: " + ErrorMessage(outcome.thrown)
    ensures outcome.Failed? ==> !ResultsTable.IsCopyable(r.text)
  {
    match outcome
    case Analyzed(title, text) => AnalysisResult(FolderName, file.name, title, text)
    case Failed(e) =>
      var text := "Error: " + ErrorMessage(e);
      assert ResultsTable.ErrorPrefix <= text;
      AnalysisResult(FolderName, file.name, ErrorTitle, text)
  }

  /**
   * The result for one file: a failed read fails the file with the reader's
   * error, and otherwise `analysis` is how the service call on its part ended.
   */
  function FileResult(file: File, analysis: Outcome): (r: AnalysisResult)
    ensures r.folderName == FolderName && r.fileName == file.name
    ensures file.read.ReadFailed? ==> r.title == ErrorTitle && r.text == "Error: " + ErrorMessage(file.read.reason)
    ensures file.read.DataUrl? && analysis.Analyzed? ==> r.title == analysis.title && r.text == analysis.text
    ensures file.read.DataUrl? && analysis.Failed? ==> r.title == ErrorTitle && r.text == "Error: " + ErrorMessage(analysis.thrown)
  {
    var part := FileToGenerativePart(file);
    if part.Rejected? then ResultFromOutcome(file, Failed(part.reason))
    else ResultFromOutcome(file, analysis)
  }

  /** `Promise.all` over the per-file promises: one result per file, in the order of the files. */
  function AnalyzeAll(files: seq<File>, analyses: seq<Outcome>): (results: seq<AnalysisResult>)
    requires |analyses| == |files|
    ensures |results| == |files|
    ensures forall i :: 0 <= i < |files| ==> results[i] == FileResult(files[i], analyses[i])
  {
    if files == [] then []
    else [FileResult(files[0], analyses[0])] + AnalyzeAll(files[1..], analyses[1..])
  }

  /** The batch as written: it settles only when every file's read succeeded. */
  function AnalyzeAllAsWritten(files: seq<File>, analyses: seq<Outcome>): (batch: Settlement<seq<AnalysisResult>>)
    requires |analyses| == |files|
    ensures !batch.Rejected?
    ensures batch.Pending? <==> exists j :: 0 <= j < |files| && files[j].read.ReadFailed?
    ensures batch.Fulfilled? ==> batch.value == AnalyzeAll(files, analyses)
  {
    if forall i :: 0 <= i < |files| ==> FileToGenerativePartAsWritten(files[i]).Fulfilled? then
      Fulfilled(AnalyzeAll(files, analyses))
    else Pending
  }

  // ---------------------------------------------------------------------------
  // Properties of the run

  /** The payload of a data URL `header,body` is `body`; a second comma ends it. */
  lemma PayloadOfDataUrl(header: string, body: string, more: string)
    requires ',' !in header && ',' !in body
    ensures DataUrlPayload(header + "," + body) == Some(body)
    ensures DataUrlPayload(header + "," + body + "," + more) == Some(body)
  {
    SplitOfPair(header, body);
    SplitAfterPair(header, body, more);
  }

  lemma SplitOfPair(header: string, body: string)
    requires ',' !in header && ',' !in body
    ensures Split(header + "," + body, ',') == [header, body]
  {
    SplitAfterPiece(header, ',', body);
    SplitNoSeparator(body, ',');
  }

  lemma SplitAfterPair(header: string, body: string, more: string)
    requires ',' !in header && ',' !in body
    ensures Split(header + "," + body + "," + more, ',') == [header, body] + Split(more, ',')
  {
    var tail := body + [','] + more;
    var url := header + "," + body + "," + more;
    assert url == header + [','] + tail by {
      assert "," == [','];
    }
    SplitAfterPiece(header, ',', tail);
    SplitAfterPiece(body, ',', more);
    assert Split(url, ',') == [header] + ([body] + Split(more, ','));
  }

  /** Every result names its file, carries the fixed folder name, and the files' order is kept. */
  lemma ResultsFollowFiles(files: seq<File>, analyses: seq<Outcome>)
    requires |analyses| == |files|
    ensures |AnalyzeAll(files, analyses)| == |files|
    ensures forall i :: 0 <= i < |files| ==>
      AnalyzeAll(files, analyses)[i].fileName == files[i].name &&
      AnalyzeAll(files, analyses)[i].folderName == FolderName
  {
  }

  /** A file that was read and analysed gets exactly the title and text the service returned. */
  lemma SuccessKeepsServiceResult(files: seq<File>, analyses: seq<Outcome>, i: nat)
    requires |analyses| == |files| && i < |files|
    requires files[i].read.DataUrl? && analyses[i].Analyzed?
    ensures AnalyzeAll(files, analyses)[i].title == analyses[i].title
    ensures AnalyzeAll(files, analyses)[i].text == analyses[i].text
  {
  }

  /** A failed analysis gives the row `Error` / `Error: <message>`, which has no copy button. */
  lemma FailureBecomesErrorRow(files: seq<File>, analyses: seq<Outcome>, i: nat)
    requires |analyses| == |files| && i < |files|
    requires files[i].read.DataUrl? && analyses[i].Failed?
    ensures AnalyzeAll(files, analyses)[i].title == ErrorTitle
    ensures AnalyzeAll(files, analyses)[i].text == "Error: " + ErrorMessage(analyses[i].thrown)
    ensures !ResultsTable.IsCopyable(AnalyzeAll(files, analyses)[i].text)
  {
  }

  /** Whatever one file's analysis does, every other file's result stays the same. */
  lemma FailureIsIsolated(files: seq<File>, analyses: seq<Outcome>, j: nat, other: Outcome)
    requires |analyses| == |files| && j < |files|
    ensures forall i :: 0 <= i < |files| && i != j ==>
      AnalyzeAll(files, analyses[j := other])[i] == AnalyzeAll(files, analyses)[i]
  {
  }

  /** Analysing two lists of files one after the other gives the two result lists one after the other. */
  lemma AnalyzeAllAppend(files: seq<File>, analyses: seq<Outcome>, more: seq<File>, moreAnalyses: seq<Outcome>)
    requires |analyses| == |files| && |moreAnalyses| == |more|
    ensures AnalyzeAll(files + more, analyses + moreAnalyses) == AnalyzeAll(files, analyses) + AnalyzeAll(more, moreAnalyses)
  {
    var whole := AnalyzeAll(files + more, analyses + moreAnalyses);
    var parts := AnalyzeAll(files, analyses) + AnalyzeAll(more, moreAnalyses);
    forall i | 0 <= i < |whole| ensures whole[i] == parts[i] {
      if i < |files| {
        assert (files + more)[i] == files[i] && (analyses + moreAnalyses)[i] == analyses[i];
      } else {
        var k := i - |files|;
        assert (files + more)[i] == more[k] && (analyses + moreAnalyses)[i] == moreAnalyses[k];
      }
    }
  }

  /**
   * If the service answers every image with the not-found text, every row
   * carries that text, whatever title came with it, and none offers a copy button.
   */
  lemma AllNotFound(files: seq<File>, analyses: seq<Outcome>)
    requires |analyses| == |files|
    requires forall i :: 0 <= i < |files| ==> files[i].read.DataUrl?
    requires forall i :: 0 <= i < |files| ==> analyses[i].Analyzed? && analyses[i].text == ResultsTable.NotFoundText
    ensures forall i :: 0 <= i < |files| ==>
      AnalyzeAll(files, analyses)[i].title == analyses[i].title &&
      AnalyzeAll(files, analyses)[i].text == ResultsTable.NotFoundText &&
      !ResultsTable.IsCopyable(AnalyzeAll(files, analyses)[i].text)
  {
  }

  /** Every row the run writes for a failed file, whatever failed, is titled `Error` and is never copyable. */
  lemma ErrorRowsNeverCopyable(files: seq<File>, analyses: seq<Outcome>)
    requires |analyses| == |files|
    ensures forall i :: 0 <= i < |files| && (files[i].read.ReadFailed? || analyses[i].Failed?) ==>
      AnalyzeAll(files, analyses)[i].title == ErrorTitle &&
      !ResultsTable.IsCopyable(AnalyzeAll(files, analyses)[i].text)
  {
  }

  /** As written, one unreadable file keeps the whole batch from ever settling. */
  lemma ReadFailureStallsBatch(files: seq<File>, analyses: seq<Outcome>, j: nat)
    requires |analyses| == |files| && j < |files|
    requires files[j].read.ReadFailed?
    ensures AnalyzeAllAsWritten(files, analyses) == Pending
  {
    assert !FileToGenerativePartAsWritten(files[j]).Fulfilled?;
  }

  /** A batch whose every read succeeds settles as written with the same results as intended. */
  lemma AsWrittenAgreesWhenReadsSucceed(files: seq<File>, analyses: seq<Outcome>)
    requires |analyses| == |files|
    requires forall i :: 0 <= i < |files| ==> files[i].read.DataUrl?
    ensures AnalyzeAllAsWritten(files, analyses) == Fulfilled(AnalyzeAll(files, analyses))
  {
  }

  /** As intended, an unreadable file gets an error row with the reader's message, and the batch still settles. */
  lemma ReadFailureIsIsolated(files: seq<File>, analyses: seq<Outcome>, j: nat)
    requires |analyses| == |files| && j < |files|
    requires files[j].read.ReadFailed?
    ensures |AnalyzeAll(files, analyses)| == |files|
    ensures AnalyzeAll(files, analyses)[j].title == ErrorTitle
    ensures AnalyzeAll(files, analyses)[j].text == "Error: " + ErrorMessage(files[j].read.reason)
  {
  }

  // ---------------------------------------------------------------------------
  // The state `handleAnalyze` updates

  class AppState {
    var results: seq<AnalysisResult>
    var isLoading: bool
    var error: Option<string>

    /** The initial state: no results, not loading, no error. */
    constructor ()
      ensures results == [] && !isLoading && error == None
    {
      results := [];
      isLoading := false;
      error := None;
    }

    /** What the results table shows for the current state. */
    function View(): ResultsTable.View
      reads this
    {
      ResultsTable.ViewFor(isLoading, results)
    }

    /** The synchronous start of `handleAnalyze`: reject an empty selection, or reset the state for a run. */
    method BeginAnalysis(files: seq<File>) returns (started: bool)
      modifies this
      ensures started <==> |files| > 0
      ensures !started ==> error == Some(EmptySelectionError) && results == old(results) && isLoading == old(isLoading)
      ensures started ==> isLoading && error == None && results == []
      ensures started ==> View() == ResultsTable.Spinner
    {
      if |files| == 0 {
        error := Some(EmptySelectionError);
        return false;
      }
      isLoading := true;
      error := None;
      results := [];
      started := true;
    }

    /**
     * The rest of `handleAnalyze`, once every file's promise has settled:
     * store the results, or report an aggregate failure; loading ends either way.
     */
    method SettleAnalysis(files: seq<File>, analyses: seq<Outcome>, aggregateFailure: bool)
      requires |analyses| == |files|
      modifies this
      ensures !isLoading
      ensures !aggregateFailure ==> results == AnalyzeAll(files, analyses) && error == old(error)
      ensures aggregateFailure ==> results == old(results) && error == Some(UnexpectedError)
    {
      if !aggregateFailure {
        results := AnalyzeAll(files, analyses);
      } else {
        error := Some(UnexpectedError);
      }
      isLoading := false;
    }

    /**
     * `handleAnalyze` from the click to the settled state, with the intended
     * `fileToGenerativePart`: every file settles, so loading always ends.
     */
    method HandleAnalyze(files: seq<File>, analyses: seq<Outcome>, aggregateFailure: bool)
      requires |analyses| == |files|
      modifies this
      ensures |files| == 0 ==> error == Some(EmptySelectionError) && results == old(results) && isLoading == old(isLoading)
      ensures |files| > 0 ==> !isLoading
      ensures |files| > 0 && !aggregateFailure ==> results == AnalyzeAll(files, analyses) && error == None
      ensures |files| > 0 && !aggregateFailure ==> View() == ResultsTable.Table
      ensures |files| > 0 && aggregateFailure ==> results == [] && error == Some(UnexpectedError)
      ensures |files| > 0 && aggregateFailure ==> View() == ResultsTable.Placeholder
    {
      var started := BeginAnalysis(files);
      if !started {
        return;
      }
      SettleAnalysis(files, analyses, aggregateFailure);
    }

    /**
     * `handleAnalyze` as written. When a file's read fails, `await Promise.all`
     * never returns: the state `BeginAnalysis` left, loading with no results
     * and the spinner showing, is the last one the run produces.
     */
    method HandleAnalyzeAsWritten(files: seq<File>, analyses: seq<Outcome>, aggregateFailure: bool)
      requires |analyses| == |files|
      modifies this
      ensures |files| == 0 ==> error == Some(EmptySelectionError) && results == old(results) && isLoading == old(isLoading)
      ensures |files| > 0 && AnalyzeAllAsWritten(files, analyses).Pending? ==>
        isLoading && results == [] && error == None && View() == ResultsTable.Spinner
      ensures |files| > 0 && AnalyzeAllAsWritten(files, analyses).Fulfilled? ==>
        !isLoading &&
        (!aggregateFailure ==> results == AnalyzeAll(files, analyses) && error == None) &&
        (aggregateFailure ==> results == [] && error == Some(UnexpectedError))
    {
      var started := BeginAnalysis(files);
      if !started {
        return;
      }
      var batch := AnalyzeAllAsWritten(files, analyses);
      if batch.Pending? {
        return;
      }
      SettleAnalysis(files, analyses, aggregateFailure);
    }
  }
}
