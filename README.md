# Newspaper article extractor: verified model of the CSV export and the analysis run

The application takes uploaded newspaper-page images and sends each one to a hosted
multimodal model. It shows the extracted article text in a table and exports the table as CSV.
This project models the two pieces of deterministic logic in that application and proves
properties of them in Dafny:

- **The results table** (`components/ResultsTable.tsx`), in `results_table.dfy`. This covers:
  - `escapeCSV`: wrap the field in double quotes and double every inner quote.
  - `convertToCSV`: a fixed header line, then one `folder,file,text` row per result, joined with line feeds.
  - The export content: a byte-order mark, then the CSV.
  - `isCopyable`: which texts get a copy button.
  - The choice between spinner, placeholder and table.
- **A reference CSV reader** (`csv_reader.dfy`). It is an RFC 4180-style reader after rules 5 to 7 of section 2 of RFC 4180 (quoted fields, doubled inner quotes), with the line feed as the record separator, because that is what the export writes. The export is proved to round-trip through this reader: every folder name, file name and text comes back unchanged and in order, whatever quotes, commas or line breaks it holds.
- **The analysis run** (`App.tsx`), in `app.dfy`. This covers:
  - `fileToGenerativePart`: the payload of the data URL and the MIME type.
  - The per-file try/catch that turns each file's outcome into one `AnalysisResult`.
  - `Promise.all`, modelled as an order-preserving map.
  - The `results` / `isLoading` / `error` state that `handleAnalyze` updates, modelled as the class `App.AppState`.
- **Shared helpers** (`strings.dfy`): JavaScript's `join` and `split` on one character, an `Option` type, and the `AnalysisResult` record (in `results_table.dfy`, module `Types`).

The remote analysis call is not part of the model. For every file whose image part was built, how the call ended is an input: `Analyzed(title, text)`, or `Failed(thrown)` where `thrown` is an `Error` with its message or some other value.

Facts about the code that the model follows:

- Results keep the order of the files, because `Promise.all` preserves order (App.tsx:39,62).
- The payload is `url.split(',')[1]` (App.tsx:19): the text after the first comma, ended by a second comma if there is one. `App.PayloadOfDataUrl` states both cases.
- The CSV header is `Folder Name,File Name,Text` (components/ResultsTable.tsx:41,53).
- A failed file read leaves the whole batch pending; see "Findings".

## Model

| member | source | states |
|---|---|---|
| ResultsTable.EscapeCSV | components/ResultsTable.tsx:43 | the escaped field is at least two characters long and starts and ends with a double quote |
| ResultsTable.DoubleQuotes | components/ResultsTable.tsx:43 | a text without double quotes is left unchanged by the quote doubling |
| ResultsTable.EscapeLength | components/ResultsTable.tsx:43 | the escaped field is exactly 2 characters plus one per double quote longer than the text |
| ResultsTable.DoubleQuotesCounts | components/ResultsTable.tsx:43 | inside the quotes, every character other than `"` occurs as often as in the text, and `"` occurs exactly twice as often |
| CsvReader.QuotedBodyRoundTrip | components/ResultsTable.tsx:43 | collapsing each `""` back to `"` up to the closing quote gives back exactly the original text and leaves what follows untouched |
| CsvReader.EscapeRoundTrip | components/ResultsTable.tsx:42-43 | an escaped field followed by a comma, a line feed or nothing is read back as exactly the original text, with the rest of the input left after it |
| ResultsTable.HeaderLineText | components/ResultsTable.tsx:41 | the header line is the text `Folder Name,File Name,Text` |
| ResultsTable.ConvertToCSV | components/ResultsTable.tsx:40-54 | the CSV always starts with the header line; for no results it is the header line and nothing else |
| ResultsTable.CsvOfNoResults | components/ResultsTable.tsx:41-53 | the CSV of no results is exactly `Folder Name,File Name,Text` |
| ResultsTable.CsvAppendsRow | components/ResultsTable.tsx:45-53 | one more result appends exactly a line feed and that result's row, so rows follow the results' order |
| ResultsTable.CsvIgnoresTitles | components/ResultsTable.tsx:45-51 | two result lists that agree on folder name, file name and text give the same CSV, so the title is never written |
| CsvReader.RowEncodes | components/ResultsTable.tsx:46-50 | the row `ResultsTable.RowLine` builds for a result (its escaped folder name, file name and text joined with commas) reads back as exactly the record of those three fields, followed by a line feed or by nothing |
| CsvReader.CsvRoundTrip | components/ResultsTable.tsx:40-54 | reading the CSV gives the header record, then exactly one record per result, in order, holding its folder name, file name and text unchanged |
| ResultsTable.ExportContent | components/ResultsTable.tsx:77 | the exported content is one character longer than the CSV: U+FEFF followed by the CSV unchanged |
| CsvReader.ExportRoundTrip | components/ResultsTable.tsx:76-77 | the exported file starts with the byte-order mark, and the rest reads back as the header and the results' records |
| ResultsTable.IsCopyable | components/ResultsTable.tsx:23 | a text gets a copy button exactly when its first six characters are not `Error:` and it is not `No relevant article found.` |
| ResultsTable.ViewFor | components/ResultsTable.tsx:58-73 | the spinner shows exactly when loading with no results, the placeholder exactly when not loading with no results, and the table exactly when there are results |
| Strings.JoinSplit | App.tsx:19 | joining the pieces of `split(',')` with commas gives back the string, so no character is lost or moved by the split; on pieces without a separator this also fixes `Strings.Join` (for the `join` calls of components/ResultsTable.tsx:50,53, whose pieces may hold separators, `CsvReader.RowEncodes` and `CsvReader.CsvRoundTrip` show that what `Join` builds reads back as the fields) |
| Strings.Split | App.tsx:19 | `split(',')` gives one more piece than there are commas, and no piece holds a comma |
| App.DataUrlPayload | App.tsx:19 | the payload is defined exactly when the data URL holds a comma, and it holds no comma itself |
| App.PayloadOfDataUrl | App.tsx:19 | for `header,body` the payload is `body`, and a second comma ends the payload |
| App.FileToGenerativePart | App.tsx:14-27 | intended behaviour: a readable file gives the data-URL payload with the MIME type copied unchanged, and a failed read rejects with the reader's error and never stays pending |
| App.FileToGenerativePartAsWritten | App.tsx:15-23 | as written: the part never rejects; it stays pending exactly when the read failed, and is fulfilled exactly when the read gave a data URL, with the payload and the file's MIME type |
| App.ErrorMessage | App.tsx:51 | the message of a thrown `Error` is its own message; any other thrown value gives `An unknown error occurred.` |
| App.ResultFromOutcome | App.tsx:40-58 | each result has folder `Uploaded Articles` and the file's name; a success keeps the service's title and text; a failure has title `Error`, text `Error: ` followed by the message, and no copy button |
| App.FileResult | App.tsx:40-57 | intended behaviour: a failed read gives title `Error` and text `Error: ` plus the reader's message; a readable file gets the service's title and text on success and the `Error` row on failure; folder and file name are set either way |
| App.AnalyzeAll | App.tsx:39-62 | the results have one entry per file, and entry i is the result for file i and its own outcome |
| App.ResultsFollowFiles | App.tsx:44-45 | every result carries the fixed folder name and the name of the file at the same position |
| App.SuccessKeepsServiceResult | App.tsx:42-47 | a file that was read and analysed gets exactly the title and text the service returned |
| App.FailureBecomesErrorRow | App.tsx:49-57 | a failed analysis gives title `Error` and text `Error: ` plus the `Error`'s message, or `An unknown error occurred.` for any other thrown value, and that row is never copyable |
| App.FailureIsIsolated | App.tsx:39-59 | changing one file's outcome changes no other file's result |
| App.AnalyzeAllAppend | App.tsx:39-62 | the results for two lists of files one after the other are the two result lists one after the other |
| App.AllNotFound | App.tsx:42-47 | if the service returns the text `No relevant article found.` for every image, every row keeps that text and the title that came with it, and none is copyable |
| App.ErrorRowsNeverCopyable | App.tsx:49-57 | every row written for a failed file, whether the read or the analysis failed, is titled `Error` and its text is never copyable by the copy-button rule |
| App.AnalyzeAllAsWritten | App.tsx:39-62 | as written: the batch never rejects, stays pending exactly when some file's read failed, and otherwise settles with one result per file in order |
| App.ReadFailureStallsBatch | App.tsx:17-20 | as written, a single file whose read fails leaves the whole batch pending forever |
| App.AsWrittenAgreesWhenReadsSucceed | App.tsx:39-63 | when every read succeeds, the batch as written settles with the same results as the intended version |
| App.ReadFailureIsIsolated | App.tsx:14-27 | intended behaviour: an unreadable file gets title `Error` and text `Error: ` plus the reader's message, and the batch still has one result per file |
| App.AppState.constructor | App.tsx:10-12 | the initial state has no results, is not loading and has no error |
| App.AppState.BeginAnalysis | App.tsx:30-37 | an empty selection sets the error `Please select at least one image file.` and leaves results and loading untouched; otherwise loading starts, the error is cleared, the results are emptied, and the spinner shows |
| App.AppState.SettleAnalysis | App.tsx:61-69 | once all files settle, the results are stored, or the aggregate error is set and the results are kept; loading ends either way |
| App.AppState.HandleAnalyze | App.tsx:29-70 | intended behaviour, with every file settling: an empty selection only sets the error; otherwise loading ends with one result per file and no error, so the table shows, or with the aggregate error, no results and the placeholder |
| App.AppState.HandleAnalyzeAsWritten | App.tsx:29-70 | as written: an empty selection only sets the error; when some read fails the run stays loading for good, with no results, no error and the spinner showing; otherwise it ends as the intended run does |

## Findings

| source | as written | input that shows it | evidently intended | confidence | as-written member | corrected member |
|---|---|---|---|---|---|---|
| App.tsx:17-20 | the `loadend` handler resolves only when `reader.result` is a string, and nothing ever rejects the promise | one selected file whose read fails: `result` is then not a string, the per-file `await` never returns, and `Promise.all` never settles, so `isLoading` stays true | reject with the reader's error, so that file gets an `Error: …` row and the other files still show | medium; not executed | App.ReadFailureStallsBatch | App.ReadFailureIsIsolated |

The rest of the model uses the corrected `App.FileToGenerativePart`, through `App.FileResult` and `App.AnalyzeAll`. `App.AppState.SettleAnalysis` describes the state once every file has settled. As written, a failed read means that state is never reached.

## Left out

- services/geminiService.ts is not part of this model: the network call to the hosted model, the prompt text and the `API_KEY` startup check. That file declares a plain-string return, while App.tsx:42 destructures `{title, text}`. The model takes how each call ended as an input instead.
- The title-selection and paragraph-reflow rules are instructions in the prompt, not code, so nothing here states them.
- FileReader and base64 encoding are not modelled. What reading a file yields (its data URL, or a failed read) is part of the `App.File` input.
- A data URL without a comma makes the payload `undefined` (None here). What the service then does is part of that file's outcome.
- Concurrency of `Promise.all` is not modelled. Every per-file promise catches its own errors, so the batch is an order-preserving map.
- The aggregate rejection handled at App.tsx:64-66 cannot come from the per-file promises. It is an input flag (`aggregateFailure`) of `App.AppState.SettleAnalysis` and `App.AppState.HandleAnalyze`.
- Calls to `handleAnalyze` that overlap a running batch are not modelled. The submit button is disabled while loading (components/FileUpload.tsx:108).
- Browser I/O is left out: `console.error`, `navigator.clipboard`, the `copyStatus` timer, `alert`, `Blob`, `URL.createObjectURL`, and creating and clicking the download link. The download file name is a constant of that I/O.
- React rendering is left out: components/FileUpload.tsx, components/Header.tsx, and the table markup beyond the three-way view choice.
- JavaScript strings are UTF-16 code units, while Dafny `char` values are Unicode scalar values. The escaping, joining and prefix tests in the model never split a character, so the difference does not affect what is stated.
- App.AppState.HandleAnalyze: states the end of the run with the intended `fileToGenerativePart`. As written, a failed read means that end is never reached; `App.AppState.HandleAnalyzeAsWritten` states what happens then.
- The reference reader departs from RFC 4180 in three ways. Records end at a bare line feed instead of CRLF, because the export writes a line feed. A trailing comma reads as one more empty field. Records are not checked for equal numbers of fields. None of these cases arises in the export, whose records all have three fields.
