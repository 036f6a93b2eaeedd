# Company finder: verified model of the response handling and view state

This project models in Dafny the three pieces of logic of a single-page lead-finder app.
The app sends search criteria (country, niche, founding year) to a generative-AI service,
shows the companies it returns, keeps a history of past searches and exports CSV files.

- **Query client** (`services/geminiService.ts`). The service's free-text reply is trimmed.
  If it contains a fenced code block, the body of the first block is taken (an optional
  `json` tag is allowed); otherwise the whole text is used. The text is parsed as JSON. A
  parse failure and a non-array both mean "no results". The elements of an array are kept
  when they carry the five string fields of a company. The grounding citations travel
  with the results unchanged. A thrown `Error` from the service is rethrown as it is; any
  other thrown value becomes an `Error` with a fixed message.
- **View-state controller** (`App.tsx`). A class whose fields are the app's state: view,
  history, current results, sources, criteria, loading flag, error, dialog flag and last
  result count. The asynchronous search handler is split into `BeginSearch` and then
  `CompleteSearch` or `FailSearch`; `Search` runs the three in order for a given call
  outcome. A search with results puts a new entry at the front of the history, which is
  capped at 50 entries, so the oldest entries are evicted. A past search is restored by
  id. The CSV export writes a fixed header line and one line per company. Every field is
  wrapped in double quotes with inner quotes doubled, as section 2 rule 7 of RFC 4180
  asks. Lines are joined with a line feed, not the CRLF of section 2 rule 1. A reader for
  that format shows the escaping is lossless.
- **Citation list** (`components/Sources.tsx`). Only sources with a non-empty link and a
  non-empty title are listed, in order. Nothing is rendered when none is left.

Files: `wrappers.dfy` (Option), `types.dfy` (records of `types.ts`), `seqs.dfy` (`filter`,
`join`), `text.dfy` (`trim`, `\s`, whitespace-run replacement), `json.dfy` (parsed JSON
values), `gemini_service.dfy`, `csv_export.dfy`, `app.dfy`, `sources_view.dfy`.

Modelling choices:
- `JSON.parse` is a parameter `parse: string -> Option<Json>`. `None` stands for a throw.
  Objects are maps, because `JSON.parse` keeps the last of duplicated keys.
- The service call is not made. Its outcome is an input: a `Response` (candidates and
  text) or a thrown value. Ids, timestamps and the current year are inputs too.
- Whitespace for `trim` and for `\s` is the ECMAScript WhiteSpace and LineTerminator set,
  written out character by character.
- The pattern ``/```(?:json)?\s*([\s\S]*?)\s*```/`` is modelled by `FencedBody`. The opening
  fence is the first run of three backticks. An optional `json` tag and whitespace follow.
  The body runs up to the next three backticks, and the whitespace before them is dropped.
  This is what JavaScript's backtracking matcher returns. When the tag is present, the
  branch that takes it succeeds whenever the branch that skips it does. The lazy body
  with the greedy `\s*` after it stops at the whitespace run before the first closing
  fence. A pattern that does not match at the first fence matches nowhere later.
- The comment at services/geminiService.ts:48 describes the reply as a markdown code block.
  The `match` call on the next lines finds the first block anywhere in the reply, so prose
  before it is ignored. The model follows the call (`FencedBodyOfBlock`, `FencedReplyResults`).
- The results are a `seq<Company>` built from the kept JSON objects. The objects' other
  members are dropped (see Left out).

## Model

| member | source | states |
|---|---|---|
| `Seqs.Filter` | services/geminiService.ts:70-77 | the kept elements all pass the test and come from the input; every passing element is kept; never longer than the input |
| `Seqs.FilterAppend` | components/Sources.tsx:9 | filtering distributes over concatenation, so the filter preserves order |
| `Seqs.FilterAll` | services/geminiService.ts:70-77 | when every element passes, the filter returns the input unchanged |
| `Text.WhitespaceEnd` | services/geminiService.ts:49 | the end of the maximal whitespace run at a position (greedy `\s*`, leading trim) |
| `Text.WhitespaceStart` | services/geminiService.ts:49 | the start of the maximal whitespace run before a position (the `\s*` before the closing fence, trailing trim) |
| `Text.IsWhitespace` | services/geminiService.ts:41-49 | the ECMAScript WhiteSpace and LineTerminator characters used by `trim` and `\s`; no contract of its own, used by every whitespace lemma |
| `Text.Trim` | services/geminiService.ts:41 | `String.prototype.trim`; no contract of its own, characterised by `Text.TrimSlice`, `Text.TrimKeepsTrimmed`, `Text.TrimEmptyIff` and `Text.TrimIdempotent` |
| `Text.TrimSlice` | services/geminiService.ts:41 | the trimmed reply is a slice of it between an all-whitespace prefix and suffix, and it neither starts nor ends with whitespace |
| `Text.TrimKeepsTrimmed` | services/geminiService.ts:41 | a text with non-whitespace ends is left unchanged by trimming |
| `Text.TrimEmptyIff` | services/geminiService.ts:41-46 | the trimmed reply is empty exactly when the reply is all whitespace |
| `Text.TrimIdempotent` | services/geminiService.ts:41 | trimming twice equals trimming once |
| `Text.CollapseWhitespace` | App.tsx:97 | `replace(/\s+/g, '_')`; no contract of its own, characterised by `Text.CollapseRun`, `Text.CollapseInnerRun`, `Text.CollapseKeepsChar`, `Text.CollapseLeavesNoWhitespace`, `Text.CollapseKeepsPlainText` and `Text.CollapseKeepsWords` |
| `Text.CollapseRun` | App.tsx:97 | a whole whitespace run, however long, becomes exactly one `_` before the rest is replaced |
| `Text.CollapseInnerRun` | App.tsx:97 | a whitespace run anywhere, between text that does not end in whitespace and text that does not start with it, becomes exactly one `_`, and the two sides are replaced independently |
| `Text.CollapseKeepsChar` | App.tsx:97 | a character other than whitespace is copied and the replacement goes on with the rest |
| `Text.CollapseLeavesNoWhitespace` | App.tsx:97 | after replacing each whitespace run with `_`, no whitespace remains in the niche |
| `Text.CollapseKeepsPlainText` | App.tsx:97 | a niche without whitespace is used as it is |
| `Text.CollapseKeepsWords` | App.tsx:97 | apart from underscores, the replacement keeps exactly the non-whitespace characters, in order |
| `GeminiService.GroundingSources` | services/geminiService.ts:40 | when the first candidate has grounding metadata, its chunks are returned as they are (present or absent); otherwise there are no sources |
| `GeminiService.FindFence` | services/geminiService.ts:49-50 | returns the first position at or after a start where three backticks begin, or none if there is none |
| `GeminiService.FencedBody` | services/geminiService.ts:49-50 | the first capture group of the pattern; no contract of its own, characterised by `GeminiService.FencedBodyMatchesIff`, `GeminiService.FencedBodyShape` and `GeminiService.FencedBodyOfBlock` |
| `GeminiService.FencedBodyMatchesIff` | services/geminiService.ts:48-51 | the pattern matches exactly when the reply holds two non-overlapping fences |
| `GeminiService.FencedBodyShape` | services/geminiService.ts:48-51 | a match is the first fence; then the `json` tag exactly when it is there; then all the whitespace that follows; then the body; then whitespace; then the first fence after the body's start. The body has no fence and no whitespace at either end, so the decomposition is unique |
| `GeminiService.FencedBodyOfBlock` | services/geminiService.ts:48-51 | with prose that holds no fence and does not end with a backtick before a JSON block, and anything after it, the captured text is exactly the block's body |
| `GeminiService.JsonText` | services/geminiService.ts:51 | the captured body if the pattern matches, else the trimmed reply; no contract of its own, characterised by `GeminiService.UnfencedTextParsedWhole` and `GeminiService.JsonTextOfBlock` |
| `GeminiService.JsonTextOfBlock` | services/geminiService.ts:48-51 | for a reply that is just a JSON block, the text parsed is the block's body |
| `GeminiService.FencedBodyOfBareBlock` | services/geminiService.ts:48-51 | a JSON block with nothing around it captures its body |
| `GeminiService.BlockIsTrimmed` | services/geminiService.ts:41 | a JSON block starts and ends with a backtick, so trimming leaves it unchanged |
| `GeminiService.UnfencedTextParsedWhole` | services/geminiService.ts:50-51 | without a fenced block, the whole trimmed reply is parsed |
| `Json.Truthy` | services/geminiService.ts:71 | JavaScript truthiness of a parsed value; no contract of its own; `GeminiService.CompanyRecordIff` shows it adds nothing to the record test |
| `GeminiService.IsCompanyRecord` | services/geminiService.ts:71-76 | the filter's test; no contract of its own, characterised by `GeminiService.CompanyRecordIff` and `GeminiService.CompanyJsonIsRecord` |
| `GeminiService.CompanyRecords` | services/geminiService.ts:70-77 | the results are never more than the array's elements |
| `GeminiService.CompanyRecordIff` | services/geminiService.ts:70-77 | an element is kept exactly when it is an object with the five string members; the truthiness test adds nothing |
| `GeminiService.CompanyJsonIsRecord` | services/geminiService.ts:70-77 | a company written as the service is asked to write it passes the test and reads back as itself |
| `GeminiService.CompanyRecordsAppend` | services/geminiService.ts:70-77 | the results of a concatenation are the results of each part in order (an order-preserving subsequence) |
| `GeminiService.CompanyRecordsSingle` | services/geminiService.ts:70-77 | one element yields its company if it is a complete record and nothing otherwise |
| `GeminiService.CompanyRecordsMembers` | services/geminiService.ts:70-77 | every result comes from a complete record of the array and every complete record yields a result |
| `GeminiService.CompanyRecordsOfEncoded` | services/geminiService.ts:70-77 | an array of well-formed company objects yields exactly those companies |
| `GeminiService.PostProcess` | services/geminiService.ts:40-79 | every return carries the sources unchanged; an empty trimmed reply yields no results |
| `GeminiService.ResultsOf` | services/geminiService.ts:53-77 | the results of a parse outcome; no contract of its own, characterised by `GeminiService.ParseFailureMeansNoResults`, `GeminiService.NonArrayMeansNoResults` and `GeminiService.ArrayMeansItsRecords` |
| `GeminiService.PostProcessOfBlock` | services/geminiService.ts:41-79 | a reply that is just a JSON block yields the results of parsing its body, with the sources |
| `GeminiService.ParseFailureMeansNoResults` | services/geminiService.ts:53-61 | a parse failure is not an error: empty results, sources unchanged |
| `GeminiService.NonArrayMeansNoResults` | services/geminiService.ts:63-68 | a parsed value that is not an array yields empty results |
| `GeminiService.ArrayMeansItsRecords` | services/geminiService.ts:70-79 | a parsed array yields exactly its complete records, at most as many as its elements |
| `GeminiService.FencedReplyResults` | services/geminiService.ts:41-79 | prose before a fenced JSON array is ignored; the results are the array's complete records |
| `GeminiService.WellFormedReplyRoundTrip` | services/geminiService.ts:29-79 | a reply holding a fenced array of well-formed companies returns exactly those companies with the grounding sources |
| `GeminiService.FindCompanies` | services/geminiService.ts:81-88 | it throws exactly when the call throws, and always an Error; an Error is rethrown as it is; any other value is replaced by the fixed message; returns carry the grounding sources |
| `CsvExport.EscapeQuotes` | App.tsx:83-87 | `replace(/"/g, '""')`; it never shortens the text, and `CsvExport.UnescapeEscape` shows it loses nothing |
| `CsvExport.QuoteField` | App.tsx:83-87 | one field between double quotes; no contract of its own, characterised by `CsvExport.UnquoteQuoteField` and `CsvExport.ReadFieldQuoted` |
| `CsvExport.CsvRow` | App.tsx:81-89 | one company's line; no contract of its own, characterised by `CsvExport.ReadRecordWritten` |
| `CsvExport.QuoteAllUnquotes` | App.tsx:83-87 | every field written between quotes with doubled inner quotes unquotes back to the original field |
| `CsvExport.CsvLines` | App.tsx:78-90 | N results give N+1 lines: the header, then one line per company in order |
| `CsvExport.UnescapeEscape` | App.tsx:83-87 | un-doubling the quotes recovers the original text |
| `CsvExport.UnquoteQuoteField` | App.tsx:83-87 | removing the outer quotes and un-doubling recovers the field |
| `CsvExport.ReadQuotedEscaped` | App.tsx:83-87 | reading an escaped field stops at its closing quote and returns the original text |
| `CsvExport.ReadRecordWritten` | App.tsx:81-89 | a written line reads back as the five fields in column order |
| `CsvExport.ReadRecordsWritten` | App.tsx:79-92 | lines joined with line feeds read back as the list of their records |
| `CsvExport.CsvText` | App.tsx:92 | the lines joined with line feeds; no contract of its own, characterised by `CsvExport.CsvTextReadsBack` |
| `Seqs.JoinWith` | App.tsx:80-92 | `Array.prototype.join`; no contract of its own, characterised by `Seqs.JoinWithCons` and the read-back lemmas of `CsvExport` |
| `Seqs.JoinWithCons` | App.tsx:80-92 | joining a head and a non-empty tail puts exactly one separator between them |
| `CsvExport.CsvTextReadsBack` | App.tsx:75-92 | the export is the header, a line feed, and text that reads back as each company's fields in order |
| `CsvExport.ExportFilename` | App.tsx:97 | the download's file name; no contract of its own, characterised by `CsvExport.ExportFilenameShape` |
| `CsvExport.ExportFilenameShape` | App.tsx:97 | the file name is the niche with each whitespace run replaced by one `_` (so without whitespace), then `_`, the country and `_leads.csv`, each at its position |
| `SourcesView.IsCitable` | components/Sources.tsx:9 | `s.web?.uri && s.web?.title`: both present and non-empty; no contract of its own, used by `SourcesView.ValidSources` and `SourcesView.RenderedNothingIff` |
| `SourcesView.ValidSources` | components/Sources.tsx:9 | absent stays absent; the kept sources are citable and come from the input; every citable source is kept |
| `SourcesView.ValidSourcesAppend` | components/Sources.tsx:9 | the filter keeps the original order |
| `SourcesView.LinkOf` | components/Sources.tsx:26-31 | a citable source yields a non-empty link and title, so the non-null assertions hold |
| `SourcesView.Rendered` | components/Sources.tsx:11-32 | null sources render nothing; a rendered list is non-empty and shows the valid sources in order |
| `SourcesView.RenderedNothingIff` | components/Sources.tsx:11-13 | nothing is rendered exactly when the sources are null or none is citable |
| `SourcesView.RenderedLinksComplete` | components/Sources.tsx:20-32 | every rendered entry has a non-empty link and title |
| `App.PushHistory` | App.tsx:50 | the new history has min(50, n+1) entries: the new entry first, then the old entries in order |
| `App.PushHistoryEvictsOldest` | App.tsx:50 | the entries dropped by the cap are the oldest ones |
| `App.PushHistoryKeepsWellFormed` | App.tsx:42-50 | a history of at most 50 entries, each with results, stays so after a push |
| `App.FindFrom` | App.tsx:65 | finds the first entry with the id at or after a position, or reports that none has it |
| `App.FindById` | App.tsx:65 | `find` returns the first entry with the id, or nothing exactly when no entry has it |
| `App.ErrorMessage` | App.tsx:53-57 | the message shown for a thrown value; no contract of its own, characterised by `App.SearchErrorMessage` |
| `App.SearchErrorMessage` | App.tsx:52-57 | a failed call shows the service's own Error message or the query client's fixed one |
| `App.SearchController.constructor` | App.tsx:16-28 | the initial state: search view, stored history, no results, default criteria, not loading, no error, dialog closed |
| `App.SearchController.BeginSearch` | App.tsx:31-34 | starting a search sets loading, clears the error, the sources and the results, and captures the criteria |
| `App.SearchController.CompleteSearch` | App.tsx:36-51 | results and sources are stored, the count is recorded, the dialog opens even for zero results, loading ends, and the history gains an entry only when there are results |
| `App.SearchController.FailSearch` | App.tsx:52-60 | the error message is set, loading ends, and the history is unchanged |
| `App.SearchController.Search` | App.tsx:30-62 | a whole search: on success the state above; on failure an error, empty results and an unchanged history; the history stays well formed |
| `App.SearchController.SelectHistory` | App.tsx:64-73 | a known id restores the first such entry's criteria, results and sources, clears the error and shows the search page; an unknown id changes nothing |
| `App.SearchController.ShowView` | App.tsx:133-137 | the Search and History buttons (lines 133, 137) and the back button (line 187) set the view and nothing else |
| `App.SearchController.CloseDialog` | App.tsx:199 | closing the dialog clears its flag |
| `App.SearchController.EditCriteria` | components/SearchForm.tsx:31-34 | an edit of one form input sets that field of the criteria (the setter is passed at App.tsx:154) and the other two keep their values |
| `App.WithField` | components/SearchForm.tsx:33 | `{ ...prev, [name]: value }` for the three inputs; no contract of its own, characterised by `App.WithFieldSetsOnlyIt` and `App.WithFieldLastWins` |
| `App.WithFieldSetsOnlyIt` | components/SearchForm.tsx:33 | the edited field takes the new value and every other field keeps its old one |
| `App.WithFieldLastWins` | components/SearchForm.tsx:33 | of two edits of one field the last wins; edits of different fields commute |
| `App.SearchController.DownloadCsv` | App.tsx:75-97 | no file when there are no results; otherwise the CSV text of the results under the derived file name |

## Left out

- CsvExport.HeaderLine: the header line is written out as the column titles joined by commas; the model does not prove it equal to `Seqs.JoinWith(Headers, ",")`, because unfolding the join over the literal list is too costly for the solver.
- The AI service call, the prompt text, the client setup and the API-key check at module load (services/geminiService.ts:4-38): foreign calls and environment access. The call's outcome is a parameter.
- `JSON.parse` itself: it is a parameter returning an optional JSON value, not a JSON grammar.
- The SDK's `response.text` getter returning `undefined` (which would make `trim` throw a TypeError that is rethrown): the reply text is always a string here.
- GeminiService.CompanyRecords: the results hold the five company fields only; at run time the kept objects are passed on whole, with any extra members.
- Console logging in every branch, and the async scheduling of the handlers.
- Browser storage behind `useLocalStorage` (App.tsx:17): the stored history is a constructor argument. The model does not capture that storage turns the `Date` timestamps into strings.
- Reading the clock for ids, timestamps and the default year (App.tsx:23, 44-46): these are parameters; ids are not checked for uniqueness, as in the code.
- Blob, object-URL and link-click mechanics of the download (App.tsx:93-102): `DownloadCsv` returns the file name and content instead.
- All rendering: NavButton, the layout, ResultsTable, SearchForm (with its option lists and the date-dependent years), ResultsDialog, HistoryList.
