# DocSummarizer core, modelled in Dafny

DocSummarizer takes an uploaded PDF, such as a résumé, and extracts its text.
It asks an AI chat-completion service for a short summary. When there is no
API key, the call fails, or the reply is empty, it falls back to a
word-frequency summary ("Top 5 most frequent words: …"). It stores the result
and lets a web front end upload documents, browse the history and show one
insight.

This project models the core of that system:

* the backend handler `upload_resume`: the file-name check, the 400/400/500
  error paths, and the word count;
* the page loop of `extract_text_from_pdf`;
* the AI-or-fallback decision of `get_ai_summary_sync`;
* the complete word-frequency fallback `get_top_words`: the tokenising regular
  expression, the stop words, `Counter`, `most_common` and the report format;
* the React upload panel (`UploadSection`) as a state machine over `file`,
  `uploading`, `error` and `dragActive`;
* the history list (`HistorySection`): `fetchDocuments` and `truncateSummary`;
* the page (`Home`) and its navigation state.

Files:

* `wrappers.dfy`, `records.dfy`: `Option`/`Result`, the stored document
  `Insight`, and `HttpError`.
* `pystr.dfy`: the Python string built-ins the backend relies on. These are
  `lower`, `isspace`, `strip`, `split()`, `endswith` and `str(int)`.
* `tokenize.dfy`: `re.findall(r'\b[a-zA-Z]{3,}\b', …)`. It is written as a
  left-to-right scan with greedy matching and backtracking. It is proved equal
  to a regex-free reference tokenizer: maximal runs of word characters that
  are all letters and at least three long.
* `top_words.dfy`: `get_top_words`. This covers the stop-word filter, the
  insertion-ordered `Counter`, the stable sort of `most_common`, the report
  text, and a parser for the report that is proved to be its inverse in both
  directions: it reads every report back, and every text it accepts is a report.
* `pdf_text.dfy`: the page loop, as a method, and the 400 for an unreadable
  PDF.
* `summary.dfy`: `get_ai_summary_sync`.
* `upload_api.dfy`: `upload_resume`.
* `upload_section.dfy`, `history_section.dfy`, `home_page.dfy`: the three
  React components. Each is a class whose methods update the component's
  state variables in place. Each method is proved to agree with a pure `Step`
  function, and `Run` (a fold of `Step`) carries the multi-step lemmas.

Outside the model, or turned into inputs:

* The PDF library: the reader's verdict and each page's extraction result are
  inputs.
* The AI client: a function from the key and the request to the reply.
* The `SARVAM_API_KEY` lookup: an `Option<string>`.
* The database insert: its row id, or the message of what it raised.
* The clock: one timestamp string.
* The HTTP requests of the front end: the outcome of each request is an
  input.

## Model

| member | source | states |
|---|---|---|
| PyStr.Lower | backend/main.py:95 | `str.lower()` keeps the length, lowers each upper-case letter, leaves every other character alone, and leaves no upper-case letter |
| PyStr.LowerIdempotent | backend/main.py:166 | lower-casing twice is lower-casing once |
| PyStr.IsSpace | backend/main.py:87 | the characters `str.isspace()` accepts: the ASCII whitespace, the separators `\x1c`-`\x1f`, and the Unicode spaces and line and paragraph separators |
| PyStr.Strip | backend/main.py:87 | `str.strip()` leaves no leading or trailing whitespace, and is empty exactly when the text is all whitespace |
| PyStr.StripEmptyIffAllSpace | backend/main.py:174-175 | a text strips to `""` exactly when every character is whitespace |
| PyStr.StripIsSlice | backend/main.py:87 | the stripped text is a contiguous slice of the original |
| PyStr.StripCutsOnlySpaces | backend/main.py:87 | everything `strip()` removes, on either side, is whitespace |
| PyStr.SplitWs | backend/main.py:185 | `str.split()` yields non-empty fields that contain no whitespace |
| PyStr.SplitWsLosesOnlySpaces | backend/main.py:185 | concatenating the fields gives the text with its whitespace dropped |
| PyStr.SplitWsEmptyIffAllSpace | backend/main.py:195 | `split()` is empty exactly when the text is all whitespace |
| PyStr.SplitWsJoinRoundTrip | backend/main.py:185 | splitting the space-join of whitespace-free non-empty fields gives the fields back |
| PyStr.SplitWsOfWord | backend/main.py:185 | a non-empty run without whitespace splits into exactly itself |
| PyStr.SplitWsAtSpace | backend/main.py:185 | a whitespace character separates fields: the fields of `a + c + b` are those of `a` followed by those of `b`; with `SplitWsOfWord` this makes the fields the maximal non-whitespace runs |
| PyStr.EndsWith | backend/main.py:166 | `str.endswith(suffix)`: the suffix fits and the text's last characters are the suffix |
| PyStr.NatToString | backend/main.py:104 | `str(n)` is a numeral: non-empty, digits only, and starting with `0` exactly when `n` is 0 |
| PyStr.Numeral | backend/main.py:104 | the strings `str` produces for a natural number: digits only, and no leading zero except in `"0"` |
| PyStr.NatToStringRoundTrip | backend/main.py:104 | the decimal digits read back as the number |
| PyStr.NumeralUnique | backend/main.py:104 | every numeral is `str` of the number it reads as; with `NatToStringRoundTrip`, `str(n)` is the one numeral for `n` |
| Tokenize.MatchAt | backend/main.py:95 | a match of `\b[a-zA-Z]{3,}\b` is at least three characters long, all ASCII letters, and starts and ends on a word boundary |
| Tokenize.RunTokens | backend/main.py:95 | every reference token has at least three letters and only letters |
| Tokenize.MatchAtRunStart | backend/main.py:95 | at the start of a run of word characters, the pattern matches exactly when the whole run is three or more letters, and then the match is that run |
| Tokenize.FindAllSkipsRun | backend/main.py:95 | no match starts strictly inside a run of word characters |
| Tokenize.FindAll | backend/main.py:95 | every token `re.findall` returns has at least three characters, all ASCII letters |
| Tokenize.FindAllIsRunTokens | backend/main.py:95 | the regex tokens equal the reference tokens: maximal all-letter runs of three or more |
| Tokenize.Words | backend/main.py:95 | the tokens of `text.lower()` are the reference tokens, each at least three lower-case letters |
| TopWords.RemoveStopWords | backend/main.py:97-98 | no stop word survives, every survivor comes from the input, and every other word keeps its number of occurrences |
| TopWords.RemoveStopWordsKeepsOrder | backend/main.py:98 | the list comprehension keeps the survivors in input order: one survivor first occurs before another exactly when it does so in the input |
| TopWords.FilterKeepsPairOrder | backend/main.py:98 | the same for one pair of survivors, by induction over the input |
| TopWords.FilteredWords | backend/main.py:95-98 | `filtered_words` holds lower-case tokens of three or more letters and no stop word; every other word occurs as often as among the tokens |
| TopWords.IndexOf | backend/main.py:101 | the first position of a word, or the length when the word is absent |
| TopWords.BumpExisting | backend/main.py:101 | counting a word already in the `Counter` keeps it a correct counter: the same keys, that word's count plus one, and the order unchanged |
| TopWords.BumpNew | backend/main.py:101 | counting a new word appends it with count 1 and keeps the counter correct |
| TopWords.Tally | backend/main.py:101 | `Counter(words)` has every word once, with its number of occurrences, in order of first occurrence |
| TopWords.InsertRanked | backend/main.py:102 | inserting one entry into the ranked list keeps the same multiset of entries plus that entry |
| TopWords.SortByCount | backend/main.py:102 | the sort behind `most_common` is a permutation of the counter's entries |
| TopWords.InsertRankedKeepsRank | backend/main.py:102 | inserting an entry that occurred later keeps the list ranked by count, with ties in first-occurrence order |
| TopWords.SortByCountRanked | backend/main.py:102 | the stable sort of a first-occurrence-ordered counter is ranked by descending count, with ties in first-occurrence order |
| TopWords.MostCommon | backend/main.py:102 | `most_common(n)` has `min(n, number of distinct words)` entries |
| TopWords.ReorderedCounter | backend/main.py:101-102 | any reordering of the counter pairs each word of the text with its count, and covers every word |
| TopWords.PrefixLeavesOutLower | backend/main.py:102 | every word left out of a prefix of the ranking ranks below every word kept |
| TopWords.RankedPrefixIsMostCommon | backend/main.py:102 | the first `n` entries of a complete ranking meet every promise of `most_common(n)` |
| TopWords.MostCommonSpec | backend/main.py:101-102 | `Counter(ws).most_common(n)` meets them too: at most `n` entries, fewer only when every word is listed; correct counts; ranked; no left-out word above a listed one |
| TopWords.TopEntriesSpec | backend/main.py:92-102 | each reported entry is a lower-case token of three or more letters, not a stop word, with its count among the tokens of the text; the list is the `most_common(top_n)` of the filtered tokens |
| TopWords.TopEntries | backend/main.py:92-102 | at most `top_n` entries; none exactly when `top_n` is 0 or no token survives the stop-word filter |
| TopWords.TopEntriesTextOrder | backend/main.py:101-102 | the entries run by descending count; equal counts keep the order in which the words first occur in the text |
| TopWords.MostCommonEmpty | backend/main.py:101-102 | `most_common(n)` is empty exactly when `n == 0` or there are no words |
| TopWords.FormatEntry | backend/main.py:104 | `f"{word} ({count})"`: the word, `" ("`, a numeral (so, by `NumeralUnique`, exactly `str(count)`) that reads back as the count, and `")"` |
| TopWords.JoinEntries | backend/main.py:104 | `", ".join(...)` is empty exactly when there are no entries; `ParseJoinedEntries` and `ParseEntryListInverse` show the joined text and the entry list determine each other |
| TopWords.ReportHeader | backend/main.py:104 | the header is `"Top "`, a numeral (so, by `NumeralUnique`, exactly `str(top_n)`) that reads back as `top_n`, and `" most frequent words: "` |
| TopWords.GetTopWords | backend/main.py:92-104 | the fallback text starts with the header and is the header alone exactly when `top_n` is 0 or no token survives the stop-word filter; `GetTopWordsRoundTrip` and `GetTopWordsUnique` show it is the one text that reads back as `top_n` and `most_common(top_n)` |
| TopWords.Report | backend/main.py:104 | the report starts with `"Top {top_n} most frequent words: "` and is that header alone exactly when no entry is listed; `ReportParseIff` pins down its whole layout |
| TopWords.ParseFormattedEntry | backend/main.py:104 | a formatted `word (count)` reads back as the word and the count |
| TopWords.ParseJoinedEntries | backend/main.py:104 | a `", "`-joined list of entries reads back as the same list |
| TopWords.ReportRoundTrip | backend/main.py:104 | a report reads back as its `top_n` and its entries |
| TopWords.GetTopWordsRoundTrip | backend/main.py:92-104 | the fallback's text determines `top_n` and the reported entries: parsing it gives them back |
| TopWords.ParseCountInverse | backend/main.py:104 | a count the parser accepts is written as `str(count)` followed by `")"`: no sign, no leading zero |
| TopWords.ParseEntryInverse | backend/main.py:104 | an entry the parser accepts is a lower-case word followed by `f" ({count})"`, exactly as `FormatEntry` writes it |
| TopWords.ParseEntryListInverse | backend/main.py:104 | a list the parser accepts is non-empty, lists only lower-case words, and is the `", "`-join of the entries it reads |
| TopWords.ParseReportInverse | backend/main.py:104 | a text the parser accepts is exactly the report of the `top_n` and entries it reads |
| TopWords.ReportParseIff | backend/main.py:104 | for entries of lower-case words, the parser reads `top_n` and the entries from a text exactly when the text is their report |
| TopWords.GetTopWordsUnique | backend/main.py:92-104 | any text that reads back as `top_n` and the `most_common(top_n)` of the text's words is the fallback's text |
| PdfText.ExtractText | backend/main.py:77-87 | the loop's result is the stripped concatenation of each text page's text plus a newline; empty, `None` and failing pages add nothing |
| PdfText.ExtractTextFromPdf | backend/main.py:65-90 | a reader that raises gives a 400 with `"Error reading PDF: "` and its message; otherwise the result is the loop's text |
| PdfText.Piece | backend/main.py:80-85 | what one page adds to `text`: its text and a newline when the text is non-empty, nothing for an empty, `None` or failing page; `SilentPageSkipped` and `PageTextKept` state its effect |
| PdfText.JoinPages | backend/main.py:77-85 | the accumulator `text` after the loop; its properties are `JoinPagesShape`, `JoinPagesAppend`, `SilentPageSkipped`, `JoinPagesAllSpace` and `PageTextKept` |
| PdfText.JoinPagesShape | backend/main.py:77-85 | the accumulator starts with the first page's contribution and, unless empty, ends with a newline |
| PdfText.JoinPagesAppend | backend/main.py:77-85 | the accumulator over two runs of pages is the two accumulators concatenated |
| PdfText.SilentPageSkipped | backend/main.py:81-85 | a page with no text, or one whose extraction raised, leaves the result as if it were absent |
| PdfText.JoinPagesAllSpace | backend/main.py:77-85 | the accumulator is all whitespace exactly when every page is blank, `None` or failed |
| PdfText.ExtractedEmptyIffAllBlank | backend/main.py:77-87 | the extracted text is empty exactly when every page is blank, `None` or failed |
| PdfText.PageTextKept | backend/main.py:80-82 | each page's text appears unchanged right after what the earlier pages contributed |
| Summary.HasKey | backend/main.py:110 | `if not api_key`: a key counts only when it is set and non-empty |
| Summary.Request | backend/main.py:118-131 | the request carries the fixed system message, the user message `UserPrompt(text)` (the request line followed by `text[:3000]`), 200 tokens and temperature 0.3 |
| Summary.UserPrompt | backend/main.py:126 | the user message is the fixed request line followed by the first 3000 characters of the text |
| Summary.FirstContent | backend/main.py:134-137 | there is content exactly when the reply has a first choice that carries content, and then it is that content stripped |
| Summary.UsableReply | backend/main.py:134-138 | the reply is used when `FirstContent` finds a first choice whose stripped content is non-empty; `AiSummarySync` states that this decides the flag |
| Summary.AiSummarySync | backend/main.py:106-149 | the summary is AI-generated exactly when a non-empty key is set and the first choice's stripped content is non-empty, and then it is that content; otherwise it is `get_top_words(text)` |
| Summary.SummaryNeverEmpty | backend/main.py:137-149 | the summary is never empty, and an AI summary has no surrounding whitespace |
| Summary.NoKeyIgnoresClient | backend/main.py:110-111 | without a key the client is never consulted |
| Summary.OnlyPrefixSent | backend/main.py:126 | texts that agree on their first 3000 characters send the same request and get the same AI verdict and AI summary |
| Summary.LongTextTruncated | backend/main.py:126 | whatever follows the first 3000 characters never reaches the client |
| UploadApi.IsPdfName | backend/main.py:166 | the name passes exactly when it has at least four characters and the last four, lower-cased, are `.pdf` |
| UploadApi.PdfNameCaseInsensitive | backend/main.py:166-167 | a name passes exactly when its lower-cased form does |
| UploadApi.WordCount | backend/main.py:185 | `len(text.split())` is zero exactly when the text is all whitespace |
| UploadApi.WordCountAtSpace | backend/main.py:185 | the words on the two sides of a whitespace character add up |
| UploadApi.WordCountOfWord | backend/main.py:185 | a run without whitespace is one word |
| UploadApi.StoreDocument | backend/main.py:178-202 | with a text of at least one word: a failed insert gives a 500 naming its error; otherwise the response is the stored row with the chosen summary and the word count, which is at least one |
| UploadApi.UploadResume | backend/main.py:161-202 | a non-PDF name gives a 400 before anything else; an unreadable PDF gives a 400 with the reader's message; all-blank pages give a 400; a failed insert gives a 500; success happens exactly otherwise, and then the response is the stored document with the chosen summary and a word count of at least one |
| UploadPanel.Step | frontend/src/components/UploadSection.js:18-91 | the panel's state after each handler: its properties are the lemmas below |
| UploadPanel.FailureMessage | frontend/src/components/UploadSection.js:81-87 | the server's detail comes first, then the timeout message for `ECONNABORTED`, then the generic message; the result is never empty |
| UploadPanel.UploadEnabled | frontend/src/components/UploadSection.js:178 | the button's `disabled` attribute is off exactly when a file is held and no upload runs; `UploadRoundTrip` shows a start disables it and `Sent` that it sends the file |
| UploadPanel.Sent | frontend/src/components/UploadSection.js:54-67 | `handleUpload` sends exactly the selected file, and nothing when none is selected |
| UploadPanel.StepKeepsValid | frontend/src/components/UploadSection.js:28-52 | every handler keeps the held file a PDF |
| UploadPanel.RunKeepsValid | frontend/src/components/UploadSection.js:28-52 | so does any sequence of handlers |
| UploadPanel.DragHighlight | frontend/src/components/UploadSection.js:18-31 | `dragenter`/`dragover` light the drop zone; `dragleave` and `drop` put it out; a drag event changes nothing else |
| UploadPanel.ChooseFile | frontend/src/components/UploadSection.js:28-52 | a PDF becomes the file and clears the error; a non-PDF keeps the old file and asks for a PDF; an empty selection changes nothing; an empty drop asks for a PDF |
| UploadPanel.UploadWithoutFile | frontend/src/components/UploadSection.js:55-58 | with no file, nothing is sent and only the error changes |
| UploadPanel.UploadRoundTrip | frontend/src/components/UploadSection.js:54-91 | within one mounting of the panel: from an enabled button, the file is sent and the button is disabled while the request runs; afterwards `uploading` is false; success hands the data over once and clears the file; failure keeps the file and shows the failure message |
| UploadPanel.RunHandsOverDeliveries | frontend/src/components/UploadSection.js:74 | the parent receives each successful upload's data once, in order, and nothing else |
| UploadPanel.UploadSection.constructor | frontend/src/components/UploadSection.js:12-15 | the initial state: no file, not uploading, no error, no highlight |
| UploadPanel.UploadSection.HandleDrag | frontend/src/components/UploadSection.js:18-26 | agrees with `Step` on a drag event |
| UploadPanel.UploadSection.HandleDrop | frontend/src/components/UploadSection.js:28-40 | agrees with `Step` on a drop |
| UploadPanel.UploadSection.HandleFileSelect | frontend/src/components/UploadSection.js:42-52 | agrees with `Step` on a selection |
| UploadPanel.UploadSection.RemoveFile | frontend/src/components/UploadSection.js:151-157 | agrees with `Step` on Remove: the file is cleared |
| UploadPanel.UploadSection.BeginUpload | frontend/src/components/UploadSection.js:54-61 | returns the file it sends and agrees with `Step` on the start of an upload |
| UploadPanel.UploadSection.FinishUpload | frontend/src/components/UploadSection.js:74-90 | agrees with `Step` on the request's outcome |
| UploadPanel.UploadSection.HandleUpload | frontend/src/components/UploadSection.js:54-91 | a whole `handleUpload`: sends the selected file, if any; `uploading` is false afterwards; the state is the two steps' result |
| History.DocumentsOf | frontend/src/components/HistorySection.js:18 | the response's `documents` list, or the empty list when the response carries none; `FetchOnce` states that a success shows it |
| History.Step | frontend/src/components/HistorySection.js:14-26 | the list's state after the start and the outcome of a fetch: its properties are the lemmas below |
| History.TruncateSummary | frontend/src/components/HistorySection.js:43-46 | a summary that fits is kept; a longer one keeps its first `maxLength` characters, followed by `"..."` |
| History.TruncateBounds | frontend/src/components/HistorySection.js:43-46 | a preview is at most `maxLength + 3` characters long and starts like the summary |
| History.TruncateIdempotent | frontend/src/components/HistorySection.js:43-46 | truncating a preview again changes nothing |
| History.FetchOnce | frontend/src/components/HistorySection.js:14-26 | after a fetch `loading` is false; a success shows the response's list, or `[]`, and clears the error; a failure keeps the list and sets the error message |
| History.RunShowsLastFetched | frontend/src/components/HistorySection.js:14-26 | after any series of fetches the list is what the last successful one delivered |
| History.Render | frontend/src/components/HistorySection.js:48-156 | loading is shown exactly while loading; the error, with its message, exactly when not loading and an error is set; otherwise each document's preview is its summary truncated to 150 characters |
| History.RefreshOfferedIffListed | frontend/src/components/HistorySection.js:145-154 | Refresh History is offered exactly when the list is shown and is non-empty |
| History.FailureShowsError | frontend/src/components/HistorySection.js:20-24 | a failed fetch shows the error view with its message, however full the list was |
| History.HistorySection.constructor | frontend/src/components/HistorySection.js:10-12 | the initial state: no documents, loading, no error |
| History.HistorySection.BeginFetch | frontend/src/components/HistorySection.js:16 | agrees with `Step` on the start of a fetch |
| History.HistorySection.SettleFetch | frontend/src/components/HistorySection.js:17-25 | agrees with `Step` on the fetch's outcome |
| History.HistorySection.FetchDocuments | frontend/src/components/HistorySection.js:14-26 | a whole `fetchDocuments` equals the two steps, and `loading` is false afterwards |
| Home.Step | frontend/src/app/page.js:14-65 | the page's state after each callback and tab click: its properties are the lemmas below |
| Home.InsightButtonShown | frontend/src/app/page.js:63-75 | the Current Insight button is rendered exactly while there is an insight; `OnePanelShown` and `RunKeepsCoherent` relate it to the panels |
| Home.UploadShown | frontend/src/app/page.js:81-83 | the upload panel is mounted exactly on the upload tab; `OnePanelShown` |
| Home.HistoryShown | frontend/src/app/page.js:85-90 | the history panel is mounted exactly on the history tab; `OnePanelShown` |
| Home.InsightShown | frontend/src/app/page.js:92-94 | the insight panel shows on the insight tab and only with an insight; `OnePanelShown` and `HandlersEffect` |
| Home.OnePanelShown | frontend/src/app/page.js:81-95 | at most one content panel is shown; the insight panel needs an insight |
| Home.HandlersEffect | frontend/src/app/page.js:14-23 | both callbacks show their insight on the insight tab; only an upload raises the counter, by one; a tab button changes only the tab |
| Home.RunKeepsCoherent | frontend/src/app/page.js:63-93 | while the insight button can be clicked only when it is rendered, the insight tab is active only with an insight, so exactly one panel is shown |
| Home.RunCountsUploads | frontend/src/app/page.js:16 | the refresh counter equals its start value plus the number of successful uploads |
| Home.RunKeepsLastInsight | frontend/src/app/page.js:15-21 | the insight shown is the one from the latest callback; once set, it is never cleared |
| Home.HomePage.constructor | frontend/src/app/page.js:10-12 | the initial state: the upload tab, no insight, counter 0 |
| Home.HomePage.HandleUploadSuccess | frontend/src/app/page.js:14-18 | agrees with `Step` on an upload success |
| Home.HomePage.HandleViewInsight | frontend/src/app/page.js:20-23 | agrees with `Step` on a view request |
| Home.HomePage.SelectTab | frontend/src/app/page.js:42-65 | agrees with `Step` on a tab click |

## Left out

- The PDF library's parsing: the reader's verdict (its pages, or the message of what it raised) and each page's `extract_text()` result are inputs. A reader that fails partway through iterating its pages ends like an unreadable PDF and is modelled as one.
- The AI client, the network and the `SarvamAI` response objects: the client is a function from the key and the request to a reply. A reply is a raised error, or a list of choices each with or without content. A missing `message` attribute, a missing `content` attribute and `None` content all lead to the fallback, so all three are "no content".
- The temperature 0.3 is carried as 3 tenths, because the model has no floating point.
- The `SARVAM_API_KEY` lookup is a parameter, not an environment read.
- The database: `aiosqlite`, the `INSERT`, `commit` and `lastrowid` are one input, either the new row id or the message of what was raised. What is stored in the row is not modelled; only the response is.
- `datetime.now()`: it is one timestamp parameter. The source reads the clock twice, once for the stored row and once for the response, so the two can differ; the model does not capture that.
- The `ThreadPoolExecutor` wrapper `get_ai_summary`, FastAPI routing, CORS, the startup hook, `init_db`, and the `/insights` and other read endpoints are not part of this model.
- The request body is not modelled: the bytes `await file.read()` yields are represented by the reader outcome. A missing file name (`None`) is not modelled; the name is a string.
- UploadApi.UploadResume: a failing `await file.read()` is not modelled. In the handler it raises inside the `try` and becomes a 500 `"Error processing file: …"`; in the model a 500 comes only from a failed insert.
- Lowering and `\w`: `Lower` lowers only ASCII letters, and word characters are the ASCII letters, the digits and `_`. Python's `str.lower()` and `\w` are Unicode-aware, so non-ASCII letters are not treated the way Python treats them. `isspace` uses Python's full whitespace set.
- TopWords.GetTopWords: `top_n` is a `nat`. The only caller passes 5. A negative `top_n` is not modelled.
- A non-string `detail` in an error response is not modelled: `detail` is a string or absent.
- The front end's HTTP calls (axios, the 60-second timeout, the form data): each request's outcome is an input.
- JavaScript string lengths count UTF-16 code units. `History.TruncateSummary` counts characters.
- React rendering: state updates are applied immediately and in order; batching and stale closures are not modelled. The JSX markup, icons, `formatDate`, the MB size display and the `InsightDisplay` component are not part of this model.
- `fileInputRef`: resetting the hidden input's value after a success or a removal has no effect on the modelled state and is left out.
- `UploadSection`'s lifetime: the page mounts it only while the upload tab is active, so any tab switch, including the switch to the insight tab after a success, discards its file, error and `uploading` flag. A panel mounted again while an earlier request is still pending starts with no file and `uploading` false, so once a file is chosen a second upload can start beside the first; the first request's success still reaches the page's `handleUploadSuccess`. The model follows one mounting of the panel; `UploadRoundTrip`'s "disabled while the request runs" holds only within it.
- `HistorySection`'s lifetime: the page unmounts it on every tab switch. Remounting restarts it from its initial state, and the `useEffect` then fetches again (also when `refreshTrigger` changes). The model gives the component's state and its fetch, not its mounting.
- Logging is not modelled: the `print` calls at main.py:84, 89, 139, 143 and 147-148 and the `console.error` calls at UploadSection.js:80 and HistorySection.js:21 only write to the console and change no state or result.
- The upload handlers receive the file list of the event. Only the first file matters, as in the source.
