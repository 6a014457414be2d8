# Legal-document assistant: a Dafny model of its core

The system is a web assistant for legal documents. A user drops a PDF or
Word file into the browser, uploads it, waits while the server indexes it,
and then asks questions about it. This project models the parts of that
system whose behaviour is pure logic, and proves properties of them.

- **FileValidation** (`file_validation.dfy`) is the check a dropped file
  must pass: size limits, accepted MIME types and extensions, and the
  warnings. It also covers the icon and the processing-time estimate.
- **App** (`app.dfy`) is the browser session as a reducer. The session's
  state variables form one record, and every user action and every network
  reply is an event. A step gives the next record and the request it sends,
  if any. The module also holds the poll effect's private counter and
  back-off delay.
- **Backend** (`backend.dfy`) covers the server:
  - the job registry;
  - the upload endpoint, with Python's `os.path.splitext`;
  - the background task that settles a job;
  - the status endpoint;
  - the question endpoint with its guards.
- **ProcessingStages** and **ProgressBar** cover the stage list, the
  status each stage is drawn with for a stage text, and how the bars are
  clamped. The stage search is modelled as written, where the `findIndex`
  callback tests the stage being drawn, and beside it as evidently
  intended, where it finds the first stage the text names.
- **ChatContainer** covers the case-insensitive search, the summary line,
  what the panel lists, and the two scroll buttons.
- **ChatMessage** covers how an entry is drawn. This includes
  `formatResponse`, whose four global regular-expression replacements are
  modelled with JavaScript's matching rules. The lazy `.*?` does not cross
  a line terminator, the leftmost match wins, and scanning resumes after
  each match.
- **Text** holds the string helpers the others share:
  - JavaScript's `trim` and its white-space set;
  - `includes`;
  - `split(c).pop()` and `split(c)[0]`;
  - `rfind`;
  - ASCII lower-casing.

App.js:206 calls the polling a back-off. The formula at App.js:261,
`min(3000 + pollCount*1000, 10000)`, would grow the delay by 1 s per poll,
from 3 s to 10 s. As written it always sets a 3 s interval, because
`pollCount` is still 0 when `setInterval` runs. The model keeps that (see
Findings).

## Model

| member | source | states |
|---|---|---|
| Text.Lower | frontend/src/utils/fileValidation.js:21 | same length; every character is its lower-cased counterpart |
| Text.LowerIdempotent | frontend/src/components/ProcessingStages.js:19-20 | lower-casing twice is lower-casing once |
| Text.Trim | frontend/src/App.js:138-140 | the result is empty exactly when the input is all white space, and otherwise starts and ends with a non-space |
| Text.TrimIsInfix | frontend/src/App.js:140 | what `trim` keeps is one infix of the input; only white space is removed on either side |
| Text.TrimUnpadded | frontend/src/App.js:140 | a string that neither starts nor ends with white space trims to itself |
| Text.Includes | frontend/src/components/ChatContainer.js:38-40 | true exactly when the needle occurs at some index of the haystack |
| Text.LastPiece | frontend/src/utils/fileValidation.js:21 | a separator-free suffix, preceded by the separator whenever it is shorter than the input |
| Text.LastPieceAfterSep | frontend/src/utils/fileValidation.js:21 | for stem + sep + a sep-free suffix, the last piece is that suffix, whatever the stem |
| Text.FirstPiece | frontend/src/components/ProcessingStages.js:20 | a separator-free prefix, followed by the separator whenever it is shorter than the input |
| Text.LastIndexOf | backend/main.py:103 | the index of the last occurrence, with no occurrence after it, or -1 |
| Text.DigitRun | frontend/src/components/ChatMessage.js:24 | the greedy run of leading digits: all digits, and the next character (if any) is not one |
| FileValidation.ValidateFile | frontend/src/utils/fileValidation.js:3-53 | each error and warning is present exactly when its condition holds; errors come in the order size, type, empty and warnings in the order name, size; valid exactly when there are no errors |
| FileValidation.ErrorsReported | frontend/src/utils/fileValidation.js:7-40 | too-large iff size > 50 MiB, empty iff size 0, unsupported type iff neither the MIME type nor the extension is allowed |
| FileValidation.ErrorsOrdered | frontend/src/utils/fileValidation.js:7-40 | errors are strictly ordered by check order, and the type error names the computed extension |
| FileValidation.Warnings | frontend/src/utils/fileValidation.js:27-35 | long-name iff more than 100 characters; large-file iff 10 MiB < size <= 50 MiB; in check order |
| FileValidation.ValidExactly | frontend/src/utils/fileValidation.js:42-43 | valid iff 0 < size <= 50 MiB and the type is accepted; warnings never matter |
| FileValidation.Extension | frontend/src/utils/fileValidation.js:21 | a dot then the lower-cased last piece; a dotless name gives dot + the whole lower-cased name |
| FileValidation.DotlessNameIsItsOwnExtension | frontend/src/utils/fileValidation.js:20-25 | a dotless name `pdf`, `doc` or `docx` (any case) passes the type check whatever its MIME type |
| FileValidation.OnlyLastPieceCounts | frontend/src/utils/fileValidation.js:20-25 | only the text after the last dot decides the extension; e.g. `report.pdf.exe` passes only on its MIME type |
| FileValidation.FileIcon | frontend/src/utils/fileValidation.js:55-66 | the memo icon exactly for a `.doc`/`.docx` extension, the page icon otherwise |
| FileValidation.ProcessingEstimate | frontend/src/utils/fileValidation.js:78-89 | the bucket boundaries are 1, 5 and 20 MiB, each boundary belonging to the bucket above |
| FileValidation.EstimateMonotone | frontend/src/utils/fileValidation.js:78-89 | a larger file never gets a shorter estimate |
| App.OnDrop | frontend/src/App.js:38-76 | a rejected or empty drop changes nothing; an invalid file changes only the stored validation; a valid one resets exactly the fields lines 65-73 reset |
| App.RemoveFile | frontend/src/App.js:438-441 | file and validation cleared, nothing else touched |
| App.HandleUpload | frontend/src/App.js:89-100 | guarded by a selected valid file; enters uploading at 0% with the banner cleared and sends the file |
| App.UploadPercent | frontend/src/App.js:105-108 | the integer nearest to loaded*100/total, halves rounding up, and within 0..100 when loaded <= total |
| App.UploadFailureStage | frontend/src/App.js:122-131 | the timeout text exactly on a timeout, the server-error text exactly on a non-timeout status >= 500; otherwise `Upload failed: ` followed by the detail, else the message, else `Upload failed` |
| App.OnUploadProgress | frontend/src/App.js:105-108 | only the upload progress moves, to the rounded percentage |
| App.UploadAnswered | frontend/src/App.js:110-134 | success binds the job at 20% processing; failure is classified timeout, then >= 500 (which raises the banner), then the detail |
| App.HandleAsk | frontend/src/App.js:137-165 | blank question, no job or a pending answer change nothing; otherwise the trimmed question and a placeholder are appended and the trimmed question is sent |
| App.AskErrorText | frontend/src/App.js:179-187 | each failure has its own text: the timeout text exactly on a timeout, the server text exactly on a non-timeout status >= 500, the apology exactly when there is no detail either, and otherwise `Error: ` followed by the detail |
| App.AskAnswered | frontend/src/App.js:166-203 | only the last entry is replaced, by a settled assistant entry with the answer or the classified error text; pending flag cleared |
| App.PollTick | frontend/src/App.js:211-216 | a status query for the bound job exactly while a job is bound and processing; the session is unchanged |
| App.PollAnswered | frontend/src/App.js:217-257 | processing moves progress by 10 toward 80, lands exactly on 80 from 70 or more (a ready session at 100 included) and shows the stage the advanced counter points at; complete gives ready at 100 and failed gives failed at 0, both keeping the retry count and the banner; an error counts a retry, and the fourth counted error fails with the banner |
| App.StartNewSession | frontend/src/App.js:267-280 | back to the initial session except for the two in-flight flags |
| App.ClearConversation | frontend/src/App.js:282-285 | conversation emptied, nothing else touched |
| App.EditQuestion | frontend/src/App.js:543 | only the question changes |
| App.RetryOperation | frontend/src/App.js:318-323 | only a failed session holding a file retries; the counter is reset and the upload's own guard decides whether a request goes out |
| App.ExportConversation | frontend/src/App.js:287-316 | nothing for an empty conversation; otherwise one entry per message, in order, with role and content |
| App.ExportEntries | frontend/src/App.js:296-300 | one entry per message with the same role and content |
| App.DocumentName | frontend/src/App.js:294 | never empty; the selected file's name whenever it has one, otherwise `Unknown Document` |
| App.InitialInv | frontend/src/App.js:21-33 | the initial session satisfies the invariant |
| App.Step | frontend/src/App.js:38-323 | only upload, ask, retry and the poll timer send requests; an upload carries the selected file, an ask the bound job, and a status query the bound job with the session unchanged |
| App.StepPreservesInv | frontend/src/App.js:38-323 | every event keeps both progress figures in 0..100 and the placeholder last and only while an answer is pending |
| App.ReplayPreservesInv | frontend/src/App.js:38-323 | every event sequence keeps the invariant |
| App.OnlyValidDropSelects | frontend/src/App.js:51-65 | a file becomes selected only through a drop without rejections whose first file validates |
| App.ReadyOnlyOnComplete | frontend/src/App.js:233-238 | a session becomes ready only on a 'complete' poll reply |
| App.FailedOnlyOn | frontend/src/App.js:239-256 | a session fails only on a failed upload, a 'failed' reply, or a poll error after three counted retries |
| App.AskSendsTrimmedQuestion | frontend/src/App.js:137-165 | a question is sent only on Ask for a bound job with no pending answer, and it is the trimmed, non-blank question |
| App.SecondAskIsIgnored | frontend/src/App.js:138 | ask, type, ask again while pending: one request, one question, one placeholder |
| App.TypingWhilePendingIsQuiet | frontend/src/App.js:138 | while an answer is pending, typing and asking send nothing and keep the conversation |
| App.PollingUntilComplete | frontend/src/App.js:207-265 | processing, processing, complete: three status queries, then ready at 100%, and a later tick sends nothing |
| App.ProcessingThenComplete | frontend/src/App.js:220-238 | a 'processing' round then a 'complete' round: two status queries, ready at 100% under the same job, chat untouched |
| App.PollRound | frontend/src/App.js:211-257 | a tick then a reply is one status query for the bound job followed by the reply's effect |
| App.ProcessingThen | frontend/src/App.js:220-232 | a 'processing' round keeps polling armed for the same job, whatever follows |
| App.CompleteThenTick | frontend/src/App.js:233-238 | a 'complete' round gives ready at 100%, after which a tick sends nothing |
| App.FourthPollErrorFails | frontend/src/App.js:246-257 | three poll errors are only counted; the fourth fails the session with the banner and stops polling |
| App.LateProcessingReplyAfterReady | frontend/src/App.js:220-222 | a 'processing' reply reaching a ready session pulls its progress back from 100 to 80 |
| App.GuardedPollAnswered | frontend/src/App.js:211-257 | replies reach the session only while polling is armed; otherwise the session is unchanged |
| App.GuardedPollKeepsReady | frontend/src/App.js:211-245 | with replies applied only while polling is armed, a ready session stays ready at 100 |
| App.UploadAndReply | frontend/src/App.js:89-116 | upload then success: one upload request, processing at 20% under the returned id, chat untouched |
| App.UploadPhase | frontend/src/App.js:38-116 | a valid drop into a fresh session, upload, success: one request, processing at 20%, empty conversation |
| App.AskAndAnswer | frontend/src/App.js:137-175 | ask then answer: one request, and the question and answer are appended |
| App.AskedThenAnswered | frontend/src/App.js:137-175 | an answered question leaves the trimmed question then the answer appended, nothing pending, the job kept |
| App.AskPhase | frontend/src/App.js:137-175 | typing an unpadded question, asking and getting an answer leaves exactly that exchange |
| App.SmallPdfIsValid | frontend/src/utils/fileValidation.js:3-53 | a 2 MiB PDF is valid with no warnings |
| App.HappyPath | frontend/src/App.js:38-265 | upload, three polls and one question: five requests in order, ready, and exactly the exchange |
| App.PollDelay | frontend/src/App.js:261 | between 3 and 10 s, growing 1 s per counted poll up to seven |
| App.SetInterval | frontend/src/App.js:261 | the timer's delay is fixed from the counter as it stands when the interval is armed |
| App.ReplyReaches | frontend/src/App.js:212-218 | a successful reply advances the counter by one, a failed one does not; the armed delay is unchanged |
| App.BackoffNeverGrows | frontend/src/App.js:207-261 | whatever replies arrive, the armed delay is 3 s, while the counter counts the successes |
| App.IntendedDelay | frontend/src/App.js:261 | the delay recomputed from the current counter stays within 3..10 s |
| App.IntendedBackoffGrows | frontend/src/App.js:261 | recomputed, the delay starts at 3 s and grows 1 s per success up to 10 s; failures leave it as it was |
| App.BackoffGrows | frontend/src/App.js:261 | the delay is monotone in the counter, linear up to seven polls, then 10 s |
| Backend.SplitExt | backend/main.py:103 | root + extension is the name; the extension is empty or a dot with no further dot or slash; non-empty iff the last dot of the last component has a non-dot before it |
| Backend.SplitExtOfName | backend/main.py:103 | stem + "." + dot-free suffix splits exactly at that dot when the stem has a non-dot |
| Backend.HiddenFileHasNoExtension | backend/main.py:103 | a leading dot does not start an extension, and nor does a name of only dots |
| Backend.UploadDocument | backend/main.py:97-119 | an empty name is a 400 with the registry unchanged; otherwise the fresh id is registered as processing and the file stored as id + extension |
| Backend.StoredNameKeepsExtension | backend/main.py:102-104 | the stored name has the uploaded name's extension |
| Backend.BackgroundFinished | backend/main.py:80-89 | the job becomes complete or failed, and every other job is kept |
| Backend.GetStatus | backend/main.py:121-127 | 404 exactly for an unknown id; otherwise the stored status string |
| Backend.AskQuestion | backend/main.py:129-157 | empty question refused first; then a 400 unless complete; then a 500 with the engine's message; otherwise the answer with the question |
| Backend.AskIgnoresEngineUntilComplete | backend/main.py:131-133 | for an incomplete document the engine's outcome is irrelevant and the answer is a refusal |
| Backend.JobsAreNeverForgotten | backend/main.py:85-115 | once known, a job answers the status endpoint after any further uploads and settlements |
| Backend.UploadIndexAsk | backend/main.py:97-157 | upload gives processing and a refusal; after indexing, complete and the engine's answer |
| ProcessingStages.StageMatches | frontend/src/components/ProcessingStages.js:19-20 | the lower-cased stage text contains the stage's id or the lower-cased first word of its caption at some index |
| ProcessingStages.StageMatchIgnoresCase | frontend/src/components/ProcessingStages.js:19-20 | matching ignores the letter case of the stage text |
| ProcessingStages.FindIgnoringItem | frontend/src/components/ProcessingStages.js:18-21 | `findIndex` with a callback that ignores its argument: 0 exactly when the test holds on a non-empty list, else -1 |
| ProcessingStages.GetStageStatus | frontend/src/components/ProcessingStages.js:14-26 | as written: the exact words failed/ready/complete override; otherwise the drawn stage is active exactly when it is the first stage and matches, and pending in every other case |
| ProcessingStages.OneActiveStage | frontend/src/components/ProcessingStages.js:14-26 | as written, at most one stage is active and it is the upload stage; every other stage is then pending |
| ProcessingStages.FindStage | frontend/src/components/ProcessingStages.js:18-21 | the intended search: the first matching stage, with no match before it, or -1 with no match at all |
| ProcessingStages.IntendedStageStatus | frontend/src/components/ProcessingStages.js:14-26 | as intended: the same overrides; otherwise active at the first match, completed before it, pending after it |
| ProcessingStages.IntendedOneActiveStage | frontend/src/components/ProcessingStages.js:14-26 | as intended, at most one stage is active; stages before it are completed and those after it pending |
| ProcessingStages.UploadedStageLightsUpload | frontend/src/components/ProcessingStages.js:14-26 | the text set after a successful upload lights the upload stage, as written and as intended |
| ProcessingStages.NoMatchAllPending | frontend/src/components/ProcessingStages.js:23-25 | a text naming no stage leaves every stage pending, as written and as intended |
| ProcessingStages.LaterStageNeverLit | frontend/src/components/ProcessingStages.js:18-25 | when the text first names a later stage, the intended view lights it and completes the first stage, while the written view shows all five pending |
| ProcessingStages.ParsingTextLightsNothing | frontend/src/components/ProcessingStages.js:18-25 | the first of the stage texts a 'processing' poll reply cycles through, "Parsing document structure...", first names the parse stage; the intended view lights it, while as written all five stages are pending |
| ProcessingStages.BarWidth | frontend/src/components/ProcessingStages.js:76 | `min(progress, 100)`: at most 100, at most the progress, and equal to one of them |
| ProcessingStages.ShowsStageBar | frontend/src/components/ProcessingStages.js:72-76 | wherever the stage bar is drawn, its width is neither empty nor above 100 |
| ProcessingStages.StageBarIsClamped | frontend/src/components/ProcessingStages.js:72-76 | where the stage bar is drawn, its width is the upload bar's clamp and lies in 1..100 |
| ProgressBar.Width | frontend/src/components/ProgressBar.js:10 | within 0..100, the identity there, 0 below and 100 above |
| ProgressBar.WidthIdempotentAndMonotone | frontend/src/components/ProgressBar.js:10 | clamping twice is clamping once; more progress never draws a shorter bar |
| ChatContainer.Matching | frontend/src/components/ChatContainer.js:38-40 | a message is in the result exactly when it is in the conversation and mentions the term; the result is empty exactly when no message mentions it |
| ChatContainer.MatchingSingle | frontend/src/components/ChatContainer.js:38-40 | one message is kept exactly when it mentions the term |
| ChatContainer.MatchingAppend | frontend/src/components/ChatContainer.js:38-40 | filtering distributes over concatenation, so with `MatchingSingle` it is the order-keeping filter |
| ChatContainer.SearchResults | frontend/src/components/ChatContainer.js:36-45 | no results for a term that trims to nothing, else the filter |
| ChatContainer.FilteredConversation | frontend/src/components/ChatContainer.js:55 | everything for a blank trimmed term, else the results |
| ChatContainer.SearchSummary | frontend/src/components/ChatContainer.js:106-113 | hidden exactly for the empty term; otherwise the result count and plural flag, or nothing found |
| ChatContainer.EmptyPanel | frontend/src/components/ChatContainer.js:123-142 | a placeholder exactly when nothing is listed; the waiting text exactly for an empty term and an empty conversation; the no-match text exactly for a non-empty term when either it is blank and the conversation empty, or no message mentions it |
| ChatContainer.BlankTermListsAllButFindsNothing | frontend/src/components/ChatContainer.js:106-113 | a white-space term lists every message, yet its summary says nothing was found |
| ChatContainer.TrimmedSearchSummary | frontend/src/components/ChatContainer.js:106-113 | hidden exactly for a blank trimmed term; otherwise it describes exactly what the panel lists |
| ChatContainer.TrimmedSummaryFixesBlankTerm | frontend/src/components/ChatContainer.js:106-113 | for a white-space term the trimmed summary is hidden where the written one reports nothing found; otherwise they agree |
| ChatContainer.SearchCountsMentions | frontend/src/components/ChatContainer.js:37-40 | a non-blank search lists as many messages as mention the term |
| ChatContainer.MatchingCount | frontend/src/components/ChatContainer.js:37-40 | the filter keeps one entry per mentioning message |
| ChatContainer.ScrollToBottomShown | frontend/src/components/ChatContainer.js:22-24 | shown exactly when the view's bottom edge is at least 100 px above the end of the content |
| ChatContainer.ScrollToTopShown | frontend/src/components/ChatContainer.js:157 | shown from the sixth message on, whatever the search lists |
| ChatContainer.ScrollButtonsMonotone | frontend/src/components/ChatContainer.js:22-24 | scrolling further up never hides the scroll-to-bottom button, and a growing conversation never hides scroll-to-top |
| ChatMessage.FindClose | frontend/src/components/ChatMessage.js:21-23 | the lazy match: the first closing delimiter on the line, with none before it; none when the line has none |
| ChatMessage.ReplaceDelimited | frontend/src/components/ChatMessage.js:21-23 | a text without the delimiter's character is unchanged |
| ChatMessage.FindCloseAfterPlain | frontend/src/components/ChatMessage.js:21-23 | after plain text, the first delimiter closes the span |
| ChatMessage.DelimitedRewrite | frontend/src/components/ChatMessage.js:21-23 | a delimited plain span is rewritten to open + text + close and the scan resumes after it |
| ChatMessage.TokenLen | frontend/src/components/ChatMessage.js:24 | a positive length marks a prefix that is a number token |
| ChatMessage.TokenLenIsUnique | frontend/src/components/ChatMessage.js:24 | every prefix that is a number token is the one found |
| ChatMessage.Numbering | frontend/src/components/ChatMessage.js:24 | the numbering pass never shortens the text |
| ChatMessage.NumberingFixedPoints | frontend/src/components/ChatMessage.js:24 | the numbering pass leaves a text unchanged exactly when it holds no number token |
| ChatMessage.NumberingKeepsPlain | frontend/src/components/ChatMessage.js:24 | numbering inserts no delimiter and no line terminator |
| ChatMessage.NumberingAppendChar | frontend/src/components/ChatMessage.js:24 | a trailing character that ends no token is kept, and the rest is numbered as before |
| ChatMessage.NumberingPrependChar | frontend/src/components/ChatMessage.js:24 | a leading character that starts no token is kept, and the rest is numbered as before |
| ChatMessage.NumberingBetween | frontend/src/components/ChatMessage.js:24 | such a character on both sides is kept, with the inside numbered as before |
| ChatMessage.NumberingInBackticks | frontend/src/components/ChatMessage.js:23-24 | the backticks of a code span are kept by numbering; only the inside is numbered |
| ChatMessage.CodePassOnPlain | frontend/src/components/ChatMessage.js:21-23 | the delimiter passes turn a backtick span around plain text into one code element |
| ChatMessage.CodeTagHasToken | frontend/src/components/ChatMessage.js:23-24 | the inserted code tag contains a number token (`0.` in `py-0.5`) |
| ChatMessage.CodeClassIsRewritten | frontend/src/components/ChatMessage.js:18-25 | as written, no code span comes out as the plain code element |
| ChatMessage.CodeSpanKeepsClass | frontend/src/components/ChatMessage.js:18-25 | with numbering first, a code span keeps its tag and only its text is numbered |
| ChatMessage.BoldBeforeItalic | frontend/src/components/ChatMessage.js:21-22 | `**x**` becomes one strong element, not nested emphasis, before numbering |
| ChatMessage.FormatResponse | frontend/src/components/ChatMessage.js:18-25 | bold, italic, code, then numbering: the result is never shorter than the text, and a text with no `*`, no backtick and no number token is shown as it is |
| ChatMessage.Render | frontend/src/components/ChatMessage.js:47-62 | spinner exactly while pending; user text verbatim; assistant text formatted in the source's pass order; copy button only on assistant entries |
| ChatMessage.PlainAnswerUnchanged | frontend/src/components/ChatMessage.js:18-25 | text without delimiters or number tokens is shown unchanged, in either pass order |
| ChatMessage.AnsweredEntryRenders | frontend/src/components/ChatMessage.js:47-62 | the placeholder shows the spinner; an answered entry shows the formatted answer with the copy button |

## Left out

- Toasts, console logging, timers, clipboard and the DOM are left out. So are `Date.now()` timestamps, including the export's file name and ISO dates.
- The error `detail` is modelled as text. A server that sends a non-string detail (a list or an object) would make the source print `[object Object]` or the list's items in the `Upload failed: …` and `Error: …` texts; that formatting is not modelled.
- Poll replies read the session's current `processingProgress` (App.js:221) and `retryCount` (App.js:250). In the source they read the values captured when the effect last ran. The effect re-runs whenever either value changes, so the two differ only for a reply that a superseded run is still awaiting. That race is not modelled.
- The closure's `pollCount` reaches the reducer as an event parameter. The counter's own dynamics are modelled separately by `PollClosure`.
- Late replies are applied to whatever session is current. An upload, ask or poll reply that arrives after a new session was started is accepted as the source accepts it. Nothing tags requests.
- `toLowerCase` is modelled for ASCII letters only. Other scripts' case mappings are not modelled.
- String length is sequence length. JavaScript counts UTF-16 code units, so characters outside the Basic Multilingual Plane count once here and twice there (the 100-character name warning).
- `os.path.splitext` is modelled with the POSIX separator `/` only.
- App.OnUploadProgress: an event with `total == 0` or `loaded > total` changes nothing. The browser does not send such events, and in JavaScript they would give `NaN`, `Infinity` or more than 100%.
- `validateFile`'s `fileInfo` field (fileValidation.js:46-51) is dropped. Its `formattedSize` is floating-point formatting, and the other fields repeat the input.
- The too-large message's size figure and `formatFileSize` (fileValidation.js:68-76) are floating-point formatting and are not modelled.
- The framework's 422 reply for an empty question is modelled as an error with an empty detail. Its body is written by the framework.
- The question endpoint's engine, document parsing and indexing (`rag_core.py`) are not part of this model. The engine's outcome is a parameter.
- The fresh upload id (`uuid4`) is a parameter.
- File writes, CORS and logging on the server are not modelled.
- Rendering beyond the message body (avatars, colours, copy feedback) is not modelled.

## Findings

| source | as written | input that shows it | evidently intended | confidence | as-written member | corrected member |
|---|---|---|---|---|---|---|
| frontend/src/components/ChatMessage.js:20-24 | the numbering pass runs after the code pass, over the inserted tag, and wraps the `0.` of `py-0.5` in strong tags | an answer containing `` `x` `` for plain `x` | code spans keep their tag intact; only the `py-0.5` class is broken, the other four survive | not executed | ChatMessage.CodeClassIsRewritten | ChatMessage.CodeSpanKeepsClass |
| frontend/src/App.js:209-261 | `setInterval` reads `pollCount` synchronously, right after `let pollCount = 0`, before any reply can increment it | any sequence of poll replies | a delay from 3 s growing by 1 s per poll up to 10 s | not executed | App.BackoffNeverGrows | App.IntendedBackoffGrows |
| frontend/src/components/ChatContainer.js:106 | the summary is shown for any non-empty term, while the listing tests the trimmed term | search term `" "` | summary hidden for a blank term, as the listing treats it | not executed | ChatContainer.BlankTermListsAllButFindsNothing | ChatContainer.TrimmedSearchSummary |
| frontend/src/components/ProcessingStages.js:18-21 | the `findIndex` callback names its argument `s` but tests the outer `stage`, so the index found is 0 or -1 | stage text "Parsing document structure..." (App.js:225) | the first stage the text names is active and those before it completed | not executed | ProcessingStages.ParsingTextLightsNothing | ProcessingStages.IntendedOneActiveStage |
| frontend/src/App.js:220-222 | a 'processing' reply is applied whatever the current status | a 'processing' reply that arrives after the 'complete' reply | a ready session stays ready at 100% | not executed | App.LateProcessingReplyAfterReady | App.GuardedPollKeepsReady |

The model's main path follows the code as written. `Render` draws with the
source's pass order, `Step` applies poll replies unguarded, and
`GetStageStatus` uses the search as written. Each
corrected member is proved beside its as-written counterpart.
