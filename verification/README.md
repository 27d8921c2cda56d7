# Tistory auto-poster: a Dafny model of its batch-posting protocol

This project models the core of a browser extension that publishes a batch of
local HTML files to a Tistory blog. It does this by driving the blog's own
editor UI. Three contexts share the work:

- the **popup** (`popup.js`) filters the selected files to HTML and reads them.
  It seeds the durable store with the files and an idle session, then starts
  the batch.
- the **background worker** (`background.js`) owns the cursor
  `{isRunning, currentIndex}`. It delivers one file at a time to the page. On
  each `FILE_POSTED` it advances the cursor, and on `ERROR` it resets it.
- the **page script** (`contentScript.js`) splits a file into title and body.
  It walks the editor through a fixed series of UI steps, then reports
  `FILE_POSTED` or exactly one `ERROR`.

Each handler is a pure function over immutable data. The durable store is a
two-key record (`Messages.Store`). Sent messages are an ordered outbox of
`Messages.Envelope`: `Broadcast` stands for `chrome.runtime.sendMessage` and
`ToTab` for `chrome.tabs.sendMessage`. Whether an active tab exists is a
boolean input. The DOM is abstract:

- a parsed document is a list of elements in document order, each with a tag,
  a text and its markup;
- `DOMParser` is a function parameter;
- the live page is the set of UI elements that appear within their wait
  budgets.

Modules, one per source file plus two shared ones: `Messages` (shared data),
`JsString` (the JavaScript string primitives used), `Background`, `Popup`,
`ContentScript`, and `Scenarios` (properties that span contexts).

Two facts about the code shape the model:

- `FILE_POSTED` ignores the index it carries and always advances the cursor
  by one (`Background.FilePostedIgnoresIndex`).
- The start routine fails for exactly three reasons, the constructors of
  `Messages.Reason`: `NO_TAB`, `NO_SESSION_OR_FILES` and `ALREADY_DONE`.

`runPostingForFile` is modelled as written (`ContentScript.RunPostingForFile`).
A corrected edition of the editor guard is kept beside it; see "## Findings".

## Model

| member | source | states |
|---|---|---|
| Background.Start | background.js:10-43 | No tab gives `NO_TAB`. A session that is not running, or an empty file list, gives `NO_SESSION_OR_FILES`. Both leave the store unchanged and send nothing. A cursor at or past the end writes the idle session, broadcasts `POSTING_DONE` and gives `ALREADY_DONE`. Otherwise exactly one delivery goes out, of `files[currentIndex]` under `currentIndex`, and the reply is ok with the store unchanged. The files key is never written. |
| Background.OnFilePosted | background.js:53-74 | The cursor advances by exactly one. Reaching the end of the list writes `{false,0}` and broadcasts `POSTING_DONE`. Otherwise the advanced session is stored with `isRunning` unchanged, and the next file is delivered only if the session is running and a tab exists. The reply is always ok. |
| Background.ErrorNotice | background.js:83 | The forwarded text is the page's message when present and non-empty, else `'알 수 없는 오류'`. It is never empty. |
| Background.OnError | background.js:76-86 | The session resets to `{false,0}` and the files key is untouched. Exactly one `POSTING_ERROR` is broadcast, carrying the notice text. |
| Background.Handle | background.js:46-91 | Dispatch on the message type. A `START_POSTING` turn is the start routine's store and outbox, answered with its reply. A `FILE_POSTED` turn is the completion handler and an `ERROR` turn the error handler, on that message's text. Any other type leaves the store unchanged, sends nothing and gives no response. No branch writes the files key. |
| Background.EmptyStoreDefaults | background.js:15-20 | On a store never written to, both keys read as their defaults. A start request finds no running session and changes nothing. A stray `FILE_POSTED` moves the cursor past the empty list, writes `{false,0}` and broadcasts `POSTING_DONE`. |
| Background.HandlePreservesCursorInv | background.js:46-91 | Every listener turn keeps the invariant: the session is `{false,0}` or `currentIndex < |files|`. |
| Background.ReportsEstablishCursorInv | background.js:58-80 | `FILE_POSTED` and `ERROR` establish the cursor invariant from any store, even a corrupted one. |
| Background.RunPreservesCursorInv | background.js:46-91 | Across any sequence of turns the invariant holds and the file list is the same. |
| Background.FilePostedIgnoresIndex | background.js:53-58 | Two `FILE_POSTED` messages with different indices have identical effects. |
| Background.AtMostOneDelivery | background.js:33-42 | No turn sends more than one `RUN_POSTING_FOR_FILE`. |
| Background.IdleTurnIsQuiet | background.js:19-21 | When the session is not running, no turn delivers a file and the session stays not running. |
| Background.IdleRunIsQuiet | background.js:19-21 | The same holds over any sequence of turns. After a reset, nothing is delivered until the popup writes a running session. |
| Background.CompletionReportsDrainBatch | background.js:58-71 | Start with the cursor at `k` and a tab present. Then `|files| - k` completion reports deliver files `k+1` to the last, in order, then `POSTING_DONE`, and leave `{false,0}`. |
| Background.BatchRunsInOrder | background.js:33-71 | A start followed by one report per file delivers every file once, in index order, then `POSTING_DONE`, and leaves `{false,0}`. |
| Background.ThreeFileScenario | background.js:36-71 | With three files, a start and three reports yield deliveries 0, 1, 2, then `POSTING_DONE`, then `{false,0}`. |
| Background.ErrorStopsBatch | background.js:76-85 | File 1 of 3 fails with `x`. The outbox is delivery 0, delivery 1, then `POSTING_ERROR{x}`. The session is reset, and no later sequence of messages delivers another file. |
| JsString.Trim | contentScript.js:22 | `trim` returns an infix of its input. Both cut-off ends are whitespace, and the result neither starts nor ends with whitespace. |
| JsString.TrimEmptyIff | contentScript.js:22-28 | A text trims to the empty string exactly when it is all whitespace. This is when the placeholder title is used. |
| JsString.TrimIdempotent | contentScript.js:22 | Trimming twice is trimming once. |
| JsString.RegexTestLiteral | contentScript.js:120 | The literal regular-expression test finds a match exactly when the path occurs somewhere in the URL. |
| JsString.MatchesHtmlRegex | popup.js:48 | `/\.html?$/i` matches exactly the names ending in `.html` or `.htm`, with ASCII case ignored. |
| Popup.KeepHtml | popup.js:48 | A file is kept iff its name matches. Every kept file comes from the input, and the result is no longer than the input. |
| Popup.KeepHtmlAppend | popup.js:48 | Filtering a concatenation is concatenating the filtered parts, so kept files keep their relative order. |
| Popup.FilterHtmlFiles | popup.js:46-51 | `total` is the input length, or 0 for a missing list. `invalidCount + |htmlFiles| == total`. `invalidCount` is 0 iff every file is HTML. |
| Popup.PercentIsRounded | popup.js:84 | The integer progress is `Math.round(100*(i+1)/total)`, halves rounded up. It is at most 100, and at least 1 exactly when `total <= 200*(i+1)`. |
| Popup.PercentMonotone | popup.js:78-86 | Progress never drops as files are read. |
| Popup.PercentAtLast | popup.js:84 | Progress is exactly 100 after the last file. |
| Popup.ProgressTraceIsMonotone | popup.js:74-86 | The bar's history while the files are read starts at 0, never moves back, never passes 100 and ends at 100. |
| Popup.ReadFiles | popup.js:73-86 | The reading loop stores each HTML file as `{name, content}` in selection order. The bar reads `Math.round(100*(i+1)/n)` after file `i`. |
| Popup.HandleFiles | popup.js:54-100 | An empty selection, or one with no HTML file, only sets the matching error status. Nothing is written and the loaded list is kept. Otherwise the HTML files are loaded in selection order as `{name, content}`, and the files are stored with `{false,0}`. The statuses shown are the exclusion or reading notice, then the loaded count. The progress trace starts at 0, never drops, stays within 100 and ends at 100. |
| Popup.StartClicked | popup.js:146-158 | With no loaded files, only an error status is set, with no write and no message. Otherwise the files and `{true,0}` are written first, and `START_POSTING` is sent only after that. |
| Popup.OnStartAnswer | popup.js:159-168 | A runtime error gives the communication-error status. An `ok` reply gives the started status. Any other reply, or none, gives the start-failed status. |
| Popup.OnRuntimeMessage | popup.js:175-182 | `POSTING_ERROR` gives an error status with the message as suffix, or an empty suffix when absent. `POSTING_DONE` gives the success status. Other messages change nothing. |
| ContentScript.FirstH1 | contentScript.js:12 | The first `h1` in document order is found, or none when there is no `h1`. |
| ContentScript.SplitWithoutHeading | contentScript.js:14-19 | With no `h1`, the title is `'제목 없음'` and the body is the raw HTML verbatim. |
| ContentScript.SplitWithHeading | contentScript.js:22-30 | With an `h1`, the title is the trimmed text of the first `h1`. It falls back to the placeholder when that text is blank, so it is never empty or padded. The body is the trimmed markup without exactly that element, so every other `h1` remains. |
| ContentScript.ErrorMessageOf | contentScript.js:78 | A thrown string passes through unchanged. Otherwise a truthy `message` is used, else the value's string conversion. |
| ContentScript.SendError | contentScript.js:77-83 | Exactly one `ERROR` message is sent, carrying the derived text. |
| ContentScript.EditorStep | contentScript.js:175-178 | The editor steps go through exactly when the iframe yields a document with a body. A document that cannot be read throws the runtime's fault at line 175. As written, a document without a body passes the guard and throws the runtime's fault at line 178. Under the corrected guard it throws the guard's own message. |
| ContentScript.RunByFirstFailing | contentScript.js:109-221 | The run, under either guard, is determined by its first failing check. A failure sends what that check throws; success sends `FILE_POSTED`. For the editor check that is what the editor steps throw. The code block holds the raw file, the title field the split title, and the editor body the old body followed by the split body, each once its step is reached. The page navigates home only on success. |
| ContentScript.RunOutboxByFirstFailing | contentScript.js:113-219 | The message part of the above: `FILE_POSTED` with the received index when every check passes, else one `ERROR` with the first failing check's text. |
| ContentScript.RunEditsByFirstFailing | contentScript.js:142-205 | The page-edit part of the above: each write's value, present exactly when the run got past the check before it. |
| ContentScript.RunReportsFirstFailure | contentScript.js:113-219 | A run sends exactly one message. It is `FILE_POSTED` with the received index iff every check passes. Otherwise it is the error of the first failing check in the fixed order: file content, URL, then each UI element and the editor document. |
| ContentScript.RunEditsFollowProgress | contentScript.js:142-205 | Each page write happens iff every check before it passed. Navigation home happens iff all checks passed. |
| ContentScript.EditorGuardAsWrittenLeaksFault | contentScript.js:175-178 | As written, the guard never throws for a document that was obtained. A run that reaches the editor with a document but no body fails at line 178, and its one `ERROR` carries the runtime's fault text. With the `TypeError` a browser raises there, that text is not the guard's message. |
| ContentScript.EditorGuardIntended | contentScript.js:176 | The corrected guard, on an obtained document, throws exactly when the body is missing, with its own message. |
| ContentScript.IntendedGuardReportsUnreadableEditor | contentScript.js:172-178 | With the corrected guard, a run that reaches a document without a body reports the guard's message. The correction changes no page edit on any page, and changes nothing at all unless the document has no body. |
| ContentScript.FirstNewPostLink | contentScript.js:94 | `querySelector('a.link_tab[href$="/manage/newpost"]')` finds the first anchor in document order with class `link_tab` whose URL ends in `/manage/newpost`, or none. |
| ContentScript.OpenNewPostFromHome | contentScript.js:90-102 | The page navigates iff some anchor matches the selector, and then sends nothing and writes nothing else. Without one, reading `.href` of null throws, and exactly one `ERROR` carries that fault's text. |
| ContentScript.NewPostLinkOpensEditor | contentScript.js:94-95 | The location the home page navigates to is the first matching link's URL. A page at that location passes the `/manage/newpost` check of the posting run. |
| ContentScript.OnMessage | contentScript.js:226-237 | `OPEN_NEW_POST` and `RUN_POSTING_FOR_FILE` are answered ok and run their routine. Every other type gets no answer and has no effect. |
| Scenarios.PopupWritesKeepCursorInv | popup.js:91-157 | Both stores the popup writes (files with `{false,0}` on upload, and files with `{true,0}` on start) satisfy the cursor invariant. |
| Scenarios.UploadAloneDoesNotStart | background.js:19-21 | Right after an upload, `START_POSTING` answers `NO_SESSION_OR_FILES` and changes nothing. |
| Scenarios.StartHandshake | popup.js:152-168 | Start with files loaded and a tab open: the written store makes the worker deliver the first loaded file and answer ok, and the popup shows the started status. Without a tab, the answer is `NO_TAB` and the popup shows the start-failed status. |
| Scenarios.DeliveryRoundTrip | contentScript.js:209-213 | The page acknowledges the delivery of file `k`. If every step succeeds, it reports `FILE_POSTED{k}`, which moves the cursor to `k+1` and delivers the next file, or ends the batch after the last. |
| Scenarios.FailureReachesPopup | popup.js:176-178 | The page reports the first failing check's text, the worker resets the session and forwards its notice of it, and the popup shows that notice. For every check but the editor's, and whenever the text is non-empty, the notice is the text itself, shown after the status line's prefix. |
| Scenarios.FailureTextsAreNonEmpty | contentScript.js:113-198 | Every check's own error text is non-empty, so the worker never replaces it with its placeholder. With the corrected guard this also holds for a document without a body. |
| Scenarios.BatchEndReachesPopup | popup.js:179-181 | The last message of a completed batch makes the popup show the all-posted status. |

## Left out

- The `chrome.storage`, `chrome.tabs` and `chrome.runtime` APIs. They are an
  in-memory store record, an ordered outbox and a `hasTab` flag. The
  callback-style storage write in the popup is an ordered effect list.
- Asynchronous interleaving. Each listener invocation is one atomic turn. The
  read-then-write races between overlapping turns are not modelled.
- DOM internals are not modelled:
  - HTML parsing and serialisation: a parsed document is a flat element list
    in document order, so nesting is not represented, and the body's markup is
    the concatenation of the elements' markup;
  - `querySelector`, `clickByText` and dispatched events;
  - iframe access: the editor document is given as readable, without a body,
    or unreadable, each fault as an input;
  - `location.href` navigation, recorded as the next location.
- Timing. `waitFor` polling, `requestAnimationFrame`, `Date.now` and `sleep`
  are not modelled; each wait is an "element present in time" input.
- `clickByText` and `getCurrentTab` are not modelled; the tab is the boolean
  input.
- Popup rendering (`renderFileList`, CSS classes, drag-and-drop listeners)
  and `file.text()`, whose result is part of the input file.
- Console logging.
- Popup.PercentIsRounded: the source computes the percentage in
  floating point. The model uses the exact integer rounding. A float result
  within rounding error of a half could round the other way. For more than
  200 files, the first file shows 0%, so the range is 0..100, not 1..100.
- `Messages.Session.currentIndex` is a natural number. Every writer in the
  three files stores 0 or an incremented value, so a negative index never
  arises.
- The texts of runtime faults (`TypeError`, `SecurityError`) are inputs,
  except the one `TypeError` text the finding below uses.
- ContentScript.FirstNewPostLink: an anchor's URL is the resolved `href`
  property, and the selector is applied to it. The selector actually tests the
  `href` attribute; the model takes the attribute's `/manage/newpost` suffix to
  carry over to the resolved URL.
- Messages whose `message` field is not a string (a truthy object, say) are
  not modelled. `message` is an optional string.
- JsString.MatchesHtmlRegex: case-insensitivity covers ASCII letters only.
  Those are the only characters the pattern's letters match under the
  regular expression's non-Unicode `i` flag.

## Findings

| source | as written | input that shows it | evidently intended | confidence | as-written member | corrected member |
|---|---|---|---|---|---|---|
| contentScript.js:176 | `if (!iframeDoc && !iframeDoc.body)` | an editor iframe whose document has no body: line 175 yields the document, so `!iframeDoc` is false and the guard passes; line 178 then throws a TypeError reading `innerHTML` of null, and that text is what gets reported | `if (!iframeDoc \|\| !iframeDoc.body)`, which throws `'에디터 iframe 문서를 읽을 수 없습니다.'` | high; not executed | ContentScript.EditorGuardAsWrittenLeaksFault | ContentScript.IntendedGuardReportsUnreadableEditor |

`ContentScript.RunPostingForFile` follows the code as written. The corrected
run is `ContentScript.RunPosting(Intended, …)`. The posting lemmas hold for
both editions. Either way the batch stops with exactly one `ERROR`; only that
error's text differs.
