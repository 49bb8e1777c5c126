# llmresume server core in Dafny

This project models the server side of llmresume, a chat-driven LaTeX resume editor. A user's chat message is turned into a proposed document by a text-generation service, or by a deterministic mock editor when no service is configured. The proposal is validated and stored as the user's pending proposal, and it is previewed over the user's socket room. The user then accepts it, which re-validates it and commits it, or declines it. The model covers:

- the per-uid state store;
- the service layer above it;
- the HTTP controllers and the socket handlers, which are the two paths into that workflow;
- the LaTeX validator;
- the generator client: prompt layout, the mock editor, and extraction of a proposal from the service's JSON;
- the template-id filter;
- the user logger (unique uids, active connection counts, log parsing);
- two helpers of the browser chat widget.

The modules follow the source files:

| module | file | models |
|---|---|---|
| `Wrappers`, `Text`, `Json`, `Errors` | `wrappers.dfy`, `text.dfy`, `json.dfy`, `errors.dfy` | Option/Result; the JavaScript string operations used (`trim`, ASCII `toLowerCase`, `includes`, `indexOf`, literal global `replace`, `split`/`join`, UTF-16 `length`); JSON values, truthiness and `JSON.stringify`; the error objects thrown, with their messages, `status` and `errors` |
| `LatexValidator` | `latex_validator.dfy` | `server/services/latexValidator.js` |
| `StateStore` | `state_store.dfy` | `server/services/stateStore.js` |
| `ResumeService` | `resume_service.dfy` | `server/services/resumeService.js` |
| `GroClient` | `gro_client.dfy` | `server/services/groClient.js` |
| `TemplateService` | `template_service.dfy` | `server/services/templateService.js` |
| `UserLogger` | `user_logger.dfy` | `server/services/userLogger.js` |
| `Sockets` | `sockets.dfy` | `server/sockets/index.js` |
| `ChatController` | `chat_controller.dfy` | `server/controllers/chatController.js` |
| `ResumeController` | `resume_controller.dfy` | `server/controllers/resumeController.js` |
| `ChatClient` | `chat_client.dfy` | `escapeHtml` and `getBotReply` of `public/chat.js` |

Foreign inputs become parameters:

- `Date.now()` is `now`.
- A fresh uuid is `token`.
- The generator, as the controllers and handlers see it, is a function `propose(message, currentTex)`. `GroClient.ProposeUpdate` is what it stands for.
- The HTTP reply of the generation service is a `Reply` value.
- Reading a template file is a function `read(id)`.
- The log file's content at start-up is a parameter of the logger's constructor.

The socket rooms are modelled by the class `Sockets.Hub`, whose `sent` log records each `(room, event, payload)` emitted. `DeliveredTo` is what one room receives.

Uid handling:

- `StateStore.ensure` replaces an empty uid by a fresh one, so the store's invariant `Valid()` is that the empty uid is never a key.
- The HTTP controllers and socket handlers are called with a non-empty uid. The request middleware always sets `req.uid`, and the connection handler resolves the uid before any handler runs. That middleware is not part of this model.

The state store's record transitions are defined once, as functions (`Seeded`, `WithPending`, `Accepted`, `Declined`, and `Step`/`Run` over traces). The imperative class methods are proved to perform them. The properties of whole traces are lemmas about `Run`. Likewise:

- the validator's loops are proved against `ValidationErrors`;
- the mock editor is proved against `MockProposal` and `MockNotes`;
- the extraction chain is proved against `Extraction`;
- the JSON scan is related to an independent reading, `FirstMarked(Strings(json))`.

Two details of the validator shape what its contracts say:

- On a blank document `validateTex` returns at once with the single error `"Empty LaTeX document"`; the structural and denylist checks do not run.
- The document-class pattern requires a non-empty argument and allows whitespace before the brace. The marker checks ignore case; the denylist patterns do not.

The bold rule's comment says it adds `\textbf` only "if not present", but its pattern `(\\\w*\{)` also matches `\textbf{` itself. So an already bold name is wrapped a second time. `EmboldenRewrapsBold` states this as the code does it.

## Model

| member | source | states |
|---|---|---|
| LatexValidator.ValidateTex | server/services/latexValidator.js:10-57 | the error list built by pushes, the brace loop and the denylist loop is exactly `ValidationErrors(tex)`; `valid` iff that list is empty; a blank document gives exactly `["Empty LaTeX document"]` and is invalid |
| LatexValidator.CheckBraces | server/services/latexValidator.js:29-41 | the depth loop with its early `break` yields exactly `BraceErrors`: "too many" once some prefix overcloses, else "missing" iff depth stays positive, else nothing |
| LatexValidator.CheckUnsafe | server/services/latexValidator.js:44-53 | the loop over the five patterns yields one message per matching pattern, in list order |
| LatexValidator.BraceExamples | server/services/latexValidator.js:29-41 | `"{}}"` gives only the too-many error and `"{{}"` only the missing error |
| LatexValidator.ChecksIndependent | server/services/latexValidator.js:17-41 | for a non-blank document each marker error is present iff its marker is absent, "too many" iff some prefix overcloses, "missing" iff none does and braces stay open |
| LatexValidator.StructuralMessagesDistinct | server/services/latexValidator.js:18-41 | helper: the five structural messages are pairwise different |
| LatexValidator.StructuralListMembers | server/services/latexValidator.js:17-41 | each marker message is in the structural list iff its marker is missing, and each brace message iff the brace check gave it |
| LatexValidator.StructuralMembers | server/services/latexValidator.js:17-41 | membership of each structural message in the structural list, check by check |
| LatexValidator.NotUnsafeMessage | server/services/latexValidator.js:52 | helper: a message not starting with 'P' is never a denylist message |
| LatexValidator.UnsafeReportedOnce | server/services/latexValidator.js:44-53 | for a non-blank document every matching denylist pattern is reported exactly once and a non-matching one never |
| LatexValidator.UnsafeAfterStructural | server/services/latexValidator.js:17-53 | for a non-blank document the structural messages come first, and every later message names a denylist pattern that matches |
| LatexValidator.UnsafeCount | server/services/latexValidator.js:51-53 | over a duplicate-free pattern list, a pattern's message occurs once iff it is listed and matches |
| LatexValidator.UnsafeEntries | server/services/latexValidator.js:51-53 | every denylist entry is the message of some listed pattern that matches |
| LatexValidator.UnsafeErrorsNone | server/services/latexValidator.js:51-53 | no matching pattern, no denylist error |
| LatexValidator.UnsafeMessagesDistinct | server/services/latexValidator.js:52 | helper: different patterns print different messages, all starting with 'P' |
| LatexValidator.PatternTextTag | server/services/latexValidator.js:45-49 | helper: each pattern's printed form is told apart by its fourth and fifth characters |
| LatexValidator.StructuralNotUnsafe | server/services/latexValidator.js:17-41 | helper: no structural message starts with 'P' |
| LatexValidator.ReadNeedsBoundary | server/services/latexValidator.js:49 | `\read` needs a word boundary: `\readme` is not denylisted, `\read x` is |
| LatexValidator.WellFormedValid | server/services/latexValidator.js:17-56 | a document with class, begin and end markers, balanced braces and no denylisted construct has no errors |
| LatexValidator.ArticleSkeletonValid | server/services/latexValidator.js:17-56 | `\documentclass{article}\begin{document}` + x + `\end{document}` validates for every balanced x without backslashes |
| LatexValidator.DepthConcat | server/services/latexValidator.js:29-40 | the depth of a concatenation is the sum of the depths |
| LatexValidator.BalancedConcat | server/services/latexValidator.js:29-41 | balanced strings concatenate to a balanced string |
| LatexValidator.NoBracesBalanced | server/services/latexValidator.js:29-41 | text without braces has depth 0 at every prefix |
| LatexValidator.BracedBalanced | server/services/latexValidator.js:29-41 | one braced group of brace-free text is balanced |
| LatexValidator.TamedConcat | server/services/latexValidator.js:44-50 | text whose backslashes all begin a marker stays so under concatenation |
| LatexValidator.TamedNotUnsafe | server/services/latexValidator.js:44-50 | such text matches no denylist pattern |
| LatexValidator.StartsAtFirstTwo | server/services/latexValidator.js:44-50 | helper: a literal occurrence fixes the first two characters |
| LatexValidator.StartsAtIgnoreCaseAppend | server/services/latexValidator.js:17-26 | a case-insensitive occurrence survives appending text |
| LatexValidator.StartsAtIgnoreCasePrepend | server/services/latexValidator.js:17-26 | a case-insensitive occurrence survives prepending text, shifted by its length |
| LatexValidator.DocumentClassAppend | server/services/latexValidator.js:17 | a class declaration survives appending text |
| LatexValidator.MarkersFromParts | server/services/latexValidator.js:17-26 | a class line, a begin marker, any body and an end marker give all three markers |
| LatexValidator.ClassLineMarker | server/services/latexValidator.js:17 | `\documentclass{article}` matches the class pattern |
| LatexValidator.SkeletonMarkers | server/services/latexValidator.js:17-26 | the skeleton has all three markers whatever the body |
| LatexValidator.SkeletonBalanced | server/services/latexValidator.js:29-41 | the skeleton is balanced when its body is |
| LatexValidator.SkeletonTamed | server/services/latexValidator.js:44-50 | the skeleton's backslashes all begin markers when its body has none |
| StateStore.StateStore.constructor | server/services/stateStore.js:14-16 | the store starts empty |
| StateStore.StateStore.Ensure | server/services/stateStore.js:18-28 | an empty uid is replaced by the fresh token; an unknown key gets the blank record `("", null, [])`; a known one is returned unchanged; nothing else changes |
| StateStore.StateStore.Get | server/services/stateStore.js:30-32 | the record for a known uid, null for an unknown one; never creates one |
| StateStore.StateStore.SeedCurrent | server/services/stateStore.js:34-40 | after ensure, `currentTex := tex`, pending cleared, one seed entry with the UTF-16 length of tex appended; only that key changes |
| StateStore.StateStore.SetPending | server/services/stateStore.js:42-46 | after ensure, only `pendingTex` is overwritten |
| StateStore.StateStore.AcceptPending | server/services/stateStore.js:48-56 | a null or empty pending fails with "No pendingTex to accept" and the ensured record unchanged; otherwise the pending becomes current, pending is cleared, one accept entry is appended and the new current returned |
| StateStore.StateStore.DeclinePending | server/services/stateStore.js:58-65 | the same guard; on success pending is cleared, one decline entry appended, current kept |
| StateStore.PendingAfterStep | server/services/stateStore.js:34-65 | a record has a pending proposal after an operation iff the operation was a non-empty proposal |
| StateStore.StepHistory | server/services/stateStore.js:34-65 | one step keeps the old history as a prefix and appends exactly one entry of the right kind iff it records |
| StateStore.HistoryAppendOnly | server/services/stateStore.js:34-65 | over any trace the history only grows, by exactly the number of recording operations |
| StateStore.LastProposalWins | server/services/stateStore.js:42-46 | of two proposals in a row only the last is kept; a proposal touches neither current nor history |
| StateStore.AcceptCommitsProposal | server/services/stateStore.js:42-56 | accepting right after a non-empty proposal commits exactly it and appends one accept entry |
| StateStore.DeclineKeepsDocument | server/services/stateStore.js:42-65 | declining right after a proposal keeps the committed document and appends one decline entry |
| StateStore.NothingToAcceptAfterSeed | server/services/stateStore.js:34-65 | after a seed, accept and decline change nothing |
| StateStore.CurrentOrigin | server/services/stateStore.js:34-56 | every committed document was the starting one, the starting proposal, or seeded or proposed in the trace |
| StateStore.PendingOrigin | server/services/stateStore.js:42-65 | every pending proposal was there at the start or proposed in the trace |
| ResumeService.SeedTemplateForUser | server/services/resumeService.js:5-8 | returns `currentTex == tex`, seeds the record and leaves nothing pending |
| ResumeService.CreatePendingFromProposed | server/services/resumeService.js:10-14 | stores the proposal whether or not it validates and returns the validator's verdict and errors |
| ResumeService.AcceptPending | server/services/resumeService.js:16-32 | no record or nothing pending: 400 "No pending proposal to accept", store unchanged, no record created; invalid pending: 400 with the validator's errors, store unchanged; otherwise the pending is committed; success iff `CanAccept` |
| ResumeService.DeclinePending | server/services/resumeService.js:34-43 | the same 400 guard with the store unchanged; otherwise pending cleared and one decline entry appended |
| GroClient.BuildPrompts | server/services/groClient.js:9-13 | the fixed system prompt; the user prompt is exactly the request label, the message, the resume label and the document |
| GroClient.Mock | server/services/groClient.js:24-62 | the rule-by-rule editor returns `MockProposal` and the notes of `MockNotes` joined by "; "; the result contains `\documentclass` or is the input |
| GroClient.ApplyRules | server/services/groClient.js:25-53 | the rule steps leave exactly the draft `Edited(msg, tex)` and the notes of the firing rules, with the Summary note when none fired |
| GroClient.NoteListMembers | server/services/groClient.js:28-61 | for any rule verdicts, each rule note is present iff its rule fired, Summary iff none fired, the fallback iff the draft was not kept, and there is always a note |
| GroClient.RulesIndependent | server/services/groClient.js:28-44 | each rule's note is recorded iff its trigger holds on the lower-cased message, whatever the other rules and the document |
| GroClient.SummaryOnlyWithoutRules | server/services/groClient.js:46-53 | the Summary note is recorded iff no rule fired |
| GroClient.FallbackExactlyWhenReverted | server/services/groClient.js:55-61 | the fallback note is recorded iff the edit lost `\documentclass`; there is always a note |
| GroClient.MockKeepsClass | server/services/groClient.js:55-59 | a document with `\documentclass` keeps it through the mock |
| GroClient.Enlarge | server/services/groClient.js:31 | a document without `\LARGE` is unchanged |
| GroClient.EnlargeAtFirst | server/services/groClient.js:31 | scanning left to right, the text before the first `\LARGE` is kept, that occurrence becomes `\Huge`, and the rest is rewritten the same way; with the unchanged case of `Enlarge` this fixes the result on every document |
| GroClient.ShrinkMargin | server/services/groClient.js:36 | without a margin setting the document is unchanged; with one, the result sets `margin=0.5in` |
| GroClient.Embolden | server/services/groClient.js:42 | without a braced group containing "John" the document is unchanged; otherwise the first such group is rewritten as `EmboldenAt` says |
| GroClient.EmboldenAt | server/services/groClient.js:42 | `BoldWrapped` at the group's opening brace and its first closing brace: the text up to the opening brace is kept, then `\textbf{`, the group's text, `}}` and the rest of the document |
| GroClient.BoldGroupStart | server/services/groClient.js:42 | helper: the opening brace of `(\\\w*\{)`, past the backslash |
| GroClient.BoldGroupEnd | server/services/groClient.js:42 | helper: the first `}` after the opening brace, where `[^}]*John[^}]*\}` ends |
| GroClient.BoldWrap | server/services/groClient.js:42 | the replacement `${p1}\textbf{${p2}}}` assembled from the prefix, the two groups and the rest is `BoldWrapped` |
| GroClient.EmboldenRewrapsBold | server/services/groClient.js:41-42 | a group that already starts with `\textbf{` is wrapped again, giving `\textbf{\textbf{`, because the pattern does not check for an existing `\textbf` |
| GroClient.BoldCommandBrace | server/services/groClient.js:42 | helper: for a match starting with `\textbf{`, the pattern's `\w*` stops at that command's brace |
| GroClient.AnnotateSummary | server/services/groClient.js:48-51 | without a Summary block the document is unchanged; with one, it is `AnnotateAt` at the first block, so the note "Mock edit: " and the message occur right before that block's closing `\vspace{6pt}` |
| GroClient.AnnotateAt | server/services/groClient.js:48-51 | `SummaryAnnotated`: everything up to the end of the spaces after the header is kept; then come one space, the block's text trimmed, the note and the message, the closing `\vspace{6pt}`, and everything after the block's own `\vspace{6pt}` |
| GroClient.AnnotateText | server/services/groClient.js:49-50 | the replacement `${p1} ${p2.trim()}\n\newline Mock edit: ${msg}${p3}`, followed by the rest, is `SummaryAnnotated` and contains the note, the message and `\vspace{6pt}` together |
| GroClient.SummaryTextStart | server/services/groClient.js:48 | helper: where `\s*` after the header ends |
| GroClient.SummaryTextEnd | server/services/groClient.js:48 | helper: the first `\vspace{6pt}` after the header's spaces, where the lazy `[\s\S]*?` stops |
| GroClient.ShrinkMarginNoMatch | server/services/groClient.js:36 | a document without a margin setting is unchanged by the margin rewrite |
| GroClient.ShrinkMarginWrites | server/services/groClient.js:36 | the first margin setting becomes `margin=0.5in`; everything before it and everything after it, later margin settings included, is kept |
| GroClient.EnlargeRemovesLarge | server/services/groClient.js:31 | after the name rule's rewrite no case-sensitive `\LARGE` is left |
| GroClient.NameRuleEdits | server/services/groClient.js:29-33 | when the name rule fires its note is the first note; when it is the only rule firing, the edit is exactly the enlarged document |
| GroClient.FallbackEditNotes | server/services/groClient.js:46-53 | when no rule fires and the document has a Summary block, the edit is the Summary rewrite and contains the mock note followed by the message |
| GroClient.FirstMatch | server/services/groClient.js:35-53 | the leftmost match of a pattern, with no match before it |
| GroClient.NoMatchBefore | server/services/groClient.js:35-53 | helper: a miss at `from` extends "no match before" from `from + 1` to `from` |
| GroClient.Skip | server/services/groClient.js:35-53 | the end of a maximal run of one character class |
| GroClient.Scan | server/services/groClient.js:120-131 | a string the scan returns contains `\documentclass` |
| GroClient.ScanItems | server/services/groClient.js:122-128 | the same for the loop over an array's items |
| GroClient.ScanProps | server/services/groClient.js:122-128 | the same for the loop over an object's values |
| GroClient.ScanIsFirstMarked | server/services/groClient.js:120-131 | the depth-first scan returns exactly the first string containing `\documentclass` among the strings in key order |
| GroClient.FirstMarked | server/services/groClient.js:124 | a found string is in the list and contains `\documentclass`; none found means none does |
| GroClient.FirstMarkedConcat | server/services/groClient.js:122-128 | the first marked string of a concatenation comes from the first part if it has one |
| GroClient.Extract | server/services/groClient.js:106-143 | the branch-by-branch extraction computes exactly `Extraction(json)` |
| GroClient.Extraction | server/services/groClient.js:139-143 | a successful extraction carries a non-empty proposal; a failure is the missing-proposal error with the snapshot of the JSON text |
| GroClient.Snapshot | server/services/groClient.js:140 | the first 1000 characters of the JSON text, or all of it when it is shorter |
| GroClient.TopLevelDecides | server/services/groClient.js:109-139 | a top-level string proposal decides; if empty the response is rejected without trying further shapes |
| GroClient.OutputBeforeContent | server/services/groClient.js:112-139 | otherwise an `output` object's string proposal decides before `content` and the scan |
| GroClient.DeepScanFallback | server/services/groClient.js:118-137 | with none of the named shapes, the proposal is the first marked string in depth-first order with the top-level explanation, else the missing-proposal error |
| GroClient.ProposeUpdate | server/services/groClient.js:15-146 | mock iff the mock flag or an empty key; a network failure, a non-ok status (carrying `status`), unparsable or falsy JSON, or a missing proposal each fail as the source throws |
| TemplateService.SanitizeId | server/services/templateService.js:6-10 | the id itself iff it is non-empty and every character is in `[A-Za-z0-9_-]`, else null |
| TemplateService.SanitizedIsPathSafe | server/services/templateService.js:8 | an accepted id contains no '/', '.' or '\' |
| TemplateService.SanitizeIdempotent | server/services/templateService.js:6-10 | sanitizing a sanitized id gives the same result |
| TemplateService.IdCharsFromMeans | server/services/templateService.js:8 | the recursive character class test holds iff every remaining character is allowed |
| TemplateService.LoadTemplate | server/services/templateService.js:12-14 | a rejected id fails with "Invalid template id"; an accepted one is read |
| TemplateService.RejectedIdIgnoresFiles | server/services/templateService.js:12-14 | for a rejected id the result does not depend on the file system |
| UserLogger.UserLogger.constructor | server/services/userLogger.js:14-18 | empty active map and log; the unique set is what the log content yields |
| UserLogger.UserLogger.LoadFromLog | server/services/userLogger.js:28-41 | the loop adds exactly `ContentUids(content)`; an unreadable file adds nothing |
| UserLogger.UserLogger.RecordUid | server/services/userLogger.js:43-51 | a falsy or known uid changes nothing; a new one is added and logs one `seen` line |
| UserLogger.UserLogger.IncrementActive | server/services/userLogger.js:53-59 | a falsy uid changes nothing; otherwise the count rises by one (absent counts as 0) and a connect line is logged |
| UserLogger.UserLogger.DecrementActive | server/services/userLogger.js:61-67 | a falsy uid changes nothing; otherwise a count at most 1 is removed, a larger one decremented, and a disconnect line is logged |
| UserLogger.UserLogger.UniqueCount | server/services/userLogger.js:69-71 | the number of distinct uids seen, zero exactly when none was recorded |
| UserLogger.UserLogger.ActiveCount | server/services/userLogger.js:73-75 | the number of uids with at least one open connection |
| UserLogger.UidOfLine | server/services/userLogger.js:33-36 | an empty line yields nothing; a yielded uid is non-empty and comma-free |
| UserLogger.LineRoundTrip | server/services/userLogger.js:28-66 | parsing a written log line gives back its uid |
| UserLogger.LinesUids | server/services/userLogger.js:32-37 | the uids parsed from written lines are the uids written |
| UserLogger.LogRoundTrip | server/services/userLogger.js:11-41 | loading a header plus written lines recovers exactly the set of logged uids |
| UserLogger.LoggedUidsConcatEmpty | server/services/userLogger.js:33 | a trailing empty line adds nothing |
| UserLogger.SplitThree | server/services/userLogger.js:34 | splitting three comma-free fields joined by commas gives them back |
| UserLogger.IncrementedCounts | server/services/userLogger.js:53-56 | counts stay positive; only the uid's count rises, by one; the map grows iff the uid was absent |
| UserLogger.DecrementedCounts | server/services/userLogger.js:61-65 | counts stay positive; only the uid's count falls, by one or to removal; the map shrinks iff the count was 1 |
| UserLogger.DecrementUndoesIncrement | server/services/userLogger.js:53-65 | a connect followed by a disconnect restores the counts |
| Sockets.Hub.EmitToUid | server/sockets/index.js:20-23 | a falsy uid emits nothing; otherwise exactly one notification to that room is appended |
| Sockets.DeliveredTo | server/sockets/index.js:20-39 | a room receives only notifications addressed to it, all taken from the log |
| Sockets.EmitIsolated | server/sockets/index.js:20-23 | an emission to one room leaves every other room's deliveries unchanged and adds exactly itself to its own |
| Sockets.DeliveredConcat | server/sockets/index.js:20-23 | a room's deliveries over two stretches of the log are the deliveries of each |
| Sockets.ResolveUid | server/sockets/index.js:27-37 | the cookie uid, else the query uid, else the fresh token; `uid:assign` only in the fresh case; never empty |
| Sockets.OnConnection | server/sockets/index.js:25-42 | the resolved uid's active count rises by one and a connect line is logged |
| Sockets.OnDisconnect | server/sockets/index.js:95-98 | the uid's active count falls and a disconnect line is logged |
| Sockets.ProposalPreview | server/sockets/index.js:58-63 | the preview carries the proposal, the validator's errors, and `valid` iff there are none |
| Sockets.GenerationFailedPreview | server/sockets/index.js:65-70 | no document, invalid, errors `[err.message]` |
| Sockets.ResolvedPreview | server/sockets/index.js:74-93 | no document, valid, no errors, `committed` true or false |
| Sockets.RefusedPreview | server/sockets/index.js:74-93 | no document, invalid, the error's message, and the validator's list when the accept handler passes it on |
| Sockets.StoreProposal | server/sockets/index.js:56-63 | the proposal is stored as pending whatever the verdict and only that record changes; the preview is the proposal with the validator's verdict |
| Sockets.AcceptRefusal | server/services/resumeService.js:18-29 | a refused accept's error, which always has status 400 |
| Sockets.OnUserMessage | server/sockets/index.js:44-72 | an empty message changes nothing and emits nothing; a proposal is stored as pending, valid or not, and previewed; a generator failure stores nothing (only the ensured record) and previews the error |
| Sockets.OnAccept | server/sockets/index.js:74-83 | on commit a "Committed" preview followed by `resume:committed` with the former pending; on refusal the store is unchanged and one refusal preview with the validator's list is emitted |
| Sockets.OnDecline | server/sockets/index.js:85-93 | on success a "Declined" preview; on refusal the store is unchanged and one refusal preview with `[err.message]` is emitted |
| ChatController.SendMessage | server/controllers/chatController.js:12-40 | a message blank after trimming is answered 400 "message required" before any change; a generator failure goes to `next` with only the record ensured and nothing emitted; otherwise the proposal is stored as pending, the preview emitted when sockets exist, and the same preview returned |
| ChatController.SendTrimmed | server/controllers/chatController.js:19-39 | for a non-empty message: a generator failure goes to `next` with only the record ensured and nothing emitted; a proposal is stored as pending, emitted when sockets exist, and returned |
| ChatController.ProposeForUser | server/controllers/chatController.js:19-26 | the generator receives the trimmed message and the stored document; on success pending is set and the preview built, with `errors` the validator's list |
| ResumeController.GetTemplate | server/controllers/resumeController.js:9-19 | a rejected id goes to `next` with nothing changed; otherwise the template seeds the uid and the response is `{currentTex}` equal to it |
| ResumeController.Accept | server/controllers/resumeController.js:24-38 | on commit the "Committed" preview is emitted and the new document returned; a refusal goes to `next` with status 400, nothing changed and nothing emitted; without sockets the emit is skipped |
| ResumeController.Decline | server/controllers/resumeController.js:43-57 | on success the "Declined" preview is emitted and `{ok: true}` returned; a refusal goes to `next` with nothing changed or emitted |
| ChatClient.EscapeHtml | public/chat.js:91-93 | the output contains no `<`, `>`, `"` or `'` |
| ChatClient.EscapePlain | public/chat.js:92 | text without special characters is unchanged |
| ChatClient.EscapeConcat | public/chat.js:92 | escaping works character by character |
| ChatClient.UnescapeChar | public/chat.js:92 | each character's replacement decodes back to it |
| ChatClient.EscapeRoundTrip | public/chat.js:91-93 | decoding the five entities recovers the original text, so escaping loses nothing |
| ChatClient.GetBotReply | public/chat.js:95-103 | the question is lower-cased first: a "hello" or "hi" in any letter case gets the greeting, and a question with none of the keywords gets the fallback |
| ChatClient.ReplyIgnoresCase | public/chat.js:97 | questions that lower-case alike get the same reply |
| ChatClient.ThanksImpliesThank | public/chat.js:100 | helper: a text containing "thanks" contains "thank" |
| ChatClient.ReplyPriority | public/chat.js:98-102 | greeting iff hello or hi; resume help iff not those and resume; welcome iff none of those and thank; otherwise the fallback |
| Json.Stringify | server/services/groClient.js:140 | the JSON text is never empty; a string, an array and an object are written between quotes, brackets and braces |
| Text.ToLower | public/chat.js:97 | same length, each character lower-cased (ASCII letters only) |
| Text.TrimStart | server/controllers/chatController.js:16 | the result is a suffix of the input, what was cut is all whitespace, and the result does not start with whitespace |
| Text.TrimEnd | server/controllers/chatController.js:16 | the result is a prefix of the input, what was cut is all whitespace, and the result does not end with whitespace |
| Text.Join | server/services/groClient.js:61 | joining no parts gives the empty text and one part gives that part; `SplitJoin` gives the round trip with `Split` |
| Text.NatToString | server/services/userLogger.js:48 | a non-empty string of decimal digits, starting with `0` only for zero |
| Text.Split | server/services/userLogger.js:28-41 | `split` on one character: no piece holds the separator and joining the pieces gives the input back |
| Text.SplitJoin | server/services/userLogger.js:28-41 | splitting undoes joining when no part holds the separator |
| Text.Trim | server/controllers/chatController.js:16 | the result is a slice of the input with only whitespace before and after it; it is empty iff the input is all whitespace, and otherwise neither starts nor ends with whitespace |
| Text.TwoCuts | server/controllers/chatController.js:16 | helper: cutting leading and then trailing whitespace keeps a slice of the input with whitespace on both sides, empty iff the input is blank |
| Text.ReplaceAll | server/services/groClient.js:31 | with no occurrence of the pattern the text is unchanged |
| Text.ReplaceAllAtFirst | server/services/groClient.js:31 | at the first occurrence of the pattern the text before it is kept, the occurrence becomes the replacement, and the rest is replaced in turn; with the unchanged case of `ReplaceAll` this fixes the result on every input |
| Text.NoneBeforeFirst | server/services/groClient.js:31 | helper: no occurrence before `i`, as a recursion over the text's tails |
| Text.ReplaceAllAtNext | server/services/groClient.js:31 | helper: the first-occurrence equation, by induction on the position |
| Text.ReplaceAllAtLater | server/services/groClient.js:31 | helper: the inductive step for an occurrence past the head |
| Text.ReplaceAllAtStep | server/services/groClient.js:31 | helper: the tail's equation gives the whole text's when the pattern does not start at the head |
| Text.ReplaceAllAtZero | server/services/groClient.js:31 | helper: the equation for an occurrence at the head |
| Text.ReplaceAllAtHead | server/services/groClient.js:31 | an occurrence at the head is replaced and the rest replaced in turn |
| Text.ReplaceAllKeepsHead | server/services/groClient.js:31 | where the pattern does not start at the head, the head character is kept |
| Text.NoneBeforeTail | server/services/groClient.js:31 | helper: what the induction carries from a text to its tail |
| Text.FirstAfterHead | server/services/groClient.js:31 | helper: a first occurrence at `i >= 1` is the first one at `i - 1` of the tail |
| Text.StartsAtTail | server/services/groClient.js:31 | helper: an occurrence past the head is one in the tail |
| Text.EmptyFront | server/services/groClient.js:31 | helper: nothing kept in front |
| Text.HeadRegroup | server/services/groClient.js:31 | helper: the head put back in front of a cut of the tail |
| Text.SplitAfterFirst | server/services/groClient.js:48-51 | helper: cutting seven joined pieces after the first leaves the other six |
| Text.StartsAtAdjacent | server/services/groClient.js:42 | helper: adjacent occurrences of `p` and `q` form an occurrence of `p + q` |
| Text.StartsAtKept | server/services/groClient.js:42 | helper: an occurrence inside a shared prefix carries over |
| Text.ReplaceAllRemoves | server/services/groClient.js:31 | when the pattern's first character starts the replacement and occurs nowhere else in either, and their second characters differ, no occurrence of the pattern is left |
| Text.IndexOfFrom | server/services/groClient.js:40-53 | the first occurrence at or after the start, with none before it |

## Left out

- The HTTP request to the generation service, `fetch`, the URL, the request body and the headers are not modelled. Their outcome is the `Reply` parameter. The configuration file is the `Config` parameter.
- socket.io itself, cookie parsing and the joining and leaving of rooms are not modelled. A connection is its resolved uid. Rooms are the `room` field of a notification.
- Express routing, the request middleware that assigns `req.uid` and records it with `recordUid`, the error middleware that turns `next(err)` into a status, and `listen` are not modelled.
- The file system is not modelled:
  - the log file's creation with its header and `appendFileSync`; the log is a sequence of lines kept by the logger;
  - the file-reading tail of `loadTemplate`, which is the `read` parameter;
  - its `startsWith(templatesDir)` guard, which cannot fail for an id that `sanitizeId` accepts.
- `getUniqueList` is not modelled, because it only copies the set.
- Concurrency is not modelled: interleaving across the `await` between reading `currentTex` and `setPending`. Each handler runs to completion.
- `LatexValidator.ValidateTex`: a non-string argument (the `typeof` test) is not modelled, because every caller passes a string.
- `ChatController.SendMessage`: `String(body.message || '')` is the string parameter `rawMessage`. The coercion of non-string values is not modelled.
- `Sockets.OnUserMessage`: `payload?.message` is a string. A non-string truthy message is not modelled.
- `Text.ToLower` lower-cases ASCII letters only, while JavaScript's `toLowerCase` also lower-cases other letters (`"\u0130"` lower-cases to a text containing `i`, the Kelvin sign to `k`). The validator's case-insensitive match folds ASCII only too, and for it that is exact: its patterns are all ASCII, and without the `u` flag the `/i` flag never maps a non-ASCII character onto an ASCII one.
- `GroClient.Snapshot` takes the first 1000 characters, while `slice` counts UTF-16 code units. The two differ only for text outside the Basic Multilingual Plane.
- `Json`: numbers are integers, and object properties are kept in the order given. `Object.keys` lists integer-like keys first, and that reordering is not modelled. Duplicate keys are not modelled; a parsed object has none.
- `StateStore.StateStore.SeedCurrent`: a null `tex` is not modelled, because `loadTemplate` always yields a string.
- `UserLogger.LogRoundTrip` holds for uids without commas or newlines (`Loggable`). For other uids the log format itself cannot give the uid back.
- The parts of `public/chat.js` other than `escapeHtml` and `getBotReply` are not modelled, and neither are `public/scripts.js`, `public/app.py` and `api/subscribe.js`. They are DOM, timers, file appends and static serving.
