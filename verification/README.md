# Streaming AI chat: a verified model of its state rules

The application is a small Next.js chat client. A signed-in user picks a
character (a persona with its own avatar and system prompt), opens a
conversation thread with it, and sends messages. Each message is stored in
Supabase, posted to the relay endpoint `POST /api/chat`, and answered by a
language-model provider whose server-sent event stream the relay turns into
plain text. The client streams that text into an assistant placeholder.

This project models the deterministic rules under that plumbing as pure Dafny
functions over immutable data, and proves what they guarantee:

- `Messages` covers the per-thread message store `map<ThreadId, seq<Message>>`
  (`app/chat/hooks/useMessages.ts`). It models the send pipeline as the
  sequence of stores it writes (optimistic append, mark failed, per-chunk
  content, final id swap), the load path and the visible-messages selector.
- `Relay` covers the relay endpoint (`app/api/chat/route.ts`): the
  validation ladder, and the read loop as a fold over chunks and lines. It
  holds the loop as written and a corrected, buffered loop, which the handler
  uses (see Findings).
- `Characters` covers the default character table and the case-insensitive
  avatar and prompt lookups (`app/chat/constants.ts`).
- `Threads` covers thread loading, the available-characters filter,
  selection, and starting a thread without duplicates
  (`app/chat/hooks/useThreads.ts`).
- `ChatPage` covers the chat screen's inline copies of those rules
  (`app/chat/page.tsx`), proved equal to the hooks' where they coincide and
  contrasted where they differ.
- `MessageList`, `Middleware`, `Toast` and `Login` cover the message display
  classification, route protection, the toast stack, and the login form.
- `Text` holds the string built-ins the code relies on: `trim`,
  `toLowerCase`, `startsWith`, `split`, `filter(Boolean)` and decimal
  rendering. `Wrappers` gives `Option`, the stand-in for
  `T | null | undefined`. `Chat` holds the shared role and history-entry
  types.

Everything the code gets from outside becomes a parameter:

- Supabase query and insert results, with error or data.
- The session and the API key.
- The `fetch` reply and the decoded chunks a stream reader returns.
- `JSON.parse` of one payload, as the abstract `Payload`.
- `crypto.randomUUID()` results.
- The `ensureProfile` outcome.

A send is modelled as a `trace`: the store after each `setMessagesByThread`
call, in order. "Exactly one message changes per step" is then a statement
about consecutive stores.

Two modelling choices worth knowing:

- `prev[threadId]?.map(...)` on a thread with no entry writes `undefined`
  under the key. Every reader treats that like a missing key (`?? []`), so
  the model's edit leaves the map unchanged in that case.
- Temporary ids are `"temp-" + u` and `"assistant-" + v`. They differ
  whatever `u` and `v` are. That they are absent from the thread is a lemma
  hypothesis (`FreshIds`), not a precondition of the operation.

## Model

| member | source | states |
|---|---|---|
| Messages.EditOne | app/chat/hooks/useMessages.ts:88-94 | editing by an id that exactly one message of the thread carries changes that message (failed / new content / new id and sent) and no other message, thread, or list length |
| Messages.EditKeepsShape | app/chat/hooks/useMessages.ts:131-136 | every by-id edit keeps the set of threads, every other thread, the list length, and every message with a different id |
| Messages.TempIdsDistinct | app/chat/hooks/useMessages.ts:66-71 | the user's temporary id and the placeholder's id can never coincide |
| Messages.History | app/chat/hooks/useMessages.ts:104-107 | the posted history has one `{role, content}` entry per message, in order |
| Messages.StreamTrace | app/chat/hooks/useMessages.ts:127-137 | one store per chunk; each keeps the thread set, the other threads and every list length |
| Messages.AfterRequest | app/chat/hooks/useMessages.ts:113-167 | after the request: a rejected or bodyless reply only marks the placeholder failed; otherwise one store per chunk, then failure or finalisation unless the read broke off |
| Messages.SendMessage | app/chat/hooks/useMessages.ts:64-108 | a blank input (after `trim`) is ignored with no store written; otherwise the first store appends the trimmed user message and the empty streaming placeholder to the thread's list (absent list = empty), the other threads are never touched, every list keeps that length, and a request is posted exactly when the user insert succeeded, carrying the pre-append history plus the trimmed input |
| Messages.StreamAccumulates | app/chat/hooks/useMessages.ts:126-137 | after j+1 chunks the streamed message's content is the concatenation of the first j+1 chunks and the rest of the thread is unchanged |
| Messages.StreamedStore | app/chat/hooks/useMessages.ts:126-137 | after all chunks the placeholder holds the concatenation of all chunks |
| Messages.AppendedIds | app/chat/hooks/useMessages.ts:65-81 | with fresh ids, after the append each generated id is carried by exactly one message, at the last two positions |
| Messages.SendUserInsertFailed | app/chat/hooks/useMessages.ts:88-95 | a failed user insert leaves the user message failed, the placeholder streaming and empty, two stores written and nothing posted |
| Messages.SendRelayFailed | app/chat/hooks/useMessages.ts:113-120 | a failed relay leaves the placeholder failed with content `""` and the user message still sending |
| Messages.AfterRequestStreamed | app/chat/hooks/useMessages.ts:126-167 | over a streamed reply: content accumulates chunk by chunk; a read error stops with the text so far; a failed assistant insert marks it failed keeping the text; a successful one swaps in the store id (or keeps the temporary one) and sets sent |
| Messages.SendReachesRelay | app/chat/hooks/useMessages.ts:83-111 | when the user insert succeeds, the trace is the append followed by the relay phase on the appended store |
| Messages.SendStreamProgress | app/chat/hooks/useMessages.ts:126-137 | for the whole send, after j chunks the thread is the pre-send list, the user message, and the placeholder holding the first j chunks concatenated |
| Messages.SendStreamEnded | app/chat/hooks/useMessages.ts:127-167 | the final thread list for each ending: aborted read, failed assistant insert, or completed with the stored id and status sent, list length unchanged |
| Messages.UserNeverSent | app/chat/hooks/useMessages.ts:65-95 | the user message's status is only ever sending or failed: it is never set to sent |
| Messages.CompletedIdUnique | app/chat/hooks/useMessages.ts:160-167 | a completed send with a fresh store id leaves that id on exactly one message, the last |
| Messages.StreamStepsChangeOne | app/chat/hooks/useMessages.ts:131-136 | every streaming and finalising step changes only the placeholder |
| Messages.SendStepsChangeOne | app/chat/hooks/useMessages.ts:78-167 | every step after the append changes at most one message, the one at index k: the user message when its insert failed, otherwise the placeholder; every other message stays as it was |
| Messages.LoadMessages | app/chat/hooks/useMessages.ts:31-53 | no selection does nothing; a cancelled load only set the loading flag; an error keeps the store; a completed load replaces the selected thread's list with the rows (null content as `""`, status sent) and leaves other threads alone |
| Messages.VisibleMessages | app/chat/hooks/useMessages.ts:172-174 | the selected thread's list, or `[]` when nothing (or `""`) is selected or the thread has no entry |
| Messages.CancelledLoadKeepsStore | app/chat/hooks/useMessages.ts:41-57 | a cancelled load changes no thread, whatever is selected afterwards |
| Relay.Classify | app/api/chat/route.ts:69-83 | a line only ever emits non-empty text |
| Relay.ClassifyCases | app/api/chat/route.ts:69-86 | only `data: ` lines count; a trimmed `[DONE]` payload stops; a malformed payload is skipped; the delta content wins when present even if empty, the message content is the fallback, and empty text is skipped |
| Relay.Lines | app/api/chat/route.ts:67 | the lines of a chunk are non-empty and contain no line break |
| Relay.RelayLines | app/api/chat/route.ts:68-88 | every enqueued delta is non-empty |
| Relay.RelayChunks | app/api/chat/route.ts:63-90 | every enqueued delta is non-empty |
| Relay.RelayLinesSpec | app/api/chat/route.ts:68-88 | the relay enqueues exactly the emitted texts of the lines before the first `[DONE]` line, in order, and reports done exactly when such a line exists |
| Relay.RelayLinesAppend | app/api/chat/route.ts:63-90 | relaying `a + b` relays `a` and, unless `a` hit `[DONE]`, then `b` |
| Relay.RelayChunksFlat | app/api/chat/route.ts:63-89 | the nested read loop is one fold over all lines of all chunks |
| Relay.DoneStopsStream | app/api/chat/route.ts:71-74 | after a `[DONE]` line no later line, in this chunk or another, emits anything |
| Relay.SkippedLineIsInvisible | app/api/chat/route.ts:84-86 | a skipped line (malformed, non-data, empty delta) neither emits nor stops: removing it changes nothing |
| Relay.RelayChunksAppend | app/api/chat/route.ts:71-74 | when a chunk ends the stream with `[DONE]`, later chunks are not looked at |
| Relay.CutFrameLost | app/api/chat/route.ts:63-67 | a frame whose `data: ` prefix is split across two reads relays nothing, while the same bytes in one read relay the frame |
| Relay.CutFrameExample | app/api/chat/route.ts:66-82 | reads `dat` and `a: A\n` relay no delta where `data: A\n` relays `Hi` |
| Relay.BufferedLoopJoins | app/api/chat/route.ts:63-67 | the buffered read loop relays the lines of the buffer and all later reads joined |
| Relay.RelayBuffered | app/api/chat/route.ts:63-67 | the buffered loop relays what the loop as written relays when the whole stream arrives in one read |
| Relay.ChunkingIrrelevant | app/api/chat/route.ts:63-67 | with the buffer, how the stream is split into reads does not matter |
| Relay.CutFrameKept | app/api/chat/route.ts:63-67 | with the buffer, a frame cut inside its prefix is relayed as if it had arrived whole |
| Relay.LinesAppendAtBreak | app/api/chat/route.ts:66-67 | a read ending on a line break leaves no partial line: the lines of `a + b` are those of `a` then `b` |
| Relay.AlignedLines | app/api/chat/route.ts:63-67 | when every read ends on a line break, the per-read lines are the lines of the whole stream |
| Relay.AlignedReadsAgree | app/api/chat/route.ts:63-67 | the loop as written and the buffered loop agree whenever every read ends on a line break |
| Relay.Post | app/api/chat/route.ts:18-94 | no session gives 401 `Unauthorized`; an unreadable body 500 with its error; a missing thread id or missing/empty messages 400 `Invalid payload`; a missing key 500 `Missing GROQ_API_KEY`; a failed fetch 500 with its message; a bad upstream 500 with its text or `LLM request failed with status N`; otherwise the deltas of the lines of the whole stream, however it was split into reads; only statuses 400, 401, 500 are plain |
| Relay.ValidationOrder | app/api/chat/route.ts:18-35 | without a session nothing else is consulted; an invalid payload wins over the key and the provider; a missing key wins over the provider |
| Characters.Find | app/chat/constants.ts:40-42 | the result is absent exactly when no title matches; otherwise it is the first matching character |
| Characters.FindOwnTitle | app/chat/constants.ts:8-42 | with distinct titles, looking a character up by its own title finds it |
| Characters.FindIgnoresCase | app/chat/constants.ts:40-42 | titles differing only in letter case find the same character |
| Characters.DefaultsWellFormed | app/chat/constants.ts:8-37 | the four default characters have distinct ids, distinct titles (ignoring case), and all have a title and an avatar |
| Characters.DefaultLookup | app/chat/constants.ts:39-54 | each default title, in any letter case, maps to that character's avatar and prompt |
| Characters.NoTitleFallsBack | app/chat/constants.ts:39-54 | a null or missing title gives `/character-three.png` and the default prompt |
| Characters.UnknownTitleFallsBack | app/chat/constants.ts:43-54 | a title matching no default character gives `/character-three.png` and the default prompt |
| Threads.LoadThreads | app/chat/hooks/useThreads.ts:34-53 | without a user or ready profile nothing runs; a cancelled load only set loading; an error keeps threads and selection; a non-empty load stores the rows with `avatarForTitle` avatars and keeps a set selection or selects the first thread; an empty or null result clears both |
| Threads.LoadSelects | app/chat/hooks/useThreads.ts:46-50 | after a load that found threads something is selected: the earlier choice or the first thread |
| Threads.SelectThread | app/chat/hooks/useThreads.ts:71-73 | the selection becomes exactly the id; threads are unchanged |
| Threads.Available | app/chat/hooks/useThreads.ts:61-69 | a character is offered iff its lower-cased title is empty or null, or no thread's lower-cased title equals it |
| Threads.NoThreadsAllAvailable | app/chat/hooks/useThreads.ts:61-69 | with no threads every character is offered, in order |
| Threads.AvailableInOrder | app/chat/hooks/useThreads.ts:63-67 | the offered characters are a subsequence of the table |
| Threads.Resolve | app/chat/hooks/useThreads.ts:78-98 | the first thread, in list order, whose title equals the character's (both non-empty, ignoring case) is selected; otherwise the insert's row becomes a thread titled `title ?? "Chat"` with the character's avatar; an error or null row changes nothing |
| Threads.StartThread | app/chat/hooks/useThreads.ts:75-101 | without a user or ready profile nothing changes; otherwise the selection moves to the existing thread, or one thread is appended and selected, or nothing changes; threads only ever grow by one at the end |
| Threads.StartTwiceReuses | app/chat/hooks/useThreads.ts:78-100 | starting a chat with the same character twice never creates a second thread |
| Threads.CreatedNoLongerAvailable | app/chat/hooks/useThreads.ts:61-100 | once a thread for a character exists, the character is no longer offered |
| ChatPage.PageTableAgrees | app/chat/page.tsx:23-28 | the screen's copy of the character table equals the shared table's ids, titles and avatars |
| ChatPage.PageAvatarAgrees | app/chat/page.tsx:30-35 | the screen's `avatarForTitle` gives the same avatar as the shared one for every title |
| ChatPage.PageAvailability | app/chat/page.tsx:81-91 | the screen offers exactly the characters the hook offers |
| ChatPage.PickerValue | app/chat/page.tsx:93-104 | no character offered gives `""`; an offered current value is kept; otherwise the first offered id |
| ChatPage.PickerSettles | app/chat/page.tsx:93-104 | the effect reaches a fixed point after one run |
| ChatPage.PageLoadThreads | app/chat/page.tsx:147-173 | without a user or ready profile nothing runs; an error only clears the loading flag; a non-empty load stores the rows with avatars and selects the first thread; an empty load clears threads and selection and hides the mobile chat pane |
| ChatPage.PageReloadResetsSelection | app/chat/page.tsx:161-163 | unlike the hook, the screen's reload replaces an existing selection with the first thread |
| ChatPage.SelectPageThread | app/chat/page.tsx:203-206 | selects the id, shows the chat pane on a phone, changes nothing else |
| ChatPage.PageStartThread | app/chat/page.tsx:208-240 | no user changes nothing; an unready profile first needs `ensureProfile` to succeed, which marks it ready; then the same resolution as the hook, with the chat pane shown on select or create |
| ChatPage.PageStartMatchesHook | app/chat/page.tsx:214-239 | with a ready profile the screen and the hook make the same change to threads and selection |
| ChatPage.StartNewChat | app/chat/page.tsx:242-246 | an id not in the table does nothing; a table id starts a thread with that character |
| ChatPage.HandleSend | app/chat/page.tsx:248-269 | a blank input or no selected thread does nothing; otherwise the input is cleared and the send pipeline runs on the selected thread starting with the optimistic append |
| ChatPage.PageLoadMessages | app/chat/page.tsx:175-197 | the screen's load without a cancel flag: no selection does nothing; other threads are kept; a load replaces the selected thread's list with one sent message per row |
| ChatPage.ViewsExclusive | app/chat/page.tsx:364-370 | the two flags never hold together, because one needs a selected thread and the other needs none; this says nothing about which view the list draws first |
| MessageList.DisplayOf | app/chat/components/MessageList.tsx:97-113 | "Thinking..." iff an assistant message is streaming with blank content; any other assistant message is markdown of its content; a user message is always the user's own bubble with its content |
| MessageList.Render | app/chat/components/MessageList.tsx:95-116 | one entry per message, in order, keyed by the message id |
| MessageList.RenderAppend | app/chat/components/MessageList.tsx:95-116 | appending messages appends their entries and redraws no earlier one |
| MessageList.RenderUpdate | app/chat/components/MessageList.tsx:95-116 | changing one message changes only its entry |
| MessageList.FreshSendDisplay | app/chat/components/MessageList.tsx:97-112 | right after a send the user message shows as the user's bubble and the placeholder as "Thinking..." |
| MessageList.StreamedDisplay | app/chat/components/MessageList.tsx:100-110 | an assistant message with visible text, or no longer streaming, shows its content as markdown |
| MessageList.ViewOf | app/chat/components/MessageList.tsx:83-93 | the placeholder wins over the empty view, which wins over the list |
| Middleware.Param | middleware.ts:22 | the value of the first pair with that name: no earlier pair has the name; absent iff no pair has that name |
| Middleware.FirstCodeWins | middleware.ts:22-30 | with `?code=&code=x` the first, empty value is read, so the request is not treated as a code exchange |
| Middleware.Decide | middleware.ts:7-38 | unprotected paths pass; a protected path passes with a non-empty `code` or a session, and otherwise redirects to the same URL with path `/login` and the same query |
| Middleware.ProtectedExamples | middleware.ts:5-12 | the prefix test protects `/chat`, `/chat/x` and `/chatroom` but not `/login` or `/` |
| Middleware.RedirectSettles | middleware.ts:32-36 | the redirect target passes the check: no redirect loop |
| Middleware.MatchedIsProtected | middleware.ts:41-43 | every path the route matcher sends to the check is protected |
| Toast.AddToast | components/ui/toast.tsx:33-41 | one toast at the end, earlier toasts unchanged, id, title and description copied, variant the caller's or `info` when not given |
| Toast.RemoveToastMembers | components/ui/toast.tsx:29-31 | the survivors are exactly the toasts with another id |
| Toast.RemoveAppend | components/ui/toast.tsx:30 | removal works piecewise, so survivors keep their order |
| Toast.RemoveAbsent | components/ui/toast.tsx:30 | removing an id nobody has changes nothing |
| Toast.RemoveIdempotent | components/ui/toast.tsx:29-31 | removing twice equals removing once |
| Toast.AddThenRemove | components/ui/toast.tsx:29-42 | with a fresh id, removing a just-added toast restores the list |
| Toast.AddedToastVariant | components/ui/toast.tsx:36-72 | a new toast is drawn with the caller's variant, or `info` when none was given |
| Login.SubmitEnabledIffValid | app/login/page.tsx:46-47 | submit is enabled iff not loading, email and password are non-empty, and terms are accepted or the mode is sign-in |
| Login.ModeFromQuery | app/login/page.tsx:38-43 | only the exact values `signin` and `signup` change the mode |
| Login.DefaultModeIsSignUp | app/login/page.tsx:24-43 | without `mode=signin` the page shows sign-up |
| Login.Toggle | app/login/page.tsx:143-146 | the mode flips, the error clears, the form stays |
| Login.ToggleTwice | app/login/page.tsx:269-272 | switching twice returns to the same mode with no error |
| Login.Submit | app/login/page.tsx:49-97 | loading always ends and the form is kept; a sign-up success switches to sign-in with the `Account created` toast; a sign-in success raises `Signed in` / `Welcome back!` and is the only path to `/chat`; a failure keeps the mode, shows its message (or `Something went wrong.` for a non-`Error` value) and raises the `Authentication failed` error toast with that text |
| Login.SignUpThenSignIn | app/login/page.tsx:55-84 | after a successful sign-up the same valid form can be submitted to sign in and reach the chat |
| Text.Trim | app/chat/hooks/useMessages.ts:64-68 | `trim` gives the infix left after removing white space at both ends, and that infix neither starts nor ends with white space |
| Text.TrimEmptyIffAllSpace | app/chat/hooks/useMessages.ts:64 | an input is blank iff every character is white space |
| Text.TrimIdempotent | app/chat/hooks/useMessages.ts:68 | trimming twice is trimming once |
| Text.LowerIgnoresCase | app/chat/constants.ts:41 | strings that differ only in letter case lower-case to the same string |
| Text.Split | app/api/chat/route.ts:67 | at least one piece, none containing the separator |
| Text.JoinSplit | app/api/chat/route.ts:67 | splitting loses nothing: joining the pieces gives the chunk back |
| Text.SplitJoin | app/api/chat/route.ts:67 | splitting a join of separator-free pieces gives the pieces back |
| Text.SplitAppend | app/api/chat/route.ts:66-67 | splitting `a + b`: all pieces of `a` but the last are complete, and the last continues into `b` |
| Text.NonEmpty | app/api/chat/route.ts:67 | `filter(Boolean)` keeps only non-empty strings and never grows the list |
| Text.ConcatNonEmpty | app/api/chat/route.ts:81-83 | dropping empty deltas does not change the streamed text |
| Text.DecimalRoundTrip | app/api/chat/route.ts:53 | the status rendered in the error text denotes the status |

## Left out

- Supabase, `fetch`, stream readers, `TextDecoder`/`TextEncoder`, `cookies()` and `process.env` are I/O. Their outcomes are parameters. Chunks arrive already decoded to strings, so a multi-byte character split across reads is not modelled.
- `JSON.parse` and the provider's JSON shape are reduced to `Payload`: the two content fields, or a parse error.
- `crypto.randomUUID()` results are parameters. Their freshness is the `FreshIds` hypothesis of the lemmas that need it.
- Overlapping sends, effect cleanup cancelling a reader (`streamingControllers`) and React's batching are concurrency. A send is modelled as running alone against the store it started from.
- The relay's outer `catch` is modelled for an unreadable body and a failed `fetch`. Other thrown errors (cookie or session lookup) and errors raised inside the stream are not.
- React rendering, markdown, scrolling, styling and the remaining components are presentation. This covers ThreadList, ThreadListMobile, ChatHeader, Composer, Bubble, NewChatSelector, SystemOutput and site-header.
- Auth flows are foreign calls: OAuth sign-in (`handleGoogle`), the callback page, the auth buttons' session cache and `useProfileGuard`. The login model keeps the form rules and what a submit does with the auth call's outcome.
- The chat screen's OAuth query cleanup, the user and profile effects, and the disabled-input flag are browser or Supabase calls, or trivial. `ensureProfile`'s outcome enters `ChatPage.PageStartThread` as a parameter.
- Toast timers (4200 ms), the portal and the Escape-key listener are timing and DOM. The `useToast` outside-provider error is left out too.
- `toLowerCase` is modelled for ASCII letters only. Unicode case mapping is not.
- `created_at` is carried through the load but not used to order anything. The query's `order` clause is the database's job.
- The hook's `sendMessage` takes no system prompt, and neither does the model: `promptForTitle` is modelled but no caller uses it.
- Relay.Classify: its own contract only says an emitted text is non-empty. The full case analysis is stated by Relay.ClassifyCases.
- ChatPage.HandleSend: states the guard, the cleared input, the optimistic append and that the store becomes the pipeline's last store. The later steps are those of Messages.SendMessage and are covered by its lemmas.
- ChatPage.PageLoadMessages: does not restate the per-row role and content mapping. It is the hook's load with the cancel flag off, and that mapping is stated by Messages.LoadMessages.
- Relay.RelayLines and Relay.RelayChunks: their own contracts only say deltas are non-empty. Their meaning is stated by Relay.RelayLinesSpec and Relay.RelayChunksFlat.
- Relay.Post: streams through the corrected buffered loop, not the loop as written (see Findings). The two agree whenever every read ends on a line break (`Relay.AlignedReadsAgree`).
- Where the written behaviour differs from what the surrounding design suggests, the model follows the code:
  - the user message is never marked sent;
  - the history is the list before the optimistic append;
  - the screen's reload re-selects the first thread;
  - the screen starts threads after an on-demand profile check, while the hook requires a ready profile.

## Findings

| source | as written | input that shows it | evidently intended | confidence | as-written member | corrected member |
|---|---|---|---|---|---|---|
| app/api/chat/route.ts:63-67 | each read is decoded and split into lines on its own, with no carry-over of an unterminated last line | the provider's frame `data: A\n` arrives as two reads, `dat` and `a: A\n`, where payload `A` carries the delta `Hi`: neither piece is a `data: ` line, so `Hi` is never relayed | keep the unterminated tail of each read and prepend it to the next read, processing it as a last line when the stream ends | not executed | Relay.CutFrameExample | Relay.RelayBuffered |

The as-written loop is `Relay.RelayChunks`. `Relay.CutFrameLost` generalises the
counterexample: a frame cut anywhere inside its `data: ` prefix is lost.
`Relay.RelayBuffered` is the corrected loop, and `Relay.Post` relays through it:

- `Relay.ChunkingIrrelevant` proves its output does not depend on where reads split the stream.
- `Relay.CutFrameKept` proves it relays the cut frame.
- `Relay.AlignedReadsAgree` proves the two loops agree whenever every read ends on a line break.
