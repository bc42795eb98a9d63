/**
 * The per-thread message store of the chat client and the `sendMessage` pipeline
 * that updates it: optimistic append, user-insert failure, relay failure, one
 * content update per streamed chunk, and the final id swap. Every state update
 * of the source is a copy-on-write replacement of the whole store; here each one
 * is a pure function from store to store, and the I/O results (insert outcome,
 * relay reply, chunk texts, store-assigned id) are parameters.
 */
module Messages {
  import opened Wrappers
  import opened Text
  import opened Chat

  type ThreadId = string
  type MessageId = string

  datatype Status = Sending | Streaming | Failed | Sent

  datatype Message = Message(id: MessageId, role: Role, content: string, createdAt: Option<string>, status: Status)

  /** `Record<string, Message[]>`, keyed by thread id. */
  type Store = map<ThreadId, seq<Message>>

  /** `store[t] ?? []` */
  function ThreadMessages(store: Store, t: ThreadId): seq<Message> {
    if t in store then store[t] else []
  }

  /** The three per-message updates the pipeline applies by id. */
  datatype Edit = MarkFailed | SetContent(text: string) | Finalize(storeId: Option<MessageId>)

  function Apply(m: Message, e: Edit): Message {
    match e
    case MarkFailed => m.(status := Failed)
    case SetContent(text) => m.(content := text)
    case Finalize(storeId) => m.(id := storeId.GetOr(m.id), status := Sent)
  }

  /** `list.map(m => m.id === id ? edit(m) : m)`: every message carrying `id` is edited. */
  function EditById(list: seq<Message>, id: MessageId, e: Edit): (r: seq<Message>)
    ensures |r| == |list|
  {
    seq(|list|, i requires 0 <= i < |list| => if list[i].id == id then Apply(list[i], e) else list[i])
  }

  /**
   * `{ ...prev, [t]: prev[t]?.map(...) }`. When `t` has no entry the source stores
   * `undefined` under `t`; every reader of the store maps that to `[]` exactly as it
   * maps a missing key, so the model leaves the store as it is.
   */
  function EditThread(store: Store, t: ThreadId, id: MessageId, e: Edit): Store {
    if t in store then store[t := EditById(store[t], id, e)] else store
  }

  /** `id` is carried by the message at index `k` and by no other message of `list`. */
  predicate IdOnlyAt(list: seq<Message>, id: MessageId, k: int) {
    0 <= k < |list| && list[k].id == id && forall i :: 0 <= i < |list| && i != k ==> list[i].id != id
  }

  predicate IdAbsent(list: seq<Message>, id: MessageId) {
    forall i :: 0 <= i < |list| ==> list[i].id != id
  }

  /**
   * `after` differs from `before` in the single message at index `k` of thread `t`:
   * same threads, same list lengths, every other thread and every other message equal.
   */
  predicate OnlyChanged(before: Store, after: Store, t: ThreadId, k: int) {
    && t in before
    && after.Keys == before.Keys
    && (forall u :: u in before && u != t ==> after[u] == before[u])
    && |after[t]| == |before[t]|
    && 0 <= k < |before[t]|
    && (forall i :: 0 <= i < |before[t]| && i != k ==> after[t][i] == before[t][i])
  }

  /** Editing by an id that exactly one message carries changes that message and nothing else. */
  lemma EditOne(store: Store, t: ThreadId, id: MessageId, k: int, e: Edit)
    requires t in store && IdOnlyAt(store[t], id, k)
    ensures OnlyChanged(store, EditThread(store, t, id, e), t, k)
    ensures EditThread(store, t, id, e)[t][k] == Apply(store[t][k], e)
  {
  }

  /** Every edit keeps the set of threads, the other threads and the length of every list. */
  lemma EditKeepsShape(store: Store, t: ThreadId, id: MessageId, e: Edit)
    ensures EditThread(store, t, id, e).Keys == store.Keys
    ensures forall u :: u in store && u != t ==> EditThread(store, t, id, e)[u] == store[u]
    ensures t in store ==> |EditThread(store, t, id, e)[t]| == |store[t]|
    ensures t in store ==> forall i :: 0 <= i < |store[t]| && store[t][i].id != id ==>
      EditThread(store, t, id, e)[t][i] == store[t][i]
  {
  }

  // ---------------------------------------------------------------------------
  // sendMessage

  const UserIdPrefix := "temp-"
  const AssistantIdPrefix := "assistant-"

  /** What `fetch("/api/chat")` gave back. */
  datatype Reply =
    | Rejected                                                          // fetch itself threw
    | Answered(ok: bool, hasBody: bool, chunks: seq<string>, readError: bool)  // decoded chunks, then done or a read error

  datatype AssistantInsert = InsertFailed | Inserted(storeId: Option<MessageId>)

  datatype SendOutcome = Ignored | UserInsertFailed | RelayFailed | Aborted | AssistantInsertFailed | Completed

  /**
   * `trace` holds the store after each `setMessagesByThread` call, in order;
   * `request` is the history posted to the relay, if the pipeline got that far.
   */
  datatype SendResult = SendResult(trace: seq<Store>, request: Option<seq<ChatEntry>>, outcome: SendOutcome)

  function UserMessage(content: string, userUuid: string): Message {
    Message(UserIdPrefix + userUuid, User, content, None, Sending)
  }

  function Placeholder(assistantUuid: string): Message {
    Message(AssistantIdPrefix + assistantUuid, Assistant, "", None, Streaming)
  }

  /** The two generated ids differ whatever the random parts are: their first characters differ. */
  lemma TempIdsDistinct(userUuid: string, assistantUuid: string)
    ensures UserIdPrefix + userUuid != AssistantIdPrefix + assistantUuid
  {
    assert (UserIdPrefix + userUuid)[0] == 't';
    assert (AssistantIdPrefix + assistantUuid)[0] == 'a';
  }

  /** `messages.map(m => ({ role: m.role, content: m.content }))` */
  function History(list: seq<Message>): (h: seq<ChatEntry>)
    ensures |h| == |list|
    ensures forall i :: 0 <= i < |list| ==> h[i].role == list[i].role && h[i].content == list[i].content
  {
    seq(|list|, i requires 0 <= i < |list| => ChatEntry(list[i].role, list[i].content))
  }

  /** The store after each streamed chunk: the placeholder's content becomes the text accumulated so far. */
  function StreamTrace(store: Store, t: ThreadId, id: MessageId, chunks: seq<string>, text: string): (r: seq<Store>)
    ensures |r| == |chunks|
    ensures forall j :: 0 <= j < |r| ==> r[j].Keys == store.Keys
    ensures forall j, u :: 0 <= j < |r| && u in store && u != t ==> r[j][u] == store[u]
    ensures t in store ==> forall j :: 0 <= j < |r| ==> |r[j][t]| == |store[t]|
    decreases |chunks|
  {
    if |chunks| == 0 then []
    else
      var text' := text + chunks[0];
      var next := EditThread(store, t, id, SetContent(text'));
      EditKeepsShape(store, t, id, SetContent(text'));
      [next] + StreamTrace(next, t, id, chunks[1..], text')
  }

  function Last(start: Store, trace: seq<Store>): Store {
    if |trace| == 0 then start else trace[|trace| - 1]
  }

  /** The stores after the optimistic append when the pipeline reaches the relay, and how it ended. */
  datatype RelayPhase = RelayPhase(trace: seq<Store>, outcome: SendOutcome)

  /**
   * Lines 113-167 of the hook: the relay reply decides between marking the
   * placeholder failed and streaming into it; the assistant insert then decides
   * between marking it failed and swapping in the store id with status `sent`.
   */
  function AfterRequest(appended: Store, t: ThreadId, id: MessageId, reply: Reply, assistantInsert: AssistantInsert): (r: RelayPhase)
    requires t in appended
    ensures r.outcome in {Aborted, RelayFailed, AssistantInsertFailed, Completed}
    ensures forall j :: 0 <= j < |r.trace| ==> r.trace[j].Keys == appended.Keys
    ensures forall j, u :: 0 <= j < |r.trace| && u in appended && u != t ==> r.trace[j][u] == appended[u]
    ensures forall j :: 0 <= j < |r.trace| ==> |r.trace[j][t]| == |appended[t]|
  {
    match reply
    case Rejected => RelayPhase([], Aborted)
    case Answered(ok, hasBody, chunks, readError) =>
      if !ok || !hasBody then
        EditKeepsShape(appended, t, id, MarkFailed);
        RelayPhase([EditThread(appended, t, id, MarkFailed)], RelayFailed)
      else
        var streamed := StreamTrace(appended, t, id, chunks, "");
        if readError then RelayPhase(streamed, Aborted)
        else
          var streamedStore := Last(appended, streamed);
          var edit := if assistantInsert.InsertFailed? then MarkFailed else Finalize(assistantInsert.storeId);
          EditKeepsShape(streamedStore, t, id, edit);
          RelayPhase(streamed + [EditThread(streamedStore, t, id, edit)],
                     if assistantInsert.InsertFailed? then AssistantInsertFailed else Completed)
  }

  /**
   * `sendMessage(input, threadId)`. The two random UUIDs, the outcome of the user
   * insert, the relay reply and the assistant insert are parameters. The history
   * posted to the relay is built from the thread's list as it was before the
   * optimistic append, followed by the new user entry.
   */
  function SendMessage(store: Store, input: string, t: ThreadId, userUuid: string, assistantUuid: string,
                       userInsertOk: bool, reply: Reply, assistantInsert: AssistantInsert): (r: SendResult)
    ensures r.outcome == Ignored <==> Trim(input) == []
    ensures r.outcome == Ignored ==> r.trace == [] && r.request == None
    ensures r.outcome != Ignored ==>
      && |r.trace| >= 1
      && t in r.trace[0]
      && r.trace[0][t] == ThreadMessages(store, t) + [UserMessage(Trim(input), userUuid), Placeholder(assistantUuid)]
    ensures forall j :: 0 <= j < |r.trace| ==> r.trace[j].Keys == store.Keys + {t}
    ensures forall j, u :: 0 <= j < |r.trace| && u in store && u != t ==> r.trace[j][u] == store[u]
    ensures forall j :: 0 <= j < |r.trace| ==> |r.trace[j][t]| == |ThreadMessages(store, t)| + 2
    ensures r.request.Some? <==> r.outcome !in {Ignored, UserInsertFailed}
    ensures r.request.Some? ==>
      var prior := ThreadMessages(store, t);
      && |r.request.value| == |prior| + 1
      && (forall i :: 0 <= i < |prior| ==> r.request.value[i] == ChatEntry(prior[i].role, prior[i].content))
      && r.request.value[|prior|] == ChatEntry(User, Trim(input))
  {
    var content := Trim(input);
    if content == [] then SendResult([], None, Ignored)
    else
      var user := UserMessage(content, userUuid);
      var placeholder := Placeholder(assistantUuid);
      var appended := store[t := ThreadMessages(store, t) + [user, placeholder]];
      if !userInsertOk then
        EditKeepsShape(appended, t, user.id, MarkFailed);
        SendResult([appended, EditThread(appended, t, user.id, MarkFailed)], None, UserInsertFailed)
      else
        var request := History(ThreadMessages(store, t)) + [ChatEntry(User, content)];
        var phase := AfterRequest(appended, t, placeholder.id, reply, assistantInsert);
        SendResult([appended] + phase.trace, Some(request), phase.outcome)
  }

  /** The store once the pipeline has stopped. */
  function FinalStore(store: Store, r: SendResult): Store {
    Last(store, r.trace)
  }

  /** Neither generated id is already carried by a message of the thread. */
  predicate FreshIds(store: Store, t: ThreadId, userUuid: string, assistantUuid: string) {
    IdAbsent(ThreadMessages(store, t), UserIdPrefix + userUuid)
    && IdAbsent(ThreadMessages(store, t), AssistantIdPrefix + assistantUuid)
  }

  /**
   * Streaming into the single message at index `k`: after `j + 1` chunks the thread
   * holds the same messages except that the placeholder's content is the
   * accumulated text, the concatenation of the first `j + 1` chunks.
   */
  lemma {:induction false} StreamAccumulates(store: Store, t: ThreadId, id: MessageId, k: int,
                                             chunks: seq<string>, text: string, j: int)
    requires t in store && IdOnlyAt(store[t], id, k)
    requires 0 <= j < |chunks|
    ensures StreamTrace(store, t, id, chunks, text)[j][t]
         == store[t][k := store[t][k].(content := text + Concat(chunks[..j + 1]))]
    decreases j
  {
    var text' := text + chunks[0];
    var next := EditThread(store, t, id, SetContent(text'));
    EditOne(store, t, id, k, SetContent(text'));
    assert next[t] == store[t][k := store[t][k].(content := text')];
    var r := StreamTrace(store, t, id, chunks, text);
    assert chunks[..j + 1] == [chunks[0]] + chunks[1..][..j];
    assert Concat(chunks[..j + 1]) == chunks[0] + Concat(chunks[1..][..j]);
    if j == 0 {
      assert r[0] == next;
      assert chunks[1..][..0] == [];
      assert Concat(chunks[..1]) == chunks[0];
    } else {
      StreamAccumulates(next, t, id, k, chunks[1..], text', j - 1);
      assert r[j] == StreamTrace(next, t, id, chunks[1..], text')[j - 1];
      assert chunks[1..][..(j - 1) + 1] == chunks[1..][..j];
      var c := text' + Concat(chunks[1..][..j]);
      assert c == text + Concat(chunks[..j + 1]);
      assert next[t][k].(content := c) == store[t][k].(content := c);
      assert next[t][k := store[t][k].(content := c)] == store[t][k := store[t][k].(content := c)];
    }
  }

  /** The store after the last chunk: the placeholder holds the concatenation of all chunks. */
  lemma StreamedStore(store: Store, t: ThreadId, id: MessageId, k: int, chunks: seq<string>)
    requires t in store && IdOnlyAt(store[t], id, k) && store[t][k].content == ""
    ensures var s := Last(store, StreamTrace(store, t, id, chunks, ""));
      t in s && s[t] == store[t][k := store[t][k].(content := Concat(chunks))]
  {
    if |chunks| == 0 {
      assert store[t][k := store[t][k].(content := "")] == store[t];
    } else {
      var r := StreamTrace(store, t, id, chunks, "");
      StreamAccumulates(store, t, id, k, chunks, "", |chunks| - 1);
      assert chunks[..(|chunks| - 1) + 1] == chunks;
      assert r[|chunks| - 1][t] == store[t][k := store[t][k].(content := "" + Concat(chunks))];
      assert "" + Concat(chunks) == Concat(chunks);
    }
  }

  /** The optimistic append: both generated ids are carried by exactly one message. */
  lemma AppendedIds(store: Store, input: string, t: ThreadId, userUuid: string, assistantUuid: string)
    requires FreshIds(store, t, userUuid, assistantUuid)
    ensures var prior := ThreadMessages(store, t);
      var appended := prior + [UserMessage(Trim(input), userUuid), Placeholder(assistantUuid)];
      && IdOnlyAt(appended, UserIdPrefix + userUuid, |prior|)
      && IdOnlyAt(appended, AssistantIdPrefix + assistantUuid, |prior| + 1)
  {
    TempIdsDistinct(userUuid, assistantUuid);
  }

  /**
   * A failed user insert marks the user message `failed` and stops: the placeholder
   * stays `streaming` with no content, and nothing is posted.
   */
  lemma SendUserInsertFailed(store: Store, input: string, t: ThreadId, userUuid: string, assistantUuid: string,
                             reply: Reply, assistantInsert: AssistantInsert)
    requires Trim(input) != [] && FreshIds(store, t, userUuid, assistantUuid)
    ensures
      var r := SendMessage(store, input, t, userUuid, assistantUuid, false, reply, assistantInsert);
      var user := UserMessage(Trim(input), userUuid);
      && r.outcome == UserInsertFailed && r.request == None && |r.trace| == 2
      && FinalStore(store, r)[t] == ThreadMessages(store, t) + [user.(status := Failed), Placeholder(assistantUuid)]
  {
    var prior := ThreadMessages(store, t);
    var user := UserMessage(Trim(input), userUuid);
    var appended := store[t := prior + [user, Placeholder(assistantUuid)]];
    AppendedIds(store, input, t, userUuid, assistantUuid);
    EditOne(appended, t, user.id, |prior|, MarkFailed);
    assert EditThread(appended, t, user.id, MarkFailed)[t] == prior + [user.(status := Failed), Placeholder(assistantUuid)];
  }

  /** A relay reply that is not ok or has no body marks the placeholder `failed`; its content stays empty. */
  lemma SendRelayFailed(store: Store, input: string, t: ThreadId, userUuid: string, assistantUuid: string,
                        reply: Reply, assistantInsert: AssistantInsert)
    requires Trim(input) != [] && FreshIds(store, t, userUuid, assistantUuid)
    requires reply.Answered? && (!reply.ok || !reply.hasBody)
    ensures
      var r := SendMessage(store, input, t, userUuid, assistantUuid, true, reply, assistantInsert);
      var ph := Placeholder(assistantUuid);
      && r.outcome == RelayFailed && |r.trace| == 2
      && FinalStore(store, r)[t] == ThreadMessages(store, t) + [UserMessage(Trim(input), userUuid), ph.(status := Failed)]
  {
    var prior := ThreadMessages(store, t);
    var ph := Placeholder(assistantUuid);
    var appended := store[t := prior + [UserMessage(Trim(input), userUuid), ph]];
    AppendedIds(store, input, t, userUuid, assistantUuid);
    EditOne(appended, t, ph.id, |prior| + 1, MarkFailed);
    assert EditThread(appended, t, ph.id, MarkFailed)[t] == prior + [UserMessage(Trim(input), userUuid), ph.(status := Failed)];
  }

  /**
   * Once the relay answered with a body, for a placeholder at index `k` that no
   * other message shares an id with: every chunk sets its content to the text
   * accumulated so far, one store per chunk. Then a read error leaves it
   * `streaming` with that text; a failed assistant insert marks it `failed`
   * keeping the text; a successful one swaps in the store id (or keeps the
   * temporary id when none came back) and sets `sent`.
   */
  lemma AfterRequestStreamed(appended: Store, t: ThreadId, id: MessageId, k: int,
                             chunks: seq<string>, readError: bool, assistantInsert: AssistantInsert)
    requires t in appended && IdOnlyAt(appended[t], id, k) && appended[t][k].content == ""
    ensures
      var p := AfterRequest(appended, t, id, Answered(true, true, chunks, readError), assistantInsert);
      var ph := appended[t][k];
      var f := Last(appended, p.trace)[t];
      && |p.trace| == |chunks| + (if readError then 0 else 1)
      && (forall j :: 0 <= j < |chunks| ==> p.trace[j][t] == appended[t][k := ph.(content := Concat(chunks[..j + 1]))])
      && (readError ==> p.outcome == Aborted && f == appended[t][k := ph.(content := Concat(chunks))])
      && (!readError && assistantInsert.InsertFailed? ==>
            p.outcome == AssistantInsertFailed && f == appended[t][k := ph.(content := Concat(chunks), status := Failed)])
      && (!readError && assistantInsert.Inserted? ==>
            p.outcome == Completed
            && f == appended[t][k := ph.(id := assistantInsert.storeId.GetOr(id), content := Concat(chunks), status := Sent)])
  {
    var ph := appended[t][k];
    var streamed := StreamTrace(appended, t, id, chunks, "");
    forall j | 0 <= j < |chunks| ensures streamed[j][t] == appended[t][k := ph.(content := Concat(chunks[..j + 1]))] {
      StreamAccumulates(appended, t, id, k, chunks, "", j);
      assert "" + Concat(chunks[..j + 1]) == Concat(chunks[..j + 1]);
    }
    StreamedStore(appended, t, id, k, chunks);
    var s := Last(appended, streamed);
    if !readError {
      assert IdOnlyAt(s[t], id, k);
      var edit := if assistantInsert.InsertFailed? then MarkFailed else Finalize(assistantInsert.storeId);
      EditOne(s, t, id, k, edit);
      assert EditThread(s, t, id, edit)[t] == s[t][k := Apply(s[t][k], edit)];
    }
  }

  /**
   * A send whose user insert succeeded: the trace is the optimistic append followed
   * by the relay phase on the appended store.
   */
  lemma SendReachesRelay(store: Store, input: string, t: ThreadId, userUuid: string, assistantUuid: string,
                         reply: Reply, assistantInsert: AssistantInsert)
    requires Trim(input) != []
    ensures
      var appended := store[t := ThreadMessages(store, t) + [UserMessage(Trim(input), userUuid), Placeholder(assistantUuid)]];
      var p := AfterRequest(appended, t, AssistantIdPrefix + assistantUuid, reply, assistantInsert);
      var r := SendMessage(store, input, t, userUuid, assistantUuid, true, reply, assistantInsert);
      r.trace == [appended] + p.trace && r.outcome == p.outcome
  {
  }

  /**
   * The whole send when the relay streamed: after `j` chunks the placeholder holds the
   * concatenation of the first `j` chunk texts and nothing else in the thread has changed.
   */
  lemma SendStreamProgress(store: Store, input: string, t: ThreadId, userUuid: string, assistantUuid: string,
                           chunks: seq<string>, readError: bool, assistantInsert: AssistantInsert)
    requires Trim(input) != [] && FreshIds(store, t, userUuid, assistantUuid)
    ensures
      var r := SendMessage(store, input, t, userUuid, assistantUuid, true, Answered(true, true, chunks, readError), assistantInsert);
      var prefix := ThreadMessages(store, t) + [UserMessage(Trim(input), userUuid)];
      && |r.trace| == 1 + |chunks| + (if readError then 0 else 1)
      && (forall j :: 1 <= j <= |chunks| ==> r.trace[j][t] == prefix + [Placeholder(assistantUuid).(content := Concat(chunks[..j]))])
  {
    var prior := ThreadMessages(store, t);
    var user := UserMessage(Trim(input), userUuid);
    var ph := Placeholder(assistantUuid);
    var n := |prior|;
    var appended := store[t := prior + [user, ph]];
    AppendedIds(store, input, t, userUuid, assistantUuid);
    SendReachesRelay(store, input, t, userUuid, assistantUuid, Answered(true, true, chunks, readError), assistantInsert);
    AfterRequestStreamed(appended, t, ph.id, n + 1, chunks, readError, assistantInsert);
    var p := AfterRequest(appended, t, ph.id, Answered(true, true, chunks, readError), assistantInsert);
    var r := SendMessage(store, input, t, userUuid, assistantUuid, true, Answered(true, true, chunks, readError), assistantInsert);
    forall j | 1 <= j <= |chunks| ensures r.trace[j][t] == prior + [user] + [ph.(content := Concat(chunks[..j]))] {
      assert r.trace[j] == p.trace[j - 1];
      assert (j - 1) + 1 == j;
      assert appended[t][n + 1 := ph.(content := Concat(chunks[..j]))] == prior + [user] + [ph.(content := Concat(chunks[..j]))];
    }
  }

  /**
   * How a streamed send ends: a read error leaves the placeholder `streaming` with
   * the accumulated text; a failed assistant insert marks it `failed` keeping the
   * text; a successful one swaps in the store id (or keeps the temporary id when
   * none came back) and sets `sent`.
   */
  lemma SendStreamEnded(store: Store, input: string, t: ThreadId, userUuid: string, assistantUuid: string,
                        chunks: seq<string>, readError: bool, assistantInsert: AssistantInsert)
    requires Trim(input) != [] && FreshIds(store, t, userUuid, assistantUuid)
    ensures
      var r := SendMessage(store, input, t, userUuid, assistantUuid, true, Answered(true, true, chunks, readError), assistantInsert);
      var prefix := ThreadMessages(store, t) + [UserMessage(Trim(input), userUuid)];
      var ph := Placeholder(assistantUuid);
      var f := FinalStore(store, r)[t];
      && (readError ==> r.outcome == Aborted && f == prefix + [ph.(content := Concat(chunks))])
      && (!readError && assistantInsert.InsertFailed? ==>
            r.outcome == AssistantInsertFailed && f == prefix + [ph.(content := Concat(chunks), status := Failed)])
      && (!readError && assistantInsert.Inserted? ==>
            r.outcome == Completed
            && f == prefix + [Message(assistantInsert.storeId.GetOr(ph.id), Assistant, Concat(chunks), None, Sent)])
  {
    var prior := ThreadMessages(store, t);
    var user := UserMessage(Trim(input), userUuid);
    var ph := Placeholder(assistantUuid);
    var n := |prior|;
    var appended := store[t := prior + [user, ph]];
    AppendedIds(store, input, t, userUuid, assistantUuid);
    SendReachesRelay(store, input, t, userUuid, assistantUuid, Answered(true, true, chunks, readError), assistantInsert);
    AfterRequestStreamed(appended, t, ph.id, n + 1, chunks, readError, assistantInsert);
    var p := AfterRequest(appended, t, ph.id, Answered(true, true, chunks, readError), assistantInsert);
    var r := SendMessage(store, input, t, userUuid, assistantUuid, true, Answered(true, true, chunks, readError), assistantInsert);
    var f := FinalStore(store, r)[t];
    assert f == Last(appended, p.trace)[t];
    if readError {
      ReplaceSecond(prior, user, ph, ph.(content := Concat(chunks)));
    } else if assistantInsert.InsertFailed? {
      ReplaceSecond(prior, user, ph, ph.(content := Concat(chunks), status := Failed));
    } else {
      ReplaceSecond(prior, user, ph, ph.(id := assistantInsert.storeId.GetOr(ph.id), content := Concat(chunks), status := Sent));
    }
  }

  /** Replacing the last of two appended messages. */
  lemma ReplaceSecond(prior: seq<Message>, user: Message, ph: Message, x: Message)
    ensures (prior + [user, ph])[|prior| + 1 := x] == prior + [user] + [x]
  {
  }

  /** The user message never ends `sent`, whatever the external results are. */
  lemma UserNeverSent(store: Store, input: string, t: ThreadId, userUuid: string, assistantUuid: string,
                      userInsertOk: bool, reply: Reply, assistantInsert: AssistantInsert)
    requires Trim(input) != [] && FreshIds(store, t, userUuid, assistantUuid)
    ensures
      var r := SendMessage(store, input, t, userUuid, assistantUuid, userInsertOk, reply, assistantInsert);
      var f := FinalStore(store, r)[t];
      var n := |ThreadMessages(store, t)|;
      f[n].id == UserIdPrefix + userUuid && f[n].status in {Sending, Failed}
  {
    var prior := ThreadMessages(store, t);
    var user := UserMessage(Trim(input), userUuid);
    if !userInsertOk {
      SendUserInsertFailed(store, input, t, userUuid, assistantUuid, reply, assistantInsert);
    } else if reply.Rejected? {
      assert FinalStore(store, SendMessage(store, input, t, userUuid, assistantUuid, userInsertOk, reply, assistantInsert))[t]
          == prior + [user, Placeholder(assistantUuid)];
    } else if !reply.ok || !reply.hasBody {
      SendRelayFailed(store, input, t, userUuid, assistantUuid, reply, assistantInsert);
    } else {
      SendStreamEnded(store, input, t, userUuid, assistantUuid, reply.chunks, reply.readError, assistantInsert);
    }
  }

  /**
   * After a completed send the assistant message carries the store-assigned id (or
   * keeps its temporary one when none came back), and, when that id is new to the
   * thread, exactly one message carries it.
   */
  lemma CompletedIdUnique(store: Store, input: string, t: ThreadId, userUuid: string, assistantUuid: string,
                          chunks: seq<string>, storeId: MessageId)
    requires Trim(input) != [] && FreshIds(store, t, userUuid, assistantUuid)
    requires IdAbsent(ThreadMessages(store, t), storeId) && storeId != UserIdPrefix + userUuid
    ensures
      var r := SendMessage(store, input, t, userUuid, assistantUuid, true, Answered(true, true, chunks, false), Inserted(Some(storeId)));
      r.outcome == Completed && IdOnlyAt(FinalStore(store, r)[t], storeId, |ThreadMessages(store, t)| + 1)
  {
    SendStreamEnded(store, input, t, userUuid, assistantUuid, chunks, false, Inserted(Some(storeId)));
  }

  /** Two stores that agree everywhere but in the last message of thread `t`. */
  lemma LastChanged(before: Store, after: Store, t: ThreadId, prefix: seq<Message>, x: Message, y: Message)
    requires t in before && after.Keys == before.Keys
    requires forall u :: u in before && u != t ==> after[u] == before[u]
    requires before[t] == prefix + [x] && after[t] == prefix + [y]
    ensures OnlyChanged(before, after, t, |prefix|)
  {
  }

  /** The streamed path of `SendStepsChangeOne`. */
  lemma StreamStepsChangeOne(store: Store, input: string, t: ThreadId, userUuid: string, assistantUuid: string,
                             chunks: seq<string>, readError: bool, assistantInsert: AssistantInsert)
    requires Trim(input) != [] && FreshIds(store, t, userUuid, assistantUuid)
    ensures
      var r := SendMessage(store, input, t, userUuid, assistantUuid, true, Answered(true, true, chunks, readError), assistantInsert);
      forall j :: 1 <= j < |r.trace| ==> OnlyChanged(r.trace[j - 1], r.trace[j], t, |ThreadMessages(store, t)| + 1)
  {
    var r := SendMessage(store, input, t, userUuid, assistantUuid, true, Answered(true, true, chunks, readError), assistantInsert);
    var prefix := ThreadMessages(store, t) + [UserMessage(Trim(input), userUuid)];
    var ph := Placeholder(assistantUuid);
    SendStreamProgress(store, input, t, userUuid, assistantUuid, chunks, readError, assistantInsert);
    SendStreamEnded(store, input, t, userUuid, assistantUuid, chunks, readError, assistantInsert);
    assert r.trace[0][t] == prefix + [ph];
    forall j | 0 <= j < |r.trace| ensures exists x: Message :: r.trace[j][t] == prefix + [x] {
      if j == 0 {
        assert r.trace[j][t] == prefix + [ph];
      } else if j <= |chunks| {
        assert r.trace[j][t] == prefix + [ph.(content := Concat(chunks[..j]))];
      } else {
        assert r.trace[j] == FinalStore(store, r);
      }
    }
    forall j | 1 <= j < |r.trace| ensures OnlyChanged(r.trace[j - 1], r.trace[j], t, |prefix|) {
      var x: Message :| r.trace[j - 1][t] == prefix + [x];
      var y: Message :| r.trace[j][t] == prefix + [y];
      LastChanged(r.trace[j - 1], r.trace[j], t, prefix, x, y);
    }
  }

  /**
   * After a non-blank send with fresh ids, every state update but the first (the
   * append) changes exactly one message of the thread and nothing else: the user
   * message when its insert failed, the placeholder otherwise.
   */
  lemma SendStepsChangeOne(store: Store, input: string, t: ThreadId, userUuid: string, assistantUuid: string,
                           userInsertOk: bool, reply: Reply, assistantInsert: AssistantInsert)
    requires Trim(input) != [] && FreshIds(store, t, userUuid, assistantUuid)
    ensures
      var r := SendMessage(store, input, t, userUuid, assistantUuid, userInsertOk, reply, assistantInsert);
      var n := |ThreadMessages(store, t)|;
      forall j :: 1 <= j < |r.trace| ==>
        OnlyChanged(r.trace[j - 1], r.trace[j], t, if r.outcome == UserInsertFailed then n else n + 1)
  {
    var r := SendMessage(store, input, t, userUuid, assistantUuid, userInsertOk, reply, assistantInsert);
    var prior := ThreadMessages(store, t);
    var user := UserMessage(Trim(input), userUuid);
    var ph := Placeholder(assistantUuid);
    if !userInsertOk {
      SendUserInsertFailed(store, input, t, userUuid, assistantUuid, reply, assistantInsert);
      assert r.trace[1][t] == prior + [user.(status := Failed), ph];
      assert r.trace[0][t] == prior + [user, ph];
    } else if reply.Rejected? {
    } else if !reply.ok || !reply.hasBody {
      SendRelayFailed(store, input, t, userUuid, assistantUuid, reply, assistantInsert);
      assert r.trace[0][t] == prior + [user] + [ph];
      assert r.trace[1][t] == prior + [user] + [ph.(status := Failed)];
      LastChanged(r.trace[0], r.trace[1], t, prior + [user], ph, ph.(status := Failed));
    } else {
      assert reply == Answered(true, true, reply.chunks, reply.readError);
      StreamStepsChangeOne(store, input, t, userUuid, assistantUuid, reply.chunks, reply.readError, assistantInsert);
      SendReachesRelay(store, input, t, userUuid, assistantUuid, reply, assistantInsert);
    }
  }

  // ---------------------------------------------------------------------------
  // Loading a thread's messages and the `messages` selector

  /** One row of `select("id,role,content,created_at")`. */
  datatype Row = Row(id: MessageId, role: Role, content: Option<string>, createdAt: Option<string>)

  datatype LoadResult = LoadError | Loaded(data: Option<seq<Row>>)

  /** The hook's state: the store and the `loadingMessages` flag. */
  datatype MessagesHook = MessagesHook(store: Store, loading: bool)

  function FromRow(row: Row): Message {
    Message(row.id, row.role, row.content.GetOr(""), row.createdAt, Sent)
  }

  /**
   * The load effect run when the selected thread changes. `cancelled` says whether
   * the effect was cleaned up (the selection changed again) before the query
   * resolved; `result` is what the query returned. A cancelled load only leaves
   * behind the loading flag it raised when it started.
   */
  function LoadMessages(h: MessagesHook, selected: Option<ThreadId>, cancelled: bool, result: LoadResult): (r: MessagesHook)
    ensures !Truthy(selected) ==> r == h
    ensures Truthy(selected) && cancelled ==> r == h.(loading := true)
    ensures Truthy(selected) && !cancelled ==> !r.loading
    ensures Truthy(selected) && !cancelled && result.LoadError? ==> r.store == h.store
    ensures Truthy(selected) && !cancelled && result.Loaded? ==>
      var t := selected.value;
      var rows := result.data.GetOr([]);
      && r.store.Keys == h.store.Keys + {t}
      && (forall u :: u in h.store && u != t ==> r.store[u] == h.store[u])
      && |r.store[t]| == |rows|
      && (forall i :: 0 <= i < |rows| ==>
            && r.store[t][i].id == rows[i].id
            && r.store[t][i].role == rows[i].role
            && r.store[t][i].content == (if rows[i].content.Some? then rows[i].content.value else "")
            && r.store[t][i].status == Sent)
  {
    if !Truthy(selected) then h
    else if cancelled then h.(loading := true)
    else match result
      case LoadError => h.(loading := false)
      case Loaded(data) =>
        var rows := data.GetOr([]);
        var mapped := seq(|rows|, i requires 0 <= i < |rows| => FromRow(rows[i]));
        MessagesHook(h.store[selected.value := mapped], false)
  }

  /** `selectedThreadId ? messagesByThread[selectedThreadId] ?? [] : []` */
  function VisibleMessages(store: Store, selected: Option<ThreadId>): (r: seq<Message>)
    ensures !Truthy(selected) ==> r == []
    ensures Truthy(selected) && selected.value in store ==> r == store[selected.value]
    ensures Truthy(selected) && selected.value !in store ==> r == []
  {
    if Truthy(selected) then ThreadMessages(store, selected.value) else []
  }

  /** A cancelled load never touches the store, whichever thread is selected next. */
  lemma CancelledLoadKeepsStore(h: MessagesHook, selected: Option<ThreadId>, result: LoadResult, next: Option<ThreadId>)
    ensures LoadMessages(h, selected, true, result).store == h.store
    ensures VisibleMessages(LoadMessages(h, selected, true, result).store, next) == VisibleMessages(h.store, next)
  {
  }
}
