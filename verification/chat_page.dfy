/**
 * The chat screen as a whole: its own copy of the character table and the
 * thread-loading, thread-starting, sending and selection rules it implements
 * inline, stated against the hooks' versions where the two coincide.
 */
module ChatPage {
  import opened Wrappers
  import opened Text
  import opened Chat
  import opened Characters
  import opened Threads
  import opened Messages

  /** The screen's state that the modelled handlers read or write. */
  datatype PageState = PageState(
    threads: seq<Thread>,
    selected: Option<string>,
    store: Store,
    input: string,
    userId: Option<string>,
    profileReady: bool,
    showChatMobile: bool,
    characterId: string,
    threadsLoading: bool,
    loadingMessages: bool)

  /** The screen's own `defaultCharacters`: ids, titles and avatars, without prompts. */
  const PageCharacters: seq<Thread> := [
    Thread("character-aria", Some("Helpful Assistant"), Some("/character-three.png")),
    Thread("character-grumpy", Some("Grumpy Cat"), Some("/character-one.png")),
    Thread("character-guru", Some("Coding Guru"), Some("/character-four.png")),
    Thread("character-dog", Some("Smarty Dog"), Some("/character-two.png"))
  ]

  /** The screen's copy of the table agrees with the shared one. */
  lemma PageTableAgrees()
    ensures PageCharacters == HookCharacters()
  {
  }

  /** The screen's `avatarForTitle`, searching its own table. */
  function PageAvatarForTitle(title: Option<string>): string {
    var k := FirstTitle(PageCharacters, title);
    if k < |PageCharacters| then PageCharacters[k].avatar.GetOr(DefaultAvatar) else DefaultAvatar
  }

  /** The index of the first entry whose lower-cased title equals the lower-cased `title`. */
  function FirstTitle(table: seq<Thread>, title: Option<string>): (k: nat)
    ensures k <= |table|
  {
    if |table| == 0 then 0
    else if TitleKey(table[0].title) == TitleKey(title) then 0
    else 1 + FirstTitle(table[1..], title)
  }

  /** Two tables with the same titles, entry by entry, are searched alike. */
  lemma {:induction false} FirstTitleAgrees(table: seq<Thread>, catalog: seq<Character>, title: Option<string>)
    requires |table| == |catalog|
    requires forall i :: 0 <= i < |table| ==> table[i].title == catalog[i].title
    ensures FirstTitle(table, title) == FirstMatch(catalog, title)
  {
    if |table| > 0 {
      FirstTitleAgrees(table[1..], catalog[1..], title);
    }
  }

  /** Both copies of `avatarForTitle` give the same avatar for every title. */
  lemma PageAvatarAgrees(title: Option<string>)
    ensures PageAvatarForTitle(title) == AvatarForTitle(title)
  {
    FirstTitleAgrees(PageCharacters, DefaultCharacters, title);
  }

  /** The screen's `availableCharacters` offers the same characters as the hook's. */
  lemma PageAvailability(threads: seq<Thread>)
    ensures Available(PageCharacters, threads) == Available(HookCharacters(), threads)
  {
    PageTableAgrees();
  }

  // ---------------------------------------------------------------------------
  // The character picker

  /**
   * The effect that keeps the picker's value valid: no character offered clears it,
   * a value no longer offered moves to the first one offered, otherwise it stays.
   */
  function PickerValue(available: seq<Thread>, current: string): (r: string)
    ensures |available| == 0 ==> r == ""
    ensures |available| > 0 ==> exists i :: 0 <= i < |available| && available[i].id == r
    ensures (exists i :: 0 <= i < |available| && available[i].id == current) ==> r == current
    ensures |available| > 0 && (forall i :: 0 <= i < |available| ==> available[i].id != current) ==>
      r == available[0].id
  {
    if |available| == 0 then ""
    else if exists i :: 0 <= i < |available| && available[i].id == current then current
    else available[0].id
  }

  /** The effect re-runs when it changes the value; the second run changes nothing. */
  lemma PickerSettles(available: seq<Thread>, current: string)
    ensures PickerValue(available, PickerValue(available, current)) == PickerValue(available, current)
  {
  }

  // ---------------------------------------------------------------------------
  // Loading threads

  /**
   * The screen's `loadThreads` effect, given the query outcome. Unlike the hook it
   * has no cancel flag, and a non-empty result always selects the first thread.
   */
  function PageLoadThreads(s: PageState, result: ThreadsLoad): (r: PageState)
    ensures !Truthy(s.userId) || !s.profileReady ==> r == s
    ensures Truthy(s.userId) && s.profileReady ==>
      && !r.threadsLoading
      && r.store == s.store && r.input == s.input && r.characterId == s.characterId
    ensures Truthy(s.userId) && s.profileReady && result.LoadFailed? ==>
      r == s.(threadsLoading := false)
    ensures Truthy(s.userId) && s.profileReady && result.LoadedThreads? ==>
      var rows := result.data.GetOr([]);
      && |r.threads| == |rows|
      && (forall i :: 0 <= i < |rows| ==>
            (r.threads[i].id == rows[i].id && r.threads[i].title == rows[i].title
             && r.threads[i].avatar == Some(PageAvatarForTitle(rows[i].title))))
      && (|rows| > 0 ==> r.selected == Some(rows[0].id) && r.showChatMobile == s.showChatMobile)
      && (|rows| == 0 ==> r.selected == None && !r.showChatMobile)
  {
    if !Truthy(s.userId) || !s.profileReady then s
    else match result
      case LoadFailed => s.(threadsLoading := false)
      case LoadedThreads(data) =>
        if data.Some? && |data.value| > 0 then
          var rows := data.value;
          assert forall i :: 0 <= i < |rows| ==> PageAvatarForTitle(rows[i].title) == AvatarForTitle(rows[i].title) by {
            forall i | 0 <= i < |rows| {
              PageAvatarAgrees(rows[i].title);
            }
          }
          s.(threads := Annotate(rows), selected := Some(rows[0].id), threadsLoading := false)
        else s.(threads := [], selected := None, showChatMobile := false, threadsLoading := false)
  }

  /** On the screen a reload moves the selection to the first thread even when another one was selected. */
  lemma PageReloadResetsSelection(s: PageState, rows: seq<ThreadRow>)
    requires Truthy(s.userId) && s.profileReady && |rows| > 0
    requires s.selected.Some? && s.selected.value != rows[0].id
    ensures PageLoadThreads(s, LoadedThreads(Some(rows))).selected != s.selected
    ensures LoadThreads(ThreadsState(s.threads, s.selected, false), s.userId, true, false,
                        LoadedThreads(Some(rows))).selected == s.selected
  {
  }

  // ---------------------------------------------------------------------------
  // Selecting and starting threads

  /** `handleSelectThread`: selects `id`, and shows the chat pane on a phone. */
  function SelectPageThread(s: PageState, id: string, isMobile: bool): (r: PageState)
    ensures r.selected == Some(id)
    ensures r.showChatMobile == (s.showChatMobile || isMobile)
    ensures r.(selected := s.selected, showChatMobile := s.showChatMobile) == s
  {
    s.(selected := Some(id), showChatMobile := s.showChatMobile || isMobile)
  }

  /**
   * The screen's `startThreadFromCharacter`. Unlike the hook it does not give up
   * when the profile is not ready: it first runs `ensureProfile` (its outcome is
   * `profileOk`) and continues when that succeeds.
   */
  function PageStartThread(s: PageState, character: Thread, profileOk: bool, insert: ThreadInsert): (r: PageState)
    ensures !Truthy(s.userId) ==> r == s
    ensures !s.profileReady && !profileOk ==> r == s
    ensures r.profileReady == (s.profileReady || (Truthy(s.userId) && profileOk))
    ensures r.store == s.store && r.input == s.input && r.userId == s.userId
    ensures Truthy(s.userId) && (s.profileReady || profileOk) ==>
      match Resolve(s.threads, character, insert)
      case SelectExisting(id) => r.threads == s.threads && r.selected == Some(id) && r.showChatMobile
      case Create(t) => r.threads == s.threads + [t] && r.selected == Some(t.id) && r.showChatMobile
      case NoChange => r.threads == s.threads && r.selected == s.selected && r.showChatMobile == s.showChatMobile
  {
    if !Truthy(s.userId) then s
    else if !s.profileReady && !profileOk then s
    else
      var s1 := s.(profileReady := true);
      match Resolve(s1.threads, character, insert)
      case SelectExisting(id) => s1.(selected := Some(id), showChatMobile := true)
      case Create(t) => s1.(threads := s1.threads + [t], selected := Some(t.id), showChatMobile := true)
      case NoChange => s1
  }

  /** With a ready profile the screen and the hook make the same change to threads and selection. */
  lemma PageStartMatchesHook(s: PageState, character: Thread, profileOk: bool, insert: ThreadInsert)
    requires s.profileReady
    ensures var r := PageStartThread(s, character, profileOk, insert);
      var h := StartThread(ThreadsState(s.threads, s.selected, s.threadsLoading), s.userId, true, character, insert);
      r.threads == h.threads && r.selected == h.selected
  {
  }

  /** `handleStartNewChat`: the picker's id names a character of the screen's table, or nothing happens. */
  function StartNewChat(s: PageState, characterId: string, profileOk: bool, insert: ThreadInsert): (r: PageState)
    ensures (forall i :: 0 <= i < |PageCharacters| ==> PageCharacters[i].id != characterId) ==> r == s
    ensures forall i :: 0 <= i < |PageCharacters| && PageCharacters[i].id == characterId ==>
      r == PageStartThread(s, PageCharacters[i], profileOk, insert)
  {
    if PageCharacters[0].id == characterId then PageStartThread(s, PageCharacters[0], profileOk, insert)
    else if PageCharacters[1].id == characterId then PageStartThread(s, PageCharacters[1], profileOk, insert)
    else if PageCharacters[2].id == characterId then PageStartThread(s, PageCharacters[2], profileOk, insert)
    else if PageCharacters[3].id == characterId then PageStartThread(s, PageCharacters[3], profileOk, insert)
    else s
  }

  // ---------------------------------------------------------------------------
  // Sending and loading messages

  /** What `handleSend` did: the screen afterwards and, when it went ahead, the pipeline's run. */
  datatype PageSend = PageSend(state: PageState, send: Option<SendResult>)

  /**
   * `handleSend`: a blank input or no selected thread does nothing; otherwise the
   * input is cleared and the message pipeline runs on the selected thread.
   */
  function HandleSend(s: PageState, userUuid: string, assistantUuid: string, userInsertOk: bool,
                      reply: Reply, assistantInsert: AssistantInsert): (r: PageSend)
    ensures Trim(s.input) == [] || !Truthy(s.selected) ==> r == PageSend(s, None)
    ensures Trim(s.input) != [] && Truthy(s.selected) ==>
      && r.send.Some?
      && r.send.value.outcome != Ignored
      && r.state.input == ""
      && r.state.store == FinalStore(s.store, r.send.value)
      && r.state.threads == s.threads && r.state.selected == s.selected
      && |r.send.value.trace| >= 1 && s.selected.value in r.send.value.trace[0]
      && r.send.value.trace[0][s.selected.value]
           == ThreadMessages(s.store, s.selected.value)
              + [UserMessage(Trim(s.input), userUuid), Placeholder(assistantUuid)]
  {
    if Trim(s.input) == [] || !Truthy(s.selected) then PageSend(s, None)
    else
      var run := SendMessage(s.store, s.input, s.selected.value, userUuid, assistantUuid, userInsertOk, reply, assistantInsert);
      PageSend(s.(input := "", store := FinalStore(s.store, run)), Some(run))
  }

  /** The screen's `loadMessages` effect: the hook's load with no cancel flag. */
  function PageLoadMessages(s: PageState, result: LoadResult): (r: PageState)
    ensures !Truthy(s.selected) ==> r == s
    ensures Truthy(s.selected) ==>
      && !r.loadingMessages
      && r.threads == s.threads && r.selected == s.selected && r.input == s.input
      && (forall u :: u in s.store && u != s.selected.value ==> u in r.store && r.store[u] == s.store[u])
    ensures Truthy(s.selected) && result.LoadError? ==> r.store == s.store
    ensures Truthy(s.selected) && result.Loaded? ==>
      var t := s.selected.value;
      var rows := result.data.GetOr([]);
      && t in r.store && |r.store[t]| == |rows|
      && (forall i :: 0 <= i < |rows| ==> r.store[t][i].id == rows[i].id && r.store[t][i].status == Sent)
  {
    var h := LoadMessages(MessagesHook(s.store, s.loadingMessages), s.selected, false, result);
    s.(store := h.store, loadingMessages := h.loading)
  }

  /** The empty-conversation view: messages are loaded, a thread is selected and it has none. */
  predicate ShowEmptyMessages(s: PageState) {
    !s.loadingMessages && Truthy(s.selected) && |ThreadMessages(s.store, s.selected.value)| == 0
  }

  /** The pick-a-character placeholder: threads are loaded and nothing is selected. */
  predicate ShowChatPlaceholder(s: PageState) {
    !s.threadsLoading && !Truthy(s.selected)
  }

  /** The two flags exclude each other: one needs a selected thread, the other none. */
  lemma ViewsExclusive(s: PageState)
    ensures !(ShowEmptyMessages(s) && ShowChatPlaceholder(s))
  {
  }
}
