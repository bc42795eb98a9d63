/**
 * The thread list of the chat screen: loading a user's threads, which characters
 * are still offered for a new conversation, selecting a thread, and starting a
 * thread from a character without creating duplicates.
 */
module Threads {
  import opened Wrappers
  import opened Text
  import opened Characters

  /** A conversation in the sidebar; characters offered for a new chat have the same shape. */
  datatype Thread = Thread(id: string, title: Option<string>, avatar: Option<string>)

  /** A `threads` row as selected with `id,title`. */
  datatype ThreadRow = ThreadRow(id: string, title: Option<string>)

  /** The outcome of the threads query: an error, or `data`, which may be null. */
  datatype ThreadsLoad = LoadFailed | LoadedThreads(data: Option<seq<ThreadRow>>)

  /** The outcome of inserting a thread with `.single()`: an error, or `data`, which may be null. */
  datatype ThreadInsert = InsertError | InsertedThread(data: Option<ThreadRow>)

  /** The state `useThreads` keeps. */
  datatype ThreadsState = ThreadsState(threads: seq<Thread>, selected: Option<string>, loading: bool)

  /** A default character in the shape the hook hands out. */
  function AsThread(c: Character): Thread {
    Thread(c.id, c.title, c.avatar)
  }

  /** Rows as stored in state: each gets the avatar its title maps to. */
  function Annotate(rows: seq<ThreadRow>): (r: seq<Thread>)
    ensures |r| == |rows|
  {
    seq(|rows|, i requires 0 <= i < |rows| => Thread(rows[i].id, rows[i].title, Some(AvatarForTitle(rows[i].title))))
  }

  // ---------------------------------------------------------------------------
  // Loading

  /**
   * The `loadThreads` effect of the hook, given the query outcome. It does not run
   * without a user or before the profile is ready; a cancelled run has only set
   * the loading flag.
   */
  function LoadThreads(s: ThreadsState, userId: Option<string>, profileReady: bool, cancelled: bool,
                       result: ThreadsLoad): (r: ThreadsState)
    ensures !Truthy(userId) || !profileReady ==> r == s
    ensures Truthy(userId) && profileReady && cancelled ==> r == s.(loading := true)
    ensures Truthy(userId) && profileReady && !cancelled ==> !r.loading
    ensures Truthy(userId) && profileReady && !cancelled && result.LoadFailed? ==>
      r.threads == s.threads && r.selected == s.selected
    ensures Truthy(userId) && profileReady && !cancelled && result.LoadedThreads? ==>
      var rows := result.data.GetOr([]);
      && |r.threads| == |rows|
      && (forall i :: 0 <= i < |rows| ==>
            r.threads[i] == Thread(rows[i].id, rows[i].title, Some(AvatarForTitle(rows[i].title))))
      && (|rows| == 0 ==> r.selected == None)
      && (|rows| > 0 && s.selected.Some? ==> r.selected == s.selected)
      && (|rows| > 0 && s.selected.None? ==> r.selected == Some(rows[0].id))
  {
    if !Truthy(userId) || !profileReady then s
    else if cancelled then s.(loading := true)
    else match result
      case LoadFailed => s.(loading := false)
      case LoadedThreads(data) =>
        if data.Some? && |data.value| > 0 then
          var mapped := Annotate(data.value);
          ThreadsState(mapped, if s.selected.Some? then s.selected else Some(mapped[0].id), false)
        else ThreadsState([], None, false)
  }

  /** After a load that found threads, something is selected: the earlier choice or the first thread. */
  lemma LoadSelects(s: ThreadsState, userId: Option<string>, rows: seq<ThreadRow>)
    requires Truthy(userId) && |rows| > 0
    ensures var r := LoadThreads(s, userId, true, false, LoadedThreads(Some(rows)));
      r.selected.Some? && (r.selected == s.selected || r.selected.value == r.threads[0].id)
  {
  }

  /** `selectThread(id)`: the selection becomes exactly `id`, nothing else changes. */
  function SelectThread(s: ThreadsState, id: string): (r: ThreadsState)
    ensures r.selected == Some(id) && r.threads == s.threads && r.loading == s.loading
  {
    s.(selected := Some(id))
  }

  // ---------------------------------------------------------------------------
  // Availability

  /** `thread.title?.toLowerCase() === key` for some thread. */
  predicate TitleTaken(threads: seq<Thread>, key: string) {
    exists i :: 0 <= i < |threads| && TitleKey(threads[i].title) == Some(key)
  }

  /** The filter's test: a character whose lower-cased title is falsy is always kept. */
  predicate IsAvailable(c: Thread, threads: seq<Thread>) {
    var key := TitleKey(c.title);
    !Truthy(key) || !TitleTaken(threads, key.value)
  }

  /** `availableCharacters`: the characters no thread's title matches, in catalog order. */
  function Available(characters: seq<Thread>, threads: seq<Thread>): (r: seq<Thread>)
    ensures |r| <= |characters|
    ensures forall c :: c in r <==> c in characters && IsAvailable(c, threads)
  {
    if |characters| == 0 then []
    else
      var rest := Available(characters[1..], threads);
      assert forall c :: c in characters <==> c == characters[0] || c in characters[1..];
      if IsAvailable(characters[0], threads) then [characters[0]] + rest else rest
  }

  /** With no threads every character is offered, in catalog order. */
  lemma {:induction false} NoThreadsAllAvailable(characters: seq<Thread>)
    ensures Available(characters, []) == characters
  {
    if |characters| > 0 {
      NoThreadsAllAvailable(characters[1..]);
    }
  }

  /** The filter keeps the catalog order: what it offers is a subsequence of the catalog. */
  predicate Subsequence(a: seq<Thread>, b: seq<Thread>) {
    |a| == 0 || (|b| > 0 && ((a[0] == b[0] && Subsequence(a[1..], b[1..])) || Subsequence(a, b[1..])))
  }

  lemma {:induction false} AvailableInOrder(characters: seq<Thread>, threads: seq<Thread>)
    ensures Subsequence(Available(characters, threads), characters)
  {
    if |characters| > 0 {
      AvailableInOrder(characters[1..], threads);
      var rest := Available(characters[1..], threads);
      if IsAvailable(characters[0], threads) {
        assert ([characters[0]] + rest)[1..] == rest;
      }
    }
  }

  /** The characters the hook offers: the default table in thread shape. */
  function HookCharacters(): (r: seq<Thread>)
    ensures |r| == |DefaultCharacters|
    ensures forall i :: 0 <= i < |r| ==> r[i].id == DefaultCharacters[i].id && r[i].title == DefaultCharacters[i].title
  {
    seq(|DefaultCharacters|, i requires 0 <= i < |DefaultCharacters| => AsThread(DefaultCharacters[i]))
  }

  // ---------------------------------------------------------------------------
  // Starting a thread from a character

  /** The test of `threads.find` for an existing conversation: both titles truthy and equal ignoring case. */
  predicate SameCharacter(t: Thread, character: Thread) {
    Truthy(t.title) && Truthy(character.title) && Lower(t.title.value) == Lower(character.title.value)
  }

  /** The index of the first thread that already talks to `character`, or `|threads|`. */
  function ExistingIndex(threads: seq<Thread>, character: Thread): (k: nat)
    ensures k <= |threads|
    ensures forall j :: 0 <= j < k ==> !SameCharacter(threads[j], character)
    ensures k < |threads| ==> SameCharacter(threads[k], character)
  {
    if |threads| == 0 then 0
    else if SameCharacter(threads[0], character) then 0
    else 1 + ExistingIndex(threads[1..], character)
  }

  /** What starting a conversation with a character resolves to, once the guards have passed. */
  datatype StartOutcome = SelectExisting(id: string) | Create(thread: Thread) | NoChange

  /**
   * An existing conversation with the character is reused; otherwise the insert's
   * row becomes a new thread titled `data.title ?? "Chat"` with the character's
   * avatar; an insert error or a null row changes nothing.
   */
  function Resolve(threads: seq<Thread>, character: Thread, insert: ThreadInsert): (r: StartOutcome)
    ensures r.SelectExisting? <==> exists i :: 0 <= i < |threads| && SameCharacter(threads[i], character)
    ensures r.SelectExisting? ==> exists i :: (0 <= i < |threads| && threads[i].id == r.id && SameCharacter(threads[i], character)
      && forall j :: 0 <= j < i ==> !SameCharacter(threads[j], character))
    ensures r.Create? <==> !r.SelectExisting? && insert.InsertedThread? && insert.data.Some?
    ensures r.Create? ==>
      r.thread == Thread(insert.data.value.id, Some(insert.data.value.title.GetOr("Chat")), character.avatar)
  {
    var k := ExistingIndex(threads, character);
    if k < |threads| then SelectExisting(threads[k].id)
    else match insert
      case InsertError => NoChange
      case InsertedThread(data) =>
        if data.None? then NoChange
        else Create(Thread(data.value.id, Some(data.value.title.GetOr("Chat")), character.avatar))
  }

  /** The hook's `startThreadFromCharacter`: guarded by a user and a ready profile. */
  function StartThread(s: ThreadsState, userId: Option<string>, profileReady: bool, character: Thread,
                       insert: ThreadInsert): (r: ThreadsState)
    ensures !Truthy(userId) || !profileReady ==> r == s
    ensures r.loading == s.loading
    ensures r.threads == s.threads || (|r.threads| == |s.threads| + 1 && r.threads[..|s.threads|] == s.threads)
    ensures Truthy(userId) && profileReady ==>
      match Resolve(s.threads, character, insert)
      case SelectExisting(id) => r == s.(selected := Some(id))
      case Create(t) => r.threads == s.threads + [t] && r.selected == Some(t.id)
      case NoChange => r == s
  {
    if !Truthy(userId) || !profileReady then s
    else match Resolve(s.threads, character, insert)
      case SelectExisting(id) => s.(selected := Some(id))
      case Create(t) => s.(threads := s.threads + [t], selected := Some(t.id))
      case NoChange => s
  }

  /**
   * Starting a chat never produces a second conversation with the same character:
   * once a thread carrying the character's title exists, another start selects it.
   */
  lemma {:induction false} StartTwiceReuses(s: ThreadsState, userId: Option<string>, character: Thread,
                                            first: ThreadInsert, second: ThreadInsert)
    requires Truthy(userId) && Truthy(character.title)
    requires first.InsertedThread? && first.data.Some? && first.data.value.title == character.title
    ensures var s1 := StartThread(s, userId, true, character, first);
      var s2 := StartThread(s1, userId, true, character, second);
      s2.threads == s1.threads
  {
    var s1 := StartThread(s, userId, true, character, first);
    match Resolve(s.threads, character, first)
    case SelectExisting(id) =>
    case Create(t) =>
      var n := |s.threads|;
      assert s1.threads[n] == t;
      assert SameCharacter(s1.threads[n], character);
    case NoChange =>
  }

  /**
   * Once a conversation with a character has been created, the character is no
   * longer offered.
   */
  lemma CreatedNoLongerAvailable(s: ThreadsState, userId: Option<string>, character: Thread, insert: ThreadInsert)
    requires Truthy(userId) && Truthy(character.title)
    requires insert.InsertedThread? && insert.data.Some? && insert.data.value.title == character.title
    ensures var s1 := StartThread(s, userId, true, character, insert);
      !IsAvailable(character, s1.threads)
  {
    var s1 := StartThread(s, userId, true, character, insert);
    var key := TitleKey(character.title);
    assert |key.value| == |character.title.value|;
    match Resolve(s.threads, character, insert)
    case SelectExisting(id) =>
      var i :| 0 <= i < |s.threads| && SameCharacter(s.threads[i], character);
      assert TitleKey(s1.threads[i].title) == key;
    case Create(t) =>
      var n := |s.threads|;
      assert s1.threads[n] == t;
      assert TitleKey(s1.threads[n].title) == key;
    case NoChange =>
  }
}
