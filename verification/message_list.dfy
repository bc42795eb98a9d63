/**
 * How the conversation pane shows a thread: which of the three views appears, and
 * how each message is drawn.
 */
module MessageList {
  import opened Text
  import opened Chat
  import opened Messages

  /** How one message is drawn. */
  datatype Display =
    | Thinking           // the "Thinking..." indicator
    | Markdown(text: string)  // an assistant bubble rendering its content as markdown
    | Mine(text: string)      // the user's own bubble

  /**
   * An assistant message still streaming with blank content shows the indicator;
   * any other assistant message shows its content as markdown, whatever its
   * status; a user message always shows its own bubble.
   */
  function DisplayOf(m: Message): (d: Display)
    ensures d == Thinking <==> m.role == Assistant && m.status == Streaming && Trim(m.content) == []
    ensures d.Markdown? <==> m.role == Assistant && !(m.status == Streaming && Trim(m.content) == [])
    ensures d.Mine? <==> m.role == User
    ensures d.Markdown? || d.Mine? ==> d.text == m.content
  {
    match m.role
    case User => Mine(m.content)
    case Assistant => if m.status == Streaming && Trim(m.content) == [] then Thinking else Markdown(m.content)
  }

  /** One rendered entry, keyed by the message's id. */
  datatype Entry = Entry(key: MessageId, display: Display)

  /** `messages.map(...)`: one entry per message, in list order. */
  function Render(messages: seq<Message>): (r: seq<Entry>)
    ensures |r| == |messages|
    ensures forall i :: 0 <= i < |r| ==> r[i].key == messages[i].id
  {
    seq(|messages|, i requires 0 <= i < |messages| => Entry(messages[i].id, DisplayOf(messages[i])))
  }

  /** Rendering commutes with appending: the entries of old messages are not redrawn differently. */
  lemma RenderAppend(a: seq<Message>, b: seq<Message>)
    ensures Render(a + b) == Render(a) + Render(b)
  {
  }

  /** Rendering only looks at each message: changing one message changes only its entry. */
  lemma RenderUpdate(messages: seq<Message>, k: nat, m: Message)
    requires k < |messages|
    ensures Render(messages[k := m]) == Render(messages)[k := Entry(m.id, DisplayOf(m))]
  {
  }

  /** Right after a send, the user's text shows in its bubble and the placeholder shows the indicator. */
  lemma FreshSendDisplay(content: string, userUuid: string, assistantUuid: string)
    ensures DisplayOf(UserMessage(content, userUuid)) == Mine(content)
    ensures DisplayOf(Placeholder(assistantUuid)) == Thinking
  {
  }

  /** A placeholder that has received visible text shows it as markdown; a failed one shows what it had. */
  lemma StreamedDisplay(m: Message)
    requires m.role == Assistant && (Trim(m.content) != [] || m.status != Streaming)
    ensures DisplayOf(m) == Markdown(m.content)
  {
  }

  /** What the pane shows. */
  datatype View = ChatPlaceholder | EmptyMessages | List(entries: seq<Entry>)

  /** The placeholder wins over the empty view, which wins over the list. */
  function ViewOf(showChatPlaceholder: bool, showEmptyMessages: bool, messages: seq<Message>): (v: View)
    ensures v == ChatPlaceholder <==> showChatPlaceholder
    ensures v == EmptyMessages <==> !showChatPlaceholder && showEmptyMessages
    ensures v.List? ==> !showChatPlaceholder && !showEmptyMessages && |v.entries| == |messages|
  {
    if showChatPlaceholder then ChatPlaceholder
    else if showEmptyMessages then EmptyMessages
    else List(Render(messages))
  }
}
