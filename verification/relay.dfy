/**
 * The relay endpoint `POST /api/chat`: the request validation ladder, the call to
 * the provider, and the loop that turns the provider's event stream into plain
 * text. The provider's reply, the session lookup, the key lookup and `JSON.parse`
 * are parameters.
 */
module Relay {
  import opened Wrappers
  import opened Text
  import opened Chat

  const ProviderUrl := "https://api.groq.com/openai/v1/chat/completions"
  const Model := "llama-3.3-70b-versatile"
  const DataPrefix := "data: "
  const DoneSentinel := "[DONE]"

  /**
   * What `JSON.parse(payload)` gave, reduced to the two fields the relay reads:
   * `choices[0].delta.content` and `choices[0].message.content` (`None` for null or
   * undefined, including a missing `choices`). `Malformed` is a thrown parse error.
   */
  datatype Payload = Parsed(deltaContent: Option<string>, messageContent: Option<string>) | Malformed

  /** `delta.content ?? message.content ?? ""` */
  function Delta(deltaContent: Option<string>, messageContent: Option<string>): string {
    if deltaContent.Some? then deltaContent.value else messageContent.GetOr("")
  }

  /** What one line of a chunk does to the response stream. */
  datatype LineEffect = Skip | Emit(text: string) | Stop

  /**
   * One iteration of the inner loop. `line.replace("data: ", "")` replaces the first
   * occurrence, which for a line starting with the prefix is the prefix itself.
   */
  function Classify(line: string, parse: string -> Payload): (e: LineEffect)
    ensures e.Emit? ==> e.text != []
  {
    if !StartsWith(line, DataPrefix) then Skip
    else
      var payload := Trim(line[|DataPrefix|..]);
      if payload == DoneSentinel then Stop
      else match parse(payload)
        case Malformed => Skip
        case Parsed(d, m) =>
          var delta := Delta(d, m);
          if delta == [] then Skip else Emit(delta)
  }

  /**
   * What a line does: only `data: ` lines count; a trimmed payload equal to `[DONE]`
   * stops; a malformed payload is skipped; otherwise the delta content wins when it
   * is present (even if empty), the message content is the fallback, and an empty
   * result is skipped.
   */
  lemma ClassifyCases(line: string, parse: string -> Payload)
    ensures var e := Classify(line, parse);
      && (!StartsWith(line, DataPrefix) ==> e == Skip)
      && (e == Stop <==> StartsWith(line, DataPrefix) && Trim(line[|DataPrefix|..]) == DoneSentinel)
      && (e.Emit? ==> StartsWith(line, DataPrefix))
      && (StartsWith(line, DataPrefix) && Trim(line[|DataPrefix|..]) != DoneSentinel ==>
            match parse(Trim(line[|DataPrefix|..]))
            case Malformed => e == Skip
            case Parsed(d, m) =>
              && (d.Some? && d.value != [] ==> e == Emit(d.value))
              && (d.Some? && d.value == [] ==> e == Skip)
              && (d.None? && m.Some? && m.value != [] ==> e == Emit(m.value))
              && (d.None? && (m.None? || m.value == []) ==> e == Skip))
  {
  }

  /** `chunk.split("\n").filter(Boolean)` */
  function Lines(chunk: string): (lines: seq<string>)
    ensures forall i :: 0 <= i < |lines| ==> lines[i] != [] && '\n' !in lines[i]
  {
    var parts := Split(chunk, '\n');
    NonEmptyKeepsElements(parts);
    NonEmpty(parts)
  }

  /** Every kept string is one of the originals. */
  lemma {:induction false} NonEmptyKeepsElements(parts: seq<string>)
    ensures forall i :: 0 <= i < |NonEmpty(parts)| ==> NonEmpty(parts)[i] in parts
  {
    if |parts| > 0 {
      NonEmptyKeepsElements(parts[1..]);
      assert forall x :: x in parts[1..] ==> x in parts;
    }
  }

  /** The texts enqueued on the response, and whether `[DONE]` closed it. */
  datatype Relayed = Relayed(deltas: seq<string>, done: bool)

  /** The inner `for (const line of lines)` loop over the lines of one chunk. */
  function RelayLines(lines: seq<string>, parse: string -> Payload): (r: Relayed)
    ensures forall i :: 0 <= i < |r.deltas| ==> r.deltas[i] != []
  {
    if |lines| == 0 then Relayed([], false)
    else match Classify(lines[0], parse)
      case Stop => Relayed([], true)
      case Skip => RelayLines(lines[1..], parse)
      case Emit(text) =>
        var rest := RelayLines(lines[1..], parse);
        Relayed([text] + rest.deltas, rest.done)
  }

  /**
   * The outer `while (true)` read loop, as written: every chunk is decoded and split
   * on its own, with no buffer carried from one read to the next.
   */
  function RelayChunks(chunks: seq<string>, parse: string -> Payload): (r: Relayed)
    ensures forall i :: 0 <= i < |r.deltas| ==> r.deltas[i] != []
  {
    if |chunks| == 0 then Relayed([], false)
    else
      var first := RelayLines(Lines(chunks[0]), parse);
      if first.done then first
      else
        var rest := RelayChunks(chunks[1..], parse);
        Relayed(first.deltas + rest.deltas, rest.done)
  }

  // ---------------------------------------------------------------------------
  // The fold, stated against an independent description

  /** The texts of the `Emit` lines of `lines`, in order. */
  function Emitted(lines: seq<string>, parse: string -> Payload): seq<string> {
    if |lines| == 0 then []
    else (match Classify(lines[0], parse) case Emit(text) => [text] case _ => []) + Emitted(lines[1..], parse)
  }

  /** The index of the first `[DONE]` line, or `|lines|` when there is none. */
  function StopIndex(lines: seq<string>, parse: string -> Payload): (k: nat)
    ensures k <= |lines|
    ensures forall i :: 0 <= i < k ==> Classify(lines[i], parse) != Stop
    ensures k < |lines| ==> Classify(lines[k], parse) == Stop
  {
    if |lines| == 0 then 0
    else if Classify(lines[0], parse) == Stop then 0
    else 1 + StopIndex(lines[1..], parse)
  }

  /**
   * The relay enqueues the non-empty deltas of the lines before the first `[DONE]`
   * line, in order, and reports `done` exactly when such a line exists.
   */
  lemma {:induction false} RelayLinesSpec(lines: seq<string>, parse: string -> Payload)
    ensures var k := StopIndex(lines, parse);
      RelayLines(lines, parse) == Relayed(Emitted(lines[..k], parse), k < |lines|)
  {
    if |lines| > 0 {
      var k := StopIndex(lines, parse);
      if Classify(lines[0], parse) == Stop {
        assert lines[..k] == [];
      } else {
        RelayLinesSpec(lines[1..], parse);
        var k' := StopIndex(lines[1..], parse);
        assert lines[..k][0] == lines[0];
        assert lines[..k][1..] == lines[1..][..k'];
      }
    }
  }

  /** Running the line loop over `a + b` is running it over `a`, then, unless `a` hit `[DONE]`, over `b`. */
  lemma {:induction false} RelayLinesAppend(a: seq<string>, b: seq<string>, parse: string -> Payload)
    ensures var ra := RelayLines(a, parse);
      RelayLines(a + b, parse) == if ra.done then ra else Relayed(ra.deltas + RelayLines(b, parse).deltas, RelayLines(b, parse).done)
  {
    if |a| > 0 {
      assert (a + b)[0] == a[0];
      assert (a + b)[1..] == a[1..] + b;
      RelayLinesAppend(a[1..], b, parse);
      match Classify(a[0], parse)
      case Stop =>
      case Skip =>
      case Emit(text) =>
        var r1 := RelayLines(a[1..], parse);
        if !r1.done {
          assert [text] + (r1.deltas + RelayLines(b, parse).deltas) == ([text] + r1.deltas) + RelayLines(b, parse).deltas;
        }
    } else {
      assert a + b == b;
    }
  }

  /** Every line of every chunk, in order: what the read loop iterates over. */
  function AllLines(chunks: seq<string>): seq<string> {
    if |chunks| == 0 then [] else Lines(chunks[0]) + AllLines(chunks[1..])
  }

  /** The nested read loop is one fold over all lines of all chunks. */
  lemma {:induction false} RelayChunksFlat(chunks: seq<string>, parse: string -> Payload)
    ensures RelayChunks(chunks, parse) == RelayLines(AllLines(chunks), parse)
  {
    if |chunks| > 0 {
      RelayChunksFlat(chunks[1..], parse);
      RelayLinesAppend(Lines(chunks[0]), AllLines(chunks[1..]), parse);
    }
  }

  /** A `[DONE]` line closes the stream: no later line, in this chunk or a later one, emits anything. */
  lemma DoneStopsStream(before: seq<string>, doneLine: string, after: seq<string>, parse: string -> Payload)
    requires Classify(doneLine, parse) == Stop
    ensures RelayLines(before + [doneLine] + after, parse).done
    ensures !RelayLines(before, parse).done ==>
      RelayLines(before + [doneLine] + after, parse) == Relayed(RelayLines(before, parse).deltas, true)
  {
    RelayLinesAppend(before, [doneLine] + after, parse);
    assert before + [doneLine] + after == before + ([doneLine] + after);
  }

  /** A line that emits nothing (a malformed payload, a non-data line, an empty delta) does not stop the stream. */
  lemma SkippedLineIsInvisible(before: seq<string>, line: string, after: seq<string>, parse: string -> Payload)
    requires Classify(line, parse) == Skip
    ensures RelayLines(before + [line] + after, parse) == RelayLines(before + after, parse)
  {
    RelayLinesAppend(before, [line] + after, parse);
    RelayLinesAppend(before, after, parse);
    assert before + [line] + after == before + ([line] + after);
  }

  /** When a chunk ends on `[DONE]`, later chunks are not looked at. */
  lemma {:induction false} RelayChunksAppend(a: seq<string>, b: seq<string>, parse: string -> Payload)
    ensures var ra := RelayChunks(a, parse);
      RelayChunks(a + b, parse) == if ra.done then ra else Relayed(ra.deltas + RelayChunks(b, parse).deltas, RelayChunks(b, parse).done)
  {
    if |a| > 0 {
      assert (a + b)[0] == a[0];
      assert (a + b)[1..] == a[1..] + b;
      var first := RelayLines(Lines(a[0]), parse);
      if !first.done {
        RelayChunksAppend(a[1..], b, parse);
        var r1 := RelayChunks(a[1..], parse);
        var rb := RelayChunks(b, parse);
        assert RelayChunks(a + b, parse) == Relayed(first.deltas + RelayChunks(a[1..] + b, parse).deltas, RelayChunks(a[1..] + b, parse).done);
        if !r1.done {
          assert first.deltas + (r1.deltas + rb.deltas) == (first.deltas + r1.deltas) + rb.deltas;
        }
      }
    } else {
      assert a + b == b;
    }
  }

  // ---------------------------------------------------------------------------
  // Chunk boundaries

  /** A chunk with no line break, if non-empty, is one line. */
  lemma LinesSingle(line: string)
    requires '\n' !in line
    ensures Lines(line) == NonEmpty([line])
  {
    SplitNoSep(line, '\n');
  }

  /** A line ended by a break comes first among the lines of a chunk. */
  lemma LinesCons(line: string, rest: string)
    requires line != [] && '\n' !in line
    ensures Lines(line + "\n" + rest) == [line] + Lines(rest)
  {
    SplitPrefix(line, rest, '\n');
    assert line + "\n" + rest == line + ['\n'] + rest;
    var ps := Split(rest, '\n');
    assert ([line] + ps)[1..] == ps;
  }

  lemma {:induction false} RelayOneRead(chunk: string, parse: string -> Payload)
    ensures RelayChunks([chunk], parse) == RelayLines(Lines(chunk), parse)
  {
    assert [chunk][1..] == [];
    var first := RelayLines(Lines(chunk), parse);
    assert first.deltas + [] == first.deltas;
  }

  /**
   * As written, a frame whose `data: ` prefix is cut across two reads is lost:
   * neither piece is a `data: ` line, so nothing is relayed, whereas the same
   * bytes in one read relay the frame.
   */
  lemma CutFrameLost(k: nat, payload: string, parse: string -> Payload)
    requires 1 <= k < |DataPrefix| && '\n' !in payload
    ensures RelayChunks([DataPrefix[..k], DataPrefix[k..] + payload + "\n"], parse) == Relayed([], false)
    ensures RelayChunks([DataPrefix + payload + "\n"], parse) == RelayLines([DataPrefix + payload], parse)
  {
    var head := DataPrefix[..k];
    var tail := DataPrefix[k..] + payload;
    LinesSingle(head);
    assert NonEmpty([head]) == [head];
    assert !StartsWith(head, DataPrefix);
    assert RelayLines([head], parse) == Relayed([], false);
    assert Split("", '\n') == [""];
    assert Lines("") == [];
    LinesCons(tail, "");
    assert tail + "\n" + "" == DataPrefix[k..] + payload + "\n";
    assert Lines(DataPrefix[k..] + payload + "\n") == [tail];
    assert tail[0] == DataPrefix[k] != DataPrefix[0];
    assert !StartsWith(tail, DataPrefix);
    assert RelayLines([tail], parse) == Relayed([], false);
    RelayOneRead(DataPrefix[k..] + payload + "\n", parse);
    assert [head, DataPrefix[k..] + payload + "\n"][1..] == [DataPrefix[k..] + payload + "\n"];
    assert RelayChunks([DataPrefix[k..] + payload + "\n"], parse) == Relayed([], false);
    LinesCons(DataPrefix + payload, "");
    assert DataPrefix + payload + "\n" + "" == DataPrefix + payload + "\n";
    RelayOneRead(DataPrefix + payload + "\n", parse);
  }

  /** A payload that parses to a delta: the frame carries text the client should see. */
  function SampleParse(payload: string): Payload {
    if payload == "A" then Parsed(Some("Hi"), None) else Malformed
  }

  /** Reads `"dat"` then `"a: A\n"` relay nothing, though `"data: A\n"` in one read relays `"Hi"`. */
  lemma CutFrameExample()
    ensures RelayChunks([DataPrefix[..3], DataPrefix[3..] + "A" + "\n"], SampleParse).deltas == []
    ensures RelayChunks([DataPrefix + "A" + "\n"], SampleParse).deltas == ["Hi"]
  {
    CutFrameLost(3, "A", SampleParse);
    DataLine("A");
    TrimSingle('A');
    assert Classify(DataPrefix + "A", SampleParse) == Emit("Hi");
    assert [DataPrefix + "A"][1..] == [];
  }

  /** A `data: ` line hands its remainder to the payload check. */
  lemma DataLine(payload: string)
    ensures StartsWith(DataPrefix + payload, DataPrefix)
    ensures (DataPrefix + payload)[|DataPrefix|..] == payload
  {
    assert (DataPrefix + payload)[..|DataPrefix|] == DataPrefix;
  }

  /** A one-character payload that is not white space is its own trimmed form. */
  lemma TrimSingle(c: char)
    requires !IsSpace(c)
    ensures Trim([c]) == [c]
  {
  }

  /**
   * The read loop with a carry-over buffer: each read is appended to the text left
   * over from the previous one, only lines ended by a newline are processed, and
   * the unterminated tail waits for the next read; when the stream ends the tail
   * is processed as a last line.
   */
  function BufferedLoop(buffer: string, chunks: seq<string>, parse: string -> Payload): Relayed
    decreases |chunks|
  {
    if |chunks| == 0 then RelayLines(NonEmpty([buffer]), parse)
    else
      var parts := Split(buffer + chunks[0], '\n');
      var first := RelayLines(NonEmpty(parts[..|parts| - 1]), parse);
      if first.done then first
      else
        var rest := BufferedLoop(parts[|parts| - 1], chunks[1..], parse);
        Relayed(first.deltas + rest.deltas, rest.done)
  }

  /** With a buffer holding no newline, the buffered loop relays the lines of the buffer and every later read joined. */
  lemma {:induction false} BufferedLoopJoins(buffer: string, chunks: seq<string>, parse: string -> Payload)
    requires '\n' !in buffer
    ensures BufferedLoop(buffer, chunks, parse) == RelayLines(Lines(buffer + Concat(chunks)), parse)
    decreases |chunks|
  {
    if |chunks| == 0 {
      SplitNoSep(buffer, '\n');
      assert buffer + Concat(chunks) == buffer;
    } else {
      var rest := Concat(chunks[1..]);
      var parts := Split(buffer + chunks[0], '\n');
      var n := |parts|;
      var last := parts[n - 1];
      SplitAppend(buffer + chunks[0], rest, '\n');
      assert buffer + Concat(chunks) == (buffer + chunks[0]) + rest;
      NonEmptyAppend(parts[..n - 1], Split(last + rest, '\n'));
      RelayLinesAppend(NonEmpty(parts[..n - 1]), Lines(last + rest), parse);
      BufferedLoopJoins(last, chunks[1..], parse);
    }
  }

  /**
   * The read loop with a carry-over buffer relays exactly what the loop as written
   * relays when the whole stream arrives in one read.
   */
  function RelayBuffered(chunks: seq<string>, parse: string -> Payload): (r: Relayed)
    ensures r == RelayChunks([Concat(chunks)], parse)
  {
    BufferedLoopJoins("", chunks, parse);
    RelayOneRead(Concat(chunks), parse);
    assert "" + Concat(chunks) == Concat(chunks);
    BufferedLoop("", chunks, parse)
  }

  /** With the buffer, where the reads split the stream does not matter. */
  lemma ChunkingIrrelevant(a: seq<string>, b: seq<string>, parse: string -> Payload)
    requires Concat(a) == Concat(b)
    ensures RelayBuffered(a, parse) == RelayBuffered(b, parse)
  {
  }

  /** With the buffer, the cut frame of `CutFrameLost` is relayed as if it had arrived whole. */
  lemma CutFrameKept(k: nat, payload: string, parse: string -> Payload)
    requires 1 <= k < |DataPrefix| && '\n' !in payload
    ensures RelayBuffered([DataPrefix[..k], DataPrefix[k..] + payload + "\n"], parse)
      == RelayChunks([DataPrefix + payload + "\n"], parse)
  {
    var c := [DataPrefix[..k], DataPrefix[k..] + payload + "\n"];
    assert c[1..][1..] == [];
    assert Concat(c[1..][1..]) == "";
    assert Concat(c[1..]) == DataPrefix[k..] + payload + "\n";
    assert Concat(c) == DataPrefix[..k] + (DataPrefix[k..] + payload + "\n");
    assert DataPrefix[..k] + DataPrefix[k..] == DataPrefix;
    assert Concat(c) == DataPrefix + payload + "\n";
  }

  /** A string ending in a line break splits into complete pieces and one empty last piece. */
  lemma SplitAtBreak(a: string)
    requires a != [] && a[|a| - 1] == '\n'
    ensures var pa := Split(a, '\n');
      pa[|pa| - 1] == "" && Lines(a) == NonEmpty(pa[..|pa| - 1])
  {
    var x := a[..|a| - 1];
    assert a == x + ['\n'];
    SplitSnoc(x, '\n');
    var pa := Split(a, '\n');
    assert pa[..|pa| - 1] == Split(x, '\n');
    NonEmptyAppend(Split(x, '\n'), [""]);
    assert NonEmpty([""]) == [];
  }

  /** A read that ends on a line break leaves no partial line behind. */
  lemma LinesAppendAtBreak(a: string, b: string)
    requires a == [] || a[|a| - 1] == '\n'
    ensures Lines(a + b) == Lines(a) + Lines(b)
  {
    if a == [] {
      assert a + b == b;
      assert Lines(a) == [];
    } else {
      SplitAtBreak(a);
      var pa := Split(a, '\n');
      SplitAppend(a, b, '\n');
      assert "" + b == b;
      NonEmptyAppend(pa[..|pa| - 1], Split(b, '\n'));
    }
  }

  /** When every read ends on a line break, reading chunk by chunk sees the lines of the whole stream. */
  lemma {:induction false} AlignedLines(chunks: seq<string>)
    requires forall i :: 0 <= i < |chunks| ==> chunks[i] == [] || chunks[i][|chunks[i]| - 1] == '\n'
    ensures AllLines(chunks) == Lines(Concat(chunks))
  {
    if |chunks| == 0 {
      assert Lines("") == [];
    } else {
      AlignedLines(chunks[1..]);
      LinesAppendAtBreak(chunks[0], Concat(chunks[1..]));
    }
  }

  /**
   * The loop as written is only wrong when a read ends inside a line: with reads
   * that end on line breaks it relays what the buffered loop relays.
   */
  lemma AlignedReadsAgree(chunks: seq<string>, parse: string -> Payload)
    requires forall i :: 0 <= i < |chunks| ==> chunks[i] == [] || chunks[i][|chunks[i]| - 1] == '\n'
    ensures RelayChunks(chunks, parse) == RelayBuffered(chunks, parse)
  {
    RelayChunksFlat(chunks, parse);
    AlignedLines(chunks);
    RelayOneRead(Concat(chunks), parse);
  }

  // ---------------------------------------------------------------------------
  // The request handler

  /** The JSON body: `req.json()` either threw or gave the two fields read. */
  datatype RequestBody = Unreadable(error: string) | Body(threadId: Option<string>, messages: Option<seq<ChatEntry>>)

  /** The streaming chat-completion request sent to the provider. */
  datatype ProviderRequest = ProviderRequest(url: string, apiKey: string, model: string, stream: bool, messages: seq<ChatEntry>)

  /** The provider's answer: `fetch` threw, or a response with its status, error text and decoded chunks. */
  datatype Upstream = FetchError(message: string) | Upstream(ok: bool, hasBody: bool, status: nat, text: string, chunks: seq<string>)

  /**
   * A plain-text response with a status, or the 200 `text/plain` stream of the
   * enqueued deltas.
   */
  datatype Response = Plain(status: nat, body: string) | Streamed(deltas: seq<string>)

  predicate ValidPayload(threadId: Option<string>, messages: Option<seq<ChatEntry>>) {
    Truthy(threadId) && messages.Some? && |messages.value| > 0
  }

  /**
   * `POST(req)`. `hasSession` is the session lookup, `body` the parsed request body,
   * `apiKey` the `GROQ_API_KEY` setting, `provider` the answer to the outgoing
   * request and `parse` stands for `JSON.parse` on one payload. The stream is
   * relayed by the buffered loop, so where the reads split it does not matter.
   */
  function Post(hasSession: bool, body: RequestBody, apiKey: Option<string>,
                provider: ProviderRequest -> Upstream, parse: string -> Payload): (r: Response)
    ensures !hasSession ==> r == Plain(401, "Unauthorized")
    ensures hasSession && body.Unreadable? ==> r == Plain(500, body.error)
    ensures hasSession && body.Body? && !ValidPayload(body.threadId, body.messages) ==> r == Plain(400, "Invalid payload")
    ensures hasSession && body.Body? && ValidPayload(body.threadId, body.messages) && !Truthy(apiKey) ==>
      r == Plain(500, "Missing GROQ_API_KEY")
    ensures hasSession && body.Body? && ValidPayload(body.threadId, body.messages) && Truthy(apiKey) ==>
      var up := provider(ProviderRequest(ProviderUrl, apiKey.value, Model, true, body.messages.value));
      && (up.FetchError? ==> r == Plain(500, up.message))
      && (up.Upstream? && (!up.ok || !up.hasBody) && up.text != [] ==> r == Plain(500, up.text))
      && (up.Upstream? && (!up.ok || !up.hasBody) && up.text == [] ==>
            r == Plain(500, "LLM request failed with status " + Decimal(up.status)))
      && (up.Upstream? && up.ok && up.hasBody ==> r == Streamed(RelayLines(Lines(Concat(up.chunks)), parse).deltas))
    ensures r.Plain? ==> r.status in {400, 401, 500}
  {
    if !hasSession then Plain(401, "Unauthorized")
    else match body
      case Unreadable(error) => Plain(500, error)
      case Body(threadId, messages) =>
        if !ValidPayload(threadId, messages) then Plain(400, "Invalid payload")
        else if !Truthy(apiKey) then Plain(500, "Missing GROQ_API_KEY")
        else match provider(ProviderRequest(ProviderUrl, apiKey.value, Model, true, messages.value))
          case FetchError(message) => Plain(500, message)
          case Upstream(ok, hasBody, status, text, chunks) =>
            if !ok || !hasBody then
              Plain(500, if text != [] then text else "LLM request failed with status " + Decimal(status))
            else
              RelayOneRead(Concat(chunks), parse);
              Streamed(RelayBuffered(chunks, parse).deltas)
  }

  /**
   * The order of the checks: without a session nothing else matters; an invalid
   * payload wins over a missing key; the provider is consulted only after both.
   */
  lemma ValidationOrder(body: RequestBody, apiKey: Option<string>, apiKey': Option<string>,
                        provider: ProviderRequest -> Upstream, provider': ProviderRequest -> Upstream,
                        parse: string -> Payload, parse': string -> Payload)
    ensures Post(false, body, apiKey, provider, parse) == Post(false, body, apiKey', provider', parse')
    ensures body.Body? && !ValidPayload(body.threadId, body.messages) ==>
      Post(true, body, apiKey, provider, parse) == Post(true, body, apiKey', provider', parse')
    ensures body.Body? && !Truthy(apiKey) && !Truthy(apiKey') ==>
      Post(true, body, apiKey, provider, parse) == Post(true, body, apiKey', provider', parse')
  {
  }
}
