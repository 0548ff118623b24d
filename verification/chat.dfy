/**
 * src/tools/chat.py: `chat_completions` validates the messages, builds the
 * request payload, sends it once and drains the streamed answer line by line.
 * The HTTP exchange and JSON decoding are parameters: `server` maps the payload
 * to what the request produced, `decode` maps a line's payload to the part of
 * the decoded chunk the loop reads.
 */
module Chat {
  import opened Wrappers
  import opened Errors

  // ---------------------------------------------------------------------
  // Validation and payload
  // ---------------------------------------------------------------------

  /** One chat message: its "role" and "content" keys, `None` when absent or null. */
  datatype Message = Message(role: Option<string>, content: Option<string>)

  const NoMessagesError: string :=
    "Error: No messages provided. Please include at least one message with 'role' and 'content' fields."

  const InvalidMessageError: string :=
    "Error: Each message must have 'role' and 'content' fields. Valid roles are 'system', 'user', and 'assistant'."

  const NotFoundError: string :=
    "Error: Not found (404): The requested resource could not be found. Check your conversation_id or data_source_ids."

  const NoContentMessage: string :=
    "No content returned from the API. Please check that your data sources are accessible and try again."

  /** A message the API accepts: both keys present and non-empty. */
  predicate WellFormed(m: Message) {
    Truthy(m.role) && Truthy(m.content)
  }

  /** The request body: "messages" and "stream" always, the other two keys only when set. */
  datatype Payload = Payload(
    messages: seq<Message>,
    stream: bool,
    conversationId: Option<string>,           // `None`: key absent
    dataSources: Option<seq<DataSourceRef>>)  // `None`: key absent

  /** The payload built from validated messages. */
  function PayloadFor(messages: seq<Message>, dataSources: Option<seq<DataSourceItem>>, conversationId: Option<string>): (p: Payload)
    ensures p.messages == messages && p.stream
    ensures p.conversationId.Some? <==> Truthy(conversationId)
    ensures p.conversationId.Some? ==> p.conversationId == conversationId
    ensures p.dataSources.Some? <==> dataSources.Some? && dataSources.value != []
    ensures p.dataSources.Some? ==> p.dataSources.value == Refs(dataSources.value)
  {
    Payload(
      messages,
      true,
      if Truthy(conversationId) then conversationId else None,
      if dataSources.Some? && dataSources.value != [] then Some(Refs(dataSources.value)) else None)
  }

  // ---------------------------------------------------------------------
  // The streamed answer
  // ---------------------------------------------------------------------

  /** What decoding one line's payload yields, as far as the loop reads it. */
  datatype Chunk =
    | Malformed                  // not JSON: skipped
    | Unusable(reason: string)   // JSON whose shape makes the lookup raise, e.g. a bare number
    | Chunk(delta: Option<string>)  // the first choice's `delta.content`; `None` when absent, null or there are no choices

  /** The prefix of a line that carries data. */
  const DataPrefix: string := "data: "

  /** The end-of-stream marker. */
  const DoneMarker: string := "[DONE]"

  predicate IsDataLine(line: string) {
    |line| >= |DataPrefix| && line[..|DataPrefix|] == DataPrefix
  }

  /** How one line acts on the loop. */
  datatype Effect = Skip | Stop | Append(text: string) | Raise(reason: string)

  function EffectOf(line: string, decode: string -> Chunk): (e: Effect)
    ensures !IsDataLine(line) ==> e == Skip
    ensures IsDataLine(line) && line[|DataPrefix|..] == DoneMarker ==> e == Stop
    ensures IsDataLine(line) && line[|DataPrefix|..] != DoneMarker ==>
      match decode(line[|DataPrefix|..])
      case Malformed => e == Skip
      case Unusable(reason) => e == Raise(reason)
      case Chunk(delta) => e == if delta.Some? then Append(delta.value) else Skip
  {
    if line == "" || !IsDataLine(line) then Skip
    else
      var data := line[|DataPrefix|..];
      if data == DoneMarker then Stop
      else
        match decode(data)
        case Malformed => Skip
        case Unusable(reason) => Raise(reason)
        case Chunk(delta) => if delta.Some? then Append(delta.value) else Skip
  }

  /** How the loop ends: at the marker, at the end of the lines, or by an exception. */
  datatype Drained = Done(text: string) | Exhausted(text: string) | Raised(reason: string)

  /** Text gathered before the rest of the stream. */
  function Prepend(s: string, d: Drained): Drained {
    match d
    case Done(t) => Done(s + t)
    case Exhausted(t) => Exhausted(s + t)
    case Raised(r) => Raised(r)
  }

  /** The loop over the lines, as a reference definition. */
  function Drain(lines: seq<string>, decode: string -> Chunk): Drained
    decreases |lines|
  {
    if lines == [] then Exhausted("")
    else
      match EffectOf(lines[0], decode)
      case Skip => Drain(lines[1..], decode)
      case Stop => Done("")
      case Append(s) => Prepend(s, Drain(lines[1..], decode))
      case Raise(r) => Raised(r)
  }

  lemma PrependPrepend(a: string, b: string, d: Drained)
    ensures Prepend(a, Prepend(b, d)) == Prepend(a + b, d)
  {
    match d
    case Done(t) => assert a + (b + t) == (a + b) + t;
    case Exhausted(t) => assert a + (b + t) == (a + b) + t;
    case Raised(_) =>
  }

  /** The `async for line in response.aiter_lines()` loop. */
  method DrainStream(lines: seq<string>, decode: string -> Chunk) returns (outcome: Drained)
    ensures outcome == Drain(lines, decode)
  {
    var fullResponse := "";
    for i := 0 to |lines|
      invariant Drain(lines, decode) == Prepend(fullResponse, Drain(lines[i..], decode))
    {
      var line := lines[i];
      assert lines[i..][1..] == lines[i + 1..];
      if line == "" {
        continue;
      }
      if IsDataLine(line) {
        var data := line[|DataPrefix|..];
        if data == DoneMarker {
          assert Drain(lines[i..], decode) == Done("");
          return Done(fullResponse + "");
        }
        match decode(data)
        case Malformed =>
        case Unusable(reason) =>
          return Raised(reason);
        case Chunk(delta) =>
          if delta.Some? {
            PrependPrepend(fullResponse, delta.value, Drain(lines[i + 1..], decode));
            fullResponse := fullResponse + delta.value;
          }
      }
    }
    assert lines[|lines|..] == [];
    outcome := Exhausted(fullResponse + "");
  }

  // ---------------------------------------------------------------------
  // The whole tool
  // ---------------------------------------------------------------------

  /** What the request produced: a failure before any line was read, or the lines and how the stream ended. */
  datatype Exchange =
    | Failed(error: ApiError)                                // the call or `raise_for_status` raised
    | Streamed(lines: seq<string>, interruption: Option<ApiError>)  // reading after the last line raised, if `Some`

  /** The text for a caught exception: the fixed not-found text for a 404, else `handle_api_error`'s. */
  function ErrorAnswer(e: ApiError): (r: string)
    ensures e.HttpStatus? && e.code == 404 ==> r == NotFoundError
    ensures !(e.HttpStatus? && e.code == 404) ==> r == HandleApiError(e, "chat completion")
  {
    if e.HttpStatus? && e.code == 404 then NotFoundError else HandleApiError(e, "chat completion")
  }

  /** `full_response or "No content returned…"`. */
  function Answer(text: string): (r: string)
    ensures text != "" ==> r == text
    ensures text == "" ==> r == NoContentMessage
  {
    if text == "" then NoContentMessage else text
  }

  /** What `chat_completions` returns. */
  function ChatAnswer(messages: Option<seq<Message>>, dataSources: Option<seq<DataSourceItem>>, conversationId: Option<string>,
                      server: Payload -> Exchange, decode: string -> Chunk): string
  {
    if messages.None? || messages.value == [] then NoMessagesError
    else if exists i :: 0 <= i < |messages.value| && !WellFormed(messages.value[i]) then InvalidMessageError
    else Reply(server(PayloadFor(messages.value, dataSources, conversationId)), decode)
  }

  /** The answer made of what the request produced. */
  function Reply(response: Exchange, decode: string -> Chunk): string {
    match response
    case Failed(e) => ErrorAnswer(e)
    case Streamed(lines, interruption) =>
      match Drain(lines, decode)
      case Done(text) => Answer(text)
      case Exhausted(text) => if interruption.Some? then ErrorAnswer(interruption.value) else Answer(text)
      case Raised(reason) => ErrorAnswer(Failure(reason))
  }

  /** The part of `chat_completions` after the request: read the stream, or report what was raised. */
  method Respond(response: Exchange, decode: string -> Chunk) returns (answer: string)
    ensures answer == Reply(response, decode)
  {
    match response
    case Failed(e) =>
      answer := ErrorAnswer(e);
    case Streamed(lines, interruption) =>
      var outcome := DrainStream(lines, decode);
      match outcome
      case Done(text) =>
        answer := Answer(text);
      case Exhausted(text) =>
        if interruption.Some? {
          answer := ErrorAnswer(interruption.value);
        } else {
          answer := Answer(text);
        }
      case Raised(reason) =>
        answer := ErrorAnswer(Failure(reason));
  }

  /** `chat_completions(ctx, messages, data_sources, conversation_id)`, without the `ctx` notifications. */
  method ChatCompletions(messages: Option<seq<Message>>, dataSources: Option<seq<DataSourceItem>>, conversationId: Option<string>,
                         server: Payload -> Exchange, decode: string -> Chunk) returns (answer: string)
    ensures answer == ChatAnswer(messages, dataSources, conversationId, server, decode)
  {
    if messages.None? || |messages.value| == 0 {
      return NoMessagesError;
    }
    var msgs := messages.value;
    for i := 0 to |msgs|
      invariant forall k :: 0 <= k < i ==> WellFormed(msgs[k])
    {
      if !Truthy(msgs[i].role) || !Truthy(msgs[i].content) {
        return InvalidMessageError;
      }
    }
    var conversation: Option<string> := None;
    if Truthy(conversationId) {
      conversation := conversationId;
    }
    var sources: Option<seq<DataSourceRef>> := None;
    if dataSources.Some? && dataSources.value != [] {
      var formatted := FormatDataSourceIds(dataSources);
      sources := Some(formatted);
    }
    var requestData := Payload(msgs, true, conversation, sources);
    assert requestData == PayloadFor(msgs, dataSources, conversationId);
    var response := server(requestData);
    answer := Respond(response, decode);
  }

  // ---------------------------------------------------------------------
  // Properties
  // ---------------------------------------------------------------------

  /** Without messages the tool answers with the fixed error and never sends a request. */
  lemma NoMessagesNoRequest(messages: Option<seq<Message>>, dataSources: Option<seq<DataSourceItem>>, conversationId: Option<string>,
                            server: Payload -> Exchange, decode: string -> Chunk)
    requires messages.None? || messages.value == []
    ensures ChatAnswer(messages, dataSources, conversationId, server, decode) == NoMessagesError
  {
  }

  /**
   * One message without a truthy role or content makes the answer the fixed
   * error, whatever the server would have done.
   */
  lemma InvalidMessageNoRequest(msgs: seq<Message>, i: nat, dataSources: Option<seq<DataSourceItem>>, conversationId: Option<string>,
                                server: Payload -> Exchange, decode: string -> Chunk)
    requires i < |msgs| && !WellFormed(msgs[i])
    ensures ChatAnswer(Some(msgs), dataSources, conversationId, server, decode) == InvalidMessageError
  {
  }

  /** How a stream made of two pieces is drained: the second is read only if the first ran out. */
  lemma {:induction false} DrainAppend(a: seq<string>, b: seq<string>, decode: string -> Chunk)
    ensures Drain(a + b, decode) ==
      match Drain(a, decode)
      case Exhausted(t) => Prepend(t, Drain(b, decode))
      case other => other
    decreases |a|
  {
    if a == [] {
      assert a + b == b;
      match Drain(b, decode)
      case Done(t) => assert "" + t == t;
      case Exhausted(t) => assert "" + t == t;
      case Raised(_) =>
    } else {
      assert (a + b)[0] == a[0] && (a + b)[1..] == a[1..] + b;
      DrainAppend(a[1..], b, decode);
      match EffectOf(a[0], decode)
      case Skip =>
      case Stop =>
      case Raise(_) =>
      case Append(s) =>
        match Drain(a[1..], decode)
        case Exhausted(t) => PrependPrepend(s, t, Drain(b, decode));
        case Done(_) =>
        case Raised(_) =>
    }
  }

  /**
   * A skipped line contributes nothing, wherever it stands: blank lines, lines
   * without the exact `data: ` prefix, undecodable payloads and chunks without
   * delta content.
   */
  lemma IgnoredLine(a: seq<string>, line: string, b: seq<string>, decode: string -> Chunk)
    requires EffectOf(line, decode) == Skip
    ensures Drain(a + [line] + b, decode) == Drain(a + b, decode)
  {
    DrainAppend(a + [line], b, decode);
    DrainAppend(a, [line], decode);
    DrainAppend(a, b, decode);
    assert [line][1..] == [];
    match Drain(a, decode)
    case Exhausted(t) =>
      assert Drain([line], decode) == Exhausted("");
      assert t + "" == t;
    case Done(_) =>
    case Raised(_) =>
  }

  /** After the `[DONE]` marker nothing is read: what follows cannot change the outcome. */
  lemma DoneEndsTheStream(a: seq<string>, b1: seq<string>, b2: seq<string>, decode: string -> Chunk)
    ensures Drain(a + ["data: [DONE]"] + b1, decode) == Drain(a + ["data: [DONE]"] + b2, decode)
    ensures Drain(a, decode).Exhausted? ==> Drain(a + ["data: [DONE]"] + b1, decode) == Done(Drain(a, decode).text)
  {
    var done := "data: [DONE]";
    assert IsDataLine(done) && done[|DataPrefix|..] == DoneMarker;
    assert Drain([done], decode) == Done("");
    DrainAppend(a + [done], b1, decode);
    DrainAppend(a + [done], b2, decode);
    DrainAppend(a, [done], decode);
    match Drain(a, decode)
    case Exhausted(t) => assert t + "" == t;
    case Done(_) =>
    case Raised(_) =>
  }

  /** The lines of the two-chunk example: "Hello", then " world", then the marker. */
  function ExampleDecode(data: string): Chunk {
    if data == "{\"choices\":[{\"delta\":{\"content\":\"Hello\"}}]}" then Chunk(Some("Hello"))
    else if data == "{\"choices\":[{\"delta\":{\"content\":\" world\"}}]}" then Chunk(Some(" world"))
    else Malformed
  }

  /** With valid messages, a request that fails outright gives the not-found text for a 404 and `handle_api_error`'s text otherwise. */
  lemma RequestFailure(msgs: seq<Message>, dataSources: Option<seq<DataSourceItem>>, conversationId: Option<string>,
                       server: Payload -> Exchange, decode: string -> Chunk, e: ApiError)
    requires msgs != [] && forall i :: 0 <= i < |msgs| ==> WellFormed(msgs[i])
    requires server(PayloadFor(msgs, dataSources, conversationId)) == Failed(e)
    ensures e.HttpStatus? && e.code == 404 ==> ChatAnswer(Some(msgs), dataSources, conversationId, server, decode) == NotFoundError
    ensures !(e.HttpStatus? && e.code == 404) ==>
      ChatAnswer(Some(msgs), dataSources, conversationId, server, decode) == HandleApiError(e, "chat completion")
  {
  }

  /**
   * With valid messages and a stream that is read to its marker or its end
   * without an exception, the answer is the gathered text, or the fixed
   * no-content text when nothing was gathered.
   */
  lemma StreamedAnswer(msgs: seq<Message>, dataSources: Option<seq<DataSourceItem>>, conversationId: Option<string>,
                       server: Payload -> Exchange, decode: string -> Chunk, lines: seq<string>, text: string)
    requires msgs != [] && forall i :: 0 <= i < |msgs| ==> WellFormed(msgs[i])
    requires server(PayloadFor(msgs, dataSources, conversationId)) == Streamed(lines, None)
    requires Drain(lines, decode) == Done(text) || Drain(lines, decode) == Exhausted(text)
    ensures text != "" ==> ChatAnswer(Some(msgs), dataSources, conversationId, server, decode) == text
    ensures text == "" ==> ChatAnswer(Some(msgs), dataSources, conversationId, server, decode) == NoContentMessage
  {
  }

  /** A line made of the prefix and a payload is a data line carrying that payload. */
  lemma DataLine(payload: string)
    ensures IsDataLine(DataPrefix + payload) && (DataPrefix + payload)[|DataPrefix|..] == payload
  {
  }

  /** The example stream: "Hello", then " world", then the marker. */
  function ExampleLines(): seq<string> {
    [DataPrefix + "{\"choices\":[{\"delta\":{\"content\":\"Hello\"}}]}",
     DataPrefix + "{\"choices\":[{\"delta\":{\"content\":\" world\"}}]}",
     DataPrefix + DoneMarker]
  }

  /** Two content chunks are concatenated in order, and the marker closes the stream. */
  lemma HelloWorldStream()
    ensures Drain(ExampleLines(), ExampleDecode) == Done("Hello world")
  {
    var lines := ExampleLines();
    DataLine("{\"choices\":[{\"delta\":{\"content\":\"Hello\"}}]}");
    DataLine("{\"choices\":[{\"delta\":{\"content\":\" world\"}}]}");
    DataLine(DoneMarker);
    assert lines[1..] == [lines[1], lines[2]] && lines[1..][1..] == [lines[2]];
    assert EffectOf(lines[2], ExampleDecode) == Stop;
    assert EffectOf(lines[1], ExampleDecode) == Append(" world");
    assert EffectOf(lines[0], ExampleDecode) == Append("Hello");
    assert Drain([lines[2]], ExampleDecode) == Done("");
    assert Drain(lines[1..], ExampleDecode) == Done(" world" + "");
  }

  /** The tool hands the example's concatenated text back as its answer. */
  lemma HelloWorld(server: Payload -> Exchange)
    requires forall p :: server(p) == Streamed(ExampleLines(), None)
    ensures ChatAnswer(Some([Message(Some("user"), Some("Hi"))]), None, None, server, ExampleDecode) == "Hello world"
  {
    HelloWorldStream();
    var msgs := [Message(Some("user"), Some("Hi"))];
    assert forall i :: 0 <= i < |msgs| ==> WellFormed(msgs[i]);
  }
}
