/**
 * The emitting side of `ollamaStreamHandler`: the callback that `c.Stream`
 * repeats until it returns false, and the handler that runs the reading
 * task's lines through it and then closes the body. The two tasks and their
 * channels are flattened into one sequential loop: the reading task's
 * lines arrive in order, and the stop signal arrives after the last one.
 */
module StreamRelay {
  import opened Wrappers
  import opened OllamaTypes
  import opened Seqs
  import opened ResponseMapping
  import opened LineFraming

  /** `json.Unmarshal` of one line into an Ollama response. */
  type Decoder = bytes -> Result<OllamaChatResponse, string>

  /** `json.Marshal` of one stream chunk. */
  type ChunkEncoder = ChatCompletionsStreamResponse -> Result<bytes, string>

  /** The bytes of "data: ", the framing of every event. */
  const DataPrefix: bytes := [0x64, 0x61, 0x74, 0x61, 0x3A, 0x20]

  /** The bytes of "data: [DONE]", the event that ends the stream. */
  const DoneEvent: bytes := DataPrefix + [0x5B, 0x44, 0x4F, 0x4E, 0x45, 0x5D]

  /** What the emitter waits for: the next line, or the reader's stop signal. */
  datatype Signal = Data(line: bytes) | Stop

  /** The text one line adds to the accumulated response: its `response` field if it decodes. */
  function DeltaText(decode: Decoder, line: bytes): string
  {
    match decode(line)
    case Failure(_) => ""
    case Success(response) => response.response
  }

  /** The chunk a decoded line becomes, carrying the stream's id. */
  function ChunkOf(response: OllamaChatResponse, id: string, created: int): (r: ChatCompletionsStreamResponse)
    ensures r.id == id && r.objectType == "chat.completion.chunk" && r.model == response.model
    ensures |r.choices| == 1 && r.choices[0].deltaContent == response.response
    ensures r.choices[0].finishReason.Some? <==> response.done
  {
    StreamResponseOllama2OpenAI(response, created).(id := id)
  }

  /** The events one line produces: one framed chunk if it decodes and encodes, else none. */
  function LineEvents(decode: Decoder, encode: ChunkEncoder, id: string, created: int, line: bytes): seq<bytes>
  {
    match decode(line)
    case Failure(_) => []
    case Success(response) =>
      match encode(ChunkOf(response, id, created))
      case Failure(_) => []
      case Success(json) => [DataPrefix + json]
  }

  /** The accumulated response text for a sequence of lines. */
  function StreamText(decode: Decoder, lines: seq<bytes>): string
  {
    FlatMap(lines, (line: bytes) => DeltaText(decode, line))
  }

  /** The chunk events for a sequence of lines, before the final `DoneEvent`. */
  function ChunkEvents(decode: Decoder, encode: ChunkEncoder, id: string, created: int, lines: seq<bytes>): seq<bytes>
  {
    FlatMap(lines, (line: bytes) => LineEvents(decode, encode, id, created, line))
  }

  /** One more line extends the accumulated text by that line's text. */
  lemma StreamTextSnoc(decode: Decoder, lines: seq<bytes>, line: bytes)
    ensures StreamText(decode, lines + [line]) == StreamText(decode, lines) + DeltaText(decode, line)
  {
    FlatMapSnoc(lines, line, (l: bytes) => DeltaText(decode, l));
  }

  /** One more line extends the chunk events by that line's events. */
  lemma ChunkEventsSnoc(decode: Decoder, encode: ChunkEncoder, id: string, created: int, lines: seq<bytes>, line: bytes)
    ensures ChunkEvents(decode, encode, id, created, lines + [line])
         == ChunkEvents(decode, encode, id, created, lines) + LineEvents(decode, encode, id, created, line)
  {
    FlatMapSnoc(lines, line, (l: bytes) => LineEvents(decode, encode, id, created, l));
  }

  /**
   * The state the `c.Stream` callback works on: the captured `responseText`
   * and the events rendered so far to the client.
   */
  class EventStream {
    const id: string
    const created: int
    const decode: Decoder
    const encode: ChunkEncoder
    var responseText: string
    var rendered: seq<bytes>

    constructor (id: string, created: int, decode: Decoder, encode: ChunkEncoder)
      ensures this.id == id && this.created == created
      ensures this.decode == decode && this.encode == encode
      ensures responseText == "" && rendered == []
    {
      this.id := id;
      this.created := created;
      this.decode := decode;
      this.encode := encode;
      responseText := "";
      rendered := [];
    }

    /**
     * One call of the callback. A line that fails to decode is skipped; a
     * decoded line adds its text even when its chunk then fails to encode.
     * The stop signal renders `DoneEvent` and ends the stream.
     */
    method Step(signal: Signal) returns (keepOpen: bool)
      modifies this
      ensures keepOpen <==> signal.Data?
      ensures signal.Data? ==> responseText == old(responseText) + DeltaText(decode, signal.line)
      ensures signal.Data? ==> rendered == old(rendered) + LineEvents(decode, encode, id, created, signal.line)
      ensures signal.Stop? ==> responseText == old(responseText) && rendered == old(rendered) + [DoneEvent]
    {
      match signal
      case Data(data) =>
        var decoded := decode(data);
        if decoded.Failure? {
          return true;
        }
        var response := StreamResponseOllama2OpenAI(decoded.value, created);
        if |response.choices| != 0 {
          responseText := responseText + response.choices[0].deltaContent;
        }
        response := response.(id := id);
        var json := encode(response);
        if json.Failure? {
          return true;
        }
        rendered := rendered + [DataPrefix + json.value];
        return true;
      case Stop =>
        rendered := rendered + [DoneEvent];
        return false;
    }
  }

  /**
   * `ollamaStreamHandler`: the emitter takes each line the reader passes on,
   * then the stop signal, then the body is closed. A failed close reports
   * `close_response_body_failed` with empty text; the events were already
   * rendered by then.
   */
  method OllamaStreamHandler(body: bytes, id: string, created: int, decode: Decoder, encode: ChunkEncoder,
                             closeError: Option<string>)
    returns (err: Option<OpenAIErrorWithStatusCode>, responseText: string, events: seq<bytes>)
    ensures events == ChunkEvents(decode, encode, id, created, Kept(Lines(body))) + [DoneEvent]
    ensures closeError.Some? ==>
      err == Some(OpenAIErrorWithStatusCode(closeError.value, "close_response_body_failed", StatusInternalServerError)) &&
      responseText == ""
    ensures closeError.None? ==> err.None? && responseText == StreamText(decode, Kept(Lines(body)))
  {
    var lines := ProduceLines(body);
    var stream := new EventStream(id, created, decode, encode);
    var i := 0;
    var keepOpen := true;
    while keepOpen
      invariant 0 <= i <= |lines|
      invariant stream.id == id && stream.created == created
      invariant stream.decode == decode && stream.encode == encode
      invariant keepOpen ==> stream.responseText == StreamText(decode, lines[..i])
      invariant keepOpen ==> stream.rendered == ChunkEvents(decode, encode, id, created, lines[..i])
      invariant !keepOpen ==> i == |lines| && stream.responseText == StreamText(decode, lines)
      invariant !keepOpen ==> stream.rendered == ChunkEvents(decode, encode, id, created, lines) + [DoneEvent]
      decreases |lines| - i, keepOpen
    {
      var signal := if i < |lines| then Data(lines[i]) else Stop;
      keepOpen := stream.Step(signal);
      if i < |lines| {
        assert lines[..i + 1] == lines[..i] + [lines[i]];
        StreamTextSnoc(decode, lines[..i], lines[i]);
        ChunkEventsSnoc(decode, encode, id, created, lines[..i], lines[i]);
        i := i + 1;
      } else {
        assert lines[..i] == lines;
      }
    }
    events := stream.rendered;
    if closeError.Some? {
      err := Some(OpenAIErrorWithStatusCode(closeError.value, "close_response_body_failed", StatusInternalServerError));
      responseText := "";
      return;
    }
    err, responseText := None, stream.responseText;
  }

  /** `event` is the framed chunk of the decoded and encoded `line`. */
  predicate EventOfLine(decode: Decoder, encode: ChunkEncoder, id: string, created: int, line: bytes, event: bytes)
  {
    decode(line).Success? &&
    encode(ChunkOf(decode(line).value, id, created)).Success? &&
    event == DataPrefix + encode(ChunkOf(decode(line).value, id, created)).value
  }

  /**
   * Every chunk event frames the encoding of a chunk built from one of the
   * lines, and that chunk carries the stream's id.
   */
  lemma {:induction false} ChunkEventsFromLines(decode: Decoder, encode: ChunkEncoder, id: string, created: int,
                                                lines: seq<bytes>, k: nat)
    requires k < |ChunkEvents(decode, encode, id, created, lines)|
    ensures exists j | 0 <= j < |lines| ::
      EventOfLine(decode, encode, id, created, lines[j], ChunkEvents(decode, encode, id, created, lines)[k])
  {
    var init, last := lines[..|lines| - 1], lines[|lines| - 1];
    assert lines == init + [last];
    ChunkEventsSnoc(decode, encode, id, created, init, last);
    var before := ChunkEvents(decode, encode, id, created, init);
    if k < |before| {
      ChunkEventsFromLines(decode, encode, id, created, init, k);
      var j :| 0 <= j < |init| && EventOfLine(decode, encode, id, created, init[j], before[k]);
      assert lines[j] == init[j];
    } else {
      assert EventOfLine(decode, encode, id, created, lines[|lines| - 1], ChunkEvents(decode, encode, id, created, lines)[k]);
    }
  }

  /** When every line decodes and encodes, there is one event per line, in order. */
  lemma {:induction false} ChunkEventsAllValid(decode: Decoder, encode: ChunkEncoder, id: string, created: int,
                                               lines: seq<bytes>)
    requires forall j | 0 <= j < |lines| :: decode(lines[j]).Success?
    requires forall j | 0 <= j < |lines| :: encode(ChunkOf(decode(lines[j]).value, id, created)).Success?
    ensures |ChunkEvents(decode, encode, id, created, lines)| == |lines|
    ensures forall j | 0 <= j < |lines| ::
      EventOfLine(decode, encode, id, created, lines[j], ChunkEvents(decode, encode, id, created, lines)[j])
  {
    if lines != [] {
      var init, last := lines[..|lines| - 1], lines[|lines| - 1];
      assert lines == init + [last];
      ChunkEventsSnoc(decode, encode, id, created, init, last);
      ChunkEventsAllValid(decode, encode, id, created, init);
      assert forall j | 0 <= j < |init| :: init[j] == lines[j];
    }
  }

  /** A line that fails to decode adds neither an event nor text, wherever it stands. */
  lemma UndecodableLineDropped(decode: Decoder, encode: ChunkEncoder, id: string, created: int,
                               before: seq<bytes>, line: bytes, after: seq<bytes>)
    requires decode(line).Failure?
    ensures ChunkEvents(decode, encode, id, created, before + [line] + after)
         == ChunkEvents(decode, encode, id, created, before + after)
    ensures StreamText(decode, before + [line] + after) == StreamText(decode, before + after)
  {
    FlatMapDrop(before, line, after, (l: bytes) => LineEvents(decode, encode, id, created, l));
    FlatMapDrop(before, line, after, (l: bytes) => DeltaText(decode, l));
  }

  /**
   * A line that decodes but whose chunk fails to encode adds no event, yet
   * its text is still accumulated (the text is added before encoding).
   */
  lemma UnencodableLineKeepsText(decode: Decoder, encode: ChunkEncoder, id: string, created: int,
                                 before: seq<bytes>, line: bytes, after: seq<bytes>)
    requires decode(line).Success? && encode(ChunkOf(decode(line).value, id, created)).Failure?
    ensures ChunkEvents(decode, encode, id, created, before + [line] + after)
         == ChunkEvents(decode, encode, id, created, before + after)
    ensures StreamText(decode, before + [line] + after)
         == StreamText(decode, before) + decode(line).value.response + StreamText(decode, after)
  {
    FlatMapDrop(before, line, after, (l: bytes) => LineEvents(decode, encode, id, created, l));
    FlatMapMiddle(before, line, after, (l: bytes) => DeltaText(decode, l));
  }

  /** Whether every encoding the marshaller produces is a JSON object, i.e. starts with '{'. */
  ghost predicate EncodesObjects(encode: ChunkEncoder)
  {
    forall c :: encode(c).Success? ==> encode(c).value != [] && encode(c).value[0] == 0x7B
  }

  /**
   * When chunks encode as JSON objects, no chunk event is the terminal
   * event, so the full event sequence holds `DoneEvent` exactly once, last.
   */
  lemma SingleDoneEvent(decode: Decoder, encode: ChunkEncoder, id: string, created: int, lines: seq<bytes>)
    requires EncodesObjects(encode)
    ensures DoneEvent !in ChunkEvents(decode, encode, id, created, lines)
    ensures multiset(ChunkEvents(decode, encode, id, created, lines) + [DoneEvent])[DoneEvent] == 1
  {
    var events := ChunkEvents(decode, encode, id, created, lines);
    forall k | 0 <= k < |events|
      ensures events[k] != DoneEvent
    {
      ChunkEventsFromLines(decode, encode, id, created, lines, k);
      var j :| 0 <= j < |lines| && EventOfLine(decode, encode, id, created, lines[j], events[k]);
      assert events[k][|DataPrefix|] == 0x7B;
      assert DoneEvent[|DataPrefix|] == 0x5B;
    }
    assert multiset(events)[DoneEvent] == 0;
    assert multiset(events + [DoneEvent]) == multiset(events) + multiset{DoneEvent};
  }

  /**
   * A body of three lines, the middle one not JSON, relays as two chunk
   * events (for the first and last lines) and then the terminal event.
   */
  lemma MalformedLineResilience(decode: Decoder, encode: ChunkEncoder, id: string, created: int,
                                valid1: bytes, bad: bytes, valid2: bytes)
    requires NL !in valid1 && NL !in bad && NL !in valid2
    requires |valid1| >= MinLineLength && |bad| >= MinLineLength && |valid2| >= MinLineLength
    requires decode(valid1).Success? && decode(bad).Failure? && decode(valid2).Success?
    requires encode(ChunkOf(decode(valid1).value, id, created)).Success?
    requires encode(ChunkOf(decode(valid2).value, id, created)).Success?
    ensures ChunkEvents(decode, encode, id, created, Kept(Lines(Terminated([valid1, bad, valid2])))) + [DoneEvent]
         == [DataPrefix + encode(ChunkOf(decode(valid1).value, id, created)).value,
             DataPrefix + encode(ChunkOf(decode(valid2).value, id, created)).value,
             DoneEvent]
  {
    var lines := [valid1, bad, valid2];
    LinesOfTerminated(lines);
    assert lines == [valid1] + [bad] + [valid2];
    KeptAppend([valid1] + [bad], [valid2]);
    KeptAppend([valid1], [bad]);
    FlatMapSingle(valid1, Keep);
    FlatMapSingle(bad, Keep);
    FlatMapSingle(valid2, Keep);
    assert Kept(lines) == lines;
    UndecodableLineDropped(decode, encode, id, created, [valid1], bad, [valid2]);
    ChunkEventsSnoc(decode, encode, id, created, [valid1], valid2);
    ChunkEventsSnoc(decode, encode, id, created, [], valid1);
    assert [valid1] + [] == [valid1];
  }
}
