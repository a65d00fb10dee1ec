/**
 * The API client: the completion request body, the model-list and
 * completion error rules, and the server-sent-event line framer that turns
 * the streamed response body into text fragments.
 */
module OpenRouter {
  import opened Wrappers
  import opened Sequences
  import opened JsString

  // ---------------------------------------------------------------- wire types

  datatype Role = User | Assistant | System

  /** One element of a multi-part message content. */
  datatype Part = TextPart(text: string) | ImageUrlPart(url: string)

  /** Message content: plain text or an ordered list of parts. */
  datatype Content = Text(text: string) | Parts(parts: seq<Part>)

  datatype ApiMessage = ApiMessage(role: Role, content: Content)

  datatype ModelInfo = ModelInfo(id: string, name: string, contextLength: int)

  // ------------------------------------------------------------- model listing

  /**
   * The result of the model-list `fetch`: the parts of a response the client
   * looks at (`data` is the body's `data` field), or a rejection (a network
   * failure) with the thrown error's message.
   */
  datatype ModelsResponse =
    | ModelsResponse(ok: bool, statusText: string, data: Option<seq<ModelInfo>>)
    | ModelsRejected(reason: string)

  const ModelsErrorPrefix := "Failed to fetch models: "

  /** What `getModels` returns or throws: a rejected `fetch` propagates its own error. */
  function ModelsResult(resp: ModelsResponse): (r: Result<seq<ModelInfo>, string>)
    ensures r.Failure? <==> resp.ModelsRejected? || !resp.ok
    ensures resp.ModelsRejected? ==> r == Failure(resp.reason)
    ensures resp.ModelsResponse? && !resp.ok ==> r == Failure(ModelsErrorPrefix + resp.statusText)
    ensures resp.ModelsResponse? && resp.ok && resp.data.None? ==> r == Success([])
    ensures resp.ModelsResponse? && resp.ok && resp.data.Some? ==> r == Success(resp.data.value)
  {
    if resp.ModelsRejected? then Failure(resp.reason)
    else if !resp.ok then Failure(ModelsErrorPrefix + resp.statusText)
    else Success(resp.data.GetOr([]))
  }

  // -------------------------------------------------------------- request body

  const DefaultModel := "openai/gpt-4o-mini"
  const DefaultTemperature: real := 0.7

  /** The caller's options; `None` is a key the caller did not give. */
  datatype Options = Options(model: Option<string>, stream: Option<bool>,
                             temperature: Option<real>, maxTokens: Option<int>)

  datatype RequestBody = RequestBody(model: string, messages: seq<ApiMessage>, stream: bool,
                                     temperature: real, maxTokens: Option<int>)

  /**
   * JavaScript `v || d` on an optional string: the result is truthy exactly
   * when one operand is, and a truthy left operand wins.
   */
  function StringOr(v: Option<string>, d: string): (r: string)
    ensures r == d || Some(r) == v
    ensures r != "" <==> (v.Some? && v.value != "") || d != ""
    ensures v.Some? && v.value != "" ==> r == v.value
  {
    if v.Some? && v.value != "" then v.value else d
  }

  /** JavaScript `v || d` on an optional number, where zero is the falsy value. */
  function NumberOr(v: Option<real>, d: real): (r: real)
    ensures r == d || Some(r) == v
    ensures r != 0.0 <==> (v.Some? && v.value != 0.0) || d != 0.0
    ensures v.Some? && v.value != 0.0 ==> r == v.value
  {
    if v.Some? && v.value != 0.0 then v.value else d
  }

  /**
   * The object literal's own fields, before the options are spread over it:
   * it always streams, never carries an empty model or a zero temperature,
   * and takes a truthy option over the default.
   */
  function LiteralBody(messages: seq<ApiMessage>, options: Options): (b: RequestBody)
    ensures b.messages == messages && b.stream && b.maxTokens.None?
    ensures b.model != "" && b.temperature != 0.0
    ensures b.model == if options.model.Some? && options.model.value != "" then options.model.value else DefaultModel
    ensures b.temperature ==
      if options.temperature.Some? && options.temperature.value != 0.0 then options.temperature.value else DefaultTemperature
  {
    RequestBody(StringOr(options.model, DefaultModel), messages, true,
                NumberOr(options.temperature, DefaultTemperature), None)
  }

  /** `{...body, ...options}`: every option the caller gave replaces the field of the same name; the rest is kept. */
  function Spread(body: RequestBody, options: Options): (r: RequestBody)
    ensures r.messages == body.messages
    ensures options.model.Some? ==> r.model == options.model.value
    ensures options.model.None? ==> r.model == body.model
    ensures options.stream.Some? ==> r.stream == options.stream.value
    ensures options.stream.None? ==> r.stream == body.stream
    ensures options.temperature.Some? ==> r.temperature == options.temperature.value
    ensures options.temperature.None? ==> r.temperature == body.temperature
    ensures options.maxTokens.Some? ==> r.maxTokens == options.maxTokens
    ensures options.maxTokens.None? ==> r.maxTokens == body.maxTokens
  {
    body.(model := options.model.GetOr(body.model),
          stream := options.stream.GetOr(body.stream),
          temperature := options.temperature.GetOr(body.temperature),
          maxTokens := if options.maxTokens.Some? then options.maxTokens else body.maxTokens)
  }

  /**
   * The completion request body. Its net effect: each field the caller gave
   * wins (even an empty model or a zero temperature, which the literal's `||`
   * would have replaced), and absent fields take the defaults.
   */
  function BuildRequestBody(messages: seq<ApiMessage>, options: Options): (b: RequestBody)
    ensures b.messages == messages
    ensures b.model == if options.model.Some? then options.model.value else DefaultModel
    ensures b.temperature == if options.temperature.Some? then options.temperature.value else DefaultTemperature
    ensures b.stream == if options.stream.Some? then options.stream.value else true
    ensures b.maxTokens == options.maxTokens
  {
    Spread(LiteralBody(messages, options), options)
  }

  // ---------------------------------------------------- server-sent-event framer

  /**
   * What `JSON.parse` of a data payload followed by the lookup of
   * `choices[0].delta.content` gives: a thrown error, no content, or a string.
   */
  datatype Parsed = ParseFailure | NoContent | DeltaContent(content: string)

  const DataPrefix := "data: "
  const DoneMarker := "[DONE]"
  const Newline := '\n'

  /** The fragment one complete line contributes: none, or one non-empty string. */
  function LineFragment(line: string, parse: string -> Parsed): (r: seq<string>)
    ensures |r| <= 1
    ensures forall i :: 0 <= i < |r| ==> r[i] != ""
  {
    if !StartsWith(line, DataPrefix) then []
    else
      var data := line[|DataPrefix|..];
      if data == DoneMarker then []
      else match parse(data)
        case DeltaContent(s) => if s != "" then [s] else []
        case _ => []
  }

  /** The cases of LineFragment, one per branch of the loop body. */
  lemma LineFragmentCases(line: string, parse: string -> Parsed)
    ensures !StartsWith(line, DataPrefix) ==> LineFragment(line, parse) == []
    ensures StartsWith(line, DataPrefix) && line[|DataPrefix|..] == DoneMarker ==> LineFragment(line, parse) == []
    ensures StartsWith(line, DataPrefix) && line[|DataPrefix|..] != DoneMarker ==>
      LineFragment(line, parse)
        == match parse(line[|DataPrefix|..])
           case DeltaContent(s) => if s != "" then [s] else []
           case _ => []
  {
  }

  /** The fragments of a list of complete lines, in order. */
  function LinesFragments(lines: seq<string>, parse: string -> Parsed): (r: seq<string>)
    ensures |r| <= |lines|
    ensures forall i :: 0 <= i < |r| ==> r[i] != ""
  {
    if |lines| == 0 then []
    else LineFragment(lines[0], parse) + LinesFragments(lines[1..], parse)
  }

  /**
   * Reference definition: the fragments of every complete line of `text`,
   * at most one per line, none empty; text without a newline yields nothing.
   */
  function Fragments(text: string, parse: string -> Parsed): (r: seq<string>)
    ensures |r| < |Split(text, Newline)|
    ensures forall i :: 0 <= i < |r| ==> r[i] != ""
    ensures Newline !in text ==> r == []
  {
    var r := LinesFragments(Init(Split(text, Newline)), parse);
    if Newline in text then r else SplitNoSeparator(text, Newline); r
  }

  /** The unfinished last line of `text`: what the read loop keeps in its buffer. */
  function Remainder(text: string): (r: string)
    ensures Newline !in r
  {
    Last(Split(text, Newline))
  }

  /**
   * Functional model of the read loop: append the next chunk to the
   * carried-over `buffer`, emit the fragments of its complete lines, carry the
   * last piece over.
   */
  function StreamFrom(buffer: string, chunks: seq<string>, parse: string -> Parsed): (r: seq<string>)
    ensures forall i :: 0 <= i < |r| ==> r[i] != ""
    decreases |chunks|
  {
    if |chunks| == 0 then []
    else
      var lines := Split(buffer + chunks[0], Newline);
      LinesFragments(Init(lines), parse) + StreamFrom(Last(lines), chunks[1..], parse)
  }

  /**
   * The fragments `streamChat` yields for a body read as `chunks`: those of
   * the complete lines of the whole text, however it was cut into chunks.
   */
  function StreamFragments(chunks: seq<string>, parse: string -> Parsed): (r: seq<string>)
    ensures r == Fragments(Concat(chunks), parse)
  {
    StreamFromText("", chunks, parse);
    assert "" + Concat(chunks) == Concat(chunks);
    StreamFrom("", chunks, parse)
  }

  lemma {:induction false} LinesFragmentsAppend(a: seq<string>, b: seq<string>, parse: string -> Parsed)
    ensures LinesFragments(a + b, parse) == LinesFragments(a, parse) + LinesFragments(b, parse)
  {
    if |a| == 0 {
      assert a + b == b;
    } else {
      assert (a + b)[1..] == a[1..] + b;
      LinesFragmentsAppend(a[1..], b, parse);
    }
  }

  /** The fragments of one more line of a prefix of `lines`. */
  lemma LinesFragmentsPrefix(lines: seq<string>, i: nat, parse: string -> Parsed)
    requires i < |lines|
    ensures LinesFragments(lines[..i + 1], parse) == LinesFragments(lines[..i], parse) + LineFragment(lines[i], parse)
  {
    assert lines[..i + 1] == lines[..i] + [lines[i]];
    LinesFragmentsAppend(lines[..i], [lines[i]], parse);
    assert LinesFragments([lines[i]], parse) == LineFragment(lines[i], parse) + LinesFragments([], parse);
  }

  /** The fragments of `x + y`: those of `x`, then those of its unfinished line continued by `y`. */
  lemma FragmentsAppend(x: string, y: string, parse: string -> Parsed)
    ensures Fragments(x + y, parse) == Fragments(x, parse) + Fragments(Remainder(x) + y, parse)
  {
    var sx := Split(x, Newline);
    var tail := Split(Remainder(x) + y, Newline);
    SplitAppend(x, y, Newline);
    assert Init(Split(x + y, Newline)) == Init(sx) + Init(tail);
    LinesFragmentsAppend(Init(sx), Init(tail), parse);
  }

  /** Text cut at a line boundary decodes as its two halves. */
  lemma FragmentsAtBoundary(p: string, q: string, parse: string -> Parsed)
    requires EndsAtBoundary(p, Newline)
    ensures Fragments(p + q, parse) == Fragments(p, parse) + Fragments(q, parse)
  {
    FragmentsAppend(p, q, parse);
    BoundaryLeavesEmptyPiece(p, Newline);
    assert Remainder(p) + q == q;
  }

  /** A complete line between two parts of the text contributes exactly its own fragment there. */
  lemma FragmentsOfLine(p: string, line: string, q: string, parse: string -> Parsed)
    requires EndsAtBoundary(p, Newline) && Newline !in line
    ensures Fragments(p + line + [Newline] + q, parse)
      == Fragments(p, parse) + LineFragment(line, parse) + Fragments(q, parse)
  {
    Associate4(p, line, [Newline], q);
    FragmentsAtBoundary(p, line + [Newline] + q, parse);
    FragmentsOfFirstLine(line, q, parse);
  }

  /** A complete first line contributes its fragment ahead of the rest. */
  lemma FragmentsOfFirstLine(line: string, q: string, parse: string -> Parsed)
    requires Newline !in line
    ensures Fragments(line + [Newline] + q, parse) == LineFragment(line, parse) + Fragments(q, parse)
  {
    SplitLine(line, Newline, q);
    var sq := Split(q, Newline);
    InitCons(line, sq);
    LinesFragmentsAppend([line], Init(sq), parse);
    assert LinesFragments([line], parse) == LineFragment(line, parse) + LinesFragments([], parse);
  }

  /** A line that yields nothing can be deleted without changing what the rest yields. */
  lemma SilentLineRemovable(p: string, line: string, q: string, parse: string -> Parsed)
    requires EndsAtBoundary(p, Newline) && Newline !in line
    requires LineFragment(line, parse) == []
    ensures Fragments(p + line + [Newline] + q, parse) == Fragments(p + q, parse)
  {
    FragmentsOfLine(p, line, q, parse);
    FragmentsAtBoundary(p, q, parse);
  }

  /** A line not starting with `data: ` never contributes a fragment. */
  lemma NonDataLineIgnored(p: string, line: string, q: string, parse: string -> Parsed)
    requires EndsAtBoundary(p, Newline) && Newline !in line
    requires !StartsWith(line, DataPrefix)
    ensures Fragments(p + line + [Newline] + q, parse) == Fragments(p + q, parse)
  {
    SilentLineRemovable(p, line, q, parse);
  }

  /** A `data: ` line is the prefix followed by its payload. */
  lemma DataLine(p: string, payload: string)
    ensures p + DataPrefix + payload == p + (DataPrefix + payload)
    ensures StartsWith(DataPrefix + payload, DataPrefix) && (DataPrefix + payload)[|DataPrefix|..] == payload
    ensures Newline !in payload ==> Newline !in DataPrefix + payload
  {
    Associate3(p, DataPrefix, payload);
    assert (DataPrefix + payload)[..|DataPrefix|] == DataPrefix;
  }

  /** `data: [DONE]` yields nothing, and the lines after it are still decoded. */
  lemma DoneLineIgnored(p: string, q: string, parse: string -> Parsed)
    requires EndsAtBoundary(p, Newline)
    ensures Fragments(p + DataPrefix + DoneMarker + [Newline] + q, parse) == Fragments(p, parse) + Fragments(q, parse)
  {
    DataLine(p, DoneMarker);
    var line := DataPrefix + DoneMarker;
    assert LineFragment(line, parse) == [];
    FragmentsOfLine(p, line, q, parse);
    assert Fragments(p, parse) + [] == Fragments(p, parse);
  }

  /** A data line whose payload fails to parse yields nothing; the lines after it still yield. */
  lemma MalformedLineIgnored(p: string, payload: string, q: string, parse: string -> Parsed)
    requires EndsAtBoundary(p, Newline) && Newline !in payload
    requires parse(payload) == ParseFailure
    ensures Fragments(p + DataPrefix + payload + [Newline] + q, parse) == Fragments(p, parse) + Fragments(q, parse)
  {
    DataLine(p, payload);
    var line := DataPrefix + payload;
    assert LineFragment(line, parse) == [];
    FragmentsOfLine(p, line, q, parse);
    assert Fragments(p, parse) + [] == Fragments(p, parse);
  }

  /** A data line yields its content exactly when the content is present and non-empty. */
  lemma ContentLineYields(p: string, payload: string, q: string, parse: string -> Parsed)
    requires EndsAtBoundary(p, Newline) && Newline !in payload && payload != DoneMarker
    ensures Fragments(p + DataPrefix + payload + [Newline] + q, parse)
      == Fragments(p, parse)
         + (if parse(payload).DeltaContent? && parse(payload).content != "" then [parse(payload).content] else [])
         + Fragments(q, parse)
  {
    DataLine(p, payload);
    var line := DataPrefix + payload;
    FragmentsOfLine(p, line, q, parse);
  }

  /** Text after the last newline is never yielded. */
  lemma TrailingPartialLineIgnored(p: string, t: string, parse: string -> Parsed)
    requires Newline !in t
    ensures Fragments(p + t, parse) == Fragments(p, parse)
  {
    FragmentsAppend(p, t, parse);
    assert Newline !in Remainder(p) + t;
    SplitNoSeparator(Remainder(p) + t, Newline);
  }

  /** The read loop started with a separator-free buffer yields the fragments of the buffer plus all chunks. */
  lemma {:induction false} StreamFromText(buffer: string, chunks: seq<string>, parse: string -> Parsed)
    requires Newline !in buffer
    ensures StreamFrom(buffer, chunks, parse) == Fragments(buffer + Concat(chunks), parse)
    decreases |chunks|
  {
    if |chunks| == 0 {
      SplitNoSeparator(buffer, Newline);
      assert buffer + Concat(chunks) == buffer;
    } else {
      var head, rest := buffer + chunks[0], chunks[1..];
      StreamFromUnfold(buffer, chunks, parse);
      StreamFromText(Remainder(head), rest, parse);
      FragmentsAppend(head, Concat(rest), parse);
      TextOfChunks(buffer, chunks);
    }
  }

  /** The text read is the buffer and first chunk, then the rest of the chunks. */
  lemma TextOfChunks(buffer: string, chunks: seq<string>)
    requires |chunks| > 0
    ensures buffer + Concat(chunks) == (buffer + chunks[0]) + Concat(chunks[1..])
  {
  }

  /** One step of the fold, in terms of the reference definition. */
  lemma StreamFromUnfold(buffer: string, chunks: seq<string>, parse: string -> Parsed)
    requires |chunks| > 0
    ensures StreamFrom(buffer, chunks, parse)
      == Fragments(buffer + chunks[0], parse) + StreamFrom(Remainder(buffer + chunks[0]), chunks[1..], parse)
  {
  }

  /** Chunk-boundary independence: any two ways of cutting the same text yield the same fragments. */
  lemma ChunkBoundaryIndependence(c1: seq<string>, c2: seq<string>, parse: string -> Parsed)
    requires Concat(c1) == Concat(c2)
    ensures StreamFragments(c1, parse) == StreamFragments(c2, parse)
    ensures StreamFragments(c1, parse) == StreamFragments([Concat(c1)], parse)
  {
    var t := Concat(c1);
    ConcatSingle(t);
    assert StreamFragments(c1, parse) == Fragments(t, parse);
    assert StreamFragments(c2, parse) == Fragments(t, parse);
    assert StreamFragments([t], parse) == Fragments(t, parse);
  }

  /** One read step: the new buffer and the new fragments follow from the old buffer and chunk `k`. */
  lemma ReadStep(chunks: seq<string>, k: nat, parse: string -> Parsed)
    requires k < |chunks|
    ensures Remainder(Concat(chunks[..k + 1])) == Last(Split(Remainder(Concat(chunks[..k])) + chunks[k], Newline))
    ensures Fragments(Concat(chunks[..k + 1]), parse)
      == Fragments(Concat(chunks[..k]), parse)
         + LinesFragments(Init(Split(Remainder(Concat(chunks[..k])) + chunks[k], Newline)), parse)
  {
    var before := Concat(chunks[..k]);
    assert chunks[..k + 1] == chunks[..k] + [chunks[k]];
    ConcatSnoc(chunks[..k], chunks[k]);
    FragmentsAppend(before, chunks[k], parse);
    SplitAppend(before, chunks[k], Newline);
    LastAppend(Init(Split(before, Newline)), Split(Remainder(before) + chunks[k], Newline));
  }

  /**
   * The `for` loop over the lines of one read: every line but the last is
   * complete; a `data: ` line other than `[DONE]` whose payload has non-empty
   * content yields that content.
   */
  method YieldCompleteLines(lines: seq<string>, parse: string -> Parsed) returns (yielded: seq<string>)
    ensures yielded == LinesFragments(if |lines| == 0 then [] else Init(lines), parse)
  {
    yielded := [];
    var i := 0;
    while i < |lines| - 1
      invariant 0 <= i <= if |lines| == 0 then 0 else |lines| - 1
      invariant yielded == LinesFragments(lines[..i], parse)
    {
      var line := lines[i];
      LineFragmentCases(line, parse);
      if StartsWith(line, DataPrefix) {
        var data := line[|DataPrefix|..];
        if data != DoneMarker {
          match parse(data)
          case DeltaContent(s) =>
            if s != "" {
              yielded := yielded + [s];
            }
          case _ =>
        }
      }
      LinesFragmentsPrefix(lines, i, parse);
      i := i + 1;
    }
    assert |lines| > 0 ==> lines[..i] == Init(lines);
  }

  /**
   * The `while (true)` read loop of `streamChat`, with `TextDecoder` as the
   * identity on chunks: the buffer always holds the text after the last
   * newline read so far, and every complete line is handled once, in order.
   */
  method ReadLoop(chunks: seq<string>, parse: string -> Parsed) returns (fragments: seq<string>)
    ensures fragments == Fragments(Concat(chunks), parse)
    ensures fragments == StreamFragments(chunks, parse)
  {
    var buffer := "";
    fragments := [];
    var k := 0;
    while k < |chunks|
      invariant k <= |chunks|
      invariant Newline !in buffer
      invariant buffer == Remainder(Concat(chunks[..k]))
      invariant fragments == Fragments(Concat(chunks[..k]), parse)
    {
      buffer := buffer + chunks[k];
      var lines := Split(buffer, Newline);
      var yielded := YieldCompleteLines(lines, parse);
      fragments := fragments + yielded;
      buffer := lines[|lines| - 1];
      ReadStep(chunks, k, parse);
      k := k + 1;
    }
    assert chunks[..k] == chunks;
  }

  // ------------------------------------------------------------ whole request

  /** The response body as the reader delivers it: the chunks read, then possibly a read failure. */
  datatype Body = Body(chunks: seq<string>, readError: Option<string>)

  /** The result of the `fetch`: a response, or a rejection (network failure, abort) with its error message. */
  datatype ChatResponse =
    | Response(ok: bool, statusText: string, body: Option<Body>)
    | Rejected(reason: string)

  /** What iterating `streamChat` gives: the fragments yielded, then the error thrown, if any. */
  datatype Outcome = Outcome(fragments: seq<string>, error: Option<string>)

  const ChatErrorPrefix := "Chat API error: "
  const NoStreamError := "No readable stream"

  /** The outcome of one completion request for a given response. */
  function ChatOutcome(resp: ChatResponse, parse: string -> Parsed): (o: Outcome)
    ensures resp.Rejected? ==> o == Outcome([], Some(resp.reason))
    ensures resp.Response? && !resp.ok ==> o == Outcome([], Some(ChatErrorPrefix + resp.statusText))
    ensures resp.Response? && resp.ok && resp.body.None? ==> o == Outcome([], Some(NoStreamError))
    ensures resp.Response? && resp.ok && resp.body.Some? ==>
      o.fragments == Fragments(Concat(resp.body.value.chunks), parse) && o.error == resp.body.value.readError
    ensures forall i :: 0 <= i < |o.fragments| ==> o.fragments[i] != ""
  {
    if resp.Rejected? then Outcome([], Some(resp.reason))
    else if !resp.ok then Outcome([], Some(ChatErrorPrefix + resp.statusText))
    else if resp.body.None? then Outcome([], Some(NoStreamError))
    else Outcome(StreamFragments(resp.body.value.chunks, parse), resp.body.value.readError)
  }

  /** `streamChat`: build the request body, reject a failed response, then run the read loop. */
  method StreamChat(messages: seq<ApiMessage>, options: Options, resp: ChatResponse, parse: string -> Parsed)
    returns (body: RequestBody, outcome: Outcome)
    ensures body == BuildRequestBody(messages, options)
    ensures outcome == ChatOutcome(resp, parse)
  {
    body := BuildRequestBody(messages, options);
    if resp.Rejected? {
      outcome := Outcome([], Some(resp.reason));
      return;
    }
    if !resp.ok {
      outcome := Outcome([], Some(ChatErrorPrefix + resp.statusText));
      return;
    }
    if resp.body.None? {
      outcome := Outcome([], Some(NoStreamError));
      return;
    }
    var fragments := ReadLoop(resp.body.value.chunks, parse);
    outcome := Outcome(fragments, resp.body.value.readError);
  }
}
