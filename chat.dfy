/**
 * The conversation view: its state (messages, input, pending image, loading
 * flag, selected model, the id of the streaming assistant message) as a
 * class, its handlers as methods, and the per-message updates and text
 * extraction as functions.
 */
module ChatView {
  import opened Wrappers
  import opened Sequences
  import opened JsString
  import opened OpenRouter

  /** Message ids; the component makes them from the clock, here they are supplied fresh. */
  type Id = string

  datatype Message = Message(id: Id, role: Role, content: Content)

  const SystemPrompt := "You are a helpful assistant."
  const ErrorPrefix := "Error: "
  const ImageTypePrefix := "image/"
  /** What JavaScript prints for a plain object converted to a string. */
  const ObjectString := "[object Object]"

  predicate FreshId(messages: seq<Message>, id: Id) {
    forall i :: 0 <= i < |messages| ==> messages[i].id != id
  }

  predicate UniqueIds(messages: seq<Message>) {
    forall i, j :: 0 <= i < j < |messages| ==> messages[i].id != messages[j].id
  }

  // ------------------------------------------------------------ composing a send

  /** JavaScript truthiness of the pending image (`string | null`). */
  predicate HasImage(pendingImage: Option<string>) {
    pendingImage.Some? && pendingImage.value != ""
  }

  /** The guard of `sendMessage`: something to send, no request in flight, a model selected. */
  function CanSend(input: string, pendingImage: Option<string>, isLoading: bool, currentModel: string): (ok: bool)
    ensures ok <==> ((exists i :: 0 <= i < |input| && !IsWhitespace(input[i])) || HasImage(pendingImage))
                    && !isLoading && currentModel != ""
  {
    (Trim(input) != "" || HasImage(pendingImage)) && !isLoading && currentModel != ""
  }

  /** The text of the text parts, in order; image parts are skipped. */
  function TextsOf(parts: seq<Part>): seq<string> {
    if |parts| == 0 then []
    else (if parts[0].TextPart? then [parts[0].text] else []) + TextsOf(parts[1..])
  }

  /** The URLs of the image parts, in order. */
  function ImageUrlsOf(parts: seq<Part>): seq<string> {
    if |parts| == 0 then []
    else (if parts[0].ImageUrlPart? then [parts[0].url] else []) + ImageUrlsOf(parts[1..])
  }

  /** The images a content carries. */
  function ContentImages(content: Content): seq<string> {
    match content
    case Text(_) => []
    case Parts(ps) => ImageUrlsOf(ps)
  }

  /** The text `speakMessage` reads aloud: a string as is, the text parts joined by a space. */
  function SpeakableText(content: Content): (r: string)
    ensures content.Text? ==> r == content.text
    ensures content.Parts? && TextsOf(content.parts) == [] ==> r == ""
    ensures content.Parts? && |TextsOf(content.parts)| == 1 ==> r == TextsOf(content.parts)[0]
    ensures content.Parts? && |TextsOf(content.parts)| > 1 ==>
      StartsWith(r, TextsOf(content.parts)[0] + " ")
  {
    match content
    case Text(s) => s
    case Parts(ps) => JoinHead(TextsOf(ps), " "); Join(TextsOf(ps), " ")
  }

  /** No text part of `parts` is empty. */
  predicate NoEmptyText(parts: seq<Part>) {
    forall i :: 0 <= i < |parts| && parts[i].TextPart? ==> parts[i].text != ""
  }

  /** The texts and images of the two part lists a message with an image can have. */
  lemma ImageMessageParts(text: string, url: string)
    ensures TextsOf([TextPart(text), ImageUrlPart(url)]) == [text]
    ensures ImageUrlsOf([TextPart(text), ImageUrlPart(url)]) == [url]
    ensures TextsOf([ImageUrlPart(url)]) == []
    ensures ImageUrlsOf([ImageUrlPart(url)]) == [url]
    ensures text != "" ==> NoEmptyText([TextPart(text), ImageUrlPart(url)])
    ensures NoEmptyText([ImageUrlPart(url)])
  {
    assert TextsOf([ImageUrlPart(url)]) == [] + TextsOf([]);
    assert ImageUrlsOf([ImageUrlPart(url)]) == [url] + ImageUrlsOf([]);
    assert [TextPart(text), ImageUrlPart(url)][1..] == [ImageUrlPart(url)];
  }

  /**
   * The user message content: the trimmed input alone, or, with an image
   * pending, a list of an optional non-empty text part and then the image.
   */
  function UserContent(input: string, pendingImage: Option<string>): (c: Content)
    ensures c.Text? <==> !HasImage(pendingImage)
    ensures c.Text? ==> c.text == Trim(input)
    ensures c.Parts? ==> TextsOf(c.parts) == if Trim(input) == "" then [] else [Trim(input)]
    ensures ContentImages(c) == if HasImage(pendingImage) then [pendingImage.value] else []
    ensures c.Parts? ==> |c.parts| > 0 && c.parts[|c.parts| - 1].ImageUrlPart?
    ensures c.Parts? ==> NoEmptyText(c.parts)
  {
    var text := Trim(input);
    if HasImage(pendingImage) then
      var image := ImageUrlPart(pendingImage.value);
      ImageMessageParts(text, pendingImage.value);
      if text != "" then Parts([TextPart(text), image]) else Parts([image])
    else
      Text(text)
  }

  /** What `speakMessage` would read of a composed user message is the trimmed input. */
  lemma UserContentSpoken(input: string, pendingImage: Option<string>)
    ensures SpeakableText(UserContent(input, pendingImage)) == Trim(input)
  {
    if HasImage(pendingImage) {
      var image := ImageUrlPart(pendingImage.value);
      ImageMessageParts(Trim(input), pendingImage.value);
    }
  }

  function ToApi(m: Message): ApiMessage {
    ApiMessage(m.role, m.content)
  }

  /** The list sent to the API: the system instruction, the history in order, the new user message. */
  function ApiMessages(history: seq<Message>, userContent: Content): (r: seq<ApiMessage>)
    ensures |r| == |history| + 2
    ensures r[0] == ApiMessage(System, Text(SystemPrompt))
    ensures forall i :: 0 <= i < |history| ==> r[i + 1] == ApiMessage(history[i].role, history[i].content)
    ensures r[|r| - 1] == ApiMessage(User, userContent)
  {
    [ApiMessage(System, Text(SystemPrompt))]
    + seq(|history|, i requires 0 <= i < |history| => ToApi(history[i]))
    + [ApiMessage(User, userContent)]
  }

  /** In a conversation with distinct ids, the last message's id is fresh for the ones before it. */
  lemma LastIdFresh(prefix: seq<Message>, m: Message)
    requires UniqueIds(prefix + [m])
    ensures FreshId(prefix, m.id)
  {
    forall i | 0 <= i < |prefix| ensures prefix[i].id != m.id {
      assert (prefix + [m])[i] == prefix[i] && (prefix + [m])[|prefix|] == m;
    }
  }

  /** Two new messages with distinct fresh ids keep the ids of a conversation distinct. */
  lemma UniqueIdsExtend(messages: seq<Message>, m1: Message, m2: Message)
    requires UniqueIds(messages) && FreshId(messages, m1.id) && FreshId(messages, m2.id) && m1.id != m2.id
    ensures UniqueIds(messages + [m1, m2])
  {
    var r := messages + [m1] + [m2];
    forall i, j | 0 <= i < j < |r| ensures r[i].id != r[j].id {
      if j < |messages| {
        assert r[i] == messages[i] && r[j] == messages[j];
      } else if i < |messages| {
        assert r[i] == messages[i];
      }
    }
  }

  // ----------------------------------------------------- updates while streaming

  /** `content as string` once it meets `+`: a parts list becomes JavaScript's array-to-string. */
  function AsString(content: Content): (r: string)
    ensures content.Text? ==> r == content.text
    ensures content.Parts? ==> (r == "" <==> content.parts == [])
    ensures content.Parts? && content.parts != [] ==> StartsWith(r, ObjectString)
  {
    match content
    case Text(s) => s
    case Parts(ps) => JoinHead(seq(|ps|, i => ObjectString), ","); Join(seq(|ps|, i => ObjectString), ",")
  }

  /** The fragment update: the message whose id is the target gets `chunk` appended. */
  function AppendChunk(messages: seq<Message>, target: Option<Id>, chunk: string): (r: seq<Message>)
    ensures |r| == |messages|
    ensures forall i :: 0 <= i < |r| ==> r[i].id == messages[i].id && r[i].role == messages[i].role
    ensures forall i :: 0 <= i < |r| && target != Some(messages[i].id) ==> r[i] == messages[i]
    ensures forall i :: 0 <= i < |r| && target == Some(messages[i].id) ==>
      r[i].content == Text(AsString(messages[i].content) + chunk)
  {
    seq(|messages|, i requires 0 <= i < |messages| =>
      if target == Some(messages[i].id)
      then messages[i].(content := Text(AsString(messages[i].content) + chunk))
      else messages[i])
  }

  /** `content || 'Error: ' + message`: only an empty string is replaced (a parts list is truthy). */
  function FillError(content: Content, message: string): (r: Content)
    ensures r != Text("")
    ensures content != Text("") ==> r == content
    ensures content == Text("") ==> r == Text(ErrorPrefix + message)
  {
    if content == Text("") then Text(ErrorPrefix + message) else content
  }

  /** The error update: the target message gets the error text only if its content is still empty. */
  function ApplyError(messages: seq<Message>, target: Option<Id>, message: string): (r: seq<Message>)
    ensures |r| == |messages|
    ensures forall i :: 0 <= i < |r| ==> r[i].id == messages[i].id && r[i].role == messages[i].role
    ensures forall i :: 0 <= i < |r| && (target != Some(messages[i].id) || messages[i].content != Text("")) ==>
      r[i] == messages[i]
    ensures forall i :: 0 <= i < |r| && target == Some(messages[i].id) && messages[i].content == Text("") ==>
      r[i].content == Text(ErrorPrefix + message)
  {
    seq(|messages|, i requires 0 <= i < |messages| =>
      if target == Some(messages[i].id)
      then messages[i].(content := FillError(messages[i].content, message))
      else messages[i])
  }

  /** The assistant message's final content after one request: the streamed text, or the error if none streamed. */
  function ReplyContent(outcome: Outcome): (r: Content)
    ensures r.Text?
    ensures outcome.error.None? ==> r.text == Concat(outcome.fragments)
    ensures r.text == Concat(outcome.fragments)
      || (outcome.error.Some? && Concat(outcome.fragments) == "" && r.text == ErrorPrefix + outcome.error.value)
  {
    var streamed := Text(Concat(outcome.fragments));
    if outcome.error.Some? then FillError(streamed, outcome.error.value) else streamed
  }

  /** Successive chunks concatenate in arrival order. */
  lemma SuccessiveChunksConcatenate(messages: seq<Message>, target: Option<Id>, a: string, b: string)
    ensures AppendChunk(AppendChunk(messages, target, a), target, b) == AppendChunk(messages, target, a + b)
  {
    var once := AppendChunk(messages, target, a);
    var twice := AppendChunk(once, target, b);
    var direct := AppendChunk(messages, target, a + b);
    forall i | 0 <= i < |messages| ensures twice[i] == direct[i] {
      if target == Some(messages[i].id) {
        assert AsString(once[i].content) + b == AsString(messages[i].content) + a + b;
      }
    }
  }

  /** A second error never overwrites the first: the error text is written at most once. */
  lemma ErrorWrittenOnce(messages: seq<Message>, target: Option<Id>, e1: string, e2: string)
    ensures ApplyError(ApplyError(messages, target, e1), target, e2) == ApplyError(messages, target, e1)
  {
    var once := ApplyError(messages, target, e1);
    forall i | 0 <= i < |messages| ensures ApplyError(once, target, e2)[i] == once[i] {
      if target == Some(messages[i].id) && messages[i].content == Text("") {
        assert once[i].content == Text(ErrorPrefix + e1);
      }
    }
  }

  /** Appending to the last message, whose id no earlier message has. */
  lemma AppendChunkAtEnd(prefix: seq<Message>, m: Message, chunk: string)
    requires FreshId(prefix, m.id)
    ensures AppendChunk(prefix + [m], Some(m.id), chunk)
      == prefix + [m.(content := Text(AsString(m.content) + chunk))]
  {
    var r := AppendChunk(prefix + [m], Some(m.id), chunk);
    var expected := prefix + [m.(content := Text(AsString(m.content) + chunk))];
    forall i | 0 <= i < |r| ensures r[i] == expected[i] {
      if i < |prefix| {
        assert (prefix + [m])[i] == prefix[i];
      }
    }
  }

  /** Marking an error on the last message, whose id no earlier message has. */
  lemma ApplyErrorAtEnd(prefix: seq<Message>, m: Message, message: string)
    requires FreshId(prefix, m.id)
    ensures ApplyError(prefix + [m], Some(m.id), message) == prefix + [m.(content := FillError(m.content, message))]
  {
    var r := ApplyError(prefix + [m], Some(m.id), message);
    var expected := prefix + [m.(content := FillError(m.content, message))];
    forall i | 0 <= i < |r| ensures r[i] == expected[i] {
      if i < |prefix| {
        assert (prefix + [m])[i] == prefix[i];
      }
    }
  }

  /** A request rejected by the server leaves `Error: Chat API error: <status text>` in the reply. */
  lemma FailedRequestReply(resp: ChatResponse, parse: string -> Parsed)
    requires resp.Response? && !resp.ok
    ensures ReplyContent(ChatOutcome(resp, parse)) == Text(ErrorPrefix + ChatErrorPrefix + resp.statusText)
  {
    var o := ChatOutcome(resp, parse);
    assert Concat(o.fragments) == "";
  }

  /** A `fetch` that rejects (offline, aborted) leaves `Error: <its message>` in the reply. */
  lemma RejectedRequestReply(resp: ChatResponse, parse: string -> Parsed)
    requires resp.Rejected?
    ensures ReplyContent(ChatOutcome(resp, parse)) == Text(ErrorPrefix + resp.reason)
  {
    var o := ChatOutcome(resp, parse);
    assert Concat(o.fragments) == "";
  }

  /** An ok response without a body leaves `Error: No readable stream` in the reply. */
  lemma MissingBodyReply(resp: ChatResponse, parse: string -> Parsed)
    requires resp.Response? && resp.ok && resp.body.None?
    ensures ReplyContent(ChatOutcome(resp, parse)) == Text(ErrorPrefix + NoStreamError)
  {
    var o := ChatOutcome(resp, parse);
    assert Concat(o.fragments) == "";
  }

  /** A first `reader.read()` that fails leaves `Error: <its message>` in the reply. */
  lemma FirstReadFailureReply(resp: ChatResponse, parse: string -> Parsed)
    requires resp.Response? && resp.ok && resp.body.Some?
    requires resp.body.value.chunks == [] && resp.body.value.readError.Some?
    ensures ReplyContent(ChatOutcome(resp, parse)) == Text(ErrorPrefix + resp.body.value.readError.value)
  {
    var o := ChatOutcome(resp, parse);
    assert Concat(resp.body.value.chunks) == "";
    assert o.fragments == [];
    assert Concat(o.fragments) == "";
  }

  /** Once any fragment has streamed, a later error keeps the partial text. */
  lemma PartialReplyKept(outcome: Outcome)
    requires forall i :: 0 <= i < |outcome.fragments| ==> outcome.fragments[i] != ""
    requires outcome.fragments != []
    ensures ReplyContent(outcome) == Text(Concat(outcome.fragments))
  {
    ConcatEmpty(outcome.fragments);
  }

  /** The reply is an error text exactly when nothing streamed and the request failed. */
  lemma ReplyIsErrorIff(outcome: Outcome)
    requires forall i :: 0 <= i < |outcome.fragments| ==> outcome.fragments[i] != ""
    ensures ReplyContent(outcome) == Text(Concat(outcome.fragments)) <==> outcome.fragments != [] || outcome.error.None?
  {
    ConcatEmpty(outcome.fragments);
    if outcome.fragments == [] && outcome.error.Some? {
      assert ReplyContent(outcome) == Text(ErrorPrefix + outcome.error.value);
      assert |ErrorPrefix + outcome.error.value| > 0;
    }
  }

  // --------------------------------------------------------------- text helpers

  lemma {:induction false} TextsOfAppend(a: seq<Part>, b: seq<Part>)
    ensures TextsOf(a + b) == TextsOf(a) + TextsOf(b)
  {
    if |a| == 0 {
      assert a + b == b;
    } else {
      var h, t := a[0], a[1..];
      assert a + b == [h] + (t + b);
      assert ([h] + (t + b))[1..] == t + b;
      TextsOfAppend(t, b);
      Associate3(if h.TextPart? then [h.text] else [], TextsOf(t), TextsOf(b));
    }
  }

  /** Image parts never reach the spoken text, wherever they stand. */
  lemma SpeakableTextSkipsImage(before: seq<Part>, url: string, after: seq<Part>)
    ensures SpeakableText(Parts(before + [ImageUrlPart(url)] + after)) == SpeakableText(Parts(before + after))
  {
    var image := [ImageUrlPart(url)];
    TextsOfAppend(before + image, after);
    TextsOfAppend(before, image);
    TextsOfAppend(before, after);
    assert TextsOf(image) == [] + TextsOf([]);
    assert TextsOf(before + image + after) == TextsOf(before + after);
  }

  /** The speech `onresult` loop: the transcripts from `resultIndex` on, concatenated. */
  method ConcatTranscripts(results: seq<string>, resultIndex: nat) returns (transcript: string)
    ensures resultIndex <= |results| ==> transcript == Concat(results[resultIndex..])
    ensures resultIndex > |results| ==> transcript == ""
  {
    transcript := "";
    var i := resultIndex;
    while i < |results|
      invariant resultIndex <= i
      invariant i == resultIndex || i <= |results|
      invariant i <= |results| ==> transcript == Concat(results[resultIndex..i])
      invariant i > |results| ==> transcript == ""
    {
      ConcatSnoc(results[resultIndex..i], results[i]);
      assert results[resultIndex..i + 1] == results[resultIndex..i] + [results[i]];
      transcript := transcript + results[i];
      i := i + 1;
    }
    assert resultIndex <= |results| ==> results[resultIndex..i] == results[resultIndex..];
  }

  /** A local file as the file picker and the reader deliver it. */
  datatype LocalFile = LocalFile(mimeType: string, dataUrl: string)

  /** What `speakMessage` does with the speech engine. */
  datatype SpeechAction = CancelSpeech | StartSpeech(text: string) | NoSpeech

  // ------------------------------------------------------------------ the view

  class Chat {
    var messages: seq<Message>
    var models: seq<ModelInfo>
    var currentModel: string
    var input: string
    var isLoading: bool
    var modelsLoading: bool
    var isSpeaking: bool
    var pendingImage: Option<string>
    var currentAssistantId: Option<Id>

    /**
     * Ids are distinct, and an assistant message is tracked exactly while a
     * request is in flight. Distinct ids are what make the fragment and error
     * updates reach the placeholder alone (`ApplyOutcome`).
     */
    ghost predicate Valid()
      reads this
    {
      UniqueIds(messages) && (isLoading <==> currentAssistantId.Some?)
    }

    predicate ReadyToSend()
      reads this
    {
      CanSend(input, pendingImage, isLoading, currentModel)
    }

    constructor ()
      ensures Valid()
      ensures messages == [] && models == [] && currentModel == "" && input == ""
      ensures !isLoading && modelsLoading && !isSpeaking
      ensures pendingImage == None && currentAssistantId == None
    {
      messages, models, currentModel, input := [], [], "", "";
      isLoading, modelsLoading, isSpeaking := false, true, false;
      pendingImage, currentAssistantId := None, None;
    }

    /** `fetchModels`: store a fetched list and select its first model; a failure changes nothing. */
    method FetchModels(resp: ModelsResponse)
      requires Valid()
      modifies this`models, this`currentModel, this`modelsLoading
      ensures Valid() && !modelsLoading
      ensures ModelsResult(resp).Failure? ==> models == old(models) && currentModel == old(currentModel)
      ensures ModelsResult(resp).Success? ==>
        var fetched := ModelsResult(resp).value;
        models == fetched && currentModel == if |fetched| > 0 then fetched[0].id else old(currentModel)
    {
      modelsLoading := true;
      var result := ModelsResult(resp);
      if result.Success? {
        models := result.value;
        if |result.value| > 0 {
          currentModel := result.value[0].id;
        }
      }
      modelsLoading := false;
    }

    /**
     * The synchronous start of `sendMessage` once its guard has passed and
     * the user content is composed: the optimistic insert of the user message
     * and an empty assistant placeholder, and the list of messages for the API.
     */
    method Begin(userId: Id, assistantId: Id, content: Content) returns (apiMessages: seq<ApiMessage>)
      requires Valid()
      requires userId != assistantId && FreshId(messages, userId) && FreshId(messages, assistantId)
      modifies this`messages, this`input, this`pendingImage, this`isLoading, this`currentAssistantId
      ensures Valid()
      ensures messages == old(messages) + [Message(userId, User, content), Message(assistantId, Assistant, Text(""))]
      ensures input == "" && pendingImage == None && isLoading && currentAssistantId == Some(assistantId)
      ensures apiMessages == ApiMessages(old(messages), content)
    {
      var userMessage := Message(userId, User, content);
      var placeholder := Message(assistantId, Assistant, Text(""));
      UniqueIdsExtend(messages, userMessage, placeholder);
      apiMessages := ApiMessages(messages, content);
      messages, input, pendingImage, isLoading, currentAssistantId :=
        messages + [userMessage, placeholder], "", None, true, Some(assistantId);
    }

    /** A streamed fragment arrives. */
    method OnChunk(chunk: string)
      requires Valid()
      modifies this`messages
      ensures Valid()
      ensures messages == AppendChunk(old(messages), currentAssistantId, chunk)
    {
      messages := AppendChunk(messages, currentAssistantId, chunk);
    }

    /** The request failed with `message`. */
    method OnError(message: string)
      requires Valid()
      modifies this`messages
      ensures Valid()
      ensures messages == ApplyError(old(messages), currentAssistantId, message)
    {
      messages := ApplyError(messages, currentAssistantId, message);
    }

    /** The `finally` of `sendMessage`: back to idle on every exit path. */
    method Finish()
      requires Valid()
      modifies this`isLoading, this`currentAssistantId
      ensures Valid()
      ensures !isLoading && currentAssistantId == None
    {
      isLoading := false;
      currentAssistantId := None;
    }

    /**
     * `sendMessage` as a whole, for a request that runs without other
     * handlers interleaving: the conversation gains the user message and the
     * assistant reply, which holds the streamed text or, if nothing
     * streamed and the request failed, the error text.
     */
    method SendMessage(userId: Id, assistantId: Id, resp: ChatResponse, parse: string -> Parsed)
      returns (request: Option<RequestBody>)
      requires Valid()
      requires userId != assistantId && FreshId(messages, userId) && FreshId(messages, assistantId)
      modifies this`messages, this`input, this`pendingImage, this`isLoading, this`currentAssistantId
      ensures Valid()
      ensures !old(ReadyToSend()) ==> request.None? && unchanged(this)
      ensures old(ReadyToSend()) ==>
        var content := UserContent(old(input), old(pendingImage));
        && request == Some(BuildRequestBody(ApiMessages(old(messages), content),
                                            Options(Some(old(currentModel)), None, None, None)))
        && messages == old(messages) + [Message(userId, User, content),
                                        Message(assistantId, Assistant, ReplyContent(ChatOutcome(resp, parse)))]
        && input == "" && pendingImage == None && !isLoading && currentAssistantId == None
    {
      if !ReadyToSend() {
        request := None;
        return;
      }
      var content := UserContent(input, pendingImage);
      var body := Request(userId, assistantId, content, resp, parse);
      request := Some(body);
    }

    /**
     * The part of `sendMessage` after its guard, for composed user content:
     * the optimistic insert, the streamed request, the reply, and back to idle.
     */
    method Request(userId: Id, assistantId: Id, content: Content, resp: ChatResponse, parse: string -> Parsed)
      returns (body: RequestBody)
      requires Valid()
      requires userId != assistantId && FreshId(messages, userId) && FreshId(messages, assistantId)
      modifies this`messages, this`input, this`pendingImage, this`isLoading, this`currentAssistantId
      ensures Valid()
      ensures body == BuildRequestBody(ApiMessages(old(messages), content), Options(Some(currentModel), None, None, None))
      ensures messages == old(messages) + [Message(userId, User, content),
                                           Message(assistantId, Assistant, ReplyContent(ChatOutcome(resp, parse)))]
      ensures input == "" && pendingImage == None && !isLoading && currentAssistantId == None
    {
      ghost var history := messages;
      var userMessage := Message(userId, User, content);
      var api := Begin(userId, assistantId, content);
      var outcome;
      body, outcome := StreamChat(api, Options(Some(currentModel), None, None, None), resp, parse);
      ApplyOutcome(history + [userMessage], assistantId, outcome);
      AppendPair(history, userMessage, Message(assistantId, Assistant, ReplyContent(outcome)));
      Finish();
    }

    /**
     * The `try`/`catch` of `sendMessage`: every fragment is appended to the
     * placeholder in order, then a thrown error fills it only if it is still empty.
     */
    method ApplyOutcome(ghost prefix: seq<Message>, assistantId: Id, outcome: Outcome)
      requires Valid() && currentAssistantId == Some(assistantId)
      requires messages == prefix + [Message(assistantId, Assistant, Text(""))]
      modifies this`messages
      ensures Valid()
      ensures messages == prefix + [Message(assistantId, Assistant, ReplyContent(outcome))]
    {
      LastIdFresh(prefix, Message(assistantId, Assistant, Text("")));
      var j := 0;
      while j < |outcome.fragments|
        invariant j <= |outcome.fragments|
        invariant Valid()
        invariant messages == prefix + [Message(assistantId, Assistant, Text(Concat(outcome.fragments[..j])))]
      {
        var chunk := outcome.fragments[j];
        AppendChunkAtEnd(prefix, Message(assistantId, Assistant, Text(Concat(outcome.fragments[..j]))), chunk);
        OnChunk(chunk);
        ConcatSnoc(outcome.fragments[..j], chunk);
        assert outcome.fragments[..j + 1] == outcome.fragments[..j] + [chunk];
        j := j + 1;
      }
      assert outcome.fragments[..j] == outcome.fragments;
      if outcome.error.Some? {
        ApplyErrorAtEnd(prefix, Message(assistantId, Assistant, Text(Concat(outcome.fragments))), outcome.error.value);
        OnError(outcome.error.value);
      }
    }

    /** `clearChat`: the conversation becomes empty; nothing else changes. */
    method ClearChat()
      requires Valid()
      modifies this`messages
      ensures Valid() && messages == []
    {
      messages := [];
    }

    /** The speech `onresult` handler: the input becomes the concatenated transcripts. */
    method OnSpeechResult(results: seq<string>, resultIndex: nat)
      requires Valid()
      modifies this`input
      ensures Valid()
      ensures resultIndex <= |results| ==> input == Concat(results[resultIndex..])
      ensures resultIndex > |results| ==> input == ""
    {
      input := ConcatTranscripts(results, resultIndex);
    }

    /** `handleFileSelect`: only a file whose type starts with `image/` becomes the pending image. */
    method SelectFile(file: Option<LocalFile>) returns (accepted: bool)
      requires Valid()
      modifies this`pendingImage
      ensures Valid()
      ensures accepted <==> file.Some? && StartsWith(file.value.mimeType, ImageTypePrefix)
      ensures pendingImage == if accepted then Some(file.value.dataUrl) else old(pendingImage)
    {
      accepted := file.Some? && StartsWith(file.value.mimeType, ImageTypePrefix);
      if accepted {
        pendingImage := Some(file.value.dataUrl);
      }
    }

    /** The remove-image button: the attachment goes, sent messages stay. */
    method RemovePendingImage()
      requires Valid()
      modifies this`pendingImage
      ensures Valid()
      ensures pendingImage == None
    {
      pendingImage := None;
    }

    /**
     * `speakMessage`: while speaking, cancel and clear the flag; otherwise
     * speak the content's text unless it is blank.
     */
    method Speak(content: Content) returns (action: SpeechAction)
      requires Valid()
      modifies this`isSpeaking
      ensures Valid()
      ensures old(isSpeaking) ==> action == CancelSpeech && !isSpeaking
      ensures !old(isSpeaking) && Trim(SpeakableText(content)) == "" ==> action == NoSpeech && !isSpeaking
      ensures !old(isSpeaking) && Trim(SpeakableText(content)) != "" ==>
        action == StartSpeech(SpeakableText(content)) && isSpeaking
    {
      if isSpeaking {
        isSpeaking := false;
        return CancelSpeech;
      }
      var text := SpeakableText(content);
      if Trim(text) == "" {
        return NoSpeech;
      }
      isSpeaking := true;
      action := StartSpeech(text);
    }

    /** The utterance's `onend` or `onerror`: speaking stops. */
    method SpeechEnded()
      requires Valid()
      modifies this`isSpeaking
      ensures Valid()
      ensures !isSpeaking
    {
      isSpeaking := false;
    }
  }
}
