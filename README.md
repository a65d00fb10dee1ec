# OpenRouter chat client: streaming decoder and conversation state

This project is a Dafny model of the core of a single-page chat client for the
OpenRouter API. There are two parts.

- **The API client** (`src/api/openrouter.ts`). It builds the completion
  request body and applies the error rules of `getModels` and `streamChat`.
  It also contains the server-sent-event line framer that turns the streamed
  body into text fragments. The framer keeps a carry-over buffer, splits on
  `'\n'`, keeps only `data: ` lines, skips `[DONE]`, and swallows payloads
  that do not parse. It yields non-empty `choices[0].delta.content` strings.
- **The conversation view** (`src/components/Chat.tsx`). It is a state
  machine over the component's state: messages, input, pending image,
  loading flag, selected model, and the id of the assistant message being
  streamed. It covers three things:
  - the send guard, the optimistic insert and the API message list;
  - the per-fragment and error updates, reset on every exit path;
  - clearing, file selection, speech transcripts and the spoken text of a
    message.

Files:

- `wrappers.dfy` (`Wrappers`): `Option` and `Result`.
- `sequences.dfy` (`Sequences`): generic facts about sequences (first and
  last parts, replacing or prepending a head, regrouping of concatenations) that the proofs use.
- `jsstring.dfy` (`JsString`): the JavaScript string built-ins the code uses
  (`split`, `join`, `trim`, `startsWith`, concatenation), with their laws.
- `openrouter.dfy` (`OpenRouter`): wire types, the request body, the
  response rules, and the framer in two forms. The pure fold
  `StreamFragments` models the loop. The methods `ReadLoop` and
  `YieldCompleteLines` mirror the `while (true)` read loop and its inner
  `for` loop. Both forms are proved equal to the reference definition
  `Fragments`: the fragments of every complete line of the whole text.
- `chat.dfy` (`ChatView`): pure functions for content composition, the
  fragment and error updates and text extraction, and the class `Chat`.
  The class's fields are the component's state and its methods are the
  handlers.

Abstractions:

- `JSON.parse` followed by the `choices[0].delta.content` lookup is a
  function parameter `parse: string -> Parsed`, with
  `Parsed = ParseFailure | NoContent | DeltaContent(s)`. Nothing is assumed
  about it.
- `TextDecoder` is the identity on string chunks.
- The result of each `fetch` is either a response or a rejection (a
  network failure) carrying the thrown error's message. For the completion
  request the response is its `ok` flag, status text and optional body
  (`ChatResponse`); for the model list it is the `ok` flag, status text and
  the body's optional `data` list (`ModelsResponse`).
- The response body is the list of chunks the reader returns, plus an
  optional read failure after them.
- Message ids, which the component takes from `Date.now()`, are supplied to
  `Begin`, `Request` and `SendMessage` as distinct fresh strings.
- Strings are sequences of Unicode characters, not UTF-16 code units. This
  does not affect framing on `'\n'`.

Behaviours of the code that the model keeps:

- `data: [DONE]` uses `continue`, so later lines are still decoded
  (`DoneLineIgnored`).
- A request that fails before any fragment arrives leaves `Error: ` and
  the thrown message in the reply. For a response that is not ok, that is
  `Error: Chat API error: <status text>` (`FailedRequestReply`); for a
  rejected `fetch` it is `Error: <its message>` (`RejectedRequestReply`);
  for an ok response without a body it is `Error: No readable stream`
  (`MissingBodyReply`); for a first `reader.read()` that fails it is
  `Error: <the read error>` (`FirstReadFailureReply`).
- A failed model fetch leaves the model list and the selection as they
  were (`Chat.FetchModels`).
- Option fields are spread after the literal, so they override its
  defaults: an explicit empty model or a zero temperature reaches the body,
  although the literal's `||` would have replaced them (`BuildRequestBody`).

## Model

| member | source | states |
|---|---|---|
| `JsString.Trim` | src/components/Chat.tsx:63 | `trim()` is the input with only its leading and trailing whitespace removed: a slice of the input with nothing but whitespace before and after it, starting and ending with a non-blank when non-empty, and empty exactly when every character is whitespace |
| `JsString.TrimStart` | src/components/Chat.tsx:65 | leading trim leaves a suffix of the input that starts with a non-blank; everything removed is whitespace |
| `JsString.TrimEnd` | src/components/Chat.tsx:65 | trailing trim leaves a prefix of the input that ends with a non-blank; everything removed is whitespace |
| `JsString.IsWhitespace` | src/components/Chat.tsx:63 | definition: the characters `trim()` removes, the ECMAScript WhiteSpace and LineTerminator code points |
| `JsString.StartsWith` | src/api/openrouter.ts:96 | definition: `startsWith(prefix)` holds when the string begins with the prefix, character for character |
| `JsString.Join` | src/components/Chat.tsx:215 | definition of `join(sep)`; partnered with `Split` by `JoinSplit` and `SplitJoin` |
| `JsString.Concat` | src/api/openrouter.ts:91 | definition of repeated `+=` over a list of pieces; `ConcatSnoc` and `ConcatAppend` state its laws |
| `JsString.Split` | src/api/openrouter.ts:92 | `split('\n')` never returns an empty list, and no piece contains the separator |
| `JsString.JoinSplit` | src/api/openrouter.ts:92 | joining the pieces of a split with the separator gives back the original text |
| `JsString.SplitJoin` | src/api/openrouter.ts:92 | splitting a join of separator-free pieces gives back the pieces |
| `JsString.SplitNoSeparator` | src/api/openrouter.ts:92 | a separator-free string splits into itself alone |
| `JsString.SplitLine` | src/api/openrouter.ts:92 | a separator-free line followed by the separator is the first piece, and the rest is split separately |
| `JsString.SplitAppend` | src/api/openrouter.ts:91-92 | splitting `x + y` gives the complete pieces of `x`, then the split of `x`'s unfinished last piece followed by `y` (the carry-over law) |
| `JsString.BoundaryLeavesEmptyPiece` | src/api/openrouter.ts:109 | text that is empty or ends in a newline leaves an empty carry-over |
| `JsString.ConcatSnoc` | src/api/openrouter.ts:91 | appending one more chunk to the text read so far extends the concatenation by that chunk |
| `JsString.ConcatAppend` | src/api/openrouter.ts:91 | concatenating two lists of chunks is the concatenation of each |
| `JsString.ConcatEmpty` | src/components/Chat.tsx:117 | non-empty fragments concatenate to the empty string only when there are none |
| `OpenRouter.ModelsResult` | src/api/openrouter.ts:30-43 | a rejected `fetch` fails with its own error message; a non-ok response fails with `Failed to fetch models: ` + status text; an ok one returns the body's `data` list, or the empty list when it is absent |
| `OpenRouter.StringOr` | src/api/openrouter.ts:55 | JavaScript's logical or of an optional string `v` and a default `d`: the result is truthy exactly when an operand is, a truthy left operand wins, and otherwise the default is taken |
| `OpenRouter.NumberOr` | src/api/openrouter.ts:58 | the same logical or on an optional number, with zero as the falsy value: same three properties |
| `OpenRouter.LiteralBody` | src/api/openrouter.ts:54-59 | the literal carries the messages, always streams, never has an empty model or a zero temperature, and takes a truthy option over `openai/gpt-4o-mini` and `0.7` |
| `OpenRouter.Spread` | src/api/openrouter.ts:60 | `...options` replaces exactly the fields the caller gave and keeps every other field of the literal |
| `OpenRouter.BuildRequestBody` | src/api/openrouter.ts:54-60 | the body carries the messages; model, temperature and `stream` are the caller's when given (even empty model or zero temperature), otherwise `openai/gpt-4o-mini`, `0.7` and `true` |
| `OpenRouter.LineFragment` | src/api/openrouter.ts:95-106 | one complete line yields at most one fragment, and never an empty one |
| `OpenRouter.LinesFragments` | src/api/openrouter.ts:94-107 | the fragments of a list of lines number at most the lines and are all non-empty |
| `OpenRouter.LinesFragmentsAppend` | src/api/openrouter.ts:94-107 | lines are handled independently and in order: the fragments of `a + b` are those of `a` then those of `b` |
| `OpenRouter.LinesFragmentsPrefix` | src/api/openrouter.ts:94-107 | handling one more line appends exactly that line's fragment |
| `OpenRouter.Remainder` | src/api/openrouter.ts:109 | the carried-over unfinished line never contains a newline |
| `OpenRouter.Fragments` | src/api/openrouter.ts:91-109 | reference definition of what the framer yields for a whole text: the fragments of its complete lines, fewer than its pieces, none empty, and nothing for text without a newline |
| `OpenRouter.StreamFrom` | src/api/openrouter.ts:87-110 | the read loop as a fold from a carried-over buffer; it never yields an empty fragment |
| `OpenRouter.StreamFragments` | src/api/openrouter.ts:84-110 | the fragments yielded for chunks c1..cn are those of the complete lines of c1+...+cn |
| `OpenRouter.FragmentsAppend` | src/api/openrouter.ts:91-109 | the fragments of `x + y` are those of `x`, then those of `x`'s unfinished line continued by `y` |
| `OpenRouter.FragmentsAtBoundary` | src/api/openrouter.ts:91-109 | text cut at a line boundary decodes as its two halves decoded separately |
| `OpenRouter.FragmentsOfLine` | src/api/openrouter.ts:94-107 | a complete line between two parts of the text contributes exactly its own fragment, in place |
| `OpenRouter.SilentLineRemovable` | src/api/openrouter.ts:94-107 | a line that yields nothing can be deleted without changing what the rest of the text yields |
| `OpenRouter.NonDataLineIgnored` | src/api/openrouter.ts:96 | a line not starting with `data: ` never contributes a fragment |
| `OpenRouter.DoneLineIgnored` | src/api/openrouter.ts:97-98 | `data: [DONE]` yields nothing, and the lines after it are still decoded |
| `OpenRouter.MalformedLineIgnored` | src/api/openrouter.ts:99-105 | a data line whose payload fails to parse yields nothing and raises nothing; later lines still yield |
| `OpenRouter.ContentLineYields` | src/api/openrouter.ts:101-104 | a data line yields its content exactly when the content is present and non-empty; missing or empty content yields nothing |
| `OpenRouter.TrailingPartialLineIgnored` | src/api/openrouter.ts:88-109 | text after the last newline when the stream ends is never yielded |
| `OpenRouter.StreamFromText` | src/api/openrouter.ts:87-110 | the loop started from a newline-free buffer yields the fragments of the buffer followed by all remaining chunks |
| `OpenRouter.ChunkBoundaryIndependence` | src/api/openrouter.ts:84-109 | any two splits of the same text into chunks yield the same fragments, and these equal the fragments of the text read as one chunk |
| `OpenRouter.ReadStep` | src/api/openrouter.ts:91-109 | one read: the new buffer is the last piece of old buffer + chunk, and the new complete lines add exactly their fragments |
| `OpenRouter.YieldCompleteLines` | src/api/openrouter.ts:94-107 | the inner `for` loop yields exactly the fragments of every line except the last, in order |
| `OpenRouter.ReadLoop` | src/api/openrouter.ts:83-110 | loop invariant: after each read the buffer has no newline and is the text read so far after its last newline, and the fragments so far are those of every earlier complete line, each handled once, in order; the result equals both the fold model and the reference definition |
| `OpenRouter.ChatOutcome` | src/api/openrouter.ts:62-110 | a rejected `fetch` throws its own error before any fragment; a non-ok response throws `Chat API error: ` + status text; a missing body throws `No readable stream`; otherwise the fragments of the complete lines are yielded, none empty, then any read failure is thrown |
| `OpenRouter.StreamChat` | src/api/openrouter.ts:46-114 | `streamChat` sends the body `BuildRequestBody` describes and produces the outcome `ChatOutcome` describes |
| `ChatView.UserContent` | src/components/Chat.tsx:65-73 | with no pending image the content is the trimmed input string; with one it is a parts list whose text parts are exactly the trimmed input when it is non-empty and none otherwise, with exactly one image part, carrying the pending URL, last, and no empty text part |
| `ChatView.HasImage` | src/components/Chat.tsx:63 | definition: JavaScript truthiness of the pending image (`string` or `null`), as in `!pendingImage` and `if (pendingImage)`; an empty data URL is falsy |
| `ChatView.TextsOf` | src/components/Chat.tsx:213-214 | definition of `.filter(part => part.type === 'text').map(part => part.text)`: the texts of the text parts, in order; `TextsOfAppend` states that it distributes over append |
| `ChatView.CanSend` | src/components/Chat.tsx:63 | a send goes ahead exactly when the input has a non-whitespace character or an image is pending, no request is in flight, and a model is selected |
| `ChatView.Chat.ReadyToSend` | src/components/Chat.tsx:63 | definition: `CanSend` applied to the component's current input, pending image, loading flag and model |
| `ChatView.UserContentSpoken` | src/components/Chat.tsx:65-73 | the text `speakMessage` would read of a composed user message is always the trimmed input, image or not |
| `ChatView.ApiMessages` | src/components/Chat.tsx:86-90 | the API list is the system message `You are a helpful assistant.`, then the prior messages' role and content in order, then the new user message; its length is the history's plus 2 |
| `ChatView.AsString` | src/components/Chat.tsx:109 | `content as string` before `+`: a string as is; a parts list becomes the array-to-string coercion, empty exactly for an empty list and otherwise starting with `[object Object]` |
| `ChatView.AppendChunk` | src/components/Chat.tsx:107-111 | the message whose id is the tracked one gets the chunk appended to its content; all others, all ids and roles, and the list length are unchanged |
| `ChatView.ApplyError` | src/components/Chat.tsx:115-119 | the tracked message becomes `Error: ` + message only if its content is the empty string; every other message and every non-empty content is preserved |
| `ChatView.FillError` | src/components/Chat.tsx:117 | the logical or of a content and `'Error: ' + message`: the result is never the empty string; non-empty content is kept; the empty string becomes `Error: ` + message |
| `ChatView.ReplyContent` | src/components/Chat.tsx:105-119 | the reply is always a plain string: the streamed text, or, when there was an error and nothing streamed, `Error: ` + its message |
| `ChatView.SuccessiveChunksConcatenate` | src/components/Chat.tsx:106-111 | two successive chunk updates equal one update with the chunks concatenated in arrival order |
| `ChatView.ErrorWrittenOnce` | src/components/Chat.tsx:115-119 | a second error update never overwrites the first |
| `ChatView.AppendChunkAtEnd` | src/components/Chat.tsx:107-111 | with fresh ids, a chunk update changes only the placeholder at the end of the list |
| `ChatView.ApplyErrorAtEnd` | src/components/Chat.tsx:115-119 | with fresh ids, an error update touches only the placeholder at the end of the list |
| `ChatView.FailedRequestReply` | src/components/Chat.tsx:113-119 | a request the server rejects leaves `Error: Chat API error: ` + status text as the reply |
| `ChatView.RejectedRequestReply` | src/components/Chat.tsx:113-119 | a `fetch` that rejects (offline, aborted) leaves `Error: ` + its message as the reply |
| `ChatView.MissingBodyReply` | src/api/openrouter.ts:79-81 | an ok response without a body leaves `Error: No readable stream` as the reply |
| `ChatView.FirstReadFailureReply` | src/api/openrouter.ts:86-88 | a body whose first read fails, before any chunk, leaves `Error: ` + the read error as the reply |
| `ChatView.PartialReplyKept` | src/components/Chat.tsx:113-119 | once any fragment has streamed, a later error keeps the streamed text as the reply |
| `ChatView.ReplyIsErrorIff` | src/components/Chat.tsx:105-119 | the reply is the streamed text exactly when something streamed or no error occurred |
| `ChatView.TextsOfAppend` | src/components/Chat.tsx:212-214 | the text parts of two concatenated part lists are the text parts of each, in order |
| `ChatView.SpeakableText` | src/components/Chat.tsx:208-218 | a string is spoken as is; for a parts list, no text parts speak nothing, one speaks its text, and more start with the first text and a space |
| `ChatView.SpeakableTextSkipsImage` | src/components/Chat.tsx:211-215 | an image part, wherever it stands, does not change the spoken text (the text parts joined by a space) |
| `ChatView.ConcatTranscripts` | src/components/Chat.tsx:150-155 | the transcript is the concatenation of the results from `resultIndex` on, or empty when the index is past the end |
| `ChatView.Chat.constructor` | src/components/Chat.tsx:18-33 | the initial state: no messages or models, no model selected, empty input, not loading, models loading, not speaking, nothing pending or tracked |
| `ChatView.Chat.FetchModels` | src/components/Chat.tsx:43-56 | a non-empty fetched list selects its first id; an empty one keeps the selection; a failure (a rejected `fetch` or a non-ok response) changes neither list nor selection; the loading flag ends false |
| `ChatView.Chat.Begin` | src/components/Chat.tsx:75-103 | for composed user content, the conversation grows by exactly the user message and an empty assistant placeholder, the input empties, the image clears, loading starts, the placeholder is tracked, and the API list is built from the prior messages |
| `ChatView.Chat.OnChunk` | src/components/Chat.tsx:107-111 | the fragment is appended to the tracked message, as `AppendChunk` states |
| `ChatView.Chat.OnError` | src/components/Chat.tsx:113-119 | the tracked message receives the error text only if still empty, as `ApplyError` states |
| `ChatView.Chat.Finish` | src/components/Chat.tsx:120-124 | loading ends and no message is tracked |
| `ChatView.Chat.ApplyOutcome` | src/components/Chat.tsx:105-119 | every fragment is appended to the placeholder in arrival order, then an error fills it only if nothing streamed |
| `ChatView.Chat.Request` | src/components/Chat.tsx:75-124 | for composed user content, sends the body with the selected model and the API list, appends the user message and an assistant reply holding the streamed text (or the error text if nothing streamed), and ends idle with empty input, no image and no tracked id; the object invariant is kept |
| `ChatView.Chat.SendMessage` | src/components/Chat.tsx:62-125 | with blank trimmed input and no image, while loading, or with no model, nothing changes and nothing is sent; otherwise it sends the body with the selected model and the API list, appends the user message and an assistant reply holding the streamed text (or the error text if nothing streamed), and ends idle with empty input, no image and no tracked id; the object invariant (distinct ids, tracked exactly while loading) is kept |
| `ChatView.Chat.ClearChat` | src/components/Chat.tsx:134-136 | the conversation becomes empty |
| `ChatView.Chat.OnSpeechResult` | src/components/Chat.tsx:150-156 | the input becomes the transcripts from `resultIndex` on, concatenated |
| `ChatView.Chat.SelectFile` | src/components/Chat.tsx:187-197 | a file is accepted exactly when its type starts with `image/`; only then does its data URL become the pending image |
| `ChatView.Chat.RemovePendingImage` | src/components/Chat.tsx:390 | the pending image is cleared; sent messages are untouched |
| `ChatView.Chat.Speak` | src/components/Chat.tsx:200-241 | while speaking, cancel and clear the flag without starting anything; otherwise start speaking the content's text (string as is, text parts joined by a space, images excluded) unless it is whitespace-only, which starts nothing |
| `ChatView.Chat.SpeechEnded` | src/components/Chat.tsx:228-236 | the end or failure of an utterance clears the speaking flag |

## Left out

- Network and browser plumbing is not modelled, because it is foreign I/O: `fetch` (only its outcome is, for both requests: a response or a rejection with a message), request headers, the base URL, `AbortController` and the abort signal, `reader.read`/`releaseLock`, and `TextDecoder` byte decoding. The body is a list of string chunks.
- `JSON.parse` and the `choices[0]?.delta?.content` lookup are a function parameter. A non-string truthy `content` is not modelled.
- The abort signal, which the spread also copies into the request body, is not modelled. An option given explicitly as `undefined` is not distinguished from an absent one. NaN temperatures are not modelled.
- `response.json()` failing, and a `data` field that is present but not a list, are not modelled.
- `src/App.tsx` (token storage and the view switch) and `src/components/Auth.tsx` (the login form) are not part of this model. They are storage and UI plumbing.
- Rendering, scrolling, the model selector markup, CSS and `alert` are not modelled.
- The speech-recognition and speech-synthesis objects are not modelled: starting and stopping recognition and the listening flag, utterance settings, and the utterance reference. Only the transcript concatenation and the speaking flag are.
- `FileReader` reads asynchronously in the source. `Chat.SelectFile` folds the finished read into one step. Resetting the file input's value is left out.
- Message timestamps are not modelled. Ids come from the clock in the source; here they are supplied as distinct fresh values.
- The plain setters wired to the textarea and the model selector (Chat.tsx:367, 401) assign one field and are not separate methods.
- The `console.error` logging of a failed model fetch, a chat error and a speech-recognition error (Chat.tsx:52, 114, 159) is not modelled, because it is output only; the state changes next to it are.
- `ChatView.Chat.Request`: states the whole request only when no other handler runs while it awaits the stream, and only when every queued message update is applied before its `finally` (the two lines below give each gap).
- `ChatView.Chat.SendMessage`: states the whole request (through `Request`) only when no other handler runs while it awaits the stream. Such interleaving is possible in the browser and is available through the separate `Begin`, `OnChunk`, `OnError` and `Finish` methods.
- `ChatView.Chat.ApplyOutcome`, `ChatView.Chat.OnChunk` and `ChatView.Chat.OnError` bind the tracked id when the handler runs. In the source the `setMessages` updaters read `currentAssistantId.current` only when React applies them (Chat.tsx:107-111, 115-119), which can be after the `finally` has cleared it (Chat.tsx:123). An update applied that late matches no message and its text is lost. The model does not capture that loss: `Request` and `SendMessage` state the reply as if every queued update were applied before the `finally`.
