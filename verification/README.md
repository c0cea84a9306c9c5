# ChatBot: chat sessions, voice flag and LLM context, in Dafny

This project models the two pieces of logic in the ChatBot repository.

The first is the React `App` component (`frontend/src/App.js`). It keeps a list of chats, each with an id, a title and a message list, and the id of the current chat. It has these handlers:

- `sendMessage` appends the user's message to the current chat, retitles that chat, and later appends the bot's reply.
- `createNewChat` and `selectChat` add a chat and change the current one.
- A "last input was voice" flag decides whether a reply is spoken.
- The renderer turns URL-like parts of a bot message into links.

The second is the back end's `get_bot_reply` (`backend/chat_logic.py`). It builds the role-tagged message list for the completion API from the stored `(user_msg, bot_reply)` history and the new message. It then turns the API's outcome into the reply text.

Modules:

- `Options`: `Option`, used for `undefined`/`None`.
- `Text`: white-space trimming, in JavaScript's sense (`String.prototype.trim`) and in Python's (`str.strip`), with a reference definition. It also holds the decimal rendering of integers used in `Chat ${id}`.
- `ChatState`: the chats and the current id (`Store`), the title rule, and the chat-list transitions with their invariant.
- `Links`: the `href` rule and the rendering of split parts into plain text and link segments.
- `AppModel`: the whole component as a state machine over events. Each handler is one atomic step. A reply is a separate, later step that settles one of the pending requests.
- `ChatLogic`: the context builder, its inverse, and the reply rule, both as written and corrected (see Findings).

Three places where the code's behaviour is easy to misread:

- **Title.** The code overwrites the chat title on every user message, not only on the first one (`frontend/src/App.js:101-102`).
- **Send button.** The button does not reset the voice flag. Lines 92-94 only set the flag to false when it is already false. Of the two ways to send, only the Enter key handler clears it (`:147`), and it does so even when the input was blank and nothing was sent.
- **Captured values.** `sendMessage` reads the values it captured when it started: the current chat id, the voice flag, the voice list and the selected index. Each `Request` therefore carries them. A reply lands in the chat that was current at send time and is spoken according to the flag at send time, whatever happened since.

## Model

| member | source | states |
|---|---|---|
| Text.Strip | frontend/src/App.js:86 | `trim()` returns the contiguous middle of the input, and everything removed around it is white space. It neither starts nor ends with white space. |
| Text.StrippedIsUnique | backend/chat_logic.py:30 | The reference definition of trimming admits exactly one result, so `strip()` is fully determined by it. |
| Text.StripEmptyIffBlank | frontend/src/App.js:86 | `!input.trim()` holds exactly when every character of the input is white space. |
| Text.StripIdempotent | backend/chat_logic.py:30 | Stripping an already stripped reply changes nothing. |
| Text.NatToDecimal | frontend/src/App.js:154 | A non-negative id renders as a non-empty digit string without a leading zero. |
| Text.DecimalRoundTrip | frontend/src/App.js:154 | Reading back the digits of a rendered id gives the id, so the default title names the id exactly. |
| Text.IntToDecimal | frontend/src/App.js:154 | Any integer id renders as its decimal digits, preceded by "-" when negative, with no leading zero, and the digits read back to its magnitude. |
| ChatState.Initial | frontend/src/App.js:6-7 | The initial store is exactly one chat `{id: 1, title: "New Chat", messages: []}`, with id 1 current, and it satisfies the store invariant. |
| ChatState.IncreasingIdsAreUnique | frontend/src/App.js:153 | Ids that increase along the list are pairwise distinct. |
| ChatState.Title | frontend/src/App.js:101-102 | A title has at most 20 characters. A longer message gives its first 17 characters plus "...", which is exactly 20. A shorter non-empty message is kept verbatim. The empty message gives "New Chat". |
| ChatState.TitleKeepsExactlyShortMessages | frontend/src/App.js:101 | A message is its own title if and only if it is non-empty and at most 20 characters long. |
| ChatState.TitleIdempotent | frontend/src/App.js:101-102 | Retitling with a title gives the same title. |
| ChatState.MaxId | frontend/src/App.js:153 | `Math.max` of the ids is one of the ids and bounds all of them. |
| ChatState.NewChatId | frontend/src/App.js:153 | The new id is 1 for an empty list; otherwise it is one more than an existing id and greater than every id, so it is fresh. |
| ChatState.NewChatIdFollowsLast | frontend/src/App.js:153 | With increasing ids, the new id is the last chat's id plus one. |
| ChatState.NewChatTitle | frontend/src/App.js:154 | A new chat's title is "Chat " followed by the id's decimal digits (after a "-" for a negative id), and those digits read back to the id's magnitude. A non-negative id has no leading zero. |
| ChatState.CreateChat | frontend/src/App.js:152-157 | The chat count grows by one and existing chats are untouched. The new chat is last, has a fresh id greater than all others, is titled `Chat <id>`, has no messages and becomes current. |
| ChatState.CreateChatPreservesValid | frontend/src/App.js:152-157 | Creating a chat keeps ids positive and increasing, and keeps the current id naming an existing chat. |
| ChatState.SelectChat | frontend/src/App.js:160-162 | Selecting changes only the current id, and to the given id. |
| ChatState.SelectChatPreservesValid | frontend/src/App.js:160-162 | Selecting an id the sidebar offers (one from the list) keeps the store valid. |
| ChatState.FindChat | frontend/src/App.js:165 | `find` yields a chat exactly when the id is in the list, and then it yields the first chat with that id. |
| ChatState.CurrentChatExists | frontend/src/App.js:165 | In a valid store the current chat is found, so the render's `currentChat.messages` always reads a chat. |
| ChatState.AddUserMessage | frontend/src/App.js:97-106 | Chats whose id is the current id get `{user, msg}` appended and the title of `msg`. Every other chat, the order and the ids are unchanged. |
| ChatState.AddUserMessageTouchesOnlyCurrent | frontend/src/App.js:97-106 | In a valid store exactly one chat, the current one, changes. It gains the user message at its end and a new title, and validity is kept. |
| ChatState.AddBotMessage | frontend/src/App.js:119-125 | The reply is appended as a bot message to the chats with the target id. No title changes and no other chat changes. |
| ChatState.AddBotMessageTouchesOnlyTarget | frontend/src/App.js:119-125 | In a valid store the reply for an existing chat changes exactly that chat, appending at its end, and validity is kept. |
| Links.Href | frontend/src/App.js:174 | A part that starts with "http" is its own href. Any other part gets "https://" in front. Every href starts with "http" and ends with the part. |
| Links.HrefIdempotent | frontend/src/App.js:174 | Applying the href rule to an href changes nothing. |
| Links.RenderPart | frontend/src/App.js:170-180 | `undefined` and "" render as nothing. A part becomes a link exactly when it matches the URL test, contains "." and has no space; the link shows the part and targets its href. Any other part stays plain. |
| Links.Render | frontend/src/App.js:170-180 | Every rendered segment is non-empty. Links pass the link test and carry the href rule's target. Plain segments fail the test. |
| Links.RenderKeepsText | frontend/src/App.js:170-180 | The displayed text of the rendered segments, concatenated, equals the concatenated text of the parts. |
| Links.RenderSingle | frontend/src/App.js:170-180 | One part renders to exactly the segment `RenderPart` gives it, or to nothing when that part is `undefined` or "". |
| Links.RenderAppend | frontend/src/App.js:170 | The `map` works part by part: rendering two runs of parts one after the other gives the segments of the first run followed by those of the second. With `RenderSingle`, the k-th segment comes from the k-th non-empty part. |
| AppModel.Init | frontend/src/App.js:5-10 | The mounted state is valid: the initial store (one chat "New Chat" with id 1, current), empty input, flag false, no voices, voice index 0, no pending request. |
| AppModel.ChosenVoice | frontend/src/App.js:130-132 | The utterance gets `voices[selectedVoiceIndex]` exactly when that entry exists, and the platform default otherwise. |
| AppModel.Send | frontend/src/App.js:85-107 | Blank input changes nothing. Otherwise the input is cleared to "" and the message goes into the current chat. One request records the chat id, the message, the flag, the voices and the index at send time. The flag is untouched. |
| AppModel.PressEnter | frontend/src/App.js:144-149 | The Enter key sends as the Send path does and then clears the flag, also when nothing was sent. The voices, the index and recognition availability are unchanged. |
| AppModel.StartListening | frontend/src/App.js:66-72 | With recognition available, starting to listen clears the flag. Without it, nothing changes. The store, input, pending requests and voice settings never change. |
| AppModel.Recognize | frontend/src/App.js:46-50 | A recognition result becomes the input and sets the flag. The store, pending requests and voice settings are unchanged. |
| AppModel.ReceiveReply | frontend/src/App.js:109-140 | A reply is appended to the chat current at send time, and only the settled request leaves the pending list. It is spoken exactly when the flag was set at send time, with the voice chosen then. A failure changes only the pending list and speaks nothing. The input, the flag and the voice settings are never touched. |
| AppModel.Enabled | frontend/src/App.js:190-240 | Send is offered exactly when the trimmed input is non-empty. A sidebar click is offered exactly for an id that `find` locates. A voice pick is offered exactly for an index with a catalog entry. Only a pending fetch can settle. Every other event is always offered. |
| AppModel.Step | frontend/src/App.js:186-246 | Only a settling fetch can speak, and every other event keeps the pending requests as a prefix of the new list. Typing replaces the input only. New Chat and a sidebar click change only the store. Loading voices replaces only the catalog. A voice pick sets only the index. A fetch no request matches changes nothing. |
| AppModel.StepPreservesValid | frontend/src/App.js:152-162 | Every event the interface offers keeps the store valid, and keeps every pending request naming an existing chat. |
| AppModel.RunPreservesValid | frontend/src/App.js:97-162 | Validity holds after any sequence of offered events. |
| AppModel.ReachableStatesAreValid | frontend/src/App.js:6-7 | From the mounted state, every reachable state has unique ids and a current chat that `find` locates. |
| AppModel.FlagRisesOnlyOnRecognition | frontend/src/App.js:46-50 | The voice flag becomes true only on a recognition result, with recognition available. |
| AppModel.FlagFallsOnlyOnListenOrEnter | frontend/src/App.js:144-149 | A set flag is cleared exactly by the Enter key or by starting to listen with recognition available. |
| AppModel.EnterAfterRecognitionSpeaksReply | frontend/src/App.js:127-149 | A recognised message sent with Enter is still spoken, with the chosen voice, although Enter clears the flag at once. |
| AppModel.TypedAfterEnterIsSilent | frontend/src/App.js:144-149 | After an Enter key, a typed message sent with Enter is not spoken. |
| AppModel.TypedOverVoiceWithButtonIsSpoken | frontend/src/App.js:237-241 | Typing over a recognised transcript and clicking Send is spoken, because neither typing nor the button clears the flag. |
| ChatLogic.NoneAndEmptyHistoryAgree | backend/chat_logic.py:16-21 | `None` and an empty list give the same message list, `[{user, msg}]`. |
| ChatLogic.HistoryEntries | backend/chat_logic.py:17-20 | The history loop yields 2·\|history\| entries. Pair i gives `{user, user_msg}` at 2i and `{assistant, bot_reply}` at 2i+1, in history order. |
| ChatLogic.Context | backend/chat_logic.py:9-21 | The message list has length 2·\|history\|+1, the history pairs in order, and `{user, msg}` last. An absent or empty history gives exactly `[{user, msg}]`. |
| ChatLogic.ContextAlternates | backend/chat_logic.py:18-21 | Roles strictly alternate user/assistant, starting and ending with user. |
| ChatLogic.DecomposeContext | backend/chat_logic.py:16-21 | History and message are recovered from the message list: building loses nothing. |
| ChatLogic.ContextOfDecompose | backend/chat_logic.py:16-21 | Every list that reads back is exactly the one built from its decomposition. |
| ChatLogic.AlternatesDecompose | backend/chat_logic.py:16-21 | Every list whose roles alternate user/assistant, starting and ending with user, reads back. With `ContextAlternates`, the built lists are exactly the alternating ones. |
| ChatLogic.ReplyAsWritten | backend/chat_logic.py:26-35 | As written: an answer gives the stripped content, and a bad response gives the apology. A failed `requests.post` raises. |
| ChatLogic.TransportFailureEscapes | backend/chat_logic.py:27-33 | As written, a failed connection does not return the apology: the call raises. |
| ChatLogic.Reply | backend/chat_logic.py:26-35 | Corrected: on success, the content stripped by the reference definition; on any failure, "Sorry, I had trouble thinking. Try again!". |
| ChatLogic.ReplyAgreesWhereCodeReturns | backend/chat_logic.py:26-35 | The corrected reply equals the code's whenever the code returns. The code raises exactly on a failed post. |
| ChatLogic.AnsweredReplyIsTrimmed | backend/chat_logic.py:30 | A successful reply neither starts nor ends with Python white space. |
| ChatLogic.GetBotReply | backend/chat_logic.py:9-35 | As written: the call posts model "mistralai/mistral-7b-instruct" with the built context. It returns the stripped content on an answer and the apology on a bad response, and raises when the post itself fails. |
| ChatLogic.GetBotReplyCorrected | backend/chat_logic.py:9-35 | Corrected: the same post, and the call always returns, with the stripped content on an answer and the apology on any failure. |
| ChatLogic.GetBotReplyVersionsAgree | backend/chat_logic.py:26-35 | Both versions post the same payload and give the same reply whenever the code returns. The code raises exactly when the post fails. |

## Left out

- The URL split (`frontend/src/App.js:169-173`) would need a model of JavaScript regular expressions, including the capture groups that `split` emits as extra parts. The renderer takes the parts as input, and `part.match(urlRegex)` is an abstract predicate.
- User-id generation (`frontend/src/App.js:12-20`) uses `localStorage` and `Math.random`. The request does not carry the user id.
- The network is not modelled. `fetch` (`frontend/src/App.js:111-116`) and `requests.post` (`backend/chat_logic.py:27-29`) are abstract outcomes: `FetchOutcome`, and an API function from payload to `ApiOutcome`. The endpoint URLs and headers are not modelled.
- The speech platform is not modelled: loading the voice catalog, starting and stopping recognition, and the synthesis engine. A voice list is replaced whole by the `VoicesLoaded` event, and a spoken reply is an `Utterance` output.
- `isSpeaking` and `stopAll` (`frontend/src/App.js:11`, `:70`, `:74-83`, `:133-135`) only drive platform calls and button enabling. Because of this, the model lets "Voice Input" be pressed at any time.
- `backend/db.py` and `backend/app.py` are SQL I/O and Flask wiring. The history order they produce is not part of this model.
- `startListening` (`frontend/src/App.js:66-72`) is modelled as if `recognition.start()` always succeeds. When a recognition session is already active, `start()` throws and the flag is not cleared; the model does not track sessions.
- Logging is not modelled: `console.error` and `console.warn` (`frontend/src/App.js:53`, `:62`, `:139`) and the `print` calls (`backend/chat_logic.py:32-34`). Only the raise that the `print` at `:33` can cause matters to the model, and it is modelled as `Raised`.
- JSX rendering and CSS are presentation only.
- Async interleaving is not modelled. Each handler is one atomic step, and React's batching of state updates within one handler is taken as atomic.
- ChatState.Title: counts length in characters, where JavaScript counts UTF-16 code units. This only differs for text outside the Basic Multilingual Plane, which `slice(0, 17)` could split.
- Text.IntToDecimal: renders the shortest digit string (no leading zero), but does not model how JavaScript numbers render beyond 2^53 or in exponent form (from 1e21 up). Ids are unbounded integers.

## Findings

| source | as written | input that shows it | evidently intended | confidence | as-written member | corrected member |
|---|---|---|---|---|---|---|
| backend/chat_logic.py:27-33 | In the `except` handler, `getattr(response, 'status_code', None)` reads `response`. When `requests.post` itself raised, `response` was never assigned, so the handler raises `UnboundLocalError` and the function never returns. | An unreachable API host: `requests.post` raises `ConnectionError`. | Every failure of the API call returns "Sorry, I had trouble thinking. Try again!". | high, not executed | ChatLogic.ReplyAsWritten | ChatLogic.Reply |
