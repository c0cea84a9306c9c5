/** The `App` component of frontend/src/App.js as a state machine. Every
    handler is one atomic transition; the reply to a message is a later,
    separate transition. The values `sendMessage` captures when it starts
    (the current chat id, the voice flag, the voice catalog and the selected
    voice index) travel with the request, because the reply handler reads
    the captured values and not the state at reply time. */
module AppModel {
  import opened Options
  import opened Text
  import opened ChatState

  /** An entry of the synthesis voice catalog (`voice.name`, `voice.lang`). */
  datatype Voice = Voice(name: string, lang: string)

  /** A message sent to the back end and awaiting its answer, with what the
      sending handler captured. */
  datatype Request = Request(chatId: int, message: string, speak: bool, voices: seq<Voice>, voiceIndex: int)

  /** A speech-synthesis call: the text and the voice, if one is set. */
  datatype Utterance = Utterance(text: string, voice: Option<Voice>)

  /** How `fetch` and `res.json()` ended: with the body's `reply`, or by
      throwing (the handler then logs and appends nothing). */
  datatype FetchOutcome = Replied(reply: string) | FetchFailed

  /** The component state that matters to the logic. `hasRecognition` says
      whether the platform offered speech recognition at mount time. */
  datatype App = App(
    store: Store,
    input: string,
    lastInputWasVoice: bool,
    voices: seq<Voice>,
    voiceIndex: int,
    hasRecognition: bool,
    inFlight: seq<Request>)

  datatype Event =
    | Typed(text: string)                        // input onChange
    | Recognized(transcript: string)             // recognition onresult
    | ListenPressed                              // "Voice Input" button
    | EnterPressed                               // Enter key in the input
    | SendClicked                                // "Send" button
    | NewChatClicked                             // "+ New Chat" button
    | ChatClicked(id: int)                       // a sidebar entry
    | VoicesLoaded(catalog: seq<Voice>)          // onvoiceschanged
    | VoicePicked(index: int)                    // the voice <select>
    | ReplyArrived(k: nat, outcome: FetchOutcome) // the k-th pending fetch settles

  /** The new state and, when the step speaks, what it speaks. */
  datatype StepResult = StepResult(app: App, spoken: Option<Utterance>)

  /** The state invariant: the store is valid and every pending request
      names an existing chat. */
  predicate AppValid(a: App)
  {
    && Valid(a.store)
    && forall i :: 0 <= i < |a.inFlight| ==> a.inFlight[i].chatId in Ids(a.store.chats)
  }

  /** The state right after mounting. */
  function Init(hasRecognition: bool): (a: App)
    ensures AppValid(a)
    ensures a.input == [] && !a.lastInputWasVoice && a.inFlight == []
    ensures a.store == Initial() && a.store.currentId == 1 && |a.store.chats| == 1 && a.store.chats[0].title == DefaultTitle
    ensures a.voices == [] && a.voiceIndex == 0 && a.hasRecognition == hasRecognition
  {
    App(Initial(), "", false, [], 0, hasRecognition, [])
  }

  /** The voice an utterance gets: `voices[selectedVoiceIndex]` when that
      entry exists, otherwise none (the platform default). */
  function ChosenVoice(voices: seq<Voice>, index: int): (v: Option<Voice>)
    ensures v.Some? <==> 0 <= index < |voices|
    ensures v.Some? ==> v.value == voices[index]
  {
    if |voices| > 0 && 0 <= index < |voices| then Some(voices[index]) else None
  }

  /** The synchronous part of `sendMessage`. Blank input changes nothing.
      Otherwise the input is cleared, the message goes into the current chat
      and a request carrying the captured values is issued; the voice flag is
      left as it is. */
  function Send(a: App): (r: App)
    ensures IsBlank(JavaScript, a.input) ==> r == a
    ensures !IsBlank(JavaScript, a.input) ==>
              && r.input == []
              && r.lastInputWasVoice == a.lastInputWasVoice
              && r.store == AddUserMessage(a.store, a.input)
              && r.inFlight == a.inFlight + [Request(a.store.currentId, a.input, a.lastInputWasVoice, a.voices, a.voiceIndex)]
              && r.voices == a.voices && r.voiceIndex == a.voiceIndex && r.hasRecognition == a.hasRecognition
  {
    StripEmptyIffBlank(JavaScript, a.input);
    if Strip(JavaScript, a.input) == [] then a
    else
      var req := Request(a.store.currentId, a.input, a.lastInputWasVoice, a.voices, a.voiceIndex);
      a.(store := AddUserMessage(a.store, a.input), input := "", inFlight := a.inFlight + [req])
  }

  /** `handleKeyDown` for Enter: send, then mark the input as typed, whether
      or not anything was sent. */
  function PressEnter(a: App): (r: App)
    ensures !r.lastInputWasVoice
    ensures r.store == Send(a).store && r.input == Send(a).input && r.inFlight == Send(a).inFlight
    ensures r.voices == a.voices && r.voiceIndex == a.voiceIndex && r.hasRecognition == a.hasRecognition
  {
    Send(a).(lastInputWasVoice := false)
  }

  /** `startListening`: with recognition available, the flag drops until a
      result arrives; without it, nothing happens. */
  function StartListening(a: App): (r: App)
    ensures a.hasRecognition ==> !r.lastInputWasVoice
    ensures !a.hasRecognition ==> r == a
    ensures r.store == a.store && r.input == a.input && r.inFlight == a.inFlight
    ensures r.voices == a.voices && r.voiceIndex == a.voiceIndex && r.hasRecognition == a.hasRecognition
  {
    if a.hasRecognition then a.(lastInputWasVoice := false) else a
  }

  /** `onresult`: the transcript becomes the input and the flag rises. No
      handler exists without recognition. */
  function Recognize(a: App, transcript: string): (r: App)
    ensures a.hasRecognition ==> r.lastInputWasVoice && r.input == transcript
    ensures !a.hasRecognition ==> r == a
    ensures r.store == a.store && r.inFlight == a.inFlight
    ensures r.voices == a.voices && r.voiceIndex == a.voiceIndex && r.hasRecognition == a.hasRecognition
  {
    if a.hasRecognition then a.(input := transcript, lastInputWasVoice := true) else a
  }

  /** The asynchronous part of `sendMessage` for the k-th pending request.
      On a reply, the bot message goes to the chat current when the request
      was sent, and the reply is spoken exactly when the flag was set then.
      On a failure, only the request goes away. */
  function ReceiveReply(a: App, k: nat, outcome: FetchOutcome): (r: StepResult)
    requires k < |a.inFlight|
    ensures r.app.inFlight == a.inFlight[..k] + a.inFlight[k + 1..]
    ensures r.app.input == a.input && r.app.lastInputWasVoice == a.lastInputWasVoice
    ensures r.app.voices == a.voices && r.app.voiceIndex == a.voiceIndex && r.app.hasRecognition == a.hasRecognition
    ensures outcome.FetchFailed? ==> r.app.store == a.store && r.spoken.None?
    ensures outcome.Replied? ==> r.app.store == AddBotMessage(a.store, a.inFlight[k].chatId, outcome.reply)
    ensures r.spoken.Some? <==> outcome.Replied? && a.inFlight[k].speak
    ensures r.spoken.Some? ==>
              r.spoken.value == Utterance(outcome.reply, ChosenVoice(a.inFlight[k].voices, a.inFlight[k].voiceIndex))
  {
    var req := a.inFlight[k];
    var rest := a.inFlight[..k] + a.inFlight[k + 1..];
    match outcome
    case FetchFailed => StepResult(a.(inFlight := rest), None)
    case Replied(text) =>
      var spoken := if req.speak then Some(Utterance(text, ChosenVoice(req.voices, req.voiceIndex))) else None;
      StepResult(a.(store := AddBotMessage(a.store, req.chatId, text), inFlight := rest), spoken)
  }

  /** Whether the user interface offers the event: the Send button is
      disabled on blank input, the sidebar and the voice list offer only
      existing entries, and only a pending fetch can settle. */
  function Enabled(a: App, e: Event): (ok: bool)
    ensures e.SendClicked? ==> (ok <==> Strip(JavaScript, a.input) != [])
    ensures e.ChatClicked? ==> (ok <==> FindChat(a.store.chats, e.id).Some?)
    ensures e.VoicePicked? ==> (ok <==> ChosenVoice(a.voices, e.index).Some?)
    ensures e.ReplyArrived? ==> (ok <==> e.k < |a.inFlight|)
    ensures !(e.SendClicked? || e.ChatClicked? || e.VoicePicked? || e.ReplyArrived?) ==> ok
  {
    StripEmptyIffBlank(JavaScript, a.input);
    match e
    case SendClicked => !IsBlank(JavaScript, a.input)
    case ChatClicked(id) => id in Ids(a.store.chats)
    case VoicePicked(i) => 0 <= i < |a.voices|
    case ReplyArrived(k, _) => k < |a.inFlight|
    case _ => true
  }

  /** One transition of the component. */
  function Step(a: App, e: Event): (r: StepResult)
    ensures !e.ReplyArrived? ==> r.spoken.None?
    ensures !e.ReplyArrived? ==> a.inFlight <= r.app.inFlight
    ensures r.app.hasRecognition == a.hasRecognition
    ensures e.Typed? ==> r.app == a.(input := e.text)
    ensures e.Recognized? ==> r.app == Recognize(a, e.transcript)
    ensures e.ListenPressed? ==> r.app == StartListening(a)
    ensures e.EnterPressed? ==> r.app == PressEnter(a)
    ensures e.SendClicked? ==> r.app == Send(a)
    ensures e.NewChatClicked? ==> r.app == a.(store := CreateChat(a.store))
    ensures e.ChatClicked? ==> r.app == a.(store := SelectChat(a.store, e.id))
    ensures e.VoicesLoaded? ==> r.app == a.(voices := e.catalog)
    ensures e.VoicePicked? ==> r.app == a.(voiceIndex := e.index)
    ensures e.ReplyArrived? && e.k < |a.inFlight| ==> r == ReceiveReply(a, e.k, e.outcome)
    ensures e.ReplyArrived? && e.k >= |a.inFlight| ==> r == StepResult(a, None)
  {
    match e
    case Typed(text) => StepResult(a.(input := text), None)
    case Recognized(t) => StepResult(Recognize(a, t), None)
    case ListenPressed => StepResult(StartListening(a), None)
    case EnterPressed => StepResult(PressEnter(a), None)
    case SendClicked => StepResult(Send(a), None)
    case NewChatClicked => StepResult(a.(store := CreateChat(a.store)), None)
    case ChatClicked(id) => StepResult(a.(store := SelectChat(a.store, id)), None)
    case VoicesLoaded(catalog) => StepResult(a.(voices := catalog), None)
    case VoicePicked(i) => StepResult(a.(voiceIndex := i), None)
    case ReplyArrived(k, outcome) =>
      if k < |a.inFlight| then ReceiveReply(a, k, outcome) else StepResult(a, None)
  }

  lemma SendPreservesValid(a: App)
    requires AppValid(a)
    ensures AppValid(Send(a))
  {
    if !IsBlank(JavaScript, a.input) {
      AddUserMessageTouchesOnlyCurrent(a.store, a.input);
    }
  }

  lemma ReceiveReplyPreservesValid(a: App, k: nat, outcome: FetchOutcome)
    requires AppValid(a) && k < |a.inFlight|
    ensures AppValid(ReceiveReply(a, k, outcome).app)
  {
  }

  /** Every enabled event keeps the invariant. */
  lemma StepPreservesValid(a: App, e: Event)
    requires AppValid(a) && Enabled(a, e)
    ensures AppValid(Step(a, e).app)
  {
    match e
    case SendClicked => SendPreservesValid(a);
    case EnterPressed => SendPreservesValid(a);
    case NewChatClicked => CreateChatPreservesValid(a.store);
    case ChatClicked(id) => SelectChatPreservesValid(a.store, id);
    case ReplyArrived(k, outcome) => ReceiveReplyPreservesValid(a, k, outcome);
    case _ =>
  }

  /** The state after a sequence of events. */
  function Run(a: App, events: seq<Event>): App
    decreases |events|
  {
    if events == [] then a else Run(Step(a, events[0]).app, events[1..])
  }

  /** Every event of the sequence is enabled when it happens. */
  predicate EnabledRun(a: App, events: seq<Event>)
    decreases |events|
  {
    events == [] || (Enabled(a, events[0]) && EnabledRun(Step(a, events[0]).app, events[1..]))
  }

  lemma {:induction false} RunPreservesValid(a: App, events: seq<Event>)
    requires AppValid(a) && EnabledRun(a, events)
    ensures AppValid(Run(a, events))
    decreases |events|
  {
    if events != [] {
      StepPreservesValid(a, events[0]);
      RunPreservesValid(Step(a, events[0]).app, events[1..]);
    }
  }

  /** From mounting on, whatever the user and the network do, the current
      chat exists, ids stay unique and every reply has a chat to land in. */
  lemma ReachableStatesAreValid(hasRecognition: bool, events: seq<Event>)
    requires EnabledRun(Init(hasRecognition), events)
    ensures AppValid(Run(Init(hasRecognition), events))
    ensures UniqueIds(Run(Init(hasRecognition), events).store.chats)
    ensures FindChat(Run(Init(hasRecognition), events).store.chats, Run(Init(hasRecognition), events).store.currentId).Some?
  {
    RunPreservesValid(Init(hasRecognition), events);
    var a := Run(Init(hasRecognition), events);
    IncreasingIdsAreUnique(a.store.chats);
    CurrentChatExists(a.store);
  }

  /** The voice flag rises only on a recognition result. */
  lemma FlagRisesOnlyOnRecognition(a: App, e: Event)
    requires !a.lastInputWasVoice && Step(a, e).app.lastInputWasVoice
    ensures e.Recognized? && a.hasRecognition
  {
  }

  /** The voice flag falls only when listening starts (with recognition
      available) or on an Enter key; the Send button leaves it set. */
  lemma FlagFallsOnlyOnListenOrEnter(a: App, e: Event)
    requires a.lastInputWasVoice
    ensures !Step(a, e).app.lastInputWasVoice <==> e.EnterPressed? || (e.ListenPressed? && a.hasRecognition)
  {
  }

  /** Sending with the Enter key after a recognition result still speaks the
      reply: the flag is read as it was when the message went out, although
      the key handler clears it at once. */
  lemma EnterAfterRecognitionSpeaksReply(a: App, transcript: string, reply: string)
    requires a.hasRecognition && !IsBlank(JavaScript, transcript)
    ensures var sent := PressEnter(Recognize(a, transcript));
            && !sent.lastInputWasVoice
            && |sent.inFlight| == |a.inFlight| + 1
            && ReceiveReply(sent, |a.inFlight|, Replied(reply)).spoken
               == Some(Utterance(reply, ChosenVoice(a.voices, a.voiceIndex)))
  {
  }

  /** Once an Enter key has cleared the flag, a typed message sent with the
      Enter key is not spoken. */
  lemma TypedAfterEnterIsSilent(a: App, text: string, reply: string)
    requires !IsBlank(JavaScript, text)
    ensures var b := Step(PressEnter(a), Typed(text)).app;
            ReceiveReply(PressEnter(b), |b.inFlight|, Replied(reply)).spoken.None?
  {
  }

  /** Typing over a recognised transcript and clicking Send speaks the reply,
      because neither typing nor the Send button clears the flag. */
  lemma TypedOverVoiceWithButtonIsSpoken(a: App, transcript: string, text: string, reply: string)
    requires a.hasRecognition && !IsBlank(JavaScript, text)
    ensures var b := Step(Recognize(a, transcript), Typed(text)).app;
            ReceiveReply(Send(b), |a.inFlight|, Replied(reply)).spoken.Some?
  {
  }
}
