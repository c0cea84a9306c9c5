/** The back end's `get_bot_reply` (backend/chat_logic.py): it turns the
    stored history and the new message into the role-tagged message list
    sent to the completion API, and turns the API's outcome into the reply
    text. The HTTP call itself is an abstract function from request payload
    to outcome. */
module ChatLogic {
  import opened Options
  import opened Text

  /** The `role` field: "user" or "assistant". */
  datatype Role = User | Assistant

  /** `{"role": ..., "content": ...}`. */
  datatype Entry = Entry(role: Role, content: string)

  /** One `(user_msg, bot_reply)` row of the history. */
  datatype Turn = Turn(userMsg: string, botReply: string)

  /** The JSON body posted to the completion API. */
  datatype Payload = Payload(model: string, messages: seq<Entry>)

  const ModelName: string := "mistralai/mistral-7b-instruct"
  const Fallback: string := "Sorry, I had trouble thinking. Try again!"

  /** How the API call ended:
      - `Answered`: the response had a status below 400 and a JSON body whose
        `choices[0].message.content` is a string;
      - `ResponseRejected`: a response arrived but `raise_for_status`, the
        JSON decoding, the key lookups or `.strip()` raised;
      - `PostRaised`: `requests.post` itself raised (no connection, timeout). */
  datatype ApiOutcome = Answered(content: string) | ResponseRejected | PostRaised

  /** How a Python call finishes: with a value or by raising. */
  datatype Completion = Returned(value: string) | Raised

  /** The history given to the function: `None` (the default) or a list.
      The `if history:` test skips the loop for both `None` and `[]`. */
  function TurnsOf(history: Option<seq<Turn>>): (turns: seq<Turn>)
    ensures history.None? ==> turns == []
    ensures history.Some? ==> turns == history.value
  {
    match history
    case None => []
    case Some(h) => h
  }

  /** The entries the `for user_msg, bot_reply in history` loop appends. */
  function HistoryEntries(history: seq<Turn>): (r: seq<Entry>)
    ensures |r| == 2 * |history|
    ensures forall i :: 0 <= i < |history| ==>
              r[2 * i] == Entry(User, history[i].userMsg) && r[2 * i + 1] == Entry(Assistant, history[i].botReply)
  {
    if history == [] then []
    else
      [Entry(User, history[0].userMsg), Entry(Assistant, history[0].botReply)]
      + HistoryEntries(history[1..])
  }

  /** The `messages` list: the history, oldest first, then the new message. */
  function Context(msg: string, history: Option<seq<Turn>>): (r: seq<Entry>)
    ensures |r| == 2 * |TurnsOf(history)| + 1
    ensures r[|r| - 1] == Entry(User, msg)
    ensures forall i :: 0 <= i < |TurnsOf(history)| ==>
              && r[2 * i] == Entry(User, TurnsOf(history)[i].userMsg)
              && r[2 * i + 1] == Entry(Assistant, TurnsOf(history)[i].botReply)
    ensures TurnsOf(history) == [] ==> r == [Entry(User, msg)]
  {
    HistoryEntries(TurnsOf(history)) + [Entry(User, msg)]
  }

  /** `None` and an empty list are both falsy, so both give the one-entry
      list holding the new message. */
  lemma NoneAndEmptyHistoryAgree(msg: string)
    ensures Context(msg, None) == Context(msg, Some([])) == [Entry(User, msg)]
  {
  }

  /** Roles alternate user, assistant, ..., and the list ends with the user. */
  predicate Alternates(ms: seq<Entry>)
  {
    && |ms| % 2 == 1
    && forall i :: 0 <= i < |ms| ==> ms[i].role == (if i % 2 == 0 then User else Assistant)
  }

  lemma ContextAlternates(msg: string, history: Option<seq<Turn>>)
    ensures Alternates(Context(msg, history))
  {
    var r := Context(msg, history);
    var h := TurnsOf(history);
    forall i | 0 <= i < |r|
      ensures r[i].role == (if i % 2 == 0 then User else Assistant)
    {
      var t := i / 2;
      if i % 2 == 0 {
        assert i == 2 * t;
        if t < |h| {
          assert r[2 * t] == Entry(User, h[t].userMsg);
        }
      } else {
        assert i == 2 * t + 1 && t < |h|;
        assert r[2 * t + 1] == Entry(Assistant, h[t].botReply);
      }
    }
  }

  /** Reads a message list back into history and new message; `None` when
      the list does not have the shape `Context` builds. */
  function Decompose(ms: seq<Entry>): Option<(seq<Turn>, string)>
  {
    if |ms| == 1 then
      if ms[0].role == User then Some(([], ms[0].content)) else None
    else if |ms| >= 3 && ms[0].role == User && ms[1].role == Assistant then
      match Decompose(ms[2..])
      case None => None
      case Some(parsed) => Some(([Turn(ms[0].content, ms[1].content)] + parsed.0, parsed.1))
    else None
  }

  /** Building from a history with a first turn puts that turn's two
      entries in front of what the rest of the history builds. */
  lemma ContextCons(msg: string, t: Turn, history: seq<Turn>)
    ensures Context(msg, Some([t] + history))
            == [Entry(User, t.userMsg), Entry(Assistant, t.botReply)] + Context(msg, Some(history))
  {
  }

  /** The message list loses nothing: history and message can be read back. */
  lemma {:induction false} DecomposeContext(msg: string, history: seq<Turn>)
    ensures Decompose(Context(msg, Some(history))) == Some((history, msg))
  {
    if history != [] {
      var t := history[0];
      assert [t] + history[1..] == history;
      ContextCons(msg, t, history[1..]);
      var r := Context(msg, Some(history));
      assert r[2..] == Context(msg, Some(history[1..]));
      DecomposeContext(msg, history[1..]);
    }
  }

  /** One step of reading back: a list that reads back and is longer than
      one entry starts with a user entry and an assistant entry, and its
      rest reads back too. */
  lemma DecomposeStep(ms: seq<Entry>)
    requires |ms| != 1 && Decompose(ms).Some?
    ensures |ms| >= 3 && Decompose(ms[2..]).Some?
    ensures ms[0].role == User && ms[1].role == Assistant
    ensures Decompose(ms).value
            == ([Turn(ms[0].content, ms[1].content)] + Decompose(ms[2..]).value.0, Decompose(ms[2..]).value.1)
  {
  }

  /** Every list that reads back is exactly the one `Context` builds. */
  lemma {:induction false} ContextOfDecompose(ms: seq<Entry>)
    requires Decompose(ms).Some?
    ensures Context(Decompose(ms).value.1, Some(Decompose(ms).value.0)) == ms
    decreases |ms|
  {
    if |ms| != 1 {
      DecomposeStep(ms);
      var rest := ms[2..];
      var parsed := Decompose(rest).value;
      var t := Turn(ms[0].content, ms[1].content);
      ContextOfDecompose(rest);
      ContextCons(parsed.1, t, parsed.0);
      assert [Entry(User, t.userMsg), Entry(Assistant, t.botReply)] == [ms[0], ms[1]];
      assert [ms[0], ms[1]] + rest == ms;
    }
  }

  /** Every alternating list reads back: with `ContextAlternates`, the
      lists `Context` builds are exactly the alternating ones. */
  lemma {:induction false} AlternatesDecompose(ms: seq<Entry>)
    requires Alternates(ms)
    ensures Decompose(ms).Some?
    decreases |ms|
  {
    if |ms| != 1 {
      assert ms[0].role == User && ms[1].role == Assistant;
      var rest := ms[2..];
      forall i | 0 <= i < |rest|
        ensures rest[i].role == (if i % 2 == 0 then User else Assistant)
      {
        assert rest[i] == ms[i + 2];
      }
      AlternatesDecompose(rest);
    }
  }

  /** `get_bot_reply`'s result as the code is written. When `requests.post`
      raises, `response` was never bound, so the diagnostic
      `getattr(response, ...)` in the handler raises in turn and the fallback
      is never returned. */
  function ReplyAsWritten(o: ApiOutcome): (c: Completion)
    ensures o.Answered? ==> c == Returned(Strip(Python, o.content))
    ensures o.ResponseRejected? ==> c == Returned(Fallback)
    ensures o.PostRaised? ==> c.Raised?
  {
    match o
    case Answered(content) => Returned(Strip(Python, content))
    case ResponseRejected => Returned(Fallback)
    case PostRaised => Raised
  }

  /** A failed connection escapes the handler instead of producing the
      fallback reply. */
  lemma TransportFailureEscapes()
    ensures ReplyAsWritten(PostRaised) != Returned(Fallback)
    ensures ReplyAsWritten(PostRaised).Raised?
  {
  }

  /** The reply as the handler is evidently meant to work: the stripped
      content on success, the fixed apology on any failure. */
  function Reply(o: ApiOutcome): (r: string)
    ensures o.Answered? ==> IsStripped(Python, o.content, r)
    ensures !o.Answered? ==> r == Fallback
  {
    match o
    case Answered(content) => Strip(Python, content)
    case _ => Fallback
  }

  /** The corrected reply agrees with the code whenever the code returns. */
  lemma ReplyAgreesWhereCodeReturns(o: ApiOutcome)
    ensures ReplyAsWritten(o).Returned? ==> ReplyAsWritten(o).value == Reply(o)
    ensures ReplyAsWritten(o).Raised? <==> o.PostRaised?
  {
  }

  /** A successful reply never starts or ends with white space. */
  lemma AnsweredReplyIsTrimmed(content: string)
    ensures var r := Reply(Answered(content));
            r == [] || (!IsPySpace(r[0]) && !IsPySpace(r[|r| - 1]))
  {
    var r := Reply(Answered(content));
    var i, j :| IsStrippedAt(Python, content, r, i, j);
  }

  /** What one call sends and what it answers (a `Completion` as the code
      is written, a string in the corrected rule). */
  datatype Exchange<R> = Exchange(sent: Payload, reply: R)

  /** The payload `get_bot_reply(msg, history)` posts. */
  function PayloadFor(msg: string, history: Option<seq<Turn>>): (p: Payload)
    ensures p.model == ModelName
    ensures p.messages == Context(msg, history)
  {
    Payload(ModelName, Context(msg, history))
  }

  /** `get_bot_reply(msg, history)` as written, against an API that maps each
      payload to an outcome: a failed post makes the whole call raise. */
  function GetBotReply(msg: string, history: Option<seq<Turn>>, api: Payload -> ApiOutcome): (x: Exchange<Completion>)
    ensures x.sent.model == ModelName
    ensures x.sent.messages == Context(msg, history)
    ensures api(x.sent).Answered? ==> x.reply.Returned? && IsStripped(Python, api(x.sent).content, x.reply.value)
    ensures api(x.sent).ResponseRejected? ==> x.reply == Returned(Fallback)
    ensures api(x.sent).PostRaised? ==> x.reply.Raised?
  {
    var payload := PayloadFor(msg, history);
    Exchange(payload, ReplyAsWritten(api(payload)))
  }

  /** `get_bot_reply` with the corrected handler: it always returns, with the
      stripped content or the apology. */
  function GetBotReplyCorrected(msg: string, history: Option<seq<Turn>>, api: Payload -> ApiOutcome): (x: Exchange<string>)
    ensures x.sent.model == ModelName
    ensures x.sent.messages == Context(msg, history)
    ensures api(x.sent).Answered? ==> IsStripped(Python, api(x.sent).content, x.reply)
    ensures !api(x.sent).Answered? ==> x.reply == Fallback
  {
    var payload := PayloadFor(msg, history);
    Exchange(payload, Reply(api(payload)))
  }

  /** Both versions post the same payload, and they answer alike unless the
      post itself failed, where only the corrected one returns. */
  lemma GetBotReplyVersionsAgree(msg: string, history: Option<seq<Turn>>, api: Payload -> ApiOutcome)
    ensures GetBotReply(msg, history, api).sent == GetBotReplyCorrected(msg, history, api).sent
    ensures GetBotReply(msg, history, api).reply.Returned? ==>
              GetBotReply(msg, history, api).reply.value == GetBotReplyCorrected(msg, history, api).reply
    ensures GetBotReply(msg, history, api).reply.Raised? <==> api(PayloadFor(msg, history)).PostRaised?
  {
  }
}
