/** The chat-session store of the front end: the list of chats and the id of
    the active one, with the transitions `createNewChat`, `selectChat` and
    the two message appends of `sendMessage` (frontend/src/App.js). */
module ChatState {
  import opened Options
  import opened Text

  datatype Sender = User | Bot

  /** `{type, text}`: one entry in a chat's history. */
  datatype Message = Message(sender: Sender, text: string)

  /** `{id, title, messages}`. */
  datatype Chat = Chat(id: int, title: string, messages: seq<Message>)

  /** The `chats` and `currentChatId` pieces of the component's state. */
  datatype Store = Store(chats: seq<Chat>, currentId: int)

  const DefaultTitle: string := "New Chat"
  /** Longest message kept verbatim as a title. */
  const TitleLimit: nat := 20
  /** How much of a longer message a title keeps before the ellipsis. */
  const TitleKeep: nat := 17
  const Ellipsis: string := "..."

  /** The ids of `chats`, in list order. */
  function Ids(chats: seq<Chat>): seq<int>
  {
    seq(|chats|, i requires 0 <= i < |chats| => chats[i].id)
  }

  /** Ids strictly increase along the list, so no two chats share one. */
  predicate IncreasingIds(chats: seq<Chat>)
  {
    forall i, j :: 0 <= i < j < |chats| ==> chats[i].id < chats[j].id
  }

  predicate UniqueIds(chats: seq<Chat>)
  {
    forall i, j :: 0 <= i < |chats| && 0 <= j < |chats| && i != j ==> chats[i].id != chats[j].id
  }

  /** The store's invariant: at least one chat, ids positive and increasing,
      and the current id names an existing chat. */
  predicate Valid(st: Store)
  {
    && |st.chats| > 0
    && st.chats[0].id >= 1
    && IncreasingIds(st.chats)
    && st.currentId in Ids(st.chats)
  }

  /** `useState([{ id: 1, title: "New Chat", messages: [] }])` and
      `useState(1)`. */
  function Initial(): (st: Store)
    ensures Valid(st)
    ensures st == Store([Chat(1, DefaultTitle, [])], 1)
  {
    var st := Store([Chat(1, DefaultTitle, [])], 1);
    assert Ids(st.chats)[0] == 1;
    st
  }

  lemma IncreasingIdsAreUnique(chats: seq<Chat>)
    requires IncreasingIds(chats)
    ensures UniqueIds(chats)
  {
  }

  /** The title a user message gives its chat: the message itself when it has
      at most 20 characters, otherwise its first 17 characters and "...";
      the empty message falls back to "New Chat". */
  function Title(msg: string): (t: string)
    ensures |t| <= TitleLimit
    ensures |msg| > TitleLimit ==> |t| == TitleLimit && t[..TitleKeep] == msg[..TitleKeep] && t[TitleKeep..] == Ellipsis
    ensures 0 < |msg| <= TitleLimit ==> t == msg
    ensures msg == [] ==> t == DefaultTitle
  {
    if |msg| > TitleLimit then msg[..TitleKeep] + Ellipsis
    else if msg != [] then msg
    else DefaultTitle
  }

  /** A message is its own title exactly when it is non-empty and short. */
  lemma TitleKeepsExactlyShortMessages(msg: string)
    ensures Title(msg) == msg <==> 0 < |msg| <= TitleLimit
  {
  }

  /** A title used as a message gives back the same title. */
  lemma TitleIdempotent(msg: string)
    ensures Title(Title(msg)) == Title(msg)
  {
  }

  /** The largest id in a non-empty list (`Math.max(...chats.map(c => c.id))`). */
  function MaxId(chats: seq<Chat>): (m: int)
    requires |chats| > 0
    ensures m in Ids(chats)
    ensures forall i :: 0 <= i < |chats| ==> chats[i].id <= m
  {
    assert Ids(chats)[0] == chats[0].id;
    if |chats| == 1 then chats[0].id
    else
      var rest := MaxId(chats[1..]);
      assert Ids(chats[1..]) == Ids(chats)[1..];
      if chats[0].id >= rest then chats[0].id else rest
  }

  /** The id `createNewChat` assigns: one more than the largest, or 1 for an
      empty list. */
  function NewChatId(chats: seq<Chat>): (id: int)
    ensures id !in Ids(chats)
    ensures forall i :: 0 <= i < |chats| ==> chats[i].id < id
    ensures chats == [] ==> id == 1
    ensures chats != [] ==> id - 1 in Ids(chats)
  {
    if |chats| > 0 then MaxId(chats) + 1 else 1
  }

  /** With increasing ids the fresh id is the last id plus one. */
  lemma NewChatIdFollowsLast(chats: seq<Chat>)
    requires |chats| > 0 && IncreasingIds(chats)
    ensures NewChatId(chats) == chats[|chats| - 1].id + 1
  {
  }

  /** The default title of a freshly created chat, `Chat ${newId}`. */
  function NewChatTitle(id: int): (t: string)
    ensures |t| > 5 && t[..5] == "Chat "
    ensures id >= 0 ==> IsDigits(t[5..]) && DecimalValue(t[5..]) == id
    ensures id < 0 ==> t[5] == '-' && IsDigits(t[6..]) && DecimalValue(t[6..]) == -id
    ensures id >= 0 && |t| > 6 ==> t[5] != '0'
  {
    "Chat " + IntToDecimal(id)
  }

  /** `createNewChat`: append an empty chat with a fresh id and make it current. */
  function CreateChat(st: Store): (r: Store)
    ensures |r.chats| == |st.chats| + 1
    ensures r.chats[..|st.chats|] == st.chats
    ensures Ids(r.chats) == Ids(st.chats) + [r.currentId]
    ensures r.currentId !in Ids(st.chats)
    ensures forall i :: 0 <= i < |st.chats| ==> st.chats[i].id < r.currentId
    ensures r.chats[|st.chats|] == Chat(r.currentId, NewChatTitle(r.currentId), [])
    ensures st.chats == [] ==> r.currentId == 1
    ensures st.chats != [] ==> r.currentId - 1 in Ids(st.chats)
  {
    var id := NewChatId(st.chats);
    Store(st.chats + [Chat(id, NewChatTitle(id), [])], id)
  }

  lemma CreateChatPreservesValid(st: Store)
    requires Valid(st)
    ensures Valid(CreateChat(st))
  {
  }

  /** `selectChat(id)`: only the current id changes. */
  function SelectChat(st: Store, id: int): (r: Store)
    ensures r.chats == st.chats
    ensures r.currentId == id
  {
    st.(currentId := id)
  }

  /** Selecting an id offered by the sidebar keeps the store valid. */
  lemma SelectChatPreservesValid(st: Store, id: int)
    requires Valid(st)
    requires id in Ids(st.chats)
    ensures Valid(SelectChat(st, id))
  {
  }

  /** `chats.find(chat => chat.id === id)`: the first chat with that id. */
  function FindChat(chats: seq<Chat>, id: int): (r: Option<Chat>)
    ensures r.Some? <==> id in Ids(chats)
    ensures r.Some? ==> r.value.id == id && r.value in chats
    ensures r.Some? ==> exists k :: 0 <= k < |chats| && chats[k] == r.value
                          && forall i :: 0 <= i < k ==> chats[i].id != id
  {
    if chats == [] then None
    else
      assert Ids(chats)[0] == chats[0].id;
      if chats[0].id == id then Some(chats[0])
      else
        assert Ids(chats[1..]) == Ids(chats)[1..];
        var r := FindChat(chats[1..], id);
        if r.Some? then
          var k :| 0 <= k < |chats[1..]| && chats[1..][k] == r.value
                   && forall i :: 0 <= i < k ==> chats[1..][i].id != id;
          assert chats[k + 1] == r.value;
          r
        else r
  }

  /** The chat the component renders (`currentChat`): it always exists in a
      valid store, so `currentChat.messages` never reads `undefined`. */
  lemma CurrentChatExists(st: Store)
    requires Valid(st)
    ensures FindChat(st.chats, st.currentId).Some?
    ensures FindChat(st.chats, st.currentId).value.id == st.currentId
  {
  }

  /** The chat as `sendMessage` rewrites it: the user message appended and
      the title recomputed from it. */
  function WithUserMessage(c: Chat, msg: string): Chat
  {
    c.(messages := c.messages + [Message(User, msg)], title := Title(msg))
  }

  /** The chat as the reply handler rewrites it: the bot message appended. */
  function WithBotMessage(c: Chat, text: string): Chat
  {
    c.(messages := c.messages + [Message(Bot, text)])
  }

  /** The first `setChats` of `sendMessage`: every chat whose id is the
      current id gets the user message and a new title; the others, and the
      order of the list, stay as they were. */
  function AddUserMessage(st: Store, msg: string): (r: Store)
    ensures r.currentId == st.currentId
    ensures |r.chats| == |st.chats| && Ids(r.chats) == Ids(st.chats)
    ensures forall i :: 0 <= i < |st.chats| && st.chats[i].id != st.currentId ==> r.chats[i] == st.chats[i]
    ensures forall i :: 0 <= i < |st.chats| && st.chats[i].id == st.currentId ==>
              && r.chats[i].messages == st.chats[i].messages + [Message(User, msg)]
              && r.chats[i].title == Title(msg)
  {
    var chats := seq(|st.chats|, i requires 0 <= i < |st.chats| =>
      if st.chats[i].id == st.currentId then WithUserMessage(st.chats[i], msg) else st.chats[i]);
    Store(chats, st.currentId)
  }

  /** The second `setChats` of `sendMessage`: the reply goes to the chat
      `chatId` (the one current when the message was sent); no title changes,
      no other chat changes. */
  function AddBotMessage(st: Store, chatId: int, text: string): (r: Store)
    ensures r.currentId == st.currentId
    ensures |r.chats| == |st.chats| && Ids(r.chats) == Ids(st.chats)
    ensures forall i :: 0 <= i < |st.chats| ==> r.chats[i].title == st.chats[i].title
    ensures forall i :: 0 <= i < |st.chats| && st.chats[i].id != chatId ==> r.chats[i] == st.chats[i]
    ensures forall i :: 0 <= i < |st.chats| && st.chats[i].id == chatId ==>
              r.chats[i].messages == st.chats[i].messages + [Message(Bot, text)]
  {
    var chats := seq(|st.chats|, i requires 0 <= i < |st.chats| =>
      if st.chats[i].id == chatId then WithBotMessage(st.chats[i], text) else st.chats[i]);
    Store(chats, st.currentId)
  }

  /** In a valid store the user message lands in exactly one chat, the
      current one, as its last message. */
  lemma AddUserMessageTouchesOnlyCurrent(st: Store, msg: string)
    requires Valid(st)
    ensures Valid(AddUserMessage(st, msg))
    ensures exists k :: 0 <= k < |st.chats| && st.chats[k].id == st.currentId
              && AddUserMessage(st, msg).chats[k] == WithUserMessage(st.chats[k], msg)
              && (forall i :: 0 <= i < |st.chats| && i != k ==> AddUserMessage(st, msg).chats[i] == st.chats[i])
  {
  }

  /** In a valid store a reply for an existing chat lands in exactly that
      chat, as its last message. */
  lemma AddBotMessageTouchesOnlyTarget(st: Store, chatId: int, text: string)
    requires Valid(st)
    requires chatId in Ids(st.chats)
    ensures Valid(AddBotMessage(st, chatId, text))
    ensures exists k :: 0 <= k < |st.chats| && st.chats[k].id == chatId
              && AddBotMessage(st, chatId, text).chats[k] == WithBotMessage(st.chats[k], text)
              && (forall i :: 0 <= i < |st.chats| && i != k ==> AddBotMessage(st, chatId, text).chats[i] == st.chats[i])
  {
  }
}
