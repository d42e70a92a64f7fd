/** The conversation routes: listing a user's conversations, opening a
    private or a group conversation, fetching a conversation's messages and
    sending a message into it. The clock reading `now` is a parameter. */
module ConversationsRoutes {
  import opened Common
  import opened Text
  import opened Lists
  import opened MessageModel
  import opened ConversationModel
  import opened Db

  function UpdatedAt(c: Conversation): int { c.updatedAt }

  predicate TakesPart(c: Conversation, userId: Id) {
    userId in c.participants
  }

  /** `GET /conversations`: the conversations the user takes part in, most
      recently updated first. */
  function ListConversations(conversations: seq<Conversation>, userId: Id): (r: seq<Conversation>)
    ensures SortedDesc(r, UpdatedAt)
    ensures forall c :: c in r <==> c in conversations && TakesPart(c, userId)
    ensures forall c :: c in r ==> multiset(r)[c] == multiset(conversations)[c]
  {
    SortedFilter(conversations, (c: Conversation) => TakesPart(c, userId), UpdatedAt)
  }

  /** The body of `POST /conversations`. `participants` is `None` when it is
      missing or not an array; `isGroup` is the truthiness of the field. */
  datatype ConversationRequest = ConversationRequest(
    participants: Option<seq<Id>>,
    groupName: Option<string>,
    isGroup: bool)

  /** The two checks of a group request: a non-blank name and at least two
      participants. */
  predicate GroupRequestOk(req: ConversationRequest) {
    && req.groupName.Some? && !IsBlank(req.groupName.value)
    && req.participants.Some? && |req.participants.value| >= 2
  }

  /** The check of a private request: exactly one other participant. */
  predicate PrivateRequestOk(req: ConversationRequest) {
    req.participants.Some? && |req.participants.value| == 1
  }

  /** What the handler answers with: a conversation it created, or the
      private conversation that already existed. */
  datatype Opened = Created(conversation: Conversation) | Existing(conversation: Conversation)

  /** The `findOne` query for an existing private chat:
      `{ isGroup: false, participants: { $all: [userId, other], $size: 2 } }`. */
  predicate PrivateChatWith(c: Conversation, userId: Id, other: Id) {
    !c.isGroup && |c.participants| == 2 && userId in c.participants && other in c.participants
  }

  /** Position of the first stored private chat matching the query. */
  function ExistingChat(conversations: seq<Conversation>, userId: Id, other: Id): (r: Option<nat>)
    ensures r.Some? ==> r.value < |conversations| && PrivateChatWith(conversations[r.value], userId, other)
    ensures r.None? <==> forall k :: 0 <= k < |conversations| ==> !PrivateChatWith(conversations[k], userId, other)
  {
    FindFirst(conversations, (c: Conversation) => PrivateChatWith(c, userId, other))
  }

  /** The query does not depend on who asks: the chat A finds with B is the
      chat B finds with A. */
  lemma ExistingChatSymmetric(conversations: seq<Conversation>, a: Id, b: Id)
    ensures ExistingChat(conversations, a, b) == ExistingChat(conversations, b, a)
  {
    FindFirstSame(conversations, (c: Conversation) => PrivateChatWith(c, a, b), (c: Conversation) => PrivateChatWith(c, b, a));
  }

  /** Once A has opened a new chat with B, B asking for a chat with A finds
      that very conversation. */
  lemma NewChatFoundByOtherSide(conversations: seq<Conversation>, a: Id, b: Id, id: Id, now: Time)
    requires ExistingChat(conversations, a, b).None?
    ensures var c := Conversation(id, [a, b], false, None, None, now, now);
      ExistingChat(conversations + [c], b, a) == Some(|conversations|)
  {
    var c := Conversation(id, [a, b], false, None, None, now, now);
    var all := conversations + [c];
    ExistingChatSymmetric(conversations, a, b);
    assert forall k :: 0 <= k < |conversations| ==> all[k] == conversations[k];
    assert PrivateChatWith(all[|conversations|], b, a);
  }

  /** A request to chat with oneself asks for `$all: [u, u]`, which any
      private chat of `u` satisfies: it is answered with u's chat with
      someone else. */
  lemma SelfChatFindsAnyChat(conversations: seq<Conversation>, u: Id, k: nat)
    requires k < |conversations| && !conversations[k].isGroup && |conversations[k].participants| == 2
    requires u in conversations[k].participants
    ensures ExistingChat(conversations, u, u).Some?
    ensures ExistingChat(conversations, u, u).value <= k
  {
    assert PrivateChatWith(conversations[k], u, u);
  }

  /** `POST /conversations`. A group request needs a non-blank name and at
      least two participants; the creator is added to the participants when
      absent, a group is stored under a fresh id and then a group
      conversation referencing it. A private request needs exactly one
      participant; an existing private chat between the two is answered as
      is, otherwise a new one is stored. Every failed check is a 400. */
  method CreateConversation(db: Store, userId: Id, req: ConversationRequest, now: Time) returns (r: Result<Opened>)
    requires db.Valid()
    modifies db`groups, db`conversations, db`nextId
    ensures db.Valid()
    ensures r.Err? <==> (if req.isGroup then !GroupRequestOk(req) else !PrivateRequestOk(req))
    ensures r.Err? ==>
      && r.error == BadRequest
      && db.groups == old(db.groups) && db.conversations == old(db.conversations) && db.nextId == old(db.nextId)
    ensures r.Ok? && req.isGroup ==>
      var members := AddToSet(req.participants.value, userId);
      var gid := old(db.nextId);
      && db.groups == old(db.groups) + [Group(gid, Trim(req.groupName.value), members, userId, now)]
      && r == Ok(Created(Conversation(gid + 1, members, true, Some(gid), None, now, now)))
      && db.conversations == old(db.conversations) + [r.value.conversation]
      && db.nextId == gid + 2
    ensures r.Ok? && !req.isGroup ==>
      var found := ExistingChat(old(db.conversations), userId, req.participants.value[0]);
      && db.groups == old(db.groups)
      && (found.Some? ==>
            r == Ok(Existing(old(db.conversations)[found.value]))
            && db.conversations == old(db.conversations) && db.nextId == old(db.nextId))
      && (found.None? ==>
            r == Ok(Created(Conversation(old(db.nextId), [userId, req.participants.value[0]], false, None, None, now, now)))
            && db.conversations == old(db.conversations) + [r.value.conversation]
            && db.nextId == old(db.nextId) + 1)
  {
    if req.isGroup {
      if !GroupRequestOk(req) {
        return Err(BadRequest);
      }
      var c := StartGroupConversation(db, userId, req.groupName.value, req.participants.value, now);
      r := Ok(Created(c));
    } else {
      if !PrivateRequestOk(req) {
        return Err(BadRequest);
      }
      var answer := OpenPrivateChat(db, userId, req.participants.value[0], now);
      r := Ok(answer);
    }
  }

  /** The group branch once its checks pass: the creator joins the
      participants when absent, the group is stored, and then the group
      conversation referencing it. */
  method StartGroupConversation(db: Store, userId: Id, name: string, participants: seq<Id>, now: Time)
    returns (c: Conversation)
    requires db.Valid()
    modifies db`groups, db`conversations, db`nextId
    ensures db.Valid()
    ensures var members := AddToSet(participants, userId);
      var gid := old(db.nextId);
      && db.groups == old(db.groups) + [Group(gid, Trim(name), members, userId, now)]
      && c == Conversation(gid + 1, members, true, Some(gid), None, now, now)
      && db.conversations == old(db.conversations) + [c]
      && db.nextId == gid + 2
  {
    var members := AddToSet(participants, userId);
    var group := Group(db.nextId, Trim(name), members, userId, now);
    db.InsertGroup(group);
    var checked := NewConversation(db.nextId, ConversationDraft(members, Some(true), Some(group.id)), now);
    assert checked == Saved(Conversation(group.id + 1, members, true, Some(group.id), None, now, now));
    c := checked.record;
    ghost var groups := db.groups;
    db.InsertConversation(c);
    assert db.groups == groups == old(db.groups) + [group];
  }

  /** The private branch once its check passes: the first private chat
      matching the query is answered as is; otherwise a new chat between
      the two is stored. */
  method OpenPrivateChat(db: Store, userId: Id, other: Id, now: Time) returns (r: Opened)
    requires db.Valid()
    modifies db`conversations, db`nextId
    ensures db.Valid()
    ensures var found := ExistingChat(old(db.conversations), userId, other);
      && (found.Some? ==>
            r == Existing(old(db.conversations)[found.value])
            && db.conversations == old(db.conversations) && db.nextId == old(db.nextId))
      && (found.None? ==>
            r == Created(Conversation(old(db.nextId), [userId, other], false, None, None, now, now))
            && db.conversations == old(db.conversations) + [r.conversation]
            && db.nextId == old(db.nextId) + 1)
  {
    var found := ExistingChat(db.conversations, userId, other);
    if found.Some? {
      return Existing(db.conversations[found.value]);
    }
    var checked := NewConversation(db.nextId, ConversationDraft([userId, other], None, None), now);
    var c := checked.record;
    db.InsertConversation(c);
    r := Created(c);
  }

  /** The look-up both message routes begin with: the conversation must
      exist (404) and the user must take part in it (403). */
  function Lookup(conversations: seq<Conversation>, convId: Id, userId: Id): (r: Result<Conversation>)
    ensures Find(conversations, ConversationId, convId).None? ==> r == Err(NotFound)
    ensures (Find(conversations, ConversationId, convId).Some? &&
             userId !in conversations[Find(conversations, ConversationId, convId).value].participants) ==> r == Err(Forbidden)
    ensures r.Ok? <==> Find(conversations, ConversationId, convId).Some?
                       && userId in conversations[Find(conversations, ConversationId, convId).value].participants
    ensures r.Err? ==> r.error == NotFound || r.error == Forbidden
    ensures r.Ok? ==> r.value == conversations[Find(conversations, ConversationId, convId).value]
    ensures r.Ok? ==> r.value.id == convId && userId in r.value.participants
  {
    match Find(conversations, ConversationId, convId)
    case None => Err(NotFound)
    case Some(k) => if userId in conversations[k].participants then Ok(conversations[k]) else Err(Forbidden)
  }

  /** The messages in order of creation, oldest first (`sort({ createdAt: 1 })`). */
  predicate OldestFirst(ms: seq<Message>) {
    forall i, j :: 0 <= i < j < |ms| ==> ms[i].createdAt <= ms[j].createdAt
  }

  function Age(m: Message): int { -m.createdAt }

  /** The messages matching a filter, oldest first. */
  function SortedMatches(messages: seq<Message>, matches: Message -> bool): (r: seq<Message>)
    ensures OldestFirst(r)
    ensures forall m :: m in r <==> m in messages && matches(m)
    ensures forall m :: m in r ==> multiset(r)[m] == multiset(messages)[m]
  {
    SortedFilter(messages, matches, Age)
  }

  /** The filter `$or: [{ recipient: conversationId }, { group:
      conversation.group }]` as written. A private conversation has no
      group, and the clause `{ group: undefined }` is sent as `{ group: null }`,
      which every message without a group matches. */
  predicate MatchesAsWritten(m: Message, c: Conversation) {
    m.recipient == Some(c.id) || m.group == c.group
  }

  /** `GET /conversations/:id/messages`, as written. */
  function FetchMessages(conversations: seq<Conversation>, messages: seq<Message>, convId: Id, userId: Id)
    : (r: Result<seq<Message>>)
    ensures r.Err? <==> Lookup(conversations, convId, userId).Err?
    ensures r.Err? ==> r.error == Lookup(conversations, convId, userId).error
    ensures r.Ok? ==> OldestFirst(r.value)
    ensures r.Ok? ==> forall m :: m in r.value <==>
      m in messages && MatchesAsWritten(m, Lookup(conversations, convId, userId).value)
    ensures r.Ok? ==> forall m :: m in r.value ==> multiset(r.value)[m] == multiset(messages)[m]
  {
    match Lookup(conversations, convId, userId)
    case Err(e) => Err(e)
    case Ok(c) => Ok(SortedMatches(messages, (m: Message) => MatchesAsWritten(m, c)))
  }

  /** As written, a participant of a private conversation receives every
      message that has no group, whichever conversation it was sent in. */
  lemma FetchReturnsAllPrivateMessages(conversations: seq<Conversation>, messages: seq<Message>, convId: Id, userId: Id, m: Message)
    requires Lookup(conversations, convId, userId).Ok?
    requires !Lookup(conversations, convId, userId).value.isGroup && ValidConversation(Lookup(conversations, convId, userId).value)
    requires m in messages && m.group.None?
    ensures m in FetchMessages(conversations, messages, convId, userId).value
  {
  }

  /** A concrete instance: user 1 fetches their chat 0 with user 2 and
      receives the message user 3 sent to user 4 in chat 1. */
  lemma FetchLeaksOtherChat()
    ensures var chats := [Conversation(0, [1, 2], false, None, None, 0, 0),
                          Conversation(1, [3, 4], false, None, None, 0, 0)];
            var sent := Message(5, 3, Some(1), None, "hi", TextMessage, false, None, 0);
      FetchMessages(chats, [sent], 0, 1) == Ok([sent])
  {
    var chats := [Conversation(0, [1, 2], false, None, None, 0, 0),
                  Conversation(1, [3, 4], false, None, None, 0, 0)];
    var sent := Message(5, 3, Some(1), None, "hi", TextMessage, false, None, 0);
    assert Find(chats, ConversationId, 0) == Some(0);
    var r := FetchMessages(chats, [sent], 0, 1).value;
    assert sent in r;
    assert multiset(r)[sent] == 1;
    assert |r| == 1 by {
      assert |r| <= 1 by {
        assert |Filter([sent], (m: Message) => MatchesAsWritten(m, chats[0]))| <= 1;
      }
    }
  }

  /** The evidently intended filter: the messages sent into this
      conversation, by its id for a private one and by its group for a
      group one. */
  predicate InConversation(m: Message, c: Conversation) {
    m.recipient == Some(c.id) || (c.group.Some? && m.group == c.group)
  }

  /** `GET /conversations/:id/messages` with the intended filter. */
  function FetchMessagesIntended(conversations: seq<Conversation>, messages: seq<Message>, convId: Id, userId: Id)
    : (r: Result<seq<Message>>)
    ensures r.Err? <==> Lookup(conversations, convId, userId).Err?
    ensures r.Err? ==> r.error == Lookup(conversations, convId, userId).error
    ensures r.Ok? ==> OldestFirst(r.value)
    ensures r.Ok? ==> forall m :: m in r.value <==>
      m in messages && InConversation(m, Lookup(conversations, convId, userId).value)
    ensures r.Ok? ==> forall m :: m in r.value ==> multiset(r.value)[m] == multiset(messages)[m]
  {
    match Lookup(conversations, convId, userId)
    case Err(e) => Err(e)
    case Ok(c) => Ok(SortedMatches(messages, (m: Message) => InConversation(m, c)))
  }

  /** The `new Message({...})` of the send handler for conversation `c`:
      the trimmed content, `messageType || 'text'`, and the conversation's id
      as recipient of a private message or its group as the group of a
      group message. */
  function DraftFor(c: Conversation, userId: Id, content: string, messageType: Option<string>): MessageDraft {
    MessageDraft(
      Some(userId),
      if c.isGroup then None else Some(c.id),
      if c.isGroup then c.group else None,
      Some(Trim(content)),
      Some(if messageType.None? || messageType.value == "" then "text" else messageType.value))
  }

  /** The message sent into `c`, as saved by the Message schema. */
  function MessageFor(id: Id, c: Conversation, userId: Id, content: string, messageType: Option<string>, now: Time)
    : Checked<Message, MessageModel.ValidationError>
  {
    NewMessage(id, DraftFor(c, userId, content, messageType), now)
  }

  /** A message with non-blank content sent into a well-formed conversation
      is saved exactly when its content fits and its type is known, with
      the sender, the trimmed content and the time of sending. */
  lemma MessageForSaved(id: Id, c: Conversation, userId: Id, content: string, messageType: Option<string>, now: Time)
    requires ValidConversation(c) && !IsBlank(content)
    ensures var r := MessageFor(id, c, userId, content, messageType, now);
      && (r.Saved? <==> Utf16Length(Trim(content)) <= MaxContentLength
                        && (messageType.None? || messageType.value == "" || ParseMessageType(messageType.value).Some?))
      && (r.Saved? ==> r.record.sender == userId && r.record.content == Trim(content) && r.record.createdAt == now)
  {
    var draft := DraftFor(c, userId, content, messageType);
    TrimIdempotent(content);
    NewMessageSavedWhen(id, draft, now);
  }

  /** A saved message sent into a well-formed conversation belongs to that
      conversation under the intended filter, and to no other conversation
      (distinct ids, and distinct groups for two group conversations). */
  lemma MessageForBelongs(id: Id, c: Conversation, d: Conversation, userId: Id, content: string, messageType: Option<string>, now: Time)
    requires ValidConversation(c) && ValidConversation(d)
    requires d.id != c.id && (c.isGroup && d.isGroup ==> d.group != c.group)
    ensures var r := MessageFor(id, c, userId, content, messageType, now);
      r.Saved? ==> InConversation(r.record, c) && !InConversation(r.record, d)
  {
    var r := MessageFor(id, c, userId, content, messageType, now);
    if r.Saved? {
      TargetBelongs(r.record, c, d);
    }
  }

  /** A message addressed as `DraftFor` addresses it matches `c` under the
      intended filter and no other conversation. */
  lemma TargetBelongs(m: Message, c: Conversation, d: Conversation)
    requires ValidConversation(c) && ValidConversation(d)
    requires d.id != c.id && (c.isGroup && d.isGroup ==> d.group != c.group)
    requires m.recipient == (if c.isGroup then None else Some(c.id))
    requires m.group == (if c.isGroup then c.group else None)
    ensures InConversation(m, c) && !InConversation(m, d)
  {
  }

  /** As written, a private message is also matched by every other private
      conversation. */
  lemma MessageForMatchesOtherChats(id: Id, c: Conversation, d: Conversation, userId: Id, content: string, messageType: Option<string>, now: Time)
    requires ValidConversation(c) && ValidConversation(d) && !c.isGroup && !d.isGroup
    requires MessageFor(id, c, userId, content, messageType, now).Saved?
    ensures MatchesAsWritten(MessageFor(id, c, userId, content, messageType, now).record, d)
  {
  }

  /** `POST /conversations/:id/messages`. Missing or blank content is a 400;
      then the conversation look-up; a message the schema refuses (too long,
      unknown type) is a 500. Otherwise the message is stored under a fresh
      id, and the conversation records it as its last message and moves its
      `updatedAt` to now. */
  method SendMessage(db: Store, convId: Id, userId: Id, content: Option<string>, messageType: Option<string>, now: Time)
    returns (r: Result<Message>)
    requires db.Valid()
    modifies db`messages, db`conversations, db`nextId
    ensures db.Valid()
    ensures content.None? || IsBlank(content.value) ==> r == Err(BadRequest)
    ensures content.Some? && !IsBlank(content.value) && Lookup(old(db.conversations), convId, userId).Err? ==>
      r == Err(Lookup(old(db.conversations), convId, userId).error)
    ensures content.Some? && !IsBlank(content.value) && Lookup(old(db.conversations), convId, userId).Ok? ==>
      var sent := MessageFor(old(db.nextId), Lookup(old(db.conversations), convId, userId).value,
                             userId, content.value, messageType, now);
      && (sent.Invalid? ==> r == Err(ServerError))
      && (sent.Saved? ==> r == Ok(sent.record))
    ensures r.Err? ==>
      db.messages == old(db.messages) && db.conversations == old(db.conversations) && db.nextId == old(db.nextId)
    ensures r.Ok? ==>
      var k := Find(old(db.conversations), ConversationId, convId).value;
      && db.messages == old(db.messages) + [r.value]
      && db.conversations == old(db.conversations)[k := old(db.conversations)[k].(lastMessage := Some(r.value.id), updatedAt := now)]
      && db.nextId == old(db.nextId) + 1
  {
    if content.None? || IsBlank(content.value) {
      return Err(BadRequest);
    }
    var found := Lookup(db.conversations, convId, userId);
    if found.Err? {
      return Err(found.error);
    }
    var c := found.value;
    var sent := MessageFor(db.nextId, c, userId, content.value, messageType, now);
    if sent.Invalid? {
      return Err(ServerError);
    }
    var k := Find(db.conversations, ConversationId, convId).value;
    Deliver(db, k, sent.record, now);
    r := Ok(sent.record);
  }

  /** The two saves of a sent message: the message is stored, then
      conversation `k` records it as its last message and is saved, which
      moves its `updatedAt` to now. */
  method Deliver(db: Store, k: nat, m: Message, now: Time)
    requires db.Valid() && ValidMessage(m) && m.id == db.nextId
    requires k < |db.conversations| && ValidConversation(db.conversations[k])
    modifies db`messages, db`conversations, db`nextId
    ensures db.Valid()
    ensures db.messages == old(db.messages) + [m] && db.nextId == old(db.nextId) + 1
    ensures db.conversations ==
      old(db.conversations)[k := old(db.conversations)[k].(lastMessage := Some(m.id), updatedAt := now)]
  {
    var c := db.conversations[k];
    db.InsertMessage(m);
    var saved := SaveConversation(c.(lastMessage := Some(m.id)), now);
    assert db.messages[|db.messages| - 1] == m;
    db.UpdateConversation(k, saved.record);
  }
}
