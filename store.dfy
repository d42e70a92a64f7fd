/** The document store the route handlers work on: one collection per model,
    each a sequence of records in insertion order (Mongo's natural order),
    and a counter that hands out fresh record identities. */
module Db {
  import opened Common
  import opened Lists
  import opened UserModel
  import opened PostModel
  import opened MessageModel
  import opened ConversationModel

  /** A group: its trimmed name, its member ids and its creator. */
  datatype Group = Group(id: Id, name: string, members: seq<Id>, creator: Id, createdAt: Time)

  datatype MediaType = Image | Video

  /** A story: its media, an optional caption, the instant it expires and
      the ids of the users who have viewed it. */
  datatype Story = Story(
    id: Id,
    author: Id,
    mediaUrl: string,
    mediaType: MediaType,
    caption: string,
    expiresAt: Time,
    views: seq<Id>,
    createdAt: Time)

  /** A notification addressed to `recipient`; `readAt` stays unset until it
      is read. */
  datatype Notification = Notification(
    id: Id,
    recipient: Id,
    sender: Id,
    post: Option<Id>,
    read: bool,
    readAt: Option<Time>,
    createdAt: Time)

  function UserId(u: User): Id { u.id }
  function PostId(p: Post): Id { p.id }
  function ConversationId(c: Conversation): Id { c.id }
  function MessageId(m: Message): Id { m.id }
  function GroupId(g: Group): Id { g.id }
  function StoryId(s: Story): Id { s.id }
  function NotificationId(n: Notification): Id { n.id }

  /** Identities are unique in a collection and were all handed out before
      `bound`. */
  predicate IdsOk<T>(xs: seq<T>, idOf: T -> Id, bound: Id) {
    UniqueIds(xs, idOf) && IdsBelow(xs, idOf, bound)
  }

  /** Every stored user passed the User schema, and the unique indexes hold. */
  predicate UsersOk(users: seq<User>, bound: Id) {
    && IdsOk(users, UserId, bound)
    && (forall i :: 0 <= i < |users| ==> ValidUser(users[i]))
    && UniqueHandles(users)
  }

  predicate PostsOk(posts: seq<Post>, bound: Id) {
    && IdsOk(posts, PostId, bound)
    && (forall i :: 0 <= i < |posts| ==> ValidPost(posts[i]))
  }

  predicate MessagesOk(messages: seq<Message>, bound: Id) {
    && IdsOk(messages, MessageId, bound)
    && (forall i :: 0 <= i < |messages| ==> ValidMessage(messages[i]))
  }

  /** Every stored conversation passed its hook, and its `lastMessage`, when
      set, is a stored message. */
  predicate ConversationsOk(conversations: seq<Conversation>, messages: seq<Message>, bound: Id) {
    && IdsOk(conversations, ConversationId, bound)
    && (forall i :: 0 <= i < |conversations| ==> ValidConversation(conversations[i]))
    && (forall i :: 0 <= i < |conversations| && conversations[i].lastMessage.Some? ==>
          Find(messages, MessageId, conversations[i].lastMessage.value).Some?)
  }

  /** Replacing a stored user by a valid record with the same id, handle and
      e-mail keeps the users collection well-formed. */
  lemma UsersOkUpdate(users: seq<User>, k: nat, u: User, bound: Id)
    requires UsersOk(users, bound) && k < |users| && ValidUser(u)
    requires u.id == users[k].id && u.username == users[k].username && u.email == users[k].email
    ensures UsersOk(users[k := u], bound)
  {
    var r := users[k := u];
    forall i | 0 <= i < |r|
      ensures UserId(r[i]) == UserId(users[i]) && ValidUser(r[i])
      ensures r[i].username == users[i].username && r[i].email == users[i].email
    {
    }
    assert IdsOk(r, UserId, bound) by {
      forall i, j | 0 <= i < j < |r| ensures UserId(r[i]) != UserId(r[j]) {
        assert UserId(users[i]) != UserId(users[j]);
      }
    }
    assert UniqueHandles(r) by {
      forall i, j | 0 <= i < j < |r|
        ensures r[i].username != r[j].username && r[i].email != r[j].email
      {
        assert users[i].username != users[j].username && users[i].email != users[j].email;
      }
    }
  }

  /** Replacing a post by a valid one with the same id keeps the posts
      collection well-formed. */
  lemma PostsOkUpdate(posts: seq<Post>, k: nat, p: Post, bound: Id)
    requires PostsOk(posts, bound) && k < |posts| && ValidPost(p) && p.id == posts[k].id
    ensures PostsOk(posts[k := p], bound)
  {
    var r := posts[k := p];
    assert forall i :: 0 <= i < |r| ==> PostId(r[i]) == PostId(posts[i]);
  }

  /** Appending a valid post under the next fresh id keeps the posts
      collection well-formed, for the bound one higher. */
  lemma PostsOkAppend(posts: seq<Post>, p: Post, bound: Id)
    requires PostsOk(posts, bound) && ValidPost(p) && p.id == bound
    ensures PostsOk(posts + [p], bound + 1)
  {
    AppendFresh(posts, PostId, p, bound);
  }

  /** Replacing a record by one with the same id keeps identities unique
      and below the bound. */
  lemma IdsOkUpdate<T>(xs: seq<T>, idOf: T -> Id, k: nat, x: T, bound: Id)
    requires IdsOk(xs, idOf, bound) && k < |xs| && idOf(x) == idOf(xs[k])
    ensures IdsOk(xs[k := x], idOf, bound)
  {
    var r := xs[k := x];
    assert forall i :: 0 <= i < |r| ==> idOf(r[i]) == idOf(xs[i]);
  }

  /** Appending a valid message under the next fresh id keeps the messages
      well-formed, and every conversation's `lastMessage` still found. */
  lemma MessagesOkAppend(conversations: seq<Conversation>, messages: seq<Message>, m: Message, bound: Id)
    requires MessagesOk(messages, bound) && ConversationsOk(conversations, messages, bound)
    requires ValidMessage(m) && m.id == bound
    ensures MessagesOk(messages + [m], bound + 1)
    ensures ConversationsOk(conversations, messages + [m], bound + 1)
  {
    AppendFresh(messages, MessageId, m, bound);
    forall i | 0 <= i < |conversations| && conversations[i].lastMessage.Some?
      ensures Find(messages + [m], MessageId, conversations[i].lastMessage.value).Some?
    {
      FindAppend(messages, MessageId, m, conversations[i].lastMessage.value);
    }
  }

  /** Appending a new conversation, with no last message yet, under the next
      fresh id keeps the conversations well-formed. */
  lemma ConversationsOkAppend(conversations: seq<Conversation>, messages: seq<Message>, c: Conversation, bound: Id)
    requires ConversationsOk(conversations, messages, bound) && MessagesOk(messages, bound)
    requires ValidConversation(c) && c.lastMessage.None? && c.id == bound
    ensures ConversationsOk(conversations + [c], messages, bound + 1) && MessagesOk(messages, bound + 1)
  {
    AppendFresh(conversations, ConversationId, c, bound);
  }

  /** Replacing a conversation by a valid one with the same id, whose last
      message is stored, keeps the conversations well-formed. */
  lemma ConversationsOkUpdate(conversations: seq<Conversation>, messages: seq<Message>, k: nat, c: Conversation, bound: Id)
    requires ConversationsOk(conversations, messages, bound) && k < |conversations|
    requires ValidConversation(c) && c.id == conversations[k].id
    requires c.lastMessage.Some? ==> Find(messages, MessageId, c.lastMessage.value).Some?
    ensures ConversationsOk(conversations[k := c], messages, bound)
  {
    IdsOkUpdate(conversations, ConversationId, k, c, bound);
  }

  class Store {
    var users: seq<User>
    var posts: seq<Post>
    var conversations: seq<Conversation>
    var messages: seq<Message>
    var groups: seq<Group>
    var stories: seq<Story>
    var notifications: seq<Notification>
    var nextId: Id

    /** What every record in the store satisfies: it passed its schema when
        saved, and identities are unique and fresh ones lie above all of
        them. */
    ghost predicate Valid()
      reads this
    {
      && UsersOk(users, nextId)
      && PostsOk(posts, nextId)
      && MessagesOk(messages, nextId)
      && ConversationsOk(conversations, messages, nextId)
      && IdsOk(groups, GroupId, nextId)
      && IdsOk(stories, StoryId, nextId)
      && IdsOk(notifications, NotificationId, nextId)
    }

    /** An empty store. */
    constructor ()
      ensures Valid()
      ensures users == [] && posts == [] && conversations == [] && messages == []
      ensures groups == [] && stories == [] && notifications == [] && nextId == 0
    {
      users := [];
      posts := [];
      conversations := [];
      messages := [];
      groups := [];
      stories := [];
      notifications := [];
      nextId := 0;
    }

    /** A fresh identity, above every identity in the store. */
    method NewId() returns (id: Id)
      requires Valid()
      modifies this`nextId
      ensures Valid()
      ensures id == old(nextId) && nextId == old(nextId) + 1
    {
      id := nextId;
      nextId := nextId + 1;
    }

    /** `save()` of a new valid post that was given the next fresh id. */
    method InsertPost(p: Post)
      requires Valid() && ValidPost(p) && p.id == nextId
      modifies this`posts, this`nextId
      ensures Valid()
      ensures posts == old(posts) + [p] && nextId == old(nextId) + 1
    {
      PostsOkAppend(posts, p, nextId);
      posts := posts + [p];
      nextId := nextId + 1;
    }

    /** `save()` of a new valid message that was given the next fresh id. */
    method InsertMessage(m: Message)
      requires Valid() && ValidMessage(m) && m.id == nextId
      modifies this`messages, this`nextId
      ensures Valid()
      ensures messages == old(messages) + [m] && nextId == old(nextId) + 1
    {
      MessagesOkAppend(conversations, messages, m, nextId);
      messages := messages + [m];
      nextId := nextId + 1;
    }

    /** `save()` of a new group that was given the next fresh id. */
    method InsertGroup(g: Group)
      requires Valid() && g.id == nextId
      modifies this`groups, this`nextId
      ensures Valid()
      ensures groups == old(groups) + [g] && nextId == old(nextId) + 1
    {
      AppendFresh(groups, GroupId, g, nextId);
      groups := groups + [g];
      nextId := nextId + 1;
    }

    /** `save()` of a loaded conversation: the record keeps its id, passes
        the hook, and its last message, when set, is stored. */
    method UpdateConversation(k: nat, c: Conversation)
      requires Valid() && k < |conversations|
      requires ValidConversation(c) && c.id == conversations[k].id
      requires c.lastMessage.Some? ==> Find(messages, MessageId, c.lastMessage.value).Some?
      modifies this`conversations
      ensures Valid()
      ensures conversations == old(conversations)[k := c]
    {
      ConversationsOkUpdate(conversations, messages, k, c, nextId);
      conversations := conversations[k := c];
    }

    /** `save()` of a new valid conversation that was given the next fresh
        id. */
    method InsertConversation(c: Conversation)
      requires Valid() && ValidConversation(c) && c.lastMessage.None? && c.id == nextId
      modifies this`conversations, this`nextId
      ensures Valid()
      ensures conversations == old(conversations) + [c] && nextId == old(nextId) + 1
    {
      ConversationsOkAppend(conversations, messages, c, nextId);
      conversations := conversations + [c];
      nextId := nextId + 1;
    }
  }
}
