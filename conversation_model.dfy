/** The Conversation schema and its pre-validate hook: a conversation is a
    group conversation exactly when it references a group. */
module ConversationModel {
  import opened Common

  /** A stored conversation. `lastMessage` references a message, when set. */
  datatype Conversation = Conversation(
    id: Id,
    participants: seq<Id>,
    isGroup: bool,
    group: Option<Id>,
    lastMessage: Option<Id>,
    createdAt: Time,
    updatedAt: Time)

  /** The fields handed to `new Conversation({...})`. */
  datatype ConversationDraft = ConversationDraft(
    participants: seq<Id>,
    isGroup: Option<bool>,
    group: Option<Id>)

  datatype ValidationError = GroupRequired | GroupNotAllowed

  /** The pre-validate hook. */
  function CheckGroup(isGroup: bool, group: Option<Id>): (r: Option<ValidationError>)
    ensures r.None? <==> isGroup == group.Some?
    ensures r == Some(GroupRequired) <==> isGroup && group.None?
    ensures r == Some(GroupNotAllowed) <==> !isGroup && group.Some?
  {
    if isGroup && group.None? then Some(GroupRequired)
    else if !isGroup && group.Some? then Some(GroupNotAllowed)
    else None
  }

  predicate ValidConversation(c: Conversation) {
    c.isGroup == c.group.Some?
  }

  /** `new Conversation(draft)` followed by `save()`: `isGroup` defaults to
      false and `lastMessage` starts unset. */
  function NewConversation(id: Id, draft: ConversationDraft, now: Time): (r: Checked<Conversation, ValidationError>)
    ensures r.Saved? <==> (draft.isGroup == Some(true)) == draft.group.Some?
    ensures draft.isGroup.None? && draft.group.Some? ==> r == Invalid(GroupNotAllowed)
    ensures draft.isGroup == Some(true) && draft.group.None? ==> r == Invalid(GroupRequired)
    ensures r.Saved? ==> ValidConversation(r.record)
    ensures r.Saved? ==>
      r.record == Conversation(id, draft.participants, draft.group.Some?, draft.group, None, now, now)
  {
    var isGroup := draft.isGroup == Some(true);
    match CheckGroup(isGroup, draft.group)
    case Some(e) => Invalid(e)
    case None => Saved(Conversation(id, draft.participants, isGroup, draft.group, None, now, now))
  }

  /** `conversation.save()` on a loaded conversation: the hook runs again and
      the `updatedAt` timestamp moves to the time of the save. */
  function SaveConversation(c: Conversation, now: Time): (r: Checked<Conversation, ValidationError>)
    ensures r.Saved? <==> ValidConversation(c)
    ensures r.Saved? ==> r.record == c.(updatedAt := now)
  {
    match CheckGroup(c.isGroup, c.group)
    case Some(e) => Invalid(e)
    case None => Saved(c.(updatedAt := now))
  }
}
