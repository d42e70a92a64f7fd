/** The Message schema: its fields, defaults and bounds, and the
    pre-validate hook that makes a message go either to one recipient or to
    one group. */
module MessageModel {
  import opened Common
  import opened Text

  const MaxContentLength: nat := 1000

  datatype MessageType = TextMessage | ImageMessage | FileMessage

  /** The `enum` check on `messageType`. */
  function ParseMessageType(s: string): (r: Option<MessageType>)
    ensures r.Some? <==> s == "text" || s == "image" || s == "file"
    ensures s == "text" ==> r == Some(TextMessage)
  {
    if s == "text" then Some(TextMessage)
    else if s == "image" then Some(ImageMessage)
    else if s == "file" then Some(FileMessage)
    else None
  }

  /** A stored message. `recipient` and `group` are the two optional
      references; `readAt` stays unset until the message is read. */
  datatype Message = Message(
    id: Id,
    sender: Id,
    recipient: Option<Id>,
    group: Option<Id>,
    content: string,
    messageType: MessageType,
    read: bool,
    readAt: Option<Time>,
    createdAt: Time)

  /** The fields handed to `new Message({...})`; `None` is a field left
      `undefined` or set to `null`. */
  datatype MessageDraft = MessageDraft(
    sender: Option<Id>,
    recipient: Option<Id>,
    group: Option<Id>,
    content: Option<string>,
    messageType: Option<string>)

  datatype ValidationError =
    | BothRecipientAndGroup
    | NeitherRecipientNorGroup
    | SenderRequired
    | ContentRequired
    | ContentTooLong
    | InvalidMessageType

  /** The pre-validate hook. */
  function CheckTarget(recipient: Option<Id>, group: Option<Id>): (r: Option<ValidationError>)
    ensures r.None? <==> recipient.Some? != group.Some?
    ensures r == Some(BothRecipientAndGroup) <==> recipient.Some? && group.Some?
    ensures r == Some(NeitherRecipientNorGroup) <==> recipient.None? && group.None?
  {
    if recipient.Some? && group.Some? then Some(BothRecipientAndGroup)
    else if recipient.None? && group.None? then Some(NeitherRecipientNorGroup)
    else None
  }

  /** What every stored message satisfies. */
  predicate ValidMessage(m: Message) {
    && (m.recipient.Some? != m.group.Some?)
    && Trimmed(m.content)
    && 0 < |m.content| && Utf16Length(m.content) <= MaxContentLength
  }

  /** `new Message(draft)` followed by `save()`: the content is trimmed and
      the defaults applied when the document is built; then the hook runs,
      and then the path validators (`required`, `maxlength`, `enum`), of
      which the first to fail in declaration order is reported. */
  function NewMessage(id: Id, draft: MessageDraft, now: Time): (r: Checked<Message, ValidationError>)
    ensures r.Saved? <==>
      && draft.recipient.Some? != draft.group.Some?
      && draft.sender.Some?
      && draft.content.Some? && 0 < |Trim(draft.content.value)| && Utf16Length(Trim(draft.content.value)) <= MaxContentLength
      && (draft.messageType.None? || ParseMessageType(draft.messageType.value).Some?)
    ensures draft.recipient.Some? && draft.group.Some? ==> r == Invalid(BothRecipientAndGroup)
    ensures draft.recipient.None? && draft.group.None? ==> r == Invalid(NeitherRecipientNorGroup)
    ensures r.Saved? ==> ValidMessage(r.record)
    ensures r.Saved? ==>
      && r.record.id == id
      && r.record.sender == draft.sender.value
      && r.record.recipient == draft.recipient
      && r.record.group == draft.group
      && r.record.content == Trim(draft.content.value)
      && r.record.messageType == (if draft.messageType.None? then TextMessage
                                  else ParseMessageType(draft.messageType.value).value)
      && !r.record.read
      && r.record.readAt.None?
      && r.record.createdAt == now
  {
    var content := if draft.content.Some? then Trim(draft.content.value) else "";
    var kind := if draft.messageType.Some? then ParseMessageType(draft.messageType.value) else Some(TextMessage);
    match CheckTarget(draft.recipient, draft.group)
    case Some(e) => Invalid(e)
    case None =>
      if draft.sender.None? then Invalid(SenderRequired)
      else if |content| == 0 then Invalid(ContentRequired)
      else if Utf16Length(content) > MaxContentLength then Invalid(ContentTooLong)
      else if kind.None? then Invalid(InvalidMessageType)
      else
        Saved(Message(id, draft.sender.value, draft.recipient, draft.group,
                         content, kind.value, false, None, now))
  }

  /** For a draft that names its sender, its target and a type, saving
      depends only on the trimmed content and the type. */
  lemma NewMessageSavedWhen(id: Id, draft: MessageDraft, now: Time)
    requires draft.sender.Some? && draft.content.Some? && draft.messageType.Some?
    requires draft.recipient.Some? != draft.group.Some?
    ensures NewMessage(id, draft, now).Saved? <==>
      && 0 < |Trim(draft.content.value)| && Utf16Length(Trim(draft.content.value)) <= MaxContentLength
      && ParseMessageType(draft.messageType.value).Some?
  {
  }
}
