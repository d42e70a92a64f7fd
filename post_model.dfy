/** The Post schema: record shape, defaults, the moderation status enum,
    embedded comments and the embedded poll. */
module PostModel {
  import opened Common
  import opened Text

  datatype ModerationStatus = Pending | Approved | Rejected

  datatype Comment = Comment(userId: Id, content: string, timestamp: Time)

  /** The fields of a comment as pushed onto `comments`. */
  datatype CommentDraft = CommentDraft(userId: Option<Id>, content: Option<string>, timestamp: Option<Time>)

  /** One poll choice: its text and the users who chose it. */
  datatype PollOption = PollOption(text: string, votes: seq<Id>)

  /** `expiresAt` is optional: a poll without it never expires. */
  datatype Poll = Poll(question: string, options: seq<PollOption>, expiresAt: Option<Time>)

  /** A stored post. `scheduledAt` is optional; `moderationReason` is unset
      until moderation gives one. */
  datatype Post = Post(
    id: Id,
    author: Id,
    content: string,
    mediaUrl: string,
    likes: seq<Id>,
    comments: seq<Comment>,
    hashtags: seq<string>,
    scheduledAt: Option<Time>,
    isPublished: bool,
    moderationStatus: ModerationStatus,
    moderationReason: Option<string>,
    poll: Option<Poll>,
    createdAt: Time)

  /** The fields the handlers hand to `new Post({...})`; `None` is a field
      left `undefined`. */
  datatype PostDraft = PostDraft(
    author: Id,
    content: string,
    mediaUrl: Option<string>,
    hashtags: seq<string>,
    scheduledAt: Option<Time>,
    isPublished: Option<bool>,
    poll: Option<Poll>)

  datatype ValidationError = CommentUserRequired | CommentContentRequired

  /** A comment as the embedded schema builds and validates it: `userId`
      and `content` are required, the content is trimmed, and the timestamp
      defaults to the time of creation. */
  function NewComment(draft: CommentDraft, now: Time): (r: Checked<Comment, ValidationError>)
    ensures r.Saved? <==> draft.userId.Some? && draft.content.Some? && !IsBlank(draft.content.value)
    ensures draft.userId.None? ==> r == Invalid(CommentUserRequired)
    ensures r.Saved? ==>
      && r.record.userId == draft.userId.value
      && r.record.content == Trim(draft.content.value) && |r.record.content| > 0
      && r.record.timestamp == (if draft.timestamp.None? then now else draft.timestamp.value)
  {
    if draft.userId.None? then Invalid(CommentUserRequired)
    else if draft.content.None? || IsBlank(draft.content.value) then Invalid(CommentContentRequired)
    else
      var timestamp := if draft.timestamp.Some? then draft.timestamp.value else now;
      Saved(Comment(draft.userId.value, Trim(draft.content.value), timestamp))
  }

  function TrimOption(o: PollOption): PollOption {
    o.(text := Trim(o.text))
  }

  /** The `trim` setters on `poll.question` and `poll.options[].text`. */
  function TrimPoll(p: Poll): (r: Poll)
    ensures r.question == Trim(p.question) && r.expiresAt == p.expiresAt
    ensures |r.options| == |p.options|
    ensures forall i :: 0 <= i < |p.options| ==>
      r.options[i].text == Trim(p.options[i].text) && r.options[i].votes == p.options[i].votes
  {
    var options := seq(|p.options|, i requires 0 <= i < |p.options| => TrimOption(p.options[i]));
    Poll(Trim(p.question), options, p.expiresAt)
  }

  /** `new Post(draft)`: the `trim` setters run on the content, the hashtags
      and the poll, and the schema defaults fill what the draft leaves out. */
  function BuildPost(id: Id, draft: PostDraft, now: Time): (p: Post)
    ensures p.content == Trim(draft.content)
    ensures p.mediaUrl == (if draft.mediaUrl.None? then "" else draft.mediaUrl.value)
    ensures p.isPublished == (draft.isPublished != Some(false))
    ensures p.moderationStatus == Pending && p.moderationReason.None?
    ensures p.likes == [] && p.comments == []
    ensures |p.hashtags| == |draft.hashtags|
    ensures forall i :: 0 <= i < |draft.hashtags| ==> p.hashtags[i] == Trim(draft.hashtags[i])
    ensures p.scheduledAt == draft.scheduledAt
    ensures p.poll == if draft.poll.None? then None else Some(TrimPoll(draft.poll.value))
    ensures p.id == id && p.author == draft.author && p.createdAt == now
  {
    Post(
      id, draft.author, Trim(draft.content),
      if draft.mediaUrl.Some? then draft.mediaUrl.value else "",
      [], [],
      seq(|draft.hashtags|, i requires 0 <= i < |draft.hashtags| => Trim(draft.hashtags[i])),
      draft.scheduledAt,
      if draft.isPublished.Some? then draft.isPublished.value else true,
      Pending, None,
      if draft.poll.Some? then Some(TrimPoll(draft.poll.value)) else None,
      now)
  }

  /** What `save()` accepts: the required, trimmed content is non-empty, and
      so is every comment's. */
  predicate ValidPost(p: Post) {
    && |p.content| > 0
    && forall i :: 0 <= i < |p.comments| ==> |p.comments[i].content| > 0
  }

  /** A freshly built post saves exactly when its content is not blank: a
      content of spaces only is trimmed to the empty string, which the
      `required` validator refuses. */
  lemma BuildPostSavesIffContent(id: Id, draft: PostDraft, now: Time)
    ensures ValidPost(BuildPost(id, draft, now)) <==> !IsBlank(draft.content)
  {
  }
}
