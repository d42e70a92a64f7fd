/** The post routes: creating a post (hashtags, scheduling, moderation),
    creating a poll post, and voting on a poll. The clock reading `now` is a
    parameter. */
module PostsRoutes {
  import opened Common
  import opened Text
  import opened Lists
  import opened PostModel
  import opened Db
  import opened HashtagExtractor
  import opened ModerationService
  import ScheduledPostsPublisher

  /** A post is scheduled when a time is given and it lies strictly after
      `now`; a time in the past is treated as no time at all. */
  predicate IsScheduled(scheduledAt: Option<Time>, now: Time) {
    scheduledAt.Some? && scheduledAt.value > now
  }

  /** Where an uploaded file is served from; no file gives no URL. */
  function MediaUrl(filename: Option<string>): string {
    if filename.Some? then "/uploads/" + filename.value else ""
  }

  /** Which of the three messages the creation answers with. */
  datatype Notice = ScheduledNotice | CreatedNotice | NeedsModerationNotice

  function NoticeFor(scheduled: bool, approved: bool): Notice {
    if scheduled then ScheduledNotice else if approved then CreatedNotice else NeedsModerationNotice
  }

  /** The stored post, the message and the moderation verdict. */
  datatype PostCreated = PostCreated(post: Post, notice: Notice, moderation: ModerationResult)

  /** Extracted hashtags contain no white space, so the `trim` setter leaves
      them as they are. */
  lemma TagsAreTrimmed(tags: seq<string>)
    requires forall k :: 0 <= k < |tags| ==> IsTag(tags[k])
    ensures forall k :: 0 <= k < |tags| ==> Trim(tags[k]) == tags[k]
  {
    forall k | 0 <= k < |tags| ensures Trim(tags[k]) == tags[k] {
      TrimOfTrimmed(tags[k]);
    }
  }

  /** The draft handed to `new Post` by both creation routes: the schedule
      is kept only when it lies in the future, and the post starts published
      exactly when it is not scheduled. */
  function DraftFor(author: Id, content: string, mediaUrl: Option<string>, hashtags: seq<string>,
                    scheduledAt: Option<Time>, now: Time, poll: Option<Poll>): PostDraft {
    var scheduled := IsScheduled(scheduledAt, now);
    PostDraft(author, content, mediaUrl, hashtags, if scheduled then scheduledAt else None, Some(!scheduled), poll)
  }

  /** `POST /posts` for the post that gets `id`. The hashtags come from the
      raw content; the post is moderated, which also saves it, so a missing
      or blank content ends in a server error. */
  function CreatePostStep(id: Id, author: Id, content: Option<string>, media: Option<string>,
                          scheduledAt: Option<Time>, now: Time): (r: Result<PostCreated>)
    ensures r.Ok? <==> content.Some? && !IsBlank(content.value)
    ensures r.Err? ==> r.error == ServerError
    ensures r.Ok? ==>
      var p := r.value.post;
      var verdict := r.value.moderation;
      && ValidPost(p)
      && p.id == id && p.author == author && p.createdAt == now
      && p.content == Trim(content.value)
      && p.mediaUrl == MediaUrl(media)
      && p.hashtags == ExtractHashtags(content)
      && p.scheduledAt == (if IsScheduled(scheduledAt, now) then scheduledAt else None)
      && verdict == ModerateContent(p.content)
      && (p.isPublished <==> !IsScheduled(scheduledAt, now) && verdict.approved)
      && p.moderationStatus == (if verdict.approved then Approved else Rejected)
      && p.moderationReason == verdict.reason
      && p.likes == [] && p.comments == [] && p.poll.None?
      && r.value.notice == NoticeFor(IsScheduled(scheduledAt, now), verdict.approved)
  {
    var hashtags := ExtractHashtags(content);
    var text := if content.Some? then content.value else "";
    var draft := DraftFor(author, text, Some(MediaUrl(media)), hashtags, scheduledAt, now, None);
    var built := BuildPost(id, draft, now);
    TagsAreTrimmed(hashtags);
    assert built.hashtags == hashtags;
    match ModeratePost(built)
    case Err(e) => Err(e)
    case Ok(m) => Ok(PostCreated(m.post, NoticeFor(IsScheduled(scheduledAt, now), m.result.approved), m.result))
  }

  /** A rejected post ends unpublished whether or not it was scheduled: the
      moderation runs after the schedule has set the flag. */
  lemma RejectedPostUnpublished(id: Id, author: Id, content: Option<string>, media: Option<string>,
                                scheduledAt: Option<Time>, now: Time)
    requires CreatePostStep(id, author, content, media, scheduledAt, now).Ok?
    requires !CreatePostStep(id, author, content, media, scheduledAt, now).value.moderation.approved
    ensures !CreatePostStep(id, author, content, media, scheduledAt, now).value.post.isPublished
    ensures CreatePostStep(id, author, content, media, scheduledAt, now).value.post.moderationStatus == Rejected
  {
  }

  /** A scheduled post becomes due for the publishing sweep exactly at its
      scheduled time, whatever moderation decided; an unscheduled post that
      was approved is published at once and is never due. */
  lemma CreatedPostDueAtItsTime(id: Id, author: Id, content: Option<string>, media: Option<string>,
                                scheduledAt: Option<Time>, now: Time, t: Time)
    requires CreatePostStep(id, author, content, media, scheduledAt, now).Ok?
    ensures var c := CreatePostStep(id, author, content, media, scheduledAt, now).value;
      && (IsScheduled(scheduledAt, now) ==> (ScheduledPostsPublisher.IsDue(c.post, t) <==> scheduledAt.value <= t))
      && (!IsScheduled(scheduledAt, now) ==> !ScheduledPostsPublisher.IsDue(c.post, t))
      && (!IsScheduled(scheduledAt, now) && c.moderation.approved ==> c.post.isPublished)
  {
  }

  /** The post handler: the checks, then the insert under a fresh id. */
  method CreatePost(db: Store, author: Id, content: Option<string>, media: Option<string>,
                    scheduledAt: Option<Time>, now: Time) returns (r: Result<PostCreated>)
    requires db.Valid()
    modifies db`posts, db`nextId
    ensures db.Valid()
    ensures r == CreatePostStep(old(db.nextId), author, content, media, scheduledAt, now)
    ensures r.Ok? ==> db.posts == old(db.posts) + [r.value.post]
    ensures r.Err? ==> db.posts == old(db.posts) && db.nextId == old(db.nextId)
  {
    r := CreatePostStep(db.nextId, author, content, media, scheduledAt, now);
    if r.Ok? {
      db.InsertPost(r.value.post);
    }
  }

  /** The `poll` object of the request: `None` is a field missing or falsy;
      an option is `None` when it or its text is missing. */
  datatype PollInput = PollInput(question: Option<string>, options: Option<seq<Option<string>>>, expiresAt: Option<Time>)

  predicate UsableOption(o: Option<string>) {
    o.Some? && !IsBlank(o.value)
  }

  /** The options kept: those with a non-blank text, in request order. */
  function ValidOptions(options: seq<Option<string>>): (r: seq<Option<string>>)
    ensures forall o :: o in r <==> o in options && UsableOption(o)
    ensures forall o :: o in r ==> multiset(r)[o] == multiset(options)[o]
    ensures forall i :: 0 <= i < |r| ==> UsableOption(r[i])
  {
    Filter(options, UsableOption)
  }

  /** The options are screened one by one in request order: a usable option
      is kept in its place, any other is dropped. */
  lemma ValidOptionsInOrder(options: seq<Option<string>>, o: Option<string>)
    ensures ValidOptions([]) == []
    ensures ValidOptions(options + [o]) ==
      ValidOptions(options) + (if UsableOption(o) then [o] else [])
  {
    FilterAppend(options, [o], UsableOption);
    assert Filter([o], UsableOption) == (if UsableOption(o) then [o] else []);
  }

  /** `{ text: option.text.trim(), votes: [] }` for each option kept. */
  function FormatOptions(valid: seq<Option<string>>): (r: seq<PollOption>)
    requires forall i :: 0 <= i < |valid| ==> valid[i].Some?
    ensures |r| == |valid|
    ensures forall i :: 0 <= i < |r| ==> r[i] == PollOption(Trim(valid[i].value), [])
  {
    seq(|valid|, i requires 0 <= i < |valid| => PollOption(Trim(valid[i].value), []))
  }

  /** The request is refused before anything is built: no poll, no (or an
      empty) question, no option array or fewer than two entries in it. */
  predicate PollMalformed(poll: Option<PollInput>) {
    || poll.None?
    || poll.value.question.None? || poll.value.question.value == ""
    || poll.value.options.None? || |poll.value.options.value| < 2
  }

  /** The poll as the route formats it: trimmed question, the usable
      options trimmed with no votes, and the optional expiry. */
  function FormattedPoll(input: PollInput): (r: Poll)
    requires input.question.Some? && input.options.Some?
    ensures TrimPoll(r) == r
  {
    var options := FormatOptions(ValidOptions(input.options.value));
    forall i | 0 <= i < |options| ensures TrimOption(options[i]) == options[i] {
      TrimOfTrimmed(options[i].text);
    }
    TrimIdempotent(input.question.value);
    Poll(Trim(input.question.value), options, input.expiresAt)
  }

  /** The draft of a poll post: the content defaults to the empty string, no
      media and no hashtags. */
  function PollDraft(author: Id, content: Option<string>, input: PollInput, scheduledAt: Option<Time>, now: Time): PostDraft
    requires input.question.Some? && input.options.Some?
  {
    var text := if content.Some? then content.value else "";
    DraftFor(author, text, None, [], scheduledAt, now, Some(FormattedPoll(input)))
  }

  /** `POST /posts/poll` for the post that gets `id`: the request checks,
      then the same moderation and save as a plain post. */
  function CreatePollStep(id: Id, author: Id, content: Option<string>, poll: Option<PollInput>,
                          scheduledAt: Option<Time>, now: Time): (r: Result<PostCreated>)
    ensures PollMalformed(poll) ==> r == Err(BadRequest)
    ensures !PollMalformed(poll) && |ValidOptions(poll.value.options.value)| < 2 ==> r == Err(BadRequest)
    ensures (!PollMalformed(poll) && |ValidOptions(poll.value.options.value)| >= 2 &&
             (content.None? || IsBlank(content.value))) ==> r == Err(ServerError)
    ensures r.Ok? <==>
      && !PollMalformed(poll) && |ValidOptions(poll.value.options.value)| >= 2
      && content.Some? && !IsBlank(content.value)
    ensures r.Err? ==> r.error == BadRequest || r.error == ServerError
    ensures r.Ok? ==> ValidPost(r.value.post) && r.value.post.id == id
  {
    if PollMalformed(poll) then Err(BadRequest)
    else if |ValidOptions(poll.value.options.value)| < 2 then Err(BadRequest)
    else
      match ModeratePost(BuildPost(id, PollDraft(author, content, poll.value, scheduledAt, now), now))
      case Err(e) => Err(e)
      case Ok(m) => Ok(PostCreated(m.post, NoticeFor(IsScheduled(scheduledAt, now), m.result.approved), m.result))
  }

  /** The stored poll: the trimmed question, at least two options, each the
      trimmed text of a usable option in request order with no votes, and
      the expiry as given. */
  lemma CreatedPollShape(id: Id, author: Id, content: Option<string>, poll: Option<PollInput>,
                         scheduledAt: Option<Time>, now: Time)
    requires CreatePollStep(id, author, content, poll, scheduledAt, now).Ok?
    ensures var p := CreatePollStep(id, author, content, poll, scheduledAt, now).value.post;
      var valid := ValidOptions(poll.value.options.value);
      && p.poll.Some?
      && p.poll.value.question == Trim(poll.value.question.value)
      && p.poll.value.expiresAt == poll.value.expiresAt
      && |p.poll.value.options| == |valid| >= 2
      && (forall i :: 0 <= i < |valid| ==>
            p.poll.value.options[i] == PollOption(Trim(valid[i].value), []) && |p.poll.value.options[i].text| > 0)
      && p.author == author && p.content == Trim(content.value) && p.hashtags == [] && p.mediaUrl == ""
  {
    var built := BuildPost(id, PollDraft(author, content, poll.value, scheduledAt, now), now);
    assert built.poll == Some(FormattedPoll(poll.value));
  }

  /** A poll post is scheduled, moderated and announced like a plain post. */
  lemma CreatedPollSchedule(id: Id, author: Id, content: Option<string>, poll: Option<PollInput>,
                            scheduledAt: Option<Time>, now: Time)
    requires CreatePollStep(id, author, content, poll, scheduledAt, now).Ok?
    ensures var c := CreatePollStep(id, author, content, poll, scheduledAt, now).value;
      && c.post.scheduledAt == (if IsScheduled(scheduledAt, now) then scheduledAt else None)
      && c.moderation == ModerateContent(c.post.content)
      && (c.post.isPublished <==> !IsScheduled(scheduledAt, now) && c.moderation.approved)
      && c.post.moderationStatus == (if c.moderation.approved then Approved else Rejected)
      && c.notice == NoticeFor(IsScheduled(scheduledAt, now), c.moderation.approved)
  {
  }

  /** A well-formed poll sent without content is never created: the content
      defaults to the empty string, which the required content refuses when
      the post is saved. */
  lemma PollWithoutContentFails(id: Id, author: Id, poll: Option<PollInput>, scheduledAt: Option<Time>, now: Time)
    requires !PollMalformed(poll) && |ValidOptions(poll.value.options.value)| >= 2
    ensures CreatePollStep(id, author, None, poll, scheduledAt, now) == Err(ServerError)
    ensures CreatePollStep(id, author, Some(""), poll, scheduledAt, now) == Err(ServerError)
  {
  }

  /** The poll handler. */
  method CreatePoll(db: Store, author: Id, content: Option<string>, poll: Option<PollInput>,
                    scheduledAt: Option<Time>, now: Time) returns (r: Result<PostCreated>)
    requires db.Valid()
    modifies db`posts, db`nextId
    ensures db.Valid()
    ensures r == CreatePollStep(old(db.nextId), author, content, poll, scheduledAt, now)
    ensures r.Ok? ==> db.posts == old(db.posts) + [r.value.post]
    ensures r.Err? ==> db.posts == old(db.posts) && db.nextId == old(db.nextId)
  {
    r := CreatePollStep(db.nextId, author, content, poll, scheduledAt, now);
    if r.Ok? {
      db.InsertPost(r.value.post);
    }
  }

  /** Whether the user's id is among the votes of any option. */
  predicate HasVoted(p: Poll, userId: Id) {
    exists i :: 0 <= i < |p.options| && userId in p.options[i].votes
  }

  /** Each user appears at most once across all the options of a poll. */
  predicate OneVoteEach(p: Poll) {
    && (forall i :: 0 <= i < |p.options| ==> NoDuplicates(p.options[i].votes))
    && (forall i, j, u :: 0 <= i < j < |p.options| && u in p.options[i].votes ==> u !in p.options[j].votes)
  }

  /** A new poll has no votes, so it satisfies the invariant. */
  lemma FreshPollOneVoteEach(p: Poll)
    requires forall i :: 0 <= i < |p.options| ==> p.options[i].votes == []
    ensures OneVoteEach(p)
  {
  }

  /** The poll with the user's id pushed onto the chosen option's votes. */
  function AddVote(p: Poll, k: nat, userId: Id): (r: Poll)
    requires k < |p.options|
    ensures |r.options| == |p.options| && r.question == p.question && r.expiresAt == p.expiresAt
    ensures r.options[k] == p.options[k].(votes := p.options[k].votes + [userId])
    ensures forall i :: 0 <= i < |p.options| && i != k ==> r.options[i] == p.options[i]
  {
    p.(options := p.options[k := p.options[k].(votes := p.options[k].votes + [userId])])
  }

  datatype Voted = Voted(posts: seq<Post>, post: Post)

  /** `POST /posts/:id/poll/vote`: refused for a missing post, a post
      without a poll, a poll that expired before `now`, a missing or
      out-of-range option, and a user who has voted already. */
  function VoteStep(posts: seq<Post>, postId: Id, userId: Id, optionIndex: Option<int>, now: Time): (r: Result<Voted>)
    ensures Find(posts, PostId, postId).None? ==> r == Err(NotFound)
    ensures Find(posts, PostId, postId).Some? && r.Err? ==> r == Err(BadRequest)
    ensures r.Err? ==> r.error == NotFound || r.error == BadRequest
    ensures r.Ok? <==>
      && Find(posts, PostId, postId).Some?
      && var p := posts[Find(posts, PostId, postId).value];
         && p.poll.Some?
         && !(p.poll.value.expiresAt.Some? && p.poll.value.expiresAt.value < now)
         && optionIndex.Some? && 0 <= optionIndex.value < |p.poll.value.options|
         && !HasVoted(p.poll.value, userId)
    ensures r.Ok? ==> r.value.post.poll.Some? && posts[Find(posts, PostId, postId).value].poll.Some?
    ensures r.Ok? ==>
      var k := Find(posts, PostId, postId).value;
      var before := posts[k].poll.value;
      var after := r.value.post.poll.value;
      var i := optionIndex.value;
      && r.value.posts == posts[k := r.value.post]
      && r.value.post == posts[k].(poll := r.value.post.poll)
      && |after.options| == |before.options| && after.question == before.question && after.expiresAt == before.expiresAt
      && after.options[i].votes == before.options[i].votes + [userId]
      && after.options[i].text == before.options[i].text
      && (forall j :: 0 <= j < |before.options| && j != i ==> after.options[j] == before.options[j])
  {
    match Find(posts, PostId, postId)
    case None => Err(NotFound)
    case Some(k) =>
      var p := posts[k];
      if p.poll.None? then Err(BadRequest)
      else if p.poll.value.expiresAt.Some? && p.poll.value.expiresAt.value < now then Err(BadRequest)
      else if optionIndex.None? || optionIndex.value < 0 || optionIndex.value >= |p.poll.value.options| then Err(BadRequest)
      else if HasVoted(p.poll.value, userId) then Err(BadRequest)
      else
        var q := p.(poll := Some(AddVote(p.poll.value, optionIndex.value, userId)));
        Ok(Voted(posts[k := q], q))
  }

  /** A vote keeps every user at most once across the options. */
  lemma VoteKeepsOneVoteEach(posts: seq<Post>, postId: Id, userId: Id, optionIndex: Option<int>, now: Time)
    requires VoteStep(posts, postId, userId, optionIndex, now).Ok?
    requires OneVoteEach(posts[Find(posts, PostId, postId).value].poll.value)
    ensures OneVoteEach(VoteStep(posts, postId, userId, optionIndex, now).value.post.poll.value)
  {
    var before := posts[Find(posts, PostId, postId).value].poll.value;
    var after := VoteStep(posts, postId, userId, optionIndex, now).value.post.poll.value;
    var k := optionIndex.value;
    assert userId !in before.options[k].votes;
    forall i, j, u | 0 <= i < j < |after.options| && u in after.options[i].votes
      ensures u !in after.options[j].votes
    {
      if u == userId {
        assert userId !in before.options[i].votes && userId !in before.options[j].votes;
      }
    }
  }

  /** A user who voted cannot vote again, on any option. */
  lemma SecondVoteRejected(posts: seq<Post>, postId: Id, userId: Id, optionIndex: Option<int>, other: Option<int>, now: Time)
    requires VoteStep(posts, postId, userId, optionIndex, now).Ok?
    ensures VoteStep(VoteStep(posts, postId, userId, optionIndex, now).value.posts, postId, userId, other, now).Err?
  {
    var v := VoteStep(posts, postId, userId, optionIndex, now).value;
    FindSameIds(posts, v.posts, PostId);
    assert userId in v.post.poll.value.options[optionIndex.value].votes;
  }

  /** The vote handler. */
  method Vote(db: Store, postId: Id, userId: Id, optionIndex: Option<int>, now: Time) returns (r: Result<Post>)
    requires db.Valid()
    modifies db`posts
    ensures db.Valid()
    ensures var s := VoteStep(old(db.posts), postId, userId, optionIndex, now);
      && (s.Ok? ==> r == Ok(s.value.post) && db.posts == s.value.posts)
      && (s.Err? ==> r == Err(s.error) && db.posts == old(db.posts))
  {
    var found := Find(db.posts, PostId, postId);
    if found.None? {
      return Err(NotFound);
    }
    var k := found.value;
    var p := db.posts[k];
    if p.poll.None? {
      return Err(BadRequest);
    }
    var poll := p.poll.value;
    if poll.expiresAt.Some? && poll.expiresAt.value < now {
      return Err(BadRequest);
    }
    if optionIndex.None? || optionIndex.value < 0 || optionIndex.value >= |poll.options| {
      return Err(BadRequest);
    }
    if HasVoted(poll, userId) {
      return Err(BadRequest);
    }
    p := p.(poll := Some(AddVote(poll, optionIndex.value, userId)));
    PostsOkUpdate(db.posts, k, p, db.nextId);
    db.posts := db.posts[k := p];
    r := Ok(p);
  }
}
