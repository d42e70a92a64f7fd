/** The story routes: posting a story that lives for a day, listing the
    active stories of the users one follows, viewing a story and deleting
    one's own. The clock reading `now` is a parameter. */
module StoriesRoutes {
  import opened Common
  import opened Text
  import opened Lists
  import opened UserModel
  import opened Db

  /** A story expires 24 hours after it is posted, in milliseconds. */
  const StoryLifetime: int := 24 * 60 * 60 * 1000

  /** The uploaded media file as the upload middleware describes it. */
  datatype Upload = Upload(filename: string, mimetype: string)

  /** A video when the MIME type starts with "video", an image otherwise. */
  function MediaTypeOf(mimetype: string): (t: MediaType)
    ensures t == Video <==> StartsWith(mimetype, "video")
    ensures t == Image <==> !StartsWith(mimetype, "video")
  {
    if StartsWith(mimetype, "video") then Video else Image
  }

  /** The record `POST /stories` saves: served from `/uploads/`, no views,
      an empty caption when none (or an empty one) was given. */
  function StoryFor(id: Id, author: Id, file: Upload, caption: Option<string>, now: Time): Story {
    Story(id, author, "/uploads/" + file.filename, MediaTypeOf(file.mimetype),
          if caption.Some? then caption.value else "", now + StoryLifetime, [], now)
  }

  /** `POST /stories`: refused without a media file; otherwise the story is
      stored under a fresh id and returned. */
  method CreateStory(db: Store, author: Id, file: Option<Upload>, caption: Option<string>, now: Time)
    returns (r: Result<Story>)
    requires db.Valid()
    modifies db`stories, db`nextId
    ensures db.Valid()
    ensures file.None? ==> r == Err(BadRequest) && db.stories == old(db.stories) && db.nextId == old(db.nextId)
    ensures file.Some? ==>
      && r == Ok(StoryFor(old(db.nextId), author, file.value, caption, now))
      && db.stories == old(db.stories) + [r.value]
      && db.nextId == old(db.nextId) + 1
  {
    if file.None? {
      return Err(BadRequest);
    }
    var id := db.NewId();
    var story := StoryFor(id, author, file.value, caption, now);
    AppendFresh(db.stories, StoryId, story, id);
    db.stories := db.stories + [story];
    r := Ok(story);
  }

  /** The query of `GET /stories`: stories by a followed user or by the user,
      whose expiry lies strictly after `now`. */
  predicate Listed(s: Story, following: seq<Id>, userId: Id, now: Time) {
    (s.author in following || s.author == userId) && s.expiresAt > now
  }

  function CreatedAt(s: Story): int { s.createdAt }

  /** `GET /stories`: the active stories of the users the user follows and
      of the user, newest first. */
  function ListStories(users: seq<User>, stories: seq<Story>, userId: Id, now: Time): (r: Result<seq<Story>>)
    ensures r.Err? <==> Find(users, UserId, userId).None?
    ensures r.Err? ==> r.error == NotFound
    ensures r.Ok? ==> SortedDesc(r.value, CreatedAt)
    ensures r.Ok? ==> forall s :: s in r.value <==>
      s in stories && Listed(s, users[Find(users, UserId, userId).value].following, userId, now)
    ensures r.Ok? ==> forall s :: s in r.value ==> multiset(r.value)[s] == multiset(stories)[s]
  {
    match Find(users, UserId, userId)
    case None => Err(NotFound)
    case Some(k) =>
      var following := users[k].following;
      Ok(SortedFilter(stories, (s: Story) => Listed(s, following, userId, now), CreatedAt))
  }

  /** A story just posted is listed for its author at every instant before
      it expires. */
  lemma NewStoryListedUntilExpiry(users: seq<User>, stories: seq<Story>, story: Story, t: Time)
    requires Find(users, UserId, story.author).Some?
    requires story.expiresAt > t
    ensures ListStories(users, stories + [story], story.author, t).Ok?
    ensures story in ListStories(users, stories + [story], story.author, t).value
  {
  }

  /** The store and the story after a view. */
  datatype Viewed = Viewed(stories: seq<Story>, story: Story)

  /** `GET /stories/:id/view`: a story that has expired is refused; the
      viewer is recorded once. A story whose expiry is exactly `now` can
      still be viewed. */
  function ViewStep(stories: seq<Story>, storyId: Id, viewer: Id, now: Time): (r: Result<Viewed>)
    ensures Find(stories, StoryId, storyId).None? ==> r == Err(NotFound)
    ensures Find(stories, StoryId, storyId).Some? && stories[Find(stories, StoryId, storyId).value].expiresAt < now ==>
            r == Err(BadRequest)
    ensures r.Ok? <==> Find(stories, StoryId, storyId).Some? && stories[Find(stories, StoryId, storyId).value].expiresAt >= now
    ensures r.Err? ==> r.error == NotFound || r.error == BadRequest
    ensures r.Ok? ==>
      var k := Find(stories, StoryId, storyId).value;
      && |r.value.stories| == |stories|
      && r.value.stories == stories[k := r.value.story]
      && viewer in r.value.story.views
      && (forall v :: v in r.value.story.views <==> v in stories[k].views || v == viewer)
      && (viewer in stories[k].views ==> r.value.story == stories[k])
      && r.value.story == stories[k].(views := r.value.story.views)
  {
    match Find(stories, StoryId, storyId)
    case None => Err(NotFound)
    case Some(k) =>
      if stories[k].expiresAt < now then Err(BadRequest)
      else
        var s := stories[k].(views := AddToSet(stories[k].views, viewer));
        Ok(Viewed(stories[k := s], s))
  }

  /** Viewing a story a second time records nothing more. */
  lemma ViewTwiceSameAsOnce(stories: seq<Story>, storyId: Id, viewer: Id, now: Time)
    requires ViewStep(stories, storyId, viewer, now).Ok?
    ensures var once := ViewStep(stories, storyId, viewer, now).value;
      ViewStep(once.stories, storyId, viewer, now) == Ok(once)
  {
    var once := ViewStep(stories, storyId, viewer, now).value;
    var k := Find(stories, StoryId, storyId).value;
    FindSameIds(stories, once.stories, StoryId);
    assert once.stories[k := once.story] == once.stories;
  }

  /** At the instant a story expires it is no longer listed, but a view is
      still accepted: the list keeps `expiresAt > now`, the view refuses only
      `expiresAt < now`. */
  lemma ExpiringStoryViewableButNotListed(users: seq<User>, stories: seq<Story>, k: nat, viewer: Id)
    requires k < |stories| && UniqueIds(stories, StoryId)
    requires Find(users, UserId, viewer).Some?
    ensures ViewStep(stories, stories[k].id, viewer, stories[k].expiresAt).Ok?
    ensures stories[k] !in ListStories(users, stories, viewer, stories[k].expiresAt).value
  {
    FindUnique(stories, StoryId, k);
  }

  /** The view handler. */
  method ViewStory(db: Store, storyId: Id, viewer: Id, now: Time) returns (r: Result<Story>)
    requires db.Valid()
    modifies db`stories
    ensures db.Valid()
    ensures var s := ViewStep(old(db.stories), storyId, viewer, now);
      && (s.Ok? ==> r == Ok(s.value.story) && db.stories == s.value.stories)
      && (s.Err? ==> r == Err(s.error) && db.stories == old(db.stories))
  {
    var found := Find(db.stories, StoryId, storyId);
    if found.None? {
      return Err(NotFound);
    }
    var k := found.value;
    var story := db.stories[k];
    if story.expiresAt < now {
      return Err(BadRequest);
    }
    if viewer !in story.views {
      story := story.(views := story.views + [viewer]);
      IdsOkUpdate(db.stories, StoryId, k, story, db.nextId);
      db.stories := db.stories[k := story];
    } else {
      assert db.stories[k := story] == db.stories;
    }
    r := Ok(story);
  }

  /** `DELETE /stories/:id`: the story must exist and belong to the user;
      then the story with that id is deleted. */
  function DeleteStep(stories: seq<Story>, storyId: Id, userId: Id): (r: Result<seq<Story>>)
    ensures r.Ok? <==> exists k :: 0 <= k < |stories| && stories[k].id == storyId && stories[k].author == userId
    ensures r.Err? ==> r.error == NotFound
    ensures r.Ok? ==> |r.value| == |stories| - 1 && multiset(r.value) <= multiset(stories)
  {
    match FindFirst(stories, (s: Story) => s.id == storyId && s.author == userId)
    case None => Err(NotFound)
    case Some(_) =>
      var k := Find(stories, StoryId, storyId).value;
      assert stories == stories[..k] + [stories[k]] + stories[k + 1..];
      Ok(RemoveAt(stories, k))
  }

  /** With unique ids, a deletion removes exactly the story with that id. */
  lemma DeleteRemovesExactly(stories: seq<Story>, storyId: Id, userId: Id)
    requires UniqueIds(stories, StoryId) && DeleteStep(stories, storyId, userId).Ok?
    ensures forall s :: s in DeleteStep(stories, storyId, userId).value <==> s in stories && s.id != storyId
  {
    var k := Find(stories, StoryId, storyId).value;
    var r := DeleteStep(stories, storyId, userId).value;
    forall s | s in stories && s.id != storyId ensures s in r {
      var j :| 0 <= j < |stories| && stories[j] == s;
      if j < k { assert r[j] == s; } else { assert r[j - 1] == s; }
    }
    forall s | s in r ensures s in stories && s.id != storyId {
      var j :| 0 <= j < |r| && r[j] == s;
      var j' := if j < k then j else j + 1;
      assert s == stories[j'] && j' != k;
      assert StoryId(stories[j']) != StoryId(stories[k]);
    }
  }

  /** The delete handler. */
  method DeleteStory(db: Store, storyId: Id, userId: Id) returns (r: Outcome)
    requires db.Valid()
    modifies db`stories
    ensures db.Valid()
    ensures var s := DeleteStep(old(db.stories), storyId, userId);
      && (s.Ok? ==> r == Done && db.stories == s.value)
      && (s.Err? ==> r == Fail(s.error) && db.stories == old(db.stories))
  {
    var owned := FindFirst(db.stories, (s: Story) => s.id == storyId && s.author == userId);
    if owned.None? {
      return Fail(NotFound);
    }
    var k := Find(db.stories, StoryId, storyId).value;
    RemoveAtKeepsIds(db.stories, StoryId, k, db.nextId);
    db.stories := RemoveAt(db.stories, k);
    r := Done;
  }
}
