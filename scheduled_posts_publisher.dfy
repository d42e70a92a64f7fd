/** The scheduled-posts sweep: every minute, every unpublished post whose
    scheduled time has come is published. The clock reading `now` is a
    parameter. */
module ScheduledPostsPublisher {
  import opened Common
  import opened Lists
  import opened PostModel
  import opened Db

  /** The query `{ isPublished: false, scheduledAt: { $lte: now } }`; a post
      without a scheduled time does not match. */
  predicate IsDue(p: Post, now: Time) {
    !p.isPublished && p.scheduledAt.Some? && p.scheduledAt.value <= now
  }

  /** The ids of the due posts, in store order (`scheduledPosts.map(p => p._id)`). */
  function DueIds(posts: seq<Post>, now: Time): (ids: seq<Id>)
    ensures |ids| <= |posts|
    ensures forall k :: 0 <= k < |posts| && IsDue(posts[k], now) ==> posts[k].id in ids
    ensures forall id :: id in ids ==> exists k :: 0 <= k < |posts| && IsDue(posts[k], now) && posts[k].id == id
    decreases |posts|
  {
    if posts == [] then []
    else
      var init := posts[..|posts| - 1];
      var last := posts[|posts| - 1];
      var rest := DueIds(init, now);
      assert forall k :: 0 <= k < |init| ==> init[k] == posts[k];
      if IsDue(last, now) then rest + [last.id] else rest
  }

  /** The store after the sweep, post by post. */
  function Swept(posts: seq<Post>, now: Time): (r: seq<Post>)
    ensures |r| == |posts|
    ensures forall i :: 0 <= i < |r| ==> !IsDue(r[i], now)
    ensures forall i :: 0 <= i < |r| ==> r[i].isPublished == (posts[i].isPublished || IsDue(posts[i], now))
    ensures forall i :: 0 <= i < |r| ==> r[i].(isPublished := posts[i].isPublished) == posts[i]
  {
    seq(|posts|, i requires 0 <= i < |posts| => if IsDue(posts[i], now) then posts[i].(isPublished := true) else posts[i])
  }

  /** In a store with unique ids, a post's id is among the due ids exactly
      when that post is due: the `updateMany` by id touches the found posts
      and no other. */
  lemma DueIdsExact(posts: seq<Post>, now: Time, k: nat)
    requires UniqueIds(posts, PostId) && k < |posts|
    ensures posts[k].id in DueIds(posts, now) <==> IsDue(posts[k], now)
  {
    if posts[k].id in DueIds(posts, now) {
      var j :| 0 <= j < |posts| && IsDue(posts[j], now) && posts[j].id == posts[k].id;
      assert PostId(posts[j]) == PostId(posts[k]);
    }
  }

  /** The find: the ids of the due posts, collected in one pass. */
  method FindDue(posts: seq<Post>, now: Time) returns (due: seq<Id>)
    ensures due == DueIds(posts, now)
  {
    due := [];
    var i := 0;
    while i < |posts|
      invariant 0 <= i <= |posts|
      invariant due == DueIds(posts[..i], now)
    {
      assert posts[..i + 1][..i] == posts[..i];
      if IsDue(posts[i], now) {
        due := due + [posts[i].id];
      }
      i := i + 1;
    }
    assert posts[..i] == posts;
  }

  /** The `updateMany({ _id: { $in: due } }, { $set: { isPublished: true } })`,
      record by record in place. */
  method PublishFound(db: Store, due: seq<Id>, ghost now: Time)
    requires forall k :: 0 <= k < |db.posts| ==> (db.posts[k].id in due <==> IsDue(db.posts[k], now))
    modifies db`posts
    ensures db.posts == Swept(old(db.posts), now)
  {
    var posts := db.posts;
    ghost var before := posts;
    ghost var target := Swept(before, now);
    var k := 0;
    while k < |posts|
      invariant 0 <= k <= |posts| == |before| == |target|
      invariant forall j :: 0 <= j < k ==> posts[j] == target[j]
      invariant forall j :: k <= j < |posts| ==> posts[j] == before[j]
    {
      if posts[k].id in due {
        SweepPublishesDue(before, now, k);
        posts := posts[k := posts[k].(isPublished := true)];
      } else {
        SweepLeavesOthers(before, now, k);
      }
      k := k + 1;
    }
    db.posts := posts;
  }

  /** The sweep keeps every post valid and every id where it was. */
  lemma SweptKeepsPostsOk(posts: seq<Post>, now: Time, bound: Id)
    requires PostsOk(posts, bound)
    ensures PostsOk(Swept(posts, now), bound)
  {
    var r := Swept(posts, now);
    forall j | 0 <= j < |r| ensures ValidPost(r[j]) && r[j].id == posts[j].id {
      assert r[j].(isPublished := posts[j].isPublished) == posts[j];
    }
  }

  /** `publishScheduledPosts()` at time `now`: the find, then, when something
      was found, the update of the found ids. Returns how many posts were
      published. */
  method PublishScheduledPosts(db: Store, now: Time) returns (count: nat)
    requires db.Valid()
    modifies db`posts
    ensures db.Valid()
    ensures db.posts == Swept(old(db.posts), now)
    ensures count == |DueIds(old(db.posts), now)|
  {
    var due := FindDue(db.posts, now);
    count := |due|;
    SweptKeepsPostsOk(db.posts, now, db.nextId);
    if |due| > 0 {
      forall k | 0 <= k < |db.posts| ensures db.posts[k].id in due <==> IsDue(db.posts[k], now) {
        DueIdsExact(db.posts, now, k);
      }
      PublishFound(db, due, now);
    } else {
      assert forall j :: 0 <= j < |db.posts| ==> !IsDue(db.posts[j], now);
      assert db.posts == Swept(db.posts, now);
    }
  }

  /** Due posts are published; nothing else about them changes. */
  lemma SweepPublishesDue(posts: seq<Post>, now: Time, i: nat)
    requires i < |posts| && IsDue(posts[i], now)
    ensures Swept(posts, now)[i] == posts[i].(isPublished := true)
  {
  }

  /** A post that is not due (scheduled later, never scheduled, or already
      published) is left exactly as it was. */
  lemma SweepLeavesOthers(posts: seq<Post>, now: Time, i: nat)
    requires i < |posts| && !IsDue(posts[i], now)
    ensures Swept(posts, now)[i] == posts[i]
  {
  }

  /** A second sweep at the same time changes nothing. */
  lemma SweepIdempotent(posts: seq<Post>, now: Time)
    ensures Swept(Swept(posts, now), now) == Swept(posts, now)
  {
    var once := Swept(posts, now);
    assert forall i :: 0 <= i < |once| ==> !IsDue(once[i], now);
  }

  /** When nothing is due the store is left as it was. */
  lemma SweepNothingDue(posts: seq<Post>, now: Time)
    requires forall i :: 0 <= i < |posts| ==> !IsDue(posts[i], now)
    ensures Swept(posts, now) == posts
  {
  }

  /** The sweep does not look at the moderation status: a due post that
      moderation rejected (and so unpublished) is published all the same. */
  lemma SweepIgnoresModeration(posts: seq<Post>, now: Time, i: nat)
    requires i < |posts| && IsDue(posts[i], now) && posts[i].moderationStatus == Rejected
    ensures Swept(posts, now)[i].isPublished && Swept(posts, now)[i].moderationStatus == Rejected
  {
  }
}
