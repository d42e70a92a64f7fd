/** The bookmark routes: add a post to the user's bookmarks, remove it, and
    list the bookmarked posts. */
module BookmarksRoutes {
  import opened Common
  import opened Lists
  import opened UserModel
  import opened PostModel
  import opened Db

  /** `POST /bookmarks/:id`: the post must exist (checked first), then the
      user; a post already bookmarked is refused, so the list never gains a
      duplicate. */
  function AddBookmarkStep(users: seq<User>, posts: seq<Post>, userId: Id, postId: Id): (r: Result<seq<User>>)
    ensures Find(posts, PostId, postId).None? ==> r == Err(NotFound)
    ensures Find(posts, PostId, postId).Some? && Find(users, UserId, userId).None? ==> r == Err(NotFound)
    ensures (Find(posts, PostId, postId).Some? && Find(users, UserId, userId).Some? &&
             postId in users[Find(users, UserId, userId).value].bookmarks) ==> r == Err(BadRequest)
    ensures r.Ok? <==>
      && Find(posts, PostId, postId).Some?
      && Find(users, UserId, userId).Some?
      && postId !in users[Find(users, UserId, userId).value].bookmarks
    ensures r.Err? ==> r.error == NotFound || r.error == BadRequest
    ensures r.Ok? ==>
      var k := Find(users, UserId, userId).value;
      && |r.value| == |users|
      && r.value[k].bookmarks == users[k].bookmarks + [postId]
      && (NoDuplicates(users[k].bookmarks) ==> NoDuplicates(r.value[k].bookmarks))
      && r.value[k] == users[k].(bookmarks := r.value[k].bookmarks)
      && forall j :: 0 <= j < |users| && j != k ==> r.value[j] == users[j]
  {
    if Find(posts, PostId, postId).None? then Err(NotFound)
    else match Find(users, UserId, userId)
      case None => Err(NotFound)
      case Some(k) =>
        if postId in users[k].bookmarks then Err(BadRequest)
        else Ok(users[k := users[k].(bookmarks := users[k].bookmarks + [postId])])
  }

  /** `DELETE /bookmarks/:id`: every copy of the post id leaves the list, the
      others stay in order. The post itself need not exist any more. */
  function RemoveBookmarkStep(users: seq<User>, userId: Id, postId: Id): (r: Result<seq<User>>)
    ensures Find(users, UserId, userId).None? ==> r == Err(NotFound)
    ensures Find(users, UserId, userId).Some? && postId !in users[Find(users, UserId, userId).value].bookmarks ==>
            r == Err(BadRequest)
    ensures r.Ok? <==> Find(users, UserId, userId).Some? && postId in users[Find(users, UserId, userId).value].bookmarks
    ensures r.Err? ==> r.error == NotFound || r.error == BadRequest
    ensures r.Ok? ==>
      var k := Find(users, UserId, userId).value;
      && |r.value| == |users|
      && postId !in r.value[k].bookmarks
      && multiset(r.value[k].bookmarks) == multiset(users[k].bookmarks)[postId := 0]
      && r.value[k].bookmarks == RemoveAll(users[k].bookmarks, postId)
      && r.value[k] == users[k].(bookmarks := r.value[k].bookmarks)
      && forall j :: 0 <= j < |users| && j != k ==> r.value[j] == users[j]
  {
    match Find(users, UserId, userId)
    case None => Err(NotFound)
    case Some(k) =>
      if postId !in users[k].bookmarks then Err(BadRequest)
      else Ok(users[k := users[k].(bookmarks := RemoveAll(users[k].bookmarks, postId))])
  }

  /** Adding and then removing a bookmark gives back the collection exactly. */
  lemma AddThenRemoveRestores(users: seq<User>, posts: seq<Post>, userId: Id, postId: Id)
    requires AddBookmarkStep(users, posts, userId, postId).Ok?
    ensures RemoveBookmarkStep(AddBookmarkStep(users, posts, userId, postId).value, userId, postId) == Ok(users)
  {
    var once := AddBookmarkStep(users, posts, userId, postId).value;
    var k := Find(users, UserId, userId).value;
    FindSameIds(users, once, UserId);
    PushThenRemove(users[k].bookmarks, postId);
    assert once[k := once[k].(bookmarks := users[k].bookmarks)] == users;
  }

  /** `populate('bookmarks')`: each id replaced by its post, in list order;
      ids whose post is gone are dropped. */
  function Populate(ids: seq<Id>, posts: seq<Post>): (r: seq<Post>)
    ensures |r| <= |ids|
    ensures forall p :: p in r ==> p in posts && p.id in ids
    decreases |ids|
  {
    if ids == [] then []
    else
      var rest := Populate(ids[1..], posts);
      match Find(posts, PostId, ids[0])
      case None => rest
      case Some(k) => [posts[k]] + rest
  }

  /** When every bookmarked post still exists, the listing has one post per
      bookmark, in bookmark order. */
  lemma {:induction false} PopulateAllPresent(ids: seq<Id>, posts: seq<Post>)
    requires forall i :: 0 <= i < |ids| ==> Find(posts, PostId, ids[i]).Some?
    ensures |Populate(ids, posts)| == |ids|
    ensures forall i :: 0 <= i < |ids| ==> Populate(ids, posts)[i].id == ids[i]
    decreases |ids|
  {
    if ids != [] {
      var k := Find(posts, PostId, ids[0]).value;
      var rest := Populate(ids[1..], posts);
      assert forall i :: 0 <= i < |ids[1..]| ==> Find(posts, PostId, ids[1..][i]).Some? by {
        forall i | 0 <= i < |ids[1..]| ensures Find(posts, PostId, ids[1..][i]).Some? {
          assert ids[1..][i] == ids[i + 1];
        }
      }
      PopulateAllPresent(ids[1..], posts);
      assert Populate(ids, posts) == [posts[k]] + rest;
      IdsOfCons(ids, posts[k], rest);
    }
  }

  /** A post carrying the first id, put in front of posts carrying the
      remaining ids in order, carries all the ids in order. */
  lemma IdsOfCons(ids: seq<Id>, p: Post, rest: seq<Post>)
    requires ids != [] && p.id == ids[0] && |rest| == |ids| - 1
    requires forall i :: 0 <= i < |rest| ==> rest[i].id == ids[1..][i]
    ensures |[p] + rest| == |ids|
    ensures forall i :: 0 <= i < |ids| ==> ([p] + rest)[i].id == ids[i]
  {
    forall i | 1 <= i < |ids| ensures ([p] + rest)[i].id == ids[i] {
      assert ids[i] == ids[1..][i - 1];
    }
  }

  /** Every stored post that is bookmarked is listed. */
  lemma {:induction false} PopulateComplete(ids: seq<Id>, posts: seq<Post>, k: nat)
    requires k < |posts| && posts[k].id in ids && UniqueIds(posts, PostId)
    ensures posts[k] in Populate(ids, posts)
    decreases |ids|
  {
    FindUnique(posts, PostId, k);
    if ids[0] != posts[k].id {
      PopulateComplete(ids[1..], posts, k);
    }
  }

  /** `GET /bookmarks`. */
  function ListBookmarks(users: seq<User>, posts: seq<Post>, userId: Id): (r: Result<seq<Post>>)
    ensures r.Err? <==> Find(users, UserId, userId).None?
    ensures r.Err? ==> r.error == NotFound
    ensures r.Ok? ==> r.value == Populate(users[Find(users, UserId, userId).value].bookmarks, posts)
  {
    match Find(users, UserId, userId)
    case None => Err(NotFound)
    case Some(k) => Ok(Populate(users[k].bookmarks, posts))
  }

  /** The add handler. */
  method AddBookmark(db: Store, userId: Id, postId: Id) returns (r: Outcome)
    requires db.Valid()
    modifies db`users
    ensures db.Valid()
    ensures var s := AddBookmarkStep(old(db.users), db.posts, userId, postId);
      && (s.Ok? ==> r == Done && db.users == s.value)
      && (s.Err? ==> r == Fail(s.error) && db.users == old(db.users))
  {
    if Find(db.posts, PostId, postId).None? {
      return Fail(NotFound);
    }
    var found := Find(db.users, UserId, userId);
    if found.None? {
      return Fail(NotFound);
    }
    var k := found.value;
    var u := db.users[k];
    if postId in u.bookmarks {
      return Fail(BadRequest);
    }
    u := u.(bookmarks := u.bookmarks + [postId]);
    UsersOkUpdate(db.users, k, u, db.nextId);
    db.users := db.users[k := u];
    r := Done;
  }

  /** The remove handler. */
  method RemoveBookmark(db: Store, userId: Id, postId: Id) returns (r: Outcome)
    requires db.Valid()
    modifies db`users
    ensures db.Valid()
    ensures var s := RemoveBookmarkStep(old(db.users), userId, postId);
      && (s.Ok? ==> r == Done && db.users == s.value)
      && (s.Err? ==> r == Fail(s.error) && db.users == old(db.users))
  {
    var found := Find(db.users, UserId, userId);
    if found.None? {
      return Fail(NotFound);
    }
    var k := found.value;
    var u := db.users[k];
    if postId !in u.bookmarks {
      return Fail(BadRequest);
    }
    u := u.(bookmarks := RemoveAll(u.bookmarks, postId));
    UsersOkUpdate(db.users, k, u, db.nextId);
    db.users := db.users[k := u];
    r := Done;
  }
}
