/** The user routes: a profile with its posts, the partial profile update and
    the follow/unfollow toggle. */
module UsersRoutes {
  import opened Common
  import opened Text
  import opened Lists
  import opened UserModel
  import opened PostModel
  import opened Db

  /** A user as `select('-password')` hands it out: the password is blanked. */
  function WithoutPassword(u: User): User {
    u.(password := "")
  }

  function CreatedAt(p: Post): int { p.createdAt }

  /** The posts written by `author`, newest first (`find({ author })
      .sort({ createdAt: -1 })`). */
  predicate WrittenBy(p: Post, author: Id) {
    p.author == author
  }

  function PostsOf(posts: seq<Post>, author: Id): (r: seq<Post>)
    ensures SortedDesc(r, CreatedAt)
    ensures forall p :: p in r <==> p in posts && WrittenBy(p, author)
    ensures forall p :: p in r ==> multiset(r)[p] == multiset(posts)[p]
  {
    SortedFilter(posts, (p: Post) => WrittenBy(p, author), CreatedAt)
  }

  /** A profile: the user and all of their posts, newest first. */
  datatype Profile = Profile(user: User, posts: seq<Post>)

  /** `GET /users/:username`. The query casts the parameter through the
      `username` path's `trim` setter, so the trimmed parameter is looked
      up. Every post of the user is listed, whether published, scheduled
      or rejected. */
  function GetProfile(users: seq<User>, posts: seq<Post>, username: string): (r: Result<Profile>)
    ensures r.Err? <==> forall k :: 0 <= k < |users| ==> users[k].username != Trim(username)
    ensures r.Err? ==> r.error == NotFound
    ensures r.Ok? ==> exists k :: 0 <= k < |users| && users[k].username == Trim(username) && r.value.user == WithoutPassword(users[k])
    ensures r.Ok? ==> r.value.user.password == ""
    ensures r.Ok? ==> SortedDesc(r.value.posts, CreatedAt)
    ensures r.Ok? ==> forall p :: p in r.value.posts <==> p in posts && p.author == r.value.user.id
    ensures r.Ok? ==> forall p :: p in r.value.posts ==> multiset(r.value.posts)[p] == multiset(posts)[p]
  {
    match FindFirst(users, (u: User) => u.username == Trim(username))
    case None => Err(NotFound)
    case Some(k) =>
      Ok(Profile(WithoutPassword(users[k]), PostsOf(posts, users[k].id)))
  }

  /** Whitespace around the path parameter changes nothing: the profile of
      `" alice "` is the profile of `"alice"`. */
  lemma GetProfileIgnoresPadding(users: seq<User>, posts: seq<Post>, username: string)
    ensures GetProfile(users, posts, Trim(username)) == GetProfile(users, posts, username)
  {
    TrimIdempotent(username);
  }

  /** The user and the whole collection after an update. */
  datatype Updated = Updated(users: seq<User>, user: User)

  /** `PUT /users/profile`: only the fields present in the request are set.
      The update runs the schema validators before it looks the user up, so
      an over-long bio is a server error even for a missing user. */
  function ProfileUpdate(users: seq<User>, userId: Id, bio: Option<string>, picture: Option<string>): (r: Result<Updated>)
    ensures bio.Some? && !BioFits(bio.value) ==> r == Err(ServerError)
    ensures (bio.None? || BioFits(bio.value)) && Find(users, UserId, userId).None? ==> r == Err(NotFound)
    ensures r.Ok? <==> (bio.None? || BioFits(bio.value)) && Find(users, UserId, userId).Some?
    ensures r.Err? ==> r.error == ServerError || r.error == NotFound
    ensures r.Ok? ==>
      var k := Find(users, UserId, userId).value;
      && |r.value.users| == |users|
      && r.value.users == users[k := r.value.users[k]]
      && r.value.users[k].bio == (if bio.Some? then bio.value else users[k].bio)
      && r.value.users[k].profilePicture == (if picture.Some? then picture.value else users[k].profilePicture)
      && r.value.users[k].(bio := users[k].bio, profilePicture := users[k].profilePicture) == users[k]
      && r.value.user == WithoutPassword(r.value.users[k])
  {
    if bio.Some? && !BioFits(bio.value) then Err(ServerError)
    else match Find(users, UserId, userId)
      case None => Err(NotFound)
      case Some(k) =>
        var u := users[k];
        var u' := u.(bio := if bio.Some? then bio.value else u.bio,
                     profilePicture := if picture.Some? then picture.value else u.profilePicture);
        Ok(Updated(users[k := u'], WithoutPassword(u')))
  }

  /** An update with no field leaves the collection as it was. */
  lemma EmptyProfileUpdateChangesNothing(users: seq<User>, userId: Id)
    requires Find(users, UserId, userId).Some?
    ensures ProfileUpdate(users, userId, None, None).Ok?
    ensures ProfileUpdate(users, userId, None, None).value.users == users
  {
    var k := Find(users, UserId, userId).value;
    assert users[k := users[k]] == users;
  }

  /** The handler: validation, lookup, and the write. */
  method UpdateProfile(db: Store, userId: Id, bio: Option<string>, picture: Option<string>) returns (r: Result<User>)
    requires db.Valid()
    modifies db`users
    ensures db.Valid()
    ensures var s := ProfileUpdate(old(db.users), userId, bio, picture);
      && (s.Ok? ==> r == Ok(s.value.user) && db.users == s.value.users)
      && (s.Err? ==> r == Err(s.error) && db.users == old(db.users))
  {
    if bio.Some? && !BioFits(bio.value) {
      return Err(ServerError);
    }
    var found := Find(db.users, UserId, userId);
    if found.None? {
      return Err(NotFound);
    }
    var k := found.value;
    var u := db.users[k];
    if bio.Some? {
      u := u.(bio := bio.value);
    }
    if picture.Some? {
      u := u.(profilePicture := picture.value);
    }
    UsersOkUpdate(db.users, k, u, db.nextId);
    db.users := db.users[k := u];
    r := Ok(WithoutPassword(u));
  }

  /** The answer to a follow toggle: the new state and the target's follower
      count after the change. */
  datatype FollowReply = FollowReply(isFollowing: bool, followersCount: nat)

  datatype Followed = Followed(users: seq<User>, reply: FollowReply)

  /** `POST /users/:id/follow`. Whether `current` already follows `target` is
      read from the target's followers alone; unfollowing removes every copy
      of each id from the other's list, following appends one. */
  function FollowToggle(users: seq<User>, current: Id, target: Id): (r: Result<Followed>)
    ensures current == target ==> r == Err(BadRequest)
    ensures current != target && (Find(users, UserId, target).None? || Find(users, UserId, current).None?) ==>
      r == Err(NotFound)
    ensures r.Ok? <==> current != target && Find(users, UserId, target).Some? && Find(users, UserId, current).Some?
    ensures r.Ok? ==>
      var t := Find(users, UserId, target).value;
      var c := Find(users, UserId, current).value;
      var was := current in users[t].followers;
      var after := r.value.users;
      && t != c && |after| == |users|
      && r.value.reply == FollowReply(!was, |after[t].followers|)
      && (current in after[t].followers <==> !was)
      && (target in after[c].following <==> !was)
      && after[t].followers == (if was then RemoveAll(users[t].followers, current) else users[t].followers + [current])
      && after[c].following == (if was then RemoveAll(users[c].following, target) else users[c].following + [target])
      && after[t] == users[t].(followers := after[t].followers)
      && after[c] == users[c].(following := after[c].following)
      && forall j :: 0 <= j < |users| && j != t && j != c ==> after[j] == users[j]
  {
    if current == target then Err(BadRequest)
    else match Find(users, UserId, target)
      case None => Err(NotFound)
      case Some(t) =>
        match Find(users, UserId, current)
        case None => Err(NotFound)
        case Some(c) =>
          var was := current in users[t].followers;
          var followers := if was then RemoveAll(users[t].followers, current) else users[t].followers + [current];
          var following := if was then RemoveAll(users[c].following, target) else users[c].following + [target];
          var after := users[t := users[t].(followers := followers)][c := users[c].(following := following)];
          Ok(Followed(after, FollowReply(!was, |followers|)))
  }

  /** The two halves of the follow relation agree for the pair (`a` follows
      `b`): `a` is among `b`'s followers exactly when `b` is among the users
      `a` follows. */
  predicate FollowAgrees(users: seq<User>, a: Id, b: Id)
    requires Find(users, UserId, a).Some? && Find(users, UserId, b).Some?
  {
    a in users[Find(users, UserId, b).value].followers <==> b in users[Find(users, UserId, a).value].following
  }

  /** A toggle keeps the two halves of the relation in agreement. */
  lemma FollowToggleKeepsAgreement(users: seq<User>, current: Id, target: Id)
    requires FollowToggle(users, current, target).Ok?
    requires FollowAgrees(users, current, target)
    ensures var after := FollowToggle(users, current, target).value.users;
      Find(after, UserId, current) == Find(users, UserId, current)
      && Find(after, UserId, target) == Find(users, UserId, target)
      && FollowAgrees(after, current, target)
  {
    var after := FollowToggle(users, current, target).value.users;
    FindSameIds(users, after, UserId);
  }

  /** A second toggle by the same pair succeeds and finds the same two
      records. */
  lemma FollowToggleAgain(users: seq<User>, current: Id, target: Id)
    requires FollowToggle(users, current, target).Ok?
    ensures var once := FollowToggle(users, current, target).value.users;
      && Find(once, UserId, target) == Find(users, UserId, target)
      && Find(once, UserId, current) == Find(users, UserId, current)
      && FollowToggle(once, current, target).Ok?
  {
    FindSameIds(users, FollowToggle(users, current, target).value.users, UserId);
  }

  /** Two toggles restore whether `current` follows `target`, on both
      sides. */
  lemma FollowToggleTwiceRestoresMembership(users: seq<User>, current: Id, target: Id)
    requires FollowToggle(users, current, target).Ok?
    ensures FollowToggle(FollowToggle(users, current, target).value.users, current, target).Ok?
    ensures var twice := FollowToggle(FollowToggle(users, current, target).value.users, current, target).value.users;
      var t := Find(users, UserId, target).value;
      var c := Find(users, UserId, current).value;
      && (current in twice[t].followers <==> current in users[t].followers)
      && (target in twice[c].following <==> current in users[t].followers)
  {
    FollowToggleAgain(users, current, target);
  }

  /** Following and then unfollowing gives back both lists exactly, when
      neither held the other's id before. */
  lemma FollowThenUnfollowRestores(users: seq<User>, current: Id, target: Id)
    requires FollowToggle(users, current, target).Ok?
    requires current !in users[Find(users, UserId, target).value].followers
    requires target !in users[Find(users, UserId, current).value].following
    ensures FollowToggle(FollowToggle(users, current, target).value.users, current, target).Ok?
    ensures FollowToggle(FollowToggle(users, current, target).value.users, current, target).value.users == users
  {
    var t := Find(users, UserId, target).value;
    var c := Find(users, UserId, current).value;
    var once := FollowToggle(users, current, target).value.users;
    FollowToggleAgain(users, current, target);
    var twice := FollowToggle(once, current, target).value.users;
    PushThenRemove(users[t].followers, current);
    PushThenRemove(users[c].following, target);
    assert twice[t] == users[t];
    assert twice[c] == users[c];
  }

  /** The handler: the checks, then both records rewritten. */
  method ToggleFollow(db: Store, current: Id, target: Id) returns (r: Result<FollowReply>)
    requires db.Valid()
    modifies db`users
    ensures db.Valid()
    ensures var s := FollowToggle(old(db.users), current, target);
      && (s.Ok? ==> r == Ok(s.value.reply) && db.users == s.value.users)
      && (s.Err? ==> r == Err(s.error) && db.users == old(db.users))
  {
    if current == target {
      return Err(BadRequest);
    }
    var foundTarget := Find(db.users, UserId, target);
    if foundTarget.None? {
      return Err(NotFound);
    }
    var foundCurrent := Find(db.users, UserId, current);
    if foundCurrent.None? {
      return Err(NotFound);
    }
    var t, c := foundTarget.value, foundCurrent.value;
    var targetUser, currentUser := db.users[t], db.users[c];
    var isFollowing := current in targetUser.followers;
    if isFollowing {
      targetUser := targetUser.(followers := RemoveAll(targetUser.followers, current));
      currentUser := currentUser.(following := RemoveAll(currentUser.following, target));
    } else {
      targetUser := targetUser.(followers := targetUser.followers + [current]);
      currentUser := currentUser.(following := currentUser.following + [target]);
    }
    UsersOkUpdate(db.users, t, targetUser, db.nextId);
    db.users := db.users[t := targetUser];
    UsersOkUpdate(db.users, c, currentUser, db.nextId);
    db.users := db.users[c := currentUser];
    r := Ok(FollowReply(!isFollowing, |targetUser.followers|));
  }
}
