/** The privacy routes: reading a user's privacy settings and updating any of
    the three of them. */
module PrivacyRoutes {
  import opened Common
  import opened Lists
  import opened UserModel
  import opened Db

  /** `GET /privacy`. */
  function GetPrivacy(users: seq<User>, userId: Id): (r: Result<PrivacySettings>)
    ensures r.Err? <==> Find(users, UserId, userId).None?
    ensures r.Err? ==> r.error == NotFound
    ensures r.Ok? ==> exists k :: 0 <= k < |users| && users[k].id == userId && r.value == users[k].privacy
  {
    match Find(users, UserId, userId)
    case None => Err(NotFound)
    case Some(k) => Ok(users[k].privacy)
  }

  /** The request body: each setting is optional and arrives as a string. */
  datatype PrivacyRequest = PrivacyRequest(
    profileVisibility: Option<string>,
    postVisibility: Option<string>,
    contactPermission: Option<string>)

  /** Every supplied setting is one of its enum's values. */
  predicate RequestValid(req: PrivacyRequest) {
    && (req.profileVisibility.Some? ==> ParseVisibility(req.profileVisibility.value).Some?)
    && (req.postVisibility.Some? ==> ParseVisibility(req.postVisibility.value).Some?)
    && (req.contactPermission.Some? ==> ParseContactPermission(req.contactPermission.value).Some?)
  }

  /** The settings with the supplied fields set and the others kept. */
  function Apply(p: PrivacySettings, req: PrivacyRequest): (r: PrivacySettings)
    requires RequestValid(req)
    ensures req.profileVisibility.Some? ==> Some(r.profileVisibility) == ParseVisibility(req.profileVisibility.value)
    ensures req.profileVisibility.None? ==> r.profileVisibility == p.profileVisibility
    ensures req.postVisibility.Some? ==> Some(r.postVisibility) == ParseVisibility(req.postVisibility.value)
    ensures req.postVisibility.None? ==> r.postVisibility == p.postVisibility
    ensures req.contactPermission.Some? ==> Some(r.contactPermission) == ParseContactPermission(req.contactPermission.value)
    ensures req.contactPermission.None? ==> r.contactPermission == p.contactPermission
  {
    PrivacySettings(
      if req.profileVisibility.Some? then ParseVisibility(req.profileVisibility.value).value else p.profileVisibility,
      if req.postVisibility.Some? then ParseVisibility(req.postVisibility.value).value else p.postVisibility,
      if req.contactPermission.Some? then ParseContactPermission(req.contactPermission.value).value else p.contactPermission)
  }

  datatype PrivacyUpdated = PrivacyUpdated(users: seq<User>, settings: PrivacySettings)

  /** `PUT /privacy`: the update runs the enum validators before it looks the
      user up, so a value outside an enum is a server error even for a
      missing user; otherwise only the supplied settings change. */
  function UpdateStep(users: seq<User>, userId: Id, req: PrivacyRequest): (r: Result<PrivacyUpdated>)
    ensures !RequestValid(req) ==> r == Err(ServerError)
    ensures RequestValid(req) && Find(users, UserId, userId).None? ==> r == Err(NotFound)
    ensures r.Ok? <==> RequestValid(req) && Find(users, UserId, userId).Some?
    ensures r.Err? ==> r.error == ServerError || r.error == NotFound
    ensures r.Ok? ==>
      var k := Find(users, UserId, userId).value;
      && |r.value.users| == |users|
      && r.value.users == users[k := users[k].(privacy := r.value.settings)]
      && r.value.settings == Apply(users[k].privacy, req)
  {
    if !RequestValid(req) then Err(ServerError)
    else match Find(users, UserId, userId)
      case None => Err(NotFound)
      case Some(k) =>
        var settings := Apply(users[k].privacy, req);
        Ok(PrivacyUpdated(users[k := users[k].(privacy := settings)], settings))
  }

  /** An empty request leaves every user as they were. */
  lemma EmptyUpdateChangesNothing(users: seq<User>, userId: Id)
    requires Find(users, UserId, userId).Some?
    ensures UpdateStep(users, userId, PrivacyRequest(None, None, None)).Ok?
    ensures UpdateStep(users, userId, PrivacyRequest(None, None, None)).value.users == users
  {
    var k := Find(users, UserId, userId).value;
    assert users[k].(privacy := Apply(users[k].privacy, PrivacyRequest(None, None, None))) == users[k];
    assert users[k := users[k]] == users;
  }

  /** Reading the settings after an update gives what the update returned. */
  lemma GetAfterUpdate(users: seq<User>, userId: Id, req: PrivacyRequest)
    requires UpdateStep(users, userId, req).Ok?
    ensures GetPrivacy(UpdateStep(users, userId, req).value.users, userId) == Ok(UpdateStep(users, userId, req).value.settings)
  {
    var after := UpdateStep(users, userId, req).value.users;
    FindSameIds(users, after, UserId);
  }

  /** Applying the same request twice is applying it once. */
  lemma UpdateIdempotent(users: seq<User>, userId: Id, req: PrivacyRequest)
    requires UpdateStep(users, userId, req).Ok?
    ensures UpdateStep(UpdateStep(users, userId, req).value.users, userId, req) == UpdateStep(users, userId, req)
  {
    var once := UpdateStep(users, userId, req).value;
    var k := Find(users, UserId, userId).value;
    FindSameIds(users, once.users, UserId);
    assert Apply(once.settings, req) == once.settings;
    assert once.users[k := once.users[k].(privacy := once.settings)] == once.users;
  }

  /** The update handler. */
  method UpdatePrivacy(db: Store, userId: Id, req: PrivacyRequest) returns (r: Result<PrivacySettings>)
    requires db.Valid()
    modifies db`users
    ensures db.Valid()
    ensures var s := UpdateStep(old(db.users), userId, req);
      && (s.Ok? ==> r == Ok(s.value.settings) && db.users == s.value.users)
      && (s.Err? ==> r == Err(s.error) && db.users == old(db.users))
  {
    if !RequestValid(req) {
      return Err(ServerError);
    }
    var found := Find(db.users, UserId, userId);
    if found.None? {
      return Err(NotFound);
    }
    var k := found.value;
    var settings := Apply(db.users[k].privacy, req);
    var u := db.users[k].(privacy := settings);
    UsersOkUpdate(db.users, k, u, db.nextId);
    db.users := db.users[k := u];
    r := Ok(settings);
  }
}
