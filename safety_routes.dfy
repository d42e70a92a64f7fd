/** The safety routes: blocking and unblocking a user, and reporting one. */
module SafetyRoutes {
  import opened Common
  import opened Lists
  import opened UserModel
  import opened Db

  /** `POST /safety/block/:id`: the current user's block list gains the
      target, once. */
  function BlockStep(users: seq<User>, current: Id, target: Id): (r: Result<seq<User>>)
    ensures current == target ==> r == Err(BadRequest)
    ensures current != target && Find(users, UserId, target).None? ==> r == Err(NotFound)
    ensures current != target && Find(users, UserId, target).Some? && Find(users, UserId, current).None? ==>
      r == Err(NotFound)
    ensures (current != target && Find(users, UserId, target).Some? && Find(users, UserId, current).Some? &&
             target in users[Find(users, UserId, current).value].blockedUsers) ==> r == Err(BadRequest)
    ensures r.Ok? <==>
      && current != target
      && Find(users, UserId, target).Some?
      && Find(users, UserId, current).Some?
      && target !in users[Find(users, UserId, current).value].blockedUsers
    ensures r.Err? ==> r.error == BadRequest || r.error == NotFound
    ensures r.Ok? ==>
      var c := Find(users, UserId, current).value;
      && |r.value| == |users|
      && r.value[c].blockedUsers == users[c].blockedUsers + [target]
      && r.value[c] == users[c].(blockedUsers := r.value[c].blockedUsers)
      && (NoDuplicates(users[c].blockedUsers) ==> NoDuplicates(r.value[c].blockedUsers))
      && forall j :: 0 <= j < |users| && j != c ==> r.value[j] == users[j]
  {
    if current == target then Err(BadRequest)
    else if Find(users, UserId, target).None? then Err(NotFound)
    else match Find(users, UserId, current)
      case None => Err(NotFound)
      case Some(c) =>
        if target in users[c].blockedUsers then Err(BadRequest)
        else Ok(users[c := users[c].(blockedUsers := users[c].blockedUsers + [target])])
  }

  /** `DELETE /safety/block/:id`: every copy of the target leaves the block
      list; the other entries stay, in order. */
  function UnblockStep(users: seq<User>, current: Id, target: Id): (r: Result<seq<User>>)
    ensures Find(users, UserId, current).None? ==> r == Err(NotFound)
    ensures Find(users, UserId, current).Some? && target !in users[Find(users, UserId, current).value].blockedUsers ==>
            r == Err(BadRequest)
    ensures r.Ok? <==>
      Find(users, UserId, current).Some? && target in users[Find(users, UserId, current).value].blockedUsers
    ensures r.Err? ==> r.error == BadRequest || r.error == NotFound
    ensures r.Ok? ==>
      var c := Find(users, UserId, current).value;
      && |r.value| == |users|
      && r.value[c].blockedUsers == RemoveAll(users[c].blockedUsers, target)
      && target !in r.value[c].blockedUsers
      && multiset(r.value[c].blockedUsers) == multiset(users[c].blockedUsers)[target := 0]
      && r.value[c] == users[c].(blockedUsers := r.value[c].blockedUsers)
      && forall j :: 0 <= j < |users| && j != c ==> r.value[j] == users[j]
  {
    match Find(users, UserId, current)
    case None => Err(NotFound)
    case Some(c) =>
      if target !in users[c].blockedUsers then Err(BadRequest)
      else Ok(users[c := users[c].(blockedUsers := RemoveAll(users[c].blockedUsers, target))])
  }

  /** Blocking a user who is already blocked fails and so changes nothing. */
  lemma BlockTwiceRejected(users: seq<User>, current: Id, target: Id)
    requires BlockStep(users, current, target).Ok?
    ensures BlockStep(BlockStep(users, current, target).value, current, target) == Err(BadRequest)
  {
    var once := BlockStep(users, current, target).value;
    FindSameIds(users, once, UserId);
  }

  /** Blocking and then unblocking gives back the collection exactly. */
  lemma BlockThenUnblockRestores(users: seq<User>, current: Id, target: Id)
    requires BlockStep(users, current, target).Ok?
    ensures UnblockStep(BlockStep(users, current, target).value, current, target) == Ok(users)
  {
    var once := BlockStep(users, current, target).value;
    var c := Find(users, UserId, current).value;
    FindSameIds(users, once, UserId);
    PushThenRemove(users[c].blockedUsers, target);
    assert once[c := once[c].(blockedUsers := users[c].blockedUsers)] == users;
  }

  /** The block handler. */
  method Block(db: Store, current: Id, target: Id) returns (r: Outcome)
    requires db.Valid()
    modifies db`users
    ensures db.Valid()
    ensures var s := BlockStep(old(db.users), current, target);
      && (s.Ok? ==> r == Done && db.users == s.value)
      && (s.Err? ==> r == Fail(s.error) && db.users == old(db.users))
  {
    if current == target {
      return Fail(BadRequest);
    }
    if Find(db.users, UserId, target).None? {
      return Fail(NotFound);
    }
    var found := Find(db.users, UserId, current);
    if found.None? {
      return Fail(NotFound);
    }
    var c := found.value;
    var u := db.users[c];
    if target in u.blockedUsers {
      return Fail(BadRequest);
    }
    u := u.(blockedUsers := u.blockedUsers + [target]);
    UsersOkUpdate(db.users, c, u, db.nextId);
    db.users := db.users[c := u];
    r := Done;
  }

  /** The unblock handler. */
  method Unblock(db: Store, current: Id, target: Id) returns (r: Outcome)
    requires db.Valid()
    modifies db`users
    ensures db.Valid()
    ensures var s := UnblockStep(old(db.users), current, target);
      && (s.Ok? ==> r == Done && db.users == s.value)
      && (s.Err? ==> r == Fail(s.error) && db.users == old(db.users))
  {
    var found := Find(db.users, UserId, current);
    if found.None? {
      return Fail(NotFound);
    }
    var c := found.value;
    var u := db.users[c];
    if target !in u.blockedUsers {
      return Fail(BadRequest);
    }
    u := u.(blockedUsers := RemoveAll(u.blockedUsers, target));
    UsersOkUpdate(db.users, c, u, db.nextId);
    db.users := db.users[c := u];
    r := Done;
  }

  /** `POST /safety/report/:id`: nothing is stored; the report is refused for
      oneself and for a missing target, and accepted otherwise. The reason
      and description are only logged. */
  function Report(users: seq<User>, current: Id, target: Id): (r: Outcome)
    ensures r == Done <==> current != target && exists k :: 0 <= k < |users| && users[k].id == target
    ensures current == target ==> r == Fail(BadRequest)
    ensures current != target && r != Done ==> r == Fail(NotFound)
  {
    if current == target then Fail(BadRequest)
    else if Find(users, UserId, target).None? then Fail(NotFound)
    else Done
  }
}
