/** The group routes: creating a group (its creator always a member, each
    member's group list gaining the group once) and fetching a group, for
    members only. */
module GroupsRoutes {
  import opened Common
  import opened Text
  import opened Lists
  import opened UserModel
  import opened Db

  /** The member list: the supplied array (nothing when the request carries
      no array), with the creator appended when absent. */
  function MemberIds(members: Option<seq<Id>>, creator: Id): (r: seq<Id>)
    ensures creator in r
    ensures forall m :: m in r <==> m == creator || (members.Some? && m in members.value)
    ensures members.Some? ==> |members.value| <= |r| <= |members.value| + 1 && r[..|members.value|] == members.value
    ensures members.None? ==> r == [creator]
    ensures members.Some? && creator in members.value ==> r == members.value
    ensures members.Some? && creator !in members.value ==> r == members.value + [creator]
  {
    var supplied := if members.Some? then members.value else [];
    if creator in supplied then supplied else supplied + [creator]
  }

  /** The store's users after `updateMany({ _id: { $in: members } },
      { $addToSet: { groups: group } })`. */
  function AddGroupToMembers(users: seq<User>, members: seq<Id>, group: Id): (r: seq<User>)
    ensures |r| == |users|
    ensures forall i :: 0 <= i < |r| && users[i].id in members ==>
      r[i] == users[i].(groups := AddToSet(users[i].groups, group))
    ensures forall i :: 0 <= i < |r| && users[i].id !in members ==> r[i] == users[i]
  {
    seq(|users|, i requires 0 <= i < |users| =>
      if users[i].id in members then users[i].(groups := AddToSet(users[i].groups, group)) else users[i])
  }

  /** After the update every member's group list holds the group, and a list
      without duplicates gains none. */
  lemma AddGroupToMembersSets(users: seq<User>, members: seq<Id>, group: Id, i: nat)
    requires i < |users|
    ensures var r := AddGroupToMembers(users, members, group);
      && (users[i].id in members ==> group in r[i].groups)
      && (NoDuplicates(users[i].groups) ==> NoDuplicates(r[i].groups))
      && (forall g :: g in r[i].groups <==> g in users[i].groups || (g == group && users[i].id in members))
  {
  }

  /** Adding the group a second time changes nothing. */
  lemma AddGroupToMembersIdempotent(users: seq<User>, members: seq<Id>, group: Id)
    ensures AddGroupToMembers(AddGroupToMembers(users, members, group), members, group)
      == AddGroupToMembers(users, members, group)
  {
    var once := AddGroupToMembers(users, members, group);
    assert forall i :: 0 <= i < |once| && users[i].id in members ==> group in once[i].groups;
  }

  /** The update touches only the `groups` lists, so the users collection
      stays well-formed. */
  lemma AddGroupKeepsUsersOk(users: seq<User>, members: seq<Id>, group: Id, bound: Id)
    requires UsersOk(users, bound)
    ensures UsersOk(AddGroupToMembers(users, members, group), bound)
  {
    var r := AddGroupToMembers(users, members, group);
    assert forall i :: 0 <= i < |r| ==>
      r[i].id == users[i].id && r[i].username == users[i].username && r[i].email == users[i].email
      && ValidUser(r[i]);
  }

  /** The `updateMany`, user by user in place. */
  method AddGroupToUsers(db: Store, members: seq<Id>, group: Id)
    requires db.Valid()
    modifies db`users
    ensures db.Valid()
    ensures db.users == AddGroupToMembers(old(db.users), members, group)
  {
    ghost var before := db.users;
    ghost var after := AddGroupToMembers(before, members, group);
    AddGroupKeepsUsersOk(before, members, group, db.nextId);
    var users := db.users;
    var i := 0;
    while i < |users|
      invariant 0 <= i <= |users| == |before| == |after|
      invariant forall j :: 0 <= j < i ==> users[j] == after[j]
      invariant forall j :: i <= j < |users| ==> users[j] == before[j]
    {
      var u := users[i];
      if u.id in members {
        users := users[i := u.(groups := AddToSet(u.groups, group))];
      }
      i := i + 1;
    }
    assert users == after;
    db.users := users;
  }

  /** `POST /groups`: a missing or blank name is refused; otherwise the
      group is stored under a fresh id with its trimmed name, and each member
      is given the group. */
  method CreateGroup(db: Store, creator: Id, name: Option<string>, members: Option<seq<Id>>, now: Time)
    returns (r: Result<Group>)
    requires db.Valid()
    modifies db`groups, db`users, db`nextId
    ensures db.Valid()
    ensures name.None? || IsBlank(name.value) ==>
      r == Err(BadRequest) && db.groups == old(db.groups) && db.users == old(db.users) && db.nextId == old(db.nextId)
    ensures name.Some? && !IsBlank(name.value) ==>
      && r == Ok(Group(old(db.nextId), Trim(name.value), MemberIds(members, creator), creator, now))
      && db.groups == old(db.groups) + [r.value]
      && db.users == AddGroupToMembers(old(db.users), r.value.members, r.value.id)
      && db.nextId == old(db.nextId) + 1
  {
    if name.None? || IsBlank(name.value) {
      return Err(BadRequest);
    }
    var group := Group(db.nextId, Trim(name.value), MemberIds(members, creator), creator, now);
    SaveGroup(db, group);
    r := Ok(group);
  }

  /** The `save()` of a new group followed by the members' update. */
  method SaveGroup(db: Store, group: Group)
    requires db.Valid() && group.id == db.nextId
    modifies db`groups, db`users, db`nextId
    ensures db.Valid()
    ensures db.groups == old(db.groups) + [group] && db.nextId == old(db.nextId) + 1
    ensures db.users == AddGroupToMembers(old(db.users), group.members, group.id)
  {
    db.InsertGroup(group);
    AddGroupToUsers(db, group.members, group.id);
  }

  /** A created group has a non-blank trimmed name and counts its creator
      among its members. */
  lemma CreatedGroupShape(members: Option<seq<Id>>, creator: Id, name: string, id: Id, now: Time)
    requires !IsBlank(name)
    ensures var g := Group(id, Trim(name), MemberIds(members, creator), creator, now);
      && g.creator in g.members && |g.name| > 0 && Trimmed(g.name)
  {
  }

  /** `GET /groups/:id`: a missing group is NotFound, a non-member is
      Forbidden. */
  function FetchGroup(groups: seq<Group>, groupId: Id, userId: Id): (r: Result<Group>)
    ensures Find(groups, GroupId, groupId).None? ==> r == Err(NotFound)
    ensures Find(groups, GroupId, groupId).Some? && userId !in groups[Find(groups, GroupId, groupId).value].members ==>
            r == Err(Forbidden)
    ensures r.Ok? <==> Find(groups, GroupId, groupId).Some? && userId in groups[Find(groups, GroupId, groupId).value].members
    ensures r.Err? ==> r.error == NotFound || r.error == Forbidden
    ensures r.Ok? ==> r.value in groups && r.value.id == groupId && userId in r.value.members
  {
    match Find(groups, GroupId, groupId)
    case None => Err(NotFound)
    case Some(k) => if userId in groups[k].members then Ok(groups[k]) else Err(Forbidden)
  }

  /** The creator of a group can always fetch it. */
  lemma CreatorCanFetch(groups: seq<Group>, g: Group)
    requires g.creator in g.members && UniqueIds(groups + [g], GroupId)
    ensures FetchGroup(groups + [g], g.id, g.creator) == Ok(g)
  {
    FindUnique(groups + [g], GroupId, |groups|);
  }
}
