/** GroupService: creating a group with its creator and initial members,
    joining a group by its invite token, and the two membership listings.
    No operation deletes a membership row, so membership only grows. */
module GroupService {
  import opened Wrappers
  import opened Seqs
  import opened Store
  import UserService

  /** CreateGroupRequest. `initialMembers` may be absent (null). */
  datatype CreateGroupRequest = CreateGroupRequest(
    name: string, initialMembers: Option<seq<UserId>>, createdBy: UserId)

  /** The `@NotBlank` name the controller enforces with `@Valid`. */
  predicate ValidRequest(req: CreateGroupRequest)
  {
    NotBlank(req.name)
  }

  /** GroupResponse without its creation timestamp. */
  datatype GroupResponse = GroupResponse(id: GroupId, name: string, inviteToken: string, createdBy: UserId)

  /** GroupService.mapToResponse. */
  function ToResponse(g: Group): (r: GroupResponse)
    ensures r.id == g.id && r.name == g.name && r.inviteToken == g.inviteToken && r.createdBy == g.createdBy
  {
    GroupResponse(g.id, g.name, g.inviteToken, g.createdBy)
  }

  /** The failure of the unique (group_id, user_id) constraint when the
      transaction commits. */
  const DuplicateMember := "Duplicate group member"

  /** The requested initial members; an absent list counts as empty. */
  function Invited(req: CreateGroupRequest): seq<UserId>
  {
    match req.initialMembers
    case None => []
    case Some(ids) => ids
  }

  /** The users createGroup writes membership rows for, in order: the
      creator, then every initial member that is not the creator. */
  function AddedIds(req: CreateGroupRequest): seq<UserId>
  {
    [req.createdBy] + Without(Invited(req), req.createdBy)
  }

  /** Every id of the list names a stored user. */
  predicate KnownUsers(users: seq<User>, ids: seq<UserId>)
  {
    forall k :: 0 <= k < |ids| ==> ids[k] in UserIds(users)
  }

  /** GroupService.createGroup. `newGroupId` and `token` stand for the
      generated UUIDs. The membership rows are flushed when the transaction
      commits, so a repeated initial member fails only after every initial
      member has been looked up. */
  method CreateGroup(db: Database, req: CreateGroupRequest, newGroupId: GroupId, token: string)
    returns (r: Result<GroupResponse>)
    requires db.Valid() && ValidRequest(req)
    requires newGroupId !in GroupIds(db.groups) && token !in InviteTokens(db.groups)
    modifies db`groups, db`members
    ensures db.Valid()
    ensures old(db.members) <= db.members
    ensures r.Err? <==>
      || req.createdBy !in UserIds(db.users)
      || !KnownUsers(db.users, Invited(req))
      || !Distinct(Without(Invited(req), req.createdBy))
    ensures r.Err? && (req.createdBy !in UserIds(db.users) || !KnownUsers(db.users, Invited(req))) ==>
              r.message == "User not found"
    ensures r.Err? && req.createdBy in UserIds(db.users) && KnownUsers(db.users, Invited(req)) ==>
              r.message == DuplicateMember
    ensures r.Err? ==> db.groups == old(db.groups) && db.members == old(db.members)
    ensures r.Ok? ==>
      && db.groups == old(db.groups) + [Group(newGroupId, req.name, req.createdBy, token)]
      && db.members == old(db.members) + MemberRows(newGroupId, AddedIds(req))
    ensures r.Ok? ==> r.value == GroupResponse(newGroupId, req.name, token, req.createdBy)
  {
    var creator := FindUserById(db.users, req.createdBy);
    if creator.None? {
      return Err("User not found");
    }
    var group := Group(newGroupId, req.name, creator.value.id, token);
    r := SaveGroup(db, req, group);
  }

  /** createGroup once the creator is found: save the group, then the
      creator's row and the initial members' rows; the transaction rolls
      all of it back when an initial member is unknown or repeated. */
  method SaveGroup(db: Database, req: CreateGroupRequest, group: Group) returns (r: Result<GroupResponse>)
    requires db.Valid()
    requires group.id !in GroupIds(db.groups) && group.inviteToken !in InviteTokens(db.groups)
    requires group.createdBy == req.createdBy && req.createdBy in UserIds(db.users)
    modifies db`groups, db`members
    ensures db.Valid()
    ensures old(db.members) <= db.members
    ensures r.Err? <==> !KnownUsers(db.users, Invited(req)) || !Distinct(Without(Invited(req), req.createdBy))
    ensures r.Err? && !KnownUsers(db.users, Invited(req)) ==> r.message == "User not found"
    ensures r.Err? && KnownUsers(db.users, Invited(req)) ==> r.message == DuplicateMember
    ensures r.Err? ==> db.groups == old(db.groups) && db.members == old(db.members)
    ensures r.Ok? ==>
      && db.groups == old(db.groups) + [group]
      && db.members == old(db.members) + MemberRows(group.id, AddedIds(req))
    ensures r.Ok? ==> r.value == ToResponse(group)
  {
    // The state to restore when the transaction rolls back.
    var groups0, members0 := db.groups, db.members;
    GroupInserted(db.users, db.groups, db.members, db.expenses, db.splits, db.settlements, group);
    db.groups := db.groups + [group];
    db.members := db.members + [GroupMember(group.id, req.createdBy)];
    var ok := true;
    if req.initialMembers.Some? {
      ok := AddInitialMembers(db, group.id, req.createdBy, req.initialMembers.value);
    }
    assert ok <==> KnownUsers(db.users, Invited(req));
    var unique := false;
    if ok {
      assert db.members == members0 + MemberRows(group.id, AddedIds(req)) by {
        RowsCons(group.id, req.createdBy, Without(Invited(req), req.createdBy));
      }
      // Commit: the unique (group_id, user_id) constraint is checked.
      CommitRows(db.users, groups0, group, members0, db.expenses, db.splits, db.settlements, req);
      unique := Distinct(db.members);
    }
    if !ok || !unique {
      // Rollback.
      db.groups, db.members := groups0, members0;
      return Err(if !ok then "User not found" else DuplicateMember);
    }
    r := Ok(ToResponse(group));
  }

  /** The initial-members loop of createGroup: skip the creator, look up
      every other id and write its row, until an id names no user. */
  method AddInitialMembers(db: Database, g: GroupId, creator: UserId, ids: seq<UserId>) returns (ok: bool)
    requires creator in UserIds(db.users)
    modifies db`members
    ensures ok <==> KnownUsers(db.users, ids)
    ensures ok ==> db.members == old(db.members) + MemberRows(g, Without(ids, creator))
  {
    for k := 0 to |ids|
      invariant db.members == old(db.members) + MemberRows(g, Without(ids[..k], creator))
      invariant KnownUsers(db.users, ids[..k])
    {
      AddedStep(ids, k, creator);
      if ids[k] == creator {
        continue;
      }
      var friend := FindUserById(db.users, ids[k]);
      if friend.None? {
        return false;
      }
      RowsSnoc(g, Without(ids[..k], creator), ids[k]);
      db.members := db.members + [GroupMember(g, friend.value.id)];
    }
    assert ids[..|ids|] == ids;
    return true;
  }

  lemma RowsCons(g: GroupId, u: UserId, ids: seq<UserId>)
    ensures MemberRows(g, [u] + ids) == [GroupMember(g, u)] + MemberRows(g, ids)
  {
  }

  /** The commit of createGroup: with the new group stored and every added
      user known, the new rows break the unique (group_id, user_id)
      constraint exactly when an initial member other than the creator is
      repeated, and otherwise the schema's constraints hold. */
  lemma CommitRows(users: seq<User>, groups0: seq<Group>, group: Group, members0: seq<GroupMember>,
                   expenses: seq<Expense>, splits: seq<ExpenseSplit>, settlements: seq<Settlement>,
                   req: CreateGroupRequest)
    requires Consistent(users, groups0, members0, expenses, splits, settlements)
    requires Consistent(users, groups0 + [group], members0, expenses, splits, settlements)
    requires group.id !in GroupIds(groups0)
    requires req.createdBy in UserIds(users) && KnownUsers(users, Invited(req))
    ensures Distinct(members0 + MemberRows(group.id, AddedIds(req))) <==> Distinct(Without(Invited(req), req.createdBy))
    ensures Distinct(Without(Invited(req), req.createdBy)) ==>
      Consistent(users, groups0 + [group], members0 + MemberRows(group.id, AddedIds(req)), expenses, splits, settlements)
  {
    var rows := MemberRows(group.id, AddedIds(req));
    FreshRowsDistinct(members0, group.id, AddedIds(req));
    WithoutDistinctWithHead(Invited(req), req.createdBy);
    AddedIdsExact(req);
    forall m | m in rows
      ensures m.groupId in GroupIds(groups0 + [group]) && m.userId in UserIds(users)
    {
      assert GroupIds(groups0 + [group])[|groups0|] == group.id;
      var k :| 0 <= k < |rows| && rows[k] == m;
      assert AddedIds(req)[k] in AddedIds(req);
      if m.userId != req.createdBy {
        var j :| 0 <= j < |Invited(req)| && Invited(req)[j] == m.userId;
      }
    }
    if Distinct(Without(Invited(req), req.createdBy)) {
      MembersInserted(users, groups0 + [group], members0, expenses, splits, settlements, rows);
    }
  }

  /** One step of the initial-members loop in terms of the rows written. */
  lemma AddedStep(ids: seq<UserId>, k: nat, creator: UserId)
    requires k < |ids|
    ensures Without(ids[..k + 1], creator)
      == Without(ids[..k], creator) + (if ids[k] == creator then [] else [ids[k]])
  {
    assert ids[..k + 1] == ids[..k] + [ids[k]];
    WithoutConcat(ids[..k], [ids[k]], creator);
    assert [ids[k]][1..] == [];
  }

  lemma RowsSnoc(g: GroupId, ids: seq<UserId>, u: UserId)
    ensures MemberRows(g, ids + [u]) == MemberRows(g, ids) + [GroupMember(g, u)]
  {
  }

  /** The creator heads the added ids once, so they are duplicate-free
      exactly when the initial members other than the creator are. */
  lemma WithoutDistinctWithHead(ids: seq<UserId>, creator: UserId)
    ensures Distinct([creator] + Without(ids, creator)) <==> Distinct(Without(ids, creator))
  {
    var rest := Without(ids, creator);
    var all := [creator] + rest;
    WithoutMembers(ids, creator);
    if Distinct(rest) {
      forall i, j | 0 <= i < j < |all|
        ensures all[i] != all[j]
      {
        if i == 0 {
          assert all[j] in rest;
        } else {
          assert all[i] == rest[i - 1] && all[j] == rest[j - 1];
        }
      }
    }
    if Distinct(all) {
      forall i, j | 0 <= i < j < |rest|
        ensures rest[i] != rest[j]
      {
        assert all[i + 1] != all[j + 1];
      }
    }
  }

  /** The ids createGroup adds: the creator first and only there, and as a
      set the creator together with the initial members. */
  lemma AddedIdsExact(req: CreateGroupRequest)
    ensures AddedIds(req)[0] == req.createdBy
    ensures req.createdBy !in AddedIds(req)[1..]
    ensures forall u :: u in AddedIds(req) <==> u == req.createdBy || u in Invited(req)
  {
    var rest := Without(Invited(req), req.createdBy);
    assert AddedIds(req)[1..] == rest;
    WithoutMembers(Invited(req), req.createdBy);
    assert forall u :: u in AddedIds(req) <==> u == req.createdBy || u in rest;
  }

  /** After createGroup the group's members, read back in row order, are
      exactly the added ids. */
  lemma CreatedGroupMembers(members0: seq<GroupMember>, req: CreateGroupRequest, g: GroupId)
    requires forall m :: m in members0 ==> m.groupId != g
    ensures MemberIdsOf(members0 + MemberRows(g, AddedIds(req)), g) == AddedIds(req)
  {
    MemberIdsOfConcat(members0, MemberRows(g, AddedIds(req)), g);
    MemberIdsOfNone(members0, g);
    MemberIdsOfRows(g, AddedIds(req), g);
    assert [] + AddedIds(req) == AddedIds(req);
  }

  /** createGroup writes no row of any other group. */
  lemma CreateGroupLeavesOtherGroups(members0: seq<GroupMember>, req: CreateGroupRequest, g: GroupId, h: GroupId)
    requires g != h
    ensures MemberIdsOf(members0 + MemberRows(g, AddedIds(req)), h) == MemberIdsOf(members0, h)
  {
    MemberIdsOfConcat(members0, MemberRows(g, AddedIds(req)), h);
    MemberIdsOfRows(g, AddedIds(req), h);
  }

  /** GroupService.joinGroup. */
  method JoinGroup(db: Database, token: string, userId: UserId) returns (r: Result<()>)
    requires db.Valid()
    modifies db`members
    ensures db.Valid()
    ensures old(db.members) <= db.members
    ensures r.Err? <==>
      || token !in InviteTokens(db.groups)
      || userId !in UserIds(db.users)
      || GroupMember(FindGroupByToken(db.groups, token).value.id, userId) in old(db.members)
    ensures r.Err? && token !in InviteTokens(db.groups) ==> r.message == "Invalid invite token"
    ensures r.Err? && token in InviteTokens(db.groups) && userId !in UserIds(db.users) ==>
              r.message == "User not found"
    ensures r.Err? && token in InviteTokens(db.groups) && userId in UserIds(db.users) ==>
              r.message == "User already in group"
    ensures r.Err? ==> db.members == old(db.members)
    ensures r.Ok? ==>
      db.members == old(db.members) + [GroupMember(FindGroupByToken(db.groups, token).value.id, userId)]
  {
    var group := FindGroupByToken(db.groups, token);
    if group.None? {
      return Err("Invalid invite token");
    }
    var user := FindUserById(db.users, userId);
    if user.None? {
      return Err("User not found");
    }
    var row := GroupMember(group.value.id, user.value.id);
    if row in db.members {
      return Err("User already in group");
    }
    assert group.value.id in GroupIds(db.groups) by {
      var i :| 0 <= i < |db.groups| && db.groups[i] == group.value;
      assert GroupIds(db.groups)[i] == group.value.id;
    }
    MemberInserted(db.users, db.groups, db.members, db.expenses, db.splits, db.settlements, row);
    db.members := db.members + [row];
    r := Ok(());
  }

  /** A successful join adds the user to that group's members, last, and
      leaves the members of every other group as they were. */
  lemma JoinedGroupMembers(members: seq<GroupMember>, m: GroupMember, h: GroupId)
    ensures MemberIdsOf(members + [m], h)
      == MemberIdsOf(members, h) + (if m.groupId == h then [m.userId] else [])
  {
    MemberIdsOfConcat(members, [m], h);
    MemberIdsOfRows(m.groupId, [m.userId], h);
    assert MemberRows(m.groupId, [m.userId]) == [m];
  }

  /** GroupService.findById. */
  function FindById(groups: seq<Group>, id: GroupId): (r: Result<Group>)
    ensures r.Ok? <==> id in GroupIds(groups)
    ensures r.Ok? ==> r.value in groups && r.value.id == id
    ensures r.Err? ==> r.message == "Group not found"
  {
    match FindGroupById(groups, id)
    case None => Err("Group not found")
    case Some(g) => Ok(g)
  }

  /** GroupMemberRepository.findByUser: the group ids of the user's rows. */
  function GroupIdsOf(members: seq<GroupMember>, u: UserId): (r: seq<GroupId>)
    ensures forall g :: g in r <==> GroupMember(g, u) in members
  {
    if members == [] then []
    else
      var rest := GroupIdsOf(members[1..], u);
      assert forall g :: GroupMember(g, u) in members <==>
        GroupMember(g, u) == members[0] || GroupMember(g, u) in members[1..];
      if members[0].userId == u then [members[0].groupId] + rest else rest
  }

  function ResponseIds(rs: seq<GroupResponse>): seq<GroupId>
  {
    seq(|rs|, k requires 0 <= k < |rs| => rs[k].id)
  }

  /** GroupService.getUserGroups: one response per membership row of the
      user, in row order, so exactly the groups the user belongs to. */
  function GetUserGroups(db: Database, u: UserId): (r: Result<seq<GroupResponse>>)
    reads db
    requires db.Valid()
    ensures r.Err? <==> u !in UserIds(db.users)
    ensures r.Err? ==> r.message == "User not found"
    ensures r.Ok? ==> ResponseIds(r.value) == GroupIdsOf(db.members, u)
    ensures r.Ok? ==> forall g :: g in ResponseIds(r.value) <==> GroupMember(g, u) in db.members
  {
    if FindUserById(db.users, u).None? then Err("User not found")
    else
      var ids := GroupIdsOf(db.members, u);
      var groups := db.groups;
      assert forall g :: g in ids ==> g in GroupIds(groups);
      var rs := seq(|ids|, k requires 0 <= k < |ids| => ToResponse(FindGroupById(groups, ids[k]).value));
      assert ResponseIds(rs) == ids;
      Ok(rs)
  }

  /** GroupService.getGroupMembers: one response per membership row of the
      group, in row order. The group is not looked up first. */
  function GetGroupMembers(db: Database, g: GroupId): (r: seq<UserService.UserResponse>)
    reads db
    requires db.Valid()
    ensures |r| == |MemberIdsOf(db.members, g)|
    ensures forall k :: 0 <= k < |r| ==>
      r[k].id == MemberIdsOf(db.members, g)[k] &&
      exists i :: 0 <= i < |db.users| && db.users[i].id == r[k].id &&
                  db.users[i].name == r[k].name && db.users[i].email == r[k].email
  {
    var ids := MemberIdsOf(db.members, g);
    var users := db.users;
    assert forall u :: u in ids ==> u in UserIds(users);
    var rs := seq(|ids|, k requires 0 <= k < |ids| => UserService.ToResponse(FindUserById(users, ids[k]).value));
    assert forall k :: 0 <= k < |rs| ==> FindUserById(users, ids[k]).value in users;
    rs
  }

  /** An id that names no group has no members: getGroupMembers returns an
      empty list rather than failing. */
  lemma UnknownGroupHasNoMembers(db: Database, g: GroupId)
    requires db.Valid() && g !in GroupIds(db.groups)
    ensures GetGroupMembers(db, g) == []
  {
    MemberIdsOfNone(db.members, g);
  }
}
