/** UserRepository.findFriendsByUserId: the users who share at least one
    group with the given user, the user excluded, each listed once. The
    native query joins group_members with itself on group_id and keeps the
    users on the other side of a row of the given user. */
module UserRepository {
  import opened Seqs
  import opened Store

  /** Some group has a membership row for `u` and one for `v`. */
  predicate ShareGroup(members: seq<GroupMember>, u: UserId, v: UserId)
  {
    exists i, j :: 0 <= i < |members| && 0 <= j < |members| &&
      members[i].userId == v && members[j].userId == u && members[i].groupId == members[j].groupId
  }

  /** The user ids the join selects: `gm1.user_id` over every pair of rows
      `gm1`, `gm2` with `gm1.group_id = gm2.group_id`, `gm2.user_id = u` and
      `gm1.user_id != u`. */
  function FriendIds(members: seq<GroupMember>, u: UserId): set<UserId>
  {
    set m1, m2 | m1 in members && m2 in members && m2.userId == u && m1.groupId == m2.groupId && m1.userId != u
      :: m1.userId
  }

  /** The query result: `SELECT DISTINCT u.*` over the users whose id the
      join selects. SQL leaves the row order open; table order is used. */
  function FindFriendsByUserId(users: seq<User>, members: seq<GroupMember>, u: UserId): (r: seq<User>)
    ensures |r| <= |users|
  {
    if users == [] then []
    else
      (if users[0].id in FriendIds(members, u) then [users[0]] else [])
      + FindFriendsByUserId(users[1..], members, u)
  }

  /** The join selects `v` exactly when `v` is another user sharing a group
      with `u`. */
  lemma FriendIdsExact(members: seq<GroupMember>, u: UserId, v: UserId)
    ensures v in FriendIds(members, u) <==> v != u && ShareGroup(members, u, v)
  {
    if v in FriendIds(members, u) {
      var m1, m2 :| m1 in members && m2 in members && m2.userId == u && m1.groupId == m2.groupId
                    && m1.userId != u && m1.userId == v;
      var i :| 0 <= i < |members| && members[i] == m1;
      var j :| 0 <= j < |members| && members[j] == m2;
    }
    if v != u && ShareGroup(members, u, v) {
      var i, j :| 0 <= i < |members| && 0 <= j < |members| &&
        members[i].userId == v && members[j].userId == u && members[i].groupId == members[j].groupId;
      assert members[i] in members && members[j] in members;
    }
  }

  /** The result holds exactly the stored users that the join selects. */
  lemma {:induction false} FriendsExact(users: seq<User>, members: seq<GroupMember>, u: UserId)
    ensures forall x :: x in FindFriendsByUserId(users, members, u) <==> x in users && x.id in FriendIds(members, u)
    decreases |users|
  {
    if users != [] {
      FriendsExact(users[1..], members, u);
      assert forall x :: x in users <==> x == users[0] || x in users[1..];
    }
  }

  /** A stored user is a friend of `u` exactly when it is another user
      sharing a group with `u`; in particular a user is never a friend of
      themself. */
  lemma FriendIff(users: seq<User>, members: seq<GroupMember>, u: UserId, x: User)
    requires x in users
    ensures x in FindFriendsByUserId(users, members, u) <==> x.id != u && ShareGroup(members, u, x.id)
  {
    FriendsExact(users, members, u);
    FriendIdsExact(members, u, x.id);
  }

  /** Friendship is symmetric. */
  lemma FriendsSymmetric(users: seq<User>, members: seq<GroupMember>, x: User, y: User)
    requires x in users && y in users
    ensures x in FindFriendsByUserId(users, members, y.id) <==> y in FindFriendsByUserId(users, members, x.id)
  {
    FriendIff(users, members, y.id, x);
    FriendIff(users, members, x.id, y);
    if ShareGroup(members, y.id, x.id) {
      var i, j :| 0 <= i < |members| && 0 <= j < |members| &&
        members[i].userId == x.id && members[j].userId == y.id && members[i].groupId == members[j].groupId;
      assert members[j].userId == y.id && members[i].userId == x.id && members[j].groupId == members[i].groupId;
    }
    if ShareGroup(members, x.id, y.id) {
      var i, j :| 0 <= i < |members| && 0 <= j < |members| &&
        members[i].userId == y.id && members[j].userId == x.id && members[i].groupId == members[j].groupId;
      assert members[j].userId == x.id && members[i].userId == y.id && members[j].groupId == members[i].groupId;
    }
  }

  /** A user with no membership row has no friends. */
  lemma NoGroupNoFriends(users: seq<User>, members: seq<GroupMember>, u: UserId)
    requires forall m :: m in members ==> m.userId != u
    ensures FindFriendsByUserId(users, members, u) == []
  {
    assert FriendIds(members, u) == {};
    FriendsExact(users, members, u);
    if FindFriendsByUserId(users, members, u) != [] {
      assert FindFriendsByUserId(users, members, u)[0] in FindFriendsByUserId(users, members, u);
    }
  }

  /** With unique user ids, every friend is listed once. */
  lemma {:induction false} FriendsDistinct(users: seq<User>, members: seq<GroupMember>, u: UserId)
    requires Distinct(UserIds(users))
    ensures Distinct(FindFriendsByUserId(users, members, u))
    decreases |users|
  {
    if users != [] {
      assert UserIds(users[1..]) == UserIds(users)[1..];
      FriendsDistinct(users[1..], members, u);
      FriendsExact(users[1..], members, u);
      forall k | 1 <= k < |users|
        ensures users[k] != users[0]
      {
        assert UserIds(users)[k] != UserIds(users)[0];
      }
      assert users[0] !in users[1..];
    }
  }
}
