/** The persistent state of the backend: one `Database` object whose fields are
    the JPA tables (users, groups, group_members, expenses, expense_splits,
    settlements), the entity records stored in them, and the repository
    queries the services use (findById, findByEmail, findByInviteToken,
    findByGroup, findByGroupAndIsDeletedFalse, findByExpense, existsByGroup).
    Table order stands for the order rows come back from a query. */
module Store {
  import opened Wrappers
  import opened Seqs

  type UserId = string
  type GroupId = string
  type ExpenseId = string
  type SettlementId = string
  type Timestamp = int

  /** Bean validation's `@NotBlank`: some character is not whitespace. */
  predicate NotBlank(s: string)
  {
    exists i :: 0 <= i < |s| && s[i] !in {' ', '\t', '\n', '\r'}
  }

  datatype User = User(id: UserId, name: string, email: string, passwordHash: string)

  datatype Group = Group(id: GroupId, name: string, createdBy: UserId, inviteToken: string)

  /** One row of group_members. */
  datatype GroupMember = GroupMember(groupId: GroupId, userId: UserId)

  datatype Expense = Expense(
    id: ExpenseId, groupId: GroupId, description: string, amount: real,
    paidBy: UserId, createdBy: UserId, isDeleted: bool)

  /** One row of expense_splits. */
  datatype ExpenseSplit = ExpenseSplit(expenseId: ExpenseId, userId: UserId, owedAmount: real)

  datatype SettlementStatus = PENDING | SETTLED

  datatype Settlement = Settlement(
    id: SettlementId, groupId: GroupId, fromUser: UserId, toUser: UserId,
    amount: real, status: SettlementStatus, settledAt: Option<Timestamp>)

  // Key columns of each table.

  function UserIds(users: seq<User>): seq<UserId>
  {
    seq(|users|, i requires 0 <= i < |users| => users[i].id)
  }

  function Emails(users: seq<User>): seq<string>
  {
    seq(|users|, i requires 0 <= i < |users| => users[i].email)
  }

  function GroupIds(groups: seq<Group>): seq<GroupId>
  {
    seq(|groups|, i requires 0 <= i < |groups| => groups[i].id)
  }

  function InviteTokens(groups: seq<Group>): seq<string>
  {
    seq(|groups|, i requires 0 <= i < |groups| => groups[i].inviteToken)
  }

  function ExpenseIds(expenses: seq<Expense>): seq<ExpenseId>
  {
    seq(|expenses|, i requires 0 <= i < |expenses| => expenses[i].id)
  }

  function SettlementIds(settlements: seq<Settlement>): seq<SettlementId>
  {
    seq(|settlements|, i requires 0 <= i < |settlements| => settlements[i].id)
  }

  // Lookups: the first row whose key matches, or nothing.

  function FindUserById(users: seq<User>, id: UserId): (r: Option<User>)
    ensures r.Some? ==> r.value in users && r.value.id == id
    ensures r.None? <==> id !in UserIds(users)
  {
    if users == [] then None
    else
      assert UserIds(users) == [users[0].id] + UserIds(users[1..]);
      if users[0].id == id then Some(users[0])
      else FindUserById(users[1..], id)
  }

  /** UserRepository.findByEmail. */
  function FindUserByEmail(users: seq<User>, email: string): (r: Option<User>)
    ensures r.Some? ==> r.value in users && r.value.email == email
    ensures r.None? <==> email !in Emails(users)
  {
    if users == [] then None
    else
      assert Emails(users) == [users[0].email] + Emails(users[1..]);
      if users[0].email == email then Some(users[0])
      else FindUserByEmail(users[1..], email)
  }

  function FindGroupById(groups: seq<Group>, id: GroupId): (r: Option<Group>)
    ensures r.Some? ==> r.value in groups && r.value.id == id
    ensures r.None? <==> id !in GroupIds(groups)
  {
    if groups == [] then None
    else
      assert GroupIds(groups) == [groups[0].id] + GroupIds(groups[1..]);
      if groups[0].id == id then Some(groups[0])
      else FindGroupById(groups[1..], id)
  }

  /** GroupRepository.findByInviteToken. */
  function FindGroupByToken(groups: seq<Group>, token: string): (r: Option<Group>)
    ensures r.Some? ==> r.value in groups && r.value.inviteToken == token
    ensures r.None? <==> token !in InviteTokens(groups)
  {
    if groups == [] then None
    else
      assert InviteTokens(groups) == [groups[0].inviteToken] + InviteTokens(groups[1..]);
      if groups[0].inviteToken == token then Some(groups[0])
      else FindGroupByToken(groups[1..], token)
  }

  /** The position of the expense with the given id. */
  function FindExpenseIndex(expenses: seq<Expense>, id: ExpenseId): (r: Option<nat>)
    ensures r.Some? ==> r.value < |expenses| && expenses[r.value].id == id
    ensures r.None? <==> id !in ExpenseIds(expenses)
  {
    if expenses == [] then None
    else
      assert ExpenseIds(expenses) == [expenses[0].id] + ExpenseIds(expenses[1..]);
      if expenses[0].id == id then Some(0)
      else
        match FindExpenseIndex(expenses[1..], id)
        case None => None
        case Some(k) => Some(k + 1)
  }

  /** With unique keys the lookup finds exactly the stored row. */
  lemma {:induction false} FindUserByIdUnique(users: seq<User>, i: nat)
    requires Distinct(UserIds(users)) && i < |users|
    ensures FindUserById(users, users[i].id) == Some(users[i])
    decreases i
  {
    if i > 0 {
      assert UserIds(users)[0] != UserIds(users)[i];
      assert UserIds(users[1..]) == UserIds(users)[1..];
      FindUserByIdUnique(users[1..], i - 1);
    }
  }

  lemma {:induction false} FindUserByEmailUnique(users: seq<User>, i: nat)
    requires Distinct(Emails(users)) && i < |users|
    ensures FindUserByEmail(users, users[i].email) == Some(users[i])
    decreases i
  {
    if i > 0 {
      assert Emails(users)[0] != Emails(users)[i];
      assert Emails(users[1..]) == Emails(users)[1..];
      FindUserByEmailUnique(users[1..], i - 1);
    }
  }

  // Queries returning several rows, in table order.

  /** GroupMemberRepository.findByGroup: the user ids of the group's rows. */
  function MemberIdsOf(members: seq<GroupMember>, g: GroupId): (r: seq<UserId>)
    ensures forall u :: u in r <==> GroupMember(g, u) in members
    ensures Distinct(members) ==> Distinct(r)
  {
    if members == [] then []
    else
      var rest := MemberIdsOf(members[1..], g);
      assert forall u :: GroupMember(g, u) in members <==>
        GroupMember(g, u) == members[0] || GroupMember(g, u) in members[1..];
      if members[0].groupId == g then
        assert Distinct(members) ==> members[0] !in members[1..];
        [members[0].userId] + rest
      else rest
  }

  /** ExpenseRepository.findByGroupAndIsDeletedFalse. */
  function ActiveExpenses(expenses: seq<Expense>, g: GroupId): (r: seq<Expense>)
    ensures |r| <= |expenses|
  {
    if expenses == [] then []
    else
      (if expenses[0].groupId == g && !expenses[0].isDeleted then [expenses[0]] else [])
      + ActiveExpenses(expenses[1..], g)
  }

  /** SettlementRepository.findByGroup. */
  function GroupSettlements(settlements: seq<Settlement>, g: GroupId): (r: seq<Settlement>)
    ensures |r| <= |settlements|
  {
    if settlements == [] then []
    else
      (if settlements[0].groupId == g then [settlements[0]] else [])
      + GroupSettlements(settlements[1..], g)
  }

  /** ExpenseSplitRepository.findByExpense. */
  function SplitsOf(splits: seq<ExpenseSplit>, e: ExpenseId): (r: seq<ExpenseSplit>)
    ensures |r| <= |splits|
  {
    if splits == [] then []
    else
      (if splits[0].expenseId == e then [splits[0]] else [])
      + SplitsOf(splits[1..], e)
  }

  /** Membership rows of group `g` for the given users, in order. */
  function MemberRows(g: GroupId, ids: seq<UserId>): (r: seq<GroupMember>)
    ensures |r| == |ids|
    ensures forall k :: 0 <= k < |r| ==> r[k].groupId == g && r[k].userId == ids[k]
  {
    seq(|ids|, k requires 0 <= k < |ids| => GroupMember(g, ids[k]))
  }

  lemma {:induction false} MemberIdsOfConcat(a: seq<GroupMember>, b: seq<GroupMember>, g: GroupId)
    ensures MemberIdsOf(a + b, g) == MemberIdsOf(a, g) + MemberIdsOf(b, g)
    decreases |a|
  {
    if a == [] {
      assert a + b == b;
    } else {
      var head := if a[0].groupId == g then [a[0].userId] else [];
      assert (a + b)[0] == a[0] && (a + b)[1..] == a[1..] + b;
      assert MemberIdsOf(a + b, g) == head + MemberIdsOf(a[1..] + b, g);
      MemberIdsOfConcat(a[1..], b, g);
      assert MemberIdsOf(a, g) == head + MemberIdsOf(a[1..], g);
    }
  }

  /** Reading back rows written for group `g`: their users for `g`, nothing
      for any other group. */
  lemma {:induction false} MemberIdsOfRows(g: GroupId, ids: seq<UserId>, h: GroupId)
    ensures MemberIdsOf(MemberRows(g, ids), h) == if g == h then ids else []
    decreases |ids|
  {
    if ids != [] {
      assert MemberRows(g, ids)[1..] == MemberRows(g, ids[1..]);
      MemberIdsOfRows(g, ids[1..], h);
    }
  }

  /** A group with no rows has no members. */
  lemma {:induction false} MemberIdsOfNone(members: seq<GroupMember>, g: GroupId)
    requires forall m :: m in members ==> m.groupId != g
    ensures MemberIdsOf(members, g) == []
    decreases |members|
  {
    if members != [] {
      MemberIdsOfNone(members[1..], g);
    }
  }

  /** Rows for a group that has none yet keep the table free of duplicate
      (group, user) pairs exactly when the users are pairwise different. */
  lemma FreshRowsDistinct(members: seq<GroupMember>, g: GroupId, ids: seq<UserId>)
    requires Distinct(members)
    requires forall m :: m in members ==> m.groupId != g
    ensures Distinct(members + MemberRows(g, ids)) <==> Distinct(ids)
  {
    var rows := MemberRows(g, ids);
    var all := members + rows;
    if Distinct(ids) {
      forall i, j | 0 <= i < j < |all|
        ensures all[i] != all[j]
      {
        if j >= |members| && i < |members| {
          assert all[i] in members;
        } else if i >= |members| {
          assert rows[i - |members|].userId != rows[j - |members|].userId;
        }
      }
    }
    if Distinct(all) {
      forall i, j | 0 <= i < j < |ids|
        ensures ids[i] != ids[j]
      {
        assert all[|members| + i] != all[|members| + j];
      }
    }
  }

  /** findByGroupAndIsDeletedFalse returns exactly the group's expenses that
      are not deleted. */
  lemma {:induction false} ActiveExpensesMembers(expenses: seq<Expense>, g: GroupId)
    ensures forall e :: e in ActiveExpenses(expenses, g) <==> e in expenses && e.groupId == g && !e.isDeleted
    decreases |expenses|
  {
    if expenses != [] {
      ActiveExpensesMembers(expenses[1..], g);
      assert forall e :: e in expenses <==> e == expenses[0] || e in expenses[1..];
    }
  }

  /** findByGroup returns exactly the group's settlements. */
  lemma {:induction false} GroupSettlementsMembers(settlements: seq<Settlement>, g: GroupId)
    ensures forall s :: s in GroupSettlements(settlements, g) <==> s in settlements && s.groupId == g
    decreases |settlements|
  {
    if settlements != [] {
      GroupSettlementsMembers(settlements[1..], g);
      assert forall s :: s in settlements <==> s == settlements[0] || s in settlements[1..];
    }
  }

  /** findByExpense returns exactly the split rows of that expense. */
  lemma {:induction false} SplitsOfMembers(splits: seq<ExpenseSplit>, e: ExpenseId)
    ensures forall sp :: sp in SplitsOf(splits, e) <==> sp in splits && sp.expenseId == e
    decreases |splits|
  {
    if splits != [] {
      SplitsOfMembers(splits[1..], e);
      assert forall sp :: sp in splits <==> sp == splits[0] || sp in splits[1..];
    }
  }

  /** No row of the expense: the query is empty. */
  lemma {:induction false} SplitsOfNone(splits: seq<ExpenseSplit>, e: ExpenseId)
    requires forall sp :: sp in splits ==> sp.expenseId != e
    ensures SplitsOf(splits, e) == []
    decreases |splits|
  {
    if splits != [] {
      SplitsOfNone(splits[1..], e);
    }
  }

  /** Every row of the expense: the query returns them all, in order. */
  lemma {:induction false} SplitsOfAll(splits: seq<ExpenseSplit>, e: ExpenseId)
    requires forall sp :: sp in splits ==> sp.expenseId == e
    ensures SplitsOf(splits, e) == splits
    decreases |splits|
  {
    if splits != [] {
      SplitsOfAll(splits[1..], e);
      assert splits == [splits[0]] + splits[1..];
    }
  }

  /** SettlementRepository.existsByGroup. */
  predicate SettlementExistsInGroup(settlements: seq<Settlement>, g: GroupId)
  {
    exists i :: 0 <= i < |settlements| && settlements[i].groupId == g
  }

  lemma {:induction false} SplitsOfConcat(a: seq<ExpenseSplit>, b: seq<ExpenseSplit>, e: ExpenseId)
    ensures SplitsOf(a + b, e) == SplitsOf(a, e) + SplitsOf(b, e)
    decreases |a|
  {
    if a == [] {
      assert a + b == b;
    } else {
      var head := if a[0].expenseId == e then [a[0]] else [];
      assert (a + b)[0] == a[0] && (a + b)[1..] == a[1..] + b;
      assert SplitsOf(a + b, e) == head + SplitsOf(a[1..] + b, e);
      SplitsOfConcat(a[1..], b, e);
      assert SplitsOf(a, e) == head + SplitsOf(a[1..], e);
    }
  }

  // Integrity of the schema and the inserts and updates that keep it.

  /** Primary keys and unique columns are unique, (group_id, user_id) is
      unique in group_members, and every foreign key names a stored row. */
  ghost predicate Consistent(users: seq<User>, groups: seq<Group>, members: seq<GroupMember>,
                             expenses: seq<Expense>, splits: seq<ExpenseSplit>, settlements: seq<Settlement>)
  {
    && Distinct(UserIds(users))
    && Distinct(Emails(users))
    && Distinct(GroupIds(groups))
    && Distinct(InviteTokens(groups))
    && Distinct(members)
    && Distinct(ExpenseIds(expenses))
    && Distinct(SettlementIds(settlements))
    && (forall g :: g in groups ==> g.createdBy in UserIds(users))
    && (forall m :: m in members ==> m.groupId in GroupIds(groups) && m.userId in UserIds(users))
    && (forall e :: e in expenses ==>
          e.groupId in GroupIds(groups) && e.paidBy in UserIds(users) && e.createdBy in UserIds(users))
    && (forall sp :: sp in splits ==> sp.expenseId in ExpenseIds(expenses) && sp.userId in UserIds(users))
    && (forall s :: s in settlements ==>
          s.groupId in GroupIds(groups) && s.fromUser in UserIds(users) && s.toUser in UserIds(users))
  }

  /** Appending one element to a duplicate-free key column that lacks it. */
  lemma DistinctAppend<T>(s: seq<T>, x: T)
    requires Distinct(s) && x !in s
    ensures Distinct(s + [x])
  {
  }

  /** Inserting a user with a fresh id and a fresh email. */
  lemma UserInserted(users: seq<User>, groups: seq<Group>, members: seq<GroupMember>,
                     expenses: seq<Expense>, splits: seq<ExpenseSplit>, settlements: seq<Settlement>, u: User)
    requires Consistent(users, groups, members, expenses, splits, settlements)
    requires u.id !in UserIds(users) && u.email !in Emails(users)
    ensures Consistent(users + [u], groups, members, expenses, splits, settlements)
  {
    assert UserIds(users + [u]) == UserIds(users) + [u.id];
    assert Emails(users + [u]) == Emails(users) + [u.email];
    DistinctAppend(UserIds(users), u.id);
    DistinctAppend(Emails(users), u.email);
  }

  /** Inserting a group with a fresh id and token, created by a stored user. */
  lemma GroupInserted(users: seq<User>, groups: seq<Group>, members: seq<GroupMember>,
                      expenses: seq<Expense>, splits: seq<ExpenseSplit>, settlements: seq<Settlement>, g: Group)
    requires Consistent(users, groups, members, expenses, splits, settlements)
    requires g.id !in GroupIds(groups) && g.inviteToken !in InviteTokens(groups)
    requires g.createdBy in UserIds(users)
    ensures Consistent(users, groups + [g], members, expenses, splits, settlements)
  {
    assert GroupIds(groups + [g]) == GroupIds(groups) + [g.id];
    assert InviteTokens(groups + [g]) == InviteTokens(groups) + [g.inviteToken];
    DistinctAppend(GroupIds(groups), g.id);
    DistinctAppend(InviteTokens(groups), g.inviteToken);
  }

  /** Inserting a new (group, user) row between stored rows. */
  lemma MemberInserted(users: seq<User>, groups: seq<Group>, members: seq<GroupMember>,
                       expenses: seq<Expense>, splits: seq<ExpenseSplit>, settlements: seq<Settlement>, m: GroupMember)
    requires Consistent(users, groups, members, expenses, splits, settlements)
    requires m !in members && m.groupId in GroupIds(groups) && m.userId in UserIds(users)
    ensures Consistent(users, groups, members + [m], expenses, splits, settlements)
  {
    DistinctAppend(members, m);
  }

  /** Inserting several (group, user) rows between stored rows, leaving no
      duplicate pair. */
  lemma MembersInserted(users: seq<User>, groups: seq<Group>, members: seq<GroupMember>,
                        expenses: seq<Expense>, splits: seq<ExpenseSplit>, settlements: seq<Settlement>,
                        rows: seq<GroupMember>)
    requires Consistent(users, groups, members, expenses, splits, settlements)
    requires Distinct(members + rows)
    requires forall m :: m in rows ==> m.groupId in GroupIds(groups) && m.userId in UserIds(users)
    ensures Consistent(users, groups, members + rows, expenses, splits, settlements)
  {
  }

  /** Inserting an expense with a fresh id whose foreign keys are stored. */
  lemma ExpenseInserted(users: seq<User>, groups: seq<Group>, members: seq<GroupMember>,
                        expenses: seq<Expense>, splits: seq<ExpenseSplit>, settlements: seq<Settlement>, e: Expense)
    requires Consistent(users, groups, members, expenses, splits, settlements)
    requires e.id !in ExpenseIds(expenses)
    requires e.groupId in GroupIds(groups) && e.paidBy in UserIds(users) && e.createdBy in UserIds(users)
    ensures Consistent(users, groups, members, expenses + [e], splits, settlements)
  {
    assert ExpenseIds(expenses + [e]) == ExpenseIds(expenses) + [e.id];
    DistinctAppend(ExpenseIds(expenses), e.id);
  }

  /** Inserting a split row of a stored expense and a stored user. */
  lemma SplitInserted(users: seq<User>, groups: seq<Group>, members: seq<GroupMember>,
                      expenses: seq<Expense>, splits: seq<ExpenseSplit>, settlements: seq<Settlement>, sp: ExpenseSplit)
    requires Consistent(users, groups, members, expenses, splits, settlements)
    requires sp.expenseId in ExpenseIds(expenses) && sp.userId in UserIds(users)
    ensures Consistent(users, groups, members, expenses, splits + [sp], settlements)
  {
  }

  /** Setting the deleted flag of one stored expense. */
  lemma ExpenseFlagged(users: seq<User>, groups: seq<Group>, members: seq<GroupMember>,
                       expenses: seq<Expense>, splits: seq<ExpenseSplit>, settlements: seq<Settlement>, i: nat)
    requires Consistent(users, groups, members, expenses, splits, settlements)
    requires i < |expenses|
    ensures Consistent(users, groups, members, expenses[i := expenses[i].(isDeleted := true)], splits, settlements)
  {
    var flagged := expenses[i := expenses[i].(isDeleted := true)];
    assert ExpenseIds(flagged) == ExpenseIds(expenses);
    forall e | e in flagged
      ensures e.groupId in GroupIds(groups) && e.paidBy in UserIds(users) && e.createdBy in UserIds(users)
    {
      var k :| 0 <= k < |flagged| && flagged[k] == e;
      assert expenses[k] in expenses;
    }
  }

  /** Inserting a settlement with a fresh id whose foreign keys are stored. */
  lemma SettlementInserted(users: seq<User>, groups: seq<Group>, members: seq<GroupMember>,
                           expenses: seq<Expense>, splits: seq<ExpenseSplit>, settlements: seq<Settlement>, s: Settlement)
    requires Consistent(users, groups, members, expenses, splits, settlements)
    requires s.id !in SettlementIds(settlements)
    requires s.groupId in GroupIds(groups) && s.fromUser in UserIds(users) && s.toUser in UserIds(users)
    ensures Consistent(users, groups, members, expenses, splits, settlements + [s])
  {
    assert SettlementIds(settlements + [s]) == SettlementIds(settlements) + [s.id];
    DistinctAppend(SettlementIds(settlements), s.id);
  }

  /** The tables. Each method of a service that changes them takes the
      database as a parameter and names it in its `modifies` clause. */
  class Database {
    var users: seq<User>
    var groups: seq<Group>
    var members: seq<GroupMember>
    var expenses: seq<Expense>
    var splits: seq<ExpenseSplit>
    var settlements: seq<Settlement>

    /** The integrity constraints of the schema hold. */
    ghost predicate Valid()
      reads this
    {
      Consistent(users, groups, members, expenses, splits, settlements)
    }

    constructor ()
      ensures Valid()
      ensures users == [] && groups == [] && members == []
      ensures expenses == [] && splits == [] && settlements == []
    {
      users, groups, members := [], [], [];
      expenses, splits, settlements := [], [], [];
    }
  }
}
