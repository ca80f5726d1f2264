/** BalanceService.getGroupBalances: every member of a group starts at zero;
    each non-deleted expense credits its payer with the full amount and debits
    each split's user with the owed amount; each settlement, whatever its
    status, credits `fromUser` and debits `toUser`. The result lists one
    summary per member row, in row order. */
module NetBalances {
  import opened Wrappers
  import opened Seqs
  import opened Store

  /** BalanceSummaryResponse. Its owesTo/owedBy maps are never filled in by
      the service and are left out. */
  datatype BalanceSummary = BalanceSummary(userId: UserId, userName: string, netBalance: real)

  // The specification: a member's net balance as a sum of per-entry effects.

  /** What one split row takes from `u`. */
  function SplitShare(u: UserId, sp: ExpenseSplit): real
  {
    if sp.userId == u then sp.owedAmount else 0.0
  }

  function SplitShareFn(u: UserId): ExpenseSplit -> real
  {
    sp => SplitShare(u, sp)
  }

  /** How one expense moves `u`'s balance: plus the amount if `u` paid,
      minus what `u`'s split rows of that expense say `u` owes. */
  function ExpenseEffect(u: UserId, e: Expense, splits: seq<ExpenseSplit>): real
  {
    (if e.paidBy == u then e.amount else 0.0) - Sum(SplitsOf(splits, e.id), SplitShareFn(u))
  }

  function ExpenseEffectFn(u: UserId, splits: seq<ExpenseSplit>): Expense -> real
  {
    e => ExpenseEffect(u, e, splits)
  }

  /** How one settlement moves `u`'s balance. */
  function SettlementEffect(u: UserId, s: Settlement): real
  {
    (if s.fromUser == u then s.amount else 0.0) - (if s.toUser == u then s.amount else 0.0)
  }

  function SettlementEffectFn(u: UserId): Settlement -> real
  {
    s => SettlementEffect(u, s)
  }

  /** The net balance of `u` over the given expenses and settlements. */
  function NetBalance(u: UserId, expenses: seq<Expense>, splits: seq<ExpenseSplit>,
                      settlements: seq<Settlement>): real
  {
    Sum(expenses, ExpenseEffectFn(u, splits)) + Sum(settlements, SettlementEffectFn(u))
  }

  /** Every user an entry touches has a balance entry; otherwise the
      service's `netBalances.get(id)` returns null and the update throws. */
  predicate LedgerWithinMembers(ids: seq<UserId>, expenses: seq<Expense>,
                                splits: seq<ExpenseSplit>, settlements: seq<Settlement>)
  {
    && (forall e :: e in expenses ==> e.paidBy in ids)
    && (forall e, sp :: e in expenses && sp in splits && sp.expenseId == e.id ==> sp.userId in ids)
    && (forall s :: s in settlements ==> s.fromUser in ids && s.toUser in ids)
  }

  /** The first loop of getGroupBalances: every member starts at zero. */
  method ZeroBalances(ids: seq<UserId>) returns (net: map<UserId, real>)
    ensures forall u :: u in net <==> u in ids
    ensures forall u :: u in net ==> net[u] == 0.0
  {
    net := map[];
    for i := 0 to |ids|
      invariant forall u :: u in net <==> u in ids[..i]
      invariant forall u :: u in net ==> net[u] == 0.0
    {
      assert ids[..i + 1] == ids[..i] + [ids[i]];
      net := net[ids[i] := 0.0];
    }
    assert ids[..|ids|] == ids;
  }

  /** The inner loop over one expense's split rows: each row's user is
      debited by the owed amount. */
  method DebitSplits(net0: map<UserId, real>, rows: seq<ExpenseSplit>) returns (net: map<UserId, real>)
    requires forall sp :: sp in rows ==> sp.userId in net0
    ensures net.Keys == net0.Keys
    ensures forall u :: u in net ==> net[u] == net0[u] - Sum(rows, SplitShareFn(u))
  {
    net := net0;
    for j := 0 to |rows|
      invariant net.Keys == net0.Keys
      invariant forall u :: u in net ==> net[u] == net0[u] - Sum(rows[..j], SplitShareFn(u))
    {
      var sp := rows[j];
      assert rows[..j + 1][..j] == rows[..j];
      net := net[sp.userId := net[sp.userId] - sp.owedAmount];
    }
    assert rows[..|rows|] == rows;
  }

  /** The expense loop: the payer is credited with the amount, then the
      expense's split rows are debited. */
  method CreditExpenses(net0: map<UserId, real>, expenses: seq<Expense>, splits: seq<ExpenseSplit>)
    returns (net: map<UserId, real>)
    requires forall e :: e in expenses ==> e.paidBy in net0
    requires forall e, sp :: e in expenses && sp in splits && sp.expenseId == e.id ==> sp.userId in net0
    ensures net.Keys == net0.Keys
    ensures forall u :: u in net ==> net[u] == net0[u] + Sum(expenses, ExpenseEffectFn(u, splits))
  {
    net := net0;
    for i := 0 to |expenses|
      invariant net.Keys == net0.Keys
      invariant forall u :: u in net ==> net[u] == net0[u] + Sum(expenses[..i], ExpenseEffectFn(u, splits))
    {
      var e := expenses[i];
      var paid := net[e.paidBy := net[e.paidBy] + e.amount];
      SplitsOfMembers(splits, e.id);
      net := DebitSplits(paid, SplitsOf(splits, e.id));
      assert expenses[..i + 1][..i] == expenses[..i];
    }
    assert expenses[..|expenses|] == expenses;
  }

  /** The settlement loop: `fromUser` is credited and `toUser` debited,
      whatever the settlement's status. */
  method CreditSettlements(net0: map<UserId, real>, settlements: seq<Settlement>)
    returns (net: map<UserId, real>)
    requires forall s :: s in settlements ==> s.fromUser in net0 && s.toUser in net0
    ensures net.Keys == net0.Keys
    ensures forall u :: u in net ==> net[u] == net0[u] + Sum(settlements, SettlementEffectFn(u))
  {
    net := net0;
    for i := 0 to |settlements|
      invariant net.Keys == net0.Keys
      invariant forall u :: u in net ==> net[u] == net0[u] + Sum(settlements[..i], SettlementEffectFn(u))
    {
      var s := settlements[i];
      ghost var prev := net;
      net := net[s.fromUser := net[s.fromUser] + s.amount];
      net := net[s.toUser := net[s.toUser] - s.amount];
      forall u | u in net
        ensures net[u] == net0[u] + Sum(settlements[..i + 1], SettlementEffectFn(u))
      {
        assert settlements[..i + 1][..i] == settlements[..i];
        assert net[u] == prev[u] + SettlementEffect(u, s);
      }
    }
    assert settlements[..|settlements|] == settlements;
  }

  /** The body of getGroupBalances after the repository reads: the map of
      balances is filled by the three loops, then read back in member order. */
  method ComputeBalances(members: seq<User>, expenses: seq<Expense>, splits: seq<ExpenseSplit>,
                         settlements: seq<Settlement>)
    returns (summaries: seq<BalanceSummary>)
    requires LedgerWithinMembers(UserIds(members), expenses, splits, settlements)
    ensures |summaries| == |members|
    ensures forall i :: 0 <= i < |members| ==>
      summaries[i] == BalanceSummary(members[i].id, members[i].name,
                                     NetBalance(members[i].id, expenses, splits, settlements))
  {
    var ids := UserIds(members);
    var net := BalanceMap(ids, expenses, splits, settlements);
    summaries := [];
    for i := 0 to |members|
      invariant |summaries| == i
      invariant forall k :: 0 <= k < i ==>
        summaries[k] == BalanceSummary(members[k].id, members[k].name,
                                       NetBalance(members[k].id, expenses, splits, settlements))
    {
      assert ids[i] == members[i].id && ids[i] in ids;
      summaries := summaries + [BalanceSummary(ids[i], members[i].name, net[ids[i]])];
    }
  }

  /** The three loops of getGroupBalances: the map holds one entry per
      member, each the member's net balance. */
  method BalanceMap(ids: seq<UserId>, expenses: seq<Expense>, splits: seq<ExpenseSplit>,
                    settlements: seq<Settlement>)
    returns (net: map<UserId, real>)
    requires LedgerWithinMembers(ids, expenses, splits, settlements)
    ensures forall u :: u in net <==> u in ids
    ensures forall u :: u in net ==> net[u] == NetBalance(u, expenses, splits, settlements)
  {
    net := ZeroBalances(ids);
    net := CreditExpenses(net, expenses, splits);
    net := CreditSettlements(net, settlements);
  }

  /** What the service fails with when an entry touches a user who has no
      balance entry: `netBalances.get(id)` is null and the update throws. */
  const NoBalanceEntry := "NullPointerException"

  /** getGroupBalances: fails with "Group not found" for an unknown group,
      and fails when a non-deleted expense or a settlement of the group
      touches a user who is not a member; otherwise folds the group's
      non-deleted expenses and all its settlements over its members. */
  method GetGroupBalances(db: Database, groupId: GroupId) returns (r: Result<seq<BalanceSummary>>)
    requires db.Valid()
    ensures r.Err? <==> groupId !in GroupIds(db.groups) || !GroupLedgerWithinMembers(db, groupId)
    ensures r.Err? && groupId !in GroupIds(db.groups) ==> r.message == "Group not found"
    ensures r.Err? && groupId in GroupIds(db.groups) ==> r.message == NoBalanceEntry
    ensures r.Ok? ==> r.value == MemberBalances(db, groupId)
  {
    var group := FindGroupById(db.groups, groupId);
    if group.None? {
      return Err("Group not found");
    }
    var ids := MemberIdsOf(db.members, groupId);
    var expenses := ActiveExpenses(db.expenses, groupId);
    var settlements := GroupSettlements(db.settlements, groupId);
    if !LedgerWithinMembers(ids, expenses, db.splits, settlements) {
      return Err(NoBalanceEntry);
    }
    var summaries := ComputeBalances(MemberUsers(db.users, ids), expenses, db.splits, settlements);
    return Ok(summaries);
  }

  /** Every user the group's ledger touches is a member of the group. */
  ghost predicate GroupLedgerWithinMembers(db: Database, groupId: GroupId)
    reads db
  {
    LedgerWithinMembers(MemberIdsOf(db.members, groupId), ActiveExpenses(db.expenses, groupId),
                        db.splits, GroupSettlements(db.settlements, groupId))
  }

  /** member.getUser() for each member row: the user record of each id. */
  function MemberUsers(users: seq<User>, ids: seq<UserId>): (r: seq<User>)
    requires forall u :: u in ids ==> u in UserIds(users)
    ensures UserIds(r) == ids
  {
    seq(|ids|, i requires 0 <= i < |ids| => FindUserById(users, ids[i]).value)
  }

  /** The balances getGroupBalances returns for a known group. */
  ghost function MemberBalances(db: Database, groupId: GroupId): (r: seq<BalanceSummary>)
    reads db
    requires db.Valid()
    ensures |r| == |MemberIdsOf(db.members, groupId)|
  {
    var ids := MemberIdsOf(db.members, groupId);
    var members := MemberUsers(db.users, ids);
    var expenses := ActiveExpenses(db.expenses, groupId);
    var splits := db.splits;
    var settlements := GroupSettlements(db.settlements, groupId);
    seq(|ids|, i requires 0 <= i < |ids| =>
      BalanceSummary(ids[i], members[i].name, NetBalance(ids[i], expenses, splits, settlements)))
  }

  // Properties of the specification.

  /** All updates are additions, so reordering the expenses or the
      settlements does not change any balance. */
  lemma BalanceIndependentOfOrder(u: UserId, splits: seq<ExpenseSplit>,
                                  expenses1: seq<Expense>, expenses2: seq<Expense>,
                                  settlements1: seq<Settlement>, settlements2: seq<Settlement>)
    requires multiset(expenses1) == multiset(expenses2)
    requires multiset(settlements1) == multiset(settlements2)
    ensures NetBalance(u, expenses1, splits, settlements1) == NetBalance(u, expenses2, splits, settlements2)
  {
    SumPermutation(expenses1, expenses2, ExpenseEffectFn(u, splits));
    SumPermutation(settlements1, settlements2, SettlementEffectFn(u));
  }

  lemma {:induction false} ActiveExpensesConcat(a: seq<Expense>, b: seq<Expense>, g: GroupId)
    ensures ActiveExpenses(a + b, g) == ActiveExpenses(a, g) + ActiveExpenses(b, g)
    decreases |a|
  {
    if a == [] {
      assert a + b == b;
    } else {
      var head := if a[0].groupId == g && !a[0].isDeleted then [a[0]] else [];
      assert (a + b)[0] == a[0] && (a + b)[1..] == a[1..] + b;
      calc {
        ActiveExpenses(a + b, g);
        head + ActiveExpenses(a[1..] + b, g);
        { ActiveExpensesConcat(a[1..], b, g); }
        head + (ActiveExpenses(a[1..], g) + ActiveExpenses(b, g));
        (head + ActiveExpenses(a[1..], g)) + ActiveExpenses(b, g);
      }
    }
  }

  /** The active expenses split around position `i`. */
  lemma ActiveAroundIndex(expenses: seq<Expense>, i: nat, g: GroupId)
    requires i < |expenses|
    ensures ActiveExpenses(expenses, g)
      == ActiveExpenses(expenses[..i], g) + ActiveExpenses([expenses[i]], g) + ActiveExpenses(expenses[i + 1..], g)
  {
    var pre, post := expenses[..i], expenses[i + 1..];
    assert expenses == pre + [expenses[i]] + post;
    ActiveExpensesConcat(pre + [expenses[i]], post, g);
    ActiveExpensesConcat(pre, [expenses[i]], g);
  }

  /** Once position `i` is marked deleted, only the expenses around it
      remain active. */
  lemma ActiveAfterDelete(expenses: seq<Expense>, i: nat, g: GroupId)
    requires i < |expenses|
    ensures ActiveExpenses(expenses[i := expenses[i].(isDeleted := true)], g)
      == ActiveExpenses(expenses[..i], g) + ActiveExpenses(expenses[i + 1..], g)
  {
    var d := expenses[i].(isDeleted := true);
    var deleted := expenses[i := d];
    ActiveAroundIndex(deleted, i, g);
    assert deleted[..i] == expenses[..i];
    assert deleted[i + 1..] == expenses[i + 1..];
    assert [d][1..] == [];
    assert ActiveExpenses([d], g) == [];
  }

  /** Soft-deleting an active expense (ExpenseService.deleteExpense) takes
      exactly that expense's effect out of every balance of its group;
      soft-deleting one that is already deleted changes nothing. */
  lemma DeletingExpenseRemovesItsEffect(u: UserId, expenses: seq<Expense>, i: nat, g: GroupId,
                                        splits: seq<ExpenseSplit>, settlements: seq<Settlement>)
    requires i < |expenses|
    ensures
      var deleted := expenses[i := expenses[i].(isDeleted := true)];
      var e := expenses[i];
      NetBalance(u, ActiveExpenses(deleted, g), splits, settlements)
      == NetBalance(u, ActiveExpenses(expenses, g), splits, settlements)
         - (if e.groupId == g && !e.isDeleted then ExpenseEffect(u, e, splits) else 0.0)
  {
    var e := expenses[i];
    var f := ExpenseEffectFn(u, splits);
    ActiveAroundIndex(expenses, i, g);
    ActiveAfterDelete(expenses, i, g);
    var before := ActiveExpenses(expenses[..i], g);
    var middle := ActiveExpenses([e], g);
    var after := ActiveExpenses(expenses[i + 1..], g);
    assert middle == if e.groupId == g && !e.isDeleted then [e] else [];
    SumConcat(before + middle, after, f);
    SumConcat(before, middle, f);
    SumConcat(before, after, f);
    SumSingleton(e, f);
  }

  function SettlementAtFn(s: Settlement): UserId -> real
  {
    u => SettlementEffect(u, s)
  }

  /** A settlement between two members moves money inside the group: over
      the member list its effects add up to zero. */
  lemma SettlementKeepsGroupTotal(ids: seq<UserId>, s: Settlement)
    requires Distinct(ids)
    requires s.fromUser in ids && s.toUser in ids
    ensures Sum(ids, SettlementAtFn(s)) == 0.0
  {
    var credit := (u: UserId) => if u == s.fromUser then s.amount else 0.0;
    var debit := (u: UserId) => if u == s.toUser then -s.amount else 0.0;
    SumPointwise(ids, credit, debit, SettlementAtFn(s));
    SumIndicator(ids, s.fromUser, s.amount, credit);
    SumIndicator(ids, s.toUser, -s.amount, debit);
  }
}
