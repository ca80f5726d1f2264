/** ExpenseService: recording an expense with its split rows, the guarded
    soft delete, and the listing of a group's non-deleted expenses. Each
    public method runs in one transaction: when it throws part-way, every
    row it saved is rolled back. */
module ExpenseService {
  import opened Wrappers
  import opened Seqs
  import opened Store
  import opened NetBalances

  /** ExpenseSplitRequest. */
  datatype SplitRequest = SplitRequest(userId: UserId, owedAmount: real)

  /** CreateExpenseRequest. */
  datatype CreateExpenseRequest = CreateExpenseRequest(
    groupId: GroupId, description: string, amount: real,
    paidBy: UserId, createdBy: UserId, splits: seq<SplitRequest>)

  /** The bean-validation constraints the controller enforces with `@Valid`:
      a description that is not blank, a positive amount and at least one
      split. The `@PositiveOrZero` on each
      split's owed amount is not cascaded to the list elements (the list
      field carries no `@Valid`), so owed amounts are unconstrained. */
  predicate ValidRequest(req: CreateExpenseRequest)
  {
    NotBlank(req.description) && req.amount > 0.0 && |req.splits| > 0
  }

  datatype SplitResponse = SplitResponse(userId: UserId, userName: string, owedAmount: real)

  /** ExpenseResponse without its creation timestamp. */
  datatype ExpenseResponse = ExpenseResponse(
    id: ExpenseId, description: string, amount: real,
    paidBy: UserId, paidByName: string, splits: seq<SplitResponse>)

  /** The user's name, as `split.getUser().getName()` reads it through the
      foreign key. */
  function UserName(users: seq<User>, id: UserId): (r: string)
    requires id in UserIds(users)
    ensures exists i :: 0 <= i < |users| && users[i].id == id && users[i].name == r
  {
    var u := FindUserById(users, id).value;
    assert u in users;
    u.name
  }

  /** Every user an expense's response mentions is stored. */
  predicate Resolvable(users: seq<User>, splits: seq<ExpenseSplit>, e: Expense)
  {
    && e.paidBy in UserIds(users)
    && forall sp :: sp in SplitsOf(splits, e.id) ==> sp.userId in UserIds(users)
  }

  /** ExpenseService.mapToResponse: the expense's own columns, its payer's
      name, and one entry per split row of the expense, in row order. */
  function ToResponse(users: seq<User>, splits: seq<ExpenseSplit>, e: Expense): (r: ExpenseResponse)
    requires Resolvable(users, splits, e)
    ensures r.id == e.id && r.description == e.description && r.amount == e.amount
    ensures r.paidBy == e.paidBy
    ensures |r.splits| == |SplitsOf(splits, e.id)|
    ensures forall k :: 0 <= k < |r.splits| ==>
      r.splits[k].userId == SplitsOf(splits, e.id)[k].userId &&
      r.splits[k].owedAmount == SplitsOf(splits, e.id)[k].owedAmount
  {
    var rows := SplitsOf(splits, e.id);
    ExpenseResponse(e.id, e.description, e.amount, e.paidBy, UserName(users, e.paidBy),
      seq(|rows|, k requires 0 <= k < |rows| =>
        SplitResponse(rows[k].userId, UserName(users, rows[k].userId), rows[k].owedAmount)))
  }

  /** The split rows saved for a new expense, one per requested split. */
  function SplitRows(e: ExpenseId, reqs: seq<SplitRequest>): (r: seq<ExpenseSplit>)
    ensures |r| == |reqs|
    ensures forall k :: 0 <= k < |r| ==> r[k].expenseId == e
  {
    seq(|reqs|, k requires 0 <= k < |reqs| => ExpenseSplit(e, reqs[k].userId, reqs[k].owedAmount))
  }

  /** Every user a request names is stored. */
  predicate KnownSplitUsers(users: seq<User>, reqs: seq<SplitRequest>)
  {
    forall k :: 0 <= k < |reqs| ==> reqs[k].userId in UserIds(users)
  }

  /** The split loop of addExpense: one row per requested split, saved in
      request order, until a split names an unknown user. On success the
      rows are exactly the requested splits of the new expense. */
  method SaveSplits(db: Database, newId: ExpenseId, reqs: seq<SplitRequest>) returns (ok: bool)
    requires db.Valid() && newId in ExpenseIds(db.expenses)
    modifies db`splits
    ensures db.Valid()
    ensures ok <==> KnownSplitUsers(db.users, reqs)
    ensures ok ==> db.splits == old(db.splits) + SplitRows(newId, reqs)
  {
    for k := 0 to |reqs|
      invariant db.Valid()
      invariant db.splits == old(db.splits) + SplitRows(newId, reqs[..k])
      invariant forall j :: 0 <= j < k ==> reqs[j].userId in UserIds(db.users)
    {
      var user := FindUserById(db.users, reqs[k].userId);
      if user.None? {
        return false;
      }
      var row := ExpenseSplit(newId, user.value.id, reqs[k].owedAmount);
      assert SplitRows(newId, reqs[..k + 1]) == SplitRows(newId, reqs[..k]) + [row];
      SplitInserted(db.users, db.groups, db.members, db.expenses, db.splits, db.settlements, row);
      db.splits := db.splits + [row];
    }
    assert reqs[..|reqs|] == reqs;
    return true;
  }

  /** ExpenseService.addExpense. `newId` stands for the generated UUID. */
  method AddExpense(db: Database, req: CreateExpenseRequest, newId: ExpenseId) returns (r: Result<ExpenseResponse>)
    requires db.Valid() && ValidRequest(req)
    requires newId !in ExpenseIds(db.expenses)
    modifies db`expenses, db`splits
    ensures db.Valid()
    ensures r.Err? <==>
      || req.groupId !in GroupIds(db.groups)
      || req.paidBy !in UserIds(db.users)
      || req.createdBy !in UserIds(db.users)
      || !KnownSplitUsers(db.users, req.splits)
    ensures r.Err? && req.groupId !in GroupIds(db.groups) ==> r.message == "Group not found"
    ensures r.Err? && req.groupId in GroupIds(db.groups) ==> r.message == "User not found"
    ensures r.Err? ==> db.expenses == old(db.expenses) && db.splits == old(db.splits)
    ensures r.Ok? ==>
      && db.expenses == old(db.expenses) + [Expense(newId, req.groupId, req.description, req.amount, req.paidBy, req.createdBy, false)]
      && db.splits == old(db.splits) + SplitRows(newId, req.splits)
    ensures r.Ok? ==>
      && r.value.id == newId && r.value.amount == req.amount && r.value.paidBy == req.paidBy
      && |r.value.splits| == |req.splits|
      && forall k :: 0 <= k < |req.splits| ==>
           r.value.splits[k].userId == req.splits[k].userId &&
           r.value.splits[k].owedAmount == req.splits[k].owedAmount
  {
    var group := FindGroupById(db.groups, req.groupId);
    if group.None? {
      return Err("Group not found");
    }
    var paidBy := FindUserById(db.users, req.paidBy);
    if paidBy.None? {
      return Err("User not found");
    }
    var createdBy := FindUserById(db.users, req.createdBy);
    if createdBy.None? {
      return Err("User not found");
    }
    // The state to restore when the transaction rolls back.
    var expenses0, splits0 := db.expenses, db.splits;
    var e := Expense(newId, group.value.id, req.description, req.amount, paidBy.value.id, createdBy.value.id, false);
    ExpenseInserted(db.users, db.groups, db.members, db.expenses, db.splits, db.settlements, e);
    assert ExpenseIds(db.expenses + [e])[|db.expenses|] == newId;
    db.expenses := db.expenses + [e];
    assert forall sp :: sp in splits0 ==> sp.expenseId != newId;
    var ok := SaveSplits(db, newId, req.splits);
    if !ok {
      db.expenses, db.splits := expenses0, splits0;
      return Err("User not found");
    }
    NewExpenseResponse(db.users, splits0, e, req.splits);
    r := Ok(ToResponse(db.users, db.splits, e));
  }

  /** The response of a freshly saved expense lists its requested splits,
      in request order. */
  lemma NewExpenseResponse(users: seq<User>, splits0: seq<ExpenseSplit>, e: Expense, reqs: seq<SplitRequest>)
    requires forall sp :: sp in splits0 ==> sp.expenseId != e.id
    requires e.paidBy in UserIds(users) && KnownSplitUsers(users, reqs)
    ensures Resolvable(users, splits0 + SplitRows(e.id, reqs), e)
    ensures |ToResponse(users, splits0 + SplitRows(e.id, reqs), e).splits| == |reqs|
    ensures forall k :: 0 <= k < |reqs| ==>
      ToResponse(users, splits0 + SplitRows(e.id, reqs), e).splits[k].userId == reqs[k].userId &&
      ToResponse(users, splits0 + SplitRows(e.id, reqs), e).splits[k].owedAmount == reqs[k].owedAmount
  {
    var rows := SplitRows(e.id, reqs);
    NewSplitsOf(splits0, e.id, reqs);
    forall sp | sp in rows
      ensures sp.userId in UserIds(users)
    {
      var k :| 0 <= k < |rows| && rows[k] == sp;
    }
    assert Resolvable(users, splits0 + rows, e);
  }

  /** The rows saved for a new expense are all the split rows it has. */
  lemma NewSplitsOf(splits0: seq<ExpenseSplit>, id: ExpenseId, reqs: seq<SplitRequest>)
    requires forall sp :: sp in splits0 ==> sp.expenseId != id
    ensures SplitsOf(splits0 + SplitRows(id, reqs), id) == SplitRows(id, reqs)
  {
    var rows := SplitRows(id, reqs);
    SplitsOfConcat(splits0, rows, id);
    SplitsOfNone(splits0, id);
    SplitsOfAll(rows, id);
  }

  /** ExpenseService.deleteExpense. */
  method DeleteExpense(db: Database, id: ExpenseId) returns (r: Result<()>)
    requires db.Valid()
    modifies db`expenses
    ensures db.Valid()
    ensures r.Err? <==>
      || id !in ExpenseIds(old(db.expenses))
      || SettlementExistsInGroup(db.settlements, old(db.expenses)[FindExpenseIndex(old(db.expenses), id).value].groupId)
    ensures r.Err? && id !in ExpenseIds(old(db.expenses)) ==> r.message == "Expense not found"
    ensures r.Err? && id in ExpenseIds(old(db.expenses)) ==>
              r.message == "Cannot delete expense: settlements exist in this group"
    ensures r.Err? ==> db.expenses == old(db.expenses)
    ensures r.Ok? ==>
      var i := FindExpenseIndex(old(db.expenses), id).value;
      db.expenses == old(db.expenses)[i := old(db.expenses)[i].(isDeleted := true)]
    ensures (id in ExpenseIds(old(db.expenses)) &&
             old(db.expenses)[FindExpenseIndex(old(db.expenses), id).value].isDeleted) ==> db.expenses == old(db.expenses)
  {
    var found := FindExpenseIndex(db.expenses, id);
    if found.None? {
      return Err("Expense not found");
    }
    var i := found.value;
    var expense := db.expenses[i];
    if SettlementExistsInGroup(db.settlements, expense.groupId) {
      return Err("Cannot delete expense: settlements exist in this group");
    }
    var deleted := db.expenses[i := expense.(isDeleted := true)];
    assert expense.isDeleted ==> deleted == db.expenses;
    ExpenseFlagged(db.users, db.groups, db.members, db.expenses, db.splits, db.settlements, i);
    db.expenses := deleted;
    return Ok(());
  }

  /** ExpenseService.getGroupExpenses: the responses of the group's
      non-deleted expenses, in table order. */
  function GroupExpenses(db: Database, g: GroupId): (r: Result<seq<ExpenseResponse>>)
    reads db
    requires db.Valid()
    ensures r.Err? <==> g !in GroupIds(db.groups)
    ensures r.Err? ==> r.message == "Group not found"
    ensures r.Ok? ==> |r.value| == |ActiveExpenses(db.expenses, g)|
    ensures r.Ok? ==> forall k :: 0 <= k < |r.value| ==>
      r.value[k].id == ActiveExpenses(db.expenses, g)[k].id &&
      r.value[k].amount == ActiveExpenses(db.expenses, g)[k].amount &&
      r.value[k].paidBy == ActiveExpenses(db.expenses, g)[k].paidBy
  {
    if FindGroupById(db.groups, g).None? then Err("Group not found")
    else
      var active := ActiveExpenses(db.expenses, g);
      var users, splits := db.users, db.splits;
      ActiveExpensesMembers(db.expenses, g);
      assert forall e :: e in active ==> Resolvable(db.users, db.splits, e) by {
        forall e | e in active
          ensures Resolvable(db.users, db.splits, e)
        {
          SplitsOfMembers(db.splits, e.id);
        }
      }
      Ok(seq(|active|, k requires 0 <= k < |active| => ToResponse(users, splits, active[k])))
  }

  /** With unique ids, an expense of the table is listed by
      findByGroupAndIsDeletedFalse exactly when it belongs to the group and
      is not deleted. */
  lemma ActiveIdsExact(expenses: seq<Expense>, g: GroupId, e: Expense)
    requires Distinct(ExpenseIds(expenses)) && e in expenses
    ensures (e.groupId == g && !e.isDeleted) <==> e.id in ExpenseIds(ActiveExpenses(expenses, g))
  {
    var active := ActiveExpenses(expenses, g);
    ActiveExpensesMembers(expenses, g);
    var j :| 0 <= j < |expenses| && expenses[j] == e;
    if e.id in ExpenseIds(active) {
      var k :| 0 <= k < |active| && ExpenseIds(active)[k] == e.id;
      assert active[k] in active;
      var i :| 0 <= i < |expenses| && expenses[i] == active[k];
      assert ExpenseIds(expenses)[i] == ExpenseIds(expenses)[j];
    }
    if e.groupId == g && !e.isDeleted {
      var k :| 0 <= k < |active| && active[k] == e;
      assert ExpenseIds(active)[k] == e.id;
    }
  }

  function ResponseIds(rs: seq<ExpenseResponse>): seq<ExpenseId>
  {
    seq(|rs|, k requires 0 <= k < |rs| => rs[k].id)
  }

  /** getGroupExpenses names exactly the group's stored, non-deleted expenses. */
  lemma GroupExpensesAreActive(db: Database, g: GroupId, e: Expense)
    requires db.Valid() && g in GroupIds(db.groups) && e in db.expenses
    ensures (e.groupId == g && !e.isDeleted) <==> e.id in ResponseIds(GroupExpenses(db, g).value)
  {
    ActiveIdsExact(db.expenses, g, e);
    assert ResponseIds(GroupExpenses(db, g).value) == ExpenseIds(ActiveExpenses(db.expenses, g));
  }

  /** Recording an expense of the group with fresh id `e.id` and split rows
      `rows` moves each balance by exactly that expense's effect: the payer
      gains the amount and each split user loses the owed amount. */
  lemma AddingExpenseAddsItsEffect(u: UserId, active: seq<Expense>, splits: seq<ExpenseSplit>,
                                   settlements: seq<Settlement>, e: Expense, rows: seq<ExpenseSplit>)
    requires forall x :: x in active ==> x.id != e.id
    requires forall sp :: sp in splits ==> sp.expenseId != e.id
    requires forall sp :: sp in rows ==> sp.expenseId == e.id
    ensures NetBalance(u, active + [e], splits + rows, settlements)
      == NetBalance(u, active, splits, settlements)
         + (if e.paidBy == u then e.amount else 0.0) - Sum(rows, SplitShareFn(u))
  {
    var before := ExpenseEffectFn(u, splits);
    var after := ExpenseEffectFn(u, splits + rows);
    forall x | x in active
      ensures after(x) == before(x)
    {
      SplitsOfConcat(splits, rows, x.id);
      SplitsOfNone(rows, x.id);
      assert SplitsOf(splits, x.id) + [] == SplitsOf(splits, x.id);
    }
    SumCongruent(active, after, before);
    SplitsOfConcat(splits, rows, e.id);
    SplitsOfNone(splits, e.id);
    SplitsOfAll(rows, e.id);
    assert [] + rows == rows;
    SumConcat(active, [e], after);
    SumSingleton(e, after);
  }

  /** addExpense checks only that the payer and the split users exist, not
      that they belong to the group: the group's ledger stays within its
      members exactly when the new payer and split users are members. */
  lemma AddedExpenseWithinMembers(ids: seq<UserId>, active: seq<Expense>, splits: seq<ExpenseSplit>,
                                  settlements: seq<Settlement>, e: Expense, rows: seq<ExpenseSplit>)
    requires LedgerWithinMembers(ids, active, splits, settlements)
    requires forall x :: x in active ==> x.id != e.id
    requires forall sp :: sp in splits ==> sp.expenseId != e.id
    requires forall sp :: sp in rows ==> sp.expenseId == e.id
    ensures LedgerWithinMembers(ids, active + [e], splits + rows, settlements)
      <==> e.paidBy in ids && forall sp :: sp in rows ==> sp.userId in ids
  {
    if e.paidBy in ids && forall sp :: sp in rows ==> sp.userId in ids {
      forall x, sp | x in active + [e] && sp in splits + rows && sp.expenseId == x.id
        ensures sp.userId in ids
      {
        if sp in rows {
          assert x == e;
        } else {
          assert x in active;
        }
      }
    }
    if LedgerWithinMembers(ids, active + [e], splits + rows, settlements) {
      assert e in active + [e];
      forall sp | sp in rows
        ensures sp.userId in ids
      {
        assert sp in splits + rows;
      }
    }
  }
}
