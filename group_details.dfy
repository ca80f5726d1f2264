/** The group page of the web client: the invite link it copies, the local
    expense list after a delete, the label beside each member's balance, and
    the current user's own debts. */
module GroupDetailsPage {
  import opened Wrappers
  import opened Seqs
  import opened Store
  import opened NetBalances
  import opened DebtSettlement
  import ExpenseService

  type ExpenseResponse = ExpenseService.ExpenseResponse

  /** copyInviteLink: the page's origin, the join route and the token. */
  function InviteLink(origin: string, inviteToken: string): string
  {
    origin + "/join/" + inviteToken
  }

  /** `expenses.filter(e => e.id !== expenseId)`. */
  function WithoutExpense(expenses: seq<ExpenseResponse>, id: ExpenseId): (r: seq<ExpenseResponse>)
    ensures |r| <= |expenses|
  {
    if expenses == [] then []
    else (if expenses[0].id == id then [] else [expenses[0]]) + WithoutExpense(expenses[1..], id)
  }

  /** The filter keeps exactly the expenses with another id. */
  lemma {:induction false} WithoutExpenseMembers(expenses: seq<ExpenseResponse>, id: ExpenseId)
    ensures forall e :: e in WithoutExpense(expenses, id) <==> e in expenses && e.id != id
    decreases |expenses|
  {
    if expenses != [] {
      WithoutExpenseMembers(expenses[1..], id);
      assert forall e :: e in expenses <==> e == expenses[0] || e in expenses[1..];
    }
  }

  /** The filter works piece by piece, so it keeps the order of what it keeps. */
  lemma {:induction false} WithoutExpenseConcat(a: seq<ExpenseResponse>, b: seq<ExpenseResponse>, id: ExpenseId)
    ensures WithoutExpense(a + b, id) == WithoutExpense(a, id) + WithoutExpense(b, id)
    decreases |a|
  {
    if a == [] {
      assert a + b == b;
    } else {
      assert (a + b)[1..] == a[1..] + b;
      WithoutExpenseConcat(a[1..], b, id);
    }
  }

  /** What handleDelete leaves: the local list and the alert shown, if any. */
  datatype DeleteResult = DeleteResult(expenses: seq<ExpenseResponse>, alert: Option<string>)

  /** handleDelete: nothing happens unless the user confirms; the list is
      filtered only once the delete request has completed, and a failed
      request shows the server's message or a default one. */
  function HandleDelete(expenses: seq<ExpenseResponse>, id: ExpenseId, confirmed: bool,
                        outcome: RequestOutcome): (r: DeleteResult)
    ensures !confirmed || outcome.Failed? ==> r.expenses == expenses
    ensures r.alert.Some? <==> confirmed && outcome.Failed?
  {
    if !confirmed then DeleteResult(expenses, None)
    else match outcome
      case Completed => DeleteResult(WithoutExpense(expenses, id), None)
      case Failed(serverError) => DeleteResult(expenses, Some(ErrorText(serverError, "Failed to delete expense")))
  }

  /** After a confirmed, completed delete the list holds exactly the other
      expenses, and, with unique ids, it is the old list with that one entry
      cut out. */
  lemma DeleteRemovesOnlyThatExpense(expenses: seq<ExpenseResponse>, i: nat)
    requires i < |expenses|
    ensures var r := HandleDelete(expenses, expenses[i].id, true, Completed).expenses;
      forall e :: e in r <==> e in expenses && e.id != expenses[i].id
    ensures Distinct(ExpenseService.ResponseIds(expenses)) ==>
      HandleDelete(expenses, expenses[i].id, true, Completed).expenses == expenses[..i] + expenses[i + 1..]
  {
    WithoutExpenseMembers(expenses, expenses[i].id);
    if Distinct(ExpenseService.ResponseIds(expenses)) {
      WithoutExpenseCutsOut(expenses, i);
    }
  }

  lemma {:induction false} WithoutExpenseCutsOut(expenses: seq<ExpenseResponse>, i: nat)
    requires i < |expenses| && Distinct(ExpenseService.ResponseIds(expenses))
    ensures WithoutExpense(expenses, expenses[i].id) == expenses[..i] + expenses[i + 1..]
  {
    var id := expenses[i].id;
    var before, after := expenses[..i], expenses[i + 1..];
    assert expenses == before + [expenses[i]] + after;
    forall k | 0 <= k < |before|
      ensures before[k].id != id
    {
      assert ExpenseService.ResponseIds(expenses)[k] != ExpenseService.ResponseIds(expenses)[i];
    }
    forall k | 0 <= k < |after|
      ensures after[k].id != id
    {
      assert ExpenseService.ResponseIds(expenses)[i + 1 + k] != ExpenseService.ResponseIds(expenses)[i];
    }
    WithoutExpenseConcat(before + [expenses[i]], after, id);
    WithoutExpenseConcat(before, [expenses[i]], id);
    WithoutExpenseKeepsOthers(before, id);
    WithoutExpenseKeepsOthers(after, id);
  }

  lemma {:induction false} WithoutExpenseKeepsOthers(expenses: seq<ExpenseResponse>, id: ExpenseId)
    requires forall k :: 0 <= k < |expenses| ==> expenses[k].id != id
    ensures WithoutExpense(expenses, id) == expenses
    decreases |expenses|
  {
    if expenses != [] {
      WithoutExpenseKeepsOthers(expenses[1..], id);
    }
  }

  /** The text beside a member's balance. */
  datatype BalanceLabel = IsOwed(amount: real) | Owes(amount: real) | SettledUp

  function LabelOf(netBalance: real): (r: BalanceLabel)
    ensures r.IsOwed? <==> netBalance > 0.0
    ensures r.Owes? <==> netBalance < 0.0
    ensures r.SettledUp? <==> netBalance == 0.0
    ensures r.IsOwed? || r.Owes? ==> r.amount > 0.0 && Abs(netBalance) == r.amount
  {
    if netBalance > 0.0 then IsOwed(netBalance)
    else if netBalance < 0.0 then Owes(Abs(netBalance))
    else SettledUp
  }

  /** `debts.filter(d => d.fromUserId === user?.id)`: without a signed-in
      user nothing matches. */
  function MyDebts(debts: seq<Debt>, user: Option<UserId>): (r: seq<Debt>)
    ensures |r| <= |debts|
  {
    if debts == [] then []
    else (if user.Some? && debts[0].fromUserId == user.value then [debts[0]] else [])
         + MyDebts(debts[1..], user)
  }

  /** The filter keeps exactly the debts the user pays. */
  lemma {:induction false} MyDebtsMembers(debts: seq<Debt>, user: Option<UserId>)
    ensures forall d :: d in MyDebts(debts, user) <==> d in debts && user.Some? && d.fromUserId == user.value
    decreases |debts|
  {
    if debts != [] {
      MyDebtsMembers(debts[1..], user);
      assert forall d :: d in debts <==> d == debts[0] || d in debts[1..];
    }
  }

  /** The filter works piece by piece, so it keeps the debts' order. */
  lemma {:induction false} MyDebtsConcat(a: seq<Debt>, b: seq<Debt>, user: Option<UserId>)
    ensures MyDebts(a + b, user) == MyDebts(a, user) + MyDebts(b, user)
    decreases |a|
  {
    if a == [] {
      assert a + b == b;
    } else {
      var head := if user.Some? && a[0].fromUserId == user.value then [a[0]] else [];
      assert (a + b)[0] == a[0] && (a + b)[1..] == a[1..] + b;
      assert MyDebts(a + b, user) == head + MyDebts(a[1..] + b, user);
      MyDebtsConcat(a[1..], b, user);
      assert MyDebts(a, user) == head + MyDebts(a[1..], user);
    }
  }

  /** "You are all settled up!" shows exactly when the user pays no debt. */
  lemma AllSettledUpIff(debts: seq<Debt>, u: UserId)
    ensures MyDebts(debts, Some(u)) == [] <==> forall d :: d in debts ==> d.fromUserId != u
  {
    MyDebtsMembers(debts, Some(u));
    if MyDebts(debts, Some(u)) != [] {
      assert MyDebts(debts, Some(u))[0] in MyDebts(debts, Some(u));
    }
  }

  /** A member whose balance is not negative pays none of the server's debts. */
  lemma NonDebtorPaysNothing(balances: seq<BalanceSummary>, i: nat, d: Debt)
    requires Distinct(SummaryIds(balances)) && i < |balances|
    requires balances[i].netBalance >= 0.0 && d in DebtsOf(balances)
    ensures d.fromUserId != balances[i].userId
  {
    DebtParties(balances);
    var debts := DebtsOf(balances);
    var k :| 0 <= k < |debts| && debts[k] == d;
    assert FromDebtor(balances, debts[k]);
    var j :| 0 <= j < |balances| && balances[j].netBalance < 0.0 && balances[j].userId == d.fromUserId;
    if j != i {
      assert SummaryIds(balances)[j] != SummaryIds(balances)[i];
    }
  }

  /** A member whose balance is not positive is paid by none of the server's debts. */
  lemma NonCreditorReceivesNothing(balances: seq<BalanceSummary>, i: nat, d: Debt)
    requires Distinct(SummaryIds(balances)) && i < |balances|
    requires balances[i].netBalance <= 0.0 && d in DebtsOf(balances)
    ensures d.toUserId != balances[i].userId
  {
    DebtParties(balances);
    var debts := DebtsOf(balances);
    var k :| 0 <= k < |debts| && debts[k] == d;
    assert ToCreditor(balances, debts[k]);
    var j :| 0 <= j < |balances| && balances[j].netBalance > 0.0 && balances[j].userId == d.toUserId;
    if j != i {
      assert SummaryIds(balances)[j] != SummaryIds(balances)[i];
    }
  }

  /** For the debts the server computes from a group's balances, the member
      at `i` sees "You are all settled up!" exactly when their balance is not
      negative. */
  lemma {:induction false} SettledUpIffNotOwing(balances: seq<BalanceSummary>, i: nat)
    requires Distinct(SummaryIds(balances)) && Sum(balances, NetAmount) == 0.0
    requires i < |balances|
    ensures MyDebts(DebtsOf(balances), Some(balances[i].userId)) == [] <==> balances[i].netBalance >= 0.0
  {
    var u := balances[i].userId;
    var debts := DebtsOf(balances);
    AllSettledUpIff(debts, u);
    if balances[i].netBalance >= 0.0 {
      forall d | d in debts
        ensures d.fromUserId != u
      {
        NonDebtorPaysNothing(balances, i, d);
      }
    } else {
      DebtsClearEveryBalance(balances);
      assert Sum(debts, DebtFlow(u)) != 0.0;
      SumNonZero(debts, DebtFlow(u));
      var d :| d in debts && DebtFlow(u)(d) != 0.0;
      NonCreditorReceivesNothing(balances, i, d);
      assert d.fromUserId == u;
    }
  }
}
