/** BalanceService.getGroupDebts: the members with a negative balance
    (debtors) and those with a positive one (creditors) are split off, sorted
    (debtors most negative first, creditors most positive first, both stable),
    and then paired greedily: the current debtor pays the current creditor the
    smaller of what the one owes and the other is owed, and whichever of the
    two reaches exactly zero is passed over. */
module DebtSettlement {
  import opened Wrappers
  import opened Seqs
  import opened Store
  import opened NetBalances

  /** DebtResponse. */
  datatype Debt = Debt(fromUserId: UserId, fromUserName: string,
                       toUserId: UserId, toUserName: string, amount: real)

  function Abs(x: real): real
  {
    if x < 0.0 then -x else x
  }

  /** BigDecimal.min. */
  function Min(x: real, y: real): real
  {
    if x <= y then x else y
  }

  predicate AllNegative(s: seq<BalanceSummary>)
  {
    forall i :: 0 <= i < |s| ==> s[i].netBalance < 0.0
  }

  predicate AllPositive(s: seq<BalanceSummary>)
  {
    forall i :: 0 <= i < |s| ==> s[i].netBalance > 0.0
  }

  /** The (id, name) pairs of some balance entries. */
  function Parties(s: seq<BalanceSummary>): seq<(UserId, string)>
  {
    seq(|s|, i requires 0 <= i < |s| => (s[i].userId, s[i].userName))
  }

  function SummaryIds(s: seq<BalanceSummary>): seq<UserId>
  {
    seq(|s|, i requires 0 <= i < |s| => s[i].userId)
  }

  // The partition loop.

  /** The entries with a negative balance, in order. */
  function Debtors(s: seq<BalanceSummary>): (r: seq<BalanceSummary>)
    ensures AllNegative(r)
    ensures forall i :: 0 <= i < |r| ==> r[i] in s
  {
    if s == [] then []
    else
      var last := s[|s| - 1];
      assert s == s[..|s| - 1] + [last];
      Debtors(s[..|s| - 1]) + (if last.netBalance < 0.0 then [last] else [])
  }

  /** The entries with a positive balance, in order. Zero balances are in
      neither list. */
  function Creditors(s: seq<BalanceSummary>): (r: seq<BalanceSummary>)
    ensures AllPositive(r)
    ensures forall i :: 0 <= i < |r| ==> r[i] in s
  {
    if s == [] then []
    else
      var last := s[|s| - 1];
      assert s == s[..|s| - 1] + [last];
      Creditors(s[..|s| - 1]) + (if last.netBalance > 0.0 then [last] else [])
  }

  /** Together the two lists are the input without its zero entries, so
      any per-entry quantity that vanishes on a zero balance keeps its sum. */
  lemma {:induction false} PartitionKeepsSums(s: seq<BalanceSummary>, f: BalanceSummary -> real)
    requires forall b :: b in s && b.netBalance == 0.0 ==> f(b) == 0.0
    ensures Sum(Debtors(s), f) + Sum(Creditors(s), f) == Sum(s, f)
    decreases |s|
  {
    if s != [] {
      var init, last := s[..|s| - 1], s[|s| - 1];
      assert s == init + [last];
      PartitionKeepsSums(init, f);
      var dl := if last.netBalance < 0.0 then [last] else [];
      var cl := if last.netBalance > 0.0 then [last] else [];
      SumConcat(Debtors(init), dl, f);
      SumConcat(Creditors(init), cl, f);
      SumSingleton(last, f);
    }
  }

  // The two sorts. Java's List.sort is stable, so among equal balances the
  // original order is kept; the insertion sort below places each entry in
  // front of the first one it may precede, which keeps that order too.

  /** `x` may come before `y`: ascending for debtors, descending for creditors. */
  predicate Precedes(x: BalanceSummary, y: BalanceSummary, descending: bool)
  {
    if descending then x.netBalance >= y.netBalance else x.netBalance <= y.netBalance
  }

  predicate SortedBy(s: seq<BalanceSummary>, descending: bool)
  {
    forall i, j :: 0 <= i < j < |s| ==> Precedes(s[i], s[j], descending)
  }

  function Insert(x: BalanceSummary, s: seq<BalanceSummary>, descending: bool): (r: seq<BalanceSummary>)
    ensures multiset(r) == multiset(s) + multiset{x}
  {
    if s == [] || Precedes(x, s[0], descending) then [x] + s
    else
      assert s == [s[0]] + s[1..];
      [s[0]] + Insert(x, s[1..], descending)
  }

  lemma {:induction false} InsertSorted(x: BalanceSummary, s: seq<BalanceSummary>, descending: bool)
    requires SortedBy(s, descending)
    ensures SortedBy(Insert(x, s, descending), descending)
    decreases |s|
  {
    if s != [] && !Precedes(x, s[0], descending) {
      var rest := Insert(x, s[1..], descending);
      InsertSorted(x, s[1..], descending);
      forall j | 0 <= j < |rest|
        ensures Precedes(s[0], rest[j], descending)
      {
        HeadPrecedesInserted(x, s, descending, j);
      }
    }
  }

  /** When `x` does not go first, the head of `s` precedes every entry of
      the rest of the insertion. */
  lemma HeadPrecedesInserted(x: BalanceSummary, s: seq<BalanceSummary>, descending: bool, j: nat)
    requires s != [] && SortedBy(s, descending) && !Precedes(x, s[0], descending)
    requires j < |Insert(x, s[1..], descending)|
    ensures Precedes(s[0], Insert(x, s[1..], descending)[j], descending)
  {
    var rest := Insert(x, s[1..], descending);
    assert rest[j] in multiset(rest);
    if rest[j] != x {
      assert rest[j] in multiset(s[1..]);
      var k :| 0 <= k < |s[1..]| && s[1..][k] == rest[j];
      assert s[k + 1] == rest[j];
    }
  }

  /** List.sort with Comparator.comparing(getNetBalance), reversed when
      `descending`. */
  function SortBy(s: seq<BalanceSummary>, descending: bool): (r: seq<BalanceSummary>)
    ensures multiset(r) == multiset(s)
    ensures SortedBy(r, descending)
  {
    if s == [] then []
    else
      assert s == [s[0]] + s[1..];
      InsertSorted(s[0], SortBy(s[1..], descending), descending);
      Insert(s[0], SortBy(s[1..], descending), descending)
  }

  /** The entries whose balance is exactly `k`, in order. */
  function WithBalance(s: seq<BalanceSummary>, k: real): seq<BalanceSummary>
  {
    if s == [] then []
    else (if s[0].netBalance == k then [s[0]] else []) + WithBalance(s[1..], k)
  }

  lemma {:induction false} InsertStable(x: BalanceSummary, s: seq<BalanceSummary>, descending: bool, k: real)
    ensures WithBalance(Insert(x, s, descending), k)
      == (if x.netBalance == k then [x] else []) + WithBalance(s, k)
    decreases |s|
  {
    if s == [] || Precedes(x, s[0], descending) {
      assert ([x] + s)[1..] == s;
    } else {
      var rest := Insert(x, s[1..], descending);
      InsertStable(x, s[1..], descending, k);
      assert x.netBalance != s[0].netBalance;
      assert ([s[0]] + rest)[0] == s[0] && ([s[0]] + rest)[1..] == rest;
      assert WithBalance([s[0]] + rest, k) == (if s[0].netBalance == k then [s[0]] else []) + WithBalance(rest, k);
    }
  }

  /** The sort is stable: entries with equal balances keep their order. */
  lemma {:induction false} SortByStable(s: seq<BalanceSummary>, descending: bool, k: real)
    ensures WithBalance(SortBy(s, descending), k) == WithBalance(s, k)
    decreases |s|
  {
    if s != [] {
      SortByStable(s[1..], descending, k);
      InsertStable(s[0], SortBy(s[1..], descending), descending, k);
    }
  }

  /** Two sorted permutations of each other start with the same balance. */
  lemma HeadsBalanceAgree(a: seq<BalanceSummary>, b: seq<BalanceSummary>, descending: bool)
    requires a != [] && SortedBy(a, descending) && SortedBy(b, descending)
    requires multiset(a) == multiset(b)
    ensures b != [] && a[0].netBalance == b[0].netBalance
  {
    assert a[0] in multiset(b);
    assert b[0] in multiset(a);
    var i :| 0 <= i < |a| && a[i] == b[0];
    var j :| 0 <= j < |b| && b[j] == a[0];
    assert Precedes(a[0], b[0], descending) && Precedes(b[0], a[0], descending);
  }

  lemma WithBalanceHead(s: seq<BalanceSummary>, k: real)
    requires s != []
    ensures WithBalance(s, k) == (if s[0].netBalance == k then [s[0]] else []) + WithBalance(s[1..], k)
  {
  }

  /** Dropping a common head keeps the per-balance orders equal. */
  lemma TailsWithBalanceAgree(a: seq<BalanceSummary>, b: seq<BalanceSummary>, k: real)
    requires a != [] && b != [] && a[0] == b[0]
    requires WithBalance(a, k) == WithBalance(b, k)
    ensures WithBalance(a[1..], k) == WithBalance(b[1..], k)
  {
    var head := if a[0].netBalance == k then [a[0]] else [];
    WithBalanceHead(a, k);
    WithBalanceHead(b, k);
    assert (head + WithBalance(a[1..], k))[|head|..] == WithBalance(a[1..], k);
    assert (head + WithBalance(b[1..], k))[|head|..] == WithBalance(b[1..], k);
  }

  /** A sorted, stable permutation is unique: whatever stable sort produced
      the list, it is SortBy's. */
  lemma {:induction false} SortedPermutationsAgree(a: seq<BalanceSummary>, b: seq<BalanceSummary>, descending: bool)
    requires SortedBy(a, descending) && SortedBy(b, descending)
    requires multiset(a) == multiset(b)
    requires forall k :: WithBalance(a, k) == WithBalance(b, k)
    ensures a == b
    decreases |a|
  {
    if a == [] {
      assert |b| == |multiset(b)| == 0;
    } else {
      HeadsAgree(a, b, descending);
      forall k
        ensures WithBalance(a[1..], k) == WithBalance(b[1..], k)
      {
        TailsWithBalanceAgree(a, b, k);
      }
      TailsPermuted(a, b);
      SortedPermutationsAgree(a[1..], b[1..], descending);
      assert a == [a[0]] + a[1..] && b == [b[0]] + b[1..];
    }
  }

  /** Sorted, stable permutations start with the same entry: the first
      entry with the smallest (or largest) balance. */
  lemma HeadsAgree(a: seq<BalanceSummary>, b: seq<BalanceSummary>, descending: bool)
    requires a != [] && SortedBy(a, descending) && SortedBy(b, descending)
    requires multiset(a) == multiset(b)
    requires forall k :: WithBalance(a, k) == WithBalance(b, k)
    ensures b != [] && a[0] == b[0]
  {
    HeadsBalanceAgree(a, b, descending);
    var v := a[0].netBalance;
    WithBalanceHead(a, v);
    WithBalanceHead(b, v);
    assert WithBalance(a, v)[0] == a[0];
    assert WithBalance(b, v)[0] == b[0];
    assert WithBalance(a, v) == WithBalance(b, v);
  }

  /** Permutations with a common head have permuted tails. */
  lemma TailsPermuted<T>(a: seq<T>, b: seq<T>)
    requires a != [] && b != [] && a[0] == b[0] && multiset(a) == multiset(b)
    ensures multiset(a[1..]) == multiset(b[1..])
  {
    assert a == [a[0]] + a[1..] && b == [b[0]] + b[1..];
    assert multiset(a) == multiset{a[0]} + multiset(a[1..]);
    assert multiset(b) == multiset{a[0]} + multiset(b[1..]);
    assert multiset(a[1..]) == multiset(a) - multiset{a[0]};
    assert multiset(b[1..]) == multiset(b) - multiset{a[0]};
  }

  // The greedy pairing.

  /** amountToPay: the debtor's debt or the creditor's credit, whichever is smaller. */
  function AmountToPay(debtor: BalanceSummary, creditor: BalanceSummary): real
  {
    Min(Abs(debtor.netBalance), creditor.netBalance)
  }

  function DebtBetween(debtor: BalanceSummary, creditor: BalanceSummary, amount: real): Debt
  {
    Debt(debtor.userId, debtor.userName, creditor.userId, creditor.userName, amount)
  }

  /** The list after its head's balance has moved by `delta`: the head is
      passed over when its balance reaches exactly zero. */
  function MoveHead(s: seq<BalanceSummary>, delta: real): seq<BalanceSummary>
    requires s != []
  {
    var b := s[0].netBalance + delta;
    if b == 0.0 then s[1..] else [s[0].(netBalance := b)] + s[1..]
  }

  /** One round of the loop leaves both lists one-signed and drops at least
      one party. */
  lemma RoundShrinks(ds: seq<BalanceSummary>, cs: seq<BalanceSummary>)
    requires ds != [] && cs != [] && AllNegative(ds) && AllPositive(cs)
    ensures var amount := AmountToPay(ds[0], cs[0]);
      && amount > 0.0
      && AllNegative(MoveHead(ds, amount)) && AllPositive(MoveHead(cs, -amount))
      && |MoveHead(ds, amount)| + |MoveHead(cs, -amount)| < |ds| + |cs|
  {
    var amount := AmountToPay(ds[0], cs[0]);
    assert ds[0].netBalance < 0.0 && cs[0].netBalance > 0.0;
  }

  /** Updating the head's balance, or dropping the head, keeps the parties
      of the rest. */
  lemma PartiesKept(s: seq<BalanceSummary>, delta: real)
    requires s != []
    ensures forall p :: p in Parties(MoveHead(s, delta)) ==> p in Parties(s)
  {
    var s' := MoveHead(s, delta);
    var off := |s| - |s'|;
    forall i | 0 <= i < |s'|
      ensures Parties(s')[i] == Parties(s)[i + off]
    {
    }
  }

  /** The debts the loop emits from the sorted debtor and creditor lists. */
  function Settle(ds: seq<BalanceSummary>, cs: seq<BalanceSummary>): seq<Debt>
    requires AllNegative(ds) && AllPositive(cs)
    decreases |ds| + |cs|
  {
    if ds == [] || cs == [] then []
    else
      var amount := AmountToPay(ds[0], cs[0]);
      RoundShrinks(ds, cs);
      [DebtBetween(ds[0], cs[0], amount)] + Settle(MoveHead(ds, amount), MoveHead(cs, -amount))
  }

  /** One round of Settle and Leftover. */
  lemma SettleRound(ds: seq<BalanceSummary>, cs: seq<BalanceSummary>, amount: real,
                    ds': seq<BalanceSummary>, cs': seq<BalanceSummary>)
    requires AllNegative(ds) && AllPositive(cs) && ds != [] && cs != []
    requires amount == AmountToPay(ds[0], cs[0])
    requires ds' == MoveHead(ds, amount) && cs' == MoveHead(cs, -amount)
    requires AllNegative(ds') && AllPositive(cs')
    ensures Settle(ds, cs) == [DebtBetween(ds[0], cs[0], amount)] + Settle(ds', cs')
    ensures Leftover(ds, cs) == Leftover(ds', cs')
  {
  }

  /** Every debt is a positive amount from a debtor to a creditor, each
      named as in its balance entry. */
  lemma {:induction false} SettleParties(ds: seq<BalanceSummary>, cs: seq<BalanceSummary>)
    requires AllNegative(ds) && AllPositive(cs)
    ensures forall k :: 0 <= k < |Settle(ds, cs)| ==>
      && Settle(ds, cs)[k].amount > 0.0
      && (Settle(ds, cs)[k].fromUserId, Settle(ds, cs)[k].fromUserName) in Parties(ds)
      && (Settle(ds, cs)[k].toUserId, Settle(ds, cs)[k].toUserName) in Parties(cs)
    decreases |ds| + |cs|
  {
    if ds != [] && cs != [] {
      var amount := AmountToPay(ds[0], cs[0]);
      RoundShrinks(ds, cs);
      var ds', cs' := MoveHead(ds, amount), MoveHead(cs, -amount);
      SettleRound(ds, cs, amount, ds', cs');
      SettleParties(ds', cs');
      PartiesKept(ds, amount);
      PartiesKept(cs, -amount);
      PartiesStep(ds, cs, ds', cs', amount, Settle(ds', cs'));
    }
  }

  /** The inductive step of SettleParties, on the debt lists alone. */
  lemma PartiesStep(ds: seq<BalanceSummary>, cs: seq<BalanceSummary>,
                    ds': seq<BalanceSummary>, cs': seq<BalanceSummary>, amount: real, rest: seq<Debt>)
    requires ds != [] && cs != [] && amount > 0.0
    requires forall p :: p in Parties(ds') ==> p in Parties(ds)
    requires forall p :: p in Parties(cs') ==> p in Parties(cs)
    requires forall k :: 0 <= k < |rest| ==>
      && rest[k].amount > 0.0
      && (rest[k].fromUserId, rest[k].fromUserName) in Parties(ds')
      && (rest[k].toUserId, rest[k].toUserName) in Parties(cs')
    ensures var r := [DebtBetween(ds[0], cs[0], amount)] + rest;
      forall k :: 0 <= k < |r| ==>
        && r[k].amount > 0.0
        && (r[k].fromUserId, r[k].fromUserName) in Parties(ds)
        && (r[k].toUserId, r[k].toUserName) in Parties(cs)
  {
    var r := [DebtBetween(ds[0], cs[0], amount)] + rest;
    forall k | 0 <= k < |r|
      ensures r[k].amount > 0.0
      ensures (r[k].fromUserId, r[k].fromUserName) in Parties(ds)
      ensures (r[k].toUserId, r[k].toUserName) in Parties(cs)
    {
      if k == 0 {
        assert Parties(ds)[0] == (ds[0].userId, ds[0].userName);
        assert Parties(cs)[0] == (cs[0].userId, cs[0].userName);
      } else {
        assert r[k] == rest[k - 1];
      }
    }
  }

  /** The balances the loop leaves behind when one of the lists runs out. */
  function Leftover(ds: seq<BalanceSummary>, cs: seq<BalanceSummary>): (r: (seq<BalanceSummary>, seq<BalanceSummary>))
    requires AllNegative(ds) && AllPositive(cs)
    ensures r.0 == [] || r.1 == []
    ensures AllNegative(r.0) && AllPositive(r.1)
    decreases |ds| + |cs|
  {
    if ds == [] || cs == [] then (ds, cs)
    else
      var amount := AmountToPay(ds[0], cs[0]);
      RoundShrinks(ds, cs);
      Leftover(MoveHead(ds, amount), MoveHead(cs, -amount))
  }

  // What the pairing keeps.

  /** What an entry holds for `u`: its balance if it is `u`'s. */
  function Holding(u: UserId): BalanceSummary -> real
  {
    (b: BalanceSummary) => if b.userId == u then b.netBalance else 0.0
  }

  function NetAmount(b: BalanceSummary): real
  {
    b.netBalance
  }

  /** How a debt, once paid, moves `u`'s balance: up by what `u` pays, down
      by what `u` receives. */
  function DebtFlow(u: UserId): Debt -> real
  {
    (d: Debt) => (if d.fromUserId == u then d.amount else 0.0) - (if d.toUserId == u then d.amount else 0.0)
  }

  /** Moving the head's balance by `delta` moves the sum of any quantity
      that counts the head's balance (`counted`) or ignores it by `delta`
      or by nothing. */
  lemma MoveHeadSum(s: seq<BalanceSummary>, delta: real, f: BalanceSummary -> real, counted: bool)
    requires s != []
    requires forall x :: f(s[0].(netBalance := x)) == if counted then x else 0.0
    ensures Sum(MoveHead(s, delta), f) == Sum(s, f) + if counted then delta else 0.0
  {
    var b := s[0].netBalance + delta;
    assert s == [s[0]] + s[1..];
    assert s[0].(netBalance := s[0].netBalance) == s[0];
    SumCons(s[0], s[1..], f);
    if b != 0.0 {
      SumCons(s[0].(netBalance := b), s[1..], f);
    }
  }

  lemma MoveHeadHolding(s: seq<BalanceSummary>, delta: real, u: UserId)
    requires s != []
    ensures Sum(MoveHead(s, delta), Holding(u)) == Sum(s, Holding(u)) + if s[0].userId == u then delta else 0.0
  {
    MoveHeadSum(s, delta, Holding(u), s[0].userId == u);
  }

  /** One round moves the same amount off the debtor and off the creditor. */
  lemma RoundKeepsTotal(ds: seq<BalanceSummary>, cs: seq<BalanceSummary>, amount: real)
    requires ds != [] && cs != []
    ensures Sum(MoveHead(ds, amount), NetAmount) + Sum(MoveHead(cs, -amount), NetAmount)
      == Sum(ds, NetAmount) + Sum(cs, NetAmount)
  {
    var ds', cs' := MoveHead(ds, amount), MoveHead(cs, -amount);
    MoveHeadNet(ds, amount);
    MoveHeadNet(cs, -amount);
    ShiftCancels(Sum(ds, NetAmount), Sum(ds', NetAmount), Sum(cs, NetAmount), Sum(cs', NetAmount), amount);
  }

  lemma ShiftCancels(x: real, x': real, y: real, y': real, d: real)
    requires x' == x + d && y' == y + -d
    ensures x' + y' == x + y
  {
  }

  lemma MoveHeadNet(s: seq<BalanceSummary>, delta: real)
    requires s != []
    ensures Sum(MoveHead(s, delta), NetAmount) == Sum(s, NetAmount) + delta
  {
    MoveHeadSum(s, delta, NetAmount, true);
  }

  /** Paying the debts moves every user's holdings from the input lists to
      the leftover lists. */
  lemma {:induction false} SettleConserves(ds: seq<BalanceSummary>, cs: seq<BalanceSummary>, u: UserId)
    requires AllNegative(ds) && AllPositive(cs)
    ensures var left := Leftover(ds, cs);
      Sum(ds, Holding(u)) + Sum(cs, Holding(u)) + Sum(Settle(ds, cs), DebtFlow(u))
      == Sum(left.0, Holding(u)) + Sum(left.1, Holding(u))
    decreases |ds| + |cs|
  {
    if ds != [] && cs != [] {
      var amount := AmountToPay(ds[0], cs[0]);
      RoundShrinks(ds, cs);
      SettleConserves(MoveHead(ds, amount), MoveHead(cs, -amount), u);
      ConservedByRound(ds, cs, u, amount);
    }
  }

  /** The inductive step of SettleConserves: one round's debt accounts for
      what the round moved. */
  lemma ConservedByRound(ds: seq<BalanceSummary>, cs: seq<BalanceSummary>, u: UserId, amount: real)
    requires AllNegative(ds) && AllPositive(cs) && ds != [] && cs != []
    requires amount == AmountToPay(ds[0], cs[0])
    requires AllNegative(MoveHead(ds, amount)) && AllPositive(MoveHead(cs, -amount))
    requires var ds', cs' := MoveHead(ds, amount), MoveHead(cs, -amount);
      var left := Leftover(ds', cs');
      Sum(ds', Holding(u)) + Sum(cs', Holding(u)) + Sum(Settle(ds', cs'), DebtFlow(u))
      == Sum(left.0, Holding(u)) + Sum(left.1, Holding(u))
    ensures var left := Leftover(ds, cs);
      Sum(ds, Holding(u)) + Sum(cs, Holding(u)) + Sum(Settle(ds, cs), DebtFlow(u))
      == Sum(left.0, Holding(u)) + Sum(left.1, Holding(u))
  {
    var ds', cs' := MoveHead(ds, amount), MoveHead(cs, -amount);
    var debt := DebtBetween(ds[0], cs[0], amount);
    SettleRound(ds, cs, amount, ds', cs');
    RoundHolding(ds, cs, u, amount);
    SumCons(debt, Settle(ds', cs'), DebtFlow(u));
    var left := Leftover(ds', cs');
    AddUp(Sum(ds, Holding(u)) + Sum(cs, Holding(u)), DebtFlow(u)(debt),
          Sum(ds', Holding(u)) + Sum(cs', Holding(u)), Sum(Settle(ds', cs'), DebtFlow(u)),
          Sum(Settle(ds, cs), DebtFlow(u)), Sum(left.0, Holding(u)) + Sum(left.1, Holding(u)));
  }

  /** One round moves `u`'s holdings by what the round's debt moves them. */
  lemma RoundHolding(ds: seq<BalanceSummary>, cs: seq<BalanceSummary>, u: UserId, amount: real)
    requires ds != [] && cs != []
    ensures Sum(ds, Holding(u)) + Sum(cs, Holding(u)) + DebtFlow(u)(DebtBetween(ds[0], cs[0], amount))
      == Sum(MoveHead(ds, amount), Holding(u)) + Sum(MoveHead(cs, -amount), Holding(u))
  {
    var x, y := Sum(ds, Holding(u)), Sum(cs, Holding(u));
    var x', y' := Sum(MoveHead(ds, amount), Holding(u)), Sum(MoveHead(cs, -amount), Holding(u));
    var p := if ds[0].userId == u then amount else 0.0;
    var q := if cs[0].userId == u then -amount else 0.0;
    MoveHeadHolding(ds, amount, u);
    MoveHeadHolding(cs, -amount, u);
    assert DebtFlow(u)(DebtBetween(ds[0], cs[0], amount)) == p + q;
    assert x' == x + p && y' == y + q;
  }

  lemma AddUp(before: real, step: real, after: real, rest: real, total: real, left: real)
    requires before + step == after && after + rest == left && total == step + rest
    ensures before + total == left
  {
  }

  /** Each round moves money from a debtor to a creditor, so the total of
      all balances is what the leftover lists hold. */
  lemma {:induction false} SettleKeepsTotal(ds: seq<BalanceSummary>, cs: seq<BalanceSummary>)
    requires AllNegative(ds) && AllPositive(cs)
    ensures var left := Leftover(ds, cs);
      Sum(ds, NetAmount) + Sum(cs, NetAmount) == Sum(left.0, NetAmount) + Sum(left.1, NetAmount)
    decreases |ds| + |cs|
  {
    if ds != [] && cs != [] {
      var amount := AmountToPay(ds[0], cs[0]);
      RoundShrinks(ds, cs);
      var ds', cs' := MoveHead(ds, amount), MoveHead(cs, -amount);
      SettleRound(ds, cs, amount, ds', cs');
      SettleKeepsTotal(ds', cs');
      RoundKeepsTotal(ds, cs, amount);
    }
  }

  lemma {:induction false} NegativeSum(s: seq<BalanceSummary>)
    requires AllNegative(s) && s != []
    ensures Sum(s, NetAmount) < 0.0
    decreases |s|
  {
    if |s| > 1 {
      NegativeSum(s[..|s| - 1]);
    }
  }

  lemma {:induction false} PositiveSum(s: seq<BalanceSummary>)
    requires AllPositive(s) && s != []
    ensures Sum(s, NetAmount) > 0.0
    decreases |s|
  {
    if |s| > 1 {
      PositiveSum(s[..|s| - 1]);
    }
  }

  /** When the balances add up to zero nothing is left over, so paying the
      debts brings every user's holdings to exactly zero. */
  lemma SettleClearsBalances(ds: seq<BalanceSummary>, cs: seq<BalanceSummary>)
    requires AllNegative(ds) && AllPositive(cs)
    requires Sum(ds, NetAmount) + Sum(cs, NetAmount) == 0.0
    ensures Leftover(ds, cs) == ([], [])
    ensures forall u :: Sum(ds, Holding(u)) + Sum(cs, Holding(u)) + Sum(Settle(ds, cs), DebtFlow(u)) == 0.0
  {
    var left := Leftover(ds, cs);
    SettleKeepsTotal(ds, cs);
    if left.0 != [] {
      NegativeSum(left.0);
    }
    if left.1 != [] {
      PositiveSum(left.1);
    }
    forall u
      ensures Sum(ds, Holding(u)) + Sum(cs, Holding(u)) + Sum(Settle(ds, cs), DebtFlow(u)) == 0.0
    {
      SettleConserves(ds, cs, u);
    }
  }

  /** Every round drops a party and the last round drops both or leaves
      one list empty: at most one debt fewer than there are parties. */
  lemma {:induction false} SettleCount(ds: seq<BalanceSummary>, cs: seq<BalanceSummary>)
    requires AllNegative(ds) && AllPositive(cs)
    ensures |Settle(ds, cs)| <= if ds == [] || cs == [] then 0 else |ds| + |cs| - 1
    decreases |ds| + |cs|
  {
    if ds != [] && cs != [] {
      var amount := AmountToPay(ds[0], cs[0]);
      RoundShrinks(ds, cs);
      SettleCount(MoveHead(ds, amount), MoveHead(cs, -amount));
    }
  }

  // getGroupDebts.

  lemma PermutationKeepsSigns(a: seq<BalanceSummary>, b: seq<BalanceSummary>)
    requires multiset(a) == multiset(b)
    ensures AllNegative(a) ==> AllNegative(b)
    ensures AllPositive(a) ==> AllPositive(b)
  {
    forall i | 0 <= i < |b|
      ensures exists j :: 0 <= j < |a| && a[j] == b[i]
    {
      assert b[i] in multiset(a);
    }
  }

  /** The debts getGroupDebts returns for the given balances. */
  function DebtsOf(balances: seq<BalanceSummary>): seq<Debt>
  {
    var ds, cs := SortBy(Debtors(balances), false), SortBy(Creditors(balances), true);
    PermutationKeepsSigns(Debtors(balances), ds);
    PermutationKeepsSigns(Creditors(balances), cs);
    Settle(ds, cs)
  }

  /** The partition loop of getGroupDebts. */
  method Partition(balances: seq<BalanceSummary>) returns (debtors: seq<BalanceSummary>, creditors: seq<BalanceSummary>)
    ensures debtors == Debtors(balances) && creditors == Creditors(balances)
  {
    debtors, creditors := [], [];
    for i := 0 to |balances|
      invariant debtors == Debtors(balances[..i])
      invariant creditors == Creditors(balances[..i])
    {
      var b := balances[i];
      assert balances[..i + 1][..i] == balances[..i];
      if b.netBalance < 0.0 {
        debtors := debtors + [b];
      } else if b.netBalance > 0.0 {
        creditors := creditors + [b];
      }
    }
    assert balances[..|balances|] == balances;
  }

  /** The pairing loop of getGroupDebts, which updates the balance of the
      current debtor and creditor in place and steps past whichever of them
      reaches zero. */
  method Pair(debtors: seq<BalanceSummary>, creditors: seq<BalanceSummary>) returns (debts: seq<Debt>)
    requires AllNegative(debtors) && AllPositive(creditors)
    ensures debts == Settle(debtors, creditors)
  {
    debts := [];
    var ws, wc := debtors, creditors;
    var d, c := 0, 0;
    assert ws[0..] == debtors && wc[0..] == creditors;
    while d < |ws| && c < |wc|
      invariant 0 <= d <= |ws| && 0 <= c <= |wc|
      invariant AllNegative(ws[d..]) && AllPositive(wc[c..])
      invariant debts + Settle(ws[d..], wc[c..]) == Settle(debtors, creditors)
      decreases |ws| - d + |wc| - c
    {
      var debt;
      ghost var before, rest := debts, Settle(ws[d..], wc[c..]);
      debt, ws, wc, d, c := PairPass(ws, wc, d, c);
      debts := debts + [debt];
      assert before + rest == debts + Settle(ws[d..], wc[c..]);
    }
  }

  /** The body of the pairing loop: the current debtor pays the current
      creditor the smaller of what the one owes and the other is owed, both
      balances are updated in place, and each pointer steps past an entry
      that reaches zero. */
  method PairPass(ws: seq<BalanceSummary>, wc: seq<BalanceSummary>, d: nat, c: nat)
    returns (debt: Debt, ws': seq<BalanceSummary>, wc': seq<BalanceSummary>, d': nat, c': nat)
    requires d < |ws| && c < |wc| && AllNegative(ws[d..]) && AllPositive(wc[c..])
    ensures |ws'| == |ws| && |wc'| == |wc|
    ensures d <= d' <= |ws'| && c <= c' <= |wc'| && (d < d' || c < c')
    ensures AllNegative(ws'[d'..]) && AllPositive(wc'[c'..])
    ensures Settle(ws[d..], wc[c..]) == [debt] + Settle(ws'[d'..], wc'[c'..])
  {
    var debtor, creditor := ws[d], wc[c];
    var amountToPay := Min(Abs(debtor.netBalance), creditor.netBalance);
    debt := Debt(debtor.userId, debtor.userName, creditor.userId, creditor.userName, amountToPay);
    var paidDebtor := debtor.(netBalance := debtor.netBalance + amountToPay);
    var paidCreditor := creditor.(netBalance := creditor.netBalance - amountToPay);
    ws' := ws[d := paidDebtor];
    wc' := wc[c := paidCreditor];
    d', c' := d, c;
    if paidDebtor.netBalance == 0.0 {
      d' := d + 1;
    }
    if paidCreditor.netBalance == 0.0 {
      c' := c + 1;
    }
    PairStep(ws, wc, d, c, ws', wc', d', c');
  }

  /** One pass of the pairing loop: the emitted debt followed by the debts
      of the remaining entries are the debts of the entries before the pass. */
  lemma PairStep(ws: seq<BalanceSummary>, wc: seq<BalanceSummary>, d: nat, c: nat,
                 ws': seq<BalanceSummary>, wc': seq<BalanceSummary>, d': nat, c': nat)
    requires d < |ws| && c < |wc| && AllNegative(ws[d..]) && AllPositive(wc[c..])
    requires ws' == ws[d := ws[d].(netBalance := ws[d].netBalance + AmountToPay(ws[d], wc[c]))]
    requires wc' == wc[c := wc[c].(netBalance := wc[c].netBalance - AmountToPay(ws[d], wc[c]))]
    requires d' == (if ws'[d].netBalance == 0.0 then d + 1 else d)
    requires c' == (if wc'[c].netBalance == 0.0 then c + 1 else c)
    ensures d' <= |ws'| && c' <= |wc'|
    ensures AllNegative(ws'[d'..]) && AllPositive(wc'[c'..])
    ensures Settle(ws[d..], wc[c..])
      == [DebtBetween(ws[d], wc[c], AmountToPay(ws[d], wc[c]))] + Settle(ws'[d'..], wc'[c'..])
  {
    var amount := AmountToPay(ws[d], wc[c]);
    var ds, cs := ws[d..], wc[c..];
    RoundShrinks(ds, cs);
    StepSuffix(ws, d, amount, ws', d');
    assert wc[c].netBalance + -amount == wc[c].netBalance - amount;
    StepSuffix(wc, c, -amount, wc', c');
    SettleRound(ds, cs, amount, ws'[d'..], wc'[c'..]);
  }

  /** The body of getGroupDebts after the balances are computed. */
  method GroupDebts(balances: seq<BalanceSummary>) returns (debts: seq<Debt>)
    ensures debts == DebtsOf(balances)
  {
    var debtors, creditors := Partition(balances);
    var sortedDebtors := SortBy(debtors, false);
    var sortedCreditors := SortBy(creditors, true);
    PermutationKeepsSigns(debtors, sortedDebtors);
    PermutationKeepsSigns(creditors, sortedCreditors);
    debts := Pair(sortedDebtors, sortedCreditors);
  }

  /** Updating entry `d` of the working list in place, and stepping past it
      when it reaches zero, leaves the same suffix as MoveHead. */
  lemma StepSuffix(ws: seq<BalanceSummary>, d: nat, delta: real, ws': seq<BalanceSummary>, d': nat)
    requires d < |ws|
    requires ws' == ws[d := ws[d].(netBalance := ws[d].netBalance + delta)]
    requires d' == if ws[d].netBalance + delta == 0.0 then d + 1 else d
    ensures d' <= |ws'| && ws'[d'..] == MoveHead(ws[d..], delta)
  {
    if ws[d].netBalance + delta != 0.0 {
      assert ws'[d..] == [ws'[d]] + ws[d + 1..];
    }
  }

  /** getGroupDebts: the group's balances, then the debts that settle them.
      It fails exactly when getGroupBalances does. */
  method GetGroupDebts(db: Database, groupId: GroupId) returns (r: Result<seq<Debt>>)
    requires db.Valid()
    ensures r.Err? <==> groupId !in GroupIds(db.groups) || !GroupLedgerWithinMembers(db, groupId)
    ensures r.Err? && groupId !in GroupIds(db.groups) ==> r.message == "Group not found"
    ensures r.Err? && groupId in GroupIds(db.groups) ==> r.message == NoBalanceEntry
    ensures r.Ok? ==> r.value == DebtsOf(MemberBalances(db, groupId))
  {
    var balances := GetGroupBalances(db, groupId);
    if balances.Err? {
      return Err(balances.message);
    }
    var debts := GroupDebts(balances.value);
    return Ok(debts);
  }

  // Properties of getGroupDebts.

  /** Debtors and creditors together are at most the members, and no entry
      is in both lists. */
  lemma {:induction false} PartitionSize(s: seq<BalanceSummary>)
    ensures |Debtors(s)| + |Creditors(s)| <= |s|
    ensures forall x :: x in Debtors(s) ==> x !in Creditors(s)
    decreases |s|
  {
    if s != [] {
      PartitionSize(s[..|s| - 1]);
    }
  }

  /** At most one debt fewer than there are members with a non-zero
      balance, and none when nobody owes or nobody is owed. */
  lemma DebtsCount(balances: seq<BalanceSummary>)
    ensures var n := |Debtors(balances)| + |Creditors(balances)|;
      && n <= |balances|
      && (Debtors(balances) == [] || Creditors(balances) == [] ==> DebtsOf(balances) == [])
      && (DebtsOf(balances) == [] || |DebtsOf(balances)| < n)
  {
    var ds, cs := SortBy(Debtors(balances), false), SortBy(Creditors(balances), true);
    PermutationKeepsSigns(Debtors(balances), ds);
    PermutationKeepsSigns(Creditors(balances), cs);
    PartitionSize(balances);
    SettleCount(ds, cs);
    assert |ds| == |multiset(ds)| == |Debtors(balances)|;
    assert |cs| == |multiset(cs)| == |Creditors(balances)|;
  }

  /** A party named in a reordering of a list drawn from `t` is the party
      of an entry of `t` that is in the list. */
  lemma PartyOrigin(s: seq<BalanceSummary>, m: seq<BalanceSummary>, t: seq<BalanceSummary>, p: (UserId, string))
    requires multiset(s) == multiset(m) && (forall i :: 0 <= i < |m| ==> m[i] in t)
    requires p in Parties(s)
    ensures exists i :: 0 <= i < |t| && t[i] in s && (t[i].userId, t[i].userName) == p
  {
    var a :| 0 <= a < |s| && Parties(s)[a] == p;
    assert s[a] in multiset(m);
    var b :| 0 <= b < |m| && m[b] == s[a];
    var i :| 0 <= i < |t| && t[i] == m[b];
  }

  /** `d` is paid by a member with a negative balance, named as in its entry. */
  predicate FromDebtor(balances: seq<BalanceSummary>, d: Debt)
  {
    exists i :: 0 <= i < |balances| && balances[i].netBalance < 0.0
      && balances[i].userId == d.fromUserId && balances[i].userName == d.fromUserName
  }

  /** `d` is paid to a member with a positive balance, named as in its entry. */
  predicate ToCreditor(balances: seq<BalanceSummary>, d: Debt)
  {
    exists j :: 0 <= j < |balances| && balances[j].netBalance > 0.0
      && balances[j].userId == d.toUserId && balances[j].userName == d.toUserName
  }

  /** The parties of the debts settled between reorderings of the debtors
      and creditors drawn from `t`. */
  lemma SettlePartiesFrom(ds: seq<BalanceSummary>, cs: seq<BalanceSummary>,
                          debtors: seq<BalanceSummary>, creditors: seq<BalanceSummary>, t: seq<BalanceSummary>)
    requires AllNegative(ds) && AllPositive(cs)
    requires multiset(ds) == multiset(debtors) && multiset(cs) == multiset(creditors)
    requires forall i :: 0 <= i < |debtors| ==> debtors[i] in t
    requires forall i :: 0 <= i < |creditors| ==> creditors[i] in t
    ensures forall k :: 0 <= k < |Settle(ds, cs)| ==>
      Settle(ds, cs)[k].amount > 0.0 && FromDebtor(t, Settle(ds, cs)[k]) && ToCreditor(t, Settle(ds, cs)[k])
  {
    var r := Settle(ds, cs);
    SettleParties(ds, cs);
    forall k | 0 <= k < |r|
      ensures FromDebtor(t, r[k]) && ToCreditor(t, r[k])
    {
      PartyOrigin(ds, debtors, t, (r[k].fromUserId, r[k].fromUserName));
      PartyOrigin(cs, creditors, t, (r[k].toUserId, r[k].toUserName));
    }
  }

  /** Every debt is a positive amount from a member whose balance is
      negative to a member whose balance is positive. */
  lemma DebtParties(balances: seq<BalanceSummary>)
    ensures forall k :: 0 <= k < |DebtsOf(balances)| ==>
      && DebtsOf(balances)[k].amount > 0.0
      && FromDebtor(balances, DebtsOf(balances)[k])
      && ToCreditor(balances, DebtsOf(balances)[k])
  {
    var debtors, creditors := Debtors(balances), Creditors(balances);
    var ds, cs := SortBy(debtors, false), SortBy(creditors, true);
    PermutationKeepsSigns(debtors, ds);
    PermutationKeepsSigns(creditors, cs);
    assert DebtsOf(balances) == Settle(ds, cs);
    SettlePartiesFrom(ds, cs, debtors, creditors, balances);
  }

  /** With one balance entry per member, no member both pays and receives,
      so in particular nobody pays themself. */
  lemma NoOneBothPaysAndReceives(balances: seq<BalanceSummary>)
    requires Distinct(SummaryIds(balances))
    ensures var r := DebtsOf(balances);
      forall i, j :: 0 <= i < |r| && 0 <= j < |r| ==> r[i].fromUserId != r[j].toUserId
  {
    DebtParties(balances);
    var r := DebtsOf(balances);
    forall i, j | 0 <= i < |r| && 0 <= j < |r|
      ensures r[i].fromUserId != r[j].toUserId
    {
      DebtorIsNotCreditor(balances, r[i], r[j]);
    }
  }

  /** With one entry per member, the payer of one debt drawn from the
      balances is never the payee of another. */
  lemma DebtorIsNotCreditor(balances: seq<BalanceSummary>, x: Debt, y: Debt)
    requires Distinct(SummaryIds(balances))
    requires FromDebtor(balances, x) && ToCreditor(balances, y)
    ensures x.fromUserId != y.toUserId
  {
    var a :| 0 <= a < |balances| && balances[a].netBalance < 0.0 && balances[a].userId == x.fromUserId;
    var b :| 0 <= b < |balances| && balances[b].netBalance > 0.0 && balances[b].userId == y.toUserId;
    assert SummaryIds(balances)[a] == balances[a].userId;
    assert SummaryIds(balances)[b] == balances[b].userId;
  }

  /** When the balances add up to zero, paying every debt brings every
      user's total holding to exactly zero. */
  lemma DebtsSettleGroup(balances: seq<BalanceSummary>)
    requires Sum(balances, NetAmount) == 0.0
    ensures forall u :: Sum(balances, Holding(u)) + Sum(DebtsOf(balances), DebtFlow(u)) == 0.0
  {
    var debtors, creditors := Debtors(balances), Creditors(balances);
    var ds, cs := SortBy(debtors, false), SortBy(creditors, true);
    PermutationKeepsSigns(debtors, ds);
    PermutationKeepsSigns(creditors, cs);
    PartitionKeepsSums(balances, NetAmount);
    SumPermutation(debtors, ds, NetAmount);
    SumPermutation(creditors, cs, NetAmount);
    SettleClearsBalances(ds, cs);
    forall u
      ensures Sum(balances, Holding(u)) + Sum(DebtsOf(balances), DebtFlow(u)) == 0.0
    {
      PartitionKeepsSums(balances, Holding(u));
      SumPermutation(debtors, ds, Holding(u));
      SumPermutation(creditors, cs, Holding(u));
    }
  }

  /** With one entry per member, a member's holding is their balance. */
  lemma HoldingOfMember(balances: seq<BalanceSummary>, i: nat)
    requires Distinct(SummaryIds(balances)) && i < |balances|
    ensures Sum(balances, Holding(balances[i].userId)) == balances[i].netBalance
  {
    var u := balances[i].userId;
    EntriesDistinct(balances);
    HoldingIsIndicator(balances, i);
    SumIndicator(balances, balances[i], balances[i].netBalance, Holding(u));
  }

  /** Entries with unique user ids are themselves unique. */
  lemma EntriesDistinct(balances: seq<BalanceSummary>)
    requires Distinct(SummaryIds(balances))
    ensures Distinct(balances)
  {
    forall a, b | 0 <= a < b < |balances|
      ensures balances[a] != balances[b]
    {
      assert SummaryIds(balances)[a] != SummaryIds(balances)[b];
    }
  }

  /** With unique user ids, only entry `i` holds anything for its user. */
  lemma HoldingIsIndicator(balances: seq<BalanceSummary>, i: nat)
    requires Distinct(SummaryIds(balances)) && i < |balances|
    ensures forall y :: y in balances ==>
      Holding(balances[i].userId)(y) == if y == balances[i] then balances[i].netBalance else 0.0
  {
    var u := balances[i].userId;
    forall y | y in balances
      ensures Holding(u)(y) == if y == balances[i] then balances[i].netBalance else 0.0
    {
      var j :| 0 <= j < |balances| && balances[j] == y;
      assert SummaryIds(balances)[j] == y.userId;
      assert SummaryIds(balances)[i] == u;
    }
  }

  /** Applying all returned debts drives every member's balance to zero,
      provided the group's balances add up to zero. */
  lemma DebtsClearEveryBalance(balances: seq<BalanceSummary>)
    requires Distinct(SummaryIds(balances))
    requires Sum(balances, NetAmount) == 0.0
    ensures forall i :: 0 <= i < |balances| ==>
      balances[i].netBalance + Sum(DebtsOf(balances), DebtFlow(balances[i].userId)) == 0.0
  {
    DebtsSettleGroup(balances);
    forall i | 0 <= i < |balances|
      ensures balances[i].netBalance + Sum(DebtsOf(balances), DebtFlow(balances[i].userId)) == 0.0
    {
      HoldingOfMember(balances, i);
    }
  }

  // Worked examples.

  /** Two debtors and one creditor: the debtors are sorted most negative
      first, so C pays before B. */
  lemma ExampleTwoDebtors(a: BalanceSummary, b: BalanceSummary, c: BalanceSummary)
    requires a.netBalance == 30.0 && b.netBalance == -10.0 && c.netBalance == -20.0
    ensures DebtsOf([a, b, c])
      == [Debt(c.userId, c.userName, a.userId, a.userName, 20.0), Debt(b.userId, b.userName, a.userId, a.userName, 10.0)]
  {
    ExampleTwoDebtorsSorted(a, b, c);
    SortedLists([a, b, c], [c, b], [a]);
    ExampleTwoDebtorsSettled(a, b, c);
  }

  lemma ExampleTwoDebtorsSettled(a: BalanceSummary, b: BalanceSummary, c: BalanceSummary)
    requires a.netBalance == 30.0 && b.netBalance == -10.0 && c.netBalance == -20.0
    ensures AllNegative([c, b]) && AllPositive([a])
    ensures Settle([c, b], [a])
      == [Debt(c.userId, c.userName, a.userId, a.userName, 20.0), Debt(b.userId, b.userName, a.userId, a.userName, 10.0)]
  {
    var a1 := a.(netBalance := 10.0);
    assert MoveHead([c, b], 20.0) == [b] by {
      assert [c, b][1..] == [b];
    }
    SettleRound([c, b], [a], 20.0, [b], [a1]);
    SettleRound([b], [a1], 10.0, [], []);
  }

  lemma ExampleTwoDebtorsSorted(a: BalanceSummary, b: BalanceSummary, c: BalanceSummary)
    requires a.netBalance == 30.0 && b.netBalance == -10.0 && c.netBalance == -20.0
    ensures SortBy(Debtors([a, b, c]), false) == [c, b] && SortBy(Creditors([a, b, c]), true) == [a]
  {
    PartitionOfThree(a, b, c);
    SortTwo(b, c, false);
    SortOne(a, true);
  }

  /** Two debtors with equal balances keep their order (the sort is
      stable): B pays before C. */
  lemma ExampleEqualDebtors(a: BalanceSummary, b: BalanceSummary, c: BalanceSummary)
    requires a.netBalance == 60.0 && b.netBalance == -30.0 && c.netBalance == -30.0
    ensures DebtsOf([a, b, c])
      == [Debt(b.userId, b.userName, a.userId, a.userName, 30.0), Debt(c.userId, c.userName, a.userId, a.userName, 30.0)]
  {
    ExampleEqualDebtorsSorted(a, b, c);
    SortedLists([a, b, c], [b, c], [a]);
    ExampleEqualDebtorsSettled(a, b, c);
  }

  lemma ExampleEqualDebtorsSettled(a: BalanceSummary, b: BalanceSummary, c: BalanceSummary)
    requires a.netBalance == 60.0 && b.netBalance == -30.0 && c.netBalance == -30.0
    ensures AllNegative([b, c]) && AllPositive([a])
    ensures Settle([b, c], [a])
      == [Debt(b.userId, b.userName, a.userId, a.userName, 30.0), Debt(c.userId, c.userName, a.userId, a.userName, 30.0)]
  {
    var a1 := a.(netBalance := 30.0);
    assert MoveHead([b, c], 30.0) == [c] by {
      assert [b, c][1..] == [c];
    }
    SettleRound([b, c], [a], 30.0, [c], [a1]);
    SettleRound([c], [a1], 30.0, [], []);
  }

  lemma ExampleEqualDebtorsSorted(a: BalanceSummary, b: BalanceSummary, c: BalanceSummary)
    requires a.netBalance == 60.0 && b.netBalance == -30.0 && c.netBalance == -30.0
    ensures SortBy(Debtors([a, b, c]), false) == [b, c] && SortBy(Creditors([a, b, c]), true) == [a]
  {
    PartitionOfThree(a, b, c);
    SortTwo(b, c, false);
    SortOne(a, true);
  }

  /** A member whose balance is exactly zero takes no part. */
  lemma ExampleSettledMember(a: BalanceSummary, b: BalanceSummary, c: BalanceSummary)
    requires a.netBalance == 30.0 && b.netBalance == 0.0 && c.netBalance == -30.0
    ensures DebtsOf([a, b, c]) == [Debt(c.userId, c.userName, a.userId, a.userName, 30.0)]
  {
    ExampleSettledMemberSorted(a, b, c);
    SortedLists([a, b, c], [c], [a]);
    SettleRound([c], [a], 30.0, [], []);
  }

  lemma ExampleSettledMemberSorted(a: BalanceSummary, b: BalanceSummary, c: BalanceSummary)
    requires a.netBalance == 30.0 && b.netBalance == 0.0 && c.netBalance == -30.0
    ensures SortBy(Debtors([a, b, c]), false) == [c] && SortBy(Creditors([a, b, c]), true) == [a]
  {
    PartitionOfThree(a, b, c);
    SortOne(c, false);
    SortOne(a, true);
  }

  /** The debtors and creditors of three entries, appended one at a time. */
  lemma PartitionOfThree(a: BalanceSummary, b: BalanceSummary, c: BalanceSummary)
    ensures Debtors([a, b, c])
      == Debtors([]) + (if a.netBalance < 0.0 then [a] else []) + (if b.netBalance < 0.0 then [b] else [])
         + (if c.netBalance < 0.0 then [c] else [])
    ensures Creditors([a, b, c])
      == Creditors([]) + (if a.netBalance > 0.0 then [a] else []) + (if b.netBalance > 0.0 then [b] else [])
         + (if c.netBalance > 0.0 then [c] else [])
  {
    assert [a] == [] + [a] && [a, b] == [a] + [b] && [a, b, c] == [a, b] + [c];
    PartitionSnoc([], a);
    PartitionSnoc([a], b);
    PartitionSnoc([a, b], c);
  }

  /** An entry appended to the balances is appended to the debtors or the
      creditors according to its sign. */
  lemma PartitionSnoc(s: seq<BalanceSummary>, x: BalanceSummary)
    ensures Debtors(s + [x]) == Debtors(s) + (if x.netBalance < 0.0 then [x] else [])
    ensures Creditors(s + [x]) == Creditors(s) + (if x.netBalance > 0.0 then [x] else [])
  {
    assert (s + [x])[..|s|] == s;
  }

  lemma SortOne(x: BalanceSummary, descending: bool)
    ensures SortBy([x], descending) == [x]
  {
    assert [x][1..] == [];
  }

  /** Two entries keep their order unless the second strictly precedes the first. */
  lemma SortTwo(x: BalanceSummary, y: BalanceSummary, descending: bool)
    ensures SortBy([x, y], descending) == if Precedes(x, y, descending) then [x, y] else [y, x]
  {
    assert [x, y][1..] == [y];
    SortOne(y, descending);
    assert [y][1..] == [];
  }

  /** DebtsOf once the two sorted lists are known. */
  lemma SortedLists(balances: seq<BalanceSummary>, ds: seq<BalanceSummary>, cs: seq<BalanceSummary>)
    requires SortBy(Debtors(balances), false) == ds && SortBy(Creditors(balances), true) == cs
    ensures AllNegative(ds) && AllPositive(cs) && DebtsOf(balances) == Settle(ds, cs)
  {
    PermutationKeepsSigns(Debtors(balances), ds);
    PermutationKeepsSigns(Creditors(balances), cs);
  }
}
