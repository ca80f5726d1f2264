/** The add-expense form of the web client: it turns the total, the split
    policy and the selected members into the split list it posts, rejects
    EXACT amounts that do not add up to the total and PERCENTAGE shares that
    do not add up to 100 (both within 0.01), and lets members be checked and
    unchecked. Typed amounts are modelled after parsing, as reals; an empty or
    missing entry counts as 0, as `|| '0'` makes it. */
module AddExpenseModal {
  import opened Wrappers
  import opened Seqs
  import opened Store
  import opened ExpenseService
  import DebtSettlement

  datatype SplitType = EQUAL | EXACT | PERCENTAGE

  /** The message the form shows; `SplitsDoNotAddUp` and
      `PercentagesDoNotAddUp` carry the numbers its text is formatted from. */
  datatype FormError =
    | NoError
    | SplitsDoNotAddUp(sum: real, total: real)
    | PercentagesDoNotAddUp(sumPercent: real)
    | RequestFailed(message: string)

  /** The split list to post, or the reason it was refused. */
  datatype Built = Accepted(splits: seq<SplitRequest>) | Rejected(reason: FormError)

  /** A member's typed amount or percentage; a member without one has 0. */
  function Entry(entries: map<UserId, real>, id: UserId): (r: real)
    ensures id !in entries ==> r == 0.0
  {
    if id in entries then entries[id] else 0.0
  }

  function Owed(s: SplitRequest): real
  {
    s.owedAmount
  }

  /** The owed amount of every member under EQUAL. */
  function EqualShare(share: real): UserId -> real
  {
    _ => share
  }

  /** The owed amount of a member under EXACT: the typed amount. */
  function ExactOwed(exact: map<UserId, real>): UserId -> real
  {
    id => Entry(exact, id)
  }

  /** A member's typed percentage. */
  function PercentOf(percentages: map<UserId, real>): UserId -> real
  {
    id => Entry(percentages, id)
  }

  /** The owed amount of a member under PERCENTAGE: that share of the total. */
  function PercentOwed(total: real, percentages: map<UserId, real>): UserId -> real
  {
    id => total * Entry(percentages, id) / 100.0
  }

  /** `selectedMembers.map(userId => ({ userId, owedAmount }))`. */
  function Splits(members: seq<UserId>, owed: UserId -> real): seq<SplitRequest>
  {
    seq(|members|, k requires 0 <= k < |members| => SplitRequest(members[k], owed(members[k])))
  }

  /** The split building and checks of `handleSubmit`. The EQUAL division
      needs a member; the submit button is disabled without one. */
  function BuildSplits(t: SplitType, members: seq<UserId>, total: real,
                       exact: map<UserId, real>, percentages: map<UserId, real>): (r: Built)
    requires t == EQUAL ==> |members| > 0
    ensures r.Accepted? ==> |r.splits| == |members|
    ensures r.Accepted? ==> forall k :: 0 <= k < |members| ==> r.splits[k].userId == members[k]
    ensures t == EQUAL ==> r.Accepted?
    ensures t == EXACT ==>
      (r.Accepted? <==> DebtSettlement.Abs(Sum(members, ExactOwed(exact)) - total) <= 0.01)
    ensures t == PERCENTAGE ==>
      (r.Accepted? <==> DebtSettlement.Abs(Sum(members, PercentOf(percentages)) - 100.0) <= 0.01)
  {
    match t
    case EQUAL =>
      Accepted(Splits(members, EqualShare(total / |members| as real)))
    case EXACT =>
      var splits := Splits(members, ExactOwed(exact));
      var sum := Sum(splits, Owed);
      SplitsSum(members, ExactOwed(exact));
      if DebtSettlement.Abs(sum - total) > 0.01 then Rejected(SplitsDoNotAddUp(sum, total))
      else Accepted(splits)
    case PERCENTAGE =>
      var splits := Splits(members, PercentOwed(total, percentages));
      var sumPercent := Sum(members, PercentOf(percentages));
      if DebtSettlement.Abs(sumPercent - 100.0) > 0.01 then Rejected(PercentagesDoNotAddUp(sumPercent))
      else Accepted(splits)
  }

  /** Summing the owed amounts of the split list sums `owed` over the members. */
  lemma {:induction false} SplitsSum(members: seq<UserId>, owed: UserId -> real)
    ensures Sum(Splits(members, owed), Owed) == Sum(members, owed)
    decreases |members|
  {
    if members != [] {
      var n := |members|;
      assert Splits(members, owed)[..n - 1] == Splits(members[..n - 1], owed);
      SplitsSum(members[..n - 1], owed);
    }
  }

  lemma {:induction false} SumEqualShares(members: seq<UserId>, share: real)
    ensures Sum(members, EqualShare(share)) == |members| as real * share
    decreases |members|
  {
    if members != [] {
      SumEqualShares(members[..|members| - 1], share);
    }
  }

  lemma {:induction false} SumPercentOwed(members: seq<UserId>, total: real, percentages: map<UserId, real>)
    ensures Sum(members, PercentOwed(total, percentages)) == total * Sum(members, PercentOf(percentages)) / 100.0
    decreases |members|
  {
    if members != [] {
      var init := members[..|members| - 1];
      SumPercentOwed(init, total, percentages);
      var p := Entry(percentages, members[|members| - 1]);
      var s := Sum(init, PercentOf(percentages));
      assert total * s / 100.0 + total * p / 100.0 == total * (s + p) / 100.0;
    }
  }

  /** EQUAL gives every selected member the same share, and the shares add
      up to the total. */
  lemma EqualSplitsAddUp(members: seq<UserId>, total: real, exact: map<UserId, real>,
                         percentages: map<UserId, real>)
    requires |members| > 0
    ensures var r := BuildSplits(EQUAL, members, total, exact, percentages);
      && (forall k :: 0 <= k < |members| ==> r.splits[k].owedAmount == total / |members| as real)
      && Sum(r.splits, Owed) == total
  {
    var share := total / |members| as real;
    SplitsSum(members, EqualShare(share));
    SumEqualShares(members, share);
  }

  /** An accepted EXACT split copies each member's typed amount (0 when
      none was typed), and its amounts are within 0.01 of the total. */
  lemma ExactSplitsAccepted(members: seq<UserId>, total: real, exact: map<UserId, real>,
                            percentages: map<UserId, real>)
    requires BuildSplits(EXACT, members, total, exact, percentages).Accepted?
    ensures var r := BuildSplits(EXACT, members, total, exact, percentages);
      && (forall k :: 0 <= k < |members| ==> r.splits[k].owedAmount == Entry(exact, members[k]))
      && DebtSettlement.Abs(Sum(r.splits, Owed) - total) <= 0.01
  {
    SplitsSum(members, ExactOwed(exact));
  }

  /** A PERCENTAGE split gives each member that percentage of the total (0
      when none was typed), and its amounts add up to the total scaled by
      the percentages' sum. */
  lemma PercentageSplitsScale(members: seq<UserId>, total: real, exact: map<UserId, real>,
                              percentages: map<UserId, real>)
    requires BuildSplits(PERCENTAGE, members, total, exact, percentages).Accepted?
    ensures var r := BuildSplits(PERCENTAGE, members, total, exact, percentages);
      && (forall k :: 0 <= k < |members| ==>
            r.splits[k].owedAmount == total * Entry(percentages, members[k]) / 100.0)
      && Sum(r.splits, Owed) == total * Sum(members, PercentOf(percentages)) / 100.0
  {
    var owed := PercentOwed(total, percentages);
    assert BuildSplits(PERCENTAGE, members, total, exact, percentages).splits == Splits(members, owed);
    SplitsSum(members, owed);
    SumPercentOwed(members, total, percentages);
  }

  /** An accepted PERCENTAGE split owes the total up to a ten-thousandth of it. */
  lemma PercentageSplitsNearTotal(members: seq<UserId>, total: real, exact: map<UserId, real>,
                                  percentages: map<UserId, real>)
    requires BuildSplits(PERCENTAGE, members, total, exact, percentages).Accepted?
    ensures DebtSettlement.Abs(Sum(BuildSplits(PERCENTAGE, members, total, exact, percentages).splits, Owed) - total)
      <= DebtSettlement.Abs(total) * 0.0001
  {
    PercentageSplitsScale(members, total, exact, percentages);
    var owed := Sum(BuildSplits(PERCENTAGE, members, total, exact, percentages).splits, Owed);
    var s := Sum(members, PercentOf(percentages));
    NearTotal(owed, total, s);
  }

  lemma NearTotal(owed: real, total: real, s: real)
    requires owed == total * s / 100.0
    requires DebtSettlement.Abs(s - 100.0) <= 0.01
    ensures DebtSettlement.Abs(owed - total) <= DebtSettlement.Abs(total) * 0.0001
  {
    var d := s - 100.0;
    assert owed - total == total * d / 100.0;
    AbsProductBound(total, d, 0.01);
  }

  lemma AbsProductBound(x: real, d: real, bound: real)
    requires DebtSettlement.Abs(d) <= bound
    ensures DebtSettlement.Abs(x * d / 100.0) <= DebtSettlement.Abs(x) * bound / 100.0
  {
    var ax, ad := DebtSettlement.Abs(x), DebtSettlement.Abs(d);
    assert DebtSettlement.Abs(x * d) == ax * ad;
    assert ax * ad <= ax * bound;
  }

  /** The `AddExpenseModal` component's state and handlers. `sent` records
      the payloads posted to `/expenses`, and `succeeded` whether `onSuccess`
      has been called. */
  class AddExpenseForm {
    const groupId: GroupId
    const currentUserId: UserId
    var description: string
    var amount: real
    var paidBy: UserId
    var splitType: SplitType
    var selectedMembers: seq<UserId>
    var exactAmounts: map<UserId, real>
    var percentages: map<UserId, real>
    var loading: bool
    var error: FormError
    var sent: seq<CreateExpenseRequest>
    var succeeded: bool

    /** The form as it opens: the current user pays, EQUAL, every member
        selected, nothing typed. */
    constructor(groupId: GroupId, members: seq<User>, currentUserId: UserId)
      ensures this.groupId == groupId && this.currentUserId == currentUserId
      ensures description == "" && amount == 0.0
      ensures paidBy == currentUserId && splitType == EQUAL
      ensures selectedMembers == UserIds(members)
      ensures exactAmounts == map[] && percentages == map[]
      ensures !loading && error == NoError && sent == [] && !succeeded
    {
      this.groupId := groupId;
      this.currentUserId := currentUserId;
      description := "";
      amount := 0.0;
      paidBy := currentUserId;
      splitType := EQUAL;
      selectedMembers := UserIds(members);
      exactAmounts := map[];
      percentages := map[];
      loading := false;
      error := NoError;
      sent := [];
      succeeded := false;
    }

    /** The splits the current inputs give. */
    function Pending(): Built
      reads this`splitType, this`selectedMembers, this`amount, this`exactAmounts, this`percentages
      requires |selectedMembers| > 0
    {
      BuildSplits(splitType, selectedMembers, amount, exactAmounts, percentages)
    }

    /** The body posted to `/expenses`. */
    function Payload(splits: seq<SplitRequest>): (r: CreateExpenseRequest)
      reads this`description, this`amount, this`paidBy
      ensures r.groupId == groupId && r.description == description && r.amount == amount
      ensures r.paidBy == paidBy && r.createdBy == currentUserId && r.splits == splits
    {
      CreateExpenseRequest(groupId, description, amount, paidBy, currentUserId, splits)
    }

    /** handleSubmit. The button is disabled while a request is in flight or
        no member is selected; `outcome` is how the post ends. */
    method HandleSubmit(outcome: RequestOutcome)
      requires !loading && |selectedMembers| > 0
      modifies this`loading, this`error, this`sent, this`succeeded
      ensures !loading
      ensures Pending().Rejected? ==>
        error == Pending().reason && sent == old(sent) && succeeded == old(succeeded)
      ensures Pending().Accepted? ==> sent == old(sent) + [Payload(Pending().splits)]
      ensures Pending().Accepted? && outcome.Completed? ==> error == NoError && succeeded
      ensures Pending().Accepted? && outcome.Failed? ==>
        error == RequestFailed(ErrorText(outcome.serverError, "Failed to add expense"))
        && succeeded == old(succeeded)
    {
      loading := true;
      error := NoError;
      var built := BuildSplits(splitType, selectedMembers, amount, exactAmounts, percentages);
      if built.Rejected? {
        error := built.reason;
        loading := false;
        return;
      }
      sent := sent + [Payload(built.splits)];
      if outcome.Completed? {
        succeeded := true;
      } else {
        error := RequestFailed(ErrorText(outcome.serverError, "Failed to add expense"));
      }
      loading := false;
    }

    /** A member's checkbox: it shows whether the member is selected, so a
        change checks an unselected member and unchecks a selected one. */
    method ToggleMember(id: UserId, checked: bool)
      requires checked <==> id !in selectedMembers
      modifies this`selectedMembers
      ensures checked ==> selectedMembers == old(selectedMembers) + [id]
      ensures !checked ==> selectedMembers == Without(old(selectedMembers), id)
      ensures id in selectedMembers <==> checked
      ensures Distinct(old(selectedMembers)) ==> Distinct(selectedMembers)
    {
      WithoutMembers(selectedMembers, id);
      if Distinct(selectedMembers) {
        WithoutDistinct(selectedMembers, id);
      }
      if checked {
        selectedMembers := selectedMembers + [id];
      } else {
        selectedMembers := Without(selectedMembers, id);
      }
    }
  }

  /** With a description that is not blank and a positive total, what the
      form posts meets the backend's request constraints: the disabled button
      guarantees a non-empty split list. */
  lemma PayloadIsValidRequest(req: CreateExpenseRequest, members: seq<UserId>, t: SplitType,
                              exact: map<UserId, real>, percentages: map<UserId, real>)
    requires |members| > 0 && NotBlank(req.description) && req.amount > 0.0
    requires BuildSplits(t, members, req.amount, exact, percentages).Accepted?
    requires req.splits == BuildSplits(t, members, req.amount, exact, percentages).splits
    ensures ExpenseService.ValidRequest(req)
  {
  }
}
