/** The settle-up form of the web client: it refuses to record a payment
    without a payee or to oneself, and otherwise posts the payment. */
module SettleUpModal {
  import opened Wrappers
  import opened Store
  import opened SettlementService

  /** The checks `handleSubmit` runs before posting, in order: the message
      it shows, or none when the payment may be posted. */
  function SubmitCheck(fromUser: UserId, toUser: UserId): (r: Option<string>)
    ensures r.None? <==> toUser != "" && fromUser != toUser
    ensures toUser == "" ==> r == Some("Please select who is being paid")
    ensures toUser != "" && fromUser == toUser ==> r == Some("Cannot settle with yourself")
  {
    if toUser == "" then Some("Please select who is being paid")
    else if fromUser == toUser then Some("Cannot settle with yourself")
    else None
  }

  /** The `SettleUpModal` component's state and submit handler. `sent`
      records the payloads posted to `/settlements`, and `succeeded` whether
      `onSuccess` has been called. */
  class SettleUpForm {
    const groupId: GroupId
    const currentUserId: UserId
    var fromUser: UserId
    var toUser: UserId
    var amount: real
    var loading: bool
    var error: string
    var sent: seq<CreateSettlementRequest>
    var succeeded: bool

    /** The form as it opens: the current user pays, no payee is chosen. */
    constructor(groupId: GroupId, currentUserId: UserId)
      ensures this.groupId == groupId && this.currentUserId == currentUserId
      ensures fromUser == currentUserId && toUser == "" && amount == 0.0
      ensures !loading && error == "" && sent == [] && !succeeded
    {
      this.groupId := groupId;
      this.currentUserId := currentUserId;
      fromUser := currentUserId;
      toUser := "";
      amount := 0.0;
      loading := false;
      error := "";
      sent := [];
      succeeded := false;
    }

    /** handleSubmit; `outcome` is how the post ends. A refused payment
        leaves `loading` as it was, since the checks run before it is set. */
    method HandleSubmit(outcome: RequestOutcome)
      modifies this`loading, this`error, this`sent, this`succeeded
      ensures SubmitCheck(fromUser, toUser).Some? ==>
        && error == SubmitCheck(fromUser, toUser).value
        && loading == old(loading) && sent == old(sent) && succeeded == old(succeeded)
      ensures SubmitCheck(fromUser, toUser).None? ==>
        && sent == old(sent) + [CreateSettlementRequest(groupId, fromUser, toUser, amount)]
        && !loading
      ensures SubmitCheck(fromUser, toUser).None? && outcome.Completed? ==> error == "" && succeeded
      ensures SubmitCheck(fromUser, toUser).None? && outcome.Failed? ==>
        error == ErrorText(outcome.serverError, "Failed to record settlement") && succeeded == old(succeeded)
    {
      if toUser == "" {
        error := "Please select who is being paid";
        return;
      }
      if fromUser == toUser {
        error := "Cannot settle with yourself";
        return;
      }
      loading := true;
      error := "";
      sent := sent + [CreateSettlementRequest(groupId, fromUser, toUser, amount)];
      if outcome.Completed? {
        succeeded := true;
      } else {
        error := ErrorText(outcome.serverError, "Failed to record settlement");
      }
      loading := false;
    }
  }
}
