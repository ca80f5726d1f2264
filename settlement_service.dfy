/** SettlementService: recording a payment between two users of a group,
    always marked SETTLED at the moment it is recorded, and listing a group's
    settlements. */
module SettlementService {
  import opened Wrappers
  import opened Seqs
  import opened Store
  import opened NetBalances

  /** CreateSettlementRequest. */
  datatype CreateSettlementRequest = CreateSettlementRequest(
    groupId: GroupId, fromUser: UserId, toUser: UserId, amount: real)

  /** The `@Positive` amount the controller enforces with `@Valid`. */
  predicate ValidRequest(req: CreateSettlementRequest)
  {
    req.amount > 0.0
  }

  /** SettlementResponse without its creation timestamp. */
  datatype SettlementResponse = SettlementResponse(
    id: SettlementId, fromUser: UserId, fromUserName: string,
    toUser: UserId, toUserName: string, amount: real,
    status: SettlementStatus, settledAt: Option<Timestamp>)

  function NameOf(users: seq<User>, id: UserId): (r: string)
    requires id in UserIds(users)
    ensures exists i :: 0 <= i < |users| && users[i].id == id && users[i].name == r
  {
    var u := FindUserById(users, id).value;
    assert u in users;
    u.name
  }

  /** SettlementService.mapToResponse. */
  function ToResponse(users: seq<User>, s: Settlement): (r: SettlementResponse)
    requires s.fromUser in UserIds(users) && s.toUser in UserIds(users)
    ensures r.id == s.id && r.fromUser == s.fromUser && r.toUser == s.toUser
    ensures r.amount == s.amount && r.status == s.status && r.settledAt == s.settledAt
  {
    SettlementResponse(s.id, s.fromUser, NameOf(users, s.fromUser), s.toUser, NameOf(users, s.toUser),
                       s.amount, s.status, s.settledAt)
  }

  /** SettlementService.createSettlement. `newId` stands for the generated
      UUID and `now` for the clock reading of `LocalDateTime.now()`. */
  method CreateSettlement(db: Database, req: CreateSettlementRequest, newId: SettlementId, now: Timestamp)
    returns (r: Result<SettlementResponse>)
    requires db.Valid() && ValidRequest(req)
    requires newId !in SettlementIds(db.settlements)
    modifies db`settlements
    ensures db.Valid()
    ensures r.Err? <==>
      req.groupId !in GroupIds(db.groups) || req.fromUser !in UserIds(db.users) || req.toUser !in UserIds(db.users)
    ensures r.Err? && req.groupId !in GroupIds(db.groups) ==> r.message == "Group not found"
    ensures r.Err? && req.groupId in GroupIds(db.groups) ==> r.message == "User not found"
    ensures r.Err? ==> db.settlements == old(db.settlements)
    ensures r.Ok? ==>
      db.settlements == old(db.settlements) + [Settlement(newId, req.groupId, req.fromUser, req.toUser, req.amount, SETTLED, Some(now))]
    ensures r.Ok? ==>
      && r.value.id == newId && r.value.fromUser == req.fromUser && r.value.toUser == req.toUser
      && r.value.amount == req.amount && r.value.status == SETTLED && r.value.settledAt == Some(now)
  {
    var group := FindGroupById(db.groups, req.groupId);
    if group.None? {
      return Err("Group not found");
    }
    var fromUser := FindUserById(db.users, req.fromUser);
    if fromUser.None? {
      return Err("User not found");
    }
    var toUser := FindUserById(db.users, req.toUser);
    if toUser.None? {
      return Err("User not found");
    }
    var s := Settlement(newId, group.value.id, fromUser.value.id, toUser.value.id, req.amount, SETTLED, Some(now));
    SettlementInserted(db.users, db.groups, db.members, db.expenses, db.splits, db.settlements, s);
    db.settlements := db.settlements + [s];
    r := Ok(ToResponse(db.users, s));
  }

  /** SettlementService.getGroupSettlements: the responses of every
      settlement of the group, whatever its status, in table order. */
  function GroupSettlementList(db: Database, g: GroupId): (r: Result<seq<SettlementResponse>>)
    reads db
    requires db.Valid()
    ensures r.Err? <==> g !in GroupIds(db.groups)
    ensures r.Err? ==> r.message == "Group not found"
    ensures r.Ok? ==> |r.value| == |GroupSettlements(db.settlements, g)|
    ensures r.Ok? ==> forall k :: 0 <= k < |r.value| ==>
      r.value[k].id == GroupSettlements(db.settlements, g)[k].id &&
      r.value[k].fromUser == GroupSettlements(db.settlements, g)[k].fromUser &&
      r.value[k].toUser == GroupSettlements(db.settlements, g)[k].toUser &&
      r.value[k].amount == GroupSettlements(db.settlements, g)[k].amount
  {
    if FindGroupById(db.groups, g).None? then Err("Group not found")
    else
      var rows := GroupSettlements(db.settlements, g);
      var users := db.users;
      GroupSettlementsMembers(db.settlements, g);
      Ok(seq(|rows|, k requires 0 <= k < |rows| => ToResponse(users, rows[k])))
  }

  /** findByGroup after one more insert: the new row is listed last when it
      belongs to the group, and not at all otherwise. */
  lemma {:induction false} GroupSettlementsAppend(settlements: seq<Settlement>, s: Settlement, g: GroupId)
    ensures GroupSettlements(settlements + [s], g)
      == GroupSettlements(settlements, g) + (if s.groupId == g then [s] else [])
    decreases |settlements|
  {
    if settlements == [] {
      assert [s][1..] == [];
    } else {
      assert (settlements + [s])[1..] == settlements[1..] + [s];
      GroupSettlementsAppend(settlements[1..], s, g);
    }
  }

  /** Recording a settlement of the group credits its payer and debits its
      payee by the amount, whatever its status, and moves no other balance. */
  lemma RecordedSettlementShiftsBalances(u: UserId, expenses: seq<Expense>, splits: seq<ExpenseSplit>,
                                         settlements: seq<Settlement>, s: Settlement, g: GroupId)
    requires s.groupId == g
    ensures NetBalance(u, expenses, splits, GroupSettlements(settlements + [s], g))
      == NetBalance(u, expenses, splits, GroupSettlements(settlements, g))
         + (if s.fromUser == u then s.amount else 0.0) - (if s.toUser == u then s.amount else 0.0)
  {
    GroupSettlementsAppend(settlements, s, g);
    SumConcat(GroupSettlements(settlements, g), [s], SettlementEffectFn(u));
    SumSingleton(s, SettlementEffectFn(u));
  }

  /** A settlement recorded for another group changes no balance of this one. */
  lemma OtherGroupSettlementIgnored(settlements: seq<Settlement>, s: Settlement, g: GroupId)
    requires s.groupId != g
    ensures GroupSettlements(settlements + [s], g) == GroupSettlements(settlements, g)
  {
    GroupSettlementsAppend(settlements, s, g);
  }
}
