# splitEase ledger and settle-up engine in Dafny

This project models the core of splitEase, a group expense-splitting app with a
Spring Boot backend and a React frontend:

- **Balances.** The backend folds a group's non-deleted expenses and all of its
  settlements into one net balance per member (`BalanceService.getGroupBalances`).
- **Debts.** It then turns those balances into a list of suggested payments with
  a greedy two-pointer pass over sorted debtors and creditors
  (`BalanceService.getGroupDebts`).
- **Tables.** The ledger and membership tables are changed by the expense,
  settlement, group and user services and read by the friends query of the user
  repository.
- **Client.** The frontend builds and validates the splits of a new expense
  (EQUAL, EXACT, PERCENTAGE), guards the settle-up form, toggles friends and
  members in selection lists, extracts an invite token from a pasted link,
  filters a deleted expense out of the local list, labels balances and picks out
  the signed-in user's own debts.

## Layout

- **Shared modules:**
  - `Wrappers`: `Option`, `Result`, the outcome of a client request and the
    client's error-text fallback.
  - `Seqs`: `Distinct`, `Without`, and `Sum` over a sequence with its algebra.
  - `Store`: the entities and the `Database` class. Its sequence fields are the
    JPA tables, and `Valid()` states the keys and foreign keys they keep.
- **Backend modules:** one per service.
  - `BalanceService` is split in two: `NetBalances` (the balance fold) and
    `DebtSettlement` (the debt pass).
  - The services that change tables are methods with `modifies` on the
    `Database`. Their read paths are functions over the tables.
  - Generated UUIDs and clock readings are method parameters; fresh ids are
    required to be fresh.
  - `@Transactional` rollback is written out: on a failure after a save, the
    tables are restored.
- **Frontend modules:** one per component or page.
  - `AddExpenseModal` and `SettleUpModal` are classes whose fields are the
    component's state hooks. `HandleSubmit` takes the outcome of the HTTP
    request as a parameter and records what was posted in a `sent` field.
  - `CreateGroupPage`, `DashboardPage` and `GroupDetailsPage` are pure functions
    and lemmas.
- **Amounts** are `real` throughout: exact `BigDecimal` in the backend, an
  abstraction of JavaScript numbers in the client.
- **Ids** are strings.

Where the code and the design description of the app disagree, the model
follows the code:

- **Settlement status is ignored.** Settlements count towards balances whatever
  their status. The design says PENDING ones should not count
  (`BalanceService.java:46-52` reads every settlement of the group).
- **No epsilon.** The debt loop compares with exact zero. The design speaks of a
  0.01 tolerance.
- **Sorted once, not re-picked.** Debtors and creditors are sorted once and then
  walked with two pointers. The largest remaining party is not chosen afresh
  each round.
- **Debt order follows the stable sort.** For balances A +30, B −10, C −20 the
  code yields `C→A 20, B→A 10`: the most negative debtor comes first, and ties
  keep member order.
- **No split-sum check in the backend.** The backend never checks that the
  splits add up to the amount; only the client does.
- **Self-settlement is only a client check.** The backend accepts a settlement
  whose payer is also its payee; only the settle-up form refuses one.

## Model

| member | source | states |
|---|---|---|
| Store.FindUserById | backend/src/main/java/com/splitwise/clone/service/UserService.java:41-44 | the lookup finds a stored user with that id exactly when the id is stored |
| Store.FindUserByEmail | backend/src/main/java/com/splitwise/clone/repository/UserRepository.java:15 | `findByEmail` finds a stored user with that email exactly when the email is stored |
| Store.FindGroupById | backend/src/main/java/com/splitwise/clone/service/GroupService.java:86-89 | the group lookup succeeds exactly for a stored id and returns that group |
| Store.FindGroupByToken | backend/src/main/java/com/splitwise/clone/service/GroupService.java:64-65 | `findByInviteToken` finds a stored group with that token exactly when the token is stored |
| Store.FindExpenseIndex | backend/src/main/java/com/splitwise/clone/service/ExpenseService.java:61-62 | the expense lookup finds the position of an expense with that id exactly when the id is stored |
| Store.FindUserByIdUnique | backend/src/main/java/com/splitwise/clone/service/UserService.java:41-44 | with unique ids, the lookup of a stored user's id returns that very user |
| Store.FindUserByEmailUnique | backend/src/main/java/com/splitwise/clone/repository/UserRepository.java:15 | with unique emails, the lookup of a stored user's email returns that very user |
| Store.MemberIdsOf | backend/src/main/java/com/splitwise/clone/service/GroupService.java:101-109 | `findByGroupId` lists a user exactly when the membership row exists, and without duplicates when rows are unique |
| Store.MemberRows | backend/src/main/java/com/splitwise/clone/service/GroupService.java:39-55 | the rows saved for a group hold one (group, user) row per id, in order |
| Store.MemberIdsOfConcat | backend/src/main/java/com/splitwise/clone/service/GroupService.java:101-109 | the members of a group over appended rows are the members over each part, in order |
| Store.MemberIdsOfRows | backend/src/main/java/com/splitwise/clone/service/GroupService.java:39-55 | the rows saved for group g list exactly the saved ids for g and nothing for any other group |
| Store.FreshRowsDistinct | backend/src/main/java/com/splitwise/clone/entity/GroupMember.java:11-13 | rows for a new group keep the (group, user) unique constraint exactly when the saved ids have no duplicate |
| Store.ActiveExpensesMembers | backend/src/main/java/com/splitwise/clone/repository/ExpenseRepository.java:13 | `findByGroupAndIsDeletedFalse` holds exactly the group's expenses not flagged deleted |
| Store.GroupSettlementsMembers | backend/src/main/java/com/splitwise/clone/repository/SettlementRepository.java:14 | `findByGroup` holds exactly the group's settlements |
| Store.SplitsOfMembers | backend/src/main/java/com/splitwise/clone/service/BalanceService.java:38 | `findByExpense` holds exactly the split rows of that expense |
| Store.SplitsOfConcat | backend/src/main/java/com/splitwise/clone/service/ExpenseService.java:46-54 | the splits of an expense over appended rows are those of each part, in order |
| Store.UserInserted | backend/src/main/java/com/splitwise/clone/service/UserService.java:28 | saving a user with a new id and new email keeps the table invariant |
| Store.GroupInserted | backend/src/main/java/com/splitwise/clone/service/GroupService.java:36 | saving a group with a new id and token, created by a stored user, keeps the table invariant |
| Store.MemberInserted | backend/src/main/java/com/splitwise/clone/service/GroupService.java:76 | saving a new (group, user) row for a stored group and user keeps the table invariant |
| Store.MembersInserted | backend/src/main/java/com/splitwise/clone/service/GroupService.java:43-55 | saving rows that keep the pairs unique, for stored groups and users, keeps the table invariant |
| Store.ExpenseInserted | backend/src/main/java/com/splitwise/clone/service/ExpenseService.java:44 | saving an expense with a new id, a stored group and stored users keeps the table invariant |
| Store.SplitInserted | backend/src/main/java/com/splitwise/clone/service/ExpenseService.java:53 | saving a split of a stored expense for a stored user keeps the table invariant |
| Store.ExpenseFlagged | backend/src/main/java/com/splitwise/clone/service/ExpenseService.java:68-69 | flagging one expense deleted keeps the table invariant |
| Store.SettlementInserted | backend/src/main/java/com/splitwise/clone/service/SettlementService.java:41 | saving a settlement with a new id, a stored group and stored users keeps the table invariant |
| NetBalances.ZeroBalances | backend/src/main/java/com/splitwise/clone/service/BalanceService.java:28-31 | the map has an entry for exactly the members, each zero |
| NetBalances.DebitSplits | backend/src/main/java/com/splitwise/clone/service/BalanceService.java:39-42 | each user's entry drops by the sum of their owed amounts in the splits, and no key is added |
| NetBalances.CreditExpenses | backend/src/main/java/com/splitwise/clone/service/BalanceService.java:34-43 | each user's entry grows by the amounts they paid minus what they owe across the expenses, and no key is added |
| NetBalances.CreditSettlements | backend/src/main/java/com/splitwise/clone/service/BalanceService.java:46-52 | each settlement credits its payer and debits its payee by its amount, whatever its status, and no key is added |
| NetBalances.BalanceMap | backend/src/main/java/com/splitwise/clone/service/BalanceService.java:28-52 | after the three loops the map has an entry for exactly the members, each holding that member's net balance over the expenses and settlements |
| NetBalances.ComputeBalances | backend/src/main/java/com/splitwise/clone/service/BalanceService.java:28-62 | one summary per member in member order, each carrying the member's id, name and net balance |
| NetBalances.GetGroupBalances | backend/src/main/java/com/splitwise/clone/service/BalanceService.java:22-65 | an unknown group fails with "Group not found"; a ledger entry naming a non-member fails at the map lookup; otherwise the result is the members' net balances |
| NetBalances.MemberUsers | backend/src/main/java/com/splitwise/clone/service/BalanceService.java:54-62 | the users read from the membership rows have exactly the member ids, in order |
| NetBalances.MemberBalances | backend/src/main/java/com/splitwise/clone/service/BalanceService.java:54-62 | the summary list has exactly one entry per member |
| NetBalances.BalanceIndependentOfOrder | backend/src/main/java/com/splitwise/clone/service/BalanceService.java:34-52 | a net balance does not depend on the order of the expenses or of the settlements |
| NetBalances.ActiveExpensesConcat | backend/src/main/java/com/splitwise/clone/repository/ExpenseRepository.java:13 | the active-expense filter distributes over concatenation |
| NetBalances.ActiveAfterDelete | backend/src/main/java/com/splitwise/clone/service/ExpenseService.java:68-69 | after flagging expense i deleted, the active list is the active expenses before and after i |
| NetBalances.DeletingExpenseRemovesItsEffect | backend/src/main/java/com/splitwise/clone/service/BalanceService.java:25 | deleting an active expense of the group takes exactly its effect out of every balance; any other delete changes nothing |
| NetBalances.SettlementKeepsGroupTotal | backend/src/main/java/com/splitwise/clone/service/BalanceService.java:46-52 | a settlement between two members leaves the sum of the group's balances unchanged |
| DebtSettlement.Debtors | backend/src/main/java/com/splitwise/clone/service/BalanceService.java:74-76 | every debtor has a negative balance and comes from the input |
| DebtSettlement.Creditors | backend/src/main/java/com/splitwise/clone/service/BalanceService.java:77-79 | every creditor has a positive balance and comes from the input |
| DebtSettlement.PartitionKeepsSums | backend/src/main/java/com/splitwise/clone/service/BalanceService.java:74-80 | debtors and creditors together carry every non-zero balance, so sums over them equal sums over all members |
| DebtSettlement.Insert | backend/src/main/java/com/splitwise/clone/service/BalanceService.java:83-84 | one insertion step adds exactly the element to the list |
| DebtSettlement.InsertSorted | backend/src/main/java/com/splitwise/clone/service/BalanceService.java:83-84 | insertion into a sorted list keeps it sorted |
| DebtSettlement.SortBy | backend/src/main/java/com/splitwise/clone/service/BalanceService.java:83-84 | the sort returns a permutation of its input, sorted ascending or descending by balance |
| DebtSettlement.SortByStable | backend/src/main/java/com/splitwise/clone/service/BalanceService.java:83-84 | the sort is stable: entries with equal balances keep their input order |
| DebtSettlement.SortedPermutationsAgree | backend/src/main/java/com/splitwise/clone/service/BalanceService.java:83-84 | two sorted permutations that agree on the order within each balance are equal, so a stable sort's result is unique |
| DebtSettlement.RoundShrinks | backend/src/main/java/com/splitwise/clone/service/BalanceService.java:93-109 | each round pays a positive amount, keeps debtors negative and creditors positive, and removes at least one party |
| DebtSettlement.SettleParties | backend/src/main/java/com/splitwise/clone/service/BalanceService.java:93-101 | every debt has a positive amount, is paid by a debtor and goes to a creditor |
| DebtSettlement.Leftover | backend/src/main/java/com/splitwise/clone/service/BalanceService.java:89 | the loop ends when either the debtors or the creditors are used up |
| DebtSettlement.SettleConserves | backend/src/main/java/com/splitwise/clone/service/BalanceService.java:103-104 | for each user, their starting balance plus the debts paid minus the debts received equals what is left of their balance |
| DebtSettlement.SettleKeepsTotal | backend/src/main/java/com/splitwise/clone/service/BalanceService.java:103-104 | every round moves the same amount on both sides, so the total of the balances is kept |
| DebtSettlement.NegativeSum | backend/src/main/java/com/splitwise/clone/service/BalanceService.java:74-76 | a non-empty list of debtors sums below zero |
| DebtSettlement.PositiveSum | backend/src/main/java/com/splitwise/clone/service/BalanceService.java:77-79 | a non-empty list of creditors sums above zero |
| DebtSettlement.SettleClearsBalances | backend/src/main/java/com/splitwise/clone/service/BalanceService.java:87-110 | when the balances sum to zero nothing is left over, and applying the debts brings every user to zero |
| DebtSettlement.SettleCount | backend/src/main/java/com/splitwise/clone/service/BalanceService.java:89-109 | the loop emits at most #debtors + #creditors − 1 debts, and none when either side is empty |
| DebtSettlement.PermutationKeepsSigns | backend/src/main/java/com/splitwise/clone/service/BalanceService.java:83-84 | sorting keeps every debtor negative and every creditor positive |
| DebtSettlement.Partition | backend/src/main/java/com/splitwise/clone/service/BalanceService.java:71-80 | the loop collects exactly the negative balances as debtors and the positive ones as creditors, in member order |
| DebtSettlement.PairPass | backend/src/main/java/com/splitwise/clone/service/BalanceService.java:90-109 | one pass emits the debt the greedy settlement starts with, leaves the remaining entries with the sign they had, advances at least one pointer, and the remaining entries settle to the rest of the greedy list |
| DebtSettlement.Pair | backend/src/main/java/com/splitwise/clone/service/BalanceService.java:86-112 | the two-pointer loop, mutating working copies, emits exactly the greedy debt list |
| DebtSettlement.GroupDebts | backend/src/main/java/com/splitwise/clone/service/BalanceService.java:68-112 | partition, stable sort and the loop yield the debt list of the balances |
| DebtSettlement.GetGroupDebts | backend/src/main/java/com/splitwise/clone/service/BalanceService.java:67-113 | the failures of the balance query are passed on with their messages; otherwise the result is the debt list of the members' balances |
| DebtSettlement.PartitionSize | backend/src/main/java/com/splitwise/clone/service/BalanceService.java:74-80 | debtors and creditors together are at most the members, and no entry is both a debtor and a creditor |
| DebtSettlement.DebtsCount | backend/src/main/java/com/splitwise/clone/service/BalanceService.java:89-110 | no debts without both a debtor and a creditor, and otherwise fewer debts than non-settled members |
| DebtSettlement.DebtParties | backend/src/main/java/com/splitwise/clone/service/BalanceService.java:74-101 | every debt is positive and runs from a member with a negative balance to one with a positive balance |
| DebtSettlement.NoOneBothPaysAndReceives | backend/src/main/java/com/splitwise/clone/service/BalanceService.java:74-80 | with unique member ids, no one is both a payer and a payee, and no one pays themself |
| DebtSettlement.DebtsSettleGroup | backend/src/main/java/com/splitwise/clone/service/BalanceService.java:87-110 | when the balances sum to zero, applying the debts brings every user to zero |
| DebtSettlement.HoldingOfMember | backend/src/main/java/com/splitwise/clone/service/BalanceService.java:54-62 | with unique member ids, a user's holding over the list is their own balance |
| DebtSettlement.DebtsClearEveryBalance | backend/src/main/java/com/splitwise/clone/service/BalanceService.java:87-110 | when the balances sum to zero, every member's balance plus the debts they pay minus those they receive is zero |
| DebtSettlement.ExampleTwoDebtors | backend/src/main/java/com/splitwise/clone/service/BalanceService.java:83-110 | for any ids and names, balances A +30, B −10, C −20 give C→A 20 then B→A 10 |
| DebtSettlement.ExampleEqualDebtors | backend/src/main/java/com/splitwise/clone/service/BalanceService.java:83-110 | for any ids and names, equal debts keep member order: A +60, B −30, C −30 give B→A 30 then C→A 30 |
| DebtSettlement.ExampleSettledMember | backend/src/main/java/com/splitwise/clone/service/BalanceService.java:74-80 | for any ids and names, a member at zero takes part in no debt: A +30, B 0, C −30 give only C→A 30 |
| ExpenseService.UserName | backend/src/main/java/com/splitwise/clone/service/ExpenseService.java:92-93 | the name shown is that of a stored user with the id |
| ExpenseService.ToResponse | backend/src/main/java/com/splitwise/clone/service/ExpenseService.java:79-97 | the response copies id, description, amount and payer, and lists the expense's splits with their users and owed amounts, in table order |
| ExpenseService.SplitRows | backend/src/main/java/com/splitwise/clone/service/ExpenseService.java:46-54 | one split row per requested split, each tied to the new expense |
| ExpenseService.SaveSplits | backend/src/main/java/com/splitwise/clone/service/ExpenseService.java:46-54 | the split loop succeeds exactly when every split user is stored, and then appends one row per requested split with the owed amount unchanged |
| ExpenseService.AddExpense | backend/src/main/java/com/splitwise/clone/service/ExpenseService.java:30-57 | fails with "Group not found" or "User not found" exactly when a lookup fails, changing nothing; otherwise stores the expense as requested plus its split rows and returns them |
| ExpenseService.NewExpenseResponse | backend/src/main/java/com/splitwise/clone/service/ExpenseService.java:56 | the response of a new expense lists exactly the requested splits, in request order |
| ExpenseService.DeleteExpense | backend/src/main/java/com/splitwise/clone/service/ExpenseService.java:59-70 | an unknown id fails with "Expense not found"; a group with any settlement fails with "Cannot delete expense: settlements exist in this group"; both change nothing; otherwise only the isDeleted flag of that expense is set, so deleting twice changes nothing more |
| ExpenseService.GroupExpenses | backend/src/main/java/com/splitwise/clone/service/ExpenseService.java:72-77 | an unknown group fails with "Group not found"; otherwise one response per active expense of the group, in table order |
| ExpenseService.ActiveIdsExact | backend/src/main/java/com/splitwise/clone/repository/ExpenseRepository.java:13 | with unique ids, an expense's id is listed exactly when it belongs to the group and is not deleted |
| ExpenseService.GroupExpensesAreActive | backend/src/main/java/com/splitwise/clone/service/ExpenseService.java:72-77 | an expense is in the group's list exactly when it belongs to the group and is not deleted |
| ExpenseService.AddingExpenseAddsItsEffect | backend/src/main/java/com/splitwise/clone/service/BalanceService.java:34-43 | a new expense adds its amount to its payer and takes each split's owed amount from its user |
| ExpenseService.AddedExpenseWithinMembers | backend/src/main/java/com/splitwise/clone/service/BalanceService.java:34-43 | after a new expense the balance query still succeeds exactly when its payer and split users are members |
| GroupService.ToResponse | backend/src/main/java/com/splitwise/clone/service/GroupService.java:91-99 | the response copies id, name, invite token and creator |
| GroupService.CreateGroup | backend/src/main/java/com/splitwise/clone/service/GroupService.java:26-60 | unknown users fail with "User not found"; a repeated initial member breaks the unique constraint; both roll back; otherwise saves the group and adds the creator first, then each initial member other than the creator |
| GroupService.SaveGroup | backend/src/main/java/com/splitwise/clone/service/GroupService.java:30-57 | with the creator found: an unknown initial member fails with "User not found", a repeated one breaks the unique constraint, and both roll back; otherwise the group is appended and the creator's row comes before each other initial member's row |
| GroupService.AddInitialMembers | backend/src/main/java/com/splitwise/clone/service/GroupService.java:46-57 | the loop succeeds exactly when every listed user is stored, and then appends one row per listed id other than the creator, in order |
| GroupService.CommitRows | backend/src/main/java/com/splitwise/clone/entity/GroupMember.java:11-13 | the new rows keep the (group, user) pairs unique exactly when the initial members, creator skipped, have no duplicate |
| GroupService.AddedIdsExact | backend/src/main/java/com/splitwise/clone/service/GroupService.java:38-57 | the creator is added first and only once, and the added ids are exactly the creator and the initial members |
| GroupService.CreatedGroupMembers | backend/src/main/java/com/splitwise/clone/service/GroupService.java:38-57 | the new group's members are exactly the added ids, creator first |
| GroupService.CreateGroupLeavesOtherGroups | backend/src/main/java/com/splitwise/clone/service/GroupService.java:38-57 | creating a group changes no other group's members |
| GroupService.JoinGroup | backend/src/main/java/com/splitwise/clone/service/GroupService.java:62-77 | an unknown token fails with "Invalid invite token", an unknown user with "User not found", an existing member with "User already in group", all changing nothing; otherwise exactly one (group, user) row is added |
| GroupService.JoinedGroupMembers | backend/src/main/java/com/splitwise/clone/service/GroupService.java:72-76 | a join adds the user at the end of that group's members and leaves other groups untouched |
| GroupService.FindById | backend/src/main/java/com/splitwise/clone/service/GroupService.java:86-89 | succeeds exactly for a stored id, returning that group, and otherwise fails with "Group not found" |
| GroupService.GroupIdsOf | backend/src/main/java/com/splitwise/clone/service/GroupService.java:81 | the user's membership rows name exactly the groups the user belongs to |
| GroupService.GetUserGroups | backend/src/main/java/com/splitwise/clone/service/GroupService.java:79-84 | an unknown user fails with "User not found"; otherwise exactly the groups with a membership row for the user |
| GroupService.GetGroupMembers | backend/src/main/java/com/splitwise/clone/service/GroupService.java:101-109 | one response per membership row of the group, each carrying a stored user's id, name and email |
| GroupService.UnknownGroupHasNoMembers | backend/src/main/java/com/splitwise/clone/service/GroupService.java:101-109 | a group id that is not stored has no members, and the query does not fail |
| SettlementService.NameOf | backend/src/main/java/com/splitwise/clone/service/SettlementService.java:55-58 | the name shown is that of a stored user with the id |
| SettlementService.ToResponse | backend/src/main/java/com/splitwise/clone/service/SettlementService.java:52-64 | the response copies id, payer, payee, amount, status and settledAt |
| SettlementService.CreateSettlement | backend/src/main/java/com/splitwise/clone/service/SettlementService.java:26-43 | fails with "Group not found" or "User not found" exactly when a lookup fails, storing nothing; otherwise appends one settlement as requested, SETTLED and settled now |
| SettlementService.GroupSettlementList | backend/src/main/java/com/splitwise/clone/service/SettlementService.java:45-50 | an unknown group fails with "Group not found"; otherwise one response per settlement of the group, in table order |
| SettlementService.GroupSettlementsAppend | backend/src/main/java/com/splitwise/clone/service/SettlementService.java:41 | after one more insert, the group's settlements gain the new one at the end exactly when it belongs to the group |
| SettlementService.RecordedSettlementShiftsBalances | backend/src/main/java/com/splitwise/clone/service/BalanceService.java:46-52 | recording a settlement credits its payer and debits its payee by its amount and moves no other balance |
| SettlementService.OtherGroupSettlementIgnored | backend/src/main/java/com/splitwise/clone/service/BalanceService.java:26 | a settlement of another group changes no balance of this one |
| UserService.ToResponse | backend/src/main/java/com/splitwise/clone/service/UserService.java:52-58 | the response copies id, name and email, without the password |
| UserService.Register | backend/src/main/java/com/splitwise/clone/service/UserService.java:19-30 | a stored email fails with "Email already exists" and adds nothing; otherwise stores name, email and password unchanged and returns them without the password |
| UserService.Login | backend/src/main/java/com/splitwise/clone/service/UserService.java:32-39 | an unknown email fails with "User not found", a wrong password with "Invalid password"; success returns a stored user with that email and password |
| UserService.LoginSucceedsIff | backend/src/main/java/com/splitwise/clone/service/UserService.java:32-39 | with unique emails, login succeeds exactly when a stored user has that email and password |
| UserService.LoginAfterRegister | backend/src/main/java/com/splitwise/clone/service/UserService.java:19-39 | logging in right after registering, with the same email and password, returns the registered user |
| UserService.FindById | backend/src/main/java/com/splitwise/clone/service/UserService.java:41-44 | succeeds exactly for a stored id, returning that user, and otherwise fails with "User not found" |
| UserService.GetFriends | backend/src/main/java/com/splitwise/clone/service/UserService.java:46-50 | one response per friend returned by the query, in order |
| UserService.UnknownUserHasNoFriends | backend/src/main/java/com/splitwise/clone/service/UserService.java:46-50 | an id that is not stored has no friends, and the query does not fail |
| UserRepository.FindFriendsByUserId | backend/src/main/java/com/splitwise/clone/repository/UserRepository.java:17-21 | the query returns at most the stored users |
| UserRepository.FriendIdsExact | backend/src/main/java/com/splitwise/clone/repository/UserRepository.java:18-20 | the join selects v exactly when v is not u and some group holds both |
| UserRepository.FriendsExact | backend/src/main/java/com/splitwise/clone/repository/UserRepository.java:17-21 | the result holds exactly the stored users the join selects |
| UserRepository.FriendIff | backend/src/main/java/com/splitwise/clone/repository/UserRepository.java:18-20 | a stored user is a friend of u exactly when they are not u and share a group with u, so no one is their own friend |
| UserRepository.FriendsSymmetric | backend/src/main/java/com/splitwise/clone/repository/UserRepository.java:18-20 | friendship is symmetric |
| UserRepository.NoGroupNoFriends | backend/src/main/java/com/splitwise/clone/repository/UserRepository.java:18-20 | a user in no group has no friends |
| UserRepository.FriendsDistinct | backend/src/main/java/com/splitwise/clone/repository/UserRepository.java:17 | with unique user ids, the friends list has no duplicates |
| Wrappers.ErrorText | frontend/src/components/AddExpenseModal.tsx:79 | the server's error message when it sent a non-empty one, and the fallback text otherwise |
| AddExpenseModal.Entry | frontend/src/components/AddExpenseModal.tsx:47-58 | a member without an entry counts as 0 |
| AddExpenseModal.BuildSplits | frontend/src/components/AddExpenseModal.tsx:35-66 | one split per selected member, in selection order; EQUAL always passes; EXACT passes exactly when the entered amounts are within 0.01 of the total; PERCENTAGE passes exactly when the percentages are within 0.01 of 100 |
| AddExpenseModal.SplitsSum | frontend/src/components/AddExpenseModal.tsx:49 | the sum of the built splits is the sum of the owed amounts over the members |
| AddExpenseModal.SumPercentOwed | frontend/src/components/AddExpenseModal.tsx:58-60 | the owed amounts under PERCENTAGE add up to total × (sum of percentages) / 100 |
| AddExpenseModal.EqualSplitsAddUp | frontend/src/components/AddExpenseModal.tsx:38-43 | every member owes total / count, and the shares add up to the total exactly |
| AddExpenseModal.ExactSplitsAccepted | frontend/src/components/AddExpenseModal.tsx:44-54 | an accepted EXACT split owes each member their entry (0 when missing), and its sum is within 0.01 of the total |
| AddExpenseModal.PercentageSplitsScale | frontend/src/components/AddExpenseModal.tsx:55-60 | an accepted PERCENTAGE split owes each member total × pct / 100 (pct 0 when missing), and its sum is total × (sum of pct) / 100 |
| AddExpenseModal.PercentageSplitsNearTotal | frontend/src/components/AddExpenseModal.tsx:58-61 | the sum of an accepted PERCENTAGE split is within total × 0.0001 of the total |
| AddExpenseModal.AddExpenseForm.constructor | frontend/src/components/AddExpenseModal.tsx:20-28 | the form starts empty, paid by the current user, split EQUAL, with every member selected, not loading and without error |
| AddExpenseModal.AddExpenseForm.Payload | frontend/src/components/AddExpenseModal.tsx:69-76 | the posted body carries the group, description, total, payer, the current user as creator, and the splits |
| AddExpenseModal.AddExpenseForm.HandleSubmit | frontend/src/components/AddExpenseModal.tsx:30-83 | a rejected split sets its error and sends nothing; an accepted one posts the payload once; success clears the error, failure shows the server's message or "Failed to add expense"; loading ends false |
| AddExpenseModal.AddExpenseForm.ToggleMember | frontend/src/components/AddExpenseModal.tsx:160-163 | checking appends the member, unchecking removes every copy of it, and a duplicate-free selection stays duplicate-free |
| AddExpenseModal.PayloadIsValidRequest | frontend/src/components/AddExpenseModal.tsx:68-76 | with a description that is not blank and a positive total, an accepted split list posted by the form meets the backend's request constraints |
| SettleUpModal.SubmitCheck | frontend/src/components/SettleUpModal.tsx:23-30 | the guards pass exactly when a payee is chosen and differs from the payer; an empty payee is reported before self-settlement |
| SettleUpModal.SettleUpForm.constructor | frontend/src/components/SettleUpModal.tsx:15-19 | the payer defaults to the current user, the payee is empty, and there is no error |
| SettleUpModal.SettleUpForm.HandleSubmit | frontend/src/components/SettleUpModal.tsx:21-48 | a failed guard sets its message and sends nothing; otherwise posts group, payer, payee and amount once; success clears the error, failure shows the server's message or "Failed to record settlement"; loading ends false |
| CreateGroupPage.ToggleFriend | frontend/src/pages/CreateGroup.tsx:34-40 | toggling flips the membership of that id and no other |
| CreateGroupPage.ToggleCutsOut | frontend/src/pages/CreateGroup.tsx:36-37 | toggling a present id of a duplicate-free list removes it and keeps the other ids in order |
| CreateGroupPage.ToggleTwiceRestores | frontend/src/pages/CreateGroup.tsx:34-40 | toggling an absent id twice restores the list exactly |
| CreateGroupPage.ToggleKeepsDistinct | frontend/src/pages/CreateGroup.tsx:36-38 | toggling never introduces a duplicate into a duplicate-free list |
| CreateGroupPage.SelectionDistinct | frontend/src/pages/CreateGroup.tsx:34-40 | any sequence of toggles from the empty selection leaves no duplicate |
| CreateGroupPage.SubmitPayload | frontend/src/pages/CreateGroup.tsx:42-51 | nothing is posted without a signed-in user; otherwise the body carries the name, the selection as initial members and the user as creator |
| CreateGroupPage.PayloadHasNoDuplicate | frontend/src/pages/CreateGroup.tsx:47-51 | a group created from the page never breaks the (group, user) unique constraint |
| DashboardPage.IndexFrom | frontend/src/pages/Dashboard.tsx:103-104 | finds the leftmost occurrence of the separator at or after a position, or reports that there is none |
| DashboardPage.ExtractToken | frontend/src/pages/Dashboard.tsx:102-105 | input without "/join/" is used unchanged as the token |
| DashboardPage.LastStartAfterSeparator | frontend/src/pages/Dashboard.tsx:104 | when the separator occurs, the scan stops right after an occurrence of it |
| DashboardPage.LastPieceHasNoSeparator | frontend/src/pages/Dashboard.tsx:104 | the last piece of a split never contains the separator |
| DashboardPage.LastPieceEndsInput | frontend/src/pages/Dashboard.tsx:104 | when the separator occurs, the input ends with the separator followed by the last piece |
| DashboardPage.TokenAfterLastJoin | frontend/src/pages/Dashboard.tsx:103-104 | an empty last piece falls back to the whole input; otherwise the token is non-empty, free of "/join/", and the input ends with "/join/" + token |
| DashboardPage.JoinTarget | frontend/src/pages/Dashboard.tsx:100-107 | empty or cancelled input navigates nowhere; otherwise to "/join/" + token |
| DashboardPage.FirstJoinAfterOrigin | frontend/src/pages/GroupDetails.tsx:53 | in an invite link built from a plain origin, the first "/join/" starts right after the origin |
| DashboardPage.ExampleOrigin | frontend/src/pages/GroupDetails.tsx:53 | the development origin "http://localhost:5173" is a plain origin, so the round trip applies to links the page builds there |
| DashboardPage.InviteLinkRoundTrip | frontend/src/pages/Dashboard.tsx:103-106 | pasting an invite link built from a plain origin and a non-empty token without "/join/" yields that token and navigates to "/join/" + token |
| GroupDetailsPage.WithoutExpenseMembers | frontend/src/pages/GroupDetails.tsx:197 | the filter keeps exactly the expenses with a different id |
| GroupDetailsPage.WithoutExpenseConcat | frontend/src/pages/GroupDetails.tsx:197 | the filter distributes over concatenation |
| GroupDetailsPage.HandleDelete | frontend/src/pages/GroupDetails.tsx:193-201 | a cancelled or failed delete keeps the list; an alert shows exactly on a confirmed, failed delete |
| GroupDetailsPage.DeleteRemovesOnlyThatExpense | frontend/src/pages/GroupDetails.tsx:194-197 | after a confirmed, successful delete the list holds exactly the other expenses, and with unique ids it is the old list with that entry cut out |
| GroupDetailsPage.WithoutExpenseKeepsOthers | frontend/src/pages/GroupDetails.tsx:197 | filtering an id no expense has leaves the list unchanged |
| GroupDetailsPage.LabelOf | frontend/src/pages/GroupDetails.tsx:294-300 | exactly one label applies: positive is owed, negative owes, zero is settled up; the amount shown is the absolute value |
| GroupDetailsPage.MyDebtsMembers | frontend/src/pages/GroupDetails.tsx:335 | the filter keeps exactly the debts paid by the signed-in user, and none without one |
| GroupDetailsPage.MyDebtsConcat | frontend/src/pages/GroupDetails.tsx:335 | the filter distributes over concatenation, so order is kept |
| GroupDetailsPage.AllSettledUpIff | frontend/src/pages/GroupDetails.tsx:351-355 | "all settled up" shows exactly when no debt is paid by the user |
| GroupDetailsPage.NonDebtorPaysNothing | frontend/src/pages/GroupDetails.tsx:335 | a member whose balance is not negative pays no suggested debt |
| GroupDetailsPage.NonCreditorReceivesNothing | frontend/src/pages/GroupDetails.tsx:335 | a member whose balance is not positive receives no suggested debt |
| GroupDetailsPage.SettledUpIffNotOwing | frontend/src/pages/GroupDetails.tsx:335-355 | for balances summing to zero, a member sees "all settled up" exactly when their balance is not negative |

## Left out

- HTTP controllers, Spring wiring, JPA mapping, React hooks and rendering, routing, and the pages not listed above: transport, persistence and UI plumbing.
- The table invariant covers keys and foreign keys only; JPA cascades and `@CreationTimestamp` columns are not modelled.
- `UUID.randomUUID()`, `@GeneratedValue` ids and `LocalDateTime.now()` become parameters; `createdAt` fields are left out of the responses.
- `window.confirm`, `alert`, `prompt`, clipboard and `window.location` become parameters or results; the HTTP requests become an outcome parameter.
- `parseFloat`, `NaN` and `toFixed`: amounts are exact reals, so JavaScript rounding is not reproduced.
- The moment between `setLoading(true)` and the end of the request is not a separate state: `AddExpenseForm.HandleSubmit` and `SettleUpForm.HandleSubmit` run to completion.
- AddExpenseModal.AddExpenseForm.HandleSubmit: requires a non-empty selection, because the submit button is disabled otherwise (`AddExpenseModal.tsx:202`); the division by zero it prevents is not modelled.
- AddExpenseModal.PayloadIsValidRequest: requires a description that is not blank; the browser's `required` check lets a description of spaces through, which the backend's `@NotBlank` refuses.
- The `@Valid` annotations are requirements of the service methods (`ValidRequest`); the per-split `@PositiveOrZero` is not cascaded into the list and is not required.
- The null `initialMembers` case of `createGroup`: an absent list is the empty list.
- Database row order: SQL leaves it open, and the model uses table order throughout.
- The `NullPointerException` thrown when a ledger entry names a non-member (`BalanceService.java:36`, `41`, `50-51`) is modelled as an error result with the text "NullPointerException", in both balance queries.
- Passwords are stored and compared as given; there is nothing to prove about hashing.
- Concurrency between requests: every operation runs alone.
- The unique constraint on (group, user) in `GroupMember.java:11-13` fails at commit time with a database exception; `createGroup` models that violation as an error result with the invented text "Duplicate group member" (`GroupService.DuplicateMember`), followed by the rollback.
- `split('/join/')` scans left to right without overlap, so for input such as "/join/join/x" the token is the text after the last non-overlapping match, not after the rightmost occurrence.
