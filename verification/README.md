# QuickSplit ledger — a Dafny model

QuickSplit is a group expense splitter. Members of a group record the
expenses one of them paid for everyone. They also record *settlements*,
where one member pays another back. The server keeps, for every member, a
signed net balance:

- positive means the group owes the member;
- negative means the member owes the group.

From those balances it suggests the fewest payments that settle the group.
The browser client mirrors the data in a Redux store.

This project models the core of that system in Dafny and proves properties
of it:

- **The shared ledger** (`server/utils/settlement.js`):
  - the balance fold `calculateBalances`;
  - the greedy debt simplifier `simplifyDebts`;
  - the settlement check `validateSettlement`;
  - the filter `getUserSettlements`.
- **The two near-copies of the balance fold** inside the controllers:
  - `computeBalances`, which ignores ids that are not members;
  - the fold inside `getBalances`, which uses the opposite settlement sign.
- **The group document** (`server/models/groups.model.js`): its membership
  queries and updates, and the schema constraints checked on every save.
- **The controllers' rules**:
  - validation and defaults of `createExpense`;
  - the running `totalSpent` adjustments of `updateExpense` and
    `deleteExpense`;
  - the membership rules of `createGroup`, `addMember`, `removeMember` and
    `deleteGroup`.
- **The client helpers** (`client/src/utils/helpers.js`): the client's
  unsorted `simplifyDebts`, `truncateText`, `getUserInitials`,
  `getRandomColor` and `isValidEmail`.
- **The Redux reducers** of the chat, expense, group and UI slices, as pure
  `state × action → state` functions.

## How the model is built

- **Money** is an integer number of cents, and `Eps = 1` is the source's
  `0.01` tolerance. `Math.round(x * 100) / 100` is then the identity, and
  conservation of money is exact.
- **Balance maps** are association lists in insertion order (`Balances`).
  They are not Dafny maps, because the simplifier walks the map in
  insertion order and ties in its sort keep that order.
  - `Get` is `get(u) || 0`.
  - `Add` is the `set(u, (get(u) || 0) + d)` that every fold performs.
- **Splits.** `expense.calculateSplits()` lives in a file outside this
  model. It is an abstract function parameter, `Splitter = Expense -> seq<Split>`.
  "The shares of a regular expense add up to its amount" is a stated
  precondition (`SplitsBalanced`), never a proved fact.
- **Redux.** Room-keyed and group-keyed objects in the slices are Dafny
  `map`s. Every reducer is a function whose contract states:
  - what it changes;
  - that nothing else changes (`r.(field := st.field) == st`, or
    `AgreeExcept` for the other keys of a map).
- **I/O results become inputs.** Database look-ups, `Date.now()` and the
  split calculator are parameters:
  - the users `User.findOne` finds;
  - the expense history `Expense.find` returns;
  - the timestamp a notification receives.
- **Saving.** `Groups.Save` models Mongoose validation on save:
  1. the name is trimmed;
  2. the currency is upper-cased;
  3. every schema constraint is checked.

  `GroupController.Persist` turns a validation failure into the 500 the
  handlers answer with.

Modules follow the source:

| module | source file |
|---|---|
| `Settlement`, `DebtWalk`, `Parties` | `server/utils/settlement.js` |
| `ExpenseController` | `server/controller/expense.controller.js` |
| `GroupController` | `server/controller/group.controller.js` |
| `Groups` | `server/models/groups.model.js` |
| `Helpers`, `Strings` | `client/src/utils/helpers.js` |
| `ChatSlice`, `ExpenseSlice`, `GroupSlice`, `UiSlice` | the slices under `client/src/store/slices/` |
| `SettlementFinding` | the first finding below |

Shared modules:

- `Records`: expense records.
- `Balances`: the association-list map.
- `Collections`: `Filter` and `FindIndex`.
- `Wrappers`: `Option` and `Result`.
- `Api`: the status/message errors.

## Model

| member | source | states |
|---|---|---|
| Balances.Add | server/utils/settlement.js:31-32 | `set(u, (get(u) \|\| 0) + d)` changes only `u`'s balance, by exactly `d`; it creates `u`'s entry when missing, moves the map total by `d`, and keeps the one-entry-per-user shape |
| Balances.Set | server/utils/settlement.js:18 | `set(u, v)` gives `u` the value `v` and leaves every other user alone; an existing key is updated without growing the map, and a new key is appended at the end |
| Settlement.Seed | server/utils/settlement.js:15-19 | every listed member is present with balance 0 before any record is processed; the total is 0 |
| Settlement.DebitSplits | server/utils/settlement.js:41-46 | each user loses exactly their share; the total drops by the sum of the shares |
| Settlement.Record | server/utils/settlement.js:23-48 | a settlement moves its amount from receiver to payer and leaves `totalSpent` alone; a settlement without a receiver changes nothing; a regular record adds its amount to `totalSpent` and to the payer and subtracts every share; no member is dropped |
| Settlement.Fold | server/utils/settlement.js:23-48 | after any sequence of records each balance is the start value plus the sum of the records' effects on that member; `totalSpent` grows by the regular amounts only |
| Settlement.CalculateBalances | server/utils/settlement.js:12-51 | every member has an entry; each balance equals an independent per-member definition (`NetEffect`); `totalSpent` is the sum of the regular records' amounts |
| Settlement.Conservation | server/utils/settlement.js:31-32 | when every regular record's shares add up to its amount, the balances add up to exactly 0 |
| Settlement.OrderIrrelevant | server/utils/settlement.js:23-48 | any reordering of the history gives every member the same balance and the same `totalSpent` |
| Settlement.NetEffectPermutation | server/utils/settlement.js:23-48 | two histories with the same records (as multisets) have the same per-member effect and the same regular spend |
| DebtWalk.Creditors | server/utils/settlement.js:77-83 | every listed creditor is owed more than 0.01, and there are at most as many creditors as map entries (what each is owed is `DebtWalk.PartitionOwed`) |
| DebtWalk.PartitionOwed | server/utils/settlement.js:77-83 | exactly the balances above 0.01 are creditors with that amount, and exactly those below -0.01 are debtors with the absolute amount; balances in between are on neither side |
| Parties.SortDesc | server/utils/settlement.js:86-87 | the sorted list is in descending order of amount and has the input's length |
| Parties.SortDescPermutes | server/utils/settlement.js:86-87 | sorting is a permutation (same multiset of entries) |
| Parties.SortDescStable | server/utils/settlement.js:86-87 | entries with equal amounts keep their relative order (the sort is stable) |
| DebtWalk.Advance | server/utils/settlement.js:107-111 | a side never grows, and a side whose head has less than 0.01 left after the step moves past it |
| DebtWalk.AdvanceFacts | server/utils/settlement.js:107-111 | advancing settles exactly the settled amount of the head and nothing else; everything left is still above 0.01 |
| DebtWalk.Walk | server/utils/settlement.js:93-112 | every emitted payment runs from a debtor to a creditor and exceeds 0.01; the loop ends after at most creditors + debtors - 1 payments |
| DebtWalk.WalkNeverOverpays | server/utils/settlement.js:97-108 | no creditor is handed more than it is owed and no debtor pays more than it owes |
| DebtWalk.WalkIsStepsAboveEps | server/utils/settlement.js:97-105 | the server walk emits exactly the client walk's payments that exceed 0.01, in the same order |
| Settlement.SimplifyDebts | server/utils/settlement.js:60-115 | every suggestion runs from a member whose balance is below -0.01 to one above 0.01 and exceeds 0.01; no creditors or no debtors means no suggestions; when both sides are non-empty there are fewer suggestions than creditors and debtors together |
| Settlement.SimplifyDebtsNeverOverpays | server/utils/settlement.js:93-112 | no member is told to receive more than its credit or pay more than its debt |
| Settlement.SimplifyDebtsTieOrder | server/utils/settlement.js:77-87 | members with equal balances are walked in map order |
| Settlement.TotalBySides | server/utils/settlement.js:77-83 | the map total is what creditors are owed, minus what debtors owe, plus the balances within 0.01 of zero |
| Settlement.SettlementRecord | server/utils/settlement.js:26-33 | a suggested payment, once recorded, is a settlement paid by the debtor with the creditor as its receiver |
| Settlement.RecordPaymentsEffect | server/utils/settlement.js:31-32 | recording payments raises each payer by what it paid and lowers each receiver by what it received |
| Settlement.ValidateSettlement | server/utils/settlement.js:125-158 | the checks run in order and the first failure decides: same user, non-positive amount, payer without debt, receiver not owed; otherwise the payment is accepted, with a warning exactly when the amount exceeds min(\|from\|, to) + 0.01; a missing balance counts as 0 |
| Settlement.AcceptedPaymentStaysWithinTolerance | server/utils/settlement.js:148-157 | a payment accepted without a warning, once recorded, leaves neither party more than 0.01 past zero |
| Settlement.UserSettlements | server/utils/settlement.js:166-170 | the result holds exactly the payments `u` makes or receives and is the order-preserving filter of the suggestions |
| Settlement.UserSettlementsAppend | server/utils/settlement.js:166-170 | filtering a concatenation is concatenating the filtered parts, so the kept payments stay in their original order |
| Settlement.UserSettlementsIdempotent | server/utils/settlement.js:166-170 | filtering twice is filtering once |
| Settlement.UserSettlementsLabelled | server/utils/settlement.js:166-170 | with each side labelled through the member list, the filter throws exactly when some suggestion has an unlabelled `from`, or an unlabelled `to` while `from` is not the user; otherwise it returns the unlabelled filter's result |
| Settlement.MemberKeysLabelled | server/utils/settlement.js:66-81 | when every balance key is a member, every suggestion of `simplifyDebts` is labelled, so the filter never throws |
| Settlement.NonMemberKeyThrows | server/utils/settlement.js:166-170 | a suggestion paid by a key outside the member list makes the filter throw |
| Helpers.SimplifyDebts | client/src/utils/helpers.js:86-119 | the client walk over the ±0.01 sides, without sorting and without the emission threshold: every payment runs from a debtor to a creditor; there are none exactly when one side is empty; otherwise there are fewer payments than the two sides together |
| Helpers.SimplifyDebtsSettlesExactly | client/src/utils/helpers.js:100-116 | when the two sides balance, every creditor receives exactly its credit and every debtor pays exactly its debt |
| DebtWalk.StepsSettleExactly | client/src/utils/helpers.js:100-116 | on balanced sides the client walk pays each creditor exactly what it is owed and takes from each debtor exactly its debt |
| DebtWalk.Steps | client/src/utils/helpers.js:100-116 | every payment runs from a debtor to a creditor and is at least 0.01; the first pays the smaller of the two head amounts from the first debtor to the first creditor; the loop emits between 1 and creditors + debtors - 1 payments when both sides are non-empty and none otherwise |
| Helpers.ServerDropsOnlySmallPayments | client/src/utils/helpers.js:86-119 | on sides already in descending order, the server's suggestions are the client's with the payments of 0.01 or less left out |
| Helpers.TruncateText | client/src/utils/helpers.js:80-83 | a falsy text, or one of at most `max` characters, is returned unchanged; otherwise the result is the first `max` characters followed by "..." |
| Helpers.GetUserInitials | client/src/utils/helpers.js:49-54 | "?" for a missing or empty name; a whitespace-only name reads past an empty word (`None`); otherwise one or two characters |
| Helpers.InitialsOfName | client/src/utils/helpers.js:49-54 | a one-word name gives its upper-cased first letter; a name with a space gives the upper-cased first letters of the first and last words |
| Helpers.GetRandomColor | client/src/utils/helpers.js:57-71 | always a palette colour; the first one without a seed; otherwise the one the 32-bit string hash picks |
| Helpers.ToInt32 | client/src/utils/helpers.js:62 | the 32-bit wrap of `hash << 5` lands in [-2^31, 2^31) and agrees with the input modulo 2^32 |
| Helpers.IsValidEmail | client/src/utils/helpers.js:74-77 | true iff the text matches `^[^\s@]+@[^\s@]+\.[^\s@]+$` (stated declaratively as `EmailAt`) |
| Helpers.ValidEmailShape | client/src/utils/helpers.js:74-77 | a valid address has no whitespace and exactly one '@' |
| Strings.Trim | client/src/utils/helpers.js:51 | `trim()` removes whitespace at both ends only and leaves no whitespace at either end |
| Strings.TrimIdempotent | client/src/utils/helpers.js:51 | trimming twice is trimming once |
| Strings.Split | client/src/utils/helpers.js:51 | `split(' ')` yields at least one piece and no piece contains the separator; there is exactly one piece iff the separator is absent |
| Strings.SplitJoin | client/src/utils/helpers.js:51 | joining the pieces of `split(' ')` with the separator gives back the text, so the pieces are exactly the runs between separators |
| ExpenseController.MemberAdd | server/controller/expense.controller.js:34-39 | a balance is adjusted only when its id already has an entry; the key set never grows |
| ExpenseController.ComputeRecord | server/controller/expense.controller.js:25-58 | a settlement without a receiver throws (500); otherwise the key set is unchanged, the payer is credited, the receiver or each share is debited, and `totalSpent` grows by regular amounts only |
| ExpenseController.ComputeBalances | server/controller/expense.controller.js:14-62 | the key set is exactly the members; each member's balance is the history's net effect on it and other ids are ignored; `totalSpent` sums the regular records; it fails exactly when a settlement lacks a receiver |
| ExpenseController.ComputeAgreesWithCalculate | server/controller/expense.controller.js:14-62 | on members `computeBalances` and `calculateBalances` agree, with the same settlement sign and the same `totalSpent` |
| ExpenseController.RefreshGroup | server/controller/expense.controller.js:306-321 | after a new record every member's cached balance is recomputed from the full history (0 if absent), and `totalSpent` is the regular spend |
| ExpenseController.RefreshGroupSucceeds | server/controller/expense.controller.js:306-321 | on a stored group whose settlements all name a receiver, the refresh succeeds exactly when the recomputed `totalSpent` is not negative (the schema's `min: 0`) |
| ExpenseController.RefreshIdempotent | server/controller/expense.controller.js:306-321 | recomputing twice gives the same group as recomputing once |
| ExpenseController.SplitUsers | server/controller/expense.controller.js:270-275 | an absent or empty `splitBetween` defaults to every member |
| ExpenseController.CreateExpense | server/controller/expense.controller.js:246-302 | refuses a missing description or a missing or zero amount (400), a caller outside the group (403), a payer outside it (400) and a split user outside it (400); the record gets the defaults: trimmed description, group currency else INR, "equal", "Other", "", not a settlement, created by the caller |
| ExpenseController.CreateExpenseRefusals | server/controller/expense.controller.js:256-285 | once the required fields are present, the request is refused exactly when one of the ids it names is not a member, with the status of the first failing check, and succeeds otherwise |
| ExpenseController.DefaultSplitPasses | server/controller/expense.controller.js:273-285 | splitting among everyone never fails the split-user check |
| ExpenseController.NegativeAmountAccepted | server/controller/expense.controller.js:246-248 | `!amount` refuses only zero: a negative amount is recorded as given |
| ExpenseController.UpdateExpense | server/controller/expense.controller.js:401-433 | refused (403) exactly when the caller neither created nor paid the record; supplied fields replace old ones; the group total moves by new - old only when an amount is supplied, differs, and the record is not a settlement |
| ExpenseController.UpdateKeepsTotalInSync | server/controller/expense.controller.js:428-433 | a running total that matched the history still matches it with the record replaced |
| ExpenseController.DeleteExpense | server/controller/expense.controller.js:499-516 | refused (403) exactly when the caller neither created nor paid the record; a regular record lowers the total by its amount but never below 0; a settlement or a missing group leaves it alone |
| ExpenseController.DeleteKeepsTotalInSync | server/controller/expense.controller.js:509-516 | when the remaining spend is non-negative the clamp never bites and the total equals a recomputation without the record |
| Groups.IsMemberRaw | server/models/groups.model.js:154-171 | false when the member array is missing; invalid entries never match; otherwise true iff some entry carries the id |
| Groups.IsMember | server/models/groups.model.js:154-171 | true iff some entry of the member list carries the id |
| Groups.IsAdmin | server/models/groups.model.js:145-151 | true iff the first entry with the id has role "admin" |
| Groups.AdminIsMember | server/models/groups.model.js:145-171 | an admin is a member |
| Groups.Save | server/models/groups.model.js:5-67 | saving trims the name and upper-cases the currency, and fails exactly when the members are empty, a role is outside {admin, member}, `totalSpent` < 0, the currency is not one of the six allowed, the name is blank or too long, or the description is too long; a saved group satisfies every constraint |
| Groups.SaveStored | server/models/groups.model.js:29-67 | every saved group is in stored form, and saving a stored group changes nothing |
| Groups.SaveIdempotent | server/models/groups.model.js:29-67 | saving a saved group changes nothing |
| Groups.AddMember | server/models/groups.model.js:112-121 | refused when the id is already present; otherwise exactly one entry is appended, with the given role (default "member") |
| Groups.AddMemberSaves | server/models/groups.model.js:112-121 | adding a newcomer with an allowed role to a stored group always saves |
| Groups.Without | server/models/groups.model.js:124-129 | drops exactly the entries with the id; the rest keep their order |
| Groups.WithoutAppend | server/models/groups.model.js:124-129 | removing from a concatenation removes from each part, so the survivors keep their order |
| Groups.RemoveMember | server/models/groups.model.js:124-129 | every entry with the id is dropped and the user is no longer a member |
| Groups.RemoveMemberIdempotent | server/models/groups.model.js:124-129 | removing twice equals removing once |
| Groups.UpdateMemberRole | server/models/groups.model.js:132-142 | refused exactly when the id has no entry; otherwise only the role of the first entry for the id changes |
| Groups.UpdateMemberRoleSaves | server/models/groups.model.js:132-142 | giving a member of a stored group an allowed role always saves |
| Groups.CacheBalances | server/controller/group.controller.js:630-632 | every entry keeps its user and role, and its balance becomes the map's value (0 if absent); no member is added or removed |
| Groups.CacheSaves | server/controller/group.controller.js:630-632 | refreshing the cached balances of a stored group always passes the schema and saves the group as refreshed |
| Groups.CacheKeepsRoster | server/controller/group.controller.js:630-632 | refreshing the cached balances keeps who is a member, who is an admin and how many admins there are |
| GroupController.ExtraMembers | server/controller/group.controller.js:163-184 | each found user other than the creator joins as a plain member with balance 0, in request order |
| GroupController.RosterFacts | server/controller/group.controller.js:163-184 | the extra members are plain members at 0 other than the creator; the roster's ids are exactly the creator and the users found; every role is allowed |
| GroupController.CreateGroup | server/controller/group.controller.js:145-194 | refused (400) exactly when the name is blank or whitespace-only; the creator comes first as admin with balance 0, followed by the extra members; the name is stored trimmed and the currency defaults to INR |
| GroupController.DraftSaves | server/controller/group.controller.js:145-194 | a request with a non-blank name within the length limits, a short enough description and an allowed currency gives a draft that passes the schema |
| GroupController.CreateGroupRoster | server/controller/group.controller.js:154-184 | the members are exactly the creator and the users found, and every later entry is a plain member other than the creator |
| GroupController.CreateGroupSucceeds | server/controller/group.controller.js:145-194 | a request with a non-blank name of allowed length and an allowed currency always creates the group |
| GroupController.CreatorIsSoleAdmin | server/controller/group.controller.js:154-184 | a new group has its creator as its one and only admin |
| GroupController.AddMember | server/controller/group.controller.js:384-413 | only a member may add (403); the looked-up user must exist (404) and must not already be a member (400); then exactly one plain entry with balance 0 is appended |
| GroupController.AddMemberSucceeds | server/controller/group.controller.js:384-413 | a member adding a registered newcomer to a stored group succeeds |
| GroupController.AddMemberAgreesWithDocument | server/controller/group.controller.js:406-411 | the handler's append equals the document method `addMember` with the default role |
| GroupController.RemoveMember | server/controller/group.controller.js:480-513 | the handler with the id comparison it evidently intends (see Findings): only an admin or the member themself may remove (403); removing the last admin is refused (400); otherwise every entry for the target is dropped |
| GroupController.RemoveMemberSucceeds | server/controller/group.controller.js:480-513 | an authorised removal that is not of the last admin and leaves someone in the group succeeds |
| GroupController.RemoveMemberAsWritten | server/controller/group.controller.js:472-513 | as written, with populated entries: the same 403, but the last-admin refusal never fires and an authorised request saves the members unchanged |
| GroupController.RemovalIsNoOp | server/controller/group.controller.js:509-511 | on a group with admin A and member X, the handler as written returns the group with X still in it when A removes X; the corrected handler drops X |
| GroupController.LastAdminGuardDead | server/controller/group.controller.js:492-505 | on the same group, the handler as written lets A, the only admin, remove themself without the 400 and saves the group unchanged; the corrected handler refuses with the last-admin error |
| GroupController.RemovalKeepsAnAdmin | server/controller/group.controller.js:491-511 | with distinct ids, a successful removal never leaves a group that had an admin without one |
| GroupController.RemoveMemberAgreesWithDocument | server/controller/group.controller.js:508-511 | the handler's filter equals the document method `removeMember` |
| GroupController.DeleteGroupRefusal | server/controller/group.controller.js:331-340 | deletion is refused (403) exactly when the caller is neither the creator nor an admin |
| GroupController.GroupRecord | server/controller/group.controller.js:591-627 | one record under `getBalances`'s convention: each balance changes by the record's effect on it, and no entry is dropped |
| GroupController.GetBalances | server/controller/group.controller.js:562-634 | only a member may ask (403); each member keeps its place and role, its cached balance becomes the history's net effect on it under this fold's convention, and `totalSpent` is unchanged |
| GroupController.GetBalancesSucceeds | server/controller/group.controller.js:562-634 | a member asking about a stored group always gets the balances |
| GroupController.SettlementsMirrored | server/controller/group.controller.js:592-606 | on settlements `getBalances`'s fold is the exact negation of `calculateBalances`'s |
| GroupController.RegularAgree | server/controller/group.controller.js:607-626 | on regular expenses the two folds agree |
| GroupController.SettlementDeepensDebt | server/controller/group.controller.js:592-606 | as written, a debtor who pays back moves further into debt (see Findings) |
| GroupController.GetBalancesCorrected | server/controller/group.controller.js:562-634 | `getBalances` with the shared ledger's settlement sign: each cached balance becomes the value `calculateBalances` derives |
| GroupController.GetBalancesCorrectedSucceeds | server/controller/group.controller.js:562-634 | a member asking about a stored group always gets the corrected balances |
| GroupController.PaidBackNetsToZero | server/utils/settlement.js:23-48 | under the shared ledger's convention, a 90.00 expense split equally and paid back by a 45.00 settlement nets to 0 for every user |
| GroupController.CorrectedPaidBackSettles | server/controller/group.controller.js:592-606 | under the corrected sign, the same paid-back history leaves every member's cached balance at 0 |
| SettlementFinding.OneCentStepDropped | server/utils/settlement.js:97-111 | as written, a one-cent settled step is subtracted but not emitted, and a member is left owing two cents (see Findings) |
| SettlementFinding.SimplifyDebtsCorrected | server/utils/settlement.js:60-115 | the sorted walk emitting every step: payments run from a debtor to a creditor, and when both sides are non-empty there are fewer payments than the two sides together |
| SettlementFinding.CorrectedSettlesLedger | server/utils/settlement.js:60-115 | when the sides balance, recording every corrected suggestion brings every balance beyond 0.01 to exactly 0 and leaves the rest alone |
| SettlementFinding.SuggestionsSettleHistory | server/utils/settlement.js:12-115 | for a history whose splits add up and which leaves no balance within 0.01 of zero, recording every corrected suggestion settles every member |
| ChatSlice.SetActiveRoom | client/src/store/slices/chatSlice.js:72-74 | only the active room changes |
| ChatSlice.AddMessage | client/src/store/slices/chatSlice.js:75-93 | the room list is created if absent; the message is appended only when no message with its id is there; other rooms and fields are unchanged; unique ids stay unique |
| ChatSlice.AddMessageIdempotent | client/src/store/slices/chatSlice.js:75-93 | delivering the same message twice equals delivering it once |
| ChatSlice.SetMessages | client/src/store/slices/chatSlice.js:94-97 | only that room's list is replaced |
| ChatSlice.ClearMessages | client/src/store/slices/chatSlice.js:98-105 | a room id deletes only that room; a missing one clears every room |
| ChatSlice.ClearUndoesSetMessages | client/src/store/slices/chatSlice.js:94-105 | clearing a room that was just filled restores the earlier state |
| ChatSlice.SetTypingUser | client/src/store/slices/chatSlice.js:106-121 | the room list is created if absent; typing adds the user unless already listed, and not typing removes all the user's entries; other users, other rooms and other fields are unchanged; no duplicates arise |
| ChatSlice.SetTypingUserIdempotent | client/src/store/slices/chatSlice.js:106-121 | repeating a typing notice changes nothing further |
| ChatSlice.ClearTypingUsers | client/src/store/slices/chatSlice.js:122-127 | a room id empties only that room's list; no room id, no change |
| ChatSlice.SetOnlineUsers | client/src/store/slices/chatSlice.js:128-130 | the online list is replaced and nothing else changes |
| ChatSlice.AddOnlineUser | client/src/store/slices/chatSlice.js:131-136 | appends only an absent user, so a duplicate-free list stays duplicate-free |
| ChatSlice.RemoveOnlineUser | client/src/store/slices/chatSlice.js:137-140 | removes every occurrence and keeps the rest in order |
| ChatSlice.RemoveUndoesAdd | client/src/store/slices/chatSlice.js:131-140 | a user who comes online and leaves again restores the list |
| ChatSlice.SetUnreadCount | client/src/store/slices/chatSlice.js:141-144 | sets one room's count (also `getUnreadCount.fulfilled`, lines 186-189); other rooms are untouched |
| ChatSlice.ClearUnreadCount | client/src/store/slices/chatSlice.js:145-148 | sets one room's count to 0 (also `markAsRead.fulfilled`, lines 181-184); other rooms are untouched |
| ChatSlice.ClearError | client/src/store/slices/chatSlice.js:149-151 | only the error is cleared |
| ChatSlice.FetchMessagesPending | client/src/store/slices/chatSlice.js:156-159 | loading starts and the error is cleared |
| ChatSlice.FetchMessagesFulfilled | client/src/store/slices/chatSlice.js:160-164 | replaces that room's messages and ends loading; other rooms are unchanged |
| ChatSlice.FetchMessagesRejected | client/src/store/slices/chatSlice.js:165-168 | loading ends and the error is stored |
| ChatSlice.SendPending | client/src/store/slices/chatSlice.js:170-172 | a send is in flight |
| ChatSlice.SendFulfilled | client/src/store/slices/chatSlice.js:173-175 | the send ends and nothing else changes |
| ChatSlice.SendRejected | client/src/store/slices/chatSlice.js:176-179 | the send ends and the error is stored |
| ExpenseSlice.Pending | client/src/store/slices/expenseSlice.js:80-96 | the `pending` cases of fetch and create: loading starts and the error is cleared |
| ExpenseSlice.Rejected | client/src/store/slices/expenseSlice.js:88-108 | the `rejected` cases of fetch and create: loading ends and the error is stored |
| ExpenseSlice.FetchFulfilled | client/src/store/slices/expenseSlice.js:84-87 | replaces exactly that group's list and ends loading |
| ExpenseSlice.CreateFulfilled | client/src/store/slices/expenseSlice.js:97-104 | the group list is created if absent and the new expense is prepended; other groups are unchanged |
| ExpenseSlice.SettleFulfilled | client/src/store/slices/expenseSlice.js:130-136 | prepends to the group list, creating it if absent; the loading flag is untouched |
| ExpenseSlice.UpdateFulfilled | client/src/store/slices/expenseSlice.js:110-120 | replaces the first expense with a matching id by the server's copy (every earlier entry has another id, every later one is unchanged); a missing group or id changes nothing |
| ExpenseSlice.UpdateIdempotent | client/src/store/slices/expenseSlice.js:110-120 | applying the same server copy twice equals applying it once |
| ExpenseSlice.DeleteFulfilled | client/src/store/slices/expenseSlice.js:122-128 | removes every expense with the id from every group list, keeps the other expenses in their order, and adds or drops no group |
| ExpenseSlice.DeleteIdempotent | client/src/store/slices/expenseSlice.js:122-128 | deleting twice equals deleting once |
| ExpenseSlice.DeleteUndoesCreate | client/src/store/slices/expenseSlice.js:97-128 | deleting an expense that was just created with a fresh id restores every group list |
| GroupSlice.ClearCurrentGroup | client/src/store/slices/groupSlice.js:111-113 | the current group becomes null; the groups list and everything else are unchanged |
| GroupSlice.Pending | client/src/store/slices/groupSlice.js:121-150 | the `pending` cases of fetch, fetch-details and create: loading starts and the error is cleared |
| GroupSlice.Rejected | client/src/store/slices/groupSlice.js:129-159 | the `rejected` cases of fetch, fetch-details and create: loading ends and the error is stored |
| GroupSlice.FetchGroupsFulfilled | client/src/store/slices/groupSlice.js:125-128 | the list is replaced and loading ends |
| GroupSlice.FetchDetailsFulfilled | client/src/store/slices/groupSlice.js:138-141 | the viewed group is replaced and loading ends |
| GroupSlice.CreateFulfilled | client/src/store/slices/groupSlice.js:151-154 | the new group is appended |
| GroupSlice.UpdateFulfilled | client/src/store/slices/groupSlice.js:160-168 | replaces the first group with a matching id by the server's copy (every earlier entry has another id, every later one is unchanged), and the current group when its id matches; a missing id leaves the list alone |
| GroupSlice.UpdateIdempotent | client/src/store/slices/groupSlice.js:160-168 | applying the same server copy twice equals applying it once |
| GroupSlice.DeleteFulfilled | client/src/store/slices/groupSlice.js:170-175 | removes every group with the id and clears the current group when it matches |
| GroupSlice.DeleteUndoesCreate | client/src/store/slices/groupSlice.js:151-175 | deleting a group that was just created with a fresh id restores the list |
| GroupSlice.MemberChangeFulfilled | client/src/store/slices/groupSlice.js:177-187 | the current group is replaced only when one is set |
| GroupSlice.BalancesFulfilled | client/src/store/slices/groupSlice.js:189-191 | writes balances for the given group only |
| UiSlice.Initial | client/src/store/slices/uiSlice.js:3-16 | the sidebar is open, the theme is light, there are no notifications and every known modal is closed |
| UiSlice.ToggleSidebar | client/src/store/slices/uiSlice.js:18-20 | flips only the sidebar flag |
| UiSlice.ToggleSidebarTwice | client/src/store/slices/uiSlice.js:18-20 | toggling twice is the identity |
| UiSlice.SetSidebarOpen | client/src/store/slices/uiSlice.js:21-23 | sets only the sidebar flag |
| UiSlice.ToggleTheme | client/src/store/slices/uiSlice.js:24-26 | light becomes dark and anything else becomes light; only the theme changes |
| UiSlice.ToggleThemeTwice | client/src/store/slices/uiSlice.js:24-26 | on light or dark, toggling twice is the identity |
| UiSlice.AddNotification | client/src/store/slices/uiSlice.js:27-32 | appends exactly one entry, whose id is the payload's own when given and the timestamp otherwise |
| UiSlice.RemoveNotification | client/src/store/slices/uiSlice.js:33-37 | removes every entry with the id and keeps the rest in order |
| UiSlice.RemoveUndoesAdd | client/src/store/slices/uiSlice.js:27-37 | a notification with a fresh id that is added and then dismissed restores the list |
| UiSlice.OpenModal | client/src/store/slices/uiSlice.js:38-40 | sets only modal k to open |
| UiSlice.CloseModal | client/src/store/slices/uiSlice.js:41-43 | sets only modal k to closed |
| UiSlice.CloseUndoesOpen | client/src/store/slices/uiSlice.js:38-43 | closing a modal that was closed before opening restores the state |
| UiSlice.CloseAllModals | client/src/store/slices/uiSlice.js:44-48 | every modal is closed and the key set is unchanged |
| UiSlice.CloseAllIdempotent | client/src/store/slices/uiSlice.js:44-48 | closing everything twice equals closing everything once |

## Left out

- Floating-point money: `Math.round(x * 100) / 100`, `toFixed` and the warning's formatted amounts. Amounts are integer cents, so rounding is the identity and the warning carries the two amounts instead of text.
- `expense.calculateSplits()` and the rest of the expense model are not part of this model. Splits are an abstract function parameter, and "shares add up to the amount" is a precondition wherever it is needed.
- Mongoose I/O (`find`, `populate`, `save`, `deleteMany`) and the user look-ups: their results are parameters. The `populate` and `toString()` id normalisation is not modelled; ids are plain strings.
- The pre-save invite-code hook: it uses `crypto.randomBytes`, and nothing in the model reads the code.
- `date`, `splitDetails`, `joinedAt` and timestamps carry no rules, so they are not modelled. `Date.now()` in `addNotification` is a parameter.
- `Strings.Upper`: only ASCII letters are upper-cased. JavaScript's `toUpperCase` also maps other letters, some to a different length (`ı` to `I`, `é` to `É`, `ß` to `SS`).
- `Groups.Save`: the currency is upper-cased on ASCII letters only, so a currency such as `"ınr"`, which the source upper-cases to `"INR"` and accepts, is refused by the model.
- `Helpers.GetUserInitials`: initials are upper-cased on ASCII letters only, so `"émile"` gives `"é"` where the source gives `"É"`; and the promise of one or two characters holds for the model only, since the source turns `"ßa"` into `"SS"` and `"ß b"` into `"SSB"`.
- `Helpers.InitialsOfName`: the same ASCII-only upper-casing of the initials as `Helpers.GetUserInitials`.
- `Helpers.GetRandomColor`: the hash runs over Unicode scalar values, while `charCodeAt` and `length` count UTF-16 code units; a seed with a character outside the Basic Multilingual Plane may get another colour.
- Strings are sequences of Unicode scalar values, not UTF-16 code units. `truncateText` and `getUserInitials` can differ on text outside the Basic Multilingual Plane.
- `Helpers.GetRandomColor`: JavaScript's 32-bit wrap is applied to the shift only, as in the source. The addition and subtraction stay in doubles, where they are exact for any string shorter than about two million characters; the model keeps them unbounded.
- `Settlement.SimplifyDebts`: suggestions carry user ids, not the `{ _id, name, email }` records built from the `members` argument. A balance key that is not a member gets an undefined record; `Settlement.UserSettlementsLabelled` models the one consumer that reads it.
- `Settlement.UserSettlements`: filters plain ids and never fails; the throwing behaviour on an unlabelled side is `Settlement.UserSettlementsLabelled`.
- `GroupController.RemoveMember`: models the id comparison the handler evidently intends. As written it compares populated user documents with the id and removes nobody; that behaviour is `GroupController.RemoveMemberAsWritten` (see Findings). A populated entry whose user no longer exists (`null`) would make the handler throw; this is not modelled.
- `ExpenseController.UpdateExpense`: an update does not recompute the cached member balances. The source does not either; only `totalSpent` is adjusted.
- `ExpenseController.UpdateExpense`: the group save after the total is adjusted is not modelled. A total that would go negative fails the schema's `min: 0` there (a 500), after the expense itself has already been saved.
- The chat server, sockets, `chat.controller.js` and the message model: network and concurrency plumbing.
- HTTP wiring, routes, response shaping and logging in the controllers: nothing in them changes state.
- The thunks' request side (`createAsyncThunk` payload creators): these are HTTP calls. Only their `pending`/`fulfilled`/`rejected` reducers are modelled. `markAsRead.fulfilled` is `ClearUnreadCount` and `getUnreadCount.fulfilled` is `SetUnreadCount`.
- React pages and components, clock-dependent formatting, `Intl.NumberFormat`, `calculateSplit` and the login/register message heuristics: rendering only, or floating point.

## Findings

| source | as written | input that shows it | evidently intended | confidence | as-written member | corrected member |
|---|---|---|---|---|---|---|
| server/utils/settlement.js:97-111 | a step that settles about one cent is never suggested, although it is subtracted or skipped. In exact cents, as the model computes, a step of exactly 0.01 is subtracted from both sides but not pushed, since only amounts above 0.01 are. In the source's doubles the same loss shows up one step earlier: a remainder such as 0.03 - 0.02 = 0.009999999999999998 falls below 0.01 and its holder is passed over | balances A +0.03, E +0.03, B -0.02, C -0.02, D -0.02 (sum 0). In cents the suggestions are B→A 0.02 and D→E 0.02, and C keeps owing 0.02. In doubles they are B→A 0.02 and C→E 0.02, and D keeps owing 0.02. Either way a debtor of 0.02 is never told to pay | every settled step is suggested, so that recording all suggestions settles the group | not executed | SettlementFinding.OneCentStepDropped | SettlementFinding.SimplifyDebtsCorrected |
| server/controller/group.controller.js:592-606 | a settlement subtracts its amount from the payer and adds it to the receiver, the opposite of server/utils/settlement.js:31-32 and server/controller/expense.controller.js:34-39 | A pays 90.00 split equally with B; B then settles 45.00 to A: `getBalances` caches B at -90.00 and A at +90.00, while the shared ledger shows both at 0 | a settlement credits the payer and debits the receiver, as in the shared ledger | not executed | GroupController.SettlementDeepensDebt | GroupController.GetBalancesCorrected |
| server/controller/group.controller.js:472-511 | the entries are populated (line 473), then compared as `m.userId.toString() === memberId.toString()` (lines 493 and 510); a populated user document's text is not its id, so the `find` matches nothing and the filter keeps every entry | a group with admin A and member X: A removes X and gets the group back with X still in it; A, the only admin, removes themself and is not refused | the entry's id is compared, as `isAdmin` and `isMember` do, so the target is dropped and the last admin is kept | not executed | GroupController.RemoveMemberAsWritten | GroupController.RemoveMember |
