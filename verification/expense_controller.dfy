/**
 * server/controller/expense.controller.js: the members-only balance fold
 * `computeBalances`, the validation and defaults of `createExpense`, the
 * recomputation of the cached balances after a new record, and the running
 * `totalSpent` adjustments of `updateExpense` and `deleteExpense`.
 */
module ExpenseController {
  import opened Wrappers
  import opened Balances
  import opened Records
  import opened Strings
  import opened Groups
  import opened Api
  import opened Settlement
  import GroupController

  // ---------------------------------------------------------------------
  // computeBalances (expense.controller.js:14-62)
  // ---------------------------------------------------------------------

  /** Adjust `u` only when it already has an entry (`balanceMap.has`). */
  function MemberAdd(m: BalanceMap, u: UserId, d: int): (r: BalanceMap)
    ensures forall w :: Has(r, w) <==> Has(m, w)
    ensures forall w :: Get(r, w) == Get(m, w) + (if w == u && Has(m, u) then d else 0)
    ensures Distinct(m) ==> Distinct(r)
  {
    if Has(m, u) then Add(m, u, d) else m
  }

  /** Debit every share whose user has an entry; other shares are ignored. */
  function MemberDebit(m: BalanceMap, ss: seq<Split>): (r: BalanceMap)
    ensures forall w :: Has(r, w) <==> Has(m, w)
    ensures forall w :: Get(r, w) == Get(m, w) - (if Has(m, w) then ShareOf(ss, w) else 0)
    ensures Distinct(m) ==> Distinct(r)
    decreases ss
  {
    if |ss| == 0 then m else MemberDebit(MemberAdd(m, ss[0].user, -ss[0].amount), ss[1..])
  }

  /** The refusals of the expense handlers, as status and message. */
  const FieldsRequired: ApiError := ApiError(400, "Description and amount are required")
  const PayerNotMember: ApiError := ApiError(400, "Payer must be a member of the group")
  const SplitNotMembers: ApiError := ApiError(400, "All users in split must be group members")
  const UpdateForbidden: ApiError := ApiError(403, "Only the expense creator or payer can update it")
  const DeleteForbidden: ApiError := ApiError(403, "Only the expense creator or payer can delete it")

  /** Every settlement in the history names a receiver. */
  predicate Receivers(es: seq<Expense>)
  {
    forall i :: 0 <= i < |es| ==> es[i].isSettlement ==> |es[i].splitBetween| > 0
  }

  /**
   * Reading `splitBetween[0]._id` of a settlement without receivers throws
   * a TypeError, which the handlers answer with 500.
   */
  const NoReceiver: ApiError := ApiError(InternalError, "Cannot read properties of undefined (reading '_id')")

  function ComputeRecord(t: Tally, e: Expense, splitter: Splitter): (r: Result<Tally, ApiError>)
    ensures r.Err? <==> e.isSettlement && |e.splitBetween| == 0
    ensures r.Err? ==> r.error == NoReceiver
    ensures r.Ok? ==> forall w :: Has(r.value.balances, w) <==> Has(t.balances, w)
    ensures r.Ok? ==> forall w ::
      Get(r.value.balances, w) == Get(t.balances, w) + (if Has(t.balances, w) then Effect(e, splitter, w) else 0)
    ensures r.Ok? ==> r.value.totalSpent == t.totalSpent + (if e.isSettlement then 0 else e.amount)
    ensures r.Ok? && Distinct(t.balances) ==> Distinct(r.value.balances)
  {
    if e.isSettlement then
      if |e.splitBetween| == 0 then Err(NoReceiver)
      else Ok(Tally(MemberAdd(MemberAdd(t.balances, e.payer, e.amount), e.splitBetween[0], -e.amount), t.totalSpent))
    else
      Ok(Tally(MemberDebit(MemberAdd(t.balances, e.payer, e.amount), splitter(e)), t.totalSpent + e.amount))
  }

  function ComputeFold(t: Tally, es: seq<Expense>, splitter: Splitter): (r: Result<Tally, ApiError>)
    ensures r.Ok? <==> Receivers(es)
    ensures r.Err? ==> r.error == NoReceiver
    ensures r.Ok? ==> forall w :: Has(r.value.balances, w) <==> Has(t.balances, w)
    ensures r.Ok? ==> forall w ::
      Get(r.value.balances, w) == Get(t.balances, w) + (if Has(t.balances, w) then NetEffect(es, splitter, w) else 0)
    ensures r.Ok? ==> r.value.totalSpent == t.totalSpent + RegularSpend(es)
    ensures r.Ok? && Distinct(t.balances) ==> Distinct(r.value.balances)
    decreases es
  {
    if |es| == 0 then Ok(t)
    else
      assert Receivers(es) <==> (es[0].isSettlement ==> |es[0].splitBetween| > 0) && Receivers(es[1..]) by {
        if Receivers(es[1..]) && (es[0].isSettlement ==> |es[0].splitBetween| > 0) {
          forall i | 0 < i < |es| ensures es[i].isSettlement ==> |es[i].splitBetween| > 0 {
            assert es[i] == es[1..][i - 1];
          }
        }
      }
      match ComputeRecord(t, es[0], splitter)
      case Err(e) => Err(e)
      case Ok(t1) => ComputeFold(t1, es[1..], splitter)
  }

  /**
   * `computeBalances(expenses, members)`: the key set is exactly the
   * members, each seeded at 0; ids outside it are ignored, so a member's
   * balance is the net effect of the history on it.  A settlement gives the
   * payer `+amount` and the receiver `-amount`.  `totalSpent` sums the
   * regular records only.
   */
  function ComputeBalances(es: seq<Expense>, members: seq<UserId>, splitter: Splitter): (r: Result<Tally, ApiError>)
    ensures r.Ok? <==> Receivers(es)
    ensures r.Err? ==> r.error == NoReceiver
    ensures r.Ok? ==> forall w :: Has(r.value.balances, w) <==> w in members
    ensures r.Ok? ==> forall w :: Get(r.value.balances, w) == (if w in members then NetEffect(es, splitter, w) else 0)
    ensures r.Ok? ==> r.value.totalSpent == RegularSpend(es)
    ensures r.Ok? ==> Distinct(r.value.balances)
  {
    ComputeFold(Tally(Seed(members), 0), es, splitter)
  }

  /**
   * On members the two folds agree with each other and with the sum of the
   * records' effects; they differ only on ids outside the member list, which
   * `calculateBalances` adds and `computeBalances` ignores.
   */
  lemma ComputeAgreesWithCalculate(es: seq<Expense>, members: seq<UserId>, splitter: Splitter, w: UserId)
    requires Receivers(es)
    ensures var c := ComputeBalances(es, members, splitter).value;
      var l := CalculateBalances(es, members, splitter);
      c.totalSpent == l.totalSpent
      && (w in members ==> Get(c.balances, w) == Get(l.balances, w))
      && (w !in members ==> Get(c.balances, w) == 0 && !Has(c.balances, w))
  {
  }

  /**
   * The cached balances and `totalSpent` recomputed from the whole history
   * after a new record (expense.controller.js:305-321), then saved.
   */
  function RefreshGroup(g: Group, es: seq<Expense>, splitter: Splitter): (r: Result<Group, ApiError>)
    ensures !Receivers(es) ==> r == Err(NoReceiver)
    ensures r.Ok? ==> |r.value.members| == |g.members|
    ensures r.Ok? ==> forall i :: 0 <= i < |g.members| ==>
      r.value.members[i] == g.members[i].(balance := NetEffect(es, splitter, g.members[i].user))
    ensures r.Ok? ==> r.value.totalSpent == RegularSpend(es)
    ensures r.Err? ==> r.error == NoReceiver || r.error.status == InternalError
  {
    match ComputeBalances(es, MemberIds(g.members), splitter)
    case Err(e) => Err(e)
    case Ok(t) =>
      GroupController.Persist(g.(members := CacheBalances(g.members, t.balances), totalSpent := t.totalSpent))
  }

  /**
   * On a stored group whose settlements all name a receiver, the refresh
   * succeeds exactly when the recomputed `totalSpent` satisfies the schema's
   * `min: 0`; otherwise the save fails.
   */
  lemma RefreshGroupSucceeds(g: Group, es: seq<Expense>, splitter: Splitter)
    requires Stored(g) && Receivers(es)
    ensures RefreshGroup(g, es, splitter).Ok? <==> RegularSpend(es) >= 0
  {
    var t := ComputeBalances(es, MemberIds(g.members), splitter).value;
    var h := g.(totalSpent := t.totalSpent);
    if t.totalSpent >= 0 {
      assert Stored(h);
      CacheSaves(h, t.balances);
      assert h.(members := CacheBalances(h.members, t.balances))
          == g.(members := CacheBalances(g.members, t.balances), totalSpent := t.totalSpent);
    }
  }

  /** Recomputing twice gives what recomputing once gives. */
  lemma RefreshIdempotent(g: Group, es: seq<Expense>, splitter: Splitter)
    requires RefreshGroup(g, es, splitter).Ok?
    ensures RefreshGroup(RefreshGroup(g, es, splitter).value, es, splitter) == RefreshGroup(g, es, splitter)
  {
    var h := RefreshGroup(g, es, splitter).value;
    var t := ComputeBalances(es, MemberIds(g.members), splitter).value;
    assert MemberIds(h.members) == MemberIds(g.members);
    assert CacheBalances(h.members, t.balances) == h.members;
    SaveStored(g.(members := CacheBalances(g.members, t.balances), totalSpent := t.totalSpent));
    SaveStored(h);
  }

  // ---------------------------------------------------------------------
  // createExpense (expense.controller.js:246-302)
  // ---------------------------------------------------------------------

  /** The request body; `None` is an absent field. */
  datatype ExpenseRequest = ExpenseRequest(
    description: Option<string>,
    amount: Option<int>,
    currency: Option<string>,
    paidBy: Option<UserId>,
    splitBetween: Option<seq<UserId>>,
    splitType: Option<string>,
    category: Option<string>,
    notes: Option<string>,
    isSettlement: Option<bool>)

  /** `x || fallback` on a string field: absent and "" are falsy. */
  function OrElse(x: Option<string>, fallback: string): (r: string)
    ensures x.Some? && x.value != "" ==> r == x.value
    ensures x.None? || x.value == "" ==> r == fallback
  {
    if x.Some? && x.value != "" then x.value else fallback
  }

  /** Every id of `ids` is a member of `g`. */
  predicate AllMembers(g: Group, ids: seq<UserId>)
  {
    forall i :: 0 <= i < |ids| ==> IsMember(g, ids[i])
  }

  /** The payer: the given one, else the caller. */
  function Payer(req: ExpenseRequest, caller: UserId): UserId
  {
    OrElse(req.paidBy, caller)
  }

  /** The split users: the given ones, else (absent or empty) every member. */
  function SplitUsers(g: Group, req: ExpenseRequest): (r: seq<UserId>)
    ensures req.splitBetween.None? || req.splitBetween.value == [] ==> r == MemberIds(g.members)
    ensures req.splitBetween.Some? && req.splitBetween.value != [] ==> r == req.splitBetween.value
  {
    if req.splitBetween.Some? && |req.splitBetween.value| > 0 then req.splitBetween.value else MemberIds(g.members)
  }

  /**
   * `createExpense`'s checks, in order: a missing description or a missing
   * or zero amount (400); a caller outside the group (403); a payer outside
   * the group (400); a split user outside the group (400).  The new record
   * trims its description and takes the defaults: currency from the group
   * (else INR), split type "equal", category "Other", notes "", not a
   * settlement; the caller is its creator.
   */
  function CreateExpense(g: Group, caller: UserId, req: ExpenseRequest): (r: Result<Expense, ApiError>)
    ensures (req.description.None? || req.description.value == "" || req.amount.None? || req.amount.value == 0)
      <==> r == Err(FieldsRequired)
    ensures r.Ok? ==> IsMember(g, caller) && IsMember(g, r.value.payer) && AllMembers(g, r.value.splitBetween)
    ensures r.Ok? ==> r.value.payer == Payer(req, caller) && r.value.splitBetween == SplitUsers(g, req)
    ensures r.Ok? ==> r.value.description == Trim(req.description.value) && r.value.amount == req.amount.value
    ensures r.Ok? ==> r.value.createdBy == caller && r.value.isSettlement == (req.isSettlement == Some(true))
    ensures r.Ok? ==> r.value.splitType == OrElse(req.splitType, "equal") && r.value.category == OrElse(req.category, "Other")
    ensures r.Ok? ==> r.value.currency == OrElse(req.currency, OrElse(Some(g.baseCurrency), "INR"))
    ensures r.Ok? ==> r.value.notes == OrElse(req.notes, "")
    ensures r.Err? ==> r.error.status in {400, 403}
  {
    if req.description.None? || req.description.value == "" || req.amount.None? || req.amount.value == 0 then
      Err(FieldsRequired)
    else if !IsMember(g, caller) then
      Err(NotGroupMember)
    else if !IsMember(g, Payer(req, caller)) then
      Err(PayerNotMember)
    else if !AllMembers(g, SplitUsers(g, req)) then
      Err(SplitNotMembers)
    else
      Ok(Expense(
        Trim(req.description.value),
        req.amount.value,
        OrElse(req.currency, OrElse(Some(g.baseCurrency), "INR")),
        Payer(req, caller),
        SplitUsers(g, req),
        OrElse(req.splitType, "equal"),
        OrElse(req.category, "Other"),
        OrElse(req.notes, ""),
        req.isSettlement == Some(true),
        caller))
  }

  /**
   * Past the required-field check, the request is refused exactly when one
   * of the ids it names is not a member, with the status of the first
   * failing check.
   */
  lemma CreateExpenseRefusals(g: Group, caller: UserId, req: ExpenseRequest)
    requires req.description.Some? && req.description.value != "" && req.amount.Some? && req.amount.value != 0
    ensures !IsMember(g, caller) <==> CreateExpense(g, caller, req) == Err(NotGroupMember)
    ensures IsMember(g, caller) && !IsMember(g, Payer(req, caller))
      <==> CreateExpense(g, caller, req) == Err(PayerNotMember)
    ensures IsMember(g, caller) && IsMember(g, Payer(req, caller)) && !AllMembers(g, SplitUsers(g, req))
      <==> CreateExpense(g, caller, req) == Err(SplitNotMembers)
    ensures CreateExpense(g, caller, req).Ok?
      <==> IsMember(g, caller) && IsMember(g, Payer(req, caller)) && AllMembers(g, SplitUsers(g, req))
  {
  }

  /** Splitting among everyone never fails the split-user check. */
  lemma DefaultSplitPasses(g: Group, caller: UserId, req: ExpenseRequest)
    requires req.splitBetween.None? || req.splitBetween.value == []
    ensures AllMembers(g, SplitUsers(g, req))
  {
    var ids := SplitUsers(g, req);
    forall i | 0 <= i < |ids| ensures IsMember(g, ids[i]) {
      assert g.members[i].user == ids[i];
    }
  }

  /** `!amount` only refuses zero: a negative amount is recorded as given. */
  lemma NegativeAmountAccepted(g: Group, caller: UserId)
    requires IsMember(g, caller)
    ensures var req := ExpenseRequest(Some("Refund"), Some(-500), None, None, None, None, None, None, None);
      CreateExpense(g, caller, req).Ok? && CreateExpense(g, caller, req).value.amount == -500
  {
    var req := ExpenseRequest(Some("Refund"), Some(-500), None, None, None, None, None, None, None);
    DefaultSplitPasses(g, caller, req);
  }

  // ---------------------------------------------------------------------
  // updateExpense and deleteExpense (expense.controller.js:401-433, 499-516)
  // ---------------------------------------------------------------------

  /** Only the creator or the payer may change or delete a record. */
  predicate CanModify(e: Expense, u: UserId)
  {
    e.createdBy == u || e.payer == u
  }

  /** The fields an update may carry; `None` is an absent field. */
  datatype ExpensePatch = ExpensePatch(
    description: Option<string>,
    amount: Option<int>,
    currency: Option<string>,
    paidBy: Option<UserId>,
    splitBetween: Option<seq<UserId>>,
    splitType: Option<string>,
    category: Option<string>,
    notes: Option<string>)

  function Pick<T>(x: Option<T>, old_: T): T
  {
    if x.Some? then x.value else old_
  }

  /** The updated record and the group's new `totalSpent`. */
  datatype Updated = Updated(expense: Expense, groupTotal: int)

  /**
   * `updateExpense`: refused (403) unless the caller created or paid the
   * record; every supplied field replaces the old one (the description
   * trimmed); the group total moves by new - old only when an amount is
   * supplied, differs from the old one, and the record is not a settlement.
   */
  function UpdateExpense(e: Expense, caller: UserId, p: ExpensePatch, groupTotal: int): (r: Result<Updated, ApiError>)
    ensures !CanModify(e, caller) <==> r == Err(UpdateForbidden)
    ensures r.Ok? ==> r.value.expense.isSettlement == e.isSettlement && r.value.expense.createdBy == e.createdBy
    ensures r.Ok? ==> r.value.expense.amount == Pick(p.amount, e.amount)
    ensures r.Ok? ==> r.value.expense.payer == Pick(p.paidBy, e.payer)
    ensures r.Ok? ==> r.value.expense.splitBetween == Pick(p.splitBetween, e.splitBetween)
    ensures r.Ok? ==> r.value.expense.description == (if p.description.Some? then Trim(p.description.value) else e.description)
    ensures r.Ok? ==> r.value.expense.currency == Pick(p.currency, e.currency)
    ensures r.Ok? ==> r.value.expense.splitType == Pick(p.splitType, e.splitType)
    ensures r.Ok? ==> r.value.expense.category == Pick(p.category, e.category)
    ensures r.Ok? ==> r.value.expense.notes == Pick(p.notes, e.notes)
    ensures r.Ok? ==>
      r.value.groupTotal - groupTotal == (if e.isSettlement then 0 else r.value.expense.amount - e.amount)
  {
    if !CanModify(e, caller) then Err(UpdateForbidden)
    else
      var e' := Expense(
        if p.description.Some? then Trim(p.description.value) else e.description,
        Pick(p.amount, e.amount),
        Pick(p.currency, e.currency),
        Pick(p.paidBy, e.payer),
        Pick(p.splitBetween, e.splitBetween),
        Pick(p.splitType, e.splitType),
        Pick(p.category, e.category),
        Pick(p.notes, e.notes),
        e.isSettlement,
        e.createdBy);
      var total := if p.amount.Some? && p.amount.value != e.amount && !e.isSettlement
        then groupTotal - e.amount + e'.amount else groupTotal;
      Ok(Updated(e', total))
  }

  /**
   * The running total stays equal to a recomputation: if it matched the
   * history before the update, it matches the history with the record
   * replaced.
   */
  lemma UpdateKeepsTotalInSync(pre: seq<Expense>, e: Expense, post: seq<Expense>, caller: UserId, p: ExpensePatch, total: int)
    requires total == RegularSpend(pre + [e] + post)
    requires UpdateExpense(e, caller, p, total).Ok?
    ensures var u := UpdateExpense(e, caller, p, total).value;
      u.groupTotal == RegularSpend(pre + [u.expense] + post)
  {
    var u := UpdateExpense(e, caller, p, total).value;
    NetEffectAppend(pre, [e] + post, NoShares, caller);
    NetEffectAppend([e], post, NoShares, caller);
    NetEffectAppend(pre, [u.expense] + post, NoShares, caller);
    NetEffectAppend([u.expense], post, NoShares, caller);
    assert pre + [e] + post == pre + ([e] + post);
    assert pre + [u.expense] + post == pre + ([u.expense] + post);
  }

  function Max(a: int, b: int): int
  {
    if a >= b then a else b
  }

  /**
   * `deleteExpense`: refused (403) unless the caller created or paid the
   * record; deleting a regular record lowers the group total by its amount
   * but never below 0; a settlement, or a missing group, leaves it alone.
   */
  function DeleteExpense(e: Expense, caller: UserId, groupTotal: Option<int>): (r: Result<Option<int>, ApiError>)
    ensures !CanModify(e, caller) <==> r == Err(DeleteForbidden)
    ensures r.Ok? ==> r.value.Some? == groupTotal.Some?
    ensures r.Ok? && (e.isSettlement || groupTotal.None?) ==> r.value == groupTotal
    ensures r.Ok? && !e.isSettlement && groupTotal.Some? ==>
      r.value.value >= 0 && r.value.value >= groupTotal.value - e.amount
    ensures r.Ok? && !e.isSettlement && groupTotal.Some? ==>
      r.value.value == 0 || r.value.value == groupTotal.value - e.amount
  {
    if !CanModify(e, caller) then Err(DeleteForbidden)
    else if e.isSettlement || groupTotal.None? then Ok(groupTotal)
    else Ok(Some(Max(0, groupTotal.value - e.amount)))
  }

  /**
   * With a non-negative remaining spend the clamp never bites: the total
   * after the delete equals a recomputation without the record.
   */
  lemma DeleteKeepsTotalInSync(pre: seq<Expense>, e: Expense, post: seq<Expense>, caller: UserId, total: int)
    requires total == RegularSpend(pre + [e] + post)
    requires RegularSpend(pre + post) >= 0
    requires DeleteExpense(e, caller, Some(total)).Ok?
    ensures DeleteExpense(e, caller, Some(total)).value == Some(RegularSpend(pre + post))
  {
    NetEffectAppend(pre, [e] + post, NoShares, caller);
    NetEffectAppend([e], post, NoShares, caller);
    NetEffectAppend(pre, post, NoShares, caller);
    assert pre + [e] + post == pre + ([e] + post);
    assert [e][1..] == [];
  }
}
