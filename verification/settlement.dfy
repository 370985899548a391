/**
 * server/utils/settlement.js: the balance fold `calculateBalances`, the debt
 * simplifier `simplifyDebts`, the settlement check `validateSettlement` and
 * the filter `getUserSettlements`.  Amounts are in cents.
 */
module Settlement {
  import opened Wrappers
  import opened Balances
  import opened Records
  import opened Parties
  import opened DebtWalk
  import opened Collections

  /** The fold state: the balance map and the running `totalSpent`. */
  datatype Tally = Tally(balances: BalanceMap, totalSpent: int)

  // ---------------------------------------------------------------------------
  // calculateBalances
  // ---------------------------------------------------------------------------

  /** Every listed member starts at 0, in member order, each once. */
  function Seed(members: seq<UserId>): (r: BalanceMap)
    ensures Distinct(r)
    ensures forall u :: Has(r, u) <==> u in members
    ensures forall u :: Get(r, u) == 0
    ensures Total(r) == 0
  {
    if |members| == 0 then []
    else
      var init := members[..|members| - 1];
      assert members == init + [members[|members| - 1]];
      Set(Seed(init), members[|members| - 1], 0)
  }

  /** Debit every share from its user, in split order. */
  function DebitSplits(m: BalanceMap, ss: seq<Split>): (r: BalanceMap)
    ensures forall w :: Get(r, w) == Get(m, w) - ShareOf(ss, w)
    ensures forall w :: Has(r, w) <==> Has(m, w) || InSplits(ss, w)
    ensures Total(r) == Total(m) - SplitTotal(ss)
    ensures Distinct(m) ==> Distinct(r)
    decreases ss
  {
    if |ss| == 0 then m
    else
      assert forall w :: InSplits(ss, w) <==> ss[0].user == w || InSplits(ss[1..], w) by {
        forall w ensures InSplits(ss, w) <==> ss[0].user == w || InSplits(ss[1..], w) {
          if InSplits(ss[1..], w) {
            var i :| 0 <= i < |ss[1..]| && ss[1..][i].user == w;
            assert ss[i + 1].user == w;
          }
          if InSplits(ss, w) && ss[0].user != w {
            var i :| 0 <= i < |ss| && ss[i].user == w;
            assert ss[1..][i - 1].user == w;
          }
        }
      }
      DebitSplits(Add(m, ss[0].user, -ss[0].amount), ss[1..])
  }

  /** The members whose entry a record touches (and creates when missing). */
  predicate Touches(e: Expense, splitter: Splitter, w: UserId)
  {
    if e.isSettlement then |e.splitBetween| > 0 && (w == e.payer || w == e.splitBetween[0])
    else w == e.payer || InSplits(splitter(e), w)
  }

  /**
   * Process one record (server/utils/settlement.js:23-48).  A settlement with
   * a receiver adds its amount to the payer and subtracts it from the
   * receiver; a regular record adds its amount to `totalSpent` and to the
   * payer and subtracts every share from its user.
   */
  function Record(t: Tally, e: Expense, splitter: Splitter): (r: Tally)
    ensures e.isSettlement ==> r.totalSpent == t.totalSpent
    ensures e.isSettlement && |e.splitBetween| == 0 ==> r == t
    ensures e.isSettlement && |e.splitBetween| > 0 ==>
      forall w :: Get(r.balances, w) == Get(t.balances, w)
        + (if w == e.payer then e.amount else 0) - (if w == e.splitBetween[0] then e.amount else 0)
    ensures !e.isSettlement ==> r.totalSpent == t.totalSpent + e.amount
    ensures !e.isSettlement ==>
      forall w :: Get(r.balances, w) == Get(t.balances, w)
        + (if w == e.payer then e.amount else 0) - ShareOf(splitter(e), w)
    ensures forall w :: Has(r.balances, w) <==> Has(t.balances, w) || Touches(e, splitter, w)
    ensures Total(r.balances) == Total(t.balances) + (if e.isSettlement then 0 else e.amount - SplitTotal(splitter(e)))
    ensures Distinct(t.balances) ==> Distinct(r.balances)
  {
    if e.isSettlement then
      match Receiver(e)
      case None => t
      case Some(to) => Tally(Add(Add(t.balances, e.payer, e.amount), to, -e.amount), t.totalSpent)
    else
      Tally(DebitSplits(Add(t.balances, e.payer, e.amount), splitter(e)), t.totalSpent + e.amount)
  }

  /**
   * Reference definition of what one record does to one member's balance,
   * independent of the map it is applied to.
   */
  function Effect(e: Expense, splitter: Splitter, w: UserId): int
  {
    if e.isSettlement then
      if |e.splitBetween| == 0 then 0
      else (if w == e.payer then e.amount else 0) - (if w == e.splitBetween[0] then e.amount else 0)
    else (if w == e.payer then e.amount else 0) - ShareOf(splitter(e), w)
  }

  function NetEffect(es: seq<Expense>, splitter: Splitter, w: UserId): int
  {
    if |es| == 0 then 0 else Effect(es[0], splitter, w) + NetEffect(es[1..], splitter, w)
  }

  /** How far the shares of the regular records fall short of their amounts. */
  function Imbalance(es: seq<Expense>, splitter: Splitter): int
  {
    if |es| == 0 then 0
    else
      (if es[0].isSettlement then 0 else es[0].amount - SplitTotal(splitter(es[0])))
      + Imbalance(es[1..], splitter)
  }

  /** `expenses.forEach(...)` from a given state. */
  function Fold(t: Tally, es: seq<Expense>, splitter: Splitter): (r: Tally)
    ensures r.totalSpent == t.totalSpent + RegularSpend(es)
    ensures forall w :: Get(r.balances, w) == Get(t.balances, w) + NetEffect(es, splitter, w)
    ensures Total(r.balances) == Total(t.balances) + Imbalance(es, splitter)
    ensures forall w :: Has(t.balances, w) ==> Has(r.balances, w)
    ensures Distinct(t.balances) ==> Distinct(r.balances)
    decreases es
  {
    if |es| == 0 then t
    else Fold(Record(t, es[0], splitter), es[1..], splitter)
  }

  /**
   * `calculateBalances(expenses, members)` (server/utils/settlement.js:12-51):
   * every member starts at 0, then every record is folded in.  Each member's
   * balance is the sum of the records' effects on it, and `totalSpent` is the
   * sum of the regular records' amounts.
   */
  function CalculateBalances(es: seq<Expense>, members: seq<UserId>, splitter: Splitter): (r: Tally)
    ensures Distinct(r.balances)
    ensures forall u :: u in members ==> Has(r.balances, u)
    ensures forall w :: Get(r.balances, w) == NetEffect(es, splitter, w)
    ensures r.totalSpent == RegularSpend(es)
  {
    Fold(Tally(Seed(members), 0), es, splitter)
  }

  lemma {:induction false} BalancedSplitsNoImbalance(es: seq<Expense>, splitter: Splitter)
    requires SplitsBalanced(es, splitter)
    ensures Imbalance(es, splitter) == 0
  {
    if |es| > 0 {
      assert SplitsBalanced(es[1..], splitter) by {
        forall i | 0 <= i < |es[1..]| && !es[1..][i].isSettlement
          ensures SplitTotal(splitter(es[1..][i])) == es[1..][i].amount
        {
          assert es[1..][i] == es[i + 1];
        }
      }
      BalancedSplitsNoImbalance(es[1..], splitter);
    }
  }

  /**
   * Conservation of money: when the shares of every regular record add up to
   * its amount, the balances add up to 0 after any sequence of records.
   */
  lemma Conservation(es: seq<Expense>, members: seq<UserId>, splitter: Splitter)
    requires SplitsBalanced(es, splitter)
    ensures Total(CalculateBalances(es, members, splitter).balances) == 0
  {
    BalancedSplitsNoImbalance(es, splitter);
  }

  lemma {:induction false} NetEffectAppend(a: seq<Expense>, b: seq<Expense>, splitter: Splitter, w: UserId)
    ensures NetEffect(a + b, splitter, w) == NetEffect(a, splitter, w) + NetEffect(b, splitter, w)
    ensures RegularSpend(a + b) == RegularSpend(a) + RegularSpend(b)
  {
    if |a| == 0 {
      assert a + b == b;
    } else {
      NetEffectAppend(a[1..], b, splitter, w);
      assert (a + b)[1..] == a[1..] + b;
    }
  }

  lemma RemoveAt(fs: seq<Expense>, k: int)
    requires 0 <= k < |fs|
    ensures fs == fs[..k] + ([fs[k]] + fs[k + 1..])
    ensures multiset(fs[..k] + fs[k + 1..]) == multiset(fs) - multiset{fs[k]}
  {
    assert fs[k..] == [fs[k]] + fs[k + 1..];
    assert fs == fs[..k] + fs[k..];
  }

  /**
   * One step of the permutation argument: a history that starts with `x`
   * has the totals of any history holding `x` between the rest's records.
   */
  lemma MoveToFront(es: seq<Expense>, pre: seq<Expense>, x: Expense, post: seq<Expense>, splitter: Splitter, w: UserId)
    requires |es| > 0 && es[0] == x
    requires NetEffect(es[1..], splitter, w) == NetEffect(pre + post, splitter, w)
    requires RegularSpend(es[1..]) == RegularSpend(pre + post)
    ensures NetEffect(pre + ([x] + post), splitter, w) == NetEffect(es, splitter, w)
    ensures RegularSpend(pre + ([x] + post)) == RegularSpend(es)
  {
    NetEffectAppend(pre, [x] + post, splitter, w);
    NetEffectAppend(pre, post, splitter, w);
    assert ([x] + post)[1..] == post;
  }

  lemma {:induction false} NetEffectPermutation(es: seq<Expense>, fs: seq<Expense>, splitter: Splitter, w: UserId)
    requires multiset(es) == multiset(fs)
    ensures NetEffect(es, splitter, w) == NetEffect(fs, splitter, w)
    ensures RegularSpend(es) == RegularSpend(fs)
    decreases |es|
  {
    if |es| == 0 {
      assert |fs| == |multiset(fs)| == 0;
    } else {
      var x := es[0];
      assert x in multiset(fs);
      var k :| 0 <= k < |fs| && fs[k] == x;
      var pre, post := fs[..k], fs[k + 1..];
      RemoveAt(fs, k);
      assert es == [x] + es[1..];
      assert multiset(es[1..]) == multiset(es) - multiset{x};
      NetEffectPermutation(es[1..], pre + post, splitter, w);
      MoveToFront(es, pre, x, post, splitter, w);
    }
  }

  /**
   * The order of the records does not matter: any reordering of the history
   * gives every member the same balance and the same `totalSpent`.
   */
  lemma OrderIrrelevant(es: seq<Expense>, fs: seq<Expense>, members: seq<UserId>, splitter: Splitter, w: UserId)
    requires multiset(es) == multiset(fs)
    ensures Get(CalculateBalances(es, members, splitter).balances, w)
         == Get(CalculateBalances(fs, members, splitter).balances, w)
    ensures CalculateBalances(es, members, splitter).totalSpent
         == CalculateBalances(fs, members, splitter).totalSpent
  {
    NetEffectPermutation(es, fs, splitter, w);
  }

  // ---------------------------------------------------------------------------
  // simplifyDebts
  // ---------------------------------------------------------------------------

  /** The creditors and debtors of `m`, each sorted by decreasing amount. */
  lemma SortedSides(m: BalanceMap)
    ensures AtLeast(SortDesc(Creditors(m)), Eps) && AtLeast(SortDesc(Debtors(m)), Eps)
  {
    SortDescPermutes(Creditors(m));
    SortDescPermutes(Debtors(m));
    AtLeastByMultiset(Creditors(m), SortDesc(Creditors(m)), Eps);
    AtLeastByMultiset(Debtors(m), SortDesc(Debtors(m)), Eps);
  }

  /** A user listed on a sorted side has a balance beyond the tolerance on that side. */
  lemma ListedMeansBeyondEps(m: BalanceMap, u: UserId)
    requires Distinct(m)
    ensures HasUser(SortDesc(Creditors(m)), u) ==> Get(m, u) > Eps
    ensures HasUser(SortDesc(Debtors(m)), u) ==> Get(m, u) < -Eps
  {
    SortDescPermutes(Creditors(m));
    SortDescPermutes(Debtors(m));
    HasUserByMultiset(Creditors(m), SortDesc(Creditors(m)), u);
    HasUserByMultiset(Debtors(m), SortDesc(Debtors(m)), u);
    OwedPositiveIffListed(Creditors(m), u);
    OwedPositiveIffListed(Debtors(m), u);
    PartitionOwed(m, u);
  }

  /**
   * `simplifyDebts(balanceMap)` (server/utils/settlement.js:60-115): split the
   * map into creditors above 0.01 and debtors below -0.01, sort both by
   * decreasing amount and walk them greedily.  Every payment runs from a
   * debtor to a creditor, exceeds 0.01, and there are fewer payments than
   * creditors and debtors together.
   */
  function SimplifyDebts(m: BalanceMap): (r: seq<Txn>)
    ensures Distinct(m) ==> forall t :: t in r ==> Get(m, t.from) < -Eps && Get(m, t.to) > Eps
    ensures forall t :: t in r ==> t.amount > Eps
    ensures |Creditors(m)| == 0 || |Debtors(m)| == 0 ==> r == []
    ensures |r| <= |Creditors(m)| + |Debtors(m)|
    ensures |Creditors(m)| > 0 && |Debtors(m)| > 0 ==> |r| < |Creditors(m)| + |Debtors(m)|
  {
    SortedSides(m);
    var r := Walk(SortDesc(Creditors(m)), SortDesc(Debtors(m)));
    assert Distinct(m) ==> forall t :: t in r ==> Get(m, t.from) < -Eps && Get(m, t.to) > Eps by {
      if Distinct(m) {
        forall t | t in r ensures Get(m, t.from) < -Eps && Get(m, t.to) > Eps {
          ListedMeansBeyondEps(m, t.from);
          ListedMeansBeyondEps(m, t.to);
        }
      }
    }
    r
  }

  /** No member is told to receive more than it is owed or to pay more than it owes. */
  lemma SimplifyDebtsNeverOverpays(m: BalanceMap, u: UserId)
    requires Distinct(m)
    ensures PaidTo(SimplifyDebts(m), u) <= (if Get(m, u) > Eps then Get(m, u) else 0)
    ensures PaidFrom(SimplifyDebts(m), u) <= (if Get(m, u) < -Eps then -Get(m, u) else 0)
  {
    SortedSides(m);
    WalkNeverOverpays(SortDesc(Creditors(m)), SortDesc(Debtors(m)), u);
    SortDescKeepsOwed(Creditors(m), u);
    SortDescKeepsOwed(Debtors(m), u);
    PartitionOwed(m, u);
  }

  /**
   * Members with equal balances are walked in map order, which is member
   * order for the members seeded first.
   */
  lemma SimplifyDebtsTieOrder(m: BalanceMap, a: int)
    ensures WithAmount(SortDesc(Creditors(m)), a) == WithAmount(Creditors(m), a)
    ensures WithAmount(SortDesc(Debtors(m)), a) == WithAmount(Debtors(m), a)
  {
    SortDescStable(Creditors(m), a);
    SortDescStable(Debtors(m), a);
  }

  /** Balances that the partition ignores: nonzero, yet within 0.01 of zero. */
  function Dust(m: BalanceMap): int
  {
    if |m| == 0 then 0
    else (if -Eps <= m[0].amount <= Eps then m[0].amount else 0) + Dust(m[1..])
  }

  /** The map total is what creditors are owed, minus what debtors owe, plus dust. */
  lemma {:induction false} TotalBySides(m: BalanceMap)
    ensures Total(m) == Sum(Creditors(m)) - Sum(Debtors(m)) + Dust(m)
  {
    if |m| > 0 {
      TotalBySides(m[1..]);
      var c, d := Creditors(m[1..]), Debtors(m[1..]);
      if m[0].amount > Eps { assert ([Party(m[0].user, m[0].amount)] + c)[1..] == c; }
      if m[0].amount < -Eps { assert ([Party(m[0].user, -m[0].amount)] + d)[1..] == d; }
    }
  }

  // ---------------------------------------------------------------------------
  // Recording payments
  // ---------------------------------------------------------------------------

  /**
   * The settlement record a payment becomes: paid by the debtor, with the
   * creditor as the single entry of `splitBetween`.
   */
  function SettlementRecord(t: Txn): (e: Expense)
    ensures e.isSettlement && e.payer == t.from && Receiver(e) == Some(t.to) && e.amount == t.amount
  {
    Expense("Settlement", t.amount, "", t.from, [t.to], "settlement", "Settlement", "", true, t.from)
  }

  function SettlementRecords(ts: seq<Txn>): (es: seq<Expense>)
    ensures |es| == |ts|
    ensures forall i :: 0 <= i < |ts| ==> es[i] == SettlementRecord(ts[i])
  {
    if |ts| == 0 then [] else [SettlementRecord(ts[0])] + SettlementRecords(ts[1..])
  }

  /** Settlement records ignore the split calculator: this one returns no shares. */
  function NoShares(e: Expense): seq<Split>
  {
    []
  }

  /** The balances after every payment of `ts` has been recorded as a settlement. */
  function RecordPayments(m: BalanceMap, ts: seq<Txn>): BalanceMap
  {
    Fold(Tally(m, 0), SettlementRecords(ts), NoShares).balances
  }

  /** Recording payments gives each payer what it paid and charges each receiver. */
  lemma {:induction false} RecordPaymentsEffect(m: BalanceMap, ts: seq<Txn>, u: UserId)
    ensures Get(RecordPayments(m, ts), u) == Get(m, u) + PaidFrom(ts, u) - PaidTo(ts, u)
  {
    SettledNetEffect(ts, u);
  }

  lemma {:induction false} SettledNetEffect(ts: seq<Txn>, u: UserId)
    ensures NetEffect(SettlementRecords(ts), NoShares, u) == PaidFrom(ts, u) - PaidTo(ts, u)
  {
    if |ts| > 0 {
      SettledNetEffect(ts[1..], u);
      assert SettlementRecords(ts)[1..] == SettlementRecords(ts[1..]);
    }
  }

  // ---------------------------------------------------------------------------
  // validateSettlement
  // ---------------------------------------------------------------------------

  datatype SettleError = SelfSettlement | NonPositiveAmount | NoDebt | NotOwed

  /** Accepted payments may carry an overpayment warning with the suggested maximum. */
  datatype Verdict = Rejected(reason: SettleError) | Accepted(warning: Option<int>)

  /**
   * `validateSettlement(from, to, amount, balanceMap)`
   * (server/utils/settlement.js:125-158): the checks run in order and the
   * first failing one decides; a missing balance counts as 0.
   */
  function ValidateSettlement(from: UserId, to: UserId, amount: int, m: BalanceMap): (r: Verdict)
    ensures r == Rejected(SelfSettlement) <==> from == to
    ensures r == Rejected(NonPositiveAmount) <==> from != to && amount <= 0
    ensures r == Rejected(NoDebt) <==> from != to && amount > 0 && Get(m, from) >= 0
    ensures r == Rejected(NotOwed) <==> from != to && amount > 0 && Get(m, from) < 0 && Get(m, to) <= 0
    ensures r.Accepted? <==> from != to && amount > 0 && Get(m, from) < 0 && Get(m, to) > 0
    ensures r.Accepted? ==> (r.warning.Some? <==> amount > Min(-Get(m, from), Get(m, to)) + Eps)
    ensures r.Accepted? && r.warning.Some? ==>
      r.warning.value == Min(-Get(m, from), Get(m, to)) && r.warning.value < amount
  {
    if from == to then Rejected(SelfSettlement)
    else if amount <= 0 then Rejected(NonPositiveAmount)
    else
      var fromBalance := Get(m, from);
      if fromBalance >= 0 then Rejected(NoDebt)
      else
        var toBalance := Get(m, to);
        if toBalance <= 0 then Rejected(NotOwed)
        else
          var maxSettlement := Min(if fromBalance < 0 then -fromBalance else fromBalance, toBalance);
          if amount > maxSettlement + Eps then Accepted(Some(maxSettlement))
          else Accepted(None)
  }

  /**
   * A payment accepted without a warning, once recorded, moves both parties
   * towards zero and leaves neither more than 0.01 past it.
   */
  lemma AcceptedPaymentStaysWithinTolerance(from: UserId, to: UserId, amount: int, m: BalanceMap)
    requires ValidateSettlement(from, to, amount, m) == Accepted(None)
    ensures var after := RecordPayments(m, [Txn(from, to, amount)]);
      Get(m, from) < Get(after, from) <= Eps && -Eps <= Get(after, to) < Get(m, to)
  {
    var t := Txn(from, to, amount);
    RecordPaymentsEffect(m, [t], from);
    RecordPaymentsEffect(m, [t], to);
  }

  // ---------------------------------------------------------------------------
  // getUserSettlements
  // ---------------------------------------------------------------------------

  /**
   * `getUserSettlements(userId, allSettlements)`
   * (server/utils/settlement.js:166-170): the payments `u` makes or receives,
   * in their original order.
   */
  function UserSettlements(u: UserId, ts: seq<Txn>): (r: seq<Txn>)
    ensures forall t :: t in r <==> t in ts && (t.from == u || t.to == u)
    ensures |r| <= |ts|
    ensures r == Filter(ts, Involves(u))
  {
    Filter(ts, Involves(u))
  }

  /**
   * The filter works piece by piece: the payments of `a` involving `u`
   * come before those of `b`, each in their original order.
   */
  lemma UserSettlementsAppend(u: UserId, a: seq<Txn>, b: seq<Txn>)
    ensures UserSettlements(u, a + b) == UserSettlements(u, a) + UserSettlements(u, b)
  {
    FilterAppend(a, b, Involves(u));
  }

  /** The test `s => s.from === u || s.to === u`. */
  function Involves(u: UserId): Txn -> bool
  {
    (t: Txn) => t.from == u || t.to == u
  }

  /**
   * A suggestion whose side has no `userMap` entry
   * (server/utils/settlement.js:66-81) carries an undefined `from` or `to`,
   * and the test `s.from._id === u || s.to._id === u` throws on reading its
   * `_id`.  `to` is read only when `from` is not `u`.
   */
  predicate Unlabelled(u: UserId, members: seq<UserId>, t: Txn)
  {
    t.from !in members || (t.from != u && t.to !in members)
  }

  /**
   * `getUserSettlements` on suggestions labelled from the member list: it
   * fails (`None`, a thrown `TypeError`) exactly when some suggestion has a
   * side that is not a member where the test reads it, and otherwise gives
   * `UserSettlements`.
   */
  function UserSettlementsLabelled(u: UserId, members: seq<UserId>, ts: seq<Txn>): (r: Option<seq<Txn>>)
    ensures r.None? <==> exists i :: 0 <= i < |ts| && Unlabelled(u, members, ts[i])
    ensures r.Some? ==> r.value == UserSettlements(u, ts)
  {
    if |ts| == 0 then Some([])
    else if Unlabelled(u, members, ts[0]) then None
    else
      match UserSettlementsLabelled(u, members, ts[1..])
      case None =>
        var i :| 0 <= i < |ts[1..]| && Unlabelled(u, members, ts[1..][i]);
        assert ts[i + 1] == ts[1..][i];
        None
      case Some(rest) =>
        assert forall i :: 1 <= i < |ts| ==> ts[i] == ts[1..][i - 1];
        Some((if Involves(u)(ts[0]) then [ts[0]] else []) + rest)
  }

  /** A user with a nonzero balance has an entry in the map. */
  lemma {:induction false} NonzeroHas(m: BalanceMap, u: UserId)
    ensures Get(m, u) != 0 ==> Has(m, u)
  {
    if |m| > 0 && m[0].user != u {
      NonzeroHas(m[1..], u);
    }
  }

  /**
   * When every balance key is a member, as after `calculateBalances` over
   * records that name members only, every suggestion is labelled and the
   * filter succeeds.
   */
  lemma MemberKeysLabelled(u: UserId, members: seq<UserId>, m: BalanceMap)
    requires Distinct(m)
    requires forall v :: Has(m, v) ==> v in members
    ensures UserSettlementsLabelled(u, members, SimplifyDebts(m)) == Some(UserSettlements(u, SimplifyDebts(m)))
  {
    var ts := SimplifyDebts(m);
    forall i | 0 <= i < |ts| ensures !Unlabelled(u, members, ts[i]) {
      assert ts[i] in ts;
      NonzeroHas(m, ts[i].from);
      NonzeroHas(m, ts[i].to);
    }
  }

  /**
   * A balance key outside the member list, as `updateExpense` can produce by
   * naming a non-member payer, makes the filter throw for the member paid.
   */
  lemma NonMemberKeyThrows()
    ensures UserSettlementsLabelled("A", ["A"], [Txn("Z", "A", 500)]).None?
  {
    assert Unlabelled("A", ["A"], [Txn("Z", "A", 500)][0]);
  }

  /** Filtering twice is filtering once. */
  lemma UserSettlementsIdempotent(u: UserId, ts: seq<Txn>)
    ensures UserSettlements(u, UserSettlements(u, ts)) == UserSettlements(u, ts)
  {
    FilterIdempotent(ts, Involves(u));
  }
}
