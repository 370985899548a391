/**
 * The greedy two-pointer walk of `simplifyDebts`, shared by the server
 * (server/utils/settlement.js) and the client (client/src/utils/helpers.js).
 * The source keeps indices `i`, `j` into mutable arrays; here the current
 * creditor and debtor are the heads of the lists and an iteration replaces a
 * head by what is left of it, or drops it once less than a cent is left.
 */
module DebtWalk {
  import opened Balances
  import opened Parties

  /** The source's tolerance of 0.01 currency units, in cents. */
  const Eps: int := 1

  function Min(a: int, b: int): int
  {
    if a <= b then a else b
  }

  /** Members owed more than a cent, in map order, with what they are owed. */
  function Creditors(m: BalanceMap): (r: seq<Party>)
    ensures AtLeast(r, Eps + 1)
    ensures |r| <= |m|
  {
    if |m| == 0 then []
    else if m[0].amount > Eps then [Party(m[0].user, m[0].amount)] + Creditors(m[1..])
    else Creditors(m[1..])
  }

  /** Members owing more than a cent, in map order, with the absolute debt. */
  function Debtors(m: BalanceMap): (r: seq<Party>)
    ensures AtLeast(r, Eps + 1)
    ensures |r| <= |m|
  {
    if |m| == 0 then []
    else if m[0].amount < -Eps then [Party(m[0].user, -m[0].amount)] + Debtors(m[1..])
    else Debtors(m[1..])
  }

  lemma {:induction false} PartitionFromMap(m: BalanceMap, u: UserId)
    ensures HasUser(Creditors(m), u) ==> Has(m, u)
    ensures HasUser(Debtors(m), u) ==> Has(m, u)
  {
    if |m| > 0 {
      PartitionFromMap(m[1..], u);
      var c, d := Creditors(m[1..]), Debtors(m[1..]);
      if HasUser(Creditors(m), u) && m[0].user != u {
        var i :| 0 <= i < |Creditors(m)| && Creditors(m)[i].user == u;
        if m[0].amount > Eps { assert Creditors(m)[i] == c[i - 1]; } else { assert c[i].user == u; }
      }
      if HasUser(Debtors(m), u) && m[0].user != u {
        var i :| 0 <= i < |Debtors(m)| && Debtors(m)[i].user == u;
        if m[0].amount < -Eps { assert Debtors(m)[i] == d[i - 1]; } else { assert d[i].user == u; }
      }
    }
  }

  /**
   * In a map without repeated users, the creditors list records exactly the
   * balances above 0.01 and the debtors list exactly the balances below
   * -0.01, as absolute values; everything in between is left out.
   */
  lemma {:induction false} PartitionOwed(m: BalanceMap, u: UserId)
    requires Distinct(m)
    ensures Owed(Creditors(m), u) == (if Get(m, u) > Eps then Get(m, u) else 0)
    ensures Owed(Debtors(m), u) == (if Get(m, u) < -Eps then -Get(m, u) else 0)
  {
    if |m| > 0 {
      PartitionOwed(m[1..], u);
      var c, d := Creditors(m[1..]), Debtors(m[1..]);
      if m[0].amount > Eps { assert ([Party(m[0].user, m[0].amount)] + c)[1..] == c; }
      if m[0].amount < -Eps { assert ([Party(m[0].user, -m[0].amount)] + d)[1..] == d; }
      if u == m[0].user {
        forall v | HasUser(c, v) ensures Has(m[1..], v) { PartitionFromMap(m[1..], v); }
        forall v | HasUser(d, v) ensures Has(m[1..], v) { PartitionFromMap(m[1..], v); }
        OwedAbsent(c, m[1..], u);
        OwedAbsent(d, m[1..], u);
      }
    }
  }

  /** For positive amounts, a user appears in a list iff the list owes it something. */
  lemma {:induction false} OwedPositiveIffListed(ps: seq<Party>, u: UserId)
    requires AtLeast(ps, 1)
    ensures HasUser(ps, u) <==> Owed(ps, u) > 0
  {
    if |ps| > 0 {
      OwedPositiveIffListed(ps[1..], u);
      OwedNonNegative(ps[1..], u);
      if HasUser(ps, u) && ps[0].user != u {
        var i :| 0 <= i < |ps| && ps[i].user == u;
        assert ps[1..][i - 1].user == u;
      }
      if HasUser(ps[1..], u) {
        var i :| 0 <= i < |ps[1..]| && ps[1..][i].user == u;
        assert ps[i + 1].user == u;
      }
    }
  }

  /** A user with no entry in the map is owed nothing by a list drawn from it. */
  lemma {:induction false} OwedAbsent(ps: seq<Party>, m: BalanceMap, u: UserId)
    requires forall v :: HasUser(ps, v) ==> Has(m, v)
    requires !Has(m, u)
    ensures Owed(ps, u) == 0
  {
    if |ps| > 0 {
      assert HasUser(ps, ps[0].user);
      forall v | HasUser(ps[1..], v) ensures Has(m, v) {
        var i :| 0 <= i < |ps[1..]| && ps[1..][i].user == v;
        assert ps[i + 1].user == v;
      }
      OwedAbsent(ps[1..], m, u);
    }
  }

  /**
   * One iteration on one side: subtract the settled amount `s` from the head,
   * and move past it once less than a cent is left (`if (x.amount < 0.01) i++`).
   */
  function Advance(ps: seq<Party>, s: int): (r: seq<Party>)
    requires |ps| > 0
    ensures |r| <= |ps|
    ensures ps[0].amount - s < Eps ==> |r| == |ps| - 1
  {
    var left := ps[0].amount - s;
    if left < Eps then ps[1..] else [Party(ps[0].user, left)] + ps[1..]
  }

  /** Advancing settles exactly `s` of the head and keeps every other entry. */
  lemma AdvanceFacts(ps: seq<Party>, s: int)
    requires |ps| > 0 && 0 <= s <= ps[0].amount
    requires AtLeast(ps, Eps)
    ensures AtLeast(Advance(ps, s), Eps)
    ensures forall u :: HasUser(Advance(ps, s), u) ==> HasUser(ps, u)
    ensures forall u :: Owed(Advance(ps, s), u) == Owed(ps, u) - (if u == ps[0].user then s else 0)
    ensures Sum(Advance(ps, s)) == Sum(ps) - s
  {
    var r := Advance(ps, s);
    var left := ps[0].amount - s;
    if left >= Eps {
      assert r[1..] == ps[1..];
      forall u | HasUser(r, u) ensures HasUser(ps, u) {
        var i :| 0 <= i < |r| && r[i].user == u;
        assert ps[i].user == u;
      }
    } else {
      forall u | HasUser(r, u) ensures HasUser(ps, u) {
        var i :| 0 <= i < |r| && r[i].user == u;
        assert ps[i + 1].user == u;
      }
    }
  }

  /**
   * The server loop (server/utils/settlement.js:93-112): settle the minimum of
   * the two heads, emit it only when it exceeds 0.01, and advance.
   */
  function Walk(cs: seq<Party>, ds: seq<Party>): (r: seq<Txn>)
    requires AtLeast(cs, Eps) && AtLeast(ds, Eps)
    ensures forall t :: t in r ==> HasUser(ds, t.from) && HasUser(cs, t.to) && t.amount > Eps
    ensures |cs| == 0 || |ds| == 0 ==> r == []
    ensures |cs| > 0 && |ds| > 0 ==> |r| <= |cs| + |ds| - 1
    decreases |cs| + |ds|
  {
    if |cs| == 0 || |ds| == 0 then []
    else
      var s := Min(cs[0].amount, ds[0].amount);
      AdvanceFacts(cs, s);
      AdvanceFacts(ds, s);
      var emitted := if s > Eps then [Txn(ds[0].user, cs[0].user, s)] else [];
      assert HasUser(ds, ds[0].user) && HasUser(cs, cs[0].user);
      emitted + Walk(Advance(cs, s), Advance(ds, s))
  }

  /**
   * The client loop (client/src/utils/helpers.js:100-116): the same walk, but
   * every iteration emits its settled amount, without threshold or rounding.
   */
  function Steps(cs: seq<Party>, ds: seq<Party>): (r: seq<Txn>)
    requires AtLeast(cs, Eps) && AtLeast(ds, Eps)
    ensures forall t :: t in r ==> HasUser(ds, t.from) && HasUser(cs, t.to) && t.amount >= Eps
    ensures |cs| == 0 || |ds| == 0 ==> r == []
    ensures |cs| > 0 && |ds| > 0 ==> 1 <= |r| <= |cs| + |ds| - 1
    ensures |cs| > 0 && |ds| > 0 ==> r[0] == Txn(ds[0].user, cs[0].user, Min(cs[0].amount, ds[0].amount))
    decreases |cs| + |ds|
  {
    if |cs| == 0 || |ds| == 0 then []
    else
      var s := Min(cs[0].amount, ds[0].amount);
      AdvanceFacts(cs, s);
      AdvanceFacts(ds, s);
      assert HasUser(ds, ds[0].user) && HasUser(cs, cs[0].user);
      [Txn(ds[0].user, cs[0].user, s)] + Steps(Advance(cs, s), Advance(ds, s))
  }

  /** The payments of `ts` larger than 0.01, in order. */
  function AboveEps(ts: seq<Txn>): seq<Txn>
  {
    if |ts| == 0 then []
    else (if ts[0].amount > Eps then [ts[0]] else []) + AboveEps(ts[1..])
  }

  /**
   * The server walk is the client walk with the payments of one cent or less
   * left out: both loops settle the same amounts in the same order.
   */
  lemma {:induction false} WalkIsStepsAboveEps(cs: seq<Party>, ds: seq<Party>)
    requires AtLeast(cs, Eps) && AtLeast(ds, Eps)
    ensures Walk(cs, ds) == AboveEps(Steps(cs, ds))
    decreases |cs| + |ds|
  {
    if |cs| > 0 && |ds| > 0 {
      var s := Min(cs[0].amount, ds[0].amount);
      AdvanceFacts(cs, s);
      AdvanceFacts(ds, s);
      var t := Txn(ds[0].user, cs[0].user, s);
      var rest := Steps(Advance(cs, s), Advance(ds, s));
      WalkIsStepsAboveEps(Advance(cs, s), Advance(ds, s));
      assert ([t] + rest)[1..] == rest;
    }
  }

  /** No creditor is handed more than it is owed, no debtor pays more than it owes. */
  lemma {:induction false} WalkNeverOverpays(cs: seq<Party>, ds: seq<Party>, u: UserId)
    requires AtLeast(cs, Eps) && AtLeast(ds, Eps)
    ensures PaidTo(Walk(cs, ds), u) <= Owed(cs, u)
    ensures PaidFrom(Walk(cs, ds), u) <= Owed(ds, u)
    decreases |cs| + |ds|
  {
    if |cs| == 0 || |ds| == 0 {
      OwedNonNegative(cs, u);
      OwedNonNegative(ds, u);
    } else {
      var s := Min(cs[0].amount, ds[0].amount);
      AdvanceFacts(cs, s);
      AdvanceFacts(ds, s);
      var emitted := if s > Eps then [Txn(ds[0].user, cs[0].user, s)] else [];
      var rest := Walk(Advance(cs, s), Advance(ds, s));
      WalkNeverOverpays(Advance(cs, s), Advance(ds, s), u);
      PaidAppend(emitted, rest, u);
    }
  }

  /**
   * When both sides add up to the same total, the client walk pays every
   * creditor exactly what it is owed and takes from every debtor exactly its
   * debt.
   */
  lemma {:induction false} StepsSettleExactly(cs: seq<Party>, ds: seq<Party>, u: UserId)
    requires AtLeast(cs, Eps) && AtLeast(ds, Eps)
    requires Sum(cs) == Sum(ds)
    ensures PaidTo(Steps(cs, ds), u) == Owed(cs, u)
    ensures PaidFrom(Steps(cs, ds), u) == Owed(ds, u)
    decreases |cs| + |ds|
  {
    if |cs| == 0 || |ds| == 0 {
      SumOfPositives(cs);
      SumOfPositives(ds);
    } else {
      var s := Min(cs[0].amount, ds[0].amount);
      AdvanceFacts(cs, s);
      AdvanceFacts(ds, s);
      var t := Txn(ds[0].user, cs[0].user, s);
      var rest := Steps(Advance(cs, s), Advance(ds, s));
      StepsSettleExactly(Advance(cs, s), Advance(ds, s), u);
      PaidAppend([t], rest, u);
    }
  }
}
