/**
 * Creditor and debtor lists and the stable descending sort the server applies
 * to them (`arr.sort((a, b) => b.amount - a.amount)`, stable since ES2019).
 */
module Parties {
  import opened Balances

  /** A member on one side of the walk, with what is still owed to or by them. */
  datatype Party = Party(user: UserId, amount: int)

  /** What the list still records for `u`, over all of its entries. */
  function Owed(ps: seq<Party>, u: UserId): int
  {
    if |ps| == 0 then 0
    else (if ps[0].user == u then ps[0].amount else 0) + Owed(ps[1..], u)
  }

  function Sum(ps: seq<Party>): int
  {
    if |ps| == 0 then 0 else ps[0].amount + Sum(ps[1..])
  }

  predicate HasUser(ps: seq<Party>, u: UserId)
  {
    exists i :: 0 <= i < |ps| && ps[i].user == u
  }

  /** Every amount is at least `lo`. */
  predicate AtLeast(ps: seq<Party>, lo: int)
  {
    forall i :: 0 <= i < |ps| ==> ps[i].amount >= lo
  }

  predicate SortedDesc(ps: seq<Party>)
  {
    forall i, j :: 0 <= i < j < |ps| ==> ps[i].amount >= ps[j].amount
  }

  /** The entries whose amount is exactly `a`, in list order. */
  function WithAmount(ps: seq<Party>, a: int): seq<Party>
  {
    if |ps| == 0 then []
    else (if ps[0].amount == a then [ps[0]] else []) + WithAmount(ps[1..], a)
  }

  /** Every amount is at most `hi`. */
  predicate AtMost(ps: seq<Party>, hi: int)
  {
    forall i :: 0 <= i < |ps| ==> ps[i].amount <= hi
  }

  /** Put `x` in front of the first entry that is not larger than it. */
  function Insert(x: Party, ps: seq<Party>): (r: seq<Party>)
    ensures |r| == |ps| + 1
  {
    if |ps| == 0 || ps[0].amount <= x.amount then [x] + ps
    else [ps[0]] + Insert(x, ps[1..])
  }

  lemma {:induction false} InsertPermutes(x: Party, ps: seq<Party>)
    ensures multiset(Insert(x, ps)) == multiset([x] + ps)
  {
    if |ps| > 0 && ps[0].amount > x.amount {
      InsertPermutes(x, ps[1..]);
      assert ps == [ps[0]] + ps[1..];
    }
  }

  lemma {:induction false} InsertAtMost(x: Party, ps: seq<Party>, hi: int)
    requires AtMost(ps, hi) && x.amount <= hi
    ensures AtMost(Insert(x, ps), hi)
  {
    if |ps| > 0 && ps[0].amount > x.amount {
      InsertAtMost(x, ps[1..], hi);
      var r := Insert(x, ps);
      assert r == [ps[0]] + Insert(x, ps[1..]);
      assert forall i :: 1 <= i < |r| ==> r[i] == Insert(x, ps[1..])[i - 1];
    }
  }

  /** A sorted list stays sorted behind an entry at least as large as all of it. */
  lemma SortedCons(p: Party, ps: seq<Party>)
    requires SortedDesc(ps) && AtMost(ps, p.amount)
    ensures SortedDesc([p] + ps)
  {
    var r := [p] + ps;
    forall i, j | 0 <= i < j < |r| ensures r[i].amount >= r[j].amount {
      assert r[j] == ps[j - 1];
      if i > 0 {
        assert r[i] == ps[i - 1];
      }
    }
  }

  lemma {:induction false} InsertSorted(x: Party, ps: seq<Party>)
    requires SortedDesc(ps)
    ensures SortedDesc(Insert(x, ps))
  {
    if |ps| == 0 || ps[0].amount <= x.amount {
      assert AtMost(ps, x.amount) by {
        assert forall i :: 0 <= i < |ps| ==> ps[i].amount <= ps[0].amount;
      }
      SortedCons(x, ps);
    } else {
      var tail := ps[1..];
      assert SortedDesc(tail) by {
        assert forall i :: 0 <= i < |tail| ==> tail[i] == ps[i + 1];
      }
      assert AtMost(tail, ps[0].amount) by {
        assert forall i :: 0 <= i < |tail| ==> tail[i] == ps[i + 1];
      }
      InsertSorted(x, tail);
      InsertAtMost(x, tail, ps[0].amount);
      SortedCons(ps[0], Insert(x, tail));
    }
  }

  lemma WithAmountCons(p: Party, ps: seq<Party>, a: int)
    ensures WithAmount([p] + ps, a) == (if p.amount == a then [p] else []) + WithAmount(ps, a)
  {
    assert ([p] + ps)[1..] == ps;
  }

  lemma {:induction false} InsertKeepsTies(x: Party, ps: seq<Party>, a: int)
    ensures WithAmount(Insert(x, ps), a) == WithAmount([x] + ps, a)
  {
    if |ps| == 0 || ps[0].amount <= x.amount {
    } else {
      var p0, tail := ps[0], ps[1..];
      assert ps == [p0] + tail;
      var rest := Insert(x, tail);
      assert Insert(x, ps) == [p0] + rest;
      InsertKeepsTies(x, tail, a);
      WithAmountCons(p0, rest, a);
      WithAmountCons(x, tail, a);
      WithAmountCons(x, ps, a);
      WithAmountCons(p0, tail, a);
    }
  }

  lemma {:induction false} InsertKeepsOwed(x: Party, ps: seq<Party>, u: UserId)
    ensures Owed(Insert(x, ps), u) == Owed([x] + ps, u)
    ensures Sum(Insert(x, ps)) == Sum([x] + ps)
  {
    if |ps| == 0 || ps[0].amount <= x.amount {
    } else {
      var rest := Insert(x, ps[1..]);
      InsertKeepsOwed(x, ps[1..], u);
      assert ([ps[0]] + rest)[1..] == rest;
      assert ([x] + ps)[1..] == ps;
      assert ([x] + ps[1..])[1..] == ps[1..];
    }
  }

  /**
   * Descending sort by insertion, working from the back of the list so that
   * earlier entries end up in front of later entries with the same amount.
   */
  function SortDesc(ps: seq<Party>): (r: seq<Party>)
    ensures |r| == |ps|
    ensures SortedDesc(r)
  {
    if |ps| == 0 then []
    else
      var rest := SortDesc(ps[1..]);
      InsertSorted(ps[0], rest);
      Insert(ps[0], rest)
  }

  /** The sort is a permutation of its input. */
  lemma {:induction false} SortDescPermutes(ps: seq<Party>)
    ensures multiset(SortDesc(ps)) == multiset(ps)
  {
    if |ps| > 0 {
      SortDescPermutes(ps[1..]);
      InsertPermutes(ps[0], SortDesc(ps[1..]));
      assert ps == [ps[0]] + ps[1..];
    }
  }

  /** The sort is stable: entries with the same amount keep their order. */
  lemma {:induction false} SortDescStable(ps: seq<Party>, a: int)
    ensures WithAmount(SortDesc(ps), a) == WithAmount(ps, a)
  {
    if |ps| > 0 {
      var rest := SortDesc(ps[1..]);
      InsertKeepsTies(ps[0], rest, a);
      SortDescStable(ps[1..], a);
      assert ([ps[0]] + rest)[1..] == rest;
    }
  }

  /** Sorting changes neither what any user is owed nor the list total. */
  lemma {:induction false} SortDescKeepsOwed(ps: seq<Party>, u: UserId)
    ensures Owed(SortDesc(ps), u) == Owed(ps, u)
    ensures Sum(SortDesc(ps)) == Sum(ps)
  {
    if |ps| > 0 {
      var rest := SortDesc(ps[1..]);
      InsertKeepsOwed(ps[0], rest, u);
      SortDescKeepsOwed(ps[1..], u);
      assert ([ps[0]] + rest)[1..] == rest;
    }
  }

  lemma AtLeastByMultiset(ps: seq<Party>, qs: seq<Party>, lo: int)
    requires multiset(ps) == multiset(qs)
    requires AtLeast(ps, lo)
    ensures AtLeast(qs, lo)
  {
    forall i | 0 <= i < |qs| ensures qs[i].amount >= lo {
      assert qs[i] in multiset(qs);
      assert qs[i] in multiset(ps);
      var k :| 0 <= k < |ps| && ps[k] == qs[i];
    }
  }

  lemma HasUserByMultiset(ps: seq<Party>, qs: seq<Party>, u: UserId)
    requires multiset(ps) == multiset(qs)
    ensures HasUser(ps, u) <==> HasUser(qs, u)
  {
    if HasUser(ps, u) {
      var i :| 0 <= i < |ps| && ps[i].user == u;
      assert ps[i] in multiset(qs);
      var k :| 0 <= k < |qs| && qs[k] == ps[i];
    }
    if HasUser(qs, u) {
      var i :| 0 <= i < |qs| && qs[i].user == u;
      assert qs[i] in multiset(ps);
      var k :| 0 <= k < |ps| && ps[k] == qs[i];
    }
  }

  /** A suggested payment: `from` (a debtor) pays `to` (a creditor). */
  datatype Txn = Txn(from: UserId, to: UserId, amount: int)

  /** What the payments hand to `u`. */
  function PaidTo(ts: seq<Txn>, u: UserId): int
  {
    if |ts| == 0 then 0
    else (if ts[0].to == u then ts[0].amount else 0) + PaidTo(ts[1..], u)
  }

  /** What the payments take from `u`. */
  function PaidFrom(ts: seq<Txn>, u: UserId): int
  {
    if |ts| == 0 then 0
    else (if ts[0].from == u then ts[0].amount else 0) + PaidFrom(ts[1..], u)
  }

  lemma {:induction false} PaidAppend(a: seq<Txn>, b: seq<Txn>, u: UserId)
    ensures PaidTo(a + b, u) == PaidTo(a, u) + PaidTo(b, u)
    ensures PaidFrom(a + b, u) == PaidFrom(a, u) + PaidFrom(b, u)
  {
    if |a| > 0 {
      PaidAppend(a[1..], b, u);
      assert (a + b)[1..] == a[1..] + b;
    } else {
      assert a + b == b;
    }
  }

  lemma {:induction false} OwedNonNegative(ps: seq<Party>, u: UserId)
    requires AtLeast(ps, 0)
    ensures Owed(ps, u) >= 0
    ensures Sum(ps) >= 0
  {
    if |ps| > 0 {
      OwedNonNegative(ps[1..], u);
    }
  }

  /** A list of positive amounts adds up to at least its length. */
  lemma {:induction false} SumOfPositives(ps: seq<Party>)
    requires AtLeast(ps, 1)
    ensures Sum(ps) >= |ps|
  {
    if |ps| > 0 {
      SumOfPositives(ps[1..]);
    }
  }
}
