/**
 * The balance map of the ledger: a JavaScript `Map` from user id to a signed
 * amount in cents, kept in insertion order.  It is an association list whose
 * first entry for a user is the one that counts.  Reading a missing user gives
 * 0, as the source's `balanceMap.get(id) || 0` does.
 */
module Balances {

  type UserId = string

  datatype Entry = Entry(user: UserId, amount: int)

  type BalanceMap = seq<Entry>

  /** True iff some entry belongs to `u` (`Map.prototype.has`). */
  predicate Has(m: BalanceMap, u: UserId)
  {
    |m| > 0 && (m[0].user == u || Has(m[1..], u))
  }

  /** The amount stored for `u`, or 0 when there is none (`get(u) || 0`). */
  function Get(m: BalanceMap, u: UserId): int
  {
    if |m| == 0 then 0
    else if m[0].user == u then m[0].amount
    else Get(m[1..], u)
  }

  /** No user has two entries: every map the source builds has this shape. */
  predicate Distinct(m: BalanceMap)
  {
    |m| == 0 || (!Has(m[1..], m[0].user) && Distinct(m[1..]))
  }

  /** The sum of all stored amounts. */
  function Total(m: BalanceMap): int
  {
    if |m| == 0 then 0 else m[0].amount + Total(m[1..])
  }

  lemma HasIndex(m: BalanceMap, u: UserId)
    ensures Has(m, u) <==> exists i :: 0 <= i < |m| && m[i].user == u
  {
    if |m| > 0 {
      HasIndex(m[1..], u);
      if !Has(m, u) {
        forall i | 0 <= i < |m| ensures m[i].user != u {
          if i > 0 { assert m[i] == m[1..][i - 1]; }
        }
      } else if m[0].user != u {
        var i :| 0 <= i < |m[1..]| && m[1..][i].user == u;
        assert m[i + 1].user == u;
      }
    }
  }

  /**
   * `Map.prototype.set`: overwrite the value of `u` in place, or append a new
   * entry at the end of the insertion order when `u` is new.
   */
  function Set(m: BalanceMap, u: UserId, v: int): (r: BalanceMap)
    ensures Get(r, u) == v
    ensures forall w :: w != u ==> Get(r, w) == Get(m, w)
    ensures forall w :: Has(r, w) <==> Has(m, w) || w == u
    ensures Has(m, u) ==> |r| == |m|
    ensures !Has(m, u) ==> r == m + [Entry(u, v)]
    ensures Total(r) == Total(m) - Get(m, u) + v
    ensures Distinct(m) ==> Distinct(r)
  {
    if |m| == 0 then [Entry(u, v)]
    else if m[0].user == u then [Entry(u, v)] + m[1..]
    else
      var rest := Set(m[1..], u, v);
      assert ([m[0]] + rest)[1..] == rest;
      [m[0]] + rest
  }

  /** `set(u, (get(u) || 0) + d)`: the update every balance fold performs. */
  function Add(m: BalanceMap, u: UserId, d: int): (r: BalanceMap)
    ensures Get(r, u) == Get(m, u) + d
    ensures forall w :: w != u ==> Get(r, w) == Get(m, w)
    ensures forall w :: Has(r, w) <==> Has(m, w) || w == u
    ensures Total(r) == Total(m) + d
    ensures Distinct(m) ==> Distinct(r)
  {
    Set(m, u, Get(m, u) + d)
  }

  /** The entries of `m` in insertion order, each user once (for `Distinct` maps). */
  function Users(m: BalanceMap): (r: seq<UserId>)
    ensures |r| == |m|
    ensures forall i :: 0 <= i < |m| ==> r[i] == m[i].user
  {
    seq(|m|, i requires 0 <= i < |m| => m[i].user)
  }
}
