/**
 * The expense record as the balance folds see it.  `calculateSplits()` lives
 * in a model file that is not part of this model, so it is an abstract
 * function `Splitter` from a record to its per-user shares.
 */
module Records {
  import opened Wrappers
  import opened Balances

  datatype Split = Split(user: UserId, amount: int)

  /** One expense or settlement document; amounts are in cents. */
  datatype Expense = Expense(
    description: string,
    amount: int,
    currency: string,
    payer: UserId,
    splitBetween: seq<UserId>,
    splitType: string,
    category: string,
    notes: string,
    isSettlement: bool,
    createdBy: UserId)

  /** `expense.calculateSplits()`, taken as given. */
  type Splitter = Expense -> seq<Split>

  /** What the shares of `ss` charge user `u`, over all entries for `u`. */
  function ShareOf(ss: seq<Split>, u: UserId): int
  {
    if |ss| == 0 then 0
    else (if ss[0].user == u then ss[0].amount else 0) + ShareOf(ss[1..], u)
  }

  /** The sum of all shares. */
  function SplitTotal(ss: seq<Split>): int
  {
    if |ss| == 0 then 0 else ss[0].amount + SplitTotal(ss[1..])
  }

  predicate InSplits(ss: seq<Split>, u: UserId)
  {
    exists i :: 0 <= i < |ss| && ss[i].user == u
  }

  /**
   * The assumption about the unseen split calculator under which money is
   * conserved: the shares of every regular record add up to its amount.
   */
  predicate SplitsBalanced(es: seq<Expense>, splitter: Splitter)
  {
    forall i :: 0 <= i < |es| && !es[i].isSettlement ==> SplitTotal(splitter(es[i])) == es[i].amount
  }

  /** The sum of the amounts of the regular (non-settlement) records. */
  function RegularSpend(es: seq<Expense>): int
  {
    if |es| == 0 then 0
    else (if es[0].isSettlement then 0 else es[0].amount) + RegularSpend(es[1..])
  }

  /** The receiver of a settlement: the first entry of `splitBetween`, if any. */
  function Receiver(e: Expense): Option<UserId>
  {
    if |e.splitBetween| > 0 then Some(e.splitBetween[0]) else None
  }

}
