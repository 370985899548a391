/**
 * Collection vocabulary shared by the server and the client reducers:
 * "only this key changed" on a keyed object, and the order-preserving
 * `Array.prototype.filter` and `findIndex`.
 */
module Collections {
  import opened Wrappers

  /** `a` and `b` agree on every key other than `k`. */
  ghost predicate AgreeExcept<K(!new), V>(a: map<K, V>, b: map<K, V>, k: K)
  {
    forall j :: j != k ==> (j in a <==> j in b) && (j in a ==> a[j] == b[j])
  }

  /** `xs.filter(keep)`: the elements that pass, in their original order. */
  function Filter<T(==,!new)>(xs: seq<T>, keep: T -> bool): (r: seq<T>)
    ensures |r| <= |xs|
    ensures forall x :: x in r <==> x in xs && keep(x)
    ensures (forall i :: 0 <= i < |xs| ==> keep(xs[i])) ==> r == xs
  {
    if |xs| == 0 then []
    else
      assert forall x :: x in xs <==> x == xs[0] || x in xs[1..];
      (if keep(xs[0]) then [xs[0]] else []) + Filter(xs[1..], keep)
  }

  /** Filtering distributes over concatenation, so the survivors keep their order. */
  lemma {:induction false} FilterAppend<T(!new)>(a: seq<T>, b: seq<T>, keep: T -> bool)
    ensures Filter(a + b, keep) == Filter(a, keep) + Filter(b, keep)
  {
    if |a| == 0 {
      assert a + b == b;
    } else {
      assert (a + b)[0] == a[0];
      assert (a + b)[1..] == a[1..] + b;
      FilterAppend(a[1..], b, keep);
    }
  }

  /** Filtering twice with the same test filters once. */
  lemma FilterIdempotent<T(!new)>(xs: seq<T>, keep: T -> bool)
    ensures Filter(Filter(xs, keep), keep) == Filter(xs, keep)
  {
    var r := Filter(xs, keep);
    assert forall i :: 0 <= i < |r| ==> r[i] in r;
  }

  /** `xs.findIndex(p)`: the first position passing the test, or none (-1). */
  function FindIndex<T>(xs: seq<T>, p: T -> bool): (r: Option<nat>)
    ensures r.None? <==> forall i :: 0 <= i < |xs| ==> !p(xs[i])
    ensures r.Some? ==> r.value < |xs| && p(xs[r.value])
    ensures r.Some? ==> forall j :: 0 <= j < r.value ==> !p(xs[j])
  {
    if |xs| == 0 then None
    else if p(xs[0]) then Some(0)
    else
      match FindIndex(xs[1..], p)
      case None => None
      case Some(k) => Some(k + 1)
  }

  /**
   * Replacing the first match by another element that passes the test
   * keeps that position the first match.
   */
  lemma FindIndexAfterReplace<T>(xs: seq<T>, p: T -> bool, x: T)
    requires FindIndex(xs, p).Some? && p(x)
    ensures FindIndex(xs[FindIndex(xs, p).value := x], p) == FindIndex(xs, p)
  {
    var k := FindIndex(xs, p).value;
    var ys := xs[k := x];
    assert p(ys[k]);
    assert forall j :: 0 <= j < k ==> ys[j] == xs[j];
  }
}
