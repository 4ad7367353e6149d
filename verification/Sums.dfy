/** Weighted sums over the slots of a table. */
module Sums {

  function Sum<T>(q: seq<T>, w: T -> int): int {
    if q == [] then 0 else w(q[0]) + Sum(q[1..], w)
  }

  lemma {:induction false} SumUpdate<T>(q: seq<T>, k: nat, e: T, w: T -> int)
    requires k < |q|
    ensures Sum(q[k := e], w) == Sum(q, w) - w(q[k]) + w(e)
  {
    var r := q[k := e];
    if k == 0 {
      assert r[1..] == q[1..];
    } else {
      SumUpdate(q[1..], k - 1, e, w);
      assert r[1..] == q[1..][k - 1 := e];
    }
  }

  lemma {:induction false} SumAtLeast<T>(q: seq<T>, k: nat, w: T -> int)
    requires k < |q| && forall i | 0 <= i < |q| :: w(q[i]) >= 0
    ensures 0 <= w(q[k]) <= Sum(q, w)
  {
    var rest := q[1..];
    assert forall i | 0 <= i < |rest| :: rest[i] == q[i + 1];
    if k > 0 {
      SumAtLeast(rest, k - 1, w);
    } else if rest != [] {
      SumAtLeast(rest, 0, w);
    }
  }

  lemma {:induction false} SumOfZeros<T>(q: seq<T>, w: T -> int)
    requires forall i | 0 <= i < |q| :: w(q[i]) == 0
    ensures Sum(q, w) == 0
  {
    if q != [] { SumOfZeros(q[1..], w); }
  }
}
