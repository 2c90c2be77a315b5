/** Sums over the elements of a sequence, for counting threads and for measures, and lists of
    positions in a sequence. */
module Totals {

  predicate Increasing(at: seq<nat>) {
    forall m, n :: 0 <= m < n < |at| ==> at[m] < at[n]
  }

  function Sum<T>(ts: seq<T>, w: T -> nat): nat {
    if ts == [] then 0 else w(ts[0]) + Sum(ts[1..], w)
  }

  lemma {:induction false} OneMore(before: set<nat>, all: set<nat>, last: nat, chosen: bool)
    requires last !in before && forall i :: i in all <==> i in before || (chosen && i == last)
    ensures |all| == |before| + (if chosen then 1 else 0)
  {
    assert all == if chosen then before + {last} else before;
  }

  lemma {:induction false} SumUpdate<T>(ts: seq<T>, i: nat, t: T, w: T -> nat)
    requires i < |ts|
    ensures Sum(ts[i := t], w) == Sum(ts, w) - w(ts[i]) + w(t)
  {
    if i == 0 {
      assert ts[i := t][1..] == ts[1..];
    } else {
      SumUpdate(ts[1..], i - 1, t, w);
      assert ts[i := t][1..] == ts[1..][i - 1 := t];
    }
  }

  lemma {:induction false} SumAppend<T>(ts: seq<T>, t: T, w: T -> nat)
    ensures Sum(ts + [t], w) == Sum(ts, w) + w(t)
  {
    if ts != [] {
      SumAppend(ts[1..], t, w);
      assert (ts + [t])[1..] == ts[1..] + [t];
    }
  }

  /** Pointwise comparison carries over to the sums, with room for a fixed excess per element. */
  lemma {:induction false} SumMonotone<T>(ts: seq<T>, us: seq<T>, w: T -> nat, slack: nat)
    requires |ts| == |us|
    requires forall i :: 0 <= i < |ts| ==> w(ts[i]) <= w(us[i]) + slack
    ensures Sum(ts, w) <= Sum(us, w) + slack * |ts|
  {
    if ts != [] {
      SumMonotone(ts[1..], us[1..], w, slack);
      assert slack * |ts| == slack + slack * |ts[1..]|;
    }
  }

  lemma {:induction false} SumStrict<T>(ts: seq<T>, us: seq<T>, w: T -> nat, k: nat)
    requires |ts| == |us| && k < |ts|
    requires forall i :: 0 <= i < |ts| ==> w(ts[i]) <= w(us[i])
    requires w(ts[k]) < w(us[k])
    ensures Sum(ts, w) < Sum(us, w)
  {
    SumMonotone(ts, us[k := ts[k]], w, 0);
    SumUpdate(us, k, ts[k], w);
  }

  lemma {:induction false} SumZero<T>(ts: seq<T>, w: T -> nat)
    requires forall i :: 0 <= i < |ts| ==> w(ts[i]) == 0
    ensures Sum(ts, w) == 0
  {
    if ts != [] {
      SumZero(ts[1..], w);
    }
  }

  lemma {:induction false} SumAtLeast<T>(ts: seq<T>, k: nat, w: T -> nat)
    requires k < |ts|
    ensures w(ts[k]) <= Sum(ts, w)
  {
    if k > 0 {
      SumAtLeast(ts[1..], k - 1, w);
    }
  }
}
