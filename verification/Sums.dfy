/** Sums over a sequence, one term for each element. */
module Sums {

  function Total<T>(ts: seq<T>, f: T -> int): int {
    if |ts| == 0 then 0 else Total(ts[..|ts| - 1], f) + f(ts[|ts| - 1])
  }

  lemma {:induction false} TotalUpdate<T>(ts: seq<T>, i: nat, x: T, f: T -> int)
    requires i < |ts|
    ensures Total(ts[i := x], f) == Total(ts, f) - f(ts[i]) + f(x)
  {
    var k := |ts| - 1;
    if i < k {
      TotalUpdate(ts[..k], i, x, f);
      assert ts[i := x][..k] == ts[..k][i := x];
    } else {
      assert ts[i := x][..k] == ts[..k];
    }
  }

  lemma {:induction false} TotalAtMost<T>(ts: seq<T>, f: T -> int, g: T -> int)
    requires forall t :: 0 <= t < |ts| ==> f(ts[t]) <= g(ts[t])
    ensures Total(ts, f) <= Total(ts, g)
  {
    if |ts| > 0 {
      TotalAtMost(ts[..|ts| - 1], f, g);
    }
  }

  lemma {:induction false} TotalMinus<T>(ts: seq<T>, f: T -> int, g: T -> int, h: T -> int)
    requires forall t :: 0 <= t < |ts| ==> h(ts[t]) == f(ts[t]) - g(ts[t])
    ensures Total(ts, h) == Total(ts, f) - Total(ts, g)
  {
    if |ts| > 0 {
      TotalMinus(ts[..|ts| - 1], f, g, h);
    }
  }

  lemma {:induction false} TotalZero<T>(ts: seq<T>, f: T -> int)
    requires forall t :: 0 <= t < |ts| ==> f(ts[t]) == 0
    ensures Total(ts, f) == 0
  {
    if |ts| > 0 {
      TotalZero(ts[..|ts| - 1], f);
    }
  }

  // One term is at most the sum of terms that are not negative.
  lemma {:induction false} TotalHas<T>(ts: seq<T>, i: nat, f: T -> int)
    requires i < |ts| && forall t :: 0 <= t < |ts| ==> f(ts[t]) >= 0
    ensures Total(ts, f) >= f(ts[i])
    ensures Total(ts, f) >= 0
  {
    var k := |ts| - 1;
    if i < k {
      TotalHas(ts[..k], i, f);
    } else if k > 0 {
      TotalHas(ts[..k], 0, f);
    }
  }
}
