/** Weighted totals over sequences, the counting that the protocol invariants share, and repeated steps. */
module Sums {

  function Total<T>(xs: seq<T>, w: T -> nat): (n: nat) {
    if xs == [] then 0 else Total(xs[..|xs| - 1], w) + w(xs[|xs| - 1])
  }

  lemma TotalAppend<T>(xs: seq<T>, x: T, w: T -> nat)
    ensures Total(xs + [x], w) == Total(xs, w) + w(x)
  {
    assert (xs + [x])[..|xs|] == xs;
  }

  lemma {:induction false} TotalUpdate<T>(xs: seq<T>, i: nat, x: T, w: T -> nat)
    requires i < |xs|
    ensures Total(xs[i := x], w) + w(xs[i]) == Total(xs, w) + w(x)
  {
    var n := |xs| - 1;
    if i == n {
      assert xs[i := x][..n] == xs[..n];
    } else {
      assert xs[i := x][..n] == xs[..n][i := x];
      TotalUpdate(xs[..n], i, x, w);
    }
  }

  lemma {:induction false} TotalMonotone<T>(xs: seq<T>, v: T -> nat, w: T -> nat)
    requires forall i :: 0 <= i < |xs| ==> v(xs[i]) <= w(xs[i])
    ensures Total(xs, v) <= Total(xs, w)
  {
    if xs != [] {
      TotalMonotone(xs[..|xs| - 1], v, w);
    }
  }

  lemma {:induction false} TotalSplit<T>(xs: seq<T>, u: T -> nat, v: T -> nat, w: T -> nat)
    requires forall i :: 0 <= i < |xs| ==> u(xs[i]) == v(xs[i]) + w(xs[i])
    ensures Total(xs, u) == Total(xs, v) + Total(xs, w)
  {
    if xs != [] {
      TotalSplit(xs[..|xs| - 1], u, v, w);
    }
  }

  lemma {:induction false} TotalScaled<T>(xs: seq<T>, v: T -> nat, w: T -> nat, c: nat)
    requires forall i :: 0 <= i < |xs| ==> v(xs[i]) <= w(xs[i]) * c
    ensures Total(xs, v) <= Total(xs, w) * c
  {
    if xs != [] {
      TotalScaled(xs[..|xs| - 1], v, w, c);
    }
  }

  lemma {:induction false} TotalZero<T>(xs: seq<T>, w: T -> nat)
    ensures Total(xs, w) == 0 <==> forall i :: 0 <= i < |xs| ==> w(xs[i]) == 0
  {
    if xs != [] {
      var ys := xs[..|xs| - 1];
      TotalZero(ys, w);
      assert forall i :: 0 <= i < |ys| ==> ys[i] == xs[i];
    }
  }

  lemma {:induction false} TotalAtLeast<T>(xs: seq<T>, i: nat, w: T -> nat)
    requires i < |xs|
    ensures w(xs[i]) <= Total(xs, w)
  {
    if i < |xs| - 1 {
      TotalAtLeast(xs[..|xs| - 1], i, w);
    }
  }

  lemma {:induction false} TotalOfTwo<T>(xs: seq<T>, i: nat, j: nat, w: T -> nat)
    requires i < j < |xs|
    ensures w(xs[i]) + w(xs[j]) <= Total(xs, w)
  {
    if j < |xs| - 1 {
      TotalOfTwo(xs[..|xs| - 1], i, j, w);
    } else {
      TotalAtLeast(xs[..|xs| - 1], i, w);
    }
  }

  // ---- repeated steps ----

  function Repeat<S>(f: S -> S, s: S, n: nat): (r: S) {
    if n == 0 then s else f(Repeat(f, s, n - 1))
  }

  lemma {:induction false} RepeatFurther<S>(f: S -> S, s: S, j: nat, m: S, k: nat)
    requires Repeat(f, s, j) == m
    ensures Repeat(f, s, j + k) == Repeat(f, m, k)
  {
    if k > 0 { RepeatFurther(f, s, j, m, k - 1); }
  }
}
