/** Adding up over the goroutines or threads of a machine. */
module Counting {

  function If(b: bool): nat {
    if b then 1 else 0
  }

  function Sum<T>(f: T -> nat, xs: seq<T>): nat {
    if xs == [] then 0 else Sum(f, xs[..|xs| - 1]) + f(xs[|xs| - 1])
  }

  lemma {:induction false} SumUpdate<T>(f: T -> nat, xs: seq<T>, i: nat, x: T)
    requires i < |xs|
    ensures Sum(f, xs[i := x]) + f(xs[i]) == Sum(f, xs) + f(x)
  {
    var n := |xs| - 1;
    if i == n {
      assert xs[i := x][..n] == xs[..n];
    } else {
      assert xs[i := x][..n] == xs[..n][i := x];
      SumUpdate(f, xs[..n], i, x);
    }
  }

  lemma SumAppend<T>(f: T -> nat, xs: seq<T>, x: T)
    ensures Sum(f, xs + [x]) == Sum(f, xs) + f(x)
  {
    assert (xs + [x])[..|xs|] == xs;
  }

  lemma {:induction false} SumNone<T>(f: T -> nat, xs: seq<T>)
    requires forall i :: 0 <= i < |xs| ==> f(xs[i]) == 0
    ensures Sum(f, xs) == 0
  {
    if xs != [] { SumNone(f, xs[..|xs| - 1]); }
  }

  lemma {:induction false} SumLe<T>(f: T -> nat, g: T -> nat, xs: seq<T>)
    requires forall i :: 0 <= i < |xs| ==> f(xs[i]) <= g(xs[i])
    ensures Sum(f, xs) <= Sum(g, xs)
  {
    if xs != [] { SumLe(f, g, xs[..|xs| - 1]); }
  }

  /** Where each counts at most once, one that does not count leaves the sum below the number of them. */
  lemma {:induction false} SumBelow<T>(f: T -> nat, xs: seq<T>, i: nat)
    requires i < |xs| && forall x :: f(x) <= 1
    ensures Sum(f, xs) <= |xs| - 1 + f(xs[i])
  {
    var n := |xs| - 1;
    if i == n { SumAtMost(f, xs[..n]); } else { SumBelow(f, xs[..n], i); }
  }

  lemma {:induction false} SumAtMost<T>(f: T -> nat, xs: seq<T>)
    requires forall x :: f(x) <= 1
    ensures Sum(f, xs) <= |xs|
  {
    if xs != [] { SumAtMost(f, xs[..|xs| - 1]); }
  }
}
