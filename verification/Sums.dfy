// Adding up a quantity over a sequence of calls.
module Sums {

  function Total<T>(s: seq<T>, f: T -> nat): nat {
    if s == [] then 0 else Total(s[..|s| - 1], f) + f(s[|s| - 1])
  }

  lemma {:induction false} TotalUpdate<T>(s: seq<T>, f: T -> nat, i: nat, x: T)
    requires i < |s|
    ensures Total(s[i := x], f) == Total(s, f) - f(s[i]) + f(x)
  {
    var n := |s| - 1;
    if i < n {
      assert s[i := x][..n] == s[..n][i := x];
      TotalUpdate(s[..n], f, i, x);
    } else {
      assert s[i := x][..n] == s[..n];
    }
  }

  // Pointwise comparison of two sequences under one quantity.
  lemma {:induction false} TotalSame<T>(a: seq<T>, b: seq<T>, f: T -> nat)
    requires |a| == |b| && forall i | 0 <= i < |a| :: f(a[i]) == f(b[i])
    ensures Total(a, f) == Total(b, f)
  {
    if a != [] { TotalSame(a[..|a| - 1], b[..|b| - 1], f); }
  }

  // Pointwise comparison of two quantities over one sequence.
  lemma {:induction false} TotalMonotone<T>(s: seq<T>, f: T -> nat, g: T -> nat)
    requires forall i | 0 <= i < |s| :: f(s[i]) <= g(s[i])
    ensures Total(s, f) <= Total(s, g)
  {
    if s != [] { TotalMonotone(s[..|s| - 1], f, g); }
  }

  lemma TotalAgree<T>(s: seq<T>, f: T -> nat, g: T -> nat)
    requires forall i | 0 <= i < |s| :: f(s[i]) == g(s[i])
    ensures Total(s, f) == Total(s, g)
  {
    TotalMonotone(s, f, g);
    TotalMonotone(s, g, f);
  }

  lemma {:induction false} TotalZero<T>(s: seq<T>, f: T -> nat)
    requires forall i | 0 <= i < |s| :: f(s[i]) == 0
    ensures Total(s, f) == 0
  {
    if s != [] { TotalZero(s[..|s| - 1], f); }
  }
}
