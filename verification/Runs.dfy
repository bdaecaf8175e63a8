// Runs of a step system, and the one induction every invariant in this project needs.
module Runs {

  ghost predicate Run<S(!new)>(init: S -> bool, next: (S, S) -> bool, tr: seq<S>) {
    && |tr| > 0
    && init(tr[0])
    && forall k | 0 <= k < |tr| - 1 :: next(tr[k], tr[k + 1])
  }

  // One more step of a run.
  lemma OneMore<S(!new)>(init: S -> bool, next: (S, S) -> bool, tr: seq<S>, s: S)
    requires Run(init, next, tr) && next(tr[|tr| - 1], s)
    ensures Run(init, next, tr + [s])
  {
    var longer := tr + [s];
    forall k | 0 <= k < |longer| - 1 ensures next(longer[k], longer[k + 1]) {
      if k < |tr| - 1 { assert next(tr[k], tr[k + 1]); }
    }
  }

  // Three more steps of a run.
  lemma Longer<S(!new)>(init: S -> bool, next: (S, S) -> bool, tr: seq<S>, a: S, b: S, c: S)
    requires Run(init, next, tr) && next(tr[|tr| - 1], a) && next(a, b) && next(b, c)
    ensures Run(init, next, tr + [a, b, c])
  {
    var longer := tr + [a, b, c];
    forall k | 0 <= k < |longer| - 1 ensures next(longer[k], longer[k + 1]) {
      if k < |tr| - 1 { assert next(tr[k], tr[k + 1]); }
    }
  }

  ghost predicate Inductive<S(!new)>(init: S -> bool, next: (S, S) -> bool, inv: S -> bool) {
    && (forall s | init(s) :: inv(s))
    && (forall s, s' | inv(s) && next(s, s') :: inv(s'))
  }

  lemma {:induction false} Always<S(!new)>(init: S -> bool, next: (S, S) -> bool, inv: S -> bool, tr: seq<S>)
    requires Run(init, next, tr) && Inductive(init, next, inv)
    ensures forall k | 0 <= k < |tr| :: inv(tr[k])
  {
    if |tr| > 1 {
      var pre := tr[..|tr| - 1];
      Always(init, next, inv, pre);
      forall k | 0 <= k < |tr| ensures inv(tr[k]) {
        if k == |tr| - 1 {
          assert inv(pre[k - 1]) && next(tr[k - 1], tr[k - 1 + 1]);
        } else {
          assert pre[k] == tr[k];
        }
      }
    }
  }
}
