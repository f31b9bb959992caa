/** Things spelled one after the other in a stream: each starts at the bit where
    the one before it ends. */
module Chains {

  /** step(a, x, b): x is spelled by the bits from a up to b. */
  type Step<!T> = (nat, T, nat) -> bool

  /** The bits from a up to b spell the things one after the other. */
  ghost predicate Chain<T(!new)>(step: Step<T>, a: nat, xs: seq<T>, b: nat)
    decreases |xs|, 1
  {
    if xs == [] then a == b else exists m: nat :: ChainTo(step, a, xs, m, b)
  }

  ghost predicate ChainTo<T(!new)>(step: Step<T>, a: nat, xs: seq<T>, m: nat, b: nat)
    requires xs != []
    decreases |xs|, 0
  {
    Chain(step, a, xs[..|xs| - 1], m) && step(m, xs[|xs| - 1], b)
  }

  lemma ChainMore<T(!new)>(step: Step<T>, a: nat, xs: seq<T>, m: nat, x: T, b: nat)
    requires Chain(step, a, xs, m) && step(m, x, b)
    ensures Chain(step, a, xs + [x], b)
  {
    var more := xs + [x];
    assert more[..|more| - 1] == xs;
    assert ChainTo(step, a, more, m, b);
  }

  /** Nothing is spelled in two ways, and spelling moves on. */
  ghost predicate Exact<T(!new)>(step: Step<T>) {
    && (forall a: nat, x: T, b: nat :: step(a, x, b) ==> a <= b)
    && (forall a: nat, x: T, b: nat, y: T, c: nat :: step(a, x, b) && step(a, y, c) ==> x == y && b == c)
  }

  /** Two chains from the same bit agree as far as both go, and the longer one
      goes on where the shorter one ends. */
  lemma {:induction false} ChainsAgree<T(!new)>(step: Step<T>, a: nat, xs: seq<T>, b: nat, ys: seq<T>, c: nat)
    requires Exact(step) && Chain(step, a, xs, b) && Chain(step, a, ys, c) && |xs| <= |ys|
    ensures xs == ys[..|xs|] && b <= c
    ensures |xs| == |ys| ==> b == c
    ensures |xs| < |ys| ==> exists d: nat :: step(b, ys[|xs|], d) && d <= c
    decreases |ys|
  {
    if ys != [] {
      var front := ys[..|ys| - 1];
      var m: nat :| ChainTo(step, a, ys, m, c);
      if |xs| == |ys| {
        var n: nat :| ChainTo(step, a, xs, n, b);
        ChainsAgree(step, a, xs[..|xs| - 1], n, front, m);
        assert xs == xs[..|xs| - 1] + [xs[|xs| - 1]];
      } else {
        ChainsAgree(step, a, xs, b, front, m);
        assert front[..|xs|] == ys[..|xs|];
        if |xs| < |front| {
          var d: nat :| step(b, front[|xs|], d) && d <= m;
          assert step(b, ys[|xs|], d) && d <= c;
        }
      }
    }
  }

  /** Nothing at all is spelled from bit a on. */
  ghost predicate Stuck<T(!new)>(step: Step<T>, a: nat) {
    forall x: T, b: nat :: !step(a, x, b)
  }

  /** No chain gets past the bit where one is stuck. */
  lemma NotPastStuck<T(!new)>(step: Step<T>, a: nat, xs: seq<T>, b: nat, ys: seq<T>, c: nat)
    requires Exact(step) && Chain(step, a, xs, b) && Stuck(step, b) && Chain(step, a, ys, c)
    ensures |ys| <= |xs| && ys == xs[..|ys|] && c <= b
    ensures |ys| == |xs| ==> c == b
    ensures |ys| < |xs| ==> !Stuck(step, c)
  {
    if |xs| < |ys| {
      ChainsAgree(step, a, xs, b, ys, c);
    } else {
      ChainsAgree(step, a, ys, c, xs, b);
    }
  }
}
