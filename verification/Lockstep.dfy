/** Two deterministic machines that agree on an invariant they keep. */
module Lockstep {
  /** At most `n` turns, stopping when the machine is not ready for another. */
  function RunWhile<S>(ready: S -> bool, turn: S -> S, st: S, n: nat): S
    decreases n
  {
    if n == 0 || !ready(st) then st else RunWhile(ready, turn, turn(st), n - 1)
  }

  ghost predicate Agree<S(!new)>(inv: S -> bool, ready1: S -> bool, turn1: S -> S, ready2: S -> bool, turn2: S -> S) {
    forall s {:trigger inv(s)} :: inv(s) ==>
      ready1(s) == ready2(s) && (ready1(s) ==> turn1(s) == turn2(s) && inv(turn1(s)))
  }

  lemma {:induction false} SameRuns<S(!new)>(inv: S -> bool, ready1: S -> bool, turn1: S -> S,
                                             ready2: S -> bool, turn2: S -> S, st: S, n: nat)
    requires Agree(inv, ready1, turn1, ready2, turn2) && inv(st)
    ensures RunWhile(ready1, turn1, st, n) == RunWhile(ready2, turn2, st, n)
    decreases n
  {
    if n > 0 && ready1(st) {
      SameRuns(inv, ready1, turn1, ready2, turn2, turn1(st), n - 1);
    }
  }

  /** The first `n` items applied in turn. */
  function Folded<S, A>(step: (A, S) -> S, xs: seq<A>, n: nat, st: S): S
    requires n <= |xs|
    decreases n
  {
    if n == 0 then st else step(xs[n - 1], Folded(step, xs, n - 1, st))
  }

  ghost predicate Turns<S(!new), A(!new)>(step: (A, S) -> S, xs: seq<A>, ys: seq<A>, inv: (nat, S) -> bool)
    requires |ys| == |xs|
  {
    forall i: nat, s {:trigger inv(i, s)} :: i < |xs| && inv(i, s) ==>
      step(ys[i], s) == step(xs[i], s) && inv(i + 1, step(xs[i], s))
  }

  /** Two lists whose items agree under an invariant that either list keeps. */
  lemma {:induction false} SameFold<S(!new), A(!new)>(step: (A, S) -> S, xs: seq<A>, ys: seq<A>,
                                                      inv: (nat, S) -> bool, n: nat, st: S)
    requires |ys| == |xs| && n <= |xs| && inv(0, st) && Turns(step, xs, ys, inv)
    ensures Folded(step, ys, n, st) == Folded(step, xs, n, st) && inv(n, Folded(step, xs, n, st))
    decreases n
  {
    if n > 0 {
      SameFold(step, xs, ys, inv, n - 1, st);
      var s := Folded(step, xs, n - 1, st);
      assert inv(n - 1, s);
      assert inv(n - 1 + 1, step(xs[n - 1], s));
    }
  }
}
