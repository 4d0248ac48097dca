/** Which refs a list binds to constants, said of the list and computed along it. */
module KnownConsts {
  import opened Words
  import opened Scalar
  import opened Ir

  type Consts = map<Ref, U64>

  predicate SetsConst(s: Stmt, r: Ref) { s.result == Some(r) && s.op.Constant? }

  function ConstOf(s: Stmt): U64
    requires s.op.Constant?
  {
    MaskToSize(s.op.value, s.op.size)
  }

  /** Among the first `n` statements, `i` is the last to set `r` to a constant. */
  ghost predicate LastSet(stmts: seq<Stmt>, n: nat, r: Ref, i: nat) {
    && i < n <= |stmts| && SetsConst(stmts[i], r)
    && forall h :: i < h < n ==> !SetsConst(stmts[h], r)
  }

  /** The first `n` statements leave `r` as the constant `v`. */
  ghost predicate KnownAs(stmts: seq<Stmt>, n: nat, r: Ref, v: U64) {
    exists i: nat :: LastSet(stmts, n, r, i) && ConstOf(stmts[i]) == v
  }

  ghost predicate IsKnown(stmts: seq<Stmt>, n: nat, r: Ref) { exists v :: KnownAs(stmts, n, r, v) }

  function Noted(consts: Consts, s: Stmt): Consts {
    if s.result.Some? && s.op.Constant? then consts[s.result.value := ConstOf(s)] else consts
  }

  function ConstsOf(stmts: seq<Stmt>, n: nat): Consts
    requires n <= |stmts|
  {
    if n == 0 then map[] else Noted(ConstsOf(stmts, n - 1), stmts[n - 1])
  }

  lemma LastSetNext(stmts: seq<Stmt>, n: nat, r: Ref, i: nat)
    requires n < |stmts|
    ensures LastSet(stmts, n + 1, r, i) <==>
      if SetsConst(stmts[n], r) then i == n else LastSet(stmts, n, r, i)
  {
  }

  lemma {:induction false} ConstsExact(stmts: seq<Stmt>, n: nat, r: Ref)
    requires n <= |stmts|
    ensures forall v :: KnownAs(stmts, n, r, v) <==> r in ConstsOf(stmts, n) && ConstsOf(stmts, n)[r] == v
    ensures r in ConstsOf(stmts, n) <==> IsKnown(stmts, n, r)
    decreases n
  {
    if n > 0 {
      ConstsExact(stmts, n - 1, r);
      forall v ensures KnownAs(stmts, n, r, v) <==> r in ConstsOf(stmts, n) && ConstsOf(stmts, n)[r] == v {
        KnownNext(stmts, n, r, v);
      }
    }
    if r in ConstsOf(stmts, n) { assert KnownAs(stmts, n, r, ConstsOf(stmts, n)[r]); }
  }

  lemma KnownNext(stmts: seq<Stmt>, n: nat, r: Ref, v: U64)
    requires 0 < n <= |stmts|
    ensures KnownAs(stmts, n, r, v) <==>
      if SetsConst(stmts[n - 1], r) then v == ConstOf(stmts[n - 1]) else KnownAs(stmts, n - 1, r, v)
  {
    if SetsConst(stmts[n - 1], r) { LastSetNext(stmts, n - 1, r, n - 1); }
    if i: nat :| LastSet(stmts, n, r, i) && ConstOf(stmts[i]) == v { LastSetNext(stmts, n - 1, r, i); }
    var k := n - 1;
    if i: nat :| LastSet(stmts, k, r, i) && ConstOf(stmts[i]) == v { LastSetNext(stmts, k, r, i); }
  }

  /** Only the statements up to there matter. */
  lemma {:induction false} ConstsPrefix(stmts: seq<Stmt>, more: seq<Stmt>, n: nat)
    requires n <= |stmts| && n <= |more| && forall i :: 0 <= i < n ==> more[i] == stmts[i]
    ensures ConstsOf(more, n) == ConstsOf(stmts, n)
    decreases n
  {
    if n > 0 { ConstsPrefix(stmts, more, n - 1); }
  }
}
