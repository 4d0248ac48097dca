/** `algebraic_simplify`. */
module Algebraic {
  import opened Words
  import opened Arith
  import opened Identities
  import opened Scalar
  import opened Ir
  import opened Validate
  import ConstProp
  import K = KnownConsts

  type Consts = ConstProp.Consts

  function AllOnes(s: OpSize): U64 { Range(s) - 1 }

  predicate Is(consts: Consts, r: Ref, v: U64) { r in consts && consts[r] == v }

  predicate IsMulHi(k: BinOpKind) { k.UMulHi? || k.SMulHi? }
  predicate IsMod(k: BinOpKind) { k.UMod? || k.SMod? }
  predicate IsDiv(k: BinOpKind) { k.UDiv? || k.SDiv? }

  /** The constant the expression always has, when an identity applies. */
  function TrySimplify(consts: Consts, k: BinOpKind, a: Ref, b: Ref, s: OpSize): Option<U64> {
    if a == b && (k.Sub? || k.Xor_?) then Some(0)
    else if (k.Mul? || k.And_?) && Is(consts, b, 0) then Some(0)
    else if k.Or_? && Is(consts, b, AllOnes(s)) then Some(AllOnes(s))
    else if IsMulHi(k) && Is(consts, b, 0) then Some(0)
    else if k.UMulHi? && Is(consts, b, 1) then Some(0)
    else if IsMod(k) && Is(consts, b, 1) then Some(0)
    else if (k.Mul? || k.And_?) && Is(consts, a, 0) then Some(0)
    else if k.Or_? && Is(consts, a, AllOnes(s)) then Some(AllOnes(s))
    else if (IsMulHi(k) || IsDiv(k) || IsMod(k)) && Is(consts, a, 0) then Some(0)
    else None
  }

  function Simplified(consts: Consts, op: Op): Option<U64> {
    if op.BinOp? then TrySimplify(consts, op.kind, op.lhs, op.rhs, op.size) else None
  }

  function Rewritten(consts: Consts, s: Stmt): Stmt {
    if s.result.Some? && Simplified(consts, s.op).Some?
    then Stmt(s.result, Constant(Simplified(consts, s.op).value, s.op.size))
    else s
  }

  function Learned(consts: Consts, s: Stmt): Consts {
    if s.result.None? then consts
    else if s.op.Constant? then consts[s.result.value := MaskToSize(s.op.value, s.op.size)]
    else if Simplified(consts, s.op).Some?
    then consts[s.result.value := MaskToSize(Simplified(consts, s.op).value, s.op.size)]
    else consts
  }

  // ------------------------------------------------------------------
  // Soundness of one statement.
  // ------------------------------------------------------------------

  lemma OnesStay(a: U64, s: OpSize)
    ensures MaskToSize(EvalBinOp(Or_, a, AllOnes(s)), s) == AllOnes(s)
    ensures MaskToSize(EvalBinOp(Or_, AllOnes(s), a), s) == AllOnes(s)
  {
    Pow2Values();
    OrAllOnes(a, BitWidth(s));
  }

  /** Every identity is true of the values the operands hold. */
  lemma SimplifyIsResult(consts: Consts, op: Op, st: State)
    requires ConstProp.Known(consts, st) && Simplified(consts, op).Some?
    ensures ResultOf(op, st) == Simplified(consts, op).value < Range(op.size)
  {
    var k, a, b := op.kind, st.Val(op.lhs), st.Val(op.rhs);
    if op.lhs == op.rhs && (k.Sub? || k.Xor_?) { SelfIsZero(k, a); return; }
    if k.Or_? { OnesStay(a, op.size); OnesStay(b, op.size); return; }
    if b == 0 && (k.Mul? || k.And_? || IsMulHi(k)) { RightZero(k, a); }
    if b == 1 && (k.UMulHi? || IsMod(k)) { RightOne(k, a); }
    if a == 0 && (k.Mul? || k.And_? || IsMulHi(k) || IsDiv(k) || IsMod(k)) { LeftZero(k, b); }
  }

  lemma RewrittenStep(consts: Consts, s: Stmt, st: State)
    requires ConstProp.Known(consts, st)
    ensures Step(Rewritten(consts, s), st) == Step(s, st)
  {
    if s.result.Some? && Simplified(consts, s.op).Some? {
      SimplifyIsResult(consts, s.op, st);
      ConstProp.Remask(Simplified(consts, s.op).value, s.op.size);
    }
  }

  lemma KnownLearned(consts: Consts, c: Ctx, s: Stmt, st: State)
    requires ConstProp.Known(consts, st) && consts.Keys <= c.Keys && DefsOk(c, s)
    requires st.ctl.Running? && Step(s, st).ctl.Running?
    ensures ConstProp.Known(Learned(consts, s), Step(s, st))
  {
    ConstProp.KnownKept(consts, c, s, st);
    if s.result.Some? && Simplified(consts, s.op).Some? {
      SimplifyIsResult(consts, s.op, st);
      ConstProp.Remask(Simplified(consts, s.op).value, s.op.size);
    }
  }

  lemma RewrittenOk(consts: Consts, c: Ctx, s: Stmt)
    requires StmtOk(c, s)
    ensures StmtOk(c, Rewritten(consts, s)) && Declare(c, Rewritten(consts, s)) == Declare(c, s)
  {
  }

  // ------------------------------------------------------------------
  // The pass.
  // ------------------------------------------------------------------

  function ConstsAt(stmts: seq<Stmt>, n: nat): Consts
    requires n <= |stmts|
  {
    if n == 0 then map[] else Learned(ConstsAt(stmts, n - 1), stmts[n - 1])
  }

  method SimplifyStatement(consts0: Consts, s: Stmt) returns (s1: Stmt, consts: Consts)
    ensures s1 == Rewritten(consts0, s) && consts == Learned(consts0, s)
  {
    s1, consts := s, consts0;
    if s.op.Constant? && s.result.Some? {
      consts := consts[s.result.value := MaskToSize(s.op.value, s.op.size)];
    } else if s.op.BinOp? && s.result.Some? {
      var simp := TrySimplify(consts, s.op.kind, s.op.lhs, s.op.rhs, s.op.size);
      if simp.Some? {
        s1 := Stmt(s.result, Constant(simp.value, s.op.size));
        consts := consts[s.result.value := MaskToSize(simp.value, s.op.size)];
      }
    }
  }

  // ------------------------------------------------------------------
  // What is simplified, said of the two lists alone.
  // ------------------------------------------------------------------

  /** Which facts about the operands decide the result: they are one ref, one is zero, one
      has all bits set, the right one is one. */
  predicate Decides(k: BinOpKind, same: bool, zeroL: bool, zeroR: bool, onesL: bool, onesR: bool, oneR: bool) {
    || ((k.Sub? || k.Xor_?) && same)
    || ((k.Mul? || k.And_? || IsMulHi(k)) && (zeroL || zeroR))
    || ((IsDiv(k) || IsMod(k)) && zeroL)
    || ((k.UMulHi? || IsMod(k)) && oneR)
    || (k.Or_? && (onesL || onesR))
  }

  /** The operands are known in the output to do so. */
  ghost predicate Collapses(out: seq<Stmt>, j: nat, k: BinOpKind, a: Ref, b: Ref, s: OpSize) {
    Decides(k, a == b, K.KnownAs(out, j, a, 0), K.KnownAs(out, j, b, 0),
            K.KnownAs(out, j, a, AllOnes(s)), K.KnownAs(out, j, b, AllOnes(s)), K.KnownAs(out, j, b, 1))
  }

  lemma SimplifyExact(consts: Consts, k: BinOpKind, a: Ref, b: Ref, s: OpSize)
    ensures TrySimplify(consts, k, a, b, s) ==
      if Decides(k, a == b, Is(consts, a, 0), Is(consts, b, 0), Is(consts, a, AllOnes(s)), Is(consts, b, AllOnes(s)),
                 Is(consts, b, 1))
      then Some(if k.Or_? then AllOnes(s) else 0) else None
  {
  }

  ghost predicate SimplifiedAt(stmts: seq<Stmt>, out: seq<Stmt>, j: nat)
    requires j < |stmts| == |out|
  {
    var s := stmts[j];
    out[j] ==
    if s.result.Some? && s.op.BinOp? && Collapses(out, j, s.op.kind, s.op.lhs, s.op.rhs, s.op.size)
    then Stmt(s.result, Constant(if s.op.kind.Or_? then AllOnes(s.op.size) else 0, s.op.size))
    else s
  }

  ghost predicate SimplifiesAll(stmts: seq<Stmt>, out: seq<Stmt>) {
    |out| == |stmts| && forall j :: 0 <= j < |stmts| ==> SimplifiedAt(stmts, out, j)
  }

  lemma LearnedIsNoted(consts: Consts, s: Stmt)
    ensures Learned(consts, s) == K.Noted(consts, Rewritten(consts, s))
  {
  }

  /** What the pass knows is what its output binds. */
  lemma {:induction false} ConstsAreBound(stmts: seq<Stmt>, out: seq<Stmt>, n: nat)
    requires n <= |stmts| == |out|
    requires forall k :: 0 <= k < |stmts| ==> out[k] == Rewritten(ConstsAt(stmts, k), stmts[k])
    ensures ConstsAt(stmts, n) == K.ConstsOf(out, n)
    decreases n
  {
    if n > 0 {
      ConstsAreBound(stmts, out, n - 1);
      LearnedIsNoted(ConstsAt(stmts, n - 1), stmts[n - 1]);
    }
  }

  lemma RewrittenIsSimplified(stmts: seq<Stmt>, out: seq<Stmt>, j: nat)
    requires j < |stmts| == |out| && out[j] == Rewritten(K.ConstsOf(out, j), stmts[j])
    ensures SimplifiedAt(stmts, out, j)
  {
    var op := stmts[j].op;
    if op.BinOp? {
      K.ConstsExact(out, j, op.lhs);
      K.ConstsExact(out, j, op.rhs);
      SimplifyExact(K.ConstsOf(out, j), op.kind, op.lhs, op.rhs, op.size);
    }
  }

  lemma AllSimplified(stmts: seq<Stmt>, out: seq<Stmt>)
    requires |out| == |stmts|
    requires forall k :: 0 <= k < |stmts| ==> out[k] == Rewritten(ConstsAt(stmts, k), stmts[k])
    ensures SimplifiesAll(stmts, out)
  {
    forall j | 0 <= j < |stmts| ensures SimplifiedAt(stmts, out, j) {
      ConstsAreBound(stmts, out, j);
      RewrittenIsSimplified(stmts, out, j);
    }
  }

  method AlgebraicSimplify(stmts: seq<Stmt>) returns (out: seq<Stmt>)
    ensures |out| == |stmts|
    ensures forall k :: 0 <= k < |stmts| ==> out[k] == Rewritten(ConstsAt(stmts, k), stmts[k])
    ensures SimplifiesAll(stmts, out)
  {
    out := [];
    var consts: Consts := map[];
    for i := 0 to |stmts|
      invariant |out| == i && consts == ConstsAt(stmts, i)
      invariant forall k :: 0 <= k < i ==> out[k] == Rewritten(ConstsAt(stmts, k), stmts[k])
    {
      var s;
      s, consts := SimplifyStatement(consts, stmts[i]);
      out := out + [s];
    }
    AllSimplified(stmts, out);
  }
}
