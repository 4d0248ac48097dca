/** `constant_propagate`. */
module ConstProp {
  import opened Words
  import opened Arith
  import opened Identities
  import opened Scalar
  import opened Ir
  import opened Validate
  import K = KnownConsts

  type Consts = K.Consts

  /** Sign extension by filling the bits above the source size. */
  function SignExtendFrom(v: U64, from: OpSize): U64 {
    var low := MaskToSize(v, from);
    if BitWidth(from) >= 64 then low
    else if 2 * low < Range(from) then low
    else Or64(low, TWO64 - Range(from))
  }

  /** The filled word is the signed reading of the low bits. */
  lemma SignExtendIsSigned(v: U64, from: OpSize)
    ensures SignExtendFrom(v, from) == Wrap(SignedOf(v, from))
  {
    var low := MaskToSize(v, from);
    Pow2Values();
    match from
    case I64 => FullWord(v);
    case I32 => SignBits(low, TWO32, 32, 0xFFFF_FFFF);
    case I16 => SignBits(low, 0x1_0000, 16, 0xFFFF_FFFF_FFFF);
    case I8 => SignBits(low, 0x100, 8, 0xFF_FFFF_FFFF_FFFF);
  }

  lemma FullWord(v: U64)
    ensures MaskToSize(v, I64) == v && Wrap(SignedOf(v, I64)) == v
  {
  }

  /** The constant an op folds to when its operands are known. */
  function Fold(consts: Consts, op: Op): Option<U64> {
    match op
    case BinOp(k, a, b, s) =>
      if a in consts && b in consts then Some(MaskToSize(EvalBinOp(k, consts[a], consts[b]), s)) else None
    case Extend(v, f, t, sg) =>
      if v in consts
      then Some(MaskToSize(if sg then SignExtendFrom(consts[v], f) else MaskToSize(consts[v], f), t))
      else None
    case Truncate(v, t) => if v in consts then Some(MaskToSize(consts[v], t)) else None
    case _ => None
  }

  function FoldSize(op: Op): OpSize {
    match op
    case BinOp(_, _, _, s) => s
    case Extend(_, _, t, _) => t
    case Truncate(_, t) => t
    case _ => I64
  }

  function Rewritten(consts: Consts, s: Stmt): Stmt {
    if s.result.Some? && Fold(consts, s.op).Some?
    then Stmt(s.result, Constant(Fold(consts, s.op).value, FoldSize(s.op)))
    else s
  }

  function Learned(consts: Consts, s: Stmt): Consts {
    if s.result.None? then consts
    else if s.op.Constant? then consts[s.result.value := MaskToSize(s.op.value, s.op.size)]
    else if Fold(consts, s.op).Some? then consts[s.result.value := Fold(consts, s.op).value]
    else consts
  }

  // ------------------------------------------------------------------
  // Soundness of one statement.
  // ------------------------------------------------------------------

  ghost predicate Known(consts: Consts, st: State) {
    forall r :: r in consts ==> st.Val(r) == consts[r]
  }

  lemma FoldIsResult(consts: Consts, op: Op, st: State)
    requires Known(consts, st) && Fold(consts, op).Some?
    ensures ResultOf(op, st) == Fold(consts, op).value
    ensures ResultOf(op, st) == MaskToSize(Fold(consts, op).value, FoldSize(op))
    ensures Effect(op, st) == st
  {
    if op.Extend? { SignExtendIsSigned(consts[op.src], op.fromSize); }
    Remask(ResultOf(op, st), FoldSize(op));
  }

  lemma Remask(v: U64, s: OpSize)
    requires v < Range(s)
    ensures MaskToSize(v, s) == v
  {
  }

  lemma RewrittenStep(consts: Consts, s: Stmt, st: State)
    requires Known(consts, st)
    ensures Step(Rewritten(consts, s), st) == Step(s, st)
  {
    if s.result.Some? && Fold(consts, s.op).Some? { FoldIsResult(consts, s.op, st); }
  }

  lemma KnownKept(consts: Consts, c: Ctx, s: Stmt, st: State)
    requires Known(consts, st) && consts.Keys <= c.Keys && DefsOk(c, s)
    ensures Known(consts, Step(s, st))
  {
    forall r | r in consts ensures Step(s, st).Val(r) == consts[r] {
      StepKeeps(s, st, r);
    }
  }

  lemma KnownLearned(consts: Consts, c: Ctx, s: Stmt, st: State)
    requires Known(consts, st) && consts.Keys <= c.Keys && DefsOk(c, s)
    requires st.ctl.Running? && Step(s, st).ctl.Running?
    ensures Known(Learned(consts, s), Step(s, st))
  {
    KnownKept(consts, c, s, st);
    if s.result.Some? && Fold(consts, s.op).Some? { FoldIsResult(consts, s.op, st); }
  }

  /** Folding keeps a statement valid and changes nothing it declares. */
  lemma RewrittenOk(consts: Consts, c: Ctx, s: Stmt)
    requires StmtOk(c, s)
    ensures StmtOk(c, Rewritten(consts, s)) && Declare(c, Rewritten(consts, s)) == Declare(c, s)
  {
  }

  // ------------------------------------------------------------------
  // The pass.
  // ------------------------------------------------------------------

  function ConstsAt(stmts: seq<Stmt>, n: nat): Consts
    requires n <= |stmts|
  {
    if n == 0 then map[] else Learned(ConstsAt(stmts, n - 1), stmts[n - 1])
  }

  method FoldStatement(consts0: Consts, s: Stmt) returns (s1: Stmt, consts: Consts)
    ensures s1 == Rewritten(consts0, s) && consts == Learned(consts0, s)
  {
    s1, consts := s, consts0;
    if s.result.None? { return; }
    match s.op {
      case Constant(v, sz) =>
        consts := consts[s.result.value := MaskToSize(v, sz)];
      case BinOp(k, a, b, sz) =>
        if a in consts && b in consts {
          var folded := MaskToSize(EvalBinOp(k, consts[a], consts[b]), sz);
          consts := consts[s.result.value := folded];
          s1 := Stmt(s.result, Constant(folded, sz));
        }
      case Extend(v, f, t, sg) =>
        if v in consts {
          var folded := if sg then SignExtendFrom(consts[v], f) else MaskToSize(consts[v], f);
          folded := MaskToSize(folded, t);
          consts := consts[s.result.value := folded];
          s1 := Stmt(s.result, Constant(folded, t));
        }
      case Truncate(v, t) =>
        if v in consts {
          var folded := MaskToSize(consts[v], t);
          consts := consts[s.result.value := folded];
          s1 := Stmt(s.result, Constant(folded, t));
        }
      case _ =>
    }
  }

  // ------------------------------------------------------------------
  // What is folded, said of the two lists alone.
  // ------------------------------------------------------------------

  /** Statement `j` of the output: every op the pass knows, once its operands are constants
      of the output, is the constant it computes from them; the rest is as it was. */
  ghost predicate FoldedAt(stmts: seq<Stmt>, out: seq<Stmt>, j: nat)
    requires j < |stmts| == |out|
  {
    var s := stmts[j];
    if s.result.Some? && s.op.BinOp? && K.IsKnown(out, j, s.op.lhs) && K.IsKnown(out, j, s.op.rhs)
    then forall a, b :: K.KnownAs(out, j, s.op.lhs, a) && K.KnownAs(out, j, s.op.rhs, b) ==>
           out[j] == Stmt(s.result, Constant(MaskToSize(EvalBinOp(s.op.kind, a, b), s.op.size), s.op.size))
    else if s.result.Some? && s.op.Extend? && K.IsKnown(out, j, s.op.src)
    then forall a :: K.KnownAs(out, j, s.op.src, a) ==>
           out[j] == Stmt(s.result, Constant(ExtendValue(a, s.op.fromSize, s.op.toSize, s.op.isSigned), s.op.toSize))
    else if s.result.Some? && s.op.Truncate? && K.IsKnown(out, j, s.op.src)
    then forall a :: K.KnownAs(out, j, s.op.src, a) ==>
           out[j] == Stmt(s.result, Constant(MaskToSize(a, s.op.toSize), s.op.toSize))
    else out[j] == s
  }

  ghost predicate FoldsAll(stmts: seq<Stmt>, out: seq<Stmt>) {
    |out| == |stmts| && forall j :: 0 <= j < |stmts| ==> FoldedAt(stmts, out, j)
  }

  lemma LearnedIsNoted(consts: Consts, s: Stmt)
    ensures Learned(consts, s) == K.Noted(consts, Rewritten(consts, s))
  {
    if Fold(consts, s.op).Some? { Remask(Fold(consts, s.op).value, FoldSize(s.op)); }
  }

  /** What the pass knows is what its output binds. */
  lemma {:induction false} ConstsAreBound(stmts: seq<Stmt>, out: seq<Stmt>, n: nat)
    requires n <= |stmts| == |out|
    requires forall k :: 0 <= k < |stmts| ==> out[k] == Rewritten(ConstsAt(stmts, k), stmts[k])
    ensures ConstsAt(stmts, n) == K.ConstsOf(out, n)
    decreases n
  {
    if n > 0 {
      ConstsAreBound(stmts, out, n - 1);
      LearnedIsNoted(ConstsAt(stmts, n - 1), stmts[n - 1]);
    }
  }

  lemma BinOpFolded(stmts: seq<Stmt>, out: seq<Stmt>, j: nat)
    requires j < |stmts| == |out| && out[j] == Rewritten(K.ConstsOf(out, j), stmts[j]) && stmts[j].op.BinOp?
    ensures FoldedAt(stmts, out, j)
  {
    K.ConstsExact(out, j, stmts[j].op.lhs);
    K.ConstsExact(out, j, stmts[j].op.rhs);
  }

  lemma ExtendFolded(stmts: seq<Stmt>, out: seq<Stmt>, j: nat)
    requires j < |stmts| == |out| && out[j] == Rewritten(K.ConstsOf(out, j), stmts[j]) && stmts[j].op.Extend?
    ensures FoldedAt(stmts, out, j)
  {
    var op := stmts[j].op;
    K.ConstsExact(out, j, op.src);
    if op.src in K.ConstsOf(out, j) { SignExtendIsSigned(K.ConstsOf(out, j)[op.src], op.fromSize); }
  }

  lemma RewrittenIsFolded(stmts: seq<Stmt>, out: seq<Stmt>, j: nat)
    requires j < |stmts| == |out| && out[j] == Rewritten(K.ConstsOf(out, j), stmts[j])
    ensures FoldedAt(stmts, out, j)
  {
    match stmts[j].op
    case BinOp(_, _, _, _) => BinOpFolded(stmts, out, j);
    case Extend(_, _, _, _) => ExtendFolded(stmts, out, j);
    case Truncate(v, _) => K.ConstsExact(out, j, v);
    case _ =>
  }

  lemma AllFolded(stmts: seq<Stmt>, out: seq<Stmt>)
    requires |out| == |stmts|
    requires forall k :: 0 <= k < |stmts| ==> out[k] == Rewritten(ConstsAt(stmts, k), stmts[k])
    ensures FoldsAll(stmts, out)
  {
    forall j | 0 <= j < |stmts| ensures FoldedAt(stmts, out, j) {
      ConstsAreBound(stmts, out, j);
      RewrittenIsFolded(stmts, out, j);
    }
  }

  method ConstantPropagate(stmts: seq<Stmt>) returns (out: seq<Stmt>)
    ensures |out| == |stmts|
    ensures forall k :: 0 <= k < |stmts| ==> out[k] == Rewritten(ConstsAt(stmts, k), stmts[k])
    ensures FoldsAll(stmts, out)
  {
    out := [];
    var consts: Consts := map[];
    for i := 0 to |stmts|
      invariant |out| == i && consts == ConstsAt(stmts, i)
      invariant forall k :: 0 <= k < i ==> out[k] == Rewritten(ConstsAt(stmts, k), stmts[k])
    {
      var s;
      s, consts := FoldStatement(consts, stmts[i]);
      out := out + [s];
    }
    AllFolded(stmts, out);
  }
}
