/** `validate`: defs before uses, unique defs, matching sizes. */
module Validate {
  import opened Words
  import opened Arith
  import opened Scalar
  import opened Ir

  datatype Code = UndefinedRef | DuplicateResult | ImpureHasResult | PureLacksResult | SizeMismatch
  datatype Error = Error(code: Code, index: nat, ref: Ref)

  predicate Pure(op: Op) {
    || op.Constant? || op.LoadReg? || op.BinOp? || op.WideDiv? || op.Compare? || op.Select?
    || op.LoadMem? || op.LoadMemTSO? || op.Extend? || op.Truncate?
  }

  predicate IsCas(op: Op) { op.AtomicCmpxchg? || op.AtomicCmpxchgPair? }

  function ResultSize(op: Op): Option<OpSize> {
    match op
    case Constant(_, s) => Some(s)
    case LoadReg(_, s) => Some(s)
    case BinOp(_, _, _, s) => Some(s)
    case WideDiv(_, _, _, _, _) => Some(I64)
    case Compare(_, _, _, _) => Some(I8)
    case Select(_, _, _, s) => Some(s)
    case LoadMem(_, s) => Some(s)
    case LoadMemTSO(_, s) => Some(s)
    case AtomicCmpxchg(_, _, _, s) => Some(s)
    case AtomicCmpxchgPair(_, _, _, _, _, _) => Some(I64)
    case Extend(_, _, t, _) => Some(t)
    case Truncate(_, t) => Some(t)
    case _ => None
  }

  predicate IsShift(k: BinOpKind) {
    k.Shl? || k.Shr? || k.Sar? || k.Rol? || k.Ror? || k.Rcl? || k.Rcr?
  }

  function SizeIf(c: bool, s: OpSize): Option<OpSize> { if c then Some(s) else None }

  /** The size the op demands of operand `r`; the first role `r` plays decides. */
  function RequiredSize(op: Op, r: Ref): Option<OpSize> {
    match op
    case BinOp(k, a, b, s) =>
      if r == b && IsShift(k) then None else SizeIf(r == a || r == b, s)
    case WideDiv(a, b, c, _, _) => SizeIf(r == a || r == b || r == c, I64)
    case Compare(_, a, b, s) => SizeIf(r == a || r == b, s)
    case CmpFlags(a, b, s) => SizeIf(r == a || r == b, s)
    case AluFlags(_, a, b, s) => SizeIf(r == a || r == b, s)
    case WriteFlagsCountZero(a, b, s) => SizeIf(r == a || r == b, s)
    case Select(_, a, b, s) => SizeIf(r == a || r == b, s)
    case StoreRflagsFromNzcv(_, pf, af) => SizeIf(pf == Some(r) || af == Some(r), I8)
    case StoreMem(a, v, s) => if r == v then Some(s) else SizeIf(r == a, I64)
    case StoreMemTSO(a, v, s) => if r == v then Some(s) else SizeIf(r == a, I64)
    case AtomicCmpxchg(a, e, n, s) => if r == a then Some(I64) else SizeIf(r == e || r == n, s)
    case AtomicCmpxchgPair(a, el, eh, nl, nh, _) =>
      SizeIf(r == a || r == el || r == eh || r == nl || r == nh, I64)
    case LoadMem(a, _) => SizeIf(r == a, I64)
    case LoadMemTSO(a, _) => SizeIf(r == a, I64)
    case JumpReg(t) => SizeIf(r == t, I64)
    case Extend(v, f, _, _) => SizeIf(r == v, f)
    case _ => None
  }

  // ------------------------------------------------------------------
  // What a valid list is.
  // ------------------------------------------------------------------

  /** Sizes of the refs bound so far. */
  type Ctx = map<Ref, OpSize>

  predicate OperandOk(op: Op, r: Ref, have: OpSize) {
    match RequiredSize(op, r)
    case Some(want) => have == want
    case None => op.StoreReg? && r == op.src ==> BitWidth(have) >= BitWidth(op.size)
  }

  ghost predicate OperandsOk(c: Ctx, op: Op) {
    forall r :: r in Operands(op) ==> r in c && OperandOk(op, r, c[r])
  }

  predicate ResultOk(s: Stmt) { s.result.Some? <==> Pure(s.op) || IsCas(s.op) }

  predicate DefsOk(c: Ctx, s: Stmt) {
    && (s.result.Some? ==> s.result.value !in c)
    && (s.op.AtomicCmpxchgPair? ==> s.op.oldHigh !in c && s.result != Some(s.op.oldHigh))
  }

  ghost predicate StmtOk(c: Ctx, s: Stmt) { ResultOk(s) && OperandsOk(c, s.op) && DefsOk(c, s) }

  function Declare(c: Ctx, s: Stmt): Ctx {
    var c1 := if s.result.Some? && ResultSize(s.op).Some? then c[s.result.value := ResultSize(s.op).value] else c;
    if s.op.AtomicCmpxchgPair? then c1[s.op.oldHigh := I64] else c1
  }

  function CtxAt(stmts: seq<Stmt>, n: nat): Ctx
    requires n <= |stmts|
  {
    if n == 0 then map[] else Declare(CtxAt(stmts, n - 1), stmts[n - 1])
  }

  ghost predicate OkAt(stmts: seq<Stmt>, i: nat) {
    i < |stmts| ==> StmtOk(CtxAt(stmts, i), stmts[i])
  }

  ghost predicate ValidUpTo(stmts: seq<Stmt>, n: nat) {
    forall i: nat :: i < n ==> OkAt(stmts, i)
  }

  ghost predicate Valid(stmts: seq<Stmt>) { ValidUpTo(stmts, |stmts|) }

  // ------------------------------------------------------------------
  // The rules in the order the validator applies them.
  // ------------------------------------------------------------------

  function ResultRule(s: Stmt): Option<(Code, Ref)> {
    if Pure(s.op) && s.result.None? then Some((PureLacksResult, 0))
    else if IsCas(s.op) && s.result.None? then Some((PureLacksResult, 0))
    else if !Pure(s.op) && s.result.Some? && !IsCas(s.op) then Some((ImpureHasResult, s.result.value))
    else None
  }

  function UndefinedRule(ops: seq<Ref>, c: Ctx, k: nat): (e: Option<(Code, Ref)>)
    requires k <= |ops|
    ensures e.None? <==> forall j :: k <= j < |ops| ==> ops[j] in c
    decreases |ops| - k
  {
    if k == |ops| then None
    else if ops[k] !in c then Some((UndefinedRef, ops[k]))
    else UndefinedRule(ops, c, k + 1)
  }

  function MismatchRule(op: Op, ops: seq<Ref>, c: Ctx, k: nat): (e: Option<(Code, Ref)>)
    requires k <= |ops| && forall j :: k <= j < |ops| ==> ops[j] in c
    ensures e.None? <==> forall j :: k <= j < |ops| ==> OperandOk(op, ops[j], c[ops[j]])
    decreases |ops| - k
  {
    if k == |ops| then None
    else if !OperandOk(op, ops[k], c[ops[k]]) then Some((SizeMismatch, ops[k]))
    else MismatchRule(op, ops, c, k + 1)
  }

  function DuplicateRule(c: Ctx, s: Stmt): Option<(Code, Ref)> {
    if s.result.Some? && s.result.value in c then Some((DuplicateResult, s.result.value))
    else if s.op.AtomicCmpxchgPair? && (s.op.oldHigh in c || s.result == Some(s.op.oldHigh))
    then Some((DuplicateResult, s.op.oldHigh))
    else None
  }

  function OrElse(a: Option<(Code, Ref)>, b: Option<(Code, Ref)>): Option<(Code, Ref)> { if a.Some? then a else b }

  /** The first broken rule of a statement. */
  function Verdict(c: Ctx, s: Stmt): (e: Option<(Code, Ref)>)
    ensures e.None? <==> StmtOk(c, s)
  {
    var ops := Operands(s.op);
    var e1 := OrElse(ResultRule(s), UndefinedRule(ops, c, 0));
    if e1.Some? then e1 else OrElse(MismatchRule(s.op, ops, c, 0), DuplicateRule(c, s))
  }

  method FirstUndefined(ops: seq<Ref>, defs: set<Ref>, ghost c: Ctx) returns (e: Option<(Code, Ref)>)
    requires defs == c.Keys
    ensures e == UndefinedRule(ops, c, 0)
  {
    for k := 0 to |ops|
      invariant UndefinedRule(ops, c, 0) == UndefinedRule(ops, c, k)
    {
      if ops[k] !in defs { return Some((UndefinedRef, ops[k])); }
    }
    return None;
  }

  method FirstMismatch(op: Op, ops: seq<Ref>, sizes: Ctx) returns (e: Option<(Code, Ref)>)
    requires forall j :: 0 <= j < |ops| ==> ops[j] in sizes
    ensures e == MismatchRule(op, ops, sizes, 0)
  {
    for k := 0 to |ops|
      invariant MismatchRule(op, ops, sizes, 0) == MismatchRule(op, ops, sizes, k)
    {
      if !OperandOk(op, ops[k], sizes[ops[k]]) { return Some((SizeMismatch, ops[k])); }
    }
    return None;
  }

  /** The context after a well-formed statement has exactly its definitions more. */
  lemma DeclareKeys(c: Ctx, s: Stmt)
    requires ResultOk(s)
    ensures Declare(c, s).Keys == c.Keys + Defs(s)
  {
  }

  /** One statement: the first broken rule, or the extended tables. */
  method CheckStatement(defs: set<Ref>, sizes: Ctx, s: Stmt)
    returns (e: Option<(Code, Ref)>, defs1: set<Ref>, sizes1: Ctx)
    requires defs == sizes.Keys
    ensures e == Verdict(sizes, s)
    ensures e.None? ==> sizes1 == Declare(sizes, s) && defs1 == sizes1.Keys
  {
    defs1, sizes1 := defs, sizes;
    e := ResultRule(s);
    if e.Some? { return; }
    e := FirstUndefined(Operands(s.op), defs, sizes);
    if e.Some? { return; }
    e := FirstMismatch(s.op, Operands(s.op), sizes);
    if e.Some? { return; }
    if s.result.Some? {
      if s.result.value in defs1 { return Some((DuplicateResult, s.result.value)), defs1, sizes1; }
      defs1 := defs1 + {s.result.value};
      if ResultSize(s.op).Some? { sizes1 := sizes1[s.result.value := ResultSize(s.op).value]; }
    }
    if s.op.AtomicCmpxchgPair? {
      if s.op.oldHigh in defs1 { return Some((DuplicateResult, s.op.oldHigh)), defs1, sizes1; }
      defs1 := defs1 + {s.op.oldHigh};
      sizes1 := sizes1[s.op.oldHigh := I64];
    }
    DeclareKeys(sizes, s);
  }

  lemma VerdictAt(stmts: seq<Stmt>, i: nat)
    requires i < |stmts|
    ensures Verdict(CtxAt(stmts, i), stmts[i]).None? <==> OkAt(stmts, i)
  {
  }

  /** Accepts exactly the valid lists; otherwise reports the first broken rule of
      the first bad statement. */
  method ValidateList(stmts: seq<Stmt>) returns (e: Option<Error>)
    ensures e.None? <==> Valid(stmts)
    ensures e.Some? ==> e.value.index < |stmts|
                        && Verdict(CtxAt(stmts, e.value.index), stmts[e.value.index])
                             == Some((e.value.code, e.value.ref))
                        && ValidUpTo(stmts, e.value.index)
  {
    var defs: set<Ref>, sizes: Ctx := {}, map[];
    for i := 0 to |stmts|
      invariant sizes == CtxAt(stmts, i) && defs == sizes.Keys
      invariant ValidUpTo(stmts, i)
    {
      var bad;
      bad, defs, sizes := CheckStatement(defs, sizes, stmts[i]);
      VerdictAt(stmts, i);
      if bad.Some? { return Some(Error(bad.value.0, i, bad.value.1)); }
    }
    return None;
  }

  // ------------------------------------------------------------------
  // Values stay within the size of their ref.
  // ------------------------------------------------------------------

  ghost predicate Typed(c: Ctx, st: State) {
    forall r :: r in c ==> st.Val(r) < Range(c[r])
  }

  lemma ResultInRange(op: Op, st: State)
    requires ResultSize(op).Some?
    ensures ResultOf(op, st) < Range(ResultSize(op).value)
  {
  }

  lemma TypedStep(c: Ctx, s: Stmt, st: State)
    requires StmtOk(c, s) && Typed(c, st) && st.ctl.Running? && Step(s, st).ctl.Running?
    ensures Typed(Declare(c, s), Step(s, st))
  {
    forall r | r in Declare(c, s) ensures Step(s, st).Val(r) < Range(Declare(c, s)[r]) {
      TypedAfter(c, s, st, r);
    }
  }

  lemma TypedAfter(c: Ctx, s: Stmt, st: State, r: Ref)
    requires ResultOk(s) && DefsOk(c, s) && Typed(c, st) && st.ctl.Running? && Step(s, st).ctl.Running?
    requires r in Declare(c, s)
    ensures Step(s, st).Val(r) < Range(Declare(c, s)[r])
  {
    if s.result == Some(r) {
      ResultInRange(s.op, st);
    } else if r !in Defs(s) {
      StepKeeps(s, st, r);
    }
  }

  lemma {:induction false} TypedRun(stmts: seq<Stmt>, n: nat, st: State)
    requires n <= |stmts| && Valid(stmts) && Run(stmts[..n], st).ctl.Running?
    ensures Typed(CtxAt(stmts, n), Run(stmts[..n], st))
    decreases n
  {
    if n > 0 {
      RunTake(stmts, n, st);
      TypedRun(stmts, n - 1, st);
      assert OkAt(stmts, n - 1);
      TypedStep(CtxAt(stmts, n - 1), stmts[n - 1], Run(stmts[..n - 1], st));
    }
  }

  /** Every operand has a size to keep, except shift counts, what a register write or a
      truncation cuts anyway, and conditions. Addresses and jump targets are full words. */
  lemma OperandsSized(op: Op, r: Ref)
    requires r in Operands(op)
    ensures RequiredSize(op, r).None? <==>
      op.StoreReg? || op.Truncate? || op.CondJump? || (op.BinOp? && IsShift(op.kind) && r == op.rhs)
    ensures op.LoadMem? || op.LoadMemTSO? || op.JumpReg? || op.WideDiv? || op.AtomicCmpxchgPair? ==>
      RequiredSize(op, r) == Some(I64)
    ensures (op.StoreMem? || op.StoreMemTSO?) && r == op.addr != op.src ==> RequiredSize(op, r) == Some(I64)
    ensures op.AtomicCmpxchg? && r == op.addr ==> RequiredSize(op, r) == Some(I64)
  {
  }

  /** The operands hold values of the size the op works at. A shift count may be of any
      size, and a ref in two roles is checked for the first only. */
  predicate Whole(op: Op, st: State) {
    match op
    case BinOp(k, a, b, s) =>
      if IsShift(k) then a != b ==> st.Val(a) < Range(s) else st.Val(a) < Range(s) && st.Val(b) < Range(s)
    case Compare(_, a, b, s) => st.Val(a) < Range(s) && st.Val(b) < Range(s)
    case CmpFlags(a, b, s) => st.Val(a) < Range(s) && st.Val(b) < Range(s)
    case AluFlags(_, a, b, s) => st.Val(a) < Range(s) && st.Val(b) < Range(s)
    case WriteFlagsCountZero(a, b, s) => st.Val(a) < Range(s) && st.Val(b) < Range(s)
    case Select(_, a, b, s) => st.Val(a) < Range(s) && st.Val(b) < Range(s)
    case StoreMem(_, v, s) => st.Val(v) < Range(s)
    case StoreMemTSO(_, v, s) => st.Val(v) < Range(s)
    case AtomicCmpxchg(a, e, n, s) => (e != a ==> st.Val(e) < Range(s)) && (n != a ==> st.Val(n) < Range(s))
    case StoreRflagsFromNzcv(_, pf, af) =>
      (pf.Some? ==> st.Val(pf.value) < 256) && (af.Some? ==> st.Val(af.value) < 256)
    case Extend(v, f, _, _) => st.Val(v) < Range(f)
    case _ => true
  }

  lemma OperandWhole(c: Ctx, op: Op, st: State, r: Ref, s: OpSize)
    requires OperandsOk(c, op) && Typed(c, st) && r in Operands(op) && RequiredSize(op, r) == Some(s)
    ensures st.Val(r) < Range(s)
  {
    assert r in c && OperandOk(op, r, c[r]);
  }

  lemma PairWhole(c: Ctx, op: Op, st: State)
    requires OperandsOk(c, op) && Typed(c, st)
    requires op.BinOp? || op.Compare? || op.CmpFlags? || op.AluFlags?
    ensures Whole(op, st)
  {
    var s := op.size;
    if RequiredSize(op, op.lhs) == Some(s) { OperandWhole(c, op, st, op.lhs, s); }
    if RequiredSize(op, op.rhs) == Some(s) { OperandWhole(c, op, st, op.rhs, s); }
  }

  /** On what the validator accepts, no op cuts its operands. */
  lemma OperandsWhole(c: Ctx, op: Op, st: State)
    requires OperandsOk(c, op) && Typed(c, st)
    ensures Whole(op, st)
  {
    match op
    case WriteFlagsCountZero(a, b, s) =>
      OperandWhole(c, op, st, a, s);
      OperandWhole(c, op, st, b, s);
    case Select(_, a, b, s) =>
      OperandWhole(c, op, st, a, s);
      OperandWhole(c, op, st, b, s);
    case StoreMem(_, v, s) => OperandWhole(c, op, st, v, s);
    case StoreMemTSO(_, v, s) => OperandWhole(c, op, st, v, s);
    case AtomicCmpxchg(a, e, n, s) =>
      if e != a { OperandWhole(c, op, st, e, s); }
      if n != a { OperandWhole(c, op, st, n, s); }
    case StoreRflagsFromNzcv(_, pf, af) =>
      if pf.Some? { OperandWhole(c, op, st, pf.value, I8); }
      if af.Some? { OperandWhole(c, op, st, af.value, I8); }
    case Extend(v, f, _, _) => OperandWhole(c, op, st, v, f);
    case _ => if op.BinOp? || op.Compare? || op.CmpFlags? || op.AluFlags? { PairWhole(c, op, st); }
  }

  /** So in no run of a valid list. */
  lemma ValidIsWhole(stmts: seq<Stmt>, i: nat, st: State)
    requires i < |stmts| && Valid(stmts) && Run(stmts[..i], st).ctl.Running?
    ensures Whole(stmts[i].op, Run(stmts[..i], st))
  {
    TypedRun(stmts, i, st);
    assert OkAt(stmts, i);
    OperandsWhole(CtxAt(stmts, i), stmts[i].op, Run(stmts[..i], st));
  }
}
