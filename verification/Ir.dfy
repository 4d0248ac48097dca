/** The scalar integer fragment of the Prisma IR and its meaning.

    `Step` is the one small-step semantics that every pass, the validator and
    the lowerer are proved against. It is total: a ref that was never bound
    reads as zero, and once control has left the list nothing more happens. */
module Ir {
  import opened Words
  import opened Arith
  import opened Scalar
  import opened Lockstep

  /** Guest general purpose register number, rax = 0 .. r15 = 15. */
  type Gpr = x: int | 0 <= x < 16

  const RAX: Gpr := 0
  const RCX: Gpr := 1
  const RSI: Gpr := 6
  const RDI: Gpr := 7

  datatype FenceKind = Mfence | Lfence | Sfence

  datatype Op =
    | Constant(value: U64, size: OpSize)
    | LoadReg(reg: Gpr, size: OpSize)
    | StoreReg(reg: Gpr, src: Ref, size: OpSize)
    | BinOp(kind: BinOpKind, lhs: Ref, rhs: Ref, size: OpSize)
    | WideDiv(high: Ref, low: Ref, divisor: Ref, isSigned: bool, want: WideDivResult)
    | Compare(cc: CondCode, lhs: Ref, rhs: Ref, size: OpSize)
    | Select(cc: CondCode, ifTrue: Ref, ifFalse: Ref, size: OpSize)
    | Extend(src: Ref, fromSize: OpSize, toSize: OpSize, isSigned: bool)
    | Truncate(src: Ref, toSize: OpSize)
    | LoadMem(addr: Ref, size: OpSize)
    | StoreMem(addr: Ref, src: Ref, size: OpSize)
    | LoadMemTSO(addr: Ref, size: OpSize)
    | StoreMemTSO(addr: Ref, src: Ref, size: OpSize)
    | AtomicCmpxchg(addr: Ref, expected: Ref, newValue: Ref, size: OpSize)
    | AtomicCmpxchgPair(addr: Ref, expectedLow: Ref, expectedHigh: Ref,
                        newLow: Ref, newHigh: Ref, oldHigh: Ref)
    | Fence(fence: FenceKind)
    | CmpFlags(lhs: Ref, rhs: Ref, size: OpSize)
    | AluFlags(kind: BinOpKind, lhs: Ref, rhs: Ref, size: OpSize)
    | WriteFlagsCountZero(src: Ref, count: Ref, size: OpSize)
    | StoreRflagsFromNzcv(carry: RflagsCarryMode, pf: Option<Ref>, af: Option<Ref>)
    | Jump(target: BlockId)
    | CondJump(cond: Ref, thenBlock: BlockId, elseBlock: BlockId)
    | Return
    | JumpReg(targetRef: Ref)
    | JumpRel(pc: U64)
    | CondJumpRel(cc: CondCode, pc: U64, fallthrough: U64)
    | GuestPc(pc: U64)
    | RepStos(size: OpSize, reverse: bool, pcOfRep: U64, pcAfterRep: U64)
    | RepMovs(size: OpSize, reverse: bool, pcOfRep: U64, pcAfterRep: U64)

  datatype Stmt = Stmt(result: Option<Ref>, op: Op)
  datatype Block = Block(id: BlockId, stmts: seq<Stmt>)
  datatype Function = Function(blocks: seq<Block>, entry: BlockId)

  // ------------------------------------------------------------------
  // State.
  // ------------------------------------------------------------------

  type Regs = s: seq<U64> | |s| == 16 witness seq(16, i => 0)

  datatype Ctl = Running | Exit(pc: U64) | Goto(block: BlockId)

  datatype State = State(env: map<Ref, U64>, regs: Regs, mem: Mem, flags: Nzcv,
                         rflags: Rflags, ctl: Ctl)
  {
    function Val(r: Ref): U64 { if r in env then env[r] else 0 }
  }

  /** The dispatcher reads this next-PC value as "stop". */
  const HALT: U64 := 0

  // ------------------------------------------------------------------
  // Leaving a string loop.
  // ------------------------------------------------------------------

  function RepExit(rcx: U64, pcOfRep: U64, pcAfterRep: U64): Ctl {
    Exit(if rcx != 0 then pcOfRep else pcAfterRep)
  }

  // ------------------------------------------------------------------
  // One statement.
  // ------------------------------------------------------------------

  /** The value an op binds to its result ref. */
  function ResultOf(op: Op, st: State): U64 {
    match op
    case Constant(v, s) => MaskToSize(v, s)
    case LoadReg(r, s) => MaskToSize(st.regs[r], s)
    case BinOp(k, l, r, s) => MaskToSize(EvalBinOp(k, st.Val(l), st.Val(r)), s)
    case WideDiv(h, l, d, sg, w) => WideDivValue(st.Val(h), st.Val(l), st.Val(d), sg, w)
    case Compare(cc, l, r, s) => if CondHolds(cc, SubFlags(st.Val(l), st.Val(r))) then 1 else 0
    case Select(cc, t, f, s) => MaskToSize(if CondHolds(cc, st.flags) then st.Val(t) else st.Val(f), s)
    case Extend(v, f, t, sg) => ExtendValue(st.Val(v), f, t, sg)
    case Truncate(v, t) => MaskToSize(st.Val(v), t)
    case LoadMem(a, s) => Load(st.mem, st.Val(a), s)
    case LoadMemTSO(a, s) => Load(st.mem, st.Val(a), s)
    case AtomicCmpxchg(a, e, n, s) => Load(st.mem, st.Val(a), s)
    case AtomicCmpxchgPair(a, el, eh, nl, nh, oh) => Load(st.mem, st.Val(a), I64)
    case _ => 0
  }

  function OptVal(st: State, r: Option<Ref>): Option<U64> {
    if r.Some? then Some(st.Val(r.value)) else None
  }

  function CmpxchgPairMem(m: Mem, a: U64, el: U64, eh: U64, nl: U64, nh: U64): Mem {
    if Load(m, a, I64) == el && Load(m, Wrap(a + 8), I64) == eh
    then Store(Store(m, a, nl, I64), Wrap(a + 8), nh, I64)
    else m
  }

  /** Everything an op does apart from binding its result. */
  function Effect(op: Op, st: State): State {
    match op
    case StoreReg(r, v, s) => st.(regs := st.regs[r := MergeReg(st.regs[r], st.Val(v), s)])
    case WideDiv(h, l, d, sg, w) =>
      if WideDivTraps(st.Val(h), st.Val(l), st.Val(d), sg, w) then st.(ctl := Exit(HALT)) else st
    case Compare(cc, l, r, s) => st.(flags := SubFlags(st.Val(l), st.Val(r)))
    case StoreMem(a, v, s) => st.(mem := Store(st.mem, st.Val(a), st.Val(v), s))
    case StoreMemTSO(a, v, s) => st.(mem := Store(st.mem, st.Val(a), st.Val(v), s))
    case AtomicCmpxchg(a, e, n, s) =>
      if Load(st.mem, st.Val(a), s) == MaskToSize(st.Val(e), s)
      then st.(mem := Store(st.mem, st.Val(a), st.Val(n), s)) else st
    case AtomicCmpxchgPair(a, el, eh, nl, nh, oh) =>
      st.(mem := CmpxchgPairMem(st.mem, st.Val(a), st.Val(el), st.Val(eh), st.Val(nl), st.Val(nh)),
          env := st.env[oh := Load(st.mem, Wrap(st.Val(a) + 8), I64)])
    case CmpFlags(l, r, s) => st.(flags := SubFlags(Align(st.Val(l), s), Align(st.Val(r), s)))
    case AluFlags(k, l, r, s) => st.(flags := AluFlagsValue(k, Align(st.Val(l), s), Align(st.Val(r), s)))
    case WriteFlagsCountZero(v, c, s) => st.(flags := Nzcv(false, st.Val(c) == 0, st.Val(v) == 0, false))
    case StoreRflagsFromNzcv(c, pf, af) =>
      st.(rflags := RflagsFromNzcv(st.rflags, st.flags, c, OptVal(st, pf), OptVal(st, af)))
    case Jump(b) => st.(ctl := Goto(b))
    case CondJump(c, t, f) => st.(ctl := Goto(if st.Val(c) != 0 then t else f))
    case Return => st.(ctl := Exit(HALT))
    case JumpReg(t) => st.(ctl := Exit(st.Val(t)))
    case JumpRel(pc) => st.(ctl := Exit(pc))
    case CondJumpRel(cc, pc, ft) => st.(ctl := Exit(if CondHolds(cc, st.flags) then pc else ft))
    case RepStos(s, rev, pc0, pc1) =>
      var k := RepIters(st.regs[RCX], s);
      var (m, rdi) := StosLoop(st.mem, st.regs[RDI], st.regs[RAX], k, s, rev);
      st.(mem := m, regs := st.regs[RCX := st.regs[RCX] - k][RDI := rdi],
          ctl := RepExit(st.regs[RCX] - k, pc0, pc1))
    case RepMovs(s, rev, pc0, pc1) =>
      var k := RepIters(st.regs[RCX], s);
      var (m, rsi, rdi) := MovsLoop(st.mem, st.regs[RSI], st.regs[RDI], k, s, rev);
      st.(mem := m, regs := st.regs[RCX := st.regs[RCX] - k][RSI := rsi][RDI := rdi],
          ctl := RepExit(st.regs[RCX] - k, pc0, pc1))
    case _ => st
  }

  function Step(s: Stmt, st: State): State {
    if !st.ctl.Running? then st
    else
      var st1 := Effect(s.op, st);
      if s.result.Some? && st1.ctl.Running?
      then st1.(env := st1.env[s.result.value := ResultOf(s.op, st)])
      else st1
  }

  function Run(stmts: seq<Stmt>, st: State): State {
    if stmts == [] then st else Run(stmts[1..], Step(stmts[0], st))
  }

  lemma {:induction false} RunAppend(xs: seq<Stmt>, ys: seq<Stmt>, st: State)
    ensures Run(xs + ys, st) == Run(ys, Run(xs, st))
  {
    if xs == [] {
      assert xs + ys == ys;
    } else {
      assert (xs + ys)[1..] == xs[1..] + ys;
      RunAppend(xs[1..], ys, Step(xs[0], st));
    }
  }

  /** Running one statement more. */
  lemma RunSnoc(xs: seq<Stmt>, s: Stmt, st: State)
    ensures Run(xs + [s], st) == Step(s, Run(xs, st))
  {
    RunAppend(xs, [s], st);
  }

  lemma RunTake(xs: seq<Stmt>, n: nat, st: State)
    requires 0 < n <= |xs|
    ensures Run(xs[..n], st) == Step(xs[n - 1], Run(xs[..n - 1], st))
  {
    TakeSnoc(xs, n - 1);
    RunSnoc(xs[..n - 1], xs[n - 1], st);
  }

  /** The first `n` statements without those at the listed positions. */
  function Remaining(stmts: seq<Stmt>, drop: set<nat>, n: nat): seq<Stmt>
    requires n <= |stmts|
  {
    if n == 0 then [] else if n - 1 in drop then Remaining(stmts, drop, n - 1)
    else Remaining(stmts, drop, n - 1) + [stmts[n - 1]]
  }

  method Filter(stmts: seq<Stmt>, drop: set<nat>) returns (out: seq<Stmt>)
    ensures out == Remaining(stmts, drop, |stmts|)
  {
    out := [];
    for i := 0 to |stmts|
      invariant out == Remaining(stmts, drop, i)
    {
      if i !in drop { out := out + [stmts[i]]; }
    }
  }

  lemma {:induction false} RunIsFolded(xs: seq<Stmt>, n: nat, st: State)
    requires n <= |xs|
    ensures Run(xs[..n], st) == Folded(Step, xs, n, st)
    decreases n
  {
    if n > 0 {
      RunTake(xs, n, st);
      RunIsFolded(xs, n - 1, st);
    }
  }

  /** Lists whose statements agree under a common invariant run alike. */
  lemma SameRun(xs: seq<Stmt>, ys: seq<Stmt>, inv: (nat, State) -> bool, st: State)
    requires |ys| == |xs| && inv(0, st) && Turns(Step, xs, ys, inv)
    ensures Run(ys, st) == Run(xs, st) && inv(|xs|, Run(xs, st))
  {
    SameFold(Step, xs, ys, inv, |xs|, st);
    RunIsFolded(xs, |xs|, st);
    RunIsFolded(ys, |ys|, st);
    TakeAll(xs);
    TakeAll(ys);
  }

  // ------------------------------------------------------------------
  // Operands and definitions.
  // ------------------------------------------------------------------

  function OptSeq(r: Option<Ref>): seq<Ref> { if r.Some? then [r.value] else [] }

  function Operands(op: Op): seq<Ref> {
    match op
    case StoreReg(_, v, _) => [v]
    case BinOp(_, l, r, _) => [l, r]
    case WideDiv(h, l, d, _, _) => [h, l, d]
    case Compare(_, l, r, _) => [l, r]
    case Select(_, t, f, _) => [t, f]
    case Extend(v, _, _, _) => [v]
    case Truncate(v, _) => [v]
    case LoadMem(a, _) => [a]
    case StoreMem(a, v, _) => [a, v]
    case LoadMemTSO(a, _) => [a]
    case StoreMemTSO(a, v, _) => [a, v]
    case AtomicCmpxchg(a, e, n, _) => [a, e, n]
    case AtomicCmpxchgPair(a, el, eh, nl, nh, _) => [a, el, eh, nl, nh]
    case CmpFlags(l, r, _) => [l, r]
    case AluFlags(_, l, r, _) => [l, r]
    case WriteFlagsCountZero(v, c, _) => [v, c]
    case StoreRflagsFromNzcv(_, pf, af) => OptSeq(pf) + OptSeq(af)
    case CondJump(c, _, _) => [c]
    case JumpReg(t) => [t]
    case _ => []
  }

  /** The refs a statement binds. */
  function Defs(s: Stmt): set<Ref> {
    (if s.result.Some? then {s.result.value} else {})
    + (if s.op.AtomicCmpxchgPair? then {s.op.oldHigh} else {})
  }

  /** A statement changes the bindings of its own definitions only. */
  lemma StepKeeps(s: Stmt, st: State, r: Ref)
    requires r !in Defs(s)
    ensures Step(s, st).Val(r) == st.Val(r)
  {
  }
}
