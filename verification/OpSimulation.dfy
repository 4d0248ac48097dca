/** Every emitted arm does what its statement does. */
module OpSimulation {
  import opened Words
  import opened Arith
  import opened Scalar
  import opened Ir
  import opened Arm
  import opened AluCode
  import opened FlagCode
  import opened Liveness
  import opened Simulation
  import opened RflagsCode
  import P = PairCode
  import V = Validate
  import W = WideDivision
  import R = EmittedRep

  // ------------------------------------------------------------------
  // Registers an arm may write.
  // ------------------------------------------------------------------

  /** Pool registers that hold no ref. */
  ghost predicate Outside(refs: Assign, ws: set<Reg>) {
    (forall w :: w in ws ==> w < 10) && forall r :: r in refs ==> refs[r] !in ws
  }

  lemma GuestKept(st: State, m: Mach, m1: Mach, ws: set<Reg>)
    requires GuestMatch(st, m) && m1.mem == m.mem && m1.frame == m.frame && (forall w :: w in ws ==> w < 10)
    requires forall r: Reg :: r !in ws ==> m1.x[r] == m.x[r]
    ensures GuestMatch(st, m1)
  {
  }

  lemma RefsKept(refs: Assign, st: State, m: Mach, m1: Mach, ws: set<Reg>)
    requires RefsMatch(refs, st, m) && Outside(refs, ws)
    requires forall r: Reg :: r !in ws ==> m1.x[r] == m.x[r]
    ensures RefsMatch(refs, st, m1)
  {
  }

  lemma RefsBound(refs: Assign, st: State, m: Mach, r: Ref, rd: Reg, v: U64)
    requires RefsMatch(refs, st, m) && m.x[rd] == v
    ensures RefsMatch(refs[r := rd], Bound(st, r, v), m)
  {
  }

  /** Code that only fills free registers. */
  lemma KeptMatch(refs: Assign, known: bool, st: State, m: Mach, m1: Mach, ws: set<Reg>)
    requires Match(refs, known, st, m) && KeepsFlags(m, m1, ws) && Outside(refs, ws)
    ensures Match(refs, known, st, m1)
  {
    GuestKept(st, m, m1, ws);
    RefsKept(refs, st, m, m1, ws);
  }

  /** ... one of them with the result. */
  lemma BoundMatch(refs: Assign, known: bool, st: State, m: Mach, m1: Mach, ws: set<Reg>, r: Ref, rd: Reg, v: U64)
    requires Match(refs, known, st, m) && KeepsFlags(m, m1, ws) && Outside(refs, ws) && m1.x[rd] == v
    ensures Match(refs[r := rd], known, Bound(st, r, v), m1)
  {
    KeptMatch(refs, known, st, m, m1, ws);
    RefsBound(refs, st, m1, r, rd, v);
  }

  // ------------------------------------------------------------------
  // One instruction, one result.
  // ------------------------------------------------------------------

  /** Ops that only bind their result. */
  predicate Computes(op: Op) {
    || op.Constant? || op.LoadReg? || op.Select? || op.Extend? || op.Truncate? || op.LoadMem? || op.LoadMemTSO?
  }

  lemma StepComputes(s: Stmt, st: State)
    requires Computes(s.op) && s.result.Some? && st.ctl.Running?
    ensures LoweredStep(s, st, true) == Bound(st, s.result.value, LoweredResult(s.op, st))
  {
  }

  predicate Plain(op: Op) { Computes(op) && !op.Extend? }

  /** The instruction for a plain op, given its operands' registers. */
  function PlainInstr(op: Op, rd: Reg, r0: Reg, r1: Reg): Instr
    requires Plain(op)
  {
    match op
    case Constant(v, s) => MovImm(rd, MaskToSize(v, s))
    case LoadReg(g, s) => if s.I64? then Mov(rd, Host(g)) else Uxt(rd, Host(g), s)
    case Truncate(_, s) => if s.I64? then Mov(rd, r0) else Uxt(rd, r0, s)
    case Select(cc, _, _, _) => Csel(rd, r0, r1, cc)
    case LoadMem(_, s) => Ldr(rd, r0, s)
    case LoadMemTSO(_, s) => Ldr(rd, r0, s)
  }

  /** Operand registers: the first two, where the op has that many. */
  ghost predicate OperandRegs(op: Op, refs: Assign, r0: Reg, r1: Reg) {
    var ops := Operands(op);
    (|ops| > 0 ==> ops[0] in refs && refs[ops[0]] == r0) && (|ops| > 1 ==> ops[1] in refs && refs[ops[1]] == r1)
  }

  lemma WholeWord(v: U64)
    ensures MaskToSize(v, I64) == v
  {
    WrapSmall(v);
  }

  ghost predicate Sets(i: Instr, m: Mach, rd: Reg, v: U64) { Exec(i, m) == Set(m, rd, v) && Offset(i, m) == 1 }

  lemma RegisterValue(op: Op, rd: Reg, r0: Reg, refs: Assign, known: bool, st: State, m: Mach)
    requires (op.Constant? || op.LoadReg? || op.Truncate?) && Match(refs, known, st, m) && OperandRegs(op, refs, r0, r0)
    ensures Sets(PlainInstr(op, rd, r0, r0), m, rd, LoweredResult(op, st))
  {
    match op
    case LoadReg(g, _) => WholeWord(st.regs[g]);
    case Truncate(v, _) => WholeWord(st.Val(v));
    case _ =>
  }

  lemma SelectedValue(op: Op, rd: Reg, r0: Reg, r1: Reg, refs: Assign, st: State, m: Mach)
    requires op.Select? && Match(refs, true, st, m) && OperandRegs(op, refs, r0, r1)
    ensures Sets(PlainInstr(op, rd, r0, r1), m, rd, Picked(op, st))
  {
  }

  lemma LoadedValue(op: Op, rd: Reg, r0: Reg, refs: Assign, known: bool, st: State, m: Mach)
    requires (op.LoadMem? || op.LoadMemTSO?) && Match(refs, known, st, m) && OperandRegs(op, refs, r0, r0)
    ensures Sets(PlainInstr(op, rd, r0, r0), m, rd, LoweredResult(op, st))
  {
  }

  lemma PlainValue(op: Op, rd: Reg, r0: Reg, r1: Reg, refs: Assign, known: bool, st: State, m: Mach)
    requires Plain(op) && Match(refs, known, st, m) && OperandRegs(op, refs, r0, r1) && (op.Select? ==> known)
    ensures Sets(PlainInstr(op, rd, r0, r1), m, rd, LoweredResult(op, st))
  {
    match op
    case Select(_, _, _, _) => SelectedValue(op, rd, r0, r1, refs, st, m);
    case LoadMem(_, _) => LoadedValue(op, rd, r0, refs, known, st, m);
    case LoadMemTSO(_, _) => LoadedValue(op, rd, r0, refs, known, st, m);
    case _ => RegisterValue(op, rd, r0, refs, known, st, m);
  }

  lemma PlainSimulates(s: Stmt, rd: Reg, r0: Reg, r1: Reg, refs: Assign, code: seq<Instr>)
    requires Plain(s.op) && s.result.Some? && OperandRegs(s.op, refs, r0, r1) && Outside(refs, {rd})
    requires code == [PlainInstr(s.op, rd, r0, r1)]
    ensures Simulates(refs, s, true, code, refs[s.result.value := rd])
  {
    var i := PlainInstr(s.op, rd, r0, r1);
    forall known: bool, st: State, m: Mach | FlagsReady(s, known) && Match(refs, known, st, m)
      ensures Outcome(refs[s.result.value := rd], KnownAfter(s, known), code, m, LoweredStep(s, st, true))
    {
      StepComputes(s, st);
      PlainValue(s.op, rd, r0, r1, refs, known, st, m);
      DoesOne(i, m);
      BoundMatch(refs, known, st, m, Exec(i, m), {rd}, s.result.value, rd, LoweredResult(s.op, st));
    }
  }

  // ------------------------------------------------------------------
  // Extension.
  // ------------------------------------------------------------------

  function ExtendCode(op: Op, rd: Reg, rs: Reg): seq<Instr>
    requires op.Extend?
  {
    var f, t := op.fromSize, op.toSize;
    [if f.I64? then Mov(rd, rs) else if op.isSigned then Rare(Sxt(rd, rs, f)) else Uxt(rd, rs, f)]
    + (if op.isSigned && !t.I64? then [Uxt(rd, rd, t)] else [])
  }

  /** The value the code leaves: an unsigned extension is cut at its source size only. */
  function Extended(op: Op, v: U64): U64
    requires op.Extend?
  {
    if op.isSigned then ExtendValue(v, op.fromSize, op.toSize, true) else MaskToSize(v, op.fromSize)
  }

  lemma ExtendDoes(op: Op, rd: Reg, rs: Reg, m: Mach) returns (m1: Mach)
    requires op.Extend? && !m.halted
    ensures Does(ExtendCode(op, rd, rs), m, m1) && KeepsFlags(m, m1, {rd})
    ensures m1.x[rd] == Extended(op, m.x[rs])
  {
    var code := ExtendCode(op, rd, rs);
    ExtendWord(m.x[rs], op.fromSize);
    if op.isSigned && !op.toSize.I64? {
      m1 := Exec(code[1], Exec(code[0], m));
      DoesTwo(code[0], code[1], m);
      assert code == [code[0], code[1]];
    } else {
      m1 := Exec(code[0], m);
      DoesOne(code[0], m);
      assert code == [code[0]];
    }
  }

  lemma ExtendWord(v: U64, f: OpSize)
    ensures Wrap(SignedOf(v, I64)) == v && MaskToSize(v, I64) == v
    ensures MaskToSize(Wrap(SignedOf(v, f)), I64) == Wrap(SignedOf(v, f))
  {
    WrapSmall(Wrap(SignedOf(v, f)));
  }

  /** The code extends correctly exactly when the op is signed or the value, cut at the source
      size, fits the target. */
  lemma ExtendRuns(op: Op, rd: Reg, rs: Reg, m: Mach) returns (m1: Mach)
    requires op.Extend? && !m.halted
    ensures Does(ExtendCode(op, rd, rs), m, m1) && KeepsFlags(m, m1, {rd})
    ensures m1.x[rd] == ExtendValue(m.x[rs], op.fromSize, op.toSize, op.isSigned)
      <==> op.isSigned || MaskToSize(m.x[rs], op.fromSize) < Range(op.toSize)
  {
    m1 := ExtendDoes(op, rd, rs, m);
    CutExact(MaskToSize(m.x[rs], op.fromSize), op.toSize);
  }

  /** ... so always when it does not narrow. */
  lemma ExtendWidens(op: Op, rd: Reg, rs: Reg, m: Mach) returns (m1: Mach)
    requires op.Extend? && !m.halted && BitWidth(op.fromSize) <= BitWidth(op.toSize)
    ensures Does(ExtendCode(op, rd, rs), m, m1) && KeepsFlags(m, m1, {rd})
    ensures m1.x[rd] == ExtendValue(m.x[rs], op.fromSize, op.toSize, op.isSigned)
  {
    m1 := ExtendRuns(op, rd, rs, m);
  }

  /** A list the validator accepts whose extension narrows. */
  function NarrowingList(): seq<Stmt> {
    [Stmt(Some(1), Constant(256, I64)), Stmt(Some(2), Extend(1, I64, I8, false))]
  }

  lemma NarrowingValid()
    ensures V.Valid(NarrowingList())
  {
    assert V.OkAt(NarrowingList(), 0);
    assert V.OkAt(NarrowingList(), 1);
  }

  /** The extension of 256 to a byte: the IR says 0 and the code leaves 256. */
  lemma NarrowingFails(rd: Reg, rs: Reg, m: Mach) returns (m1: Mach)
    requires !m.halted && m.x[rs] == 256
    ensures Does(ExtendCode(NarrowingList()[1].op, rd, rs), m, m1) && m1.x[rd] == 256
    ensures ExtendValue(256, I64, I8, false) == 0
  {
    m1 := ExtendDoes(NarrowingList()[1].op, rd, rs, m);
  }

  lemma ExtendSimulates(s: Stmt, rd: Reg, rs: Reg, refs: Assign, code: seq<Instr>)
    requires s.op.Extend? && s.result.Some? && s.op.src in refs && refs[s.op.src] == rs && Outside(refs, {rd})
    requires code == ExtendCode(s.op, rd, rs)
    ensures Simulates(refs, s, true, code, refs[s.result.value := rd])
  {
    forall known: bool, st: State, m: Mach | FlagsReady(s, known) && Match(refs, known, st, m)
      ensures Outcome(refs[s.result.value := rd], KnownAfter(s, known), code, m, LoweredStep(s, st, true))
    {
      StepComputes(s, st);
      var m1 := ExtendDoes(s.op, rd, rs, m);
      BoundMatch(refs, known, st, m, m1, {rd}, s.result.value, rd, LoweredResult(s.op, st));
    }
  }

  // ------------------------------------------------------------------
  // Flags.
  // ------------------------------------------------------------------

  /** Flags set, registers otherwise kept. */
  lemma FlagsMatch(refs: Assign, known: bool, st: State, m: Mach, m1: Mach, ws: set<Reg>)
    requires Match(refs, known, st, m) && Keeps(m, m1, ws) && Outside(refs, ws)
    ensures Match(refs, true, st.(flags := m1.f), m1)
  {
    GuestKept(st, m, m1, ws);
    RefsKept(refs, st, m, m1, ws);
  }

  function CompareCode(cc: CondCode, rd: Reg, rn: Reg, rm: Reg): seq<Instr> { [Cmp(rn, rm), Cset(rd, cc)] }

  lemma StepCompare(s: Stmt, st: State)
    requires s.op.Compare? && s.result.Some? && st.ctl.Running?
    ensures var f := SubFlags(st.Val(s.op.lhs), st.Val(s.op.rhs));
            LoweredStep(s, st, true) == Bound(st.(flags := f), s.result.value, if CondHolds(s.op.cc, f) then 1 else 0)
  {
  }

  lemma CompareRuns(cc: CondCode, rd: Reg, rn: Reg, rm: Reg, m: Mach) returns (m1: Mach)
    requires !m.halted
    ensures Does(CompareCode(cc, rd, rn, rm), m, m1) && Keeps(m, m1, {rd}) && m1.f == SubFlags(m.x[rn], m.x[rm])
    ensures m1.x[rd] == (if CondHolds(cc, m1.f) then 1 else 0)
  {
    m1 := Exec(Cset(rd, cc), Exec(Cmp(rn, rm), m));
    DoesTwo(Cmp(rn, rm), Cset(rd, cc), m);
  }

  /** Flags set and a result bound. */
  lemma FlagsBoundMatch(refs: Assign, known: bool, st: State, m: Mach, m1: Mach, ws: set<Reg>, r: Ref, rd: Reg)
    requires Match(refs, known, st, m) && Keeps(m, m1, ws) && Outside(refs, ws)
    ensures Match(refs[r := rd], true, Bound(st.(flags := m1.f), r, m1.x[rd]), m1)
  {
    FlagsMatch(refs, known, st, m, m1, ws);
    RefsBound(refs, st.(flags := m1.f), m1, r, rd, m1.x[rd]);
  }

  lemma CompareSimulates(s: Stmt, rd: Reg, rn: Reg, rm: Reg, refs: Assign, code: seq<Instr>)
    requires s.op.Compare? && s.result.Some? && OperandRegs(s.op, refs, rn, rm) && Outside(refs, {rd})
    requires code == CompareCode(s.op.cc, rd, rn, rm)
    ensures Simulates(refs, s, true, code, refs[s.result.value := rd])
  {
    forall known: bool, st: State, m: Mach | FlagsReady(s, known) && Match(refs, known, st, m)
      ensures Outcome(refs[s.result.value := rd], KnownAfter(s, known), code, m, LoweredStep(s, st, true))
    {
      StepCompare(s, st);
      var m1 := CompareRuns(s.op.cc, rd, rn, rm, m);
      FlagsBoundMatch(refs, known, st, m, m1, {rd}, s.result.value, rd);
    }
  }

  /** CmpFlags is AluFlags of a subtraction. */
  function FlagKind(op: Op): BinOpKind
    requires op.CmpFlags? || op.AluFlags?
  {
    if op.CmpFlags? then Sub else op.kind
  }

  /** The flags of two operands, read at their width. */
  function FlagsOf(op: Op, a: U64, b: U64): Nzcv
    requires op.CmpFlags? || op.AluFlags?
  {
    AluFlagsValue(FlagKind(op), Align(a, op.size), Align(b, op.size))
  }

  lemma StepFlags(s: Stmt, st: State)
    requires (s.op.CmpFlags? || s.op.AluFlags?) && s.result.None? && st.ctl.Running?
    ensures LoweredStep(s, st, true) == st.(flags := FlagsOf(s.op, st.Val(s.op.lhs), st.Val(s.op.rhs)))
  {
  }

  lemma FlagsSimulates(s: Stmt, rl: Reg, rr: Reg, ts: seq<Reg>, t: Reg, refs: Assign, code: seq<Instr>)
    requires (s.op.CmpFlags? || s.op.AluFlags?) && s.result.None? && SetsFlags(FlagKind(s.op))
    requires |ts| == AlignTemps(s.op.size)
    requires OperandRegs(s.op, refs, rl, rr) && Loose(ts, {rl, rr})
    requires Outside(refs, Of(ts) + if FlagKind(s.op).Sub? then {} else {t})
    requires code == FlagsCode(FlagKind(s.op), s.op.size, rl, rr, ts, t)
    ensures Simulates(refs, s, true, code, refs)
  {
    forall known: bool, st: State, m: Mach | FlagsReady(s, known) && Match(refs, known, st, m)
      ensures Outcome(refs, KnownAfter(s, known), code, m, LoweredStep(s, st, true))
    {
      FlagsAt(s, rl, rr, ts, t, refs, known, st, m);
    }
  }

  lemma FlagsAt(s: Stmt, rl: Reg, rr: Reg, ts: seq<Reg>, t: Reg, refs: Assign, known: bool, st: State, m: Mach)
    requires (s.op.CmpFlags? || s.op.AluFlags?) && s.result.None? && SetsFlags(FlagKind(s.op))
    requires |ts| == AlignTemps(s.op.size)
    requires OperandRegs(s.op, refs, rl, rr) && Loose(ts, {rl, rr}) && Match(refs, known, st, m)
    requires Outside(refs, Of(ts) + if FlagKind(s.op).Sub? then {} else {t})
    ensures Outcome(refs, true, FlagsCode(FlagKind(s.op), s.op.size, rl, rr, ts, t), m, LoweredStep(s, st, true))
  {
    StepFlags(s, st);
    FlagsOutcome(s.op, rl, rr, ts, t, refs, known, st, m, FlagsOf(s.op, st.Val(s.op.lhs), st.Val(s.op.rhs)));
  }

  lemma FlagsOutcome(op: Op, rl: Reg, rr: Reg, ts: seq<Reg>, t: Reg, refs: Assign, known: bool, st: State, m: Mach,
                     f: Nzcv)
    requires (op.CmpFlags? || op.AluFlags?) && SetsFlags(FlagKind(op)) && |ts| == AlignTemps(op.size)
    requires Loose(ts, {rl, rr}) && Match(refs, known, st, m)
    requires Outside(refs, Of(ts) + if FlagKind(op).Sub? then {} else {t}) && f == FlagsOf(op, m.x[rl], m.x[rr])
    ensures Outcome(refs, true, FlagsCode(FlagKind(op), op.size, rl, rr, ts, t), m, st.(flags := f))
  {
    var m1 := FlagsRuns(FlagKind(op), op.size, rl, rr, ts, t, m);
    FlagsMatch(refs, known, st, m, m1, Of(ts) + if FlagKind(op).Sub? then {} else {t});
  }

  // ------------------------------------------------------------------
  // Stores.
  // ------------------------------------------------------------------

  function StoreRegInstr(g: Gpr, rs: Reg, s: OpSize): Instr {
    match s
    case I8 => Rare(Bfxil(Host(g), rs, false))
    case I16 => Rare(Bfxil(Host(g), rs, true))
    case I32 => Uxt(Host(g), rs, I32)
    case I64 => Mov(Host(g), rs)
  }

  lemma HostApart(g: Gpr, h: Gpr)
    ensures Host(g) == Host(h) <==> g == h
    ensures Host(g) >= 10
  {
  }

  lemma StepStoreReg(s: Stmt, st: State)
    requires s.op.StoreReg? && s.result.None? && st.ctl.Running?
    ensures LoweredStep(s, st, true)
      == st.(regs := st.regs[s.op.reg := MergeReg(st.regs[s.op.reg], st.Val(s.op.src), s.op.size)])
  {
  }

  lemma GuestSet(st: State, m: Mach, g: Gpr, v: U64)
    requires GuestMatch(st, m)
    ensures GuestMatch(st.(regs := st.regs[g := v]), Set(m, Host(g), v))
  {
    forall h: Gpr ensures Set(m, Host(g), v).x[Host(h)] == st.regs[g := v][h] { HostApart(g, h); }
  }

  /** Refs are in pool registers. */
  ghost predicate InPool(refs: Assign) { forall r :: r in refs ==> refs[r] < 10 }

  lemma StoreRegSimulates(s: Stmt, rs: Reg, refs: Assign, code: seq<Instr>)
    requires s.op.StoreReg? && s.result.None? && s.op.src in refs && refs[s.op.src] == rs && InPool(refs)
    requires code == [StoreRegInstr(s.op.reg, rs, s.op.size)]
    ensures Simulates(refs, s, true, code, refs)
  {
    var i := StoreRegInstr(s.op.reg, rs, s.op.size);
    forall known: bool, st: State, m: Mach | FlagsReady(s, known) && Match(refs, known, st, m)
      ensures Outcome(refs, KnownAfter(s, known), code, m, LoweredStep(s, st, true))
    {
      StepStoreReg(s, st);
      var v := MergeReg(st.regs[s.op.reg], st.Val(s.op.src), s.op.size);
      assert Exec(i, m) == Set(m, Host(s.op.reg), v);
      DoesOne(i, m);
      GuestSet(st, m, s.op.reg, v);
      HostApart(s.op.reg, s.op.reg);
      assert Match(refs, known, LoweredStep(s, st, true), Exec(i, m));
    }
  }

  predicate IsStore(op: Op) { op.StoreMem? || op.StoreMemTSO? }

  lemma StepStore(s: Stmt, st: State)
    requires IsStore(s.op) && s.result.None? && st.ctl.Running?
    ensures LoweredStep(s, st, true) == st.(mem := Store(st.mem, st.Val(s.op.addr), st.Val(s.op.src), s.op.size))
  {
  }

  lemma StoreSimulates(s: Stmt, ra: Reg, rv: Reg, refs: Assign, code: seq<Instr>)
    requires IsStore(s.op) && s.result.None? && OperandRegs(s.op, refs, ra, rv)
    requires code == [Str(rv, ra, s.op.size)]
    ensures Simulates(refs, s, true, code, refs)
  {
    forall known: bool, st: State, m: Mach | FlagsReady(s, known) && Match(refs, known, st, m)
      ensures Outcome(refs, KnownAfter(s, known), code, m, LoweredStep(s, st, true))
    {
      StoreAt(s, ra, rv, refs, known, st, m);
    }
  }

  lemma StoreAt(s: Stmt, ra: Reg, rv: Reg, refs: Assign, known: bool, st: State, m: Mach)
    requires IsStore(s.op) && s.result.None? && OperandRegs(s.op, refs, ra, rv) && Match(refs, known, st, m)
    ensures Outcome(refs, known, [Str(rv, ra, s.op.size)], m, LoweredStep(s, st, true))
  {
    StepStore(s, st);
    StoreOutcome(s.op.size, ra, rv, refs, known, st, m, st.Val(s.op.addr), st.Val(s.op.src));
  }

  lemma StoreOutcome(size: OpSize, ra: Reg, rv: Reg, refs: Assign, known: bool, st: State, m: Mach, a: U64, v: U64)
    requires Match(refs, known, st, m) && m.x[ra] == a && m.x[rv] == v
    ensures Outcome(refs, known, [Str(rv, ra, size)], m, st.(mem := Store(st.mem, a, v, size)))
  {
    var i := Str(rv, ra, size);
    DoesOne(i, m);
    assert Match(refs, known, st.(mem := Store(st.mem, a, v, size)), Exec(i, m));
  }

  // ------------------------------------------------------------------
  // Nothing to do.
  // ------------------------------------------------------------------

  predicate Silent(op: Op) { op.Fence? || op.GuestPc? }

  function SilentCode(op: Op): seq<Instr> { if op.Fence? then [Nop] else [] }

  lemma SilentSimulates(s: Stmt, refs: Assign, code: seq<Instr>)
    requires Silent(s.op) && s.result.None?
    requires code == SilentCode(s.op)
    ensures Simulates(refs, s, true, code, refs)
  {
    forall known: bool, st: State, m: Mach | FlagsReady(s, known) && Match(refs, known, st, m)
      ensures Outcome(refs, KnownAfter(s, known), code, m, LoweredStep(s, st, true))
    {
      SilentAt(s, refs, known, st, m);
    }
  }

  lemma SilentAt(s: Stmt, refs: Assign, known: bool, st: State, m: Mach)
    requires Silent(s.op) && s.result.None? && Match(refs, known, st, m)
    ensures Outcome(refs, known, SilentCode(s.op), m, LoweredStep(s, st, true))
  {
    assert LoweredStep(s, st, true) == st;
    if s.op.Fence? { DoesOne(Nop, m); } else { DoesNothing(m); }
  }

  // ------------------------------------------------------------------
  // Leaving.
  // ------------------------------------------------------------------

  predicate Departs(op: Op) { op.Return? || op.JumpRel? || op.JumpReg? || op.CondJumpRel? }

  function LeaveCode(op: Op, r: Reg): seq<Instr>
    requires Departs(op)
  {
    match op
    case Return => ExitWith(0)
    case JumpRel(pc) => ExitWith(pc)
    case JumpReg(_) => [Mov(0, r), Ret]
    case CondJumpRel(cc, pc, ft) => [MovImm(0, ft), MovImm(1, pc), Csel(0, 1, 0, cc), Ret]
  }

  function NextPc(op: Op, st: State): U64
    requires Departs(op)
  {
    match op
    case Return => HALT
    case JumpRel(pc) => pc
    case JumpReg(t) => st.Val(t)
    case CondJumpRel(cc, pc, ft) => if CondHolds(cc, st.flags) then pc else ft
  }

  lemma StepLeaves(s: Stmt, st: State)
    requires Departs(s.op) && st.ctl.Running?
    ensures LoweredStep(s, st, true) == st.(ctl := Exit(NextPc(s.op, st)))
  {
  }

  lemma MovRuns(r: Reg, m: Mach)
    requires !m.halted
    ensures Returns([Mov(0, r), Ret], m, Halted(m, m.x[r]))
  {
    var code := [Mov(0, r), Ret];
    GetsHere(code, 2, Halted(m, m.x[r]));
    GetsStep(code, 1, Set(m, 0, m.x[r]), 2, Halted(m, m.x[r]));
    GetsStep(code, 0, m, 2, Halted(m, m.x[r]));
  }

  lemma CondRuns(cc: CondCode, pc: U64, ft: U64, m: Mach) returns (m1: Mach)
    requires !m.halted
    ensures Returns([MovImm(0, ft), MovImm(1, pc), Csel(0, 1, 0, cc), Ret], m, m1)
    ensures m1.x[0] == (if CondHolds(cc, m.f) then pc else ft) && Spares(m, m1, {0, 1})
  {
    var code := [MovImm(0, ft), MovImm(1, pc), Csel(0, 1, 0, cc), Ret];
    var a := Exec(code[0], m);
    var b := Exec(code[1], a);
    var c := Exec(code[2], b);
    m1 := Exec(Ret, c);
    GetsHere(code, 4, m1);
    GetsStep(code, 3, c, 4, m1);
    GetsStep(code, 2, b, 4, m1);
    GetsStep(code, 1, a, 4, m1);
    GetsStep(code, 0, m, 4, m1);
  }

  lemma LeaveRuns(op: Op, r: Reg, refs: Assign, known: bool, st: State, m: Mach) returns (m1: Mach)
    requires Departs(op) && Match(refs, known, st, m) && (op.CondJumpRel? ==> known)
    requires op.JumpReg? ==> op.targetRef in refs && refs[op.targetRef] == r
    ensures Returns(LeaveCode(op, r), m, m1) && m1.x[0] == NextPc(op, st) && Spares(m, m1, {0, 1})
  {
    match op
    case Return => ExitWithReturns(0, m); m1 := Halted(m, 0);
    case JumpRel(pc) => ExitWithReturns(pc, m); m1 := Halted(m, pc);
    case JumpReg(_) => MovRuns(r, m); m1 := Halted(m, m.x[r]);
    case CondJumpRel(cc, pc, ft) => m1 := CondRuns(cc, pc, ft, m);
  }

  lemma LeaveSimulates(s: Stmt, r: Reg, refs: Assign, code: seq<Instr>)
    requires Departs(s.op) && (s.op.JumpReg? ==> s.op.targetRef in refs && refs[s.op.targetRef] == r)
    requires code == LeaveCode(s.op, r)
    ensures Simulates(refs, s, true, code, refs)
  {
    forall known: bool, st: State, m: Mach | FlagsReady(s, known) && Match(refs, known, st, m)
      ensures Outcome(refs, KnownAfter(s, known), code, m, LoweredStep(s, st, true))
    {
      StepLeaves(s, st);
      var m1 := LeaveRuns(s.op, r, refs, known, st, m);
      GuestKept(st, m, m1, {0, 1});
      assert GuestMatch(LoweredStep(s, st, true), m1);
    }
  }

  // ------------------------------------------------------------------
  // Arithmetic.
  // ------------------------------------------------------------------

  lemma StepBinOp(s: Stmt, st: State)
    requires s.op.BinOp? && s.result.Some? && st.ctl.Running?
    ensures Divided(s.op.kind, st.Val(s.op.rhs)) ==> LoweredStep(s, st, true) == st.(ctl := Exit(HALT))
    ensures !Divided(s.op.kind, st.Val(s.op.rhs)) ==>
      LoweredStep(s, st, true)
        == Bound(st, s.result.value, LoweredBin(s.op.kind, s.op.size, st.Val(s.op.lhs), st.Val(s.op.rhs)))
  {
  }

  /** Leaving with the halt value. */
  lemma HaltOutcome(refs: Assign, known: bool, code: seq<Instr>, st: State, m: Mach, m1: Mach, ws: set<Reg>)
    requires GuestMatch(st, m) && Returns(code, m, m1) && m1.x[0] == HALT && Spares(m, m1, ws)
    requires forall w :: w in ws ==> w < 10
    ensures Outcome(refs, known, code, m, st.(ctl := Exit(HALT)))
  {
    GuestKept(st, m, m1, ws);
    assert GuestMatch(st.(ctl := Exit(HALT)), m1);
  }

  lemma BinOpSimulates(s: Stmt, rd: Reg, rn: Reg, rm: Reg, ts: seq<Reg>, refs: Assign, code: seq<Instr>)
    requires s.op.BinOp? && s.result.Some? && |ts| == TempsFor(s.op.kind)
    requires OperandRegs(s.op, refs, rn, rm) && Separate(rd, ts, {rn, rm}) && Outside(refs, Touched(rd, ts))
    requires code == BinCode(s.op.kind, s.op.size, rd, rn, rm, ts)
    ensures Simulates(refs, s, true, code, refs[s.result.value := rd])
  {
    var k := s.op.kind;
    var refs1 := refs[s.result.value := rd];
    forall known: bool, st: State, m: Mach | FlagsReady(s, known) && Match(refs, known, st, m)
      ensures Outcome(refs1, KnownAfter(s, known), code, m, LoweredStep(s, st, true))
    {
      StepBinOp(s, st);
      if Divided(k, m.x[rm]) {
        BinTraps(k, s.op.size, rd, rn, rm, ts, m);
        HaltOutcome(refs1, KnownAfter(s, known), code, st, m, Halted(m, 0), {0});
      } else {
        var m1 := BinRuns(k, s.op.size, rd, rn, rm, ts, m);
        BoundMatch(refs, known, st, m, m1, Touched(rd, ts), s.result.value, rd, m1.x[rd]);
      }
    }
  }

  // ------------------------------------------------------------------
  // Wide division.
  // ------------------------------------------------------------------

  function WideTemps(isSigned: bool): nat { if isSigned then 6 else 5 }

  function WorkRegs(isSigned: bool, divisor: Reg, ts: seq<Reg>): W.Work
    requires |ts| == WideTemps(isSigned)
  {
    W.Work(ts[0], ts[1], if isSigned then ts[5] else divisor, ts[2], ts[3], ts[4], 63)
  }

  function WideCode(op: Op, rd: Reg, high: Reg, low: Reg, divisor: Reg, ts: seq<Reg>): seq<Instr>
    requires op.WideDiv? && |ts| == WideTemps(op.isSigned)
  {
    var w := WorkRegs(op.isSigned, divisor, ts);
    if op.isSigned then W.SignedCode(rd, w, high, low, divisor, op.want)
    else W.UnsignedCode(rd, w, high, low, divisor, op.want)
  }

  lemma UnsignedSeparate(rd: Reg, high: Reg, low: Reg, divisor: Reg, ts: seq<Reg>)
    requires |ts| == 5 && Separate(rd, ts, {high, low, divisor})
    ensures W.Operands(rd, WorkRegs(false, divisor, ts), high, low, divisor)
    ensures W.Written(rd, WorkRegs(false, divisor, ts)) == Touched(rd, ts)
  {
    assert forall i :: 0 <= i < 5 ==> ts[i] in ts;
    W.SignShiftIs();
  }

  lemma SignedSeparate(rd: Reg, high: Reg, low: Reg, divisor: Reg, ts: seq<Reg>)
    requires |ts| == 6 && Separate(rd, ts, {high, low, divisor})
    ensures W.SignedOperands(rd, WorkRegs(true, divisor, ts), high, low, divisor)
    ensures W.WrittenSigned(rd, WorkRegs(true, divisor, ts)) == Touched(rd, ts)
  {
    assert forall i :: 0 <= i < 6 ==> ts[i] in ts;
    W.SignShiftIs();
  }

  lemma WideRuns(op: Op, rd: Reg, high: Reg, low: Reg, divisor: Reg, ts: seq<Reg>, m: Mach) returns (m1: Mach)
    requires op.WideDiv? && |ts| == WideTemps(op.isSigned) && Separate(rd, ts, {high, low, divisor}) && !m.halted
    ensures W.Divides(WideCode(op, rd, high, low, divisor, ts), rd, Touched(rd, ts), m, m1,
                      m.x[high], m.x[low], m.x[divisor], op.isSigned, op.want)
  {
    var w := WorkRegs(op.isSigned, divisor, ts);
    if op.isSigned {
      SignedSeparate(rd, high, low, divisor, ts);
      m1 := W.SignedRuns(rd, w, high, low, divisor, op.want, m);
    } else {
      UnsignedSeparate(rd, high, low, divisor, ts);
      m1 := W.UnsignedRuns(rd, w, high, low, divisor, op.want, m);
    }
  }

  lemma StepWide(s: Stmt, st: State)
    requires s.op.WideDiv? && s.result.Some? && st.ctl.Running?
    ensures var o := s.op;
            var h, l, d := st.Val(o.high), st.Val(o.low), st.Val(o.divisor);
            LoweredStep(s, st, true) == if WideDivTraps(h, l, d, o.isSigned, o.want) then st.(ctl := Exit(HALT))
                               else Bound(st, s.result.value, WideDivValue(h, l, d, o.isSigned, o.want))
  {
  }

  /** The flags are lost, everything else is as before. */
  lemma LostMatch(refs: Assign, known: bool, st: State, m: Mach, m1: Mach, ws: set<Reg>, r: Ref, rd: Reg, v: U64)
    requires Match(refs, known, st, m) && Keeps(m, m1, ws) && Outside(refs, ws) && m1.x[rd] == v
    ensures Match(refs[r := rd], false, Bound(st, r, v), m1)
  {
    GuestKept(st, m, m1, ws);
    RefsKept(refs, st, m, m1, ws);
    RefsBound(refs, st, m1, r, rd, v);
  }

  lemma WideSimulates(s: Stmt, rd: Reg, high: Reg, low: Reg, divisor: Reg, ts: seq<Reg>, refs: Assign, code: seq<Instr>)
    requires s.op.WideDiv? && s.result.Some? && |ts| == WideTemps(s.op.isSigned)
    requires s.op.high in refs && refs[s.op.high] == high && s.op.low in refs && refs[s.op.low] == low
    requires s.op.divisor in refs && refs[s.op.divisor] == divisor
    requires Separate(rd, ts, {high, low, divisor}) && Outside(refs, Touched(rd, ts))
    requires code == WideCode(s.op, rd, high, low, divisor, ts)
    ensures Simulates(refs, s, true, code, refs[s.result.value := rd])
  {
    var refs1 := refs[s.result.value := rd];
    forall known: bool, st: State, m: Mach | FlagsReady(s, known) && Match(refs, known, st, m)
      ensures Outcome(refs1, KnownAfter(s, known), code, m, LoweredStep(s, st, true))
    {
      StepWide(s, st);
      WideOutcome(s.op, s.result.value, rd, high, low, divisor, ts, refs, known, st, m);
    }
  }

  lemma WideOutcome(op: Op, r: Ref, rd: Reg, high: Reg, low: Reg, divisor: Reg, ts: seq<Reg>, refs: Assign,
                    known: bool, st: State, m: Mach)
    requires op.WideDiv? && |ts| == WideTemps(op.isSigned) && Match(refs, known, st, m)
    requires Separate(rd, ts, {high, low, divisor}) && Outside(refs, Touched(rd, ts))
    ensures var h, l, d := m.x[high], m.x[low], m.x[divisor];
            Outcome(refs[r := rd], false, WideCode(op, rd, high, low, divisor, ts), m,
                    if WideDivTraps(h, l, d, op.isSigned, op.want) then st.(ctl := Exit(HALT))
                    else Bound(st, r, WideDivValue(h, l, d, op.isSigned, op.want)))
  {
    var m1 := WideRuns(op, rd, high, low, divisor, ts, m);
    if WideDivTraps(m.x[high], m.x[low], m.x[divisor], op.isSigned, op.want) {
      HaltOutcome(refs[r := rd], false, WideCode(op, rd, high, low, divisor, ts), st, m, m1, Touched(rd, ts) + {0});
    } else {
      LostMatch(refs, known, st, m, m1, Touched(rd, ts), r, rd, m1.x[rd]);
    }
  }

  // ------------------------------------------------------------------
  // Compare and exchange.
  // ------------------------------------------------------------------

  lemma StepCas(s: Stmt, st: State)
    requires s.op.AtomicCmpxchg? && s.result.Some? && st.ctl.Running?
    ensures var o := s.op;
            var seen := Load(st.mem, st.Val(o.addr), o.size);
            var mem := if MaskToSize(seen, o.size) == MaskToSize(st.Val(o.expected), o.size)
                       then Store(st.mem, st.Val(o.addr), st.Val(o.newValue), o.size) else st.mem;
            LoweredStep(s, st, true) == Bound(st.(mem := mem), s.result.value, seen)
  {
    SmallMod(Load(st.mem, st.Val(s.op.addr), s.op.size), Range(s.op.size));
  }

  /** Memory may change too. */
  lemma StoredMatch(refs: Assign, known: bool, st: State, m: Mach, m1: Mach, ws: set<Reg>, r: Ref, rd: Reg)
    requires Match(refs, known, st, m) && Outside(refs, ws) && !m1.halted && m1.frame == m.frame
    requires forall x: Reg :: x !in ws ==> m1.x[x] == m.x[x]
    ensures Match(refs[r := rd], false, Bound(st.(mem := m1.mem), r, m1.x[rd]), m1)
  {
    var st1 := st.(mem := m1.mem);
    GuestKept(st1, m.(mem := m1.mem), m1, ws);
    RefsKept(refs, st, m, m1, ws);
    RefsBound(refs, st1, m1, r, rd, m1.x[rd]);
  }

  lemma CasSimulates(s: Stmt, rd: Reg, addr: Reg, expected: Reg, nv: Reg, status: Reg, ts: seq<Reg>, refs: Assign,
                     code: seq<Instr>)
    requires s.op.AtomicCmpxchg? && s.result.Some? && |ts| == AlignTemps(s.op.size)
    requires s.op.addr in refs && refs[s.op.addr] == addr && s.op.expected in refs && refs[s.op.expected] == expected
    requires s.op.newValue in refs && refs[s.op.newValue] == nv
    requires rd !in {expected, nv, addr} && status !in {rd, expected, nv, addr}
    requires Loose(ts, {rd, expected, nv, addr, status})
    requires Outside(refs, Of(ts) + {rd, status})
    requires code == CasCode(s.op.size, rd, expected, nv, addr, status, ts)
    ensures Simulates(refs, s, true, code, refs[s.result.value := rd])
  {
    forall known: bool, st: State, m: Mach | FlagsReady(s, known) && Match(refs, known, st, m)
      ensures Outcome(refs[s.result.value := rd], KnownAfter(s, known), code, m, LoweredStep(s, st, true))
    {
      CasAt(s, rd, addr, expected, nv, status, ts, refs, known, st, m);
    }
  }

  lemma CasAt(s: Stmt, rd: Reg, addr: Reg, expected: Reg, nv: Reg, status: Reg, ts: seq<Reg>, refs: Assign,
              known: bool, st: State, m: Mach)
    requires s.op.AtomicCmpxchg? && s.result.Some? && |ts| == AlignTemps(s.op.size) && Match(refs, known, st, m)
    requires s.op.addr in refs && refs[s.op.addr] == addr && s.op.expected in refs && refs[s.op.expected] == expected
    requires s.op.newValue in refs && refs[s.op.newValue] == nv
    requires rd !in {expected, nv, addr} && status !in {rd, expected, nv, addr}
    requires Loose(ts, {rd, expected, nv, addr, status}) && Outside(refs, Of(ts) + {rd, status})
    ensures Outcome(refs[s.result.value := rd], false, CasCode(s.op.size, rd, expected, nv, addr, status, ts), m,
                    LoweredStep(s, st, true))
  {
    StepCas(s, st);
    CasOutcome(s.op.size, s.result.value, rd, addr, expected, nv, status, ts, refs, known, st, m);
  }

  function CasMem(size: OpSize, addr: Reg, expected: Reg, nv: Reg, m: Mach): Mem {
    if MaskToSize(Load(m.mem, m.x[addr], size), size) == MaskToSize(m.x[expected], size)
    then Store(m.mem, m.x[addr], m.x[nv], size) else m.mem
  }

  lemma CasOutcome(size: OpSize, r: Ref, rd: Reg, addr: Reg, expected: Reg, nv: Reg, status: Reg, ts: seq<Reg>,
                   refs: Assign, known: bool, st: State, m: Mach)
    requires |ts| == AlignTemps(size) && Match(refs, known, st, m)
    requires rd !in {expected, nv, addr} && status !in {rd, expected, nv, addr}
    requires Loose(ts, {rd, expected, nv, addr, status}) && Outside(refs, Of(ts) + {rd, status})
    ensures Outcome(refs[r := rd], false, CasCode(size, rd, expected, nv, addr, status, ts), m,
                    Bound(st.(mem := CasMem(size, addr, expected, nv, m)), r, Load(m.mem, m.x[addr], size)))
  {
    var m1 := CasRuns(size, rd, expected, nv, addr, status, ts, m);
    StoredMatch(refs, known, st, m, m1, Of(ts) + {rd, status}, r, rd);
  }

  lemma StepPair(s: Stmt, st: State)
    requires s.op.AtomicCmpxchgPair? && s.result.Some? && st.ctl.Running?
    ensures var o := s.op;
            var a := st.Val(o.addr);
            var mem := CmpxchgPairMem(st.mem, a, st.Val(o.expectedLow), st.Val(o.expectedHigh),
                                      st.Val(o.newLow), st.Val(o.newHigh));
            LoweredStep(s, st, true)
              == Bound(Bound(st.(mem := mem), o.oldHigh, P.HighWord(st.mem, a)), s.result.value, Load(st.mem, a, I64))
  {
  }

  /** Operand registers of a pair exchange. */
  ghost predicate PairRegs(op: Op, refs: Assign, r: P.Regs)
    requires op.AtomicCmpxchgPair?
  {
    && op.addr in refs && refs[op.addr] == r.addr
    && op.expectedLow in refs && refs[op.expectedLow] == r.el
    && op.expectedHigh in refs && refs[op.expectedHigh] == r.eh
    && op.newLow in refs && refs[op.newLow] == r.nl && op.newHigh in refs && refs[op.newHigh] == r.nh
  }

  lemma PairSimulates(s: Stmt, r: P.Regs, refs: Assign, code: seq<Instr>)
    requires s.op.AtomicCmpxchgPair? && s.result.Some? && s.result.value != s.op.oldHigh
    requires PairRegs(s.op, refs, r) && P.Apart(r) && Outside(refs, P.Written(r))
    requires code == P.Code(r)
    ensures Simulates(refs, s, true, code, refs[s.result.value := r.lo][s.op.oldHigh := r.hi])
  {
    forall known: bool, st: State, m: Mach | FlagsReady(s, known) && Match(refs, known, st, m)
      ensures Outcome(refs[s.result.value := r.lo][s.op.oldHigh := r.hi], KnownAfter(s, known), code, m,
                      LoweredStep(s, st, true))
    {
      StepPair(s, st);
      PairOutcome(s.result.value, s.op.oldHigh, r, refs, known, st, m);
    }
  }

  function PairMem(r: P.Regs, m: Mach): Mem {
    CmpxchgPairMem(m.mem, m.x[r.addr], m.x[r.el], m.x[r.eh], m.x[r.nl], m.x[r.nh])
  }

  lemma PairOutcome(lo: Ref, hi: Ref, r: P.Regs, refs: Assign, known: bool, st: State, m: Mach)
    requires lo != hi && P.Apart(r) && Outside(refs, P.Written(r)) && Match(refs, known, st, m)
    ensures Outcome(refs[lo := r.lo][hi := r.hi], false, P.Code(r), m,
                    Bound(Bound(st.(mem := PairMem(r, m)), hi, P.OldHigh(r, m)), lo, P.OldLow(r, m)))
  {
    var m1 := P.PairRuns(r, m);
    StoredMatch(refs, known, st, m, m1, P.Written(r), hi, r.hi);
    RefsBound(refs[hi := r.hi], Bound(st.(mem := m1.mem), hi, m1.x[r.hi]), m1, lo, r.lo, m1.x[r.lo]);
    assert refs[hi := r.hi][lo := r.lo] == refs[lo := r.lo][hi := r.hi];
  }

  // ------------------------------------------------------------------
  // Status flags.
  // ------------------------------------------------------------------

  lemma StepCount(s: Stmt, st: State)
    requires s.op.WriteFlagsCountZero? && s.result.None? && st.ctl.Running?
    ensures LoweredStep(s, st, true)
      == Recounted(st.(flags := Nzcv(false, st.Val(s.op.count) == 0, st.Val(s.op.src) == 0, false)),
                   s.op.count, CountLeft(s.op, st))
  {
  }

  /** No other ref shares the register of `r`. */
  ghost predicate Alone(refs: Assign, r: Ref) {
    r in refs && forall q :: q in refs && q != r ==> refs[q] != refs[r]
  }

  /** The register of one ref has changed. */
  lemma RefsRecounted(refs: Assign, st: State, m: Mach, m1: Mach, ws: set<Reg>, c: Ref)
    requires RefsMatch(refs, st, m) && Outside(refs, ws) && Alone(refs, c)
    requires forall x: Reg :: x !in ws + {refs[c]} ==> m1.x[x] == m.x[x]
    ensures RefsMatch(refs, Recounted(st, c, m1.x[refs[c]]), m1)
  {
  }

  lemma CountSimulates(s: Stmt, rs: Reg, rc: Reg, t: Reg, refs: Assign, code: seq<Instr>)
    requires s.op.WriteFlagsCountZero? && s.result.None? && OperandRegs(s.op, refs, rs, rc)
    requires Alone(refs, s.op.count) && InPool(refs) && Outside(refs, {t})
    requires code == CountZeroCode(rs, rc, t)
    ensures Simulates(refs, s, true, code, refs)
  {
    forall known: bool, st: State, m: Mach | FlagsReady(s, known) && Match(refs, known, st, m)
      ensures Outcome(refs, KnownAfter(s, known), code, m, LoweredStep(s, st, true))
    {
      CountAt(s, rs, rc, t, refs, known, st, m);
    }
  }

  lemma CountAt(s: Stmt, rs: Reg, rc: Reg, t: Reg, refs: Assign, known: bool, st: State, m: Mach)
    requires s.op.WriteFlagsCountZero? && s.result.None? && Alone(refs, s.op.count) && refs[s.op.count] == rc
    requires s.op.src in refs && refs[s.op.src] == rs && t != rs
    requires InPool(refs) && Outside(refs, {t}) && Match(refs, known, st, m)
    ensures Outcome(refs, true, CountZeroCode(rs, rc, t), m, LoweredStep(s, st, true))
  {
    StepCount(s, st);
    var f := Nzcv(false, st.Val(s.op.count) == 0, st.Val(s.op.src) == 0, false);
    CountOutcome(s.op.count, rs, t, refs, known, st, m, f, CountLeft(s.op, st));
  }

  lemma CountOutcome(c: Ref, rs: Reg, t: Reg, refs: Assign, known: bool, st: State, m: Mach, f: Nzcv, v: U64)
    requires Alone(refs, c) && InPool(refs) && Outside(refs, {t}) && t != rs && Match(refs, known, st, m)
    requires f == Nzcv(false, m.x[refs[c]] == 0, m.x[rs] == 0, false) && v == Flag(m.x[rs] == 0)
    ensures Outcome(refs, true, CountZeroCode(rs, refs[c], t), m, Recounted(st.(flags := f), c, v))
  {
    var rc := refs[c];
    var m1 := CountZeroRuns(rs, rc, t, m);
    GuestKept(st, m, m1, {t, rc});
    RefsRecounted(refs, st.(flags := m1.f), m, m1, {t}, c);
  }

  lemma StepRflags(s: Stmt, st: State)
    requires s.op.StoreRflagsFromNzcv? && s.result.None? && st.ctl.Running?
    ensures var o := s.op;
            LoweredStep(s, st, true)
              == st.(rflags := RflagsFromNzcv(st.rflags, st.flags, o.carry, OptVal(st, o.pf), OptVal(st, o.af)))
  {
  }

  /** The optional operand is in its register. */
  ghost predicate OptReg(refs: Assign, r: Option<Ref>, reg: Option<Reg>) {
    (r.Some? <==> reg.Some?) && (r.Some? ==> r.value in refs && refs[r.value] == reg.value)
  }

  /** RFLAGS in the frame, registers otherwise kept. */
  lemma SavedMatch(refs: Assign, st: State, m: Mach, m1: Mach, ws: set<Reg>, w: U64)
    requires Match(refs, true, st, m) && Saved(m, m1, ws, w) && Outside(refs, ws)
    ensures Match(refs, true, st.(rflags := RflagsBits(w)), m1)
  {
    assert Word(m1.frame, RFLAGS_OFFSET) == w;
    RefsKept(refs, st, m, m1, ws);
  }

  lemma RflagsSimulates(s: Stmt, t: Temps, pf: Option<Reg>, af: Option<Reg>, refs: Assign, code: seq<Instr>)
    requires s.op.StoreRflagsFromNzcv? && s.result.None? && OptReg(refs, s.op.pf, pf) && OptReg(refs, s.op.af, af)
    requires Apart(t) && Outside(refs, Written(t))
    requires code == StatusCode(t, s.op.carry, pf, af)
    ensures Simulates(refs, s, true, code, refs)
  {
    forall known: bool, st: State, m: Mach | FlagsReady(s, known) && Match(refs, known, st, m)
      ensures Outcome(refs, KnownAfter(s, known), code, m, LoweredStep(s, st, true))
    {
      StepRflags(s, st);
      var m1, w := RflagsRuns(t, s.op.carry, pf, af, m);
      assert OptWord(m, pf) == OptVal(st, s.op.pf) && OptWord(m, af) == OptVal(st, s.op.af);
      SavedMatch(refs, st, m, m1, Written(t), w);
    }
  }

  // ------------------------------------------------------------------
  // Lists the validator accepts and the code gets wrong.
  // ------------------------------------------------------------------

  /** A byte sum of 255 and 1. */
  function ByteSum(): seq<Stmt> {
    [Stmt(Some(1), Constant(255, I8)), Stmt(Some(2), Constant(1, I8)), Stmt(Some(3), BinOp(Add, 1, 2, I8))]
  }

  lemma ByteSumValid()
    ensures V.Valid(ByteSum())
  {
    assert V.OkAt(ByteSum(), 0);
    assert V.OkAt(ByteSum(), 1);
    assert V.OkAt(ByteSum(), 2);
  }

  /** The IR says 0 and the code leaves 256. */
  lemma ByteSumFails(st: State)
    requires st.ctl.Running? && st.Val(1) == 255 && st.Val(2) == 1
    ensures Step(ByteSum()[2], st).Val(3) == 0 && LoweredStep(ByteSum()[2], st, false).Val(3) == 256
  {
    WrapSmall(256);
  }

  /** A count used after its flags are written. */
  function CountUsed(): seq<Stmt> {
    [ Stmt(Some(1), Constant(5, I64)),
      Stmt(None, WriteFlagsCountZero(1, 1, I64)),
      Stmt(None, StoreReg(RAX, 1, I64)) ]
  }

  lemma CountUsedValid()
    ensures V.Valid(CountUsed()) && Late(CountUsed(), 1)
  {
    assert V.OkAt(CountUsed(), 0);
    assert V.OkAt(CountUsed(), 1);
    assert V.OkAt(CountUsed(), 2);
    assert MentionedAt(CountUsed(), 2, 1);
  }

  /** The IR keeps the 5 and the code leaves 0. */
  lemma CountUsedFails(st: State)
    requires st.ctl.Running? && st.Val(1) == 5
    ensures Step(CountUsed()[1], st).Val(1) == 5 && LoweredStep(CountUsed()[1], st, true).Val(1) == 0
  {
  }

  // ------------------------------------------------------------------
  // String loops.
  // ------------------------------------------------------------------

  predicate IsRep(op: Op) { op.RepStos? || op.RepMovs? }

  function RepOf(op: Op): R.Rep
    requires IsRep(op)
  {
    R.Rep(op.RepMovs?, op.size, op.reverse, op.pcOfRep, op.pcAfterRep)
  }

  function RepTemps(op: Op): nat { if op.RepMovs? then 5 else 4 }

  function RepRegs(op: Op, ts: seq<Reg>): R.Temps
    requires |ts| == RepTemps(op)
  {
    R.Temps(ts[0], ts[1], ts[2], ts[3], if op.RepMovs? then ts[4] else ts[0])
  }

  lemma StepRep(s: Stmt, st: State)
    requires IsRep(s.op) && st.ctl.Running?
    ensures var p := RepOf(s.op);
            var (mem, rsi, rdi) := R.Elements(p, st.mem, st.regs[RAX], st.regs[RSI], st.regs[RDI],
                                              R.Clamped(p, st.regs[RCX]));
            var rcx := R.Left(p, st.regs[RCX]);
            LoweredStep(s, st, true) == st.(mem := mem, regs := st.regs[RCX := rcx][RSI := rsi][RDI := rdi],
                                   ctl := Exit(if rcx != 0 then p.pcOf else p.pcAfter))
  {
    if s.op.RepStos? {
      var rcx := R.Left(RepOf(s.op), st.regs[RCX]);
      assert st.regs[RCX := rcx][RSI := st.regs[RSI]] == st.regs[RCX := rcx];
    }
  }

  lemma RepGuest(st: State, m: Mach, m1: Mach, ws: set<Reg>)
    requires GuestMatch(st, m) && m1.frame == m.frame
    requires forall w :: w in ws ==> w < 10 || w in {R.HCX, R.HSI, R.HDI}
    requires forall r: Reg :: r !in ws ==> m1.x[r] == m.x[r]
    ensures GuestMatch(st.(mem := m1.mem,
                           regs := st.regs[RCX := m1.x[R.HCX]][RSI := m1.x[R.HSI]][RDI := m1.x[R.HDI]]), m1)
  {
  }

  lemma RepSimulates(s: Stmt, ts: seq<Reg>, refs: Assign, code: seq<Instr>)
    requires IsRep(s.op) && |ts| == RepTemps(s.op) && R.Apart(RepOf(s.op), RepRegs(s.op, ts))
    requires code == R.RepCode(RepOf(s.op), RepRegs(s.op, ts))
    ensures Simulates(refs, s, true, code, refs)
  {
    var p, t := RepOf(s.op), RepRegs(s.op, ts);
    forall known: bool, st: State, m: Mach | FlagsReady(s, known) && Match(refs, known, st, m)
      ensures Outcome(refs, KnownAfter(s, known), code, m, LoweredStep(s, st, true))
    {
      StepRep(s, st);
      RepStart(st, m);
      var m1 := R.HopRuns(p, t, m);
      RepGuest(st, m, m1, R.Written(p, t));
      assert GuestMatch(LoweredStep(s, st, true), m1);
    }
  }

  lemma RepStart(st: State, m: Mach)
    requires GuestMatch(st, m)
    ensures m.x[R.HAX] == st.regs[RAX] && m.x[R.HCX] == st.regs[RCX] && m.x[R.HSI] == st.regs[RSI]
    ensures m.x[R.HDI] == st.regs[RDI]
  {
    assert Host(RAX) == R.HAX && Host(RCX) == R.HCX && Host(RSI) == R.HSI && Host(RDI) == R.HDI;
  }
}
