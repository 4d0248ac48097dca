/** Which code `lower_stmt` emits for which statement, and that it is the right code
    whenever the registers come from a sound pool. */
module Emission {
  import opened Words
  import opened Arith
  import opened Scalar
  import opened Ir
  import opened Arm
  import opened Pool
  import opened AluCode
  import opened FlagCode
  import opened Simulation
  import opened OpSimulation
  import P = PairCode
  import R = EmittedRep
  import S = RflagsCode

  /** Ops that put one value in a register. */
  predicate Valued(op: Op) { Computes(op) || op.BinOp? || op.WideDiv? || op.Compare? || op.AtomicCmpxchg? }

  /** ... or two. */
  predicate Yields(op: Op) { Valued(op) || op.AtomicCmpxchgPair? }

  /** Refused in a flat list, or of a kind that sets no flags. */
  predicate Refused(op: Op) { op.Jump? || op.CondJump? || (op.AluFlags? && !SetsFlags(op.kind)) }

  predicate IsFlags(op: Op) { op.CmpFlags? || op.AluFlags? }

  /** Single-statement registers an arm asks for. */
  function TempCount(op: Op): nat {
    match op
    case BinOp(k, _, _, _) => TempsFor(k)
    case WideDiv(_, _, _, sg, _) => WideTemps(sg)
    case AtomicCmpxchg(_, _, _, s) => 1 + AlignTemps(s)
    case AtomicCmpxchgPair(_, _, _, _, _, _) => 1
    case WriteFlagsCountZero(_, _, _) => 1
    case StoreRflagsFromNzcv(_, _, _) => 5
    case CmpFlags(_, _, s) => AlignTemps(s)
    case AluFlags(k, _, _, s) => AlignTemps(s) + (if SetsFlags(k) then FlagTemps(k) else 0)
    case RepStos(_, _, _, _) => RepTemps(op)
    case RepMovs(_, _, _, _) => RepTemps(op)
    case _ => 0
  }

  /** Never more than six, and none at all for most ops at full width. */
  lemma TempsNeeded(op: Op)
    ensures TempCount(op) <= 6
    ensures Plain(op) || Departs(op) || IsStore(op) || Silent(op) ==> TempCount(op) == 0
    ensures op.Extend? || op.Compare? || op.StoreReg? || op.Jump? || op.CondJump? ==> TempCount(op) == 0
    ensures op.BinOp? && TempCount(op) > 0 ==> IsPermute(op.kind) || IsRol(op.kind) || IsMod(op.kind)
    ensures (op.CmpFlags? || op.AluFlags?) && op.size.I64? ==> TempCount(op) <= 1
  {
  }

  function First(rs: seq<Reg>): Reg { if |rs| > 0 then rs[0] else 0 }

  function Second(rs: seq<Reg>): Reg { if |rs| > 1 then rs[1] else 0 }

  function FlagsArm(op: Op, rs: seq<Reg>, ts: seq<Reg>): seq<Instr>
    requires IsFlags(op) && SetsFlags(FlagKind(op)) && |rs| == 2 && |ts| == TempCount(op)
  {
    var a := AlignTemps(op.size);
    FlagsCode(FlagKind(op), op.size, rs[0], rs[1], ts[..a], First(ts[a..]))
  }

  function PairRegsOf(rd: Reg, rh: Reg, rs: seq<Reg>, ts: seq<Reg>): P.Regs
    requires |rs| == 5 && |ts| == 1
  {
    P.Regs(rd, rh, rs[1], rs[2], rs[3], rs[4], rs[0], ts[0])
  }

  function StatusTemps(ts: seq<Reg>): S.Temps
    requires |ts| == 5
  {
    S.Temps(ts[0], ts[1], ts[2], ts[3], ts[4])
  }

  function PfReg(op: Op, rs: seq<Reg>): Option<Reg>
    requires op.StoreRflagsFromNzcv? && |rs| == |Operands(op)|
  {
    if op.pf.Some? then Some(rs[0]) else None
  }

  function AfReg(op: Op, rs: seq<Reg>): Option<Reg>
    requires op.StoreRflagsFromNzcv? && |rs| == |Operands(op)|
  {
    if op.af.Some? then Some(rs[|rs| - 1]) else None
  }

  /** Result registers (the second for a pair only), operands, temporaries. */
  function CodeOf(op: Op, rd: Reg, rh: Reg, rs: seq<Reg>, ts: seq<Reg>): seq<Instr>
    requires !Refused(op) && |rs| == |Operands(op)| && |ts| == TempCount(op)
  {
    if Plain(op) then [PlainInstr(op, rd, First(rs), Second(rs))]
    else if IsFlags(op) then FlagsArm(op, rs, ts)
    else if Departs(op) then LeaveCode(op, First(rs))
    else if IsStore(op) then [Str(rs[1], rs[0], op.size)]
    else if Silent(op) then SilentCode(op)
    else if IsRep(op) then R.RepCode(RepOf(op), RepRegs(op, ts))
    else match op
      case Extend(_, _, _, _) => ExtendCode(op, rd, rs[0])
      case Compare(cc, _, _, _) => CompareCode(cc, rd, rs[0], rs[1])
      case StoreReg(g, _, s) => [StoreRegInstr(g, rs[0], s)]
      case BinOp(k, _, _, s) => BinCode(k, s, rd, rs[0], rs[1], ts)
      case WideDiv(_, _, _, _, _) => WideCode(op, rd, rs[0], rs[1], rs[2], ts)
      case AtomicCmpxchg(_, _, _, s) => CasCode(s, rd, rs[1], rs[2], rs[0], ts[0], ts[1..])
      case AtomicCmpxchgPair(_, _, _, _, _, _) => P.Code(PairRegsOf(rd, rh, rs, ts))
      case WriteFlagsCountZero(_, _, _) => S.CountZeroCode(rs[0], rs[1], ts[0])
      case StoreRflagsFromNzcv(c, _, _) => S.StatusCode(StatusTemps(ts), c, PfReg(op, rs), AfReg(op, rs))
  }

  /** A result exactly where the op has one. */
  predicate Placed(s: Stmt) { s.result.Some? <==> Yields(s.op) }

  // ------------------------------------------------------------------
  // A sound pool keeps the registers of a statement apart.
  // ------------------------------------------------------------------

  /** Operand registers are where the refs are. */
  ghost predicate Fetched(ops: seq<Ref>, rs: seq<Reg>, refs: Assign) {
    |rs| == |ops| && forall i :: 0 <= i < |ops| ==> ops[i] in refs && refs[ops[i]] == rs[i]
  }

  /** Where refs are once a statement's results have registers. */
  function Assigned(s: Stmt, rd: Reg, rh: Reg, refs: Assign): Assign {
    if s.result.None? || !Yields(s.op) then refs
    else if s.op.AtomicCmpxchgPair? then refs[s.result.value := rd][s.op.oldHigh := rh]
    else refs[s.result.value := rd]
  }

  /** The results are new, and apart. */
  ghost predicate Fresh(s: Stmt, refs: Assign) {
    Yields(s.op) ==>
      && s.result.Some? && s.result.value !in refs
      && (s.op.AtomicCmpxchgPair? ==> s.op.oldHigh !in refs && s.op.oldHigh != s.result.value)
  }

  /** The pool once a statement has all its registers. */
  ghost predicate Allotted(p: Pool, s: Stmt, rd: Reg, rh: Reg, refs: Assign) {
    RegsPartition(p) && Fresh(s, refs) && p.refs == Assigned(s, rd, rh, refs)
  }

  lemma HeldIsPool(p: Pool, r: Ref)
    requires RegsPartition(p) && r in p.refs
    ensures p.refs[r] < POOL_SIZE && p.refs[r] !in p.temps
  {
    assert Held(p.refs, p.refs[r]) && Once(p, p.refs[r]);
  }

  lemma TempIsPool(p: Pool, t: Reg)
    requires RegsPartition(p) && t in p.temps
    ensures t < POOL_SIZE && !Held(p.refs, t)
  {
    assert Once(p, t);
  }

  lemma TempsApart(p: Pool)
    requires RegsPartition(p)
    ensures forall i, j :: 0 <= i < j < |p.temps| ==> p.temps[i] != p.temps[j]
  {
    forall i, j | 0 <= i < j < |p.temps| ensures p.temps[i] != p.temps[j] { assert Differ(p.temps, i, j); }
  }

  lemma OthersOutside(p: Pool, refs: Assign, r: Ref, q: Ref, rd: Reg)
    requires RegsPartition(p) && r !in refs && p.refs == refs[r := rd] && q in refs
    ensures refs[q] != rd && refs[q] < POOL_SIZE && refs[q] !in p.temps
  {
    assert Apart(p.refs, q, r) && p.refs[q] == refs[q];
    HeldIsPool(p, q);
  }

  /** With a result: it and the temporaries hold nothing else. */
  lemma ValuedApart(p: Pool, s: Stmt, rd: Reg, rh: Reg, refs: Assign)
    requires Allotted(p, s, rd, rh, refs) && Valued(s.op)
    ensures Outside(refs, Touched(rd, p.temps)) && rd !in p.temps
    ensures forall q :: q in refs ==> refs[q] != rd && refs[q] !in p.temps
  {
    var r := s.result.value;
    HeldIsPool(p, r);
    forall q | q in refs ensures refs[q] != rd && refs[q] !in p.temps { OthersOutside(p, refs, r, q, rd); }
    forall w | w in Touched(rd, p.temps) ensures w < 10 { if w in p.temps { TempIsPool(p, w); } }
  }

  lemma UnvaluedApart(p: Pool, refs: Assign)
    requires RegsPartition(p) && p.refs == refs
    ensures Outside(refs, Of(p.temps)) && InPool(refs)
    ensures forall q :: q in refs ==> refs[q] !in p.temps
  {
    forall q | q in refs ensures refs[q] !in p.temps && refs[q] < 10 { HeldIsPool(p, q); }
    forall w | w in Of(p.temps) ensures w < 10 { TempIsPool(p, w); }
  }

  // ------------------------------------------------------------------
  // So every arm simulates its statement.
  // ------------------------------------------------------------------

  lemma FetchedRegs(op: Op, rs: seq<Reg>, refs: Assign)
    requires Fetched(Operands(op), rs, refs)
    ensures OperandRegs(op, refs, First(rs), Second(rs))
  {
  }

  /** What a statement may count on once its registers are allotted. */
  ghost predicate Ready(rd: Reg, ts: seq<Reg>, refs: Assign) {
    && Outside(refs, Touched(rd, ts)) && rd !in ts
    && (forall i, j :: 0 <= i < j < |ts| ==> ts[i] != ts[j])
    && (forall q :: q in refs ==> refs[q] != rd && refs[q] !in ts)
  }

  lemma ReadyFrom(p: Pool, s: Stmt, rd: Reg, rh: Reg, refs: Assign)
    requires Allotted(p, s, rd, rh, refs) && Valued(s.op)
    ensures Ready(rd, p.temps, refs)
  {
    ValuedApart(p, s, rd, rh, refs);
    TempsApart(p);
  }

  /** Operand registers are apart from the rest. */
  lemma SeparateFrom(op: Op, rd: Reg, rs: seq<Reg>, ts: seq<Reg>, refs: Assign, ops: set<Reg>)
    requires Ready(rd, ts, refs) && Fetched(Operands(op), rs, refs) && forall x :: x in ops ==> x in rs
    ensures Separate(rd, ts, ops)
  {
    forall x | x in ops ensures x != rd && x !in ts {
      var i :| 0 <= i < |rs| && rs[i] == x;
      assert Operands(op)[i] in refs;
    }
    forall i | 0 <= i < |ts| ensures ts[i] !in ops { assert ts[i] in ts; }
  }

  lemma PlainArm(s: Stmt, rd: Reg, rh: Reg, rs: seq<Reg>, ts: seq<Reg>, refs: Assign)
    requires Placed(s) && Ready(rd, ts, refs) && |ts| == TempCount(s.op)
    requires Fetched(Operands(s.op), rs, refs) && Plain(s.op)
    ensures Simulates(refs, s, true, CodeOf(s.op, rd, rh, rs, ts), refs[s.result.value := rd])
  {
    FetchedRegs(s.op, rs, refs);
    assert rd in Touched(rd, ts);
    PlainSimulates(s, rd, First(rs), Second(rs), refs, CodeOf(s.op, rd, rh, rs, ts));
  }

  lemma ExtendArm(s: Stmt, rd: Reg, rh: Reg, rs: seq<Reg>, ts: seq<Reg>, refs: Assign)
    requires Placed(s) && Ready(rd, ts, refs) && |ts| == TempCount(s.op)
    requires Fetched(Operands(s.op), rs, refs) && s.op.Extend?
    ensures Simulates(refs, s, true, CodeOf(s.op, rd, rh, rs, ts), refs[s.result.value := rd])
  {
    assert rd in Touched(rd, ts) && Operands(s.op)[0] == s.op.src;
    ExtendSimulates(s, rd, rs[0], refs, CodeOf(s.op, rd, rh, rs, ts));
  }

  lemma CompareArm(s: Stmt, rd: Reg, rh: Reg, rs: seq<Reg>, ts: seq<Reg>, refs: Assign)
    requires Placed(s) && Ready(rd, ts, refs) && |ts| == TempCount(s.op)
    requires Fetched(Operands(s.op), rs, refs) && s.op.Compare?
    ensures Simulates(refs, s, true, CodeOf(s.op, rd, rh, rs, ts), refs[s.result.value := rd])
  {
    FetchedRegs(s.op, rs, refs);
    assert rd in Touched(rd, ts);
    CompareSimulates(s, rd, rs[0], rs[1], refs, CodeOf(s.op, rd, rh, rs, ts));
  }

  lemma BinArm(s: Stmt, rd: Reg, rh: Reg, rs: seq<Reg>, ts: seq<Reg>, refs: Assign)
    requires Placed(s) && Ready(rd, ts, refs) && |ts| == TempCount(s.op)
    requires Fetched(Operands(s.op), rs, refs) && s.op.BinOp?
    ensures Simulates(refs, s, true, CodeOf(s.op, rd, rh, rs, ts), refs[s.result.value := rd])
  {
    FetchedRegs(s.op, rs, refs);
    SeparateFrom(s.op, rd, rs, ts, refs, {rs[0], rs[1]});
    BinOpSimulates(s, rd, rs[0], rs[1], ts, refs, CodeOf(s.op, rd, rh, rs, ts));
  }

  lemma WideArm(s: Stmt, rd: Reg, rh: Reg, rs: seq<Reg>, ts: seq<Reg>, refs: Assign)
    requires Placed(s) && Ready(rd, ts, refs) && |ts| == TempCount(s.op)
    requires Fetched(Operands(s.op), rs, refs) && s.op.WideDiv?
    ensures Simulates(refs, s, true, CodeOf(s.op, rd, rh, rs, ts), refs[s.result.value := rd])
  {
    var ops := Operands(s.op);
    assert ops[0] == s.op.high && ops[1] == s.op.low && ops[2] == s.op.divisor;
    SeparateFrom(s.op, rd, rs, ts, refs, {rs[0], rs[1], rs[2]});
    WideSimulates(s, rd, rs[0], rs[1], rs[2], ts, refs, CodeOf(s.op, rd, rh, rs, ts));
  }

  lemma CasArm(s: Stmt, rd: Reg, rh: Reg, rs: seq<Reg>, ts: seq<Reg>, refs: Assign)
    requires Placed(s) && Ready(rd, ts, refs) && |ts| == TempCount(s.op)
    requires Fetched(Operands(s.op), rs, refs) && s.op.AtomicCmpxchg?
    ensures Simulates(refs, s, true, CodeOf(s.op, rd, rh, rs, ts), refs[s.result.value := rd])
  {
    var ops := Operands(s.op);
    assert ops[0] == s.op.addr && ops[1] == s.op.expected && ops[2] == s.op.newValue;
    SeparateFrom(s.op, rd, rs, ts, refs, {rs[0], rs[1], rs[2]});
    CasLoose(rd, rs, ts);
    CasSet(rd, ts);
    CasSimulates(s, rd, rs[0], rs[1], rs[2], ts[0], ts[1..], refs, CodeOf(s.op, rd, rh, rs, ts));
  }

  lemma CasSet(rd: Reg, ts: seq<Reg>)
    requires |ts| > 0
    ensures Of(ts[1..]) + {rd, ts[0]} == Touched(rd, ts)
  {
    assert ts == [ts[0]] + ts[1..];
  }

  lemma CasLoose(rd: Reg, rs: seq<Reg>, ts: seq<Reg>)
    requires |ts| > 0 && |rs| == 3 && Separate(rd, ts, {rs[0], rs[1], rs[2]})
    ensures Loose(ts[1..], {rd, rs[1], rs[2], rs[0], ts[0]}) && ts[0] !in {rd, rs[0], rs[1], rs[2]}
  {
    assert forall i :: 0 <= i < |ts| ==> ts[i] in ts;
    forall i | 0 <= i < |ts| - 1 ensures ts[1..][i] !in {rd, rs[1], rs[2], rs[0], ts[0]} {
      assert ts[1..][i] == ts[i + 1];
    }
  }

  lemma ValuedArm(s: Stmt, rd: Reg, rh: Reg, rs: seq<Reg>, ts: seq<Reg>, refs: Assign)
    requires Placed(s) && Valued(s.op) && Ready(rd, ts, refs) && |ts| == TempCount(s.op)
    requires Fetched(Operands(s.op), rs, refs)
    ensures Simulates(refs, s, true, CodeOf(s.op, rd, rh, rs, ts), refs[s.result.value := rd])
  {
    if Plain(s.op) { PlainArm(s, rd, rh, rs, ts, refs); }
    else if s.op.Extend? { ExtendArm(s, rd, rh, rs, ts, refs); }
    else if s.op.Compare? { CompareArm(s, rd, rh, rs, ts, refs); }
    else if s.op.BinOp? { BinArm(s, rd, rh, rs, ts, refs); }
    else if s.op.WideDiv? { WideArm(s, rd, rh, rs, ts, refs); }
    else { CasArm(s, rd, rh, rs, ts, refs); }
  }

  lemma FlagArm(s: Stmt, rd: Reg, rh: Reg, rs: seq<Reg>, ts: seq<Reg>, refs: Assign, p: Pool)
    requires Placed(s) && Allotted(p, s, rd, rh, refs) && p.temps == ts && |ts| == TempCount(s.op)
    requires Fetched(Operands(s.op), rs, refs) && IsFlags(s.op) && !Refused(s.op)
    ensures Simulates(refs, s, true, CodeOf(s.op, rd, rh, rs, ts), p.refs)
  {
    var a := AlignTemps(s.op.size);
    FetchedRegs(s.op, rs, refs);
    UnvaluedApart(p, refs);
    TempsApart(p);
    var ops := Operands(s.op);
    assert refs[ops[0]] == rs[0] && refs[ops[1]] == rs[1];
    forall i | 0 <= i < a ensures ts[..a][i] !in {rs[0], rs[1]} { assert ts[i] in ts; }
    FlagSet(FlagKind(s.op), ts, a);
    FlagsSimulates(s, rs[0], rs[1], ts[..a], First(ts[a..]), refs, CodeOf(s.op, rd, rh, rs, ts));
  }

  lemma FlagSet(k: BinOpKind, ts: seq<Reg>, a: nat)
    requires |ts| == a + FlagTemps(k)
    ensures Of(ts[..a]) + (if k.Sub? then {} else {First(ts[a..])}) == Of(ts)
  {
    assert ts == ts[..a] + ts[a..];
    if !k.Sub? { assert ts[a..] == [ts[a]]; }
  }

  lemma StoreArm(s: Stmt, rd: Reg, rh: Reg, rs: seq<Reg>, ts: seq<Reg>, refs: Assign)
    requires Placed(s) && |ts| == TempCount(s.op)
    requires Fetched(Operands(s.op), rs, refs) && IsStore(s.op)
    ensures Simulates(refs, s, true, CodeOf(s.op, rd, rh, rs, ts), refs)
  {
    FetchedRegs(s.op, rs, refs);
    StoreSimulates(s, rs[0], rs[1], refs, CodeOf(s.op, rd, rh, rs, ts));
  }

  lemma StoreRegArm(s: Stmt, rd: Reg, rh: Reg, rs: seq<Reg>, ts: seq<Reg>, refs: Assign)
    requires Placed(s) && |ts| == TempCount(s.op) && InPool(refs)
    requires Fetched(Operands(s.op), rs, refs) && s.op.StoreReg?
    ensures Simulates(refs, s, true, CodeOf(s.op, rd, rh, rs, ts), refs)
  {
    assert Operands(s.op)[0] == s.op.src;
    StoreRegSimulates(s, rs[0], refs, CodeOf(s.op, rd, rh, rs, ts));
  }

  lemma LeaveArm(s: Stmt, rd: Reg, rh: Reg, rs: seq<Reg>, ts: seq<Reg>, refs: Assign)
    requires Placed(s) && |ts| == TempCount(s.op)
    requires Fetched(Operands(s.op), rs, refs) && (Silent(s.op) || Departs(s.op))
    ensures Simulates(refs, s, true, CodeOf(s.op, rd, rh, rs, ts), refs)
  {
    if Silent(s.op) { SilentSimulates(s, refs, CodeOf(s.op, rd, rh, rs, ts)); }
    else {
      FetchedRegs(s.op, rs, refs);
      LeaveSimulates(s, First(rs), refs, CodeOf(s.op, rd, rh, rs, ts));
    }
  }

  lemma RepArm(s: Stmt, rd: Reg, rh: Reg, rs: seq<Reg>, ts: seq<Reg>, refs: Assign, p: Pool)
    requires Placed(s) && Allotted(p, s, rd, rh, refs) && p.temps == ts && |ts| == TempCount(s.op)
    requires Fetched(Operands(s.op), rs, refs) && IsRep(s.op)
    ensures Simulates(refs, s, true, CodeOf(s.op, rd, rh, rs, ts), p.refs)
  {
    TempsApart(p);
    forall i | 0 <= i < |ts| ensures ts[i] < 10 { TempIsPool(p, ts[i]); }
    RepSimulates(s, ts, refs, CodeOf(s.op, rd, rh, rs, ts));
  }

  /** Two results: they and the temporaries hold nothing else. */
  lemma PairApart(p: Pool, s: Stmt, rd: Reg, rh: Reg, refs: Assign)
    requires Allotted(p, s, rd, rh, refs) && s.op.AtomicCmpxchgPair?
    ensures rd != rh && rd !in p.temps && rh !in p.temps && rd < 10 && rh < 10
    ensures forall q :: q in refs ==> refs[q] != rd && refs[q] != rh && refs[q] !in p.temps
  {
    var r, h := s.result.value, s.op.oldHigh;
    HeldIsPool(p, r);
    HeldIsPool(p, h);
    assert Apart(p.refs, r, h);
    forall q | q in refs ensures refs[q] != rd && refs[q] != rh && refs[q] !in p.temps {
      assert p.refs[q] == refs[q] && Apart(p.refs, q, r) && Apart(p.refs, q, h);
      HeldIsPool(p, q);
    }
  }

  lemma PairArm(s: Stmt, rd: Reg, rh: Reg, rs: seq<Reg>, ts: seq<Reg>, refs: Assign, p: Pool)
    requires Placed(s) && Allotted(p, s, rd, rh, refs) && p.temps == ts && |ts| == TempCount(s.op)
    requires Fetched(Operands(s.op), rs, refs) && s.op.AtomicCmpxchgPair?
    ensures Simulates(refs, s, true, CodeOf(s.op, rd, rh, rs, ts), p.refs)
  {
    var r := PairRegsOf(rd, rh, rs, ts);
    PairApart(p, s, rd, rh, refs);
    assert ts[0] in p.temps;
    TempIsPool(p, ts[0]);
    PairOperands(s.op, rd, rh, rs, ts, refs);
    PairSimulates(s, r, refs, CodeOf(s.op, rd, rh, rs, ts));
  }

  lemma PairOperands(op: Op, rd: Reg, rh: Reg, rs: seq<Reg>, ts: seq<Reg>, refs: Assign)
    requires op.AtomicCmpxchgPair? && Fetched(Operands(op), rs, refs) && |ts| == 1
    requires rd != rh && rd != ts[0] && rh != ts[0]
    requires forall q :: q in refs ==> refs[q] != rd && refs[q] != rh && refs[q] != ts[0]
    ensures PairRegs(op, refs, PairRegsOf(rd, rh, rs, ts)) && P.Apart(PairRegsOf(rd, rh, rs, ts))
  {
    var ops := Operands(op);
    assert refs[ops[0]] == rs[0] && refs[ops[1]] == rs[1] && refs[ops[2]] == rs[2];
    assert refs[ops[3]] == rs[3] && refs[ops[4]] == rs[4];
  }

  lemma CountArm(s: Stmt, rd: Reg, rh: Reg, rs: seq<Reg>, ts: seq<Reg>, refs: Assign, p: Pool)
    requires Placed(s) && Allotted(p, s, rd, rh, refs) && p.temps == ts && |ts| == TempCount(s.op)
    requires Fetched(Operands(s.op), rs, refs) && s.op.WriteFlagsCountZero?
    ensures Simulates(refs, s, true, CodeOf(s.op, rd, rh, rs, ts), p.refs)
  {
    var c := s.op.count;
    FetchedRegs(s.op, rs, refs);
    UnvaluedApart(p, refs);
    assert Of(ts) == {ts[0]} && Operands(s.op)[1] == c;
    forall q | q in refs && q != c ensures refs[q] != refs[c] { assert Apart(p.refs, q, c); }
    CountSimulates(s, rs[0], rs[1], ts[0], refs, CodeOf(s.op, rd, rh, rs, ts));
  }

  lemma StatusApart(p: Pool)
    requires RegsPartition(p) && |p.temps| == 5
    ensures S.Apart(StatusTemps(p.temps)) && S.Written(StatusTemps(p.temps)) == Of(p.temps)
  {
    TempsApart(p);
  }

  lemma StatusOperands(op: Op, rs: seq<Reg>, refs: Assign)
    requires op.StoreRflagsFromNzcv? && Fetched(Operands(op), rs, refs)
    ensures OptReg(refs, op.pf, PfReg(op, rs)) && OptReg(refs, op.af, AfReg(op, rs))
  {
    var ops := Operands(op);
    if op.pf.Some? { assert ops[0] == op.pf.value; }
    if op.af.Some? { assert ops[|ops| - 1] == op.af.value; }
  }

  lemma StatusArm(s: Stmt, rd: Reg, rh: Reg, rs: seq<Reg>, ts: seq<Reg>, refs: Assign, p: Pool)
    requires Placed(s) && Allotted(p, s, rd, rh, refs) && p.temps == ts && |ts| == TempCount(s.op)
    requires Fetched(Operands(s.op), rs, refs) && s.op.StoreRflagsFromNzcv?
    ensures Simulates(refs, s, true, CodeOf(s.op, rd, rh, rs, ts), p.refs)
  {
    UnvaluedApart(p, refs);
    StatusApart(p);
    StatusOperands(s.op, rs, refs);
    RflagsSimulates(s, StatusTemps(ts), PfReg(s.op, rs), AfReg(s.op, rs), refs, CodeOf(s.op, rd, rh, rs, ts));
  }

  /** Whatever the op, the code it gets simulates it. */
  lemma CodeSimulates(s: Stmt, rd: Reg, rh: Reg, rs: seq<Reg>, ts: seq<Reg>, refs: Assign, p: Pool)
    requires !Refused(s.op) && Placed(s) && Allotted(p, s, rd, rh, refs)
    requires p.temps == ts && |ts| == TempCount(s.op) && Fetched(Operands(s.op), rs, refs)
    ensures Simulates(refs, s, true, CodeOf(s.op, rd, rh, rs, ts), p.refs)
  {
    if Valued(s.op) {
      ReadyFrom(p, s, rd, rh, refs);
      ValuedArm(s, rd, rh, rs, ts, refs);
    } else if s.op.AtomicCmpxchgPair? { PairArm(s, rd, rh, rs, ts, refs, p); }
    else if s.op.WriteFlagsCountZero? { CountArm(s, rd, rh, rs, ts, refs, p); }
    else if s.op.StoreRflagsFromNzcv? { StatusArm(s, rd, rh, rs, ts, refs, p); }
    else if IsFlags(s.op) { FlagArm(s, rd, rh, rs, ts, refs, p); }
    else if IsRep(s.op) { RepArm(s, rd, rh, rs, ts, refs, p); }
    else {
      UnvaluedApart(p, refs);
      if IsStore(s.op) { StoreArm(s, rd, rh, rs, ts, refs); }
      else if s.op.StoreReg? { StoreRegArm(s, rd, rh, rs, ts, refs); }
      else { LeaveArm(s, rd, rh, rs, ts, refs); }
    }
  }
}
