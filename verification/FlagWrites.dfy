/** `flag_write_elimination`: flag writes that no reader sees are dropped. */
module FlagWrites {
  import opened Words
  import opened Scalar
  import opened Ir

  predicate Droppable(op: Op) { op.CmpFlags? || op.AluFlags? || op.WriteFlagsCountZero? }
  predicate Reads(op: Op) { op.CondJumpRel? || op.Select? || op.StoreRflagsFromNzcv? }
  predicate Writes(op: Op) { Droppable(op) || op.Compare? }

  /** The most recent writer not yet read, and the positions to drop. */
  datatype Scan = Scan(writer: Option<nat>, droppable: bool, drop: set<nat>)

  function Superseded(sc: Scan): set<nat> {
    if sc.writer.Some? && sc.droppable then sc.drop + {sc.writer.value} else sc.drop
  }

  function Scanned(sc: Scan, op: Op, i: nat): Scan {
    if Droppable(op) then Scan(Some(i), true, Superseded(sc))
    else if op.Compare? then Scan(Some(i), false, Superseded(sc))
    else if Reads(op) then Scan(None, false, sc.drop)
    else sc
  }

  function ScanAt(stmts: seq<Stmt>, n: nat): Scan
    requires n <= |stmts|
  {
    if n == 0 then Scan(None, false, {}) else Scanned(ScanAt(stmts, n - 1), stmts[n - 1].op, n - 1)
  }

  /** A write still pending at the end has no reader either. */
  function Dropped(stmts: seq<Stmt>): set<nat> { Superseded(ScanAt(stmts, |stmts|)) }

  method Eliminate(stmts: seq<Stmt>) returns (out: seq<Stmt>)
    ensures out == Remaining(stmts, Dropped(stmts), |stmts|)
  {
    var drop: set<nat> := {};
    var writer: Option<nat>, droppable := None, false;
    for i := 0 to |stmts|
      invariant Scan(writer, droppable, drop) == ScanAt(stmts, i)
    {
      var op := stmts[i].op;
      if Droppable(op) {
        if writer.Some? && droppable { drop := drop + {writer.value}; }
        writer, droppable := Some(i), true;
      } else if op.Compare? {
        if writer.Some? && droppable { drop := drop + {writer.value}; }
        writer, droppable := Some(i), false;
      } else if Reads(op) {
        writer, droppable := None, false;
      }
    }
    if writer.Some? && droppable { drop := drop + {writer.value}; }
    out := Filter(stmts, drop);
  }

  // ------------------------------------------------------------------
  // Which writes are dropped.
  // ------------------------------------------------------------------

  ghost predicate Overwritten(stmts: seq<Stmt>, i: nat, n: nat) {
    exists w :: i < w < n && w < |stmts| && Writes(stmts[w].op)
  }

  /** A reader among the first `n` statements sees the flags as `i` left them. */
  ghost predicate Seen(stmts: seq<Stmt>, i: nat, n: nat) {
    exists j: nat :: i < j < n && j < |stmts| && Reads(stmts[j].op) && !Overwritten(stmts, i, j)
  }

  lemma OverwrittenNext(stmts: seq<Stmt>, i: nat, n: nat)
    requires i < n <= |stmts|
    ensures Overwritten(stmts, i, n) <==>
      Overwritten(stmts, i, n - 1) || (i < n - 1 && Writes(stmts[n - 1].op))
  {
  }

  lemma SeenNext(stmts: seq<Stmt>, i: nat, n: nat)
    requires i < n <= |stmts|
    ensures Seen(stmts, i, n) <==>
      Seen(stmts, i, n - 1) || (i < n - 1 && Reads(stmts[n - 1].op) && !Overwritten(stmts, i, n - 1))
  {
  }

  /** The scan has put `i` aside exactly if it is an unseen write and overwritten, and
      still waits for its fate exactly if it is not. */
  lemma {:induction false} ScanExact(stmts: seq<Stmt>, n: nat, i: nat)
    requires n <= |stmts|
    ensures i in ScanAt(stmts, n).drop <==>
      i < n && Droppable(stmts[i].op) && !Seen(stmts, i, n) && Overwritten(stmts, i, n)
    ensures ScanAt(stmts, n).writer == Some(i) && ScanAt(stmts, n).droppable <==>
      i < n && Droppable(stmts[i].op) && !Seen(stmts, i, n) && !Overwritten(stmts, i, n)
    decreases n
  {
    if n > 0 {
      ScanExact(stmts, n - 1, i);
      if i < n {
        OverwrittenNext(stmts, i, n);
        SeenNext(stmts, i, n);
      }
    }
  }

  /** A flag write is dropped exactly if no reader sees it. */
  lemma DroppedExact(stmts: seq<Stmt>, i: nat)
    ensures i in Dropped(stmts) <==> i < |stmts| && Droppable(stmts[i].op) && !Seen(stmts, i, |stmts|)
  {
    ScanExact(stmts, |stmts|, i);
  }

  // ------------------------------------------------------------------
  // Readers and writers are what they are called.
  // ------------------------------------------------------------------

  function Blind(st: State): State { st.(flags := Nzcv(false, false, false, false)) }

  predicate Tells(op: Op, st: State, f: Nzcv) {
    Blind(Step(Stmt(Some(0), op), st.(flags := f))) != Blind(Step(Stmt(Some(0), op), st))
  }

  /** Something besides the flags comes out different with other flags. */
  ghost predicate DependsOnFlags(op: Op) { exists st: State, f: Nzcv :: Tells(op, st, f) }

  /** Flags under which the code holds, or does not. */
  function FlagsFor(cc: CondCode, holds: bool): (f: Nzcv)
    ensures CondHolds(cc, f) == holds
  {
    match cc
    case Eq => Nzcv(false, holds, false, false)
    case Ne => Nzcv(false, !holds, false, false)
    case Ult => Nzcv(false, false, !holds, false)
    case Ule => Nzcv(false, false, !holds, false)
    case Ugt => Nzcv(false, false, holds, false)
    case Uge => Nzcv(false, false, holds, false)
    case Slt => Nzcv(holds, false, false, false)
    case Sle => Nzcv(holds, false, false, false)
    case Sgt => Nzcv(!holds, false, false, false)
    case Sge => Nzcv(!holds, false, false, false)
    case Cc => Nzcv(false, false, !holds, false)
    case Nc => Nzcv(false, false, holds, false)
    case Ov => Nzcv(false, false, false, holds)
    case NoOv => Nzcv(false, false, false, !holds)
    case Mi => Nzcv(holds, false, false, false)
    case Pl => Nzcv(!holds, false, false, false)
  }

  lemma OthersBlind(op: Op, st: State, f: Nzcv)
    requires !Reads(op)
    ensures !Tells(op, st, f)
  {
    ResultBlind(op, st, f);
    EffectBlind(op, st, f);
  }

  lemma ResultBlind(op: Op, st: State, f: Nzcv)
    requires !Reads(op)
    ensures ResultOf(op, st.(flags := f)) == ResultOf(op, st)
  {
  }

  predicate IsRep(op: Op) { op.RepStos? || op.RepMovs? }

  predicate IsExchange(op: Op) { op.AtomicCmpxchg? || op.AtomicCmpxchgPair? }

  lemma RepBlind(op: Op, st: State, f: Nzcv)
    requires IsRep(op)
    ensures Blind(Effect(op, st.(flags := f))) == Blind(Effect(op, st))
  {
  }

  lemma ExchangeBlind(op: Op, st: State, f: Nzcv)
    requires IsExchange(op)
    ensures Blind(Effect(op, st.(flags := f))) == Blind(Effect(op, st))
  {
  }

  lemma WriterBlind(op: Op, st: State, f: Nzcv)
    requires Writes(op)
    ensures Blind(Effect(op, st.(flags := f))) == Blind(Effect(op, st))
  {
  }

  lemma EffectBlind(op: Op, st: State, f: Nzcv)
    requires !Reads(op)
    ensures Blind(Effect(op, st.(flags := f))) == Blind(Effect(op, st))
  {
    if IsRep(op) { RepBlind(op, st, f); }
    else if IsExchange(op) { ExchangeBlind(op, st, f); }
    else if Writes(op) { WriterBlind(op, st, f); }
  }

  function Plainly(env: map<Ref, U64>, f: Nzcv): State {
    State(env, seq(16, i => 0), map[], f, Rflags(false, false, false, false, false, false), Running)
  }

  lemma BranchTells(cc: CondCode, pc: U64, next: U64)
    requires pc != next
    ensures Tells(CondJumpRel(cc, pc, next), Plainly(map[], FlagsFor(cc, false)), FlagsFor(cc, true))
  {
    var s, st := Stmt(Some(0), CondJumpRel(cc, pc, next)), Plainly(map[], FlagsFor(cc, false));
    assert Step(s, st).ctl == Exit(next) && Step(s, st.(flags := FlagsFor(cc, true))).ctl == Exit(pc);
  }

  lemma SelectTells(cc: CondCode, t: Ref, e: Ref, z: OpSize)
    requires t != e
    ensures Tells(Select(cc, t, e, z), Plainly(map[t := 1], FlagsFor(cc, false)), FlagsFor(cc, true))
  {
    var s, st := Stmt(Some(0), Select(cc, t, e, z)), Plainly(map[t := 1], FlagsFor(cc, false));
    assert Step(s, st).Val(0) == 0 && Step(s, st.(flags := FlagsFor(cc, true))).Val(0) == 1;
  }

  lemma StatusTells(op: Op)
    requires op.StoreRflagsFromNzcv?
    ensures Tells(op, Plainly(map[], FlagsFor(Eq, false)), FlagsFor(Eq, true))
  {
    var s, st := Stmt(Some(0), op), Plainly(map[], FlagsFor(Eq, false));
    assert !Step(s, st).rflags.zf && Step(s, st.(flags := FlagsFor(Eq, true))).rflags.zf;
  }

  /** Exactly the readers depend on the flags, ops whose two ways are one apart. */
  lemma ReadsExact(op: Op)
    requires op.CondJumpRel? ==> op.pc != op.fallthrough
    requires op.Select? ==> op.ifTrue != op.ifFalse
    ensures Reads(op) <==> DependsOnFlags(op)
  {
    if op.CondJumpRel? { BranchTells(op.cc, op.pc, op.fallthrough); }
    else if op.Select? { SelectTells(op.cc, op.ifTrue, op.ifFalse, op.size); }
    else if op.StoreRflagsFromNzcv? { StatusTells(op); }
    else { forall st: State, f: Nzcv ensures !Tells(op, st, f) { OthersBlind(op, st, f); } }
  }

  /** Exactly the writers can change them. */
  lemma WritesExact(op: Op)
    ensures Writes(op) <==> exists st: State :: Effect(op, st).flags != st.flags
  {
    if Writes(op) {
      var off := Rflags(false, false, false, false, false, false);
      var st := State(map[], seq(16, i => 0), map[], Nzcv(true, true, true, true), off, Running);
      assert Effect(op, st).flags != st.flags;
    }
  }

  ghost predicate ScanOk(sc: Scan, n: nat) {
    && (forall i :: i in sc.drop ==> i < n)
    && (sc.writer.Some? ==> sc.writer.value < n && sc.writer.value !in sc.drop)
    && (sc.droppable ==> sc.writer.Some?)
  }

  lemma {:induction false} ScanIsOk(stmts: seq<Stmt>, n: nat)
    requires n <= |stmts|
    ensures ScanOk(ScanAt(stmts, n), n)
  {
    if n > 0 { ScanIsOk(stmts, n - 1); }
  }

  ghost predicate FromHere(sc: Scan, p: nat, i: nat) { i >= p || i in sc.drop || sc.writer == Some(i) }

  /** What is dropped later was pending, dropped already, or comes later. */
  lemma {:induction false} DroppedFrom(stmts: seq<Stmt>, p: nat, q: nat, i: nat)
    requires p <= q <= |stmts|
    requires i in ScanAt(stmts, q).drop || ScanAt(stmts, q).writer == Some(i)
    ensures FromHere(ScanAt(stmts, p), p, i)
    decreases q
  {
    if p < q && i != q - 1 { DroppedFrom(stmts, p, q - 1, i); }
  }

  /** Whatever a reader sees is kept. */
  lemma ReaderPins(stmts: seq<Stmt>, n: nat)
    requires n < |stmts| && Reads(stmts[n].op)
    ensures var w := ScanAt(stmts, n).writer; w.Some? ==> w.value !in Dropped(stmts)
  {
    ScanIsOk(stmts, n);
    var w := ScanAt(stmts, n).writer;
    if w.Some? && w.value in Dropped(stmts) {
      DroppedFrom(stmts, n + 1, |stmts|, w.value);
      assert false;
    }
  }

  /** Only writes without a result are dropped, and a pending `Compare` is not. */
  lemma {:induction false} DropsAreWrites(stmts: seq<Stmt>, q: nat, i: nat)
    requires q <= |stmts|
    ensures i in Superseded(ScanAt(stmts, q)) ==> i < |stmts| && Droppable(stmts[i].op)
    decreases q
  {
    if q > 0 { DropsAreWrites(stmts, q - 1, i); }
  }

  // ------------------------------------------------------------------
  // The two runs side by side.
  // ------------------------------------------------------------------

  /** Same state up to flags, and same flags unless the pending write is one of
      the dropped ones. */
  ghost predicate Related(sc: Scan, drop: set<nat>, st: State, st': State) {
    && st' == st.(flags := st'.flags)
    && (st.ctl.Running? ==> st'.flags == st.flags || (sc.writer.Some? && sc.writer.value in drop))
  }


  lemma WriterStep(s: Stmt, st: State, f: Nzcv)
    requires Writes(s.op) && st.ctl.Running?
    ensures Step(s, st.(flags := f)) == Step(s, st)
    ensures Droppable(s.op) && s.result.None? ==> Step(s, st) == st.(flags := Step(s, st).flags)
  {
    WriterEffect(s.op, st, f);
  }

  lemma WriterEffect(op: Op, st: State, f: Nzcv)
    requires Writes(op)
    ensures Effect(op, st.(flags := f)) == Effect(op, st)
    ensures ResultOf(op, st.(flags := f)) == ResultOf(op, st)
    ensures Effect(op, st) == st.(flags := Effect(op, st).flags)
  {
    var st1 := st.(flags := f);
    match op
    case Compare(_, l, r, _) => assert st1.Val(l) == st.Val(l) && st1.Val(r) == st.Val(r);
    case CmpFlags(l, r, _) => assert st1.Val(l) == st.Val(l) && st1.Val(r) == st.Val(r);
    case AluFlags(_, l, r, _) => assert st1.Val(l) == st.Val(l) && st1.Val(r) == st.Val(r);
    case WriteFlagsCountZero(v, c, _) => assert st1.Val(v) == st.Val(v) && st1.Val(c) == st.Val(c);
  }

  lemma OtherFlags(op: Op, st: State)
    requires !Writes(op)
    ensures Effect(op, st).flags == st.flags
  {
  }

  predicate Exits(op: Op) {
    op.Jump? || op.CondJump? || op.Return? || op.JumpReg? || op.JumpRel? || op.RepStos? || op.RepMovs?
  }

  lemma LeavingEffect(op: Op, st: State, f: Nzcv)
    requires Exits(op)
    ensures Effect(op, st.(flags := f)) == Effect(op, st).(flags := f)
  {
  }

  lemma StayingEffect(op: Op, st: State, f: Nzcv)
    requires !Writes(op) && !Reads(op) && !Exits(op)
    ensures Effect(op, st.(flags := f)) == Effect(op, st).(flags := f)
  {
  }

  lemma OtherEffect(op: Op, st: State, f: Nzcv)
    requires !Writes(op) && !Reads(op)
    ensures Effect(op, st.(flags := f)) == Effect(op, st).(flags := f)
    ensures Effect(op, st).flags == st.flags
  {
    OtherFlags(op, st);
    if Exits(op) { LeavingEffect(op, st, f); } else { StayingEffect(op, st, f); }
  }

  lemma OtherResult(op: Op, st: State, f: Nzcv)
    requires !Reads(op)
    ensures ResultOf(op, st.(flags := f)) == ResultOf(op, st)
  {
  }

  lemma OtherStep(s: Stmt, st: State, f: Nzcv)
    requires !Writes(s.op) && !Reads(s.op)
    ensures Step(s, st.(flags := f)) == Step(s, st).(flags := f)
    ensures Step(s, st).flags == st.flags
  {
    OtherEffect(s.op, st, f);
    OtherResult(s.op, st, f);
  }

  lemma StoppedRelated(sc: Scan, drop: set<nat>, s: Stmt, st: State, st': State)
    requires !st.ctl.Running? && st' == st.(flags := st'.flags)
    ensures Related(sc, drop, Step(s, st), st') && Related(sc, drop, Step(s, st), Step(s, st'))
  {
  }

  lemma WriterRelated(sc: Scan, drop: set<nat>, n: nat, s: Stmt, st: State, st': State)
    requires Writes(s.op) && st.ctl.Running? && Related(sc, drop, st, st')
    requires n in drop ==> Droppable(s.op) && s.result.None?
    ensures Related(Scanned(sc, s.op, n), drop, Step(s, st), if n in drop then st' else Step(s, st'))
  {
    WriterStep(s, st, st'.flags);
  }

  lemma OtherRelated(sc: Scan, drop: set<nat>, s: Stmt, st: State, st': State)
    requires !Writes(s.op) && !Reads(s.op) && st.ctl.Running? && Related(sc, drop, st, st')
    ensures Related(sc, drop, Step(s, st), Step(s, st'))
  {
    OtherStep(s, st, st'.flags);
  }

  /** Statements that only write flags bind no ref. */
  ghost predicate NoFlagResults(stmts: seq<Stmt>) {
    forall i :: 0 <= i < |stmts| && Droppable(stmts[i].op) ==> stmts[i].result.None?
  }

  lemma StatementRelated(stmts: seq<Stmt>, n: nat, st: State, st': State)
    requires 0 < n <= |stmts| && NoFlagResults(stmts) && Related(ScanAt(stmts, n - 1), Dropped(stmts), st, st')
    ensures Related(ScanAt(stmts, n), Dropped(stmts), Step(stmts[n - 1], st),
                    if n - 1 in Dropped(stmts) then st' else Step(stmts[n - 1], st'))
  {
    var s, sc, drop := stmts[n - 1], ScanAt(stmts, n - 1), Dropped(stmts);
    DropsAreWrites(stmts, |stmts|, n - 1);
    if !st.ctl.Running? {
      StoppedRelated(ScanAt(stmts, n), drop, s, st, st');
    } else if Writes(s.op) {
      WriterRelated(sc, drop, n - 1, s, st, st');
    } else if Reads(s.op) {
      ReaderPins(stmts, n - 1);
      assert st' == st;
    } else {
      OtherRelated(sc, drop, s, st, st');
    }
  }

  lemma {:induction false} RunsRelated(stmts: seq<Stmt>, n: nat, st: State)
    requires n <= |stmts| && NoFlagResults(stmts)
    ensures Related(ScanAt(stmts, n), Dropped(stmts), Run(stmts[..n], st), Run(Remaining(stmts, Dropped(stmts), n), st))
    decreases n
  {
    if n > 0 {
      RunsRelated(stmts, n - 1, st);
      RunTake(stmts, n, st);
      RunSnoc(Remaining(stmts, Dropped(stmts), n - 1), stmts[n - 1], st);
      StatementRelated(stmts, n, Run(stmts[..n - 1], st), Run(Remaining(stmts, Dropped(stmts), n - 1), st));
    }
  }

  /** Dropping changes no branch, no selected value, no stored RFLAGS: the final
      state is the same but for the flags left over. */
  lemma EliminatePreserves(stmts: seq<Stmt>, st: State)
    requires NoFlagResults(stmts)
    ensures var st1 := Run(stmts, st);
            Run(Remaining(stmts, Dropped(stmts), |stmts|), st) ==
            st1.(flags := Run(Remaining(stmts, Dropped(stmts), |stmts|), st).flags)
  {
    RunsRelated(stmts, |stmts|, st);
    TakeAll(stmts);
  }
}
