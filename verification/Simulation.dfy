/** What it means for machine code to do what a statement list does. */
module Simulation {
  import opened Words
  import opened Arith
  import opened Scalar
  import opened Ir
  import opened Arm
  import opened AluCode
  import opened RflagsCode
  import opened Liveness

  /** Which register holds which ref. */
  type Assign = map<Ref, Reg>

  // ------------------------------------------------------------------
  // The lowered meaning: what the emitted code computes, where that is not
  // what the IR computes.
  // ------------------------------------------------------------------

  function Bound(st: State, r: Ref, v: U64): State { st.(env := st.env[r := v]) }

  /** Division by zero leaves with the halt value. */
  predicate ZeroDivide(s: Stmt, st: State) { st.ctl.Running? && s.op.BinOp? && Divided(s.op.kind, st.Val(s.op.rhs)) }

  function Picked(op: Op, st: State): U64
    requires op.Select?
  {
    if CondHolds(op.cc, st.flags) then st.Val(op.ifTrue) else st.Val(op.ifFalse)
  }

  /** Narrow arithmetic, selection and unsigned extension are not cut to the result's size. */
  function LoweredResult(op: Op, st: State): U64 {
    match op
    case BinOp(k, l, r, s) => LoweredBin(k, s, st.Val(l), st.Val(r))
    case Select(_, _, _, _) => Picked(op, st)
    case Extend(v, f, _, sg) => if sg then ResultOf(op, st) else MaskToSize(st.Val(v), f)
    case _ => ResultOf(op, st)
  }

  /** What is left of the count in `WriteFlagsCountZero`. */
  function CountLeft(op: Op, st: State): U64
    requires op.WriteFlagsCountZero?
  {
    Flag(st.Val(op.src) == 0)
  }

  function Recounted(st: State, r: Ref, v: U64): State { if st.Val(r) == v then st else Bound(st, r, v) }

  /** One statement as emitted; `late` says that a count it overwrites is wanted later. */
  function LoweredStep(s: Stmt, st: State, late: bool): State {
    if !st.ctl.Running? then st
    else if ZeroDivide(s, st) then st.(ctl := Exit(HALT))
    else
      var st1 := Effect(s.op, st);
      if s.result.Some? then
        if st1.ctl.Running? then Bound(st1, s.result.value, LoweredResult(s.op, st)) else st1
      else if late && s.op.WriteFlagsCountZero? then Recounted(st1, s.op.count, CountLeft(s.op, st))
      else st1
  }

  /** The count of a count-zero flag write is mentioned again. */
  ghost predicate Late(stmts: seq<Stmt>, i: nat) {
    && i < |stmts| && stmts[i].op.WriteFlagsCountZero?
    && exists j: nat :: i < j && MentionedAt(stmts, j, stmts[i].op.count)
  }

  ghost function LoweredRun(stmts: seq<Stmt>, n: nat, st: State): State
    requires n <= |stmts|
  {
    if n == 0 then st else LoweredStep(stmts[n - 1], LoweredRun(stmts, n - 1, st), Late(stmts, n - 1))
  }

  // ------------------------------------------------------------------
  // Matching states.
  // ------------------------------------------------------------------

  ghost predicate GuestMatch(st: State, m: Mach) {
    && m.mem == st.mem && RflagsBits(Word(m.frame, RFLAGS_OFFSET)) == st.rflags
    && forall g: Gpr :: m.x[Host(g)] == st.regs[g]
  }

  ghost predicate RefsMatch(refs: Assign, st: State, m: Mach) {
    forall r :: r in refs ==> m.x[refs[r]] == st.Val(r)
  }

  /** Guest registers, memory and RFLAGS agree, every held ref is in its register, and
      NZCV agrees unless an op without flag results has used it. */
  ghost predicate Match(refs: Assign, known: bool, st: State, m: Mach) {
    && !m.halted && st.ctl.Running? && GuestMatch(st, m)
    && (known ==> m.f == st.flags) && RefsMatch(refs, st, m)
  }

  /** The code goes on in a matching state, or returns with the next PC in x0. */
  ghost predicate Outcome(refs: Assign, known: bool, code: seq<Instr>, m: Mach, st1: State) {
    match st1.ctl
    case Running => exists m1 :: Does(code, m, m1) && Match(refs, known, st1, m1)
    case Exit(pc) => exists m1 :: Returns(code, m, m1) && m1.x[0] == pc && GuestMatch(st1, m1)
    case Goto(_) => false
  }

  // ------------------------------------------------------------------
  // Which flags are known.
  // ------------------------------------------------------------------

  predicate ReadsFlags(op: Op) { op.Select? || op.CondJumpRel? || op.StoreRflagsFromNzcv? }

  predicate SetsNzcv(op: Op) { op.Compare? || op.CmpFlags? || op.AluFlags? || op.WriteFlagsCountZero? }

  /** The emitted code uses NZCV although the op does not define it. */
  predicate LosesNzcv(op: Op) { op.WideDiv? || op.AtomicCmpxchg? || op.AtomicCmpxchgPair? }

  predicate KnownAfter(s: Stmt, known: bool) { SetsNzcv(s.op) || (known && !LosesNzcv(s.op)) }

  predicate KnownAt(stmts: seq<Stmt>, n: nat, known: bool)
    requires n <= |stmts|
  {
    if n == 0 then known else KnownAfter(stmts[n - 1], KnownAt(stmts, n - 1, known))
  }

  predicate FlagsReady(s: Stmt, known: bool) { ReadsFlags(s.op) ==> known }

  // ------------------------------------------------------------------
  // Simulation of one statement and of a list.
  // ------------------------------------------------------------------

  ghost predicate SimulatesFrom(refs: Assign, known: bool, s: Stmt, late: bool, code: seq<Instr>, refs1: Assign) {
    forall st: State, m: Mach :: Match(refs, known, st, m) ==>
      Outcome(refs1, KnownAfter(s, known), code, m, LoweredStep(s, st, late))
  }

  ghost predicate Simulates(refs: Assign, s: Stmt, late: bool, code: seq<Instr>, refs1: Assign) {
    forall known: bool :: FlagsReady(s, known) ==> SimulatesFrom(refs, known, s, late, code, refs1)
  }

  /** The code so far, from a matching start with nothing assigned. */
  ghost predicate Follows(stmts: seq<Stmt>, n: nat, known: bool, code: seq<Instr>, refs: Assign)
    requires n <= |stmts|
  {
    forall st: State, m: Mach :: Match(map[], known, st, m) ==>
      Outcome(refs, KnownAt(stmts, n, known), code, m, LoweredRun(stmts, n, st))
  }

  lemma FollowsStart(stmts: seq<Stmt>, known: bool)
    ensures Follows(stmts, 0, known, [], map[])
  {
    forall st: State, m: Mach | Match(map[], known, st, m)
      ensures Outcome(map[], KnownAt(stmts, 0, known), [], m, LoweredRun(stmts, 0, st))
    {
      DoesNothing(m);
    }
  }

  lemma {:induction false} OutcomeThen(refs: Assign, known: bool, code: seq<Instr>, m: Mach, st1: State,
                                       s: Stmt, late: bool, c: seq<Instr>, refs1: Assign)
    requires Outcome(refs, known, code, m, st1) && SimulatesFrom(refs, known, s, late, c, refs1)
    ensures Outcome(refs1, KnownAfter(s, known), code + c, m, LoweredStep(s, st1, late))
  {
    if st1.ctl.Running? {
      var a :| Does(code, m, a) && Match(refs, known, st1, a);
      var st2 := LoweredStep(s, st1, late);
      assert Outcome(refs1, KnownAfter(s, known), c, a, st2);
      if st2.ctl.Running? {
        var b :| Does(c, a, b) && Match(refs1, KnownAfter(s, known), st2, b);
        DoesThen(code, c, m, a, b);
      } else {
        var b :| Returns(c, a, b) && b.x[0] == st2.ctl.pc && GuestMatch(st2, b);
        DoesThenReturns(code, c, m, a, b);
      }
    } else {
      var a :| Returns(code, m, a) && a.x[0] == st1.ctl.pc && GuestMatch(st1, a);
      ReturnsEarly(code, c, m, a);
    }
  }

  lemma FollowsStep(stmts: seq<Stmt>, n: nat, known: bool, code: seq<Instr>, refs: Assign, c: seq<Instr>, refs1: Assign)
    requires n < |stmts| && Follows(stmts, n, known, code, refs)
    requires Simulates(refs, stmts[n], Late(stmts, n), c, refs1) && FlagsReady(stmts[n], KnownAt(stmts, n, known))
    ensures Follows(stmts, n + 1, known, code + c, refs1)
  {
    var k := KnownAt(stmts, n, known);
    forall st: State, m: Mach | Match(map[], known, st, m)
      ensures Outcome(refs1, KnownAt(stmts, n + 1, known), code + c, m, LoweredRun(stmts, n + 1, st))
    {
      OutcomeThen(refs, k, code, m, LoweredRun(stmts, n, st), stmts[n], Late(stmts, n), c, refs1);
    }
  }

  /** A lost count does not matter once nothing holds it. */
  lemma LateMatters(s: Stmt, st: State, late: bool, known: bool, fewer: Assign, m1: Mach)
    requires Match(fewer, known, LoweredStep(s, st, true), m1)
    requires !late && s.op.WriteFlagsCountZero? ==> s.op.count !in fewer
    ensures Match(fewer, known, LoweredStep(s, st, late), m1)
  {
  }

  /** Forgetting where some refs are changes nothing else, and once the count is forgotten
      it does not matter that it was overwritten. */
  lemma SimulatesFewer(refs: Assign, s: Stmt, late: bool, code: seq<Instr>, refs1: Assign, fewer: Assign)
    requires Simulates(refs, s, true, code, refs1)
    requires forall r :: r in fewer ==> r in refs1 && refs1[r] == fewer[r]
    requires !late && s.op.WriteFlagsCountZero? ==> s.op.count !in fewer
    ensures Simulates(refs, s, late, code, fewer)
  {
    forall known: bool, st: State, m: Mach | FlagsReady(s, known) && Match(refs, known, st, m)
      ensures Outcome(fewer, KnownAfter(s, known), code, m, LoweredStep(s, st, late))
    {
      assert SimulatesFrom(refs, known, s, true, code, refs1);
      FewerOutcome(refs1, fewer, KnownAfter(s, known), code, m, s, st, late);
    }
  }

  lemma FewerOutcome(refs1: Assign, fewer: Assign, known: bool, code: seq<Instr>, m: Mach, s: Stmt, st: State,
                     late: bool)
    requires Outcome(refs1, known, code, m, LoweredStep(s, st, true))
    requires forall r :: r in fewer ==> r in refs1 && refs1[r] == fewer[r]
    requires !late && s.op.WriteFlagsCountZero? ==> s.op.count !in fewer
    ensures Outcome(fewer, known, code, m, LoweredStep(s, st, late))
  {
    var st1 := LoweredStep(s, st, true);
    LateLeaves(s, st, late);
    if st1.ctl.Running? {
      var m1 :| Does(code, m, m1) && Match(refs1, known, st1, m1);
      assert Match(fewer, known, st1, m1);
      LateMatters(s, st, late, known, fewer, m1);
    }
  }

  lemma LateLeaves(s: Stmt, st: State, late: bool)
    ensures LoweredStep(s, st, late).ctl == LoweredStep(s, st, true).ctl
    ensures !LoweredStep(s, st, true).ctl.Running? ==> LoweredStep(s, st, late) == LoweredStep(s, st, true)
  {
  }

  // ------------------------------------------------------------------
  // When the lowered meaning is the IR's own.
  // ------------------------------------------------------------------

  /** The value left in the register is wider than the result. */
  predicate Uncut(op: Op, st: State) {
    match op
    case BinOp(k, l, r, s) => TooWide(k, s, st.Val(l), st.Val(r))
    case Select(_, _, _, s) => Picked(op, st) >= Range(s)
    case Extend(v, f, t, sg) => !sg && MaskToSize(st.Val(v), f) >= Range(t)
    case _ => false
  }

  lemma CutExact(v: U64, s: OpSize)
    ensures MaskToSize(v, s) == v <==> v < Range(s)
  {
    if v < Range(s) { SmallMod(v, Range(s)); }
  }

  lemma UncutExact(op: Op, st: State)
    ensures LoweredResult(op, st) == ResultOf(op, st) <==> !Uncut(op, st)
  {
    match op
    case BinOp(k, l, r, s) => LoweredBinExact(k, s, st.Val(l), st.Val(r));
    case Select(_, _, _, s) => CutExact(Picked(op, st), s);
    case Extend(v, f, t, sg) => CutExact(MaskToSize(st.Val(v), f), t);
    case _ =>
  }

  /** The statement's code and its meaning part: a zero divide, a result wider than its
      size, or a count overwritten that is still wanted. */
  predicate Deviates(s: Stmt, st: State, late: bool) {
    && st.ctl.Running?
    && (|| ZeroDivide(s, st)
        || (s.result.Some? && Uncut(s.op, st))
        || (s.result.None? && late && s.op.WriteFlagsCountZero? && st.Val(s.op.count) != CountLeft(s.op, st)))
  }

  lemma BoundDiffers(st: State, r: Ref, v: U64, w: U64)
    ensures Bound(st, r, v) == Bound(st, r, w) <==> v == w
  {
    assert Bound(st, r, v).env[r] == v && Bound(st, r, w).env[r] == w;
  }

  lemma StepDeviates(s: Stmt, st: State, late: bool)
    ensures LoweredStep(s, st, late) == Step(s, st) <==> !Deviates(s, st, late)
  {
    UncutExact(s.op, st);
    if s.result.Some? {
      BoundDiffers(Effect(s.op, st), s.result.value, LoweredResult(s.op, st), ResultOf(s.op, st));
    }
  }

  /** No statement the run reaches deviates. */
  ghost predicate NoDeviation(stmts: seq<Stmt>, n: nat, st: State)
    requires n <= |stmts|
  {
    forall i :: 0 <= i < n ==> !Deviates(stmts[i], Run(stmts[..i], st), Late(stmts, i))
  }

  lemma {:induction false} LoweredRunIsRun(stmts: seq<Stmt>, n: nat, st: State)
    requires n <= |stmts| && NoDeviation(stmts, n, st)
    ensures LoweredRun(stmts, n, st) == Run(stmts[..n], st)
    decreases n
  {
    if n > 0 {
      LoweredRunIsRun(stmts, n - 1, st);
      RunTake(stmts, n, st);
      StepDeviates(stmts[n - 1], Run(stmts[..n - 1], st), Late(stmts, n - 1));
    }
  }

  ghost predicate SameAt(stmts: seq<Stmt>, k: nat, st: State) {
    k <= |stmts| ==> LoweredRun(stmts, k, st) == Run(stmts[..k], st)
  }

  /** For every list and state: the code keeps to the IR statement by statement exactly when
      no statement the run reaches deviates. */
  lemma LoweredRunExact(stmts: seq<Stmt>, st: State)
    ensures (forall k: nat :: SameAt(stmts, k, st)) <==> NoDeviation(stmts, |stmts|, st)
  {
    if NoDeviation(stmts, |stmts|, st) {
      forall k: nat ensures SameAt(stmts, k, st) { if k <= |stmts| { LoweredRunIsRun(stmts, k, st); } }
    } else {
      var i := FirstDeviation(stmts, |stmts|, st);
      LoweredRunIsRun(stmts, i, st);
      RunTake(stmts, i + 1, st);
      StepDeviates(stmts[i], Run(stmts[..i], st), Late(stmts, i));
      assert !SameAt(stmts, i + 1, st);
    }
  }

  lemma {:induction false} FirstDeviation(stmts: seq<Stmt>, n: nat, st: State) returns (i: nat)
    requires n <= |stmts| && !NoDeviation(stmts, n, st)
    ensures i < n && NoDeviation(stmts, i, st) && Deviates(stmts[i], Run(stmts[..i], st), Late(stmts, i))
    decreases n
  {
    if NoDeviation(stmts, n - 1, st) { i := n - 1; } else { i := FirstDeviation(stmts, n - 1, st); }
  }

  // ------------------------------------------------------------------
  // ... and when the two only end alike.
  // ------------------------------------------------------------------

  lemma LoweredStepStays(s: Stmt, st: State, late: bool)
    requires !st.ctl.Running?
    ensures LoweredStep(s, st, late) == st
  {
  }

  /** Once left, nothing changes. */
  lemma {:induction false} LoweredRunStays(stmts: seq<Stmt>, n: nat, k: nat, st: State)
    requires n <= k <= |stmts| && !LoweredRun(stmts, n, st).ctl.Running?
    ensures LoweredRun(stmts, k, st) == LoweredRun(stmts, n, st)
    decreases k
  {
    if k > n {
      LoweredRunStays(stmts, n, k - 1, st);
      LoweredStepStays(stmts[k - 1], LoweredRun(stmts, k - 1, st), Late(stmts, k - 1));
    }
  }

  /** A statement unbinds nothing and binds its own definitions only. */
  lemma StepBinds(s: Stmt, st: State, r: Ref)
    ensures r in st.env ==> r in Step(s, st).env
    ensures r !in st.env && r !in Defs(s) ==> r !in Step(s, st).env
  {
  }

  /** A ref once bound stays bound. */
  lemma {:induction false} StaysBound(stmts: seq<Stmt>, n: nat, k: nat, st: State, r: Ref)
    requires n <= k <= |stmts| && r in Run(stmts[..n], st).env
    ensures r in Run(stmts[..k], st).env
    decreases k
  {
    if k > n {
      StaysBound(stmts, n, k - 1, st, r);
      RunTake(stmts, k, st);
      StepBinds(stmts[k - 1], Run(stmts[..k - 1], st), r);
    }
  }

  /** A ref nobody has defined yet is unbound. */
  lemma {:induction false} Unbound(stmts: seq<Stmt>, n: nat, st: State, r: Ref)
    requires n <= |stmts| && r !in st.env && forall i :: 0 <= i < n ==> r !in Defs(stmts[i])
    ensures r !in Run(stmts[..n], st).env
    decreases n
  {
    if n > 0 {
      Unbound(stmts, n - 1, st, r);
      RunTake(stmts, n, st);
      StepBinds(stmts[n - 1], Run(stmts[..n - 1], st), r);
    }
  }

  /** Without a late count the lowered statement binds its own definitions only. */
  lemma LoweredKeeps(s: Stmt, st: State, r: Ref)
    requires r !in Defs(s)
    ensures LoweredStep(s, st, false).Val(r) == st.Val(r)
  {
  }

  /** A value bound once keeps, in both runs. */
  lemma {:induction false} ValuesStay(stmts: seq<Stmt>, n: nat, k: nat, st: State, r: Ref)
    requires n <= k <= |stmts| && (forall i :: n <= i < k ==> r !in Defs(stmts[i]) && !Late(stmts, i))
    ensures LoweredRun(stmts, k, st).Val(r) == LoweredRun(stmts, n, st).Val(r)
    ensures Run(stmts[..k], st).Val(r) == Run(stmts[..n], st).Val(r)
    decreases k
  {
    if k > n {
      ValuesStay(stmts, n, k - 1, st, r);
      RunTake(stmts, k, st);
      StepKeeps(stmts[k - 1], Run(stmts[..k - 1], st), r);
      LoweredKeeps(stmts[k - 1], LoweredRun(stmts, k - 1, st), r);
    }
  }

  /** Statements never bind the same ref twice. */
  ghost predicate UniqueDefs(stmts: seq<Stmt>) {
    forall i, j :: 0 <= i < j < |stmts| ==> Defs(stmts[i]) !! Defs(stmts[j])
  }

  /** At a zero divide the lowered run leaves before the result is bound. */
  lemma ZeroDivideDiffers(stmts: seq<Stmt>, i: nat, st: State)
    requires i < |stmts| && ZeroDivide(stmts[i], Run(stmts[..i], st))
    requires LoweredRun(stmts, i, st) == Run(stmts[..i], st)
    requires stmts[i].result.Some? && stmts[i].result.value !in Run(stmts[..i], st).env
    ensures LoweredRun(stmts, |stmts|, st) != Run(stmts[..|stmts|], st)
  {
    LoweredRunStays(stmts, i + 1, |stmts|, st);
    RunTake(stmts, i + 1, st);
    StaysBound(stmts, i + 1, |stmts|, st, stmts[i].result.value);
  }

  /** A result bound too wide stays too wide. */
  lemma UncutDiffers(stmts: seq<Stmt>, i: nat, st: State)
    requires i < |stmts| && UniqueDefs(stmts) && forall j: nat :: !Late(stmts, j)
    requires LoweredRun(stmts, i, st) == Run(stmts[..i], st) && Run(stmts[..i], st).ctl.Running?
    requires stmts[i].result.Some? && Uncut(stmts[i].op, Run(stmts[..i], st))
    requires !ZeroDivide(stmts[i], Run(stmts[..i], st))
    ensures LoweredRun(stmts, |stmts|, st) != Run(stmts[..|stmts|], st)
  {
    var r := stmts[i].result.value;
    UncutExact(stmts[i].op, Run(stmts[..i], st));
    RunTake(stmts, i + 1, st);
    ValuesStay(stmts, i + 1, |stmts|, st, r);
  }

  /** Where refs are bound once and no overwritten count is wanted again, even the final
      states agree exactly when no statement the run reaches deviates. */
  lemma LoweredEndExact(stmts: seq<Stmt>, st: State)
    requires UniqueDefs(stmts) && forall i, r :: 0 <= i < |stmts| && r in Defs(stmts[i]) ==> r !in st.env
    requires forall i :: 0 <= i < |stmts| && stmts[i].op.BinOp? ==> stmts[i].result.Some?
    requires forall i: nat :: !Late(stmts, i)
    ensures LoweredRun(stmts, |stmts|, st) == Run(stmts, st) <==> NoDeviation(stmts, |stmts|, st)
  {
    TakeAll(stmts);
    if NoDeviation(stmts, |stmts|, st) {
      LoweredRunIsRun(stmts, |stmts|, st);
    } else {
      var i := FirstDeviation(stmts, |stmts|, st);
      LoweredRunIsRun(stmts, i, st);
      if ZeroDivide(stmts[i], Run(stmts[..i], st)) {
        Unbound(stmts, i, st, stmts[i].result.value);
        ZeroDivideDiffers(stmts, i, st);
      } else {
        UncutDiffers(stmts, i, st);
      }
    }
  }

  // ------------------------------------------------------------------
  // Lists of full-width statements.
  // ------------------------------------------------------------------

  /** Results that always fit their size. */
  predicate FullWidth(op: Op) {
    match op
    case BinOp(_, _, _, s) => s.I64?
    case Select(_, _, _, s) => s.I64?
    case Extend(_, f, t, sg) => sg || BitWidth(f) <= BitWidth(t)
    case _ => true
  }

  lemma FullWidthCut(op: Op, st: State)
    requires FullWidth(op)
    ensures !Uncut(op, st)
  {
  }

  /** Such lists, with no overwritten count wanted again, deviate at zero divides only. */
  lemma FullWidthDeviates(stmts: seq<Stmt>, n: nat, st: State)
    requires n <= |stmts| && forall i :: 0 <= i < n ==> FullWidth(stmts[i].op) && !Late(stmts, i)
    ensures NoDeviation(stmts, n, st) <==> forall i :: 0 <= i < n ==> !ZeroDivide(stmts[i], Run(stmts[..i], st))
  {
    forall i | 0 <= i < n
      ensures Deviates(stmts[i], Run(stmts[..i], st), Late(stmts, i)) <==> ZeroDivide(stmts[i], Run(stmts[..i], st))
    {
      FullWidthCut(stmts[i].op, Run(stmts[..i], st));
    }
  }
}
