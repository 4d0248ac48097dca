/** `branch_fold`: a conditional exit after a comparison of two constants becomes
    an unconditional one. */
module BranchFold {
  import opened Words
  import opened Scalar
  import opened Lockstep
  import opened Ir
  import opened Validate
  import opened Conditions
  import ConstProp
  import K = KnownConsts

  datatype Cmp = Cmp(lhs: Ref, rhs: Ref, size: OpSize)

  /** What the pass tracks: known constants and the last comparison. */
  datatype Track = Track(consts: map<Ref, U64>, last: Option<Cmp>)

  predicate Folds(t: Track, op: Op) {
    op.CondJumpRel? && t.last.Some? && t.last.value.lhs in t.consts && t.last.value.rhs in t.consts
  }

  /** The PC a fold picks; an undecided condition counts as not taken. */
  function FoldedPc(t: Track, op: Op): U64
    requires Folds(t, op)
  {
    var c := t.last.value;
    var taken := EvalCond(op.cc, t.consts[c.lhs], t.consts[c.rhs], c.size);
    if taken.Some? && taken.value then op.pc else op.fallthrough
  }

  function Rewritten(t: Track, s: Stmt): Stmt {
    if Folds(t, s.op) then Stmt(None, JumpRel(FoldedPc(t, s.op))) else s
  }

  function Learned(t: Track, s: Stmt): Track {
    match s.op
    case Constant(v, sz) =>
      if s.result.Some? then t.(consts := t.consts[s.result.value := MaskToSize(v, sz)]) else t
    case CmpFlags(l, r, sz) => t.(last := Some(Cmp(l, r, sz)))
    case AluFlags(_, _, _, _) => t.(last := None)
    case WriteFlagsCountZero(_, _, _) => t.(last := None)
    case CondJumpRel(_, _, _) => t.(last := None)
    case _ => t
  }

  function TrackAt(stmts: seq<Stmt>, n: nat): Track
    requires n <= |stmts|
  {
    if n == 0 then Track(map[], None) else Learned(TrackAt(stmts, n - 1), stmts[n - 1])
  }

  function FoldedList(stmts: seq<Stmt>): seq<Stmt> {
    seq(|stmts|, i requires 0 <= i < |stmts| => Rewritten(TrackAt(stmts, i), stmts[i]))
  }

  method FoldStatement(t0: Track, s: Stmt) returns (s1: Stmt, t: Track)
    ensures s1 == Rewritten(t0, s) && t == Learned(t0, s)
  {
    s1, t := s, t0;
    match s.op {
      case Constant(v, sz) =>
        if s.result.Some? { t := t.(consts := t.consts[s.result.value := MaskToSize(v, sz)]); }
      case CmpFlags(l, r, sz) => t := t.(last := Some(Cmp(l, r, sz)));
      case AluFlags(_, _, _, _) => t := t.(last := None);
      case WriteFlagsCountZero(_, _, _) => t := t.(last := None);
      case CondJumpRel(cc, pc, ft) =>
        if t.last.Some? {
          var c := t.last.value;
          if c.lhs in t.consts && c.rhs in t.consts {
            var taken := EvalCond(cc, t.consts[c.lhs], t.consts[c.rhs], c.size);
            var chooseTaken := taken.Some? && taken.value;
            s1 := Stmt(None, JumpRel(if chooseTaken then pc else ft));
          }
        }
        t := t.(last := None);
      case _ =>
    }
  }

  // ------------------------------------------------------------------
  // What is folded, said of the list alone.
  // ------------------------------------------------------------------

  /** Ops after which the last comparison is not used any more. */
  predicate Forgets(op: Op) { op.CmpFlags? || op.AluFlags? || op.WriteFlagsCountZero? || op.CondJumpRel? }

  /** The comparison at `i` is the one a branch at `n` goes by. */
  ghost predicate Compared(stmts: seq<Stmt>, n: nat, i: nat) {
    i < n <= |stmts| && stmts[i].op.CmpFlags? && forall h :: i < h < n ==> !Forgets(stmts[h].op)
  }

  /** ... and its operands are then known to be `a` and `b`. */
  ghost predicate ComparedAs(stmts: seq<Stmt>, n: nat, i: nat, a: U64, b: U64) {
    Compared(stmts, n, i) && K.KnownAs(stmts, n, stmts[i].op.lhs, a) && K.KnownAs(stmts, n, stmts[i].op.rhs, b)
  }

  /** Statement `j` of the output: a branch that goes by a comparison of constants is
      decided, undecided conditions counting as not taken; the rest is as it was. */
  ghost predicate BranchAt(stmts: seq<Stmt>, j: nat, s: Stmt)
    requires j < |stmts|
  {
    var op := stmts[j].op;
    && (forall i: nat, a, b :: ComparedAs(stmts, j, i, a, b) && op.CondJumpRel? ==>
          s == Stmt(None, JumpRel(if EvalCond(op.cc, a, b, stmts[i].op.size) == Some(true) then op.pc
                                  else op.fallthrough)))
    && (!op.CondJumpRel? || (forall i: nat, a, b :: !ComparedAs(stmts, j, i, a, b)) ==> s == stmts[j])
  }

  lemma {:induction false} TrackExact(stmts: seq<Stmt>, n: nat)
    requires n <= |stmts|
    ensures TrackAt(stmts, n).consts == K.ConstsOf(stmts, n)
    ensures forall i: nat :: Compared(stmts, n, i) ==>
      TrackAt(stmts, n).last == Some(Cmp(stmts[i].op.lhs, stmts[i].op.rhs, stmts[i].op.size))
    ensures TrackAt(stmts, n).last.Some? ==> exists i: nat :: Compared(stmts, n, i)
    decreases n
  {
    if n > 0 {
      TrackExact(stmts, n - 1);
      var s := stmts[n - 1];
      if s.op.CmpFlags? { assert Compared(stmts, n, n - 1); }
      else if TrackAt(stmts, n).last.Some? {
        var k := n - 1;
        var i: nat :| Compared(stmts, k, i);
        assert Compared(stmts, n, i);
      }
      forall i: nat | Compared(stmts, n, i)
        ensures TrackAt(stmts, n).last == Some(Cmp(stmts[i].op.lhs, stmts[i].op.rhs, stmts[i].op.size))
      {
        if i < n - 1 { assert Compared(stmts, n - 1, i) && !Forgets(s.op); }
      }
    }
  }

  lemma RewrittenIsBranch(stmts: seq<Stmt>, j: nat, s: Stmt)
    requires j < |stmts| && s == Rewritten(TrackAt(stmts, j), stmts[j])
    ensures BranchAt(stmts, j, s)
  {
    TrackExact(stmts, j);
    var t := TrackAt(stmts, j);
    if i: nat :| Compared(stmts, j, i) {
      K.ConstsExact(stmts, j, stmts[i].op.lhs);
      K.ConstsExact(stmts, j, stmts[i].op.rhs);
      if Folds(t, stmts[j].op) {
        assert ComparedAs(stmts, j, i, t.consts[t.last.value.lhs], t.consts[t.last.value.rhs]);
      }
    }
  }

  method FoldBranches(stmts: seq<Stmt>) returns (out: seq<Stmt>)
    ensures out == FoldedList(stmts)
    ensures forall j :: 0 <= j < |stmts| ==> BranchAt(stmts, j, out[j])
  {
    out := [];
    var t := Track(map[], None);
    for i := 0 to |stmts|
      invariant |out| == i && t == TrackAt(stmts, i)
      invariant forall k :: 0 <= k < i ==> out[k] == Rewritten(TrackAt(stmts, k), stmts[k])
    {
      var s;
      s, t := FoldStatement(t, stmts[i]);
      out := out + [s];
    }
    forall j | 0 <= j < |stmts| ensures BranchAt(stmts, j, out[j]) { RewrittenIsBranch(stmts, j, out[j]); }
  }

  // ------------------------------------------------------------------
  // When one fold is right.
  // ------------------------------------------------------------------

  /** The flags a comparison of the known constants leaves. */
  function KnownFlags(t: Track): Nzcv
    requires t.last.Some? && t.last.value.lhs in t.consts && t.last.value.rhs in t.consts
  {
    var c := t.last.value;
    SubFlags(Align(t.consts[c.lhs], c.size), Align(t.consts[c.rhs], c.size))
  }

  /** The code compares, or the flags it reads directly say "not taken", or both
      exits are the same PC. */
  predicate Decided(t: Track, op: Op)
    requires Folds(t, op)
  {
    Relational(op.cc) || op.pc == op.fallthrough || !CondHolds(op.cc, KnownFlags(t))
  }

  /** With the tracked comparison still in the flags, folding picks the PC that
      the conditional exit would pick if and only if the condition is decided. */
  lemma FoldExact(t: Track, op: Op, st: State)
    requires Folds(t, op) && st.flags == KnownFlags(t)
    ensures Effect(JumpRel(FoldedPc(t, op)), st) == Effect(op, st) <==> Decided(t, op)
  {
    var c := t.last.value;
    if Relational(op.cc) {
      ConditionAtWidth(op.cc, t.consts[c.lhs], t.consts[c.rhs], c.size);
    }
  }

  /** On equal operands the subtraction sets C, so `Nc` is taken; the fold picks
      the fallthrough. */
  lemma FlagCodeMisfolds(t: Track, st: State)
    requires t.last.Some? && t.last.value.lhs in t.consts && t.last.value.lhs == t.last.value.rhs
    requires st.flags == KnownFlags(t)
    ensures Effect(CondJumpRel(Nc, 1, 2), st).ctl == Exit(1)
    ensures FoldedPc(t, CondJumpRel(Nc, 1, 2)) == 2
  {
  }

  // ------------------------------------------------------------------
  // Whole lists.
  // ------------------------------------------------------------------

  /** A `Compare` has rewritten the flags since the comparison the pass tracks. */
  function Clobbered(stmts: seq<Stmt>, n: nat): bool
    requires n <= |stmts|
  {
    n > 0 && (stmts[n - 1].op.Compare? || (!stmts[n - 1].op.CmpFlags? && Clobbered(stmts, n - 1)))
  }

  /** Every fold reads the comparison it was decided on. */
  ghost predicate FoldsOk(stmts: seq<Stmt>) {
    forall n {:trigger TrackAt(stmts, n)} :: 0 <= n < |stmts| && Folds(TrackAt(stmts, n), stmts[n].op) ==>
      !Clobbered(stmts, n) && Decided(TrackAt(stmts, n), stmts[n].op)
  }

  ghost predicate TrackDeclared(t: Track, c: Ctx) {
    && t.consts.Keys <= c.Keys
    && (t.last.Some? ==> t.last.value.lhs in c && t.last.value.rhs in c)
  }

  ghost predicate FlagsTracked(t: Track, clobbered: bool, st: State) {
    t.last.Some? && !clobbered ==>
      var c := t.last.value;
      st.flags == SubFlags(Align(st.Val(c.lhs), c.size), Align(st.Val(c.rhs), c.size))
  }

  ghost predicate Tracked(t: Track, clobbered: bool, st: State) {
    st.ctl.Running? ==> ConstProp.Known(t.consts, st) && FlagsTracked(t, clobbered, st)
  }

  lemma {:induction false} AlwaysDeclared(stmts: seq<Stmt>, n: nat)
    requires n <= |stmts| && Valid(stmts)
    ensures TrackDeclared(TrackAt(stmts, n), CtxAt(stmts, n))
    decreases n
  {
    if n > 0 {
      AlwaysDeclared(stmts, n - 1);
      var s := stmts[n - 1];
      assert OkAt(stmts, n - 1);
      DeclareKeys(CtxAt(stmts, n - 1), s);
      if s.op.CmpFlags? { assert s.op.lhs in Operands(s.op) && s.op.rhs in Operands(s.op); }
    }
  }

  predicate WritesFlags(op: Op) { op.Compare? || op.CmpFlags? || op.AluFlags? || op.WriteFlagsCountZero? }

  lemma FlagsKept(s: Stmt, st: State)
    requires !WritesFlags(s.op)
    ensures Step(s, st).flags == st.flags
  {
  }

  lemma FlagsTrackedStep(t: Track, clobbered: bool, c: Ctx, s: Stmt, st: State)
    requires TrackDeclared(t, c) && DefsOk(c, s) && ResultOk(s) && FlagsTracked(t, clobbered, st)
    requires st.ctl.Running? && Step(s, st).ctl.Running?
    ensures FlagsTracked(Learned(t, s), ClobberedBy(clobbered, s), Step(s, st))
  {
    if s.op.CmpFlags? { return; }
    if !WritesFlags(s.op) {
      FlagsKept(s, st);
      if t.last.Some? {
        StepKeeps(s, st, t.last.value.lhs);
        StepKeeps(s, st, t.last.value.rhs);
      }
    }
  }

  lemma KnownStep(t: Track, c: Ctx, s: Stmt, st: State)
    requires TrackDeclared(t, c) && DefsOk(c, s) && ConstProp.Known(t.consts, st)
    requires st.ctl.Running? && Step(s, st).ctl.Running?
    ensures ConstProp.Known(Learned(t, s).consts, Step(s, st))
  {
    ConstProp.KnownKept(t.consts, c, s, st);
  }

  lemma FlagsAreKnown(t: Track, op: Op, st: State)
    requires Folds(t, op) && ConstProp.Known(t.consts, st) && FlagsTracked(t, false, st)
    ensures st.flags == KnownFlags(t)
  {
  }

  lemma FoldedStep(t: Track, s: Stmt, st: State)
    requires Folds(t, s.op) && Decided(t, s.op) && st.flags == KnownFlags(t)
    ensures Step(Stmt(None, JumpRel(FoldedPc(t, s.op))), st) == Step(s, st)
  {
    FoldExact(t, s.op, st);
  }

  lemma FoldStep(stmts: seq<Stmt>, n: nat, st: State)
    requires n < |stmts| && FoldsOk(stmts) && Tracked(TrackAt(stmts, n), Clobbered(stmts, n), st)
    ensures Step(Rewritten(TrackAt(stmts, n), stmts[n]), st) == Step(stmts[n], st)
  {
    var t, s := TrackAt(stmts, n), stmts[n];
    if Folds(t, s.op) && st.ctl.Running? {
      FlagsAreKnown(t, s.op, st);
      FoldedStep(t, s, st);
    }
  }

  predicate ClobberedBy(clobbered: bool, s: Stmt) { s.op.Compare? || (!s.op.CmpFlags? && clobbered) }

  lemma TrackedLearned(t: Track, clobbered: bool, c: Ctx, s: Stmt, st: State)
    requires TrackDeclared(t, c) && DefsOk(c, s) && ResultOk(s) && Tracked(t, clobbered, st)
    ensures Tracked(Learned(t, s), ClobberedBy(clobbered, s), Step(s, st))
  {
    if st.ctl.Running? && Step(s, st).ctl.Running? {
      FlagsTrackedStep(t, clobbered, c, s, st);
      KnownStep(t, c, s, st);
    }
  }

  lemma TrackedStep(stmts: seq<Stmt>, n: nat, st: State)
    requires 0 < n <= |stmts| && Valid(stmts) && Tracked(TrackAt(stmts, n - 1), Clobbered(stmts, n - 1), st)
    ensures Tracked(TrackAt(stmts, n), Clobbered(stmts, n), Step(stmts[n - 1], st))
  {
    var k := n - 1;
    AlwaysDeclared(stmts, k);
    assert OkAt(stmts, k);
    TrackedLearned(TrackAt(stmts, k), Clobbered(stmts, k), CtxAt(stmts, k), stmts[k], st);
    assert TrackAt(stmts, n) == Learned(TrackAt(stmts, k), stmts[k]);
    assert Clobbered(stmts, n) == ClobberedBy(Clobbered(stmts, k), stmts[k]);
  }

  ghost function TrackInv(stmts: seq<Stmt>): (nat, State) -> bool {
    (i: nat, s: State) => i <= |stmts| && Tracked(TrackAt(stmts, i), Clobbered(stmts, i), s)
  }

  lemma FoldTurns(stmts: seq<Stmt>)
    requires Valid(stmts) && FoldsOk(stmts)
    ensures Turns(Step, stmts, FoldedList(stmts), TrackInv(stmts))
  {
    var inv := TrackInv(stmts);
    var out := FoldedList(stmts);
    forall i: nat, s | i < |stmts| && inv(i, s)
      ensures Step(out[i], s) == Step(stmts[i], s) && inv(i + 1, Step(stmts[i], s))
    {
      FoldStep(stmts, i, s);
      TrackedStep(stmts, i + 1, s);
    }
  }

  /** The folded list ends in the same state, next PC included. */
  lemma FoldPreserves(stmts: seq<Stmt>, st: State)
    requires Valid(stmts) && FoldsOk(stmts)
    ensures Run(FoldedList(stmts), st) == Run(stmts, st)
  {
    FoldTurns(stmts);
    SameRun(stmts, FoldedList(stmts), TrackInv(stmts), st);
  }
}
