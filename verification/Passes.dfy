/** The four straight-line passes under one argument: whatever order they run
    in, a valid list stays valid and keeps its meaning. */
module Passes {
  import opened Words
  import opened Lockstep
  import opened Ir
  import opened Validate
  import opened CseTable
  import ConstProp
  import Algebraic
  import CopyProp

  datatype Pass = Propagate | Simplify | Eliminate | Copy

  /** What a pass remembers between statements. */
  datatype Know =
    | Consts(consts: map<Ref, U64>)
    | Avail(table: Table)
    | Aliases(alias: map<Ref, Ref>)

  predicate Suits(p: Pass, k: Know) {
    match p
    case Propagate => k.Consts?
    case Simplify => k.Consts?
    case Eliminate => k.Avail?
    case Copy => k.Aliases?
  }

  function Start(p: Pass): (k: Know)
    ensures Suits(p, k)
  {
    match p
    case Propagate => Consts(map[])
    case Simplify => Consts(map[])
    case Eliminate => Avail(map[])
    case Copy => Aliases(map[])
  }

  function Rewrite(p: Pass, k: Know, s: Stmt): Stmt
    requires Suits(p, k)
  {
    match p
    case Propagate => ConstProp.Rewritten(k.consts, s)
    case Simplify => Algebraic.Rewritten(k.consts, s)
    case Eliminate => Rewritten(k.table, s)
    case Copy => CopyProp.Rewritten(k.alias, s)
  }

  function Learn(p: Pass, k: Know, s: Stmt): (k1: Know)
    requires Suits(p, k)
    ensures Suits(p, k1)
  {
    match p
    case Propagate => Consts(ConstProp.Learned(k.consts, s))
    case Simplify => Consts(Algebraic.Learned(k.consts, s))
    case Eliminate => Avail(Extended(k.table, s))
    case Copy => Aliases(CopyProp.Learned(k.alias, s))
  }

  function KnowAt(p: Pass, stmts: seq<Stmt>, n: nat): (k: Know)
    requires n <= |stmts|
    ensures Suits(p, k)
  {
    if n == 0 then Start(p) else Learn(p, KnowAt(p, stmts, n - 1), stmts[n - 1])
  }

  function Apply(p: Pass, stmts: seq<Stmt>): seq<Stmt> {
    seq(|stmts|, i requires 0 <= i < |stmts| => Rewrite(p, KnowAt(p, stmts, i), stmts[i]))
  }

  function ApplyAll(ps: seq<Pass>, stmts: seq<Stmt>): seq<Stmt> {
    if ps == [] then stmts else ApplyAll(ps[1..], Apply(ps[0], stmts))
  }

  // ------------------------------------------------------------------
  // What the knowledge means.
  // ------------------------------------------------------------------

  /** It speaks of declared refs only. */
  ghost predicate Grounded(k: Know, c: Ctx) {
    match k
    case Consts(m) => m.Keys <= c.Keys
    case Avail(t) => forall e :: e in t ==> t[e] in c && e.lhs in c && e.rhs in c && c[t[e]] == e.size
    case Aliases(a) => CopyProp.Flat(a, c)
  }

  /** It is true of the state. */
  ghost predicate True(k: Know, st: State) {
    match k
    case Consts(m) => ConstProp.Known(m, st)
    case Avail(t) => Holds(t, st)
    case Aliases(a) => CopyProp.Aliased(a, st)
  }

  lemma GroundedFresh(t: Table, c: Ctx, s: Stmt)
    requires Grounded(Avail(t), c) && StmtOk(c, s)
    ensures Fresh(t, s)
  {
    forall e, r | e in t && r in Defs(s) ensures !Mentions(e, t[e], r) {
    }
    if IsKeyed(s) { assert s.op.lhs in Operands(s.op) && s.op.rhs in Operands(s.op); }
  }

  /** Rewriting one statement changes neither its effect nor its result. */
  lemma RewriteStep(p: Pass, k: Know, s: Stmt, st: State)
    requires Suits(p, k) && True(k, st)
    ensures Step(Rewrite(p, k, s), st) == Step(s, st)
  {
    match p
    case Propagate => ConstProp.RewrittenStep(k.consts, s, st);
    case Simplify => Algebraic.RewrittenStep(k.consts, s, st);
    case Eliminate => RewrittenStep(k.table, s, st);
    case Copy => CopyProp.RewrittenStep(k.alias, s, st);
  }

  lemma LearnTrue(p: Pass, k: Know, c: Ctx, s: Stmt, st: State)
    requires Suits(p, k) && Grounded(k, c) && True(k, st) && StmtOk(c, s) && Typed(c, st)
    requires st.ctl.Running? && Step(s, st).ctl.Running?
    ensures True(Learn(p, k, s), Step(s, st))
  {
    match p
    case Propagate => ConstProp.KnownLearned(k.consts, c, s, st);
    case Simplify => Algebraic.KnownLearned(k.consts, c, s, st);
    case Eliminate =>
      GroundedFresh(k.table, c, s);
      ExtendedHolds(k.table, s, st);
    case Copy =>
      CopyProp.RewrittenOk(k.alias, c, s);
      CopyProp.RewrittenStep(k.alias, s, st);
      CopyProp.AliasedNoted(k.alias, c, CopyProp.Rewritten(k.alias, s), st);
  }

  lemma TableGrounded(t: Table, c: Ctx, s: Stmt)
    requires Grounded(Avail(t), c) && StmtOk(c, s)
    ensures Grounded(Avail(Extended(t, s)), Declare(c, s))
  {
    DeclareKeys(c, s);
    if IsKeyed(s) { assert s.op.lhs in Operands(s.op) && s.op.rhs in Operands(s.op); }
  }

  lemma ConstsGrounded(m: map<Ref, U64>, m1: map<Ref, U64>, c: Ctx, s: Stmt)
    requires m.Keys <= c.Keys && ResultOk(s) && m1.Keys <= m.Keys + Defs(s)
    ensures m1.Keys <= Declare(c, s).Keys
  {
    DeclareKeys(c, s);
  }

  lemma LearnGrounded(p: Pass, k: Know, c: Ctx, s: Stmt)
    requires Suits(p, k) && Grounded(k, c) && StmtOk(c, s)
    ensures Grounded(Learn(p, k, s), Declare(c, s))
  {
    match p
    case Propagate => ConstsGrounded(k.consts, ConstProp.Learned(k.consts, s), c, s);
    case Simplify => ConstsGrounded(k.consts, Algebraic.Learned(k.consts, s), c, s);
    case Eliminate => TableGrounded(k.table, c, s);
    case Copy =>
      CopyProp.RewrittenOk(k.alias, c, s);
      CopyProp.FlatNoted(k.alias, c, s, CopyProp.Rewritten(k.alias, s));
  }

  lemma TableRewriteOk(t: Table, c: Ctx, s: Stmt)
    requires Grounded(Avail(t), c) && StmtOk(c, s)
    ensures StmtOk(c, Rewritten(t, s)) && Declare(c, Rewritten(t, s)) == Declare(c, s)
  {
  }

  lemma RewriteOk(p: Pass, k: Know, c: Ctx, s: Stmt)
    requires Suits(p, k) && Grounded(k, c) && StmtOk(c, s)
    ensures StmtOk(c, Rewrite(p, k, s)) && Declare(c, Rewrite(p, k, s)) == Declare(c, s)
  {
    match p
    case Propagate => ConstProp.RewrittenOk(k.consts, c, s);
    case Simplify => Algebraic.RewrittenOk(k.consts, c, s);
    case Eliminate => TableRewriteOk(k.table, c, s);
    case Copy => CopyProp.RewrittenOk(k.alias, c, s);
  }

  // ------------------------------------------------------------------
  // Whole lists.
  // ------------------------------------------------------------------

  lemma ApplyOkAt(p: Pass, stmts: seq<Stmt>, n: nat)
    requires 0 < n <= |stmts| && OkAt(stmts, n - 1)
    requires Grounded(KnowAt(p, stmts, n - 1), CtxAt(stmts, n - 1))
    requires CtxAt(Apply(p, stmts), n - 1) == CtxAt(stmts, n - 1)
    ensures Grounded(KnowAt(p, stmts, n), CtxAt(stmts, n))
    ensures CtxAt(Apply(p, stmts), n) == CtxAt(stmts, n) && OkAt(Apply(p, stmts), n - 1)
  {
    RewriteOk(p, KnowAt(p, stmts, n - 1), CtxAt(stmts, n - 1), stmts[n - 1]);
    LearnGrounded(p, KnowAt(p, stmts, n - 1), CtxAt(stmts, n - 1), stmts[n - 1]);
  }

  /** The rewritten list declares the same refs at the same sizes. */
  lemma {:induction false} ApplyContexts(p: Pass, stmts: seq<Stmt>, n: nat)
    requires n <= |stmts| && Valid(stmts)
    ensures Grounded(KnowAt(p, stmts, n), CtxAt(stmts, n))
    ensures CtxAt(Apply(p, stmts), n) == CtxAt(stmts, n)
    decreases n
  {
    if n > 0 {
      ApplyContexts(p, stmts, n - 1);
      assert OkAt(stmts, n - 1);
      ApplyOkAt(p, stmts, n);
    }
  }

  lemma ApplyValid(p: Pass, stmts: seq<Stmt>)
    requires Valid(stmts)
    ensures Valid(Apply(p, stmts))
  {
    forall i: nat | i < |stmts| ensures OkAt(Apply(p, stmts), i) {
      ApplyContexts(p, stmts, i);
      assert OkAt(stmts, i);
      ApplyOkAt(p, stmts, i + 1);
    }
  }

  ghost predicate Sound(k: Know, c: Ctx, st: State) { st.ctl.Running? ==> True(k, st) && Typed(c, st) }

  lemma SoundStep(p: Pass, k: Know, c: Ctx, s: Stmt, st: State)
    requires Suits(p, k) && Grounded(k, c) && StmtOk(c, s) && Sound(k, c, st)
    ensures Step(Rewrite(p, k, s), st) == Step(s, st)
    ensures Sound(Learn(p, k, s), Declare(c, s), Step(s, st))
  {
    if st.ctl.Running? {
      RewriteStep(p, k, s, st);
      if Step(s, st).ctl.Running? {
        LearnTrue(p, k, c, s, st);
        TypedStep(c, s, st);
      }
    }
  }

  ghost function PassInv(p: Pass, stmts: seq<Stmt>): (nat, State) -> bool {
    (i: nat, s: State) => i <= |stmts| && Sound(KnowAt(p, stmts, i), CtxAt(stmts, i), s)
  }

  lemma PassTurns(p: Pass, stmts: seq<Stmt>)
    requires Valid(stmts)
    ensures Turns(Step, stmts, Apply(p, stmts), PassInv(p, stmts))
  {
    var inv := PassInv(p, stmts);
    var out := Apply(p, stmts);
    forall i: nat, s | i < |stmts| && inv(i, s)
      ensures Step(out[i], s) == Step(stmts[i], s) && inv(i + 1, Step(stmts[i], s))
    {
      ApplyContexts(p, stmts, i);
      assert OkAt(stmts, i);
      SoundStep(p, KnowAt(p, stmts, i), CtxAt(stmts, i), stmts[i], s);
    }
  }

  lemma StartSound(p: Pass, st: State)
    ensures Sound(Start(p), map[], st)
  {
  }

  /** One pass keeps the whole final state: registers, memory, flags, next PC
      and the value of every ref. */
  lemma ApplyPreserves(p: Pass, stmts: seq<Stmt>, st: State)
    requires Valid(stmts)
    ensures Run(Apply(p, stmts), st) == Run(stmts, st)
  {
    StartSound(p, st);
    PassTurns(p, stmts);
    SameRun(stmts, Apply(p, stmts), PassInv(p, stmts), st);
  }

  /** Any composition of the passes keeps validity and meaning. */
  lemma {:induction false} PipelinePreserves(ps: seq<Pass>, stmts: seq<Stmt>, st: State)
    requires Valid(stmts)
    ensures Valid(ApplyAll(ps, stmts))
    ensures Run(ApplyAll(ps, stmts), st) == Run(stmts, st)
    decreases |ps|
  {
    if ps != [] {
      ApplyValid(ps[0], stmts);
      ApplyPreserves(ps[0], stmts, st);
      PipelinePreserves(ps[1..], Apply(ps[0], stmts), st);
    }
  }

  // ------------------------------------------------------------------
  // The passes as they are run.
  // ------------------------------------------------------------------

  lemma {:induction false} KnowledgeIs(stmts: seq<Stmt>, n: nat)
    requires n <= |stmts|
    ensures KnowAt(Propagate, stmts, n) == Consts(ConstProp.ConstsAt(stmts, n))
    ensures KnowAt(Simplify, stmts, n) == Consts(Algebraic.ConstsAt(stmts, n))
    ensures KnowAt(Eliminate, stmts, n) == Avail(TableAt(map[], stmts, n))
    ensures KnowAt(Copy, stmts, n) == Aliases(CopyProp.AliasAt(stmts, n))
    decreases n
  {
    if n > 0 { KnowledgeIs(stmts, n - 1); }
  }

  method RunPass(p: Pass, stmts: seq<Stmt>) returns (out: seq<Stmt>)
    ensures Valid(stmts) ==> out == Apply(p, stmts)
    ensures !p.Copy? ==> out == Apply(p, stmts)
  {
    match p {
      case Propagate => out := ConstProp.ConstantPropagate(stmts);
      case Simplify => out := Algebraic.AlgebraicSimplify(stmts);
      case Eliminate =>
        var seen;
        out, seen := CseStatements(map[], stmts);
      case Copy => out := CopyProp.CopyPropagate(stmts);
    }
    forall k | 0 <= k < |stmts| && (Valid(stmts) || !p.Copy?) ensures out[k] == Apply(p, stmts)[k] {
      KnowledgeIs(stmts, k);
    }
  }

  /** A pipeline of passes over a validated list. */
  method RunPipeline(ps: seq<Pass>, stmts: seq<Stmt>) returns (out: seq<Stmt>)
    requires Valid(stmts)
    ensures Valid(out) && forall st :: Run(out, st) == Run(stmts, st)
  {
    out := stmts;
    for i := 0 to |ps|
      invariant Valid(out) && forall st :: Run(out, st) == Run(stmts, st)
    {
      ApplyValid(ps[i], out);
      forall st ensures Run(Apply(ps[i], out), st) == Run(stmts, st) { ApplyPreserves(ps[i], out, st); }
      out := RunPass(ps[i], out);
    }
  }
}
