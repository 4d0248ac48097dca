/** `global_cse`: the available-expression table of a block is forwarded to a
    child whose only predecessor it is. Every run of an SSA function, loops
    included, is preserved block by block. */
module GlobalCse {
  import opened Words
  import opened Ir
  import opened CseTable
  import opened Lockstep
  import opened Cfg
  import IdomSolver
  import opened Dominators

  // ------------------------------------------------------------------
  // Running a function.
  // ------------------------------------------------------------------

  function StmtsOf(fn: Function, b: BlockId): seq<Stmt> {
    match FindBlock(fn.blocks, b)
    case None => []
    case Some(i) => fn.blocks[i].stmts
  }

  predicate AtBlock(fn: Function, st: State) { st.ctl.Goto? && st.ctl.block in Ids(fn) }

  function RunBlock(fn: Function, b: BlockId, st: State): State {
    Run(StmtsOf(fn, b), st.(ctl := Running))
  }

  /** At most `n` blocks, starting at the block the state points at. */
  function RunBlocks(fn: Function, st: State, n: nat): State {
    RunWhile(ReadyIn(fn), TurnIn(fn), st, n)
  }

  function ReadyIn(fn: Function): State -> bool { st => AtBlock(fn, st) }

  function TurnIn(fn: Function): State -> State {
    st => if AtBlock(fn, st) then RunBlock(fn, st.ctl.block, st) else st
  }

  // ------------------------------------------------------------------
  // SSA.
  // ------------------------------------------------------------------

  /** Statement `j` of block `b` binds `r`. */
  ghost predicate DefAt(fn: Function, b: BlockId, j: nat, r: Ref) {
    b in Ids(fn) && j < |StmtsOf(fn, b)| && r in Defs(StmtsOf(fn, b)[j])
  }

  /** Position `(a, i)` comes before `(b, j)` on every run that reaches `(b, j)`. */
  ghost predicate Before(fn: Function, a: BlockId, i: nat, b: BlockId, j: nat) {
    if a == b then i < j else Dominates(CfgOf(fn), a, b)
  }

  ghost predicate DefinedBefore(fn: Function, r: Ref, b: BlockId, j: nat) {
    exists a, i: nat {:trigger DefAt(fn, a, i, r)} :: DefAt(fn, a, i, r) && Before(fn, a, i, b, j)
  }

  ghost predicate UniqueDefs(fn: Function) {
    forall r, a, i: nat, b, j: nat {:trigger DefAt(fn, a, i, r), DefAt(fn, b, j, r)} ::
      DefAt(fn, a, i, r) && DefAt(fn, b, j, r) ==> a == b && i == j
  }

  ghost predicate DefsDominateUses(fn: Function) {
    forall b, j: nat, r {:trigger DefinedBefore(fn, r, b, j)} ::
      Reachable(CfgOf(fn), b) && j < |StmtsOf(fn, b)| && r in Operands(StmtsOf(fn, b)[j].op)
      ==> DefinedBefore(fn, r, b, j)
  }

  ghost predicate JumpsLast(fn: Function) {
    forall b, j {:trigger StmtsOf(fn, b)[j]} :: 0 <= j < |StmtsOf(fn, b)| - 1 ==>
      !StmtsOf(fn, b)[j].op.Jump? && !StmtsOf(fn, b)[j].op.CondJump?
  }

  ghost predicate Ssa(fn: Function) { UniqueDefs(fn) && DefsDominateUses(fn) && JumpsLast(fn) }

  // ------------------------------------------------------------------
  // What the pass computes.
  // ------------------------------------------------------------------

  type Tables = map<BlockId, Table>

  function EndTable(fn: Function, tab: Tables, b: BlockId): Table
    requires b in tab
  {
    TableAt(tab[b], StmtsOf(fn, b), |StmtsOf(fn, b)|)
  }

  /** The table a block starts with: that of its predecessor when there is
      exactly one incoming edge, the empty one otherwise. */
  function EntryTable(fn: Function, tab: Tables, b: BlockId): Table {
    if b != fn.entry && |PredsOf(fn, b)| == 1 && PredsOf(fn, b)[0] in tab
    then EndTable(fn, tab, PredsOf(fn, b)[0])
    else map[]
  }

  /** Block `b` may start with `seen`: that table or, unless `exact`, the empty one. */
  ghost predicate Starts(fn: Function, tab: Tables, b: BlockId, seen: Table, exact: bool) {
    seen == EntryTable(fn, tab, b) || (!exact && seen == map[])
  }

  ghost predicate Sourced(fn: Function, tab: Tables, exact: bool) {
    forall b :: b in tab ==> Starts(fn, tab, b, tab[b], exact)
  }

  function NewBlock(b: Block, tab: Tables): Block {
    if b.id in tab then b.(stmts := RewriteAll(tab[b.id], b.stmts)) else b
  }

  ghost predicate Transformed(fn: Function, tab: Tables, out: Function) {
    && out.entry == fn.entry && |out.blocks| == |fn.blocks|
    && forall i :: 0 <= i < |fn.blocks| ==> out.blocks[i] == NewBlock(fn.blocks[i], tab)
  }

  // ------------------------------------------------------------------
  // A sole predecessor is the immediate dominator.
  // ------------------------------------------------------------------

  ghost predicate SolePred(g: Graph, p: BlockId, b: BlockId) {
    p in g.nodes && forall a :: Edge(g, a, b) ==> a == p
  }

  lemma SolePredOf(fn: Function, b: BlockId)
    requires |PredsOf(fn, b)| == 1
    ensures SolePred(CfgOf(fn), PredsOf(fn, b)[0], b)
  {
    var p := PredsOf(fn, b)[0];
    PredsAre(fn, b, p);
    forall a | Edge(CfgOf(fn), a, b) ensures a == p {
      EdgeIsSuccessor(fn, a, b);
      PredsAre(fn, b, a);
    }
  }

  /** So the pass's test against the dominator array never fails. */
  lemma SolePredDominates(g: Graph, rank: Rank, p: BlockId, b: BlockId)
    requires GoodOrder(g, rank) && b in rank && b != g.entry && SolePred(g, p, b)
    ensures p in rank && rank[p] < rank[b] && Edge(g, p, b)
    ensures ImmediateDominator(g, p, b)
  {
    assert HasForwardPred(g, rank, b);
    var a :| ForwardEdge(g, rank, a, b);
    forall q | PathTo(g, q, b) ensures p in q {
      PathInit(g, q, b);
    }
    forall e, q | e != b && Dominates(g, e, b) && PathTo(g, q, p) ensures e in q {
      PathSnoc(g, q, p, b);
      assert e in q + [b];
    }
  }

  // ------------------------------------------------------------------
  // Where the refs of a table are defined.
  // ------------------------------------------------------------------

  ghost predicate Computes(fn: Function, a: BlockId, i: nat, k: Key, t: Ref) {
    && a in Ids(fn) && i < |StmtsOf(fn, a)| && Reachable(CfgOf(fn), a)
    && IsKeyed(StmtsOf(fn, a)[i]) && KeyOf(StmtsOf(fn, a)[i]) == k
    && StmtsOf(fn, a)[i].result.value == t
  }

  ghost predicate ComputedBefore(fn: Function, k: Key, t: Ref, b: BlockId, j: nat) {
    exists a, i: nat {:trigger Computes(fn, a, i, k, t)} :: Computes(fn, a, i, k, t) && Before(fn, a, i, b, j)
  }

  ghost predicate Located(fn: Function, seen: Table, b: BlockId, j: nat) {
    forall k :: k in seen ==> ComputedBefore(fn, k, seen[k], b, j)
  }

  lemma LocatedNext(fn: Function, seen: Table, b: BlockId, j: nat)
    requires b in Ids(fn) && Reachable(CfgOf(fn), b) && j < |StmtsOf(fn, b)| && Located(fn, seen, b, j)
    ensures Located(fn, Extended(seen, StmtsOf(fn, b)[j]), b, j + 1)
  {
    var s := StmtsOf(fn, b)[j];
    var next := Extended(seen, s);
    forall k | k in next ensures ComputedBefore(fn, k, next[k], b, j + 1) {
      if k in seen {
        assert ComputedBefore(fn, k, seen[k], b, j);
      } else {
        assert Computes(fn, b, j, k, next[k]) && Before(fn, b, j, b, j + 1);
      }
    }
  }

  lemma {:induction false} LocatedAt(fn: Function, seen: Table, b: BlockId, j: nat)
    requires b in Ids(fn) && Reachable(CfgOf(fn), b) && j <= |StmtsOf(fn, b)| && Located(fn, seen, b, 0)
    ensures Located(fn, TableAt(seen, StmtsOf(fn, b), j), b, j)
    decreases j
  {
    if j > 0 {
      LocatedAt(fn, seen, b, j - 1);
      LocatedNext(fn, TableAt(seen, StmtsOf(fn, b), j - 1), b, j - 1);
    }
  }

  /** Crossing the edge to a block that `p` dominates. */
  lemma LocatedChild(fn: Function, rank: Rank, seen: Table, p: BlockId, j: nat, b: BlockId)
    requires GoodOrder(CfgOf(fn), rank) && p in rank && b in rank && rank[p] < rank[b]
    requires Dominates(CfgOf(fn), p, b) && Located(fn, seen, p, j)
    ensures Located(fn, seen, b, 0)
  {
    var g := CfgOf(fn);
    forall k | k in seen ensures ComputedBefore(fn, k, seen[k], b, 0) {
      assert ComputedBefore(fn, k, seen[k], p, j);
      var a, i: nat :| Computes(fn, a, i, k, seen[k]) && Before(fn, a, i, p, j);
      if a != p {
        DominatorRank(g, rank, a, p);
        DominatesTrans(g, a, p, b);
      }
      assert Before(fn, a, i, b, 0);
    }
  }

  lemma DominatesTrans(g: Graph, a: BlockId, p: BlockId, b: BlockId)
    requires Dominates(g, a, p) && Dominates(g, p, b)
    ensures Dominates(g, a, b)
  {
    forall q | PathTo(g, q, b) ensures a in q {
      var i :| 0 <= i < |q| && q[i] == p;
      PathPrefix(g, q, i);
    }
  }

  lemma PathPrefix(g: Graph, q: seq<BlockId>, i: nat)
    requires IsPath(g, q) && i < |q|
    ensures PathTo(g, q[..i + 1], q[i])
    ensures forall x :: x in q[..i + 1] ==> x in q
  {
  }

  lemma {:induction false} TablesLocated(fn: Function, rank: Rank, tab: Tables, b: BlockId)
    requires GoodOrder(CfgOf(fn), rank) && rank.Keys <= Ids(fn) && tab.Keys == rank.Keys
    requires Sourced(fn, tab, false) && b in tab
    ensures Located(fn, tab[b], b, 0)
    decreases rank[b]
  {
    assert Starts(fn, tab, b, tab[b], false);
    if tab[b] != map[] {
      var p := PredsOf(fn, b)[0];
      SolePredOf(fn, b);
      SolePredDominates(CfgOf(fn), rank, p, b);
      TablesLocated(fn, rank, tab, p);
      LocatedAt(fn, tab[p], p, |StmtsOf(fn, p)|);
      LocatedChild(fn, rank, EndTable(fn, tab, p), p, |StmtsOf(fn, p)|, b);
    }
  }

  // ------------------------------------------------------------------
  // In SSA nothing a table talks about is ever rebound under it.
  // ------------------------------------------------------------------

  lemma BeforeAsymmetric(fn: Function, rank: Rank, a: BlockId, i: nat, b: BlockId, j: nat)
    requires GoodOrder(CfgOf(fn), rank) && a in rank && b in rank && Before(fn, a, i, b, j)
    ensures !Before(fn, b, j, a, i)
  {
    if a != b && Dominates(CfgOf(fn), b, a) {
      DominatorRank(CfgOf(fn), rank, a, b);
      DominatorRank(CfgOf(fn), rank, b, a);
      assert Tied(rank, a, b);
    }
  }

  /** A ref read at `(a, i)` is not bound at `(b, j)` if `(a, i)` comes first. */
  lemma OperandNotRebound(fn: Function, rank: Rank, a: BlockId, i: nat, b: BlockId, j: nat, r: Ref)
    requires Ssa(fn) && GoodOrder(CfgOf(fn), rank) && a in rank && b in rank
    requires i < |StmtsOf(fn, a)| && r in Operands(StmtsOf(fn, a)[i].op)
    requires Before(fn, a, i, b, j) || (a == b && i == j)
    ensures !DefAt(fn, b, j, r)
  {
    assert DefinedBefore(fn, r, a, i);
    var d, k: nat :| DefAt(fn, d, k, r) && Before(fn, d, k, a, i);
    if DefAt(fn, b, j, r) {
      assert d == b && k == j;
      if a == b && i == j {
        assert false;
      } else {
        BeforeAsymmetric(fn, rank, a, i, b, j);
        assert false;
      }
    }
  }

  lemma TableFresh(fn: Function, rank: Rank, seen: Table, b: BlockId, j: nat)
    requires Ssa(fn) && GoodOrder(CfgOf(fn), rank) && rank.Keys <= Ids(fn)
    requires b in rank && j < |StmtsOf(fn, b)| && Located(fn, seen, b, j)
    ensures Fresh(seen, StmtsOf(fn, b)[j])
  {
    var s := StmtsOf(fn, b)[j];
    forall k, r | k in seen && r in Defs(s) ensures !Mentions(k, seen[k], r) {
      KeyNotRebound(fn, rank, k, seen[k], b, j, r);
    }
    if IsKeyed(s) {
      assert s.op.lhs in Operands(s.op) && s.op.rhs in Operands(s.op);
      OperandNotRebound(fn, rank, b, j, b, j, s.op.lhs);
      OperandNotRebound(fn, rank, b, j, b, j, s.op.rhs);
      assert DefAt(fn, b, j, s.result.value);
    }
  }

  lemma KeyNotRebound(fn: Function, rank: Rank, k: Key, t: Ref, b: BlockId, j: nat, r: Ref)
    requires Ssa(fn) && GoodOrder(CfgOf(fn), rank) && b in rank
    requires ComputedBefore(fn, k, t, b, j) && DefAt(fn, b, j, r)
    ensures !Mentions(k, t, r)
  {
    var a, i: nat :| Computes(fn, a, i, k, t) && Before(fn, a, i, b, j);
    var s := StmtsOf(fn, a)[i];
    assert k.lhs in Operands(s.op) && k.rhs in Operands(s.op);
    OperandNotRebound(fn, rank, a, i, b, j, k.lhs);
    OperandNotRebound(fn, rank, a, i, b, j, k.rhs);
    assert DefAt(fn, a, i, t);
  }

  // ------------------------------------------------------------------
  // One block.
  // ------------------------------------------------------------------

  lemma {:induction false} NoGoto(stmts: seq<Stmt>, n: nat, st: State)
    requires n <= |stmts| && st.ctl.Running?
    requires forall j :: 0 <= j < n ==> !stmts[j].op.Jump? && !stmts[j].op.CondJump?
    ensures !Run(stmts[..n], st).ctl.Goto?
    decreases n
  {
    if n > 0 {
      NoGoto(stmts, n - 1, st);
      TakeSnoc(stmts, n - 1);
      RunSnoc(stmts[..n - 1], stmts[n - 1], st);
      StepNoGoto(stmts[n - 1], Run(stmts[..n - 1], st));
    }
  }

  lemma StepNoGoto(s: Stmt, st: State)
    requires !st.ctl.Goto? && !s.op.Jump? && !s.op.CondJump?
    ensures !Step(s, st).ctl.Goto?
  {
  }

  /** Only the last statement can leave for another block; it names the target
      and leaves the refs alone. */
  lemma GotoStep(seen: Table, s: Stmt, st: State)
    requires !st.ctl.Goto? && Step(s, st).ctl.Goto? && (st.ctl.Running? ==> Holds(seen, st))
    ensures Step(s, st).ctl.block in TerminatorTargets(Block(0, [s]))
    ensures Holds(Extended(seen, s), Step(s, st))
  {
    StepNoGotoOr(s, st);
  }

  lemma StepNoGotoOr(s: Stmt, st: State)
    requires !st.ctl.Goto? && Step(s, st).ctl.Goto?
    ensures st.ctl.Running? && (s.op.Jump? || s.op.CondJump?) && Step(s, st).env == st.env
  {
    if !s.op.Jump? && !s.op.CondJump? { StepNoGoto(s, st); }
  }

  lemma BlockLeaves(fn: Function, seen: Table, b: BlockId, st: State)
    requires JumpsLast(fn) && Holds(seen, st) && st.ctl.Running?
    requires FreshUpTo(seen, StmtsOf(fn, b), |StmtsOf(fn, b)|)
    requires Run(StmtsOf(fn, b), st).ctl.Goto?
    ensures Run(StmtsOf(fn, b), st).ctl.block in Successors(fn, b)
    ensures Holds(TableAt(seen, StmtsOf(fn, b), |StmtsOf(fn, b)|), Run(StmtsOf(fn, b), st))
  {
    var stmts := StmtsOf(fn, b);
    var n := |stmts| - 1;
    NoGoto(stmts, n, st);
    TakeSnoc(stmts, n);
    TakeAll(stmts);
    RunSnoc(stmts[..n], stmts[n], st);
    PrefixHolds(seen, stmts, n, st);
    GotoStep(TableAt(seen, stmts, n), stmts[n], Run(stmts[..n], st));
  }

  lemma SameBlocks(fn: Function, tab: Tables, out: Function, b: BlockId)
    requires UniqueIds(fn) && Transformed(fn, tab, out)
    ensures b in Ids(out) <==> b in Ids(fn)
    ensures StmtsOf(out, b) == if b in tab then RewriteAll(tab[b], StmtsOf(fn, b)) else StmtsOf(fn, b)
  {
    var i, j := FindBlock(fn.blocks, b), FindBlock(out.blocks, b);
    if j.Some? { assert fn.blocks[j.value].id == b && fn.blocks[j.value] in fn.blocks; }
    if i.Some? { assert out.blocks[i.value].id == b && out.blocks[i.value] in out.blocks; }
    if i.Some? && j.Some? { assert SameId(fn, i.value, j.value); }
  }

  /** The standing assumptions of the proof. */
  ghost predicate Optimised(fn: Function, rank: Rank, tab: Tables, out: Function) {
    && UniqueIds(fn) && Ssa(fn)
    && GoodOrder(CfgOf(fn), rank) && rank.Keys <= Ids(fn) && tab.Keys == rank.Keys
    && Sourced(fn, tab, false) && Transformed(fn, tab, out)
  }

  /** A state about to enter a block satisfies that block's entry table. */
  ghost predicate Ready(fn: Function, tab: Tables, st: State) {
    AtBlock(fn, st) ==> st.ctl.block in tab && Holds(tab[st.ctl.block], st)
  }

  lemma BlockFresh(fn: Function, rank: Rank, tab: Tables, out: Function, b: BlockId)
    requires Optimised(fn, rank, tab, out) && b in tab
    ensures FreshUpTo(tab[b], StmtsOf(fn, b), |StmtsOf(fn, b)|)
  {
    TablesLocated(fn, rank, tab, b);
    forall j: nat | j < |StmtsOf(fn, b)| ensures FreshAt(tab[b], StmtsOf(fn, b), j) {
      LocatedAt(fn, tab[b], b, j);
      TableFresh(fn, rank, TableAt(tab[b], StmtsOf(fn, b), j), b, j);
    }
  }

  lemma BlockRuns(fn: Function, rank: Rank, tab: Tables, out: Function, b: BlockId, st: State)
    requires Optimised(fn, rank, tab, out) && b in tab && Holds(tab[b], st)
    ensures RunBlock(out, b, st) == RunBlock(fn, b, st)
    ensures Ready(fn, tab, RunBlock(fn, b, st))
  {
    var stmts := StmtsOf(fn, b);
    var st0 := st.(ctl := Running);
    assert Holds(tab[b], st0);
    BlockFresh(fn, rank, tab, out, b);
    RewriteRuns(tab[b], stmts, st0);
    SameBlocks(fn, tab, out, b);
    var st1 := RunBlock(fn, b, st);
    if AtBlock(fn, st1) {
      BlockLeaves(fn, tab[b], b, st0);
      EntryHolds(fn, rank, tab, b, st1.ctl.block, st1);
    }
  }

  /** Control arrives at `c` from `b` with `b`'s final table in force. */
  lemma EntryHolds(fn: Function, rank: Rank, tab: Tables, b: BlockId, c: BlockId, st: State)
    requires GoodOrder(CfgOf(fn), rank) && rank.Keys <= Ids(fn) && tab.Keys == rank.Keys && Sourced(fn, tab, false)
    requires b in tab && c in Ids(fn) && c in Successors(fn, b) && Holds(EndTable(fn, tab, b), st)
    ensures c in tab && Holds(tab[c], st)
  {
    EdgeRanked(fn, rank, b, c);
    EntryFrom(fn, tab, b, c);
    assert Starts(fn, tab, c, tab[c], false);
  }

  lemma EdgeRanked(fn: Function, rank: Rank, b: BlockId, c: BlockId)
    requires GoodOrder(CfgOf(fn), rank) && b in rank && b in Ids(fn) && c in Ids(fn) && c in Successors(fn, b)
    ensures c in rank
  {
    EdgeIsSuccessor(fn, b, c);
    ReachableStep(CfgOf(fn), b, c);
  }

  lemma EntryFrom(fn: Function, tab: Tables, b: BlockId, c: BlockId)
    requires b in tab && b in Ids(fn) && c in Successors(fn, b)
    ensures EntryTable(fn, tab, c) == map[] || EntryTable(fn, tab, c) == EndTable(fn, tab, b)
  {
    PredsAre(fn, c, b);
    if |PredsOf(fn, c)| == 1 { assert PredsOf(fn, c)[0] == b; }
  }

  // ------------------------------------------------------------------
  // Every run.
  // ------------------------------------------------------------------

  lemma SameAt(fn: Function, tab: Tables, out: Function, st: State)
    requires UniqueIds(fn) && Transformed(fn, tab, out)
    ensures AtBlock(out, st) == AtBlock(fn, st)
  {
    if st.ctl.Goto? { SameBlocks(fn, tab, out, st.ctl.block); }
  }

  lemma TurnsAgree(fn: Function, rank: Rank, tab: Tables, out: Function, st: State)
    requires Optimised(fn, rank, tab, out) && Ready(fn, tab, st)
    ensures ReadyIn(out)(st) == ReadyIn(fn)(st)
    ensures ReadyIn(out)(st) ==> TurnIn(out)(st) == TurnIn(fn)(st) && Ready(fn, tab, TurnIn(out)(st))
  {
    SameAt(fn, tab, out, st);
    if AtBlock(fn, st) { BlockRuns(fn, rank, tab, out, st.ctl.block, st); }
  }

  /** After any number of blocks the two functions are in the same state: same
      block trace, registers, memory, flags and value of every ref. */
  lemma RunsPreserved(fn: Function, rank: Rank, tab: Tables, out: Function, st: State, n: nat)
    requires Optimised(fn, rank, tab, out) && st.ctl == Goto(fn.entry)
    ensures RunBlocks(out, st, n) == RunBlocks(fn, st, n)
  {
    var inv := s => Ready(fn, tab, s);
    forall s | inv(s)
      ensures ReadyIn(out)(s) == ReadyIn(fn)(s)
      ensures ReadyIn(out)(s) ==> TurnIn(out)(s) == TurnIn(fn)(s) && inv(TurnIn(out)(s))
    {
      TurnsAgree(fn, rank, tab, out, s);
    }
    SameRuns(inv, ReadyIn(out), TurnIn(out), ReadyIn(fn), TurnIn(fn), st, n);
  }

  // ------------------------------------------------------------------
  // What is eliminated along chains of sole predecessors.
  // ------------------------------------------------------------------

  /** Blocks each of which is the only predecessor of the next; the first has no such
      predecessor itself. */
  ghost predicate Chain(fn: Function, path: seq<BlockId>) {
    && path != [] && (path[0] == fn.entry || |PredsOf(fn, path[0])| != 1)
    && forall i :: 0 < i < |path| ==> path[i] != fn.entry && PredsOf(fn, path[i]) == [path[i - 1]]
  }

  /** Their statements in a row. */
  function Along(fn: Function, path: seq<BlockId>): seq<Stmt> {
    if path == [] then [] else Along(fn, path[..|path| - 1]) + StmtsOf(fn, path[|path| - 1])
  }

  /** The last block becomes what elimination in the whole row leaves of it. */
  ghost predicate EliminatedIn(fn: Function, out: Function, path: seq<BlockId>)
    requires path != []
  {
    var before, b := Along(fn, path[..|path| - 1]), path[|path| - 1];
    EliminatesFrom(before + StmtsOf(fn, b), |before|, StmtsOf(out, b))
  }

  lemma ChainInit(fn: Function, path: seq<BlockId>)
    requires Chain(fn, path) && |path| > 1
    ensures Chain(fn, path[..|path| - 1]) && PredsOf(fn, path[|path| - 1]) == [path[|path| - 2]]
    ensures path[|path| - 1] != fn.entry
  {
  }

  /** Every reachable block ends one. */
  lemma {:induction false} ChainExists(fn: Function, rank: Rank, b: BlockId) returns (path: seq<BlockId>)
    requires GoodOrder(CfgOf(fn), rank) && b in rank
    ensures Chain(fn, path) && path[|path| - 1] == b
    decreases rank[b]
  {
    if b == fn.entry || |PredsOf(fn, b)| != 1 { return [b]; }
    var p := PredsOf(fn, b)[0];
    SolePredOf(fn, b);
    SolePredDominates(CfgOf(fn), rank, p, b);
    var init := ChainExists(fn, rank, p);
    path := init + [b];
    assert PredsOf(fn, b) == [p];
  }

  lemma ForwardedFrom(fn: Function, rank: Rank, tab: Tables, p: BlockId, b: BlockId)
    requires GoodOrder(CfgOf(fn), rank) && tab.Keys == rank.Keys && Sourced(fn, tab, true)
    requires b in tab && b != fn.entry && PredsOf(fn, b) == [p]
    ensures p in tab && tab[b] == EndTable(fn, tab, p)
  {
    assert Starts(fn, tab, b, tab[b], true);
    SolePredOf(fn, b);
    SolePredDominates(CfgOf(fn), rank, p, b);
  }

  /** The table a block starts with is that of the row before it. */
  lemma {:induction false} ChainTable(fn: Function, rank: Rank, tab: Tables, path: seq<BlockId>, before: seq<Stmt>)
    requires GoodOrder(CfgOf(fn), rank) && tab.Keys == rank.Keys && Sourced(fn, tab, true)
    requires Chain(fn, path) && path[|path| - 1] in tab && before == Along(fn, path[..|path| - 1])
    ensures tab[path[|path| - 1]] == TableAt(map[], before, |before|)
    decreases |path|
  {
    var b, init := path[|path| - 1], path[..|path| - 1];
    if |path| > 1 {
      ChainInit(fn, path);
      var earlier := Along(fn, init[..|init| - 1]);
      var p := path[|path| - 2];
      ForwardedFrom(fn, rank, tab, p, b);
      ChainTable(fn, rank, tab, init, earlier);
      CarriedOn(earlier, StmtsOf(fn, p), before, tab[p]);
    } else {
      assert Starts(fn, tab, b, tab[b], true);
    }
  }

  lemma ChainEliminated(fn: Function, rank: Rank, tab: Tables, out: Function, path: seq<BlockId>)
    requires UniqueIds(fn) && GoodOrder(CfgOf(fn), rank) && tab.Keys == rank.Keys
    requires Sourced(fn, tab, true) && Transformed(fn, tab, out) && Chain(fn, path) && path[|path| - 1] in tab
    ensures EliminatedIn(fn, out, path)
  {
    var before := Along(fn, path[..|path| - 1]);
    ChainTable(fn, rank, tab, path, before);
    var b := path[|path| - 1];
    SameBlocks(fn, tab, out, b);
    TailEliminated(before, StmtsOf(fn, b), tab[b], before + StmtsOf(fn, b), StmtsOf(out, b));
  }

  /** Repeated expressions go, along every chain; blocks no run reaches stay as they are. */
  ghost predicate EliminatesAll(fn: Function, out: Function) {
    && (forall path :: Chain(fn, path) && Reachable(CfgOf(fn), path[|path| - 1]) ==> EliminatedIn(fn, out, path))
    && (forall b :: !Reachable(CfgOf(fn), b) ==> StmtsOf(out, b) == StmtsOf(fn, b))
  }

  lemma AllEliminatedIn(fn: Function, rank: Rank, tab: Tables, out: Function)
    requires UniqueIds(fn) && GoodOrder(CfgOf(fn), rank) && tab.Keys == rank.Keys
    requires Sourced(fn, tab, true) && Transformed(fn, tab, out)
    ensures EliminatesAll(fn, out)
  {
    forall path | Chain(fn, path) && Reachable(CfgOf(fn), path[|path| - 1]) ensures EliminatedIn(fn, out, path) {
      ChainEliminated(fn, rank, tab, out, path);
    }
    forall b | !Reachable(CfgOf(fn), b) ensures StmtsOf(out, b) == StmtsOf(fn, b) { SameBlocks(fn, tab, out, b); }
  }

  // ------------------------------------------------------------------
  // The pass.
  // ------------------------------------------------------------------

  /** The loop state: blocks of rank below `n` are done. */
  ghost predicate Progress(fn: Function, rank: Rank, n: nat, ends: Tables, tab: Tables, exact: bool) {
    RankedBelow(rank, n, tab.Keys) && EndsMatch(fn, ends, tab) && Sourced(fn, tab, exact)
  }

  /** The look-up of the entry table, with the dominator test the code makes: a correct array
      always lets it through, and no array lets a wrong table through. */
  method StartTable(fn: Function, idx: map<BlockId, nat>, preds: map<BlockId, seq<BlockId>>, idoms: seq<BlockId>,
                    ghost rank: Rank, ghost tab: Tables, ghost exact: bool, ends: Tables, b: BlockId)
    returns (seen: Table)
    requires IsIndex(fn, idx) && |idoms| == |fn.blocks| && (exact ==> DominatorArray(fn, idoms))
    requires GoodOrder(CfgOf(fn), rank) && b in rank && b in Ids(fn)
    requires b in preds ==> preds[b] == PredsOf(fn, b)
    requires b !in preds ==> PredsOf(fn, b) == []
    requires Progress(fn, rank, rank[b], ends, tab, exact)
    ensures Starts(fn, tab, b, seen, exact)
  {
    seen := map[];
    if b != fn.entry && b in preds && |preds[b]| == 1 {
      var pred := preds[b][0];
      SolePredOf(fn, b);
      SolePredDominates(CfgOf(fn), rank, pred, b);
      if exact { ImmediateIsUnique(CfgOf(fn), rank, b, pred, idoms[idx[b]]); }
      if pred == idoms[idx[b]] {
        if pred in ends { seen := ends[pred]; }
      }
    }
  }

  ghost predicate RankedBelow(rank: Rank, n: nat, keys: set<BlockId>) {
    forall b :: b in keys <==> b in rank && rank[b] < n
  }

  ghost predicate EndsMatch(fn: Function, ends: Tables, tab: Tables) {
    ends.Keys == tab.Keys && forall b :: b in tab ==> ends[b] == EndTable(fn, tab, b)
  }

  lemma AddTable(fn: Function, rank: Rank, b: BlockId, ends: Tables, tab: Tables, seen: Table, end: Table, exact: bool)
    requires GoodOrder(CfgOf(fn), rank) && b in rank && Progress(fn, rank, rank[b], ends, tab, exact)
    requires Starts(fn, tab, b, seen, exact) && end == TableAt(seen, StmtsOf(fn, b), |StmtsOf(fn, b)|)
    ensures Progress(fn, rank, rank[b] + 1, ends[b := end], tab[b := seen], exact)
  {
    var tab1 := tab[b := seen];
    AddSourced(fn, rank, b, tab, seen, exact);
    AddRanked(CfgOf(fn), rank, b, tab.Keys);
    AddEnd(fn, b, ends, tab, seen, end);
    assert tab1.Keys == tab.Keys + {b};
  }

  lemma AddEnd(fn: Function, b: BlockId, ends: Tables, tab: Tables, seen: Table, end: Table)
    requires b !in tab && EndsMatch(fn, ends, tab)
    requires end == TableAt(seen, StmtsOf(fn, b), |StmtsOf(fn, b)|)
    ensures EndsMatch(fn, ends[b := end], tab[b := seen])
  {
  }

  lemma AddRanked(g: Graph, rank: Rank, b: BlockId, keys: set<BlockId>)
    requires GoodOrder(g, rank) && b in rank && RankedBelow(rank, rank[b], keys)
    ensures RankedBelow(rank, rank[b] + 1, keys + {b})
  {
    forall c ensures c in keys + {b} <==> c in rank && rank[c] < rank[b] + 1 {
      if c in rank && rank[c] == rank[b] { assert Tied(rank, b, c); }
    }
  }

  lemma AddSourced(fn: Function, rank: Rank, b: BlockId, tab: Tables, seen: Table, exact: bool)
    requires GoodOrder(CfgOf(fn), rank) && b in rank && RankedBelow(rank, rank[b], tab.Keys)
    requires Sourced(fn, tab, exact) && Starts(fn, tab, b, seen, exact)
    ensures Sourced(fn, tab[b := seen], exact)
  {
    var tab1 := tab[b := seen];
    forall c | c in tab1 ensures Starts(fn, tab1, c, tab1[c], exact) { EntryStable(fn, rank, b, tab, seen, c); }
  }

  /** Adding the table of a later block changes no earlier entry table. */
  lemma EntryStable(fn: Function, rank: Rank, b: BlockId, tab: Tables, seen: Table, c: BlockId)
    requires GoodOrder(CfgOf(fn), rank) && b in rank && c in rank && rank[c] <= rank[b] && b !in tab
    ensures EntryTable(fn, tab[b := seen], c) == EntryTable(fn, tab, c)
  {
    if c != fn.entry && |PredsOf(fn, c)| == 1 {
      SolePredOf(fn, c);
      SolePredDominates(CfgOf(fn), rank, PredsOf(fn, c)[0], c);
    }
  }

  lemma AddBlock(fn: Function, idx: map<BlockId, nat>, b: BlockId, tab: Tables, seen: Table, out: Function,
                 out1: Function)
    requires UniqueIds(fn) && IsIndex(fn, idx) && b in idx && b !in tab && Transformed(fn, tab, out)
    requires out1 == out.(blocks := out.blocks[idx[b] := Block(b, RewriteAll(seen, fn.blocks[idx[b]].stmts))])
    ensures Transformed(fn, tab[b := seen], out1)
  {
    forall i | 0 <= i < |fn.blocks| ensures out1.blocks[i] == NewBlock(fn.blocks[i], tab[b := seen]) {
      if fn.blocks[i].id == b { assert SameId(fn, i, idx[b]); }
    }
  }

  lemma FoundAt(fn: Function, idx: map<BlockId, nat>, b: BlockId)
    requires UniqueIds(fn) && IsIndex(fn, idx) && b in idx
    ensures StmtsOf(fn, b) == fn.blocks[idx[b]].stmts
  {
    var i := FindBlock(fn.blocks, b);
    assert fn.blocks[idx[b]] in fn.blocks;
    assert SameId(fn, i.value, idx[b]);
  }

  method RewriteBlock(fn: Function, idx: map<BlockId, nat>, preds: map<BlockId, seq<BlockId>>, idoms: seq<BlockId>,
                      ghost rank: Rank, ghost tab: Tables, ghost exact: bool, ends: Tables, out: Function, b: BlockId)
    returns (out1: Function, ends1: Tables, ghost tab1: Tables)
    requires UniqueIds(fn) && IsIndex(fn, idx) && |idoms| == |fn.blocks| && (exact ==> DominatorArray(fn, idoms))
    requires GoodOrder(CfgOf(fn), rank) && b in rank && b in Ids(fn)
    requires b in preds ==> preds[b] == PredsOf(fn, b)
    requires b !in preds ==> PredsOf(fn, b) == []
    requires Progress(fn, rank, rank[b], ends, tab, exact) && Transformed(fn, tab, out)
    ensures Progress(fn, rank, rank[b] + 1, ends1, tab1, exact) && Transformed(fn, tab1, out1)
  {
    var seen := StartTable(fn, idx, preds, idoms, rank, tab, exact, ends, b);
    FoundAt(fn, idx, b);
    var stmts, end := CseStatements(seen, out.blocks[idx[b]].stmts);
    AddTable(fn, rank, b, ends, tab, seen, end, exact);
    tab1 := tab[b := seen];
    ends1 := ends[b := end];
    out1 := out.(blocks := out.blocks[idx[b] := Block(b, stmts)]);
    AddBlock(fn, idx, b, tab, seen, out, out1);
  }

  method RewriteReachable(fn: Function, idx: map<BlockId, nat>, preds: map<BlockId, seq<BlockId>>, idoms: seq<BlockId>,
                          rpo: seq<BlockId>, ghost rank: Rank, ghost exact: bool)
    returns (out: Function, ghost tab: Tables)
    requires UniqueIds(fn) && IsIndex(fn, idx) && |idoms| == |fn.blocks| && (exact ==> DominatorArray(fn, idoms))
    requires GoodOrder(CfgOf(fn), rank) && rank.Keys <= Ids(fn) && IdomSolver.Ordered(rank, rpo)
    requires Ids(fn) <= preds.Keys && forall b :: b in preds ==> preds[b] == PredsOf(fn, b)
    ensures tab.Keys == rank.Keys && Sourced(fn, tab, exact) && Transformed(fn, tab, out)
  {
    out, tab := fn, map[];
    var ends: Tables := map[];
    for i := 0 to |rpo|
      invariant Progress(fn, rank, i, ends, tab, exact) && Transformed(fn, tab, out)
    {
      ListedBlock(fn, rank, rpo, preds, i);
      out, ends, tab := RewriteBlock(fn, idx, preds, idoms, rank, tab, exact, ends, out, rpo[i]);
    }
    ListedAll(rank, rpo, tab.Keys);
  }

  lemma ListedBlock(fn: Function, rank: Rank, rpo: seq<BlockId>, preds: map<BlockId, seq<BlockId>>, i: nat)
    requires rank.Keys <= Ids(fn) && IdomSolver.Ordered(rank, rpo) && i < |rpo|
    requires Ids(fn) <= preds.Keys && forall b :: b in preds ==> preds[b] == PredsOf(fn, b)
    ensures rpo[i] in rank && rank[rpo[i]] == i && rpo[i] in Ids(fn)
    ensures rpo[i] in preds && preds[rpo[i]] == PredsOf(fn, rpo[i])
  {
  }

  lemma ListedAll(rank: Rank, rpo: seq<BlockId>, keys: set<BlockId>)
    requires IdomSolver.Ordered(rank, rpo) && RankedBelow(rank, |rpo|, keys)
    ensures keys == rank.Keys
  {
  }

  lemma ExactIsSourced(fn: Function, tab: Tables, exact: bool)
    requires Sourced(fn, tab, exact)
    ensures Sourced(fn, tab, false)
  {
    forall b | b in tab ensures Starts(fn, tab, b, tab[b], false) { assert Starts(fn, tab, b, tab[b], exact); }
  }

  /** The function after the pass, whatever the dominator array says, and the entry table each
      reachable block was rewritten under: its only predecessor's, if the array is correct. */
  method OptimiseWith(fn: Function, idoms: seq<BlockId>, ghost exact: bool)
    returns (out: Function, ghost rank: Rank, ghost tab: Tables)
    requires UniqueIds(fn) && |idoms| == |fn.blocks| && (exact ==> DominatorArray(fn, idoms))
    ensures fn.entry !in Ids(fn) ==> out == fn
    ensures fn.entry in Ids(fn) && Ssa(fn) ==> Optimised(fn, rank, tab, out)
    ensures fn.entry in Ids(fn) ==>
      GoodOrder(CfgOf(fn), rank) && tab.Keys == rank.Keys && Sourced(fn, tab, exact) && Transformed(fn, tab, out)
    ensures fn.entry in Ids(fn) && exact ==> EliminatesAll(fn, out)
  {
    out, rank, tab := fn, map[], map[];
    if fn.blocks == [] { return; }
    var idx := IdToIndex(fn);
    var preds := PredecessorLists(CfgOf(fn), IdList(fn));
    if fn.entry !in idx { return; }
    var po := PostorderOf(fn);
    var rpo, ranks := ReversePostorder(fn, po);
    rank := ranks;
    out, tab := RewriteReachable(fn, idx, preds, idoms, rpo, rank, exact);
    ExactIsSourced(fn, tab, exact);
    if exact { AllEliminatedIn(fn, rank, tab, out); }
  }

  /** No dominator array, right or wrong, makes the pass change a run of an SSA function; the
      right one makes it eliminate all there is along chains. */
  method CseWith(fn: Function, idoms: seq<BlockId>) returns (out: Function)
    requires UniqueIds(fn) && |idoms| == |fn.blocks|
    ensures Ssa(fn) ==> forall st: State, n: nat ::
      st.ctl == Goto(fn.entry) ==> RunBlocks(out, st, n) == RunBlocks(fn, st, n)
    ensures if fn.entry in Ids(fn) then DominatorArray(fn, idoms) ==> EliminatesAll(fn, out) else out == fn
  {
    ghost var rank, tab;
    out, rank, tab := OptimiseWith(fn, idoms, DominatorArray(fn, idoms));
    if fn.entry in Ids(fn) && Ssa(fn) {
      forall st: State, n: nat | st.ctl == Goto(fn.entry) ensures RunBlocks(out, st, n) == RunBlocks(fn, st, n) {
        RunsPreserved(fn, rank, tab, out, st, n);
      }
    }
  }

  /** The pass with the array it computes. */
  method Optimise(fn: Function) returns (out: Function, ghost rank: Rank, ghost tab: Tables)
    requires UniqueIds(fn) && Terminates(fn)
    ensures fn.entry !in Ids(fn) ==> out == fn
    ensures fn.entry in Ids(fn) && Ssa(fn) ==> Optimised(fn, rank, tab, out)
    ensures fn.entry in Ids(fn) ==>
      GoodOrder(CfgOf(fn), rank) && tab.Keys == rank.Keys && Sourced(fn, tab, Named(fn)) && Transformed(fn, tab, out)
    ensures fn.entry in Ids(fn) && Named(fn) ==> EliminatesAll(fn, out)
  {
    var idoms, _, _ := DominatorsOf(fn);
    out, rank, tab := OptimiseWith(fn, idoms, Named(fn));
  }

  /** `global_cse` keeps every run of an SSA function and eliminates along chains. */
  method GlobalCse(fn: Function) returns (out: Function)
    requires UniqueIds(fn) && Terminates(fn)
    ensures Ssa(fn) ==> forall st: State, n: nat ::
      st.ctl == Goto(fn.entry) ==> RunBlocks(out, st, n) == RunBlocks(fn, st, n)
    ensures if fn.entry in Ids(fn) then Named(fn) ==> EliminatesAll(fn, out) else out == fn
  {
    var idoms, _, _ := DominatorsOf(fn);
    out := CseWith(fn, idoms);
  }
}
