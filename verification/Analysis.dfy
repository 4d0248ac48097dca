/** `build_cfg_graph`, `compute_dominators` and `DominatorTree::dominates`. */
module Analysis {
  import opened Words
  import opened Ir
  import opened Cfg
  import opened DomTree
  import opened Dfs
  import opened IdomSolver
  import opened DomChildren
  import opened Dominators
  import opened AncestorSolver

  datatype Code = DuplicateBlockId | EntryNotFound | InvalidBlockTarget | DuplicateGuestPc

  type PcMap = map<U64, BlockId>

  // ------------------------------------------------------------------
  // Guest PC markers.
  // ------------------------------------------------------------------

  datatype Mark = Mark(pc: U64, block: BlockId)

  function BlockMarks(b: Block, n: nat): seq<Mark>
    requires n <= |b.stmts|
  {
    if n == 0 then []
    else if b.stmts[n - 1].op.GuestPc? then BlockMarks(b, n - 1) + [Mark(b.stmts[n - 1].op.pc, b.id)]
    else BlockMarks(b, n - 1)
  }

  function Marks(blocks: seq<Block>, n: nat): seq<Mark>
    requires n <= |blocks|
  {
    if n == 0 then [] else Marks(blocks, n - 1) + BlockMarks(blocks[n - 1], |blocks[n - 1].stmts|)
  }

  ghost predicate SamePc(ms: seq<Mark>, i: nat, j: nat) { i < |ms| && j < |ms| && ms[i].pc == ms[j].pc }

  ghost predicate DistinctPcs(ms: seq<Mark>) { forall i: nat, j: nat :: SamePc(ms, i, j) ==> i == j }

  /** The map from marked PCs to blocks. */
  ghost predicate MapsMarks(ms: seq<Mark>, pcs: PcMap) {
    && DistinctPcs(ms)
    && (forall k :: 0 <= k < |ms| ==> ms[k].pc in pcs && pcs[ms[k].pc] == ms[k].block)
    && forall pc :: pc in pcs ==> Marked(ms, pc)
  }

  ghost predicate Marked(ms: seq<Mark>, pc: U64) { exists k :: 0 <= k < |ms| && ms[k].pc == pc }

  lemma MapsOneMore(ms: seq<Mark>, pcs: PcMap, x: Mark)
    requires MapsMarks(ms, pcs)
    ensures x.pc !in pcs ==> MapsMarks(ms + [x], pcs[x.pc := x.block])
    ensures x.pc in pcs ==> !DistinctPcs(ms + [x])
  {
    if x.pc in pcs {
      var k :| 0 <= k < |ms| && ms[k].pc == x.pc;
      assert SamePc(ms + [x], k, |ms|);
    } else {
      forall i: nat, j: nat | SamePc(ms + [x], i, j) ensures i == j {
        if i < |ms| && j < |ms| { assert SamePc(ms, i, j); }
      }
      var ms1 := ms + [x];
      forall pc | pc in pcs[x.pc := x.block] ensures Marked(ms1, pc) {
        if pc == x.pc { assert (ms + [x])[|ms|].pc == pc; }
        else {
          var k :| 0 <= k < |ms| && ms[k].pc == pc;
          assert (ms + [x])[k].pc == pc;
        }
      }
    }
  }

  lemma DistinctPrefix(ms: seq<Mark>, more: seq<Mark>)
    requires DistinctPcs(ms + more)
    ensures DistinctPcs(ms)
  {
    forall i: nat, j: nat | SamePc(ms, i, j) ensures i == j { assert SamePc(ms + more, i, j); }
  }

  lemma {:induction false} MarksGrow(blocks: seq<Block>, n: nat, k: nat)
    requires n <= k <= |blocks|
    ensures Marks(blocks, n) <= Marks(blocks, k)
    decreases k
  {
    if k > n { MarksGrow(blocks, n, k - 1); }
  }

  lemma {:induction false} BlockMarksGrow(b: Block, n: nat, k: nat)
    requires n <= k <= |b.stmts|
    ensures BlockMarks(b, n) <= BlockMarks(b, k)
    decreases k
  {
    if k > n { BlockMarksGrow(b, n, k - 1); }
  }

  /** A repeated PC anywhere makes the whole list repeat it. */
  lemma RepeatedPc(blocks: seq<Block>, n: nat, k: nat)
    requires n < |blocks| && k <= |blocks[n].stmts|
    requires !DistinctPcs(Marks(blocks, n) + BlockMarks(blocks[n], k))
    ensures !DistinctPcs(Marks(blocks, |blocks|))
  {
    var b := blocks[n];
    BlockMarksGrow(b, k, |b.stmts|);
    MarksGrow(blocks, n + 1, |blocks|);
    var ms, all := Marks(blocks, n) + BlockMarks(b, k), Marks(blocks, |blocks|);
    assert ms <= Marks(blocks, n + 1) <= all;
    if DistinctPcs(all) {
      assert all == ms + all[|ms|..];
      DistinctPrefix(ms, all[|ms|..]);
    }
  }

  method MarkBlock(blocks: seq<Block>, n: nat, pcs0: PcMap) returns (ok: bool, pcs: PcMap)
    requires n < |blocks| && MapsMarks(Marks(blocks, n), pcs0)
    ensures ok ==> MapsMarks(Marks(blocks, n + 1), pcs)
    ensures !ok ==> !DistinctPcs(Marks(blocks, |blocks|))
  {
    pcs := pcs0;
    var b := blocks[n];
    ghost var ms := Marks(blocks, n);
    assert ms + [] == ms;
    for k := 0 to |b.stmts|
      invariant MapsMarks(ms + BlockMarks(b, k), pcs)
    {
      if b.stmts[k].op.GuestPc? {
        var x := Mark(b.stmts[k].op.pc, b.id);
        MapsOneMore(ms + BlockMarks(b, k), pcs, x);
        assert ms + BlockMarks(b, k) + [x] == ms + BlockMarks(b, k + 1);
        if x.pc in pcs {
          RepeatedPc(blocks, n, k + 1);
          return false, pcs;
        }
        pcs := pcs[x.pc := x.block];
      }
    }
    ok := true;
  }

  method GuestPcs(blocks: seq<Block>) returns (ok: bool, pcs: PcMap)
    ensures ok <==> DistinctPcs(Marks(blocks, |blocks|))
    ensures ok ==> MapsMarks(Marks(blocks, |blocks|), pcs)
  {
    pcs := map[];
    for n := 0 to |blocks|
      invariant MapsMarks(Marks(blocks, n), pcs)
    {
      ok, pcs := MarkBlock(blocks, n, pcs);
      if !ok { return; }
    }
    ok := true;
  }

  // ------------------------------------------------------------------
  // Successors.
  // ------------------------------------------------------------------

  function NextBlock(blocks: seq<Block>, i: nat): seq<BlockId> { if i + 1 < |blocks| then [blocks[i + 1].id] else [] }

  function GuestTarget(pcs: PcMap, pc: U64): seq<BlockId> { if pc in pcs then [pcs[pc]] else [] }

  /** Block targets named by the terminator itself; the else target comes first. */
  function DirectTargets(op: Op): seq<BlockId> {
    match op
    case Jump(t) => [t]
    case CondJump(_, t, f) => [f, t]
    case _ => []
  }

  /** The targets the second graph gives a block: named blocks, guest PCs of the function,
      nothing after an exit, and otherwise the next block in layout order. */
  function NextTargets(blocks: seq<Block>, pcs: PcMap, i: nat): seq<BlockId>
    requires i < |blocks|
  {
    var stmts := blocks[i].stmts;
    if stmts == [] then NextBlock(blocks, i)
    else match stmts[|stmts| - 1].op {
      case Jump(_) => DirectTargets(stmts[|stmts| - 1].op)
      case CondJump(_, _, _) => DirectTargets(stmts[|stmts| - 1].op)
      case JumpRel(pc) => GuestTarget(pcs, pc)
      case CondJumpRel(_, pc, ft) => GuestTarget(pcs, ft) + GuestTarget(pcs, pc)
      case Return => []
      case JumpReg(_) => []
      case _ => NextBlock(blocks, i)
    }
  }

  predicate TargetsPresentAt(fn: Function, i: nat) {
    i < |fn.blocks| && fn.blocks[i].stmts != [] ==>
      forall t :: t in DirectTargets(fn.blocks[i].stmts[|fn.blocks[i].stmts| - 1].op) ==> t in Ids(fn)
  }

  ghost predicate TargetsUpTo(fn: Function, n: nat) {
    n == 0 || (TargetsUpTo(fn, n - 1) && TargetsPresentAt(fn, n - 1))
  }

  lemma {:induction false} TargetsEarlier(fn: Function, n: nat, i: nat)
    requires i <= n && TargetsUpTo(fn, n)
    ensures TargetsUpTo(fn, i) && (i < n ==> TargetsPresentAt(fn, i))
  {
    if i < n { TargetsEarlier(fn, n - 1, i); }
  }

  /** Every named target is a block of the function. */
  ghost predicate TargetsPresent(fn: Function) { TargetsUpTo(fn, |fn.blocks|) }

  /** Some block among the first `n` with id `a` has target `t`. */
  ghost predicate Connects(blocks: seq<Block>, pcs: PcMap, n: nat, a: BlockId, t: BlockId)
    requires n <= |blocks|
  {
    exists i :: 0 <= i < n && blocks[i].id == a && t in NextTargets(blocks, pcs, i)
  }

  type Adjacency = map<BlockId, seq<BlockId>>

  /** Both directions of the edges out of the first `n` blocks. */
  ghost predicate Edges(blocks: seq<Block>, pcs: PcMap, n: nat, ids: set<BlockId>, succ: Adjacency, preds: Adjacency)
    requires n <= |blocks|
  {
    && succ.Keys == ids && preds.Keys == ids
    && (forall a, t :: a in succ ==> (t in succ[a] <==> Connects(blocks, pcs, n, a, t)))
    && (forall a, t :: t in preds ==> (a in preds[t] <==> Connects(blocks, pcs, n, a, t)))
  }

  /** The same, with `more` of them out of block `a0` still being added. */
  ghost predicate Adjacent(blocks: seq<Block>, pcs: PcMap, n: nat, a0: BlockId, more: seq<BlockId>, ids: set<BlockId>,
                           succ: Adjacency, preds: Adjacency)
    requires n <= |blocks|
  {
    && succ.Keys == ids && preds.Keys == ids
    && (forall a, t :: a in succ ==> (t in succ[a] <==> Connects(blocks, pcs, n, a, t) || (a == a0 && t in more)))
    && (forall a, t :: t in preds ==> (a in preds[t] <==> Connects(blocks, pcs, n, a, t) || (a == a0 && t in more)))
  }

  function AddUnique(xs: seq<BlockId>, x: BlockId): (ys: seq<BlockId>)
    ensures forall y :: y in ys <==> y in xs || y == x
  {
    if x in xs then xs else xs + [x]
  }

  lemma AdjacentMore(blocks: seq<Block>, pcs: PcMap, n: nat, a0: BlockId, more: seq<BlockId>, ids: set<BlockId>,
                     succ: Adjacency, preds: Adjacency, t0: BlockId)
    requires n <= |blocks| && Adjacent(blocks, pcs, n, a0, more, ids, succ, preds) && a0 in ids && t0 in ids
    ensures Adjacent(blocks, pcs, n, a0, more + [t0], ids,
                     succ[a0 := AddUnique(succ[a0], t0)], preds[t0 := AddUnique(preds[t0], a0)])
  {
  }

  lemma ConnectsNext(blocks: seq<Block>, pcs: PcMap, n: nat, a: BlockId, t: BlockId)
    requires n < |blocks|
    ensures Connects(blocks, pcs, n + 1, a, t)
      <==> Connects(blocks, pcs, n, a, t) || (a == blocks[n].id && t in NextTargets(blocks, pcs, n))
  {
    if Connects(blocks, pcs, n, a, t) {
      var i :| 0 <= i < n && blocks[i].id == a && t in NextTargets(blocks, pcs, i);
      assert i < n + 1;
    }
  }

  lemma EdgesNext(blocks: seq<Block>, pcs: PcMap, n: nat, ids: set<BlockId>, succ: Adjacency, preds: Adjacency)
    requires n < |blocks| && Adjacent(blocks, pcs, n, blocks[n].id, NextTargets(blocks, pcs, n), ids, succ, preds)
    ensures Edges(blocks, pcs, n + 1, ids, succ, preds)
  {
    var n1 := n + 1;
    forall a, t | a in succ ensures t in succ[a] <==> Connects(blocks, pcs, n1, a, t) {
      ConnectsNext(blocks, pcs, n, a, t);
    }
    forall a, t | t in preds ensures a in preds[t] <==> Connects(blocks, pcs, n1, a, t) {
      ConnectsNext(blocks, pcs, n, a, t);
    }
  }

  /** The edges of one block, each recorded at both ends. */
  method AddTargets(blocks: seq<Block>, ghost pcs: PcMap, n: nat, ts: seq<BlockId>, ghost ids: set<BlockId>,
                    succ0: Adjacency, preds0: Adjacency) returns (succ: Adjacency, preds: Adjacency)
    requires n < |blocks| && blocks[n].id in ids && forall t :: t in ts ==> t in ids
    requires ts == NextTargets(blocks, pcs, n) && Edges(blocks, pcs, n, ids, succ0, preds0)
    ensures Edges(blocks, pcs, n + 1, ids, succ, preds)
  {
    succ, preds := succ0, preds0;
    var a := blocks[n].id;
    for j := 0 to |ts|
      invariant Adjacent(blocks, pcs, n, a, ts[..j], ids, succ, preds)
    {
      TakeSnoc(ts, j);
      AdjacentMore(blocks, pcs, n, a, ts[..j], ids, succ, preds, ts[j]);
      succ, preds := succ[a := AddUnique(succ[a], ts[j])], preds[ts[j] := AddUnique(preds[ts[j]], a)];
    }
    TakeAll(ts);
    EdgesNext(blocks, pcs, n, ids, succ, preds);
  }

  // ------------------------------------------------------------------
  // The graph.
  // ------------------------------------------------------------------

  datatype GraphResult = Built(g: Graph, preds: Adjacency) | Failed(code: Code)

  /** The graph as the second analysis sees it. */
  ghost predicate IsGraph(fn: Function, g: Graph, pcs: PcMap) {
    && MapsMarks(Marks(fn.blocks, |fn.blocks|), pcs)
    && g.nodes == Ids(fn) && g.entry == fn.entry && g.succ.Keys == Ids(fn)
    && forall a, t :: a in g.succ ==> (t in g.succ[a] <==> Connects(fn.blocks, pcs, |fn.blocks|, a, t))
  }

  lemma MarksAreBlocks(blocks: seq<Block>, n: nat, k: nat)
    requires n <= |blocks| && k < |Marks(blocks, n)|
    ensures exists b :: b in blocks && b.id == Marks(blocks, n)[k].block
    decreases n
  {
    var b := blocks[n - 1];
    if k < |Marks(blocks, n - 1)| {
      MarksAreBlocks(blocks, n - 1, k);
    } else {
      BlockMarksAre(b, |b.stmts|, k - |Marks(blocks, n - 1)|);
      assert b in blocks;
    }
  }

  lemma {:induction false} BlockMarksAre(b: Block, n: nat, k: nat)
    requires n <= |b.stmts| && k < |BlockMarks(b, n)|
    ensures BlockMarks(b, n)[k].block == b.id
    decreases n
  {
    if k < |BlockMarks(b, n - 1)| { BlockMarksAre(b, n - 1, k); }
  }

  lemma GuestTargetsPresent(fn: Function, pcs: PcMap, pc: U64)
    requires MapsMarks(Marks(fn.blocks, |fn.blocks|), pcs)
    ensures forall t :: t in GuestTarget(pcs, pc) ==> t in Ids(fn)
  {
    var ms := Marks(fn.blocks, |fn.blocks|);
    if pc in pcs {
      assert Marked(ms, pc);
      var k :| 0 <= k < |ms| && ms[k].pc == pc;
      MarksAreBlocks(fn.blocks, |fn.blocks|, k);
    }
  }

  lemma NextBlockPresent(fn: Function, i: nat)
    requires i < |fn.blocks|
    ensures forall t :: t in NextBlock(fn.blocks, i) ==> t in Ids(fn)
    ensures fn.blocks[i].id in Ids(fn)
  {
    assert fn.blocks[i] in fn.blocks;
    if i + 1 < |fn.blocks| { assert fn.blocks[i + 1] in fn.blocks; }
  }

  lemma NextTargetsPresent(fn: Function, pcs: PcMap, i: nat)
    requires i < |fn.blocks| && MapsMarks(Marks(fn.blocks, |fn.blocks|), pcs) && TargetsPresentAt(fn, i)
    ensures forall t :: t in NextTargets(fn.blocks, pcs, i) ==> t in Ids(fn)
  {
    NextBlockPresent(fn, i);
    var stmts := fn.blocks[i].stmts;
    if stmts != [] {
      var op := stmts[|stmts| - 1].op;
      if op.JumpRel? { GuestTargetsPresent(fn, pcs, op.pc); }
      if op.CondJumpRel? {
        GuestTargetsPresent(fn, pcs, op.pc);
        GuestTargetsPresent(fn, pcs, op.fallthrough);
      }
    }
  }

  method HasDuplicate(fn: Function) returns (dup: bool)
    ensures dup <==> !UniqueIds(fn)
  {
    var seen: map<BlockId, nat> := map[];
    for i := 0 to |fn.blocks|
      invariant forall k :: 0 <= k < i ==> fn.blocks[k].id in seen && seen[fn.blocks[k].id] == k
      invariant forall b :: b in seen ==> seen[b] < i && fn.blocks[seen[b]].id == b
    {
      if fn.blocks[i].id in seen {
        assert SameId(fn, seen[fn.blocks[i].id], i);
        return true;
      }
      seen := seen[fn.blocks[i].id := i];
    }
    forall i, j | SameId(fn, i, j) ensures i == j { assert seen[fn.blocks[i].id] == i && seen[fn.blocks[j].id] == j; }
    dup := false;
  }

  ghost predicate Buildable(fn: Function) {
    && UniqueIds(fn) && fn.entry in Ids(fn)
    && DistinctPcs(Marks(fn.blocks, |fn.blocks|)) && TargetsPresent(fn)
  }

  /** The first rule a function breaks, in the order they are checked. */
  ghost predicate Breaks(fn: Function, code: Code) {
    match code
    case DuplicateBlockId => !UniqueIds(fn)
    case EntryNotFound => UniqueIds(fn) && fn.entry !in Ids(fn)
    case DuplicateGuestPc => UniqueIds(fn) && fn.entry in Ids(fn) && !DistinctPcs(Marks(fn.blocks, |fn.blocks|))
    case InvalidBlockTarget =>
      UniqueIds(fn) && fn.entry in Ids(fn) && DistinctPcs(Marks(fn.blocks, |fn.blocks|)) && !TargetsPresent(fn)
  }

  lemma EdgesStart(blocks: seq<Block>, pcs: PcMap, ids: set<BlockId>)
    ensures Edges(blocks, pcs, 0, ids, map a | a in ids :: [], map a | a in ids :: [])
  {
  }

  method ConnectBlock(fn: Function, pcs: PcMap, i: nat, ids: set<BlockId>, succ0: Adjacency, preds0: Adjacency)
    returns (ok: bool, succ: Adjacency, preds: Adjacency)
    requires i < |fn.blocks| && ids == Ids(fn) && MapsMarks(Marks(fn.blocks, |fn.blocks|), pcs)
    requires Edges(fn.blocks, pcs, i, ids, succ0, preds0)
    ensures ok <==> TargetsPresentAt(fn, i)
    ensures ok ==> Edges(fn.blocks, pcs, i + 1, ids, succ, preds)
  {
    succ, preds := succ0, preds0;
    ok := TargetsPresentAt(fn, i);
    if ok {
      NextTargetsPresent(fn, pcs, i);
      NextBlockPresent(fn, i);
      succ, preds := AddTargets(fn.blocks, pcs, i, NextTargets(fn.blocks, pcs, i), ids, succ, preds);
    }
  }

  method ConnectAll(fn: Function, pcs: PcMap, ids: set<BlockId>, succ0: Adjacency, preds0: Adjacency)
    returns (ok: bool, succ: Adjacency, preds: Adjacency)
    requires ids == Ids(fn) && MapsMarks(Marks(fn.blocks, |fn.blocks|), pcs)
    requires Edges(fn.blocks, pcs, 0, ids, succ0, preds0)
    ensures ok <==> TargetsPresent(fn)
    ensures ok ==> Edges(fn.blocks, pcs, |fn.blocks|, ids, succ, preds)
  {
    succ, preds := succ0, preds0;
    for i := 0 to |fn.blocks|
      invariant TargetsUpTo(fn, i)
      invariant Edges(fn.blocks, pcs, i, ids, succ, preds)
    {
      ok, succ, preds := ConnectBlock(fn, pcs, i, ids, succ, preds);
      if !ok {
        TargetMissing(fn, i);
        return;
      }
    }
    ok := true;
  }

  method Connect(fn: Function, pcs: PcMap) returns (ok: bool, succ: Adjacency, preds: Adjacency)
    requires MapsMarks(Marks(fn.blocks, |fn.blocks|), pcs)
    ensures ok <==> TargetsPresent(fn)
    ensures ok ==> Edges(fn.blocks, pcs, |fn.blocks|, Ids(fn), succ, preds)
  {
    var ids := Ids(fn);
    EdgesStart(fn.blocks, pcs, ids);
    ok, succ, preds := ConnectAll(fn, pcs, ids, map a | a in ids :: [], map a | a in ids :: []);
  }

  lemma TargetMissing(fn: Function, i: nat)
    requires i < |fn.blocks| && !TargetsPresentAt(fn, i)
    ensures !TargetsPresent(fn)
  {
    if TargetsPresent(fn) { TargetsEarlier(fn, |fn.blocks|, i); }
  }

  lemma EdgesAreGraph(fn: Function, pcs: PcMap, succ: Adjacency, preds: Adjacency)
    requires MapsMarks(Marks(fn.blocks, |fn.blocks|), pcs) && TargetsPresent(fn)
    requires Edges(fn.blocks, pcs, |fn.blocks|, Ids(fn), succ, preds)
    ensures var g := Graph(Ids(fn), fn.entry, succ); IsGraph(fn, g, pcs) && PredLists(g, preds) && ClosedGraph(g)
  {
    var g := Graph(Ids(fn), fn.entry, succ);
    forall a, t | a in g.nodes && t in Targets(g, a) ensures Edge(g, a, t) {
      var i :| 0 <= i < |fn.blocks| && fn.blocks[i].id == a && t in NextTargets(fn.blocks, pcs, i);
      TargetsEarlier(fn, |fn.blocks|, i);
      NextTargetsPresent(fn, pcs, i);
    }
    forall a, b | b in g.nodes ensures a in preds[b] <==> Edge(g, a, b) {
      if a in preds[b] {
        var i :| 0 <= i < |fn.blocks| && fn.blocks[i].id == a && b in NextTargets(fn.blocks, pcs, i);
        NextBlockPresent(fn, i);
      }
    }
  }

  /** `build_cfg_graph`: refused exactly when a rule is broken, with the code of the first. */
  method BuildCfgGraph(fn: Function) returns (r: GraphResult, ghost pcs: PcMap)
    ensures r.Built? <==> Buildable(fn)
    ensures r.Failed? ==> Breaks(fn, r.code)
    ensures r.Built? ==> IsGraph(fn, r.g, pcs) && PredLists(r.g, r.preds) && ClosedGraph(r.g)
  {
    pcs := map[];
    var dup := HasDuplicate(fn);
    if dup { return Failed(DuplicateBlockId), pcs; }
    if fn.entry !in Ids(fn) { return Failed(EntryNotFound), pcs; }
    var ok, marks := GuestPcs(fn.blocks);
    if !ok { return Failed(DuplicateGuestPc), pcs; }
    pcs := marks;
    var succ, preds;
    ok, succ, preds := Connect(fn, marks);
    if !ok { return Failed(InvalidBlockTarget), pcs; }
    EdgesAreGraph(fn, marks, succ, preds);
    r := Built(Graph(Ids(fn), fn.entry, succ), preds);
  }

  // ------------------------------------------------------------------
  // Dominators.
  // ------------------------------------------------------------------

  /** What the tree says about one block, by the path definition. */
  ghost predicate TreeAt(g: Graph, tree: Tree, b: BlockId) {
    if !Reachable(g, b) then b !in tree
    else if b == g.entry then b in tree && tree[b] == None
    else b in tree && tree[b].Some? && ImmediateDominator(g, tree[b].value, b)
  }

  ghost predicate ExactTree(g: Graph, tree: Tree) { forall b: BlockId :: TreeAt(g, tree, b) }

  lemma RecordsAreExact(g: Graph, rank: Rank, tree: Tree, m: Idom)
    requires GoodOrder(g, rank) && WellFormed(g, rank, m) && IsDominatorTree(g, rank, m) && Records(g, tree, m)
    ensures ExactTree(g, tree)
  {
    forall b: BlockId ensures TreeAt(g, tree, b) {
      if b in m && b != g.entry {
        var d := m[b];
        assert Anc(g, rank, m, d, d) && Anc(g, rank, m, d, b);
        forall e | e != b && Dominates(g, e, b) ensures Dominates(g, e, d) { assert Anc(g, rank, m, e, b); }
      }
    }
  }

  /** `compute_dominators`: on every function the graph accepts, the tree is exact for
      that graph, fallthrough and guest-PC edges included. */
  method ComputeDominators(fn: Function)
    returns (r: GraphResult, reachable: seq<BlockId>, tree: Tree, children: Children,
             ghost pcs: PcMap, ghost rank: Rank, ghost m: Idom)
    ensures r.Built? <==> Buildable(fn)
    ensures r.Failed? ==> Breaks(fn, r.code)
    ensures r.Built? ==> IsGraph(fn, r.g, pcs) && ExactTree(r.g, tree) && ChildLists(tree, children)
    ensures r.Built? ==> forall b :: b in reachable <==> Reachable(r.g, b)
    ensures r.Built? ==>
      GoodOrder(r.g, rank) && WellFormed(r.g, rank, m) && IsDominatorTree(r.g, rank, m) && Records(r.g, tree, m)
  {
    reachable, tree, children, rank, m := [], map[], map[], map[], map[];
    r, pcs := BuildCfgGraph(fn);
    if r.Failed? { return; }
    var po := PostorderRec(r.g);
    reachable := Reversed(po);
    ReversedNoDup(po);
    rank := RankBy(reachable);
    ReversePostorderIsGood(r.g, po, rank);
    RankInNodes(r.g, rank);
    tree, m := SolveTree(r.g, rank, reachable, r.preds);
    RecordsAreExact(r.g, rank, tree, m);
    children := ChildrenOf(tree);
    forall b ensures b in reachable <==> b in po { ReversedHas(po, b); }
  }

  lemma ReversedHas(po: seq<BlockId>, b: BlockId)
    ensures b in Reversed(po) <==> b in po
  {
    var rpo := Reversed(po);
    if b in po {
      var k :| 0 <= k < |po| && po[k] == b;
      assert rpo[|po| - 1 - k] == b;
    }
  }

  /** The rank of each block in a list without repetition. */
  ghost function RankBy(rpo: seq<BlockId>): (rank: Rank)
    requires NoDup(rpo)
    ensures Ordered(rank, rpo)
  {
    if rpo == [] then map[]
    else
      var n := |rpo| - 1;
      var before := RankBy(rpo[..n]);
      assert forall i :: 0 <= i < n ==> rpo[..n][i] == rpo[i];
      before[rpo[n] := n]
  }

  /** `DominatorTree::dominates` decides the path definition. */
  method TreeDominates(ghost g: Graph, ghost rank: Rank, ghost m: Idom, reachable: seq<BlockId>, tree: Tree,
                       d: BlockId, b: BlockId) returns (yes: bool)
    requires GoodOrder(g, rank) && WellFormed(g, rank, m) && IsDominatorTree(g, rank, m) && Records(g, tree, m)
    requires forall x :: x in reachable <==> Reachable(g, x)
    ensures yes <==> Reachable(g, d) && Reachable(g, b) && Dominates(g, d, b)
  {
    if d !in reachable || b !in reachable { return false; }
    var current := b;
    while current != d && current in tree && tree[current].Some?
      invariant current in m && (Anc(g, rank, m, d, b) <==> Anc(g, rank, m, d, current))
      decreases rank[current]
    {
      current := tree[current].value;
    }
    yes := current == d;
  }

  // ------------------------------------------------------------------
  // The two solvers agree.
  // ------------------------------------------------------------------

  /** Ends by naming its successors or by leaving the function. */
  predicate EndsExplicitly(b: Block) {
    b.stmts != [] && var op := b.stmts[|b.stmts| - 1].op; op.Jump? || op.CondJump? || op.Return? || op.JumpReg?
  }

  lemma ExplicitTargets(b: Block, blocks: seq<Block>, pcs: PcMap, i: nat, t: BlockId)
    requires i < |blocks| && blocks[i] == b && EndsExplicitly(b)
    ensures t in NextTargets(blocks, pcs, i) <==> t in TerminatorTargets(b)
  {
  }

  lemma SameSuccessors(fn: Function, g: Graph, pcs: PcMap, a: BlockId, t: BlockId)
    requires IsGraph(fn, g, pcs) && UniqueIds(fn) && (forall b :: b in fn.blocks ==> EndsExplicitly(b)) && a in Ids(fn)
    ensures t in g.succ[a] <==> t in Successors(fn, a)
  {
    IdsIndexed(fn, a);
    var i := FindBlock(fn.blocks, a).value;
    assert fn.blocks[i] in fn.blocks;
    ExplicitTargets(fn.blocks[i], fn.blocks, pcs, i, t);
    if Connects(fn.blocks, pcs, |fn.blocks|, a, t) {
      var k :| 0 <= k < |fn.blocks| && fn.blocks[k].id == a && t in NextTargets(fn.blocks, pcs, k);
      assert SameId(fn, k, i);
    }
  }

  lemma SameEdges(fn: Function, g: Graph, pcs: PcMap, a: BlockId, b: BlockId)
    requires IsGraph(fn, g, pcs) && UniqueIds(fn) && forall x :: x in fn.blocks ==> EndsExplicitly(x)
    ensures Edge(g, a, b) <==> Edge(CfgOf(fn), a, b)
  {
    EdgeIsSuccessor(fn, a, b);
    if a in Ids(fn) { SameSuccessors(fn, g, pcs, a, b); }
  }

  lemma SamePaths(g: Graph, h: Graph, p: seq<BlockId>, b: BlockId)
    requires g.nodes == h.nodes && g.entry == h.entry && forall x, y :: Edge(g, x, y) <==> Edge(h, x, y)
    ensures PathTo(g, p, b) <==> PathTo(h, p, b)
  {
  }

  lemma SameDominance(g: Graph, h: Graph)
    requires g.nodes == h.nodes && g.entry == h.entry && forall x, y :: Edge(g, x, y) <==> Edge(h, x, y)
    ensures forall b :: Reachable(g, b) <==> Reachable(h, b)
    ensures forall d, b :: Dominates(g, d, b) <==> Dominates(h, d, b)
  {
    forall p, b ensures PathTo(g, p, b) <==> PathTo(h, p, b) { SamePaths(g, h, p, b); }
  }

  /** What the array of one solver and the map of the other say about the same block. */
  ghost predicate Agree(entry: BlockId, id: BlockId, cell: BlockId, tree: Tree) {
    if id !in tree then cell == NO_DOMINATOR
    else if id == entry then cell == id && tree[id] == None
    else tree[id] == Some(cell)
  }

  /** On functions whose blocks all end in Jump, CondJump or an exit the two solvers
      compute the same tree. */
  lemma SolversAgree(fn: Function, g: Graph, pcs: PcMap, rank: Rank, tree: Tree, idom: seq<BlockId>, i: nat)
    requires UniqueIds(fn) && IsGraph(fn, g, pcs) && forall x :: x in fn.blocks ==> EndsExplicitly(x)
    requires GoodOrder(g, rank) && ExactTree(g, tree) && DominatorArray(fn, idom) && i < |fn.blocks|
    ensures Agree(fn.entry, fn.blocks[i].id, idom[i], tree)
  {
    var h, b := CfgOf(fn), fn.blocks[i].id;
    forall x, y ensures Edge(g, x, y) <==> Edge(h, x, y) { SameEdges(fn, g, pcs, x, y); }
    SameDominance(g, h);
    assert TreeAt(g, tree, b) && IdomCell(h, b, idom[i]);
    if Reachable(g, b) && b != g.entry { ImmediateIsUnique(g, rank, b, tree[b].value, idom[i]); }
  }
}
