/** `successors`, `postorder` and `dominators` of an IR function. */
module Dominators {
  import opened Words
  import opened Scalar
  import opened Ir
  import opened Cfg
  import opened DomTree
  import opened Dfs
  import opened IdomSolver

  function Ids(fn: Function): set<BlockId> { set b | b in fn.blocks :: b.id }

  predicate SameId(fn: Function, i: int, j: int) {
    0 <= i < |fn.blocks| && 0 <= j < |fn.blocks| && fn.blocks[i].id == fn.blocks[j].id
  }

  ghost predicate UniqueIds(fn: Function) {
    forall i, j {:trigger SameId(fn, i, j)} :: SameId(fn, i, j) ==> i == j
  }

  /** Position of the last block with the given id: the entry that the
      id-to-index map keeps. */
  function FindBlock(blocks: seq<Block>, id: BlockId): (r: Option<nat>)
    ensures r.Some? ==> r.value < |blocks| && blocks[r.value].id == id
    ensures r.None? ==> forall b :: b in blocks ==> b.id != id
  {
    if blocks == [] then None
    else if blocks[|blocks| - 1].id == id then Some(|blocks| - 1)
    else
      assert blocks == blocks[..|blocks| - 1] + [blocks[|blocks| - 1]];
      FindBlock(blocks[..|blocks| - 1], id)
  }

  function TerminatorTargets(b: Block): seq<BlockId> {
    if b.stmts == [] then []
    else match b.stmts[|b.stmts| - 1].op {
      case Jump(t) => [t]
      case CondJump(_, t, f) => [t, f]
      case _ => []
    }
  }

  function Successors(fn: Function, id: BlockId): seq<BlockId> {
    match FindBlock(fn.blocks, id)
    case None => []
    case Some(i) => TerminatorTargets(fn.blocks[i])
  }

  function CfgOf(fn: Function): Graph {
    Graph(Ids(fn), fn.entry, map id | id in Ids(fn) :: Successors(fn, id))
  }

  lemma EdgeIsSuccessor(fn: Function, a: BlockId, b: BlockId)
    ensures Edge(CfgOf(fn), a, b) <==> a in Ids(fn) && b in Ids(fn) && b in Successors(fn, a)
  {
  }

  // ------------------------------------------------------------------
  // Index and predecessor maps.
  // ------------------------------------------------------------------

  ghost predicate IsIndex(fn: Function, idx: map<BlockId, nat>) {
    && idx.Keys == Ids(fn)
    && forall id :: id in idx ==> idx[id] < |fn.blocks| && fn.blocks[idx[id]].id == id
  }

  method IdToIndex(fn: Function) returns (idx: map<BlockId, nat>)
    ensures IsIndex(fn, idx)
  {
    idx := map[];
    for i := 0 to |fn.blocks|
      invariant idx.Keys == set b | b in fn.blocks[..i] :: b.id
      invariant forall id :: id in idx ==> idx[id] < |fn.blocks| && fn.blocks[idx[id]].id == id
    {
      assert fn.blocks[..i + 1] == fn.blocks[..i] + [fn.blocks[i]];
      idx := idx[fn.blocks[i].id := i];
    }
    assert fn.blocks[..|fn.blocks|] == fn.blocks;
  }

  lemma IdsIndexed(fn: Function, a: BlockId)
    ensures a in Ids(fn) <==> exists k :: 0 <= k < |fn.blocks| && fn.blocks[k].id == a
  {
    if a in Ids(fn) {
      var b :| b in fn.blocks && b.id == a;
      var k :| 0 <= k < |fn.blocks| && fn.blocks[k] == b;
    }
  }

  /** `preds[b]` lists exactly the blocks with an edge to `b`. */
  ghost predicate IsPredMap(fn: Function, preds: map<BlockId, seq<BlockId>>) {
    && Ids(fn) <= preds.Keys
    && forall a, b :: b in preds ==> (a in preds[b] <==> a in Ids(fn) && b in Successors(fn, a))
  }

  function IdList(fn: Function): seq<BlockId> {
    seq(|fn.blocks|, i requires 0 <= i < |fn.blocks| => fn.blocks[i].id)
  }

  /** The predecessors of `b`, one entry per edge. */
  function PredsOf(fn: Function, b: BlockId): seq<BlockId> {
    PredsFrom(CfgOf(fn), IdList(fn), b, |fn.blocks|)
  }

  lemma PredsAre(fn: Function, b: BlockId, a: BlockId)
    ensures a in PredsOf(fn, b) <==> a in Ids(fn) && b in Successors(fn, a)
  {
    var ids := IdList(fn);
    PredsFromAre(CfgOf(fn), ids, b, |ids|, a);
    TakeAll(ids);
    IdsIndexed(fn, a);
    if a in Ids(fn) {
      var k :| 0 <= k < |fn.blocks| && fn.blocks[k].id == a;
      assert ids[k] == a;
    }
  }

  method PredecessorsMap(fn: Function) returns (preds: map<BlockId, seq<BlockId>>)
    ensures IsPredMap(fn, preds)
  {
    preds := PredecessorLists(CfgOf(fn), IdList(fn));
    forall a, b | b in preds ensures a in preds[b] <==> a in Ids(fn) && b in Successors(fn, a) {
      PredsAre(fn, b, a);
    }
  }

  // ------------------------------------------------------------------
  // Dominators of a function.
  // ------------------------------------------------------------------

  method PostorderOf(fn: Function) returns (order: seq<BlockId>)
    ensures IsPostorder(CfgOf(fn), order)
    ensures order == [] <==> fn.entry !in Ids(fn)
  {
    order := Postorder(CfgOf(fn));
  }

  /** `d` strictly dominates `b`, and every strict dominator of `b` dominates `d`. */
  ghost predicate ImmediateDominator(g: Graph, d: BlockId, b: BlockId) {
    && d != b && Dominates(g, d, b)
    && forall e :: e != b && Dominates(g, e, b) ==> Dominates(g, e, d)
  }

  /** A reachable block has one immediate dominator. */
  lemma ImmediateIsUnique(g: Graph, rank: Rank, b: BlockId, d: BlockId, e: BlockId)
    requires GoodOrder(g, rank) && Reachable(g, b) && ImmediateDominator(g, d, b) && ImmediateDominator(g, e, b)
    ensures d == e
  {
    DominatorRank(g, rank, d, b);
    DominatorRank(g, rank, e, b);
    DominatorRank(g, rank, d, e);
    DominatorRank(g, rank, e, d);
    assert Tied(rank, d, e);
  }

  /** What the array says about one block, by the path definition. */
  ghost predicate IdomCell(g: Graph, b: BlockId, d: BlockId) {
    if !Reachable(g, b) then d == NO_DOMINATOR
    else if b == g.entry then d == b
    else ImmediateDominator(g, d, b)
  }

  lemma TreeCell(g: Graph, rank: Rank, m: Idom, b: BlockId)
    requires GoodOrder(g, rank) && WellFormed(g, rank, m) && IsDominatorTree(g, rank, m)
    ensures IdomCell(g, b, Cell(m, b))
  {
    if b in m && b != g.entry {
      var d := m[b];
      assert Anc(g, rank, m, d, d) && Anc(g, rank, m, d, b);
      forall e | e != b && Dominates(g, e, b) ensures Dominates(g, e, d) {
        assert Anc(g, rank, m, e, b);
      }
    }
  }

  ghost predicate DominatorArray(fn: Function, idom: seq<BlockId>) {
    && |idom| == |fn.blocks|
    && forall i :: 0 <= i < |idom| ==> IdomCell(CfgOf(fn), fn.blocks[i].id, idom[i])
  }

  lemma NothingReachable(fn: Function, b: BlockId)
    requires fn.entry !in Ids(fn)
    ensures !Reachable(CfgOf(fn), b)
  {
  }

  lemma RankInNodes(g: Graph, rank: Rank)
    requires GoodOrder(g, rank)
    ensures rank.Keys <= g.nodes
  {
    forall b | b in rank ensures b in g.nodes {
      var p :| PathTo(g, p, b);
      PathNodesReachable(g, p, b);
    }
  }

  lemma IndexOwnsCells(fn: Function, idx: map<BlockId, nat>)
    requires UniqueIds(fn) && IsIndex(fn, idx)
    ensures OwnCells(idx, |fn.blocks|)
    ensures forall i :: 0 <= i < |fn.blocks| ==> fn.blocks[i].id in idx && idx[fn.blocks[i].id] == i
  {
    forall i | 0 <= i < |fn.blocks| ensures fn.blocks[i].id in idx && idx[fn.blocks[i].id] == i {
      assert fn.blocks[i] in fn.blocks;
      assert SameId(fn, idx[fn.blocks[i].id], i);
    }
    forall a, b | SameCell(idx, a, b) ensures a == b {
      assert fn.blocks[idx[a]].id == a;
    }
  }

  lemma PredMapEdges(fn: Function, preds: map<BlockId, seq<BlockId>>)
    requires IsPredMap(fn, preds)
    ensures PredLists(CfgOf(fn), preds)
  {
  }

  /** The array is the cell-by-cell image of a dominator tree. */
  ghost predicate Solved(fn: Function, idom: seq<BlockId>, rank: Rank, m: Idom) {
    var g := CfgOf(fn);
    && GoodOrder(g, rank) && WellFormed(g, rank, m) && IsDominatorTree(g, rank, m)
    && |idom| == |fn.blocks|
    && (forall i :: 0 <= i < |idom| ==> idom[i] == Cell(m, fn.blocks[i].id))
    && (forall v :: v in rank ==> rank[v] < |fn.blocks|)
  }

  lemma {:induction false} NoDupBound(s: seq<BlockId>, all: set<BlockId>)
    requires NoDup(s) && forall x :: x in s ==> x in all
    ensures |s| <= |all|
    decreases |s|
  {
    if s != [] {
      var n := |s| - 1;
      forall x | x in s[..n] ensures x in all - {s[n]} {
      }
      NoDupBound(s[..n], all - {s[n]});
    }
  }

  lemma {:induction false} IdCount(blocks: seq<Block>)
    ensures |set b | b in blocks :: b.id| <= |blocks|
    decreases |blocks|
  {
    if blocks != [] {
      var n := |blocks| - 1;
      IdCount(blocks[..n]);
      assert blocks == blocks[..n] + [blocks[n]];
      var rest := set b | b in blocks[..n] :: b.id;
      assert (set b | b in blocks :: b.id) == rest + {blocks[n].id};
    }
  }

  lemma RankBound(fn: Function, rpo: seq<BlockId>, rank: Rank)
    requires NoDup(rpo) && Ordered(rank, rpo) && rank.Keys <= Ids(fn)
    ensures forall v :: v in rank ==> rank[v] < |fn.blocks|
  {
    forall x | x in rpo ensures x in Ids(fn) {
      var i :| 0 <= i < |rpo| && rpo[i] == x;
    }
    NoDupBound(rpo, Ids(fn));
    IdCount(fn.blocks);
  }

  // ------------------------------------------------------------------
  // The iteration on a function, and when it ends.
  // ------------------------------------------------------------------

  /** What the iteration is set up with: any order that ranks the reachable blocks well, and the
      function's index and predecessor maps. */
  ghost predicate Presents(fn: Function, s: Solver) {
    && s.entry == fn.entry && GoodOrder(CfgOf(fn), s.rank) && Ordered(s.rank, s.rpo)
    && IsIndex(fn, s.idx) && IsPredMap(fn, s.preds)
  }

  lemma PresentsSolves(fn: Function, s: Solver)
    requires UniqueIds(fn) && Presents(fn, s)
    ensures Solves(CfgOf(fn), s, |fn.blocks|)
  {
    RankInNodes(CfgOf(fn), s.rank);
    IndexOwnsCells(fn, s.idx);
    PredMapEdges(fn, s.preds);
  }

  ghost predicate Ends(s: Solver, size: nat) {
    Laid(s, size) && exists rounds, n, out :: Settles(s, Start(s, size), rounds, n, out)
  }

  /** The iteration comes to an end. */
  ghost predicate Terminates(fn: Function) { forall s :: Presents(fn, s) ==> Ends(s, |fn.blocks|) }

  /** No reachable block that has a successor in the function has the sentinel's id. */
  ghost predicate Named(fn: Function) {
    Reachable(CfgOf(fn), NO_DOMINATOR) ==> forall b :: !Edge(CfgOf(fn), NO_DOMINATOR, b)
  }

  /** It does unless a reachable block other than the entry has the sentinel's id and a successor. */
  lemma NamedTerminates(fn: Function)
    requires UniqueIds(fn) && (Named(fn) || fn.entry == NO_DOMINATOR)
    ensures Terminates(fn)
  {
    forall s | Presents(fn, s) ensures Ends(s, |fn.blocks|) {
      PresentsSolves(fn, s);
      if fn.entry == NO_DOMINATOR {
        SentinelSettles(s, |fn.blocks|);
      } else {
        var rounds, n, out := QuietSettles(CfgOf(fn), s, |fn.blocks|);
      }
    }
  }

  /** With an entry of that id the array stays all sentinels, and that is right exactly if the entry
      immediately dominates every other reachable block. */
  lemma SentinelEntryExact(fn: Function, idom: seq<BlockId>)
    requires fn.entry == NO_DOMINATOR && |idom| == |fn.blocks| && AllSentinel(idom)
    ensures DominatorArray(fn, idom) <==>
      forall b :: Reachable(CfgOf(fn), b) && b != fn.entry ==> ImmediateDominator(CfgOf(fn), fn.entry, b)
  {
    var g := CfgOf(fn);
    if DominatorArray(fn, idom) {
      forall b | Reachable(g, b) && b != fn.entry ensures ImmediateDominator(g, fn.entry, b) {
        var p :| PathTo(g, p, b);
        PathNodesReachable(g, p, b);
        IdsIndexed(fn, b);
        var i :| 0 <= i < |fn.blocks| && fn.blocks[i].id == b;
        assert IdomCell(g, fn.blocks[i].id, idom[i]);
      }
    }
  }

  /** Where the entry is the only reachable block, it is. */
  lemma SentinelAlone(fn: Function, b: BlockId)
    requires fn.entry == NO_DOMINATOR && Named(fn) && Reachable(CfgOf(fn), b)
    ensures b == fn.entry
  {
    var p :| PathTo(CfgOf(fn), p, b);
    EntryReachable(CfgOf(fn));
    LongPathStarts(CfgOf(fn), p, b);
  }

  lemma LongPathStarts(g: Graph, p: seq<BlockId>, b: BlockId)
    requires PathTo(g, p, b)
    ensures |p| > 1 ==> Edge(g, g.entry, p[1])
  {
    if |p| > 1 { assert Edge(g, p[0], p[0 + 1]); }
  }

  function ThreeBlocks(x: Block, y: Block, z: Block): Function { Function([x] + [y] + [z], x.id) }

  lemma FindLast(blocks: seq<Block>, b: Block, id: BlockId)
    ensures FindBlock(blocks + [b], id) == if b.id == id then Some(|blocks|) else FindBlock(blocks, id)
  {
    assert (blocks + [b])[..|blocks|] == blocks;
  }

  lemma ThreeSuccessors(x: Block, y: Block, z: Block, a: BlockId)
    ensures Successors(ThreeBlocks(x, y, z), a) ==
      if a == z.id then TerminatorTargets(z) else if a == y.id then TerminatorTargets(y)
      else if a == x.id then TerminatorTargets(x) else []
  {
    FindLast([x] + [y], z, a);
    FindLast([x], y, a);
    FindLast([], x, a);
    assert [] + [x] == [x];
  }

  /** A chain of three blocks that starts at a block with that id. */
  function SentinelChain(): Function {
    ThreeBlocks(Block(NO_DOMINATOR, [Stmt(None, Jump(0))]), Block(0, [Stmt(None, Jump(1))]),
                Block(1, [Stmt(None, Return)]))
  }

  lemma ChainSuccessors(a: BlockId)
    ensures Successors(SentinelChain(), a) == if a == NO_DOMINATOR then [0] else if a == 0 then [1] else []
  {
    ThreeSuccessors(Block(NO_DOMINATOR, [Stmt(None, Jump(0))]), Block(0, [Stmt(None, Jump(1))]),
                    Block(1, [Stmt(None, Return)]), a);
  }

  lemma ChainIds(a: BlockId)
    ensures a in Ids(SentinelChain()) <==> a == NO_DOMINATOR || a == 0 || a == 1
  {
    var bs := SentinelChain().blocks;
    assert bs[0] in bs && bs[1] in bs && bs[2] in bs;
  }

  lemma ChainEdges(a: BlockId, b: BlockId)
    ensures Edge(CfgOf(SentinelChain()), a, b) <==> (a == NO_DOMINATOR && b == 0) || (a == 0 && b == 1)
  {
    EdgeIsSuccessor(SentinelChain(), a, b);
    ChainIds(a);
    ChainIds(b);
    ChainSuccessors(a);
  }

  lemma SentinelChainEnds()
    ensures UniqueIds(SentinelChain()) && Terminates(SentinelChain())
  {
    var fn := SentinelChain();
    forall i, j | SameId(fn, i, j) ensures i == j {
    }
    NamedTerminates(fn);
  }

  lemma MiddleDominatesLast()
    ensures Dominates(CfgOf(SentinelChain()), 0, 1)
  {
    var g := CfgOf(SentinelChain());
    forall p | PathTo(g, p, 1) ensures 0 in p {
      PathInit(g, p, 1);
      ChainEdges(p[|p| - 2], 1);
    }
  }

  lemma ChainPaths()
    ensures PathTo(CfgOf(SentinelChain()), [NO_DOMINATOR, 0, 1], 1)
    ensures !Dominates(CfgOf(SentinelChain()), 0, NO_DOMINATOR)
  {
    var g := CfgOf(SentinelChain());
    ChainIds(NO_DOMINATOR);
    ChainEdges(NO_DOMINATOR, 0);
    ChainEdges(0, 1);
    EntryReachable(g);
  }

  /** Its last block is immediately dominated by the middle one, and the array says otherwise. */
  lemma SentinelChainFails(idom: seq<BlockId>)
    requires |idom| == 3 && AllSentinel(idom)
    ensures !DominatorArray(SentinelChain(), idom)
  {
    MiddleDominatesLast();
    ChainPaths();
    SentinelEntryExact(SentinelChain(), idom);
  }

  // ------------------------------------------------------------------
  // The array.
  // ------------------------------------------------------------------

  /** The dominator array of a function with unique block ids. If no reachable block with a successor
      has the sentinel's id, each reachable block's cell is its immediate dominator under the path
      definition, and exactly the unreachable blocks keep the sentinel. */
  method DominatorsOf(fn: Function) returns (idom: seq<BlockId>, ghost rank: Rank, ghost m: Idom)
    requires UniqueIds(fn) && Terminates(fn)
    ensures |idom| == |fn.blocks| && forall d :: d in idom ==> d == NO_DOMINATOR || d in Ids(fn)
    ensures Named(fn) ==> DominatorArray(fn, idom)
    ensures Named(fn) && fn.entry in Ids(fn) && fn.entry != NO_DOMINATOR ==> Solved(fn, idom, rank, m)
    ensures fn.entry !in Ids(fn) || fn.entry == NO_DOMINATOR ==> AllSentinel(idom)
  {
    idom, rank, m := seq(|fn.blocks|, _ => NO_DOMINATOR), map[], map[];
    var po := PostorderOf(fn);
    if po == [] {
      forall i | 0 <= i < |fn.blocks| ensures IdomCell(CfgOf(fn), fn.blocks[i].id, idom[i]) {
        NothingReachable(fn, fn.blocks[i].id);
      }
      return;
    }
    idom, rank, m := DominatorsFrom(fn, po);
    if Named(fn) && fn.entry != NO_DOMINATOR {
      forall i | 0 <= i < |fn.blocks| ensures IdomCell(CfgOf(fn), fn.blocks[i].id, idom[i]) {
        TreeCell(CfgOf(fn), rank, m, fn.blocks[i].id);
      }
    }
    if Named(fn) && fn.entry == NO_DOMINATOR {
      forall b | Reachable(CfgOf(fn), b) ensures b == fn.entry { SentinelAlone(fn, b); }
      SentinelEntryExact(fn, idom);
    }
  }

  method ReversePostorder(fn: Function, po: seq<BlockId>) returns (rpo: seq<BlockId>, rank: Rank)
    requires po != [] && IsPostorder(CfgOf(fn), po)
    ensures rpo == Reversed(po) && Ordered(rank, rpo) && GoodOrder(CfgOf(fn), rank)
    ensures rank.Keys <= Ids(fn) && forall v :: v in rank ==> rank[v] < |fn.blocks|
  {
    rpo := Reversed(po);
    ReversedNoDup(po);
    rank := RankOf(rpo);
    ReversePostorderIsGood(CfgOf(fn), po, rank);
    RankInNodes(CfgOf(fn), rank);
    RankBound(fn, rpo, rank);
  }

  lemma SolvedIntro(fn: Function, idx: map<BlockId, nat>, idom: seq<BlockId>, rank: Rank, m: Idom)
    requires UniqueIds(fn) && IsIndex(fn, idx) && |idom| == |fn.blocks|
    requires GoodOrder(CfgOf(fn), rank) && forall v :: v in rank ==> rank[v] < |fn.blocks|
    requires Holds(idx, idom, m) && WellFormed(CfgOf(fn), rank, m) && IsDominatorTree(CfgOf(fn), rank, m)
    ensures Solved(fn, idom, rank, m)
  {
    IndexOwnsCells(fn, idx);
    forall i | 0 <= i < |idom| ensures idom[i] == Cell(m, fn.blocks[i].id) {
    }
  }

  /** What the settled array is. */
  lemma SettledArray(fn: Function, s: Solver, rounds: nat, n: nat, idom: seq<BlockId>) returns (m: Idom)
    requires UniqueIds(fn) && Presents(fn, s) && Laid(s, |fn.blocks|)
    requires forall v :: v in s.rank ==> s.rank[v] < |fn.blocks|
    requires Settles(s, Start(s, |fn.blocks|), rounds, n, idom)
    ensures |idom| == |fn.blocks| && forall d :: d in idom ==> d == NO_DOMINATOR || d in Ids(fn)
    ensures Named(fn) && fn.entry != NO_DOMINATOR ==> Solved(fn, idom, s.rank, m)
    ensures fn.entry == NO_DOMINATOR ==> AllSentinel(idom)
  {
    m := map[];
    PresentsSolves(fn, s);
    SettledNamed(s, Start(s, |fn.blocks|), rounds, n, idom);
    if fn.entry == NO_DOMINATOR {
      SentinelSettles(s, |fn.blocks|);
      SentinelPass(s, Start(s, |fn.blocks|), |s.rpo|, n);
      StaysSettled(s, Start(s, |fn.blocks|), rounds, n, idom);
    } else if Named(fn) {
      m := QuietIsTree(CfgOf(fn), s, |fn.blocks|, rounds, n, idom);
      SolvedIntro(fn, s.idx, idom, s.rank, m);
    }
  }

  method DominatorsFrom(fn: Function, po: seq<BlockId>) returns (idom: seq<BlockId>, ghost rank: Rank, ghost m: Idom)
    requires UniqueIds(fn) && Terminates(fn) && po != [] && IsPostorder(CfgOf(fn), po)
    ensures |idom| == |fn.blocks| && forall d :: d in idom ==> d == NO_DOMINATOR || d in Ids(fn)
    ensures Named(fn) && fn.entry != NO_DOMINATOR ==> Solved(fn, idom, rank, m)
    ensures fn.entry == NO_DOMINATOR ==> AllSentinel(idom)
  {
    var rpo, ranks := ReversePostorder(fn, po);
    rank := ranks;
    var idx := IdToIndex(fn);
    var preds := PredecessorsMap(fn);
    var s := Solver(fn.entry, ranks, rpo, idx, preds);
    assert Presents(fn, s) && Ends(s, |fn.blocks|);
    ghost var rounds, n, out :| Settles(s, Start(s, |fn.blocks|), rounds, n, out);
    idom := Solve(s, seq(|fn.blocks|, _ => NO_DOMINATOR)[idx[fn.entry] := fn.entry], rounds, n, out);
    m := SettledArray(fn, s, rounds, n, idom);
  }
}
