/** `back_edges` and `natural_loops` of an IR function. */
module NaturalLoops {
  import opened Words
  import opened Ir
  import opened Cfg
  import opened DomTree
  import opened IdomSolver
  import opened Loops
  import opened Dominators

  datatype BackEdge = BackEdge(tail: BlockId, header: BlockId)
  datatype NaturalLoop = NaturalLoop(header: BlockId, tail: BlockId, body: set<BlockId>)

  /** An edge whose target dominates its source, or a self edge. */
  ghost predicate IsBackEdge(fn: Function, e: BackEdge) {
    && e.tail in Ids(fn) && e.header in Successors(fn, e.tail)
    && (e.header == e.tail || (Reachable(CfgOf(fn), e.tail) && Dominates(CfgOf(fn), e.header, e.tail)))
  }

  /** `d` dominates `b`, or is `b`. */
  ghost predicate Above(fn: Function, d: BlockId, b: BlockId) {
    d == b || (Reachable(CfgOf(fn), b) && Dominates(CfgOf(fn), d, b))
  }

  /** What `dominators` returns. */
  ghost predicate DominatorResult(fn: Function, idom: seq<BlockId>, rank: Rank, m: Idom) {
    && |idom| == |fn.blocks| && (forall d :: d in idom ==> d == NO_DOMINATOR || d in Ids(fn))
    && (Named(fn) && fn.entry in Ids(fn) && fn.entry != NO_DOMINATOR ==> Solved(fn, idom, rank, m))
    && (fn.entry !in Ids(fn) || fn.entry == NO_DOMINATOR ==> AllSentinel(idom))
  }

  /** The walk up the chain of `tail` finds exactly what dominates it. */
  lemma ChainIsAbove(fn: Function, idx: map<BlockId, nat>, idom: seq<BlockId>, rank: Rank, m: Idom, head: BlockId,
                     tail: BlockId)
    requires IsIndex(fn, idx) && tail in Ids(fn) && Named(fn) && DominatorResult(fn, idom, rank, m)
    ensures OnChain(idx, idom, head, tail, CHAIN_LIMIT) ==> Above(fn, head, tail)
    ensures |fn.blocks| <= 1_000_000 && Above(fn, head, tail) ==> OnChain(idx, idom, head, tail, CHAIN_LIMIT)
  {
    if fn.entry !in Ids(fn) || fn.entry == NO_DOMINATOR {
      OnNoChain(idx, idom, head, tail, CHAIN_LIMIT);
      if Reachable(CfgOf(fn), tail) { LoneEntry(fn, head, tail); }
    } else {
      SolvedHolds(fn, idx, idom, rank, m);
      OnChainIsAnc(CfgOf(fn), rank, idx, idom, m, head, tail, CHAIN_LIMIT);
      if tail in m { AncWithinRank(CfgOf(fn), rank, m, head, tail, CHAIN_LIMIT); }
    }
  }

  lemma LoneEntry(fn: Function, head: BlockId, tail: BlockId)
    requires (fn.entry !in Ids(fn) || fn.entry == NO_DOMINATOR) && Named(fn) && Reachable(CfgOf(fn), tail)
    ensures Dominates(CfgOf(fn), head, tail) ==> head == tail
  {
    SentinelAlone(fn, tail);
    if Dominates(CfgOf(fn), head, tail) { DominatesEntry(CfgOf(fn), head); }
  }

  lemma SolvedHolds(fn: Function, idx: map<BlockId, nat>, idom: seq<BlockId>, rank: Rank, m: Idom)
    requires IsIndex(fn, idx) && Solved(fn, idom, rank, m) && Named(fn) && fn.entry != NO_DOMINATOR
    ensures Holds(idx, idom, m)
  {
    RankInNodes(CfgOf(fn), rank);
    forall v | v in m.Values ensures v in idx && v != NO_DOMINATOR {
      var u :| u in m && m[u] == v;
      assert u == fn.entry || m[u] in m;
      if u != fn.entry { ParentHasEdge(CfgOf(fn), rank, m, u); }
    }
  }

  /** A parent lies before its child on a path, so it has a successor. */
  lemma ParentHasEdge(g: Graph, rank: Rank, m: Idom, u: BlockId)
    requires GoodOrder(g, rank) && WellFormed(g, rank, m) && IsDominatorTree(g, rank, m) && u in m && u != g.entry
    ensures Reachable(g, m[u]) && exists b :: Edge(g, m[u], b)
  {
    assert Anc(g, rank, m, m[u], m[u]) && Anc(g, rank, m, m[u], u);
    var p :| PathTo(g, p, u);
    assert Dominates(g, m[u], u) && m[u] != u;
    var i :| 0 <= i < |p| && p[i] == m[u];
    assert i < |p| - 1 && Edge(g, p[i], p[i + 1]);
  }

  /** The edges whose target is met on the walk up from their source. */
  ghost predicate ChainEdge(fn: Function, idx: map<BlockId, nat>, idom: seq<BlockId>, e: BackEdge) {
    && e.tail in Ids(fn) && e.header in Successors(fn, e.tail)
    && OnChain(idx, idom, e.header, e.tail, CHAIN_LIMIT)
  }

  predicate SelfEdge(fn: Function, e: BackEdge) {
    e.tail in Ids(fn) && e.header in Successors(fn, e.tail) && e.header == e.tail
  }

  /** What an edge on a chain is. */
  lemma EdgeExact(fn: Function, idx: map<BlockId, nat>, idom: seq<BlockId>, rank: Rank, m: Idom, e: BackEdge)
    requires IsIndex(fn, idx) && DominatorResult(fn, idom, rank, m)
    ensures Named(fn) && ChainEdge(fn, idx, idom, e) ==> IsBackEdge(fn, e)
    ensures Named(fn) && |fn.blocks| <= 1_000_000 && IsBackEdge(fn, e) ==> ChainEdge(fn, idx, idom, e)
    ensures fn.entry == NO_DOMINATOR ==> (ChainEdge(fn, idx, idom, e) <==> SelfEdge(fn, e))
  {
    if e.tail in Ids(fn) {
      if Named(fn) { ChainIsAbove(fn, idx, idom, rank, m, e.header, e.tail); }
      if fn.entry == NO_DOMINATOR { OnNoChain(idx, idom, e.header, e.tail, CHAIN_LIMIT); }
    }
  }

  /** All back edges and nothing else, if no reachable block with a successor has the sentinel's id;
      if the entry has it, only self edges are found. */
  method BackEdges(fn: Function) returns (edges: seq<BackEdge>)
    requires UniqueIds(fn) && Terminates(fn)
    ensures forall e :: e in edges ==> e.tail in Ids(fn) && e.header in Successors(fn, e.tail)
    ensures Named(fn) ==> forall e :: e in edges ==> IsBackEdge(fn, e)
    ensures Named(fn) && |fn.blocks| <= 1_000_000 ==> forall e :: IsBackEdge(fn, e) ==> e in edges
    ensures fn.entry == NO_DOMINATOR ==> forall e :: e in edges <==> SelfEdge(fn, e)
  {
    var idx := IdToIndex(fn);
    var idom;
    ghost var rank, m;
    idom, rank, m := DominatorsOf(fn);
    edges := EdgesOnChains(fn, idx, idom);
    assert DominatorResult(fn, idom, rank, m);
    EdgesExact(fn, idx, idom, rank, m, edges);
  }

  method EdgesOnChains(fn: Function, idx: map<BlockId, nat>, idom: seq<BlockId>) returns (edges: seq<BackEdge>)
    requires IsIndex(fn, idx) && |idom| == |fn.blocks|
    requires forall d :: d in idom ==> d == NO_DOMINATOR || d in Ids(fn)
    ensures forall e: BackEdge :: e in edges <==> ChainEdge(fn, idx, idom, e)
  {
    edges := [];
    for i := 0 to |fn.blocks|
      invariant forall e :: e in edges ==> ChainEdge(fn, idx, idom, e)
      invariant forall k, e: BackEdge {:trigger fn.blocks[k], ChainEdge(fn, idx, idom, e)} ::
        0 <= k < i && e.tail == fn.blocks[k].id && ChainEdge(fn, idx, idom, e) ==> e in edges
    {
      edges := EdgesFrom(fn, idx, idom, i, edges);
    }
    forall e: BackEdge ensures e in edges <==> ChainEdge(fn, idx, idom, e) {
      if ChainEdge(fn, idx, idom, e) { IdsIndexed(fn, e.tail); }
    }
  }

  lemma EdgesExact(fn: Function, idx: map<BlockId, nat>, idom: seq<BlockId>, rank: Rank, m: Idom, edges: seq<BackEdge>)
    requires IsIndex(fn, idx) && DominatorResult(fn, idom, rank, m)
    requires forall e: BackEdge :: e in edges <==> ChainEdge(fn, idx, idom, e)
    ensures Named(fn) ==> forall e :: e in edges ==> IsBackEdge(fn, e)
    ensures Named(fn) && |fn.blocks| <= 1_000_000 ==> forall e :: IsBackEdge(fn, e) ==> e in edges
    ensures fn.entry == NO_DOMINATOR ==> forall e :: e in edges <==> SelfEdge(fn, e)
  {
    forall e | Named(fn) && e in edges ensures IsBackEdge(fn, e) { EdgeExact(fn, idx, idom, rank, m, e); }
    forall e | Named(fn) && |fn.blocks| <= 1_000_000 && IsBackEdge(fn, e) ensures e in edges {
      EdgeExact(fn, idx, idom, rank, m, e);
    }
    forall e: BackEdge | fn.entry == NO_DOMINATOR ensures e in edges <==> SelfEdge(fn, e) {
      EdgeExact(fn, idx, idom, rank, m, e);
    }
  }

  method EdgesFrom(fn: Function, idx: map<BlockId, nat>, idom: seq<BlockId>, i: nat, edges0: seq<BackEdge>)
    returns (edges: seq<BackEdge>)
    requires IsIndex(fn, idx) && i < |fn.blocks| && |idom| == |fn.blocks|
    requires forall d :: d in idom ==> d == NO_DOMINATOR || d in Ids(fn)
    ensures forall e :: e in edges0 ==> e in edges
    ensures forall e :: e in edges && e !in edges0 ==> ChainEdge(fn, idx, idom, e)
    ensures forall e: BackEdge :: e.tail == fn.blocks[i].id && ChainEdge(fn, idx, idom, e) ==> e in edges
  {
    edges := edges0;
    var b := fn.blocks[i].id;
    assert fn.blocks[i] in fn.blocks;
    var succs := Successors(fn, b);
    for j := 0 to |succs|
      invariant forall e :: e in edges0 ==> e in edges
      invariant forall e :: e in edges && e !in edges0 ==> ChainEdge(fn, idx, idom, e)
      invariant forall e: BackEdge ::
        e.tail == b && e.header in succs[..j] && ChainEdge(fn, idx, idom, e) ==> e in edges
    {
      var s := succs[j];
      TakeSnoc(succs, j);
      var back := ChainContains(idx, idom, s, b);
      if back { edges := edges + [BackEdge(b, s)]; }
    }
    TakeAll(succs);
  }

  /** One loop per back edge, with the body that the path definition asks for. */
  ghost predicate LoopOf(fn: Function, l: NaturalLoop) {
    && IsBackEdge(fn, BackEdge(l.tail, l.header))
    && IsLoopBody(CfgOf(fn), l.header, l.tail, l.body)
  }

  method NaturalLoopsOf(fn: Function) returns (loops: seq<NaturalLoop>)
    requires UniqueIds(fn) && Terminates(fn)
    ensures forall l :: l in loops ==> IsLoopBody(CfgOf(fn), l.header, l.tail, l.body)
    ensures Named(fn) ==> forall l :: l in loops ==> LoopOf(fn, l)
    ensures Named(fn) && |fn.blocks| <= 1_000_000 ==>
      forall e :: IsBackEdge(fn, e) ==>
        exists k :: 0 <= k < |loops| && loops[k].header == e.header && loops[k].tail == e.tail
  {
    loops := [];
    var preds := PredecessorsMap(fn);
    PredMapEdges(fn, preds);
    var edges := BackEdges(fn);
    for i := 0 to |edges|
      invariant |loops| == i
      invariant forall k :: 0 <= k < i ==>
        && IsLoopBody(CfgOf(fn), loops[k].header, loops[k].tail, loops[k].body)
        && loops[k].header == edges[k].header && loops[k].tail == edges[k].tail
    {
      var e := edges[i];
      assert e in edges;
      var body := LoopBody(CfgOf(fn), preds, e.header, e.tail);
      loops := loops + [NaturalLoop(e.header, e.tail, body)];
    }
    if Named(fn) {
      forall l | l in loops ensures LoopOf(fn, l) {
        var k :| 0 <= k < |loops| && loops[k] == l;
        assert edges[k] == BackEdge(l.tail, l.header);
      }
      forall e | IsBackEdge(fn, e) && |fn.blocks| <= 1_000_000
        ensures exists k :: 0 <= k < |loops| && loops[k].header == e.header && loops[k].tail == e.tail
      {
        assert e in edges;
        var k :| 0 <= k < |edges| && edges[k] == e;
        assert loops[k].header == e.header && loops[k].tail == e.tail;
      }
    }
  }
}
