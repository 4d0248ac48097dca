/** Control-flow graphs, paths and the path definition of dominance. */
module Cfg {
  import opened Words

  datatype Graph = Graph(nodes: set<BlockId>, entry: BlockId, succ: map<BlockId, seq<BlockId>>)

  predicate Edge(g: Graph, a: BlockId, b: BlockId) {
    a in g.nodes && b in g.nodes && a in g.succ && b in g.succ[a]
  }

  /** The targets of a block's terminator, blocks of the function or not. */
  function Targets(g: Graph, a: BlockId): seq<BlockId> {
    if a in g.succ then g.succ[a] else []
  }

  ghost predicate IsPath(g: Graph, p: seq<BlockId>) {
    && |p| > 0
    && g.entry in g.nodes
    && p[0] == g.entry
    && forall i :: 0 <= i < |p| - 1 ==> Edge(g, p[i], p[i + 1])
  }

  ghost predicate PathTo(g: Graph, p: seq<BlockId>, b: BlockId) {
    IsPath(g, p) && p[|p| - 1] == b
  }

  ghost predicate Reachable(g: Graph, b: BlockId) { exists p :: PathTo(g, p, b) }

  /** Every path from the entry to `b` passes through `d`. */
  ghost predicate Dominates(g: Graph, d: BlockId, b: BlockId) {
    forall p :: PathTo(g, p, b) ==> d in p
  }

  lemma PathSnoc(g: Graph, p: seq<BlockId>, a: BlockId, b: BlockId)
    requires PathTo(g, p, a) && Edge(g, a, b)
    ensures PathTo(g, p + [b], b)
  {
    var q := p + [b];
    forall i | 0 <= i < |q| - 1 ensures Edge(g, q[i], q[i + 1]) {
      if i < |p| - 1 { assert q[i] == p[i] && q[i + 1] == p[i + 1]; }
    }
  }

  lemma PathInit(g: Graph, p: seq<BlockId>, b: BlockId)
    requires PathTo(g, p, b) && |p| > 1
    ensures PathTo(g, p[..|p| - 1], p[|p| - 2]) && Edge(g, p[|p| - 2], b)
  {
    var q := p[..|p| - 1];
    forall i | 0 <= i < |q| - 1 ensures Edge(g, q[i], q[i + 1]) {
      assert q[i] == p[i] && q[i + 1] == p[i + 1];
    }
    assert Edge(g, p[|p| - 2], p[|p| - 2 + 1]);
  }

  lemma EntryReachable(g: Graph)
    requires g.entry in g.nodes
    ensures PathTo(g, [g.entry], g.entry) && Reachable(g, g.entry)
  {
    assert PathTo(g, [g.entry], g.entry);
  }

  lemma ReachableStep(g: Graph, a: BlockId, b: BlockId)
    requires Reachable(g, a) && Edge(g, a, b)
    ensures Reachable(g, b)
  {
    var p :| PathTo(g, p, a);
    PathSnoc(g, p, a, b);
  }

  lemma {:induction false} PathNodesReachable(g: Graph, p: seq<BlockId>, b: BlockId)
    requires PathTo(g, p, b)
    ensures forall x :: x in p ==> x in g.nodes && Reachable(g, x)
    decreases |p|
  {
    if |p| == 1 {
      EntryReachable(g);
    } else {
      PathInit(g, p, b);
      PathNodesReachable(g, p[..|p| - 1], p[|p| - 2]);
      assert p == p[..|p| - 1] + [b];
    }
  }

  /** A strict dominator of a block dominates each of its reachable predecessors. */
  lemma DominatesPred(g: Graph, d: BlockId, a: BlockId, b: BlockId)
    requires Dominates(g, d, b) && d != b && Edge(g, a, b)
    ensures Dominates(g, d, a)
  {
    forall p | PathTo(g, p, a) ensures d in p {
      PathSnoc(g, p, a, b);
      assert d in p + [b];
    }
  }

  lemma DominatesEntry(g: Graph, d: BlockId)
    requires g.entry in g.nodes && Dominates(g, d, g.entry)
    ensures d == g.entry
  {
    EntryReachable(g);
  }

  // ------------------------------------------------------------------
  // Visiting orders.
  // ------------------------------------------------------------------

  type Rank = map<BlockId, nat>

  predicate Tied(rank: Rank, a: BlockId, b: BlockId) { a in rank && b in rank && rank[a] == rank[b] }

  /** The entry ranks first, ranks are distinct, and every ranked block other
      than the entry has a predecessor ranked lower. */
  ghost predicate OrderOk(g: Graph, rank: Rank) {
    && g.entry in rank && rank[g.entry] == 0
    && (forall a, b {:trigger Tied(rank, a, b)} :: Tied(rank, a, b) ==> a == b)
    && (forall b {:trigger HasForwardPred(g, rank, b)} :: b in rank && b != g.entry ==> HasForwardPred(g, rank, b))
  }

  /** The order ranks exactly the reachable blocks. */
  ghost predicate GoodOrder(g: Graph, rank: Rank) {
    OrderOk(g, rank) && forall b :: b in rank <==> Reachable(g, b)
  }

  ghost predicate HasForwardPred(g: Graph, rank: Rank, b: BlockId)
    requires b in rank
  {
    exists a :: ForwardEdge(g, rank, a, b)
  }

  predicate ForwardEdge(g: Graph, rank: Rank, a: BlockId, b: BlockId)
    requires b in rank
  {
    a in rank && Edge(g, a, b) && rank[a] < rank[b]
  }

  /** Some path to `b` never climbs above `b`'s rank. */
  lemma {:induction false} RankedPath(g: Graph, rank: Rank, b: BlockId) returns (p: seq<BlockId>)
    requires GoodOrder(g, rank) && b in rank
    ensures PathTo(g, p, b)
    ensures forall x :: x in p ==> x in rank && rank[x] <= rank[b]
    decreases rank[b]
  {
    if b == g.entry {
      p := [b];
      var q :| PathTo(g, q, b);
    } else {
      assert HasForwardPred(g, rank, b);
      var a :| ForwardEdge(g, rank, a, b);
      var q := RankedPath(g, rank, a);
      PathSnoc(g, q, a, b);
      p := q + [b];
    }
  }

  lemma DominatorRank(g: Graph, rank: Rank, d: BlockId, b: BlockId)
    requires GoodOrder(g, rank) && b in rank && Dominates(g, d, b)
    ensures d in rank && rank[d] <= rank[b]
  {
    var p := RankedPath(g, rank, b);
  }

  // ------------------------------------------------------------------
  // Dominator sets.
  // ------------------------------------------------------------------

  type DomSets = map<BlockId, set<BlockId>>

  ghost function DominatorSets(g: Graph, rank: Rank): DomSets {
    map v | v in rank :: set d | d in rank && Dominates(g, d, v)
  }

  /** What the solver needs to know about the true dominator sets: a strict
      dominator of a block dominates its predecessors and ranks no higher. */
  ghost predicate DomFlow(g: Graph, rank: Rank, ds: DomSets) {
    && ds.Keys == rank.Keys
    && g.entry in rank && ds[g.entry] <= {g.entry}
    && (forall v, d {:trigger d in ds[v]} :: v in ds && d in ds[v] ==> d in rank && rank[d] <= rank[v])
    && (forall a, v, d {:trigger Edge(g, a, v), d in ds[v]} ::
          a in rank && v in rank && Edge(g, a, v) && d in ds[v] && d != v ==> d in ds[a])
  }

  lemma DominatorSetsFlow(g: Graph, rank: Rank)
    requires GoodOrder(g, rank)
    ensures DomFlow(g, rank, DominatorSets(g, rank))
  {
    var ds := DominatorSets(g, rank);
    forall v, d | v in ds && d in ds[v] ensures d in rank && rank[d] <= rank[v] {
      DominatorRank(g, rank, d, v);
    }
    forall a, v, d | a in rank && v in rank && Edge(g, a, v) && d in ds[v] && d != v ensures d in ds[a] {
      DominatesPred(g, d, a, v);
    }
    forall d | d in ds[g.entry] ensures d == g.entry {
      var p :| PathTo(g, p, g.entry);
      DominatesEntry(g, d);
    }
  }

  lemma InDominatorSets(g: Graph, rank: Rank, d: BlockId, v: BlockId)
    requires GoodOrder(g, rank) && v in rank
    ensures d in DominatorSets(g, rank)[v] <==> Dominates(g, d, v)
  {
    if Dominates(g, d, v) { DominatorRank(g, rank, d, v); }
  }

  // ------------------------------------------------------------------
  // Predecessor lists.
  // ------------------------------------------------------------------

  /** `id` once for each occurrence of `b` among the first `j` successors. */
  function Copies(id: BlockId, succs: seq<BlockId>, b: BlockId, j: nat): seq<BlockId>
    requires j <= |succs|
  {
    if j == 0 then []
    else if succs[j - 1] == b then Copies(id, succs, b, j - 1) + [id]
    else Copies(id, succs, b, j - 1)
  }

  lemma {:induction false} CopiesAre(id: BlockId, succs: seq<BlockId>, b: BlockId, j: nat, a: BlockId)
    requires j <= |succs|
    ensures a in Copies(id, succs, b, j) <==> a == id && b in succs[..j]
  {
    if j > 0 {
      TakeSnoc(succs, j - 1);
      CopiesAre(id, succs, b, j - 1, a);
    }
  }

  function Listed(preds: map<BlockId, seq<BlockId>>, b: BlockId): seq<BlockId> {
    if b in preds then preds[b] else []
  }

  /** `id` was appended for each of the first `j` successors. */
  ghost predicate Appended(preds0: map<BlockId, seq<BlockId>>, id: BlockId, succs: seq<BlockId>, j: nat,
                           preds: map<BlockId, seq<BlockId>>)
    requires j <= |succs|
  {
    && preds0.Keys <= preds.Keys
    && forall b :: Listed(preds, b) == Listed(preds0, b) + Copies(id, succs, b, j)
  }

  lemma AppendOne(preds0: map<BlockId, seq<BlockId>>, id: BlockId, succs: seq<BlockId>, j: nat,
                  preds: map<BlockId, seq<BlockId>>)
    requires j < |succs| && Appended(preds0, id, succs, j, preds)
    ensures Appended(preds0, id, succs, j + 1, preds[succs[j] := Listed(preds, succs[j]) + [id]])
  {
    var s := succs[j];
    var next := preds[s := Listed(preds, s) + [id]];
    forall b ensures Listed(next, b) == Listed(preds0, b) + Copies(id, succs, b, j + 1) {
      assert Listed(preds, b) == Listed(preds0, b) + Copies(id, succs, b, j);
      if b == s {
        SnocAssoc(Listed(preds0, s), Copies(id, succs, s, j), id);
      }
    }
  }

  lemma SnocAssoc(xs: seq<BlockId>, ys: seq<BlockId>, y: BlockId)
    ensures (xs + ys) + [y] == xs + (ys + [y])
  {
  }

  /** Appends `id` to the list of every block it has an edge to. */
  method AddEdges(preds0: map<BlockId, seq<BlockId>>, id: BlockId, succs: seq<BlockId>)
    returns (preds: map<BlockId, seq<BlockId>>)
    ensures Appended(preds0, id, succs, |succs|, preds)
  {
    preds := preds0;
    for j := 0 to |succs|
      invariant Appended(preds0, id, succs, j, preds)
    {
      AppendOne(preds0, id, succs, j, preds);
      preds := preds[succs[j] := Listed(preds, succs[j]) + [id]];
    }
  }

  /** The predecessors of `b` among the first `n` listed blocks, one per edge. */
  function PredsFrom(g: Graph, ids: seq<BlockId>, b: BlockId, n: nat): seq<BlockId>
    requires n <= |ids|
  {
    if n == 0 then []
    else PredsFrom(g, ids, b, n - 1) + Copies(ids[n - 1], Targets(g, ids[n - 1]), b, |Targets(g, ids[n - 1])|)
  }

  lemma {:induction false} PredsFromAre(g: Graph, ids: seq<BlockId>, b: BlockId, n: nat, a: BlockId)
    requires n <= |ids|
    ensures a in PredsFrom(g, ids, b, n) <==> a in ids[..n] && b in Targets(g, a)
    decreases n
  {
    if n > 0 {
      PredsFromAre(g, ids, b, n - 1, a);
      TakeSnoc(ids, n - 1);
      var succs := Targets(g, ids[n - 1]);
      TakeAll(succs);
      CopiesAre(ids[n - 1], succs, b, |succs|, a);
    }
  }

  method PredecessorLists(g: Graph, ids: seq<BlockId>) returns (preds: map<BlockId, seq<BlockId>>)
    ensures g.nodes <= preds.Keys
    ensures forall b :: b in preds ==> preds[b] == PredsFrom(g, ids, b, |ids|)
  {
    preds := map id | id in g.nodes :: [];
    for i := 0 to |ids|
      invariant g.nodes <= preds.Keys
      invariant forall b :: Listed(preds, b) == PredsFrom(g, ids, b, i)
    {
      preds := AddEdges(preds, ids[i], Targets(g, ids[i]));
    }
    assert forall b :: b in preds ==> preds[b] == Listed(preds, b);
  }
}
