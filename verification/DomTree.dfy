/** Theory of the iterative dominator solvers.

    `m` is the partial idom array (the processed blocks only). The facts that
    every update keeps are local to one block and its recorded parent, which
    is what makes the in-place, order-dependent iteration sound:

      * `Sound`:    a strict dominator of `v` dominates the recorded parent of `v`;
      * `Settled`:  nodes not yet revisited in this pass on the chain of a parent
                    are on the chain of every forward predecessor;
      * `Shrinks`:  what lies on the chains of all processed predecessors of `v`
                    lies on the chain of its recorded parent.

    `Shrinks` makes each new parent an ancestor of the old one, so ranks only
    fall and the iteration stops; `Sound` then makes the result exact. */
module DomTree {
  import opened Words
  import opened Cfg

  type Idom = map<BlockId, BlockId>

  ghost predicate WellFormed(g: Graph, rank: Rank, m: Idom) {
    && g.entry in m && m[g.entry] == g.entry
    && m.Keys <= rank.Keys
    && (forall v {:trigger m[v]} :: v in m && v != g.entry ==> m[v] in m && rank[m[v]] < rank[v])
  }

  /** `u` is `v` or one of the recorded ancestors of `v`. */
  ghost predicate Anc(g: Graph, rank: Rank, m: Idom, u: BlockId, v: BlockId)
    requires WellFormed(g, rank, m) && v in m
    decreases rank[v]
  {
    u == v || (v != g.entry && Anc(g, rank, m, u, m[v]))
  }

  lemma {:induction false} AncRank(g: Graph, rank: Rank, m: Idom, u: BlockId, v: BlockId)
    requires WellFormed(g, rank, m) && v in m && Anc(g, rank, m, u, v)
    ensures u in m && rank[u] <= rank[v] && (u != v ==> rank[u] < rank[v])
    decreases rank[v]
  {
    if u != v { AncRank(g, rank, m, u, m[v]); }
  }

  lemma {:induction false} AncTrans(g: Graph, rank: Rank, m: Idom, u: BlockId, w: BlockId, v: BlockId)
    requires WellFormed(g, rank, m) && v in m && w in m
    requires Anc(g, rank, m, w, v) && Anc(g, rank, m, u, w)
    ensures Anc(g, rank, m, u, v)
    decreases rank[v]
  {
    if w != v { AncTrans(g, rank, m, u, w, m[v]); }
  }

  /** Two ancestors of one block are ancestors of each other. */
  lemma {:induction false} AncLinear(g: Graph, rank: Rank, m: Idom, u: BlockId, w: BlockId, v: BlockId)
    requires WellFormed(g, rank, m) && v in m && w in m && u in m
    requires Anc(g, rank, m, w, v) && Anc(g, rank, m, u, v) && rank[u] <= rank[w]
    ensures Anc(g, rank, m, u, w)
    decreases rank[v]
  {
    if w != v {
      AncRank(g, rank, m, w, m[v]);
      AncLinear(g, rank, m, u, w, m[v]);
    }
  }

  // ------------------------------------------------------------------
  // Soundness of the recorded parents, and completeness of the chains.
  // ------------------------------------------------------------------

  ghost predicate Sound(g: Graph, rank: Rank, m: Idom, ds: DomSets)
    requires WellFormed(g, rank, m) && DomFlow(g, rank, ds)
  {
    forall v, d {:trigger m[v], d in ds[v]} ::
      v in m && v != g.entry && d in ds[v] && d != v ==> d in ds[m[v]]
  }

  /** Every dominator of a processed block is on its chain. */
  lemma {:induction false} DominatorOnChain(g: Graph, rank: Rank, m: Idom, ds: DomSets, d: BlockId, v: BlockId)
    requires WellFormed(g, rank, m) && DomFlow(g, rank, ds) && Sound(g, rank, m, ds)
    requires v in m && d in ds[v]
    ensures Anc(g, rank, m, d, v)
    decreases rank[v]
  {
    if d != v { DominatorOnChain(g, rank, m, ds, d, m[v]); }
  }

  /** A dominator of `v` dominates every ancestor of `v` that is not above it. */
  lemma {:induction false} DominatesAncestor(g: Graph, rank: Rank, m: Idom, ds: DomSets,
                                             d: BlockId, w: BlockId, v: BlockId)
    requires WellFormed(g, rank, m) && DomFlow(g, rank, ds) && Sound(g, rank, m, ds)
    requires v in m && Anc(g, rank, m, w, v) && d in ds[v]
    requires w in m && rank[d] <= rank[w]
    ensures d in ds[w]
    decreases rank[v]
  {
    if w != v {
      AncRank(g, rank, m, w, v);
      DominatesAncestor(g, rank, m, ds, d, w, m[v]);
    }
  }

  /** At a fixpoint the recorded parent is on the chain of every predecessor. */
  ghost predicate Fixpoint(g: Graph, rank: Rank, m: Idom)
    requires WellFormed(g, rank, m)
  {
    && m.Keys == rank.Keys
    && forall a, v :: a in m && v in m && v != g.entry && Edge(g, a, v) ==> Anc(g, rank, m, m[v], a)
  }

  lemma {:induction false} ChainOnPath(g: Graph, rank: Rank, m: Idom, u: BlockId, v: BlockId, p: seq<BlockId>)
    requires GoodOrder(g, rank) && WellFormed(g, rank, m) && Fixpoint(g, rank, m)
    requires v in m && Anc(g, rank, m, u, v) && PathTo(g, p, v)
    ensures u in p
    decreases |p|
  {
    if u != v && |p| > 1 {
      var a := p[|p| - 2];
      PathInit(g, p, v);
      assert Reachable(g, a);
      AncTrans(g, rank, m, u, m[v], a);
      ChainOnPath(g, rank, m, u, a, p[..|p| - 1]);
    }
  }

  /** `m` is the dominator tree: `u` is on the chain of `v` exactly when `u` dominates `v`. */
  ghost predicate IsDominatorTree(g: Graph, rank: Rank, m: Idom)
    requires WellFormed(g, rank, m)
  {
    && m.Keys == rank.Keys
    && forall u, v :: v in m ==> (Anc(g, rank, m, u, v) <==> Dominates(g, u, v))
  }

  lemma FixpointIsDominatorTree(g: Graph, rank: Rank, m: Idom)
    requires GoodOrder(g, rank) && WellFormed(g, rank, m) && Fixpoint(g, rank, m)
    requires DomFlow(g, rank, DominatorSets(g, rank)) && Sound(g, rank, m, DominatorSets(g, rank))
    ensures IsDominatorTree(g, rank, m)
  {
    forall u, v | v in m ensures Anc(g, rank, m, u, v) <==> Dominates(g, u, v) {
      if Anc(g, rank, m, u, v) {
        forall p | PathTo(g, p, v) ensures u in p { ChainOnPath(g, rank, m, u, v, p); }
      }
      if Dominates(g, u, v) {
        InDominatorSets(g, rank, u, v);
        DominatorOnChain(g, rank, m, DominatorSets(g, rank), u, v);
      }
    }
  }

  // ------------------------------------------------------------------
  // Nearest common ancestor of the processed predecessors.
  // ------------------------------------------------------------------

  ghost predicate CommonAnc(g: Graph, rank: Rank, m: Idom, u: BlockId, v: BlockId)
    requires WellFormed(g, rank, m)
  {
    forall a :: a in m && Edge(g, a, v) ==> Anc(g, rank, m, u, a)
  }

  /** `w` is the lowest node on the chains of all processed predecessors of `v`. */
  ghost predicate IsMeet(g: Graph, rank: Rank, m: Idom, v: BlockId, w: BlockId)
    requires WellFormed(g, rank, m)
  {
    && w in m
    && CommonAnc(g, rank, m, w, v)
    && forall u :: CommonAnc(g, rank, m, u, v) ==> Anc(g, rank, m, u, w)
  }

  /** The nearest common ancestor of two blocks. */
  ghost predicate IsJoin(g: Graph, rank: Rank, m: Idom, x: BlockId, y: BlockId, w: BlockId)
    requires WellFormed(g, rank, m) && x in m && y in m
  {
    && w in m
    && Anc(g, rank, m, w, x) && Anc(g, rank, m, w, y)
    && forall u :: Anc(g, rank, m, u, x) && Anc(g, rank, m, u, y) ==> Anc(g, rank, m, u, w)
  }

  // ------------------------------------------------------------------
  // What every update keeps.
  // ------------------------------------------------------------------

  ghost predicate Settled(g: Graph, rank: Rank, m: Idom, pos: nat)
    requires WellFormed(g, rank, m)
  {
    forall x, a :: x in m && x != g.entry && ForwardEdge(g, rank, a, x)
      ==> a in m && SettledAt(g, rank, m, pos, x, a)
  }

  ghost predicate SettledAt(g: Graph, rank: Rank, m: Idom, pos: nat, x: BlockId, a: BlockId)
    requires WellFormed(g, rank, m) && x in m && x != g.entry && a in m
  {
    forall y :: y in m && Anc(g, rank, m, y, m[x]) && (rank[x] < pos || rank[y] >= pos)
      ==> Anc(g, rank, m, y, a)
  }

  ghost predicate Shrinks(g: Graph, rank: Rank, m: Idom)
    requires WellFormed(g, rank, m)
  {
    forall x, u :: x in m && x != g.entry && CommonAnc(g, rank, m, u, x) ==> Anc(g, rank, m, u, m[x])
  }

  ghost predicate Inv(g: Graph, rank: Rank, ds: DomSets, m: Idom, pos: nat) {
    && OrderOk(g, rank)
    && WellFormed(g, rank, m)
    && DomFlow(g, rank, ds) && Sound(g, rank, m, ds)
    && Settled(g, rank, m, pos)
    && Shrinks(g, rank, m)
    && forall x :: x in rank && rank[x] < pos ==> x in m
  }

  /** Above the updated block nothing changes ... */
  lemma {:induction false} AncHigh(g: Graph, rank: Rank, m: Idom, v: BlockId, w: BlockId, y: BlockId, x: BlockId)
    requires WellFormed(g, rank, m) && WellFormed(g, rank, m[v := w])
    requires v in rank && y in rank && rank[y] >= rank[v] && x in m && x in m[v := w]
    ensures Anc(g, rank, m[v := w], y, x) <==> Anc(g, rank, m, y, x)
    decreases rank[x]
  {
    var m' := m[v := w];
    if y != x && x != g.entry {
      if x == v {
        if Anc(g, rank, m, y, m[x]) { AncRank(g, rank, m, y, m[x]); }
        if Anc(g, rank, m', y, m'[x]) { AncRank(g, rank, m', y, m'[x]); }
      } else {
        AncHigh(g, rank, m, v, w, y, m[x]);
      }
    }
  }

  /** ... nor do the chains of blocks below it. */
  lemma {:induction false} AncLow(g: Graph, rank: Rank, m: Idom, v: BlockId, w: BlockId, y: BlockId, x: BlockId)
    requires WellFormed(g, rank, m) && WellFormed(g, rank, m[v := w])
    requires v in rank && x in m && rank[x] < rank[v]
    ensures Anc(g, rank, m[v := w], y, x) <==> Anc(g, rank, m, y, x)
    decreases rank[x]
  {
    if x != g.entry { AncLow(g, rank, m, v, w, y, m[x]); }
  }

  /** Moving a block's parent up its own chain only shrinks chains. */
  lemma {:induction false} AncShrinks(g: Graph, rank: Rank, m: Idom, v: BlockId, w: BlockId, y: BlockId, x: BlockId)
    requires WellFormed(g, rank, m) && WellFormed(g, rank, m[v := w])
    requires v in rank && v != g.entry && w in m && rank[w] < rank[v] && x in m
    requires v in m ==> Anc(g, rank, m, w, m[v])
    requires Anc(g, rank, m[v := w], y, x)
    ensures Anc(g, rank, m, y, x)
    decreases rank[x]
  {
    if y != x {
      if x == v {
        AncLow(g, rank, m, v, w, y, w);
        AncTrans(g, rank, m, y, w, m[v]);
      } else {
        AncShrinks(g, rank, m, v, w, y, m[x]);
      }
    }
  }

  /** A chain that does not pass through the updated block is unchanged. */
  lemma {:induction false} AncAway(g: Graph, rank: Rank, m: Idom, v: BlockId, w: BlockId, y: BlockId, x: BlockId)
    requires WellFormed(g, rank, m) && WellFormed(g, rank, m[v := w])
    requires v in rank && x in m && !Anc(g, rank, m, v, x)
    ensures Anc(g, rank, m[v := w], y, x) <==> Anc(g, rank, m, y, x)
    decreases rank[x]
  {
    if x != g.entry { AncAway(g, rank, m, v, w, y, m[x]); }
  }

  // ------------------------------------------------------------------
  // One update.
  // ------------------------------------------------------------------

  /** The state in which block `v` is about to get the parent `w`. */
  ghost predicate Updating(g: Graph, rank: Rank, ds: DomSets, m: Idom, v: BlockId, w: BlockId) {
    && v in rank && v != g.entry
    && Inv(g, rank, ds, m, rank[v])
    && IsMeet(g, rank, m, v, w)
    && rank[w] < rank[v]
  }

  /** The meet of the processed predecessors ranks below the block itself. */
  lemma MeetRank(g: Graph, rank: Rank, ds: DomSets, m: Idom, v: BlockId, w: BlockId)
    requires v in rank && v != g.entry && Inv(g, rank, ds, m, rank[v]) && IsMeet(g, rank, m, v, w)
    ensures Updating(g, rank, ds, m, v, w)
  {
    assert HasForwardPred(g, rank, v);
    var a :| ForwardEdge(g, rank, a, v);
    AncRank(g, rank, m, w, a);
  }

  lemma UpdatedWellFormed(g: Graph, rank: Rank, ds: DomSets, m: Idom, v: BlockId, w: BlockId)
    requires Updating(g, rank, ds, m, v, w)
    ensures WellFormed(g, rank, m[v := w])
  {
  }

  /** The new parent is an ancestor of the old one. */
  lemma ParentMovesUp(g: Graph, rank: Rank, ds: DomSets, m: Idom, v: BlockId, w: BlockId)
    requires Updating(g, rank, ds, m, v, w) && v in m
    ensures Anc(g, rank, m, w, m[v])
    ensures w != m[v] ==> rank[w] < rank[m[v]]
  {
    assert CommonAnc(g, rank, m, w, v);
    AncRank(g, rank, m, w, m[v]);
  }

  lemma UpdateSound(g: Graph, rank: Rank, ds: DomSets, m: Idom, v: BlockId, w: BlockId)
    requires Updating(g, rank, ds, m, v, w) && WellFormed(g, rank, m[v := w])
    ensures Sound(g, rank, m[v := w], ds)
  {
    forall d | d != v && d in ds[v] ensures d in ds[w] {
      forall a | a in m && Edge(g, a, v) ensures Anc(g, rank, m, d, a) {
        DominatorOnChain(g, rank, m, ds, d, a);
      }
      assert CommonAnc(g, rank, m, d, v);
      AncRank(g, rank, m, d, w);
      assert HasForwardPred(g, rank, v);
      var a :| ForwardEdge(g, rank, a, v);
      DominatesAncestor(g, rank, m, ds, d, w, a);
    }
  }

  lemma UpdateSettledSelf(g: Graph, rank: Rank, ds: DomSets, m: Idom, v: BlockId, w: BlockId, a: BlockId)
    requires Updating(g, rank, ds, m, v, w) && WellFormed(g, rank, m[v := w])
    requires ForwardEdge(g, rank, a, v)
    ensures a in m && SettledAt(g, rank, m[v := w], rank[v] + 1, v, a)
  {
    var m' := m[v := w];
    forall y | y in m' && Anc(g, rank, m', y, w) ensures Anc(g, rank, m', y, a) {
      AncLow(g, rank, m, v, w, y, w);
      AncTrans(g, rank, m, y, w, a);
      AncLow(g, rank, m, v, w, y, a);
    }
  }

  lemma UpdateSettledOther(g: Graph, rank: Rank, ds: DomSets, m: Idom, v: BlockId, w: BlockId, x: BlockId, a: BlockId)
    requires Updating(g, rank, ds, m, v, w) && WellFormed(g, rank, m[v := w])
    requires x in m && x != v && x != g.entry && ForwardEdge(g, rank, a, x)
    ensures a in m && SettledAt(g, rank, m[v := w], rank[v] + 1, x, a)
  {
    var m' := m[v := w];
    assert a in m && SettledAt(g, rank, m, rank[v], x, a);
    assert !Tied(rank, x, v);
    forall y | y in m' && Anc(g, rank, m', y, m[x]) && (rank[x] < rank[v] + 1 || rank[y] >= rank[v] + 1)
      ensures Anc(g, rank, m', y, a)
    {
      if rank[x] < rank[v] {
        AncLow(g, rank, m, v, w, y, m[x]);
        AncRank(g, rank, m, y, m[x]);
        AncLow(g, rank, m, v, w, y, a);
      } else {
        AncHigh(g, rank, m, v, w, y, m[x]);
        AncRank(g, rank, m, y, m[x]);
        AncHigh(g, rank, m, v, w, y, a);
      }
    }
  }

  lemma UpdateSettled(g: Graph, rank: Rank, ds: DomSets, m: Idom, v: BlockId, w: BlockId)
    requires Updating(g, rank, ds, m, v, w) && WellFormed(g, rank, m[v := w])
    ensures Settled(g, rank, m[v := w], rank[v] + 1)
  {
    var m' := m[v := w];
    forall x, a | x in m' && x != g.entry && ForwardEdge(g, rank, a, x)
      ensures a in m' && SettledAt(g, rank, m', rank[v] + 1, x, a)
    {
      if x == v {
        UpdateSettledSelf(g, rank, ds, m, v, w, a);
      } else {
        UpdateSettledOther(g, rank, ds, m, v, w, x, a);
      }
    }
  }

  /** Common ancestors after the update were common ancestors before it. */
  lemma CommonBefore(g: Graph, rank: Rank, ds: DomSets, m: Idom, v: BlockId, w: BlockId, x: BlockId, u: BlockId)
    requires Updating(g, rank, ds, m, v, w) && WellFormed(g, rank, m[v := w])
    requires CommonAnc(g, rank, m[v := w], u, x)
    ensures CommonAnc(g, rank, m, u, x)
  {
    if v in m { ParentMovesUp(g, rank, ds, m, v, w); }
    forall a | a in m && Edge(g, a, x) ensures Anc(g, rank, m, u, a) {
      AncShrinks(g, rank, m, v, w, u, a);
    }
  }

  lemma UpdateShrinksOther(g: Graph, rank: Rank, ds: DomSets, m: Idom, v: BlockId, w: BlockId, x: BlockId, u: BlockId)
    requires Updating(g, rank, ds, m, v, w) && WellFormed(g, rank, m[v := w])
    requires x in m && x != v && x != g.entry && CommonAnc(g, rank, m[v := w], u, x)
    ensures Anc(g, rank, m[v := w], u, m[x])
  {
    var m' := m[v := w];
    CommonBefore(g, rank, ds, m, v, w, x, u);
    assert Anc(g, rank, m, u, m[x]);
    AncRank(g, rank, m, u, m[x]);
    if !Anc(g, rank, m, v, m[x]) {
      AncAway(g, rank, m, v, w, u, m[x]);
    } else {
      AncRank(g, rank, m, v, m[x]);
      AncHigh(g, rank, m, v, w, v, m[x]);
      if rank[u] >= rank[v] {
        AncHigh(g, rank, m, v, w, u, m[x]);
      } else {
        // `x` has not been revisited yet, so its forward predecessors still hang below `v`.
        assert HasForwardPred(g, rank, x);
        var a :| ForwardEdge(g, rank, a, x);
        assert a in m && SettledAt(g, rank, m, rank[v], x, a);
        AncHigh(g, rank, m, v, w, v, a);
        AncLinear(g, rank, m', u, v, a);
        AncTrans(g, rank, m', u, v, m[x]);
      }
    }
  }

  lemma UpdateShrinks(g: Graph, rank: Rank, ds: DomSets, m: Idom, v: BlockId, w: BlockId)
    requires Updating(g, rank, ds, m, v, w) && WellFormed(g, rank, m[v := w])
    ensures Shrinks(g, rank, m[v := w])
  {
    var m' := m[v := w];
    forall x, u | x in m' && x != g.entry && CommonAnc(g, rank, m', u, x)
      ensures Anc(g, rank, m', u, m'[x])
    {
      if x == v {
        CommonBefore(g, rank, ds, m, v, w, v, u);
        AncLow(g, rank, m, v, w, u, w);
      } else {
        UpdateShrinksOther(g, rank, ds, m, v, w, x, u);
      }
    }
  }

  lemma UpdateKeepsInv(g: Graph, rank: Rank, ds: DomSets, m: Idom, v: BlockId, w: BlockId)
    requires Updating(g, rank, ds, m, v, w)
    ensures Inv(g, rank, ds, m[v := w], rank[v] + 1)
  {
    UpdatedWellFormed(g, rank, ds, m, v, w);
    forall x | x in rank && rank[x] < rank[v] + 1 ensures x in m[v := w] {
      assert Tied(rank, x, v) || rank[x] < rank[v];
    }
    UpdateSound(g, rank, ds, m, v, w);
    UpdateSettled(g, rank, ds, m, v, w);
    UpdateShrinks(g, rank, ds, m, v, w);
  }

  /** The pass skips the entry block. */
  lemma SkipEntry(g: Graph, rank: Rank, ds: DomSets, m: Idom)
    requires Inv(g, rank, ds, m, 0)
    ensures Inv(g, rank, ds, m, 1)
  {
    forall x | x in rank && rank[x] < 1 ensures x in m { assert Tied(rank, x, g.entry); }
    forall x, a | x in m && x != g.entry && ForwardEdge(g, rank, a, x)
      ensures a in m && SettledAt(g, rank, m, 1, x, a)
    {
      assert a in m && SettledAt(g, rank, m, 0, x, a);
    }
  }

  /** A finished pass is the start of the next one. */
  lemma NextPass(g: Graph, rank: Rank, ds: DomSets, m: Idom, n: nat)
    requires Inv(g, rank, ds, m, n) && (forall x :: x in rank ==> rank[x] < n)
    ensures Inv(g, rank, ds, m, 0) && m.Keys == rank.Keys
  {
    forall x, a | x in m && x != g.entry && ForwardEdge(g, rank, a, x)
      ensures a in m && SettledAt(g, rank, m, 0, x, a)
    {
      assert a in m && SettledAt(g, rank, m, n, x, a);
    }
  }

  lemma InitialInv(g: Graph, rank: Rank, ds: DomSets)
    requires OrderOk(g, rank) && DomFlow(g, rank, ds)
    ensures Inv(g, rank, ds, map[g.entry := g.entry], 0) 
  {
  }

  // ------------------------------------------------------------------
  // Termination measure: the sum of parent ranks.
  // ------------------------------------------------------------------

  ghost function ParentRank(rank: Rank, m: Idom, n: nat, x: BlockId): nat {
    if x in m && m[x] in rank then rank[m[x]] else n
  }

  ghost function Weight(order: seq<BlockId>, rank: Rank, m: Idom, n: nat): nat {
    if order == [] then 0 else ParentRank(rank, m, n, order[0]) + Weight(order[1..], rank, m, n)
  }

  lemma {:induction false} WeightDrops(order: seq<BlockId>, rank: Rank, m: Idom, n: nat, v: BlockId, w: BlockId)
    requires w in rank && rank[w] < ParentRank(rank, m, n, v)
    ensures Weight(order, rank, m[v := w], n) <= Weight(order, rank, m, n)
    ensures v in order ==> Weight(order, rank, m[v := w], n) < Weight(order, rank, m, n)
  {
    if order != [] {
      WeightDrops(order[1..], rank, m, n, v, w);
      assert v in order ==> v == order[0] || v in order[1..];
    }
  }
}
