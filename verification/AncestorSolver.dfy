/** The second dominator solver: a map with no entry for unprocessed blocks and
    `None` for the entry, intersecting chains through an ancestor set, over a
    postorder found recursively. */
module AncestorSolver {
  import opened Words
  import opened Cfg
  import opened DomTree
  import opened Dfs
  import opened IdomSolver

  type Tree = map<BlockId, Option<BlockId>>

  /** The map holds the partial tree `m`. */
  ghost predicate Records(g: Graph, tree: Tree, m: Idom) {
    && tree.Keys == m.Keys && g.entry in m
    && forall v :: v in m ==> tree[v] == if v == g.entry then None else Some(m[v])
  }

  lemma {:induction false} EntryAnc(g: Graph, rank: Rank, m: Idom, v: BlockId)
    requires WellFormed(g, rank, m) && v in m
    ensures Anc(g, rank, m, g.entry, v)
    decreases rank[v]
  {
    if v != g.entry { EntryAnc(g, rank, m, m[v]); }
  }

  /** The chain of `lhs` is what has been collected and what is still above. */
  ghost predicate Collected(g: Graph, rank: Rank, m: Idom, lhs: BlockId, current: BlockId, ancestors: set<BlockId>)
    requires WellFormed(g, rank, m) && lhs in m && current in m
  {
    forall u :: Anc(g, rank, m, u, lhs) <==> u in ancestors || Anc(g, rank, m, u, current)
  }

  lemma CollectUp(g: Graph, rank: Rank, m: Idom, lhs: BlockId, current: BlockId, ancestors: set<BlockId>)
    requires WellFormed(g, rank, m) && lhs in m && current in m && current != g.entry && current in ancestors
    requires Collected(g, rank, m, lhs, current, ancestors)
    ensures Collected(g, rank, m, lhs, m[current], ancestors + {m[current]})
  {
    forall u ensures Anc(g, rank, m, u, lhs) <==> u in ancestors + {m[current]} || Anc(g, rank, m, u, m[current]) {
      assert Anc(g, rank, m, u, current) <==> u == current || Anc(g, rank, m, u, m[current]);
      assert Anc(g, rank, m, m[current], m[current]);
    }
  }

  method Ancestors(ghost g: Graph, ghost rank: Rank, tree: Tree, ghost m: Idom, lhs: BlockId)
    returns (ancestors: set<BlockId>)
    requires WellFormed(g, rank, m) && Records(g, tree, m) && lhs in m
    ensures forall u :: u in ancestors <==> Anc(g, rank, m, u, lhs)
  {
    var current := lhs;
    ancestors := {current};
    while current in tree && tree[current].Some?
      invariant current in m && current in ancestors && Collected(g, rank, m, lhs, current, ancestors)
      decreases rank[current]
    {
      CollectUp(g, rank, m, lhs, current, ancestors);
      current := tree[current].value;
      ancestors := ancestors + {current};
    }
  }

  /** `rhs` has climbed to `current` without passing a common ancestor. */
  ghost predicate Above(g: Graph, rank: Rank, m: Idom, lhs: BlockId, rhs: BlockId, current: BlockId)
    requires WellFormed(g, rank, m) && lhs in m && rhs in m
  {
    && current in m && Anc(g, rank, m, current, rhs)
    && forall u :: Anc(g, rank, m, u, lhs) && Anc(g, rank, m, u, rhs) ==> Anc(g, rank, m, u, current)
  }

  lemma ClimbAbove(g: Graph, rank: Rank, m: Idom, lhs: BlockId, rhs: BlockId, current: BlockId)
    requires WellFormed(g, rank, m) && lhs in m && rhs in m && Above(g, rank, m, lhs, rhs, current)
    requires current != g.entry && !Anc(g, rank, m, current, lhs)
    ensures Above(g, rank, m, lhs, rhs, m[current])
  {
    assert Anc(g, rank, m, m[current], current);
    AncTrans(g, rank, m, m[current], current, rhs);
  }

  method IntersectIdoms(ghost g: Graph, ghost rank: Rank, tree: Tree, ghost m: Idom, lhs: BlockId, rhs: BlockId)
    returns (w: BlockId)
    requires WellFormed(g, rank, m) && Records(g, tree, m) && lhs in m && rhs in m
    ensures IsJoin(g, rank, m, lhs, rhs, w)
  {
    var ancestors := Ancestors(g, rank, tree, m, lhs);
    w := rhs;
    while w !in ancestors && w in tree && tree[w].Some?
      invariant Above(g, rank, m, lhs, rhs, w)
      decreases rank[w]
    {
      ClimbAbove(g, rank, m, lhs, rhs, w);
      w := tree[w].value;
    }
    EntryAnc(g, rank, m, lhs);
  }

  /** The meet of the predecessors processed so far. */
  method NewIdom(ghost g: Graph, ghost rank: Rank, tree: Tree, ghost m: Idom, entry: BlockId, ps: seq<BlockId>)
    returns (o: Option<BlockId>)
    requires entry == g.entry && WellFormed(g, rank, m) && Records(g, tree, m)
    ensures PartialMeet(g, rank, m, ps, o)
  {
    o := None;
    for i := 0 to |ps|
      invariant PartialMeet(g, rank, m, ps[..i], o)
    {
      var p := ps[i];
      TakeSnoc(ps, i);
      if p == entry || p in tree {
        if o.None? {
          PartialMeetFirst(g, rank, m, ps[..i], p);
          o := Some(p);
        } else {
          var w := IntersectIdoms(g, rank, tree, m, o.value, p);
          PartialMeetJoin(g, rank, m, ps[..i], o.value, p, w);
          o := Some(w);
        }
      } else {
        PartialMeetSkip(g, rank, m, ps[..i], o, p);
      }
    }
    TakeAll(ps);
  }

  lemma RecordsUpdate(g: Graph, tree: Tree, m: Idom, b: BlockId, w: BlockId)
    requires Records(g, tree, m) && b != g.entry
    ensures Records(g, tree[b := Some(w)], m[b := w])
  {
  }

  /** One block of a pass. */
  method ReviseBlock(ghost g: Graph, ghost ds: DomSets, ghost rank: Rank, ghost rpo: seq<BlockId>, entry: BlockId,
                     b: BlockId, ps: seq<BlockId>, tree0: Tree, ghost m0: Idom)
    returns (tree: Tree, ghost m: Idom, changed: bool)
    requires entry == g.entry && b in rank && b != entry && Inv(g, rank, ds, m0, rank[b]) && Ordered(rank, rpo)
    requires Records(g, tree0, m0) && forall a :: a in ps <==> Edge(g, a, b)
    ensures Records(g, tree, m) && Inv(g, rank, ds, m, rank[b] + 1)
    ensures changed ==> Weight(rpo, rank, m, |rpo|) < Weight(rpo, rank, m0, |rpo|)
    ensures !changed ==> m == m0
    ensures !changed && Stable(g, rank, m0, rank[b]) ==> Stable(g, rank, m, rank[b] + 1)
  {
    tree, m, changed := tree0, m0, false;
    var o := NewIdom(g, rank, tree0, m0, entry, ps);
    PartialMeetIsMeet(g, rank, ds, m0, b, ps, o);
    MeetRank(g, rank, ds, m0, b, o.value);
    UpdateKeepsInv(g, rank, ds, m0, b, o.value);
    if o.Some? {
      if b !in tree || tree[b] != o {
        VisitDrops(g, rank, ds, m0, rpo, b, o.value);
        RecordsUpdate(g, tree0, m0, b, o.value);
        tree, m, changed := tree[b := o], m0[b := o.value], true;
      } else {
        if Stable(g, rank, m0, rank[b]) { VisitUnchanged(g, rank, ds, m0, b, o.value); }
        assert m0[b := o.value] == m0;
      }
    }
  }

  method VisitBlock(ghost g: Graph, ghost ds: DomSets, ghost rank: Rank, rpo: seq<BlockId>, i: nat, entry: BlockId,
                    preds: map<BlockId, seq<BlockId>>, tree0: Tree, ghost m0: Idom)
    returns (tree: Tree, ghost m: Idom, changed: bool)
    requires entry == g.entry && Inv(g, rank, ds, m0, i) && Ordered(rank, rpo) && i < |rpo|
    requires Records(g, tree0, m0) && PredLists(g, preds) && rank.Keys <= g.nodes
    ensures Records(g, tree, m) && Inv(g, rank, ds, m, i + 1)
    ensures changed ==> Weight(rpo, rank, m, |rpo|) < Weight(rpo, rank, m0, |rpo|)
    ensures !changed ==> m == m0
    ensures !changed && Stable(g, rank, m0, i) ==> Stable(g, rank, m, i + 1)
  {
    var b := rpo[i];
    if b == entry {
      SkipEntry(g, rank, ds, m0);
      tree, m, changed := tree0, m0, false;
    } else {
      tree, m, changed := ReviseBlock(g, ds, rank, rpo, entry, b, preds[b], tree0, m0);
    }
  }

  method PassOver(ghost g: Graph, ghost ds: DomSets, ghost rank: Rank, rpo: seq<BlockId>, entry: BlockId,
                  preds: map<BlockId, seq<BlockId>>, tree0: Tree, ghost m0: Idom)
    returns (tree: Tree, ghost m: Idom, changed: bool)
    requires entry == g.entry && Inv(g, rank, ds, m0, 0) && Ordered(rank, rpo)
    requires Records(g, tree0, m0) && PredLists(g, preds) && rank.Keys <= g.nodes
    ensures Records(g, tree, m) && Inv(g, rank, ds, m, |rpo|)
    ensures changed ==> Weight(rpo, rank, m, |rpo|) < Weight(rpo, rank, m0, |rpo|)
    ensures !changed ==> m == m0 && Stable(g, rank, m, |rpo|)
  {
    tree, m, changed := tree0, m0, false;
    for i := 0 to |rpo|
      invariant Records(g, tree, m) && Inv(g, rank, ds, m, i)
      invariant changed ==> Weight(rpo, rank, m, |rpo|) < Weight(rpo, rank, m0, |rpo|)
      invariant !changed ==> m == m0 && Stable(g, rank, m, i)
    {
      var moved: bool;
      tree, m, moved := VisitBlock(g, ds, rank, rpo, i, entry, preds, tree, m);
      changed := changed || moved;
    }
  }

  /** A whole pass, ready for the next one. */
  method WholePass(ghost g: Graph, ghost ds: DomSets, ghost rank: Rank, rpo: seq<BlockId>, entry: BlockId,
                   preds: map<BlockId, seq<BlockId>>, tree0: Tree, ghost m0: Idom)
    returns (tree: Tree, ghost m: Idom, changed: bool)
    requires entry == g.entry && Inv(g, rank, ds, m0, 0) && GoodOrder(g, rank) && Ordered(rank, rpo)
    requires Records(g, tree0, m0) && PredLists(g, preds) && rank.Keys <= g.nodes && ds == DominatorSets(g, rank)
    ensures Records(g, tree, m) && Inv(g, rank, ds, m, 0)
    ensures changed ==> Weight(rpo, rank, m, |rpo|) < Weight(rpo, rank, m0, |rpo|)
    ensures !changed ==> m == m0 && IsDominatorTree(g, rank, m)
  {
    tree, m, changed := PassOver(g, ds, rank, rpo, entry, preds, tree0, m0);
    NextPass(g, rank, ds, m, |rpo|);
    if !changed { StableIsTree(g, rank, ds, m, rpo); }
  }

  /** Iterates until a whole pass changes nothing. */
  method SolveTree(g: Graph, ghost rank: Rank, rpo: seq<BlockId>, preds: map<BlockId, seq<BlockId>>)
    returns (tree: Tree, ghost m: Idom)
    requires GoodOrder(g, rank) && Ordered(rank, rpo) && PredLists(g, preds) && rank.Keys <= g.nodes
    ensures Records(g, tree, m) && WellFormed(g, rank, m) && IsDominatorTree(g, rank, m)
  {
    tree := map[g.entry := None];
    m := map[g.entry := g.entry];
    ghost var ds := DominatorSets(g, rank);
    DominatorSetsFlow(g, rank);
    InitialInv(g, rank, ds);
    var changed := true;
    while changed
      invariant Records(g, tree, m) && Inv(g, rank, ds, m, 0)
      invariant !changed ==> IsDominatorTree(g, rank, m)
      decreases Weight(rpo, rank, m, |rpo|), changed
    {
      tree, m, changed := WholePass(g, ds, rank, rpo, g.entry, preds, tree, m);
    }
  }

  // ------------------------------------------------------------------
  // Postorder by recursion.
  // ------------------------------------------------------------------

  /** Targets are all blocks of the graph. */
  ghost predicate ClosedGraph(g: Graph) { forall a, t :: a in g.nodes && t in Targets(g, a) ==> Edge(g, a, t) }

  /** Between two visits, with the blocks `ids` on the call stack. */
  ghost predicate Walking(g: Graph, ids: seq<BlockId>, order: seq<BlockId>, visited: set<BlockId>) {
    Visited(g, ids, order, visited) && Linked(g, ids, order, visited)
  }

  lemma Descend(g: Graph, ids: seq<BlockId>, b: BlockId, order: seq<BlockId>, visited: set<BlockId>, t: BlockId)
    requires ClosedGraph(g) && b in g.nodes && t in Targets(g, b) && t !in visited
    requires Walking(g, ids + [b], order, visited)
    ensures Walking(g, ids + [b] + [t], order, visited + {t}) && t in g.nodes
  {
    assert Edge(g, b, t);
    VisitedPush(g, ids + [b], order, visited, t);
    LinkedPush(g, ids + [b], order, visited, t);
  }

  lemma Ascend(g: Graph, ids: seq<BlockId>, b: BlockId, order: seq<BlockId>, visited: set<BlockId>)
    requires Walking(g, ids + [b], order, visited) && (ids == [] ==> b == g.entry)
    requires forall t :: t in Targets(g, b) ==> t in visited
    ensures Walking(g, ids, order + [b], visited)
  {
    VisitedPop(g, ids, b, order, visited);
    LinkedPop(g, ids, b, order, visited);
  }

  /** Visits the targets of `b` from the `k`-th on, then finishes it. */
  method Finish(g: Graph, b: BlockId, k: nat, ghost ids: seq<BlockId>, order0: seq<BlockId>, visited0: set<BlockId>)
    returns (order: seq<BlockId>, visited: set<BlockId>)
    requires ClosedGraph(g) && b in g.nodes && (ids == [] ==> b == g.entry) && k <= |Targets(g, b)|
    requires Walking(g, ids + [b], order0, visited0) && forall t :: t in Targets(g, b)[..k] ==> t in visited0
    ensures Walking(g, ids, order, visited) && visited0 <= visited
    decreases g.nodes - visited0, |Targets(g, b)| - k
  {
    var succs := Targets(g, b);
    order, visited := order0, visited0;
    if k == |succs| {
      TakeAll(succs);
      Ascend(g, ids, b, order, visited);
      order := order + [b];
    } else {
      var t := succs[k];
      TakeSnoc(succs, k);
      if t !in visited {
        Descend(g, ids, b, order, visited, t);
        order, visited := Finish(g, t, 0, ids + [b], order, visited + {t});
      }
      order, visited := Finish(g, b, k + 1, ids, order, visited);
    }
  }

  method PostorderRec(g: Graph) returns (order: seq<BlockId>)
    requires ClosedGraph(g) && g.entry in g.nodes
    ensures IsPostorder(g, order) && order != []
  {
    EntryReachable(g);
    assert [] + [g.entry] == [g.entry];
    var visited;
    order, visited := Finish(g, g.entry, 0, [], [], {g.entry});
    WalkEnd(g, order, visited);
  }
}
