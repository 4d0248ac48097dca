/** Depth-first postorder with an explicit stack. */
module Dfs {
  import opened Words
  import opened Cfg

  // ------------------------------------------------------------------
  // Postorder.
  // ------------------------------------------------------------------

  ghost predicate NoDup(s: seq<BlockId>) { forall i, j :: 0 <= i < j < |s| ==> s[i] != s[j] }

  /** A block finishes after some block it was discovered from. */
  ghost predicate LaterPred(g: Graph, po: seq<BlockId>, k: int)
    requires 0 <= k < |po|
  {
    exists k' :: k < k' < |po| && Edge(g, po[k'], po[k])
  }

  ghost predicate IsPostorder(g: Graph, po: seq<BlockId>) {
    && NoDup(po)
    && (forall b :: b in po <==> Reachable(g, b))
    && (po != [] ==> po[|po| - 1] == g.entry)
    && forall k :: 0 <= k < |po| && po[k] != g.entry ==> LaterPred(g, po, k)
  }

  datatype Frame = Frame(id: BlockId, cursor: nat)

  ghost function StackIds(stack: seq<Frame>): seq<BlockId> { seq(|stack|, i requires 0 <= i < |stack| => stack[i].id) }

  ghost function StackWork(g: Graph, stack: seq<Frame>): nat {
    if stack == [] then 0
    else
      var f := stack[|stack| - 1];
      var n := |Targets(g, f.id)|;
      1 + (if f.cursor <= n then n - f.cursor else 0) + StackWork(g, stack[..|stack| - 1])
  }

  /** The finished blocks and the stack partition the visited, reachable ones. */
  ghost predicate Visited(g: Graph, ids: seq<BlockId>, order: seq<BlockId>, visited: set<BlockId>) {
    && g.entry in g.nodes && g.entry in visited
    && NoDup(order + ids)
    && (forall b :: b in visited <==> b in order || b in ids)
    && (forall b :: b in visited ==> b in g.nodes && Reachable(g, b))
    && (if ids == [] then order != [] && order[|order| - 1] == g.entry else ids[0] == g.entry)
  }

  /** Finished blocks have visited successors, and every finished or stacked
      block was discovered from one that finishes later. */
  ghost predicate Linked(g: Graph, ids: seq<BlockId>, order: seq<BlockId>, visited: set<BlockId>) {
    && (forall i :: 0 <= i < |ids| - 1 ==> Edge(g, ids[i], ids[i + 1]))
    && (forall b :: b in order ==> Closed(g, b, visited))
    && (forall k :: 0 <= k < |order| && order[k] != g.entry ==> Discovered(g, ids, order, k))
  }

  ghost predicate FramesDone(g: Graph, stack: seq<Frame>, visited: set<BlockId>) {
    forall i :: 0 <= i < |stack| ==> FrameDone(g, stack[i], visited)
  }

  /** Everything the depth-first walk knows between two steps. */
  ghost predicate Walk(g: Graph, stack: seq<Frame>, order: seq<BlockId>, visited: set<BlockId>) {
    && Visited(g, StackIds(stack), order, visited)
    && Linked(g, StackIds(stack), order, visited)
    && FramesDone(g, stack, visited)
  }

  ghost predicate Closed(g: Graph, b: BlockId, visited: set<BlockId>) {
    forall t :: t in Targets(g, b) && t in g.nodes ==> t in visited
  }

  ghost predicate FrameDone(g: Graph, f: Frame, visited: set<BlockId>) {
    && f.cursor <= |Targets(g, f.id)|
    && forall t :: t in Targets(g, f.id)[..f.cursor] && t in g.nodes ==> t in visited
  }

  ghost predicate Discovered(g: Graph, ids: seq<BlockId>, order: seq<BlockId>, k: int)
    requires 0 <= k < |order|
  {
    || (exists i :: 0 <= i < |ids| && Edge(g, ids[i], order[k]))
    || (exists k' :: k < k' < |order| && Edge(g, order[k'], order[k]))
  }

  lemma WalkStart(g: Graph)
    requires g.entry in g.nodes
    ensures Walk(g, [Frame(g.entry, 0)], [], {g.entry})
  {
    EntryReachable(g);
    assert StackIds([Frame(g.entry, 0)]) == [g.entry];
  }

  /** The top frame moves its cursor past `t`, which has been visited or is
      no block of the function. */
  lemma FramesAdvance(g: Graph, stack: seq<Frame>, visited: set<BlockId>, visited': set<BlockId>, t: BlockId)
    requires FramesDone(g, stack, visited) && stack != [] && visited <= visited'
    requires var f := stack[|stack| - 1]; f.cursor < |Targets(g, f.id)| && Targets(g, f.id)[f.cursor] == t
    requires t !in g.nodes || t in visited'
    ensures var f := stack[|stack| - 1];
            var stack' := stack[|stack| - 1 := Frame(f.id, f.cursor + 1)];
            FramesDone(g, stack', visited') && StackIds(stack') == StackIds(stack)
  {
    var f := stack[|stack| - 1];
    var ss := Targets(g, f.id);
    assert ss[..f.cursor + 1] == ss[..f.cursor] + [t];
    assert FrameDone(g, f, visited);
  }

  lemma VisitedPush(g: Graph, ids: seq<BlockId>, order: seq<BlockId>, visited: set<BlockId>, t: BlockId)
    requires Visited(g, ids, order, visited) && ids != []
    requires Edge(g, ids[|ids| - 1], t) && t !in visited
    ensures Visited(g, ids + [t], order, visited + {t})
  {
    assert order + (ids + [t]) == (order + ids) + [t];
    ReachableStep(g, ids[|ids| - 1], t);
  }

  lemma LinkedPush(g: Graph, ids: seq<BlockId>, order: seq<BlockId>, visited: set<BlockId>, t: BlockId)
    requires Linked(g, ids, order, visited) && ids != [] && Edge(g, ids[|ids| - 1], t)
    ensures Linked(g, ids + [t], order, visited + {t})
  {
    forall k | 0 <= k < |order| && order[k] != g.entry ensures Discovered(g, ids + [t], order, k) {
      assert Discovered(g, ids, order, k);
      if i :| 0 <= i < |ids| && Edge(g, ids[i], order[k]) {
        assert Edge(g, (ids + [t])[i], order[k]);
      }
    }
    forall i | 0 <= i < |ids + [t]| - 1 ensures Edge(g, (ids + [t])[i], (ids + [t])[i + 1]) {
      if i < |ids| - 1 { assert Edge(g, ids[i], ids[i + 1]); }
    }
    forall b | b in order ensures Closed(g, b, visited + {t}) { assert Closed(g, b, visited); }
  }

  lemma VisitedPop(g: Graph, ids: seq<BlockId>, t: BlockId, order: seq<BlockId>, visited: set<BlockId>)
    requires Visited(g, ids + [t], order, visited)
    ensures Visited(g, ids, order + [t], visited)
  {
    PopKeepsDistinct(order, ids, t);
    assert (ids + [t])[0] == g.entry;
  }

  lemma LinkedPop(g: Graph, ids: seq<BlockId>, t: BlockId, order: seq<BlockId>, visited: set<BlockId>)
    requires Linked(g, ids + [t], order, visited) && Closed(g, t, visited)
    requires ids == [] ==> t == g.entry
    ensures Linked(g, ids, order + [t], visited)
  {
    var ids0, order' := ids + [t], order + [t];
    forall i | 0 <= i < |ids| - 1 ensures Edge(g, ids[i], ids[i + 1]) {
      assert Edge(g, ids0[i], ids0[i + 1]);
    }
    forall k | 0 <= k < |order'| && order'[k] != g.entry ensures Discovered(g, ids, order', k) {
      if k == |order| {
        var i := |ids| - 1;
        assert Edge(g, ids0[i], ids0[i + 1]);
        assert Edge(g, ids[i], order'[k]);
      } else {
        DiscoveredPop(g, ids, t, order, k);
      }
    }
  }

  lemma DiscoveredPop(g: Graph, ids: seq<BlockId>, t: BlockId, order: seq<BlockId>, k: int)
    requires 0 <= k < |order| && Discovered(g, ids + [t], order, k)
    ensures Discovered(g, ids, order + [t], k)
  {
    var ids0, order' := ids + [t], order + [t];
    if i :| 0 <= i < |ids0| && Edge(g, ids0[i], order[k]) {
      if i < |ids| {
        assert Edge(g, ids[i], order'[k]);
      } else {
        assert Edge(g, order'[|order|], order'[k]);
      }
    } else {
      var k' :| k < k' < |order| && Edge(g, order[k'], order[k]);
      assert Edge(g, order'[k'], order'[k]);
    }
  }

  lemma PopKeepsDistinct(order: seq<BlockId>, rest: seq<BlockId>, t: BlockId)
    requires NoDup(order + (rest + [t]))
    ensures NoDup((order + [t]) + rest)
  {
    var s, s' := order + (rest + [t]), (order + [t]) + rest;
    forall i, j | 0 <= i < j < |s'| ensures s'[i] != s'[j] {
      var p := (k: int) => if k < |order| then k else if k == |order| then |s| - 1 else k - 1;
      assert s'[i] == s[p(i)] && s'[j] == s[p(j)];
      assert p(i) != p(j);
    }
  }

  lemma {:induction false} ClosedReachable(g: Graph, order: seq<BlockId>, p: seq<BlockId>, b: BlockId)
    requires g.entry in order
    requires forall x :: x in order ==> forall t :: t in Targets(g, x) && t in g.nodes ==> t in order
    requires PathTo(g, p, b)
    ensures b in order
    decreases |p|
  {
    if |p| > 1 {
      PathInit(g, p, b);
      ClosedReachable(g, order, p[..|p| - 1], p[|p| - 2]);
    }
  }

  lemma WalkEnd(g: Graph, order: seq<BlockId>, visited: set<BlockId>)
    requires Visited(g, [], order, visited) && Linked(g, [], order, visited)
    ensures IsPostorder(g, order)
  {
    assert order + [] == order;
    forall x | x in order ensures forall t :: t in Targets(g, x) && t in g.nodes ==> t in order {
      assert Closed(g, x, visited);
    }
    forall b | Reachable(g, b) ensures b in order {
      var p :| PathTo(g, p, b);
      ClosedReachable(g, order, p, b);
    }
    forall k | 0 <= k < |order| && order[k] != g.entry ensures LaterPred(g, order, k) {
      assert Discovered(g, [], order, k);
    }
  }

  function Top(stack: seq<Frame>): Frame
    requires stack != []
  {
    stack[|stack| - 1]
  }

  function Advanced(stack: seq<Frame>): seq<Frame>
    requires stack != []
  {
    stack[|stack| - 1 := Frame(Top(stack).id, Top(stack).cursor + 1)]
  }

  lemma StackIdsSnoc(stack: seq<Frame>, f: Frame)
    ensures StackIds(stack + [f]) == StackIds(stack) + [f.id]
  {
  }

  lemma WalkPush(g: Graph, stack: seq<Frame>, order: seq<BlockId>, visited: set<BlockId>, t: BlockId)
    requires Walk(g, stack, order, visited) && stack != []
    requires Top(stack).cursor < |Targets(g, Top(stack).id)|
    requires t == Targets(g, Top(stack).id)[Top(stack).cursor] && t in g.nodes && t !in visited
    ensures Walk(g, Advanced(stack) + [Frame(t, 0)], order, visited + {t})
  {
    var f := Top(stack);
    var ids := StackIds(stack);
    assert ids[|ids| - 1] == f.id && f.id in ids;
    FramesAdvance(g, stack, visited, visited + {t}, t);
    VisitedPush(g, ids, order, visited, t);
    LinkedPush(g, ids, order, visited, t);
    StackIdsSnoc(Advanced(stack), Frame(t, 0));
  }

  lemma WalkAdvance(g: Graph, stack: seq<Frame>, order: seq<BlockId>, visited: set<BlockId>, t: BlockId)
    requires Walk(g, stack, order, visited) && stack != []
    requires Top(stack).cursor < |Targets(g, Top(stack).id)|
    requires t == Targets(g, Top(stack).id)[Top(stack).cursor] && (t !in g.nodes || t in visited)
    ensures Walk(g, Advanced(stack), order, visited)
    ensures StackWork(g, Advanced(stack)) < StackWork(g, stack)
  {
    FramesAdvance(g, stack, visited, visited, t);
    assert Advanced(stack)[..|stack| - 1] == stack[..|stack| - 1];
  }

  lemma WalkPop(g: Graph, stack: seq<Frame>, order: seq<BlockId>, visited: set<BlockId>)
    requires Walk(g, stack, order, visited) && stack != []
    requires Top(stack).cursor >= |Targets(g, Top(stack).id)|
    ensures Walk(g, stack[..|stack| - 1], order + [Top(stack).id], visited)
  {
    var n := |stack| - 1;
    var f := Top(stack);
    assert stack == stack[..n] + [f];
    StackIdsSnoc(stack[..n], f);
    assert FrameDone(g, f, visited);
    var ss := Targets(g, f.id);
    assert ss[..f.cursor] == ss;
    assert Closed(g, f.id, visited);
    if n == 0 { assert StackIds(stack)[0] == f.id; }
    VisitedPop(g, StackIds(stack[..n]), f.id, order, visited);
    LinkedPop(g, StackIds(stack[..n]), f.id, order, visited);
  }

  method Postorder(g: Graph) returns (order: seq<BlockId>)
    ensures IsPostorder(g, order)
    ensures order == [] <==> g.entry !in g.nodes
  {
    order := [];
    if g.entry !in g.nodes {
      EmptyPostorder(g);
      return;
    }
    var visited: set<BlockId> := {g.entry};
    var stack := [Frame(g.entry, 0)];
    WalkStart(g);
    while stack != []
      invariant Walk(g, stack, order, visited)
      decreases g.nodes - visited, StackWork(g, stack)
    {
      var f := Top(stack);
      var succs := Targets(g, f.id);
      if f.cursor < |succs| {
        var t := succs[f.cursor];
        if t in g.nodes && t !in visited {
          WalkPush(g, stack, order, visited, t);
          stack := Advanced(stack) + [Frame(t, 0)];
          visited := visited + {t};
        } else {
          WalkAdvance(g, stack, order, visited, t);
          stack := Advanced(stack);
        }
      } else {
        WalkPop(g, stack, order, visited);
        order := order + [Top(stack).id];
        stack := stack[..|stack| - 1];
      }
    }
    WalkEnd(g, order, visited);
  }

  lemma EmptyPostorder(g: Graph)
    requires g.entry !in g.nodes
    ensures IsPostorder(g, [])
  {
  }
}
