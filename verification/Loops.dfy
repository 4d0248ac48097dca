/** Natural-loop bodies: reverse reachability from a latch that stops at the header. */
module Loops {
  import opened Words
  import opened Cfg
  import opened DomTree
  import opened IdomSolver

  /** A walk from `b` to `t` that never touches `h`. */
  ghost predicate Avoiding(g: Graph, h: BlockId, b: BlockId, t: BlockId, p: seq<BlockId>) {
    && |p| > 0 && p[0] == b && p[|p| - 1] == t && h !in p
    && (forall i :: 0 <= i < |p| ==> p[i] in g.nodes)
    && forall i :: 0 <= i < |p| - 1 ==> Edge(g, p[i], p[i + 1])
  }

  ghost predicate ReachesAvoiding(g: Graph, h: BlockId, b: BlockId, t: BlockId) {
    exists p :: Avoiding(g, h, b, t, p)
  }

  lemma AvoidingCons(g: Graph, h: BlockId, a: BlockId, b: BlockId, t: BlockId)
    requires ReachesAvoiding(g, h, b, t) && Edge(g, a, b) && a != h
    ensures ReachesAvoiding(g, h, a, t)
  {
    var p :| Avoiding(g, h, b, t, p);
    var q := [a] + p;
    forall i | 0 <= i < |q| - 1 ensures Edge(g, q[i], q[i + 1]) {
      if i > 0 { assert q[i] == p[i - 1] && q[i + 1] == p[i - 1 + 1]; }
    }
    assert Avoiding(g, h, a, t, q);
  }

  lemma AvoidingTail(g: Graph, h: BlockId, b: BlockId, t: BlockId, p: seq<BlockId>)
    requires Avoiding(g, h, b, t, p) && |p| > 1
    ensures Edge(g, b, p[1]) && Avoiding(g, h, p[1], t, p[1..])
  {
    var q := p[1..];
    assert Edge(g, p[0], p[0 + 1]);
    forall i | 0 <= i < |q| - 1 ensures Edge(g, q[i], q[i + 1]) {
      assert q[i] == p[i + 1] && q[i + 1] == p[i + 1 + 1];
      assert Edge(g, p[i + 1], p[i + 1 + 1]);
    }
  }

  /** A set that holds `t` and is closed under predecessors other than `h`
      holds everything that reaches `t` without touching `h`. */
  lemma {:induction false} ClosedUnderPreds(g: Graph, h: BlockId, t: BlockId, body: set<BlockId>, b: BlockId,
                                            p: seq<BlockId>)
    requires t in body
    requires forall x, a :: x in body && x != h && Edge(g, a, x) ==> a in body
    requires Avoiding(g, h, b, t, p)
    ensures b in body
    decreases |p|
  {
    if |p| > 1 {
      AvoidingTail(g, h, b, t, p);
      ClosedUnderPreds(g, h, t, body, p[1], p[1..]);
      assert p[1] in p;
    }
  }

  /** The body that the loop detector promises for a back edge. */
  ghost predicate IsLoopBody(g: Graph, header: BlockId, tail: BlockId, body: set<BlockId>) {
    forall b :: b in body <==> b == header || (tail != header && ReachesAvoiding(g, header, b, tail))
  }

  /** What the worklist has found so far. */
  ghost predicate Collecting(g: Graph, header: BlockId, tail: BlockId, body: set<BlockId>, work: seq<BlockId>) {
    && header in body && tail in body
    && (forall b :: b in body ==> b == header || (b in g.nodes && ReachesAvoiding(g, header, b, tail)))
    && (forall b :: b in work ==> b in body && b != header)
    && (forall x, a :: x in body && x != header && x !in work && Edge(g, a, x) ==> a in body)
  }

  /** One worklist element: its unseen predecessors join the body and the worklist. */
  method Expand(ghost g: Graph, header: BlockId, ghost tail: BlockId, b: BlockId, ps: seq<BlockId>,
                body0: set<BlockId>, work0: seq<BlockId>)
    returns (body: set<BlockId>, work: seq<BlockId>)
    requires Collecting(g, header, tail, body0, work0 + [b])
    requires forall a :: a in ps <==> Edge(g, a, b)
    ensures Collecting(g, header, tail, body, work)
    ensures body0 <= body && (body == body0 ==> work == work0)
    ensures body <= body0 + g.nodes
  {
    body, work := body0, work0;
    assert b in work0 + [b];
    for i := 0 to |ps|
      invariant body0 <= body && (body == body0 ==> work == work0)
      invariant body <= body0 + g.nodes
      invariant Collecting(g, header, tail, body, work + [b])
      invariant forall a :: a in ps[..i] ==> a in body
    {
      var p := ps[i];
      assert Edge(g, p, b);
      if p !in body {
        AvoidingCons(g, header, p, b, tail);
        GrowBody(g, header, tail, body, work, b, p);
        body := body + {p};
        work := work + [p];
      }
    }
    assert ps[..|ps|] == ps;
    DropDone(g, header, tail, body, work, b);
  }

  lemma GrowBody(g: Graph, header: BlockId, tail: BlockId, body: set<BlockId>, work: seq<BlockId>, b: BlockId,
                 p: BlockId)
    requires Collecting(g, header, tail, body, work + [b])
    requires p !in body && p in g.nodes && ReachesAvoiding(g, header, p, tail)
    ensures Collecting(g, header, tail, body + {p}, (work + [p]) + [b])
  {
    forall x | x !in (work + [p]) + [b] ensures x !in work + [b] && x != p {
      assert p in (work + [p]) + [b];
    }
  }

  lemma DropDone(g: Graph, header: BlockId, tail: BlockId, body: set<BlockId>, work: seq<BlockId>, b: BlockId)
    requires Collecting(g, header, tail, body, work + [b])
    requires forall a :: Edge(g, a, b) ==> a in body
    ensures Collecting(g, header, tail, body, work)
  {
    forall x | x in work ensures x in work + [b] {
    }
    forall x, a | x in body && x != header && x !in work && Edge(g, a, x) ensures a in body {
      if x != b { assert x !in work + [b]; }
    }
  }

  /** `natural_loops` for one back edge. */
  method LoopBody(g: Graph, preds: map<BlockId, seq<BlockId>>, header: BlockId, tail: BlockId)
    returns (body: set<BlockId>)
    requires tail in g.nodes && PredLists(g, preds)
    ensures IsLoopBody(g, header, tail, body)
  {
    body := {header};
    if tail == header { return; }
    body := body + {tail};
    var work := [tail];
    assert Avoiding(g, header, tail, tail, [tail]);
    while work != []
      invariant Collecting(g, header, tail, body, work) && header in body
      invariant body <= g.nodes + {header}
      decreases (g.nodes + {header}) - body, |work|
    {
      var n := |work| - 1;
      var b := work[n];
      assert work == work[..n] + [b];
      body, work := Expand(g, header, tail, b, preds[b], body, work[..n]);
    }
    forall b ensures b in body <==> b == header || ReachesAvoiding(g, header, b, tail) {
      if ReachesAvoiding(g, header, b, tail) {
        var p :| Avoiding(g, header, b, tail, p);
        ClosedUnderPreds(g, header, tail, body, b, p);
      }
    }
  }

  lemma PathAppend(g: Graph, h: BlockId, p: seq<BlockId>, b: BlockId, q: seq<BlockId>, t: BlockId)
    requires PathTo(g, p, b) && Avoiding(g, h, b, t, q) && h !in p
    ensures PathTo(g, p + q[1..], t) && h !in p + q[1..]
  {
    var r := p + q[1..];
    forall i | 0 <= i < |r| - 1 ensures Edge(g, r[i], r[i + 1]) {
      if i < |p| - 1 {
        assert r[i] == p[i] && r[i + 1] == p[i + 1];
      } else {
        var j := i - (|p| - 1);
        assert r[i] == q[j] && r[i + 1] == q[j + 1];
      }
    }
    assert r[|r| - 1] == t;
  }

  /** The header of a back edge dominates every reachable block of its loop. */
  lemma HeaderDominatesBody(g: Graph, header: BlockId, tail: BlockId, body: set<BlockId>, b: BlockId)
    requires IsLoopBody(g, header, tail, body) && Dominates(g, header, tail)
    requires b in body
    ensures Dominates(g, header, b)
  {
    if b != header {
      var q :| Avoiding(g, header, b, tail, q);
      forall p | PathTo(g, p, b) ensures header in p {
        if header !in p {
          PathAppend(g, header, p, b, q, tail);
          assert false;
        }
      }
    } else {
      forall p | PathTo(g, p, b) ensures header in p { assert p[|p| - 1] == b; }
    }
  }

  // ------------------------------------------------------------------
  // Back edges.
  // ------------------------------------------------------------------

  /** `u` is among the first `k` nodes of the chain of `v`. */
  ghost predicate AncWithin(g: Graph, rank: Rank, m: Idom, u: BlockId, v: BlockId, k: nat)
    requires WellFormed(g, rank, m) && v in m
    decreases k
  {
    k > 0 && (u == v || (v != g.entry && AncWithin(g, rank, m, u, m[v], k - 1)))
  }

  /** A chain is no longer than its block's rank. */
  lemma {:induction false} AncWithinRank(g: Graph, rank: Rank, m: Idom, u: BlockId, v: BlockId, k: nat)
    requires WellFormed(g, rank, m) && v in m
    ensures AncWithin(g, rank, m, u, v, k) ==> Anc(g, rank, m, u, v)
    ensures rank[v] < k && Anc(g, rank, m, u, v) ==> AncWithin(g, rank, m, u, v, k)
    decreases k
  {
    if k > 0 && u != v && v != g.entry { AncWithinRank(g, rank, m, u, m[v], k - 1); }
  }

  const CHAIN_LIMIT: nat := 1_000_000

  /** The walk of `back_edges` up the array, `k` blocks at most. */
  predicate OnChain(idx: map<BlockId, nat>, idom: seq<BlockId>, head: BlockId, cur: BlockId, k: nat)
    decreases k
  {
    && k > 0 && cur in idx && idx[cur] < |idom|
    && (cur == head
        || (idom[idx[cur]] != NO_DOMINATOR && idom[idx[cur]] != cur && OnChain(idx, idom, head, idom[idx[cur]], k - 1)))
  }

  method ChainContains(idx: map<BlockId, nat>, idom: seq<BlockId>, head: BlockId, tail: BlockId) returns (r: bool)
    requires tail in idx && (forall a :: a in idx ==> idx[a] < |idom|)
    requires forall d :: d in idom ==> d == NO_DOMINATOR || d in idx
    ensures r <==> OnChain(idx, idom, head, tail, CHAIN_LIMIT)
  {
    var cur := tail;
    for safety := 0 to CHAIN_LIMIT
      invariant cur in idx
      invariant OnChain(idx, idom, head, tail, CHAIN_LIMIT) <==> OnChain(idx, idom, head, cur, CHAIN_LIMIT - safety)
    {
      if cur == head { return true; }
      var parent := idom[idx[cur]];
      if parent == NO_DOMINATOR { return false; }
      if parent == cur { return cur == head; }
      cur := parent;
    }
    r := false;
  }

  /** On an array that holds a tree, the walk finds the ancestors. */
  lemma {:induction false} OnChainIsAnc(g: Graph, rank: Rank, idx: map<BlockId, nat>, idom: seq<BlockId>, m: Idom,
                                        head: BlockId, tail: BlockId, k: nat)
    requires WellFormed(g, rank, m) && Holds(idx, idom, m) && tail in idx
    ensures tail in m ==> (OnChain(idx, idom, head, tail, k) <==> AncWithin(g, rank, m, head, tail, k))
    ensures tail !in m ==> (OnChain(idx, idom, head, tail, k) <==> k > 0 && head == tail)
    decreases k
  {
    if tail in m {
      assert m[tail] in m.Values;
      if k > 0 && tail != head && tail != g.entry { OnChainIsAnc(g, rank, idx, idom, m, head, m[tail], k - 1); }
    }
  }

  /** On an array of sentinels it finds nothing. */
  lemma OnNoChain(idx: map<BlockId, nat>, idom: seq<BlockId>, head: BlockId, tail: BlockId, k: nat)
    requires AllSentinel(idom) && tail in idx && idx[tail] < |idom| && k > 0
    ensures OnChain(idx, idom, head, tail, k) <==> head == tail
  {
  }
}
