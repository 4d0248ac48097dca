/** The Cooper-Harvey-Kennedy iteration over an idom array with a sentinel. */
module IdomSolver {
  import opened Words
  import opened Cfg
  import opened DomTree
  import opened Dfs

  /** The array value of a block without a dominator. */
  const NO_DOMINATOR: BlockId := 0xFFFF_FFFF

  predicate SameCell(idx: map<BlockId, nat>, a: BlockId, b: BlockId) { a in idx && b in idx && idx[a] == idx[b] }

  /** What the iteration works with: the reverse postorder with its ranks, each block's
      array cell and the predecessor lists. */
  datatype Solver = Solver(entry: BlockId, rank: Rank, rpo: seq<BlockId>, idx: map<BlockId, nat>,
                           preds: map<BlockId, seq<BlockId>>)

  /** `rpo` lists the ranked blocks in rank order. */
  ghost predicate Ordered(rank: Rank, rpo: seq<BlockId>) {
    && (forall i :: 0 <= i < |rpo| ==> rpo[i] in rank && rank[rpo[i]] == i)
    && (forall b :: b in rank ==> rank[b] < |rpo| && rpo[rank[b]] == b)
  }

  /** Each block has its own cell among `n`. */
  ghost predicate OwnCells(idx: map<BlockId, nat>, n: nat) {
    && (forall a :: a in idx ==> idx[a] < n)
    && (forall a, b {:trigger SameCell(idx, a, b)} :: SameCell(idx, a, b) ==> a == b)
  }

  ghost predicate Laid(s: Solver, n: nat) {
    && Ordered(s.rank, s.rpo) && OwnCells(s.idx, n) && s.entry in s.idx
    && (forall b :: b in s.rank ==> b in s.idx && b in s.preds)
    && (forall b :: b in s.preds ==> forall p :: p in s.preds[b] ==> p in s.idx)
  }

  // ------------------------------------------------------------------
  // The iteration as a function on arrays. `n` bounds the climbs of one
  // `intersect`; `None` means that one is still climbing after `n`.
  // ------------------------------------------------------------------

  function CellOf(s: Solver, idom: seq<BlockId>, b: BlockId): BlockId {
    if b in s.idx && s.idx[b] < |idom| then idom[s.idx[b]] else NO_DOMINATOR
  }

  function Climbed(s: Solver, idom: seq<BlockId>, x: BlockId, y: BlockId, n: nat): Option<BlockId>
    decreases n
  {
    if x == y then Some(x)
    else if n == 0 || x !in s.rank || y !in s.rank || s.rank[x] == s.rank[y] then None
    else if s.rank[x] > s.rank[y] then Climbed(s, idom, CellOf(s, idom, x), y, n - 1)
    else Climbed(s, idom, x, CellOf(s, idom, y), n - 1)
  }

  /** One more predecessor. */
  function Met(s: Solver, idom: seq<BlockId>, w: BlockId, p: BlockId, n: nat): Option<BlockId> {
    if CellOf(s, idom, p) == NO_DOMINATOR then Some(w)
    else if w == NO_DOMINATOR then Some(p)
    else Climbed(s, idom, w, p, n)
  }

  function NewIdom(s: Solver, idom: seq<BlockId>, ps: seq<BlockId>, n: nat): Option<BlockId> {
    if ps == [] then Some(NO_DOMINATOR)
    else match NewIdom(s, idom, ps[..|ps| - 1], n)
      case None => None
      case Some(w) => Met(s, idom, w, ps[|ps| - 1], n)
  }

  function Revised(s: Solver, idom: seq<BlockId>, b: BlockId, n: nat): Option<seq<BlockId>>
    requires b in s.idx && s.idx[b] < |idom| && b in s.preds
  {
    if b == s.entry then Some(idom)
    else match NewIdom(s, idom, s.preds[b], n)
      case None => None
      case Some(w) => Some(idom[s.idx[b] := w])
  }

  /** The first `k` blocks of a pass. */
  function Passed(s: Solver, idom: seq<BlockId>, k: nat, n: nat): (r: Option<seq<BlockId>>)
    requires Laid(s, |idom|) && k <= |s.rpo|
    ensures r.Some? ==> |r.value| == |idom|
  {
    if k == 0 then Some(idom)
    else match Passed(s, idom, k - 1, n)
      case None => None
      case Some(a) => Revised(s, a, s.rpo[k - 1], n)
  }

  /** `rounds` whole passes. */
  function Iterated(s: Solver, idom: seq<BlockId>, rounds: nat, n: nat): (r: Option<seq<BlockId>>)
    requires Laid(s, |idom|)
    ensures r.Some? ==> |r.value| == |idom|
    decreases rounds
  {
    if rounds == 0 then Some(idom)
    else match Passed(s, idom, |s.rpo|, n)
      case None => None
      case Some(a) => Iterated(s, a, rounds - 1, n)
  }

  /** After `rounds` passes the array is `out`, and a further pass changes nothing. */
  ghost predicate Settles(s: Solver, idom: seq<BlockId>, rounds: nat, n: nat, out: seq<BlockId>)
    requires Laid(s, |idom|)
  {
    && Iterated(s, idom, rounds, n) == Some(out)
    && Passed(s, out, |s.rpo|, n) == Some(out)
  }

  /** The array before the first pass: only the entry has a parent, itself. */
  function Start(s: Solver, n: nat): seq<BlockId>
    requires Laid(s, n)
  {
    seq(n, _ => NO_DOMINATOR)[s.idx[s.entry] := s.entry]
  }

  // ------------------------------------------------------------------
  // The loops.
  // ------------------------------------------------------------------

  method Intersect(s: Solver, idom: seq<BlockId>, x: BlockId, y: BlockId, ghost n: nat) returns (w: BlockId)
    requires OwnCells(s.idx, |idom|) && s.rank.Keys <= s.idx.Keys && Climbed(s, idom, x, y, n).Some?
    ensures Climbed(s, idom, x, y, n) == Some(w)
  {
    var b1, b2 := x, y;
    ghost var k := n;
    while b1 != b2
      invariant Climbed(s, idom, b1, b2, k) == Climbed(s, idom, x, y, n)
      decreases k
    {
      ghost var k0, left := k, b1;
      while b1 != b2 && s.rank[b1] > s.rank[b2]
        invariant Climbed(s, idom, b1, b2, k) == Climbed(s, idom, x, y, n)
        invariant k < k0 || (k == k0 && b1 == left)
        decreases k
      {
        b1 := idom[s.idx[b1]];
        k := k - 1;
      }
      while b1 != b2 && s.rank[b2] > s.rank[b1]
        invariant Climbed(s, idom, b1, b2, k) == Climbed(s, idom, x, y, n)
        invariant k < k0 || (k == k0 && b1 != b2 && s.rank[b2] > s.rank[b1])
        decreases k
      {
        b2 := idom[s.idx[b2]];
        k := k - 1;
      }
    }
    w := b1;
  }

  lemma {:induction false} NewIdomPrefix(s: Solver, idom: seq<BlockId>, ps: seq<BlockId>, i: nat, n: nat)
    requires i <= |ps| && NewIdom(s, idom, ps, n).Some?
    ensures NewIdom(s, idom, ps[..i], n).Some?
    decreases |ps|
  {
    if i < |ps| {
      NewIdomPrefix(s, idom, ps[..|ps| - 1], i, n);
      assert ps[..|ps| - 1][..i] == ps[..i];
    } else {
      TakeAll(ps);
    }
  }

  lemma NewIdomSnoc(s: Solver, idom: seq<BlockId>, ps: seq<BlockId>, i: nat, w: BlockId, n: nat)
    requires i < |ps| && NewIdom(s, idom, ps[..i], n) == Some(w)
    ensures NewIdom(s, idom, ps[..i + 1], n) == Met(s, idom, w, ps[i], n)
  {
    var qs := ps[..i + 1];
    assert qs[..|qs| - 1] == ps[..i];
  }

  method NewParent(s: Solver, idom: seq<BlockId>, ps: seq<BlockId>, ghost n: nat) returns (w: BlockId)
    requires OwnCells(s.idx, |idom|) && s.rank.Keys <= s.idx.Keys && (forall p :: p in ps ==> p in s.idx)
    requires NewIdom(s, idom, ps, n).Some?
    ensures NewIdom(s, idom, ps, n) == Some(w)
  {
    w := NO_DOMINATOR;
    for i := 0 to |ps|
      invariant NewIdom(s, idom, ps[..i], n) == Some(w)
    {
      var p := ps[i];
      NewIdomSnoc(s, idom, ps, i, w, n);
      NewIdomPrefix(s, idom, ps, i + 1, n);
      if idom[s.idx[p]] != NO_DOMINATOR {
        if w == NO_DOMINATOR { w := p; } else { w := Intersect(s, idom, w, p, n); }
      }
    }
    TakeAll(ps);
  }

  lemma {:induction false} PassedPrefix(s: Solver, idom: seq<BlockId>, i: nat, k: nat, n: nat)
    requires Laid(s, |idom|) && i <= k <= |s.rpo| && Passed(s, idom, k, n).Some?
    ensures Passed(s, idom, i, n).Some?
    decreases k
  {
    if i < k { PassedPrefix(s, idom, i, k - 1, n); }
  }

  lemma DifferentCells(s: Solver, n: nat, i: nat, j: nat)
    requires Laid(s, n) && i < |s.rpo| && j < |s.rpo| && i != j
    ensures s.idx[s.rpo[i]] != s.idx[s.rpo[j]]
  {
    if SameCell(s.idx, s.rpo[i], s.rpo[j]) { assert false; }
  }

  /** The cells of blocks not reached yet are as they were. */
  lemma {:induction false} PassedLater(s: Solver, idom: seq<BlockId>, k: nat, n: nat, j: nat)
    requires Laid(s, |idom|) && k <= j < |s.rpo| && Passed(s, idom, k, n).Some?
    ensures Passed(s, idom, k, n).value[s.idx[s.rpo[j]]] == idom[s.idx[s.rpo[j]]]
    decreases k
  {
    if k > 0 {
      PassedLater(s, idom, k - 1, n, j);
      DifferentCells(s, |idom|, k - 1, j);
    }
  }

  /** One block of a pass. */
  method Visit(s: Solver, idom0: seq<BlockId>, b: BlockId, ghost n: nat) returns (idom: seq<BlockId>, changed: bool)
    requires Laid(s, |idom0|) && b in s.rank && Revised(s, idom0, b, n).Some?
    ensures Revised(s, idom0, b, n) == Some(idom)
    ensures changed <==> idom[s.idx[b]] != idom0[s.idx[b]]
    ensures !changed ==> idom == idom0
  {
    idom, changed := idom0, false;
    if b == s.entry { return; }
    var w := NewParent(s, idom0, s.preds[b], n);
    if w != idom0[s.idx[b]] {
      idom := idom0[s.idx[b] := w];
      changed := true;
    } else {
      assert idom0[s.idx[b] := w] == idom0;
    }
  }

  /** One pass; it reports whether it changed the array. */
  method Pass(s: Solver, idom0: seq<BlockId>, ghost n: nat) returns (idom: seq<BlockId>, changed: bool)
    requires Laid(s, |idom0|) && Passed(s, idom0, |s.rpo|, n).Some?
    ensures Passed(s, idom0, |s.rpo|, n) == Some(idom)
    ensures changed <==> idom != idom0
  {
    idom, changed := idom0, false;
    for k := 0 to |s.rpo|
      invariant Passed(s, idom0, k, n) == Some(idom)
      invariant changed ==> idom != idom0
      invariant !changed ==> idom == idom0
    {
      PassedPrefix(s, idom0, k + 1, |s.rpo|, n);
      ghost var before := idom;
      var moved: bool;
      idom, moved := Visit(s, idom, s.rpo[k], n);
      if moved { PassedLater(s, idom0, k, n, k); }
      if changed && !moved { assert idom == before; }
      if changed && moved { assert idom[s.idx[s.rpo[k]]] != idom0[s.idx[s.rpo[k]]]; }
      changed := changed || moved;
    }
  }

  /** Iterates until a whole pass changes nothing. */
  method Solve(s: Solver, idom0: seq<BlockId>, ghost rounds: nat, ghost n: nat, ghost out: seq<BlockId>)
    returns (idom: seq<BlockId>)
    requires Laid(s, |idom0|) && Settles(s, idom0, rounds, n, out)
    ensures idom == out
  {
    idom := idom0;
    var changed := true;
    ghost var left := rounds;
    while changed
      invariant |idom| == |idom0| && Settles(s, idom, left, n, out)
      invariant !changed ==> Passed(s, idom, |s.rpo|, n) == Some(idom)
      decreases left, changed
    {
      SettlesPass(s, idom, left, n, out);
      idom, changed := Pass(s, idom, n);
      left := if left > 0 then left - 1 else 0;
    }
    StaysSettled(s, idom, left, n, out);
  }

  lemma SettlesPass(s: Solver, idom: seq<BlockId>, rounds: nat, n: nat, out: seq<BlockId>)
    requires Laid(s, |idom|) && Settles(s, idom, rounds, n, out)
    ensures Passed(s, idom, |s.rpo|, n).Some?
    ensures Settles(s, Passed(s, idom, |s.rpo|, n).value, if rounds > 0 then rounds - 1 else 0, n, out)
    ensures rounds == 0 ==> Passed(s, idom, |s.rpo|, n).value == idom
  {
  }

  lemma {:induction false} StaysSettled(s: Solver, idom: seq<BlockId>, rounds: nat, n: nat, out: seq<BlockId>)
    requires Laid(s, |idom|) && Settles(s, idom, rounds, n, out) && Passed(s, idom, |s.rpo|, n) == Some(idom)
    ensures out == idom
    decreases rounds
  {
    if rounds > 0 { StaysSettled(s, idom, rounds - 1, n, out); }
  }

  // ------------------------------------------------------------------
  // Cells hold blocks or the sentinel.
  // ------------------------------------------------------------------

  predicate IsCell(s: Solver, b: BlockId) { b == NO_DOMINATOR || b in s.idx }

  ghost predicate CellsNamed(s: Solver, idom: seq<BlockId>) { forall k :: 0 <= k < |idom| ==> IsCell(s, idom[k]) }

  lemma {:induction false} ClimbedNamed(s: Solver, idom: seq<BlockId>, x: BlockId, y: BlockId, n: nat)
    requires CellsNamed(s, idom) && IsCell(s, x) && IsCell(s, y)
    ensures Climbed(s, idom, x, y, n).Some? ==> IsCell(s, Climbed(s, idom, x, y, n).value)
    decreases n
  {
    if n > 0 && x in s.rank && y in s.rank && s.rank[x] > s.rank[y] {
      ClimbedNamed(s, idom, CellOf(s, idom, x), y, n - 1);
    }
    if n > 0 && x in s.rank && y in s.rank && s.rank[x] < s.rank[y] {
      ClimbedNamed(s, idom, x, CellOf(s, idom, y), n - 1);
    }
  }

  lemma {:induction false} NewIdomNamed(s: Solver, idom: seq<BlockId>, ps: seq<BlockId>, n: nat)
    requires CellsNamed(s, idom) && forall p :: p in ps ==> p in s.idx
    ensures NewIdom(s, idom, ps, n).Some? ==> IsCell(s, NewIdom(s, idom, ps, n).value)
    decreases |ps|
  {
    if ps != [] {
      var r := NewIdom(s, idom, ps[..|ps| - 1], n);
      NewIdomNamed(s, idom, ps[..|ps| - 1], n);
      if r.Some? { ClimbedNamed(s, idom, r.value, ps[|ps| - 1], n); }
    }
  }

  lemma {:induction false} PassedNamed(s: Solver, idom: seq<BlockId>, k: nat, n: nat)
    requires Laid(s, |idom|) && k <= |s.rpo| && CellsNamed(s, idom)
    ensures Passed(s, idom, k, n).Some? ==> CellsNamed(s, Passed(s, idom, k, n).value)
    decreases k
  {
    if k > 0 {
      PassedNamed(s, idom, k - 1, n);
      var r := Passed(s, idom, k - 1, n);
      if r.Some? { NewIdomNamed(s, r.value, s.preds[s.rpo[k - 1]], n); }
    }
  }

  lemma {:induction false} SettledNamed(s: Solver, idom: seq<BlockId>, rounds: nat, n: nat, out: seq<BlockId>)
    requires Laid(s, |idom|) && CellsNamed(s, idom) && Settles(s, idom, rounds, n, out)
    ensures |out| == |idom| && CellsNamed(s, out)
    decreases rounds
  {
    if rounds > 0 {
      PassedNamed(s, idom, |s.rpo|, n);
      SettledNamed(s, Passed(s, idom, |s.rpo|, n).value, rounds - 1, n, out);
    }
  }

  // ------------------------------------------------------------------
  // An entry with the sentinel's id: nothing ever counts as processed.
  // ------------------------------------------------------------------

  ghost predicate AllSentinel(idom: seq<BlockId>) { forall k :: 0 <= k < |idom| ==> idom[k] == NO_DOMINATOR }

  lemma {:induction false} NothingMet(s: Solver, idom: seq<BlockId>, ps: seq<BlockId>, n: nat)
    requires AllSentinel(idom)
    ensures NewIdom(s, idom, ps, n) == Some(NO_DOMINATOR)
    decreases |ps|
  {
    if ps != [] { NothingMet(s, idom, ps[..|ps| - 1], n); }
  }

  lemma {:induction false} SentinelPass(s: Solver, idom: seq<BlockId>, k: nat, n: nat)
    requires Laid(s, |idom|) && AllSentinel(idom) && k <= |s.rpo|
    ensures Passed(s, idom, k, n) == Some(idom)
    decreases k
  {
    if k > 0 {
      var b := s.rpo[k - 1];
      SentinelPass(s, idom, k - 1, n);
      NothingMet(s, idom, s.preds[b], n);
      assert idom[s.idx[b] := NO_DOMINATOR] == idom;
    }
  }

  /** Every pass leaves the array as it is: all sentinels. */
  lemma SentinelSettles(s: Solver, n: nat)
    requires Laid(s, n) && s.entry == NO_DOMINATOR
    ensures AllSentinel(Start(s, n)) && Settles(s, Start(s, n), 0, 0, Start(s, n))
  {
    SentinelPass(s, Start(s, n), |s.rpo|, 0);
  }

  // ------------------------------------------------------------------
  // Arrays that hold a partial tree.
  // ------------------------------------------------------------------

  /** The solver works on the graph. */
  ghost predicate Solves(g: Graph, s: Solver, n: nat) {
    && Laid(s, n) && s.entry == g.entry && OrderOk(g, s.rank) && s.rank.Keys <= g.nodes
    && s.idx.Keys == g.nodes && PredLists(g, s.preds)
  }

  ghost predicate PredLists(g: Graph, preds: map<BlockId, seq<BlockId>>) {
    g.nodes <= preds.Keys && forall a, b :: b in g.nodes ==> (a in preds[b] <==> Edge(g, a, b))
  }

  /** A ranked block with the sentinel's id has no edge out. */
  ghost predicate Quiet(g: Graph, rank: Rank) {
    NO_DOMINATOR in rank ==> forall b :: !Edge(g, NO_DOMINATOR, b)
  }

  function Cell(m: Idom, a: BlockId): BlockId { if a in m then m[a] else NO_DOMINATOR }

  /** The array holds the partial tree `m`, in which the sentinel is nobody's parent. */
  ghost predicate Holds(idx: map<BlockId, nat>, idom: seq<BlockId>, m: Idom) {
    && m.Keys <= idx.Keys && m.Values <= idx.Keys && NO_DOMINATOR !in m.Values
    && (forall a :: a in idx ==> idx[a] < |idom| && idom[idx[a]] == Cell(m, a))
  }

  lemma HeldCell(s: Solver, idom: seq<BlockId>, m: Idom, a: BlockId)
    requires Holds(s.idx, idom, m)
    ensures CellOf(s, idom, a) == Cell(m, a)
    ensures CellOf(s, idom, a) == NO_DOMINATOR <==> a !in m
  {
    if a in m { assert m[a] in m.Values; }
  }

  // ------------------------------------------------------------------
  // intersect
  // ------------------------------------------------------------------

  /** `c1` and `c2` have climbed from `x` and `y` without passing a common ancestor. */
  ghost predicate Climbing(g: Graph, rank: Rank, m: Idom, x: BlockId, y: BlockId, c1: BlockId, c2: BlockId)
    requires WellFormed(g, rank, m) && x in m && y in m
  {
    && c1 in m && c2 in m
    && Anc(g, rank, m, c1, x) && Anc(g, rank, m, c2, y)
    && forall u :: Anc(g, rank, m, u, x) && Anc(g, rank, m, u, y)
         ==> Anc(g, rank, m, u, c1) && Anc(g, rank, m, u, c2)
  }

  lemma ClimbLeft(g: Graph, rank: Rank, m: Idom, x: BlockId, y: BlockId, c1: BlockId, c2: BlockId)
    requires OrderOk(g, rank) && WellFormed(g, rank, m) && x in m && y in m
    requires Climbing(g, rank, m, x, y, c1, c2) && rank[c1] > rank[c2]
    ensures c1 != g.entry && Climbing(g, rank, m, x, y, m[c1], c2)
  {
    assert Anc(g, rank, m, m[c1], c1);
    AncTrans(g, rank, m, m[c1], c1, x);
    forall u | Anc(g, rank, m, u, x) && Anc(g, rank, m, u, y) ensures Anc(g, rank, m, u, m[c1]) {
      AncRank(g, rank, m, u, c2);
    }
  }

  lemma ClimbRight(g: Graph, rank: Rank, m: Idom, x: BlockId, y: BlockId, c1: BlockId, c2: BlockId)
    requires OrderOk(g, rank) && WellFormed(g, rank, m) && x in m && y in m
    requires Climbing(g, rank, m, x, y, c1, c2) && rank[c2] > rank[c1]
    ensures c2 != g.entry && Climbing(g, rank, m, x, y, c1, m[c2])
  {
    assert Anc(g, rank, m, m[c2], c2);
    AncTrans(g, rank, m, m[c2], c2, y);
    forall u | Anc(g, rank, m, u, x) && Anc(g, rank, m, u, y) ensures Anc(g, rank, m, u, m[c2]) {
      AncRank(g, rank, m, u, c1);
    }
  }

  /** One step of the climb, on the recorded parents. */
  lemma ClimbedStep(s: Solver, idom: seq<BlockId>, m: Idom, c1: BlockId, c2: BlockId, n: nat)
    requires Holds(s.idx, idom, m) && c1 in m && c2 in m && c1 in s.rank && c2 in s.rank
    requires c1 != c2 && s.rank[c1] != s.rank[c2] && n > 0
    ensures Climbed(s, idom, c1, c2, n) ==
      if s.rank[c1] > s.rank[c2] then Climbed(s, idom, m[c1], c2, n - 1) else Climbed(s, idom, c1, m[c2], n - 1)
  {
    HeldCell(s, idom, m, c1);
    HeldCell(s, idom, m, c2);
  }

  /** The climb ends at the nearest common ancestor, in at most as many steps as ranks allow. */
  lemma {:induction false} ClimbedIsJoin(g: Graph, s: Solver, idom: seq<BlockId>, m: Idom, x: BlockId, y: BlockId,
                                         c1: BlockId, c2: BlockId, n: nat)
    requires OrderOk(g, s.rank) && WellFormed(g, s.rank, m) && Holds(s.idx, idom, m) && x in m && y in m
    requires Climbing(g, s.rank, m, x, y, c1, c2)
    ensures Climbed(s, idom, c1, c2, n).Some? ==> IsJoin(g, s.rank, m, x, y, Climbed(s, idom, c1, c2, n).value)
    ensures n >= s.rank[c1] + s.rank[c2] ==> Climbed(s, idom, c1, c2, n).Some?
    decreases n
  {
    if c1 != c2 {
      assert !Tied(s.rank, c1, c2);
      if n > 0 {
        ClimbedStep(s, idom, m, c1, c2, n);
        if s.rank[c1] > s.rank[c2] {
          ClimbLeft(g, s.rank, m, x, y, c1, c2);
          ClimbedIsJoin(g, s, idom, m, x, y, m[c1], c2, n - 1);
        } else {
          ClimbRight(g, s.rank, m, x, y, c1, c2);
          ClimbedIsJoin(g, s, idom, m, x, y, c1, m[c2], n - 1);
        }
      }
    }
  }

  // ------------------------------------------------------------------
  // The new parent of one block.
  // ------------------------------------------------------------------

  /** `o` is the meet of the processed blocks in `ps`, if there are any. */
  ghost predicate PartialMeet(g: Graph, rank: Rank, m: Idom, ps: seq<BlockId>, o: Option<BlockId>)
    requires WellFormed(g, rank, m)
  {
    match o
    case None => forall a :: a in ps ==> a !in m
    case Some(w) =>
      && w in m
      && (forall a :: a in ps && a in m ==> Anc(g, rank, m, w, a))
      && (forall u :: (forall a :: a in ps && a in m ==> Anc(g, rank, m, u, a)) ==> Anc(g, rank, m, u, w))
  }

  /** The sentinel stands for no parent yet. */
  function Parent(w: BlockId): Option<BlockId> { if w == NO_DOMINATOR then None else Some(w) }

  lemma PartialMeetJoin(g: Graph, rank: Rank, m: Idom, ps: seq<BlockId>, w: BlockId, p: BlockId, w': BlockId)
    requires WellFormed(g, rank, m) && PartialMeet(g, rank, m, ps, Some(w))
    requires p in m && IsJoin(g, rank, m, w, p, w')
    ensures PartialMeet(g, rank, m, ps + [p], Some(w'))
  {
    forall a | a in ps + [p] && a in m ensures Anc(g, rank, m, w', a) {
      if a in ps { AncTrans(g, rank, m, w', w, a); }
    }
    forall u | forall a :: a in ps + [p] && a in m ==> Anc(g, rank, m, u, a)
      ensures Anc(g, rank, m, u, w')
    {
      forall a | a in ps && a in m ensures Anc(g, rank, m, u, a) { assert a in ps + [p]; }
      assert p in ps + [p];
    }
  }

  lemma PartialMeetFirst(g: Graph, rank: Rank, m: Idom, ps: seq<BlockId>, p: BlockId)
    requires WellFormed(g, rank, m) && PartialMeet(g, rank, m, ps, None) && p in m
    ensures PartialMeet(g, rank, m, ps + [p], Some(p))
  {
    forall u | forall a :: a in ps + [p] && a in m ==> Anc(g, rank, m, u, a)
      ensures Anc(g, rank, m, u, p)
    {
      assert p in ps + [p];
    }
  }

  lemma PartialMeetSkip(g: Graph, rank: Rank, m: Idom, ps: seq<BlockId>, o: Option<BlockId>, p: BlockId)
    requires WellFormed(g, rank, m) && PartialMeet(g, rank, m, ps, o) && p !in m
    ensures PartialMeet(g, rank, m, ps + [p], o)
  {
    if o.Some? {
      forall u | forall a :: a in ps + [p] && a in m ==> Anc(g, rank, m, u, a)
        ensures Anc(g, rank, m, u, o.value)
      {
        forall a | a in ps && a in m ensures Anc(g, rank, m, u, a) { assert a in ps + [p]; }
      }
    }
  }

  lemma PartialMeetIsMeet(g: Graph, rank: Rank, ds: DomSets, m: Idom, v: BlockId, ps: seq<BlockId>, o: Option<BlockId>)
    requires v in rank && v != g.entry && Inv(g, rank, ds, m, rank[v])
    requires forall a :: a in ps <==> Edge(g, a, v)
    requires PartialMeet(g, rank, m, ps, o)
    ensures o.Some? && IsMeet(g, rank, m, v, o.value)
  {
    assert HasForwardPred(g, rank, v);
    var a :| ForwardEdge(g, rank, a, v);
    forall u | CommonAnc(g, rank, m, u, v) ensures o.Some? && Anc(g, rank, m, u, o.value) {
    }
  }

  /** An ancestor of a block that is not the sentinel is not the sentinel. */
  lemma {:induction false} AncestorNamed(g: Graph, rank: Rank, m: Idom, u: BlockId, v: BlockId)
    requires WellFormed(g, rank, m) && v in m && Anc(g, rank, m, u, v) && v != NO_DOMINATOR && NO_DOMINATOR !in m.Values
    ensures u != NO_DOMINATOR
    decreases rank[v]
  {
    if u != v {
      assert m[v] in m.Values;
      AncestorNamed(g, rank, m, u, m[v]);
    }
  }

  /** More climbs are allowed than any two ranks ask for. */
  predicate Ample(s: Solver, n: nat) { n >= 2 * |s.rpo| }

  lemma MetIsMeet(g: Graph, s: Solver, idom: seq<BlockId>, m: Idom, ps: seq<BlockId>, w: BlockId, p: BlockId, n: nat)
    requires OrderOk(g, s.rank) && Ordered(s.rank, s.rpo) && WellFormed(g, s.rank, m) && Holds(s.idx, idom, m)
    requires PartialMeet(g, s.rank, m, ps, Parent(w)) && (p in m ==> p != NO_DOMINATOR)
    ensures Met(s, idom, w, p, n).Some? ==> PartialMeet(g, s.rank, m, ps + [p], Parent(Met(s, idom, w, p, n).value))
    ensures Ample(s, n) ==> Met(s, idom, w, p, n).Some?
  {
    var rank := s.rank;
    HeldCell(s, idom, m, p);
    if p !in m {
      PartialMeetSkip(g, rank, m, ps, Parent(w), p);
    } else if w == NO_DOMINATOR {
      PartialMeetFirst(g, rank, m, ps, p);
    } else {
      assert rank[w] < |s.rpo| && rank[p] < |s.rpo|;
      ClimbedIsJoin(g, s, idom, m, w, p, w, p, n);
      var r := Climbed(s, idom, w, p, n);
      if r.Some? {
        PartialMeetJoin(g, rank, m, ps, w, p, r.value);
        AncestorNamed(g, rank, m, r.value, p);
      }
    }
  }

  lemma {:induction false} NewIdomIsMeet(g: Graph, s: Solver, idom: seq<BlockId>, m: Idom, ps: seq<BlockId>, n: nat)
    requires OrderOk(g, s.rank) && Ordered(s.rank, s.rpo) && WellFormed(g, s.rank, m) && Holds(s.idx, idom, m)
    requires forall p :: p in ps && p in m ==> p != NO_DOMINATOR
    ensures NewIdom(s, idom, ps, n).Some? ==> PartialMeet(g, s.rank, m, ps, Parent(NewIdom(s, idom, ps, n).value))
    ensures Ample(s, n) ==> NewIdom(s, idom, ps, n).Some?
    decreases |ps|
  {
    if ps != [] {
      var init, p := ps[..|ps| - 1], ps[|ps| - 1];
      assert ps == init + [p];
      NewIdomIsMeet(g, s, idom, m, init, n);
      var r := NewIdom(s, idom, init, n);
      if r.Some? { MetIsMeet(g, s, idom, m, init, r.value, p, n); }
    }
  }

  // ------------------------------------------------------------------
  // One block of a pass.
  // ------------------------------------------------------------------

  /** Blocks of rank below `pos` already have the parent a further visit would give them. */
  ghost predicate Stable(g: Graph, rank: Rank, m: Idom, pos: nat)
    requires WellFormed(g, rank, m)
  {
    forall a, v :: v in m && v != g.entry && rank[v] < pos && a in m && Edge(g, a, v)
      ==> Anc(g, rank, m, m[v], a)
  }

  lemma VisitUnchanged(g: Graph, rank: Rank, ds: DomSets, m: Idom, v: BlockId, w: BlockId)
    requires Updating(g, rank, ds, m, v, w) && v in m && m[v] == w && Stable(g, rank, m, rank[v])
    ensures Stable(g, rank, m, rank[v] + 1)
  {
    forall a, x | x in m && x != g.entry && rank[x] < rank[v] + 1 && a in m && Edge(g, a, x)
      ensures Anc(g, rank, m, m[x], a)
    {
      if rank[x] == rank[v] {
        assert Tied(rank, x, v);
        assert CommonAnc(g, rank, m, w, v);
      }
    }
  }

  lemma VisitDrops(g: Graph, rank: Rank, ds: DomSets, m: Idom, rpo: seq<BlockId>, v: BlockId, w: BlockId)
    requires Updating(g, rank, ds, m, v, w) && Ordered(rank, rpo)
    requires v in m ==> m[v] != w
    ensures Weight(rpo, rank, m[v := w], |rpo|) < Weight(rpo, rank, m, |rpo|)
  {
    if v in m { ParentMovesUp(g, rank, ds, m, v, w); }
    assert rpo[rank[v]] == v;
    WeightDrops(rpo, rank, m, |rpo|, v, w);
  }

  lemma VisitStep(g: Graph, rank: Rank, ds: DomSets, m: Idom, i: nat, b: BlockId, ps: seq<BlockId>, w: BlockId)
    requires b in rank && b != g.entry && i == rank[b] && Inv(g, rank, ds, m, i)
    requires (forall a :: a in ps <==> Edge(g, a, b)) && PartialMeet(g, rank, m, ps, Parent(w))
    requires m.Keys <= g.nodes
    ensures Updating(g, rank, ds, m, b, w) && w in g.nodes && w != NO_DOMINATOR
    ensures Inv(g, rank, ds, m[b := w], i + 1)
    ensures Cell(m, b) == w ==> b in m && m[b := w] == m
  {
    PartialMeetIsMeet(g, rank, ds, m, b, ps, Parent(w));
    MeetRank(g, rank, ds, m, b, w);
    UpdateKeepsInv(g, rank, ds, m, b, w);
    if Cell(m, b) == w { VisitUnchangedMap(g, rank, ds, m, b, w); }
  }

  lemma VisitUnchangedMap(g: Graph, rank: Rank, ds: DomSets, m: Idom, b: BlockId, w: BlockId)
    requires Updating(g, rank, ds, m, b, w) && Cell(m, b) == w && w != NO_DOMINATOR
    ensures b in m && m[b := w] == m
  {
  }

  lemma HoldsUpdate(idx: map<BlockId, nat>, idom: seq<BlockId>, m: Idom, b: BlockId, w: BlockId)
    requires Holds(idx, idom, m) && b in idx && w in idx && w != NO_DOMINATOR
    requires forall x, y {:trigger SameCell(idx, x, y)} :: SameCell(idx, x, y) ==> x == y
    ensures Holds(idx, idom[idx[b] := w], m[b := w])
  {
    var idom', m' := idom[idx[b] := w], m[b := w];
    forall a | a in idx ensures idx[a] < |idom'| && idom'[idx[a]] == Cell(m', a) {
      assert SameCell(idx, a, b) || idx[a] != idx[b];
    }
  }

  /** Processed predecessors do not have the sentinel's id. */
  lemma NamedPreds(g: Graph, s: Solver, m: Idom, b: BlockId)
    requires g.nodes <= s.preds.Keys && PredLists(g, s.preds) && Quiet(g, s.rank) && b in g.nodes
    requires m.Keys <= s.rank.Keys
    ensures forall p :: p in s.preds[b] && p in m ==> p != NO_DOMINATOR
  {
  }

  /** Block `b` gets the parent `w`. */
  lemma ReviseTo(s: Solver, idom: seq<BlockId>, m: Idom, b: BlockId, w: BlockId)
    requires OwnCells(s.idx, |idom|) && b in s.idx && w in s.idx && w != NO_DOMINATOR && Holds(s.idx, idom, m)
    ensures Holds(s.idx, idom[s.idx[b] := w], m[b := w])
    ensures m[b := w] == m ==> idom[s.idx[b] := w] == idom
  {
    HoldsUpdate(s.idx, idom, m, b, w);
    HeldCell(s, idom, m, b);
    if m[b := w] == m {
      assert m[b := w][b] == w;
      KeptCell(idom, s.idx[b], w);
    }
  }

  lemma KeptCell(idom: seq<BlockId>, i: nat, w: BlockId)
    requires i < |idom| && idom[i] == w
    ensures idom[i := w] == idom
  {
  }

  lemma StableNext(g: Graph, rank: Rank, ds: DomSets, m: Idom, b: BlockId, w: BlockId)
    requires Updating(g, rank, ds, m, b, w) && m[b := w] == m && Stable(g, rank, m, rank[b])
    ensures Stable(g, rank, m, rank[b] + 1)
  {
    assert m[b := w][b] == w;
    VisitUnchanged(g, rank, ds, m, b, w);
  }

  /** A new parent makes the sum of ranks fall; an old one leaves the block stable. */
  lemma ParentSet(g: Graph, s: Solver, ds: DomSets, m: Idom, b: BlockId, w: BlockId)
    requires Updating(g, s.rank, ds, m, b, w) && Ordered(s.rank, s.rpo)
    ensures m[b := w] != m ==> Weight(s.rpo, s.rank, m[b := w], |s.rpo|) < Weight(s.rpo, s.rank, m, |s.rpo|)
    ensures m[b := w] == m && Stable(g, s.rank, m, s.rank[b]) ==> Stable(g, s.rank, m, s.rank[b] + 1)
  {
    if b in m && m[b] == w {
      SameBinding(m, b, w);
      if Stable(g, s.rank, m, s.rank[b]) { StableNext(g, s.rank, ds, m, b, w); }
    } else {
      assert m[b := w][b] == w;
      VisitDrops(g, s.rank, ds, m, s.rpo, b, w);
    }
  }

  lemma SameBinding(m: Idom, b: BlockId, w: BlockId)
    requires b in m && m[b] == w
    ensures m[b := w] == m
  {
  }

  lemma RevisedMeets(g: Graph, s: Solver, idom: seq<BlockId>, m: Idom, b: BlockId, n: nat)
    requires Solves(g, s, |idom|) && Quiet(g, s.rank) && b in s.rank && WellFormed(g, s.rank, m)
    requires Holds(s.idx, idom, m)
    ensures Ample(s, n) ==> NewIdom(s, idom, s.preds[b], n).Some?
    ensures NewIdom(s, idom, s.preds[b], n).Some? ==>
      PartialMeet(g, s.rank, m, s.preds[b], Parent(NewIdom(s, idom, s.preds[b], n).value))
  {
    NamedPreds(g, s, m, b);
    NewIdomIsMeet(g, s, idom, m, s.preds[b], n);
  }

  /** The value a visit computes is the new parent that the invariants ask for. */
  ghost predicate UpdatesTo(g: Graph, rank: Rank, ds: DomSets, m: Idom, b: BlockId, w: BlockId)
    requires b in rank
  {
    && Updating(g, rank, ds, m, b, w) && w in g.nodes && w != NO_DOMINATOR
    && Inv(g, rank, ds, m[b := w], rank[b] + 1)
  }

  lemma RevisedUpdates(g: Graph, s: Solver, ds: DomSets, idom: seq<BlockId>, m: Idom, b: BlockId, n: nat)
    requires Solves(g, s, |idom|) && Quiet(g, s.rank) && b in s.rank && b != g.entry
    requires Inv(g, s.rank, ds, m, s.rank[b]) && Holds(s.idx, idom, m)
    ensures Ample(s, n) ==> NewIdom(s, idom, s.preds[b], n).Some?
    ensures NewIdom(s, idom, s.preds[b], n).Some? ==>
      UpdatesTo(g, s.rank, ds, m, b, NewIdom(s, idom, s.preds[b], n).value)
  {
    RevisedMeets(g, s, idom, m, b, n);
    var r := NewIdom(s, idom, s.preds[b], n);
    if r.Some? { VisitStep(g, s.rank, ds, m, s.rank[b], b, s.preds[b], r.value); }
  }

  // ------------------------------------------------------------------
  // Passes, for any invariant that every visit keeps.
  // ------------------------------------------------------------------

  /** What visits keep of an array and the tree it holds, which blocks a further visit would leave as
      they are, and what falls when one does not. */
  datatype Theory = Theory(inv: (seq<BlockId>, Idom, nat) -> bool, stable: (Idom, nat) -> bool, weight: Idom -> nat)

  ghost predicate Moved(t: Theory, a0: seq<BlockId>, m0: Idom, a: seq<BlockId>, m: Idom, i: nat) {
    t.inv(a, m, i) && (m != m0 ==> t.weight(m) < t.weight(m0)) && (m == m0 ==> a == a0)
  }

  ghost predicate Advances(t: Theory, a: seq<BlockId>, m: Idom, a1: seq<BlockId>, m1: Idom, i: nat) {
    Moved(t, a, m, a1, m1, i + 1) && (m1 == m && t.stable(m, i) ==> t.stable(m, i + 1))
  }

  ghost predicate VisitOk(s: Solver, n: nat, t: Theory, a: seq<BlockId>, m: Idom, i: nat)
    requires Laid(s, |a|) && i < |s.rpo|
  {
    && (Ample(s, n) ==> Revised(s, a, s.rpo[i], n).Some?)
    && (Revised(s, a, s.rpo[i], n).Some? ==> exists m1 :: Advances(t, a, m, Revised(s, a, s.rpo[i], n).value, m1, i))
  }

  /** Every visit keeps the invariant, and so does the end of a pass. */
  ghost predicate Kept(s: Solver, n: nat, size: nat, t: Theory) {
    && Laid(s, size)
    && (forall a, m, i: nat :: t.inv(a, m, i) && i < |s.rpo| ==> |a| == size && VisitOk(s, n, t, a, m, i))
    && (forall a, m :: t.inv(a, m, |s.rpo|) ==> |a| == size && t.inv(a, m, 0))
    && (forall m :: t.stable(m, 0))
  }

  lemma {:induction false} PassKeeps(s: Solver, n: nat, size: nat, t: Theory, a0: seq<BlockId>, m0: Idom, k: nat)
    returns (m: Idom)
    requires Kept(s, n, size, t) && |a0| == size && t.inv(a0, m0, 0) && k <= |s.rpo|
    ensures Ample(s, n) ==> Passed(s, a0, k, n).Some?
    ensures Passed(s, a0, k, n).Some? ==>
      Moved(t, a0, m0, Passed(s, a0, k, n).value, m, k) && (m == m0 ==> t.stable(m0, k))
    decreases k
  {
    m := m0;
    if k > 0 {
      var i: nat := k - 1;
      var m1 := PassKeeps(s, n, size, t, a0, m0, i);
      var r := Passed(s, a0, i, n);
      if r.Some? {
        assert t.inv(r.value, m1, i) && VisitOk(s, n, t, r.value, m1, i);
        var r1 := Revised(s, r.value, s.rpo[i], n);
        if r1.Some? { m :| Advances(t, r.value, m1, r1.value, m, i); }
      }
    }
  }

  /** Each pass that changes anything makes the weight fall, so the passes come to an end. */
  lemma {:induction false} KeptSettles(s: Solver, n: nat, size: nat, t: Theory, a: seq<BlockId>, m: Idom)
    returns (rounds: nat, out: seq<BlockId>)
    requires Kept(s, n, size, t) && |a| == size && t.inv(a, m, 0) && Ample(s, n)
    ensures Settles(s, a, rounds, n, out)
    decreases t.weight(m)
  {
    var a1, m1 := WholePass(s, n, size, t, a, m);
    if m1 == m { return 0, a; }
    rounds, out := KeptSettles(s, n, size, t, a1, m1);
    SettlesLater(s, a, a1, rounds, n, out);
    rounds := rounds + 1;
  }

  lemma WholePass(s: Solver, n: nat, size: nat, t: Theory, a: seq<BlockId>, m: Idom)
    returns (a1: seq<BlockId>, m1: Idom)
    requires Kept(s, n, size, t) && |a| == size && t.inv(a, m, 0) && Ample(s, n)
    ensures Passed(s, a, |s.rpo|, n) == Some(a1) && |a1| == size && t.inv(a1, m1, 0)
    ensures (m1 != m ==> t.weight(m1) < t.weight(m)) && (m1 == m ==> a1 == a)
  {
    m1 := PassKeeps(s, n, size, t, a, m, |s.rpo|);
    a1 := Passed(s, a, |s.rpo|, n).value;
    assert t.inv(a1, m1, |s.rpo|);
  }

  lemma SettlesLater(s: Solver, idom: seq<BlockId>, idom1: seq<BlockId>, rounds: nat, n: nat, out: seq<BlockId>)
    requires Laid(s, |idom|) && Passed(s, idom, |s.rpo|, n) == Some(idom1) && Settles(s, idom1, rounds, n, out)
    ensures Settles(s, idom, rounds + 1, n, out)
  {
  }

  /** However they come to an end, the array holds a tree that further visits leave as it is. */
  lemma {:induction false} SettledKeeps(s: Solver, n: nat, size: nat, t: Theory, a: seq<BlockId>, m: Idom,
                                        rounds: nat, out: seq<BlockId>) returns (m1: Idom)
    requires Kept(s, n, size, t) && |a| == size && t.inv(a, m, 0) && Settles(s, a, rounds, n, out)
    requires forall b, x, y :: t.inv(b, x, 0) && t.inv(b, y, 0) ==> x == y
    ensures t.inv(out, m1, 0) && t.inv(out, m1, |s.rpo|) && t.stable(m1, |s.rpo|)
    decreases rounds
  {
    m1 := PassKeeps(s, n, size, t, a, m, |s.rpo|);
    SettlesPass(s, a, rounds, n, out);
    var next := Passed(s, a, |s.rpo|, n).value;
    assert t.inv(next, m1, |s.rpo|);
    if rounds > 0 { m1 := SettledKeeps(s, n, size, t, next, m1, rounds - 1, out); }
  }

  // ------------------------------------------------------------------
  // ... and for the dominator invariants.
  // ------------------------------------------------------------------

  ghost function DominatorTheory(g: Graph, s: Solver, ds: DomSets, size: nat): Theory {
    Theory((a: seq<BlockId>, m: Idom, i: nat) => |a| == size && Holds(s.idx, a, m) && Inv(g, s.rank, ds, m, i),
           (m: Idom, i: nat) => WellFormed(g, s.rank, m) ==> Stable(g, s.rank, m, i),
           (m: Idom) => Weight(s.rpo, s.rank, m, |s.rpo|))
  }

  lemma EntryVisit(g: Graph, s: Solver, ds: DomSets, size: nat, a: seq<BlockId>, m: Idom, i: nat, n: nat)
    requires Solves(g, s, size) && i < |s.rpo| && s.rpo[i] == g.entry && DominatorTheory(g, s, ds, size).inv(a, m, i)
    ensures VisitOk(s, n, DominatorTheory(g, s, ds, size), a, m, i)
  {
    var t := DominatorTheory(g, s, ds, size);
    SkipEntry(g, s.rank, ds, m);
    forall a, v | v in m && v != g.entry && a in m && Edge(g, a, v) ensures s.rank[v] >= 1 {
      assert !Tied(s.rank, v, g.entry);
    }
    assert Advances(t, a, m, a, m, i);
  }

  /** A step from `m` to `m1`, in the terms of the theory. */
  ghost predicate Progresses(g: Graph, s: Solver, ds: DomSets, a: seq<BlockId>, m: Idom, a1: seq<BlockId>, m1: Idom,
                             i: nat) {
    && |a1| == |a| && Holds(s.idx, a1, m1) && Inv(g, s.rank, ds, m1, i + 1) && WellFormed(g, s.rank, m)
    && (m1 != m ==> Weight(s.rpo, s.rank, m1, |s.rpo|) < Weight(s.rpo, s.rank, m, |s.rpo|))
    && (m1 == m ==> a1 == a) && (m1 == m && Stable(g, s.rank, m, i) ==> Stable(g, s.rank, m, i + 1))
  }

  lemma BlockProgresses(g: Graph, s: Solver, ds: DomSets, a: seq<BlockId>, m: Idom, b: BlockId, w: BlockId)
    requires Laid(s, |a|) && b in s.rank && Updating(g, s.rank, ds, m, b, w)
    requires Holds(s.idx, a, m) && w in s.idx && w != NO_DOMINATOR && Inv(g, s.rank, ds, m[b := w], s.rank[b] + 1)
    ensures Progresses(g, s, ds, a, m, a[s.idx[b] := w], m[b := w], s.rank[b])
  {
    ReviseTo(s, a, m, b, w);
    ParentSet(g, s, ds, m, b, w);
  }

  lemma BlockVisit(g: Graph, s: Solver, ds: DomSets, size: nat, a: seq<BlockId>, m: Idom, i: nat, n: nat)
    requires Solves(g, s, size) && Quiet(g, s.rank) && i < |s.rpo| && s.rpo[i] != g.entry
    requires |a| == size && Holds(s.idx, a, m) && Inv(g, s.rank, ds, m, i)
    ensures VisitOk(s, n, DominatorTheory(g, s, ds, size), a, m, i)
  {
    var b := s.rpo[i];
    RevisedUpdates(g, s, ds, a, m, b, n);
    var r := NewIdom(s, a, s.preds[b], n);
    if r.Some? {
      BlockProgresses(g, s, ds, a, m, b, r.value);
      BlockAdvances(g, s, ds, size, a, m, a[s.idx[b] := r.value], m[b := r.value], i);
    }
  }

  lemma BlockAdvances(g: Graph, s: Solver, ds: DomSets, size: nat, a: seq<BlockId>, m: Idom, a1: seq<BlockId>,
                      m1: Idom, i: nat)
    requires |a| == size && Progresses(g, s, ds, a, m, a1, m1, i)
    ensures Advances(DominatorTheory(g, s, ds, size), a, m, a1, m1, i)
  {
    Advance(DominatorTheory(g, s, ds, size), a, m, a1, m1, i);
  }

  lemma Advance(t: Theory, a: seq<BlockId>, m: Idom, a1: seq<BlockId>, m1: Idom, i: nat)
    requires t.inv(a1, m1, i + 1) && (m1 != m ==> t.weight(m1) < t.weight(m)) && (m1 == m ==> a1 == a)
    requires m1 == m && t.stable(m, i) ==> t.stable(m, i + 1)
    ensures Advances(t, a, m, a1, m1, i)
  {
  }

  lemma DominatorsKept(g: Graph, s: Solver, ds: DomSets, size: nat, n: nat)
    requires Solves(g, s, size) && Quiet(g, s.rank)
    ensures Kept(s, n, size, DominatorTheory(g, s, ds, size))
  {
    var t := DominatorTheory(g, s, ds, size);
    forall a, m, i: nat | t.inv(a, m, i) && i < |s.rpo| ensures |a| == size && VisitOk(s, n, t, a, m, i) {
      if s.rpo[i] == g.entry {
        EntryVisit(g, s, ds, size, a, m, i, n);
      } else {
        BlockVisit(g, s, ds, size, a, m, i, n);
      }
    }
    forall a, m | t.inv(a, m, |s.rpo|) ensures |a| == size && t.inv(a, m, 0) { NextPass(g, s.rank, ds, m, |s.rpo|); }
    forall m ensures t.stable(m, 0) { assert WellFormed(g, s.rank, m) ==> Stable(g, s.rank, m, 0); }
  }

  lemma StableIsTree(g: Graph, rank: Rank, ds: DomSets, m: Idom, rpo: seq<BlockId>)
    requires GoodOrder(g, rank) && Inv(g, rank, ds, m, 0) && m.Keys == rank.Keys && ds == DominatorSets(g, rank)
    requires Ordered(rank, rpo) && Stable(g, rank, m, |rpo|)
    ensures IsDominatorTree(g, rank, m)
  {
    assert Fixpoint(g, rank, m);
    FixpointIsDominatorTree(g, rank, m);
  }

  /** One array holds one tree. */
  lemma SameArray(g: Graph, s: Solver, idom: seq<BlockId>, m: Idom, m1: Idom)
    requires Holds(s.idx, idom, m) && Holds(s.idx, idom, m1)
    ensures m == m1
  {
    forall a ensures a in m <==> a in m1 {
      HeldCell(s, idom, m, a);
      HeldCell(s, idom, m1, a);
    }
    forall a | a in m ensures m[a] == m1[a] {
      HeldCell(s, idom, m, a);
      HeldCell(s, idom, m1, a);
    }
  }

  lemma StartHolds(g: Graph, s: Solver, n: nat)
    requires Solves(g, s, n) && g.entry != NO_DOMINATOR
    ensures Holds(s.idx, Start(s, n), map[g.entry := g.entry])
  {
    assert map[g.entry := g.entry] == map[][g.entry := g.entry];
    HoldsUpdate(s.idx, seq(n, _ => NO_DOMINATOR), map[], g.entry, g.entry);
  }

  lemma TheoryStart(g: Graph, s: Solver, size: nat)
    requires Solves(g, s, size) && GoodOrder(g, s.rank) && g.entry != NO_DOMINATOR
    ensures DominatorTheory(g, s, DominatorSets(g, s.rank), size).inv(Start(s, size), map[g.entry := g.entry], 0)
  {
    DominatorSetsFlow(g, s.rank);
    InitialInv(g, s.rank, DominatorSets(g, s.rank));
    StartHolds(g, s, size);
  }

  /** If no reachable block with a successor has the sentinel's id, the iteration ends ... */
  lemma QuietSettles(g: Graph, s: Solver, size: nat) returns (rounds: nat, n: nat, out: seq<BlockId>)
    requires Solves(g, s, size) && GoodOrder(g, s.rank) && Quiet(g, s.rank) && g.entry != NO_DOMINATOR
    ensures Settles(s, Start(s, size), rounds, n, out)
  {
    n := 2 * |s.rpo|;
    var ds := DominatorSets(g, s.rank);
    TheoryStart(g, s, size);
    DominatorsKept(g, s, ds, size, n);
    rounds, out := KeptSettles(s, n, size, DominatorTheory(g, s, ds, size), Start(s, size), map[g.entry := g.entry]);
  }

  /** ... and, however it does, at the dominator tree. */
  lemma QuietIsTree(g: Graph, s: Solver, size: nat, rounds: nat, n: nat, out: seq<BlockId>) returns (m: Idom)
    requires Solves(g, s, size) && GoodOrder(g, s.rank) && Quiet(g, s.rank) && g.entry != NO_DOMINATOR
    requires Settles(s, Start(s, size), rounds, n, out)
    ensures |out| == size && Holds(s.idx, out, m) && WellFormed(g, s.rank, m) && IsDominatorTree(g, s.rank, m)
  {
    var ds := DominatorSets(g, s.rank);
    var t := DominatorTheory(g, s, ds, size);
    TheoryStart(g, s, size);
    DominatorsKept(g, s, ds, size, n);
    forall b, x, y | t.inv(b, x, 0) && t.inv(b, y, 0) ensures x == y { SameArray(g, s, b, x, y); }
    m := SettledKeeps(s, n, size, t, Start(s, size), map[g.entry := g.entry], rounds, out);
    NextPass(g, s.rank, ds, m, |s.rpo|);
    StableIsTree(g, s.rank, ds, m, s.rpo);
  }

  // ------------------------------------------------------------------
  // Ranks from a postorder.
  // ------------------------------------------------------------------

  function Reversed(s: seq<BlockId>): seq<BlockId> { seq(|s|, i requires 0 <= i < |s| => s[|s| - 1 - i]) }

  lemma RankedIsListed(po: seq<BlockId>, rank: Rank, b: BlockId)
    requires Ordered(rank, Reversed(po))
    ensures b in rank <==> b in po
    ensures b in rank ==> po[|po| - 1 - rank[b]] == b
  {
    var rpo := Reversed(po);
    if b in rank { assert rpo[rank[b]] == b; }
    if b in po {
      var k :| 0 <= k < |po| && po[k] == b;
      assert rpo[|po| - 1 - k] == b;
    }
  }

  lemma LaterIsForward(g: Graph, po: seq<BlockId>, rank: Rank, b: BlockId)
    requires Ordered(rank, Reversed(po)) && b in rank
    requires LaterPred(g, po, |po| - 1 - rank[b])
    ensures HasForwardPred(g, rank, b)
  {
    RankedIsListed(po, rank, b);
    var k := |po| - 1 - rank[b];
    var k' :| k < k' < |po| && Edge(g, po[k'], po[k]);
    assert Reversed(po)[|po| - 1 - k'] == po[k'];
    assert ForwardEdge(g, rank, po[k'], b);
  }

  /** Reverse postorder is an order in which every block but the entry has an
      earlier predecessor. */
  lemma ReversePostorderIsGood(g: Graph, po: seq<BlockId>, rank: Rank)
    requires IsPostorder(g, po) && po != []
    requires Ordered(rank, Reversed(po))
    ensures GoodOrder(g, rank)
  {
    assert Reversed(po)[0] == g.entry;
    forall b ensures b in rank <==> Reachable(g, b) { RankedIsListed(po, rank, b); }
    forall a, b | Tied(rank, a, b) ensures a == b {
      RankedIsListed(po, rank, a);
      RankedIsListed(po, rank, b);
    }
    forall b | b in rank && b != g.entry ensures HasForwardPred(g, rank, b) {
      RankedIsListed(po, rank, b);
      assert LaterPred(g, po, |po| - 1 - rank[b]);
      LaterIsForward(g, po, rank, b);
    }
  }

  method RankOf(rpo: seq<BlockId>) returns (rank: Rank)
    requires NoDup(rpo)
    ensures Ordered(rank, rpo)
  {
    rank := map[];
    for i := 0 to |rpo|
      invariant forall k :: 0 <= k < i ==> rpo[k] in rank && rank[rpo[k]] == k
      invariant forall b :: b in rank ==> rank[b] < i && rpo[rank[b]] == b
    {
      rank := rank[rpo[i] := i];
    }
  }

  lemma ReversedNoDup(s: seq<BlockId>)
    requires NoDup(s)
    ensures NoDup(Reversed(s))
  {
  }
}
