/** `dead_store_eliminate`: a store overwritten through the same address ref and
    size, with nothing in between that could observe it, is dropped. */
module DeadStore {
  import opened Words
  import opened Scalar
  import opened Ir
  import opened Validate
  import opened ByteMemory

  datatype Key = Key(addr: Ref, size: OpSize)

  /** State of the forward scan: the last undisturbed store per key, and the
      positions found dead. */
  datatype Scan = Scan(pending: map<Key, nat>, dead: set<nat>)

  predicate Clears(op: Op) {
    || op.LoadMem? || op.LoadMemTSO? || op.StoreMemTSO?
    || op.AtomicCmpxchg? || op.AtomicCmpxchgPair? || op.Fence?
  }

  function Scanned(sc: Scan, s: Stmt, i: nat): Scan {
    if s.op.StoreMem? then
      var k := Key(s.op.addr, s.op.size);
      Scan(sc.pending[k := i], if k in sc.pending then sc.dead + {sc.pending[k]} else sc.dead)
    else if Clears(s.op) then Scan(map[], sc.dead)
    else sc
  }

  function ScanAt(stmts: seq<Stmt>, n: nat): Scan
    requires n <= |stmts|
  {
    if n == 0 then Scan(map[], {}) else Scanned(ScanAt(stmts, n - 1), stmts[n - 1], n - 1)
  }

  function Dead(stmts: seq<Stmt>): set<nat> { ScanAt(stmts, |stmts|).dead }

  method Eliminate(stmts: seq<Stmt>) returns (out: seq<Stmt>)
    ensures out == Remaining(stmts, Dead(stmts), |stmts|)
  {
    var pending: map<Key, nat>, dead: set<nat> := map[], {};
    for i := 0 to |stmts|
      invariant Scan(pending, dead) == ScanAt(stmts, i)
    {
      var s := stmts[i];
      if s.op.StoreMem? {
        var k := Key(s.op.addr, s.op.size);
        if k in pending { dead := dead + {pending[k]}; }
        pending := pending[k := i];
      } else if Clears(s.op) {
        pending := map[];
      }
    }
    out := Filter(stmts, dead);
  }

  // ------------------------------------------------------------------
  // Which stores end up dead.
  // ------------------------------------------------------------------

  /** Pending positions are in the past, one per key, and not dead yet. */
  ghost predicate ScanOk(sc: Scan, n: nat) {
    && (forall i :: i in sc.dead ==> i < n)
    && (forall k :: k in sc.pending ==> sc.pending[k] < n && sc.pending[k] !in sc.dead)
    && (forall k, k' :: k in sc.pending && k' in sc.pending && sc.pending[k] == sc.pending[k'] ==> k == k')
  }

  lemma {:induction false} ScanIsOk(stmts: seq<Stmt>, n: nat)
    requires n <= |stmts|
    ensures ScanOk(ScanAt(stmts, n), n)
  {
    if n > 0 { ScanIsOk(stmts, n - 1); }
  }

  /** A position found dead after `p` was pending at `p` or comes later. */
  lemma {:induction false} DeadLater(stmts: seq<Stmt>, p: nat, q: nat, i: nat)
    requires p <= q <= |stmts| && i in ScanAt(stmts, q).dead && i !in ScanAt(stmts, p).dead
    ensures i >= p || i in ScanAt(stmts, p).pending.Values
    decreases q
  {
    if p < q {
      var sc := ScanAt(stmts, q - 1);
      if i in sc.dead {
        DeadLater(stmts, p, q - 1, i);
      } else {
        PendingFrom(stmts, p, q - 1, i);
      }
    }
  }

  lemma {:induction false} PendingFrom(stmts: seq<Stmt>, p: nat, q: nat, i: nat)
    requires p <= q <= |stmts| && i in ScanAt(stmts, q).pending.Values
    ensures i >= p || i in ScanAt(stmts, p).pending.Values
    decreases q
  {
    if p < q && i != q - 1 {
      var sc, sc1 := ScanAt(stmts, q - 1), ScanAt(stmts, q);
      var k :| k in sc1.pending && sc1.pending[k] == i;
      assert k in sc.pending && sc.pending[k] == i;
      PendingFrom(stmts, p, q - 1, i);
    }
  }

  /** No store pending at `n` is ever dropped. */
  ghost predicate Settled(stmts: seq<Stmt>, n: nat)
    requires n <= |stmts|
  {
    forall k :: k in ScanAt(stmts, n).pending ==> ScanAt(stmts, n).pending[k] !in Dead(stmts)
  }

  /** A reader of memory rescues every pending store. */
  lemma SettledAtClear(stmts: seq<Stmt>, n: nat)
    requires n < |stmts| && Clears(stmts[n].op)
    ensures Settled(stmts, n)
  {
    var sc := ScanAt(stmts, n);
    ScanIsOk(stmts, n);
    forall k | k in sc.pending ensures sc.pending[k] !in Dead(stmts) {
      if sc.pending[k] in Dead(stmts) {
        DeadLater(stmts, n + 1, |stmts|, sc.pending[k]);
        assert false;
      }
    }
  }

  lemma SettledAtEnd(stmts: seq<Stmt>)
    ensures Settled(stmts, |stmts|)
  {
    ScanIsOk(stmts, |stmts|);
  }

  // ------------------------------------------------------------------
  // ... in terms of the list alone.
  // ------------------------------------------------------------------

  /** The op can see what memory holds. */
  predicate Observes(op: Op) { op.LoadMem? || op.LoadMemTSO? || op.AtomicCmpxchg? || op.AtomicCmpxchgPair? }

  /** The op can make another thread see it. */
  predicate Orders(op: Op) { op.Fence? || op.StoreMemTSO? }

  /** Neither disturbs nor replaces a pending store with key `k`. */
  predicate PassesBy(s: Stmt, k: Key) {
    !Observes(s.op) && !Orders(s.op) && !(s.op.StoreMem? && Key(s.op.addr, s.op.size) == k)
  }

  ghost predicate Undisturbed(stmts: seq<Stmt>, i: nat, n: nat, k: Key)
    requires n <= |stmts|
  {
    forall j :: i < j < n ==> PassesBy(stmts[j], k)
  }

  /** The store at `i` with key `k`. */
  predicate StoreAt(stmts: seq<Stmt>, i: nat, k: Key) {
    i < |stmts| && stmts[i].op.StoreMem? && Key(stmts[i].op.addr, stmts[i].op.size) == k
  }

  /** The store at `j` covers the one at `i`: same address ref and size, nothing in between that reads
      memory, orders it or writes the same. */
  ghost predicate CoveredBy(stmts: seq<Stmt>, i: nat, j: nat) {
    && i < j < |stmts| && stmts[i].op.StoreMem?
    && StoreAt(stmts, j, Key(stmts[i].op.addr, stmts[i].op.size))
    && Undisturbed(stmts, i, j, Key(stmts[i].op.addr, stmts[i].op.size))
  }

  lemma {:induction false} PendingExact(stmts: seq<Stmt>, n: nat, k: Key, i: nat)
    requires n <= |stmts|
    ensures k in ScanAt(stmts, n).pending && ScanAt(stmts, n).pending[k] == i <==>
      i < n && StoreAt(stmts, i, k) && Undisturbed(stmts, i, n, k)
    decreases n
  {
    if n > 0 {
      PendingExact(stmts, n - 1, k, i);
      if i < n - 1 {
        assert Undisturbed(stmts, i, n, k) <==> Undisturbed(stmts, i, n - 1, k) && PassesBy(stmts[n - 1], k);
      }
    }
  }

  lemma DeadStep(stmts: seq<Stmt>, n: nat, i: nat)
    requires n < |stmts|
    ensures i in ScanAt(stmts, n + 1).dead <==> i in ScanAt(stmts, n).dead || CoveredBy(stmts, i, n)
  {
    if stmts[n].op.StoreMem? { PendingExact(stmts, n, Key(stmts[n].op.addr, stmts[n].op.size), i); }
  }

  /** The pass drops exactly the covered stores. */
  lemma {:induction false} DeadExact(stmts: seq<Stmt>, n: nat, i: nat)
    requires n <= |stmts|
    ensures i in ScanAt(stmts, n).dead <==> exists j :: 0 <= j < n && CoveredBy(stmts, i, j)
    decreases n
  {
    if n > 0 {
      DeadExact(stmts, n - 1, i);
      DeadStep(stmts, n - 1, i);
    }
  }

  /** Statement `n` is not between a store and the store that covers it. */
  ghost predicate Outside(stmts: seq<Stmt>, n: nat) {
    forall i: nat, j: nat :: CoveredBy(stmts, i, j) ==> !(i < n < j)
  }

  lemma OutsideIsSettled(stmts: seq<Stmt>, n: nat)
    requires n < |stmts| && Outside(stmts, n) && !stmts[n].op.StoreMem?
    ensures Settled(stmts, n)
  {
    var sc := ScanAt(stmts, n);
    forall k | k in sc.pending ensures sc.pending[k] !in Dead(stmts) {
      var i := sc.pending[k];
      PendingExact(stmts, n, k, i);
      DeadExact(stmts, |stmts|, i);
      ScanIsOk(stmts, n);
      if i in Dead(stmts) {
        var j: nat :| j < |stmts| && CoveredBy(stmts, i, j);
        PendingNotCovered(stmts, n, k, i, j);
        assert false;
      }
    }
  }

  lemma PendingNotCovered(stmts: seq<Stmt>, n: nat, k: Key, i: nat, j: nat)
    requires n < |stmts| && !stmts[n].op.StoreMem? && i < n && StoreAt(stmts, i, k) && Undisturbed(stmts, i, n, k)
    requires CoveredBy(stmts, i, j)
    ensures n < j
  {
    StoreBlocks(stmts, j, k);
  }

  lemma StoreBlocks(stmts: seq<Stmt>, j: nat, k: Key)
    requires StoreAt(stmts, j, k)
    ensures !PassesBy(stmts[j], k)
  {
  }

  // ------------------------------------------------------------------
  // Runs that do not leave in between.
  // ------------------------------------------------------------------

  /** The run from `st` leaves at statement `n`. */
  ghost predicate LeavesAt(stmts: seq<Stmt>, n: nat, st: State) {
    n < |stmts| && Run(stmts[..n], st).ctl.Running? && !Step(stmts[n], Run(stmts[..n], st)).ctl.Running?
  }

  /** It does not leave between a store and the store that covers it. */
  ghost predicate StraightRun(stmts: seq<Stmt>, st: State) {
    forall n: nat :: LeavesAt(stmts, n, st) ==> Outside(stmts, n)
  }

  /** Ops after which the rest of the list may not run. */
  predicate MayLeave(op: Op) {
    || op.WideDiv? || op.Jump? || op.CondJump? || op.Return? || op.JumpReg? || op.JumpRel?
    || op.CondJumpRel? || op.RepStos? || op.RepMovs?
  }

  lemma LeavingOps(s: Stmt, st: State)
    requires st.ctl.Running? && !Step(s, st).ctl.Running?
    ensures MayLeave(s.op)
  {
  }

  /** No statement that may leave is between a store and the store that covers it. */
  ghost predicate StraightLine(stmts: seq<Stmt>) {
    forall n: nat :: n < |stmts| && MayLeave(stmts[n].op) ==> Outside(stmts, n)
  }

  lemma StraightLineRuns(stmts: seq<Stmt>, st: State)
    requires StraightLine(stmts)
    ensures StraightRun(stmts, st)
  {
    forall n: nat | LeavesAt(stmts, n, st) ensures Outside(stmts, n) { LeavingOps(stmts[n], Run(stmts[..n], st)); }
  }

  /** In particular when nothing but the last statement can leave. */
  lemma NoExitsIsStraight(stmts: seq<Stmt>)
    requires forall n :: 0 <= n < |stmts| - 1 ==> !MayLeave(stmts[n].op)
    ensures StraightLine(stmts)
  {
  }

  // ------------------------------------------------------------------
  // The two runs side by side.
  // ------------------------------------------------------------------

  /** Some dropped store still pending would have written `x`. */
  ghost predicate Stale(pending: map<Key, nat>, dead: set<nat>, st: State, x: U64) {
    exists k :: k in pending && pending[k] in dead && Covers(st.Val(k.addr), Bytes(k.size), x)
  }

  ghost predicate MemOk(pending: map<Key, nat>, dead: set<nat>, st: State, m: Mem) {
    forall x: U64 {:trigger AgreeAt(st.mem, m, x)} :: AgreeAt(st.mem, m, x) || Stale(pending, dead, st, x)
  }

  ghost predicate Related(sc: Scan, dead: set<nat>, st: State, st': State) {
    && st' == st.(mem := st'.mem)
    && (if st.ctl.Running? then MemOk(sc.pending, dead, st, st'.mem) else st' == st)
  }

  ghost predicate Declared(pending: map<Key, nat>, c: Ctx) { forall k :: k in pending ==> k.addr in c }

  lemma {:induction false} PendingDeclared(stmts: seq<Stmt>, n: nat)
    requires n <= |stmts| && Valid(stmts)
    ensures Declared(ScanAt(stmts, n).pending, CtxAt(stmts, n))
    decreases n
  {
    if n > 0 {
      PendingDeclared(stmts, n - 1);
      assert OkAt(stmts, n - 1);
      DeclareKeys(CtxAt(stmts, n - 1), stmts[n - 1]);
      if stmts[n - 1].op.StoreMem? { assert stmts[n - 1].op.addr in Operands(stmts[n - 1].op); }
    }
  }

  /** When every pending store is kept the two states are the same. */
  lemma SettledSame(pending: map<Key, nat>, dead: set<nat>, st: State, st': State)
    requires st' == st.(mem := st'.mem) && MemOk(pending, dead, st, st'.mem)
    requires forall k :: k in pending ==> pending[k] !in dead
    ensures st' == st
  {
    forall x: U64 ensures AgreeAt(st.mem, st'.mem, x) { }
    SameMemory(st.mem, st'.mem);
  }

  /** A store both runs perform. */
  lemma KeptStore(pending: map<Key, nat>, dead: set<nat>, k: Key, i: nat, v: U64, st: State, m: Mem)
    requires MemOk(pending, dead, st, m)
    ensures MemOk(pending[k := i], dead, st.(mem := Store(st.mem, st.Val(k.addr), v, k.size)),
                  Store(m, st.Val(k.addr), v, k.size))
  {
    var a, n := st.Val(k.addr), Bytes(k.size);
    var st1 := st.(mem := Store(st.mem, a, v, k.size));
    var m1 := Store(m, a, v, k.size);
    forall x: U64 ensures AgreeAt(st1.mem, m1, x) || Stale(pending[k := i], dead, st1, x) {
      if Covers(a, n, x) || AgreeAt(st.mem, m, x) {
        StoreSame(st.mem, m, a, v, n, x);
      } else {
        var k' :| k' in pending && pending[k'] in dead && Covers(st.Val(k'.addr), Bytes(k'.size), x);
        assert k' != k && st1.Val(k'.addr) == st.Val(k'.addr);
        assert k' in pending[k := i] && pending[k := i][k'] in dead;
      }
    }
  }

  /** A store the second run skips. */
  lemma DroppedStore(pending: map<Key, nat>, dead: set<nat>, k: Key, i: nat, v: U64, st: State, m: Mem)
    requires MemOk(pending, dead, st, m) && i in dead
    ensures MemOk(pending[k := i], dead, st.(mem := Store(st.mem, st.Val(k.addr), v, k.size)), m)
  {
    var a, n := st.Val(k.addr), Bytes(k.size);
    var st1 := st.(mem := Store(st.mem, a, v, k.size));
    forall x: U64 ensures AgreeAt(st1.mem, m, x) || Stale(pending[k := i], dead, st1, x) {
      if Covers(a, n, x) {
        assert k in pending[k := i] && Covers(st1.Val(k.addr), n, x);
      } else if AgreeAt(st.mem, m, x) {
        StoreOutside(st.mem, a, v, n, x);
      } else {
        var k' :| k' in pending && pending[k'] in dead && Covers(st.Val(k'.addr), Bytes(k'.size), x);
        assert k' != k && st1.Val(k'.addr) == st.Val(k'.addr);
        assert k' in pending[k := i] && pending[k := i][k'] in dead;
      }
    }
  }

  /** Ops that do not touch memory. */
  predicate Quiet(op: Op) { !op.StoreMem? && !Clears(op) && !op.RepStos? && !op.RepMovs? }

  lemma JumpEffect(op: Op, st: State, m: Mem)
    requires Quiet(op) && MayLeave(op)
    ensures Effect(op, st.(mem := m)) == Effect(op, st).(mem := m)
    ensures Effect(op, st).mem == st.mem
  {
  }

  lemma StayEffect(op: Op, st: State, m: Mem)
    requires Quiet(op) && !MayLeave(op)
    ensures Effect(op, st.(mem := m)) == Effect(op, st).(mem := m)
    ensures Effect(op, st).mem == st.mem
  {
  }

  lemma QuietEffect(op: Op, st: State, m: Mem)
    requires Quiet(op)
    ensures Effect(op, st.(mem := m)) == Effect(op, st).(mem := m)
    ensures Effect(op, st).mem == st.mem
  {
    if MayLeave(op) { JumpEffect(op, st, m); } else { StayEffect(op, st, m); }
  }

  lemma QuietResult(op: Op, st: State, m: Mem)
    requires Quiet(op)
    ensures ResultOf(op, st.(mem := m)) == ResultOf(op, st)
  {
  }

  lemma QuietStep(s: Stmt, st: State, m: Mem)
    requires Quiet(s.op)
    ensures Step(s, st.(mem := m)) == Step(s, st).(mem := m)
    ensures Step(s, st).mem == st.mem
  {
    QuietEffect(s.op, st, m);
    QuietResult(s.op, st, m);
  }

  lemma QuietRelated(sc: Scan, dead: set<nat>, c: Ctx, s: Stmt, st: State, st': State)
    requires Quiet(s.op) && st.ctl.Running? && Step(s, st).ctl.Running? && Related(sc, dead, st, st')
    requires Declared(sc.pending, c) && DefsOk(c, s)
    ensures Related(sc, dead, Step(s, st), Step(s, st'))
  {
    QuietStep(s, st, st'.mem);
    var st1 := Step(s, st);
    forall x: U64 ensures AgreeAt(st1.mem, st'.mem, x) || Stale(sc.pending, dead, st1, x) {
      if !AgreeAt(st.mem, st'.mem, x) {
        var k :| k in sc.pending && sc.pending[k] in dead && Covers(st.Val(k.addr), Bytes(k.size), x);
        StepKeeps(s, st, k.addr);
        assert Covers(st1.Val(k.addr), Bytes(k.size), x);
      }
    }
  }

  /** The statement at `n`, run by both sides or by the first alone. */
  lemma StoreRelated(sc: Scan, dead: set<nat>, n: nat, s: Stmt, st: State, st': State)
    requires s.op.StoreMem? && s.result.None? && st.ctl.Running? && Related(sc, dead, st, st')
    ensures Related(Scanned(sc, s, n), dead, Step(s, st), if n in dead then st' else Step(s, st'))
  {
    var k := Key(s.op.addr, s.op.size);
    if n in dead {
      DroppedStore(sc.pending, dead, k, n, st.Val(s.op.src), st, st'.mem);
    } else {
      KeptStore(sc.pending, dead, k, n, st.Val(s.op.src), st, st'.mem);
    }
  }

  lemma SameRelated(sc: Scan, dead: set<nat>, st: State)
    ensures Related(sc, dead, st, st)
  {
  }

  lemma RepLeaves(s: Stmt, st: State)
    requires (s.op.RepStos? || s.op.RepMovs?) && st.ctl.Running?
    ensures !Step(s, st).ctl.Running?
  {
  }

  lemma StatementRelated(stmts: seq<Stmt>, n: nat, st: State, st': State)
    requires n < |stmts| && Valid(stmts) && Related(ScanAt(stmts, n), Dead(stmts), st, st')
    requires st.ctl.Running? && !Step(stmts[n], st).ctl.Running? ==> Outside(stmts, n)
    ensures Related(ScanAt(stmts, n + 1), Dead(stmts), Step(stmts[n], st),
                    if n in Dead(stmts) then st' else Step(stmts[n], st'))
  {
    var s, sc := stmts[n], ScanAt(stmts, n);
    assert OkAt(stmts, n);
    DeadIsStore(stmts, |stmts|, n);
    if !st.ctl.Running? {
      SameRelated(ScanAt(stmts, n + 1), Dead(stmts), st);
    } else if s.op.StoreMem? {
      StoreRelated(sc, Dead(stmts), n, s, st, st');
    } else if Quiet(s.op) && Step(s, st).ctl.Running? {
      PendingDeclared(stmts, n);
      QuietRelated(sc, Dead(stmts), CtxAt(stmts, n), s, st, st');
    } else {
      if Clears(s.op) { SettledAtClear(stmts, n); } else {
        if s.op.RepStos? || s.op.RepMovs? { RepLeaves(s, st); }
        OutsideIsSettled(stmts, n);
      }
      SettledSame(sc.pending, Dead(stmts), st, st');
      SameRelated(ScanAt(stmts, n + 1), Dead(stmts), Step(s, st));
    }
  }

  /** Only plain stores are dropped. */
  lemma {:induction false} DeadIsStore(stmts: seq<Stmt>, q: nat, i: nat)
    requires q <= |stmts|
    ensures i in ScanAt(stmts, q).dead ==> i < |stmts| && stmts[i].op.StoreMem?
    ensures i in ScanAt(stmts, q).pending.Values ==> i < |stmts| && stmts[i].op.StoreMem?
    decreases q
  {
    if q > 0 {
      DeadIsStore(stmts, q - 1, i);
      var sc, sc1 := ScanAt(stmts, q - 1), ScanAt(stmts, q);
      if i in sc1.pending.Values {
        var k :| k in sc1.pending && sc1.pending[k] == i;
        assert i == q - 1 || (k in sc.pending && sc.pending[k] == i);
      }
    }
  }

  lemma {:induction false} RunsRelated(stmts: seq<Stmt>, n: nat, st: State)
    requires n <= |stmts| && Valid(stmts) && StraightRun(stmts, st)
    ensures Related(ScanAt(stmts, n), Dead(stmts), Run(stmts[..n], st), Run(Remaining(stmts, Dead(stmts), n), st))
    decreases n
  {
    if n == 0 {
      SameRelated(ScanAt(stmts, 0), Dead(stmts), st);
    } else {
      RunsRelated(stmts, n - 1, st);
      RunTake(stmts, n, st);
      RunSnoc(Remaining(stmts, Dead(stmts), n - 1), stmts[n - 1], st);
      assert LeavesAt(stmts, n - 1, st) ==> Outside(stmts, n - 1);
      StatementRelated(stmts, n - 1, Run(stmts[..n - 1], st), Run(Remaining(stmts, Dead(stmts), n - 1), st));
    }
  }

  /** The whole final state is kept, whatever aliases whatever: memory, every
      loaded value, registers, flags and next PC. */
  lemma EliminatePreserves(stmts: seq<Stmt>, st: State)
    requires Valid(stmts) && StraightRun(stmts, st)
    ensures Run(Remaining(stmts, Dead(stmts), |stmts|), st) == Run(stmts, st)
  {
    RunsRelated(stmts, |stmts|, st);
    TakeAll(stmts);
    SettledAtEnd(stmts);
    var a, b := Run(stmts, st), Run(Remaining(stmts, Dead(stmts), |stmts|), st);
    if a.ctl.Running? { SettledSame(ScanAt(stmts, |stmts|).pending, Dead(stmts), a, b); }
  }

  /** So from every state, if nothing that may leave is in between. */
  lemma EliminateStraight(stmts: seq<Stmt>, st: State)
    requires Valid(stmts) && StraightLine(stmts)
    ensures Run(Remaining(stmts, Dead(stmts), |stmts|), st) == Run(stmts, st)
  {
    StraightLineRuns(stmts, st);
    EliminatePreserves(stmts, st);
  }

  // ------------------------------------------------------------------
  // Without that condition the pass is wrong.
  // ------------------------------------------------------------------

  /** A store, a division that traps, and the store that would have covered the
      first one. */
  function TrapBetween(): seq<Stmt> {
    [ Stmt(Some(1), Constant(0, I64)),
      Stmt(Some(2), Constant(7, I8)),
      Stmt(None, StoreMem(1, 2, I8)),
      Stmt(Some(3), WideDiv(1, 1, 1, false, Quotient)),
      Stmt(None, StoreMem(1, 2, I8)) ]
  }

  lemma TrapBetweenValid()
    ensures Valid(TrapBetween())
  {
    assert OkAt(TrapBetween(), 0);
    assert OkAt(TrapBetween(), 1);
    assert OkAt(TrapBetween(), 2);
    assert OkAt(TrapBetween(), 3);
    assert OkAt(TrapBetween(), 4);
  }

  lemma TrapBetweenScan()
    ensures Dead(TrapBetween()) == {2}
    ensures Remaining(TrapBetween(), {2}, 5) == [TrapBetween()[0], TrapBetween()[1], TrapBetween()[3], TrapBetween()[4]]
  {
    var l := TrapBetween();
    var k := Key(1, I8);
    assert ScanAt(l, 1) == Scan(map[], {});
    assert ScanAt(l, 2) == Scan(map[], {});
    assert ScanAt(l, 3) == Scan(map[k := 2], {});
    assert ScanAt(l, 4) == Scan(map[k := 2], {});
    assert ScanAt(l, 5) == Scan(map[k := 4], {2});
    assert Remaining(l, {2}, 2) == [l[0], l[1]];
    assert Remaining(l, {2}, 3) == [l[0], l[1]];
    assert Remaining(l, {2}, 4) == [l[0], l[1], l[3]];
  }

  lemma RunOf4(a: Stmt, b: Stmt, c: Stmt, d: Stmt, st: State)
    ensures Run([a, b, c, d], st) == Step(d, Step(c, Step(b, Step(a, st))))
  {
    RunAppend([a, b], [c, d], st);
    assert [a, b] + [c, d] == [a, b, c, d];
    RunSnoc([a], b, st);
    assert [a] + [b] == [a, b];
    RunSnoc([c], d, Run([a, b], st));
    assert [c] + [d] == [c, d];
  }

  lemma StoreSeven()
    ensures Store(map[], 0, 7, I8) == map[0 := 7]
  {
    assert StoreBytes(map[], 0, 7, 1) == StoreBytes(map[0 := 7], 1, 0, 0);
  }

  lemma BeforeTrap(st: State)
    requires st.ctl.Running? && st.mem == map[]
    ensures var st2 := Step(TrapBetween()[1], Step(TrapBetween()[0], st));
            st2.Val(1) == 0 && st2.Val(2) == 7 && st2.mem == map[] && st2.ctl.Running?
  {
  }

  /** With the first store in place it is what memory shows ... */
  lemma TrapKeepsStore(st: State)
    requires st.ctl.Running? && st.mem == map[]
    ensures Run(TrapBetween(), st).mem == map[0 := 7]
  {
    var l := TrapBetween();
    BeforeTrap(st);
    StoreSeven();
    RunOf4(l[0], l[1], l[2], l[3], st);
    assert l == [l[0], l[1], l[2], l[3]] + [l[4]];
    RunSnoc([l[0], l[1], l[2], l[3]], l[4], st);
  }

  /** ... and the trap keeps it from being covered, so dropping it shows. */
  lemma TrapShowsDrop(st: State)
    requires st.ctl.Running? && st.mem == map[]
    ensures Run(TrapBetween(), st).mem == map[0 := 7]
    ensures Run(Remaining(TrapBetween(), Dead(TrapBetween()), 5), st).mem == map[]
  {
    var l := TrapBetween();
    TrapKeepsStore(st);
    TrapBetweenScan();
    BeforeTrap(st);
    RunOf4(l[0], l[1], l[3], l[4], st);
  }
}
