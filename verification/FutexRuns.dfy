/** Safety of the futex wait table over every interleaving. */
module FutexRuns {
  import opened Words
  import opened Futex

  /** Performing the actions in turn is possible and leads from `s` to `s1`. */
  ghost predicate Runs(s: State, acts: seq<Action>, s1: State)
    decreases |acts|
  {
    if acts == [] then s1 == s
    else Enabled(s, acts[0]) && Runs(Next(s, acts[0]), acts[1..], s1)
  }

  lemma InitInv()
    ensures Inv(Init())
  {
    assert forall e: EntryId :: UserOk(Init(), e);
  }

  lemma {:induction false} RunInv(s: State, acts: seq<Action>, s1: State)
    requires Inv(s) && Runs(s, acts, s1)
    ensures Inv(s1)
    decreases |acts|
  {
    if acts != [] {
      StepInv(s, acts[0]);
      RunInv(Next(s, acts[0]), acts[1..], s1);
    }
  }

  ghost predicate ReachableState(s: State) { exists acts :: Runs(Init(), acts, s) }

  lemma ReachableInv(s: State)
    requires ReachableState(s)
    ensures Inv(s)
  {
    var acts :| Runs(Init(), acts, s);
    InitInv();
    RunInv(Init(), acts, s);
  }

  // ------------------------------------------------------------------
  // Conservation.
  // ------------------------------------------------------------------

  /** What `wake` calls have returned is what `wait` calls have consumed plus the
      credits outstanding. Before shutdown no counter exceeds the next and an
      entry is mapped exactly while it has users. */
  lemma Conservation(s: State)
    requires ReachableState(s)
    ensures s.granted == s.woken + SumCredits(s.heap)
    ensures !s.shuttingDown ==> forall e: EntryId :: e < |s.heap| ==>
      && s.heap[e].credits <= s.heap[e].waiters <= s.heap[e].users
      && (InTable(s, e) <==> s.heap[e].users > 0)
  {
    ReachableInv(s);
    if !s.shuttingDown {
      forall e: EntryId | e < |s.heap|
        ensures s.heap[e].credits <= s.heap[e].waiters <= s.heap[e].users
        ensures InTable(s, e) <==> s.heap[e].users > 0
      {
        RegisteredUses(s.threads, e);
        assert UserOk(s, e);
      }
    }
  }

  /** The unsigned counters never wrap: whoever is about to decrement `waiters` is
      counted in it, and whoever releases a mapped entry is counted in `users`. */
  lemma NoUnderflow(s: State, t: Tid)
    requires ReachableState(s) && !s.At(t).Idle?
    ensures s.At(t).e < |s.heap|
    ensures Enabled(s, Decide(t, true)) ==> s.heap[s.At(t).e].waiters > 0
    ensures Enabled(s, Release(t)) && InTable(s, s.At(t).e) ==> s.heap[s.At(t).e].users > 0
  {
    ReachableInv(s);
    if Enabled(s, Decide(t, true)) { RegisteredCounted(s, t); }
    if !s.cleared { UserCounted(s, t); }
  }

  // ------------------------------------------------------------------
  // No lost wake-up.
  // ------------------------------------------------------------------

  ghost predicate UsesAddress(s: State, t: Tid, a: U64) {
    !s.At(t).Idle? && s.At(t).e < |s.heap| && s.heap[s.At(t).e].addr == a
  }

  /** Two calls on one address work on one entry, the mapped one. */
  lemma OneEntryPerAddress(s: State, t: Tid, u: Tid, a: U64)
    requires ReachableState(s) && !s.cleared && UsesAddress(s, t, a) && UsesAddress(s, u, a)
    ensures a in s.table && s.At(t).e == s.At(u).e == s.table[a]
  {
    ReachableInv(s);
    UserCounted(s, t);
    UserCounted(s, u);
  }

  /** A `wake` that finds no entry has nobody to wake. */
  lemma MissedWake(s: State, t: Tid, a: U64)
    requires ReachableState(s) && !s.shuttingDown && a !in s.table
    ensures !UsesAddress(s, t, a)
  {
    ReachableInv(s);
    if UsesAddress(s, t, a) {
      UserCounted(s, t);
      assert false;
    }
  }

  /** A thread that has read the word of `a` and found its expected value there. */
  ghost predicate HasRead(s: State, t: Tid, a: U64) {
    && UsesAddress(s, t, a) && s.At(t).Wait?
    && (s.At(t).at.Matched? || s.At(t).at.Admitted? || s.At(t).at.Deciding? || s.At(t).at.Asleep?)
  }

  /** As many credits as registered waiters on every entry of the address. */
  ghost predicate Covered(s: State, a: U64) {
    forall e :: 0 <= e < |s.heap| && s.heap[e].addr == a ==> s.heap[e].credits == s.heap[e].waiters
  }

  lemma IdleEntry(s: State, e: EntryId)
    requires Inv(s) && !s.shuttingDown && e < |s.heap| && !InTable(s, e)
    ensures s.heap[e].waiters == 0 && s.heap[e].credits == 0
  {
    RegisteredUses(s.threads, e);
    assert UserOk(s, e);
  }

  /** A `wake` asking for at least all uncredited waiters covers the address, and
      at that moment everyone who has read the word is registered: nobody is
      between reading the old value and registering. */
  lemma CoveringWake(s: State, t: Tid, a: U64)
    requires ReachableState(s) && !s.shuttingDown && Enabled(s, Grant(t)) && UsesAddress(s, t, a)
    requires s.At(t).max >= Available(s.heap[s.At(t).e])
    ensures Covered(Next(s, Grant(t)), a)
    ensures forall u :: HasRead(s, u, a) ==> s.At(u).at.Asleep?
  {
    ReachableInv(s);
    UserCounted(s, t);
    var s1 := Next(s, Grant(t));
    forall e | 0 <= e < |s1.heap| && s1.heap[e].addr == a ensures s1.heap[e].credits == s1.heap[e].waiters {
      if e != s.At(t).e {
        assert !InTable(s, e);
        IdleEntry(s, e);
      }
    }
    forall u | HasRead(s, u, a) ensures s.At(u).at.Asleep? {
      UserCounted(s, u);
      HolderLock(s, t);
      if !s.At(u).at.Asleep? {
        HolderLock(s, u);
        assert false;
      }
    }
  }

  /** In a covered state a registered thread that gets the lock is woken. */
  lemma CoveredIsWoken(s: State, t: Tid, a: U64, expired: bool)
    requires ReachableState(s) && !s.shuttingDown && Covered(s, a) && UsesAddress(s, t, a)
    requires Enabled(s, Decide(t, expired))
    ensures Next(s, Decide(t, expired)).At(t).at == Leaving(Woken)
  {
    ReachableInv(s);
    RegisteredCounted(s, t);
  }

  ghost predicate RegistersAt(s: State, act: Action, a: U64) { act.Register? && UsesAddress(s, act.t, a) }

  /** Exactly one kind of step uncovers an address: a new registration on it. */
  lemma CoveredStep(s: State, act: Action, a: U64)
    requires Inv(s) && Enabled(s, act) && !s.shuttingDown && Covered(s, a)
    ensures Covered(Next(s, act), a) <==> !RegistersAt(s, act, a)
  {
    var s1 := Next(s, act);
    if RegistersAt(s, act, a) {
      var e := s.At(act.t).e;
      assert s1.heap[e].waiters == s.heap[e].waiters + 1 && s1.heap[e].addr == a;
    } else {
      forall e | 0 <= e < |s1.heap| && s1.heap[e].addr == a ensures s1.heap[e].credits == s1.heap[e].waiters {
        CoveredEntry(s, act, a, e);
      }
    }
  }

  lemma CoveredEntry(s: State, act: Action, a: U64, e: EntryId)
    requires Inv(s) && Enabled(s, act) && !s.shuttingDown && Covered(s, a) && !RegistersAt(s, act, a)
    requires e < |Next(s, act).heap| && Next(s, act).heap[e].addr == a
    ensures Next(s, act).heap[e].credits == Next(s, act).heap[e].waiters
  {
    match act
    case StartWait(_, _, _) => CoveredStart(s, act, a, e);
    case StartWake(_, _, _) => CoveredStart(s, act, a, e);
    case Release(t) => CoveredRelease(s, t, a, e);
    case Decide(t, x) => CoveredDecide(s, t, x, a, e);
    case Read(t) => CoveredRead(s, t, a, e);
    case Grant(t) => CoveredGrant(s, t, a, e);
    case _ =>
  }

  lemma CoveredDecide(s: State, t: Tid, expired: bool, a: U64, e: EntryId)
    requires Inv(s) && Enabled(s, Decide(t, expired)) && !s.shuttingDown && Covered(s, a)
    requires e < |s.heap| && Next(s, Decide(t, expired)).heap[e].addr == a
    ensures Next(s, Decide(t, expired)).heap[e].credits == Next(s, Decide(t, expired)).heap[e].waiters
  {
    RegisteredCounted(s, t);
  }

  lemma CoveredRead(s: State, t: Tid, a: U64, e: EntryId)
    requires Enabled(s, Read(t)) && Covered(s, a) && e < |s.heap| && Next(s, Read(t)).heap[e].addr == a
    ensures Next(s, Read(t)).heap[e].credits == Next(s, Read(t)).heap[e].waiters
  {
  }

  lemma CoveredGrant(s: State, t: Tid, a: U64, e: EntryId)
    requires Enabled(s, Grant(t)) && Covered(s, a) && e < |s.heap| && Next(s, Grant(t)).heap[e].addr == a
    ensures Next(s, Grant(t)).heap[e].credits == Next(s, Grant(t)).heap[e].waiters
  {
  }

  lemma CoveredRelease(s: State, t: Tid, a: U64, e: EntryId)
    requires Inv(s) && Enabled(s, Release(t)) && Covered(s, a)
    requires e < |Next(s, Release(t)).heap| && Next(s, Release(t)).heap[e].addr == a
    ensures Next(s, Release(t)).heap[e].credits == Next(s, Release(t)).heap[e].waiters
  {
  }

  lemma CoveredStart(s: State, act: Action, a: U64, e: EntryId)
    requires Inv(s) && Enabled(s, act) && Covered(s, a) && (act.StartWait? || act.StartWake?)
    requires e < |Next(s, act).heap| && Next(s, act).heap[e].addr == a
    ensures Next(s, act).heap[e].credits == Next(s, act).heap[e].waiters
  {
  }

  /** Over any run without a new registration on the address and without
      shutdown, everyone registered there stays covered. */
  ghost predicate QuietRun(s: State, acts: seq<Action>, a: U64)
    decreases |acts|
  {
    acts == [] ||
    (Enabled(s, acts[0]) && !RegistersAt(s, acts[0], a) && !acts[0].BeginShutdown?
     && QuietRun(Next(s, acts[0]), acts[1..], a))
  }

  lemma {:induction false} CoveredRun(s: State, acts: seq<Action>, s1: State, a: U64)
    requires Inv(s) && !s.shuttingDown && Covered(s, a) && Runs(s, acts, s1) && QuietRun(s, acts, a)
    ensures Covered(s1, a) && !s1.shuttingDown
    decreases |acts|
  {
    if acts != [] {
      CoveredStep(s, acts[0], a);
      StepInv(s, acts[0]);
      CoveredRun(Next(s, acts[0]), acts[1..], s1, a);
    }
  }

  // ------------------------------------------------------------------
  // What the word has to do with it.
  // ------------------------------------------------------------------

  /** The word of `a` is not `v`, or cannot be read. */
  predicate WordDiffers(s: State, a: U64, v: U32) { a in s.words ==> s.words[a] != v }

  /** `u` has found `v` in the word of `a` and is not registered yet. */
  ghost predicate Pending(s: State, u: Tid, a: U64, v: U32) {
    UsesAddress(s, u, a) && s.At(u).Wait? && s.At(u).expected == v && (s.At(u).at.Matched? || s.At(u).at.Admitted?)
  }

  ghost predicate NonePending(s: State, a: U64, v: U32) { forall u :: !Pending(s, u, a, v) }

  /** After a covering wake nobody is. */
  lemma WakeLeavesNonePending(s: State, t: Tid, a: U64, v: U32)
    requires ReachableState(s) && !s.shuttingDown && Enabled(s, Grant(t)) && UsesAddress(s, t, a)
    requires s.At(t).max >= Available(s.heap[s.At(t).e])
    ensures NonePending(Next(s, Grant(t)), a, v)
  {
    CoveringWake(s, t, a);
    var s1 := Next(s, Grant(t));
    forall u ensures !Pending(s1, u, a, v) { if u != t { assert s1.At(u) == s.At(u); } }
  }

  ghost predicate SameAddress(s: State, s1: State, e: EntryId) {
    e < |s.heap| && e < |s1.heap| && s1.heap[e].addr == s.heap[e].addr
  }

  lemma AcquireKeeps(s: State, a: U64, create: bool, e: EntryId)
    requires e < |s.heap|
    ensures SameAddress(s, Acquire(s, a, create).0, e)
  {
  }

  /** Entries keep their address. */
  lemma AddressKept(s: State, act: Action, e: EntryId)
    requires Enabled(s, act) && e < |s.heap|
    ensures SameAddress(s, Next(s, act), e)
  {
    match act
    case StartWait(_, a, _) => AcquireKeeps(s, a, true, e);
    case StartWake(_, a, _) => AcquireKeeps(s, a, false, e);
    case Release(t) => ReleasedEntry(s, s.At(t).e);
    case Read(t) => ReadKeeps(s, t, e);
    case Decide(t, x) => DecideKeeps(s, t, x, e);
    case _ =>
  }

  lemma ReadKeeps(s: State, t: Tid, e: EntryId)
    requires Enabled(s, Read(t)) && e < |s.heap|
    ensures SameAddress(s, Next(s, Read(t)), e)
  {
  }

  lemma DecideKeeps(s: State, t: Tid, x: bool, e: EntryId)
    requires Enabled(s, Decide(t, x)) && e < |s.heap|
    ensures SameAddress(s, Next(s, Decide(t, x)), e)
  {
  }

  /** Threads other than the one that acts stay where they are. */
  lemma OthersStay(s: State, act: Action, u: Tid)
    requires Enabled(s, act) && (act.StoreWord? || act.BeginShutdown? || act.ClearTable? || act.t != u)
    ensures Next(s, act).At(u) == s.At(u)
  {
  }

  lemma PendingBefore(s: State, act: Action, u: Tid, a: U64, v: U32)
    requires Inv(s) && Enabled(s, act) && WordDiffers(s, a, v) && Pending(Next(s, act), u, a, v)
    ensures Pending(s, u, a, v)
  {
    var s1 := Next(s, act);
    if act.StoreWord? || act.BeginShutdown? || act.ClearTable? || act.t != u {
      OthersStay(s, act, u);
      assert u in s.threads && !s.threads[u].Idle?;
      AddressKept(s, act, s.At(u).e);
    } else {
      ActorPending(s, act, a, v);
    }
  }

  lemma ActorPending(s: State, act: Action, a: U64, v: U32)
    requires Inv(s) && Enabled(s, act) && WordDiffers(s, a, v)
    requires !act.StoreWord? && !act.BeginShutdown? && !act.ClearTable? && Pending(Next(s, act), act.t, a, v)
    ensures Pending(s, act.t, a, v)
  {
    if act.Admit? || act.Read? { AddressKept(s, act, s.At(act.t).e); } else { NotPending(s, act); }
  }

  /** Only reading and admission lead to those two points. */
  lemma NotPending(s: State, act: Action)
    requires Enabled(s, act) && !act.Admit? && !act.Read?
    requires !act.StoreWord? && !act.BeginShutdown? && !act.ClearTable?
    ensures var pc := Next(s, act).At(act.t); pc.Wait? ==> !pc.at.Matched? && !pc.at.Admitted?
  {
  }

  /** Only waits for `v` are started on `a`, and nobody shuts down. */
  predicate Orderly(act: Action, a: U64, v: U32) {
    !act.BeginShutdown? && (act.StartWait? && act.a == a ==> act.expected == v)
  }

  /** A run throughout which the word of `a` differs from `v`. */
  ghost predicate Away(s: State, acts: seq<Action>, a: U64, v: U32)
    decreases |acts|
  {
    acts == [] || (Enabled(s, acts[0]) && WordDiffers(s, a, v) && Away(Next(s, acts[0]), acts[1..], a, v))
  }

  ghost predicate RegistersFor(s: State, act: Action, a: U64, v: U32) {
    RegistersAt(s, act, a) && s.At(act.t).Wait? && s.At(act.t).expected == v
  }

  ghost predicate NoneRegisters(s: State, acts: seq<Action>, a: U64, v: U32)
    decreases |acts|
  {
    acts == [] ||
    (Enabled(s, acts[0]) && !RegistersFor(s, acts[0], a, v) && NoneRegisters(Next(s, acts[0]), acts[1..], a, v))
  }

  /** As long as the word differs from `v`, no thread that expects `v` registers. */
  lemma {:induction false} AwayNoneRegisters(s: State, acts: seq<Action>, s1: State, a: U64, v: U32)
    requires Inv(s) && NonePending(s, a, v) && Runs(s, acts, s1) && Away(s, acts, a, v)
    ensures NoneRegisters(s, acts, a, v) && NonePending(s1, a, v)
    decreases |acts|
  {
    if acts != [] {
      var act := acts[0];
      assert RegistersFor(s, act, a, v) ==> Pending(s, act.t, a, v);
      forall u ensures !Pending(Next(s, act), u, a, v) {
        if Pending(Next(s, act), u, a, v) { PendingBefore(s, act, u, a, v); }
      }
      StepInv(s, act);
      AwayNoneRegisters(Next(s, act), acts[1..], s1, a, v);
    }
  }

  /** Every wait on `a` expects `v`. */
  ghost predicate AllExpect(s: State, a: U64, v: U32) {
    forall u :: UsesAddress(s, u, a) && s.At(u).Wait? ==> s.At(u).expected == v
  }

  lemma ExpectKept(s: State, act: Action, a: U64, v: U32, u: Tid)
    requires Inv(s) && Enabled(s, act) && AllExpect(s, a, v)
    requires act.StoreWord? || act.BeginShutdown? || act.ClearTable? || act.t != u
    ensures UsesAddress(Next(s, act), u, a) && Next(s, act).At(u).Wait? ==> Next(s, act).At(u).expected == v
  {
    OthersStay(s, act, u);
    if !s.At(u).Idle? {
      assert u in s.threads && !s.threads[u].Idle?;
      AddressKept(s, act, s.At(u).e);
    }
  }

  lemma OwnExpectKept(s: State, act: Action, a: U64, v: U32)
    requires Inv(s) && Enabled(s, act) && AllExpect(s, a, v) && Orderly(act, a, v)
    requires !act.StoreWord? && !act.BeginShutdown? && !act.ClearTable?
    ensures UsesAddress(Next(s, act), act.t, a) && Next(s, act).At(act.t).Wait? ==>
      Next(s, act).At(act.t).expected == v
  {
    if UsesAddress(Next(s, act), act.t, a) && Next(s, act).At(act.t).Wait? {
      if act.StartWait? { StartedAt(s, act, a); } else { AddressKept(s, act, s.At(act.t).e); }
    }
  }

  lemma AllExpectStep(s: State, act: Action, a: U64, v: U32)
    requires Inv(s) && Enabled(s, act) && AllExpect(s, a, v) && Orderly(act, a, v)
    ensures AllExpect(Next(s, act), a, v)
  {
    var s1 := Next(s, act);
    forall u | UsesAddress(s1, u, a) && s1.At(u).Wait? ensures s1.At(u).expected == v {
      if act.StoreWord? || act.BeginShutdown? || act.ClearTable? || act.t != u {
        ExpectKept(s, act, a, v, u);
      } else {
        OwnExpectKept(s, act, a, v);
      }
    }
  }

  lemma StartedAt(s: State, act: Action, a: U64)
    requires Inv(s) && Enabled(s, act) && act.StartWait? && UsesAddress(Next(s, act), act.t, a)
    ensures act.a == a && Next(s, act).At(act.t).Wait? && Next(s, act).At(act.t).expected == act.expected
  {
  }

  /** So if all waits on the address are for one value, a covering wake keeps everyone registered
      there covered for as long as the word differs from that value. */
  lemma {:induction false} CoveredWhileAway(s: State, acts: seq<Action>, s1: State, a: U64, v: U32)
    requires Inv(s) && !s.shuttingDown && Covered(s, a) && NonePending(s, a, v) && AllExpect(s, a, v)
    requires Runs(s, acts, s1) && Away(s, acts, a, v) && forall i :: 0 <= i < |acts| ==> Orderly(acts[i], a, v)
    ensures Covered(s1, a) && !s1.shuttingDown
    decreases |acts|
  {
    if acts != [] {
      var act := acts[0];
      assert RegistersAt(s, act, a) ==> Pending(s, act.t, a, v);
      CoveredStep(s, act, a);
      forall u ensures !Pending(Next(s, act), u, a, v) {
        if Pending(Next(s, act), u, a, v) { PendingBefore(s, act, u, a, v); }
      }
      AllExpectStep(s, act, a, v);
      StepInv(s, act);
      CoveredWhileAway(Next(s, act), acts[1..], s1, a, v);
    }
  }

  // ------------------------------------------------------------------
  // The limit of the guarantee: credits are not addressed to anyone.
  // ------------------------------------------------------------------

  /** A waiter that registers after a covering wake may take the credit meant for
      one that was registered before it, which then sleeps on uncovered. */
  lemma CreditStolen(s: State, early: Tid, late: Tid, a: U64)
    requires Inv(s) && !s.shuttingDown && Covered(s, a)
    requires UsesAddress(s, early, a) && s.At(early).Wait? && s.At(early).at.Asleep?
    requires UsesAddress(s, late, a) && s.At(late).Wait? && s.At(late).at.Admitted?
    ensures var s1 := Next(s, Register(late));
            var s2 := Next(s1, Decide(late, false));
            && s2.At(late).at == Leaving(Woken) && s2.At(early) == s.At(early)
            && s2.heap[s.At(early).e].credits < s2.heap[s.At(early).e].waiters
  {
    UserCounted(s, early);
    UserCounted(s, late);
    RegisteredCounted(s, early);
  }

  function OneEntry(users: nat, waiters: nat, credits: nat, lock: Option<Tid>): seq<Entry> {
    [Entry(0, users, waiters, credits, lock)]
  }

  function Snapshot(threads: map<Tid, Pc>, heap: seq<Entry>, word: U32, granted: nat): State {
    State(threads, heap, map[0 := 0], map[0 := word], false, false, granted, 0)
  }

  lemma {:induction false} RunsSnoc(s: State, acts: seq<Action>, s1: State, act: Action)
    requires Runs(s, acts, s1) && Enabled(s1, act)
    ensures Runs(s, acts + [act], Next(s1, act))
    decreases |acts|
  {
    if acts != [] {
      assert (acts + [act])[1..] == acts[1..] + [act];
      RunsSnoc(Next(s, acts[0]), acts[1..], s1, act);
    }
  }

  lemma Go(s: State, act: Action, s1: State)
    requires ReachableState(s) && Enabled(s, act) && s1 == Next(s, act)
    ensures ReachableState(s1)
  {
    var acts :| Runs(Init(), acts, s);
    RunsSnoc(Init(), acts, s, act);
  }

  lemma EarlyArrives()
    ensures ReachableState(Snapshot(map[0 := Wait(0, 0, Holding)], OneEntry(1, 0, 0, Some(0)), 0, 0))
  {
    assert Runs(Init(), [], Init());
    var s1 := Next(Init(), StoreWord(0, Some(0)));
    Go(Init(), StoreWord(0, Some(0)), s1);
    var s2 := Snapshot(map[0 := Wait(0, 0, Fresh)], OneEntry(1, 0, 0, None), 0, 0);
    Go(s1, StartWait(0, 0, 0), s2);
    Go(s2, Lock(0), Snapshot(map[0 := Wait(0, 0, Holding)], OneEntry(1, 0, 0, Some(0)), 0, 0));
  }

  lemma EarlyRegisters()
    ensures ReachableState(Snapshot(map[0 := Wait(0, 0, Deciding)], OneEntry(1, 1, 0, Some(0)), 0, 0))
  {
    EarlyArrives();
    var heap := OneEntry(1, 0, 0, Some(0));
    var s1 := Snapshot(map[0 := Wait(0, 0, Holding)], heap, 0, 0);
    var s2 := Snapshot(map[0 := Wait(0, 0, Matched)], heap, 0, 0);
    var s3 := Snapshot(map[0 := Wait(0, 0, Admitted)], heap, 0, 0);
    Go(s1, Read(0), s2);
    Go(s2, Admit(0), s3);
    Go(s3, Register(0), Snapshot(map[0 := Wait(0, 0, Deciding)], OneEntry(1, 1, 0, Some(0)), 0, 0));
  }

  /** Thread 0 sleeps on value 0; the word becomes 1 and thread 2 arrives to wake. */
  lemma WakerArrives()
    ensures ReachableState(Snapshot(map[0 := Wait(0, 0, Asleep), 2 := Wake(0, 1, Approaching)],
                                    OneEntry(2, 1, 0, None), 1, 0))
  {
    EarlyRegisters();
    var s1 := Snapshot(map[0 := Wait(0, 0, Deciding)], OneEntry(1, 1, 0, Some(0)), 0, 0);
    var s2 := Snapshot(map[0 := Wait(0, 0, Asleep)], OneEntry(1, 1, 0, None), 0, 0);
    var s3 := Snapshot(map[0 := Wait(0, 0, Asleep)], OneEntry(1, 1, 0, None), 1, 0);
    Go(s1, Decide(0, false), s2);
    Go(s2, StoreWord(0, Some(1)), s3);
    Go(s3, StartWake(2, 0, 1),
       Snapshot(map[0 := Wait(0, 0, Asleep), 2 := Wake(0, 1, Approaching)], OneEntry(2, 1, 0, None), 1, 0));
  }

  function After2(late: Pc): map<Tid, Pc> { map[0 := Wait(0, 0, Asleep), 2 := Wake(0, 1, Returning(1)), 1 := late] }

  /** The wake covers thread 0, then thread 1 starts to wait on value 1. */
  lemma LateArrives()
    ensures ReachableState(Snapshot(After2(Wait(0, 1, Fresh)), OneEntry(3, 1, 1, None), 1, 1))
  {
    WakerArrives();
    var s1 := Snapshot(map[0 := Wait(0, 0, Asleep), 2 := Wake(0, 1, Approaching)], OneEntry(2, 1, 0, None), 1, 0);
    var s2 := Snapshot(map[0 := Wait(0, 0, Asleep), 2 := Wake(0, 1, Granting)], OneEntry(2, 1, 0, Some(2)), 1, 0);
    var s3 := Snapshot(map[0 := Wait(0, 0, Asleep), 2 := Wake(0, 1, Returning(1))], OneEntry(2, 1, 1, None), 1, 1);
    Go(s1, Lock(2), s2);
    Go(s2, Grant(2), s3);
    Go(s3, StartWait(1, 0, 1), Snapshot(After2(Wait(0, 1, Fresh)), OneEntry(3, 1, 1, None), 1, 1));
  }

  lemma LateReads()
    ensures ReachableState(Snapshot(After2(Wait(0, 1, Matched)), OneEntry(3, 1, 1, Some(1)), 1, 1))
  {
    LateArrives();
    var heap := OneEntry(3, 1, 1, Some(1));
    var s1 := Snapshot(After2(Wait(0, 1, Fresh)), OneEntry(3, 1, 1, None), 1, 1);
    var s2 := Snapshot(After2(Wait(0, 1, Holding)), heap, 1, 1);
    Go(s1, Lock(1), s2);
    Go(s2, Read(1), Snapshot(After2(Wait(0, 1, Matched)), heap, 1, 1));
  }

  /** Such a theft can happen: in this reachable state the covered thread 0 is
      about to lose its credit to thread 1. */
  lemma TheftIsReachable() returns (s: State)
    ensures ReachableState(s) && !s.shuttingDown && Covered(s, 0)
    ensures UsesAddress(s, 0, 0) && s.At(0) == Wait(0, 0, Asleep)
    ensures UsesAddress(s, 1, 0) && s.At(1) == Wait(0, 1, Admitted)
  {
    LateReads();
    var heap := OneEntry(3, 1, 1, Some(1));
    s := Snapshot(After2(Wait(0, 1, Admitted)), heap, 1, 1);
    Go(Snapshot(After2(Wait(0, 1, Matched)), heap, 1, 1), Admit(1), s);
  }
}
