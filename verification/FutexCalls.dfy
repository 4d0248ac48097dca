/** What the calls on the futex wait table report: how many a wake counts, why a wait
    ends, and which calls end before they touch the table. */
module FutexCalls {
  import opened Words
  import opened Futex
  import opened FutexRuns

  // ------------------------------------------------------------------
  // Wake.
  // ------------------------------------------------------------------

  /** Registered waiters of the entry that no credit is meant for yet. */
  ghost function Uncredited(s: State, e: EntryId): int
    requires e < |s.heap|
  {
    Count(Registered, s.threads, e) - s.heap[e].credits
  }

  /** A wake hands out what it reports. It reports as many as it was asked for, or every
      registered waiter of the address has a credit afterwards; never more than either. */
  lemma WakeExact(s: State, t: Tid, a: U64)
    requires ReachableState(s) && !s.shuttingDown && Enabled(s, Grant(t)) && UsesAddress(s, t, a)
    ensures var s1, e := Next(s, Grant(t)), s.At(t).e;
            && s1.At(t).Wake? && s1.At(t).point.Returning?
            && var n := s1.At(t).point.count;
            && n <= s.At(t).max && n <= Uncredited(s, e)
            && (n == s.At(t).max || Covered(s1, a))
            && s1.heap[e].credits == s.heap[e].credits + n && s1.granted == s.granted + n
            && Uncredited(s1, e) == Uncredited(s, e) - n
  {
    ReachableInv(s);
    var e := s.At(t).e;
    var s1 := Next(s, Grant(t));
    CountMove(Registered, s.threads, t, s1.At(t), e);
    if s.At(t).max >= Available(s.heap[e]) { CoveringWake(s, t, a); }
  }

  /** So a wake that asks for somebody while somebody waits uncredited wakes somebody. */
  lemma WakeWakes(s: State, t: Tid, a: U64)
    requires ReachableState(s) && !s.shuttingDown && Enabled(s, Grant(t)) && UsesAddress(s, t, a)
    requires s.At(t).max > 0 && Uncredited(s, s.At(t).e) > 0
    ensures Next(s, Grant(t)).At(t).point.Returning? && Next(s, Grant(t)).At(t).point.count > 0
  {
    WakeExact(s, t, a);
    ReachableInv(s);
    StepInv(s, Grant(t));
    var s1, e := Next(s, Grant(t)), s.At(t).e;
    assert Covered(s1, a) ==> s1.heap[e].credits == s1.heap[e].waiters;
  }

  // ------------------------------------------------------------------
  // Wait.
  // ------------------------------------------------------------------

  /** The step at which a waiting thread is done, and why. */
  predicate Ends(s: State, act: Action, t: Tid, w: Status)
    requires s.At(t).Wait? && s.At(t).e < |s.heap|
  {
    var x, v := s.heap[s.At(t).e], s.At(t).expected;
    match w
    case InvalidAddress => act == Read(t) && x.addr !in s.words
    case ValueMismatch => act == Read(t) && x.addr in s.words && s.words[x.addr] != v
    case Woken => act.Decide? && act.t == t && !s.shuttingDown && x.credits > 0
    case TimedOut => act == Decide(t, true) && !s.shuttingDown && x.credits == 0
    case Shutdown => s.shuttingDown && (act == Admit(t) || (act.Decide? && act.t == t))
  }

  lemma WaitEnds(s: State, act: Action, t: Tid, w: Status)
    requires Inv(s) && Enabled(s, act) && s.At(t).Wait? && !s.At(t).at.Leaving?
    ensures s.At(t).e < |s.heap|
    ensures Next(s, act).At(t).Wait? && Next(s, act).At(t).at == Leaving(w) <==> Ends(s, act, t, w)
  {
    assert t in s.threads && !s.threads[t].Idle?;
    if act.StoreWord? || act.BeginShutdown? || act.ClearTable? || act.t != t {
      OthersStay(s, act, t);
    } else {
      OwnStep(s, act, w);
    }
  }

  lemma OwnStep(s: State, act: Action, w: Status)
    requires Inv(s) && Enabled(s, act) && !act.StoreWord? && !act.BeginShutdown? && !act.ClearTable?
    requires s.At(act.t).Wait? && !s.At(act.t).at.Leaving? && s.At(act.t).e < |s.heap|
    ensures Next(s, act).At(act.t).Wait? && Next(s, act).At(act.t).at == Leaving(w) <==> Ends(s, act, act.t, w)
  {
    match act
    case Read(t) => ReadEnds(s, t, w);
    case Decide(t, x) => DecideEnds(s, t, x, w);
    case _ =>
  }

  lemma ReadEnds(s: State, t: Tid, w: Status)
    requires Enabled(s, Read(t))
    ensures Next(s, Read(t)).At(t).at == Leaving(w) <==> Ends(s, Read(t), t, w)
  {
  }

  lemma DecideEnds(s: State, t: Tid, x: bool, w: Status)
    requires Enabled(s, Decide(t, x))
    ensures Next(s, Decide(t, x)).At(t).at == Leaving(w) <==> Ends(s, Decide(t, x), t, w)
  {
  }

  // ------------------------------------------------------------------
  // Calls that end at once.
  // ------------------------------------------------------------------

  /** A wait is turned away exactly at a misaligned address or during shutdown, a wake
      exactly if it asks for nobody, finds nobody or comes during shutdown. */
  lemma TurnedAway(s: State, t: Tid, a: U64, v: U32, max: nat)
    requires Inv(s) && s.At(t).Idle?
    ensures Next(s, StartWait(t, a, v)).At(t).Idle? <==> a % 4 != 0 || s.shuttingDown
    ensures Next(s, StartWake(t, a, max)).At(t).Idle? <==> max == 0 || s.shuttingDown || a !in s.table
    ensures Next(s, StartWait(t, a, v)).At(t).Idle? ==> Next(s, StartWait(t, a, v)) == s
    ensures Next(s, StartWake(t, a, max)).At(t).Idle? ==> Next(s, StartWake(t, a, max)) == s
  {
  }

  /** All entries are at aligned addresses. */
  ghost predicate Aligned(s: State) { forall e :: 0 <= e < |s.heap| ==> s.heap[e].addr % 4 == 0 }

  lemma AlignedStep(s: State, act: Action)
    requires Enabled(s, act) && Aligned(s)
    ensures Aligned(Next(s, act))
  {
    var s1 := Next(s, act);
    forall e | 0 <= e < |s1.heap| ensures s1.heap[e].addr % 4 == 0 {
      if e < |s.heap| { AddressKept(s, act, e); } else { NewEntry(s, act); }
    }
  }

  lemma NewEntry(s: State, act: Action)
    requires Enabled(s, act) && |Next(s, act).heap| > |s.heap|
    ensures act.StartWait? && act.a % 4 == 0 && |Next(s, act).heap| == |s.heap| + 1
    ensures Next(s, act).heap[|s.heap|].addr == act.a
  {
    if act.Release? { ReleasedEntry(s, s.At(act.t).e); }
  }

  lemma {:induction false} AlignedRun(s: State, acts: seq<Action>, s1: State)
    requires Aligned(s) && Runs(s, acts, s1)
    ensures Aligned(s1)
    decreases |acts|
  {
    if acts != [] {
      AlignedStep(s, acts[0]);
      AlignedRun(Next(s, acts[0]), acts[1..], s1);
    }
  }

  lemma ReachableAligned(s: State)
    requires ReachableState(s)
    ensures Aligned(s)
  {
    var acts :| Runs(Init(), acts, s);
    AlignedRun(Init(), acts, s);
  }
}
