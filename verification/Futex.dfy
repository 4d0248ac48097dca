/** The futex wait table as a step system. Any number of threads run `wait`,
    `wake` and `shutdown` against each other and against guest stores; one step
    is one critical section, one atomic access or one decision under a lock. */
module Futex {
  import opened Words

  type Tid = nat
  type EntryId = nat

  datatype Status = Woken | ValueMismatch | TimedOut | InvalidAddress | Shutdown

  /** Progress of a `wait` call after it has acquired its entry. */
  datatype WaitPoint =
    | Fresh                    // before the entry lock
    | Holding                  // lock held, word not read yet
    | Matched                  // lock held, word read and equal
    | Admitted                 // lock held, not shutting down
    | Deciding                 // lock held, registered
    | Asleep                   // registered, lock given up to the condition variable
    | Leaving(status: Status)  // lock released, entry still in use

  datatype WakePoint = Approaching | Granting | Returning(count: nat)

  datatype Pc =
    | Idle
    | Wait(e: EntryId, expected: U32, at: WaitPoint)
    | Wake(e: EntryId, max: nat, point: WakePoint)

  datatype Entry = Entry(addr: U64, users: nat, waiters: nat, credits: nat, lock: Option<Tid>)

  /** `granted` and `woken` count what `wake` calls return and how many `wait`
      calls end in `Woken`. */
  datatype State = State(
    threads: map<Tid, Pc>,
    heap: seq<Entry>,
    table: map<U64, EntryId>,
    words: map<U64, U32>,
    shuttingDown: bool,
    cleared: bool,
    granted: nat,
    woken: nat)
  {
    function At(t: Tid): Pc { if t in threads then threads[t] else Idle }
  }

  datatype Action =
    | StartWait(t: Tid, a: U64, expected: U32)
    | StartWake(t: Tid, a: U64, max: nat)
    | Lock(t: Tid)
    | Read(t: Tid)
    | Admit(t: Tid)
    | Register(t: Tid)
    | Decide(t: Tid, expired: bool)
    | Grant(t: Tid)
    | Release(t: Tid)
    | StoreWord(a: U64, v: Option<U32>)
    | BeginShutdown
    | ClearTable

  // ------------------------------------------------------------------
  // What a thread is doing to an entry.
  // ------------------------------------------------------------------

  datatype Role = Uses | Registered | Holds

  predicate Plays(role: Role, pc: Pc, e: EntryId) {
    match pc
    case Idle => false
    case Wait(e', _, at) =>
      e' == e && (match role
                  case Uses => true
                  case Registered => at.Deciding? || at.Asleep?
                  case Holds => at.Holding? || at.Matched? || at.Admitted? || at.Deciding?)
    case Wake(e', _, at) =>
      e' == e && (match role
                  case Uses => true
                  case Registered => false
                  case Holds => at.Granting?)
  }

  function Players(role: Role, threads: map<Tid, Pc>, e: EntryId): set<Tid> {
    set t | t in threads && Plays(role, threads[t], e)
  }

  function Count(role: Role, threads: map<Tid, Pc>, e: EntryId): nat { |Players(role, threads, e)| }

  function Bit(b: bool): nat { if b then 1 else 0 }

  // ------------------------------------------------------------------
  // Steps.
  // ------------------------------------------------------------------

  function Init(): State { State(map[], [], map[], map[], false, false, 0, 0) }

  function SetPc(s: State, t: Tid, pc: Pc): State { s.(threads := s.threads[t := pc]) }

  function SetEntry(s: State, e: EntryId, x: Entry): State
    requires e < |s.heap|
  {
    s.(heap := s.heap[e := x])
  }

  function Moved(s: State, t: Tid, pc: Pc, e: EntryId, x: Entry): State
    requires e < |s.heap|
  {
    SetPc(SetEntry(s, e, x), t, pc)
  }

  /** Thread `t` moves to `pc`, its entry becomes `x`, the counters as given. */
  function Advance(s: State, t: Tid, pc: Pc, x: Entry, granted: nat, woken: nat): State
    requires !pc.Idle? && pc.e < |s.heap|
  {
    Moved(s, t, pc, pc.e, x).(granted := granted, woken := woken)
  }

  predicate Enabled(s: State, a: Action) {
    match a
    case StartWait(t, _, _) => s.At(t).Idle?
    case StartWake(t, _, _) => s.At(t).Idle?
    case Lock(t) =>
      var pc := s.At(t);
      && ((pc.Wait? && (pc.at.Fresh? || pc.at.Asleep?)) || (pc.Wake? && pc.point.Approaching?))
      && pc.e < |s.heap| && s.heap[pc.e].lock.None?
    case Read(t) => s.At(t).Wait? && s.At(t).at.Holding? && s.At(t).e < |s.heap|
    case Admit(t) => s.At(t).Wait? && s.At(t).at.Matched? && s.At(t).e < |s.heap|
    case Register(t) => s.At(t).Wait? && s.At(t).at.Admitted? && s.At(t).e < |s.heap|
    case Decide(t, _) => s.At(t).Wait? && s.At(t).at.Deciding? && s.At(t).e < |s.heap|
    case Grant(t) => s.At(t).Wake? && s.At(t).point.Granting? && s.At(t).e < |s.heap|
    case Release(t) =>
      var pc := s.At(t);
      ((pc.Wait? && pc.at.Leaving?) || (pc.Wake? && pc.point.Returning?)) && pc.e < |s.heap|
    case StoreWord(_, _) => true
    case BeginShutdown => true
    case ClearTable => s.shuttingDown
  }

  /** `acquire_entry`: nothing once shutting down; otherwise the address's entry
      with one more user, created if asked for. */
  function Acquire(s: State, a: U64, create: bool): (r: (State, Option<EntryId>)) {
    if s.shuttingDown then (s, None)
    else if a in s.table then
      var e := s.table[a];
      if e < |s.heap| then (SetEntry(s, e, s.heap[e].(users := s.heap[e].users + 1)), Some(e)) else (s, None)
    else if !create then (s, None)
    else (s.(heap := s.heap + [Entry(a, 1, 0, 0, None)], table := s.table[a := |s.heap|]), Some(|s.heap|))
  }

  /** `release_entry`: only if the address still maps to this entry. */
  function ReleaseEntry(s: State, e: EntryId): State
    requires e < |s.heap|
  {
    var x := s.heap[e];
    if x.addr !in s.table || s.table[x.addr] != e then s
    else
      var x1 := x.(users := if x.users != 0 then x.users - 1 else 0);
      var s1 := SetEntry(s, e, x1);
      if x1.users == 0 && x1.waiters == 0 && x1.credits == 0 then s1.(table := s.table - {x.addr}) else s1
  }

  const SIZE_MAX: nat := 0xFFFF_FFFF_FFFF_FFFF

  /** An unsigned counter one lower, wrapping at zero. */
  function Decremented(n: nat): nat { if n == 0 then SIZE_MAX else n - 1 }

  function Unlock(x: Entry): Entry { x.(lock := None) }

  function Available(x: Entry): nat { if x.waiters > x.credits then x.waiters - x.credits else 0 }

  function Min(a: nat, b: nat): nat { if a < b then a else b }

  function Locked(pc: Pc): Pc {
    match pc
    case Idle => Idle
    case Wait(e, x, at) => Wait(e, x, if at.Asleep? then Deciding else Holding)
    case Wake(e, m, at) => Wake(e, m, Granting)
  }

  function Next(s: State, a: Action): State
    requires Enabled(s, a)
  {
    match a
    case StartWait(t, addr, x) =>
      if addr % 4 != 0 then s
      else
        var (s1, e) := Acquire(s, addr, true);
        if e.Some? then SetPc(s1, t, Wait(e.value, x, Fresh)) else s1
    case StartWake(t, addr, max) =>
      if max == 0 || s.shuttingDown then s
      else
        var (s1, e) := Acquire(s, addr, false);
        if e.Some? then SetPc(s1, t, Wake(e.value, max, Approaching)) else s1
    case Lock(t) =>
      var pc := s.At(t);
      Advance(s, t, Locked(pc), s.heap[pc.e].(lock := Some(t)), s.granted, s.woken)
    case Read(t) =>
      var pc := s.At(t);
      var x := s.heap[pc.e];
      if x.addr !in s.words then Advance(s, t, pc.(at := Leaving(InvalidAddress)), Unlock(x), s.granted, s.woken)
      else if s.words[x.addr] != pc.expected
      then Advance(s, t, pc.(at := Leaving(ValueMismatch)), Unlock(x), s.granted, s.woken)
      else Advance(s, t, pc.(at := Matched), x, s.granted, s.woken)
    case Admit(t) =>
      var pc := s.At(t);
      var x := s.heap[pc.e];
      if s.shuttingDown then Advance(s, t, pc.(at := Leaving(Shutdown)), Unlock(x), s.granted, s.woken)
      else Advance(s, t, pc.(at := Admitted), x, s.granted, s.woken)
    case Register(t) =>
      var pc := s.At(t);
      var x := s.heap[pc.e];
      Advance(s, t, pc.(at := Deciding), x.(waiters := x.waiters + 1), s.granted, s.woken)
    case Decide(t, expired) =>
      var pc := s.At(t);
      var x := s.heap[pc.e];
      var out := Unlock(x).(waiters := Decremented(x.waiters));
      if s.shuttingDown then Advance(s, t, pc.(at := Leaving(Shutdown)), out, s.granted, s.woken)
      else if x.credits != 0
      then Advance(s, t, pc.(at := Leaving(Woken)), out.(credits := x.credits - 1), s.granted, s.woken + 1)
      else if expired then Advance(s, t, pc.(at := Leaving(TimedOut)), out, s.granted, s.woken)
      else Advance(s, t, pc.(at := Asleep), Unlock(x), s.granted, s.woken)
    case Grant(t) =>
      var pc := s.At(t);
      var x := s.heap[pc.e];
      var n := if s.shuttingDown then 0 else Min(pc.max, Available(x));
      Advance(s, t, pc.(point := Returning(n)), Unlock(x).(credits := x.credits + n), s.granted + n, s.woken)
    case Release(t) => SetPc(ReleaseEntry(s, s.At(t).e), t, Idle)
    case StoreWord(addr, v) =>
      s.(words := if v.Some? then s.words[addr := v.value] else s.words - {addr})
    case BeginShutdown => s.(shuttingDown := true)
    case ClearTable => s.(table := map[], cleared := true)
  }

  // ------------------------------------------------------------------
  // Invariants.
  // ------------------------------------------------------------------

  function SumCredits(heap: seq<Entry>): nat {
    if heap == [] then 0 else SumCredits(heap[..|heap| - 1]) + heap[|heap| - 1].credits
  }

  /** Every call under way works on an allocated entry. */
  ghost predicate Allocated(s: State) {
    forall t :: t in s.threads && !s.threads[t].Idle? ==> s.threads[t].e < |s.heap|
  }

  /** An entry's lock is held by exactly the thread inside its critical section. */
  ghost predicate LocksOk(s: State) {
    && (forall t, e: EntryId {:trigger Plays(Holds, s.threads[t], e)} ::
          t in s.threads && e < |s.heap| && Plays(Holds, s.threads[t], e) ==> s.heap[e].lock == Some(t))
    && (forall e :: 0 <= e < |s.heap| && s.heap[e].lock.Some? ==> Plays(Holds, s.At(s.heap[e].lock.value), e))
  }

  /** `waiters` is the number of registered threads. */
  ghost predicate WaitersOk(s: State) {
    forall e :: 0 <= e < |s.heap| ==> s.heap[e].waiters == Count(Registered, s.threads, e)
  }

  predicate InTable(s: State, e: EntryId) {
    e < |s.heap| && s.heap[e].addr in s.table && s.table[s.heap[e].addr] == e
  }

  /** `users` is the number of calls using the entry, which stays mapped as long
      as there are any; before shutdown no longer than that. */
  ghost predicate UserOk(s: State, e: EntryId) {
    e < |s.heap| ==>
      && s.heap[e].users == Count(Uses, s.threads, e)
      && (s.heap[e].users > 0 ==> InTable(s, e))
      && (!s.shuttingDown && InTable(s, e) ==> s.heap[e].users > 0)
  }

  ghost predicate UsersOk(s: State) { !s.cleared ==> forall e: EntryId :: UserOk(s, e) }

  ghost predicate TableOk(s: State) {
    && (forall a :: a in s.table ==> s.table[a] < |s.heap| && s.heap[s.table[a]].addr == a)
    && (s.cleared ==> s.shuttingDown && s.table == map[])
  }

  ghost predicate CreditsOk(s: State) {
    !s.shuttingDown ==> forall e :: 0 <= e < |s.heap| ==> s.heap[e].credits <= s.heap[e].waiters
  }

  /** Every wake-up handed out was taken or is still outstanding. */
  predicate Conserved(s: State) { s.granted == s.woken + SumCredits(s.heap) }

  ghost predicate Inv(s: State) {
    Allocated(s) && LocksOk(s) && WaitersOk(s) && UsersOk(s) && TableOk(s) && CreditsOk(s) && Conserved(s)
  }

  // ------------------------------------------------------------------
  // Counting.
  // ------------------------------------------------------------------

  /** Moving one thread changes a count by what that thread played and plays. */
  lemma CountMove(role: Role, threads: map<Tid, Pc>, t: Tid, pc: Pc, e: EntryId)
    ensures Count(role, threads[t := pc], e) + Bit(t in threads && Plays(role, threads[t], e))
         == Count(role, threads, e) + Bit(Plays(role, pc, e))
  {
    var before, after := Players(role, threads, e), Players(role, threads[t := pc], e);
    assert after - {t} == before - {t};
    assert t in after <==> Plays(role, pc, e);
    assert t in before <==> t in threads && Plays(role, threads[t], e);
    SizeMove(before, after, t);
  }

  lemma SizeMove(before: set<Tid>, after: set<Tid>, t: Tid)
    requires after - {t} == before - {t}
    ensures |after| + Bit(t in before) == |before| + Bit(t in after)
  {
    if t in after { assert after == (after - {t}) + {t}; } else { assert after - {t} == after; }
    if t in before { assert before == (before - {t}) + {t}; } else { assert before - {t} == before; }
  }

  lemma RegisteredUses(threads: map<Tid, Pc>, e: EntryId)
    ensures Count(Registered, threads, e) <= Count(Uses, threads, e)
  {
    var r, u := Players(Registered, threads, e), Players(Uses, threads, e);
    assert r <= u;
    SubsetSize(r, u);
  }

  lemma CountPositive(role: Role, threads: map<Tid, Pc>, t: Tid, e: EntryId)
    requires t in threads && Plays(role, threads[t], e)
    ensures Count(role, threads, e) > 0
  {
    assert t in Players(role, threads, e);
  }

  lemma {:induction false} SumUpdate(heap: seq<Entry>, e: nat, x: Entry)
    requires e < |heap|
    ensures SumCredits(heap[e := x]) + heap[e].credits == SumCredits(heap) + x.credits
    decreases |heap|
  {
    var n := |heap| - 1;
    if e == n {
      assert heap[e := x][..n] == heap[..n];
    } else {
      assert heap[e := x][..n] == heap[..n][e := x];
      SumUpdate(heap[..n], e, x);
    }
  }

  lemma SumSnoc(heap: seq<Entry>, x: Entry)
    ensures SumCredits(heap + [x]) == SumCredits(heap) + x.credits
  {
    assert (heap + [x])[..|heap|] == heap;
  }

  // ------------------------------------------------------------------
  // One thread moves on within one entry.
  // ------------------------------------------------------------------

  predicate On(pc: Pc, e: EntryId) { pc.Idle? || pc.e == e }

  /** How a move may treat the lock. */
  predicate LockMove(t: Tid, pc0: Pc, pc1: Pc, e: EntryId, x0: Entry, x1: Entry) {
    if Plays(Holds, pc1, e) then x1.lock == Some(t) && (x0.lock == Some(t) || x0.lock.None?)
    else if Plays(Holds, pc0, e) then x1.lock.None?
    else x1.lock == x0.lock
  }

  lemma MoveLocks(s: State, t: Tid, pc: Pc, e: EntryId, x: Entry)
    requires LocksOk(s) && e < |s.heap| && On(s.At(t), e) && On(pc, e)
    requires LockMove(t, s.At(t), pc, e, s.heap[e], x)
    ensures LocksOk(Moved(s, t, pc, e, x))
  {
    var s1 := Moved(s, t, pc, e, x);
    forall u, f: EntryId | u in s1.threads && f < |s1.heap| && Plays(Holds, s1.threads[u], f)
      ensures s1.heap[f].lock == Some(u)
    {
      if u != t { assert s1.threads[u] == s.threads[u]; }
    }
    forall f | 0 <= f < |s1.heap| && s1.heap[f].lock.Some?
      ensures Plays(Holds, s1.At(s1.heap[f].lock.value), f)
    {
      var u := s1.heap[f].lock.value;
      if f != e { assert Plays(Holds, s.At(u), f); }
    }
  }

  lemma MoveWaiters(s: State, t: Tid, pc: Pc, e: EntryId, x: Entry)
    requires WaitersOk(s) && e < |s.heap| && On(s.At(t), e) && On(pc, e)
    requires x.waiters + Bit(Plays(Registered, s.At(t), e)) == s.heap[e].waiters + Bit(Plays(Registered, pc, e))
    ensures WaitersOk(Moved(s, t, pc, e, x))
  {
    var s1 := Moved(s, t, pc, e, x);
    forall f | 0 <= f < |s1.heap| ensures s1.heap[f].waiters == Count(Registered, s1.threads, f) {
      CountMove(Registered, s.threads, t, pc, f);
    }
  }

  lemma MoveUsers(s: State, t: Tid, pc: Pc, e: EntryId, x: Entry)
    requires UsersOk(s) && e < |s.heap| && !s.At(t).Idle? && On(s.At(t), e) && !pc.Idle? && On(pc, e)
    requires x.users == s.heap[e].users && x.addr == s.heap[e].addr
    ensures UsersOk(Moved(s, t, pc, e, x))
  {
    var s1 := Moved(s, t, pc, e, x);
    if !s.cleared {
      forall f: EntryId ensures UserOk(s1, f) {
        CountMove(Uses, s.threads, t, pc, f);
        assert UserOk(s, f) && InTable(s1, f) == InTable(s, f);
      }
    }
  }

  /** A step inside a call: same users and address, lock and waiters accounted
      for, credits paid for by the counters. */
  lemma MoveInv(s: State, t: Tid, pc: Pc, x: Entry, granted: nat, woken: nat)
    requires Inv(s) && !pc.Idle? && !s.At(t).Idle? && s.At(t).e == pc.e && pc.e < |s.heap|
    requires x.users == s.heap[pc.e].users && x.addr == s.heap[pc.e].addr
    requires LockMove(t, s.At(t), pc, pc.e, s.heap[pc.e], x)
    requires x.waiters + Bit(Plays(Registered, s.At(t), pc.e))
      == s.heap[pc.e].waiters + Bit(Plays(Registered, pc, pc.e))
    requires !s.shuttingDown ==> x.credits <= x.waiters
    requires granted + s.woken + s.heap[pc.e].credits == s.granted + woken + x.credits
    ensures Inv(Advance(s, t, pc, x, granted, woken))
  {
    var e := pc.e;
    MoveLocks(s, t, pc, e, x);
    MoveWaiters(s, t, pc, e, x);
    MoveUsers(s, t, pc, e, x);
    SumUpdate(s.heap, e, x);
    SameBut(Moved(s, t, pc, e, x), granted, woken);
  }

  /** The counters matter to conservation only. */
  lemma SameBut(s: State, granted: nat, woken: nat)
    requires LocksOk(s) && WaitersOk(s) && UsersOk(s)
    ensures LocksOk(s.(granted := granted, woken := woken))
    ensures WaitersOk(s.(granted := granted, woken := woken))
    ensures UsersOk(s.(granted := granted, woken := woken))
  {
    var s1 := s.(granted := granted, woken := woken);
    assert forall t :: s1.At(t) == s.At(t);
    if !s.cleared {
      forall e: EntryId ensures UserOk(s1, e) {
        assert UserOk(s, e) && InTable(s1, e) == InTable(s, e);
      }
    }
  }

  lemma HolderLock(s: State, t: Tid)
    requires LocksOk(s) && Allocated(s) && !s.At(t).Idle? && Plays(Holds, s.At(t), s.At(t).e)
    ensures s.At(t).e < |s.heap| && s.heap[s.At(t).e].lock == Some(t)
  {
  }

  /** No underflow: a registered thread is counted. */
  lemma RegisteredCounted(s: State, t: Tid)
    requires WaitersOk(s) && Allocated(s) && s.At(t).Wait? && Plays(Registered, s.At(t), s.At(t).e)
    ensures s.At(t).e < |s.heap| && s.heap[s.At(t).e].waiters > 0
  {
    CountPositive(Registered, s.threads, t, s.At(t).e);
  }

  // ------------------------------------------------------------------
  // Each step keeps the invariant.
  // ------------------------------------------------------------------

  lemma StepLock(s: State, t: Tid)
    requires Inv(s) && Enabled(s, Lock(t))
    ensures Inv(Next(s, Lock(t)))
  {
    var pc := s.At(t);
    MoveInv(s, t, Locked(pc), s.heap[pc.e].(lock := Some(t)), s.granted, s.woken);
  }

  lemma StepRead(s: State, t: Tid)
    requires Inv(s) && Enabled(s, Read(t))
    ensures Inv(Next(s, Read(t)))
  {
    var pc := s.At(t);
    var x := s.heap[pc.e];
    HolderLock(s, t);
    MoveInv(s, t, pc.(at := Leaving(InvalidAddress)), Unlock(x), s.granted, s.woken);
    MoveInv(s, t, pc.(at := Leaving(ValueMismatch)), Unlock(x), s.granted, s.woken);
    MoveInv(s, t, pc.(at := Matched), x, s.granted, s.woken);
  }

  lemma StepAdmit(s: State, t: Tid)
    requires Inv(s) && Enabled(s, Admit(t))
    ensures Inv(Next(s, Admit(t)))
  {
    var pc := s.At(t);
    var x := s.heap[pc.e];
    HolderLock(s, t);
    MoveInv(s, t, pc.(at := Leaving(Shutdown)), Unlock(x), s.granted, s.woken);
    MoveInv(s, t, pc.(at := Admitted), x, s.granted, s.woken);
  }

  lemma StepRegister(s: State, t: Tid)
    requires Inv(s) && Enabled(s, Register(t))
    ensures Inv(Next(s, Register(t)))
  {
    var pc := s.At(t);
    var x := s.heap[pc.e];
    HolderLock(s, t);
    MoveInv(s, t, pc.(at := Deciding), x.(waiters := x.waiters + 1), s.granted, s.woken);
  }

  lemma StepDecide(s: State, t: Tid, expired: bool)
    requires Inv(s) && Enabled(s, Decide(t, expired))
    ensures Inv(Next(s, Decide(t, expired)))
  {
    var pc := s.At(t);
    var x := s.heap[pc.e];
    HolderLock(s, t);
    RegisteredCounted(s, t);
    var out := Unlock(x).(waiters := Decremented(x.waiters));
    if s.shuttingDown {
      MoveInv(s, t, pc.(at := Leaving(Shutdown)), out, s.granted, s.woken);
    } else if x.credits != 0 {
      MoveInv(s, t, pc.(at := Leaving(Woken)), out.(credits := x.credits - 1), s.granted, s.woken + 1);
    } else if expired {
      MoveInv(s, t, pc.(at := Leaving(TimedOut)), out, s.granted, s.woken);
    } else {
      MoveInv(s, t, pc.(at := Asleep), Unlock(x), s.granted, s.woken);
    }
  }

  function GrantCount(s: State, t: Tid): nat
    requires Enabled(s, Grant(t))
  {
    if s.shuttingDown then 0 else Min(s.At(t).max, Available(s.heap[s.At(t).e]))
  }

  lemma GrantAdvances(s: State, t: Tid, n: nat)
    requires Enabled(s, Grant(t)) && n == GrantCount(s, t)
    ensures var pc, x := s.At(t), s.heap[s.At(t).e];
            Next(s, Grant(t))
              == Advance(s, t, pc.(point := Returning(n)), Unlock(x).(credits := x.credits + n), s.granted + n, s.woken)
  {
  }

  lemma GrantBound(s: State, t: Tid)
    requires CreditsOk(s) && Enabled(s, Grant(t)) && !s.shuttingDown
    ensures s.heap[s.At(t).e].credits + GrantCount(s, t) <= s.heap[s.At(t).e].waiters
  {
  }

  lemma GrantInv(s: State, t: Tid, n: nat)
    requires Inv(s) && Enabled(s, Grant(t))
    requires !s.shuttingDown ==> s.heap[s.At(t).e].credits + n <= s.heap[s.At(t).e].waiters
    ensures var pc, x := s.At(t), s.heap[s.At(t).e];
            Inv(Advance(s, t, pc.(point := Returning(n)), Unlock(x).(credits := x.credits + n), s.granted + n, s.woken))
  {
    var pc := s.At(t);
    var x := s.heap[pc.e];
    HolderLock(s, t);
    MoveInv(s, t, pc.(point := Returning(n)), Unlock(x).(credits := x.credits + n), s.granted + n, s.woken);
  }

  lemma StepGrant(s: State, t: Tid)
    requires Inv(s) && Enabled(s, Grant(t))
    ensures Inv(Next(s, Grant(t)))
  {
    var n := GrantCount(s, t);
    if !s.shuttingDown { GrantBound(s, t); }
    GrantAdvances(s, t, n);
    GrantInv(s, t, n);
  }

  // ------------------------------------------------------------------
  // Acquiring and releasing entries.
  // ------------------------------------------------------------------

  /** A call starts on the entry the table has for its address. */
  lemma StepJoin(s: State, t: Tid, pc: Pc, a: U64)
    requires Inv(s) && s.At(t).Idle? && !s.shuttingDown && a in s.table
    requires !pc.Idle? && pc.e == s.table[a] && !Plays(Registered, pc, pc.e) && !Plays(Holds, pc, pc.e)
    ensures Inv(SetPc(Acquire(s, a, true).0, t, pc)) && Acquire(s, a, false) == Acquire(s, a, true)
  {
    var e := s.table[a];
    var x := s.heap[e].(users := s.heap[e].users + 1);
    var s1 := Moved(s, t, pc, e, x);
    assert SetPc(Acquire(s, a, true).0, t, pc) == s1;
    MoveLocks(s, t, pc, e, x);
    MoveWaiters(s, t, pc, e, x);
    SumUpdate(s.heap, e, x);
    forall f: EntryId ensures UserOk(s1, f) {
      CountMove(Uses, s.threads, t, pc, f);
      assert UserOk(s, f) && InTable(s1, f) == InTable(s, f);
    }
  }

  /** Nobody plays any role on an entry that does not exist yet. */
  lemma NoPlayers(s: State, role: Role)
    requires Allocated(s)
    ensures Count(role, s.threads, |s.heap|) == 0
  {
    assert Players(role, s.threads, |s.heap|) == {};
  }

  lemma StepCreate(s: State, t: Tid, pc: Pc, a: U64)
    requires Inv(s) && s.At(t).Idle? && !s.shuttingDown && a !in s.table
    requires pc.Wait? && pc.e == |s.heap| && pc.at.Fresh?
    ensures Inv(SetPc(Acquire(s, a, true).0, t, pc))
  {
    var n := |s.heap|;
    var s1 := SetPc(Acquire(s, a, true).0, t, pc);
    assert s1.heap == s.heap + [Entry(a, 1, 0, 0, None)];
    SumSnoc(s.heap, Entry(a, 1, 0, 0, None));
    NoPlayers(s, Uses);
    NoPlayers(s, Registered);
    forall f | 0 <= f < |s1.heap| ensures s1.heap[f].waiters == Count(Registered, s1.threads, f) {
      CountMove(Registered, s.threads, t, pc, f);
    }
    forall f: EntryId ensures UserOk(s1, f) {
      CountMove(Uses, s.threads, t, pc, f);
      if f < n { assert UserOk(s, f) && InTable(s1, f) == InTable(s, f); }
    }
    CreateLocks(s, t, pc, a);
  }

  lemma CreateLocks(s: State, t: Tid, pc: Pc, a: U64)
    requires LocksOk(s) && s.At(t).Idle? && !s.shuttingDown && a !in s.table && pc.Wait? && pc.at.Fresh?
    requires Allocated(s)
    ensures LocksOk(SetPc(Acquire(s, a, true).0, t, pc))
  {
    var s1 := SetPc(Acquire(s, a, true).0, t, pc);
    forall u, f: EntryId | u in s1.threads && f < |s1.heap| && Plays(Holds, s1.threads[u], f)
      ensures s1.heap[f].lock == Some(u)
    {
      assert u in s.threads && s.threads[u] == s1.threads[u];
    }
    forall f | 0 <= f < |s1.heap| && s1.heap[f].lock.Some?
      ensures Plays(Holds, s1.At(s1.heap[f].lock.value), f)
    {
      assert f < |s.heap| && Plays(Holds, s.At(s.heap[f].lock.value), f);
    }
  }

  lemma StepStart(s: State, a: Action)
    requires Inv(s) && Enabled(s, a) && (a.StartWait? || a.StartWake?)
    ensures Inv(Next(s, a))
  {
    match a
    case StartWait(t, addr, x) =>
      if addr % 4 == 0 && !s.shuttingDown {
        if addr in s.table {
          StepJoin(s, t, Wait(s.table[addr], x, Fresh), addr);
        } else {
          StepCreate(s, t, Wait(|s.heap|, x, Fresh), addr);
        }
      }
    case StartWake(t, addr, max) =>
      if max != 0 && !s.shuttingDown && addr in s.table {
        StepJoin(s, t, Wake(s.table[addr], max, Approaching), addr);
      }
  }

  /** A call under way keeps its entry mapped and counted. */
  lemma UserCounted(s: State, t: Tid)
    requires Inv(s) && !s.cleared && !s.At(t).Idle?
    ensures s.At(t).e < |s.heap| && InTable(s, s.At(t).e) && s.heap[s.At(t).e].users > 0
  {
    CountPositive(Uses, s.threads, t, s.At(t).e);
    assert UserOk(s, s.At(t).e);
  }

  /** The last user leaves nothing behind, so the entry can go. */
  lemma LastUser(s: State, t: Tid)
    requires Inv(s) && !s.shuttingDown && !s.At(t).Idle? && s.At(t).e < |s.heap| && s.heap[s.At(t).e].users == 1
    requires !Plays(Registered, s.At(t), s.At(t).e)
    ensures s.heap[s.At(t).e].waiters == 0 && s.heap[s.At(t).e].credits == 0
  {
    var e := s.At(t).e;
    assert UserOk(s, e);
    CountMove(Uses, s.threads, t, Idle, e);
    CountMove(Registered, s.threads, t, Idle, e);
    RegisteredUses(s.threads[t := Idle], e);
  }

  lemma ReleaseLocks(s: State, t: Tid, s1: State)
    requires Inv(s) && Enabled(s, Release(t)) && s1 == Next(s, Release(t))
    ensures LocksOk(s1) && WaitersOk(s1)
  {
    var e := s.At(t).e;
    var x := s1.heap[e];
    ReleasedEntry(s, e);
    ReleasedCounts(s, e);
    MoveLocks(s, t, Idle, e, x);
    MoveWaiters(s, t, Idle, e, x);
    LocksElsewhere(Moved(s, t, Idle, e, x), s1);
  }

  /** Locks and waiters are a matter of threads and entries alone. */
  lemma LocksElsewhere(s: State, s1: State)
    requires LocksOk(s) && WaitersOk(s) && s1.threads == s.threads && s1.heap == s.heap
    ensures LocksOk(s1) && WaitersOk(s1)
  {
    assert forall u :: s1.At(u) == s.At(u);
  }

  /** What releasing leaves alone. */
  lemma ReleasedEntry(s: State, e: EntryId)
    requires e < |s.heap|
    ensures var s1 := ReleaseEntry(s, e);
            && s1 == s.(heap := s.heap[e := s1.heap[e]], table := s1.table)
            && s1.heap[e].addr == s.heap[e].addr
            && (s1.table == s.table || (s1.table == s.table - {s.heap[e].addr} && InTable(s, e)))
  {
  }

  lemma ReleaseUser(s: State, t: Tid, s1: State, f: EntryId)
    requires Inv(s) && !s.cleared && Enabled(s, Release(t)) && s1 == Next(s, Release(t))
    ensures UserOk(s1, f)
  {
    var e := s.At(t).e;
    UserCounted(s, t);
    if !s.shuttingDown && s.heap[e].users == 1 { LastUser(s, t); }
    ReleasedEntry(s, e);
    CountMove(Uses, s.threads, t, Idle, f);
    assert UserOk(s, f);
    if f != e { assert InTable(s1, f) == InTable(s, f); }
  }

  lemma ReleaseUsers(s: State, t: Tid, s1: State)
    requires Inv(s) && Enabled(s, Release(t)) && s1 == Next(s, Release(t))
    ensures UsersOk(s1)
  {
    if !s.cleared { forall f: EntryId ensures UserOk(s1, f) { ReleaseUser(s, t, s1, f); } }
  }

  lemma ReleaseTable(s: State, t: Tid, s1: State)
    requires Allocated(s) && TableOk(s) && Enabled(s, Release(t)) && s1 == Next(s, Release(t))
    ensures Allocated(s1) && TableOk(s1)
  {
    ReleasedEntry(s, s.At(t).e);
  }

  lemma ReleaseCredits(s: State, t: Tid, s1: State)
    requires Inv(s) && Enabled(s, Release(t)) && s1 == Next(s, Release(t))
    ensures CreditsOk(s1) && Conserved(s1)
  {
    var e := s.At(t).e;
    ReleasedEntry(s, e);
    ReleasedCounts(s, e);
    SumUpdate(s.heap, e, s1.heap[e]);
  }

  lemma ReleasedCounts(s: State, e: EntryId)
    requires e < |s.heap|
    ensures var x, y := s.heap[e], ReleaseEntry(s, e).heap[e]; y.waiters == x.waiters && y.credits == x.credits
  {
  }

  lemma StepRelease(s: State, t: Tid)
    requires Inv(s) && Enabled(s, Release(t))
    ensures Inv(Next(s, Release(t)))
  {
    var s1 := Next(s, Release(t));
    ReleaseLocks(s, t, s1);
    ReleaseUsers(s, t, s1);
    ReleaseTable(s, t, s1);
    ReleaseCredits(s, t, s1);
  }

  /** Guest stores and the two halves of shutdown touch no thread and no entry. */
  lemma StepGlobal(s: State, a: Action)
    requires Inv(s) && Enabled(s, a) && (a.StoreWord? || a.BeginShutdown? || a.ClearTable?)
    ensures Inv(Next(s, a))
  {
    var s1 := Next(s, a);
    assert forall t :: s1.At(t) == s.At(t);
    if !s1.cleared {
      forall e: EntryId ensures UserOk(s1, e) {
        assert UserOk(s, e) && InTable(s1, e) == InTable(s, e);
      }
    }
  }

  lemma StepInv(s: State, a: Action)
    requires Inv(s) && Enabled(s, a)
    ensures Inv(Next(s, a))
  {
    match a
    case StartWait(_, _, _) => StepStart(s, a);
    case StartWake(_, _, _) => StepStart(s, a);
    case Lock(t) => StepLock(s, t);
    case Read(t) => StepRead(s, t);
    case Admit(t) => StepAdmit(s, t);
    case Register(t) => StepRegister(s, t);
    case Decide(t, x) => StepDecide(s, t, x);
    case Grant(t) => StepGrant(s, t);
    case Release(t) => StepRelease(s, t);
    case StoreWord(_, _) => StepGlobal(s, a);
    case BeginShutdown => StepGlobal(s, a);
    case ClearTable => StepGlobal(s, a);
  }
}
