/** The lowerer: linear-scan allocation with expiry and spilling, and the walk over a
    statement list. Hash-map iteration order is left open. */
module Lowering {
  import opened Words
  import opened Ir
  import opened Arm
  import opened Pool
  import opened Liveness
  import opened LiveRefs
  import opened Simulation
  import opened Emission
  import V = Validate

  datatype LowerError = DanglingRef | OutOfScratchRegs | UnsupportedOp

  /** Why a statement fails with the error. With slots a reload that finds no register is
      reported as a dangling ref too. */
  predicate Blames(e: LowerError, s: Stmt, live: set<Ref>, slots: nat) {
    match e
    case UnsupportedOp => Refused(s.op) && !Dangles(s, live) && (slots == 0 ==> Demand(s, live) <= POOL_SIZE)
    case OutOfScratchRegs => Demand(s, live) > POOL_SIZE
    case DanglingRef => Dangles(s, live) || (slots > 0 && Demand(s, live) > POOL_SIZE)
  }

  class Lowerer {
    const spillSlots: nat
    const slotBase: int
    var code: seq<Instr>
    var free: seq<Reg>
    var temps: seq<Reg>
    var refs: map<Ref, Reg>
    var slots: seq<nat>
    var spilled: map<Ref, nat>
    var lastUse: map<Ref, nat>
    var stmtIndex: nat

    ghost function P(): Pool
      reads this
    {
      Pool(free, temps, refs, slots, spilled)
    }

    /** Pool registers and slots are each in exactly one place; spilled refs have a last use. */
    ghost predicate Sane()
      reads this
    {
      Sound(P(), spillSlots) && spilled.Keys <= lastUse.Keys
    }

    ghost predicate Valid()
      reads this
    {
      Sane() && OnePlace(P())
    }

    /** All refs with a place. */
    ghost function Holding(): set<Ref>
      reads this
    {
      refs.Keys + spilled.Keys
    }

    /** Spilled refs that no later statement wants. */
    ghost function Stale(): set<Ref>
      reads this
    {
      set r | r in spilled && Over(r)
    }

    /** A ref that is still wanted can go to a free slot. */
    ghost predicate CanSpill()
      reads this
    {
      slots != [] && exists r :: r in refs && Wanted(r)
    }

    /** No register is free and none can be freed. */
    ghost predicate Exhausted()
      reads this
    {
      free == [] && !CanSpill()
    }

    /** ... before the statement had all it asks for. */
    ghost predicate Short(s: Stmt, held: set<Ref>)
      reads this
    {
      && Exhausted() && refs.Keys <= held + Binds(s) && |temps| <= TempCount(s.op)
      && (|temps| < TempCount(s.op) || refs.Keys < held + Binds(s))
    }

    lemma ShortDemand(s: Stmt, held: set<Ref>)
      requires Valid() && Short(s, held)
      ensures Demand(s, held) > POOL_SIZE
    {
      PoolCounts(P());
      SubsetSize(refs.Keys, held + Binds(s));
      assert |refs.Keys| == |refs|;
    }

    lemma EnoughDemand(s: Stmt, held: set<Ref>)
      requires Valid() && refs.Keys == held + Binds(s) && |temps| == TempCount(s.op)
      ensures Demand(s, held) <= POOL_SIZE
    {
      PoolCounts(P());
      assert |refs.Keys| == |refs|;
    }

    function SlotOffset(slot: nat): int { slotBase + slot * 8 }

    predicate Wanted(r: Ref)
      reads this
    {
      r in lastUse && lastUse[r] > stmtIndex
    }

    /** No statement after this one mentions `r`. */
    predicate Over(r: Ref)
      reads this
    {
      r in lastUse && lastUse[r] <= stmtIndex
    }

    constructor (n: nat, base: int)
      ensures spillSlots == n && slotBase == base && Valid() && code == [] && fresh(this)
      ensures refs == map[] && spilled == map[] && temps == []
    {
      spillSlots, slotBase := n, base;
      code, temps, refs, spilled, lastUse, stmtIndex := [], [], map[], map[], map[], 0;
      free := Countdown(POOL_SIZE);
      slots := Countdown(n);
      FreshSound(n);
    }

    /** Back to an empty assignment, x0 handed out first. */
    method Reset()
      modifies this
      ensures Sound(P(), spillSlots) && refs == map[] && spilled == map[] && temps == []
      ensures |free| == POOL_SIZE && |slots| == spillSlots && code == old(code)
      ensures lastUse == old(lastUse) && stmtIndex == old(stmtIndex)
    {
      temps, refs, spilled := [], map[], map[];
      free := Countdown(POOL_SIZE);
      slots := Countdown(spillSlots);
      FreshSound(spillSlots);
    }

    /** Belady: the ref used furthest ahead, whichever of several is met first. */
    method PickVictim() returns (found: bool, victim: Ref)
      ensures found <==> exists r :: r in refs && Wanted(r)
      ensures found ==> victim in refs && Wanted(victim)
      ensures found ==> forall r :: r in refs && Wanted(r) ==> lastUse[r] <= lastUse[victim]
    {
      found, victim := false, 0;
      var todo := refs.Keys;
      while todo != {}
        invariant todo <= refs.Keys
        invariant found ==> victim in refs && Wanted(victim)
        invariant forall r :: r in refs && r !in todo && Wanted(r) ==> found && lastUse[r] <= lastUse[victim]
        decreases |todo|
      {
        var r :| r in todo;
        todo := todo - {r};
        if Wanted(r) && (!found || lastUse[r] > lastUse[victim]) { found, victim := true, r; }
      }
    }

    /** Moves a ref still wanted to a slot, if there is one and a slot for it. */
    method SpillOneRef() returns (ok: bool, ghost victim: Ref)
      requires Valid()
      modifies this
      ensures Valid() && lastUse == old(lastUse) && stmtIndex == old(stmtIndex) && temps == old(temps)
      ensures Holding() == old(Holding()) && Stale() <= old(Stale())
      ensures ok <==> old(CanSpill())
      ensures !ok ==> P() == old(P()) && code == old(code)
      ensures ok ==> victim in old(refs) && old(Wanted(victim)) && old(slots) != [] && P() == Evict(old(P()), victim)
      ensures ok ==> code == old(code) + [Rare(SpStr(old(refs)[victim], SlotOffset(Top(old(slots)))))]
      ensures ok ==> forall r :: r in old(refs) && old(Wanted(r)) ==> lastUse[r] <= lastUse[victim]
    {
      ok, victim := false, 0;
      if spillSlots == 0 {
        NoSlots(P());
        return;
      }
      if slots == [] || refs == map[] { return; }
      var found, v := PickVictim();
      if !found { return; }
      victim := v;
      ghost var p := P();
      EvictKeeps(p, spillSlots, v);
      var vreg, slot := refs[v], Top(slots);
      slots := Rest(slots);
      code := code + [Rare(SpStr(vreg, SlotOffset(slot)))];
      spilled := spilled[v := slot];
      refs := refs - {v};
      free := free + [vreg];
      assert P() == Evict(p, v);
      ok := true;
    }

    /** Wanted, and no ref with a register is wanted for longer. */
    ghost predicate Furthest(v: Ref)
      reads this
    {
      v in refs && Wanted(v) && forall r :: r in refs && Wanted(r) ==> lastUse[r] <= lastUse[v]
    }

    /** A register for `ref`, spilling another if it must: then the victim's. */
    method AllocateScratch(ref: Ref) returns (ok: bool, out: Reg, ghost victim: Ref)
      requires Valid() && ref !in refs
      modifies this
      ensures Sane() && lastUse == old(lastUse) && stmtIndex == old(stmtIndex) && temps == old(temps)
      ensures Holding() == old(Holding()) + if ok then {ref} else {}
      ensures Stale() <= old(Stale())
      ensures ok ==> ref in refs && refs[ref] == out
      ensures !ok ==> Valid()
      ensures forall r :: r in refs && r != ref ==> r !in spilled
      ensures forall r :: r in old(spilled) ==> r in spilled && spilled[r] == old(spilled)[r]
      ensures ref in spilled ==> ref in old(spilled)
      ensures old(free) != [] ==> ok && P() == TakeFor(old(P()), ref) && code == old(code)
      ensures spillSlots == 0 && old(free) == [] ==> !ok && P() == old(P()) && code == old(code)
      ensures !ok ==> P() == old(P()) && Exhausted()
      ensures ok && old(free) == [] ==> old(Furthest(victim)) && out == old(refs)[victim]
      ensures forall r :: r in refs && r != ref ==> r in old(refs) && refs[r] == old(refs)[r]
    {
      out, victim := 0, 0;
      if free == [] {
        if spillSlots == 0 { NoSlots(P()); }
        ok, victim := SpillOneRef();
        if !ok { return; }
      }
      out := Give(ref);
      ok := true;
    }

    /** The register on top of the free list goes to the ref. */
    method Give(ref: Ref) returns (out: Reg)
      requires Sane() && free != [] && ref !in refs
      modifies this`free, this`refs
      ensures Sane() && P() == TakeFor(old(P()), ref) && out == Top(old(free))
    {
      ghost var p := P();
      TakeForKeeps(p, ref);
      SameSlots(p, TakeFor(p, ref), spillSlots);
      out := Top(free);
      free := Rest(free);
      refs := refs[ref := out];
    }

    /** A register until the statement ends. */
    method AllocateTemporary() returns (ok: bool, out: Reg)
      requires Valid()
      modifies this
      ensures Valid() && lastUse == old(lastUse) && stmtIndex == old(stmtIndex)
      ensures Holding() == old(Holding()) && Stale() <= old(Stale())
      ensures temps == if ok then old(temps) + [out] else old(temps)
      ensures old(free) != [] ==> ok && P() == TakeTemp(old(P())) && code == old(code)
      ensures spillSlots == 0 && old(free) == [] ==> !ok && P() == old(P()) && code == old(code)
      ensures !ok ==> P() == old(P()) && Exhausted()
    {
      out := 0;
      if free == [] {
        if spillSlots == 0 { NoSlots(P()); }
        ghost var victim;
        ok, victim := SpillOneRef();
        if !ok { return; }
      }
      ghost var p := P();
      TakeTempKeeps(p);
      SameSlots(p, TakeTemp(p), spillSlots);
      out := Top(free);
      free := Rest(free);
      temps := temps + [out];
      assert P() == TakeTemp(p);
      ok := true;
    }

    /** Where a ref is, reloading it from its slot if it was spilled. */
    method RegOf(ref: Ref) returns (ok: bool, out: Reg, ghost victim: Ref)
      requires Valid()
      modifies this
      ensures Valid() && lastUse == old(lastUse) && stmtIndex == old(stmtIndex) && temps == old(temps)
      ensures Holding() == old(Holding())
      ensures Stale() <= old(Stale()) && (ok ==> ref !in Stale())
      ensures ok ==> ref in refs && refs[ref] == out
      ensures ok ==> ref in old(Holding())
      ensures ref in old(refs) ==> ok && P() == old(P()) && code == old(code)
      ensures ref !in old(Holding()) ==> !ok && P() == old(P()) && code == old(code)
      ensures ref in old(spilled) && ref !in old(refs) && old(free) != [] ==>
        && ok && P() == Unspill(TakeFor(old(P()), ref), ref)
        && code == old(code) + [Rare(SpLdr(out, SlotOffset(old(spilled)[ref])))]
      ensures spillSlots == 0 ==> P() == old(P()) && code == old(code)
      ensures !ok && ref in old(Holding()) ==> Exhausted() && ref in Holding() && ref !in refs
      ensures ok && ref !in old(refs) && old(free) == [] ==> old(Furthest(victim)) && out == old(refs)[victim]
      ensures ok && ref !in old(refs) && old(free) != [] ==> forall r :: r in old(refs) ==> old(refs)[r] != out
      ensures forall r :: r in refs && r != ref ==> r in old(refs) && refs[r] == old(refs)[r]
    {
      out, victim := 0, 0;
      if ref in refs { return true, refs[ref], 0; }
      if ref !in spilled { return false, 0, 0; }
      var slot := spilled[ref];
      if spillSlots == 0 { NoSlots(P()); assert false; }
      if free != [] { TopIsFresh(P()); }
      ok, out, victim := AllocateScratch(ref);
      if !ok { return; }
      ghost var p := P();
      UnspillKeeps(p, spillSlots, ref);
      SameRegs(p, Unspill(p, ref));
      code := code + [Rare(SpLdr(out, SlotOffset(slot)))];
      spilled := spilled - {ref};
      slots := slots + [slot];
      assert P() == Unspill(p, ref);
    }

    /** Temporaries and refs not wanted any more give their registers back. */
    method ExpireIntervals()
      requires Valid()
      modifies this
      ensures Valid() && temps == [] && spilled == old(spilled) && slots == old(slots) && code == old(code)
      ensures lastUse == old(lastUse) && stmtIndex == old(stmtIndex)
      ensures forall r :: r in refs <==> r in old(refs) && !Over(r)
      ensures forall r :: r in refs ==> refs[r] == old(refs)[r]
    {
      FreeTemporaries();
      var todo := refs.Keys;
      while todo != {}
        invariant todo <= refs.Keys && Valid() && temps == []
        invariant spilled == old(spilled) && slots == old(slots) && code == old(code)
        invariant lastUse == old(lastUse) && stmtIndex == old(stmtIndex)
        invariant forall r :: r in refs <==> r in old(refs) && (r in todo || !Over(r))
        invariant forall r :: r in refs ==> refs[r] == old(refs)[r]
        decreases |todo|
      {
        var r :| r in todo;
        todo := todo - {r};
        if Over(r) { Release(r); }
      }
    }

    method FreeTemporaries()
      requires Valid()
      modifies this`free, this`temps
      ensures Valid() && temps == []
    {
      while temps != []
        invariant Valid()
        decreases |temps|
      {
        ghost var p := P();
        FreeTempKeeps(p);
        SameSlots(p, FreeTemp(p), spillSlots);
        free := free + [temps[0]];
        temps := temps[1..];
        assert P() == FreeTemp(p);
      }
    }

    method Release(r: Ref)
      requires Valid() && r in refs
      modifies this`free, this`refs
      ensures Valid() && refs == old(refs) - {r}
    {
      ghost var p := P();
      FreeKeeps(p, r);
      SameSlots(p, Free(p, r), spillSlots);
      free := free + [refs[r]];
      refs := refs - {r};
      assert P() == Free(p, r);
    }

    // ----------------------------------------------------------------
    // One statement.
    // ----------------------------------------------------------------

    /** The registers of all operands, in order. */
    method Fetch(ops: seq<Ref>) returns (ok: bool, rs: seq<Reg>)
      requires Valid()
      modifies this
      ensures Valid() && lastUse == old(lastUse) && stmtIndex == old(stmtIndex) && temps == old(temps)
      ensures Holding() == old(Holding()) && Stale() <= old(Stale())
      ensures ok ==> |rs| == |ops| && forall i :: 0 <= i < |ops| ==> ops[i] !in Stale()
      ensures spillSlots == 0 ==> P() == old(P()) && code == old(code) && (ok ==> Fetched(ops, rs, refs))
      ensures !ok ==> (exists r :: r in ops && r !in Holding()) || (Exhausted() && refs.Keys < Holding())
      ensures ok ==> forall r :: r in ops ==> r in Holding()
    {
      rs := [];
      for k := 0 to |ops|
        invariant Valid() && lastUse == old(lastUse) && stmtIndex == old(stmtIndex) && temps == old(temps)
        invariant Holding() == old(Holding()) && Stale() <= old(Stale())
        invariant |rs| == k && forall i :: 0 <= i < k ==> ops[i] !in Stale() && ops[i] in Holding()
        invariant spillSlots == 0 ==> P() == old(P()) && code == old(code)
        invariant spillSlots == 0 ==> forall i :: 0 <= i < k ==> ops[i] in refs && refs[ops[i]] == rs[i]
      {
        var r;
        ghost var victim;
        ok, r, victim := RegOf(ops[k]);
        if !ok { return; }
        rs := rs + [r];
      }
      ok := true;
    }

    /** Two operands in turn, the first of them in a register. Both end up in the same one
        exactly if the second has to be reloaded, no register is free, and the first is the
        ref wanted for longest: fetching the second evicts it. */
    method FetchPair(a: Ref, b: Ref) returns (ok: bool, ra: Reg, rb: Reg)
      requires Valid() && a in refs && b in Holding() && a != b
      requires forall r :: r in refs && r != a && Wanted(r) && Wanted(a) ==> lastUse[r] != lastUse[a]
      modifies this
      ensures ok ==> ra == old(refs)[a] && b in refs && refs[b] == rb
      ensures ok ==> (ra == rb <==> b !in old(refs) && old(free) == [] && old(Furthest(a)))
      ensures ok && ra == rb ==> a !in refs
    {
      ghost var v1, v2;
      OneToOneRefs(a, b);
      ok, ra, v1 := RegOf(a);
      ok, rb, v2 := RegOf(b);
      if ok && ra == rb { OneToOneRefs(a, b); }
    }

    lemma OneToOneRefs(a: Ref, b: Ref)
      requires Valid()
      ensures a in refs && b in refs && a != b ==> refs[a] != refs[b]
      ensures forall r :: r in refs && r != a && a in refs ==> refs[r] != refs[a]
    {
      forall r | r in refs && r != a && a in refs ensures refs[r] != refs[a] { assert Apart(refs, r, a); }
      assert Apart(refs, a, b);
    }

    method TakeTemps(n: nat) returns (ok: bool, ts: seq<Reg>)
      requires Valid() && temps == []
      modifies this
      ensures Valid() && lastUse == old(lastUse) && stmtIndex == old(stmtIndex)
      ensures Holding() == old(Holding()) && Stale() <= old(Stale())
      ensures ok ==> temps == ts && |ts| == n
      ensures !ok ==> Exhausted() && |temps| < n
      ensures spillSlots == 0 ==> code == old(code) && refs == old(refs)
    {
      ts := [];
      for k := 0 to n
        invariant Valid() && lastUse == old(lastUse) && stmtIndex == old(stmtIndex)
        invariant Holding() == old(Holding()) && Stale() <= old(Stale())
        invariant temps == ts && |ts| == k
        invariant spillSlots == 0 ==> code == old(code) && refs == old(refs)
      {
        var r;
        ok, r := AllocateTemporary();
        if !ok { return; }
        ts := ts + [r];
      }
      ok := true;
    }

    /** The registers for a statement's results, if it has any. */
    method Allot(s: Stmt) returns (ok: bool, rd: Reg, rh: Reg)
      requires Valid() && (Yields(s.op) ==> s.result.Some?) && Binds(s) !! Holding() && TwoRefs(s)
      modifies this
      ensures Valid() && lastUse == old(lastUse) && stmtIndex == old(stmtIndex) && temps == old(temps)
      ensures ok ==> Holding() == old(Holding()) + Binds(s)
      ensures !ok ==> Exhausted() && refs.Keys < old(Holding()) + Binds(s)
      ensures Stale() <= old(Stale())
      ensures spillSlots == 0 && ok ==> code == old(code) && refs == Assigned(s, rd, rh, old(refs))
    {
      ok, rd, rh := true, 0, 0;
      ghost var victim;
      if Yields(s.op) { ok, rd, victim := AllocateScratch(s.result.value); }
      if ok && s.op.AtomicCmpxchgPair? { ok, rh, victim := AllocateScratch(s.op.oldHigh); }
    }

    /** Operands, results and temporaries; the status write takes its temporaries first. */
    method TakeRegs(s: Stmt) returns (e: Option<LowerError>, rd: Reg, rh: Reg, rs: seq<Reg>, ts: seq<Reg>)
      requires Valid() && temps == [] && (Yields(s.op) ==> s.result.Some?) && Binds(s) !! Holding() && TwoRefs(s)
      modifies this
      ensures Valid() && lastUse == old(lastUse) && stmtIndex == old(stmtIndex)
      ensures e.None? ==> Holding() == old(Holding()) + Binds(s) && Stale() <= old(Stale())
      ensures e.None? ==> forall r :: r in Operands(s.op) ==> r !in Stale()
      ensures e.None? ==> temps == ts && |ts| == TempCount(s.op) && |rs| == |Operands(s.op)|
      ensures e.None? && spillSlots == 0 ==> code == old(code) && refs == Assigned(s, rd, rh, old(refs))
      ensures e.None? && spillSlots == 0 ==> Fetched(Operands(s.op), rs, old(refs))
      ensures e != Some(UnsupportedOp) && (e.None? ==> !Dangles(s, old(Holding())))
      ensures e == Some(OutOfScratchRegs) ==> Short(s, old(Holding()))
      ensures e == Some(DanglingRef) ==> Dangles(s, old(Holding())) || (Short(s, old(Holding())) && spillSlots > 0)
    {
      var ok;
      rd, rh, rs, ts := 0, 0, [], [];
      if s.op.StoreRflagsFromNzcv? {
        ok, ts := TakeTemps(TempCount(s.op));
        if !ok { return Some(OutOfScratchRegs), rd, rh, rs, ts; }
        ok, rs := Fetch(Operands(s.op));
        if !ok {
          if spillSlots == 0 { NoSlots(P()); }
          return Some(DanglingRef), rd, rh, rs, ts;
        }
      } else {
        ok, rs := Fetch(Operands(s.op));
        if !ok {
          if spillSlots == 0 { NoSlots(P()); }
          return Some(DanglingRef), rd, rh, rs, ts;
        }
        ok, rd, rh := Allot(s);
        if !ok { return Some(OutOfScratchRegs), rd, rh, rs, ts; }
        ok, ts := TakeTemps(TempCount(s.op));
        if !ok { return Some(OutOfScratchRegs), rd, rh, rs, ts; }
      }
      e := None;
    }

    /** The same, with the reason if it fails. */
    method Reserve(s: Stmt) returns (e: Option<LowerError>, rd: Reg, rh: Reg, rs: seq<Reg>, ts: seq<Reg>)
      requires Valid() && temps == [] && (Yields(s.op) ==> s.result.Some?) && Binds(s) !! Holding() && TwoRefs(s)
      modifies this
      ensures Valid() && lastUse == old(lastUse) && stmtIndex == old(stmtIndex)
      ensures e.None? ==> Holding() == old(Holding()) + Binds(s) && Stale() <= old(Stale())
      ensures e.None? ==> forall r :: r in Operands(s.op) ==> r !in Stale()
      ensures e.None? ==> temps == ts && |ts| == TempCount(s.op) && |rs| == |Operands(s.op)|
      ensures e.None? && spillSlots == 0 ==> code == old(code) && refs == Assigned(s, rd, rh, old(refs))
      ensures e.None? && spillSlots == 0 ==> Fetched(Operands(s.op), rs, old(refs))
      ensures e.Some? ==> e.value != UnsupportedOp && Blames(e.value, s, old(Holding()), spillSlots)
      ensures e == Some(OutOfScratchRegs) ==> Exhausted()
      ensures e.None? ==> !Dangles(s, old(Holding()))
      ensures e.None? && spillSlots == 0 ==> Demand(s, old(Holding())) <= POOL_SIZE
    {
      e, rd, rh, rs, ts := TakeRegs(s);
      if e.Some? {
        if Short(s, old(Holding())) { ShortDemand(s, old(Holding())); }
      } else if spillSlots == 0 {
        NoSlots(P());
        EnoughDemand(s, old(Holding()));
      }
    }

    /** `lower_stmt`: registers, then code. */
    method LowerStmt(s: Stmt) returns (e: Option<LowerError>)
      requires Valid() && temps == [] && Binds(s) !! Holding() && TwoRefs(s)
      modifies this
      ensures Valid() && lastUse == old(lastUse) && stmtIndex == old(stmtIndex)
      ensures e.None? ==> Holding() == old(Holding()) + Binds(s)
      ensures e.None? ==> Stale() <= old(Stale()) && forall r :: r in Operands(s.op) ==> r !in Stale()
      ensures e.None? && spillSlots == 0 ==> old(code) <= code
      ensures e.None? && spillSlots == 0 && Placed(s) ==> Simulates(old(refs), s, true, code[|old(code)|..], refs)
      ensures e.Some? ==> Blames(e.value, s, old(Holding()), spillSlots)
      ensures e == Some(OutOfScratchRegs) ==> Exhausted()
      ensures spillSlots == 0 ==> (e.None? <==> Lowerable(s, old(Holding())))
    {
      if Yields(s.op) && s.result.None? { return Some(DanglingRef); }
      e := LowerBound(s);
    }

    /** A statement with a result where it needs one. */
    method LowerBound(s: Stmt) returns (e: Option<LowerError>)
      requires Valid() && temps == [] && (Yields(s.op) ==> s.result.Some?) && Binds(s) !! Holding() && TwoRefs(s)
      modifies this
      ensures Valid() && lastUse == old(lastUse) && stmtIndex == old(stmtIndex)
      ensures e.None? ==> Holding() == old(Holding()) + Binds(s)
      ensures e.None? ==> Stale() <= old(Stale()) && forall r :: r in Operands(s.op) ==> r !in Stale()
      ensures e.None? && spillSlots == 0 ==> old(code) <= code
      ensures e.None? && spillSlots == 0 && Placed(s) ==> Simulates(old(refs), s, true, code[|old(code)|..], refs)
      ensures e.Some? ==> Blames(e.value, s, old(Holding()), spillSlots)
      ensures e == Some(OutOfScratchRegs) ==> Exhausted()
      ensures e.None? ==> !Refused(s.op) && !Dangles(s, old(Holding()))
      ensures e.None? && spillSlots == 0 ==> Demand(s, old(Holding())) <= POOL_SIZE
    {
      var rd, rh, rs, ts;
      e, rd, rh, rs, ts := Reserve(s);
      if e.Some? { return; }
      if Refused(s.op) { return Some(UnsupportedOp); }
      Emit(s, rd, rh, rs, ts, old(refs));
      e := None;
    }

    /** The code of a statement that has all its registers. */
    method Emit(s: Stmt, rd: Reg, rh: Reg, rs: seq<Reg>, ts: seq<Reg>, ghost refs0: Assign)
      requires Valid() && !Refused(s.op) && |rs| == |Operands(s.op)| && temps == ts && |ts| == TempCount(s.op)
      requires spillSlots == 0 ==>
        Binds(s) !! refs0.Keys && TwoRefs(s) && refs == Assigned(s, rd, rh, refs0) && Fetched(Operands(s.op), rs, refs0)
      modifies this`code
      ensures code == old(code) + CodeOf(s.op, rd, rh, rs, ts)
      ensures spillSlots == 0 && Placed(s) ==> Simulates(refs0, s, true, code[|old(code)|..], refs)
    {
      code := code + CodeOf(s.op, rd, rh, rs, ts);
      assert code[|old(code)|..] == CodeOf(s.op, rd, rh, rs, ts);
      if spillSlots == 0 && Placed(s) { CodeSimulates(s, rd, rh, rs, ts, refs0, P()); }
    }

    // ----------------------------------------------------------------
    // A list.
    // ----------------------------------------------------------------

    /** Before a statement: exactly the live refs have a place. */
    ghost predicate Between(stmts: seq<Stmt>)
      reads this
    {
      && Valid() && temps == [] && stmtIndex <= |stmts|
      && LastUses(stmts, |stmts|, lastUse) && Holding() == LiveAt(stmts, lastUse, stmtIndex)
    }

    lemma StaleAreOperands(stmts: seq<Stmt>)
      requires Between(stmts) && stmtIndex < |stmts| && UniqueResults(stmts)
      ensures forall r :: r in Stale() ==> r in Operands(stmts[stmtIndex].op)
    {
      forall r | r in Stale() ensures r in Operands(stmts[stmtIndex].op) {
        DyingIsOperand(stmts, lastUse, stmtIndex, r);
      }
    }

    lemma NewIsUnplaced(stmts: seq<Stmt>)
      requires Between(stmts) && stmtIndex < |stmts| && UniqueResults(stmts)
      ensures Binds(stmts[stmtIndex]) !! Holding() && TwoRefs(stmts[stmtIndex])
    {
      assert UniqueAt(stmts, stmtIndex);
    }

    /** The count a statement overwrites will be mentioned again. */
    ghost predicate CountWanted(s: Stmt)
      reads this
    {
      s.op.WriteFlagsCountZero? && !Over(s.op.count)
    }

    lemma LateIsWanted(stmts: seq<Stmt>)
      requires stmtIndex < |stmts| && LastUses(stmts, |stmts|, lastUse)
      ensures CountWanted(stmts[stmtIndex]) <==> Late(stmts, stmtIndex)
    {
      var s := stmts[stmtIndex];
      if s.op.WriteFlagsCountZero? {
        assert LastMention(stmts, |stmts|, lastUse, s.op.count);
        assert MentionedAt(stmts, stmtIndex, s.op.count);
      }
    }

    /** Lower, then expire: what is left is what was held or bound and is still wanted. */
    method LowerAndExpire(s: Stmt) returns (e: Option<LowerError>)
      requires Valid() && temps == [] && Binds(s) !! Holding() && TwoRefs(s)
      requires forall r :: r in Stale() ==> r in Operands(s.op)
      modifies this
      ensures Valid() && lastUse == old(lastUse) && stmtIndex == old(stmtIndex)
      ensures e.None? ==> temps == [] && Stale() == {}
      ensures e.None? ==> forall r :: r in Holding() <==> r in old(Holding()) + Binds(s) && !Over(r)
      ensures e.None? && spillSlots == 0 ==> old(code) <= code
      ensures e.None? && spillSlots == 0 && Placed(s) ==>
        Simulates(old(refs), s, CountWanted(s), code[|old(code)|..], refs)
      ensures e.Some? ==> Blames(e.value, s, old(Holding()), spillSlots)
      ensures e == Some(OutOfScratchRegs) ==> Exhausted()
      ensures spillSlots == 0 ==> (e.None? <==> Lowerable(s, old(Holding())))
    {
      e := LowerStmt(s);
      if e.Some? { return; }
      ghost var refs1, held := refs, Holding();
      assert Stale() == {};
      assert forall r :: r in spilled ==> !Over(r) by {
        forall r | r in spilled ensures !Over(r) { assert r !in Stale(); }
      }
      ExpireIntervals();
      assert forall r :: r in Holding() <==> r in held && !Over(r);
      if spillSlots == 0 && Placed(s) {
        SimulatesFewer(old(refs), s, CountWanted(s), code[|old(code)|..], refs1, refs);
      }
    }

    lemma HoldingIsLive(stmts: seq<Stmt>, before: set<Ref>, i: nat)
      requires i < |stmts| && LastUses(stmts, |stmts|, lastUse) && before == LiveAt(stmts, lastUse, i)
      requires stmtIndex == i && forall r :: r in Holding() <==> r in before + Binds(stmts[i]) && !Over(r)
      ensures Holding() == LiveAt(stmts, lastUse, i + 1)
    {
      var live := LiveAt(stmts, lastUse, i + 1);
      forall r: Ref ensures r in Holding() <==> r in live {
        LiveNext(stmts, lastUse, i, r);
        assert LastMention(stmts, |stmts|, lastUse, r);
        assert r in Binds(stmts[i]) ==> MentionedAt(stmts, i, r);
      }
    }

    /** The statement the walk is at: lowered, with exactly the refs live after it held, or
        the reason why not. */
    method LowerHere(stmts: seq<Stmt>) returns (e: Option<LowerError>)
      requires Between(stmts) && stmtIndex < |stmts| && UniqueResults(stmts)
      modifies this
      ensures Valid() && lastUse == old(lastUse) && stmtIndex == old(stmtIndex)
      ensures e.None? ==> temps == [] && Stale() == {} && Holding() == LiveAt(stmts, lastUse, stmtIndex + 1)
      ensures e.None? && spillSlots == 0 ==> old(code) <= code
      ensures e.None? && spillSlots == 0 && Placed(stmts[stmtIndex]) ==>
        Simulates(old(refs), stmts[stmtIndex], Late(stmts, stmtIndex), code[|old(code)|..], refs)
      ensures e.Some? ==> Blames(e.value, stmts[stmtIndex], Live(stmts, stmtIndex), spillSlots)
      ensures e == Some(OutOfScratchRegs) ==> Exhausted()
      ensures spillSlots == 0 ==> (e.None? <==> Lowerable(stmts[stmtIndex], Live(stmts, stmtIndex)))
    {
      ghost var before := Holding();
      LiveIsLive(stmts, lastUse, stmtIndex);
      StaleAreOperands(stmts);
      NewIsUnplaced(stmts);
      LateIsWanted(stmts);
      e := LowerAndExpire(stmts[stmtIndex]);
      if e.None? { HoldingIsLive(stmts, before, stmtIndex); }
    }

    /** One turn of the loop: lower, then expire. */
    method LowerNext(stmts: seq<Stmt>) returns (e: Option<LowerError>)
      requires Between(stmts) && stmtIndex < |stmts| && UniqueResults(stmts)
      modifies this
      ensures Valid() && lastUse == old(lastUse)
      ensures e.None? ==> stmtIndex == old(stmtIndex) + 1 && Between(stmts)
      ensures e.None? ==> forall r :: r in spilled ==> lastUse[r] >= stmtIndex
      ensures e.None? && spillSlots == 0 ==> old(code) <= code
      ensures e.None? && spillSlots == 0 && Placed(stmts[old(stmtIndex)]) ==>
        Simulates(old(refs), stmts[old(stmtIndex)], Late(stmts, old(stmtIndex)), code[|old(code)|..], refs)
      ensures e.Some? ==> Blames(e.value, stmts[old(stmtIndex)], Live(stmts, old(stmtIndex)), spillSlots)
      ensures e == Some(OutOfScratchRegs) ==> Exhausted()
      ensures spillSlots == 0 ==> (e.None? <==> Lowerable(stmts[old(stmtIndex)], Live(stmts, old(stmtIndex))))
    {
      e := LowerHere(stmts);
      if e.Some? { return; }
      NoneStale();
      stmtIndex := stmtIndex + 1;
    }

    lemma NoneStale()
      requires Valid() && Stale() == {}
      ensures forall r :: r in spilled ==> r in lastUse && lastUse[r] > stmtIndex
    {
      forall r | r in spilled ensures r in lastUse && lastUse[r] > stmtIndex { assert r !in Stale(); }
    }

    /** The walk so far, when nothing is ever spilled. */
    ghost predicate Followed(stmts: seq<Stmt>, start: nat)
      requires stmtIndex <= |stmts| && start <= |code|
      reads this
    {
      forall known: bool :: AllReady(stmts, stmtIndex, known) ==> Follows(stmts, stmtIndex, known, code[start..], refs)
    }

    lemma FollowedNext(stmts: seq<Stmt>, start: nat, i: nat, refs0: Assign, code0: seq<Instr>)
      requires stmtIndex == i + 1 <= |stmts| && start <= |code0| && code0 <= code
      requires forall known: bool :: AllReady(stmts, i, known) ==> Follows(stmts, i, known, code0[start..], refs0)
      requires Placed(stmts[i]) ==> Simulates(refs0, stmts[i], Late(stmts, i), code[|code0|..], refs)
      ensures Followed(stmts, start)
    {
      forall known: bool | AllReady(stmts, stmtIndex, known)
        ensures Follows(stmts, stmtIndex, known, code[start..], refs)
      {
        assert AllReady(stmts, i, known) && ReadyAt(stmts, i, known);
        FollowsStep(stmts, i, known, code0[start..], refs0, code[|code0|..], refs);
        assert code0[start..] + code[|code0|..] == code[start..];
      }
    }

    /** One turn, and what the code does so far. */
    method WalkOn(stmts: seq<Stmt>, ghost start: nat) returns (e: Option<LowerError>)
      requires Between(stmts) && stmtIndex < |stmts| && UniqueResults(stmts)
      requires spillSlots == 0 ==> start <= |code| && Followed(stmts, start) && LowerableTo(stmts, stmtIndex)
      modifies this
      ensures Valid() && lastUse == old(lastUse)
      ensures e.None? ==> stmtIndex == old(stmtIndex) + 1 && Between(stmts)
      ensures e.None? && spillSlots == 0 ==> old(code) <= code && Followed(stmts, start)
      ensures e.None? && spillSlots == 0 ==> LowerableTo(stmts, stmtIndex)
      ensures e.Some? ==> Explained(stmts, e, spillSlots)
      ensures e == Some(OutOfScratchRegs) ==> Exhausted()
    {
      ghost var i, refs0, code0 := stmtIndex, refs, code;
      e := LowerNext(stmts);
      if e.Some? {
        FailureExplained(stmts, i, e.value, spillSlots);
      } else if spillSlots == 0 {
        FollowedNext(stmts, start, i, refs0, code0);
        LowerableNext(stmts, i);
      }
    }

    /** The loop of `lower`. */
    method Walk(stmts: seq<Stmt>) returns (e: Option<LowerError>)
      requires Between(stmts) && stmtIndex == 0 && UniqueResults(stmts) && Followed(stmts, |code|)
      modifies this
      ensures Valid() && (e.None? ==> stmtIndex == |stmts| && Between(stmts))
      ensures Explained(stmts, e, spillSlots) && (e == Some(OutOfScratchRegs) ==> Exhausted())
      ensures spillSlots == 0 && e.None? ==> old(code) <= code && Followed(stmts, |old(code)|)
    {
      ghost var start := |code|;
      while stmtIndex < |stmts|
        invariant Between(stmts) && start == |old(code)|
        invariant spillSlots == 0 ==> old(code) <= code && Followed(stmts, start) && LowerableTo(stmts, stmtIndex)
        decreases |stmts| - stmtIndex
      {
        e := WalkOn(stmts, start);
        if e.Some? { return; }
      }
      e := None;
      SuccessExplained(stmts, spillSlots);
    }

    /** `lower`: on success every register and slot is free again, and without spilling the
        emitted code follows the list. It fails for the reasons given and no others. */
    method Lower(stmts: seq<Stmt>) returns (e: Option<LowerError>)
      requires UniqueResults(stmts)
      modifies this
      ensures Valid()
      ensures e.None? ==> temps == [] && refs == map[] && spilled == map[]
      ensures Explained(stmts, e, spillSlots) && (e == Some(OutOfScratchRegs) ==> Exhausted())
      ensures e.None? && spillSlots == 0 ==> old(code) <= code
      ensures e.None? && spillSlots == 0 ==> forall known: bool ::
        AllReady(stmts, |stmts|, known) ==> Follows(stmts, |stmts|, known, code[|old(code)|..], map[])
    {
      Prepare(stmts);
      e := Walk(stmts);
      if e.None? { AllReleased(stmts); }
    }

    /** Fresh pools, last uses, and the walk at its start. */
    method Prepare(stmts: seq<Stmt>)
      modifies this
      ensures Between(stmts) && stmtIndex == 0 && code == old(code) && Followed(stmts, |code|)
    {
      Reset();
      lastUse := ComputeLiveness(stmts);
      stmtIndex := 0;
      FollowedStart(stmts, |code|);
    }

    lemma FollowedStart(stmts: seq<Stmt>, start: nat)
      requires stmtIndex == 0 && start == |code| && refs == map[]
      ensures Followed(stmts, start)
    {
      assert code[start..] == [];
      forall known: bool ensures Follows(stmts, 0, known, code[start..], refs) { FollowsStart(stmts, known); }
    }

    lemma AllReleased(stmts: seq<Stmt>)
      requires Between(stmts) && stmtIndex == |stmts|
      ensures refs == map[] && spilled == map[] && temps == []
    {
      NothingLiveAtEnd(stmts, lastUse);
    }
  }

  ghost predicate LowerableAt(stmts: seq<Stmt>, i: nat) { i < |stmts| ==> Lowerable(stmts[i], Live(stmts, i)) }

  ghost predicate LowerableTo(stmts: seq<Stmt>, n: nat) { forall i: nat :: i < n ==> LowerableAt(stmts, i) }

  lemma LowerableNext(stmts: seq<Stmt>, n: nat)
    requires LowerableTo(stmts, n) && LowerableAt(stmts, n)
    ensures LowerableTo(stmts, n + 1)
  {
  }

  /** The error is the fault of statement `i`; without slots the first that is at fault. */
  ghost predicate StopsAt(stmts: seq<Stmt>, i: nat, e: LowerError, slots: nat) {
    && i < |stmts| && Blames(e, stmts[i], Live(stmts, i), slots)
    && (slots == 0 ==> LowerableTo(stmts, i))
  }

  /** A list is lowered if nothing stands in the way of any of its statements; without
      slots, only then. A failure is the fault of one of them, and bound operands are
      never missed. */
  ghost predicate Explained(stmts: seq<Stmt>, e: Option<LowerError>, slots: nat) {
    && (LowerableTo(stmts, |stmts|) ==> e.None?)
    && (slots == 0 && e.None? ==> LowerableTo(stmts, |stmts|))
    && (e.Some? ==> exists i: nat :: StopsAt(stmts, i, e.value, slots))
    && (slots == 0 && WellBound(stmts) ==> e != Some(DanglingRef))
  }

  lemma FailureExplained(stmts: seq<Stmt>, i: nat, e: LowerError, slots: nat)
    requires i < |stmts| && Blames(e, stmts[i], Live(stmts, i), slots)
    requires slots == 0 ==> LowerableTo(stmts, i)
    ensures Explained(stmts, Some(e), slots)
  {
    assert StopsAt(stmts, i, e, slots) && !LowerableAt(stmts, i);
    if WellBound(stmts) { BoundIsLive(stmts, i); }
  }

  lemma SuccessExplained(stmts: seq<Stmt>, slots: nat)
    requires slots == 0 ==> LowerableTo(stmts, |stmts|)
    ensures Explained(stmts, None, slots)
  {
  }

  ghost predicate ReadyAt(stmts: seq<Stmt>, i: nat, known: bool) {
    i < |stmts| ==> Placed(stmts[i]) && FlagsReady(stmts[i], KnownAt(stmts, i, known))
  }

  /** Results are where they should be, and flags are read only where the machine has them. */
  ghost predicate AllReady(stmts: seq<Stmt>, n: nat, known: bool) {
    forall i: nat :: i < n ==> ReadyAt(stmts, i, known)
  }

  /** Compiler correctness against the IR itself: from a matching state, and unless a
      statement the run reaches deviates, the code ends as the list does. */
  lemma CompiledRun(stmts: seq<Stmt>, known: bool, code: seq<Instr>, st: State, m: Mach)
    requires Follows(stmts, |stmts|, known, code, map[]) && Match(map[], known, st, m)
    requires NoDeviation(stmts, |stmts|, st)
    ensures Outcome(map[], KnownAt(stmts, |stmts|, known), code, m, Run(stmts, st))
  {
    LoweredRunIsRun(stmts, |stmts|, st);
    TakeAll(stmts);
  }

  /** ... and if the first to deviate is a zero divide, it leaves there with the halt value. */
  lemma CompiledTrap(stmts: seq<Stmt>, i: nat, known: bool, code: seq<Instr>, st: State, m: Mach) returns (m1: Mach)
    requires Follows(stmts, |stmts|, known, code, map[]) && Match(map[], known, st, m)
    requires i < |stmts| && NoDeviation(stmts, i, st) && ZeroDivide(stmts[i], Run(stmts[..i], st))
    ensures Returns(code, m, m1) && m1.x[0] == HALT && GuestMatch(Run(stmts[..i], st), m1)
  {
    LoweredRunIsRun(stmts, i, st);
    LoweredRunStays(stmts, i + 1, |stmts|, st);
    var st1 := LoweredRun(stmts, |stmts|, st);
    assert Outcome(map[], KnownAt(stmts, |stmts|, known), code, m, st1);
    m1 :| Returns(code, m, m1) && m1.x[0] == HALT && GuestMatch(st1, m1);
  }

  /** Flags are read only where the machine has them. */
  ghost predicate FlagsAlwaysReady(stmts: seq<Stmt>, known: bool) {
    forall i: nat :: i < |stmts| ==> FlagsReady(stmts[i], KnownAt(stmts, i, known))
  }

  /** From every matching state whose run does not deviate, the code ends as the list does. */
  ghost predicate Correct(stmts: seq<Stmt>, known: bool, code: seq<Instr>) {
    forall st: State, m: Mach :: Match(map[], known, st, m) && NoDeviation(stmts, |stmts|, st) ==>
      Outcome(map[], KnownAt(stmts, |stmts|, known), code, m, Run(stmts, st))
  }

  /** The statement has an arm in the flat lowering, and all it needs is in the pool. */
  ghost predicate Fits(stmts: seq<Stmt>, i: nat) {
    i < |stmts| ==> !Refused(stmts[i].op) && Demand(stmts[i], Live(stmts, i)) <= 10
  }

  lemma FitsExplained(stmts: seq<Stmt>, e: Option<LowerError>)
    requires WellBound(stmts) && Explained(stmts, e, 0)
    ensures e.None? <==> forall i: nat :: Fits(stmts, i)
    ensures e == Some(UnsupportedOp) ==> exists i :: 0 <= i < |stmts| && Refused(stmts[i].op)
    ensures e == Some(OutOfScratchRegs) ==> exists i :: 0 <= i < |stmts| && Demand(stmts[i], Live(stmts, i)) > 10
  {
    forall i: nat ensures LowerableAt(stmts, i) <==> Fits(stmts, i) {
      if i < |stmts| { BoundIsLive(stmts, i); }
    }
    if e.Some? {
      var i: nat :| StopsAt(stmts, i, e.value, 0);
      assert 0 <= i < |stmts| && Blames(e.value, stmts[i], Live(stmts, i), 0);
    }
  }

  /** A list the validator accepts goes through the lowerer without a dangling ref, exactly if
      each statement fits, and what comes out is correct for every start at which its flag
      reads are covered. */
  method Compile(lowerer: Lowerer, stmts: seq<Stmt>) returns (e: Option<LowerError>)
    requires V.Valid(stmts) && lowerer.spillSlots == 0
    modifies lowerer
    ensures lowerer.Valid() && e != Some(DanglingRef)
    ensures e.None? <==> forall i: nat :: Fits(stmts, i)
    ensures e == Some(UnsupportedOp) ==> exists i :: 0 <= i < |stmts| && Refused(stmts[i].op)
    ensures e == Some(OutOfScratchRegs) ==> exists i :: 0 <= i < |stmts| && Demand(stmts[i], Live(stmts, i)) > 10
    ensures e.None? ==> old(lowerer.code) <= lowerer.code
    ensures e.None? ==> forall known: bool :: FlagsAlwaysReady(stmts, known) ==>
      Correct(stmts, known, lowerer.code[|old(lowerer.code)|..])
  {
    ValidIsBound(stmts);
    e := lowerer.Lower(stmts);
    FitsExplained(stmts, e);
    if e.Some? { return; }
    ghost var code := lowerer.code[|old(lowerer.code)|..];
    forall known: bool | FlagsAlwaysReady(stmts, known) ensures Correct(stmts, known, code) {
      assert AllReady(stmts, |stmts|, known);
      forall st: State, m: Mach | Match(map[], known, st, m) && NoDeviation(stmts, |stmts|, st)
        ensures Outcome(map[], KnownAt(stmts, |stmts|, known), code, m, Run(stmts, st))
      {
        CompiledRun(stmts, known, code, st, m);
      }
    }
  }

  /** For lists of full-width statements only a zero divide stands in the way. */
  lemma CorrectFullWidth(stmts: seq<Stmt>, known: bool, code: seq<Instr>, st: State, m: Mach)
    requires Correct(stmts, known, code) && Match(map[], known, st, m)
    requires forall i :: 0 <= i < |stmts| ==> FullWidth(stmts[i].op) && !Late(stmts, i)
    requires forall i :: 0 <= i < |stmts| ==> !ZeroDivide(stmts[i], Run(stmts[..i], st))
    ensures Outcome(map[], KnownAt(stmts, |stmts|, known), code, m, Run(stmts, st))
  {
    FullWidthDeviates(stmts, |stmts|, st);
  }
}
