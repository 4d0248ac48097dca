/** The allocator's bookkeeping as a value: which register or spill slot belongs to whom. */
module Pool {
  import opened Words
  import opened Arm

  const POOL_SIZE: nat := 10

  datatype Pool = Pool(free: seq<Reg>, temps: seq<Reg>, refs: map<Ref, Reg>, slots: seq<nat>, spilled: map<Ref, nat>)

  // ------------------------------------------------------------------
  // Stacks without repetition.
  // ------------------------------------------------------------------

  ghost predicate Differ<T>(s: seq<T>, i: nat, j: nat) { i < j < |s| ==> s[i] != s[j] }

  ghost predicate Distinct<T>(s: seq<T>) { forall i: nat, j: nat :: Differ(s, i, j) }

  function Top<T>(s: seq<T>): T
    requires |s| > 0
  {
    s[|s| - 1]
  }

  function Rest<T>(s: seq<T>): seq<T>
    requires |s| > 0
  {
    s[..|s| - 1]
  }

  lemma PopDistinct<T>(s: seq<T>)
    requires |s| > 0 && Distinct(s)
    ensures Distinct(Rest(s)) && Top(s) in s
    ensures forall x :: x in Rest(s) <==> x in s && x != Top(s)
  {
    forall i: nat, j: nat ensures Differ(Rest(s), i, j) { assert Differ(s, i, j); }
    forall x ensures x in Rest(s) <==> x in s && x != Top(s) {
      if x in Rest(s) {
        var i :| 0 <= i < |s| - 1 && s[i] == x;
        assert Differ(s, i, |s| - 1);
      }
      if x in s {
        var i :| 0 <= i < |s| && s[i] == x;
        assert i < |s| - 1 ==> Rest(s)[i] == x;
      }
    }
  }

  lemma PushDistinct<T>(s: seq<T>, y: T)
    requires Distinct(s) && y !in s
    ensures Distinct(s + [y])
    ensures forall x :: x in s + [y] <==> x in s || x == y
  {
    forall i: nat, j: nat ensures Differ(s + [y], i, j) { assert Differ(s, i, j); }
  }

  // ------------------------------------------------------------------
  // The partition.
  // ------------------------------------------------------------------

  /** Some ref holds `x`. */
  ghost predicate Held<T>(m: map<Ref, T>, x: T) { exists r :: r in m && m[r] == x }

  ghost predicate Apart<T>(m: map<Ref, T>, q: Ref, r: Ref) { q in m && r in m && q != r ==> m[q] != m[r] }

  ghost predicate OneToOne<T>(m: map<Ref, T>) { forall q: Ref, r: Ref :: Apart(m, q, r) }

  /** Exactly one of the three holders has a pool register, and none any other. */
  ghost predicate Once(p: Pool, x: Reg) {
    var a, b, c := x in p.free, x in p.temps, Held(p.refs, x);
    (x < POOL_SIZE <==> a || b || c) && !(a && b) && !(a && c) && !(b && c)
  }

  ghost predicate SlotOnce(p: Pool, slots: nat, k: nat) {
    (k < slots <==> k in p.slots || Held(p.spilled, k)) && !(k in p.slots && Held(p.spilled, k))
  }

  ghost predicate RegsPartition(p: Pool) {
    Distinct(p.free) && Distinct(p.temps) && OneToOne(p.refs) && forall x: Reg :: Once(p, x)
  }

  ghost predicate SlotsPartition(p: Pool, slots: nat) {
    Distinct(p.slots) && OneToOne(p.spilled) && forall k: nat :: SlotOnce(p, slots, k)
  }

  /** No ref has both a register and a slot. */
  ghost predicate OnePlace(p: Pool) { forall r :: r in p.refs ==> r !in p.spilled }

  ghost predicate Sound(p: Pool, slots: nat) { RegsPartition(p) && SlotsPartition(p, slots) }

  // ------------------------------------------------------------------
  // Maps.
  // ------------------------------------------------------------------

  lemma HeldPut<T>(m: map<Ref, T>, r: Ref, y: T)
    requires r !in m
    ensures forall x: T :: Held(m[r := y], x) <==> Held(m, x) || x == y
    ensures OneToOne(m) && !Held(m, y) ==> OneToOne(m[r := y])
  {
    var m1 := m[r := y];
    forall x: T ensures Held(m1, x) <==> Held(m, x) || x == y {
      if Held(m, x) { var q :| q in m && m[q] == x; assert q in m1 && m1[q] == x; }
      if x == y { assert r in m1 && m1[r] == x; }
    }
    if OneToOne(m) && !Held(m, y) {
      forall q: Ref, s: Ref ensures Apart(m1, q, s) { assert Apart(m, q, s); }
    }
  }

  lemma HeldDrop<T>(m: map<Ref, T>, r: Ref)
    requires r in m && OneToOne(m)
    ensures forall x: T :: Held(m - {r}, x) <==> Held(m, x) && x != m[r]
    ensures OneToOne(m - {r})
  {
    var m1 := m - {r};
    forall x: T ensures Held(m1, x) <==> Held(m, x) && x != m[r] {
      if Held(m1, x) { var q :| q in m1 && m1[q] == x; assert Apart(m, q, r); assert q in m && m[q] == x; }
      if Held(m, x) && x != m[r] { var q :| q in m && m[q] == x; assert q in m1 && m1[q] == x; }
    }
    forall q: Ref, s: Ref ensures Apart(m1, q, s) { assert Apart(m, q, s); }
  }

  // ------------------------------------------------------------------
  // The moves.
  // ------------------------------------------------------------------

  /** A register for a ref. */
  function TakeFor(p: Pool, r: Ref): Pool
    requires |p.free| > 0
  {
    p.(free := Rest(p.free), refs := p.refs[r := Top(p.free)])
  }

  /** A register for the rest of the statement. */
  function TakeTemp(p: Pool): Pool
    requires |p.free| > 0
  {
    p.(free := Rest(p.free), temps := p.temps + [Top(p.free)])
  }

  /** A ref goes to a slot and its register back to the pool. */
  function Evict(p: Pool, v: Ref): Pool
    requires v in p.refs && |p.slots| > 0
  {
    p.(free := p.free + [p.refs[v]], refs := p.refs - {v},
       slots := Rest(p.slots), spilled := p.spilled[v := Top(p.slots)])
  }

  /** A ref's slot is given back. */
  function Unspill(p: Pool, r: Ref): Pool
    requires r in p.spilled
  {
    p.(slots := p.slots + [p.spilled[r]], spilled := p.spilled - {r})
  }

  /** A ref's register is given back. */
  function Free(p: Pool, r: Ref): Pool
    requires r in p.refs
  {
    p.(free := p.free + [p.refs[r]], refs := p.refs - {r})
  }

  lemma TopIsFresh(p: Pool)
    requires RegsPartition(p) && |p.free| > 0
    ensures Top(p.free) < POOL_SIZE && Top(p.free) !in p.temps && !Held(p.refs, Top(p.free))
  {
    PopDistinct(p.free);
    assert Once(p, Top(p.free));
  }

  lemma TakeForKeeps(p: Pool, r: Ref)
    requires RegsPartition(p) && |p.free| > 0 && r !in p.refs
    ensures RegsPartition(TakeFor(p, r))
  {
    PopDistinct(p.free);
    TopIsFresh(p);
    HeldPut(p.refs, r, Top(p.free));
    forall x: Reg ensures Once(TakeFor(p, r), x) { assert Once(p, x); }
  }

  lemma TakeTempKeeps(p: Pool)
    requires RegsPartition(p) && |p.free| > 0
    ensures RegsPartition(TakeTemp(p))
  {
    PopDistinct(p.free);
    TopIsFresh(p);
    PushDistinct(p.temps, Top(p.free));
    forall x: Reg ensures Once(TakeTemp(p), x) { assert Once(p, x); }
  }

  lemma FreeKeeps(p: Pool, r: Ref)
    requires RegsPartition(p) && r in p.refs
    ensures RegsPartition(Free(p, r))
  {
    var y := p.refs[r];
    assert Held(p.refs, y) && Once(p, y);
    PushDistinct(p.free, y);
    HeldDrop(p.refs, r);
    forall x: Reg ensures Once(Free(p, r), x) { assert Once(p, x); }
  }

  lemma UnspillKeeps(p: Pool, n: nat, r: Ref)
    requires SlotsPartition(p, n) && r in p.spilled
    ensures SlotsPartition(Unspill(p, r), n)
  {
    var y := p.spilled[r];
    assert Held(p.spilled, y) && SlotOnce(p, n, y);
    PushDistinct(p.slots, y);
    HeldDrop(p.spilled, r);
    forall k: nat ensures SlotOnce(Unspill(p, r), n, k) { assert SlotOnce(p, n, k); }
  }

  lemma EvictKeeps(p: Pool, n: nat, v: Ref)
    requires Sound(p, n) && v in p.refs && v !in p.spilled && |p.slots| > 0
    ensures Sound(Evict(p, v), n)
  {
    FreeKeeps(p, v);
    var y := Top(p.slots);
    PopDistinct(p.slots);
    assert SlotOnce(p, n, y);
    HeldPut(p.spilled, v, y);
    forall k: nat ensures SlotOnce(Evict(p, v), n, k) { assert SlotOnce(p, n, k); }
    forall x: Reg ensures Once(Evict(p, v), x) { assert Once(Free(p, v), x); }
  }

  /** The first temporary goes back to the pool. */
  function FreeTemp(p: Pool): Pool
    requires |p.temps| > 0
  {
    p.(free := p.free + [p.temps[0]], temps := p.temps[1..])
  }

  lemma FreeTempKeeps(p: Pool)
    requires RegsPartition(p) && |p.temps| > 0
    ensures RegsPartition(FreeTemp(p))
  {
    var y, rest := p.temps[0], p.temps[1..];
    assert Once(p, y);
    PushDistinct(p.free, y);
    forall i: nat, j: nat ensures Differ(rest, i, j) { assert Differ(p.temps, i + 1, j + 1); }
    forall i | 0 <= i < |rest| ensures rest[i] != y { assert Differ(p.temps, 0, i + 1); }
    forall x: Reg ensures Once(FreeTemp(p), x) {
      assert Once(p, x);
      assert p.temps == [y] + rest;
    }
  }

  // ------------------------------------------------------------------
  // The fresh pool.
  // ------------------------------------------------------------------

  function Countdown(n: nat): seq<nat> { seq(n, i requires 0 <= i < n => n - 1 - i) }

  lemma CountdownHas(n: nat)
    ensures Distinct(Countdown(n))
    ensures forall k: nat :: k in Countdown(n) <==> k < n
  {
    forall k: nat ensures k in Countdown(n) <==> k < n {
      if k < n { assert Countdown(n)[n - 1 - k] == k; }
    }
  }

  lemma FreshSound(n: nat)
    ensures Sound(Pool(Countdown(POOL_SIZE), [], map[], Countdown(n), map[]), n)
  {
    var p := Pool(Countdown(POOL_SIZE), [], map[], Countdown(n), map[]);
    CountdownHas(POOL_SIZE);
    CountdownHas(n);
    forall x: Reg ensures Once(p, x) {}
    forall k: nat ensures SlotOnce(p, n, k) {}
  }

  lemma NoSlots(p: Pool)
    requires SlotsPartition(p, 0)
    ensures p.slots == [] && p.spilled == map[]
  {
    forall k: nat ensures k !in p.slots && !Held(p.spilled, k) { assert SlotOnce(p, 0, k); }
    SomeElement(p.slots);
    assert forall r :: r in p.spilled ==> Held(p.spilled, p.spilled[r]);
  }

  // Moves that leave the slots, or the registers, alone.

  lemma SameSlots(p: Pool, q: Pool, n: nat)
    requires SlotsPartition(p, n) && q.slots == p.slots && q.spilled == p.spilled
    ensures SlotsPartition(q, n)
  {
    forall k: nat ensures SlotOnce(q, n, k) { assert SlotOnce(p, n, k); }
  }

  lemma SameRegs(p: Pool, q: Pool)
    requires RegsPartition(p) && q.free == p.free && q.temps == p.temps && q.refs == p.refs
    ensures RegsPartition(q)
  {
    forall x: Reg ensures Once(q, x) { assert Once(p, x); }
  }

  // ------------------------------------------------------------------
  // Counting.
  // ------------------------------------------------------------------

  function Elements<T>(s: seq<T>): set<T> { set x | x in s }

  ghost function Values<T(!new)>(m: map<Ref, T>): set<T> { set r | r in m :: m[r] }

  lemma {:induction false} DistinctSize<T(!new)>(s: seq<T>)
    requires Distinct(s)
    ensures |Elements(s)| == |s|
    decreases |s|
  {
    if s != [] {
      PopDistinct(s);
      DistinctSize(Rest(s));
      assert Elements(s) == Elements(Rest(s)) + {Top(s)};
    }
  }

  lemma ValuesHeld<T(!new)>(m: map<Ref, T>)
    ensures forall x :: x in Values(m) <==> Held(m, x)
  {
  }

  lemma {:induction false} ValuesSize<T(!new)>(m: map<Ref, T>)
    requires OneToOne(m)
    ensures |Values(m)| == |m|
    decreases |m|
  {
    if m.Keys != {} {
      var r :| r in m;
      HeldDrop(m, r);
      ValuesSize(m - {r});
      ValuesHeld(m);
      ValuesHeld(m - {r});
      assert Values(m) == Values(m - {r}) + {m[r]} && m[r] !in Values(m - {r});
      assert m.Keys == (m - {r}).Keys + {r} && |m.Keys| == |m| && |(m - {r}).Keys| == |m - {r}|;
    }
  }

  lemma {:induction false} BelowSize(s: set<nat>, n: nat)
    requires forall x: nat :: x in s <==> x < n
    ensures |s| == n
    decreases n
  {
    if n > 0 {
      BelowSize(s - {n - 1}, n - 1);
    } else {
      assert s == {};
    }
  }

  /** Every register of the pool is counted once. */
  lemma PoolCounts(p: Pool)
    requires RegsPartition(p)
    ensures |p.free| + |p.temps| + |p.refs| == POOL_SIZE
  {
    var a, b, c := Elements(p.free), Elements(p.temps), Values(p.refs);
    DistinctSize(p.free);
    DistinctSize(p.temps);
    ValuesSize(p.refs);
    ValuesHeld(p.refs);
    forall x: Reg
      ensures x in a + b + c <==> x < POOL_SIZE
      ensures !(x in a && x in b) && !(x in a && x in c) && !(x in b && x in c)
    {
      assert Once(p, x);
    }
    assert a !! b && (a + b) !! c;
    var all: set<nat> := set x | x in a + b + c;
    assert all == a + b + c;
    BelowSize(all, POOL_SIZE);
  }
}
