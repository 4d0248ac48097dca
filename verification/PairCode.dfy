/** Compare-and-exchange of two words. */
module PairCode {
  import opened Words
  import opened Arith
  import opened Scalar
  import opened Arm

  /** Old words, expected words, new words, address and store status. */
  datatype Regs = Regs(lo: Reg, hi: Reg, el: Reg, eh: Reg, nl: Reg, nh: Reg, addr: Reg, status: Reg)

  function Written(r: Regs): set<Reg> { {r.lo, r.hi, r.status} }

  ghost predicate Apart(r: Regs) {
    && r.lo != r.hi && r.lo != r.status && r.hi != r.status
    && Written(r) !! {r.el, r.eh, r.nl, r.nh, r.addr}
  }

  function Code(r: Regs): seq<Instr> {
    [ Rare(Ldaxp(r.lo, r.hi, r.addr)),
      Cmp(r.lo, r.el),
      Bcc(Ne, 6),
      Cmp(r.hi, r.eh),
      Bcc(Ne, 4),
      Rare(Stlxp(r.status, r.nl, r.nh, r.addr)),
      Cbnz(r.status, -6),
      B(2),
      Nop ]
  }

  lemma EqualFlag(a: U64, b: U64)
    ensures CondHolds(Ne, SubFlags(a, b)) <==> a != b
  {
    if a != b { WrapDiffers(a, b); } else { WrapSmall(0); }
  }

  lemma WrapDiffers(a: U64, b: U64)
    requires a != b
    ensures Wrap(a - b) != 0
  {
    if a >= b { WrapSmall(a - b); } else { ModUnique(a - b, TWO64, -1, a - b + TWO64); }
  }

  /** `cmp rn, rm; b.ne off` */
  lemma Compares(code: seq<Instr>, pc: nat, rn: Reg, rm: Reg, off: int, m: Mach) returns (m1: Mach)
    requires pc + 1 < |code| && code[pc] == Cmp(rn, rm) && code[pc + 1] == Bcc(Ne, off) && !m.halted
    ensures m1 == m.(f := m1.f)
    ensures m.x[rn] == m.x[rm] ==> Gets(code, pc, m, pc + 2, m1)
    ensures m.x[rn] != m.x[rm] ==> Gets(code, pc, m, pc + 1 + off, m1)
  {
    m1 := Exec(code[pc], m);
    EqualFlag(m.x[rn], m.x[rm]);
    var next := pc + 1 + Offset(code[pc + 1], m1);
    GetsHere(code, next, m1);
    GetsStep(code, pc + 1, m1, next, m1);
    GetsStep(code, pc, m, next, m1);
  }

  function OldLow(r: Regs, m: Mach): U64 { Load(m.mem, m.x[r.addr], I64) }

  function OldHigh(r: Regs, m: Mach): U64 { HighWord(m.mem, m.x[r.addr]) }

  function HighWord(mem: Mem, a: U64): U64 { Load(mem, Wrap(a + 8), I64) }

  predicate AsExpected(r: Regs, m: Mach) { OldLow(r, m) == m.x[r.el] && OldHigh(r, m) == m.x[r.eh] }

  /** The old words loaded; the flags may differ. */
  ghost predicate Loaded(r: Regs, m: Mach, m1: Mach) {
    m1 == Set(Set(m, r.lo, OldLow(r, m)), r.hi, OldHigh(r, m)).(f := m1.f)
  }

  lemma Loads(r: Regs, m: Mach) returns (m1: Mach)
    requires !m.halted
    ensures Gets(Code(r), 0, m, 1, m1) && Loaded(r, m, m1)
  {
    m1 := Exec(Code(r)[0], m);
    GetsHere(Code(r), 1, m1);
    GetsStep(Code(r), 0, m, 1, m1);
  }

  /** Both comparisons: on to the store, or to the end. */
  lemma Tests(r: Regs, m: Mach) returns (m1: Mach)
    requires !m.halted
    ensures m1 == m.(f := m1.f)
    ensures m.x[r.lo] == m.x[r.el] && m.x[r.hi] == m.x[r.eh] ==> Gets(Code(r), 1, m, 5, m1)
    ensures m.x[r.lo] != m.x[r.el] || m.x[r.hi] != m.x[r.eh] ==> Gets(Code(r), 1, m, 8, m1)
  {
    var a := Compares(Code(r), 1, r.lo, r.el, 6, m);
    if m.x[r.lo] == m.x[r.el] {
      m1 := Compares(Code(r), 3, r.hi, r.eh, 4, a);
      GetsTrans(Code(r), 1, m, 3, a, if m.x[r.hi] == m.x[r.eh] then 5 else 8, m1);
    } else {
      m1 := a;
    }
  }

  /** Up to the store on a match, and to the end otherwise. */
  lemma Begins(r: Regs, m: Mach) returns (m1: Mach)
    requires Apart(r) && !m.halted
    ensures Loaded(r, m, m1) && Gets(Code(r), 0, m, if AsExpected(r, m) then 5 else 8, m1)
  {
    var a := Loads(r, m);
    m1 := Tests(r, a);
    GetsTrans(Code(r), 0, m, 1, a, if AsExpected(r, m) then 5 else 8, m1);
  }

  lemma Clears(r: Regs, m: Mach)
    requires !m.halted
    ensures Gets(Code(r), 8, m, 9, m)
  {
    GetsHere(Code(r), 9, m);
    GetsStep(Code(r), 8, m, 9, m);
  }

  lemma Retries(r: Regs, m: Mach) returns (m1: Mach)
    requires !m.halted && m.fails > 0
    ensures Gets(Code(r), 5, m, 0, m1) && m1 == Set(m.(fails := m.fails - 1), r.status, 1)
  {
    var code := Code(r);
    m1 := Exec(code[5], m);
    GetsHere(code, 0, m1);
    GetsStep(code, 6, m1, 0, m1);
    GetsStep(code, 5, m, 0, m1);
  }

  lemma Stores(r: Regs, m: Mach) returns (m1: Mach)
    requires !m.halted && m.fails == 0
    ensures Gets(Code(r), 5, m, 9, m1)
    ensures m1 == Set(m.(mem := StorePair(m.mem, m.x[r.addr], m.x[r.nl], m.x[r.nh])), r.status, 0)
  {
    var code := Code(r);
    m1 := Exec(code[5], m);
    GetsHere(code, 9, m1);
    GetsStep(code, 7, m1, 9, m1);
    GetsStep(code, 6, m1, 9, m1);
    GetsStep(code, 5, m, 9, m1);
  }

  /** What the exchange leaves. */
  ghost predicate Exchanged(r: Regs, m: Mach, m1: Mach) {
    && (forall x: Reg :: x !in Written(r) ==> m1.x[x] == m.x[x])
    && m1.x[r.lo] == OldLow(r, m) && m1.x[r.hi] == OldHigh(r, m) && !m1.halted && m1.frame == m.frame
    && m1.mem == (if AsExpected(r, m) then StorePair(m.mem, m.x[r.addr], m.x[r.nl], m.x[r.nh]) else m.mem)
  }

  /** A lost store leaves everything the next attempt reads. */
  lemma RetryKeeps(r: Regs, m: Mach, a: Mach, b: Mach, m1: Mach)
    requires Apart(r) && Loaded(r, m, a) && b == Set(a.(fails := b.fails), r.status, 1) && Exchanged(r, b, m1)
    ensures Exchanged(r, m, m1)
  {
  }

  lemma StoreExchanges(r: Regs, m: Mach, a: Mach, m1: Mach)
    requires Apart(r) && Loaded(r, m, a) && AsExpected(r, m) && !m.halted
    requires m1 == Set(a.(mem := StorePair(a.mem, a.x[r.addr], a.x[r.nl], a.x[r.nh])), r.status, 0)
    ensures Exchanged(r, m, m1)
  {
  }

  /** Both old words, and both new ones stored exactly if both old ones were as expected,
      however many stores lose their reservation first. */
  lemma {:induction false} PairRuns(r: Regs, m: Mach) returns (m1: Mach)
    requires Apart(r) && !m.halted
    ensures Does(Code(r), m, m1) && Exchanged(r, m, m1)
    decreases m.fails
  {
    var a := Begins(r, m);
    if !AsExpected(r, m) {
      m1 := a;
      Clears(r, a);
      GetsTrans(Code(r), 0, m, 8, a, 9, a);
    } else if a.fails > 0 {
      var b := Retries(r, a);
      m1 := PairRuns(r, b);
      RetryKeeps(r, m, a, b, m1);
      GetsTrans(Code(r), 0, m, 5, a, 0, b);
      GetsTrans(Code(r), 0, m, 0, b, 9, m1);
    } else {
      m1 := Stores(r, a);
      StoreExchanges(r, m, a, m1);
      GetsTrans(Code(r), 0, m, 5, a, 9, m1);
    }
  }
}
