/** The emitted 128-by-64-bit division (Intel SDM Vol. 2A chapter 3, DIV and
    IDIV): 64 unrolled shift-and-subtract steps between guards. */
module WideDivision {
  import opened Words
  import opened Arith
  import opened Scalar
  import opened LongDivision
  import opened Arm

  /** Work registers, and the number of the sign bit. */
  datatype Work = Work(rem: Reg, low: Reg, divisor: Reg, mask: Reg, bit: Reg, overflow: Reg, sign: U64)

  ghost predicate SignShift(k: U64) { k < 64 && forall v: U64 :: ShiftRight(v, k) == TopBit(v) }

  lemma SignShiftIs()
    ensures SignShift(63)
  {
    forall v: U64 ensures ShiftRight(v, 63) == TopBit(v) { TopBitIs(v); }
  }

  // ------------------------------------------------------------------
  // One step.
  // ------------------------------------------------------------------

  function ShiftCode(w: Work): seq<Instr> {
    [ LsrImm(w.bit, w.low, w.sign),
      Op3(AAdd, w.low, w.low, w.low),
      LsrImm(w.overflow, w.rem, w.sign),
      Op3(AAdd, w.rem, w.rem, w.rem),
      Op3(AOrr, w.rem, w.rem, w.bit) ]
  }

  function SubtractCode(q: Reg, w: Work): seq<Instr> {
    [ Cbnz(w.overflow, 4),
      Cmp(w.rem, w.divisor),
      Bcc(Uge, 2),
      B(3),
      Op3(ASub, w.rem, w.rem, w.divisor),
      Op3(AOrr, q, q, w.mask) ]
  }

  function StepCode(q: Reg, w: Work): seq<Instr> {
    ShiftCode(w) + (SubtractCode(q, w) + [LsrImm(w.mask, w.mask, 1)])
  }

  /** The registers a step writes, all different, and the divisor not among them. */
  ghost predicate Apart(q: Reg, w: Work) {
    && q != w.rem && q != w.low && q != w.mask && q != w.bit && q != w.overflow && q != w.divisor
    && w.rem != w.low && w.rem != w.mask && w.rem != w.bit && w.rem != w.overflow && w.rem != w.divisor
    && w.low != w.mask && w.low != w.bit && w.low != w.overflow && w.low != w.divisor
    && w.mask != w.bit && w.mask != w.overflow && w.mask != w.divisor
    && w.bit != w.overflow && w.bit != w.divisor && w.overflow != w.divisor && SignShift(w.sign)
  }

  function Written(q: Reg, w: Work): set<Reg> { {q, w.rem, w.low, w.mask, w.bit, w.overflow} }

  /** The shift of the two-word dividend. */
  lemma ShiftPart(q: Reg, w: Work, m: Mach) returns (m1: Mach)
    requires Apart(q, w) && !m.halted
    ensures Does(ShiftCode(w), m, m1) && Keeps(m, m1, {w.rem, w.low, w.bit, w.overflow})
    ensures m1.x[w.low] == Twice(m.x[w.low]) && m1.x[w.overflow] == TopBit(m.x[w.rem])
    ensures m1.x[w.rem] == ShiftedIn(m.x[w.rem], m.x[w.low])
  {
    var code := ShiftCode(w);
    var a1 := Exec(code[0], m);
    var a2 := Exec(code[1], a1);
    var a3 := Exec(code[2], a2);
    var a4 := Exec(code[3], a3);
    m1 := Exec(code[4], a4);
    GetsHere(code, 5, m1);
    GetsStep(code, 4, a4, 5, m1);
    GetsStep(code, 3, a3, 5, m1);
    GetsStep(code, 2, a2, 5, m1);
    GetsStep(code, 1, a1, 5, m1);
    GetsStep(code, 0, m, 5, m1);
  }

  /** The comparison, when the shift did not overflow. */
  lemma ComparePart(q: Reg, w: Work, m: Mach) returns (m1: Mach)
    requires !m.halted && m.x[w.overflow] == 0
    ensures m1 == Exec(Cmp(w.rem, w.divisor), m)
    ensures Gets(SubtractCode(q, w), 0, m, if m.x[w.rem] >= m.x[w.divisor] then 4 else 6, m1)
  {
    var code := SubtractCode(q, w);
    m1 := Exec(code[1], m);
    if m.x[w.rem] >= m.x[w.divisor] {
      GetsHere(code, 4, m1);
      GetsStep(code, 2, m1, 4, m1);
      GetsStep(code, 1, m, 4, m1);
      GetsStep(code, 0, m, 4, m1);
    } else {
      GetsHere(code, 6, m1);
      GetsStep(code, 3, m1, 6, m1);
      GetsStep(code, 2, m1, 6, m1);
      GetsStep(code, 1, m, 6, m1);
      GetsStep(code, 0, m, 6, m1);
    }
  }

  /** The branches to the subtraction or past it. */
  lemma BranchPart(q: Reg, w: Work, m: Mach) returns (m1: Mach)
    requires !m.halted
    ensures m1 == m || m1 == Exec(Cmp(w.rem, w.divisor), m)
    ensures Gets(SubtractCode(q, w), 0, m, if m.x[w.overflow] != 0 || m.x[w.rem] >= m.x[w.divisor] then 4 else 6, m1)
  {
    if m.x[w.overflow] != 0 {
      var code := SubtractCode(q, w);
      m1 := m;
      GetsHere(code, 4, m);
      GetsStep(code, 0, m, 4, m);
    } else {
      m1 := ComparePart(q, w, m);
    }
  }

  lemma SubtractPart(q: Reg, w: Work, m: Mach) returns (m1: Mach)
    requires Apart(q, w) && !m.halted
    ensures Gets(SubtractCode(q, w), 4, m, 6, m1)
    ensures m1.x[w.rem] == Minus(m.x[w.rem], m.x[w.divisor]) && m1.x[q] == Or64(m.x[q], m.x[w.mask])
    ensures Keeps(m, m1, {w.rem, q})
  {
    var code := SubtractCode(q, w);
    var a1 := Exec(code[4], m);
    m1 := Exec(code[5], a1);
    GetsHere(code, 6, m1);
    GetsStep(code, 5, a1, 6, m1);
    GetsStep(code, 4, m, 6, m1);
  }

  /** The conditional subtraction. */
  lemma MiddlePart(q: Reg, w: Work, m: Mach) returns (m1: Mach)
    requires Apart(q, w) && !m.halted
    ensures Does(SubtractCode(q, w), m, m1) && Keeps(m, m1, {w.rem, q})
    ensures var taken := m.x[w.overflow] != 0 || m.x[w.rem] >= m.x[w.divisor];
            && m1.x[w.rem] == (if taken then Minus(m.x[w.rem], m.x[w.divisor]) else m.x[w.rem])
            && m1.x[q] == (if taken then Or64(m.x[q], m.x[w.mask]) else m.x[q])
  {
    var a := BranchPart(q, w, m);
    if m.x[w.overflow] != 0 || m.x[w.rem] >= m.x[w.divisor] {
      m1 := SubtractPart(q, w, a);
      GetsTrans(SubtractCode(q, w), 0, m, 4, a, 6, m1);
    } else {
      m1 := a;
    }
  }

  /** ... and the next quotient bit. */
  lemma SubtractRuns(q: Reg, w: Work, m: Mach) returns (m1: Mach)
    requires Apart(q, w) && !m.halted
    ensures Does(SubtractCode(q, w) + [LsrImm(w.mask, w.mask, 1)], m, m1) && Keeps(m, m1, {w.rem, q, w.mask})
    ensures m1.x[w.mask] == ShiftRight(m.x[w.mask], 1)
    ensures var taken := m.x[w.overflow] != 0 || m.x[w.rem] >= m.x[w.divisor];
            && m1.x[w.rem] == (if taken then Minus(m.x[w.rem], m.x[w.divisor]) else m.x[w.rem])
            && m1.x[q] == (if taken then Or64(m.x[q], m.x[w.mask]) else m.x[q])
  {
    var i := LsrImm(w.mask, w.mask, 1);
    var a := MiddlePart(q, w, m);
    m1 := Exec(i, a);
    DoesOne(i, a);
    DoesThen(SubtractCode(q, w), [i], m, a, m1);
  }

  /** A step computes the next partial remainder and quotient bit. */
  lemma StepRuns(q: Reg, w: Work, m: Mach) returns (m1: Mach)
    requires Apart(q, w) && !m.halted
    ensures Does(StepCode(q, w), m, m1) && Keeps(m, m1, Written(q, w))
    ensures m1.x[w.rem] == NextRem(m.x[w.rem], m.x[w.low], m.x[w.divisor])
    ensures m1.x[w.low] == Twice(m.x[w.low]) && m1.x[w.mask] == ShiftRight(m.x[w.mask], 1)
    ensures m1.x[q] == NextQuotient(m.x[q], m.x[w.mask], m.x[w.rem], m.x[w.low], m.x[w.divisor])
  {
    var a := ShiftPart(q, w, m);
    m1 := SubtractRuns(q, w, a);
    DoesThen(ShiftCode(w), SubtractCode(q, w) + [LsrImm(w.mask, w.mask, 1)], m, a, m1);
  }

  // ------------------------------------------------------------------
  // All steps.
  // ------------------------------------------------------------------

  function StepsCode(q: Reg, w: Work, k: nat): seq<Instr>
    decreases k, q
  {
    if k == 0 then [] else StepCode(q, w) + StepsCode(q, w, k - 1)
  }

  ghost predicate MidwayIn(m: Mach, q: Reg, w: Work, t: nat, k: nat, h: nat) {
    Midway(m.x[w.rem], m.x[w.low], m.x[q], m.x[w.mask], m.x[w.divisor], t, k, h)
  }

  /** One step takes one bit of `t`. */
  lemma OneStep(q: Reg, w: Work, m: Mach, t: nat, k: nat, h: nat) returns (a: Mach, h1: nat)
    requires Apart(q, w) && !m.halted && k > 0 && MidwayIn(m, q, w, t, k, h)
    ensures Does(StepCode(q, w), m, a) && Keeps(m, a, Written(q, w)) && MidwayIn(a, q, w, Tail(t, k), k - 1, h1)
    ensures var x, d := 2 * m.x[w.rem] + Lead(t, k), m.x[w.divisor];
            && a.x[w.rem] == (if x >= d then x - d else x) && a.x[w.divisor] == d
            && a.x[q] == m.x[q] + (if x >= d then Pow2(k - 1) else 0)
  {
    h1 := MidwayStep(m.x[w.rem], m.x[w.low], m.x[q], m.x[w.mask], m.x[w.divisor], t, k, h);
    a := StepRuns(q, w, m);
  }

  lemma {:induction false} StepsRun(q: Reg, w: Work, m: Mach, t: nat, k: nat, h: nat) returns (m1: Mach)
    requires Apart(q, w) && !m.halted && MidwayIn(m, q, w, t, k, h)
    ensures Does(StepsCode(q, w, k), m, m1) && Keeps(m, m1, Written(q, w))
    ensures m1.x[w.rem] == DivR(m.x[w.rem], t, k, m.x[w.divisor])
    ensures m1.x[q] == Plus(m.x[q], DivQ(m.x[w.rem], t, k, m.x[w.divisor]))
    decreases k
  {
    if k == 0 {
      m1 := m;
      DoesNothing(m);
    } else {
      var a, h1 := OneStep(q, w, m, t, k, h);
      m1 := StepsRun(q, w, a, Tail(t, k), k - 1, h1);
      DoesThen(StepCode(q, w), StepsCode(q, w, k - 1), m, a, m1);
      KeepsTrans(m, a, m1, Written(q, w));
      StepsValues(m.x[w.rem], t, k, m.x[w.divisor], m.x[q], a.x[w.rem], a.x[q], m1.x[w.rem], m1.x[q]);
    }
  }

  function Plus(a: int, b: int): int { a + b }

  /** `emit_wide_udiv_core` */
  function CoreCode(q: Reg, w: Work): seq<Instr> {
    [MovImm(w.mask, TWO63), MovImm(q, 0)] + StepsCode(q, w, 64)
  }

  lemma CoreStart(low: U64, rem: U64, d: U64)
    requires rem < d
    ensures Midway(rem, low, 0, TWO63, d, low, 64, 0)
  {
    Pow2Values();
  }

  lemma CoreSteps(q: Reg, w: Work, m: Mach) returns (m1: Mach)
    requires Apart(q, w) && !m.halted && m.x[w.rem] < m.x[w.divisor] && m.x[w.mask] == TWO63 && m.x[q] == 0
    ensures Does(StepsCode(q, w, 64), m, m1) && Keeps(m, m1, Written(q, w))
    ensures IsDivision(WideOf(m.x[w.rem], m.x[w.low]), m.x[w.divisor], m1.x[q], m1.x[w.rem])
  {
    CoreStart(m.x[w.low], m.x[w.rem], m.x[w.divisor]);
    m1 := StepsRun(q, w, m, m.x[w.low], 64, 0);
    CoreValue(m.x[w.rem], m.x[w.low], m.x[w.divisor]);
  }

  /** Quotient and remainder of the two-word dividend. */
  lemma CoreRuns(q: Reg, w: Work, m: Mach) returns (m1: Mach)
    requires Apart(q, w) && !m.halted && m.x[w.rem] < m.x[w.divisor]
    ensures Does(CoreCode(q, w), m, m1) && Keeps(m, m1, Written(q, w))
    ensures IsDivision(WideOf(m.x[w.rem], m.x[w.low]), m.x[w.divisor], m1.x[q], m1.x[w.rem])
  {
    var a := Set(Set(m, w.mask, TWO63), q, 0);
    DoesTwo(MovImm(w.mask, TWO63), MovImm(q, 0), m);
    m1 := CoreSteps(q, w, a);
    DoesThen([MovImm(w.mask, TWO63), MovImm(q, 0)], StepsCode(q, w, 64), m, a, m1);
  }

  lemma CoreValue(rem: U64, low: U64, d: U64)
    requires rem < d
    ensures IsDivision(WideOf(rem, low), d, DivQ(rem, low, 64, d), DivR(rem, low, 64, d))
  {
    Pow2Values();
    LongDivExact(rem, low, 64, d);
  }

  // ------------------------------------------------------------------
  // Unsigned division.
  // ------------------------------------------------------------------

  /** Copies the remainder over the quotient if that is what is wanted. */
  function PickCode(rd: Reg, w: Work, want: WideDivResult): seq<Instr> {
    if want.Remainder? then [Mov(rd, w.rem)] else []
  }

  lemma PickRuns(rd: Reg, w: Work, want: WideDivResult, m: Mach) returns (m1: Mach)
    requires !m.halted
    ensures Does(PickCode(rd, w, want), m, m1) && m1 == Set(m, rd, if want.Remainder? then m.x[w.rem] else m.x[rd])
  {
    if want.Remainder? {
      m1 := Exec(Mov(rd, w.rem), m);
      DoesOne(Mov(rd, w.rem), m);
    } else {
      m1 := m;
      DoesNothing(m);
    }
  }

  function LoadCode(w: Work, high: Reg, low: Reg): seq<Instr> { [Mov(w.rem, high), Mov(w.low, low)] }

  /** The operand registers are none of those written. */
  ghost predicate Operands(rd: Reg, w: Work, high: Reg, low: Reg, divisor: Reg) {
    Apart(rd, w) && high !in Written(rd, w) && low !in Written(rd, w) && divisor !in Written(rd, w)
  }

  /** After the guards: load, divide, pick. */
  function UnsignedTail(rd: Reg, w: Work, want: WideDivResult): seq<Instr> {
    CoreCode(rd, w) + PickCode(rd, w, want)
  }

  lemma UnsignedTailRuns(rd: Reg, w: Work, want: WideDivResult, m: Mach) returns (m1: Mach, q: U64, r: U64)
    requires Apart(rd, w) && !m.halted && m.x[w.rem] < m.x[w.divisor]
    ensures Does(UnsignedTail(rd, w, want), m, m1) && Keeps(m, m1, Written(rd, w))
    ensures IsDivision(WideOf(m.x[w.rem], m.x[w.low]), m.x[w.divisor], q, r)
    ensures m1.x[rd] == (if want.Quotient? then q else r)
  {
    var a := CoreRuns(rd, w, m);
    q, r := a.x[rd], a.x[w.rem];
    m1 := PickRuns(rd, w, want, a);
    DoesThen(CoreCode(rd, w), PickCode(rd, w, want), m, a, m1);
  }

  function UnsignedCode(rd: Reg, w: Work, high: Reg, low: Reg, divisor: Reg, want: WideDivResult): seq<Instr> {
    ZeroGuard(divisor) + (LoadCode(w, high, low) + (CompareGuard(high, divisor, Ult) + UnsignedTail(rd, w, want)))
  }

  lemma LoadRuns(rd: Reg, w: Work, high: Reg, low: Reg, divisor: Reg, m: Mach) returns (m1: Mach)
    requires Operands(rd, w, high, low, divisor) && !m.halted
    ensures Does(LoadCode(w, high, low), m, m1) && Keeps(m, m1, Written(rd, w))
    ensures m1.x[w.rem] == m.x[high] && m1.x[w.low] == m.x[low]
  {
    m1 := Exec(Mov(w.low, low), Exec(Mov(w.rem, high), m));
    DoesTwo(Mov(w.rem, high), Mov(w.low, low), m);
  }

  lemma UltIs(a: U64, b: U64)
    ensures CondHolds(Ult, SubFlags(a, b)) <==> a < b
  {
  }

  /** What the emitted code does for given operand values. */
  ghost predicate Divides(code: seq<Instr>, rd: Reg, ws: set<Reg>, m: Mach, m1: Mach, high: U64, low: U64, d: U64,
                          isSigned: bool, want: WideDivResult) {
    if WideDivTraps(high, low, d, isSigned, want)
    then Returns(code, m, m1) && m1.x[0] == 0 && Spares(m, m1, ws + {0})
    else Does(code, m, m1) && Keeps(m, m1, ws) && m1.x[rd] == WideDivValue(high, low, d, isSigned, want)
  }

  /** The high word must be below the divisor. */
  lemma UnsignedGuarded(rd: Reg, w: Work, high: Reg, divisor: Reg, want: WideDivResult, m: Mach) returns (m1: Mach)
    requires Apart(rd, w) && !m.halted && w.divisor == divisor && divisor !in Written(rd, w) && m.x[divisor] > 0
    requires m.x[high] == m.x[w.rem]
    ensures Divides(CompareGuard(high, divisor, Ult) + UnsignedTail(rd, w, want), rd, Written(rd, w), m, m1,
                    m.x[high], m.x[w.low], m.x[divisor], false, want)
  {
    var guard := CompareGuard(high, divisor, Ult);
    var tail := UnsignedTail(rd, w, want);
    UltIs(m.x[high], m.x[divisor]);
    QuotientOverflow(m.x[high], m.x[w.low], m.x[divisor]);
    var a := Exec(Cmp(high, divisor), m);
    if m.x[high] >= m.x[divisor] {
      CompareGuardTraps(high, divisor, Ult, m);
      m1 := Halted(a, 0);
      ReturnsEarly(guard, tail, m, m1);
    } else {
      CompareGuardPasses(high, divisor, Ult, m);
      var q, r;
      m1, q, r := UnsignedTailRuns(rd, w, want, a);
      DoesThen(guard, tail, m, a, m1);
      TruncFrom(WideOf(m.x[high], m.x[w.low]), m.x[divisor], q, r);
      WrapSmall(q);
      WrapSmall(r);
    }
  }

  /** DIV: quotient or remainder, or the divide-error exit, as the manual says. */
  lemma UnsignedRuns(rd: Reg, w: Work, high: Reg, low: Reg, divisor: Reg, want: WideDivResult, m: Mach)
    returns (m1: Mach)
    requires Operands(rd, w, high, low, divisor) && w.divisor == divisor && !m.halted
    ensures Divides(UnsignedCode(rd, w, high, low, divisor, want), rd, Written(rd, w), m, m1,
                    m.x[high], m.x[low], m.x[divisor], false, want)
  {
    var rest := CompareGuard(high, divisor, Ult) + UnsignedTail(rd, w, want);
    var load := LoadCode(w, high, low);
    if m.x[divisor] == 0 {
      ZeroGuardTraps(divisor, m);
      m1 := Halted(m, 0);
      ReturnsEarly(ZeroGuard(divisor), load + rest, m, m1);
    } else {
      ZeroGuardPasses(divisor, m);
      var a := LoadRuns(rd, w, high, low, divisor, m);
      m1 := UnsignedGuarded(rd, w, high, divisor, want, a);
      After2(ZeroGuard(divisor), load, rest, rd, Written(rd, w), m, m, a, m1,
             m.x[high], m.x[low], m.x[divisor], false, want);
    }
  }

  /** Two pieces of code that keep everything else, then one that divides. */
  lemma After2(a: seq<Instr>, b: seq<Instr>, c: seq<Instr>, rd: Reg, ws: set<Reg>, m: Mach, m1: Mach, m2: Mach,
               m3: Mach, high: U64, low: U64, d: U64, isSigned: bool, want: WideDivResult)
    requires Does(a, m, m1) && Does(b, m1, m2) && Keeps(m, m1, ws) && Keeps(m1, m2, ws)
    requires Divides(c, rd, ws, m2, m3, high, low, d, isSigned, want)
    ensures Divides(a + (b + c), rd, ws, m, m3, high, low, d, isSigned, want)
  {
    After1(b, c, rd, ws, m1, m2, m3, high, low, d, isSigned, want);
    After1(a, b + c, rd, ws, m, m1, m3, high, low, d, isSigned, want);
  }

  lemma After1(a: seq<Instr>, b: seq<Instr>, rd: Reg, ws: set<Reg>, m: Mach, m1: Mach, m2: Mach,
               high: U64, low: U64, d: U64, isSigned: bool, want: WideDivResult)
    requires Does(a, m, m1) && Keeps(m, m1, ws)
    requires Divides(b, rd, ws, m1, m2, high, low, d, isSigned, want)
    ensures Divides(a + b, rd, ws, m, m2, high, low, d, isSigned, want)
  {
    if WideDivTraps(high, low, d, isSigned, want) {
      DoesThenReturns(a, b, m, m1, m2);
    } else {
      DoesThen(a, b, m, m1, m2);
    }
  }

  // ------------------------------------------------------------------
  // Signed division.
  // ------------------------------------------------------------------

  function WrittenSigned(rd: Reg, w: Work): set<Reg> { Written(rd, w) + {w.divisor} }

  ghost predicate SignedOperands(rd: Reg, w: Work, high: Reg, low: Reg, divisor: Reg) {
    && Apart(rd, w) && high !in WrittenSigned(rd, w) && low !in WrittenSigned(rd, w) && divisor !in WrittenSigned(rd, w)
  }

  function LoadSignedCode(w: Work, high: Reg, low: Reg, divisor: Reg): seq<Instr> {
    LoadCode(w, high, low) + [Mov(w.divisor, divisor)]
  }

  lemma LoadSignedRuns(rd: Reg, w: Work, high: Reg, low: Reg, divisor: Reg, m: Mach) returns (m1: Mach)
    requires SignedOperands(rd, w, high, low, divisor) && !m.halted
    ensures Does(LoadSignedCode(w, high, low, divisor), m, m1) && Keeps(m, m1, WrittenSigned(rd, w))
    ensures m1.x[w.rem] == m.x[high] && m1.x[w.low] == m.x[low] && m1.x[w.divisor] == m.x[divisor]
  {
    var a := LoadRuns(rd, w, high, low, divisor, m);
    m1 := Exec(Mov(w.divisor, divisor), a);
    DoesOne(Mov(w.divisor, divisor), a);
    DoesThen(LoadCode(w, high, low), [Mov(w.divisor, divisor)], m, a, m1);
  }

  /** Negation of the two-word dividend in place. */
  function NegateCode(w: Work): seq<Instr> {
    [ MovImm(w.mask, ALL_ONES),
      Cbz(w.low, 4),
      NegReg(w.low, w.low),
      Op3(AEor, w.rem, w.rem, w.mask),
      B(2),
      NegReg(w.rem, w.rem) ]
  }

  lemma NegateRuns(rd: Reg, w: Work, m: Mach) returns (m1: Mach)
    requires Apart(rd, w) && !m.halted
    ensures Does(NegateCode(w), m, m1) && Keeps(m, m1, {w.mask, w.low, w.rem})
    ensures m1.x[w.low] == Neg(m.x[w.low]) && m1.x[w.rem] == NegHigh(m.x[w.rem], m.x[w.low])
  {
    var code := NegateCode(w);
    var a := Exec(code[0], m);
    NegIs(m.x[w.low]);
    if m.x[w.low] == 0 {
      m1 := Exec(code[5], a);
      GetsHere(code, 6, m1);
      GetsStep(code, 5, a, 6, m1);
      GetsStep(code, 1, a, 6, m1);
      GetsStep(code, 0, m, 6, m1);
    } else {
      var b := Exec(code[2], a);
      m1 := Exec(code[3], b);
      GetsHere(code, 6, m1);
      GetsStep(code, 4, m1, 6, m1);
      GetsStep(code, 3, b, 6, m1);
      GetsStep(code, 2, a, 6, m1);
      GetsStep(code, 1, a, 6, m1);
      GetsStep(code, 0, m, 6, m1);
    }
  }

  function AbsDividendCode(w: Work): seq<Instr> { [LsrImm(w.bit, w.rem, w.sign)] + UnlessZero(w.bit, NegateCode(w)) }

  lemma AbsDividendRuns(rd: Reg, w: Work, m: Mach) returns (m1: Mach)
    requires Apart(rd, w) && !m.halted
    ensures Does(AbsDividendCode(w), m, m1) && Keeps(m, m1, {w.bit, w.mask, w.low, w.rem})
    ensures WideOf(m1.x[w.rem], m1.x[w.low]) == Abs(WideDividend(m.x[w.rem], m.x[w.low], true))
  {
    var a := Exec(LsrImm(w.bit, w.rem, w.sign), m);
    DoesOne(LsrImm(w.bit, w.rem, w.sign), m);
    if m.x[w.rem] >= TWO63 {
      m1 := NegateRuns(rd, w, a);
      RunsOnNonZero(w.bit, NegateCode(w), a, m1);
      NegWide(m.x[w.rem], m.x[w.low]);
    } else {
      m1 := a;
      SkipsOnZero(w.bit, NegateCode(w), a);
    }
    DoesThen([LsrImm(w.bit, w.rem, w.sign)], UnlessZero(w.bit, NegateCode(w)), m, a, m1);
  }

  function AbsDivisorCode(w: Work): seq<Instr> {
    [LsrImm(w.bit, w.divisor, w.sign)] + UnlessZero(w.bit, [NegReg(w.divisor, w.divisor)])
  }

  /** Negates a register when the sign bit of another says so. */
  lemma FlipRuns(bit: Reg, rd: Reg, m: Mach, negative: bool) returns (m1: Mach)
    requires !m.halted && (m.x[bit] != 0 <==> negative)
    ensures Does(UnlessZero(bit, [NegReg(rd, rd)]), m, m1)
    ensures m1 == Set(m, rd, Signed(negative, m.x[rd]))
  {
    if negative {
      m1 := Exec(NegReg(rd, rd), m);
      DoesOne(NegReg(rd, rd), m);
      RunsOnNonZero(bit, [NegReg(rd, rd)], m, m1);
    } else {
      m1 := m;
      SkipsOnZero(bit, [NegReg(rd, rd)], m);
    }
  }

  lemma AbsDivisorRuns(rd: Reg, w: Work, m: Mach) returns (m1: Mach)
    requires Apart(rd, w) && !m.halted && m.x[w.divisor] > 0
    ensures Does(AbsDivisorCode(w), m, m1) && Keeps(m, m1, {w.bit, w.divisor})
    ensures m1.x[w.divisor] == Abs(ToSigned(m.x[w.divisor])) > 0
  {
    var a := Exec(LsrImm(w.bit, w.divisor, w.sign), m);
    DoesOne(LsrImm(w.bit, w.divisor, w.sign), m);
    m1 := FlipRuns(w.bit, w.divisor, a, m.x[w.divisor] >= TWO63);
    DoesThen([LsrImm(w.bit, w.divisor, w.sign)], UnlessZero(w.bit, [NegReg(w.divisor, w.divisor)]), m, a, m1);
    AbsDivisorIs(m.x[w.divisor]);
  }

  // ------------------------------------------------------------------
  // Range guard and sign of the result.
  // ------------------------------------------------------------------

  function UnlikeCode(w: Work, high: Reg, divisor: Reg): seq<Instr> {
    [LsrImm(w.bit, high, w.sign), LsrImm(w.overflow, divisor, w.sign), Op3(AEor, w.bit, w.bit, w.overflow)]
  }

  lemma UnlikeRuns(rd: Reg, w: Work, high: Reg, divisor: Reg, m: Mach) returns (m1: Mach)
    requires Apart(rd, w) && !m.halted && high != w.bit && divisor != w.bit
    ensures Does(UnlikeCode(w, high, divisor), m, m1) && Keeps(m, m1, {w.bit, w.overflow})
    ensures m1.x[w.bit] == Unlike(m.x[high], m.x[divisor])
  {
    var code := UnlikeCode(w, high, divisor);
    var a := Exec(code[0], m);
    var b := Exec(code[1], a);
    m1 := Exec(code[2], b);
    GetsHere(code, 3, m1);
    GetsStep(code, 2, b, 3, m1);
    GetsStep(code, 1, a, 3, m1);
    GetsStep(code, 0, m, 3, m1);
  }

  function RangeCode(rd: Reg, w: Work): seq<Instr> {
    [ MovImm(w.mask, w.sign),
      Cbnz(w.bit, 5),
      Op3(ALsr, w.overflow, rd, w.mask),
      Cbz(w.overflow, 8),
      MovImm(0, 0),
      Ret,
      MovImm(w.mask, TWO63),
      Cmp(rd, w.mask),
      Bcc(Ule, 3),
      MovImm(0, 0),
      Ret ]
  }

  lemma ShiftToSign(k: U64, v: U64)
    requires SignShift(k)
    ensures AluValue(ALsr, v, k) == TopBit(v)
  {
  }

  lemma PositiveTest(rd: Reg, w: Work, m: Mach) returns (m1: Mach)
    requires Apart(rd, w) && !m.halted && m.x[w.bit] == 0
    ensures Gets(RangeCode(rd, w), 0, m, 3, m1) && Keeps(m, m1, {w.mask, w.overflow})
    ensures m1.x[w.overflow] == TopBit(m.x[rd])
  {
    var code := RangeCode(rd, w);
    var a := Exec(code[0], m);
    m1 := Exec(code[2], a);
    ShiftToSign(w.sign, m.x[rd]);
    GetsHere(code, 3, m1);
    GetsStep(code, 2, a, 3, m1);
    GetsStep(code, 1, a, 3, m1);
    GetsStep(code, 0, m, 3, m1);
  }

  /** A result that stays positive: its top bit must be clear. */
  lemma PositivePasses(rd: Reg, w: Work, m: Mach) returns (m1: Mach)
    requires Apart(rd, w) && !m.halted && m.x[w.bit] == 0 && InRange(false, m.x[rd])
    ensures Does(RangeCode(rd, w), m, m1) && Keeps(m, m1, {w.mask, w.overflow})
  {
    var code := RangeCode(rd, w);
    m1 := PositiveTest(rd, w, m);
    GetsHere(code, 11, m1);
    GetsStep(code, 3, m1, 11, m1);
    GetsTrans(code, 0, m, 3, m1, 11, m1);
  }

  /** One that will be negated: at most 2^63. */
  lemma NegativePasses(rd: Reg, w: Work, m: Mach) returns (m1: Mach)
    requires Apart(rd, w) && !m.halted && m.x[w.bit] != 0 && InRange(true, m.x[rd])
    ensures Does(RangeCode(rd, w), m, m1) && Keeps(m, m1, {w.mask, w.overflow})
  {
    var code := RangeCode(rd, w);
    var a := Exec(code[0], m);
    var b := Exec(code[6], a);
    m1 := Exec(code[7], b);
    GetsHere(code, 11, m1);
    GetsStep(code, 8, m1, 11, m1);
    GetsStep(code, 7, b, 11, m1);
    GetsStep(code, 6, a, 11, m1);
    GetsStep(code, 1, a, 11, m1);
    GetsStep(code, 0, m, 11, m1);
  }

  lemma RangePasses(rd: Reg, w: Work, m: Mach) returns (m1: Mach)
    requires Apart(rd, w) && !m.halted && InRange(m.x[w.bit] != 0, m.x[rd])
    ensures Does(RangeCode(rd, w), m, m1) && Keeps(m, m1, {w.mask, w.overflow})
  {
    if m.x[w.bit] == 0 { m1 := PositivePasses(rd, w, m); } else { m1 := NegativePasses(rd, w, m); }
  }

  lemma PositiveTraps(rd: Reg, w: Work, m: Mach) returns (m1: Mach)
    requires Apart(rd, w) && !m.halted && m.x[w.bit] == 0 && !InRange(false, m.x[rd])
    ensures Returns(RangeCode(rd, w), m, m1) && m1.x[0] == 0 && Spares(m, m1, {w.mask, w.overflow, 0})
  {
    var code := RangeCode(rd, w);
    var a := PositiveTest(rd, w, m);
    m1 := Halted(a, 0);
    GetsHere(code, 6, m1);
    GetsStep(code, 5, Set(a, 0, 0), 6, m1);
    GetsStep(code, 4, a, 6, m1);
    GetsStep(code, 3, a, 6, m1);
    GetsTrans(code, 0, m, 3, a, 6, m1);
  }

  lemma NegativeTraps(rd: Reg, w: Work, m: Mach) returns (m1: Mach)
    requires Apart(rd, w) && !m.halted && m.x[w.bit] != 0 && !InRange(true, m.x[rd])
    ensures Returns(RangeCode(rd, w), m, m1) && m1.x[0] == 0 && Spares(m, m1, {w.mask, w.overflow, 0})
  {
    var code := RangeCode(rd, w);
    var a := Exec(code[0], m);
    var b := Exec(code[6], a);
    var c := Exec(code[7], b);
    m1 := Halted(c, 0);
    GetsHere(code, 11, m1);
    GetsStep(code, 10, Set(c, 0, 0), 11, m1);
    GetsStep(code, 9, c, 11, m1);
    GetsStep(code, 8, c, 11, m1);
    GetsStep(code, 7, b, 11, m1);
    GetsStep(code, 6, a, 11, m1);
    GetsStep(code, 1, a, 11, m1);
    GetsStep(code, 0, m, 11, m1);
  }

  lemma RangeTraps(rd: Reg, w: Work, m: Mach) returns (m1: Mach)
    requires Apart(rd, w) && !m.halted && !InRange(m.x[w.bit] != 0, m.x[rd])
    ensures Returns(RangeCode(rd, w), m, m1) && m1.x[0] == 0 && Spares(m, m1, {w.mask, w.overflow, 0})
  {
    if m.x[w.bit] == 0 { m1 := PositiveTraps(rd, w, m); } else { m1 := NegativeTraps(rd, w, m); }
  }

  /** The bit that says whether to negate. */
  function SignBitCode(w: Work, high: Reg, divisor: Reg, want: WideDivResult): seq<Instr> {
    if want.Quotient? then UnlikeCode(w, high, divisor) else [LsrImm(w.bit, high, w.sign)]
  }

  function SignCode(rd: Reg, w: Work, high: Reg, divisor: Reg, want: WideDivResult): seq<Instr> {
    SignBitCode(w, high, divisor, want) + UnlessZero(w.bit, [NegReg(rd, rd)])
  }

  /** The sign the result gets. */
  predicate ResultNegative(high: U64, d: U64, want: WideDivResult) {
    if want.Quotient? then (high >= TWO63) != (d >= TWO63) else high >= TWO63
  }

  lemma SignBitRuns(rd: Reg, w: Work, high: Reg, divisor: Reg, want: WideDivResult, m: Mach) returns (m1: Mach)
    requires Apart(rd, w) && !m.halted && high != w.bit && divisor != w.bit
    ensures Does(SignBitCode(w, high, divisor, want), m, m1) && Keeps(m, m1, {w.bit, w.overflow})
    ensures m1.x[w.bit] == (if ResultNegative(m.x[high], m.x[divisor], want) then 1 else 0)
  {
    if want.Quotient? {
      m1 := UnlikeRuns(rd, w, high, divisor, m);
      UnlikeIs(m.x[high], m.x[divisor]);
    } else {
      m1 := Exec(LsrImm(w.bit, high, w.sign), m);
      DoesOne(LsrImm(w.bit, high, w.sign), m);
      }
  }

  lemma SignRuns(rd: Reg, w: Work, high: Reg, divisor: Reg, want: WideDivResult, m: Mach) returns (m1: Mach)
    requires Apart(rd, w) && !m.halted && high != w.bit && divisor != w.bit
    ensures Does(SignCode(rd, w, high, divisor, want), m, m1) && Keeps(m, m1, {rd, w.bit, w.overflow})
    ensures m1.x[rd] == Signed(ResultNegative(m.x[high], m.x[divisor], want), m.x[rd])
  {
    var a := SignBitRuns(rd, w, high, divisor, want, m);
    m1 := FlipRuns(w.bit, rd, a, ResultNegative(m.x[high], m.x[divisor], want));
    DoesThen(SignBitCode(w, high, divisor, want), UnlessZero(w.bit, [NegReg(rd, rd)]), m, a, m1);
  }

  // ------------------------------------------------------------------
  // The whole signed sequence.
  // ------------------------------------------------------------------

  function FinishCode(rd: Reg, w: Work, high: Reg, divisor: Reg, want: WideDivResult): seq<Instr> {
    UnlikeCode(w, high, divisor) + (RangeCode(rd, w) + SignCode(rd, w, high, divisor, want))
  }

  /** The values the finish starts from: magnitudes of quotient and remainder. */
  ghost predicate Magnitudes(h: U64, l: U64, d: U64, want: WideDivResult, q: U64, r: U64, v: U64) {
    && d > 0 && IsDivision(Abs(WideDividend(h, l, true)), Abs(ToSigned(d)), q, r)
    && v == (if want.Quotient? then q else r)
  }

  lemma DividendSign(h: U64, l: U64)
    ensures WideDividend(h, l, true) < 0 <==> h >= TWO63
  {
  }

  /** The guard fires exactly on quotients that do not fit. */
  lemma GuardIsTrap(h: U64, l: U64, d: U64, want: WideDivResult, q: U64, r: U64, v: U64)
    requires Magnitudes(h, l, d, want, q, r, v)
    ensures WideDivTraps(h, l, d, true, want) <==> !InRange((h >= TWO63) != (d >= TWO63), v)
  {
    var n, m := WideDividend(h, l, true), ToSigned(d);
    DividendSign(h, l);
    TruncFrom(n, m, q, r);
    if want.Quotient? {
      QuotientInRange(n, m, q, r);
    } else {
      RemainderInRange(d, (h >= TWO63) != (d >= TWO63), r);
    }
  }

  lemma SignIsValue(h: U64, l: U64, d: U64, want: WideDivResult, q: U64, r: U64, v: U64)
    requires Magnitudes(h, l, d, want, q, r, v)
    ensures Signed(ResultNegative(h, d, want), v) == WideDivValue(h, l, d, true, want)
  {
    var n, m := WideDividend(h, l, true), ToSigned(d);
    DividendSign(h, l);
    TruncFrom(n, m, q, r);
    SignedIs(ResultNegative(h, d, want), v);
  }

  lemma FinishRuns(rd: Reg, w: Work, high: Reg, divisor: Reg, want: WideDivResult, m: Mach,
                   l: U64, q: U64, r: U64) returns (m1: Mach)
    requires Apart(rd, w) && !m.halted && high !in WrittenSigned(rd, w) && divisor !in WrittenSigned(rd, w)
    requires Magnitudes(m.x[high], l, m.x[divisor], want, q, r, m.x[rd])
    ensures Divides(FinishCode(rd, w, high, divisor, want), rd, WrittenSigned(rd, w), m, m1,
                    m.x[high], l, m.x[divisor], true, want)
  {
    var h, d := m.x[high], m.x[divisor];
    var a := UnlikeRuns(rd, w, high, divisor, m);
    UnlikeIs(h, d);
    GuardIsTrap(h, l, d, want, q, r, m.x[rd]);
    var sign := SignCode(rd, w, high, divisor, want);
    if WideDivTraps(h, l, d, true, want) {
      m1 := RangeTraps(rd, w, a);
      ReturnsEarly(RangeCode(rd, w), sign, a, m1);
      DoesThenReturns(UnlikeCode(w, high, divisor), RangeCode(rd, w) + sign, m, a, m1);
    } else {
      var b := RangePasses(rd, w, a);
      m1 := SignRuns(rd, w, high, divisor, want, b);
      SignIsValue(h, l, d, want, q, r, m.x[rd]);
      DoesThen(RangeCode(rd, w), sign, a, b, m1);
      DoesThen(UnlikeCode(w, high, divisor), RangeCode(rd, w) + sign, m, a, m1);
    }
  }

  function SignedTail(rd: Reg, w: Work, high: Reg, divisor: Reg, want: WideDivResult): seq<Instr> {
    CompareGuard(w.rem, w.divisor, Ult) + (UnsignedTail(rd, w, want) + FinishCode(rd, w, high, divisor, want))
  }

  /** From the absolute values on. */
  lemma SignedGuarded(rd: Reg, w: Work, high: Reg, divisor: Reg, want: WideDivResult, m: Mach, l: U64)
    returns (m1: Mach)
    requires Apart(rd, w) && !m.halted && high !in WrittenSigned(rd, w) && divisor !in WrittenSigned(rd, w)
    requires m.x[divisor] > 0 && m.x[w.divisor] == Abs(ToSigned(m.x[divisor]))
    requires WideOf(m.x[w.rem], m.x[w.low]) == Abs(WideDividend(m.x[high], l, true))
    ensures Divides(SignedTail(rd, w, high, divisor, want), rd, WrittenSigned(rd, w), m, m1,
                    m.x[high], l, m.x[divisor], true, want)
  {
    var guard, tail := CompareGuard(w.rem, w.divisor, Ult), UnsignedTail(rd, w, want);
    var finish := FinishCode(rd, w, high, divisor, want);
    var a := Exec(Cmp(w.rem, w.divisor), m);
    UltIs(m.x[w.rem], m.x[w.divisor]);
    QuotientOverflow(m.x[w.rem], m.x[w.low], m.x[w.divisor]);
    if m.x[w.rem] >= m.x[w.divisor] {
      CompareGuardTraps(w.rem, w.divisor, Ult, m);
      m1 := Halted(a, 0);
      ReturnsEarly(guard, tail + finish, m, m1);
    } else {
      CompareGuardPasses(w.rem, w.divisor, Ult, m);
      var b, q, r := UnsignedTailRuns(rd, w, want, a);
      KeepsMore(a, b, Written(rd, w), WrittenSigned(rd, w));
      m1 := FinishRuns(rd, w, high, divisor, want, b, l, q, r);
      After2(guard, tail, finish, rd, WrittenSigned(rd, w), m, a, b, m1, m.x[high], l, m.x[divisor], true, want);
    }
  }

  function SignedCode(rd: Reg, w: Work, high: Reg, low: Reg, divisor: Reg, want: WideDivResult): seq<Instr> {
    ZeroGuard(divisor)
    + (LoadSignedCode(w, high, low, divisor)
       + (AbsDividendCode(w) + (AbsDivisorCode(w) + SignedTail(rd, w, high, divisor, want))))
  }

  lemma SignedBody(rd: Reg, w: Work, high: Reg, low: Reg, divisor: Reg, want: WideDivResult, m: Mach) returns (m1: Mach)
    requires SignedOperands(rd, w, high, low, divisor) && !m.halted && m.x[divisor] > 0
    requires m.x[w.rem] == m.x[high] && m.x[w.low] == m.x[low] && m.x[w.divisor] == m.x[divisor]
    ensures Divides(AbsDividendCode(w) + (AbsDivisorCode(w) + SignedTail(rd, w, high, divisor, want)), rd,
                    WrittenSigned(rd, w), m, m1, m.x[high], m.x[low], m.x[divisor], true, want)
  {
    var ws := WrittenSigned(rd, w);
    var a := AbsDividendRuns(rd, w, m);
    KeepsMore(m, a, {w.bit, w.mask, w.low, w.rem}, ws);
    var b := AbsDivisorRuns(rd, w, a);
    KeepsMore(a, b, {w.bit, w.divisor}, ws);
    m1 := SignedGuarded(rd, w, high, divisor, want, b, m.x[low]);
    After2(AbsDividendCode(w), AbsDivisorCode(w), SignedTail(rd, w, high, divisor, want), rd, ws, m, a, b, m1,
           m.x[high], m.x[low], m.x[divisor], true, want);
  }

  /** IDIV: quotient or remainder with the right sign, or the divide-error exit. */
  lemma SignedRuns(rd: Reg, w: Work, high: Reg, low: Reg, divisor: Reg, want: WideDivResult, m: Mach) returns (m1: Mach)
    requires SignedOperands(rd, w, high, low, divisor) && !m.halted
    ensures Divides(SignedCode(rd, w, high, low, divisor, want), rd, WrittenSigned(rd, w), m, m1,
                    m.x[high], m.x[low], m.x[divisor], true, want)
  {
    var load := LoadSignedCode(w, high, low, divisor);
    var rest := AbsDividendCode(w) + (AbsDivisorCode(w) + SignedTail(rd, w, high, divisor, want));
    if m.x[divisor] == 0 {
      ZeroGuardTraps(divisor, m);
      m1 := Halted(m, 0);
      ReturnsEarly(ZeroGuard(divisor), load + rest, m, m1);
    } else {
      ZeroGuardPasses(divisor, m);
      var a := LoadSignedRuns(rd, w, high, low, divisor, m);
      m1 := SignedBody(rd, w, high, low, divisor, want, a);
      After2(ZeroGuard(divisor), load, rest, rd, WrittenSigned(rd, w), m, m, a, m1,
             m.x[high], m.x[low], m.x[divisor], true, want);
    }
  }

  /** Quotient and remainder against the definition of division: `n == q * d + r`
      with `|r| < |d|` and the sign of `r` that of `n`. */
  lemma TruncLaw(n: int, m: int)
    requires m != 0
    ensures n == m * TruncDiv(n, m) + TruncMod(n, m) && Abs(TruncMod(n, m)) < Abs(m)
    ensures TruncMod(n, m) == 0 || (TruncMod(n, m) < 0) == (n < 0)
  {
    var q, r := Abs(n) / Abs(m), Abs(n) % Abs(m);
    assert Abs(n) == Abs(m) * q + r;
    assert Abs(m) * q == q * Abs(m);
    QuotientBound(Abs(n), Abs(m));
    TruncFrom(n, m, q, r);
  }

  /** How a 64-bit result is read. */
  function Reading(v: U64, isSigned: bool): int { if isSigned then ToSigned(v) else v }

  lemma ReadingIs(x: int, isSigned: bool)
    requires if isSigned then FitsSigned(x) else 0 <= x < TWO64
    ensures Reading(Wrap(x), isSigned) == x
  {
    if x >= 0 { WrapSmall(x); } else { ModUnique(x, TWO64, -1, x + TWO64); }
  }

  lemma UnsignedFits(n: int, m: int, q: int)
    requires n >= 0 && 0 < m < TWO64 && q == Abs(n) / Abs(m) && q < TWO64
    ensures 0 <= TruncDiv(n, m) < TWO64 && 0 <= TruncMod(n, m) < TWO64
  {
    TruncLaw(n, m);
    QuotientPositive(Abs(n), Abs(m));
    assert TruncDiv(n, m) == q;
  }

  lemma QuotientPositive(n: nat, m: nat)
    requires m > 0
    ensures n / m >= 0
  {
  }

  /** A result that does not trap, read as its form says, is the truncated quotient or remainder:
      signed remainders whose quotient does not fit included. */
  lemma DivisionLaw(h: U64, l: U64, d: U64, isSigned: bool, want: WideDivResult)
    requires !WideDivTraps(h, l, d, isSigned, want)
    ensures var n, m := WideDividend(h, l, isSigned), WideDivisor(d, isSigned);
            && m != 0 && n == m * TruncDiv(n, m) + TruncMod(n, m) && Abs(TruncMod(n, m)) < Abs(m)
            && (TruncMod(n, m) == 0 || (TruncMod(n, m) < 0) == (n < 0))
            && Reading(WideDivValue(h, l, d, isSigned, want), isSigned)
               == if want.Quotient? then TruncDiv(n, m) else TruncMod(n, m)
  {
    var n, m := WideDividend(h, l, isSigned), WideDivisor(d, isSigned);
    TruncLaw(n, m);
    if !isSigned { UnsignedFits(n, m, Abs(n) / Abs(m)); }
    ReadingIs(if want.Quotient? then TruncDiv(n, m) else TruncMod(n, m), isSigned);
  }
}
