/** The emitted PDEP / PEXT loop computes what the constant folder computes. */
module EmittedPermute {
  import opened Words
  import opened Arith
  import opened Scalar
  import opened BitPermute
  import opened Arm

  datatype Regs = Regs(rd: Reg, src: Reg, mask: Reg, bit: Reg, one: Reg, lowbit: Reg, tmp: Reg)

  ghost predicate Apart(r: Regs) {
    && r.rd != r.src && r.rd != r.mask && r.rd != r.bit && r.rd != r.one && r.rd != r.lowbit && r.rd != r.tmp
    && r.src != r.mask && r.src != r.bit && r.src != r.one && r.src != r.lowbit && r.src != r.tmp
    && r.mask != r.bit && r.mask != r.one && r.mask != r.lowbit && r.mask != r.tmp
    && r.bit != r.one && r.bit != r.lowbit && r.bit != r.tmp
    && r.one != r.lowbit && r.one != r.tmp && r.lowbit != r.tmp
  }

  function Written(r: Regs): set<Reg> { {r.rd, r.src, r.mask, r.bit, r.one, r.lowbit, r.tmp} }

  function LoopCode(deposit: bool, r: Regs): seq<Instr> {
    [ Cbz(r.mask, 10),
      NegReg(r.lowbit, r.mask),
      Op3(AAnd, r.lowbit, r.lowbit, r.mask),
      Op3(AAnd, r.tmp, r.src, if deposit then r.bit else r.lowbit),
      Cbz(r.tmp, 2),
      Op3(AOrr, r.rd, r.rd, if deposit then r.lowbit else r.bit),
      Op3(ASub, r.tmp, r.mask, r.one),
      Op3(AAnd, r.mask, r.mask, r.tmp),
      Op3(AAdd, r.bit, r.bit, r.bit),
      B(-9) ]
  }

  function OutOf(deposit: bool, src: U64, bit: U64, mask: U64, out: U64): U64 {
    if deposit then DepositOut(src, bit, mask, out) else ExtractOut(src, bit, mask, out)
  }

  function Twice(v: U64): U64 { Wrap(2 * v) }

  lemma AddSelf(v: U64)
    ensures AluValue(AAdd, v, v) == Twice(v)
  {
  }

  /** Test of the next source bit. */
  lemma TestPart(deposit: bool, r: Regs, m: Mach) returns (m1: Mach)
    requires Apart(r) && !m.halted && m.x[r.mask] != 0
    ensures Gets(LoopCode(deposit, r), 0, m, 4, m1) && KeepsFlags(m, m1, {r.lowbit, r.tmp})
    ensures m1.x[r.lowbit] == And(Neg(m.x[r.mask]), m.x[r.mask])
    ensures m1.x[r.tmp] == And(m.x[r.src], if deposit then m.x[r.bit] else m1.x[r.lowbit])
  {
    var code := LoopCode(deposit, r);
    var a := Exec(code[1], m);
    var b := Exec(code[2], a);
    m1 := Exec(code[3], b);
    GetsHere(code, 4, m1);
    GetsStep(code, 3, b, 4, m1);
    GetsStep(code, 2, a, 4, m1);
    GetsStep(code, 1, m, 4, m1);
    GetsStep(code, 0, m, 4, m1);
  }

  /** Setting the result bit if the source bit is set. */
  lemma SetPart(deposit: bool, r: Regs, m: Mach) returns (m1: Mach)
    requires Apart(r) && !m.halted
    ensures Gets(LoopCode(deposit, r), 4, m, 6, m1) && KeepsFlags(m, m1, {r.rd})
    ensures m1.x[r.rd] == (if m.x[r.tmp] == 0 then m.x[r.rd]
                           else Or64(m.x[r.rd], if deposit then m.x[r.lowbit] else m.x[r.bit]))
  {
    var code := LoopCode(deposit, r);
    if m.x[r.tmp] == 0 {
      m1 := m;
      GetsHere(code, 6, m);
      GetsStep(code, 4, m, 6, m);
    } else {
      m1 := Exec(code[5], m);
      GetsHere(code, 6, m1);
      GetsStep(code, 5, m, 6, m1);
      GetsStep(code, 4, m, 6, m1);
    }
  }

  /** On to the next mask bit and back to the head of the loop. */
  lemma NextPart(deposit: bool, r: Regs, m: Mach) returns (m1: Mach)
    requires Apart(r) && !m.halted && m.x[r.mask] != 0 && m.x[r.one] == 1
    ensures Gets(LoopCode(deposit, r), 6, m, 0, m1) && KeepsFlags(m, m1, {r.tmp, r.mask, r.bit})
    ensures m1.x[r.mask] == And(m.x[r.mask], m.x[r.mask] - 1) && m1.x[r.bit] == Twice(m.x[r.bit])
  {
    var code := LoopCode(deposit, r);
    SubOne(m.x[r.mask]);
    AddSelf(m.x[r.bit]);
    var a := Exec(code[6], m);
    var b := Exec(code[7], a);
    m1 := Exec(code[8], b);
    GetsHere(code, 0, m1);
    GetsStep(code, 9, m1, 0, m1);
    GetsStep(code, 8, b, 0, m1);
    GetsStep(code, 7, a, 0, m1);
    GetsStep(code, 6, m, 0, m1);
  }

  lemma OnceRound(deposit: bool, r: Regs, m: Mach) returns (m1: Mach)
    requires Apart(r) && !m.halted && m.x[r.mask] != 0 && m.x[r.one] == 1
    ensures Gets(LoopCode(deposit, r), 0, m, 0, m1) && KeepsFlags(m, m1, {r.rd, r.mask, r.bit, r.lowbit, r.tmp})
    ensures m1.x[r.mask] == And(m.x[r.mask], m.x[r.mask] - 1) && m1.x[r.bit] == Twice(m.x[r.bit])
    ensures m1.x[r.rd] == OutOf(deposit, m.x[r.src], m.x[r.bit], m.x[r.mask], m.x[r.rd])
  {
    var code := LoopCode(deposit, r);
    var a := TestPart(deposit, r, m);
    var b := SetPart(deposit, r, a);
    m1 := NextPart(deposit, r, b);
    GetsTrans(code, 0, m, 4, a, 6, b);
    GetsTrans(code, 0, m, 6, b, 0, m1);
  }

  ghost predicate Working(deposit: bool, src: U64, mask0: U64, bit: U64, j: nat, mask: U64, out: U64) {
    if deposit then Depositing(src, mask0, bit, j, mask, out) else Extracting(src, mask0, bit, j, mask, out)
  }

  function Permuted(deposit: bool, src: U64, mask: U64): U64 {
    if deposit then Deposit(src, mask) else Extract(src, mask)
  }

  lemma WorkStep(deposit: bool, src: U64, mask0: U64, bit: U64, j: nat, mask: U64, out: U64)
    requires mask != 0 && Working(deposit, src, mask0, bit, j, mask, out)
    ensures Working(deposit, src, mask0, Twice(bit), j + 1, And(mask, mask - 1), OutOf(deposit, src, bit, mask, out))
    ensures And(mask, mask - 1) < mask
  {
    if deposit { DepositLoop(src, mask0, bit, j, mask, out); } else { ExtractLoop(src, mask0, bit, j, mask, out); }
  }

  lemma WorkDone(deposit: bool, src: U64, mask0: U64, bit: U64, j: nat, out: U64)
    requires Working(deposit, src, mask0, bit, j, 0, out)
    ensures out == Permuted(deposit, src, mask0)
  {
  }

  lemma WorkStart(deposit: bool, src: U64, mask0: U64)
    ensures Working(deposit, src, mask0, 1, 0, mask0, 0)
  {
    if !deposit { ExtractStart(src, mask0); }
  }

  ghost predicate WorkingIn(deposit: bool, r: Regs, m: Mach, mask0: U64, j: nat) {
    m.x[r.one] == 1 && Working(deposit, m.x[r.src], mask0, m.x[r.bit], j, m.x[r.mask], m.x[r.rd])
  }

  lemma WorkRound(deposit: bool, r: Regs, m: Mach, mask0: U64, j: nat) returns (m1: Mach)
    requires Apart(r) && !m.halted && m.x[r.mask] != 0 && WorkingIn(deposit, r, m, mask0, j)
    ensures Gets(LoopCode(deposit, r), 0, m, 0, m1) && KeepsFlags(m, m1, Written(r))
    ensures WorkingIn(deposit, r, m1, mask0, j + 1) && m1.x[r.mask] < m.x[r.mask] && m1.x[r.src] == m.x[r.src]
  {
    WorkStep(deposit, m.x[r.src], mask0, m.x[r.bit], j, m.x[r.mask], m.x[r.rd]);
    m1 := OnceRound(deposit, r, m);
  }

  /** The loop ends, with the folder's result. */
  lemma {:induction false} LoopRuns(deposit: bool, r: Regs, m: Mach, mask0: U64, j: nat) returns (m1: Mach)
    requires Apart(r) && !m.halted && WorkingIn(deposit, r, m, mask0, j)
    ensures Gets(LoopCode(deposit, r), 0, m, 10, m1) && KeepsFlags(m, m1, Written(r))
    ensures m1.x[r.rd] == Permuted(deposit, m.x[r.src], mask0)
    decreases m.x[r.mask]
  {
    var code := LoopCode(deposit, r);
    if m.x[r.mask] == 0 {
      m1 := m;
      GetsHere(code, 10, m);
      GetsStep(code, 0, m, 10, m);
      WorkDone(deposit, m.x[r.src], mask0, m.x[r.bit], j, m.x[r.rd]);
    } else {
      var a := WorkRound(deposit, r, m, mask0, j);
      m1 := LoopRuns(deposit, r, a, mask0, j + 1);
      GetsTrans(code, 0, m, 0, a, 10, m1);
    }
  }

  // ------------------------------------------------------------------
  // The whole sequence.
  // ------------------------------------------------------------------

  function NarrowCode(r: Regs, size: OpSize): seq<Instr> {
    if size.I32? then [Uxt(r.src, r.src, I32), Uxt(r.mask, r.mask, I32)] else []
  }

  function SetupCode(r: Regs): seq<Instr> { [MovImm(r.rd, 0), MovImm(r.bit, 1), MovImm(r.one, 1)] }

  function TrimCode(r: Regs, size: OpSize): seq<Instr> { if size.I32? then [Uxt(r.rd, r.rd, I32)] else [] }

  function PermuteCode(deposit: bool, r: Regs, rn: Reg, rm: Reg, size: OpSize): seq<Instr> {
    [Mov(r.src, rn), Mov(r.mask, rm)]
    + (NarrowCode(r, size) + (SetupCode(r) + (LoopCode(deposit, r) + TrimCode(r, size))))
  }

  function Trimmed(v: U64, size: OpSize): U64 { if size.I32? then v % TWO32 else v }

  lemma LoadRuns(r: Regs, rn: Reg, rm: Reg, m: Mach) returns (m1: Mach)
    requires Apart(r) && !m.halted && rm != r.src
    ensures Does([Mov(r.src, rn), Mov(r.mask, rm)], m, m1) && KeepsFlags(m, m1, {r.src, r.mask})
    ensures m1.x[r.src] == m.x[rn] && m1.x[r.mask] == m.x[rm]
  {
    m1 := Exec(Mov(r.mask, rm), Exec(Mov(r.src, rn), m));
    DoesTwo(Mov(r.src, rn), Mov(r.mask, rm), m);
  }

  lemma NarrowRuns(r: Regs, size: OpSize, m: Mach) returns (m1: Mach)
    requires Apart(r) && !m.halted
    ensures Does(NarrowCode(r, size), m, m1) && KeepsFlags(m, m1, {r.src, r.mask})
    ensures m1.x[r.src] == Trimmed(m.x[r.src], size) && m1.x[r.mask] == Trimmed(m.x[r.mask], size)
  {
    if size.I32? {
      m1 := Exec(Uxt(r.mask, r.mask, I32), Exec(Uxt(r.src, r.src, I32), m));
      DoesTwo(Uxt(r.src, r.src, I32), Uxt(r.mask, r.mask, I32), m);
    } else {
      m1 := m;
      DoesNothing(m);
    }
  }

  lemma SetupRuns(r: Regs, m: Mach) returns (m1: Mach)
    requires Apart(r) && !m.halted
    ensures Does(SetupCode(r), m, m1) && KeepsFlags(m, m1, {r.rd, r.bit, r.one})
    ensures m1.x[r.rd] == 0 && m1.x[r.bit] == 1 && m1.x[r.one] == 1
  {
    var code := SetupCode(r);
    var a := Exec(code[0], m);
    var b := Exec(code[1], a);
    m1 := Exec(code[2], b);
    GetsHere(code, 3, m1);
    GetsStep(code, 2, b, 3, m1);
    GetsStep(code, 1, a, 3, m1);
    GetsStep(code, 0, m, 3, m1);
  }

  lemma TrimRuns(r: Regs, size: OpSize, m: Mach) returns (m1: Mach)
    requires !m.halted
    ensures Does(TrimCode(r, size), m, m1) && m1 == Set(m, r.rd, Trimmed(m.x[r.rd], size))
  {
    if size.I32? {
      m1 := Exec(Uxt(r.rd, r.rd, I32), m);
      DoesOne(Uxt(r.rd, r.rd, I32), m);
    } else {
      m1 := m;
      DoesNothing(m);
    }
  }

  /** From any operands the sequence ends with the permuted bits, touching only its
      own registers and not the flags. */
  lemma PermuteRuns(deposit: bool, r: Regs, rn: Reg, rm: Reg, size: OpSize, m: Mach) returns (m1: Mach)
    requires Apart(r) && !m.halted && rm != r.src
    ensures Does(PermuteCode(deposit, r, rn, rm, size), m, m1) && KeepsFlags(m, m1, Written(r))
    ensures m1.x[r.rd] == Trimmed(Permuted(deposit, Trimmed(m.x[rn], size), Trimmed(m.x[rm], size)), size)
  {
    var a := LoadRuns(r, rn, rm, m);
    var b := NarrowRuns(r, size, a);
    var c := SetupRuns(r, b);
    WorkStart(deposit, c.x[r.src], c.x[r.mask]);
    var d := LoopRuns(deposit, r, c, c.x[r.mask], 0);
    m1 := TrimRuns(r, size, d);
    DoesThen(LoopCode(deposit, r), TrimCode(r, size), c, d, m1);
    DoesThen(SetupCode(r), LoopCode(deposit, r) + TrimCode(r, size), b, c, m1);
    DoesThen(NarrowCode(r, size), SetupCode(r) + (LoopCode(deposit, r) + TrimCode(r, size)), a, b, m1);
    DoesThen([Mov(r.src, rn), Mov(r.mask, rm)],
             NarrowCode(r, size) + (SetupCode(r) + (LoopCode(deposit, r) + TrimCode(r, size))), m, a, m1);
  }

  /** A 32-bit PEXT whose uncut operands would have brought high source bits down into the
      low word: the emitted code cuts the operands first and drops them. */
  predicate LosesHigh(deposit: bool, a: U64, b: U64, size: OpSize) {
    size.I32? && !deposit && TakenAbove(a, b, BitWidth(size)) % Range(size) != 0
  }

  lemma CutPermute(deposit: bool, a: U64, b: U64, n: nat, src: U64, mask: U64)
    requires src == a % Pow2(n) && mask == b % Pow2(n)
    ensures Permuted(deposit, src, mask) < Pow2(n)
    ensures Permuted(deposit, src, mask) == Permuted(deposit, a, b) % Pow2(n) <==>
      deposit || TakenAbove(a, b, n) % Pow2(n) == 0
  {
    DepositLow(a, b, n);
    ExtractLow(a, b, n);
  }

  /** So it is the folding function at the op's size, unless high bits are lost; on
      operands of that size none are. */
  lemma PermuteFolds(deposit: bool, a: U64, b: U64, size: OpSize)
    requires size.I32? || size.I64?
    ensures LosesHigh(deposit, a, b, size) <==>
      Trimmed(Permuted(deposit, Trimmed(a, size), Trimmed(b, size)), size)
      != MaskToSize(EvalBinOp(if deposit then Pdep else Pext, a, b), size)
    ensures a < Range(size) && b < Range(size) ==> !LosesHigh(deposit, a, b, size)
  {
    if size.I32? {
      Pow2Values();
      CutPermute(deposit, a, b, BitWidth(size), a % TWO32, b % TWO32);
      SmallMod(Permuted(deposit, a % TWO32, b % TWO32), TWO32);
      if a < TWO32 && b < TWO32 {
        SmallMod(a, TWO32);
        SmallMod(b, TWO32);
      }
    } else {
      SmallMod(Permuted(deposit, a, b), TWO64);
    }
  }
}
