/** A small ARM64 machine: registers, NZCV and byte memory. Branches are relative
    to the instruction, so a piece of code means the same wherever it is put. */
module Arm {
  import opened Words
  import opened Arith
  import opened Scalar

  type Reg = x: int | 0 <= x < 32
  type XRegs = s: seq<U64> | |s| == 32 witness seq(32, i => 0)

  /** `stack` is the spill area and `frame` the guest state frame, both by offset;
      `fails` is how many more exclusive stores will lose their reservation. */
  datatype Mach = Mach(x: XRegs, f: Nzcv, mem: Mem, stack: map<int, U64>, frame: map<int, U64>,
                       fails: nat, halted: bool)

  /** Where a guest register lives: x10-x17 and x19-x26. The scratch pool is x0-x9. */
  function Host(g: nat): Reg
    requires g < 16
  {
    if g < 8 then 10 + g else 11 + g
  }

  /** Register forms with one machine instruction each. */
  datatype Alu =
    | AAdd | ASub | AMul | AAnd | AOrr | AEor | ALsl | ALsr | AAsr | ARor
    | AUmulh | ASmulh | AUdiv | ASdiv

  /** Instructions with few uses. */
  datatype Rare =
    | Sxt(rd: Reg, rn: Reg, size: OpSize)
    | Bfxil(rd: Reg, rn: Reg, wide: bool)
    | CmpZero(rn: Reg)
    | LslW(rd: Reg, rn: Reg, shift: nat)
    | OrrLslW(rd: Reg, rn: Reg, rm: Reg, shift: nat)
    | MsrNzcv(rn: Reg)
    | Stlxr(rs: Reg, rv: Reg, ra: Reg, size: OpSize)
    | Ldaxp(rl: Reg, rh: Reg, ra: Reg)
    | Stlxp(rs: Reg, rl: Reg, rh: Reg, ra: Reg)
    | LdrFrame(rd: Reg, off: int)
    | StrFrame(rv: Reg, off: int)
    | SpStr(rv: Reg, slot: int)
    | SpLdr(rd: Reg, slot: int)

  datatype Instr =
    | Rare(rare: Rare)
    | MovImm(rd: Reg, imm: U64)
    | Mov(rd: Reg, rn: Reg)
    | Op3(op: Alu, rd: Reg, rn: Reg, rm: Reg)
    | LsrImm(rd: Reg, rn: Reg, shift: nat)
    | NegReg(rd: Reg, rn: Reg)
    | Msub(rd: Reg, rn: Reg, rm: Reg, ra: Reg)
    | Uxt(rd: Reg, rn: Reg, size: OpSize)
    | Adds(rd: Reg, rn: Reg, rm: Reg)
    | Ands(rd: Reg, rn: Reg, rm: Reg)
    | Cmp(rn: Reg, rm: Reg)
    | Csel(rd: Reg, rn: Reg, rm: Reg, cc: CondCode)
    | Cset(rd: Reg, cc: CondCode)
    | Ldr(rd: Reg, ra: Reg, size: OpSize)
    | Str(rv: Reg, ra: Reg, size: OpSize)
    | Nop
    | Cbz(rn: Reg, off: int)
    | Cbnz(rn: Reg, off: int)
    | B(off: int)
    | Bcc(cc: CondCode, off: int)
    | Ret

  function AluValue(op: Alu, a: U64, b: U64): U64 {
    match op
    case AAdd => Wrap(a + b)
    case ASub => Wrap(a - b)
    case AMul => Wrap(a * b)
    case AAnd => And(a, b)
    case AOrr => Or64(a, b)
    case AEor => Xor64(a, b)
    case ALsl => Wrap(a * Pow2(b % 64))
    case ALsr => ShiftRight(a, b % 64)
    case AAsr => Wrap(ToSigned(a) / Pow2(b % 64))
    case ARor => RotateRight(a, b % 64)
    case AUmulh => Wrap(a * b / TWO64)
    case ASmulh => Wrap(ToSigned(a) * ToSigned(b) / TWO64)
    case AUdiv => EvalBinOp(UDiv, a, b)
    case ASdiv => SignedDiv(a, b)
  }

  function MsubValue(n: U64, m: U64, a: U64): U64 { Wrap(a - n * m) }

  lemma SubOne(v: U64)
    requires v > 0
    ensures AluValue(ASub, v, 1) == v - 1
  {
    WrapSmall(v - 1);
  }

  function Set(m: Mach, r: Reg, v: U64): Mach { m.(x := m.x[r := v]) }

  function LoadPair(m: Mach, rl: Reg, rh: Reg, a: U64): Mach {
    Set(Set(m, rl, Load(m.mem, a, I64)), rh, Load(m.mem, Wrap(a + 8), I64))
  }

  function StorePair(m: Mem, a: U64, lo: U64, hi: U64): Mem { Store(Store(m, a, lo, I64), Wrap(a + 8), hi, I64) }

  /** An exclusive store: the status register says whether it was lost. */
  function Exclusive(m: Mach, rs: Reg, mem: Mem): Mach {
    if m.fails > 0 then Set(m.(fails := m.fails - 1), rs, 1) else Set(m.(mem := mem), rs, 0)
  }

  function ShiftW(v: U64, s: nat): U64 { (v * Pow2(s)) % TWO32 }

  /** NZCV as the four bits of a word above bit `k`. */
  function NzcvAt(v: U64, k: nat): Nzcv { Nzcv(BitAt(v, k + 4), BitAt(v, k + 3), BitAt(v, k + 2), BitAt(v, k + 1)) }

  /** NZCV as the top four bits of a word register. */
  function NzcvOf(v: U64): Nzcv { NzcvAt(v, 27) }

  function ExecRare(i: Rare, m: Mach): Mach {
    match i
    case Sxt(rd, rn, s) => Set(m, rd, Wrap(SignedOf(m.x[rn], s)))
    case Bfxil(rd, rn, w) => Set(m, rd, MergeReg(m.x[rd], m.x[rn], if w then I16 else I8))
    case CmpZero(rn) => m.(f := SubFlags(m.x[rn], 0))
    case LslW(rd, rn, s) => Set(m, rd, ShiftW(m.x[rn], s))
    case OrrLslW(rd, rn, rm, s) => Set(m, rd, Or64(m.x[rn] % TWO32, ShiftW(m.x[rm], s)))
    case MsrNzcv(rn) => m.(f := NzcvOf(m.x[rn]))
    case Stlxr(rs, rv, ra, s) => Exclusive(m, rs, Store(m.mem, m.x[ra], m.x[rv], s))
    case Ldaxp(rl, rh, ra) => LoadPair(m, rl, rh, m.x[ra])
    case Stlxp(rs, rl, rh, ra) => Exclusive(m, rs, StorePair(m.mem, m.x[ra], m.x[rl], m.x[rh]))
    case LdrFrame(rd, o) => Set(m, rd, if o in m.frame then m.frame[o] else 0)
    case StrFrame(rv, o) => m.(frame := m.frame[o := m.x[rv]])
    case SpStr(rv, k) => m.(stack := m.stack[k := m.x[rv]])
    case SpLdr(rd, k) => Set(m, rd, if k in m.stack then m.stack[k] else 0)
  }

  /** What an instruction does to the machine; branches do nothing. */
  function Exec(i: Instr, m: Mach): Mach {
    match i
    case Rare(r) => ExecRare(r, m)
    case MovImm(rd, v) => Set(m, rd, v)
    case Mov(rd, rn) => Set(m, rd, m.x[rn])
    case Op3(op, rd, rn, rm) => Set(m, rd, AluValue(op, m.x[rn], m.x[rm]))
    case LsrImm(rd, rn, s) => Set(m, rd, ShiftRight(m.x[rn], s))
    case NegReg(rd, rn) => Set(m, rd, Neg(m.x[rn]))
    case Msub(rd, rn, rm, ra) => Set(m, rd, MsubValue(m.x[rn], m.x[rm], m.x[ra]))
    case Uxt(rd, rn, s) => Set(m, rd, MaskToSize(m.x[rn], s))
    case Adds(rd, rn, rm) => Set(m, rd, AluValue(AAdd, m.x[rn], m.x[rm])).(f := AddFlags(m.x[rn], m.x[rm]))
    case Ands(rd, rn, rm) => Set(m, rd, And(m.x[rn], m.x[rm])).(f := LogicFlags(And(m.x[rn], m.x[rm])))
    case Cmp(rn, rm) => m.(f := SubFlags(m.x[rn], m.x[rm]))
    case Csel(rd, rn, rm, cc) => Set(m, rd, if CondHolds(cc, m.f) then m.x[rn] else m.x[rm])
    case Cset(rd, cc) => Set(m, rd, if CondHolds(cc, m.f) then 1 else 0)
    case Ldr(rd, ra, s) => Set(m, rd, Load(m.mem, m.x[ra], s))
    case Str(rv, ra, s) => m.(mem := Store(m.mem, m.x[ra], m.x[rv], s))
    case Ret => m.(halted := true)
    case _ => m
  }

  /** Where control goes next, relative to the instruction. */
  function Offset(i: Instr, m: Mach): int {
    match i
    case Cbz(r, off) => if m.x[r] == 0 then off else 1
    case Cbnz(r, off) => if m.x[r] != 0 then off else 1
    case B(off) => off
    case Bcc(cc, off) => if CondHolds(cc, m.f) then off else 1
    case _ => 1
  }

  /** In exactly `n` instructions the code gets from one point to another. */
  ghost predicate Reaches(code: seq<Instr>, pc: int, m: Mach, pc1: int, m1: Mach, n: nat)
    decreases n
  {
    if n == 0 then pc == pc1 && m == m1
    else
      && 0 <= pc < |code| && !m.halted
      && Reaches(code, pc + Offset(code[pc], m), Exec(code[pc], m), pc1, m1, n - 1)
  }

  /** Some number of instructions gets there. */
  ghost predicate Gets(code: seq<Instr>, pc: int, m: Mach, pc1: int, m1: Mach) {
    exists n: nat :: Reaches(code, pc, m, pc1, m1, n)
  }

  lemma {:induction false} ReachesTrans(code: seq<Instr>, pc: int, m: Mach, pc1: int, m1: Mach, n: nat, pc2: int,
                                        m2: Mach, k: nat)
    requires Reaches(code, pc, m, pc1, m1, n) && Reaches(code, pc1, m1, pc2, m2, k)
    ensures Reaches(code, pc, m, pc2, m2, n + k)
    decreases n
  {
    if n > 0 {
      ReachesTrans(code, pc + Offset(code[pc], m), Exec(code[pc], m), pc1, m1, n - 1, pc2, m2, k);
    }
  }

  /** The same run inside a longer piece of code. */
  lemma {:induction false} ReachesWithin(pre: seq<Instr>, code: seq<Instr>, post: seq<Instr>, pc: int, m: Mach,
                                         pc1: int, m1: Mach, n: nat)
    requires Reaches(code, pc, m, pc1, m1, n)
    ensures Reaches(pre + code + post, |pre| + pc, m, |pre| + pc1, m1, n)
    decreases n
  {
    if n > 0 {
      assert (pre + code + post)[|pre| + pc] == code[pc];
      ReachesWithin(pre, code, post, pc + Offset(code[pc], m), Exec(code[pc], m), pc1, m1, n - 1);
    }
  }

  lemma GetsTrans(code: seq<Instr>, pc: int, m: Mach, pc1: int, m1: Mach, pc2: int, m2: Mach)
    requires Gets(code, pc, m, pc1, m1) && Gets(code, pc1, m1, pc2, m2)
    ensures Gets(code, pc, m, pc2, m2)
  {
    var n: nat :| Reaches(code, pc, m, pc1, m1, n);
    var k: nat :| Reaches(code, pc1, m1, pc2, m2, k);
    ReachesTrans(code, pc, m, pc1, m1, n, pc2, m2, k);
  }

  lemma GetsWithin(pre: seq<Instr>, code: seq<Instr>, post: seq<Instr>, pc: int, m: Mach, pc1: int, m1: Mach)
    requires Gets(code, pc, m, pc1, m1)
    ensures Gets(pre + code + post, |pre| + pc, m, |pre| + pc1, m1)
  {
    var n: nat :| Reaches(code, pc, m, pc1, m1, n);
    ReachesWithin(pre, code, post, pc, m, pc1, m1, n);
  }

  lemma GetsHere(code: seq<Instr>, pc: int, m: Mach)
    ensures Gets(code, pc, m, pc, m)
  {
    assert Reaches(code, pc, m, pc, m, 0);
  }

  /** One instruction, then the rest. */
  lemma GetsStep(code: seq<Instr>, pc: int, m: Mach, pc1: int, m1: Mach)
    requires 0 <= pc < |code| && !m.halted
    requires Gets(code, pc + Offset(code[pc], m), Exec(code[pc], m), pc1, m1)
    ensures Gets(code, pc, m, pc1, m1)
  {
    var n: nat :| Reaches(code, pc + Offset(code[pc], m), Exec(code[pc], m), pc1, m1, n);
    assert Reaches(code, pc, m, pc1, m1, n + 1);
  }

  // ------------------------------------------------------------------
  // Whole pieces of code.
  // ------------------------------------------------------------------

  /** From start to end. */
  ghost predicate Does(code: seq<Instr>, m: Mach, m1: Mach) { Gets(code, 0, m, |code|, m1) }

  /** From the start to a return. */
  ghost predicate Returns(code: seq<Instr>, m: Mach, m1: Mach) {
    m1.halted && exists pc :: Gets(code, 0, m, pc, m1)
  }

  lemma DoesNothing(m: Mach)
    ensures Does([], m, m)
  {
    GetsHere([], 0, m);
  }

  lemma DoesOne(i: Instr, m: Mach)
    requires !m.halted && Offset(i, m) == 1
    ensures Does([i], m, Exec(i, m))
  {
    GetsHere([i], 1, Exec(i, m));
    GetsStep([i], 0, m, 1, Exec(i, m));
  }

  lemma DoesThen(a: seq<Instr>, b: seq<Instr>, m: Mach, m1: Mach, m2: Mach)
    requires Does(a, m, m1) && Does(b, m1, m2)
    ensures Does(a + b, m, m2)
  {
    GetsWithin([], a, b, 0, m, |a|, m1);
    GetsWithin(a, b, [], 0, m1, |b|, m2);
    assert [] + a + b == a + b && a + b + [] == a + b;
    GetsTrans(a + b, 0, m, |a|, m1, |a + b|, m2);
  }

  lemma DoesThenReturns(a: seq<Instr>, b: seq<Instr>, m: Mach, m1: Mach, m2: Mach)
    requires Does(a, m, m1) && Returns(b, m1, m2)
    ensures Returns(a + b, m, m2)
  {
    var pc :| Gets(b, 0, m1, pc, m2);
    GetsWithin([], a, b, 0, m, |a|, m1);
    GetsWithin(a, b, [], 0, m1, pc, m2);
    assert [] + a + b == a + b && a + b + [] == a + b;
    GetsTrans(a + b, 0, m, |a|, m1, |a| + pc, m2);
  }

  lemma ReturnsEarly(a: seq<Instr>, b: seq<Instr>, m: Mach, m1: Mach)
    requires Returns(a, m, m1)
    ensures Returns(a + b, m, m1)
  {
    var pc :| Gets(a, 0, m, pc, m1);
    GetsWithin([], a, b, 0, m, pc, m1);
    assert [] + a + b == a + b;
    assert Gets(a + b, 0, m, 0 + pc, m1);
  }

  // ------------------------------------------------------------------
  // Common shapes.
  // ------------------------------------------------------------------

  /** `cbz r, past; body; past:` */
  function UnlessZero(r: Reg, body: seq<Instr>): seq<Instr> { [Cbz(r, |body| + 1)] + body }

  lemma SkipsOnZero(r: Reg, body: seq<Instr>, m: Mach)
    requires !m.halted && m.x[r] == 0
    ensures Does(UnlessZero(r, body), m, m)
  {
    var code := UnlessZero(r, body);
    GetsHere(code, |code|, m);
    GetsStep(code, 0, m, |code|, m);
  }

  lemma RunsOnNonZero(r: Reg, body: seq<Instr>, m: Mach, m1: Mach)
    requires !m.halted && m.x[r] != 0 && Does(body, m, m1)
    ensures Does(UnlessZero(r, body), m, m1)
  {
    DoesOne(Cbz(r, |body| + 1), m);
    DoesThen([Cbz(r, |body| + 1)], body, m, m, m1);
  }

  /** `cbnz r, past; mov x0, 0; ret; past:` — the placeholder for a divide error. */
  function ZeroGuard(r: Reg): seq<Instr> { [Cbnz(r, 3), MovImm(0, 0), Ret] }

  function Halted(m: Mach, v: U64): Mach { Set(m, 0, v).(halted := true) }

  lemma ZeroGuardPasses(r: Reg, m: Mach)
    requires !m.halted && m.x[r] != 0
    ensures Does(ZeroGuard(r), m, m)
  {
    GetsHere(ZeroGuard(r), 3, m);
    GetsStep(ZeroGuard(r), 0, m, 3, m);
  }

  lemma ZeroGuardTraps(r: Reg, m: Mach)
    requires !m.halted && m.x[r] == 0
    ensures Returns(ZeroGuard(r), m, Halted(m, 0))
  {
    var code := ZeroGuard(r);
    GetsHere(code, 3, Halted(m, 0));
    GetsStep(code, 2, Set(m, 0, 0), 3, Halted(m, 0));
    GetsStep(code, 1, m, 3, Halted(m, 0));
    GetsStep(code, 0, m, 3, Halted(m, 0));
  }

  /** `mov x0, v; ret` */
  function ExitWith(v: U64): seq<Instr> { [MovImm(0, v), Ret] }

  lemma ExitWithReturns(v: U64, m: Mach)
    requires !m.halted
    ensures Returns(ExitWith(v), m, Halted(m, v))
  {
    var code := ExitWith(v);
    GetsHere(code, 2, Halted(m, v));
    GetsStep(code, 1, Set(m, 0, v), 2, Halted(m, v));
    GetsStep(code, 0, m, 2, Halted(m, v));
  }

  /** `cmp rn, rm; b.cc past; mov x0, 0; ret; past:` */
  function CompareGuard(rn: Reg, rm: Reg, cc: CondCode): seq<Instr> {
    [Cmp(rn, rm), Bcc(cc, 3), MovImm(0, 0), Ret]
  }

  lemma CompareGuardPasses(rn: Reg, rm: Reg, cc: CondCode, m: Mach)
    requires !m.halted && CondHolds(cc, SubFlags(m.x[rn], m.x[rm]))
    ensures Does(CompareGuard(rn, rm, cc), m, Exec(Cmp(rn, rm), m))
  {
    var code := CompareGuard(rn, rm, cc);
    var m1 := Exec(Cmp(rn, rm), m);
    GetsHere(code, 4, m1);
    GetsStep(code, 1, m1, 4, m1);
    GetsStep(code, 0, m, 4, m1);
  }

  lemma CompareGuardTraps(rn: Reg, rm: Reg, cc: CondCode, m: Mach)
    requires !m.halted && !CondHolds(cc, SubFlags(m.x[rn], m.x[rm]))
    ensures Returns(CompareGuard(rn, rm, cc), m, Halted(Exec(Cmp(rn, rm), m), 0))
  {
    var code := CompareGuard(rn, rm, cc);
    var m1 := Exec(Cmp(rn, rm), m);
    GetsHere(code, 4, Halted(m1, 0));
    GetsStep(code, 3, Set(m1, 0, 0), 4, Halted(m1, 0));
    GetsStep(code, 2, m1, 4, Halted(m1, 0));
    GetsStep(code, 1, m1, 4, Halted(m1, 0));
    GetsStep(code, 0, m, 4, Halted(m1, 0));
  }

  lemma DoesTwo(i: Instr, j: Instr, m: Mach)
    requires !m.halted && Offset(i, m) == 1 && !Exec(i, m).halted && Offset(j, Exec(i, m)) == 1
    ensures Does([i, j], m, Exec(j, Exec(i, m)))
  {
    DoesOne(i, m);
    DoesOne(j, Exec(i, m));
    DoesThen([i], [j], m, Exec(i, m), Exec(j, Exec(i, m)));
    assert [i] + [j] == [i, j];
  }

  // ------------------------------------------------------------------
  // What a piece of code leaves alone.
  // ------------------------------------------------------------------

  /** Everything but the listed registers and the flags is as before. */
  ghost predicate Keeps(m: Mach, m1: Mach, ws: set<Reg>) {
    && (forall r: Reg :: r !in ws ==> m1.x[r] == m.x[r])
    && m1.mem == m.mem && m1.frame == m.frame && m1.fails == m.fails && m1.halted == m.halted
  }

  lemma KeepsTrans(m: Mach, m1: Mach, m2: Mach, ws: set<Reg>)
    requires Keeps(m, m1, ws) && Keeps(m1, m2, ws)
    ensures Keeps(m, m2, ws)
  {
  }

  lemma KeepsMore(m: Mach, m1: Mach, ws: set<Reg>, vs: set<Reg>)
    requires Keeps(m, m1, ws) && ws <= vs
    ensures Keeps(m, m1, vs)
  {
  }

  /** The flags too. */
  ghost predicate KeepsFlags(m: Mach, m1: Mach, ws: set<Reg>) { Keeps(m, m1, ws) && m1.f == m.f }

  /** Memory and all registers but the listed ones are as before. */
  ghost predicate Spares(m: Mach, m1: Mach, ws: set<Reg>) {
    (forall r: Reg :: r !in ws ==> m1.x[r] == m.x[r]) && m1.mem == m.mem && m1.frame == m.frame
  }
}
