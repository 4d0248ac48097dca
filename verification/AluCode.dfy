/** The machine code for one `BinOp`, and that it computes what the folder computes. */
module AluCode {
  import opened Words
  import opened Arith
  import opened Scalar
  import opened Arm
  import P = EmittedPermute

  // ------------------------------------------------------------------
  // Words against instructions.
  // ------------------------------------------------------------------

  lemma WrapPlus(x: int, k: int)
    ensures Wrap(x + TWO64 * k) == Wrap(x)
  {
    var q, r := x / TWO64, x % TWO64;
    ModUnique(x + TWO64 * k, TWO64, q + k, r);
  }

  /** Rotating left is rotating right by the negated count. */
  lemma RolIsRor(a: U64, b: U64)
    ensures AluValue(ARor, a, Neg(b)) == RotateLeft(a, b % 64)
  {
    var n := b % 64;
    NegCount(b);
    if n != 0 { OrComm(ShiftRight(a, 64 - n), Wrap(a * Pow2(n))); }
  }

  lemma NegCount(b: U64)
    ensures Neg(b) % 64 == (if b % 64 == 0 then 0 else 64 - b % 64)
  {
  }

  /** Remainder from quotient, unsigned. */
  lemma ModIsMsub(a: U64, b: U64)
    requires b != 0
    ensures MsubValue(AluValue(AUdiv, a, b), b, a) == a % b
  {
    var q, r := a / b, a % b;
    assert a == b * q + r;
    assert b * q == q * b;
    WrapSmall(r);
  }

  /** A word differs from its signed reading by a multiple of 2^64. */
  lemma Reading(a: U64) returns (k: int)
    ensures a == ToSigned(a) + TWO64 * k
  {
    k := if a < TWO63 then 0 else 1;
  }

  lemma Wrapped(t: int) returns (k: int)
    ensures Wrap(t) == t + TWO64 * k
  {
    k := -(t / TWO64);
  }

  lemma Congruent(sa: int, t: int, sb: int, ka: int, kt: int, kb: int)
    ensures sa + TWO64 * ka - (t + TWO64 * kt) * (sb + TWO64 * kb)
         == sa - sb * t + TWO64 * (ka - t * kb - kt * sb - kt * kb * TWO64)
  {
    assert (t + TWO64 * kt) * (sb + TWO64 * kb)
        == t * sb + TWO64 * (t * kb) + TWO64 * (kt * sb) + TWO64 * TWO64 * (kt * kb);
  }

  /** Remainder from quotient, signed, the overflowing quotient included. */
  lemma SignedModIsMsub(a: U64, b: U64)
    requires b != 0
    ensures MsubValue(AluValue(ASdiv, a, b), b, a) == SignedMod(a, b)
  {
    var sa, sb := ToSigned(a), ToSigned(b);
    if sa == -TWO63 && sb == -1 {
      assert a - a * b == 0 + TWO64 * (1 - TWO63);
      WrapPlus(0, 1 - TWO63);
    } else {
      var t := TruncDiv(sa, sb);
      var ka := Reading(a);
      var kb := Reading(b);
      var kt := Wrapped(t);
      Congruent(sa, t, sb, ka, kt, kb);
      WrapPlus(sa - sb * t, ka - t * kb - kt * sb - kt * kb * TWO64);
    }
  }

  // ------------------------------------------------------------------
  // The code.
  // ------------------------------------------------------------------

  predicate IsDivide(k: BinOpKind) { k.UDiv? || k.SDiv? || k.UMod? || k.SMod? }

  predicate IsPermute(k: BinOpKind) { k.Pdep? || k.Pext? }

  predicate IsMod(k: BinOpKind) { k.UMod? || k.SMod? }

  predicate IsRol(k: BinOpKind) { k.Rol? || k.Rcl? }

  /** Temporaries a kind takes besides its result register. */
  function TempsFor(k: BinOpKind): nat { if IsPermute(k) then 6 else if IsRol(k) || IsMod(k) then 1 else 0 }

  function AluOf(k: BinOpKind): Alu
    requires TempsFor(k) == 0 || IsMod(k)
  {
    match k
    case Add => AAdd
    case Sub => ASub
    case Mul => AMul
    case And_ => AAnd
    case Or_ => AOrr
    case Xor_ => AEor
    case Shl => ALsl
    case Shr => ALsr
    case Sar => AAsr
    case Ror => ARor
    case Rcr => ARor
    case UMulHi => AUmulh
    case SMulHi => ASmulh
    case UDiv => AUdiv
    case SDiv => ASdiv
    case UMod => AUdiv
    case SMod => ASdiv
  }

  function PermuteRegs(rd: Reg, ts: seq<Reg>): P.Regs
    requires |ts| == 6
  {
    P.Regs(rd, ts[0], ts[1], ts[2], ts[3], ts[4], ts[5])
  }

  function BinCode(k: BinOpKind, size: OpSize, rd: Reg, rn: Reg, rm: Reg, ts: seq<Reg>): seq<Instr>
    requires |ts| == TempsFor(k)
  {
    if IsPermute(k) then P.PermuteCode(k.Pdep?, PermuteRegs(rd, ts), rn, rm, size)
    else if IsRol(k) then [NegReg(ts[0], rm), Op3(ARor, rd, rn, ts[0])]
    else if IsMod(k) then ZeroGuard(rm) + [Op3(AluOf(k), ts[0], rn, rm), Msub(rd, ts[0], rm, rn)]
    else if IsDivide(k) then ZeroGuard(rm) + [Op3(AluOf(k), rd, rn, rm)]
    else [Op3(AluOf(k), rd, rn, rm)]
  }

  /** The registers of one statement: result, temporaries and operands. */
  ghost predicate Separate(rd: Reg, ts: seq<Reg>, ops: set<Reg>) {
    && rd !in ts && rd !in ops
    && (forall i, j :: 0 <= i < j < |ts| ==> ts[i] != ts[j])
    && (forall i :: 0 <= i < |ts| ==> ts[i] !in ops)
  }

  function Touched(rd: Reg, ts: seq<Reg>): set<Reg> { {rd} + set t | t in ts }

  lemma OneInstr(k: BinOpKind, a: U64, b: U64)
    requires TempsFor(k) == 0
    ensures AluValue(AluOf(k), a, b) == EvalBinOp(k, a, b)
  {
    match k
    case UMulHi => MulHighU64Exact(a, b); WrapSmall(a * b / TWO64);
    case SMulHi => MulHighS64Exact(a, b);
    case _ =>
  }

  lemma PlainRuns(k: BinOpKind, rd: Reg, rn: Reg, rm: Reg, m: Mach) returns (m1: Mach)
    requires TempsFor(k) == 0 && !m.halted
    ensures Does([Op3(AluOf(k), rd, rn, rm)], m, m1) && KeepsFlags(m, m1, {rd})
    ensures m1.x[rd] == EvalBinOp(k, m.x[rn], m.x[rm])
  {
    OneInstr(k, m.x[rn], m.x[rm]);
    m1 := Exec(Op3(AluOf(k), rd, rn, rm), m);
    DoesOne(Op3(AluOf(k), rd, rn, rm), m);
  }

  lemma RolRuns(k: BinOpKind, rd: Reg, rn: Reg, rm: Reg, t: Reg, m: Mach) returns (m1: Mach)
    requires IsRol(k) && !m.halted && Separate(rd, [t], {rn, rm})
    ensures Does([NegReg(t, rm), Op3(ARor, rd, rn, t)], m, m1) && KeepsFlags(m, m1, {rd, t})
    ensures m1.x[rd] == EvalBinOp(k, m.x[rn], m.x[rm])
  {
    assert t == [t][0];
    RolIsRor(m.x[rn], m.x[rm]);
    m1 := Exec(Op3(ARor, rd, rn, t), Exec(NegReg(t, rm), m));
    DoesTwo(NegReg(t, rm), Op3(ARor, rd, rn, t), m);
  }

  lemma ModRuns(k: BinOpKind, rd: Reg, rn: Reg, rm: Reg, t: Reg, m: Mach) returns (m1: Mach)
    requires IsMod(k) && !m.halted && Separate(rd, [t], {rn, rm}) && m.x[rm] != 0
    ensures Does([Op3(AluOf(k), t, rn, rm), Msub(rd, t, rm, rn)], m, m1) && KeepsFlags(m, m1, {rd, t})
    ensures m1.x[rd] == EvalBinOp(k, m.x[rn], m.x[rm])
  {
    assert t == [t][0];
    if k.UMod? { ModIsMsub(m.x[rn], m.x[rm]); } else { SignedModIsMsub(m.x[rn], m.x[rm]); }
    m1 := Exec(Msub(rd, t, rm, rn), Exec(Op3(AluOf(k), t, rn, rm), m));
    DoesTwo(Op3(AluOf(k), t, rn, rm), Msub(rd, t, rm, rn), m);
  }

  lemma PermRuns(k: BinOpKind, size: OpSize, rd: Reg, rn: Reg, rm: Reg, ts: seq<Reg>, m: Mach) returns (m1: Mach)
    requires IsPermute(k) && |ts| == 6 && !m.halted && Separate(rd, ts, {rn, rm})
    ensures Does(P.PermuteCode(k.Pdep?, PermuteRegs(rd, ts), rn, rm, size), m, m1)
    ensures KeepsFlags(m, m1, P.Written(PermuteRegs(rd, ts)))
    ensures m1.x[rd] == LoweredBin(k, size, m.x[rn], m.x[rm])
  {
    var r := PermuteRegs(rd, ts);
    PermApart(rd, rn, rm, ts);
    m1 := P.PermuteRuns(k.Pdep?, r, rn, rm, size, m);
  }

  lemma PermApart(rd: Reg, rn: Reg, rm: Reg, ts: seq<Reg>)
    requires |ts| == 6 && Separate(rd, ts, {rn, rm})
    ensures P.Apart(PermuteRegs(rd, ts)) && ts[0] != rm
  {
    assert forall i :: 0 <= i < 6 ==> ts[i] in ts;
  }

  lemma TouchedOf(k: BinOpKind, rd: Reg, ts: seq<Reg>)
    requires |ts| == TempsFor(k)
    ensures TempsFor(k) == 0 ==> Touched(rd, ts) == {rd}
    ensures TempsFor(k) == 1 ==> Touched(rd, ts) == {rd, ts[0]}
    ensures TempsFor(k) == 6 ==> Touched(rd, ts) == P.Written(PermuteRegs(rd, ts))
  {
  }

  /** Does the guarded code leave with the divide-error placeholder? */
  predicate Divided(k: BinOpKind, b: U64) { IsDivide(k) && b == 0 }

  /** What the emitted code computes: the full 64-bit value, never cut to a narrow size,
      except that the 32-bit permutations cut operands and result. */
  function LoweredBin(k: BinOpKind, size: OpSize, a: U64, b: U64): U64 {
    if IsPermute(k) then P.Trimmed(P.Permuted(k.Pdep?, P.Trimmed(a, size), P.Trimmed(b, size)), size)
    else EvalBinOp(k, a, b)
  }

  /** The register is left with more than the op's size, or the permutation lost bits. */
  predicate TooWide(k: BinOpKind, size: OpSize, a: U64, b: U64) {
    if IsPermute(k) && size.I32? then P.LosesHigh(k.Pdep?, a, b, size) else EvalBinOp(k, a, b) >= Range(size)
  }

  /** Exactly then it is not the IR's value. */
  lemma LoweredBinExact(k: BinOpKind, size: OpSize, a: U64, b: U64)
    ensures LoweredBin(k, size, a, b) == MaskToSize(EvalBinOp(k, a, b), size) <==> !TooWide(k, size, a, b)
    ensures size.I64? ==> !TooWide(k, size, a, b)
    ensures IsPermute(k) && size.I32? && a < TWO32 && b < TWO32 ==> !TooWide(k, size, a, b)
  {
    var v := EvalBinOp(k, a, b);
    if IsPermute(k) && size.I32? {
      P.PermuteFolds(k.Pdep?, a, b, size);
    } else if v < Range(size) {
      SmallMod(v, Range(size));
    }
  }

  /** Everything but a zero divide. */
  lemma BinRuns(k: BinOpKind, size: OpSize, rd: Reg, rn: Reg, rm: Reg, ts: seq<Reg>, m: Mach) returns (m1: Mach)
    requires |ts| == TempsFor(k) && !m.halted && Separate(rd, ts, {rn, rm}) && !Divided(k, m.x[rm])
    ensures Does(BinCode(k, size, rd, rn, rm, ts), m, m1) && KeepsFlags(m, m1, Touched(rd, ts))
    ensures m1.x[rd] == LoweredBin(k, size, m.x[rn], m.x[rm])
  {
    TouchedOf(k, rd, ts);
    if IsPermute(k) {
      m1 := PermRuns(k, size, rd, rn, rm, ts, m);
    } else if IsRol(k) {
      assert ts == [ts[0]];
      m1 := RolRuns(k, rd, rn, rm, ts[0], m);
    } else if IsMod(k) {
      assert ts == [ts[0]];
      ZeroGuardPasses(rm, m);
      m1 := ModRuns(k, rd, rn, rm, ts[0], m);
      DoesThen(ZeroGuard(rm), [Op3(AluOf(k), ts[0], rn, rm), Msub(rd, ts[0], rm, rn)], m, m, m1);
    } else {
      m1 := PlainRuns(k, rd, rn, rm, m);
      if IsDivide(k) {
        ZeroGuardPasses(rm, m);
        DoesThen(ZeroGuard(rm), [Op3(AluOf(k), rd, rn, rm)], m, m, m1);
      }
    }
  }

  /** A zero divide leaves at once with the halt value. */
  lemma BinTraps(k: BinOpKind, size: OpSize, rd: Reg, rn: Reg, rm: Reg, ts: seq<Reg>, m: Mach)
    requires |ts| == TempsFor(k) && !m.halted && Divided(k, m.x[rm])
    ensures Returns(BinCode(k, size, rd, rn, rm, ts), m, Halted(m, 0))
  {
    ZeroGuardTraps(rm, m);
    if IsMod(k) {
      ReturnsEarly(ZeroGuard(rm), [Op3(AluOf(k), ts[0], rn, rm), Msub(rd, ts[0], rm, rn)], m, Halted(m, 0));
    } else {
      ReturnsEarly(ZeroGuard(rm), [Op3(AluOf(k), rd, rn, rm)], m, Halted(m, 0));
    }
  }
}
