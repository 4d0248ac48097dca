/** Operand sizes, byte memory and ARM64 condition flags: what the IR and the
    machine code it is lowered to have in common. */
module Scalar {
  import opened Words
  import opened Arith

  datatype OpSize = I8 | I16 | I32 | I64

  datatype CondCode =
    | Eq | Ne | Ult | Ule | Ugt | Uge | Slt | Sle | Sgt | Sge
    | Cc | Nc | Ov | NoOv | Mi | Pl

  datatype WideDivResult = Quotient | Remainder

  // ------------------------------------------------------------------
  // Sizes and masks.
  // ------------------------------------------------------------------

  function BitWidth(s: OpSize): nat {
    match s case I8 => 8 case I16 => 16 case I32 => 32 case I64 => 64
  }

  function Bytes(s: OpSize): nat {
    match s case I8 => 1 case I16 => 2 case I32 => 4 case I64 => 8
  }

  /** One more than the largest value of the size: `2^BitWidth(s)`. */
  function Range(s: OpSize): nat {
    match s case I8 => 0x100 case I16 => 0x1_0000 case I32 => TWO32 case I64 => TWO64
  }

  function MaskToSize(v: U64, s: OpSize): (r: U64)
    ensures r < Range(s)
  {
    v % Range(s)
  }

  /** Reading the low bits of `v` as a signed value of the given size. */
  function SignedOf(v: U64, s: OpSize): int {
    var low := MaskToSize(v, s);
    if 2 * low < Range(s) then low else low - Range(s)
  }

  function ExtendValue(v: U64, fromSize: OpSize, toSize: OpSize, isSigned: bool): U64 {
    MaskToSize(if isSigned then Wrap(SignedOf(v, fromSize)) else MaskToSize(v, fromSize), toSize)
  }

  /** Writing a value of the given size into a register: 32-bit writes clear the top. */
  function MergeReg(prev: U64, v: U64, s: OpSize): U64 {
    match s
    case I8 => prev - prev % 0x100 + v % 0x100
    case I16 => prev - prev % 0x1_0000 + v % 0x1_0000
    case I32 => v % TWO32
    case I64 => v
  }

  // ------------------------------------------------------------------
  // Byte memory, little endian, addresses modulo 2^64.
  // ------------------------------------------------------------------

  type Mem = map<U64, Byte>

  function ReadByte(m: Mem, a: U64): Byte { if a in m then m[a] else 0 }

  function LoadBytes(m: Mem, a: U64, n: nat): nat
    decreases n, a
  {
    if n == 0 then 0 else ReadByte(m, a) + 256 * LoadBytes(m, Wrap(a + 1), n - 1)
  }

  function Load(m: Mem, a: U64, s: OpSize): (v: U64)
    ensures v < Range(s)
  {
    LoadBytes(m, a, Bytes(s)) % Range(s)
  }

  /** The bytes of a size already fit it. */
  lemma SmallMod(x: nat, d: nat)
    requires x < d
    ensures x % d == x
  {
  }

  function StoreBytes(m: Mem, a: U64, v: nat, n: nat): Mem
    decreases n, a
  {
    if n == 0 then m else StoreBytes(m[a := v % 256], Wrap(a + 1), v / 256, n - 1)
  }

  function Store(m: Mem, a: U64, v: U64, s: OpSize): Mem { StoreBytes(m, a, v, Bytes(s)) }

  // ------------------------------------------------------------------
  // ARM64 condition flags.
  // ------------------------------------------------------------------

  datatype Nzcv = Nzcv(n: bool, z: bool, c: bool, v: bool)

  predicate FitsSigned(x: int) { -TWO63 <= x < TWO63 }

  function SubFlags(x: U64, y: U64): Nzcv {
    Nzcv(Wrap(x - y) >= TWO63, x == y, x >= y, !FitsSigned(ToSigned(x) - ToSigned(y)))
  }

  function AddFlags(x: U64, y: U64): Nzcv {
    Nzcv(Wrap(x + y) >= TWO63, Wrap(x + y) == 0, x + y >= TWO64, !FitsSigned(ToSigned(x) + ToSigned(y)))
  }

  function LogicFlags(r: U64): Nzcv { Nzcv(r >= TWO63, r == 0, false, false) }

  /** The flags an ALU op leaves. */
  function AluFlagsValue(kind: BinOpKind, a: U64, b: U64): Nzcv {
    match kind
    case Sub => SubFlags(a, b)
    case Add => AddFlags(a, b)
    case _ => LogicFlags(EvalBinOp(kind, a, b))
  }

  datatype Rflags = Rflags(cf: bool, pf: bool, af: bool, zf: bool, sf: bool, of: bool)

  datatype RflagsCarryMode = ArmCarry | InvertArmCarry | ClearCarry | PreserveCarry

  function RflagsFromNzcv(prev: Rflags, f: Nzcv, carry: RflagsCarryMode, pf: Option<U64>, af: Option<U64>): Rflags {
    Rflags(
      match carry {
        case ArmCarry => f.c
        case InvertArmCarry => !f.c
        case ClearCarry => false
        case PreserveCarry => prev.cf
      },
      if pf.Some? then pf.value % 2 == 1 else prev.pf,
      if af.Some? then af.value % 2 == 1 else prev.af,
      f.z, f.n, f.v)
  }

  predicate CondHolds(cc: CondCode, f: Nzcv) {
    match cc
    case Eq => f.z
    case Ne => !f.z
    case Ult => !f.c
    case Ule => !f.c || f.z
    case Ugt => f.c && !f.z
    case Uge => f.c
    case Slt => f.n != f.v
    case Sle => f.z || f.n != f.v
    case Sgt => !f.z && f.n == f.v
    case Sge => f.n == f.v
    case Cc => !f.c
    case Nc => f.c
    case Ov => f.v
    case NoOv => !f.v
    case Mi => f.n
    case Pl => !f.n
  }

  /** Operands of a flag-setting op are shifted up so that the size's top bit
      is bit 63. */
  function Align(v: U64, s: OpSize): U64 { Wrap(v * AlignFactor(s)) }

  function AlignFactor(s: OpSize): nat {
    match s
    case I8 => 0x100_0000_0000_0000
    case I16 => 0x1_0000_0000_0000
    case I32 => TWO32
    case I64 => 1
  }

  // ------------------------------------------------------------------
  // 128/64 division, Intel SDM Vol. 2A chapter 3 (DIV, IDIV).
  // ------------------------------------------------------------------

  function WideDividend(high: U64, low: U64, isSigned: bool): int {
    (if isSigned then ToSigned(high) else high) * TWO64 + low
  }

  function WideDivisor(d: U64, isSigned: bool): int { if isSigned then ToSigned(d) else d }

  predicate WideDivTraps(high: U64, low: U64, d: U64, isSigned: bool, want: WideDivResult) {
    d == 0
    || (var n, m := WideDividend(high, low, isSigned), WideDivisor(d, isSigned);
        || Abs(n) / Abs(m) >= TWO64
        || (isSigned && want.Quotient? && !FitsSigned(TruncDiv(n, m))))
  }

  function WideDivValue(high: U64, low: U64, d: U64, isSigned: bool, want: WideDivResult): U64 {
    if d == 0 then 0
    else
      var n, m := WideDividend(high, low, isSigned), WideDivisor(d, isSigned);
      Wrap(if want.Quotient? then TruncDiv(n, m) else TruncMod(n, m))
  }

  // ------------------------------------------------------------------
  // String loops, clamped per dispatch hop.
  // ------------------------------------------------------------------

  const REP_MAX_BYTES_PER_CALL: nat := 0x100_0000

  function RepCap(s: OpSize): nat { REP_MAX_BYTES_PER_CALL / Bytes(s) }

  function Advance(p: U64, s: OpSize, reverse: bool): U64 {
    if reverse then Wrap(p - Bytes(s)) else Wrap(p + Bytes(s))
  }

  /** `n` elements of STOS: memory and destination address afterwards. */
  function StosLoop(m: Mem, rdi: U64, v: U64, n: nat, s: OpSize, reverse: bool): (Mem, U64)
    decreases n
  {
    if n == 0 then (m, rdi)
    else StosLoop(Store(m, rdi, v, s), Advance(rdi, s, reverse), v, n - 1, s, reverse)
  }

  /** `n` elements of MOVS: memory, source and destination addresses afterwards. */
  function MovsLoop(m: Mem, rsi: U64, rdi: U64, n: nat, s: OpSize, reverse: bool): (Mem, U64, U64)
    decreases n
  {
    if n == 0 then (m, rsi, rdi)
    else MovsLoop(Store(m, rdi, Load(m, rsi, s), s),
                  Advance(rsi, s, reverse), Advance(rdi, s, reverse), n - 1, s, reverse)
  }

  function RepIters(rcx: U64, s: OpSize): (k: U64)
    ensures k <= rcx
  {
    if rcx < RepCap(s) then rcx else RepCap(s)
  }
}
