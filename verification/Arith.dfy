/** `eval_binop`: the total meaning of every scalar `BinOp`, with the portable
    high-half multiply and the BMI2 bit permutes it folds with. */
module Arith {
  import opened Words

  datatype BinOpKind =
    | Add | Sub | Mul | And_ | Or_ | Xor_ | Shl | Shr | Sar | Rol | Ror | Rcl | Rcr
    | UMulHi | SMulHi | UDiv | SDiv | UMod | SMod | Pdep | Pext

  /** 64x64 high half from four 32x32 products; every `+` and `*` is a 64-bit
      operation of the source, written with its wrap-around. */
  function MulHighU64(a: U64, b: U64): U64 {
    var alo, ahi := a % TWO32, a / TWO32;
    var blo, bhi := b % TWO32, b / TWO32;
    CombineHalves(alo * blo, ahi * blo, alo * bhi, ahi * bhi)
  }

  function CombineHalves(ll: int, hl: int, lh: int, hh: int): U64 {
    var w0 := Wrap(ll);
    var t := Wrap(Wrap(hl) + w0 / TWO32);
    var w1 := Wrap(Wrap(lh) + t % TWO32);
    Wrap(Wrap(hh) + t / TWO32 + w1 / TWO32)
  }

  /** Signed high half: the unsigned one corrected by each negative operand. */
  function MulHighS64(a: U64, b: U64): U64 {
    var asign := if a >= TWO63 then TWO64 - 1 else 0;
    var bsign := if b >= TWO63 then TWO64 - 1 else 0;
    Wrap(MulHighU64(a, b) - And(asign, b) - And(bsign, a))
  }

  function RotateLeft(a: U64, n: nat): U64
    requires n < 64
  {
    if n == 0 then a else Or64(Wrap(a * Pow2(n)), ShiftRight(a, 64 - n))
  }

  function RotateRight(a: U64, n: nat): U64
    requires n < 64
  {
    if n == 0 then a else Or64(ShiftRight(a, n), Wrap(a * Pow2(64 - n)))
  }

  function ShiftRight(a: U64, n: nat): U64 {
    QuotientBound(a, Pow2(n));
    a / Pow2(n)
  }

  lemma QuotientBound(a: nat, d: nat)
    requires d >= 1
    ensures 0 <= a / d <= a
  {
    assert a == d * (a / d) + a % d;
    if a / d > a {
      MulAtLeastOther(d, a / d);
      assert false;
    }
  }

  lemma MulAtLeastOther(d: int, k: int)
    requires d >= 1 && k >= 0
    ensures d * k >= k
  {
    assert d * k == (d - 1) * k + k;
  }

  /** PDEP, one mask bit at a time from the low end. */
  function Deposit(src: nat, mask: nat): (r: nat)
    ensures r <= mask
    decreases mask
  {
    if mask == 0 then 0
    else if mask % 2 == 1 then src % 2 + 2 * Deposit(src / 2, mask / 2)
    else 2 * Deposit(src, mask / 2)
  }

  /** PEXT, one mask bit at a time from the low end. */
  function Extract(src: nat, mask: nat): (r: nat)
    ensures r <= mask
    decreases mask
  {
    if mask == 0 then 0
    else if mask % 2 == 1 then src % 2 + 2 * Extract(src / 2, mask / 2)
    else Extract(src / 2, mask / 2)
  }

  function SignedDiv(a: U64, b: U64): U64 {
    var sa, sb := ToSigned(a), ToSigned(b);
    if sb == 0 then 0
    else if sa == -TWO63 && sb == -1 then a
    else Wrap(TruncDiv(sa, sb))
  }

  function SignedMod(a: U64, b: U64): U64 {
    var sa, sb := ToSigned(a), ToSigned(b);
    if sb == 0 then a
    else if sa == -TWO63 && sb == -1 then 0
    else Wrap(TruncMod(sa, sb))
  }

  function EvalBinOp(op: BinOpKind, a: U64, b: U64): U64 {
    var n := b % 64;
    match op
    case Add => Wrap(a + b)
    case Sub => Wrap(a - b)
    case Mul => Wrap(a * b)
    case And_ => And(a, b)
    case Or_ => Or64(a, b)
    case Xor_ => Xor64(a, b)
    case Shl => Wrap(a * Pow2(n))
    case Shr => ShiftRight(a, n)
    case Sar => Wrap(ToSigned(a) / Pow2(n))
    case Rol => RotateLeft(a, n)
    case Ror => RotateRight(a, n)
    case Rcl => RotateLeft(a, n)
    case Rcr => RotateRight(a, n)
    case UMulHi => MulHighU64(a, b)
    case SMulHi => MulHighS64(a, b)
    case UDiv => if b == 0 then 0 else QuotientBound(a, b); a / b
    case SDiv => SignedDiv(a, b)
    case UMod => if b == 0 then a else a % b
    case SMod => SignedMod(a, b)
    case Pdep => Deposit(a, b)
    case Pext => Extract(a, b)
  }

  // ------------------------------------------------------------------
  // The high-half multiplies are exact.
  // ------------------------------------------------------------------

  /** Schoolbook product of two 64-bit words split into 32-bit halves. */
  lemma HalvesProduct(al: int, ah: int, bl: int, bh: int)
    ensures (ah * TWO32 + al) * (bh * TWO32 + bl)
         == ah * bh * TWO64 + (ah * bl + al * bh) * TWO32 + al * bl
  {
  }

  lemma ProductBound(x: nat, y: nat, n: nat)
    requires x <= n && y <= n
    ensures 0 <= x * y <= n * n
  {
    assert (n - x) * y >= 0;
    assert n * (n - y) >= 0;
  }

  /** No partial sum of the four products overflows, and the carries add up. */
  lemma CombineHalvesExact(ll: nat, hl: nat, lh: nat, hh: nat)
    requires ll <= 0xFFFF_FFFE_0000_0001 && hl <= 0xFFFF_FFFE_0000_0001
    requires lh <= 0xFFFF_FFFE_0000_0001 && hh <= 0xFFFF_FFFE_0000_0001
    ensures CombineHalves(ll, hl, lh, hh) == (hh * TWO64 + (hl + lh) * TWO32 + ll) / TWO64
  {
    var t := hl + ll / TWO32;
    var w1 := lh + t % TWO32;
    CarryBounds(ll / TWO32, hl, lh, hh, t / TWO32, t % TWO32, w1 / TWO32);
    WrapSmall(ll); WrapSmall(hl); WrapSmall(lh); WrapSmall(hh);
    WrapSmall(t); WrapSmall(w1); WrapSmall(hh + t / TWO32 + w1 / TWO32);
    CarryEquation(ll, hl, lh, hh, t / TWO32, t % TWO32, w1 / TWO32, w1 % TWO32);
  }

  lemma WrapSmall(x: int)
    requires 0 <= x < TWO64
    ensures Wrap(x) == x
  {
  }

  lemma CarryEquation(ll: nat, hl: nat, lh: nat, hh: nat, t1: nat, t0: nat, u1: nat, u0: nat)
    requires t0 < TWO32 && u0 < TWO32
    requires t1 * TWO32 + t0 == hl + ll / TWO32 && u1 * TWO32 + u0 == lh + t0
    ensures (hh * TWO64 + (hl + lh) * TWO32 + ll) / TWO64 == hh + t1 + u1
  {
    ModUnique(hh * TWO64 + (hl + lh) * TWO32 + ll, TWO64, hh + t1 + u1, u0 * TWO32 + ll % TWO32);
  }

  lemma CarryBounds(l1: nat, hl: nat, lh: nat, hh: nat, t1: nat, t0: nat, u1: nat)
    requires l1 < TWO32 && t0 < TWO32
    requires hl <= 0xFFFF_FFFE_0000_0001 && lh <= 0xFFFF_FFFE_0000_0001 && hh <= 0xFFFF_FFFE_0000_0001
    requires t1 * TWO32 + t0 == hl + l1 && u1 * TWO32 <= lh + t0
    ensures hl + l1 < TWO64 && lh + t0 < TWO64 && hh + t1 + u1 < TWO64
  {
  }

  /** `mul_high_u64` is the high half of the true 128-bit product. */
  lemma MulHighU64Exact(a: U64, b: U64)
    ensures MulHighU64(a, b) == a * b / TWO64
  {
    var al, ah, bl, bh := a % TWO32, a / TWO32, b % TWO32, b / TWO32;
    var n := TWO32 - 1;
    ProductBound(al, bl, n); ProductBound(ah, bl, n); ProductBound(al, bh, n); ProductBound(ah, bh, n);
    CombineHalvesExact(al * bl, ah * bl, al * bh, ah * bh);
    HalvesProduct(al, ah, bl, bh);
  }

  /** A word read as signed is the word less `2^64` when its top bit is set. */
  lemma MulHighS64Exact(a: U64, b: U64)
    ensures MulHighS64(a, b) == Wrap(ToSigned(a) * ToSigned(b) / TWO64)
  {
    MulHighU64Exact(a, b);
    SignCorrection(a, b);
    SignCorrection(b, a);
    SignedProduct(a, b, if a >= TWO63 then 1 else 0, if b >= TWO63 then 1 else 0);
  }

  lemma SignCorrection(a: U64, b: U64)
    ensures And(if a >= TWO63 then TWO64 - 1 else 0, b) == (if a >= TWO63 then b else 0)
  {
    if a >= TWO63 {
      Pow2At64();
      AndComm(TWO64 - 1, b);
      AndOnes(b, 64);
      WrapSmall(b);
    }
  }

  lemma SignedProduct(a: U64, b: U64, sa: int, sb: int)
    requires 0 <= sa <= 1 && 0 <= sb <= 1
    ensures Wrap((a - sa * TWO64) * (b - sb * TWO64) / TWO64)
         == Wrap(a * b / TWO64 - sa * b - sb * a)
  {
    var k := sa * sb * TWO64 - sa * b - sb * a;
    assert (a - sa * TWO64) * (b - sb * TWO64) == a * b + k * TWO64;
    assert (a * b + k * TWO64) / TWO64 == a * b / TWO64 + k;
  }
}
