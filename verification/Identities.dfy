/** The arithmetic identities behind `try_simplify`. */
module Identities {
  import opened Words
  import opened Arith

  lemma SelfIsZero(k: BinOpKind, a: U64)
    requires k.Sub? || k.Xor_?
    ensures EvalBinOp(k, a, a) == 0
  {
    XorSelf(a);
  }

  lemma RightZero(k: BinOpKind, a: U64)
    requires k.Mul? || k.And_? || k.UMulHi? || k.SMulHi?
    ensures EvalBinOp(k, a, 0) == 0
  {
    MulHighU64Exact(a, 0);
    MulHighS64Exact(a, 0);
  }

  lemma LeftZero(k: BinOpKind, b: U64)
    requires k.Mul? || k.And_? || k.UMulHi? || k.SMulHi? || k.UDiv? || k.SDiv? || k.UMod? || k.SMod?
    ensures EvalBinOp(k, 0, b) == 0
  {
    if k.UMulHi? { MulHighU64Exact(0, b); }
    if k.SMulHi? { MulHighS64Exact(0, b); }
    if k.UMod? && b != 0 { ModUnique(0, b, 0, 0); }
    if k.UDiv? && b != 0 { ModUnique(0, b, 0, 0); }
    if (k.SDiv? || k.SMod?) && b != 0 { ZeroTrunc(ToSigned(b)); }
  }

  lemma ZeroTrunc(m: int)
    requires m != 0
    ensures TruncDiv(0, m) == 0 && TruncMod(0, m) == 0
  {
    ModUnique(0, Abs(m), 0, 0);
  }

  lemma RightOne(k: BinOpKind, a: U64)
    requires k.UMulHi? || k.UMod? || k.SMod?
    ensures EvalBinOp(k, a, 1) == 0
  {
    if k.UMulHi? { MulHighU64Exact(a, 1); }
  }

  lemma SplitBy(a: nat, p: nat) returns (q: nat, r: nat)
    requires p > 0
    ensures a == q * p + r && r < p
  {
    q, r := a / p, a % p;
  }

  /** Or-ing in all `n` low bits sets all of them. */
  lemma OrLowOnes(a: nat, n: nat, q: nat, r: nat)
    requires r < Pow2(n) && a == q * Pow2(n) + r
    ensures Or(a, Pow2(n) - 1) % Pow2(n) == Pow2(n) - 1
  {
    OrOnes(a, n, q, r);
    TopOfBlock(Or(a, Pow2(n) - 1), Pow2(n), q);
  }

  lemma TopOfBlock(x: nat, p: nat, q: nat)
    requires p > 0 && x == q * p + p - 1
    ensures x % p == p - 1
  {
    ModUnique(x, p, q, p - 1);
  }

  lemma OrOnesLow(a: nat, n: nat)
    ensures Or(a, Pow2(n) - 1) % Pow2(n) == Pow2(n) - 1
  {
    var q, r := SplitBy(a, Pow2(n));
    OrLowOnes(a, n, q, r);
  }

  lemma OrAllOnes(a: U64, n: nat)
    requires n <= 64
    ensures Or(a, Pow2(n) - 1) % Pow2(n) == Pow2(n) - 1
    ensures Or(Pow2(n) - 1, a) % Pow2(n) == Pow2(n) - 1
  {
    OrOnesLow(a, n);
    OrComm(a, Pow2(n) - 1);
  }

  lemma WrapNegative(x: int)
    requires -TWO64 <= x < 0
    ensures Wrap(x) == x + TWO64
  {
    ModUnique(x, TWO64, -1, x + TWO64);
  }

  /** Filling the bits above the low `n` subtracts `2^n` modulo `2^64`. */
  lemma FillHigh(low: nat, n: nat, h: nat)
    requires low < Pow2(n) && Pow2(n) * h + Pow2(n) == TWO64
    ensures Or(low, TWO64 - Pow2(n)) == Wrap(low - Pow2(n))
  {
    OrDisjoint(low, n, h);
    WrapNegative(low - Pow2(n));
  }

  /** Both signs at once. */
  lemma SignBits(low: nat, p: nat, n: nat, h: nat)
    requires p == Pow2(n) && low < p && p * h + p == TWO64
    ensures (if 2 * low < p then low else Or(low, TWO64 - p)) == Wrap(if 2 * low < p then low else low - p)
  {
    if 2 * low < p { WrapSmall(low); } else { FillHigh(low, n, h); }
  }
}
