/** Shift-and-subtract division of a two-word number by one word. */
module LongDivision {
  import opened Words
  import opened Arith
  import opened Identities

  predicate IsDivision(n: int, d: int, q: int, r: int) { n == q * d + r && 0 <= r < d }

  /** The leading one of `k` bits, and the bits after it. */
  function Lead(t: nat, k: nat): nat
    requires k > 0
  {
    if t >= Pow2(k - 1) then 1 else 0
  }

  function Tail(t: nat, k: nat): nat
    requires k > 0
  {
    if t >= Pow2(k - 1) then t - Pow2(k - 1) else t
  }

  /** Quotient and remainder of `rem * 2^k + t` by `d`, one bit of `t` at a time. */
  function LongDiv(rem: nat, t: nat, k: nat, d: nat): (nat, nat)
    decreases k, t
  {
    if k == 0 then (0, rem)
    else
      var x := 2 * rem + Lead(t, k);
      var (q, r) := LongDiv(if x >= d then x - d else x, Tail(t, k), k - 1, d);
      (if x >= d then Pow2(k - 1) + q else q, r)
  }

  function DivQ(rem: nat, t: nat, k: nat, d: nat): nat { LongDiv(rem, t, k, d).0 }
  function DivR(rem: nat, t: nat, k: nat, d: nat): nat { LongDiv(rem, t, k, d).1 }

  /** One step taken, the others by the same function. */
  lemma StepsValues(rem: nat, t: nat, k: nat, d: nat, q: nat, rem1: nat, q1: nat, rem2: nat, q2: nat)
    requires k > 0
    requires var x := 2 * rem + Lead(t, k);
             rem1 == (if x >= d then x - d else x) && q1 == q + (if x >= d then Pow2(k - 1) else 0)
    requires rem2 == DivR(rem1, Tail(t, k), k - 1, d) && q2 == q1 + DivQ(rem1, Tail(t, k), k - 1, d)
    ensures rem2 == DivR(rem, t, k, d) && q2 == q + DivQ(rem, t, k, d)
  {
  }

  lemma {:induction false} LongDivExact(rem: nat, t: nat, k: nat, d: nat)
    requires rem < d && t < Pow2(k)
    ensures var (q, r) := LongDiv(rem, t, k, d);
            rem * Pow2(k) + t == q * d + r && r < d && q < Pow2(k)
    decreases k
  {
    if k > 0 {
      var x := 2 * rem + Lead(t, k);
      var x1 := if x >= d then x - d else x;
      LongDivExact(x1, Tail(t, k), k - 1, d);
      var (q, r) := LongDiv(x1, Tail(t, k), k - 1, d);
      Recombine(rem, Lead(t, k), Tail(t, k), Pow2(k - 1), x1, d, q, r, x >= d);
    }
  }

  lemma Recombine(rem: nat, b: nat, low: nat, p: nat, x1: int, d: nat, q: nat, r: nat, take: bool)
    requires b <= 1 && x1 == 2 * rem + b - (if take then d else 0) && x1 * p + low == q * d + r
    ensures rem * (2 * p) + ((if b == 1 then p else 0) + low) == (if take then p + q else q) * d + r
  {
    var e := if take then d else 0;
    assert x1 * p == 2 * (rem * p) + b * p - e * p;
    assert rem * (2 * p) == 2 * (rem * p);
    assert (p + q) * d == d * p + q * d;
  }

  /** The division algorithm determines quotient and remainder. */
  lemma DivisionUnique(n: nat, d: nat, q: nat, r: nat)
    requires d > 0 && r < d && n == q * d + r
    ensures n / d == q && n % d == r
  {
    assert d * q == q * d;
    ModUnique(n, d, q, r);
  }

  // ------------------------------------------------------------------
  // One iteration on machine words.
  // ------------------------------------------------------------------

  function TopBit(v: U64): U64 { if v >= TWO63 then 1 else 0 }

  lemma TopBitIs(v: U64)
    ensures ShiftRight(v, 63) == TopBit(v)
  {
    Pow2Values();
    if v >= TWO63 { ModUnique(v, TWO63, 1, v - TWO63); } else { ModUnique(v, TWO63, 0, v); }
  }

  function Twice(v: U64): U64 { Wrap(v + v) }
  function Minus(a: U64, b: U64): U64 { Wrap(a - b) }

  lemma Doubled(v: U64)
    ensures Twice(v) == 2 * v - (if v >= TWO63 then TWO64 else 0)
  {
    if v >= TWO63 { ModUnique(2 * v, TWO64, 1, 2 * v - TWO64); } else { WrapSmall(2 * v); }
  }

  /** The partial remainder with the next bit shifted in, modulo 2^64. */
  function ShiftedIn(rem: U64, low: U64): U64 { Or64(Twice(rem), TopBit(low)) }

  predicate Takes(rem: U64, low: U64, d: U64) { TopBit(rem) != 0 || ShiftedIn(rem, low) >= d }

  function NextRem(rem: U64, low: U64, d: U64): U64 {
    if Takes(rem, low, d) then Minus(ShiftedIn(rem, low), d) else ShiftedIn(rem, low)
  }

  function NextQuotient(q: U64, mask: U64, rem: U64, low: U64, d: U64): U64 {
    if Takes(rem, low, d) then Or64(q, mask) else q
  }

  lemma ShiftedInIs(rem: U64, low: U64)
    ensures ShiftedIn(rem, low) == 2 * rem + TopBit(low) - (if rem >= TWO63 then TWO64 else 0)
  {
    Doubled(rem);
    var w := Twice(rem);
    var h := if rem >= TWO63 then rem - TWO63 else rem;
    assert w == 2 * h;
    Pow2Values();
    OrComm(w, TopBit(low));
    OrDisjoint(TopBit(low), 1, h);
  }

  /** The 65-bit step on words: compare and subtract as if nothing were lost. */
  lemma NextRemIs(rem: U64, low: U64, d: U64)
    requires rem < d
    ensures var x := 2 * rem + TopBit(low);
            (Takes(rem, low, d) <==> x >= d) && NextRem(rem, low, d) == (if x >= d then x - d else x)
  {
    ShiftedInIs(rem, low);
    var x := 2 * rem + TopBit(low);
    if x >= d {
      var y := ShiftedIn(rem, low) - d;
      if y >= 0 { WrapSmall(y); } else { WrapNegative(y); }
    }
  }

  /** Low word before a step with `k` bits of `t` left. */
  ghost predicate LowWord(low: U64, t: nat, k: nat) {
    k <= 64 && t < Pow2(k) && low == t * Pow2(64 - k)
  }

  lemma HalfWord(k: nat)
    requires 0 < k <= 64
    ensures Pow2(k - 1) * Pow2(64 - k) == TWO63 && Pow2(64 - (k - 1)) == 2 * Pow2(64 - k)
  {
    Pow2Add(k - 1, 64 - k);
    Pow2Values();
  }

  lemma LowWordStep(low: U64, t: nat, k: nat)
    requires k > 0 && LowWord(low, t, k)
    ensures TopBit(low) == Lead(t, k)
    ensures LowWord(Twice(low), Tail(t, k), k - 1)
  {
    HalfWord(k);
    Doubled(low);
    LowHalves(low, t, Lead(t, k), Tail(t, k), Pow2(k - 1), Pow2(64 - k), Pow2(64 - (k - 1)));
  }

  lemma LowHalves(low: nat, t: nat, b: nat, t1: nat, p: nat, s: nat, s2: nat)
    requires b <= 1 && t1 < p && t == (if b == 1 then p else 0) + t1 && low == t * s && p * s == TWO63 && s > 0
    requires s2 == 2 * s
    ensures (low >= TWO63 <==> b == 1) && 2 * low - (if low >= TWO63 then TWO64 else 0) == t1 * s2
  {
    LowSplit(t, b, t1, p, s, low);
    DoubleRight(t1, s);
  }

  lemma DoubleRight(a: int, s: int)
    ensures a * (2 * s) == 2 * (a * s)
  {
  }

  lemma LowSplit(t: nat, b: nat, t1: nat, p: nat, s: nat, low: nat)
    requires b <= 1 && t1 < p && t == (if b == 1 then p else 0) + t1 && low == t * s && p * s == TWO63 && s > 0
    ensures low == (if b == 1 then TWO63 else 0) + t1 * s && t1 * s < TWO63
  {
    if b == 1 { assert t * s == p * s + t1 * s; }
    MulAtLeastOther(p - t1, s);
    assert p * s == t1 * s + (p - t1) * s;
  }

  /** Quotient so far: the low `k` bits are still clear. */
  lemma SetBit(q: U64, k: nat, h: nat)
    requires 0 < k <= 64 && q == Pow2(k) * h && q + Pow2(k - 1) < TWO64
    ensures Or64(q, Pow2(k - 1)) == q + Pow2(k - 1) == Pow2(k - 1) * (2 * h + 1)
  {
    var p := Pow2(k - 1);
    OrComm(q, p);
    OrDisjoint(p, k, h);
    OddMultiple(p, h);
  }

  lemma OddMultiple(p: nat, h: nat)
    ensures p * (2 * h + 1) == 2 * p * h + p
  {
  }

  /** Machine words with `k` bits of the dividend still to bring down. */
  ghost predicate Midway(rem: U64, low: U64, q: U64, mask: U64, d: U64, t: nat, k: nat, h: nat) {
    && rem < d && LowWord(low, t, k)
    && q == Pow2(k) * h && q + Pow2(k) <= TWO64
    && mask == (if k > 0 then Pow2(k - 1) else 0)
  }

  lemma MidwayMask(k: nat)
    requires k > 0
    ensures Pow2(k - 1) / 2 == (if k > 1 then Pow2(k - 2) else 0)
  {
  }

  lemma MidwayStep(rem: U64, low: U64, q: U64, mask: U64, d: U64, t: nat, k: nat, h: nat) returns (h1: nat)
    requires k > 0 && Midway(rem, low, q, mask, d, t, k, h)
    ensures Midway(NextRem(rem, low, d), Twice(low), NextQuotient(q, mask, rem, low, d), ShiftRight(mask, 1), d,
                   Tail(t, k), k - 1, h1)
    ensures NextQuotient(q, mask, rem, low, d) == q + (if 2 * rem + Lead(t, k) >= d then Pow2(k - 1) else 0)
    ensures NextRem(rem, low, d) == (var x := 2 * rem + Lead(t, k); if x >= d then x - d else x)
  {
    LowWordStep(low, t, k);
    NextRemIs(rem, low, d);
    MidwayMask(k);
    Pow2Values();
    h1 := if Takes(rem, low, d) then 2 * h + 1 else 2 * h;
    if Takes(rem, low, d) { SetBit(q, k, h); } else { EvenMultiple(Pow2(k - 1), h); }
  }

  lemma EvenMultiple(p: nat, h: nat)
    ensures p * (2 * h) == 2 * p * h
  {
  }

  // ------------------------------------------------------------------
  // Signs.
  // ------------------------------------------------------------------

  const ALL_ONES: U64 := 0xFFFF_FFFF_FFFF_FFFF

  lemma {:induction false} XorOnes(a: nat, n: nat)
    requires a < Pow2(n)
    ensures Xor(a, Pow2(n) - 1) == Pow2(n) - 1 - a
    decreases n
  {
    if n > 0 && a > 0 {
      var p := Pow2(n - 1);
      assert (2 * p - 1) / 2 == p - 1 && (2 * p - 1) % 2 == 1;
      XorOnes(a / 2, n - 1);
    }
  }

  lemma FlipIs(a: U64)
    ensures Xor64(a, ALL_ONES) == ALL_ONES - a
  {
    Pow2At64();
    XorOnes(a, 64);
  }

  lemma NegIs(a: U64)
    ensures Neg(a) == (if a == 0 then 0 else TWO64 - a)
  {
  }

  function WideOf(high: U64, low: U64): nat { high * TWO64 + low }

  function NegHigh(high: U64, low: U64): U64 { if low == 0 then Neg(high) else Xor64(high, ALL_ONES) }

  /** Negating a negative two-word number gives its absolute value. */
  lemma NegWide(high: U64, low: U64)
    requires high >= TWO63
    ensures WideOf(NegHigh(high, low), Neg(low)) == Abs(ToSigned(high) * TWO64 + low)
  {
    FlipIs(high);
    NegIs(high);
    NegIs(low);
  }

  /** The quotient needs a second word exactly when the high word is too big. */
  lemma QuotientOverflow(high: U64, low: U64, d: U64)
    requires d > 0
    ensures WideOf(high, low) / d >= TWO64 <==> high >= d
  {
    var n := WideOf(high, low);
    if high >= d {
      assert n >= TWO64 * d by { MulMono(high, d); }
      DivAtLeast(n, d, TWO64);
    } else {
      assert n < TWO64 * d by { MulMono(d, high + 1); }
      DivBelow(n, d, TWO64);
    }
  }

  lemma MulMono(a: int, b: int)
    requires a >= b
    ensures TWO64 * a >= TWO64 * b
  {
  }

  lemma DivAtLeast(n: nat, d: nat, q: nat)
    requires d > 0 && n >= q * d
    ensures n / d >= q
  {
    var x, r := n / d, n % d;
    assert n == x * d + r;
    assert (x + 1 - q) * d == x * d + d - q * d;
    PositiveFactor(x + 1 - q, d);
  }

  lemma DivBelow(n: nat, d: nat, q: nat)
    requires d > 0 && n < q * d
    ensures n / d < q
  {
    var x, r := n / d, n % d;
    assert n == x * d + r;
    assert (q - x) * d == q * d - x * d;
    PositiveFactor(q - x, d);
  }

  /** Truncating division from the division of absolute values. */
  lemma TruncFrom(n: int, m: int, q: int, r: int)
    requires q >= 0 && m != 0 && IsDivision(Abs(n), Abs(m), q, r)
    ensures Abs(n) / Abs(m) == q
    ensures TruncDiv(n, m) == (if (n < 0) == (m < 0) then q else -q)
    ensures TruncMod(n, m) == (if n < 0 then -r else r)
  {
    DivisionUnique(Abs(n), Abs(m), q, r);
    if m < 0 { assert q * (-m) == -(m * q); }
    assert m * (-q) == -(m * q) && m * q == q * m;
  }

  /** Whether quotient and operands of unlike sign are negative. */
  function Unlike(a: U64, b: U64): U64 { Xor64(TopBit(a), TopBit(b)) }

  lemma UnlikeIs(a: U64, b: U64)
    ensures Unlike(a, b) == (if (a >= TWO63) == (b >= TWO63) then 0 else 1)
  {
    assert Xor64(0, 0) == 0 && Xor64(1, 1) == 0 && Xor64(0, 1) == 1 && Xor64(1, 0) == 1;
  }

  /** A value with the sign put back. */
  function Signed(negative: bool, v: U64): U64 { if negative then Neg(v) else v }

  lemma SignedIs(negative: bool, v: U64)
    ensures Signed(negative, v) == Wrap(if negative then 0 - v else v)
  {
    WrapSmall(v);
    if v > 0 { WrapNegative(0 - v); }
  }

  /** The range guard on a quotient and its sign. */
  predicate InRange(unlike: bool, v: U64) { if unlike then v <= TWO63 else v < TWO63 }

  lemma QuotientInRange(n: int, m: int, q: U64, r: int)
    requires m != 0 && IsDivision(Abs(n), Abs(m), q, r)
    ensures FitsQuotient(n, m) <==> InRange((n < 0) != (m < 0), q)
  {
    TruncFrom(n, m, q, r);
  }

  predicate FitsQuotient(n: int, m: int)
    requires m != 0
  {
    -TWO63 <= TruncDiv(n, m) < TWO63
  }

  /** A remainder is smaller than the divisor, so the guard never fires on it. */
  lemma RemainderInRange(d: U64, unlike: bool, r: U64)
    requires d > 0 && r < Abs(ToSigned(d))
    ensures InRange(unlike, r)
  {
  }

  lemma AbsDivisorIs(d: U64)
    requires d > 0
    ensures Signed(d >= TWO63, d) == Abs(ToSigned(d)) > 0
  {
    NegIs(d);
  }
}
