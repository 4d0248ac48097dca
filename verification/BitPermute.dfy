/** PDEP / PEXT: the constant folder's loops, the identities that make the two
    operations inverse, and the one-bit step that the folder and the emitted
    ARM64 loop share. */
module BitPermute {
  import opened Words
  import opened Arith

  /** The lowest set bit of a non-zero mask, as a value. */
  function LowBit(m: nat): (r: nat)
    requires m > 0
    ensures 1 <= r <= m
  {
    if m % 2 == 1 then 1 else 2 * LowBit(m / 2)
  }

  function LowPos(m: nat): (k: nat)
    requires m > 0
    ensures LowBit(m) == Pow2(k)
  {
    if m % 2 == 1 then 0 else LowPos(m / 2) + 1
  }

  function PopCount(m: nat): nat {
    if m == 0 then 0 else m % 2 + PopCount(m / 2)
  }

  lemma {:induction false} AndSelf(a: nat)
    ensures And(a, a) == a
  {
    if a != 0 { AndSelf(a / 2); }
  }

  lemma {:induction false} AndComplement(x: nat, n: nat)
    requires x < Pow2(n)
    ensures And(Pow2(n) - 1 - x, x) == 0
    decreases n
  {
    if n != 0 {
      var p := Pow2(n - 1);
      assert (2 * p - 1 - x) / 2 == p - 1 - x / 2;
      AndComplement(x / 2, n - 1);
    }
  }

  /** `(-m) & m` isolates the lowest set bit. */
  lemma {:induction false} NegAndIsLowBit(m: nat, n: nat)
    requires 0 < m < Pow2(n)
    ensures And(Pow2(n) - m, m) == LowBit(m)
    decreases n
  {
    var p := Pow2(n - 1);
    if m % 2 == 1 {
      assert (2 * p - m) / 2 == p - 1 - m / 2;
      AndComplement(m / 2, n - 1);
    } else {
      assert (2 * p - m) / 2 == p - m / 2;
      NegAndIsLowBit(m / 2, n - 1);
    }
  }

  /** `m & (m - 1)` clears the lowest set bit. */
  lemma {:induction false} AndPredClearsLowBit(m: nat)
    requires m > 0
    ensures And(m, m - 1) == m - LowBit(m)
  {
    if m % 2 == 1 {
      assert (m - 1) / 2 == m / 2;
      AndSelf(m / 2);
    } else {
      assert (m - 1) / 2 == m / 2 - 1;
      AndPredClearsLowBit(m / 2);
    }
  }

  lemma {:induction false} LowBitGrows(m: nat)
    requires m > 0 && m - LowBit(m) > 0
    ensures LowBit(m - LowBit(m)) >= 2 * LowBit(m)
  {
    if m % 2 == 1 {
      assert (m - 1) % 2 == 0;
    } else {
      var h := m / 2;
      assert m - LowBit(m) == 2 * (h - LowBit(h));
      LowBitGrows(h);
    }
  }

  /** `s >> k`, one bit at a time. */
  function Shifted(s: nat, k: nat): nat {
    if k == 0 then s else Shifted(s, k - 1) / 2
  }

  lemma {:induction false} ShiftedFront(s: nat, k: nat)
    requires k > 0
    ensures Shifted(s, k) == Shifted(s / 2, k - 1)
  {
    if k > 1 { ShiftedFront(s, k - 1); }
  }

  /** Testing bit `k` of a word with an AND. */
  lemma {:induction false} AndPow2(s: nat, k: nat)
    ensures And(s, Pow2(k)) == (if Shifted(s, k) % 2 == 1 then Pow2(k) else 0)
    decreases k
  {
    if k != 0 {
      ShiftedFront(s, k);
      AndPow2(s / 2, k - 1);
    }
  }

  /** One iteration of PDEP: the next source bit lands on the lowest mask bit. */
  lemma {:induction false} DepositStep(s: nat, m: nat)
    requires m > 0
    ensures Deposit(s, m) == (if s % 2 == 1 then LowBit(m) else 0) + Deposit(s / 2, m - LowBit(m))
    decreases m
  {
    if m % 2 == 1 {
      assert (m - 1) / 2 == m / 2;
    } else {
      var h := m / 2;
      DepositStep(s, h);
      assert (m - LowBit(m)) / 2 == h - LowBit(h) && (m - LowBit(m)) % 2 == 0;
      assert Deposit(s / 2, m - LowBit(m)) == 2 * Deposit(s / 2, h - LowBit(h));
    }
  }

  /** One iteration of PEXT: the source bit under the lowest mask bit comes out first. */
  lemma {:induction false} ExtractStep(s: nat, m: nat)
    requires m > 0
    ensures Extract(s, m) == Shifted(s, LowPos(m)) % 2 + 2 * Extract(s, m - LowBit(m))
    decreases m
  {
    if m % 2 == 1 {
      assert (m - 1) / 2 == m / 2;
    } else {
      var h := m / 2;
      ExtractStep(s / 2, h);
      ShiftedFront(s, LowPos(m));
      assert (m - LowBit(m)) / 2 == h - LowBit(h) && (m - LowBit(m)) % 2 == 0;
    }
  }

  // ------------------------------------------------------------------
  // Round trips.
  // ------------------------------------------------------------------

  lemma {:induction false} ExtractOfDeposit(x: nat, m: nat)
    ensures Extract(Deposit(x, m), m) == x % Pow2(PopCount(m))
    decreases m
  {
    if m != 0 {
      var d := Deposit(x, m);
      if m % 2 == 1 {
        ExtractOfDeposit(x / 2, m / 2);
        assert d / 2 == Deposit(x / 2, m / 2) && d % 2 == x % 2;
        DoubleMod(x / 2, x % 2, Pow2(PopCount(m / 2)));
      } else {
        ExtractOfDeposit(x, m / 2);
        assert d / 2 == Deposit(x, m / 2);
      }
    }
  }

  lemma {:induction false} DepositOfExtract(x: nat, m: nat)
    ensures Deposit(Extract(x, m), m) == And(x, m)
    decreases m
  {
    if m != 0 {
      DepositOfExtract(x / 2, m / 2);
      if x == 0 {
        AndComm(x / 2, m / 2);
      }
    }
  }

  // ------------------------------------------------------------------
  // Cutting source and mask to their low bits.
  // ------------------------------------------------------------------

  /** The low bits of PDEP come from the low bits of the mask. */
  lemma {:induction false} DepositMaskLow(s: nat, m: nat, n: nat)
    ensures Deposit(s, m) % Pow2(n) == Deposit(s, m % Pow2(n))
    decreases n
  {
    if n > 0 {
      HalfMod(m, n);
      var t, b := (if m % 2 == 1 then s / 2 else s), (if m % 2 == 1 then s % 2 else 0);
      DepositMaskLow(t, m / 2, n - 1);
      DoubleMod(Deposit(t, m / 2), b, Pow2(n - 1));
    }
  }

  /** A mask of `n` bits takes no more than the low `n` source bits. */
  lemma {:induction false} DepositSourceLow(s: nat, t: nat, m: nat, n: nat)
    requires m < Pow2(n) && s % Pow2(n) == t % Pow2(n)
    ensures Deposit(s, m) == Deposit(t, m)
    decreases n
  {
    if n > 0 && m > 0 {
      HalfMod(s, n);
      HalfMod(t, n);
      if m % 2 == 1 {
        DepositSourceLow(s / 2, t / 2, m / 2, n - 1);
      } else {
        ModHalf(s, Pow2(n - 1));
        ModHalf(t, Pow2(n - 1));
        DepositSourceLow(s, t, m / 2, n - 1);
      }
    }
  }

  lemma ModHalf(x: nat, p: nat)
    requires p >= 1
    ensures x % (2 * p) % p == x % p
  {
    var q, r := x / (2 * p), x % (2 * p);
    if r < p {
      ModUnique(x, p, 2 * q, r);
      ModUnique(r, p, 0, r);
    } else {
      ModUnique(x, p, 2 * q + 1, r - p);
      ModUnique(r, p, 1, r - p);
    }
  }

  lemma DepositLow(s: nat, m: nat, n: nat)
    ensures Deposit(s, m) % Pow2(n) == Deposit(s % Pow2(n), m % Pow2(n))
  {
    DepositMaskLow(s, m, n);
    ModUnique(s % Pow2(n), Pow2(n), 0, s % Pow2(n));
    DepositSourceLow(s, s % Pow2(n), m % Pow2(n), n);
  }

  /** `x` moved up by `k` bits. */
  function Raised(x: nat, k: nat): nat {
    if k == 0 then x else 2 * Raised(x, k - 1)
  }

  /** What the mask bits from `n` up take out of the source, where it lands in PEXT. */
  function TakenAbove(s: nat, m: nat, n: nat): nat {
    Raised(Extract(Shifted(s, n), Shifted(m, n)), PopCount(m % Pow2(n)))
  }

  lemma {:induction false} ExtractSplit(s: nat, m: nat, n: nat)
    ensures Extract(s, m) == Extract(s % Pow2(n), m % Pow2(n)) + TakenAbove(s, m, n)
    decreases n
  {
    if n > 0 {
      HalfMod(s, n);
      HalfMod(m, n);
      ShiftedFront(s, n);
      ShiftedFront(m, n);
      ExtractSplit(s / 2, m / 2, n - 1);
    }
  }

  lemma SumMod(x: nat, y: nat, p: nat)
    requires x < p
    ensures (x + y) % p == x <==> y % p == 0
  {
    if y % p == 0 {
      ModUnique(x + y, p, y / p, x);
    }
    if (x + y) % p == x {
      ModUnique(y, p, (x + y) / p, 0);
    }
  }

  /** So cutting both operands first changes PEXT's low bits exactly when something taken
      from above lands among them. */
  lemma ExtractLow(s: nat, m: nat, n: nat)
    ensures Extract(s, m) % Pow2(n) == Extract(s % Pow2(n), m % Pow2(n)) <==> TakenAbove(s, m, n) % Pow2(n) == 0
  {
    ExtractSplit(s, m, n);
    SumMod(Extract(s % Pow2(n), m % Pow2(n)), TakenAbove(s, m, n), Pow2(n));
  }

  // ------------------------------------------------------------------
  // The folder's loops.
  // ------------------------------------------------------------------

  /** What both loops know about the bit cursor: while mask bits are left, the
      cursor is `2^j` and has not passed the lowest of them. */
  ghost predicate Cursor(bit: U64, j: nat, mask: U64) {
    mask != 0 ==> bit == Pow2(j) && Pow2(j) <= LowBit(mask)
  }

  lemma LowBitOps(mask: U64)
    requires mask != 0
    ensures And(Neg(mask), mask) == LowBit(mask)
    ensures And(mask, mask - 1) == mask - LowBit(mask)
  {
    Pow2At64();
    NegLowBit(mask, 64);
    AndPredClearsLowBit(mask);
  }

  lemma NegLowBit(mask: U64, n: nat)
    requires mask != 0 && Pow2(n) == TWO64
    ensures And(Neg(mask), mask) == LowBit(mask)
  {
    NegAndIsLowBit(mask, n);
    WrapNegated(mask);
  }

  lemma WrapNegated(mask: U64)
    requires mask != 0
    ensures Neg(mask) == TWO64 - mask
  {
  }

  lemma CursorStep(bit: U64, j: nat, mask: U64, rest: U64)
    requires mask != 0 && Cursor(bit, j, mask) && rest == mask - LowBit(mask)
    ensures Cursor(Wrap(2 * bit), j + 1, rest)
  {
    if rest != 0 { LowBitGrows(mask); }
  }

  lemma OrTop(a: nat, k: nat)
    requires a < Pow2(k)
    ensures Or(a, Pow2(k)) == a + Pow2(k)
  {
    OrDisjoint(a, k, 1);
  }

  lemma DepositInvariant(src: U64, j: nat, mask: U64, out: U64, rest: U64)
    requires mask != 0 && out < LowBit(mask) && rest == mask - LowBit(mask)
    ensures (And(src, Pow2(j)) != 0) <==> Shifted(src, j) % 2 == 1
    ensures Or(out, LowBit(mask)) == out + LowBit(mask)
    ensures Deposit(Shifted(src, j), mask)
         == (if Shifted(src, j) % 2 == 1 then LowBit(mask) else 0) + Deposit(Shifted(src, j + 1), rest)
    ensures rest != 0 ==> out + LowBit(mask) < LowBit(rest)
  {
    AndPow2(src, j);
    OrTop(out, LowPos(mask));
    DepositStep(Shifted(src, j), mask);
    if rest != 0 { LowBitGrows(mask); }
  }

  /** State of the PDEP loop: `j` source bits are placed, `mask` has the places
      left. */
  ghost predicate Depositing(src: U64, mask0: U64, bit: U64, j: nat, mask: U64, out: U64) {
    && Cursor(bit, j, mask) && (mask != 0 ==> out < LowBit(mask))
    && out + Deposit(Shifted(src, j), mask) == Deposit(src, mask0)
  }

  function DepositOut(src: U64, bit: U64, mask: U64, out: U64): U64 {
    if And(src, bit) != 0 then Or64(out, And(Neg(mask), mask)) else out
  }

  lemma DepositLoop(src: U64, mask0: U64, bit: U64, j: nat, mask: U64, out: U64)
    requires mask != 0 && Depositing(src, mask0, bit, j, mask, out)
    ensures Depositing(src, mask0, Wrap(2 * bit), j + 1, And(mask, mask - 1), DepositOut(src, bit, mask, out))
    ensures And(mask, mask - 1) < mask
  {
    LowBitOps(mask);
    CursorStep(bit, j, mask, mask - LowBit(mask));
    DepositInvariant(src, j, mask, out, mask - LowBit(mask));
  }

  /** `bit_deposit` of the constant folder. */
  method BitDeposit(src: U64, mask0: U64) returns (out: U64)
    ensures out == Deposit(src, mask0)
  {
    out := 0;
    var bit: U64 := 1;
    var mask: U64 := mask0;
    ghost var j: nat := 0;
    while mask != 0
      invariant Depositing(src, mask0, bit, j, mask, out)
      decreases mask
    {
      DepositLoop(src, mask0, bit, j, mask, out);
      var low: U64 := And(Neg(mask), mask);
      if And(src, bit) != 0 { out := Or64(out, low); }
      mask := And(mask, mask - 1);
      bit := Wrap(2 * bit);
      j := j + 1;
    }
  }

  lemma ExtractInvariant(src: U64, j: nat, mask: U64, out: U64, rest: U64)
    requires mask != 0 && out < Pow2(j) && rest == mask - LowBit(mask)
    ensures (And(src, LowBit(mask)) != 0) <==> Shifted(src, LowPos(mask)) % 2 == 1
    ensures Or(out, Pow2(j)) == out + Pow2(j)
    ensures Pow2(j) * Extract(src, mask)
         == (if Shifted(src, LowPos(mask)) % 2 == 1 then Pow2(j) else 0) + Pow2(j + 1) * Extract(src, rest)
  {
    AndPow2(src, LowPos(mask));
    OrTop(out, j);
    ExtractStep(src, mask);
    Distribute(Pow2(j), Extract(src, mask), Shifted(src, LowPos(mask)) % 2, Extract(src, rest), Pow2(j + 1));
  }

  lemma Distribute(p: nat, x: nat, b: nat, e: nat, pp: nat)
    requires b <= 1 && x == b + 2 * e && pp == 2 * p
    ensures p * x == (if b == 1 then p else 0) + pp * e
  {
    assert p * x == p * b + 2 * p * e;
  }

  /** State of the PEXT loop: `j` bits are out, `mask` has those left. */
  ghost predicate Extracting(src: U64, mask0: U64, bit: U64, j: nat, mask: U64, out: U64) {
    && Cursor(bit, j, mask) && out < Pow2(j)
    && out + Pow2(j) * Extract(src, mask) == Extract(src, mask0)
  }

  function ExtractOut(src: U64, bit: U64, mask: U64, out: U64): U64 {
    if And(src, And(Neg(mask), mask)) != 0 then Or64(out, bit) else out
  }

  lemma ExtractLoop(src: U64, mask0: U64, bit: U64, j: nat, mask: U64, out: U64)
    requires mask != 0 && Extracting(src, mask0, bit, j, mask, out)
    ensures Extracting(src, mask0, Wrap(2 * bit), j + 1, And(mask, mask - 1), ExtractOut(src, bit, mask, out))
    ensures And(mask, mask - 1) < mask
  {
    LowBitOps(mask);
    var rest: U64 := mask - LowBit(mask);
    CursorStep(bit, j, mask, rest);
    ExtractInvariant(src, j, mask, out, rest);
  }

  /** `bit_extract` of the constant folder. */
  method BitExtract(src: U64, mask0: U64) returns (out: U64)
    ensures out == Extract(src, mask0)
  {
    out := 0;
    var bit: U64 := 1;
    var mask: U64 := mask0;
    ghost var j: nat := 0;
    ExtractStart(src, mask0);
    while mask != 0
      invariant Extracting(src, mask0, bit, j, mask, out)
      decreases mask
    {
      ExtractLoop(src, mask0, bit, j, mask, out);
      var low: U64 := And(Neg(mask), mask);
      if And(src, low) != 0 { out := Or64(out, bit); }
      mask := And(mask, mask - 1);
      bit := Wrap(2 * bit);
      j := j + 1;
    }
  }

  lemma ExtractStart(src: U64, mask0: U64)
    ensures Extracting(src, mask0, 1, 0, mask0, 0)
  {
  }
}
