/** Sixty-four bit words as bounded integers, and the bitwise operators on them.

    A word is an unbounded integer restricted to `[0, 2^64)`; every place where
    the translator wraps around or truncates is an explicit `Wrap` or `%`.
    The bitwise operators are defined bit by bit, so that arithmetic facts
    (division, masking, carries) and bitwise facts meet in one theory. */
module Words {
  const TWO32: int := 0x1_0000_0000
  const TWO63: int := 0x8000_0000_0000_0000
  const TWO64: int := 0x1_0000_0000_0000_0000

  type U32 = x: int | 0 <= x < 0x1_0000_0000
  type U64 = x: int | 0 <= x < 0x1_0000_0000_0000_0000
  type Byte = x: int | 0 <= x < 256

  /** SSA value and basic block identifiers of the IR. */
  type Ref = U32
  type BlockId = U32

  datatype Option<+T> = None | Some(value: T)

  lemma TakeSnoc<T>(s: seq<T>, i: nat)
    requires i < |s|
    ensures s[..i + 1] == s[..i] + [s[i]]
  {
  }

  lemma SomeElement<T(!new)>(s: seq<T>)
    ensures s != [] ==> exists x :: x in s
  {
    if s != [] { assert s[0] in s; }
  }

  lemma TakeAll<T>(s: seq<T>)
    ensures s[..|s|] == s
  {
  }

  lemma {:induction false} SubsetSize<T(!new)>(a: set<T>, b: set<T>)
    requires a <= b
    ensures |a| <= |b| && (a < b ==> |a| < |b|)
    decreases |a|
  {
    if a != {} {
      var x :| x in a;
      SubsetSize(a - {x}, b - {x});
      assert b == (b - {x}) + {x} && a == (a - {x}) + {x};
    }
  }

  function Wrap(x: int): U64 { x % TWO64 }

  function Neg(x: U64): U64 { (TWO64 - x) % TWO64 }

  /** The two's complement reading of a word. */
  function ToSigned(a: U64): int { if a < TWO63 then a else a - TWO64 }

  function Abs(x: int): nat { if x < 0 then -x else x }

  /** Division that truncates toward zero, as C++ and ARM64 `sdiv` do. */
  function TruncDiv(a: int, b: int): int
    requires b != 0
  {
    if (a < 0) == (b < 0) then Abs(a) / Abs(b) else -(Abs(a) / Abs(b))
  }

  function TruncMod(a: int, b: int): int
    requires b != 0
  {
    a - b * TruncDiv(a, b)
  }

  function Pow2(n: nat): (p: nat)
    ensures p >= 1
  {
    if n == 0 then 1 else 2 * Pow2(n - 1)
  }

  lemma Pow2Values()
    ensures Pow2(1) == 2 && Pow2(8) == 0x100 && Pow2(16) == 0x1_0000 && Pow2(32) == TWO32
    ensures Pow2(48) == 0x1_0000_0000_0000 && Pow2(56) == 0x100_0000_0000_0000
    ensures Pow2(63) == TWO63 && Pow2(64) == TWO64
  {
    var eight := 8;
    assert Pow2(8) == 0x100;
    Pow2Add(eight, eight);
    Pow2Add(2 * eight, 2 * eight);
    Pow2Add(4 * eight, 2 * eight);
    Pow2Add(6 * eight, eight);
    Pow2Add(7 * eight, eight);
    Pow2Add(8 * eight - 1, 1);
  }

  lemma Pow2At64()
    ensures Pow2(64) == TWO64
  {
    Pow2Values();
  }

  lemma {:induction false} Pow2Add(m: nat, n: nat)
    ensures Pow2(m + n) == Pow2(m) * Pow2(n)
  {
    if m != 0 {
      Pow2Add(m - 1, n);
      assert Pow2(m + n) == 2 * Pow2(m - 1 + n);
    }
  }

  lemma {:induction false} Pow2Monotone(m: nat, n: nat)
    requires m <= n
    ensures Pow2(m) <= Pow2(n)
    decreases n
  {
    if m < n { Pow2Monotone(m, n - 1); }
  }

  // ------------------------------------------------------------------
  // Bitwise operators.
  // ------------------------------------------------------------------

  function And(a: nat, b: nat): (r: nat)
    ensures r <= a && r <= b
  {
    if a == 0 || b == 0 then 0
    else 2 * And(a / 2, b / 2) + (if a % 2 == 1 && b % 2 == 1 then 1 else 0)
  }

  function Or(a: nat, b: nat): (r: nat)
    ensures r >= a && r >= b
    decreases a + b
  {
    if a == 0 then b else if b == 0 then a
    else 2 * Or(a / 2, b / 2) + (if a % 2 == 1 || b % 2 == 1 then 1 else 0)
  }

  function Xor(a: nat, b: nat): nat
    decreases a + b
  {
    if a == 0 then b else if b == 0 then a
    else 2 * Xor(a / 2, b / 2) + (if a % 2 != b % 2 then 1 else 0)
  }

  /** Bit `k` of a word. */
  predicate BitAt(v: nat, k: nat) { if k == 0 then v % 2 == 1 else BitAt(v / 2, k - 1) }

  lemma {:induction false} OrBound(a: nat, b: nat, n: nat)
    requires a < Pow2(n) && b < Pow2(n)
    ensures Or(a, b) < Pow2(n)
  {
    if a != 0 && b != 0 { OrBound(a / 2, b / 2, n - 1); }
  }

  lemma {:induction false} XorBound(a: nat, b: nat, n: nat)
    requires a < Pow2(n) && b < Pow2(n)
    ensures Xor(a, b) < Pow2(n)
  {
    if a != 0 && b != 0 { XorBound(a / 2, b / 2, n - 1); }
  }

  function Or64(a: U64, b: U64): U64 { Pow2Values(); OrBound(a, b, 64); Or(a, b) }
  function Xor64(a: U64, b: U64): U64 { Pow2Values(); XorBound(a, b, 64); Xor(a, b) }

  lemma {:induction false} OrSelf(a: nat)
    ensures Or(a, a) == a
  {
    if a != 0 { OrSelf(a / 2); }
  }

  lemma {:induction false} XorSelf(a: nat)
    ensures Xor(a, a) == 0
  {
    if a != 0 { XorSelf(a / 2); }
  }

  lemma {:induction false} OrComm(a: nat, b: nat)
    ensures Or(a, b) == Or(b, a)
    decreases a
  {
    if a != 0 && b != 0 { OrComm(a / 2, b / 2); }
  }

  lemma {:induction false} AndComm(a: nat, b: nat)
    ensures And(a, b) == And(b, a)
    decreases a
  {
    if a != 0 && b != 0 { AndComm(a / 2, b / 2); }
  }

  /** OR-ing in a mask of `n` ones sets exactly the low `n` bits. */
  lemma {:induction false} OrOnes(a: nat, n: nat, q: nat, r: nat)
    requires r < Pow2(n) && a == q * Pow2(n) + r
    ensures Or(a, Pow2(n) - 1) == q * Pow2(n) + Pow2(n) - 1
  {
    if n != 0 && a != 0 {
      var p := Pow2(n - 1);
      assert q * Pow2(n) == 2 * (q * p);
      assert a / 2 == q * p + r / 2;
      OrOnes(a / 2, n - 1, q, r / 2);
      assert (2 * p - 1) / 2 == p - 1;
    }
  }

  lemma DoubleMod(h: nat, c: nat, p: nat)
    requires p >= 1 && c <= 1
    ensures (2 * h + c) % (2 * p) == 2 * (h % p) + c
  {
    var q, r := h / p, h % p;
    assert h == p * q + r;
    ModUnique(2 * h + c, 2 * p, q, 2 * r + c);
  }

  lemma HalfMod(x: nat, n: nat)
    requires n > 0
    ensures x % Pow2(n) % 2 == x % 2 && x % Pow2(n) / 2 == x / 2 % Pow2(n - 1)
  {
    var h, c, p := x / 2, x % 2, Pow2(n - 1);
    assert x == 2 * h + c && Pow2(n) == 2 * p;
    DoubleMod(h, c, p);
  }

  /** Quotient and remainder are determined by `x == d*q + r` and `0 <= r < d`. */
  lemma ModUnique(x: int, d: int, q: int, r: int)
    requires d > 0 && 0 <= r < d
    requires x == d * q + r
    ensures x / d == q && x % d == r
  {
    var q', r' := x / d, x % d;
    assert d * (q - q') == r' - r;
    if q > q' {
      MulAtLeast(d, q - q');
      assert false;
    }
    if q < q' {
      MulAtLeast(d, q' - q);
      assert false;
    }
  }

  /** A positive product with a positive factor has its other factor positive. */
  lemma PositiveFactor(a: int, d: int)
    requires d > 0
    ensures a <= 0 ==> a * d <= 0
  {
    if a <= 0 { assert (-a) * d >= 0; }
  }

  lemma MulAtLeast(d: int, k: int)
    requires d > 0 && k >= 1
    ensures d * k >= d
  {
    assert d * k == d * (k - 1) + d;
  }

  /** AND with a mask of `n` ones keeps the low `n` bits. */
  lemma {:induction false} AndOnes(a: nat, n: nat)
    ensures And(a, Pow2(n) - 1) == a % Pow2(n)
  {
    if n != 0 {
      AndOnes(a / 2, n - 1);
      assert (Pow2(n) - 1) / 2 == Pow2(n - 1) - 1;
      DoubleMod(a / 2, a % 2, Pow2(n - 1));
      assert a == 2 * (a / 2) + a % 2;
    }
  }

  /** OR of a value below a power of two with a multiple of that power is a sum. */
  lemma {:induction false} OrDisjoint(a: nat, n: nat, h: nat)
    requires a < Pow2(n)
    ensures Or(a, Pow2(n) * h) == a + Pow2(n) * h
  {
    if n != 0 && a != 0 && h != 0 {
      OrDisjoint(a / 2, n - 1, h);
      EvenProduct(Pow2(n - 1), h);
    }
  }

  lemma EvenProduct(p: nat, h: nat)
    ensures (2 * p) * h == 2 * (p * h) && ((2 * p) * h) / 2 == p * h && ((2 * p) * h) % 2 == 0
  {
    assert (2 * p) * h == 2 * (p * h);
  }
}
