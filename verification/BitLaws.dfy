/** The bit operations, bit by bit, and the flags of a narrow ALU op. */
module BitLaws {
  import opened Words
  import opened Arith

  predicate Bitwise(k: BinOpKind) { k.And_? || k.Or_? || k.Xor_? }

  /** What a bitwise kind does to two bits. */
  predicate BitOp(k: BinOpKind, a: bool, b: bool)
    requires Bitwise(k)
  {
    match k case And_ => a && b case Or_ => a || b case Xor_ => a != b
  }

  /** ... and to two numbers. */
  function Bits(k: BinOpKind, x: nat, y: nat): nat
    requires Bitwise(k)
  {
    match k case And_ => And(x, y) case Or_ => Or(x, y) case Xor_ => Xor(x, y)
  }

  lemma BitsParts(k: BinOpKind, x: nat, y: nat)
    requires Bitwise(k)
    ensures Bits(k, x, y) / 2 == Bits(k, x / 2, y / 2)
    ensures Bits(k, x, y) % 2 == (if BitOp(k, x % 2 == 1, y % 2 == 1) then 1 else 0)
  {
  }

  lemma {:induction false} BitsAt(k: BinOpKind, x: nat, y: nat, i: nat)
    requires Bitwise(k)
    ensures BitAt(Bits(k, x, y), i) <==> BitOp(k, BitAt(x, i), BitAt(y, i))
    decreases i
  {
    BitsParts(k, x, y);
    if i > 0 { BitsAt(k, x / 2, y / 2, i - 1); }
  }

  // ------------------------------------------------------------------
  // Bits of products, quotients and remainders by powers of two.
  // ------------------------------------------------------------------

  lemma {:induction false} BitOfQuotient(v: nat, n: nat, q: nat, i: nat)
    requires q == v / Pow2(n)
    ensures BitAt(q, i) <==> BitAt(v, n + i)
    decreases n
  {
    if n > 0 {
      HalfFirst(v, Pow2(n - 1));
      BitOfQuotient(v / 2, n - 1, q, i);
    }
  }

  lemma HalfFirst(v: nat, p: nat)
    requires p >= 1
    ensures v / (2 * p) == v / 2 / p
  {
    var h, c := v / 2, v % 2;
    var q, r := h / p, h % p;
    assert h == p * q + r;
    ModUnique(v, 2 * p, q, 2 * r + c);
  }

  lemma {:induction false} BitOfProduct(v: nat, n: nat, i: nat)
    ensures BitAt(v * Pow2(n), i) <==> i >= n && BitAt(v, i - n)
    decreases n
  {
    if n > 0 {
      var w := v * Pow2(n - 1);
      assert v * Pow2(n) == 2 * w;
      if i > 0 { BitOfProduct(v, n - 1, i - 1); }
    }
  }

  lemma {:induction false} BitOfRemainder(v: nat, n: nat, r: nat, i: nat)
    requires r == v % Pow2(n)
    ensures BitAt(r, i) <==> i < n && BitAt(v, i)
    decreases n
  {
    if n == 0 {
      BitOfZero(i);
    } else {
      HalfMod(v, n);
      if i > 0 { BitOfRemainder(v / 2, n - 1, r / 2, i - 1); }
    }
  }

  lemma {:induction false} BitOfZero(i: nat)
    ensures !BitAt(0, i)
  {
    if i > 0 { BitOfZero(i - 1); }
  }

  lemma BitBeyond(v: nat, n: nat, i: nat)
    requires v < Pow2(n) && i >= n
    ensures !BitAt(v, i)
  {
    ModUnique(v, Pow2(n), 0, v);
    BitOfRemainder(v, n, v, i);
  }

  // ------------------------------------------------------------------
  // Shifts and rotations. `w` is 64, the width of a word.
  // ------------------------------------------------------------------

  lemma ShlBits(a: U64, n: nat, w: nat, i: nat)
    requires Pow2(w) == TWO64 && i < w
    ensures BitAt(Wrap(a * Pow2(n)), i) <==> i >= n && BitAt(a, i - n)
  {
    BitOfRemainder(a * Pow2(n), w, Wrap(a * Pow2(n)), i);
    BitOfProduct(a, n, i);
  }

  lemma ShrBits(a: U64, n: nat, i: nat)
    ensures BitAt(ShiftRight(a, n), i) <==> BitAt(a, n + i)
  {
    BitOfQuotient(a, n, ShiftRight(a, n), i);
  }

  lemma RorBits(a: U64, n: nat, w: nat, i: nat)
    requires Pow2(w) == TWO64 && i < w && n < w && w == 64
    ensures BitAt(RotateRight(a, n), i) <==> BitAt(a, if n + i < w then n + i else n + i - w)
  {
    if n > 0 {
      ShrBits(a, n, i);
      ShlBits(a, w - n, w, i);
      BitsAt(Or_, ShiftRight(a, n), Wrap(a * Pow2(w - n)), i);
      if n + i >= w { BitBeyond(a, w, n + i); }
    }
  }

  lemma RolBits(a: U64, n: nat, w: nat, i: nat)
    requires Pow2(w) == TWO64 && i < w && n < w && w == 64
    ensures BitAt(RotateLeft(a, n), i) <==> BitAt(a, if i >= n then i - n else i + w - n)
  {
    if n > 0 {
      ShlBits(a, n, w, i);
      ShrBits(a, w - n, i);
      BitsAt(Or_, Wrap(a * Pow2(n)), ShiftRight(a, w - n), i);
      if i >= n { BitBeyond(a, w, w - n + i); }
    }
  }

  lemma {:induction false} BitOfOnes(n: nat, i: nat)
    ensures BitAt(Pow2(n) - 1, i) <==> i < n
    decreases n
  {
    if n == 0 {
      BitOfZero(i);
    } else {
      assert (Pow2(n) - 1) / 2 == Pow2(n - 1) - 1;
      if i > 0 { BitOfOnes(n - 1, i - 1); }
    }
  }

  lemma SignBit(a: U64, w: nat)
    requires Pow2(w) == TWO64 && w > 0
    ensures BitAt(a, w - 1) <==> a >= TWO63
  {
    var p := Pow2(w - 1);
    if a >= TWO63 { ModUnique(a, p, 1, a - p); } else { ModUnique(a, p, 0, a); }
    BitOfQuotient(a, w - 1, if a >= TWO63 then 1 else 0, 0);
  }

  lemma MulMonotone(p: nat, a: nat, b: nat)
    requires a <= b
    ensures p * a <= p * b
  {
    assert p * (b - a) >= 0;
  }

  lemma QuotientBelow(a: nat, p: nat, h: nat, t: nat)
    requires p >= 1 && p * h == t && a < t
    ensures 0 <= a / p < h && (a - t) / p == a / p - h && h * (p - 1) == t - h
  {
    var q, r := a / p, a % p;
    assert a == p * q + r;
    if q >= h {
      MulMonotone(p, h, q);
      assert false;
    }
    assert p * (q - h) == p * q - t;
    ModUnique(a - t, p, q - h, r);
    assert h * (p - 1) == h * p - h;
  }

  /** An arithmetic shift of a negative word: the quotient with `n` ones above it. */
  lemma SarNegative(a: U64, n: nat, w: nat, p: nat, h: nat) returns (q: nat, fill: nat)
    requires Pow2(w) == TWO64 && n < w && a >= TWO63 && p == Pow2(n) && h == Pow2(w - n)
    ensures Wrap(ToSigned(a) / p) == Or(q, fill) && q == a / p && fill == (p - 1) * h
  {
    Pow2Add(n, w - n);
    QuotientBelow(a, p, h, TWO64);
    OrDisjoint(a / p, w - n, p - 1);
    ModUnique(a / p - h, TWO64, -1, a / p - h + TWO64);
    q, fill := a / p, (p - 1) * h;
    assert fill == h * (p - 1);
  }

  lemma FillBits(n: nat, w: nat, i: nat, fill: nat)
    requires n < w && i < w && fill == (Pow2(n) - 1) * Pow2(w - n)
    ensures BitAt(fill, i) <==> n + i >= w
  {
    BitOfProduct(Pow2(n) - 1, w - n, i);
    if i >= w - n { BitOfOnes(n, i - (w - n)); }
  }

  lemma SarPositive(a: U64, n: nat, w: nat, i: nat)
    requires Pow2(w) == TWO64 && n < w && i < w && a < TWO63
    ensures BitAt(Wrap(ToSigned(a) / Pow2(n)), i) <==> n + i < w && BitAt(a, n + i)
  {
    QuotientBound(a, Pow2(n));
    BitOfQuotient(a, n, a / Pow2(n), i);
    WrapSmall(a / Pow2(n));
    if n + i >= w { BitBeyond(a, w, n + i); }
  }

  lemma SarFilled(a: U64, n: nat, w: nat, i: nat, p: nat, h: nat)
    requires Pow2(w) == TWO64 && n < w && i < w && a >= TWO63 && p == Pow2(n) && h == Pow2(w - n)
    ensures BitAt(Wrap(ToSigned(a) / p), i) <==> n + i >= w || BitAt(a, n + i)
  {
    var q, fill := SarNegative(a, n, w, p, h);
    BitOfQuotient(a, n, q, i);
    FillBits(n, w, i, fill);
    BitsAt(Or_, q, fill, i);
  }

  lemma SarBits(a: U64, n: nat, w: nat, i: nat)
    requires Pow2(w) == TWO64 && n < w && i < w
    ensures BitAt(Wrap(ToSigned(a) / Pow2(n)), i) <==> BitAt(a, if n + i < w then n + i else w - 1)
  {
    SignBit(a, w);
    if a >= TWO63 { SarFilled(a, n, w, i, Pow2(n), Pow2(w - n)); } else { SarPositive(a, n, w, i); }
  }

  /** Where bit `i` of the result of a shift or rotation by `n` comes from, if anywhere. */
  function From(k: BinOpKind, n: nat, w: nat, i: nat): Option<nat>
    requires n < w && i < w
  {
    match k
    case Shl => if i >= n then Some(i - n) else None
    case Shr => if n + i < w then Some(n + i) else None
    case Sar => Some(if n + i < w then n + i else w - 1)
    case Rol => Some(if i >= n then i - n else i + w - n)
    case Rcl => Some(if i >= n then i - n else i + w - n)
    case _ => Some(if n + i < w then n + i else n + i - w)
  }

  predicate Shifts(k: BinOpKind) { k.Shl? || k.Shr? || k.Sar? || k.Rol? || k.Ror? || k.Rcl? || k.Rcr? }

  /** Every shift and rotation moves bits as its name says, by the count modulo 64. */
  lemma ShiftMoves(k: BinOpKind, a: U64, b: U64, w: nat, i: nat)
    requires Shifts(k) && w == 64 && i < w
    ensures BitAt(EvalBinOp(k, a, b), i) <==> var f := From(k, b % w, w, i); f.Some? && BitAt(a, f.value)
  {
    Pow2Values();
    var n := b % w;
    if k.Shl? { ShlBits(a, n, w, i); }
    else if k.Shr? { ShrBits(a, n, i); if n + i >= w { BitBeyond(a, w, n + i); } }
    else if k.Sar? { SarBits(a, n, w, i); }
    else if k.Rol? || k.Rcl? { RolBits(a, n, w, i); }
    else { RorBits(a, n, w, i); }
  }

  /** Bitwise kinds work on each bit alone. */
  lemma BitwiseEach(k: BinOpKind, a: U64, b: U64, i: nat)
    requires Bitwise(k)
    ensures BitAt(EvalBinOp(k, a, b), i) <==> BitOp(k, BitAt(a, i), BitAt(b, i))
  {
    BitsAt(k, a, b, i);
  }
}
