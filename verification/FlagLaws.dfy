/** The flags of an ALU op on operands shifted to the top of a word are those of the
    op at its own width. */
module FlagLaws {
  import opened Words
  import opened Arith
  import opened Identities
  import opened Scalar
  import opened Conditions
  import opened BitLaws
  import opened Ir

  predicate SetsNzcv(k: BinOpKind) { k.Add? || k.Sub? || Bitwise(k) }

  /** A signed value of the size. */
  predicate FitsSize(x: int, s: OpSize) { 0 <= 2 * x + Range(s) && 2 * x < Range(s) }

  lemma FactorIsPower(s: OpSize)
    ensures Range(s) * AlignFactor(s) == TWO64
    ensures Pow2(BitWidth(s)) == Range(s) && Pow2(64 - BitWidth(s)) == AlignFactor(s)
  {
    Pow2Values();
  }

  // ------------------------------------------------------------------
  // Shifting operands or the result is the same.
  // ------------------------------------------------------------------

  lemma BitsDouble(k: BinOpKind, u: nat, v: nat)
    requires Bitwise(k)
    ensures Bits(k, 2 * u, 2 * v) == 2 * Bits(k, u, v)
  {
    BitsParts(k, 2 * u, 2 * v);
  }

  lemma ScaleDouble(x: nat, n: nat)
    requires n > 0
    ensures x * Pow2(n) == 2 * (x * Pow2(n - 1))
  {
  }

  lemma {:induction false} BitsScaled(k: BinOpKind, x: nat, y: nat, n: nat, u: nat, v: nat)
    requires Bitwise(k) && u == x * Pow2(n) && v == y * Pow2(n)
    ensures Bits(k, u, v) == Bits(k, x, y) * Pow2(n)
    decreases n
  {
    if n > 0 {
      ScaleDouble(x, n);
      ScaleDouble(y, n);
      ScaleDouble(Bits(k, x, y), n);
      var p := Pow2(n - 1);
      BitsDouble(k, x * p, y * p);
      BitsScaled(k, x, y, n - 1, x * p, y * p);
    }
  }

  lemma {:induction false} BitsCut(k: BinOpKind, x: nat, y: nat, n: nat)
    requires Bitwise(k)
    ensures Bits(k, x % Pow2(n), y % Pow2(n)) == Bits(k, x, y) % Pow2(n)
    decreases n
  {
    if n > 0 {
      HalfMod(x, n);
      HalfMod(y, n);
      HalfMod(Bits(k, x, y), n);
      BitsParts(k, x, y);
      BitsParts(k, x % Pow2(n), y % Pow2(n));
      BitsCut(k, x / 2, y / 2, n - 1);
    }
  }

  lemma BitwiseAligned(k: BinOpKind, a: U64, b: U64, s: OpSize)
    requires Bitwise(k)
    ensures EvalBinOp(k, Align(a, s), Align(b, s)) == Align(EvalBinOp(k, a, b), s)
  {
    AlignScales(a, s);
    AlignScales(b, s);
    AlignScales(EvalBinOp(k, a, b), s);
    FactorIsPower(s);
    BitsCut(k, a, b, BitWidth(s));
    BitsScaled(k, MaskToSize(a, s), MaskToSize(b, s), 64 - BitWidth(s), Align(a, s), Align(b, s));
  }

  lemma WrapShift(x: int, y: int, k: int)
    requires x - y == TWO64 * k
    ensures Wrap(x) == Wrap(y)
  {
    ModUnique(x, TWO64, y / TWO64 + k, y % TWO64);
  }

  /** Wrapping before scaling and adding changes nothing modulo 2^64. */
  lemma SumScaled(a: int, b: int, f: int)
    ensures Wrap(Wrap(a * f) + Wrap(b * f)) == Wrap(Wrap(a + b) * f)
  {
    var x, y, z := a * f / TWO64, b * f / TWO64, (a + b) / TWO64;
    assert Wrap(a + b) * f == (a + b) * f - TWO64 * (z * f) by {
      assert (a + b - TWO64 * z) * f == (a + b) * f - (TWO64 * z) * f;
      assert (TWO64 * z) * f == TWO64 * (z * f);
    }
    assert (a + b) * f == a * f + b * f;
    WrapShift(Wrap(a * f) + Wrap(b * f), Wrap(a + b) * f, z * f - x - y);
  }

  lemma AddAligned(a: U64, b: U64, s: OpSize)
    ensures Wrap(Align(a, s) + Align(b, s)) == Align(Wrap(a + b), s)
  {
    SumScaled(a, b, AlignFactor(s));
  }

  lemma SubAligned(a: U64, b: U64, s: OpSize)
    ensures Wrap(Align(a, s) - Align(b, s)) == Align(Wrap(a - b), s)
  {
    var f := AlignFactor(s);
    var c: int, d: int := 0 - b, b * f;
    SumScaled(a, c, f);
    assert c * f == 0 - d;
    WrapShift(Wrap(a * f) + Wrap(0 - d), Wrap(a * f) - Wrap(d), 0 - d / TWO64 - (0 - d) / TWO64);
  }

  lemma ResultAligned(k: BinOpKind, a: U64, b: U64, s: OpSize)
    requires SetsNzcv(k)
    ensures EvalBinOp(k, Align(a, s), Align(b, s)) == Align(EvalBinOp(k, a, b), s)
  {
    if k.Add? { AddAligned(a, b, s); } else if k.Sub? { SubAligned(a, b, s); } else { BitwiseAligned(k, a, b, s); }
  }

  // ------------------------------------------------------------------
  // Reading flags at the width.
  // ------------------------------------------------------------------

  /** Sign and zero of a shifted result. */
  lemma TopAndZero(r: U64, s: OpSize)
    ensures Align(r, s) == 0 <==> MaskToSize(r, s) == 0
    ensures Align(r, s) >= TWO63 <==> 2 * MaskToSize(r, s) >= Range(s)
  {
    AlignScales(r, s);
    FactorIsPower(s);
    Scaled(MaskToSize(r, s), 0, AlignFactor(s));
    Scaled(2 * MaskToSize(r, s), Range(s), AlignFactor(s));
  }

  lemma ScaledFits(x: int, s: OpSize)
    ensures FitsSigned(x * AlignFactor(s)) <==> FitsSize(x, s)
  {
    FactorIsPower(s);
    Scaled(2 * x, Range(s), AlignFactor(s));
    Scaled(2 * x, 0 - Range(s), AlignFactor(s));
  }

  lemma CarryAtWidth(a: U64, b: U64, s: OpSize)
    ensures Align(a, s) >= Align(b, s) <==> MaskToSize(a, s) >= MaskToSize(b, s)
    ensures Align(a, s) + Align(b, s) >= TWO64 <==> MaskToSize(a, s) + MaskToSize(b, s) >= Range(s)
  {
    AlignScales(a, s);
    AlignScales(b, s);
    FactorIsPower(s);
    var f: int, ua: int, ub: int := AlignFactor(s), MaskToSize(a, s), MaskToSize(b, s);
    Scaled(ua, ub, f);
    assert (ua + ub) * f == ua * f + ub * f;
    Scaled(ua + ub, Range(s), f);
  }

  lemma Distributes(a: int, b: int, f: int)
    ensures (a - b) * f == a * f - b * f && (a + b) * f == a * f + b * f
  {
  }

  lemma OverflowAtWidth(a: U64, b: U64, s: OpSize)
    ensures FitsSigned(ToSigned(Align(a, s)) - ToSigned(Align(b, s))) <==> FitsSize(SignedOf(a, s) - SignedOf(b, s), s)
    ensures FitsSigned(ToSigned(Align(a, s)) + ToSigned(Align(b, s))) <==> FitsSize(SignedOf(a, s) + SignedOf(b, s), s)
  {
    AlignScales(a, s);
    AlignScales(b, s);
    var f: int, sa, sb := AlignFactor(s), SignedOf(a, s), SignedOf(b, s);
    Distributes(sa, sb, f);
    ScaledFits(sa - sb, s);
    ScaledFits(sa + sb, s);
  }

  /** Z and N of the result cut to the size, C the carry or no-borrow out of it, V the
      signed overflow of it. */
  lemma FlagsAtWidth(k: BinOpKind, a: U64, b: U64, s: OpSize)
    requires SetsNzcv(k)
    ensures var f, r := AluFlagsValue(k, Align(a, s), Align(b, s)), MaskToSize(EvalBinOp(k, a, b), s);
            && (f.z <==> r == 0) && (f.n <==> 2 * r >= Range(s))
            && (f.c <==> (k.Sub? && MaskToSize(a, s) >= MaskToSize(b, s))
                         || (k.Add? && MaskToSize(a, s) + MaskToSize(b, s) >= Range(s)))
            && (f.v <==> (k.Sub? && !FitsSize(SignedOf(a, s) - SignedOf(b, s), s))
                         || (k.Add? && !FitsSize(SignedOf(a, s) + SignedOf(b, s), s)))
  {
    ResultAligned(k, a, b, s);
    TopAndZero(EvalBinOp(k, a, b), s);
    CarryAtWidth(a, b, s);
    OverflowAtWidth(a, b, s);
    if k.Sub? { WrapIsZero(Align(a, s), Align(b, s)); }
  }

  lemma WrapIsZero(x: U64, y: U64)
    ensures Wrap(x - y) == 0 <==> x == y
  {
    if x >= y { WrapSmall(x - y); } else { WrapNegative(x - y); }
  }

  /** After a comparison: the six codes that read one flag. */
  lemma DirectCodes(a: U64, b: U64, s: OpSize)
    ensures var f := SubFlags(Align(a, s), Align(b, s));
            && (CondHolds(Cc, f) <==> MaskToSize(a, s) < MaskToSize(b, s))
            && (CondHolds(Nc, f) <==> MaskToSize(a, s) >= MaskToSize(b, s))
            && (CondHolds(Ov, f) <==> !FitsSize(SignedOf(a, s) - SignedOf(b, s), s))
            && (CondHolds(NoOv, f) <==> FitsSize(SignedOf(a, s) - SignedOf(b, s), s))
            && (CondHolds(Mi, f) <==> 2 * MaskToSize(Wrap(a - b), s) >= Range(s))
            && (CondHolds(Pl, f) <==> 2 * MaskToSize(Wrap(a - b), s) < Range(s))
  {
    FlagsAtWidth(Sub, a, b, s);
  }

  /** The signed reading of a size: the value modulo its range, centred on zero. */
  lemma SignedReading(v: U64, s: OpSize)
    ensures FitsSize(SignedOf(v, s), s) && Wrap(SignedOf(v, s)) % Range(s) == MaskToSize(v, s)
  {
    match s
    case I8 => CutWrap(v, s, 0x100_0000_0000_0000);
    case I16 => CutWrap(v, s, 0x1_0000_0000_0000);
    case I32 => CutWrap(v, s, TWO32);
    case I64 => CutWrap(v, s, 1);
  }

  lemma CutWrap(v: U64, s: OpSize, f: int)
    requires Range(s) * f == TWO64
    ensures Wrap(SignedOf(v, s)) % Range(s) == MaskToSize(v, s)
  {
    var low := MaskToSize(v, s);
    if 2 * low < Range(s) {
      WrapSmall(low);
      ModUnique(low, Range(s), 0, low);
    } else {
      WrapNegative(low - Range(s));
      ModUnique(low - Range(s) + TWO64, Range(s), f - 1, low);
    }
  }

  // ------------------------------------------------------------------
  // Branches of the IR.
  // ------------------------------------------------------------------

  /** A block that ends in a comparison and a jump on its result goes to the first target
      exactly if the comparison of the two words holds. */
  lemma CompareThenJump(st: State, v: Ref, cc: CondCode, l: Ref, r: Ref, s: OpSize, t: BlockId, e: BlockId)
    requires st.ctl.Running? && Relational(cc)
    ensures Step(Stmt(None, CondJump(v, t, e)), Step(Stmt(Some(v), Compare(cc, l, r, s)), st)).ctl
         == Goto(if EvalCond(cc, st.Val(l), st.Val(r), I64) == Some(true) then t else e)
  {
    WordCondition(cc, st.Val(l), st.Val(r));
  }

  /** A conditional exit after a comparison is taken exactly if the comparison at its own
      width holds. */
  lemma CompareThenExit(st: State, cc: CondCode, l: Ref, r: Ref, s: OpSize, pc: U64, next: U64)
    requires st.ctl.Running? && Relational(cc)
    ensures Step(Stmt(None, CondJumpRel(cc, pc, next)), Step(Stmt(None, CmpFlags(l, r, s)), st)).ctl
         == Exit(if EvalCond(cc, st.Val(l), st.Val(r), s) == Some(true) then pc else next)
  {
    ConditionAtWidth(cc, st.Val(l), st.Val(r), s);
  }

  /** ... and so is a selection. */
  lemma CompareThenSelect(st: State, v: Ref, cc: CondCode, l: Ref, r: Ref, s: OpSize, t: Ref, e: Ref, z: OpSize)
    requires st.ctl.Running? && Relational(cc)
    ensures Step(Stmt(Some(v), Select(cc, t, e, z)), Step(Stmt(None, CmpFlags(l, r, s)), st)).Val(v)
         == MaskToSize(if EvalCond(cc, st.Val(l), st.Val(r), s) == Some(true) then st.Val(t) else st.Val(e), z)
  {
    ConditionAtWidth(cc, st.Val(l), st.Val(r), s);
  }
}
