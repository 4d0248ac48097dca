/** Width-correct comparison: the ARM condition on operands shifted up to bit 63
    decides the comparison of the operands at their own width. */
module Conditions {
  import opened Words
  import opened Arith
  import opened Identities
  import opened Scalar

  predicate Relational(cc: CondCode) {
    cc.Eq? || cc.Ne? || cc.Ult? || cc.Ule? || cc.Ugt? || cc.Uge? || cc.Slt? || cc.Sle? || cc.Sgt? || cc.Sge?
  }

  /** `eval_cond`: undecided on the codes that read one flag directly. */
  function EvalCond(cc: CondCode, a: U64, b: U64, s: OpSize): (r: Option<bool>)
    ensures r.Some? <==> Relational(cc)
  {
    var ua, ub := MaskToSize(a, s), MaskToSize(b, s);
    var sa, sb := SignedOf(a, s), SignedOf(b, s);
    match cc
    case Eq => Some(ua == ub)
    case Ne => Some(ua != ub)
    case Ult => Some(ua < ub)
    case Ule => Some(ua <= ub)
    case Ugt => Some(ua > ub)
    case Uge => Some(ua >= ub)
    case Slt => Some(sa < sb)
    case Sle => Some(sa <= sb)
    case Sgt => Some(sa > sb)
    case Sge => Some(sa >= sb)
    case _ => None
  }

  /** On full words, sign against overflow decides the signed order. */
  lemma SignedOrder(x: U64, y: U64)
    ensures var f := SubFlags(x, y); f.n != f.v <==> ToSigned(x) < ToSigned(y)
  {
    var d := ToSigned(x) - ToSigned(y);
    WrapDifference(x, y);
    if d >= 0 { WrapSmall(d); } else { WrapNegative(d); }
  }

  lemma WrapDifference(x: U64, y: U64)
    ensures Wrap(x - y) == Wrap(ToSigned(x) - ToSigned(y))
  {
    var d := x - y;
    if d >= 0 { WrapSmall(d); } else { WrapNegative(d); }
    var e := ToSigned(x) - ToSigned(y);
    if e >= 0 { WrapSmall(e); } else { WrapNegative(e); }
  }

  /** Shifting up drops the bits above the size and scales the rest. */
  lemma AlignScales(v: U64, s: OpSize)
    ensures Align(v, s) == MaskToSize(v, s) * AlignFactor(s)
    ensures ToSigned(Align(v, s)) == SignedOf(v, s) * AlignFactor(s)
  {
    match s
    case I64 => WrapSmall(v);
    case I32 => ScaleUp(v, TWO32, TWO32);
    case I16 => ScaleUp(v, 0x1_0000, 0x1_0000_0000_0000);
    case I8 => ScaleUp(v, 0x100, 0x100_0000_0000_0000);
  }

  lemma ScaleUp(v: nat, r: nat, f: nat)
    requires r > 0 && f > 0 && r * f == TWO64
    ensures v % r * f < TWO64 && Wrap(v * f) == v % r * f
  {
    var q, x := v / r, v % r;
    assert v * f == TWO64 * q + x * f by { assert (r * q) * f == (r * f) * q; }
    assert x * f < r * f by { assert (r - x) * f >= f; }
    ModUnique(v * f, TWO64, q, x * f);
  }

  /** Each relational code reads off the comparison of the two words. */
  lemma WordCondition(cc: CondCode, x: U64, y: U64)
    requires Relational(cc)
    ensures CondHolds(cc, SubFlags(x, y)) == EvalCond(cc, x, y, I64).value
  {
    SignedOrder(x, y);
    assert MaskToSize(x, I64) == x && MaskToSize(y, I64) == y;
    assert SignedOf(x, I64) == ToSigned(x) && SignedOf(y, I64) == ToSigned(y);
    if ToSigned(x) == ToSigned(y) { assert x == y; }
  }

  /** Scaling by a positive factor keeps every order and equality. */
  lemma Scaled(a: int, b: int, f: int)
    requires f > 0
    ensures (a < b <==> a * f < b * f) && (a == b <==> a * f == b * f)
  {
    if a < b { ScaledLess(a, b, f); }
    if b < a { ScaledLess(b, a, f); }
  }

  lemma ScaledLess(a: int, b: int, f: int)
    requires f > 0 && a < b
    ensures a * f < b * f
  {
    var k := b - a;
    MulAtLeastOther(f, k);
    assert b * f == a * f + f * k;
  }

  lemma ConditionAtWidth(cc: CondCode, a: U64, b: U64, s: OpSize)
    requires Relational(cc)
    ensures CondHolds(cc, SubFlags(Align(a, s), Align(b, s))) == EvalCond(cc, a, b, s).value
  {
    WordCondition(cc, Align(a, s), Align(b, s));
    AlignScales(a, s);
    AlignScales(b, s);
    AlignedOrder(cc, a, b, s, AlignFactor(s));
  }

  lemma AlignedOrder(cc: CondCode, a: U64, b: U64, s: OpSize, f: nat)
    requires Relational(cc) && f > 0
    requires Align(a, s) == MaskToSize(a, s) * f && ToSigned(Align(a, s)) == SignedOf(a, s) * f
    requires Align(b, s) == MaskToSize(b, s) * f && ToSigned(Align(b, s)) == SignedOf(b, s) * f
    ensures EvalCond(cc, Align(a, s), Align(b, s), I64) == EvalCond(cc, a, b, s)
  {
    Scaled(MaskToSize(a, s), MaskToSize(b, s), f);
    Scaled(SignedOf(a, s), SignedOf(b, s), f);
    WordReadings(Align(a, s));
    WordReadings(Align(b, s));
  }

  lemma WordReadings(x: U64)
    ensures MaskToSize(x, I64) == x && SignedOf(x, I64) == ToSigned(x)
  {
  }
}
