/** The bytes of each scalar op as the writer's branches put them one after another,
    against the tagged form and its layout table. */
module IrBytes {
  import opened Words
  import opened Arith
  import opened Scalar
  import opened Ir
  import opened IrWire
  import W = Wire

  // ------------------------------------------------------------------
  // Enumerators in declaration order.
  // ------------------------------------------------------------------

  const SIZES: seq<OpSize> := [I8, I16, I32, I64]

  const KINDS: seq<BinOpKind> :=
    [Add, Sub, Mul, And_, Or_, Xor_, Shl, Shr, Sar, Rol, Ror, Rcl, Rcr, UMulHi, SMulHi, UDiv, SDiv, UMod, SMod,
     Pdep, Pext]

  const CONDS: seq<CondCode> := [Eq, Ne, Ult, Ule, Ugt, Uge, Slt, Sle, Sgt, Sge, Cc, Nc, Ov, NoOv, Mi, Pl]

  const FENCES: seq<FenceKind> := [Mfence, Lfence, Sfence]

  const CARRIES: seq<RflagsCarryMode> := [ArmCarry, InvertArmCarry, ClearCarry, PreserveCarry]

  /** Each code is the place of its enumerator. */
  lemma CodesAreOrder(s: OpSize, k: BinOpKind, cc: CondCode, f: FenceKind, c: RflagsCarryMode)
    ensures SIZES[SizeCode(s)] == s && KINDS[KindCode(k)] == k && CONDS[CondCodeOf(cc)] == cc
    ensures FENCES[FenceCode(f)] == f && CARRIES[CarryCode(c)] == c
  {
  }

  // ------------------------------------------------------------------
  // Bytes.
  // ------------------------------------------------------------------

  function U32Bytes(v: nat): seq<Byte> { [v % 0x100, v / 0x100 % 0x100, v / 0x1_0000 % 0x100, v / 0x100_0000 % 0x100] }

  function U64Bytes(v: nat): seq<Byte> { U32Bytes(v) + U32Bytes(v / TWO32) }

  function OptBytes(r: Option<Ref>): seq<Byte> { if r.Some? then [1] + U32Bytes(r.value) else [0] }

  lemma {:induction false} LeStep(v: nat, n: nat)
    requires n > 0
    ensures W.LeBytes(v, n) == [v % 256] + W.LeBytes(v / 256, n - 1)
  {
  }

  lemma LeIsU32(v: nat, n: nat)
    requires n == 4
    ensures W.LeBytes(v, n) == U32Bytes(v)
  {
    LeSplit(v, n - 4, n);
  }

  lemma LeSplit(v: nat, n: nat, k: nat)
    requires k == 4 + n
    ensures W.LeBytes(v, k) == U32Bytes(v) + W.LeBytes(v / TWO32, n)
  {
    var v1, v2, v3 := v / 0x100, v / 0x1_0000, v / 0x100_0000;
    assert v1 / 256 == v2 && v2 / 256 == v3 && v3 / 256 == v / TWO32;
    LeStep(v, k);
    LeStep(v1, k - 1);
    LeStep(v2, k - 2);
    LeStep(v3, k - 3);
  }

  lemma LeIsU64(v: nat)
    ensures W.LeBytes(v, 8) == U64Bytes(v)
  {
    var n := 4;
    LeSplit(v, n, 2 * n);
    LeIsU32(v / TWO32, n);
  }

  lemma OptIsBytes(r: Option<Ref>)
    ensures W.OptRefBytes(r) == OptBytes(r)
  {
    if r.Some? { LeIsU32(r.value, 4); }
  }

  // ------------------------------------------------------------------
  // The writer's branches.
  // ------------------------------------------------------------------

  /** One write: a byte, four, eight, or an optional ref. */
  datatype Piece = One(b: nat) | Four(w: nat) | Eight(d: nat) | Maybe(r: Option<Ref>)

  function PieceBytes(p: Piece): seq<Byte> {
    match p
    case One(b) => [b % 256]
    case Four(w) => U32Bytes(w)
    case Eight(d) => U64Bytes(d)
    case Maybe(r) => OptBytes(r)
  }

  /** What each branch writes: the tag, then field by field. */
  function Pieces(op: Op): seq<Piece> {
    match op
    case Constant(v, s) => [One(1), Eight(v), One(SizeCode(s))]
    case LoadReg(r, s) => [One(2), One(r), One(SizeCode(s))]
    case StoreReg(r, v, s) => [One(4), One(r), Four(v), One(SizeCode(s))]
    case BinOp(k, l, r, s) => [One(5), One(KindCode(k)), Four(l), Four(r), One(SizeCode(s))]
    case Extend(v, f, t, sg) => [One(6), Four(v), One(SizeCode(f)), One(SizeCode(t)), One(if sg then 1 else 0)]
    case Truncate(v, t) => [One(7), Four(v), One(SizeCode(t))]
    case Compare(cc, l, r, s) => [One(8), One(CondCodeOf(cc)), Four(l), Four(r), One(SizeCode(s))]
    case Select(cc, t, f, s) => [One(9), One(CondCodeOf(cc)), Four(t), Four(f), One(SizeCode(s))]
    case LoadMem(a, s) => [One(10), Four(a), One(SizeCode(s))]
    case StoreMem(a, v, s) => [One(11), Four(a), Four(v), One(SizeCode(s))]
    case LoadMemTSO(a, s) => [One(12), Four(a), One(SizeCode(s))]
    case StoreMemTSO(a, v, s) => [One(13), Four(a), Four(v), One(SizeCode(s))]
    case GuestPc(pc) => [One(14), Eight(pc)]
    case Jump(b) => [One(15), Four(b)]
    case CondJump(c, t, f) => [One(16), Four(c), Four(t), Four(f)]
    case Return => [One(17)]
    case JumpReg(t) => [One(18), Four(t)]
    case CmpFlags(l, r, s) => [One(19), Four(l), Four(r), One(SizeCode(s))]
    case JumpRel(pc) => [One(20), Eight(pc)]
    case Fence(f) => [One(27), One(FenceCode(f))]
    case CondJumpRel(cc, pc, ft) => [One(28), One(CondCodeOf(cc)), Eight(pc), Eight(ft)]
    case AluFlags(k, l, r, s) => [One(30), One(KindCode(k)), Four(l), Four(r), One(SizeCode(s))]
    case WriteFlagsCountZero(v, c, s) => [One(31), Four(v), Four(c), One(SizeCode(s))]
    case AtomicCmpxchgPair(a, el, eh, nl, nh, oh) =>
      [One(32), Four(a), Four(el), Four(eh), Four(nl), Four(nh), Four(oh)]
    case AtomicCmpxchg(a, e, n, s) => [One(33), Four(a), Four(e), Four(n), One(SizeCode(s))]
    case StoreRflagsFromNzcv(c, pf, af) => [One(38), One(CarryCode(c)), Maybe(pf), Maybe(af)]
    case WideDiv(h, l, d, sg, w) =>
      [One(40), Four(h), Four(l), Four(d), One(if sg then 1 else 0), One(if w.Quotient? then 0 else 1)]
    case _ => []
  }

  function Concat(ps: seq<Piece>): seq<Byte> { if ps == [] then [] else PieceBytes(ps[0]) + Concat(ps[1..]) }

  /** The write that a field of a kind calls for. */
  function WriteOf(k: W.Kind, v: W.Value): Piece {
    match v
    case Opt(r) => Maybe(r)
    case Num(n) => match k case Num32 => Four(n) case Num64 => Eight(n) case _ => One(n)
  }

  lemma WriteBytes(k: W.Kind, v: W.Value)
    ensures W.FieldBytes(k, v) == PieceBytes(WriteOf(k, v))
  {
    match v
    case Opt(r) => OptIsBytes(r);
    case Num(n) =>
      LeIsU32(n, 4);
      LeIsU64(n);
  }

  lemma {:induction false} PutIsConcat(ks: seq<W.Kind>, vs: seq<W.Value>, ps: seq<Piece>)
    requires |ks| == |vs| == |ps| && forall i :: 0 <= i < |ks| ==> ps[i] == WriteOf(ks[i], vs[i])
    ensures W.PutFields(W.FieldBytes, ks, vs) == Concat(ps)
    decreases |ks|
  {
    if ks != [] {
      WriteBytes(ks[0], vs[0]);
      PutIsConcat(ks[1..], vs[1..], ps[1..]);
    }
  }

  /** Piece `i + 1` writes field `i` of the tagged form as the layout says. */
  ghost predicate PieceOk(op: Op, i: nat) {
    var w := ToWire(op);
    && w.Tagged? && |Pieces(op)| == 1 + |w.fields| && |W.Layout(w.tag)| == |w.fields| && Pieces(op)[0] == One(w.tag)
    && (i < |w.fields| ==> Pieces(op)[i + 1] == WriteOf(W.Layout(w.tag)[i], w.fields[i]))
  }

  predicate IsBinary(op: Op) { op.BinOp? || op.Compare? || op.Select? || op.WideDiv? }

  predicate IsExchange(op: Op) { op.AtomicCmpxchg? || op.AtomicCmpxchgPair? || op.Fence? }

  lemma BinaryPieces(op: Op, i: nat)
    requires IsBinary(op)
    ensures PieceOk(op, i)
  {
  }

  lemma ValuePieces(op: Op, i: nat)
    requires IsValueOp(op) && !IsBinary(op)
    ensures PieceOk(op, i)
  {
  }

  lemma ExchangePieces(op: Op, i: nat)
    requires IsExchange(op)
    ensures PieceOk(op, i)
  {
  }

  lemma MemoryPieces(op: Op, i: nat)
    requires IsMemoryOp(op) && !IsExchange(op)
    ensures PieceOk(op, i)
  {
  }

  predicate IsExit(op: Op) {
    op.Jump? || op.CondJump? || op.Return? || op.JumpReg?
  }

  lemma ExitPieces(op: Op, i: nat)
    requires IsExit(op)
    ensures PieceOk(op, i)
  {
  }

  lemma OtherPieces(op: Op, i: nat)
    requires !IsValueOp(op) && !IsMemoryOp(op) && !IsExit(op) && !op.RepStos? && !op.RepMovs?
    ensures PieceOk(op, i)
  {
  }

  lemma EachPiece(op: Op, i: nat)
    requires !op.RepStos? && !op.RepMovs?
    ensures PieceOk(op, i)
  {
    if IsBinary(op) { BinaryPieces(op, i); }
    else if IsValueOp(op) { ValuePieces(op, i); }
    else if IsExchange(op) { ExchangePieces(op, i); }
    else if IsMemoryOp(op) { MemoryPieces(op, i); }
    else if IsExit(op) { ExitPieces(op, i); }
    else { OtherPieces(op, i); }
  }

  lemma TaggedBytes(w: W.Op, ks: seq<W.Kind>, rest: seq<Piece>)
    requires w.Tagged? && ks == W.Layout(w.tag) && |rest| == |ks| == |w.fields|
    requires forall i :: 0 <= i < |ks| ==> rest[i] == WriteOf(ks[i], w.fields[i])
    ensures W.OpBytes(w) == [w.tag] + Concat(rest)
  {
    PutIsConcat(ks, w.fields, rest);
  }

  lemma ConcatHead(ps: seq<Piece>, tag: Byte)
    requires ps != [] && ps[0] == One(tag)
    ensures Concat(ps) == [tag] + Concat(ps[1..])
  {
  }

  /** The tagged form's bytes are what the branch writes; the string loops write nothing. */
  lemma WrittenBytes(op: Op)
    ensures W.OpBytes(ToWire(op)) == Concat(Pieces(op))
  {
    if !op.RepStos? && !op.RepMovs? {
      var w, ps := ToWire(op), Pieces(op);
      EachPiece(op, 0);
      var ks, rest := W.Layout(w.tag), ps[1..];
      forall i | 0 <= i < |ks| ensures rest[i] == WriteOf(ks[i], w.fields[i]) { EachPiece(op, i); }
      TaggedBytes(w, ks, rest);
      ConcatHead(ps, w.tag);
    }
  }
}
