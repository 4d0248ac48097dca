/** The scalar ops of the IR on the wire. */
module IrWire {
  import opened Words
  import opened Arith
  import opened Scalar
  import opened Ir
  import Wire
  import Codec

  function SizeCode(s: OpSize): nat { match s case I8 => 0 case I16 => 1 case I32 => 2 case I64 => 3 }

  function KindCode(k: BinOpKind): (n: nat)
    ensures n <= 20
  {
    match k
    case Add => 0 case Sub => 1 case Mul => 2 case And_ => 3 case Or_ => 4 case Xor_ => 5
    case Shl => 6 case Shr => 7 case Sar => 8 case Rol => 9 case Ror => 10 case Rcl => 11 case Rcr => 12
    case UMulHi => 13 case SMulHi => 14 case UDiv => 15 case SDiv => 16 case UMod => 17 case SMod => 18
    case Pdep => 19 case Pext => 20
  }

  function CondCodeOf(cc: CondCode): (n: nat)
    ensures n <= 15
  {
    match cc
    case Eq => 0 case Ne => 1 case Ult => 2 case Ule => 3 case Ugt => 4 case Uge => 5
    case Slt => 6 case Sle => 7 case Sgt => 8 case Sge => 9
    case Cc => 10 case Nc => 11 case Ov => 12 case NoOv => 13 case Mi => 14 case Pl => 15
  }

  function FenceCode(f: FenceKind): nat { match f case Mfence => 0 case Lfence => 1 case Sfence => 2 }

  function CarryCode(c: RflagsCarryMode): nat {
    match c case ArmCarry => 0 case InvertArmCarry => 1 case ClearCarry => 2 case PreserveCarry => 3
  }

  function WantCode(w: WideDivResult): nat { match w case Quotient => 0 case Remainder => 1 }

  function BoolCode(b: bool): nat { if b then 1 else 0 }

  function N(n: U64): Wire.Value { Wire.Num(n) }

  function ToWire(op: Op): Wire.Op {
    match op
    case Constant(v, s) => Wire.Tagged(1, [N(v), N(SizeCode(s))])
    case LoadReg(r, s) => Wire.Tagged(2, [N(r), N(SizeCode(s))])
    case StoreReg(r, v, s) => Wire.Tagged(4, [N(r), N(v), N(SizeCode(s))])
    case BinOp(k, l, r, s) => Wire.Tagged(5, [N(KindCode(k)), N(l), N(r), N(SizeCode(s))])
    case Extend(v, f, t, sg) => Wire.Tagged(6, [N(v), N(SizeCode(f)), N(SizeCode(t)), N(BoolCode(sg))])
    case Truncate(v, t) => Wire.Tagged(7, [N(v), N(SizeCode(t))])
    case Compare(cc, l, r, s) => Wire.Tagged(8, [N(CondCodeOf(cc)), N(l), N(r), N(SizeCode(s))])
    case Select(cc, t, f, s) => Wire.Tagged(9, [N(CondCodeOf(cc)), N(t), N(f), N(SizeCode(s))])
    case LoadMem(a, s) => Wire.Tagged(10, [N(a), N(SizeCode(s))])
    case StoreMem(a, v, s) => Wire.Tagged(11, [N(a), N(v), N(SizeCode(s))])
    case LoadMemTSO(a, s) => Wire.Tagged(12, [N(a), N(SizeCode(s))])
    case StoreMemTSO(a, v, s) => Wire.Tagged(13, [N(a), N(v), N(SizeCode(s))])
    case GuestPc(pc) => Wire.Tagged(14, [N(pc)])
    case Jump(b) => Wire.Tagged(15, [N(b)])
    case CondJump(c, t, f) => Wire.Tagged(16, [N(c), N(t), N(f)])
    case Return => Wire.Tagged(17, [])
    case JumpReg(t) => Wire.Tagged(18, [N(t)])
    case CmpFlags(l, r, s) => Wire.Tagged(19, [N(l), N(r), N(SizeCode(s))])
    case JumpRel(pc) => Wire.Tagged(20, [N(pc)])
    case Fence(f) => Wire.Tagged(27, [N(FenceCode(f))])
    case CondJumpRel(cc, pc, ft) => Wire.Tagged(28, [N(CondCodeOf(cc)), N(pc), N(ft)])
    case AluFlags(k, l, r, s) => Wire.Tagged(30, [N(KindCode(k)), N(l), N(r), N(SizeCode(s))])
    case WriteFlagsCountZero(v, c, s) => Wire.Tagged(31, [N(v), N(c), N(SizeCode(s))])
    case AtomicCmpxchgPair(a, el, eh, nl, nh, oh) => Wire.Tagged(32, [N(a), N(el), N(eh), N(nl), N(nh), N(oh)])
    case AtomicCmpxchg(a, e, n, s) => Wire.Tagged(33, [N(a), N(e), N(n), N(SizeCode(s))])
    case StoreRflagsFromNzcv(c, pf, af) => Wire.Tagged(38, [N(CarryCode(c)), Wire.Opt(pf), Wire.Opt(af)])
    case WideDiv(h, l, d, sg, w) => Wire.Tagged(40, [N(h), N(l), N(d), N(BoolCode(sg)), N(WantCode(w))])
    case RepStos(_, _, _, _) => Wire.Untagged
    case RepMovs(_, _, _, _) => Wire.Untagged
  }

  /** Neither a string loop, which has no tag, nor one of the operator kinds that
      were added after the decoder's range check was written. */
  predicate Survives(op: Op) {
    && !op.RepStos? && !op.RepMovs?
    && (op.BinOp? || op.AluFlags? ==> KindCode(op.kind) <= 12)
  }

  /** The reader takes back exactly these ops. */
  lemma ReadableExact(op: Op)
    ensures Wire.ReadableOp(ToWire(op)) <==> Survives(op)
  {
    if Survives(op) { SurvivesReadable(op); } else { LostUnreadable(op); }
  }

  lemma LostUnreadable(op: Op)
    requires !Survives(op)
    ensures !Wire.ReadableOp(ToWire(op))
  {
    var w := ToWire(op);
    if w.Tagged? { assert !Wire.Readable(Wire.Layout(w.tag)[0], w.fields[0]); }
  }

  lemma SurvivesTagged(op: Op)
    requires Survives(op)
    ensures var w := ToWire(op);
            w.Tagged? && Wire.FIRST_TAG <= w.tag <= Wire.LAST_TAG && |Wire.Layout(w.tag)| == |w.fields|
  {
  }

  lemma SurvivesReadable(op: Op)
    requires Survives(op)
    ensures Wire.ReadableOp(ToWire(op))
  {
    var w := ToWire(op);
    SurvivesTagged(op);
    var ks, vs := Wire.Layout(w.tag), w.fields;
    forall i | 0 <= i < |ks| ensures Wire.Readable(ks[i], vs[i]) { FieldReadable(op, i); }
  }

  /** Ops without flags, memory or control flow. */
  predicate IsValueOp(op: Op) {
    || op.Constant? || op.LoadReg? || op.StoreReg? || op.BinOp? || op.Extend? || op.Truncate?
    || op.Compare? || op.Select? || op.WideDiv?
  }

  predicate IsMemoryOp(op: Op) {
    || op.LoadMem? || op.StoreMem? || op.LoadMemTSO? || op.StoreMemTSO?
    || op.AtomicCmpxchg? || op.AtomicCmpxchgPair? || op.Fence?
  }

  lemma FieldReadable(op: Op, i: nat)
    requires Survives(op) && i < |ToWire(op).fields|
    ensures i < |Wire.Layout(ToWire(op).tag)| && Wire.Readable(Wire.Layout(ToWire(op).tag)[i], ToWire(op).fields[i])
  {
    if IsValueOp(op) {
      ValueFieldReadable(op, i);
    } else if IsMemoryOp(op) {
      MemoryFieldReadable(op, i);
    } else {
      OtherFieldReadable(op, i);
    }
  }

  lemma ValueFieldReadable(op: Op, i: nat)
    requires IsValueOp(op) && Survives(op) && i < |ToWire(op).fields|
    ensures i < |Wire.Layout(ToWire(op).tag)| && Wire.Readable(Wire.Layout(ToWire(op).tag)[i], ToWire(op).fields[i])
  {
  }

  lemma MemoryFieldReadable(op: Op, i: nat)
    requires IsMemoryOp(op) && i < |ToWire(op).fields|
    ensures i < |Wire.Layout(ToWire(op).tag)| && Wire.Readable(Wire.Layout(ToWire(op).tag)[i], ToWire(op).fields[i])
  {
  }

  lemma OtherFieldReadable(op: Op, i: nat)
    requires !IsValueOp(op) && !IsMemoryOp(op) && Survives(op) && i < |ToWire(op).fields|
    ensures i < |Wire.Layout(ToWire(op).tag)| && Wire.Readable(Wire.Layout(ToWire(op).tag)[i], ToWire(op).fields[i])
  {
  }

  /** No two such ops share an encoding. */
  lemma ToWireInjective(a: Op, b: Op)
    requires Survives(a) && Survives(b) && ToWire(a) == ToWire(b)
    ensures a == b
  {
    SameGroup(a, b);
    if IsValueOp(a) {
      ValueInjective(a, b);
    } else if IsMemoryOp(a) {
      MemoryInjective(a, b);
    } else {
      OtherInjective(a, b);
    }
  }

  lemma GroupByTag(op: Op)
    requires Survives(op)
    ensures var t := ToWire(op).tag;
            && (IsValueOp(op) <==> t in {1, 2, 4, 5, 6, 7, 8, 9, 40})
            && (IsMemoryOp(op) <==> t in {10, 11, 12, 13, 27, 32, 33})
  {
  }

  lemma SameGroup(a: Op, b: Op)
    requires Survives(a) && Survives(b) && ToWire(a).tag == ToWire(b).tag
    ensures IsValueOp(a) == IsValueOp(b) && IsMemoryOp(a) == IsMemoryOp(b)
  {
    GroupByTag(a);
    GroupByTag(b);
  }

  ghost predicate SameFields(a: Op, b: Op) {
    ToWire(a).Tagged? && ToWire(b).Tagged? && ToWire(a).tag == ToWire(b).tag
    && |ToWire(a).fields| == |ToWire(b).fields|
    && forall i :: 0 <= i < |ToWire(a).fields| ==> ToWire(a).fields[i] == ToWire(b).fields[i]
  }

  lemma ValueInjective(a: Op, b: Op)
    requires IsValueOp(a) && IsValueOp(b) && SameFields(a, b)
    ensures a == b
  {
    var x, y := ToWire(a).fields, ToWire(b).fields;
    if |x| > 0 { assert x[0] == y[0]; }
    if |x| > 1 { assert x[1] == y[1]; }
    if |x| > 2 { assert x[2] == y[2]; }
    if |x| > 3 { assert x[3] == y[3]; }
    if |x| > 4 { assert x[4] == y[4]; }
  }

  lemma MemoryInjective(a: Op, b: Op)
    requires IsMemoryOp(a) && IsMemoryOp(b) && SameFields(a, b)
    ensures a == b
  {
    var x, y := ToWire(a).fields, ToWire(b).fields;
    assert x[0] == y[0];
    if |x| > 1 { assert x[1] == y[1]; }
    if |x| > 2 { assert x[2] == y[2]; }
    if |x| > 3 { assert x[3] == y[3]; }
    if |x| > 4 { assert x[4] == y[4] && x[5] == y[5]; }
  }

  lemma OtherInjective(a: Op, b: Op)
    requires !IsValueOp(a) && !IsMemoryOp(a) && !IsValueOp(b) && !IsMemoryOp(b) && SameFields(a, b)
    ensures a == b
  {
    var x, y := ToWire(a).fields, ToWire(b).fields;
    if |x| > 0 { assert x[0] == y[0]; }
    if |x| > 1 { assert x[1] == y[1]; }
    if |x| > 2 { assert x[2] == y[2]; }
    if |x| > 3 { assert x[3] == y[3]; }
  }

  // ------------------------------------------------------------------
  // Statement lists.
  // ------------------------------------------------------------------

  function ToWireStmt(s: Stmt): Wire.Stmt { Wire.Stmt(s.result, ToWire(s.op)) }

  function ToWireList(stmts: seq<Stmt>): seq<Wire.Stmt> {
    seq(|stmts|, i requires 0 <= i < |stmts| => ToWireStmt(stmts[i]))
  }

  predicate SurvivesList(stmts: seq<Stmt>) {
    |stmts| <= 1_000_000 && forall i :: 0 <= i < |stmts| ==> Survives(stmts[i].op)
  }

  lemma ListReadable(stmts: seq<Stmt>)
    ensures Codec.ReadableList(ToWireList(stmts)) <==> SurvivesList(stmts)
  {
    var ws := ToWireList(stmts);
    forall i | 0 <= i < |stmts| ensures Wire.ReadableOp(ws[i].op) <==> Survives(stmts[i].op) {
      ReadableExact(stmts[i].op);
    }
  }

  lemma ListInjective(a: seq<Stmt>, b: seq<Stmt>)
    requires SurvivesList(a) && SurvivesList(b) && ToWireList(a) == ToWireList(b)
    ensures a == b
  {
    assert |ToWireList(a)| == |a| && |ToWireList(b)| == |b|;
    forall i | 0 <= i < |a| ensures a[i] == b[i] {
      assert ToWireList(a)[i] == ToWireList(b)[i];
      ToWireInjective(a[i].op, b[i].op);
    }
  }

  /** The bytes read back as this list of statements and as no other. */
  ghost predicate ReadsBackAs(bs: seq<Byte>, stmts: seq<Stmt>) {
    && Wire.DeserializeStmts(bs) == Wire.Ok(ToWireList(stmts), [])
    && forall other ::
         SurvivesList(other) && Wire.DeserializeStmts(bs) == Wire.Ok(ToWireList(other), []) ==> other == stmts
  }

  /** A list of statements survives the trip through bytes exactly if none of its ops is a string
      loop or one of the later operator kinds and it is no longer than the limit. */
  lemma IrRoundTrip(stmts: seq<Stmt>)
    ensures ReadsBackAs(Wire.SerializeStmts(ToWireList(stmts)), stmts) <==> SurvivesList(stmts)
  {
    var ws := ToWireList(stmts);
    Codec.StmtsRoundTrip(ws);
    ListReadable(stmts);
    forall other | SurvivesList(stmts) && SurvivesList(other) && ToWireList(other) == ws ensures other == stmts {
      ListInjective(other, stmts);
    }
  }
}
