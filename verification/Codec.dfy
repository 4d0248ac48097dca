/** Writer and strict reader undo each other, in both directions. */
module Codec {
  import opened Words
  import opened Wire
  import opened ParseLaws

  // ------------------------------------------------------------------
  // Numbers.
  // ------------------------------------------------------------------

  lemma {:induction false} LeReturn(v: nat, n: nat, rest: seq<Byte>)
    requires v < Pow2(8 * n)
    ensures GetLe(LeBytes(v, n) + rest, n) == Ok(v, rest)
    decreases n
  {
    if n == 0 {
      assert LeBytes(v, 0) + rest == rest;
    } else {
      QuotientFits(v, n);
      LeReturn(v / 256, n - 1, rest);
      assert (LeBytes(v, n) + rest)[1..] == LeBytes(v / 256, n - 1) + rest;
    }
  }

  lemma QuotientFits(v: nat, n: nat)
    requires n > 0 && v < Pow2(8 * n)
    ensures v / 256 < Pow2(8 * (n - 1))
  {
    Pow2Add(8, 8 * (n - 1));
    Pow2Values();
  }

  lemma LeFirst(b: Byte, v: nat, n: nat)
    requires n > 0
    ensures LeBytes(b + 256 * v, n) == [b] + LeBytes(v, n - 1)
  {
  }

  lemma {:induction false} LeReprint(bs: seq<Byte>, n: nat)
    requires GetLe(bs, n).Ok?
    ensures LeBytes(GetLe(bs, n).value, n) + GetLe(bs, n).rest == bs
    decreases n
  {
    if n > 0 {
      var p := GetLe(bs[1..], n - 1);
      LeReprint(bs[1..], n - 1);
      LeFirst(bs[0], p.value, n);
      Assoc([bs[0]], LeBytes(p.value, n - 1), p.rest);
      assert [bs[0]] + bs[1..] == bs;
    }
  }

  lemma {:induction false} LeLength(v: nat, n: nat)
    ensures |LeBytes(v, n)| == n
    decreases n
  {
    if n > 0 { LeLength(v / 256, n - 1); }
  }

  lemma U32Return(v: U32, rest: seq<Byte>)
    ensures GetU32(LeBytes(v, 4) + rest) == Ok(v, rest)
  {
    Pow2Values();
    LeReturn(v, 4, rest);
  }

  lemma U64Return(v: U64, rest: seq<Byte>)
    ensures GetU64(LeBytes(v, 8) + rest) == Ok(v, rest)
  {
    Pow2Values();
    LeReturn(v, 8, rest);
  }

  lemma U32Reprint(bs: seq<Byte>)
    requires GetU32(bs).Ok?
    ensures LeBytes(GetU32(bs).value, 4) + GetU32(bs).rest == bs
  {
    LeReprint(bs, 4);
  }

  // ------------------------------------------------------------------
  // Fields.
  // ------------------------------------------------------------------

  lemma ByteReturn(b: Byte, rest: seq<Byte>)
    ensures GetByte([b] + rest) == Ok(b, rest)
  {
    assert ([b] + rest)[1..] == rest;
  }

  lemma ByteReprint(bs: seq<Byte>)
    requires GetByte(bs).Ok?
    ensures [GetByte(bs).value] + GetByte(bs).rest == bs
  {
  }

  lemma OptRefReturn(r: Option<U32>, rest: seq<Byte>)
    ensures GetOptRef(OptRefBytes(r) + rest) == Ok(r, rest)
  {
    match r
    case None => ByteReturn(0, rest);
    case Some(v) =>
      Assoc([1], LeBytes(v, 4), rest);
      ByteReturn(1, LeBytes(v, 4) + rest);
      U32Return(v, rest);
  }

  lemma OptRefReprint(bs: seq<Byte>)
    requires GetOptRef(bs).Ok?
    ensures OptRefBytes(GetOptRef(bs).value) + GetOptRef(bs).rest == bs
  {
    ByteReprint(bs);
    var r := GetByte(bs).rest;
    if GetByte(bs).value == 1 {
      U32Reprint(r);
      Assoc([1], LeBytes(GetU32(r).value, 4), GetU32(r).rest);
    }
  }

  lemma FieldReturn(k: Kind, v: Value, rest: seq<Byte>)
    requires Readable(k, v)
    ensures GetField(k, FieldBytes(k, v) + rest) == Ok(v, rest)
  {
    match k
    case Num32 => U32Return(v.n, rest);
    case Num64 => U64Return(v.n, rest);
    case OptRef => OptRefReturn(v.r, rest);
    case _ => ByteReturn(v.n, rest);
  }

  lemma FieldReprint(k: Kind, bs: seq<Byte>)
    requires GetField(k, bs).Ok?
    ensures Readable(k, GetField(k, bs).value)
    ensures FieldBytes(k, GetField(k, bs).value) + GetField(k, bs).rest == bs
  {
    match k
    case Num32 => U32Reprint(bs);
    case Num64 => LeReprint(bs, 8);
    case OptRef => OptRefReprint(bs);
    case _ => ByteReprint(bs);
  }

  // ------------------------------------------------------------------
  // Ops and statements.
  // ------------------------------------------------------------------

  lemma OpReturn(op: Op, rest: seq<Byte>)
    requires ReadableOp(op)
    ensures GetOp(OpBytes(op) + rest) == Ok(op, rest)
  {
    var ks := Layout(op.tag);
    forall k, v, r | Readable(k, v) ensures GetField(k, FieldBytes(k, v) + r) == Ok(v, r) { FieldReturn(k, v, r); }
    FieldsReturn(GetField, FieldBytes, Readable, ks, op.fields, rest);
    Assoc([op.tag], PutFields(FieldBytes, ks, op.fields), rest);
    ByteReturn(op.tag, PutFields(FieldBytes, ks, op.fields) + rest);
  }

  lemma OpReprint(bs: seq<Byte>)
    requires GetOp(bs).Ok?
    ensures ReadableOp(GetOp(bs).value) && OpBytes(GetOp(bs).value) + GetOp(bs).rest == bs
  {
    var tag, r := GetByte(bs).value, GetByte(bs).rest;
    ByteReprint(bs);
    forall k, b | GetField(k, b).Ok?
      ensures Readable(k, GetField(k, b).value) && FieldBytes(k, GetField(k, b).value) + GetField(k, b).rest == b
    {
      FieldReprint(k, b);
    }
    FieldsReprint(GetField, FieldBytes, Readable, Layout(tag), r);
    var p := GetFields(GetField, Layout(tag), r);
    Assoc([tag], PutFields(FieldBytes, Layout(tag), p.value), p.rest);
  }

  ghost predicate ReadableStmt(s: Stmt) { ReadableOp(s.op) }

  lemma StmtReturn(s: Stmt, rest: seq<Byte>)
    requires ReadableStmt(s)
    ensures GetStmt(StmtBytes(s) + rest) == Ok(s, rest)
  {
    Assoc(OptRefBytes(s.result), OpBytes(s.op), rest);
    OptRefReturn(s.result, OpBytes(s.op) + rest);
    OpReturn(s.op, rest);
  }

  lemma StmtLength(s: Stmt)
    requires ReadableStmt(s)
    ensures |StmtBytes(s)| >= 2
  {
  }

  lemma StmtReprint(bs: seq<Byte>)
    requires GetStmt(bs).Ok?
    ensures ReadableStmt(GetStmt(bs).value) && StmtBytes(GetStmt(bs).value) + GetStmt(bs).rest == bs
  {
    var p := GetOptRef(bs);
    OptRefReprint(bs);
    OpReprint(p.rest);
    Assoc(OptRefBytes(p.value), OpBytes(GetOp(p.rest).value), GetOp(p.rest).rest);
  }

  // ------------------------------------------------------------------
  // Lists and functions.
  // ------------------------------------------------------------------

  ghost predicate ReadableList(ss: seq<Stmt>) { |ss| <= 1_000_000 && All(ss, s => ReadableStmt(s)) }

  lemma ListReturn(ss: seq<Stmt>, rest: seq<Byte>)
    requires ReadableList(ss)
    ensures GetList(ListBytes(ss) + rest) == Ok(ss, rest)
  {
    var ok := s => ReadableStmt(s);
    forall s, r | ok(s) ensures GetStmt(StmtBytes(s) + r) == Ok(s, r) { StmtReturn(s, r); }
    forall s | ok(s) ensures |StmtBytes(s)| >= 2 { StmtLength(s); }
    U32Return(|ss|, PutMany(StmtBytes, ss) + rest);
    CountedReturn(GetStmt, StmtBytes, ok, 2, ss, rest);
  }

  lemma ListLength(ss: seq<Stmt>)
    ensures |ListBytes(ss)| >= 4
  {
    LeLength(|ss| % TWO32, 4);
  }

  lemma ListReprint(bs: seq<Byte>)
    requires GetList(bs).Ok?
    ensures ReadableList(GetList(bs).value) && ListBytes(GetList(bs).value) + GetList(bs).rest == bs
  {
    var ok := s => ReadableStmt(s);
    forall b | GetStmt(b).Ok?
      ensures ok(GetStmt(b).value) && StmtBytes(GetStmt(b).value) + GetStmt(b).rest == b
    {
      StmtReprint(b);
    }
    if GetU32(bs).Ok? { U32Reprint(bs); }
    CountedReprint(GetStmt, StmtBytes, ok, 2, bs);
  }

  ghost predicate ReadableBlock(b: Block) { ReadableList(b.stmts) }

  lemma BlockReturn(b: Block, rest: seq<Byte>)
    requires ReadableBlock(b)
    ensures GetBlock(BlockBytes(b) + rest) == Ok(b, rest)
  {
    Assoc(LeBytes(b.id, 4), ListBytes(b.stmts), rest);
    U32Return(b.id, ListBytes(b.stmts) + rest);
    ListReturn(b.stmts, rest);
  }

  lemma BlockLength(b: Block)
    ensures |BlockBytes(b)| >= 8
  {
    LeLength(b.id, 4);
    ListLength(b.stmts);
  }

  lemma BlockReprint(bs: seq<Byte>)
    requires GetBlock(bs).Ok?
    ensures ReadableBlock(GetBlock(bs).value) && BlockBytes(GetBlock(bs).value) + GetBlock(bs).rest == bs
  {
    var p := GetU32(bs);
    U32Reprint(bs);
    ListReprint(p.rest);
    Assoc(LeBytes(p.value, 4), ListBytes(GetList(p.rest).value), GetList(p.rest).rest);
  }

  ghost predicate ReadableFunction(f: Function) { |f.blocks| <= 1_000_000 && All(f.blocks, b => ReadableBlock(b)) }

  lemma BlocksReturn(xs: seq<Block>)
    requires |xs| <= MAX_ITEMS && All(xs, b => ReadableBlock(b))
    ensures GetCounted(GetBlock, 8, PutCounted(BlockBytes, xs)) == Ok(xs, [])
  {
    var ok := b => ReadableBlock(b);
    forall b, r | ok(b) ensures GetBlock(BlockBytes(b) + r) == Ok(b, r) { BlockReturn(b, r); }
    forall b | ok(b) ensures |BlockBytes(b)| >= 8 { BlockLength(b); }
    U32Return(|xs|, PutMany(BlockBytes, xs) + []);
    CountedReturn(GetBlock, BlockBytes, ok, 8, xs, []);
    PlusNothing(PutCounted(BlockBytes, xs));
  }

  lemma BlocksReprint(bs: seq<Byte>)
    requires GetCounted(GetBlock, 8, bs).Ok?
    ensures var p := GetCounted(GetBlock, 8, bs);
            && |p.value| <= MAX_ITEMS && All(p.value, b => ReadableBlock(b))
            && PutCounted(BlockBytes, p.value) + p.rest == bs
  {
    var ok := b => ReadableBlock(b);
    forall b | GetBlock(b).Ok?
      ensures ok(GetBlock(b).value) && BlockBytes(GetBlock(b).value) + GetBlock(b).rest == b
    {
      BlockReprint(b);
    }
    if GetU32(bs).Ok? { U32Reprint(bs); }
    CountedReprint(GetBlock, BlockBytes, ok, 8, bs);
  }

  lemma BodyReturn(f: Function)
    requires ReadableFunction(f)
    ensures GetFunction(BodyBytes(f)) == Ok(f, [])
  {
    U32Return(f.entry, PutCounted(BlockBytes, f.blocks));
    BlocksReturn(f.blocks);
  }

  lemma BodyReprint(bs: seq<Byte>)
    requires GetFunction(bs).Ok?
    ensures ReadableFunction(GetFunction(bs).value) && BodyBytes(GetFunction(bs).value) + GetFunction(bs).rest == bs
  {
    var p := GetU32(bs);
    U32Reprint(bs);
    BlocksReprint(p.rest);
    var q := GetCounted(GetBlock, 8, p.rest);
    Assoc(LeBytes(p.value, 4), PutCounted(BlockBytes, q.value), q.rest);
  }

  // ------------------------------------------------------------------
  // Headers.
  // ------------------------------------------------------------------

  lemma {:induction false} MagicExact(bs: seq<Byte>, magic: seq<Byte>)
    ensures GetMagic(bs, magic).Ok? <==> magic <= bs
    ensures GetMagic(bs, magic).Ok? ==> GetMagic(bs, magic).rest == bs[|magic|..]
    decreases |magic|
  {
    if magic != [] && bs != [] {
      MagicExact(bs[1..], magic[1..]);
      assert bs == [bs[0]] + bs[1..] && magic == [magic[0]] + magic[1..];
    }
  }

  lemma TwoBytes(r: seq<Byte>)
    ensures GetLe(r, 2).Ok? <==> |r| >= 2
    ensures |r| >= 2 ==> GetLe(r, 2).rest == r[2..] && (GetLe(r, 2).value == 2 <==> r[0] == 2 && r[1] == 0)
  {
    if |r| >= 2 {
      var hi := GetLe(r[1..], 1);
      assert GetLe(r[1..][1..], 0) == Ok(0, r[1..][1..]);
      assert hi.value == r[1] + 256 * 0 && hi.rest == r[1..][1..] == r[2..];
    } else if |r| == 1 {
      assert GetLe(r[1..], 1).Fail?;
    }
  }

  /** After the magic: version 2, the kind, and a zero byte. */
  lemma HeaderExact(bs: seq<Byte>, k: FileKind)
    ensures GetHeader(bs, k).Ok? <==> HeaderBytes(k) <= bs
    ensures GetHeader(bs, k).Ok? ==> GetHeader(bs, k).rest == bs[8..]
  {
    var m := [0x50, 0x49, 0x52, 0x42];
    MagicExact(bs, m);
    assert m <= HeaderBytes(k);
    if m <= bs {
      var r := bs[4..];
      TwoBytes(r);
      assert forall i :: 0 <= i < |r| ==> r[i] == bs[4 + i];
      if |bs| >= 8 {
        assert r[2..][0] == bs[6] && r[2..][1..][0] == bs[7] && r[2..][1..][1..] == bs[8..];
        PrefixOf8(bs, HeaderBytes(k));
      }
    }
  }

  lemma PrefixOf8(bs: seq<Byte>, h: seq<Byte>)
    requires |bs| >= 8 && |h| == 8
    ensures h <= bs <==> (bs[0] == h[0] && bs[1] == h[1] && bs[2] == h[2] && bs[3] == h[3]
                          && bs[4] == h[4] && bs[5] == h[5] && bs[6] == h[6] && bs[7] == h[7])
  {
  }

  lemma HeaderReturn(k: FileKind, body: seq<Byte>)
    ensures GetHeader(HeaderBytes(k) + body, k) == Ok((), body)
  {
    HeaderExact(HeaderBytes(k) + body, k);
    assert (HeaderBytes(k) + body)[8..] == body;
  }

  lemma HeaderReprint(bs: seq<Byte>, k: FileKind)
    requires GetHeader(bs, k).Ok?
    ensures HeaderBytes(k) + GetHeader(bs, k).rest == bs
  {
    HeaderExact(bs, k);
  }

  // ------------------------------------------------------------------
  // Whole streams.
  // ------------------------------------------------------------------

  /** A list comes back exactly when every op is one the reader knows and the
      limit is met. */
  lemma StmtsRoundTrip(ss: seq<Stmt>)
    ensures DeserializeStmts(SerializeStmts(ss)) == Ok(ss, []) <==> ReadableList(ss)
  {
    HeaderReturn(StmtList, ListBytes(ss));
    PlusNothing(ListBytes(ss));
    if ReadableList(ss) { ListReturn(ss, []); }
    if GetList(ListBytes(ss)).Ok? { ListReprint(ListBytes(ss)); }
  }

  /** Every accepted stream is the serialisation of what it was read as. */
  lemma StmtsReserialize(bs: seq<Byte>)
    requires DeserializeStmts(bs).Ok?
    ensures SerializeStmts(DeserializeStmts(bs).value) == bs
    ensures ReadableList(DeserializeStmts(bs).value)
  {
    var p := GetHeader(bs, StmtList);
    HeaderReprint(bs, StmtList);
    ListReprint(p.rest);
    PlusNothing(ListBytes(GetList(p.rest).value));
  }

  lemma FunctionRoundTrip(f: Function)
    ensures DeserializeFunction(SerializeFunction(f)) == Ok(f, []) <==> ReadableFunction(f)
  {
    HeaderReturn(FunctionFile, BodyBytes(f));
    if ReadableFunction(f) { BodyReturn(f); }
    if GetFunction(BodyBytes(f)).Ok? { BodyReprint(BodyBytes(f)); }
  }

  lemma FunctionReserialize(bs: seq<Byte>)
    requires DeserializeFunction(bs).Ok?
    ensures SerializeFunction(DeserializeFunction(bs).value) == bs
    ensures ReadableFunction(DeserializeFunction(bs).value)
  {
    var p := GetHeader(bs, FunctionFile);
    HeaderReprint(bs, FunctionFile);
    BodyReprint(p.rest);
    PlusNothing(BodyBytes(GetFunction(p.rest).value));
  }
}
