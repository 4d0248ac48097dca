/** The writer and the reader as they run: bytes appended to a buffer, an offset
    moved through one. */
module IrStream {
  import opened Words
  import opened Wire
  import opened ParseLaws
  import opened Codec

  // ------------------------------------------------------------------
  // Writing.
  // ------------------------------------------------------------------

  class Writer {
    var bytes: seq<Byte>

    constructor ()
      ensures bytes == []
    {
      bytes := [];
    }

    /** The low `n` bytes of a value, least significant first. */
    method Little(value: U64, n: nat)
      modifies this
      ensures bytes == old(bytes) + LeBytes(value, n)
    {
      var v: nat, i := value, 0;
      while i < n
        invariant i <= n && bytes + LeBytes(v, n - i) == old(bytes) + LeBytes(value, n)
      {
        Assoc(bytes, [v % 256], LeBytes(v / 256, n - i - 1));
        bytes := bytes + [v % 256];
        v, i := v / 256, i + 1;
      }
      PlusNothing(bytes);
    }

    method OptionalRef(r: Option<U32>)
      modifies this
      ensures bytes == old(bytes) + OptRefBytes(r)
    {
      if r.Some? {
        bytes := bytes + [1];
        Little(r.value, 4);
        Assoc(old(bytes), [1], LeBytes(r.value, 4));
      } else {
        bytes := bytes + [0];
      }
    }

    method Field(k: Kind, v: Value)
      modifies this
      ensures bytes == old(bytes) + FieldBytes(k, v)
    {
      match v {
        case Opt(r) => OptionalRef(r);
        case Num(n) =>
          match k {
            case Num32 => Little(n, 4);
            case Num64 => Little(n, 8);
            case _ => bytes := bytes + [n % 256];
          }
      }
    }

    method PutFieldList(ks: seq<Kind>, vs: seq<Value>)
      requires |ks| == |vs|
      modifies this
      ensures bytes == old(bytes) + PutFields(FieldBytes, ks, vs)
    {
      FieldsAll(FieldBytes, ks, vs, bytes);
      for i := 0 to |ks|
        invariant bytes + PutFields(FieldBytes, ks[i..], vs[i..]) == old(bytes) + PutFields(FieldBytes, ks, vs)
      {
        FieldsSplit(FieldBytes, ks, vs, i, bytes);
        Field(ks[i], vs[i]);
      }
      FieldsAll(FieldBytes, ks, vs, bytes);
    }

    method PutOp(op: Op)
      modifies this
      ensures bytes == old(bytes) + OpBytes(op)
    {
      if op.Untagged? || |Layout(op.tag)| != |op.fields| { return; }
      bytes := bytes + [op.tag];
      PutFieldList(Layout(op.tag), op.fields);
      Assoc(old(bytes), [op.tag], PutFields(FieldBytes, Layout(op.tag), op.fields));
    }

    method PutStmt(s: Stmt)
      modifies this
      ensures bytes == old(bytes) + StmtBytes(s)
    {
      OptionalRef(s.result);
      PutOp(s.op);
      Assoc(old(bytes), OptRefBytes(s.result), OpBytes(s.op));
    }

    method PutStmts(ss: seq<Stmt>)
      modifies this
      ensures bytes == old(bytes) + ListBytes(ss)
    {
      Little(|ss| % TWO32, 4);
      ghost var goal := bytes + PutMany(StmtBytes, ss);
      Assoc(old(bytes), LeBytes(|ss| % TWO32, 4), PutMany(StmtBytes, ss));
      ManyAll(StmtBytes, ss, bytes);
      for i := 0 to |ss|
        invariant bytes + PutMany(StmtBytes, ss[i..]) == goal
      {
        ManySplit(StmtBytes, ss, i, bytes);
        PutStmt(ss[i]);
      }
      ManyAll(StmtBytes, ss, bytes);
    }

    method PutBlock(b: Block)
      modifies this
      ensures bytes == old(bytes) + BlockBytes(b)
    {
      Little(b.id, 4);
      PutStmts(b.stmts);
      Assoc(old(bytes), LeBytes(b.id, 4), ListBytes(b.stmts));
    }

    method PutBlocks(xs: seq<Block>)
      modifies this
      ensures bytes == old(bytes) + PutCounted(BlockBytes, xs)
    {
      Little(|xs| % TWO32, 4);
      ghost var goal := bytes + PutMany(BlockBytes, xs);
      Assoc(old(bytes), LeBytes(|xs| % TWO32, 4), PutMany(BlockBytes, xs));
      ManyAll(BlockBytes, xs, bytes);
      for i := 0 to |xs|
        invariant bytes + PutMany(BlockBytes, xs[i..]) == goal
      {
        ManySplit(BlockBytes, xs, i, bytes);
        PutBlock(xs[i]);
      }
      ManyAll(BlockBytes, xs, bytes);
    }

    method PutBody(f: Function)
      modifies this
      ensures bytes == old(bytes) + BodyBytes(f)
    {
      Little(f.entry, 4);
      PutBlocks(f.blocks);
      Assoc(old(bytes), LeBytes(f.entry, 4), PutCounted(BlockBytes, f.blocks));
    }

    method Header(k: FileKind)
      modifies this
      ensures bytes == old(bytes) + HeaderBytes(k)
    {
      bytes := bytes + [0x50, 0x49, 0x52, 0x42];
      bytes := bytes + [2, 0];
      bytes := bytes + [KindByte(k)];
      bytes := bytes + [0];
    }
  }

  method SerializeStmtList(ss: seq<Stmt>) returns (bytes: seq<Byte>)
    ensures bytes == SerializeStmts(ss)
  {
    var w := new Writer();
    w.Header(StmtList);
    w.PutStmts(ss);
    bytes := w.bytes;
  }

  method SerializeWholeFunction(f: Function) returns (bytes: seq<Byte>)
    ensures bytes == SerializeFunction(f)
  {
    var w := new Writer();
    w.Header(FunctionFile);
    w.PutBody(f);
    bytes := w.bytes;
  }

  // ------------------------------------------------------------------
  // Reading.
  // ------------------------------------------------------------------

  datatype Read<T> = Got(value: T) | Bad(error: Error)

  /** What a parse of the rest of the buffer gives, as a reader reports it. */
  ghost predicate Follows<T>(p: Parse<T>, r: Read<T>, rest: seq<Byte>) {
    match p
    case Ok(v, after) => r == Got(v) && rest == after
    case Fail(e) => r == Bad(e)
  }

  class Reader {
    const data: seq<Byte>
    var offset: nat

    ghost predicate Valid()
      reads this
    {
      offset <= |data|
    }

    ghost function Rest(): seq<Byte>
      reads this
      requires Valid()
    {
      data[offset..]
    }

    constructor (bytes: seq<Byte>)
      ensures Valid() && Rest() == bytes
    {
      data, offset := bytes, 0;
    }

    method GetNextByte() returns (r: Read<Byte>)
      requires Valid()
      modifies this
      ensures Valid() && Follows(GetByte(old(Rest())), r, Rest())
    {
      if |data| - offset < 1 { return Bad(Truncated); }
      r := Got(data[offset]);
      offset := offset + 1;
    }

    method GetNextBool() returns (r: Read<bool>)
      requires Valid()
      modifies this
      ensures Valid() && Follows(GetBool(old(Rest())), r, Rest())
    {
      var raw := GetNextByte();
      if raw.Bad? { return Bad(raw.error); }
      if raw.value > 1 { return Bad(InvalidBool); }
      return Got(raw.value == 1);
    }

    /** `n` bytes, or-ed together at rising shifts. */
    method GetLittle(n: nat) returns (r: Read<nat>)
      requires Valid()
      modifies this
      ensures Valid() && Follows(GetLe(old(Rest()), n), r, Rest())
    {
      var v: nat, i := 0, 0;
      LittleStart(Rest(), n);
      while i < n
        invariant i <= n && Valid() && v < Pow2(8 * i)
        invariant LittleSoFar(old(Rest()), n, v, i, Rest())
      {
        ghost var rest := Rest();
        var raw := GetNextByte();
        if raw.Bad? { return Bad(raw.error); }
        LittleNext(v, i, raw.value);
        var v1 := Or(v, Pow2(8 * i) * raw.value);
        LittleStep(old(Rest()), n, v, i, rest, v1);
        v, i := v1, i + 1;
      }
      return Got(v);
    }

    method GetNextU32() returns (r: Read<U32>)
      requires Valid()
      modifies this
      ensures Valid() && Follows(GetU32(old(Rest())), r, Rest())
    {
      ghost var rest := Rest();
      GetLeBound(rest, 4);
      Pow2Values();
      var v := GetLittle(4);
      if v.Bad? { return Bad(v.error); }
      return Got(v.value);
    }

    method GetNextU64() returns (r: Read<U64>)
      requires Valid()
      modifies this
      ensures Valid() && Follows(GetU64(old(Rest())), r, Rest())
    {
      ghost var rest := Rest();
      GetLeBound(rest, 8);
      Pow2Values();
      var v := GetLittle(8);
      if v.Bad? { return Bad(v.error); }
      return Got(v.value);
    }

    method GetNextOptRef() returns (r: Read<Option<U32>>)
      requires Valid()
      modifies this
      ensures Valid() && Follows(GetOptRef(old(Rest())), r, Rest())
    {
      var present := GetNextBool();
      if present.Bad? { return Bad(present.error); }
      if !present.value { return Got(None); }
      var v := GetNextU32();
      if v.Bad? { return Bad(v.error); }
      return Got(Some(v.value));
    }

    method GetNextField(k: Kind) returns (r: Read<Value>)
      requires Valid()
      modifies this
      ensures Valid() && Follows(GetField(k, old(Rest())), r, Rest())
    {
      match k {
        case Num8 =>
          var b := GetNextByte();
          r := if b.Bad? then Bad(b.error) else Got(Num(b.value));
        case Num32 =>
          var v := GetNextU32();
          r := if v.Bad? then Bad(v.error) else Got(Num(v.value));
        case Num64 =>
          var v := GetNextU64();
          r := if v.Bad? then Bad(v.error) else Got(Num(v.value));
        case Enum(max) =>
          var b := GetNextByte();
          r := if b.Bad? then Bad(b.error) else if b.value > max then Bad(InvalidEnum) else Got(Num(b.value));
        case Bool8 =>
          var b := GetNextBool();
          r := if b.Bad? then Bad(b.error) else Got(Num(if b.value then 1 else 0));
        case OptRef =>
          var v := GetNextOptRef();
          r := if v.Bad? then Bad(v.error) else Got(Opt(v.value));
      }
    }

    method GetFieldList(ks: seq<Kind>) returns (r: Read<seq<Value>>)
      requires Valid()
      modifies this
      ensures Valid() && Follows(GetFields(GetField, ks, old(Rest())), r, Rest())
    {
      var vs := [];
      FieldsStart(GetField, Rest(), ks);
      for i := 0 to |ks|
        invariant Valid() && |vs| == i && FieldsSoFar(GetField, old(Rest()), ks, vs, Rest())
      {
        FieldsStep(GetField, old(Rest()), ks, vs, Rest());
        var v := GetNextField(ks[i]);
        if v.Bad? { return Bad(v.error); }
        vs := vs + [v.value];
      }
      FieldsDone(GetField, old(Rest()), ks, vs, Rest());
      return Got(vs);
    }

    method GetNextOp() returns (r: Read<Op>)
      requires Valid()
      modifies this
      ensures Valid() && Follows(GetOp(old(Rest())), r, Rest())
    {
      var tag := GetNextByte();
      if tag.Bad? { return Bad(tag.error); }
      if tag.value < FIRST_TAG || tag.value > LAST_TAG { return Bad(InvalidTag); }
      var fields := GetFieldList(Layout(tag.value));
      if fields.Bad? { return Bad(fields.error); }
      return Got(Tagged(tag.value, fields.value));
    }

    method GetNextStmt() returns (r: Read<Stmt>)
      requires Valid()
      modifies this
      ensures Valid() && Follows(GetStmt(old(Rest())), r, Rest())
    {
      var result := GetNextOptRef();
      if result.Bad? { return Bad(result.error); }
      var op := GetNextOp();
      if op.Bad? { return Bad(op.error); }
      return Got(Stmt(result.value, op.value));
    }

    method GetStmtItems(n: nat) returns (r: Read<seq<Stmt>>)
      requires Valid()
      modifies this
      ensures Valid() && Follows(GetMany(GetStmt, old(Rest()), n), r, Rest())
    {
      var ss := [];
      ManyStart(GetStmt, Rest(), n);
      for i := 0 to n
        invariant Valid() && |ss| == i && ManySoFar(GetStmt, old(Rest()), n, ss, Rest())
      {
        ManyStep(GetStmt, old(Rest()), n, ss, Rest());
        var s := GetNextStmt();
        if s.Bad? { return Bad(s.error); }
        ss := ss + [s.value];
      }
      ManyDone(GetStmt, old(Rest()), n, ss, Rest());
      return Got(ss);
    }

    method GetStmtList() returns (r: Read<seq<Stmt>>)
      requires Valid()
      modifies this
      ensures Valid() && Follows(GetList(old(Rest())), r, Rest())
    {
      var n := GetNextU32();
      if n.Bad? { return Bad(n.error); }
      if n.value > MAX_ITEMS { return Bad(TooLarge); }
      if n.value > (|data| - offset) / 2 { return Bad(Truncated); }
      r := GetStmtItems(n.value);
    }

    method GetNextBlock() returns (r: Read<Block>)
      requires Valid()
      modifies this
      ensures Valid() && Follows(GetBlock(old(Rest())), r, Rest())
    {
      var id := GetNextU32();
      if id.Bad? { return Bad(id.error); }
      var ss := GetStmtList();
      if ss.Bad? { return Bad(ss.error); }
      return Got(Block(id.value, ss.value));
    }

    method GetBlockItems(n: nat) returns (r: Read<seq<Block>>)
      requires Valid()
      modifies this
      ensures Valid() && Follows(GetMany(GetBlock, old(Rest()), n), r, Rest())
    {
      var xs := [];
      ManyStart(GetBlock, Rest(), n);
      for i := 0 to n
        invariant Valid() && |xs| == i && ManySoFar(GetBlock, old(Rest()), n, xs, Rest())
      {
        ManyStep(GetBlock, old(Rest()), n, xs, Rest());
        var b := GetNextBlock();
        if b.Bad? { return Bad(b.error); }
        xs := xs + [b.value];
      }
      ManyDone(GetBlock, old(Rest()), n, xs, Rest());
      return Got(xs);
    }

    method GetBody() returns (r: Read<Function>)
      requires Valid()
      modifies this
      ensures Valid() && Follows(GetFunction(old(Rest())), r, Rest())
    {
      var entry := GetNextU32();
      if entry.Bad? { return Bad(entry.error); }
      var n := GetNextU32();
      if n.Bad? { return Bad(n.error); }
      if n.value > MAX_ITEMS { return Bad(TooLarge); }
      if n.value > (|data| - offset) / 8 { return Bad(Truncated); }
      var xs := GetBlockItems(n.value);
      if xs.Bad? { return Bad(xs.error); }
      return Got(Function(entry.value, xs.value));
    }

    method CheckMagic(magic: seq<Byte>) returns (r: Read<()>)
      requires Valid()
      modifies this
      ensures Valid() && Follows(GetMagic(old(Rest()), magic), r, Rest())
    {
      assert magic[0..] == magic;
      for i := 0 to |magic|
        invariant Valid() && GetMagic(Rest(), magic[i..]) == GetMagic(old(Rest()), magic)
      {
        assert magic[i..][1..] == magic[i + 1..];
        var b := GetNextByte();
        if b.Bad? { return Bad(b.error); }
        if b.value != magic[i] { return Bad(BadMagic); }
      }
      assert magic[|magic|..] == [];
      return Got(());
    }

    method CheckHeader(k: FileKind) returns (r: Read<()>)
      requires Valid()
      modifies this
      ensures Valid() && Follows(GetHeader(old(Rest()), k), r, Rest())
    {
      r := CheckMagic([0x50, 0x49, 0x52, 0x42]);
      if r.Bad? { return; }
      var version := GetLittle(2);
      if version.Bad? { return Bad(version.error); }
      if version.value != 2 { return Bad(UnsupportedVersion); }
      var kind := GetNextByte();
      if kind.Bad? { return Bad(kind.error); }
      if kind.value != KindByte(k) { return Bad(WrongKind); }
      var flags := GetNextByte();
      if flags.Bad? { return Bad(flags.error); }
      if flags.value != 0 { return Bad(UnsupportedVersion); }
      return Got(());
    }
  }

  /** Accepts exactly the streams that are serialisations, and returns what was
      serialised. */
  method DeserializeStmtList(bytes: seq<Byte>) returns (r: Read<seq<Stmt>>)
    ensures Follows(DeserializeStmts(bytes), r, [])
    ensures r.Got? ==> SerializeStmts(r.value) == bytes
  {
    var reader := new Reader(bytes);
    var h := reader.CheckHeader(StmtList);
    if h.Bad? { return Bad(h.error); }
    r := reader.GetStmtList();
    if r.Bad? { return; }
    if reader.offset != |reader.data| { return Bad(TrailingBytes); }
    StmtsReserialize(bytes);
  }

  method DeserializeWholeFunction(bytes: seq<Byte>) returns (r: Read<Function>)
    ensures Follows(DeserializeFunction(bytes), r, [])
    ensures r.Got? ==> SerializeFunction(r.value) == bytes
  {
    var reader := new Reader(bytes);
    var h := reader.CheckHeader(FunctionFile);
    if h.Bad? { return Bad(h.error); }
    r := reader.GetBody();
    if r.Bad? { return; }
    if reader.offset != |reader.data| { return Bad(TrailingBytes); }
    FunctionReserialize(bytes);
  }

  /** Reading all `n` bytes comes to the same as reading those left and putting
      what was read below them. */
  ghost predicate LittleSoFar(start: seq<Byte>, n: nat, v: nat, i: nat, rest: seq<Byte>)
    requires i <= n
  {
    match GetLe(rest, n - i)
    case Fail(e) => GetLe(start, n) == Fail(e)
    case Ok(w, after) => GetLe(start, n) == Ok(v + Pow2(8 * i) * w, after)
  }

  lemma LittleStart(start: seq<Byte>, n: nat)
    ensures LittleSoFar(start, n, 0, 0, start)
  {
    Pow2Values();
  }

  lemma LittleNext(v: nat, i: nat, b: Byte)
    requires v < Pow2(8 * i)
    ensures Or(v, Pow2(8 * i) * b) == v + Pow2(8 * i) * b < Pow2(8 * (i + 1)) && Pow2(8 * (i + 1)) == 256 * Pow2(8 * i)
  {
    OrDisjoint(v, 8 * i, b);
    NextPow(i);
    var p := Pow2(8 * i);
    assert p * b <= p * 255 by { MulLe(p, b, 255); }
  }

  lemma NextPow(i: nat)
    ensures Pow2(8 * (i + 1)) == 256 * Pow2(8 * i)
  {
    Pow2Add(8, 8 * i);
    Pow2Values();
  }

  lemma MulLe(p: nat, a: int, b: int)
    requires a <= b
    ensures p * a <= p * b
  {
    assert p * b == p * a + p * (b - a);
  }

  /** Taking one more byte off the rest. */
  lemma LittleStep(start: seq<Byte>, n: nat, v: nat, i: nat, rest: seq<Byte>, v1: nat)
    requires i < n && LittleSoFar(start, n, v, i, rest) && rest != []
    requires v1 == v + Pow2(8 * i) * rest[0] && Pow2(8 * (i + 1)) == 256 * Pow2(8 * i)
    ensures LittleSoFar(start, n, v1, i + 1, rest[1..])
  {
    var q := GetLe(rest[1..], n - i - 1);
    if q.Ok? {
      var p := Pow2(8 * i);
      assert v + p * (rest[0] + 256 * q.value) == (v + p * rest[0]) + (256 * p) * q.value;
    }
  }
}
