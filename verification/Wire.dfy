/** The byte layout of serialised IR: what the writer emits for each op and what
    the strict reader makes of bytes. An op is its tag and its fields in order;
    `Layout` gives the field kinds of all 46 tags. */
module Wire {
  import opened Words

  datatype Error =
    | BadMagic | UnsupportedVersion | WrongKind | Truncated | InvalidTag
    | InvalidEnum | InvalidBool | TooLarge | TrailingBytes

  /** A parsed value and the bytes after it. */
  datatype Parse<T> = Ok(value: T, rest: seq<Byte>) | Fail(error: Error)

  datatype Kind = Num8 | Num32 | Num64 | Enum(max: Byte) | Bool8 | OptRef
  datatype Value = Num(n: U64) | Opt(r: Option<U32>)

  datatype Op = Tagged(tag: Byte, fields: seq<Value>) | Untagged
  datatype Stmt = Stmt(result: Option<U32>, op: Op)
  datatype Block = Block(id: U32, stmts: seq<Stmt>)
  datatype Function = Function(entry: U32, blocks: seq<Block>)

  const FIRST_TAG: Byte := 1
  const LAST_TAG: Byte := 46
  const MAX_ITEMS: nat := 1_000_000

  const REG: Kind := Enum(15)
  const SIZE: Kind := Enum(3)
  const BINOP: Kind := Enum(12)
  const COND: Kind := Enum(15)

  function Layout(tag: Byte): seq<Kind> {
    match tag
    case 1 => [Num64, SIZE]                              // Constant
    case 2 => [REG, SIZE]                                // LoadReg
    case 3 => [Enum(5)]                                  // LoadSegBase
    case 4 => [REG, Num32, SIZE]                         // StoreReg
    case 5 => [BINOP, Num32, Num32, SIZE]                // BinOp
    case 6 => [Num32, SIZE, SIZE, Bool8]                 // Extend
    case 7 => [Num32, SIZE]                              // Truncate
    case 8 => [COND, Num32, Num32, SIZE]                 // Compare
    case 9 => [COND, Num32, Num32, SIZE]                 // Select
    case 10 => [Num32, SIZE]                             // LoadMem
    case 11 => [Num32, Num32, SIZE]                      // StoreMem
    case 12 => [Num32, SIZE]                             // LoadMemTSO
    case 13 => [Num32, Num32, SIZE]                      // StoreMemTSO
    case 14 => [Num64]                                   // GuestPc
    case 15 => [Num32]                                   // Jump
    case 16 => [Num32, Num32, Num32]                     // CondJump
    case 18 => [Num32]                                   // JumpReg
    case 19 => [Num32, Num32, SIZE]                      // CmpFlags
    case 20 => [Num64]                                   // JumpRel
    case 21 => [Num64, Num64]                            // CallRel
    case 22 => [Num32, Num64]                            // CallReg
    case 23 => [Num64]                                   // RetAdjusted
    case 26 => [Enum(2)]                                 // Trap
    case 27 => [Enum(2)]                                 // Fence
    case 28 => [COND, Num64, Num64]                      // CondJumpRel
    case 29 => [Num32, COND, Num32, Num32]               // CondJumpFlags
    case 30 => [BINOP, Num32, Num32, SIZE]               // AluFlags
    case 31 => [Num32, Num32, SIZE]                      // WriteFlagsCountZero
    case 32 => [Num32, Num32, Num32, Num32, Num32, Num32] // AtomicCmpxchgPair
    case 33 => [Num32, Num32, Num32, SIZE]               // AtomicCmpxchg
    case 35 => [Num32]                                   // StoreCarry
    case 37 => [Num32]                                   // StoreRflags
    case 38 => [Enum(3), OptRef, OptRef]                 // StoreRflagsFromNzcv
    case 39 => [OptRef, OptRef, Num32, Num32, Num32]     // StoreRflagsFromBits
    case 40 => [Num32, Num32, Num32, Bool8, Enum(1)]     // WideDiv
    case 41 => [Num32, Num32, OptRef, OptRef, Num8]      // PcmpStrIndex
    case 42 => [Num32, Num32, OptRef, OptRef, Num8]      // PcmpStrMask
    case 43 => [Num32, Num32, OptRef, OptRef, Num8]      // PcmpStrFlags
    case 44 => [Num32, Enum(2)]                          // TrapIf
    case 45 => [Num32, Num32, Bool8, Bool8]              // VecClMul
    case 46 => [Enum(1), Num32, Num8]                    // VecF16Cvt
    case _ => []                                         // Return, Cpuid, Syscall, LoadCarry, LoadRflags
  }

  /** The value has the field's C++ type. */
  predicate Typed(k: Kind, v: Value) {
    match k
    case Num8 => v.Num? && v.n < 0x100
    case Num32 => v.Num? && v.n < TWO32
    case Num64 => v.Num?
    case Enum(_) => v.Num? && v.n < 0x100
    case Bool8 => v.Num? && v.n <= 1
    case OptRef => v.Opt?
  }

  /** The reader accepts it: enums only up to the decoder's last enumerator. */
  predicate Readable(k: Kind, v: Value) { Typed(k, v) && (k.Enum? ==> v.n <= k.max) }

  ghost predicate AllFields(ks: seq<Kind>, vs: seq<Value>, ok: (Kind, Value) -> bool) {
    |ks| == |vs| && forall i :: 0 <= i < |ks| ==> ok(ks[i], vs[i])
  }

  ghost predicate ReadableOp(op: Op) {
    op.Tagged? && FIRST_TAG <= op.tag <= LAST_TAG && AllFields(Layout(op.tag), op.fields, Readable)
  }

  // ------------------------------------------------------------------
  // Writing.
  // ------------------------------------------------------------------

  function LeBytes(v: nat, n: nat): seq<Byte>
    decreases n, v
  {
    if n == 0 then [] else [v % 256] + LeBytes(v / 256, n - 1)
  }

  function OptRefBytes(r: Option<U32>): seq<Byte> { if r.Some? then [1] + LeBytes(r.value, 4) else [0] }

  function FieldBytes(k: Kind, v: Value): seq<Byte> {
    match v
    case Opt(r) => OptRefBytes(r)
    case Num(n) =>
      match k
      case Num32 => LeBytes(n, 4)
      case Num64 => LeBytes(n, 8)
      case _ => [n % 256]
  }

  function PutFields(put: (Kind, Value) -> seq<Byte>, ks: seq<Kind>, vs: seq<Value>): seq<Byte>
    requires |ks| == |vs|
    decreases |ks|
  {
    if ks == [] then [] else put(ks[0], vs[0]) + PutFields(put, ks[1..], vs[1..])
  }

  /** Ops without a tag are visited by no branch of the writer. */
  function OpBytes(op: Op): seq<Byte> {
    if op.Tagged? && |Layout(op.tag)| == |op.fields|
    then [op.tag] + PutFields(FieldBytes, Layout(op.tag), op.fields)
    else []
  }

  function StmtBytes(s: Stmt): seq<Byte> { OptRefBytes(s.result) + OpBytes(s.op) }

  function PutMany<T>(put: T -> seq<Byte>, xs: seq<T>): seq<Byte>
    decreases |xs|
  {
    if xs == [] then [] else put(xs[0]) + PutMany(put, xs[1..])
  }

  /** A 32-bit count and the items. */
  function PutCounted<T>(put: T -> seq<Byte>, xs: seq<T>): seq<Byte> { LeBytes(|xs| % TWO32, 4) + PutMany(put, xs) }

  function ListBytes(ss: seq<Stmt>): seq<Byte> { PutCounted(StmtBytes, ss) }

  function BlockBytes(b: Block): seq<Byte> { LeBytes(b.id, 4) + ListBytes(b.stmts) }

  function BodyBytes(f: Function): seq<Byte> { LeBytes(f.entry, 4) + PutCounted(BlockBytes, f.blocks) }

  datatype FileKind = StmtList | FunctionFile

  function KindByte(k: FileKind): Byte { if k.StmtList? then 1 else 2 }

  /** "PIRB", version 2, kind, reserved byte. */
  function HeaderBytes(k: FileKind): seq<Byte> { [0x50, 0x49, 0x52, 0x42, 2, 0, KindByte(k), 0] }

  function SerializeStmts(ss: seq<Stmt>): seq<Byte> { HeaderBytes(StmtList) + ListBytes(ss) }

  function SerializeFunction(f: Function): seq<Byte> { HeaderBytes(FunctionFile) + BodyBytes(f) }

  // ------------------------------------------------------------------
  // Reading.
  // ------------------------------------------------------------------

  function GetByte(bs: seq<Byte>): Parse<Byte> { if bs == [] then Fail(Truncated) else Ok(bs[0], bs[1..]) }

  function GetLe(bs: seq<Byte>, n: nat): Parse<nat>
    decreases n, |bs|
  {
    if n == 0 then Ok(0, bs)
    else if bs == [] then Fail(Truncated)
    else match GetLe(bs[1..], n - 1)
      case Fail(e) => Fail(e)
      case Ok(v, rest) => Ok(bs[0] + 256 * v, rest)
  }

  lemma {:induction false} GetLeBound(bs: seq<Byte>, n: nat)
    ensures GetLe(bs, n).Ok? ==> GetLe(bs, n).value < Pow2(8 * n)
    decreases n
  {
    if n > 0 && bs != [] {
      GetLeBound(bs[1..], n - 1);
      Pow2Add(8, 8 * (n - 1));
      Pow2Values();
    }
  }

  function GetU32(bs: seq<Byte>): Parse<U32> {
    GetLeBound(bs, 4);
    Pow2Values();
    match GetLe(bs, 4) case Fail(e) => Fail(e) case Ok(v, rest) => Ok(v, rest)
  }

  function GetU64(bs: seq<Byte>): Parse<U64> {
    GetLeBound(bs, 8);
    Pow2Values();
    match GetLe(bs, 8) case Fail(e) => Fail(e) case Ok(v, rest) => Ok(v, rest)
  }

  function GetBool(bs: seq<Byte>): Parse<bool> {
    match GetByte(bs)
    case Fail(e) => Fail(e)
    case Ok(b, rest) => if b > 1 then Fail(InvalidBool) else Ok(b == 1, rest)
  }

  function GetOptRef(bs: seq<Byte>): Parse<Option<U32>> {
    match GetBool(bs)
    case Fail(e) => Fail(e)
    case Ok(present, rest) =>
      if !present then Ok(None, rest)
      else match GetU32(rest) case Fail(e) => Fail(e) case Ok(v, rest1) => Ok(Some(v), rest1)
  }

  function GetField(k: Kind, bs: seq<Byte>): Parse<Value> {
    match k
    case Num8 => (match GetByte(bs) case Fail(e) => Fail(e) case Ok(b, r) => Ok(Num(b), r))
    case Num32 => (match GetU32(bs) case Fail(e) => Fail(e) case Ok(v, r) => Ok(Num(v), r))
    case Num64 => (match GetU64(bs) case Fail(e) => Fail(e) case Ok(v, r) => Ok(Num(v), r))
    case Enum(max) =>
      (match GetByte(bs) case Fail(e) => Fail(e) case Ok(b, r) => if b > max then Fail(InvalidEnum) else Ok(Num(b), r))
    case Bool8 => (match GetBool(bs) case Fail(e) => Fail(e) case Ok(b, r) => Ok(Num(if b then 1 else 0), r))
    case OptRef => (match GetOptRef(bs) case Fail(e) => Fail(e) case Ok(v, r) => Ok(Opt(v), r))
  }

  /** One field after another, each read by its kind. */
  function GetFields(get: (Kind, seq<Byte>) -> Parse<Value>, ks: seq<Kind>, bs: seq<Byte>): Parse<seq<Value>>
    decreases |ks|
  {
    if ks == [] then Ok([], bs)
    else match get(ks[0], bs)
      case Fail(e) => Fail(e)
      case Ok(v, r) =>
        match GetFields(get, ks[1..], r)
        case Fail(e) => Fail(e)
        case Ok(vs, r1) => Ok([v] + vs, r1)
  }

  function GetOp(bs: seq<Byte>): Parse<Op> {
    match GetByte(bs)
    case Fail(e) => Fail(e)
    case Ok(tag, r) =>
      if tag < FIRST_TAG || tag > LAST_TAG then Fail(InvalidTag)
      else match GetFields(GetField, Layout(tag), r)
        case Fail(e) => Fail(e)
        case Ok(vs, r1) => Ok(Tagged(tag, vs), r1)
  }

  function GetStmt(bs: seq<Byte>): Parse<Stmt> {
    match GetOptRef(bs)
    case Fail(e) => Fail(e)
    case Ok(res, r) => match GetOp(r) case Fail(e) => Fail(e) case Ok(op, r1) => Ok(Stmt(res, op), r1)
  }

  function GetMany<T>(get: seq<Byte> -> Parse<T>, bs: seq<Byte>, n: nat): Parse<seq<T>>
    decreases n, |bs|
  {
    if n == 0 then Ok([], bs)
    else match get(bs)
      case Fail(e) => Fail(e)
      case Ok(x, r) =>
        match GetMany(get, r, n - 1)
        case Fail(e) => Fail(e)
        case Ok(xs, r1) => Ok([x] + xs, r1)
  }

  /** The count is checked against the limit and against what is left, given the
      fewest bytes an item can take. */
  function GetCounted<T>(get: seq<Byte> -> Parse<T>, least: nat, bs: seq<Byte>): Parse<seq<T>>
    requires least > 0
  {
    match GetU32(bs)
    case Fail(e) => Fail(e)
    case Ok(n, r) =>
      if n > MAX_ITEMS then Fail(TooLarge)
      else if n > |r| / least then Fail(Truncated)
      else GetMany(get, r, n)
  }

  function GetList(bs: seq<Byte>): Parse<seq<Stmt>> { GetCounted(GetStmt, 2, bs) }

  function GetBlock(bs: seq<Byte>): Parse<Block> {
    match GetU32(bs)
    case Fail(e) => Fail(e)
    case Ok(id, r) => match GetList(r) case Fail(e) => Fail(e) case Ok(ss, r1) => Ok(Block(id, ss), r1)
  }

  function GetMagic(bs: seq<Byte>, magic: seq<Byte>): Parse<()>
    decreases |magic|
  {
    if magic == [] then Ok((), bs)
    else if bs == [] then Fail(Truncated)
    else if bs[0] != magic[0] then Fail(BadMagic)
    else GetMagic(bs[1..], magic[1..])
  }

  function GetHeader(bs: seq<Byte>, k: FileKind): Parse<()> {
    match GetMagic(bs, [0x50, 0x49, 0x52, 0x42])
    case Fail(e) => Fail(e)
    case Ok(_, r) =>
      match GetLe(r, 2)
      case Fail(e) => Fail(e)
      case Ok(version, r1) =>
        if version != 2 then Fail(UnsupportedVersion)
        else match GetByte(r1)
          case Fail(e) => Fail(e)
          case Ok(kind, r2) =>
            if kind != KindByte(k) then Fail(WrongKind)
            else match GetByte(r2)
              case Fail(e) => Fail(e)
              case Ok(flags, r3) => if flags != 0 then Fail(UnsupportedVersion) else Ok((), r3)
  }

  function Finished<T>(p: Parse<T>): Parse<T> {
    if p.Ok? && p.rest != [] then Fail(TrailingBytes) else p
  }

  function DeserializeStmts(bs: seq<Byte>): Parse<seq<Stmt>> {
    match GetHeader(bs, StmtList) case Fail(e) => Fail(e) case Ok(_, r) => Finished(GetList(r))
  }

  function GetFunction(bs: seq<Byte>): Parse<Function> {
    match GetU32(bs)
    case Fail(e) => Fail(e)
    case Ok(entry, r) =>
      match GetCounted(GetBlock, 8, r) case Fail(e) => Fail(e) case Ok(xs, r1) => Ok(Function(entry, xs), r1)
  }

  function DeserializeFunction(bs: seq<Byte>): Parse<Function> {
    match GetHeader(bs, FunctionFile) case Fail(e) => Fail(e) case Ok(_, r) => Finished(GetFunction(r))
  }
}
