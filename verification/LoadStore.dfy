/** What a load reads: bytes in address order, and what a store put there. */
module LoadStore {
  import opened Words
  import opened Arith
  import opened Identities
  import opened Scalar
  import opened ByteMemory
  import opened Ir
  import V = Validate

  /** Byte `k` of a number, the lowest first. */
  function ByteOf(v: nat, k: nat): Byte { if k == 0 then v % 256 else ByteOf(v / 256, k - 1) }

  /** One more than the largest number of `n` bytes. */
  function Span(n: nat): (p: nat)
    ensures p > 0
  {
    if n == 0 then 1 else 256 * Span(n - 1)
  }

  lemma SpanIsRange(s: OpSize)
    ensures Span(Bytes(s)) == Range(s)
  {
    assert Span(1) == 256 && Span(2) == 256 * Span(1);
    assert Span(4) == 256 * Span(3) && Span(3) == 256 * Span(2);
    assert Span(8) == 256 * Span(7) && Span(7) == 256 * Span(6) && Span(6) == 256 * Span(5) && Span(5) == 256 * Span(4);
  }

  lemma WrapAdd(a: U64, k: nat)
    ensures Wrap(Wrap(a + 1) + k) == Wrap(a + k + 1)
  {
    var q, r := (a + 1) / TWO64, (a + 1) % TWO64;
    var q1, r1 := (r + k) / TWO64, (r + k) % TWO64;
    ModUnique(a + k + 1, TWO64, q + q1, r1);
  }

  // ------------------------------------------------------------------
  // Loads.
  // ------------------------------------------------------------------

  lemma {:induction false} LoadBytesFit(m: Mem, a: U64, n: nat)
    ensures LoadBytes(m, a, n) < Span(n)
    decreases n
  {
    if n > 0 { LoadBytesFit(m, Wrap(a + 1), n - 1); }
  }

  lemma LoadIsBytes(m: Mem, a: U64, s: OpSize)
    ensures Load(m, a, s) == LoadBytes(m, a, Bytes(s))
  {
    LoadBytesFit(m, a, Bytes(s));
    SpanIsRange(s);
    SmallMod(LoadBytes(m, a, Bytes(s)), Range(s));
  }

  lemma {:induction false} LoadBytesAt(m: Mem, a: U64, n: nat, k: nat)
    requires k < n
    ensures ByteOf(LoadBytes(m, a, n), k) == ReadByte(m, Wrap(a + k))
    decreases n
  {
    if k == 0 {
      WrapSmall(a);
    } else {
      LoadBytesAt(m, Wrap(a + 1), n - 1, k - 1);
      WrapAdd(a, k - 1);
    }
  }

  /** A load is little endian: byte `k` of the value is the memory byte `k` on, wrapping. */
  lemma LoadAt(m: Mem, a: U64, s: OpSize, k: nat)
    requires k < Bytes(s)
    ensures ByteOf(Load(m, a, s), k) == ReadByte(m, Wrap(a + k))
  {
    LoadIsBytes(m, a, s);
    LoadBytesAt(m, a, Bytes(s), k);
  }

  // ------------------------------------------------------------------
  // Loads after stores.
  // ------------------------------------------------------------------

  lemma BehindNext(a: U64, n: nat)
    requires n < TWO64
    ensures !Covers(Wrap(a + 1), n, a)
  {
    if a + 1 == TWO64 { WrapSmall(a); } else { WrapSmall(a + 1); WrapNegative(-1); }
  }

  lemma {:induction false} StoredBytes(m: Mem, a: U64, v: nat, n: nat)
    requires n < TWO64
    ensures LoadBytes(StoreBytes(m, a, v, n), a, n) == v % Span(n)
    decreases n
  {
    if n > 0 {
      var m1 := m[a := v % 256];
      StoredBytes(m1, Wrap(a + 1), v / 256, n - 1);
      BehindNext(a, n - 1);
      StoreOutside(m1, Wrap(a + 1), v / 256, n - 1, a);
      SplitByte(v, Span(n - 1));
    }
  }

  lemma SplitByte(v: nat, p: nat)
    requires p > 0
    ensures v % (256 * p) == v % 256 + 256 * (v / 256 % p)
  {
    var h, c := v / 256, v % 256;
    var q, r := h / p, h % p;
    assert h == p * q + r;
    assert 256 * (p * q) == (256 * p) * q;
    ModUnique(v, 256 * p, q, c + 256 * r);
  }

  /** What was stored comes back, cut to the size, at every address. */
  lemma LoadStored(m: Mem, a: U64, v: U64, s: OpSize)
    ensures Load(Store(m, a, v, s), a, s) == MaskToSize(v, s)
  {
    LoadIsBytes(Store(m, a, v, s), a, s);
    StoredBytes(m, a, v, Bytes(s));
    SpanIsRange(s);
  }

  /** No byte of one access is a byte of the other. */
  ghost predicate Disjoint(a: U64, s: OpSize, b: U64, t: OpSize) {
    forall x: U64 :: !(Covers(a, Bytes(s), x) && Covers(b, Bytes(t), x))
  }

  lemma {:induction false} SameBytes(m: Mem, m': Mem, a: U64, n: nat)
    requires n < TWO64 && forall x: U64 :: Covers(a, n, x) ==> AgreeAt(m, m', x)
    ensures LoadBytes(m, a, n) == LoadBytes(m', a, n)
    decreases n
  {
    if n > 0 {
      assert Covers(a, n, a);
      forall x: U64 | Covers(Wrap(a + 1), n - 1, x) ensures AgreeAt(m, m', x) {
        BehindNext(a, n - 1);
        NextOffset(a, x);
        assert Covers(a, n, x);
      }
      SameBytes(m, m', Wrap(a + 1), n - 1);
    }
  }

  /** A store elsewhere leaves a load alone. */
  lemma LoadElsewhere(m: Mem, a: U64, s: OpSize, b: U64, v: U64, t: OpSize)
    requires Disjoint(a, s, b, t)
    ensures Load(Store(m, b, v, t), a, s) == Load(m, a, s)
  {
    forall x: U64 | Covers(a, Bytes(s), x) ensures AgreeAt(Store(m, b, v, t), m, x) {
      StoreOutside(m, b, v, Bytes(t), x);
    }
    SameBytes(Store(m, b, v, t), m, a, Bytes(s));
  }

  // ------------------------------------------------------------------
  // Guest registers.
  // ------------------------------------------------------------------

  /** A register write sets the low part and keeps the rest, except that a 32-bit write
      clears it. */
  lemma MergedParts(prev: U64, v: U64, s: OpSize)
    ensures MaskToSize(MergeReg(prev, v, s), s) == MaskToSize(v, s)
    ensures MergeReg(prev, v, s) / Range(s) == if s.I8? || s.I16? then prev / Range(s) else 0
  {
    match s
    case I8 => ModUnique(MergeReg(prev, v, s), 0x100, prev / 0x100, v % 0x100);
    case I16 => ModUnique(MergeReg(prev, v, s), 0x1_0000, prev / 0x1_0000, v % 0x1_0000);
    case I32 => ModUnique(MergeReg(prev, v, s), TWO32, 0, v % TWO32);
    case I64 => ModUnique(v, TWO64, 0, v);
  }

  // ------------------------------------------------------------------
  // In the IR.
  // ------------------------------------------------------------------

  /** A load right after a store through the same ref at the same size binds the stored
      value. */
  lemma StoreThenLoad(st: State, a: Ref, v: Ref, r: Ref, s: OpSize)
    requires st.ctl.Running?
    ensures Step(Stmt(Some(r), LoadMem(a, s)), Step(Stmt(None, StoreMem(a, v, s)), st)).Val(r)
         == MaskToSize(st.Val(v), s)
  {
    LoadStored(st.mem, st.Val(a), st.Val(v), s);
  }

  /** The TSO forms are no different. */
  lemma TsoIsPlain(st: State, a: Ref, v: Ref, r: Option<Ref>, s: OpSize)
    ensures Step(Stmt(r, LoadMemTSO(a, s)), st) == Step(Stmt(r, LoadMem(a, s)), st)
    ensures Step(Stmt(None, StoreMemTSO(a, v, s)), st) == Step(Stmt(None, StoreMem(a, v, s)), st)
  {
  }

  /** Likewise for a guest register. */
  lemma WriteThenRead(st: State, g: Gpr, v: Ref, r: Ref, s: OpSize)
    requires st.ctl.Running?
    ensures Step(Stmt(Some(r), LoadReg(g, s)), Step(Stmt(None, StoreReg(g, v, s)), st)).Val(r)
         == MaskToSize(st.Val(v), s)
  {
    MergedParts(st.regs[g], st.Val(v), s);
  }

  /** A matched exchange leaves the new value, a failed one the old; either way the old
      value comes back. */
  lemma ExchangeThenLoad(st: State, a: Ref, e: Ref, n: Ref, r: Ref, s: OpSize)
    requires st.ctl.Running?
    ensures var st1 := Step(Stmt(Some(r), AtomicCmpxchg(a, e, n, s)), st);
            var old' := Load(st.mem, st.Val(a), s);
            && st1.Val(r) == old'
            && Load(st1.mem, st.Val(a), s)
               == if old' == MaskToSize(st.Val(e), s) then MaskToSize(st.Val(n), s) else old'
  {
    LoadStored(st.mem, st.Val(a), st.Val(n), s);
  }

  /** In a valid list the very value stored can be loaded again. */
  lemma ValidStoreKeeps(stmts: seq<Stmt>, i: nat, st: State)
    requires i < |stmts| && V.Valid(stmts) && Run(stmts[..i], st).ctl.Running? && stmts[i].op.StoreMem?
    ensures var st0, op := Run(stmts[..i], st), stmts[i].op;
            Load(Step(stmts[i], st0).mem, st0.Val(op.addr), op.size) == st0.Val(op.src)
  {
    var st0, op := Run(stmts[..i], st), stmts[i].op;
    V.ValidIsWhole(stmts, i, st);
    LoadStored(st0.mem, st0.Val(op.addr), st0.Val(op.src), op.size);
    SmallMod(st0.Val(op.src), Range(op.size));
  }
}
