/** `copy_propagate`: uses of `dst` in `dst = x | x` become uses of `x`. */
module CopyProp {
  import opened Words
  import opened Arith
  import opened Scalar
  import opened Ir
  import opened Validate

  type Alias = map<Ref, Ref>

  function Sub(a: Alias, r: Ref): Ref { if r in a then a[r] else r }

  function SubOpt(a: Alias, r: Option<Ref>): Option<Ref> {
    if r.Some? then Some(Sub(a, r.value)) else None
  }

  /** Every operand replaced; definitions stay. */
  function Substituted(op: Op, a: Alias): Op {
    match op
    case StoreReg(g, v, s) => StoreReg(g, Sub(a, v), s)
    case BinOp(k, l, r, s) => BinOp(k, Sub(a, l), Sub(a, r), s)
    case WideDiv(h, l, d, sg, w) => WideDiv(Sub(a, h), Sub(a, l), Sub(a, d), sg, w)
    case Compare(cc, l, r, s) => Compare(cc, Sub(a, l), Sub(a, r), s)
    case Select(cc, t, f, s) => Select(cc, Sub(a, t), Sub(a, f), s)
    case Extend(v, f, t, sg) => Extend(Sub(a, v), f, t, sg)
    case Truncate(v, t) => Truncate(Sub(a, v), t)
    case LoadMem(p, s) => LoadMem(Sub(a, p), s)
    case StoreMem(p, v, s) => StoreMem(Sub(a, p), Sub(a, v), s)
    case LoadMemTSO(p, s) => LoadMemTSO(Sub(a, p), s)
    case StoreMemTSO(p, v, s) => StoreMemTSO(Sub(a, p), Sub(a, v), s)
    case AtomicCmpxchg(p, e, n, s) => AtomicCmpxchg(Sub(a, p), Sub(a, e), Sub(a, n), s)
    case AtomicCmpxchgPair(p, el, eh, nl, nh, oh) =>
      AtomicCmpxchgPair(Sub(a, p), Sub(a, el), Sub(a, eh), Sub(a, nl), Sub(a, nh), oh)
    case StoreRflagsFromNzcv(c, pf, af) => StoreRflagsFromNzcv(c, SubOpt(a, pf), SubOpt(a, af))
    case CmpFlags(l, r, s) => CmpFlags(Sub(a, l), Sub(a, r), s)
    case AluFlags(k, l, r, s) => AluFlags(k, Sub(a, l), Sub(a, r), s)
    case WriteFlagsCountZero(v, c, s) => WriteFlagsCountZero(Sub(a, v), Sub(a, c), s)
    case CondJump(c, t, f) => CondJump(Sub(a, c), t, f)
    case JumpReg(t) => JumpReg(Sub(a, t))
    case _ => op
  }

  ghost predicate SameOn(rs: seq<Ref>, a: Alias, b: Alias) {
    forall i :: 0 <= i < |rs| ==> Sub(a, rs[i]) == Sub(b, rs[i])
  }

  predicate ManyOperands(op: Op) {
    op.WideDiv? || op.AtomicCmpxchg? || op.AtomicCmpxchgPair? || op.StoreRflagsFromNzcv?
  }

  lemma FewAgree(op: Op, a: Alias, b: Alias)
    requires !ManyOperands(op) && SameOn(Operands(op), a, b)
    ensures Substituted(op, a) == Substituted(op, b)
  {
    var rs := Operands(op);
    assert |rs| > 0 ==> Sub(a, rs[0]) == Sub(b, rs[0]);
    assert |rs| > 1 ==> Sub(a, rs[1]) == Sub(b, rs[1]);
  }

  lemma ManyAgree(op: Op, a: Alias, b: Alias)
    requires ManyOperands(op) && SameOn(Operands(op), a, b)
    ensures Substituted(op, a) == Substituted(op, b)
  {
    var rs := Operands(op);
    assert |rs| > 0 ==> Sub(a, rs[0]) == Sub(b, rs[0]);
    assert |rs| > 1 ==> Sub(a, rs[1]) == Sub(b, rs[1]);
    assert |rs| > 2 ==> Sub(a, rs[2]) == Sub(b, rs[2]);
    assert |rs| > 4 ==> Sub(a, rs[3]) == Sub(b, rs[3]) && Sub(a, rs[4]) == Sub(b, rs[4]);
  }

  /** Only what the map says about the operands matters. */
  lemma SubstitutedAgree(op: Op, a: Alias, b: Alias)
    requires forall r :: r in Operands(op) ==> Sub(a, r) == Sub(b, r)
    ensures Substituted(op, a) == Substituted(op, b)
  {
    if ManyOperands(op) { ManyAgree(op, a, b); } else { FewAgree(op, a, b); }
  }

  predicate IsCopy(s: Stmt) { s.result.Some? && s.op.BinOp? && s.op.kind.Or_? && s.op.lhs == s.op.rhs }

  function Rewritten(a: Alias, s: Stmt): Stmt { Stmt(s.result, Substituted(s.op, a)) }

  /** What a rewritten statement adds. */
  function Noted(a: Alias, s: Stmt): Alias { if IsCopy(s) then a[s.result.value := s.op.lhs] else a }

  function Learned(a: Alias, s: Stmt): Alias { Noted(a, Rewritten(a, s)) }

  function AliasAt(stmts: seq<Stmt>, n: nat): Alias
    requires n <= |stmts|
  {
    if n == 0 then map[] else Learned(AliasAt(stmts, n - 1), stmts[n - 1])
  }

  // ------------------------------------------------------------------
  // Soundness of one statement.
  // ------------------------------------------------------------------

  /** Aliases join declared refs of one size and never chain. */
  ghost predicate Flat(a: Alias, c: Ctx) {
    forall r :: r in a ==> r in c && a[r] in c && a[r] !in a && c[r] == c[a[r]]
  }

  ghost predicate Aliased(a: Alias, st: State) {
    forall r :: r in a ==> st.Val(r) == st.Val(a[r])
  }

  lemma SubVal(a: Alias, st: State, r: Ref)
    requires Aliased(a, st)
    ensures st.Val(Sub(a, r)) == st.Val(r)
  {
  }

  lemma SubVals(a: Alias, st: State)
    requires Aliased(a, st)
    ensures forall r {:trigger Sub(a, r)} :: st.Val(Sub(a, r)) == st.Val(r)
  {
    forall r {:trigger Sub(a, r)} ensures st.Val(Sub(a, r)) == st.Val(r) { SubVal(a, st, r); }
  }

  lemma SameResult(a: Alias, op: Op, st: State)
    requires Aliased(a, st)
    ensures ResultOf(Substituted(op, a), st) == ResultOf(op, st)
  {
    SubVals(a, st);
  }

  lemma SameDivision(a: Alias, op: Op, st: State)
    requires Aliased(a, st) && op.WideDiv?
    ensures Effect(Substituted(op, a), st) == Effect(op, st)
  {
    SubVal(a, st, op.high);
    SubVal(a, st, op.low);
    SubVal(a, st, op.divisor);
  }

  lemma SameFlags(a: Alias, op: Op, st: State)
    requires Aliased(a, st) && (op.Compare? || op.CmpFlags? || op.AluFlags?)
    ensures Effect(Substituted(op, a), st) == Effect(op, st)
  {
    SubVal(a, st, op.lhs);
    SubVal(a, st, op.rhs);
  }

  lemma SameExchange(a: Alias, op: Op, st: State)
    requires Aliased(a, st) && op.AtomicCmpxchg?
    ensures Effect(Substituted(op, a), st) == Effect(op, st)
  {
    SubVal(a, st, op.addr);
    SubVal(a, st, op.expected);
    SubVal(a, st, op.newValue);
  }

  lemma SamePairExchange(a: Alias, op: Op, st: State)
    requires Aliased(a, st) && op.AtomicCmpxchgPair?
    ensures Effect(Substituted(op, a), st) == Effect(op, st)
  {
    var op1 := Substituted(op, a);
    SubVal(a, st, op.addr);
    SubVal(a, st, op.expectedLow);
    SubVal(a, st, op.expectedHigh);
    SubVal(a, st, op.newLow);
    SubVal(a, st, op.newHigh);
    assert CmpxchgPairMem(st.mem, st.Val(op1.addr), st.Val(op1.expectedLow), st.Val(op1.expectedHigh),
                          st.Val(op1.newLow), st.Val(op1.newHigh))
        == CmpxchgPairMem(st.mem, st.Val(op.addr), st.Val(op.expectedLow), st.Val(op.expectedHigh),
                          st.Val(op.newLow), st.Val(op.newHigh));
  }

  lemma SameEffect(a: Alias, op: Op, st: State)
    requires Aliased(a, st)
    ensures Effect(Substituted(op, a), st) == Effect(op, st)
  {
    if op.WideDiv? {
      SameDivision(a, op, st);
    } else if op.Compare? || op.CmpFlags? || op.AluFlags? {
      SameFlags(a, op, st);
    } else if op.AtomicCmpxchg? {
      SameExchange(a, op, st);
    } else if op.AtomicCmpxchgPair? {
      SamePairExchange(a, op, st);
    } else {
      SubVals(a, st);
    }
  }

  lemma RewrittenStep(a: Alias, s: Stmt, st: State)
    requires Aliased(a, st)
    ensures Step(Rewritten(a, s), st) == Step(s, st)
  {
    SameResult(a, s.op, st);
    SameEffect(a, s.op, st);
  }

  lemma AliasedKept(a: Alias, c: Ctx, s: Stmt, st: State)
    requires Aliased(a, st) && Flat(a, c) && DefsOk(c, s)
    ensures Aliased(a, Step(s, st))
  {
    forall r | r in a ensures Step(s, st).Val(r) == Step(s, st).Val(a[r]) {
      StepKeeps(s, st, r);
      StepKeeps(s, st, a[r]);
    }
  }

  /** A copy of a value that fits the copy's size is that value. */
  lemma CopyKeeps(c: Ctx, s: Stmt, st: State)
    requires StmtOk(c, s) && IsCopy(s) && Typed(c, st) && st.ctl.Running?
    ensures Step(s, st).Val(s.result.value) == Step(s, st).Val(s.op.lhs)
  {
    var x := s.op.lhs;
    assert x in Operands(s.op);
    OrSelf(st.Val(x));
    MaskFits(st.Val(x), s.op.size);
    StepKeeps(s, st, x);
  }

  lemma MaskFits(v: U64, s: OpSize)
    requires v < Range(s)
    ensures MaskToSize(v, s) == v
  {
  }

  lemma AliasedNoted(a: Alias, c: Ctx, s: Stmt, st: State)
    requires Aliased(a, st) && Flat(a, c) && StmtOk(c, s) && Typed(c, st) && st.ctl.Running?
    ensures Aliased(Noted(a, s), Step(s, st))
  {
    AliasedKept(a, c, s, st);
    if IsCopy(s) { CopyKeeps(c, s, st); }
  }

  lemma SubSize(a: Alias, c: Ctx, r: Ref)
    requires Flat(a, c) && r in c
    ensures Sub(a, r) in c && c[Sub(a, r)] == c[r] && Sub(a, r) !in a
  {
  }

  /** An operand of the rewritten op stands in for one in the same role. */
  ghost predicate StandsIn(a: Alias, op: Op, r': Ref, r: Ref) {
    r in Operands(op) && Sub(a, r) == r' && RequiredSize(Substituted(op, a), r') == RequiredSize(op, r)
  }

  lemma FewFrom(a: Alias, op: Op, r': Ref) returns (r: Ref)
    requires r' in Operands(Substituted(op, a)) && !ManyOperands(op)
    ensures StandsIn(a, op, r', r)
  {
    r := 0;
    match op
    case BinOp(_, l, x, _) => r := Pick(a, r', x, l);
    case Compare(_, l, x, _) => r := Pick(a, r', l, x);
    case Select(_, t, f, _) => r := Pick(a, r', t, f);
    case StoreMem(p, v, _) => r := Pick(a, r', v, p);
    case StoreMemTSO(p, v, _) => r := Pick(a, r', v, p);
    case CmpFlags(l, x, _) => r := Pick(a, r', l, x);
    case AluFlags(_, l, x, _) => r := Pick(a, r', l, x);
    case WriteFlagsCountZero(v, n, _) => r := Pick(a, r', v, n);
    case StoreReg(_, v, _) => r := v;
    case Extend(v, _, _, _) => r := v;
    case Truncate(v, _) => r := v;
    case LoadMem(p, _) => r := p;
    case LoadMemTSO(p, _) => r := p;
    case CondJump(c, _, _) => r := c;
    case JumpReg(t) => r := t;
    case _ => assert false;
  }

  lemma ManyFrom(a: Alias, op: Op, r': Ref) returns (r: Ref)
    requires r' in Operands(Substituted(op, a)) && ManyOperands(op)
    ensures StandsIn(a, op, r', r)
  {
    match op
    case WideDiv(h, l, d, _, _) => r := Pick(a, r', h, Pick(a, r', l, d));
    case AtomicCmpxchg(p, e, n, _) => r := Pick(a, r', p, Pick(a, r', e, n));
    case AtomicCmpxchgPair(p, el, eh, nl, nh, _) =>
      r := Pick(a, r', p, Pick(a, r', el, Pick(a, r', eh, Pick(a, r', nl, nh))));
    case StoreRflagsFromNzcv(_, pf, af) =>
      r := if pf.Some? && Sub(a, pf.value) == r' then pf.value else af.value;
  }

  lemma OperandFrom(a: Alias, op: Op, r': Ref) returns (r: Ref)
    requires r' in Operands(Substituted(op, a))
    ensures StandsIn(a, op, r', r)
    ensures op.StoreReg? ==> r == op.src && Substituted(op, a).src == r' && Substituted(op, a).size == op.size
  {
    if ManyOperands(op) { r := ManyFrom(a, op, r'); } else { r := FewFrom(a, op, r'); }
  }

  function Pick(a: Alias, r': Ref, x: Ref, y: Ref): Ref { if Sub(a, x) == r' then x else y }

  lemma SubstitutedOperandOk(a: Alias, c: Ctx, op: Op, r': Ref)
    requires OperandsOk(c, op) && Flat(a, c) && r' in Operands(Substituted(op, a))
    ensures r' in c && OperandOk(Substituted(op, a), r', c[r'])
  {
    var r := OperandFrom(a, op, r');
    SubSize(a, c, r);
    assert OperandOk(op, r, c[r]);
    SameConstructor(op, a);
  }

  lemma SameConstructor(op: Op, a: Alias)
    ensures Substituted(op, a).StoreReg? <==> op.StoreReg?
    ensures Pure(Substituted(op, a)) == Pure(op) && IsCas(Substituted(op, a)) == IsCas(op)
    ensures ResultSize(Substituted(op, a)) == ResultSize(op)
    ensures Substituted(op, a).AtomicCmpxchgPair? <==> op.AtomicCmpxchgPair?
    ensures op.AtomicCmpxchgPair? ==> Substituted(op, a).oldHigh == op.oldHigh
  {
  }

  lemma RewrittenOk(a: Alias, c: Ctx, s: Stmt)
    requires StmtOk(c, s) && Flat(a, c)
    ensures StmtOk(c, Rewritten(a, s)) && Declare(c, Rewritten(a, s)) == Declare(c, s)
  {
    var op1 := Substituted(s.op, a);
    forall r' | r' in Operands(op1) ensures r' in c && OperandOk(op1, r', c[r']) {
      SubstitutedOperandOk(a, c, s.op, r');
    }
    SameConstructor(s.op, a);
  }

  lemma FlatNoted(a: Alias, c: Ctx, s: Stmt, s1: Stmt)
    requires StmtOk(c, s) && Flat(a, c) && s1 == Rewritten(a, s) && StmtOk(c, s1)
    ensures Flat(Noted(a, s1), Declare(c, s))
  {
    DeclareKeys(c, s);
    if IsCopy(s1) {
      assert s1.op.lhs in Operands(s1.op) && s.op.lhs in Operands(s.op);
      SubSize(a, c, s.op.lhs);
    }
  }

  // ------------------------------------------------------------------
  // The pass. Following aliases ends on every list, valid or not: a new alias
  // always points at the end of a chain.
  // ------------------------------------------------------------------

  predicate IsRoot(a: Alias, r: Ref) { r !in a || a[r] == r }

  ghost predicate Descends(a: Alias, rank: Ref -> nat) {
    forall r :: r in a && a[r] != r ==> rank(a[r]) < rank(r)
  }

  lemma DescendsNoted(a: Alias, rank: Ref -> nat, r: Ref, x: Ref) returns (rank1: Ref -> nat)
    requires Descends(a, rank) && IsRoot(a, x)
    ensures Descends(a[r := x], rank1)
  {
    rank1 := y => if y == x then 0 else rank(y) + 1;
  }

  method Resolve(a: Alias, r: Ref, ghost rank: Ref -> nat) returns (x: Ref)
    requires Descends(a, rank)
    ensures IsRoot(a, x)
    ensures IsRoot(a, Sub(a, r)) ==> x == Sub(a, r)
  {
    x := r;
    while x in a && a[x] != x
      invariant IsRoot(a, Sub(a, r)) ==> x == r || x == Sub(a, r)
      decreases rank(x)
    {
      x := a[x];
    }
  }

  /** The operands of an op with every alias followed to its end. */
  method RewriteOp(op: Op, a: Alias, ghost rank: Ref -> nat) returns (op1: Op, ghost sub: Alias)
    requires Descends(a, rank)
    ensures op1 == Substituted(op, sub) && forall r :: r in Operands(op) ==> IsRoot(a, Sub(sub, r))
    ensures (forall r :: r in Operands(op) ==> IsRoot(a, Sub(a, r))) ==> op1 == Substituted(op, a)
  {
    var ops := Operands(op);
    var m: Alias := map[];
    for i := 0 to |ops|
      invariant forall j :: 0 <= j < i ==> ops[j] in m
      invariant forall r :: r in m ==> IsRoot(a, m[r]) && (IsRoot(a, Sub(a, r)) ==> m[r] == Sub(a, r))
    {
      var x := Resolve(a, ops[i], rank);
      m := m[ops[i] := x];
    }
    op1, sub := Substituted(op, m), m;
    if forall r :: r in Operands(op) ==> IsRoot(a, Sub(a, r)) { SubstitutedAgree(op, m, a); }
  }

  lemma CopyRoot(a: Alias, sub: Alias, res: Option<Ref>, op: Op)
    requires forall r :: r in Operands(op) ==> IsRoot(a, Sub(sub, r))
    requires IsCopy(Stmt(res, Substituted(op, sub)))
    ensures IsRoot(a, Substituted(op, sub).lhs)
  {
    assert op.lhs in Operands(op);
  }

  lemma RootsOf(a: Alias, c: Ctx, s: Stmt)
    requires Flat(a, c) && StmtOk(c, s)
    ensures forall r :: r in Operands(s.op) ==> IsRoot(a, Sub(a, r))
  {
    forall r | r in Operands(s.op) ensures IsRoot(a, Sub(a, r)) { SubSize(a, c, r); }
  }

  method CopyStatement(a0: Alias, s: Stmt, ghost rank0: Ref -> nat, ghost c: Ctx)
    returns (s1: Stmt, a: Alias, ghost rank: Ref -> nat)
    requires Descends(a0, rank0)
    ensures Descends(a, rank) && s1.result == s.result
    ensures Flat(a0, c) && StmtOk(c, s) ==> s1 == Rewritten(a0, s) && a == Learned(a0, s)
  {
    rank := rank0;
    var op1;
    ghost var sub;
    op1, sub := RewriteOp(s.op, a0, rank0);
    s1, a := Stmt(s.result, op1), a0;
    if Flat(a0, c) && StmtOk(c, s) { RootsOf(a0, c, s); }
    if IsCopy(s1) {
      CopyRoot(a0, sub, s.result, s.op);
      rank := DescendsNoted(a0, rank0, s1.result.value, s1.op.lhs);
      a := a0[s1.result.value := s1.op.lhs];
    }
  }

  lemma {:induction false} FlatAt(stmts: seq<Stmt>, n: nat)
    requires n <= |stmts| && Valid(stmts)
    ensures Flat(AliasAt(stmts, n), CtxAt(stmts, n))
    decreases n
  {
    if n > 0 {
      var a, c, s := AliasAt(stmts, n - 1), CtxAt(stmts, n - 1), stmts[n - 1];
      FlatAt(stmts, n - 1);
      assert OkAt(stmts, n - 1);
      RewrittenOk(a, c, s);
      FlatNoted(a, c, s, Rewritten(a, s));
    }
  }

  // ------------------------------------------------------------------
  // What is replaced, said of the two lists alone.
  // ------------------------------------------------------------------

  /** One of the first `n` statements is `r = x | x`. */
  ghost predicate CopyOf(out: seq<Stmt>, n: nat, r: Ref, x: Ref) {
    exists i :: 0 <= i < n && i < |out| && IsCopy(out[i]) && out[i].result == Some(r) && out[i].op.lhs == x
  }

  /** Operand `r` became `r1`: what it is a copy of, if anything; and that is no copy. */
  ghost predicate Followed(out: seq<Stmt>, n: nat, r: Ref, r1: Ref) {
    (CopyOf(out, n, r, r1) || (r1 == r && forall x :: !CopyOf(out, n, r, x))) && forall x :: !CopyOf(out, n, r1, x)
  }

  ghost predicate FollowedAt(stmts: seq<Stmt>, out: seq<Stmt>, j: nat)
    requires j < |stmts| == |out|
  {
    var rs, rs1 := Operands(stmts[j].op), Operands(out[j].op);
    |rs1| == |rs| && forall k :: 0 <= k < |rs| ==> Followed(out, j, rs[k], rs1[k])
  }

  ghost predicate FollowsAll(stmts: seq<Stmt>, out: seq<Stmt>) {
    |out| == |stmts| && forall j :: 0 <= j < |stmts| ==> FollowedAt(stmts, out, j)
  }

  ghost predicate OperandsFollow(op: Op, a: Alias) {
    var rs, rs1 := Operands(op), Operands(Substituted(op, a));
    |rs1| == |rs| && forall k :: 0 <= k < |rs| ==> rs1[k] == Sub(a, rs[k])
  }

  lemma SubstitutedOperands(op: Op, a: Alias)
    ensures OperandsFollow(op, a)
  {
    if ManyOperands(op) { ManyFollow(op, a); } else { FewFollow(op, a); }
  }

  lemma FewFollow(op: Op, a: Alias)
    requires !ManyOperands(op)
    ensures OperandsFollow(op, a)
  {
  }

  lemma ManyFollow(op: Op, a: Alias)
    requires ManyOperands(op)
    ensures OperandsFollow(op, a)
  {
  }

  /** The output of the pass on a valid list. */
  ghost predicate Propagated(stmts: seq<Stmt>, out: seq<Stmt>) {
    && Valid(stmts) && |out| == |stmts|
    && forall k :: 0 <= k < |stmts| ==> out[k] == Rewritten(AliasAt(stmts, k), stmts[k])
  }

  lemma CopyNext(out: seq<Stmt>, n: nat, r: Ref, x: Ref)
    requires 0 < n <= |out|
    ensures CopyOf(out, n, r, x) <==>
      || CopyOf(out, n - 1, r, x)
      || (IsCopy(out[n - 1]) && out[n - 1].result == Some(r) && out[n - 1].op.lhs == x)
  {
  }

  lemma NotedExact(a: Alias, s: Stmt, r: Ref, x: Ref)
    requires s.result.Some? ==> s.result.value !in a
    ensures r in Noted(a, s) && Noted(a, s)[r] == x <==>
      (r in a && a[r] == x) || (IsCopy(s) && s.result == Some(r) && s.op.lhs == x)
  {
  }

  lemma ResultUnaliased(stmts: seq<Stmt>, n: nat)
    requires n < |stmts| && Valid(stmts)
    ensures stmts[n].result.Some? ==> stmts[n].result.value !in AliasAt(stmts, n)
  {
    FlatAt(stmts, n);
    assert OkAt(stmts, n);
  }

  /** The aliases are the copies in the output. */
  lemma {:induction false} AliasExact(stmts: seq<Stmt>, out: seq<Stmt>, n: nat, r: Ref, x: Ref)
    requires n <= |stmts| && Propagated(stmts, out)
    ensures CopyOf(out, n, r, x) <==> r in AliasAt(stmts, n) && AliasAt(stmts, n)[r] == x
    decreases n
  {
    if n > 0 {
      AliasExact(stmts, out, n - 1, r, x);
      CopyNext(out, n, r, x);
      ResultUnaliased(stmts, n - 1);
      NotedExact(AliasAt(stmts, n - 1), out[n - 1], r, x);
    }
  }

  lemma OperandFollowed(stmts: seq<Stmt>, out: seq<Stmt>, j: nat, r: Ref)
    requires j < |stmts| && Propagated(stmts, out) && r in Operands(stmts[j].op)
    ensures Followed(out, j, r, Sub(AliasAt(stmts, j), r))
  {
    var a := AliasAt(stmts, j);
    FlatAt(stmts, j);
    assert OkAt(stmts, j);
    SubSize(a, CtxAt(stmts, j), r);
    forall x ensures CopyOf(out, j, r, x) <==> r in a && a[r] == x { AliasExact(stmts, out, j, r, x); }
    forall x ensures !CopyOf(out, j, Sub(a, r), x) { AliasExact(stmts, out, j, Sub(a, r), x); }
  }

  lemma AllFollowed(stmts: seq<Stmt>, out: seq<Stmt>)
    requires Propagated(stmts, out)
    ensures FollowsAll(stmts, out)
  {
    forall j | 0 <= j < |stmts| ensures FollowedAt(stmts, out, j) {
      var rs := Operands(stmts[j].op);
      SubstitutedOperands(stmts[j].op, AliasAt(stmts, j));
      forall k | 0 <= k < |rs| ensures Followed(out, j, rs[k], Sub(AliasAt(stmts, j), rs[k])) {
        OperandFollowed(stmts, out, j, rs[k]);
      }
    }
  }

  method CopyPropagate(stmts: seq<Stmt>) returns (out: seq<Stmt>)
    ensures |out| == |stmts| && forall k :: 0 <= k < |stmts| ==> out[k].result == stmts[k].result
    ensures Valid(stmts) ==> forall k :: 0 <= k < |stmts| ==> out[k] == Rewritten(AliasAt(stmts, k), stmts[k])
    ensures Valid(stmts) ==> FollowsAll(stmts, out)
  {
    out := [];
    var a: Alias := map[];
    ghost var rank: Ref -> nat := _ => 0;
    for i := 0 to |stmts|
      invariant |out| == i && Descends(a, rank)
      invariant forall k :: 0 <= k < i ==> out[k].result == stmts[k].result
      invariant Valid(stmts) ==> a == AliasAt(stmts, i)
      invariant Valid(stmts) ==> forall k :: 0 <= k < i ==> out[k] == Rewritten(AliasAt(stmts, k), stmts[k])
    {
      if Valid(stmts) {
        FlatAt(stmts, i);
        assert OkAt(stmts, i);
      }
      var s;
      s, a, rank := CopyStatement(a, stmts[i], rank, CtxAt(stmts, i));
      out := out + [s];
    }
    if Valid(stmts) { AllFollowed(stmts, out); }
  }
}
