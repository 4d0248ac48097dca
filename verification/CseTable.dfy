/** The available-expression table that the local and the global CSE share, and
    the one-step facts both proofs rest on. */
module CseTable {
  import opened Words
  import opened Arith
  import opened Scalar
  import opened Ir

  datatype Key = Key(kind: BinOpKind, lhs: Ref, rhs: Ref, size: OpSize)
  type Table = map<Key, Ref>

  predicate IsFlushing(op: Op) {
    || op.StoreReg? || op.StoreMem? || op.StoreMemTSO?
    || op.AtomicCmpxchg? || op.AtomicCmpxchgPair? || op.StoreRflagsFromNzcv?
    || op.CmpFlags? || op.AluFlags? || op.WriteFlagsCountZero?
  }

  predicate IsKeyed(s: Stmt) { s.op.BinOp? && s.result.Some? }

  function KeyOf(s: Stmt): Key
    requires IsKeyed(s)
  {
    Key(s.op.kind, s.op.lhs, s.op.rhs, s.op.size)
  }

  /** The statement with a repeated expression replaced by a copy of the ref
      that already holds it. */
  function Rewritten(seen: Table, s: Stmt): Stmt {
    if IsKeyed(s) && KeyOf(s) in seen
    then s.(op := BinOp(Or_, seen[KeyOf(s)], seen[KeyOf(s)], s.op.size))
    else s
  }

  function Extended(seen: Table, s: Stmt): Table {
    if IsFlushing(s.op) then map[]
    else if IsKeyed(s) && KeyOf(s) !in seen then seen[KeyOf(s) := s.result.value]
    else seen
  }

  /** The table after the first `n` statements. */
  function TableAt(seen: Table, stmts: seq<Stmt>, n: nat): Table
    requires n <= |stmts|
  {
    if n == 0 then seen else Extended(TableAt(seen, stmts, n - 1), stmts[n - 1])
  }

  /** Every statement rewritten under the table that reaches it. */
  function RewriteAll(seen: Table, stmts: seq<Stmt>): seq<Stmt> {
    seq(|stmts|, i requires 0 <= i < |stmts| => Rewritten(TableAt(seen, stmts, i), stmts[i]))
  }

  /** One statement of that loop. */
  method CseOne(seen0: Table, s: Stmt) returns (s1: Stmt, seen: Table)
    ensures s1 == Rewritten(seen0, s) && seen == Extended(seen0, s)
  {
    s1, seen := s, seen0;
    if IsFlushing(s.op) {
      seen := map[];
    } else if IsKeyed(s) {
      var key := KeyOf(s);
      if key in seen {
        s1 := Stmt(s.result, BinOp(Or_, seen[key], seen[key], s.op.size));
      } else {
        seen := seen[key := s.result.value];
      }
    }
  }

  /** The loop both passes run over one statement list. */
  method CseStatements(seen0: Table, stmts: seq<Stmt>) returns (out: seq<Stmt>, seen: Table)
    ensures out == RewriteAll(seen0, stmts) && seen == TableAt(seen0, stmts, |stmts|)
    ensures seen0 == map[] ==> Eliminates(stmts, out)
  {
    out, seen := [], seen0;
    for i := 0 to |stmts|
      invariant |out| == i && seen == TableAt(seen0, stmts, i)
      invariant forall k :: 0 <= k < i ==> out[k] == Rewritten(TableAt(seen0, stmts, k), stmts[k])
    {
      var s;
      s, seen := CseOne(seen, stmts[i]);
      out := out + [s];
    }
    if seen0 == map[] { AllEliminated(stmts); }
  }

  // ------------------------------------------------------------------
  // What is eliminated, said of the list alone.
  // ------------------------------------------------------------------

  /** Nothing from `i` up to `j` flushes. */
  ghost predicate Quiet(stmts: seq<Stmt>, i: nat, j: nat) {
    forall f :: i <= f < j && f < |stmts| ==> !IsFlushing(stmts[f].op)
  }

  /** Statement `i` computes `op` into a ref, and that still counts at `j`. */
  ghost predicate Recalls(stmts: seq<Stmt>, i: nat, j: nat, op: Op) {
    i < j && i < |stmts| && op.BinOp? && stmts[i].op == op && stmts[i].result.Some? && Quiet(stmts, i, j)
  }

  /** It is the first to do so. */
  ghost predicate Originates(stmts: seq<Stmt>, i: nat, j: nat, op: Op) {
    Recalls(stmts, i, j, op) && forall h: nat :: h < i ==> !Recalls(stmts, h, j, op)
  }

  lemma {:induction false} SomeOriginates(stmts: seq<Stmt>, i: nat, j: nat, op: Op) returns (o: nat)
    requires Recalls(stmts, i, j, op)
    ensures o <= i && Originates(stmts, o, j, op)
    decreases i
  {
    if Originates(stmts, i, j, op) { return i; }
    var h: nat :| h < i && Recalls(stmts, h, j, op);
    o := SomeOriginates(stmts, h, j, op);
  }

  function CopyFrom(s: Stmt, r: Ref): Stmt
    requires s.op.BinOp?
  {
    s.(op := BinOp(Or_, r, r, s.op.size))
  }

  /** What becomes of statement `j`: a copy of the first ref that holds its value since the
      last flush, or itself if there is none. */
  ghost function Cleaned(stmts: seq<Stmt>, j: nat): Stmt
    requires j < |stmts|
  {
    if stmts[j].result.Some? && exists i: nat :: Originates(stmts, i, j, stmts[j].op)
    then var i: nat :| Originates(stmts, i, j, stmts[j].op); CopyFrom(stmts[j], stmts[i].result.value)
    else stmts[j]
  }

  /** All repeated expressions are eliminated, and nothing else changes. */
  ghost predicate Eliminates(stmts: seq<Stmt>, out: seq<Stmt>) { EliminatesFrom(stmts, 0, out) }

  /** `out` is what elimination in `all` leaves of its statements from `n` on. */
  ghost predicate EliminatesFrom(all: seq<Stmt>, n: nat, out: seq<Stmt>) {
    n + |out| == |all| && forall j :: 0 <= j < |out| ==> out[j] == Cleaned(all, n + j)
  }

  /** So a repeated expression is always eliminated, and nothing else is touched. */
  lemma CleanedExact(stmts: seq<Stmt>, i: nat, j: nat)
    requires j < |stmts| && stmts[j].result.Some?
    ensures Originates(stmts, i, j, stmts[j].op) ==> Cleaned(stmts, j) == CopyFrom(stmts[j], stmts[i].result.value)
    ensures Recalls(stmts, i, j, stmts[j].op) ==> exists o: nat :: o <= i && Originates(stmts, o, j, stmts[j].op)
    ensures (forall h: nat :: !Recalls(stmts, h, j, stmts[j].op)) ==> Cleaned(stmts, j) == stmts[j]
  {
    if Recalls(stmts, i, j, stmts[j].op) {
      var o := SomeOriginates(stmts, i, j, stmts[j].op);
    }
  }

  function OpOf(k: Key): Op { BinOp(k.kind, k.lhs, k.rhs, k.size) }

  lemma RecallsNext(stmts: seq<Stmt>, i: nat, n: nat, op: Op)
    requires n < |stmts|
    ensures Recalls(stmts, i, n + 1, op) <==>
      !IsFlushing(stmts[n].op) && (Recalls(stmts, i, n, op)
                                   || (i == n && op.BinOp? && stmts[n].op == op && stmts[n].result.Some?))
  {
  }

  /** The table knows an expression exactly if some statement since the last flush
      computed it ... */
  ghost predicate Knows(stmts: seq<Stmt>, n: nat, k: Key, seen: Table) {
    k in seen <==> exists i: nat :: Recalls(stmts, i, n, OpOf(k))
  }

  /** ... and with the first such ref. */
  ghost predicate KnowsFirst(stmts: seq<Stmt>, n: nat, k: Key, seen: Table) {
    forall i: nat :: Originates(stmts, i, n, OpOf(k)) ==> k in seen && seen[k] == stmts[i].result.value
  }

  lemma KnowsNext(stmts: seq<Stmt>, n: nat, k: Key, seen: Table)
    requires n < |stmts| && Knows(stmts, n, k, seen)
    ensures Knows(stmts, n + 1, k, Extended(seen, stmts[n]))
  {
    if k in Extended(seen, stmts[n]) {
      if k in seen {
        var i: nat :| Recalls(stmts, i, n, OpOf(k));
        RecallsNext(stmts, i, n, OpOf(k));
      } else {
        RecallsNext(stmts, n, n, OpOf(k));
      }
    }
    var n1 := n + 1;
    if i: nat :| Recalls(stmts, i, n1, OpOf(k)) {
      RecallsNext(stmts, i, n, OpOf(k));
    }
  }

  lemma OriginBefore(stmts: seq<Stmt>, i: nat, n: nat, k: Key, seen: Table)
    requires n < |stmts| && Originates(stmts, i, n + 1, OpOf(k)) && Knows(stmts, n, k, seen)
    requires KnowsFirst(stmts, n, k, seen)
    ensures k in Extended(seen, stmts[n]) && Extended(seen, stmts[n])[k] == stmts[i].result.value
  {
    RecallsNext(stmts, i, n, OpOf(k));
    forall h: nat ensures Recalls(stmts, h, n, OpOf(k)) ==> Recalls(stmts, h, n + 1, OpOf(k)) {
      RecallsNext(stmts, h, n, OpOf(k));
    }
    if i < n { assert Originates(stmts, i, n, OpOf(k)); }
  }

  lemma KnowsFirstNext(stmts: seq<Stmt>, n: nat, k: Key, seen: Table)
    requires n < |stmts| && Knows(stmts, n, k, seen) && KnowsFirst(stmts, n, k, seen)
    ensures KnowsFirst(stmts, n + 1, k, Extended(seen, stmts[n]))
  {
    var n1, seen1 := n + 1, Extended(seen, stmts[n]);
    forall i: nat | Originates(stmts, i, n1, OpOf(k)) ensures k in seen1 && seen1[k] == stmts[i].result.value {
      OriginBefore(stmts, i, n, k, seen);
    }
  }

  lemma {:induction false} TableExact(stmts: seq<Stmt>, n: nat, k: Key, seen: Table)
    requires n <= |stmts| && seen == TableAt(map[], stmts, n)
    ensures Knows(stmts, n, k, seen) && KnowsFirst(stmts, n, k, seen)
    decreases n
  {
    if n > 0 {
      var before := TableAt(map[], stmts, n - 1);
      TableExact(stmts, n - 1, k, before);
      KnowsNext(stmts, n - 1, k, before);
      KnowsFirstNext(stmts, n - 1, k, before);
    }
  }

  lemma RewrittenIsCleaned(stmts: seq<Stmt>, j: nat, s: Stmt)
    requires j < |stmts| && s == Rewritten(TableAt(map[], stmts, j), stmts[j])
    ensures s == Cleaned(stmts, j)
  {
    if IsKeyed(stmts[j]) {
      var k, seen := KeyOf(stmts[j]), TableAt(map[], stmts, j);
      TableExact(stmts, j, k, seen);
      assert OpOf(k) == stmts[j].op;
      if k in seen {
        var h: nat :| Recalls(stmts, h, j, stmts[j].op);
        var o := SomeOriginates(stmts, h, j, stmts[j].op);
      }
    }
  }

  lemma AllEliminated(stmts: seq<Stmt>)
    ensures Eliminates(stmts, RewriteAll(map[], stmts))
  {
    forall j | 0 <= j < |stmts| ensures RewriteAll(map[], stmts)[j] == Cleaned(stmts, j) {
      RewrittenIsCleaned(stmts, j, RewriteAll(map[], stmts)[j]);
    }
  }

  /** The op does something besides binding refs; flags that come with a compared value
      do not count. */
  predicate Writes(op: Op, st: State) {
    var st1 := Effect(op, st);
    st1.regs != st.regs || st1.mem != st.mem || st1.rflags != st.rflags || (st1.flags != st.flags && !op.Compare?)
  }

  function Blank(r: Rflags): State {
    State(map[], seq(16, i => 1), map[], Nzcv(true, true, true, true), r, Running)
  }

  lemma {:induction false} StoreAdds(m: Mem, a: U64, v: nat, n: nat)
    ensures m.Keys <= StoreBytes(m, a, v, n).Keys && (n > 0 ==> a in StoreBytes(m, a, v, n))
    decreases n
  {
    if n > 0 { StoreAdds(m[a := v % 256], Wrap(a + 1), v / 256, n - 1); }
  }

  lemma {:induction false} LoadNothing(a: U64, n: nat)
    ensures LoadBytes(map[], a, n) == 0
    decreases n
  {
    if n > 0 { LoadNothing(Wrap(a + 1), n - 1); }
  }

  lemma SizedAccess(m: Mem, a: U64, v: U64, s: OpSize)
    ensures Store(m, a, v, s) != map[] && Load(map[], a, s) == 0
  {
    LoadNothing(a, Bytes(s));
    StoreAdds(m, a, v, Bytes(s));
  }

  lemma PairWrites(op: Op, st: State)
    requires op.AtomicCmpxchgPair? && st.env == map[] && st.mem == map[]
    ensures Effect(op, st).mem != map[]
  {
    SizedAccess(map[], 0, 0, I64);
    SizedAccess(Store(map[], 0, 0, I64), 8, 0, I64);
  }

  lemma StoreWrites(op: Op, st: State)
    requires (op.StoreMem? || op.StoreMemTSO?) && st.env == map[] && st.mem == map[]
    ensures Effect(op, st).mem != map[]
  {
    SizedAccess(map[], 0, 0, op.size);
  }

  lemma ExchangeWrites(op: Op, st: State)
    requires op.AtomicCmpxchg? && st.env == map[] && st.mem == map[]
    ensures Effect(op, st).mem != map[]
  {
    SizedAccess(map[], 0, 0, op.size);
    SmallMod(0, Range(op.size));
  }

  /** Exactly the ops that write somewhere and go on flush the table. */
  lemma FlushingExact(op: Op)
    ensures IsFlushing(op) <==> exists st: State :: st.ctl.Running? && Writes(op, st) && Effect(op, st).ctl.Running?
  {
    if IsFlushing(op) {
      var set', clear := Rflags(true, true, true, true, true, true), Rflags(false, false, false, false, false, false);
      var st := Blank(if op.StoreRflagsFromNzcv? then clear else set');
      if op.StoreReg? { assert Effect(op, st).regs[op.reg] == MergeReg(1, 0, op.size) != st.regs[op.reg]; }
      else if op.AtomicCmpxchgPair? { PairWrites(op, st); }
      else if op.AtomicCmpxchg? { ExchangeWrites(op, st); }
      else if op.StoreMem? || op.StoreMemTSO? { StoreWrites(op, st); }
      assert Writes(op, st) && Effect(op, st).ctl.Running?;
    }
  }

  // ------------------------------------------------------------------
  // Meaning of a table.
  // ------------------------------------------------------------------

  function KeyValue(k: Key, st: State): U64 {
    MaskToSize(EvalBinOp(k.kind, st.Val(k.lhs), st.Val(k.rhs)), k.size)
  }

  /** Each listed ref holds the value of its expression. */
  ghost predicate Holds(seen: Table, st: State) {
    forall k :: k in seen ==> st.Val(seen[k]) == KeyValue(k, st)
  }

  predicate Mentions(k: Key, t: Ref, r: Ref) { r == t || r == k.lhs || r == k.rhs }

  /** The statement rebinds nothing that the table talks about, and does not
      read the ref it defines. */
  ghost predicate Fresh(seen: Table, s: Stmt) {
    && (forall k, r :: k in seen && r in Defs(s) ==> !Mentions(k, seen[k], r))
    && (IsKeyed(s) ==> s.result.value != s.op.lhs && s.result.value != s.op.rhs)
  }

  /** A copy `t | t` of a value that is already masked is that value. */
  lemma CopyValue(v: U64, w: U64, size: OpSize)
    requires v == MaskToSize(w, size)
    ensures MaskToSize(EvalBinOp(Or_, v, v), size) == v
  {
    OrSelf(v);
    SmallMod(v, Range(size));
  }

  lemma RewrittenStep(seen: Table, s: Stmt, st: State)
    requires Holds(seen, st)
    ensures Step(Rewritten(seen, s), st) == Step(s, st)
  {
    if IsKeyed(s) && KeyOf(s) in seen {
      var k := KeyOf(s);
      var t := seen[k];
      CopyValue(st.Val(t), EvalBinOp(k.kind, st.Val(k.lhs), st.Val(k.rhs)), k.size);
    }
  }

  lemma ExtendedHolds(seen: Table, s: Stmt, st: State)
    requires Holds(seen, st) && Fresh(seen, s) && st.ctl.Running? && Step(s, st).ctl.Running?
    ensures Holds(Extended(seen, s), Step(s, st))
  {
    var st1 := Step(s, st);
    if IsFlushing(s.op) { return; }
    forall k | k in seen ensures st1.Val(seen[k]) == KeyValue(k, st1) {
      KeyKept(seen, s, st, k);
    }
    if IsKeyed(s) && KeyOf(s) !in seen {
      StepKeeps(s, st, s.op.lhs);
      StepKeeps(s, st, s.op.rhs);
      assert st1.Val(s.result.value) == KeyValue(KeyOf(s), st1);
    }
  }

  lemma KeyKept(seen: Table, s: Stmt, st: State, k: Key)
    requires Holds(seen, st) && Fresh(seen, s) && k in seen
    ensures Step(s, st).Val(seen[k]) == KeyValue(k, Step(s, st))
  {
    assert Mentions(k, seen[k], seen[k]) && Mentions(k, seen[k], k.lhs) && Mentions(k, seen[k], k.rhs);
    StepKeeps(s, st, seen[k]);
    StepKeeps(s, st, k.lhs);
    StepKeeps(s, st, k.rhs);
  }

  ghost predicate FreshAt(seen: Table, stmts: seq<Stmt>, i: nat) {
    i < |stmts| ==> Fresh(TableAt(seen, stmts, i), stmts[i])
  }

  ghost predicate FreshUpTo(seen: Table, stmts: seq<Stmt>, n: nat) {
    forall i: nat :: i < n ==> FreshAt(seen, stmts, i)
  }

  ghost predicate TableOk(seen: Table, stmts: seq<Stmt>, i: nat, s: State) {
    i <= |stmts| && (s.ctl.Running? ==> Holds(TableAt(seen, stmts, i), s))
  }

  lemma TableTurn(seen: Table, stmts: seq<Stmt>, i: nat, s: State)
    requires i < |stmts| && FreshAt(seen, stmts, i) && TableOk(seen, stmts, i, s)
    ensures Step(RewriteAll(seen, stmts)[i], s) == Step(stmts[i], s)
    ensures TableOk(seen, stmts, i + 1, Step(stmts[i], s))
  {
    OneMore(TableAt(seen, stmts, i), stmts[i], s);
  }

  lemma {:induction false} RewriteRunsUpTo(seen: Table, stmts: seq<Stmt>, n: nat, st: State)
    requires n <= |stmts| && Holds(seen, st) && FreshUpTo(seen, stmts, |stmts|)
    ensures Run(RewriteAll(seen, stmts)[..n], st) == Run(stmts[..n], st)
    ensures TableOk(seen, stmts, n, Run(stmts[..n], st))
    decreases n
  {
    if n > 0 {
      RewriteRunsUpTo(seen, stmts, n - 1, st);
      RunTake(stmts, n, st);
      RunTake(RewriteAll(seen, stmts), n, st);
      assert FreshAt(seen, stmts, n - 1);
      TableTurn(seen, stmts, n - 1, Run(stmts[..n - 1], st));
    }
  }

  /** The rewritten statements do what the originals do. */
  lemma RewriteRuns(seen: Table, stmts: seq<Stmt>, st: State)
    requires Holds(seen, st) && FreshUpTo(seen, stmts, |stmts|)
    ensures Run(RewriteAll(seen, stmts), st) == Run(stmts, st)
    ensures Run(stmts, st).ctl.Running? ==> Holds(TableAt(seen, stmts, |stmts|), Run(stmts, st))
  {
    RewriteRunsUpTo(seen, stmts, |stmts|, st);
    TakeAll(stmts);
    TakeAll(RewriteAll(seen, stmts));
  }

  lemma {:induction false} TablePrefix(seen: Table, stmts: seq<Stmt>, n: nat, i: nat)
    requires i <= n <= |stmts|
    ensures TableAt(seen, stmts[..n], i) == TableAt(seen, stmts, i)
    decreases i
  {
    if i > 0 { TablePrefix(seen, stmts, n, i - 1); }
  }

  /** A table carried on over a second list. */
  lemma {:induction false} TableAppend(seen: Table, xs: seq<Stmt>, ys: seq<Stmt>, all: seq<Stmt>, n: nat, m: nat)
    requires n <= |ys| && all == xs + ys && m == |xs| + n
    ensures TableAt(seen, all, m) == TableAt(TableAt(seen, xs, |xs|), ys, n)
    decreases n
  {
    if n == 0 {
      TablePrefix(seen, all, |xs|, |xs|);
      assert all[..|xs|] == xs;
    } else {
      TableAppend(seen, xs, ys, all, n - 1, m - 1);
      assert all[m - 1] == ys[n - 1];
    }
  }

  lemma CarriedOn(xs: seq<Stmt>, ys: seq<Stmt>, all: seq<Stmt>, seen: Table)
    requires all == xs + ys && seen == TableAt(map[], xs, |xs|)
    ensures TableAt(map[], all, |all|) == TableAt(seen, ys, |ys|)
  {
    TableAppend(map[], xs, ys, all, |ys|, |all|);
  }

  lemma AppendedCleaned(before: seq<Stmt>, stmts: seq<Stmt>, seen: Table, j: nat, all: seq<Stmt>, n: nat, s: Stmt)
    requires j < |stmts| && all == before + stmts && n == |before| + j
    requires seen == TableAt(map[], before, |before|) && s == Rewritten(TableAt(seen, stmts, j), stmts[j])
    ensures s == Cleaned(all, n)
  {
    TableAppend(map[], before, stmts, all, j, n);
    assert all[n] == stmts[j];
    RewrittenIsCleaned(all, n, s);
  }

  /** `out` is `stmts` rewritten under the table that `before` leaves. */
  ghost predicate Continues(before: seq<Stmt>, stmts: seq<Stmt>, seen: Table, all: seq<Stmt>, out: seq<Stmt>) {
    && seen == TableAt(map[], before, |before|) && all == before + stmts
    && |out| == |stmts| && out == RewriteAll(seen, stmts)
  }

  lemma TailAt(before: seq<Stmt>, stmts: seq<Stmt>, seen: Table, all: seq<Stmt>, out: seq<Stmt>, j: nat, n: nat)
    requires Continues(before, stmts, seen, all, out) && j < |out| && n == |before| + j < |all|
    ensures out[j] == Cleaned(all, n)
  {
    AppendedCleaned(before, stmts, seen, j, all, n, out[j]);
  }

  lemma TailEliminated(before: seq<Stmt>, stmts: seq<Stmt>, seen: Table, all: seq<Stmt>, out: seq<Stmt>)
    requires Continues(before, stmts, seen, all, out)
    ensures EliminatesFrom(all, |before|, out)
  {
    var n := |before|;
    forall j | 0 <= j < |out| ensures out[j] == Cleaned(all, n + j) {
      TailAt(before, stmts, seen, all, out, j, n + j);
    }
  }

  /** So does any prefix. */
  lemma PrefixHolds(seen: Table, stmts: seq<Stmt>, n: nat, st: State)
    requires n <= |stmts| && Holds(seen, st) && FreshUpTo(seen, stmts, n)
    ensures Run(stmts[..n], st).ctl.Running? ==> Holds(TableAt(seen, stmts, n), Run(stmts[..n], st))
  {
    forall i: nat | i < n ensures FreshAt(seen, stmts[..n], i) {
      assert FreshAt(seen, stmts, i);
      TablePrefix(seen, stmts, n, i);
    }
    TablePrefix(seen, stmts, n, n);
    RewriteRuns(seen, stmts[..n], st);
  }

  lemma OneMore(seen: Table, s: Stmt, st: State)
    requires st.ctl.Running? ==> Holds(seen, st)
    requires Fresh(seen, s)
    ensures Step(Rewritten(seen, s), st) == Step(s, st)
    ensures Step(s, st).ctl.Running? ==> Holds(Extended(seen, s), Step(s, st))
  {
    if st.ctl.Running? {
      RewrittenStep(seen, s, st);
      if Step(s, st).ctl.Running? { ExtendedHolds(seen, s, st); }
    }
  }
}
