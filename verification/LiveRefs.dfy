/** Which refs must have a place before each statement. */
module LiveRefs {
  import opened Words
  import opened Ir
  import opened Validate
  import opened Liveness
  import opened Emission
  import opened Pool

  /** The refs a statement gets registers for. */
  function Binds(s: Stmt): set<Ref> { if Yields(s.op) && s.result.Some? then Defs(s) else {} }

  /** A pair's two results are two refs. */
  predicate TwoRefs(s: Stmt) { s.op.AtomicCmpxchgPair? ==> s.result != Some(s.op.oldHigh) }

  function BoundBefore(stmts: seq<Stmt>, n: nat): set<Ref>
    requires n <= |stmts|
  {
    if n == 0 then {} else BoundBefore(stmts, n - 1) + Binds(stmts[n - 1])
  }

  /** Bound earlier and mentioned from here on. */
  function LiveAt(stmts: seq<Stmt>, lu: map<Ref, nat>, n: nat): set<Ref>
    requires n <= |stmts|
  {
    set r | r in BoundBefore(stmts, n) && r in lu && lu[r] >= n
  }

  ghost predicate UniqueAt(stmts: seq<Stmt>, i: nat) {
    i < |stmts| ==> Defs(stmts[i]) !! BoundBefore(stmts, i) && TwoRefs(stmts[i])
  }

  ghost predicate UniqueResults(stmts: seq<Stmt>) { forall i: nat :: UniqueAt(stmts, i) }

  ghost predicate BoundAt(stmts: seq<Stmt>, i: nat) {
    i < |stmts| ==>
      && (Yields(stmts[i].op) ==> stmts[i].result.Some?)
      && forall r :: r in Operands(stmts[i].op) ==> r in BoundBefore(stmts, i)
  }

  /** Results are where they should be and operands are bound before they are used. */
  ghost predicate WellBound(stmts: seq<Stmt>) { forall i: nat :: BoundAt(stmts, i) }

  /** One statement on: its result becomes live, and refs last mentioned there die. */
  lemma LiveNext(stmts: seq<Stmt>, lu: map<Ref, nat>, n: nat, r: Ref)
    requires n < |stmts| && LastUses(stmts, |stmts|, lu)
    ensures r in LiveAt(stmts, lu, n + 1) <==> r in LiveAt(stmts, lu, n) + Binds(stmts[n]) && r in lu && lu[r] > n
  {
    assert LastMention(stmts, |stmts|, lu, r);
    assert r in Binds(stmts[n]) ==> MentionedAt(stmts, n, r);
  }

  /** A live ref whose last mention is this statement is one of its operands. */
  lemma DyingIsOperand(stmts: seq<Stmt>, lu: map<Ref, nat>, n: nat, r: Ref)
    requires n < |stmts| && LastUses(stmts, |stmts|, lu) && UniqueResults(stmts)
    requires r in LiveAt(stmts, lu, n) && lu[r] <= n
    ensures r in Operands(stmts[n].op)
  {
    assert LastMention(stmts, |stmts|, lu, r);
    assert UniqueAt(stmts, n);
    assert MentionedAt(stmts, n, r);
  }

  /** An operand that is bound is live. */
  lemma OperandIsLive(stmts: seq<Stmt>, lu: map<Ref, nat>, n: nat, r: Ref)
    requires n < |stmts| && LastUses(stmts, |stmts|, lu) && r in Operands(stmts[n].op) && r in BoundBefore(stmts, n)
    ensures r in LiveAt(stmts, lu, n)
  {
    assert LastMention(stmts, |stmts|, lu, r);
    assert MentionedAt(stmts, n, r);
  }

  lemma NothingLiveAtEnd(stmts: seq<Stmt>, lu: map<Ref, nat>)
    requires LastUses(stmts, |stmts|, lu)
    ensures LiveAt(stmts, lu, |stmts|) == {}
  {
    var live := LiveAt(stmts, lu, |stmts|);
    forall r: Ref ensures r !in live { assert LastMention(stmts, |stmts|, lu, r); }
  }

  // ------------------------------------------------------------------
  // What a statement asks of the pool.
  // ------------------------------------------------------------------

  /** Bound earlier and mentioned here or later, said of the list alone. */
  ghost function Live(stmts: seq<Stmt>, n: nat): set<Ref>
    requires n <= |stmts|
  {
    set r | r in BoundBefore(stmts, n) && exists j :: n <= j < |stmts| && Mentions(stmts[j], r)
  }

  lemma LiveIsLive(stmts: seq<Stmt>, lu: map<Ref, nat>, n: nat)
    requires n <= |stmts| && LastUses(stmts, |stmts|, lu)
    ensures LiveAt(stmts, lu, n) == Live(stmts, n)
  {
    forall r | r in BoundBefore(stmts, n) ensures r in LiveAt(stmts, lu, n) <==> r in Live(stmts, n) {
      assert LastMention(stmts, |stmts|, lu, r);
      if r in Live(stmts, n) {
        var j :| n <= j < |stmts| && Mentions(stmts[j], r);
        assert MentionedAt(stmts, j, r);
      }
    }
  }

  /** Registers for everything live, for the results and for the rest of the statement. */
  function Demand(s: Stmt, live: set<Ref>): nat { |live + Binds(s)| + TempCount(s.op) }

  /** A result is missing or an operand has no place. */
  predicate Dangles(s: Stmt, live: set<Ref>) {
    (Yields(s.op) && s.result.None?) || exists r :: r in Operands(s.op) && r !in live
  }

  /** Lists that bind before they use never dangle. */
  lemma BoundIsLive(stmts: seq<Stmt>, i: nat)
    requires i < |stmts| && WellBound(stmts)
    ensures !Dangles(stmts[i], Live(stmts, i))
  {
    assert BoundAt(stmts, i);
    forall r | r in Operands(stmts[i].op) ensures r in Live(stmts, i) { assert Mentions(stmts[i], r); }
  }

  /** Nothing stands in the way of lowering the statement. */
  predicate Lowerable(s: Stmt, live: set<Ref>) {
    !Refused(s.op) && !Dangles(s, live) && Demand(s, live) <= POOL_SIZE
  }

  lemma {:induction false} BoundGrows(stmts: seq<Stmt>, m: nat, n: nat)
    requires m <= n <= |stmts|
    ensures BoundBefore(stmts, m) <= BoundBefore(stmts, n)
    decreases n
  {
    if m < n { BoundGrows(stmts, m, n - 1); }
  }

  /** A list with few refs asks for few registers. */
  lemma FewRefsFit(stmts: seq<Stmt>, i: nat)
    requires i < |stmts|
    ensures Demand(stmts[i], Live(stmts, i)) <= |BoundBefore(stmts, |stmts|)| + TempCount(stmts[i].op)
  {
    BoundGrows(stmts, i + 1, |stmts|);
    SubsetSize(Live(stmts, i) + Binds(stmts[i]), BoundBefore(stmts, |stmts|));
  }

  // ------------------------------------------------------------------
  // Validated lists.
  // ------------------------------------------------------------------

  lemma ValuedIsPure(s: Stmt)
    ensures Yields(s.op) <==> Pure(s.op) || IsCas(s.op)
    ensures Yields(s.op) ==> ResultSize(s.op).Some?
    ensures ResultOk(s) ==> Binds(s) == Defs(s) && Placed(s)
  {
  }

  lemma {:induction false} ContextIsBound(stmts: seq<Stmt>, n: nat)
    requires n <= |stmts| && ValidUpTo(stmts, n)
    ensures CtxAt(stmts, n).Keys == BoundBefore(stmts, n)
    decreases n
  {
    if n > 0 {
      ContextIsBound(stmts, n - 1);
      assert OkAt(stmts, n - 1);
      DeclareKeys(CtxAt(stmts, n - 1), stmts[n - 1]);
      ValuedIsPure(stmts[n - 1]);
    }
  }

  /** What the validator accepts is what the lowerer relies on. */
  lemma ValidIsBound(stmts: seq<Stmt>)
    requires Valid(stmts)
    ensures UniqueResults(stmts) && WellBound(stmts) && forall i :: 0 <= i < |stmts| ==> Placed(stmts[i])
  {
    forall i: nat ensures UniqueAt(stmts, i) && BoundAt(stmts, i) && (i < |stmts| ==> Placed(stmts[i])) {
      if i < |stmts| {
        assert OkAt(stmts, i);
        ContextIsBound(stmts, i);
        ValuedIsPure(stmts[i]);
      }
    }
  }
}
