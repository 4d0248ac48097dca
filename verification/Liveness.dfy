/** Last uses, and which refs are still wanted. */
module Liveness {
  import opened Words
  import opened Ir

  predicate Mentions(s: Stmt, r: Ref) { r in Defs(s) || r in Operands(s.op) }

  ghost predicate MentionedAt(stmts: seq<Stmt>, i: nat, r: Ref) { i < |stmts| && Mentions(stmts[i], r) }

  /** `lu` knows the last mention of every ref in the first `n` statements. */
  ghost predicate LastMention(stmts: seq<Stmt>, n: nat, lu: map<Ref, nat>, r: Ref) {
    && (r in lu ==> lu[r] < n && MentionedAt(stmts, lu[r], r))
    && forall i: nat :: i < n && MentionedAt(stmts, i, r) ==> r in lu && i <= lu[r]
  }

  ghost predicate LastUses(stmts: seq<Stmt>, n: nat, lu: map<Ref, nat>) {
    forall r: Ref :: LastMention(stmts, n, lu, r)
  }

  /** Raising the last use of the refs in a set. */
  ghost predicate Raised(lu: map<Ref, nat>, lu1: map<Ref, nat>, rs: set<Ref>, i: nat) {
    && lu1.Keys == lu.Keys + rs
    && forall r :: r in lu1 ==> lu1[r] == if r in rs then i else lu[r]
  }

  lemma RaisedMentions(stmts: seq<Stmt>, n: nat, lu: map<Ref, nat>, lu1: map<Ref, nat>, rs: set<Ref>)
    requires n < |stmts| && LastUses(stmts, n, lu) && Raised(lu, lu1, rs, n)
    requires forall r: Ref :: r in rs <==> Mentions(stmts[n], r)
    ensures LastUses(stmts, n + 1, lu1)
  {
    var n1 := n + 1;
    forall r: Ref ensures LastMention(stmts, n1, lu1, r) {
      assert LastMention(stmts, n, lu, r);
      assert MentionedAt(stmts, n, r) <==> r in rs;
    }
  }

  function Listed(rs: seq<Ref>): set<Ref> { set r | r in rs }

  /** One statement: its definitions are seeded, its operands bumped. */
  method Bump(lu: map<Ref, nat>, s: Stmt, i: nat) returns (lu1: map<Ref, nat>)
    requires forall r :: r in lu ==> lu[r] <= i
    ensures Raised(lu, lu1, Defs(s) + Listed(Operands(s.op)), i)
  {
    var seeded := lu;
    if s.result.Some? { seeded := seeded[s.result.value := i]; }
    if s.op.AtomicCmpxchgPair? { seeded := seeded[s.op.oldHigh := i]; }
    lu1 := BumpAll(seeded, Operands(s.op), i);
    RaisedTwice(lu, seeded, lu1, Defs(s), Listed(Operands(s.op)), i);
  }

  lemma RaisedTwice(lu: map<Ref, nat>, lu1: map<Ref, nat>, lu2: map<Ref, nat>, a: set<Ref>, b: set<Ref>, i: nat)
    requires Raised(lu, lu1, a, i) && Raised(lu1, lu2, b, i)
    ensures Raised(lu, lu2, a + b, i)
  {
  }

  lemma RaisedOne(lu: map<Ref, nat>, lu1: map<Ref, nat>, a: set<Ref>, r: Ref, i: nat)
    requires Raised(lu, lu1, a, i) && (r in lu ==> lu[r] <= i)
    ensures Raised(lu, lu1[r := i], a + {r}, i)
    ensures r in lu1 && lu1[r] >= i ==> lu1[r := i] == lu1
  {
  }

  method BumpAll(lu: map<Ref, nat>, ops: seq<Ref>, i: nat) returns (lu1: map<Ref, nat>)
    requires forall r :: r in lu ==> lu[r] <= i
    ensures Raised(lu, lu1, Listed(ops), i)
  {
    lu1 := lu;
    for k := 0 to |ops|
      invariant Raised(lu, lu1, Listed(ops[..k]), i)
    {
      TakeSnoc(ops, k);
      assert Listed(ops[..k + 1]) == Listed(ops[..k]) + {ops[k]};
      RaisedOne(lu, lu1, Listed(ops[..k]), ops[k], i);
      if ops[k] !in lu1 || lu1[ops[k]] < i { lu1 := lu1[ops[k] := i]; }
    }
    TakeAll(ops);
  }

  /** `compute_liveness`. */
  method ComputeLiveness(stmts: seq<Stmt>) returns (lu: map<Ref, nat>)
    ensures LastUses(stmts, |stmts|, lu)
  {
    lu := map[];
    for n := 0 to |stmts|
      invariant LastUses(stmts, n, lu)
    {
      assert forall r :: r in lu ==> LastMention(stmts, n, lu, r);
      var lu1 := Bump(lu, stmts[n], n);
      RaisedMentions(stmts, n, lu, lu1, Defs(stmts[n]) + Listed(Operands(stmts[n].op)));
      lu := lu1;
    }
  }
}
