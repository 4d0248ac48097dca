/** REP re-entry (Intel SDM Vol. 2B chapter 4, REP): clamped hops repeated until
    the exit PC is the one after the instruction do what the unclamped loop does. */
module RepHops {
  import opened Words
  import opened Scalar
  import opened Ir
  import opened RepLoops

  /** One dispatch hop of a string-loop op. */
  function Hop(op: Op, st: State): State
    requires op.RepStos? || op.RepMovs?
  {
    Step(Stmt(None, op), st.(ctl := Running))
  }

  function HopsOf(op: Op, st: State, n: nat): State
    requires op.RepStos? || op.RepMovs?
    decreases n
  {
    if n == 0 then st else HopsOf(op, Hop(op, st), n - 1)
  }

  /** The whole loop at once, as the processor manual describes it. */
  function Unclamped(op: Op, st: State): State
    requires op.RepStos? || op.RepMovs?
  {
    if op.RepStos? then
      var (m, rdi) := StosLoop(st.mem, st.regs[RDI], st.regs[RAX], st.regs[RCX], op.size, op.reverse);
      st.(mem := m, regs := st.regs[RCX := 0][RDI := rdi], ctl := Exit(op.pcAfterRep))
    else
      var (m, rsi, rdi) := MovsLoop(st.mem, st.regs[RSI], st.regs[RDI], st.regs[RCX], op.size, op.reverse);
      st.(mem := m, regs := st.regs[RCX := 0][RSI := rsi][RDI := rdi], ctl := Exit(op.pcAfterRep))
  }

  lemma HopStos(op: Op, st: State)
    requires op.RepStos?
    ensures var k := RepIters(st.regs[RCX], op.size);
            var (m, rdi) := StosLoop(st.mem, st.regs[RDI], st.regs[RAX], k, op.size, op.reverse);
            Hop(op, st) == st.(mem := m, regs := st.regs[RCX := st.regs[RCX] - k][RDI := rdi],
                               ctl := RepExit(st.regs[RCX] - k, op.pcOfRep, op.pcAfterRep))
  {
  }

  lemma HopMovs(op: Op, st: State)
    requires op.RepMovs?
    ensures var k := RepIters(st.regs[RCX], op.size);
            var (m, rsi, rdi) := MovsLoop(st.mem, st.regs[RSI], st.regs[RDI], k, op.size, op.reverse);
            Hop(op, st) == st.(mem := m, regs := st.regs[RCX := st.regs[RCX] - k][RSI := rsi][RDI := rdi],
                               ctl := RepExit(st.regs[RCX] - k, op.pcOfRep, op.pcAfterRep))
  {
  }

  /** A hop that finishes is the whole loop; one that does not leaves the rest. */
  lemma HopSplits(op: Op, st: State)
    requires op.RepStos? || op.RepMovs?
    ensures var k := RepIters(st.regs[RCX], op.size);
            var st1 := Hop(op, st);
            && st1.regs[RCX] == st.regs[RCX] - k
            && Unclamped(op, st1) == Unclamped(op, st)
            && (k == st.regs[RCX] ==> st1 == Unclamped(op, st))
            && (k < st.regs[RCX] ==> st1.ctl == Exit(op.pcOfRep))
  {
    var n := st.regs[RCX];
    var k := RepIters(n, op.size);
    if op.RepStos? {
      HopStos(op, st);
      StosCompose(st.mem, st.regs[RDI], st.regs[RAX], k, n - k, op.size, op.reverse);
    } else {
      HopMovs(op, st);
      MovsCompose(st.mem, st.regs[RSI], st.regs[RDI], k, n - k, op.size, op.reverse);
    }
  }

  /** The dispatcher: hops again while the op asks to be entered again. */
  function Dispatch(op: Op, st: State): State
    requires op.RepStos? || op.RepMovs?
    decreases st.regs[RCX], st
  {
    var st1 := Hop(op, st);
    HopSplits(op, st);
    HopBound(st.regs[RCX], op.size);
    if st1.ctl == Exit(op.pcAfterRep) || st1.regs[RCX] == 0 then st1 else Dispatch(op, st1)
  }

  /** Every count, size and direction: re-entered hops are the whole loop, and
      need exactly ceil(RCX / cap) of them. */
  lemma {:induction false} HopsAreLoop(op: Op, st: State)
    requires op.RepStos? || op.RepMovs?
    ensures HopsOf(op, st, Hops(st.regs[RCX], RepCap(op.size))) == Unclamped(op, st)
    decreases st.regs[RCX], st
  {
    var n := st.regs[RCX];
    HopSplits(op, st);
    HopBound(n, op.size);
    var st1 := Hop(op, st);
    if n > RepCap(op.size) { HopsAreLoop(op, st1); }
    else { assert HopsOf(op, st1, 0) == st1; }
  }

  /** Before the last hop the exit is always back to the op itself. */
  lemma {:induction false} HopsComeBack(op: Op, st: State, i: nat)
    requires op.RepStos? || op.RepMovs?
    requires 0 < i < Hops(st.regs[RCX], RepCap(op.size))
    ensures HopsOf(op, st, i).ctl == Exit(op.pcOfRep)
    decreases i
  {
    HopSplits(op, st);
    HopBound(st.regs[RCX], op.size);
    var st1 := Hop(op, st);
    if i == 1 { assert HopsOf(op, st1, 0) == st1; }
    else { HopsComeBack(op, st1, i - 1); }
  }

  /** The dispatcher runs the whole loop exactly when the two exits can be told
      apart or one hop is enough. */
  lemma {:induction false} DispatchExact(op: Op, st: State)
    requires op.RepStos? || op.RepMovs?
    ensures Dispatch(op, st) == Unclamped(op, st)
      <==> op.pcOfRep != op.pcAfterRep || st.regs[RCX] <= RepCap(op.size)
    decreases st.regs[RCX], st
  {
    var n := st.regs[RCX];
    HopSplits(op, st);
    HopBound(n, op.size);
    var st1 := Hop(op, st);
    if n > RepCap(op.size) {
      if op.pcOfRep != op.pcAfterRep { DispatchExact(op, st1); }
      else { assert Unclamped(op, st).regs[RCX] == 0; }
    }
  }
}
