/** String loops element by element: composition, and the bound on one hop. */
module RepLoops {
  import opened Words
  import opened Scalar

  lemma {:induction false} StosCompose(m: Mem, rdi: U64, v: U64, a: nat, b: nat, s: OpSize, reverse: bool)
    ensures var (m1, p1) := StosLoop(m, rdi, v, a, s, reverse);
            StosLoop(m, rdi, v, a + b, s, reverse) == StosLoop(m1, p1, v, b, s, reverse)
    decreases a
  {
    if a > 0 { StosCompose(Store(m, rdi, v, s), Advance(rdi, s, reverse), v, a - 1, b, s, reverse); }
  }

  lemma {:induction false} MovsCompose(m: Mem, rsi: U64, rdi: U64, a: nat, b: nat, s: OpSize, reverse: bool)
    ensures var (m1, p1, q1) := MovsLoop(m, rsi, rdi, a, s, reverse);
            MovsLoop(m, rsi, rdi, a + b, s, reverse) == MovsLoop(m1, p1, q1, b, s, reverse)
    decreases a
  {
    if a > 0 {
      MovsCompose(Store(m, rdi, Load(m, rsi, s), s), Advance(rsi, s, reverse), Advance(rdi, s, reverse),
                  a - 1, b, s, reverse);
    }
  }

  /** A hop does all there is or exactly 16 MiB, so every hop makes progress. */
  lemma HopBound(rcx: U64, s: OpSize)
    ensures RepIters(rcx, s) * Bytes(s) == if rcx * Bytes(s) < 0x100_0000 then rcx * Bytes(s) else 0x100_0000
    ensures rcx > 0 ==> RepIters(rcx, s) > 0
    ensures RepCap(s) > 0
  {
    match s
    case I8 => assert RepCap(s) == 0x100_0000;
    case I16 => assert RepCap(s) == 0x80_0000;
    case I32 => assert RepCap(s) == 0x40_0000;
    case I64 => assert RepCap(s) == 0x20_0000;
  }

  /** How many hops a count takes. */
  function Hops(rcx: nat, cap: nat): nat
    requires cap > 0
  {
    if rcx <= cap then 1 else 1 + Hops(rcx - cap, cap)
  }

  lemma {:induction false} HopsIsCeiling(rcx: nat, cap: nat)
    requires cap > 0 && rcx > 0
    ensures (Hops(rcx, cap) - 1) * cap < rcx <= Hops(rcx, cap) * cap
    decreases rcx
  {
    if rcx > cap {
      HopsIsCeiling(rcx - cap, cap);
      var h := Hops(rcx - cap, cap);
      assert (h + 1) * cap == h * cap + cap && (h - 1) * cap == h * cap - cap;
    }
  }
}
