/** The machine code that sets NZCV at the operand width, and compare-and-exchange. */
module FlagCode {
  import opened Words
  import opened Arith
  import opened Scalar
  import opened Conditions
  import opened Arm
  import BitPermute

  // ------------------------------------------------------------------
  // Narrow operands are shifted up to the top of the word.
  // ------------------------------------------------------------------

  function AlignTemps(s: OpSize): nat { if s.I64? then 0 else 3 }

  function AlignCode(s: OpSize, rl: Reg, rr: Reg, ts: seq<Reg>): seq<Instr>
    requires |ts| == AlignTemps(s)
  {
    if s.I64? then []
    else [MovImm(ts[2], 64 - BitWidth(s)), Op3(ALsl, ts[0], rl, ts[2]), Op3(ALsl, ts[1], rr, ts[2])]
  }

  function AlignedLeft(s: OpSize, rl: Reg, ts: seq<Reg>): Reg
    requires |ts| == AlignTemps(s)
  {
    if s.I64? then rl else ts[0]
  }

  function AlignedRight(s: OpSize, rr: Reg, ts: seq<Reg>): Reg
    requires |ts| == AlignTemps(s)
  {
    if s.I64? then rr else ts[1]
  }

  ghost predicate Loose(ts: seq<Reg>, ops: set<Reg>) {
    && (forall i, j :: 0 <= i < j < |ts| ==> ts[i] != ts[j])
    && (forall i :: 0 <= i < |ts| ==> ts[i] !in ops)
  }

  function Of(ts: seq<Reg>): set<Reg> { set t | t in ts }

  lemma ShiftIsAlign(v: U64, s: OpSize)
    ensures !s.I64? ==> AluValue(ALsl, v, 64 - BitWidth(s)) == Align(v, s)
    ensures s.I64? ==> Align(v, s) == v
  {
    Pow2Values();
    if s.I64? { WrapSmall(v); } else { SmallMod(64 - BitWidth(s), 64); }
  }

  lemma AlignRuns(s: OpSize, rl: Reg, rr: Reg, ts: seq<Reg>, m: Mach) returns (m1: Mach)
    requires |ts| == AlignTemps(s) && !m.halted && Loose(ts, {rl, rr})
    ensures Does(AlignCode(s, rl, rr, ts), m, m1) && KeepsFlags(m, m1, Of(ts))
    ensures m1.x[AlignedLeft(s, rl, ts)] == Align(m.x[rl], s)
    ensures m1.x[AlignedRight(s, rr, ts)] == Align(m.x[rr], s)
  {
    ShiftIsAlign(m.x[rl], s);
    ShiftIsAlign(m.x[rr], s);
    if s.I64? {
      m1 := m;
      DoesNothing(m);
    } else {
      var code := AlignCode(s, rl, rr, ts);
      var a := Exec(code[0], m);
      var b := Exec(code[1], a);
      m1 := Exec(code[2], b);
      GetsHere(code, 3, m1);
      GetsStep(code, 2, b, 3, m1);
      GetsStep(code, 1, a, 3, m1);
      GetsStep(code, 0, m, 3, m1);
    }
  }

  // ------------------------------------------------------------------
  // Setting the flags.
  // ------------------------------------------------------------------

  /** The kinds flags can be taken from. */
  predicate SetsFlags(k: BinOpKind) { k.Sub? || k.Add? || k.And_? || k.Or_? || k.Xor_? }

  function SetCode(k: BinOpKind, fl: Reg, fr: Reg, t: Reg): seq<Instr>
    requires SetsFlags(k)
  {
    match k
    case Sub => [Cmp(fl, fr)]
    case Add => [Adds(t, fl, fr)]
    case And_ => [Ands(t, fl, fr)]
    case Or_ => [Op3(AOrr, t, fl, fr), Ands(t, t, t)]
    case Xor_ => [Op3(AEor, t, fl, fr), Ands(t, t, t)]
  }

  lemma SetRuns(k: BinOpKind, fl: Reg, fr: Reg, t: Reg, m: Mach) returns (m1: Mach)
    requires SetsFlags(k) && !m.halted
    ensures Does(SetCode(k, fl, fr, t), m, m1) && Keeps(m, m1, if k.Sub? then {} else {t})
    ensures m1.f == AluFlagsValue(k, m.x[fl], m.x[fr])
  {
    if k.Or_? || k.Xor_? {
      var i := Op3(if k.Or_? then AOrr else AEor, t, fl, fr);
      BitPermute.AndSelf(Exec(i, m).x[t]);
      m1 := Exec(Ands(t, t, t), Exec(i, m));
      DoesTwo(i, Ands(t, t, t), m);
    } else {
      var i := SetCode(k, fl, fr, t)[0];
      m1 := Exec(i, m);
      DoesOne(i, m);
      assert SetCode(k, fl, fr, t) == [i];
    }
  }

  function FlagTemps(k: BinOpKind): nat { if k.Sub? then 0 else 1 }

  /** Align, then set. */
  function FlagsCode(k: BinOpKind, s: OpSize, rl: Reg, rr: Reg, ts: seq<Reg>, t: Reg): seq<Instr>
    requires SetsFlags(k) && |ts| == AlignTemps(s)
  {
    AlignCode(s, rl, rr, ts) + SetCode(k, AlignedLeft(s, rl, ts), AlignedRight(s, rr, ts), t)
  }

  lemma FlagsRuns(k: BinOpKind, s: OpSize, rl: Reg, rr: Reg, ts: seq<Reg>, t: Reg, m: Mach) returns (m1: Mach)
    requires SetsFlags(k) && |ts| == AlignTemps(s) && !m.halted && Loose(ts, {rl, rr})
    ensures Does(FlagsCode(k, s, rl, rr, ts, t), m, m1)
    ensures Keeps(m, m1, Of(ts) + if k.Sub? then {} else {t})
    ensures m1.f == AluFlagsValue(k, Align(m.x[rl], s), Align(m.x[rr], s))
  {
    var fl, fr := AlignedLeft(s, rl, ts), AlignedRight(s, rr, ts);
    var a := AlignRuns(s, rl, rr, ts, m);
    m1 := SetRuns(k, fl, fr, t, a);
    DoesThen(AlignCode(s, rl, rr, ts), SetCode(k, fl, fr, t), m, a, m1);
  }

  // ------------------------------------------------------------------
  // Compare and exchange.
  // ------------------------------------------------------------------

  /** After the comparison: leave if it failed, else store, and back if the store was lost. */
  function CasTail(s: OpSize, nv: Reg, addr: Reg, status: Reg, back: int): seq<Instr> {
    [Bcc(Ne, 4), Rare(Stlxr(status, nv, addr, s)), Cbnz(status, back), B(2), Nop]
  }

  function CasHead(s: OpSize, prev: Reg, expected: Reg, addr: Reg, ts: seq<Reg>): seq<Instr>
    requires |ts| == AlignTemps(s)
  {
    [Ldr(prev, addr, s)] + FlagsCode(Sub, s, prev, expected, ts, prev)
  }

  function CasCode(s: OpSize, prev: Reg, expected: Reg, nv: Reg, addr: Reg, status: Reg, ts: seq<Reg>): seq<Instr>
    requires |ts| == AlignTemps(s)
  {
    var head := CasHead(s, prev, expected, addr, ts);
    head + CasTail(s, nv, addr, status, -(|head| + 2))
  }

  /** The store that is lost: back to the start, nothing but the status changed. */
  lemma TailRetries(s: OpSize, nv: Reg, addr: Reg, status: Reg, back: int, m: Mach) returns (m1: Mach)
    requires !m.halted && m.f.z && m.fails > 0
    ensures Gets(CasTail(s, nv, addr, status, back), 0, m, 2 + back, m1)
    ensures Keeps(m, m1.(fails := m.fails), {status}) && m1.fails == m.fails - 1
  {
    var code := CasTail(s, nv, addr, status, back);
    m1 := Exec(code[1], m);
    GetsHere(code, 2 + back, m1);
    GetsStep(code, 2, m1, 2 + back, m1);
    GetsStep(code, 1, m, 2 + back, m1);
    GetsStep(code, 0, m, 2 + back, m1);
  }

  lemma TailRuns(s: OpSize, nv: Reg, addr: Reg, status: Reg, back: int, m: Mach) returns (m1: Mach)
    requires !m.halted && (m.f.z ==> m.fails == 0)
    ensures Does(CasTail(s, nv, addr, status, back), m, m1)
    ensures forall r: Reg :: r != status ==> m1.x[r] == m.x[r]
    ensures m1.mem == (if m.f.z then Store(m.mem, m.x[addr], m.x[nv], s) else m.mem)
    ensures !m1.halted && m1.frame == m.frame
  {
    var code := CasTail(s, nv, addr, status, back);
    if m.f.z {
      m1 := Exec(code[1], m);
      GetsHere(code, 5, m1);
      GetsStep(code, 3, m1, 5, m1);
      GetsStep(code, 2, m1, 5, m1);
      GetsStep(code, 1, m, 5, m1);
      GetsStep(code, 0, m, 5, m1);
    } else {
      m1 := m;
      GetsHere(code, 5, m);
      GetsStep(code, 4, m, 5, m);
      GetsStep(code, 0, m, 5, m);
    }
  }

  lemma EqualAtWidth(a: U64, b: U64, s: OpSize)
    ensures SubFlags(Align(a, s), Align(b, s)).z <==> MaskToSize(a, s) == MaskToSize(b, s)
  {
    ConditionAtWidth(Eq, a, b, s);
  }

  lemma HeadRuns(s: OpSize, prev: Reg, expected: Reg, addr: Reg, ts: seq<Reg>, m: Mach) returns (m1: Mach)
    requires |ts| == AlignTemps(s) && !m.halted && prev != expected && Loose(ts, {prev, expected})
    ensures Does(CasHead(s, prev, expected, addr, ts), m, m1) && Keeps(m, m1, Of(ts) + {prev})
    ensures m1.x[prev] == Load(m.mem, m.x[addr], s)
    ensures m1.f.z <==> MaskToSize(m1.x[prev], s) == MaskToSize(m.x[expected], s)
  {
    var a := Exec(Ldr(prev, addr, s), m);
    DoesOne(Ldr(prev, addr, s), m);
    m1 := FlagsRuns(Sub, s, prev, expected, ts, prev, a);
    DoesThen([Ldr(prev, addr, s)], FlagsCode(Sub, s, prev, expected, ts, prev), m, a, m1);
    EqualAtWidth(a.x[prev], m.x[expected], s);
    LooseOut(ts, {prev, expected});
  }

  /** What a compare-and-exchange leaves. */
  ghost predicate Exchanged(s: OpSize, prev: Reg, expected: Reg, nv: Reg, addr: Reg, ws: set<Reg>, m: Mach, m1: Mach) {
    && (forall r: Reg :: r !in ws + {prev} ==> m1.x[r] == m.x[r])
    && m1.x[prev] == Load(m.mem, m.x[addr], s) && !m1.halted && m1.frame == m.frame
    && m1.mem == (if MaskToSize(m1.x[prev], s) == MaskToSize(m.x[expected], s)
                  then Store(m.mem, m.x[addr], m.x[nv], s) else m.mem)
  }

  /** The old value, and the new one stored exactly if the old was as expected, however
      many stores lose their reservation first. */
  lemma {:induction false} CasRuns(s: OpSize, prev: Reg, expected: Reg, nv: Reg, addr: Reg, status: Reg, ts: seq<Reg>,
                                   m: Mach) returns (m1: Mach)
    requires |ts| == AlignTemps(s) && !m.halted && prev !in {expected, nv, addr}
    requires status !in {prev, expected, nv, addr}
    requires Loose(ts, {prev, expected, nv, addr, status})
    ensures Does(CasCode(s, prev, expected, nv, addr, status, ts), m, m1)
    ensures Exchanged(s, prev, expected, nv, addr, Of(ts) + {status}, m, m1)
    decreases m.fails
  {
    var b := HeadRuns(s, prev, expected, addr, ts, m);
    LooseOut(ts, {prev, expected, nv, addr, status});
    if b.f.z && b.fails > 0 {
      var c := CasRetries(s, prev, expected, nv, addr, status, ts, m, b);
      m1 := CasRuns(s, prev, expected, nv, addr, status, ts, c);
      var code := CasCode(s, prev, expected, nv, addr, status, ts);
      GetsTrans(code, 0, m, 0, c, |code|, m1);
      RetryKeeps(s, prev, expected, nv, addr, Of(ts) + {status}, m, c, m1);
    } else {
      m1 := CasFinishes(s, prev, expected, nv, addr, status, ts, m, b);
    }
  }

  /** What an attempt leaves that loses its store. */
  ghost predicate Retried(prev: Reg, ws: set<Reg>, m: Mach, c: Mach) {
    && (forall r: Reg :: r !in ws + {prev} ==> c.x[r] == m.x[r])
    && c.mem == m.mem && c.frame == m.frame && !c.halted && c.fails < m.fails
  }

  lemma CasRetries(s: OpSize, prev: Reg, expected: Reg, nv: Reg, addr: Reg, status: Reg, ts: seq<Reg>, m: Mach, b: Mach)
    returns (c: Mach)
    requires |ts| == AlignTemps(s) && !m.halted && Does(CasHead(s, prev, expected, addr, ts), m, b)
    requires Keeps(m, b, Of(ts) + {prev}) && b.f.z && b.fails > 0
    ensures Gets(CasCode(s, prev, expected, nv, addr, status, ts), 0, m, 0, c) && Retried(prev, Of(ts) + {status}, m, c)
  {
    var head := CasHead(s, prev, expected, addr, ts);
    var back := -(|head| + 2);
    c := TailRetries(s, nv, addr, status, back, b);
    GoesBack(head, CasTail(s, nv, addr, status, back), m, b, c, back);
  }

  lemma CasFinishes(s: OpSize, prev: Reg, expected: Reg, nv: Reg, addr: Reg, status: Reg, ts: seq<Reg>,
                    m: Mach, b: Mach) returns (m1: Mach)
    requires |ts| == AlignTemps(s) && !m.halted && Does(CasHead(s, prev, expected, addr, ts), m, b)
    requires Keeps(m, b, Of(ts) + {prev}) && b.x[prev] == Load(m.mem, m.x[addr], s) && (b.f.z ==> b.fails == 0)
    requires b.f.z <==> MaskToSize(b.x[prev], s) == MaskToSize(m.x[expected], s)
    requires prev !in {expected, nv, addr} && status !in {prev, expected, nv, addr}
    requires Of(ts) !! {prev, expected, nv, addr, status}
    ensures Does(CasCode(s, prev, expected, nv, addr, status, ts), m, m1)
    ensures Exchanged(s, prev, expected, nv, addr, Of(ts) + {status}, m, m1)
  {
    var head := CasHead(s, prev, expected, addr, ts);
    var back := -(|head| + 2);
    m1 := TailRuns(s, nv, addr, status, back, b);
    DoesThen(head, CasTail(s, nv, addr, status, back), m, b, m1);
  }

  /** A lost store leaves everything the next attempt reads. */
  lemma RetryKeeps(s: OpSize, prev: Reg, expected: Reg, nv: Reg, addr: Reg, ws: set<Reg>, m: Mach, c: Mach, m1: Mach)
    requires Retried(prev, ws, m, c) && prev !in {expected, nv, addr} && ws !! {expected, nv, addr}
    requires Exchanged(s, prev, expected, nv, addr, ws, c, m1)
    ensures Exchanged(s, prev, expected, nv, addr, ws, m, m1)
  {
  }

  /** Through the head and back from the tail to the start. */
  lemma GoesBack(head: seq<Instr>, tail: seq<Instr>, m: Mach, b: Mach, c: Mach, back: int)
    requires Does(head, m, b) && Gets(tail, 0, b, 2 + back, c) && back == -(|head| + 2)
    ensures Gets(head + tail, 0, m, 0, c)
  {
    GetsWithin([], head, tail, 0, m, |head|, b);
    GetsWithin(head, tail, [], 0, b, 2 + back, c);
    assert [] + head + tail == head + tail && head + tail + [] == head + tail;
    GetsTrans(head + tail, 0, m, |head|, b, 0, c);
  }

  lemma LooseOut(ts: seq<Reg>, ops: set<Reg>)
    requires Loose(ts, ops)
    ensures Of(ts) !! ops
  {
  }
}
