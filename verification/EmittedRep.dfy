/** The emitted REP STOS / REP MOVS hop does one clamped run of the string loop. */
module EmittedRep {
  import opened Words
  import opened Arith
  import opened Scalar
  import opened Arm

  /** Which string op: source is memory at RSI or the RAX register. */
  datatype Rep = Rep(movs: bool, size: OpSize, reverse: bool, pcOf: U64, pcAfter: U64)

  datatype Temps = Temps(max: Reg, iter: Reg, step: Reg, one: Reg, byte: Reg)

  /** Different scratch registers; MOVS has one more, for the element. */
  ghost predicate Apart(p: Rep, t: Temps) {
    && t.max < 10 && t.iter < 10 && t.step < 10 && t.one < 10
    && t.max != t.iter && t.max != t.step && t.max != t.one
    && t.iter != t.step && t.iter != t.one && t.step != t.one
    && (p.movs ==> t.byte < 10 && t.byte != t.max && t.byte != t.iter && t.byte != t.step && t.byte != t.one)
  }

  const HAX: Reg := 10
  const HCX: Reg := 11
  const HSI: Reg := 16
  const HDI: Reg := 17

  function Move(p: Rep): Alu { if p.reverse then ASub else AAdd }

  function LoopCode(p: Rep, t: Temps): seq<Instr> {
    if p.movs then
      [ Ldr(t.byte, HSI, p.size),
        Str(t.byte, HDI, p.size),
        Op3(Move(p), HSI, HSI, t.step),
        Op3(Move(p), HDI, HDI, t.step),
        Op3(ASub, t.iter, t.iter, t.one),
        Cbnz(t.iter, -5) ]
    else
      [ Str(HAX, HDI, p.size),
        Op3(Move(p), HDI, HDI, t.step),
        Op3(ASub, t.iter, t.iter, t.one),
        Cbnz(t.iter, -3) ]
  }

  function SetupCode(p: Rep, t: Temps): seq<Instr> {
    [ MovImm(t.max, RepCap(p.size)),
      MovImm(t.step, Bytes(p.size)),
      MovImm(t.one, 1),
      Cmp(HCX, t.max),
      Csel(t.iter, HCX, t.max, Ult),
      Op3(ASub, HCX, HCX, t.iter) ]
  }

  function ExitCode(p: Rep): seq<Instr> { [MovImm(0, p.pcOf), Cbnz(HCX, 2), MovImm(0, p.pcAfter), Ret] }

  function RepCode(p: Rep, t: Temps): seq<Instr> {
    UnlessZero(HCX, SetupCode(p, t) + LoopCode(p, t)) + ExitCode(p)
  }

  /** Memory and the two addresses after `k` elements. */
  function Elements(p: Rep, mem: Mem, rax: U64, rsi: U64, rdi: U64, k: nat): (Mem, U64, U64) {
    if p.movs then MovsLoop(mem, rsi, rdi, k, p.size, p.reverse)
    else var (m, d) := StosLoop(mem, rdi, rax, k, p.size, p.reverse); (m, rsi, d)
  }

  function Addresses(m: Mach): (Mem, U64, U64) { (m.mem, m.x[HSI], m.x[HDI]) }

  function After(p: Rep, m: Mach, k: nat): (Mem, U64, U64) { Elements(p, m.mem, m.x[HAX], m.x[HSI], m.x[HDI], k) }

  ghost predicate Ready(p: Rep, t: Temps, m: Mach) {
    !m.halted && m.x[t.one] == 1 && m.x[t.step] == Bytes(p.size)
  }

  /** All other registers are as before. */
  ghost predicate Others(m: Mach, m1: Mach, ws: set<Reg>) {
    (forall r: Reg :: r !in ws ==> m1.x[r] == m.x[r]) && m1.frame == m.frame
  }

  /** What the element in flight occupies. */
  function Element(p: Rep, t: Temps): set<Reg> { if p.movs then {HSI, HDI, t.byte} else {HDI} }

  lemma Moves(p: Rep, v: U64)
    ensures AluValue(Move(p), v, Bytes(p.size)) == Advance(v, p.size, p.reverse)
  {
  }

  lemma MovsCopy(p: Rep, t: Temps, m: Mach) returns (m1: Mach)
    requires p.movs && Apart(p, t) && !m.halted
    ensures Gets(LoopCode(p, t), 0, m, 2, m1)
    ensures m1 == Set(m, t.byte, Load(m.mem, m.x[HSI], p.size)).(mem := m1.mem)
    ensures m1.mem == Store(m.mem, m.x[HDI], Load(m.mem, m.x[HSI], p.size), p.size)
  {
    var code := LoopCode(p, t);
    var a := Exec(code[0], m);
    m1 := Exec(code[1], a);
    GetsHere(code, 2, m1);
    GetsStep(code, 1, a, 2, m1);
    GetsStep(code, 0, m, 2, m1);
  }

  lemma MovsAdvance(p: Rep, t: Temps, m: Mach) returns (m1: Mach)
    requires p.movs && Apart(p, t) && Ready(p, t, m) && m.x[t.iter] > 0
    ensures Gets(LoopCode(p, t), 2, m, 5, m1)
    ensures m1.x[HSI] == Advance(m.x[HSI], p.size, p.reverse) && m1.x[HDI] == Advance(m.x[HDI], p.size, p.reverse)
    ensures m1.x[t.iter] == m.x[t.iter] - 1 && m1.mem == m.mem
    ensures m1.halted == m.halted && Others(m, m1, Element(p, t) + {t.iter})
  {
    var code := LoopCode(p, t);
    SubOne(m.x[t.iter]);
    Moves(p, m.x[HDI]);
    Moves(p, m.x[HSI]);
    var c := Exec(code[2], m);
    var d := Exec(code[3], c);
    m1 := Exec(code[4], d);
    GetsHere(code, 5, m1);
    GetsStep(code, 4, d, 5, m1);
    GetsStep(code, 3, c, 5, m1);
    GetsStep(code, 2, m, 5, m1);
  }

  lemma MovsBody(p: Rep, t: Temps, m: Mach) returns (m1: Mach)
    requires p.movs && Apart(p, t) && Ready(p, t, m) && m.x[t.iter] > 0
    ensures Gets(LoopCode(p, t), 0, m, 5, m1)
    ensures Addresses(m1) == After(p, m, 1) && m1.x[t.iter] == m.x[t.iter] - 1
    ensures m1.halted == m.halted && Others(m, m1, Element(p, t) + {t.iter})
  {
    var a := MovsCopy(p, t, m);
    m1 := MovsAdvance(p, t, a);
    GetsTrans(LoopCode(p, t), 0, m, 2, a, 5, m1);
  }

  lemma StosBody(p: Rep, t: Temps, m: Mach) returns (m1: Mach)
    requires !p.movs && Apart(p, t) && Ready(p, t, m) && m.x[t.iter] > 0
    ensures Gets(LoopCode(p, t), 0, m, 3, m1)
    ensures Addresses(m1) == After(p, m, 1) && m1.x[t.iter] == m.x[t.iter] - 1
    ensures m1.halted == m.halted && Others(m, m1, Element(p, t) + {t.iter})
  {
    var code := LoopCode(p, t);
    SubOne(m.x[t.iter]);
    Moves(p, m.x[HDI]);
    var a := Exec(code[0], m);
    var b := Exec(code[1], a);
    m1 := Exec(code[2], b);
    GetsHere(code, 3, m1);
    GetsStep(code, 2, b, 3, m1);
    GetsStep(code, 1, a, 3, m1);
    GetsStep(code, 0, m, 3, m1);
  }

  /** One element: the loop body up to its branch. */
  lemma BodyRuns(p: Rep, t: Temps, m: Mach) returns (m1: Mach)
    requires Apart(p, t) && Ready(p, t, m) && m.x[t.iter] > 0
    ensures Gets(LoopCode(p, t), 0, m, |LoopCode(p, t)| - 1, m1)
    ensures Addresses(m1) == After(p, m, 1) && m1.x[t.iter] == m.x[t.iter] - 1
    ensures m1.halted == m.halted && Others(m, m1, Element(p, t) + {t.iter})
  {
    if p.movs { m1 := MovsBody(p, t, m); } else { m1 := StosBody(p, t, m); }
  }

  lemma OneMore(p: Rep, m: Mach, m1: Mach, k: nat)
    requires k > 0 && Addresses(m1) == After(p, m, 1) && m1.x[HAX] == m.x[HAX]
    ensures After(p, m1, k - 1) == After(p, m, k)
  {
  }

  lemma {:induction false} LoopRuns(p: Rep, t: Temps, m: Mach) returns (m1: Mach)
    requires Apart(p, t) && Ready(p, t, m) && m.x[t.iter] > 0
    ensures Does(LoopCode(p, t), m, m1)
    ensures Addresses(m1) == After(p, m, m.x[t.iter])
    ensures !m1.halted && Others(m, m1, Element(p, t) + {t.iter})
    decreases m.x[t.iter]
  {
    var code := LoopCode(p, t);
    var n := |code|;
    var a := BodyRuns(p, t, m);
    OneMore(p, m, a, m.x[t.iter]);
    if a.x[t.iter] > 0 {
      m1 := LoopRuns(p, t, a);
      GetsStep(code, n - 1, a, n, m1);
      GetsTrans(code, 0, m, n - 1, a, n, m1);
    } else {
      m1 := a;
      GetsHere(code, n, a);
      GetsStep(code, n - 1, a, n, a);
      GetsTrans(code, 0, m, n - 1, a, n, a);
    }
  }

  function Clamped(p: Rep, rcx: U64): U64 { RepIters(rcx, p.size) }

  function Left(p: Rep, rcx: U64): U64 { rcx - RepIters(rcx, p.size) }

  /** The clamp: how many elements this hop does, and how many remain. */
  lemma SetupRuns(p: Rep, t: Temps, m: Mach) returns (m1: Mach)
    requires Apart(p, t) && !m.halted
    ensures Does(SetupCode(p, t), m, m1) && Ready(p, t, m1)
    ensures m1.x[t.iter] == Clamped(p, m.x[HCX]) && m1.x[HCX] == Left(p, m.x[HCX])
    ensures Addresses(m1) == Addresses(m) && Others(m, m1, {t.max, t.step, t.one, t.iter, HCX})
  {
    var code := SetupCode(p, t);
    var a := Exec(code[0], m);
    var b := Exec(code[1], a);
    var c := Exec(code[2], b);
    var d := Exec(code[3], c);
    var e := Exec(code[4], d);
    m1 := Exec(code[5], e);
    WrapSmall(Left(p, m.x[HCX]));
    GetsHere(code, 6, m1);
    GetsStep(code, 5, e, 6, m1);
    GetsStep(code, 4, d, 6, m1);
    GetsStep(code, 3, c, 6, m1);
    GetsStep(code, 2, b, 6, m1);
    GetsStep(code, 1, a, 6, m1);
    GetsStep(code, 0, m, 6, m1);
  }

  lemma ExitRuns(p: Rep, m: Mach) returns (m1: Mach)
    requires !m.halted
    ensures Returns(ExitCode(p), m, m1)
    ensures m1.x[0] == (if m.x[HCX] != 0 then p.pcOf else p.pcAfter)
    ensures Addresses(m1) == Addresses(m) && Others(m, m1, {0})
  {
    var code := ExitCode(p);
    var a := Exec(code[0], m);
    if m.x[HCX] != 0 {
      m1 := Halted(m, p.pcOf);
      GetsHere(code, 4, m1);
      GetsStep(code, 3, a, 4, m1);
      GetsStep(code, 1, a, 4, m1);
    } else {
      m1 := Halted(m, p.pcAfter);
      assert a.x[0 := p.pcAfter] == m.x[0 := p.pcAfter];
      GetsHere(code, 4, m1);
      GetsStep(code, 3, Exec(code[2], a), 4, m1);
      GetsStep(code, 2, a, 4, m1);
      GetsStep(code, 1, a, 4, m1);
    }
    GetsStep(code, 0, m, 4, m1);
  }

  function Written(p: Rep, t: Temps): set<Reg> { Element(p, t) + {0, t.max, t.iter, t.step, t.one, HCX} }

  lemma SameElements(p: Rep, m: Mach, a: Mach, k: nat)
    requires Addresses(a) == Addresses(m) && a.x[HAX] == m.x[HAX]
    ensures After(p, a, k) == After(p, m, k)
  {
  }

  /** The clamp, then the loop. */
  lemma CountedRuns(p: Rep, t: Temps, m: Mach) returns (m1: Mach)
    requires Apart(p, t) && !m.halted && m.x[HCX] != 0
    ensures Does(SetupCode(p, t) + LoopCode(p, t), m, m1)
    ensures Addresses(m1) == After(p, m, Clamped(p, m.x[HCX])) && m1.x[HCX] == Left(p, m.x[HCX])
    ensures !m1.halted && Others(m, m1, Written(p, t))
  {
    var a := SetupRuns(p, t, m);
    m1 := LoopRuns(p, t, a);
    SameElements(p, m, a, a.x[t.iter]);
    DoesThen(SetupCode(p, t), LoopCode(p, t), m, a, m1);
  }

  /** The guarded loop. */
  lemma WorkRuns(p: Rep, t: Temps, m: Mach) returns (m1: Mach)
    requires Apart(p, t) && !m.halted
    ensures Does(UnlessZero(HCX, SetupCode(p, t) + LoopCode(p, t)), m, m1)
    ensures Addresses(m1) == After(p, m, Clamped(p, m.x[HCX])) && m1.x[HCX] == Left(p, m.x[HCX])
    ensures !m1.halted && Others(m, m1, Written(p, t))
  {
    var body := SetupCode(p, t) + LoopCode(p, t);
    if m.x[HCX] == 0 {
      m1 := m;
      SkipsOnZero(HCX, body, m);
    } else {
      m1 := CountedRuns(p, t, m);
      RunsOnNonZero(HCX, body, m, m1);
    }
  }

  /** One dispatch hop, for every count, size and direction. */
  lemma HopRuns(p: Rep, t: Temps, m: Mach) returns (m1: Mach)
    requires Apart(p, t) && !m.halted
    ensures Returns(RepCode(p, t), m, m1)
    ensures Addresses(m1) == After(p, m, Clamped(p, m.x[HCX])) && m1.x[HCX] == Left(p, m.x[HCX])
    ensures m1.x[0] == (if m1.x[HCX] != 0 then p.pcOf else p.pcAfter)
    ensures Others(m, m1, Written(p, t))
  {
    var work := UnlessZero(HCX, SetupCode(p, t) + LoopCode(p, t));
    var a := WorkRuns(p, t, m);
    m1 := ExitRuns(p, a);
    DoesThenReturns(work, ExitCode(p), m, a, m1);
  }
}
