/** The machine code of the ops that pack flags: LZCNT/TZCNT flags into NZCV, and NZCV
    into the guest RFLAGS word of the state frame. */
module RflagsCode {
  import opened Words
  import opened Arith
  import opened Scalar
  import opened Arm

  // ------------------------------------------------------------------
  // Bits of words.
  // ------------------------------------------------------------------

  lemma {:induction false} BitOr(a: nat, b: nat, k: nat)
    ensures BitAt(Or(a, b), k) <==> BitAt(a, k) || BitAt(b, k)
    decreases k
  {
    if a == 0 || b == 0 { ZeroBits(k); }
    else if k > 0 { BitOr(a / 2, b / 2, k - 1); }
  }

  lemma {:induction false} BitAnd(a: nat, b: nat, k: nat)
    ensures BitAt(And(a, b), k) <==> BitAt(a, k) && BitAt(b, k)
    decreases k
  {
    if a == 0 || b == 0 { ZeroBits(k); }
    else if k > 0 { BitAnd(a / 2, b / 2, k - 1); }
  }

  lemma {:induction false} ZeroBits(k: nat)
    ensures !BitAt(0, k)
  {
    if k > 0 { ZeroBits(k - 1); }
  }

  /** A value moved up by `k` bits. */
  lemma {:induction false} BitScaled(h: nat, k: nat, j: nat)
    ensures BitAt(Pow2(k) * h, j) <==> j >= k && BitAt(h, j - k)
    decreases k
  {
    if k > 0 {
      EvenProduct(Pow2(k - 1), h);
      if j > 0 { BitScaled(h, k - 1, j - 1); }
    }
  }

  /** One bit and nothing else. */
  lemma BitOfPow(b: nat, k: nat, j: nat)
    requires b <= 1
    ensures BitAt(Pow2(k) * b, j) <==> b == 1 && j == k
  {
    BitScaled(b, k, j);
    if j > k { SmallBits(b, j - k); }
  }

  lemma {:induction false} SmallBits(b: nat, i: nat)
    requires b <= 1 && i > 0
    ensures !BitAt(b, i)
  {
    ZeroBits(i - 1);
  }

  /** All ones less some bits. */
  lemma {:induction false} BitComplement(c: nat, n: nat, k: nat)
    requires c < Pow2(n) && k < n
    ensures BitAt(Pow2(n) - 1 - c, k) <==> !BitAt(c, k)
    decreases n
  {
    if k > 0 { BitComplement(c / 2, n - 1, k - 1); }
  }

  // ------------------------------------------------------------------
  // LZCNT / TZCNT flags.
  // ------------------------------------------------------------------

  /** Z from the count, C from the source; the count's register is overwritten. */
  function ZeroTests(src: Reg, count: Reg, t: Reg): seq<Instr> {
    [Rare(CmpZero(count)), Cset(t, Eq), Rare(CmpZero(src)), Cset(count, Eq)]
  }

  /** Z from bit `i` and C from bit `j` of the word that goes to NZCV. */
  function PackCode(count: Reg, t: Reg, i: nat, j: nat): seq<Instr> {
    [Rare(LslW(t, t, i)), Rare(OrrLslW(t, t, count, j)), Rare(MsrNzcv(t))]
  }

  function CountZeroCode(src: Reg, count: Reg, t: Reg): seq<Instr> {
    ZeroTests(src, count, t) + PackCode(count, t, 30, 29)
  }

  function Flag(b: bool): U64 { if b then 1 else 0 }

  lemma Pow29()
    ensures Pow2(29) == 0x2000_0000 && Pow2(30) == 0x4000_0000
  {
    var ten := 10;
    assert Pow2(10) == 1024;
    Pow2Add(ten, ten);
    Pow2Add(2 * ten, ten);
    Pow2Add(3 * ten - 1, 1);
    assert Pow2(1) == 2;
  }

  lemma ShiftedWord(v: U64, s: nat, p: nat)
    requires v <= 1 && p == Pow2(s) && p < TWO32
    ensures ShiftW(v, s) == v * p
  {
    SmallMod(v * p, TWO32);
  }

  lemma JoinBits(z: nat, c: nat, n: nat)
    requires z <= 1 && c <= 1
    ensures Or(z * Pow2(n + 1), c * Pow2(n)) == Pow2(n) * (2 * z + c)
  {
    var p := Pow2(n);
    assert c * p <= p;
    OrDisjoint(c * p, n + 1, z);
    OrComm(c * p, Pow2(n + 1) * z);
    assert Pow2(n + 1) * z == p * (2 * z);
  }

  lemma TwoBits(h: nat)
    requires h <= 3
    ensures (BitAt(h, 0) <==> h % 2 == 1) && (BitAt(h, 1) <==> h >= 2) && !BitAt(h, 2)
  {
  }

  lemma TopBits(w: U64, h: nat, k: nat)
    requires w == Pow2(k + 2) * h && h <= 3
    ensures NzcvAt(w, k) == Nzcv(false, h >= 2, h % 2 == 1, false)
  {
    TwoBits(h);
    BitScaled(h, k + 2, k + 1);
    BitScaled(h, k + 2, k + 2);
    BitScaled(h, k + 2, k + 3);
    BitScaled(h, k + 2, k + 4);
  }

  /** Z and C, one bit apart, as the emitted code joins them. */
  lemma PackedZcAt(z: U64, c: U64, k: nat, p: nat)
    requires z <= 1 && c <= 1 && p == Pow2(k + 3) && p < TWO32
    ensures NzcvAt(Or64(ShiftW(z, k + 3) % TWO32, ShiftW(c, k + 2)), k) == Nzcv(false, z == 1, c == 1, false)
  {
    ShiftedWord(z, k + 3, p);
    ShiftedWord(c, k + 2, Pow2(k + 2));
    SmallMod(ShiftW(z, k + 3), TWO32);
    JoinBits(z, c, k + 2);
    TopBits(Or64(ShiftW(z, k + 3) % TWO32, ShiftW(c, k + 2)), 2 * z + c, k);
  }

  lemma PackedZc(z: U64, c: U64)
    requires z <= 1 && c <= 1
    ensures NzcvOf(Or64(ShiftW(z, 30) % TWO32, ShiftW(c, 29))) == Nzcv(false, z == 1, c == 1, false)
  {
    Pow29();
    PackedZcAt(z, c, 27, 0x4000_0000);
  }

  lemma TestsRun(src: Reg, count: Reg, t: Reg, m: Mach) returns (m1: Mach)
    requires !m.halted && t != src && t != count
    ensures Does(ZeroTests(src, count, t), m, m1) && Keeps(m, m1, {t, count})
    ensures m1.x[t] == Flag(m.x[count] == 0) && m1.x[count] == Flag(m.x[src] == 0)
  {
    var code := ZeroTests(src, count, t);
    var a := Exec(code[0], m);
    var b := Exec(code[1], a);
    var c := Exec(code[2], b);
    m1 := Exec(code[3], c);
    GetsHere(code, 4, m1);
    GetsStep(code, 3, c, 4, m1);
    GetsStep(code, 2, b, 4, m1);
    GetsStep(code, 1, a, 4, m1);
    GetsStep(code, 0, m, 4, m1);
  }

  lemma PackRuns(count: Reg, t: Reg, i: nat, j: nat, m: Mach) returns (m1: Mach)
    requires !m.halted && t != count
    ensures Does(PackCode(count, t, i, j), m, m1) && Keeps(m, m1, {t})
    ensures m1.f == NzcvOf(Or64(ShiftW(m.x[t], i) % TWO32, ShiftW(m.x[count], j)))
  {
    var code := PackCode(count, t, i, j);
    var a := Exec(code[0], m);
    var b := Exec(code[1], a);
    m1 := Exec(code[2], b);
    GetsHere(code, 3, m1);
    GetsStep(code, 2, b, 3, m1);
    GetsStep(code, 1, a, 3, m1);
    GetsStep(code, 0, m, 3, m1);
  }

  /** The flags are right, and the count is gone: its register holds the carry. */
  lemma CountZeroRuns(src: Reg, count: Reg, t: Reg, m: Mach) returns (m1: Mach)
    requires !m.halted && t != src && t != count
    ensures Does(CountZeroCode(src, count, t), m, m1) && Keeps(m, m1, {t, count})
    ensures m1.f == Nzcv(false, m.x[count] == 0, m.x[src] == 0, false)
    ensures m1.x[count] == Flag(m.x[src] == 0)
  {
    var a := TestsRun(src, count, t, m);
    PackedZc(a.x[t], a.x[count]);
    m1 := PackRuns(count, t, 30, 29, a);
    DoesThen(ZeroTests(src, count, t), PackCode(count, t, 30, 29), m, a, m1);
  }

  // ------------------------------------------------------------------
  // RFLAGS.
  // ------------------------------------------------------------------

  const RFLAGS_OFFSET: int := 824
  const CARRY_OFFSET: int := 816

  function Word(frame: map<int, U64>, off: int): U64 { if off in frame then frame[off] else 0 }

  /** The six status bits of the RFLAGS word. */
  function RflagsBits(w: U64): Rflags {
    Rflags(BitAt(w, 0), BitAt(w, 2), BitAt(w, 4), BitAt(w, 6), BitAt(w, 7), BitAt(w, 11))
  }

  /** The bits the op replaces. */
  function ClearedBits(carry: RflagsCarryMode, pf: bool, af: bool): U64 {
    2240 + (if carry.PreserveCarry? then 0 else 1) + (if pf then 4 else 0) + (if af then 16 else 0)
  }

  function KeepMask(carry: RflagsCarryMode, pf: bool, af: bool): U64 { TWO64 - 1 - ClearedBits(carry, pf, af) }

  function PutBit(w: U64, b: U64, k: U64): U64 { Or64(w, AluValue(ALsl, b, k)) }

  function Kept(w: U64, carry: RflagsCarryMode, pf: bool, af: bool): U64 { Or64(And(w, KeepMask(carry, pf, af)), 2) }

  function WithNzv(w: U64, f: Nzcv, i: U64, j: U64, k: U64): U64 {
    PutBit(PutBit(PutBit(w, Flag(f.z), i), Flag(f.n), j), Flag(f.v), k)
  }

  function WithLow(w: U64, v: Option<U64>, k: U64): U64 { if v.Some? then PutBit(w, And(v.value, 1), k) else w }

  function WithCarry(w: U64, f: Nzcv, carry: RflagsCarryMode): U64 {
    match carry
    case ArmCarry => PutBit(w, Flag(f.c), 0)
    case InvertArmCarry => PutBit(w, Flag(!f.c), 0)
    case _ => w
  }

  /** The word the emitted code builds. */
  function Packed(w: U64, f: Nzcv, carry: RflagsCarryMode, pf: Option<U64>, af: Option<U64>): U64 {
    WithCarry(WithLow(WithLow(WithNzv(Kept(w, carry, pf.Some?, af.Some?), f, 6, 7, 11), pf, 2), af, 4), f, carry)
  }

  lemma PutBitAt(w: U64, b: U64, k: U64, j: nat)
    requires b <= 1 && k <= 11
    ensures BitAt(PutBit(w, b, k), j) <==> BitAt(w, j) || (b == 1 && j == k)
  {
    assert Pow2(11) == 2048;
    Pow2Monotone(k, 11);
    SmallMod(k, 64);
    SmallMod(b * Pow2(k), TWO64);
    BitOr(w, Pow2(k) * b, j);
    BitOfPow(b, k, j);
  }

  lemma LowBitIs(v: U64)
    ensures And(v, 1) == v % 2
  {
    if v != 0 { assert And(v / 2, 0) == 0; }
  }

  predicate StatusBit(j: nat) { j == 0 || j == 2 || j == 4 || j == 6 || j == 7 || j == 11 }

  /** Which status bits the op replaces. */
  predicate Replaces(carry: RflagsCarryMode, pf: bool, af: bool, j: nat) {
    j == 6 || j == 7 || j == 11 || (j == 0 && !carry.PreserveCarry?) || (j == 2 && pf) || (j == 4 && af)
  }

  lemma ClearedAt(carry: RflagsCarryMode, pf: bool, af: bool, j: nat)
    requires StatusBit(j)
    ensures BitAt(ClearedBits(carry, pf, af), j) <==> Replaces(carry, pf, af, j)
  {
    var c := ClearedBits(carry, pf, af);
    var c2 := c / 2 / 2;
    var c4 := c2 / 2 / 2;
    var c6 := c4 / 2 / 2;
    assert c2 == 560 + (if pf then 1 else 0) + (if af then 4 else 0);
    assert c4 == 140 + (if af then 1 else 0);
    assert c6 == 35;
    assert BitAt(c, 2) == BitAt(c2, 0);
    assert BitAt(c, 4) == BitAt(c / 2, 3) == BitAt(c2, 2) == BitAt(c2 / 2, 1) == BitAt(c4, 0);
    assert BitAt(c4, 2) == BitAt(c4 / 2, 1) == BitAt(c6, 0) && BitAt(c4, 3) == BitAt(c4 / 2, 2) == BitAt(c6, 1);
    if j >= 4 { DeepBit(c, j); }
    if j == 11 { DeepBit(c4, 7); assert BitAt(35 / 16, 1); }
  }

  /** Four places down. */
  lemma DeepBit(v: nat, j: nat)
    requires j >= 4
    ensures BitAt(v, j) == BitAt(v / 2 / 2 / 2 / 2, j - 4)
  {
    assert BitAt(v, j) == BitAt(v / 2, j - 1) == BitAt(v / 2 / 2, j - 2);
    assert BitAt(v / 2 / 2, j - 2) == BitAt(v / 2 / 2 / 2, j - 3);
  }

  lemma KeptAt(w: U64, carry: RflagsCarryMode, pf: bool, af: bool, j: nat)
    requires StatusBit(j)
    ensures BitAt(Kept(w, carry, pf, af), j) <==> BitAt(w, j) && !Replaces(carry, pf, af, j)
  {
    Pow2At64();
    BitOr(And(w, KeepMask(carry, pf, af)), 2, j);
    BitAnd(w, KeepMask(carry, pf, af), j);
    BitComplement(ClearedBits(carry, pf, af), 64, j);
    ClearedAt(carry, pf, af, j);
    assert Pow2(1) * 1 == 2;
    BitOfPow(1, 1, j);
  }

  lemma NzvAt(w: U64, f: Nzcv, j: nat)
    ensures BitAt(WithNzv(w, f, 6, 7, 11), j) <==> BitAt(w, j) || (f.z && j == 6) || (f.n && j == 7) || (f.v && j == 11)
  {
    var w1 := PutBit(w, Flag(f.z), 6);
    var w2 := PutBit(w1, Flag(f.n), 7);
    PutBitAt(w, Flag(f.z), 6, j);
    PutBitAt(w1, Flag(f.n), 7, j);
    PutBitAt(w2, Flag(f.v), 11, j);
  }

  lemma LowAt(w: U64, v: Option<U64>, k: U64, j: nat)
    requires k <= 11
    ensures BitAt(WithLow(w, v, k), j) <==> BitAt(w, j) || (v.Some? && v.value % 2 == 1 && j == k)
  {
    if v.Some? {
      LowBitIs(v.value);
      PutBitAt(w, And(v.value, 1), k, j);
    }
  }

  lemma CarryAt(w: U64, f: Nzcv, carry: RflagsCarryMode, j: nat)
    ensures BitAt(WithCarry(w, f, carry), j) <==>
      BitAt(w, j) || (j == 0 && ((carry.ArmCarry? && f.c) || (carry.InvertArmCarry? && !f.c)))
  {
    if carry.ArmCarry? { PutBitAt(w, Flag(f.c), 0, j); }
    if carry.InvertArmCarry? { PutBitAt(w, Flag(!f.c), 0, j); }
  }

  /** Bit by bit the packed word is what the IR op stores. */
  lemma PackedAt(w: U64, f: Nzcv, carry: RflagsCarryMode, pf: Option<U64>, af: Option<U64>, j: nat)
    requires StatusBit(j)
    ensures BitAt(Packed(w, f, carry, pf, af), j) <==>
      || (BitAt(w, j) && !Replaces(carry, pf.Some?, af.Some?, j))
      || (f.z && j == 6) || (f.n && j == 7) || (f.v && j == 11)
      || (pf.Some? && pf.value % 2 == 1 && j == 2) || (af.Some? && af.value % 2 == 1 && j == 4)
      || (j == 0 && ((carry.ArmCarry? && f.c) || (carry.InvertArmCarry? && !f.c)))
  {
    var w0 := Kept(w, carry, pf.Some?, af.Some?);
    var w3 := WithNzv(w0, f, 6, 7, 11);
    var w4 := WithLow(w3, pf, 2);
    KeptAt(w, carry, pf.Some?, af.Some?, j);
    NzvAt(w0, f, j);
    LowAt(w3, pf, 2, j);
    LowAt(w4, af, 4, j);
    CarryAt(WithLow(w4, af, 4), f, carry, j);
  }

  lemma PackedIs(w: U64, f: Nzcv, carry: RflagsCarryMode, pf: Option<U64>, af: Option<U64>)
    ensures RflagsBits(Packed(w, f, carry, pf, af)) == RflagsFromNzcv(RflagsBits(w), f, carry, pf, af)
  {
    PackedAt(w, f, carry, pf, af, 0);
    PackedAt(w, f, carry, pf, af, 2);
    PackedAt(w, f, carry, pf, af, 4);
    PackedAt(w, f, carry, pf, af, 6);
    PackedAt(w, f, carry, pf, af, 7);
    PackedAt(w, f, carry, pf, af, 11);
  }

  // ------------------------------------------------------------------
  // The code that builds the word.
  // ------------------------------------------------------------------

  datatype Temps = Temps(rf: Reg, mask: Reg, bit: Reg, shift: Reg, carry: Reg)

  ghost predicate Apart(t: Temps) {
    && t.rf != t.mask && t.rf != t.bit && t.rf != t.shift && t.rf != t.carry
    && t.mask != t.bit && t.mask != t.shift && t.mask != t.carry
    && t.bit != t.shift && t.bit != t.carry && t.shift != t.carry
  }

  function Written(t: Temps): set<Reg> { {t.rf, t.mask, t.bit, t.shift, t.carry} }

  function OrCode(t: Temps, k: U64): seq<Instr> {
    (if k == 0 then [] else [MovImm(t.shift, k), Op3(ALsl, t.bit, t.bit, t.shift)]) + [Op3(AOrr, t.rf, t.rf, t.bit)]
  }

  function ConditionCode(t: Temps, cc: CondCode, k: U64): seq<Instr> { [Cset(t.bit, cc)] + OrCode(t, k) }

  function BitCode(t: Temps, r: Reg, k: U64): seq<Instr> {
    [MovImm(t.mask, 1), Op3(AAnd, t.bit, r, t.mask)] + OrCode(t, k)
  }

  lemma ShiftByZero(b: U64)
    ensures AluValue(ALsl, b, 0) == b
  {
    WrapSmall(b);
  }

  lemma OrRuns(t: Temps, k: U64, m: Mach) returns (m1: Mach)
    requires Apart(t) && !m.halted
    ensures Does(OrCode(t, k), m, m1) && KeepsFlags(m, m1, {t.rf, t.bit, t.shift})
    ensures m1.x[t.rf] == PutBit(m.x[t.rf], m.x[t.bit], k)
  {
    var last := Op3(AOrr, t.rf, t.rf, t.bit);
    if k == 0 {
      ShiftByZero(m.x[t.bit]);
      m1 := Exec(last, m);
      DoesOne(last, m);
      assert OrCode(t, k) == [last];
    } else {
      var i, j := MovImm(t.shift, k), Op3(ALsl, t.bit, t.bit, t.shift);
      var a := Exec(j, Exec(i, m));
      DoesTwo(i, j, m);
      m1 := Exec(last, a);
      DoesOne(last, a);
      DoesThen([i, j], [last], m, a, m1);
    }
  }

  lemma ConditionRuns(t: Temps, cc: CondCode, k: U64, m: Mach) returns (m1: Mach)
    requires Apart(t) && !m.halted
    ensures Does(ConditionCode(t, cc, k), m, m1) && KeepsFlags(m, m1, {t.rf, t.bit, t.shift})
    ensures m1.x[t.rf] == PutBit(m.x[t.rf], Flag(CondHolds(cc, m.f)), k)
  {
    var a := Exec(Cset(t.bit, cc), m);
    DoesOne(Cset(t.bit, cc), m);
    m1 := OrRuns(t, k, a);
    DoesThen([Cset(t.bit, cc)], OrCode(t, k), m, a, m1);
  }

  lemma BitRuns(t: Temps, r: Reg, k: U64, m: Mach) returns (m1: Mach)
    requires Apart(t) && !m.halted && r != t.mask
    ensures Does(BitCode(t, r, k), m, m1) && KeepsFlags(m, m1, {t.rf, t.bit, t.shift, t.mask})
    ensures m1.x[t.rf] == PutBit(m.x[t.rf], And(m.x[r], 1), k)
  {
    var i, j := MovImm(t.mask, 1), Op3(AAnd, t.bit, r, t.mask);
    var a := Exec(j, Exec(i, m));
    DoesTwo(i, j, m);
    m1 := OrRuns(t, k, a);
    DoesThen([i, j], OrCode(t, k), m, a, m1);
  }

  function LoadCode(t: Temps, keep: U64): seq<Instr> {
    [ Rare(LdrFrame(t.rf, RFLAGS_OFFSET)),
      MovImm(t.mask, keep),
      Op3(AAnd, t.rf, t.rf, t.mask),
      MovImm(t.mask, 2),
      Op3(AOrr, t.rf, t.rf, t.mask) ]
  }

  lemma LoadRuns(t: Temps, keep: U64, m: Mach) returns (m1: Mach)
    requires Apart(t) && !m.halted
    ensures Does(LoadCode(t, keep), m, m1) && KeepsFlags(m, m1, {t.rf, t.mask})
    ensures m1.x[t.rf] == Or64(And(Word(m.frame, RFLAGS_OFFSET), keep), 2)
  {
    var code := LoadCode(t, keep);
    var a := Exec(code[0], m);
    var b := Exec(code[1], a);
    var c := Exec(code[2], b);
    var d := Exec(code[3], c);
    m1 := Exec(code[4], d);
    GetsHere(code, 5, m1);
    GetsStep(code, 4, d, 5, m1);
    GetsStep(code, 3, c, 5, m1);
    GetsStep(code, 2, b, 5, m1);
    GetsStep(code, 1, a, 5, m1);
    GetsStep(code, 0, m, 5, m1);
  }

  function SaveCode(t: Temps): seq<Instr> {
    [ Rare(StrFrame(t.rf, RFLAGS_OFFSET)),
      MovImm(t.mask, 1),
      Op3(AAnd, t.carry, t.rf, t.mask),
      Rare(StrFrame(t.carry, CARRY_OFFSET)) ]
  }

  /** Registers outside `ws`, memory and flags are kept; the two words of the frame are set. */
  ghost predicate Saved(m: Mach, m1: Mach, ws: set<Reg>, w: U64) {
    && (forall r: Reg :: r !in ws ==> m1.x[r] == m.x[r])
    && m1.mem == m.mem && m1.halted == m.halted && m1.f == m.f
    && m1.frame == m.frame[RFLAGS_OFFSET := w][CARRY_OFFSET := And(w, 1)]
  }

  lemma SaveRuns(t: Temps, m: Mach) returns (m1: Mach)
    requires Apart(t) && !m.halted
    ensures Does(SaveCode(t), m, m1) && Saved(m, m1, {t.mask, t.carry}, m.x[t.rf])
  {
    var code := SaveCode(t);
    var a := Exec(code[0], m);
    var b := Exec(code[1], a);
    var c := Exec(code[2], b);
    m1 := Exec(code[3], c);
    GetsHere(code, 4, m1);
    GetsStep(code, 3, c, 4, m1);
    GetsStep(code, 2, b, 4, m1);
    GetsStep(code, 1, a, 4, m1);
    GetsStep(code, 0, m, 4, m1);
  }

  /** Two status bits, one after the other. */
  lemma TwoConditions(t: Temps, c: CondCode, k: U64, d: CondCode, l: U64, m: Mach) returns (m1: Mach)
    requires Apart(t) && !m.halted
    ensures Does(ConditionCode(t, c, k) + ConditionCode(t, d, l), m, m1) && KeepsFlags(m, m1, {t.rf, t.bit, t.shift})
    ensures m1.x[t.rf] == PutBit(PutBit(m.x[t.rf], Flag(CondHolds(c, m.f)), k), Flag(CondHolds(d, m.f)), l)
  {
    var a := ConditionRuns(t, c, k, m);
    m1 := ConditionRuns(t, d, l, a);
    DoesThen(ConditionCode(t, c, k), ConditionCode(t, d, l), m, a, m1);
  }

  function NzvCode(t: Temps, i: U64, j: U64, k: U64): seq<Instr> {
    ConditionCode(t, Eq, i) + (ConditionCode(t, Mi, j) + ConditionCode(t, Ov, k))
  }

  lemma NzvRuns(t: Temps, i: U64, j: U64, k: U64, m: Mach) returns (m1: Mach)
    requires Apart(t) && !m.halted
    ensures Does(NzvCode(t, i, j, k), m, m1) && KeepsFlags(m, m1, {t.rf, t.bit, t.shift})
    ensures m1.x[t.rf] == WithNzv(m.x[t.rf], m.f, i, j, k)
  {
    var a := ConditionRuns(t, Eq, i, m);
    m1 := TwoConditions(t, Mi, j, Ov, k, a);
    DoesThen(ConditionCode(t, Eq, i), ConditionCode(t, Mi, j) + ConditionCode(t, Ov, k), m, a, m1);
  }

  function OptCode(t: Temps, r: Option<Reg>, k: U64): seq<Instr> { if r.Some? then BitCode(t, r.value, k) else [] }

  function OptWord(m: Mach, r: Option<Reg>): Option<U64> { if r.Some? then Some(m.x[r.value]) else None }

  lemma OptRuns(t: Temps, r: Option<Reg>, k: U64, m: Mach) returns (m1: Mach)
    requires Apart(t) && !m.halted && (r.Some? ==> r.value !in Written(t))
    ensures Does(OptCode(t, r, k), m, m1) && KeepsFlags(m, m1, Written(t))
    ensures m1.x[t.rf] == WithLow(m.x[t.rf], OptWord(m, r), k)
  {
    if r.Some? { m1 := BitRuns(t, r.value, k, m); }
    else { m1 := m; DoesNothing(m); }
  }

  function CarryCode(t: Temps, carry: RflagsCarryMode): seq<Instr> {
    match carry
    case ArmCarry => ConditionCode(t, Nc, 0)
    case InvertArmCarry => ConditionCode(t, Cc, 0)
    case _ => []
  }

  lemma CarryRuns(t: Temps, carry: RflagsCarryMode, m: Mach) returns (m1: Mach)
    requires Apart(t) && !m.halted
    ensures Does(CarryCode(t, carry), m, m1) && KeepsFlags(m, m1, Written(t))
    ensures m1.x[t.rf] == WithCarry(m.x[t.rf], m.f, carry)
  {
    if carry.ArmCarry? { m1 := ConditionRuns(t, Nc, 0, m); }
    else if carry.InvertArmCarry? { m1 := ConditionRuns(t, Cc, 0, m); }
    else { m1 := m; DoesNothing(m); }
  }

  function BuildCode(t: Temps, carry: RflagsCarryMode, pf: Option<Reg>, af: Option<Reg>): seq<Instr> {
    LoadCode(t, KeepMask(carry, pf.Some?, af.Some?))
    + (NzvCode(t, 6, 7, 11) + (OptCode(t, pf, 2) + (OptCode(t, af, 4) + CarryCode(t, carry))))
  }

  lemma BuildRuns(t: Temps, carry: RflagsCarryMode, pf: Option<Reg>, af: Option<Reg>, m: Mach) returns (m1: Mach)
    requires Apart(t) && !m.halted
    requires (pf.Some? ==> pf.value !in Written(t)) && (af.Some? ==> af.value !in Written(t))
    ensures Does(BuildCode(t, carry, pf, af), m, m1) && KeepsFlags(m, m1, Written(t))
    ensures m1.x[t.rf] == Packed(Word(m.frame, RFLAGS_OFFSET), m.f, carry, OptWord(m, pf), OptWord(m, af))
  {
    var keep := KeepMask(carry, pf.Some?, af.Some?);
    var a := LoadRuns(t, keep, m);
    var b := NzvRuns(t, 6, 7, 11, a);
    var c := OptRuns(t, pf, 2, b);
    var d := OptRuns(t, af, 4, c);
    m1 := CarryRuns(t, carry, d);
    DoesThen(OptCode(t, af, 4), CarryCode(t, carry), c, d, m1);
    DoesThen(OptCode(t, pf, 2), OptCode(t, af, 4) + CarryCode(t, carry), b, c, m1);
    DoesThen(NzvCode(t, 6, 7, 11), OptCode(t, pf, 2) + (OptCode(t, af, 4) + CarryCode(t, carry)), a, b, m1);
    DoesThen(LoadCode(t, keep),
             NzvCode(t, 6, 7, 11) + (OptCode(t, pf, 2) + (OptCode(t, af, 4) + CarryCode(t, carry))), m, a, m1);
  }

  function StatusCode(t: Temps, carry: RflagsCarryMode, pf: Option<Reg>, af: Option<Reg>): seq<Instr> {
    BuildCode(t, carry, pf, af) + SaveCode(t)
  }

  /** The status bits of the stored word are those the IR op stores. */
  lemma RflagsRuns(t: Temps, carry: RflagsCarryMode, pf: Option<Reg>, af: Option<Reg>, m: Mach)
    returns (m1: Mach, w: U64)
    requires Apart(t) && !m.halted
    requires (pf.Some? ==> pf.value !in Written(t)) && (af.Some? ==> af.value !in Written(t))
    ensures Does(StatusCode(t, carry, pf, af), m, m1) && Saved(m, m1, Written(t), w)
    ensures RflagsBits(w)
      == RflagsFromNzcv(RflagsBits(Word(m.frame, RFLAGS_OFFSET)), m.f, carry, OptWord(m, pf), OptWord(m, af))
  {
    var a := BuildRuns(t, carry, pf, af, m);
    w := a.x[t.rf];
    PackedIs(Word(m.frame, RFLAGS_OFFSET), m.f, carry, OptWord(m, pf), OptWord(m, af));
    m1 := SaveRuns(t, a);
    DoesThen(BuildCode(t, carry, pf, af), SaveCode(t), m, a, m1);
  }
}
