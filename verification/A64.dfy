/**
  The A64 instructions that branch relocation reads and writes (external/detours/src/disasm.cpp): their encodings and a
  small-step semantics. Encodings and meanings follow sections C4.1 and C6.2 of Arm DDI 0487.
 */
module A64 {
  import opened Arithmetic
  import opened Words
  import opened Wrappers

  const TWO_32: nat := 0x1_0000_0000
  const TWO_16: nat := 0x1_0000

  type Word32 = w: nat | w < TWO_32

  type Half = h: nat | h < TWO_16

  type Register = r: nat | r < 32

  type Condition = c: nat | c < 16

  type BitIndex = b: nat | b < 32

  type Shift = h: nat | h < 4

  // ---- Instructions

  datatype Test =
    | Flags(cond: Condition)
    | Zero(wide: bool, nonzero: bool, rt: Register)
    | Bit(wide: bool, nonzero: bool, rt: Register, bit: BitIndex)

  datatype MoveKind = MoveNot | MoveZero | MoveKeep

  /** Offsets are signed byte offsets from the instruction's own address. */
  datatype Instr =
    | CondBranch(test: Test, offset: int)
    | Branch(link: bool, offset: int)
    | BranchRegister(link: bool, rn: Register)
    | Move(wide: bool, kind: MoveKind, rd: Register, imm: Half, half: Shift)
    | Other

  /** A field of a word: the bits from `low` (a power of two) on, modulo `size`. */
  function Field(w: nat, low: nat, size: nat): (f: nat)
    requires low > 0 && size > 0
    ensures f < size
  {
    w / low % size
  }

  /** Sign extension of a field of `size` values. */
  function SignExtend(field: nat, size: nat): int {
    if 2 * field < size then field else field - size
  }

  function Decode(w: Word32): Instr {
    if Field(w, 0x100_0000, 0x100) == 0x54 && Field(w, 0x10, 2) == 0 then
      CondBranch(Flags(Field(w, 1, 16)), 4 * SignExtend(Field(w, 0x20, 0x8_0000), 0x8_0000))
    else if Field(w, 0x400_0000, 0x20) == 0x5 then
      Branch(Field(w, 0x8000_0000, 2) == 1, 4 * SignExtend(Field(w, 1, 0x400_0000), 0x400_0000))
    else if Field(w, 0x200_0000, 0x40) == 0x1a then
      CondBranch(
        Zero(Field(w, 0x8000_0000, 2) == 1, Field(w, 0x100_0000, 2) == 1, Field(w, 1, 32)),
        4 * SignExtend(Field(w, 0x20, 0x8_0000), 0x8_0000))
    else if Field(w, 0x200_0000, 0x40) == 0x1b then
      CondBranch(
        Bit(Field(w, 0x8000_0000, 2) == 1, Field(w, 0x100_0000, 2) == 1, Field(w, 1, 32), Field(w, 0x8_0000, 32)),
        4 * SignExtend(Field(w, 0x20, 0x4000), 0x4000))
    else if Field(w, 0x400, 0x40_0000) == 0x3587c0 && Field(w, 1, 32) == 0 then
      BranchRegister(false, Field(w, 0x20, 32))
    else if Field(w, 0x400, 0x40_0000) == 0x358fc0 && Field(w, 1, 32) == 0 then
      BranchRegister(true, Field(w, 0x20, 32))
    else if Field(w, 0x80_0000, 0x40) == 0x25 && Field(w, 0x2000_0000, 4) != 1
            && (Field(w, 0x8000_0000, 2) == 1 || Field(w, 0x20_0000, 4) < 2) then
      Move(
        Field(w, 0x8000_0000, 2) == 1,
        match Field(w, 0x2000_0000, 4) case 0 => MoveNot case 2 => MoveZero case _ => MoveKeep,
        Field(w, 1, 32), Field(w, 0x20, TWO_16), Field(w, 0x20_0000, 4))
    else
      Other
  }

  // ---- State and steps

  /** Registers past the end of `x` (x31 with the usual 31) read as zero and ignore writes. */
  datatype Cpu = Cpu(pc: Word64, x: seq<Word64>, n: bool, z: bool, c: bool, v: bool)

  function Read(s: Cpu, r: nat): Word64 {
    if r < |s.x| then s.x[r] else 0
  }

  function Write(s: Cpu, r: nat, value: Word64): Cpu {
    if r < |s.x| then s.(x := s.x[r := value]) else s
  }

  predicate ConditionHolds(cond: Condition, s: Cpu) {
    var base := match cond / 2
      case 0 => s.z
      case 1 => s.c
      case 2 => s.n
      case 3 => s.v
      case 4 => s.c && !s.z
      case 5 => s.n == s.v
      case 6 => s.n == s.v && !s.z
      case _ => true;
    if cond % 2 == 1 && cond != 15 then !base else base
  }

  /** The number of the tested bit; the 32-bit form reaches bits 0 to 31. */
  function BitNumber(t: Test): nat
    requires t.Bit?
  {
    if t.wide then 32 + t.bit else t.bit
  }

  predicate Holds(t: Test, s: Cpu) {
    match t
    case Flags(cond) => ConditionHolds(cond, s)
    case Zero(wide, nonzero, rt) => ((if wide then Read(s, rt) else Read(s, rt) % TWO_32) != 0) == nonzero
    case Bit(_, nonzero, rt, _) => (Read(s, rt) / Pow2(BitNumber(t)) % 2 == 1) == nonzero
  }

  /** The value of one 16-bit unit. */
  function Unit(half: Shift): (u: nat)
    ensures u > 0
  {
    match half case 0 => 1 case 1 => 0x1_0000 case 2 => 0x1_0000_0000 case _ => 0x1_0000_0000_0000
  }

  lemma UnitFits(half: Shift, imm: Half)
    ensures imm * Unit(half) < TWO_64
    ensures half < 2 ==> imm * Unit(half) < TWO_32
  {
  }

  /** x with 16 bits replaced. */
  function Insert(x: Word64, half: Shift, imm: Half): Word64 {
    Wrap(x - Field(x, Unit(half), TWO_16) * Unit(half) + imm * Unit(half))
  }

  /** The new value of the destination register of a move. */
  function Moved(i: Instr, x: Word64): Word64
    requires i.Move?
  {
    var size := if i.wide then TWO_64 else TWO_32;
    match i.kind
    case MoveNot => (size - 1 - i.imm * Unit(i.half)) % size
    case MoveZero => i.imm * Unit(i.half) % size
    case MoveKeep => if i.wide then Insert(x, i.half, i.imm) else Insert(x, i.half, i.imm) % TWO_32
  }

  function Step(i: Instr, s: Cpu): Cpu {
    match i
    case CondBranch(test, offset) => s.(pc := Wrap(s.pc + if Holds(test, s) then offset else 4))
    case Branch(link, offset) => (if link then Write(s, 30, Wrap(s.pc + 4)) else s).(pc := Wrap(s.pc + offset))
    case BranchRegister(link, rn) => (if link then Write(s, 30, Wrap(s.pc + 4)) else s).(pc := Read(s, rn))
    case Move(_, _, rd, _, _) => Write(s, rd, Moved(i, Read(s, rd))).(pc := Wrap(s.pc + 4))
    case Other => s.(pc := Wrap(s.pc + 4))
  }

  /** The instructions that the words of some code stand for. */
  function Program(code: seq<Word32>): (program: seq<Instr>)
    ensures |program| == |code| && forall i | 0 <= i < |code| :: program[i] == Decode(code[i])
  {
    seq(|code|, i requires 0 <= i < |code| => Decode(code[i]))
  }

  function Fetch(program: seq<Instr>, base: Word64, pc: Word64): Option<Instr> {
    var i := Wrap(pc - base);
    if i % 4 == 0 && i / 4 < |program| then Some(program[i / 4]) else None
  }

  /** The state after n steps, all of them inside the code; None if the code is left or holds another instruction. */
  function Run(program: seq<Instr>, base: Word64, s: Cpu, n: nat): Option<Cpu>
    decreases n
  {
    if n == 0 then Some(s)
    else
      var i := Fetch(program, base, s.pc);
      if i.None? || i.value == Other then None else Run(program, base, Step(i.value, s), n - 1)
  }

  lemma FetchAt(program: seq<Instr>, base: Word64, pc: Word64, k: nat)
    requires k < |program| < 0x1000 && pc == Wrap(base + 4 * k)
    ensures Fetch(program, base, pc) == Some(program[k])
  {
    WrapSum(base + 4 * k, 0 - base);
    assert Wrap(pc - base) == 4 * k;
  }

  lemma {:induction false} RunCompose(program: seq<Instr>, base: Word64, s: Cpu, n: nat, m: nat)
    requires Run(program, base, s, n).Some?
    ensures Run(program, base, s, n + m) == Run(program, base, Run(program, base, s, n).value, m)
    decreases n
  {
    if n > 0 {
      RunCompose(program, base, Step(Fetch(program, base, s.pc).value, s), n - 1, m);
    }
  }

  // ---- Assembling

  /** The low `size` values of delta / 4, as the bit fields store it. */
  function Scaled(delta: int, size: nat): (f: nat)
    requires size > 0
    ensures f < size
  {
    delta / 4 % size
  }

  function AssembleBcc(cond: Condition, delta: int): Word32 {
    cond + 0x20 * Scaled(delta, 0x8_0000) + 0x5400_0000
  }

  function AssembleBranch(link: bool, delta: int): Word32 {
    Scaled(delta, 0x400_0000) + 0x1400_0000 + if link then 0x8000_0000 else 0
  }

  function AssembleBr(rn: Register, link: bool): Word32 {
    0x20 * rn + 0xd61f_0000 + if link then 0x20_0000 else 0
  }

  function AssembleCbz(wide: bool, nonzero: bool, rt: Register, delta: int): Word32 {
    rt + 0x20 * Scaled(delta, 0x8_0000) + (if nonzero then 0x100_0000 else 0) + 0x3400_0000
    + if wide then 0x8000_0000 else 0
  }

  function AssembleTbz(wide: bool, nonzero: bool, rt: Register, bit: BitIndex, delta: int): Word32 {
    rt + 0x20 * Scaled(delta, 0x4000) + 0x8_0000 * bit + (if nonzero then 0x100_0000 else 0) + 0x3600_0000
    + if wide then 0x8000_0000 else 0
  }

  function AssembleMov(wide: bool, kind: MoveKind, rd: Register, imm: Half, half: Shift): Word32 {
    rd + 0x20 * imm + 0x20_0000 * half + 0x1280_0000
    + 0x2000_0000 * KindField(kind)
    + if wide then 0x8000_0000 else 0
  }

  /** Sign extension undoes truncation within the range of the field. */
  lemma ScaledBack(delta: int, size: nat)
    requires size > 0 && size % 2 == 0 && delta % 4 == 0 && -2 * size <= delta < 2 * size
    ensures 4 * SignExtend(Scaled(delta, size), size) == delta
  {
    var d := delta / 4;
    if d >= 0 {
      DivModUnique(d, size, 0, d);
    } else {
      DivModUnique(d, size, -1, d + size);
    }
  }

  /** A field read back from its place. */
  lemma FieldOf(w: nat, below: nat, low: nat, f: nat, size: nat, above: nat)
    requires w == below + low * (f + size * above) && below < low && f < size
    ensures Field(w, low, size) == f
  {
    var q := f + size * above;
    assert w == q * low + below;
    DivModUnique(w, low, q, below);
    assert q == above * size + f;
    DivModUnique(q, size, above, f);
  }

  lemma BccRoundTrip(cond: Condition, delta: int)
    requires delta % 4 == 0 && -0x10_0000 <= delta < 0x10_0000
    ensures Decode(AssembleBcc(cond, delta)) == CondBranch(Flags(cond), delta)
  {
    var w, imm := AssembleBcc(cond, delta), Scaled(delta, 0x8_0000);
    ScaledBack(delta, 0x8_0000);
    FieldOf(w, cond + 0x20 * imm, 0x100_0000, 0x54, 0x100, 0);
    FieldOf(w, cond, 0x10, 0, 2, imm + 0x54 * 0x8_0000);
    FieldOf(w, 0, 1, cond, 16, 2 * imm + 0x54 * 0x10_0000);
    FieldOf(w, cond, 0x20, imm, 0x8_0000, 0x54);
  }

  lemma BranchRoundTrip(link: bool, delta: int)
    requires delta % 4 == 0 && -0x800_0000 <= delta < 0x800_0000
    ensures Decode(AssembleBranch(link, delta)) == Branch(link, delta)
  {
    var w, imm, l := AssembleBranch(link, delta), Scaled(delta, 0x400_0000), if link then 1 else 0;
    ScaledBack(delta, 0x400_0000);
    FieldOf(w, imm % 0x100_0000, 0x100_0000, imm / 0x100_0000 + 0x14 + 0x80 * l, 0x100, 0);
    FieldOf(w, imm, 0x400_0000, 5, 0x20, l);
    FieldOf(w, imm + 0x1400_0000, 0x8000_0000, l, 2, 0);
    FieldOf(w, 0, 1, imm, 0x400_0000, 5 + 0x20 * l);
  }

  lemma BrRoundTrip(rn: Register, link: bool)
    ensures Decode(AssembleBr(rn, link)) == BranchRegister(link, rn)
  {
    var w, l := AssembleBr(rn, link), if link then 1 else 0;
    var low := 0x20 * rn + 0x1f_0000 + 0x20_0000 * l;
    FieldOf(w, low, 0x100_0000, 0xd6, 0x100, 0);
    FieldOf(w, low + 0x200_0000, 0x400_0000, 0x15, 0x20, 1);
    FieldOf(w, low, 0x200_0000, 0x2b, 0x40, 1);
    FieldOf(w, 0x20 * rn, 0x400, 0x3587c0 + 0x800 * l, 0x40_0000, 0);
    FieldOf(w, 0, 1, 0, 32, rn + 0x6b0_f800 + 0x1_0000 * l);
    FieldOf(w, 0, 0x20, rn, 32, 0x3587c0 + 0x800 * l);
  }

  /** The opcode fields of the compare-and-branch and test-and-branch words. */
  lemma TestOpcode(w: Word32, low: nat, nonzero: bool, opcode: nat, wide: bool)
    requires low < 0x100_0000 && 0x1a <= opcode <= 0x1b
    requires w == low + (if nonzero then 0x100_0000 else 0) + 0x200_0000 * opcode + if wide then 0x8000_0000 else 0
    ensures Field(w, 0x100_0000, 0x100) != 0x54 && Field(w, 0x400_0000, 0x20) != 5
    ensures Field(w, 0x200_0000, 0x40) == opcode
    ensures (Field(w, 0x8000_0000, 2) == 1) == wide && (Field(w, 0x100_0000, 2) == 1) == nonzero
  {
    var z, s := if nonzero then 1 else 0, if wide then 1 else 0;
    FieldOf(w, low, 0x100_0000, z + 2 * opcode + 0x80 * s, 0x100, 0);
    FieldOf(w, low + 0x100_0000 * z + 0x200_0000 * (opcode - 0x1a), 0x400_0000, 0xd, 0x20, s);
    FieldOf(w, low + 0x100_0000 * z, 0x200_0000, opcode, 0x40, s);
    FieldOf(w, low + 0x100_0000 * z + 0x200_0000 * opcode, 0x8000_0000, s, 2, 0);
    FieldOf(w, low, 0x100_0000, z, 2, opcode + 0x40 * s);
  }

  lemma CbzRoundTrip(wide: bool, nonzero: bool, rt: Register, delta: int)
    requires delta % 4 == 0 && -0x10_0000 <= delta < 0x10_0000
    ensures Decode(AssembleCbz(wide, nonzero, rt, delta)) == CondBranch(Zero(wide, nonzero, rt), delta)
  {
    var w, imm := AssembleCbz(wide, nonzero, rt, delta), Scaled(delta, 0x8_0000);
    var z, s := if nonzero then 1 else 0, if wide then 1 else 0;
    ScaledBack(delta, 0x8_0000);
    TestOpcode(w, rt + 0x20 * imm, nonzero, 0x1a, wide);
    FieldOf(w, 0, 1, rt, 32, imm + 0x8_0000 * (z + 2 * 0x1a + 0x80 * s));
    FieldOf(w, rt, 0x20, imm, 0x8_0000, z + 2 * 0x1a + 0x80 * s);
  }

  lemma TbzRoundTrip(wide: bool, nonzero: bool, rt: Register, bit: BitIndex, delta: int)
    requires delta % 4 == 0 && -0x8000 <= delta < 0x8000
    ensures Decode(AssembleTbz(wide, nonzero, rt, bit, delta)) == CondBranch(Bit(wide, nonzero, rt, bit), delta)
  {
    var w, imm := AssembleTbz(wide, nonzero, rt, bit, delta), Scaled(delta, 0x4000);
    var z, s := if nonzero then 1 else 0, if wide then 1 else 0;
    ScaledBack(delta, 0x4000);
    TestOpcode(w, rt + 0x20 * imm + 0x8_0000 * bit, nonzero, 0x1b, wide);
    FieldOf(w, 0, 1, rt, 32, imm + 0x4000 * (bit + 32 * (z + 2 * 0x1b + 0x80 * s)));
    FieldOf(w, rt, 0x20, imm, 0x4000, bit + 32 * (z + 2 * 0x1b + 0x80 * s));
    FieldOf(w, rt + 0x20 * imm, 0x8_0000, bit, 32, z + 2 * 0x1b + 0x80 * s);
  }

  function KindField(kind: MoveKind): nat {
    match kind case MoveNot => 0 case MoveZero => 2 case MoveKeep => 3
  }

  /** The word of a move is none of the branches. */
  lemma MovOpcode(w: Word32, low: nat, type_: nat, s: nat)
    requires low < 0x80_0000 && type_ < 4 && s < 2
    requires w == low + 0x1280_0000 + 0x2000_0000 * type_ + 0x8000_0000 * s
    ensures Field(w, 0x100_0000, 0x100) != 0x54 && Field(w, 0x400_0000, 0x20) != 5
    ensures Field(w, 0x200_0000, 0x40) != 0x1a && Field(w, 0x200_0000, 0x40) != 0x1b
    ensures Field(w, 0x400, 0x40_0000) != 0x3587c0 && Field(w, 0x400, 0x40_0000) != 0x358fc0
    ensures Field(w, 0x80_0000, 0x40) == 0x25
    ensures Field(w, 0x2000_0000, 4) == type_ && Field(w, 0x8000_0000, 2) == s
  {
    FieldOf(w, low + 0x80_0000, 0x100_0000, 0x12 + 0x20 * type_ + 0x80 * s, 0x100, 0);
    FieldOf(w, low + 0x280_0000, 0x400_0000, 4 + 8 * type_, 0x20, s);
    FieldOf(w, low + 0x80_0000, 0x200_0000, 9 + 0x10 * type_, 0x40, s);
    FieldOf(w, low % 0x400, 0x400, low / 0x400 + 0x4a000 + 0x8_0000 * type_ + 0x20_0000 * s, 0x40_0000, 0);
    FieldOf(w, low, 0x80_0000, 0x25, 0x40, type_ + 4 * s);
    FieldOf(w, low + 0x1280_0000, 0x2000_0000, type_, 4, s);
    FieldOf(w, low + 0x1280_0000 + 0x2000_0000 * type_, 0x8000_0000, s, 2, 0);
  }

  lemma MovRoundTrip(wide: bool, kind: MoveKind, rd: Register, imm: Half, half: Shift)
    requires wide || half < 2
    ensures Decode(AssembleMov(wide, kind, rd, imm, half)) == Move(wide, kind, rd, imm, half)
  {
    var w, s, k := AssembleMov(wide, kind, rd, imm, half), if wide then 1 else 0, KindField(kind);
    MovOpcode(w, rd + 0x20 * imm + 0x20_0000 * half, k, s);
    var above := 0x25 + 0x40 * k + 0x100 * s;
    FieldOf(w, 0, 1, rd, 32, imm + TWO_16 * (half + 4 * above));
    FieldOf(w, rd, 0x20, imm, TWO_16, half + 4 * above);
    FieldOf(w, rd + 0x20 * imm, 0x20_0000, half, 4, above);
  }
}
