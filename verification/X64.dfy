/**
  The x64 instructions whose meaning depends on their own address: relative branches and RIP-relative operands. A
  relative operand counts from the end of the instruction (section 2.2.1.6 of Intel SDM volume 2A). The sizes of the
  instructions with a ModR/M byte come from opcode tables, which are parameters.
 */
module X64 {
  import opened Arithmetic
  import opened ByteOrder
  import opened Words
  import opened Wrappers

  /** A table entry of an instruction with a ModR/M byte: the size without displacement, and where that byte is. */
  datatype Entry = Entry(fixed: nat, modOffset: nat)

  /** Entries of one-byte opcodes and of opcodes behind 0F, the latter counted from the second byte. */
  datatype Tables = Tables(main: Byte -> Entry, escape: Byte -> Entry)

  /** Loop stands for LOOPNE, LOOPE, LOOP and JRCXZ, which have no 32-bit form. */
  datatype Operation = Call | Jump | JumpIf(condition: nat) | Loop(kind: nat)

  datatype Decoded =
    | Relative(prefixes: Bytes, operation: Operation, target: Word64, length: nat)
    | RipOperand(prefixes: Bytes, head: Bytes, tail: Bytes, target: Word64, length: nat)

  /** Segment overrides, LOCK, REPNE, REPE and REX. */
  predicate IsPrefix(b: Byte) {
    b in {0x26, 0x2e, 0x36, 0x3e, 0x64, 0x65, 0xf0, 0xf2, 0xf3} || 0x40 <= b <= 0x4f
  }

  /** Operand-size and address-size overrides are not modelled. */
  predicate IsSizeOverride(b: Byte) {
    b == 0x66 || b == 0x67
  }

  /** Mode 00 with register field 101. */
  predicate IsRip(modRm: Byte) {
    modRm / 64 == 0 && modRm % 8 == 5
  }

  predicate IsWidth(n: nat) {
    n == 1 || n == 2 || n == 4 || n == 8
  }

  /** The lowest n bytes of x. */
  function Low(x: int, n: nat): nat
    requires IsWidth(n)
  {
    match n case 1 => x % 0x100 case 2 => x % 0x1_0000 case 4 => x % 0x1_0000_0000 case _ => x % TWO_64
  }

  /** An n-byte number read as a signed one. */
  function AsSigned(low: nat, n: nat): int
    requires IsWidth(n)
  {
    match n
    case 1 => if low < 0x80 then low else low - 0x100
    case 2 => if low < 0x8000 then low else low - 0x1_0000
    case 4 => if low < 0x8000_0000 then low else low - 0x1_0000_0000
    case _ => if low < HALF then low else low - TWO_64
  }

  predicate Fits(x: int, n: nat)
    requires IsWidth(n)
  {
    match n
    case 1 => -0x80 <= x < 0x80
    case 2 => -0x8000 <= x < 0x8000
    case 4 => -0x8000_0000 <= x < 0x8000_0000
    case _ => 0 - HALF <= x < HALF
  }

  /** x cut to n bytes. */
  function Cut(x: int, n: nat): int
    requires IsWidth(n)
  {
    AsSigned(Low(x, n), n)
  }

  function ReadField(b: Bytes): int
    requires IsWidth(|b|)
  {
    AsSigned(FromFixed(b), |b|)
  }

  function WriteField(x: int, n: nat): (b: Bytes)
    requires IsWidth(n)
    ensures |b| == n
  {
    Fixed(Low(x, n), n)
  }

  lemma ReadWrite(x: int, n: nat)
    requires IsWidth(n)
    ensures ReadField(WriteField(x, n)) == Cut(x, n)
  {
    LowFits(x, n);
    FixedValue(Low(x, n), n);
  }

  lemma LowFits(x: int, n: nat)
    requires IsWidth(n)
    ensures Low(x, n) < Power256(n)
  {
    Widths();
  }

  lemma CutFits(x: int, n: nat)
    requires IsWidth(n)
    ensures Cut(x, n) == x <==> Fits(x, n)
    ensures Fits(Cut(x, n), n)
  {
    match n
    case 1 => CutIn(x, 0x80);
    case 2 => CutIn(x, 0x8000);
    case 4 => CutIn(x, 0x8000_0000);
    case _ => CutIn(x, HALF);
  }

  lemma CutIn(x: int, half: nat)
    requires half > 0
    ensures var low := x % (2 * half);
            var c := if low < half then low else low - 2 * half;
            (c == x <==> 0 - half <= x < half) && 0 - half <= c < half
  {
    if 0 <= x < half {
      DivModUnique(x, 2 * half, 0, x);
    } else if 0 - half <= x < 0 {
      DivModUnique(x, 2 * half, -1, x + 2 * half);
    }
  }

  /** An instruction with a RIP-relative operand, behind `skip` escape bytes. */
  function DecodeRip(e: Entry, code: Bytes, at: Word64, skip: nat): Option<Decoded> {
    var p := skip + e.modOffset;
    var n := skip + e.fixed + 4;
    if 0 < e.modOffset < e.fixed && n <= |code| && IsRip(code[p]) then
      Some(RipOperand([], code[..p + 1], code[p + 5..n], Wrap(at + n + ReadField(code[p + 1..p + 5])), n))
    else
      None
  }

  function DecodeBare(t: Tables, code: Bytes, at: Word64): Option<Decoded>
    requires code != []
  {
    var b := code[0];
    if b == 0xe8 || b == 0xe9 then
      if |code| < 5 then None
      else Some(Relative([], if b == 0xe8 then Call else Jump, Wrap(at + 5 + ReadField(code[1..5])), 5))
    else if b == 0xeb || 0x70 <= b <= 0x7f then
      if |code| < 2 then None
      else Some(Relative([], if b == 0xeb then Jump else JumpIf(b - 0x70), Wrap(at + 2 + ReadField(code[1..2])), 2))
    else if 0xe0 <= b <= 0xe3 then
      if |code| < 2 then None
      else Some(Relative([], Loop(b - 0xe0), Wrap(at + 2 + ReadField(code[1..2])), 2))
    else if b == 0x0f then
      if |code| < 2 then None
      else if 0x80 <= code[1] <= 0x8f then
        if |code| < 6 then None
        else Some(Relative([], JumpIf(code[1] - 0x80), Wrap(at + 6 + ReadField(code[2..6])), 6))
      else DecodeRip(t.escape(code[1]), code, at, 1)
    else DecodeRip(t.main(b), code, at, 0)
  }

  /** What the code at an address means: its prefixes, what it does, and the address it refers to. */
  function Decode(t: Tables, code: Bytes, at: Word64): Option<Decoded> {
    if code == [] || IsSizeOverride(code[0]) then None
    else if IsPrefix(code[0]) then
      match Decode(t, code[1..], Wrap(at + 1))
      case Some(d) => Some(Prefixed(code[0], d))
      case None => None
    else DecodeBare(t, code, at)
  }

  function Prefixed(b: Byte, d: Decoded): Decoded {
    d.(prefixes := [b] + d.prefixes, length := d.length + 1)
  }
}
