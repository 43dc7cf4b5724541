/**
  Loading a 64-bit immediate with MOVN, MOVZ and MOVK (external/detours/src/disasm.cpp, `EmitMovImmediate`): what a
  sequence of moves leaves in its register.
 */
module A64Moves {
  import opened A64
  import opened Words

  function Value(p: seq<Half>): Word64
    requires |p| == 4
  {
    var a: nat, b: nat, c: nat, d: nat := p[0], p[1], p[2], p[3];
    a + 0x1_0000 * b + 0x1_0000_0000 * c + 0x1_0000_0000_0000 * d
  }

  /** `piece` from position k on, d below it. */
  function Filled(piece: seq<Half>, k: nat, d: Half): (p: seq<Half>)
    requires |piece| == 4 && k <= 4
    ensures |p| == 4
  {
    seq(4, i requires 0 <= i < 4 => if i < k then d else piece[i])
  }

  /** How many pieces from position k on differ from d. */
  function Differing(piece: seq<Half>, k: nat, d: Half): (n: nat)
    requires |piece| == 4 && k <= 4
    ensures n <= 4 - k
    decreases 4 - k
  {
    if k == 4 then 0 else Differing(piece, k + 1, d) + if piece[k] != d then 1 else 0
  }

  /** Instructions that are all moves to rd. */
  ghost predicate Moves(program: seq<Instr>, rd: Register) {
    forall i | 0 <= i < |program| :: program[i].Move? && program[i].rd == rd
  }

  /** What the moves leave in a register that held x. */
  ghost function MovedBy(program: seq<Instr>, rd: Register, x: Word64): Word64
    requires Moves(program, rd)
  {
    if program == [] then x else Moved(program[|program| - 1], MovedBy(program[..|program| - 1], rd, x))
  }

  /** Whatever rd held before, the moves load `value` into it. */
  ghost predicate Loads(program: seq<Instr>, rd: Register, value: Word64) {
    program != [] && Moves(program, rd) && forall x: Word64 :: MovedBy(program, rd, x) == value
  }

  lemma AppendMove(program: seq<Instr>, rd: Register, i: Instr, before: Word64, after: Word64)
    requires i.Move? && i.rd == rd
    requires if program == [] then (forall x: Word64 :: Moved(i, x) == after)
             else Loads(program, rd, before) && Moved(i, before) == after
    ensures Loads(program + [i], rd, after)
  {
    assert (program + [i])[..|program|] == program;
    forall x: Word64 ensures MovedBy(program + [i], rd, x) == after {
      if program == [] {
        assert MovedBy(program, rd, x) == x;
      }
    }
  }

  /** One more word is one more instruction. */
  lemma ProgramGrows(words: seq<Word32>, w: Word32)
    ensures Program(words + [w]) == Program(words) + [Decode(w)]
  {
  }

  function FirstInstr(piece: seq<Half>, k: Shift, d: Half, rd: Register): (i: Instr)
    requires |piece| == 4
    ensures i.Move?
  {
    if d == 0xffff then Move(true, MoveNot, rd, 0xffff - piece[k], k) else Move(true, MoveZero, rd, piece[k], k)
  }

  /** The first move sets every other piece to the default. */
  lemma FirstMove(piece: seq<Half>, k: Shift, d: Half, rd: Register, x: Word64)
    requires |piece| == 4 && d in {0, 0xffff}
    requires forall i | k < i < 4 :: piece[i] == d
    ensures Moved(FirstInstr(piece, k, d, rd), x) == Value(Filled(piece, k, d))
  {
    var all: seq<Half> := [d, d, d, d];
    assert Filled(piece, k, d) == all[k := piece[k]];
    ValueUpdate(all, k, piece[k]);
    UnitFits(k, piece[k]);
    UnitFits(k, 0xffff - piece[k]);
    if d == 0xffff {
      assert Value(all) == TWO_64 - 1;
      InRange(TWO_64 - 1 - (0xffff - piece[k]) * Unit(k));
    } else {
      InRange(piece[k] * Unit(k));
    }
  }

  lemma InsertPiece(piece: seq<Half>, k: Shift, d: Half)
    requires |piece| == 4
    ensures Insert(Value(Filled(piece, k + 1, d)), k, piece[k]) == Value(Filled(piece, k, d))
  {
    var p, p' := Filled(piece, k + 1, d), Filled(piece, k, d);
    assert p' == p[k := piece[k]];
    PieceOf(p, k);
    ValueUpdate(p, k, piece[k]);
    InRange(Value(p'));
  }

  lemma InRange(x: Word64)
    ensures Wrap(x) == x
  {
  }

  lemma ValueUpdate(p: seq<Half>, k: Shift, q: Half)
    requires |p| == 4
    ensures Value(p[k := q]) == Value(p) - p[k] * Unit(k) + q * Unit(k)
  {
    if k == 0 {
    } else if k == 1 {
    } else if k == 2 {
    } else {
    }
  }

  /** Each later move replaces one piece. */
  lemma KeepMove(piece: seq<Half>, k: Shift, d: Half, rd: Register)
    requires |piece| == 4
    ensures Moved(Move(true, MoveKeep, rd, piece[k], k), Value(Filled(piece, k + 1, d))) == Value(Filled(piece, k, d))
  {
    InsertPiece(piece, k, d);
  }

  lemma PieceOf(p: seq<Half>, k: Shift)
    requires |p| == 4
    ensures Field(Value(p), Unit(k), TWO_16) == p[k]
  {
    var x := Value(p);
    var a: nat, b: nat, c: nat, d: nat := p[0], p[1], p[2], p[3];
    if k == 0 {
      FieldOf(x, 0, 1, a, TWO_16, b + 0x1_0000 * c + 0x1_0000_0000 * d);
    } else if k == 1 {
      FieldOf(x, a, 0x1_0000, b, TWO_16, c + 0x1_0000 * d);
    } else if k == 2 {
      FieldOf(x, a + 0x1_0000 * b, 0x1_0000_0000, c, TWO_16, d);
    } else {
      FieldOf(x, a + 0x1_0000 * b + 0x1_0000_0000 * c, 0x1_0000_0000_0000, d, TWO_16, 0);
    }
  }

  lemma SplitPieces(immediate: Word64)
    ensures Value(Pieces(immediate)) == immediate
  {
    var a := immediate / 0x1_0000;
    var b := a / 0x1_0000;
    var c := b / 0x1_0000;
    assert b == immediate / 0x1_0000_0000;
    assert c == immediate / 0x1_0000_0000_0000;
  }

  /** One instruction of the 64-bit move sequence brings the loaded value up to position k. */
  lemma MoveStep(words: seq<Word32>, rd: Register, piece: seq<Half>, k: Shift, d: Half, w: Word32)
    requires |piece| == 4 && d in {0, 0xffff}
    requires if words == [] then (forall i | k < i < 4 :: piece[i] == d)
             else Loads(Program(words), rd, Value(Filled(piece, k + 1, d)))
    requires w == if words != [] then AssembleMov(true, MoveKeep, rd, piece[k], k)
                  else if d == 0xffff then AssembleMov(true, MoveNot, rd, 0xffff - piece[k], k)
                  else AssembleMov(true, MoveZero, rd, piece[k], k)
    ensures Loads(Program(words + [w]), rd, Value(Filled(piece, k, d)))
  {
    ProgramGrows(words, w);
    var i := if words == [] then FirstInstr(piece, k, d, rd) else Move(true, MoveKeep, rd, piece[k], k);
    MovRoundTrip(true, i.kind, rd, i.imm, k);
    assert Decode(w) == i;
    MoveInstr(Program(words), rd, piece, k, d, i);
  }

  lemma MoveInstr(program: seq<Instr>, rd: Register, piece: seq<Half>, k: Shift, d: Half, i: Instr)
    requires |piece| == 4 && d in {0, 0xffff}
    requires if program == [] then (forall j | k < j < 4 :: piece[j] == d)
             else Loads(program, rd, Value(Filled(piece, k + 1, d)))
    requires i == if program == [] then FirstInstr(piece, k, d, rd) else Move(true, MoveKeep, rd, piece[k], k)
    ensures Loads(program + [i], rd, Value(Filled(piece, k, d)))
  {
    if program == [] {
      forall x: Word64 ensures Moved(i, x) == Value(Filled(piece, k, d)) {
        FirstMove(piece, k, d, rd, x);
      }
    } else {
      KeepMove(piece, k, d, rd);
    }
    AppendMove(program, rd, i, Value(Filled(piece, k + 1, d)), Value(Filled(piece, k, d)));
  }

  /** The 32-bit MOVN loads values whose upper half is zero and whose second piece is all ones. */
  lemma NarrowMove(rd: Register, piece: seq<Half>)
    requires |piece| == 4 && piece[3] == 0 && piece[2] == 0 && piece[1] == 0xffff
    ensures Loads(Program([AssembleMov(false, MoveNot, rd, 0xffff - piece[0], 0)]), rd, Value(piece))
  {
    var w := AssembleMov(false, MoveNot, rd, 0xffff - piece[0], 0);
    MovRoundTrip(false, MoveNot, rd, 0xffff - piece[0], 0);
    var i := Move(false, MoveNot, rd, 0xffff - piece[0], 0);
    NarrowInstr(rd, piece);
    assert Program([w]) == [i];
  }

  lemma NarrowInstr(rd: Register, piece: seq<Half>)
    requires |piece| == 4 && piece[3] == 0 && piece[2] == 0 && piece[1] == 0xffff
    ensures Loads([Move(false, MoveNot, rd, 0xffff - piece[0], 0)], rd, Value(piece))
  {
    var i := Move(false, MoveNot, rd, 0xffff - piece[0], 0);
    forall x: Word64 ensures Moved(i, x) == Value(piece) {
    }
    AppendMove([], rd, i, 0, Value(piece));
    assert [] + [i] == [i];
  }

  /** The four 16-bit pieces, lowest first. */
  function Pieces(immediate: Word64): (p: seq<Half>)
    ensures |p| == 4
  {
    [Field(immediate, 1, TWO_16), Field(immediate, 0x1_0000, TWO_16),
     Field(immediate, 0x1_0000_0000, TWO_16), Field(immediate, 0x1_0000_0000_0000, TWO_16)]
  }

  function Count(piece: seq<Half>, d: Half): nat
    requires |piece| == 4
  {
    (if piece[3] == d then 1 else 0) + (if piece[2] == d then 1 else 0)
    + (if piece[1] == d then 1 else 0) + (if piece[0] == d then 1 else 0)
  }

  lemma DifferingCount(piece: seq<Half>, d: Half)
    requires |piece| == 4
    ensures Differing(piece, 0, d) == 4 - Count(piece, d)
  {
    assert Differing(piece, 2, d) == (if piece[2] != d then 1 else 0) + (if piece[3] != d then 1 else 0);
  }

  function Max(a: nat, b: nat): nat {
    if a < b then b else a
  }

  /** The number of moves the code needs for an immediate. */
  function MoveCount(immediate: Word64): nat {
    var p := Pieces(immediate);
    if p[3] == 0 && p[2] == 0 && p[1] == 0xffff then 1
    else Max(1, 4 - Max(Count(p, 0), Count(p, 0xffff)))
  }
}
