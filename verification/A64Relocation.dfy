/**
  Relocating A64 branches (external/detours/src/disasm.cpp, the ARM64 `CDetourDis`): loading a 64-bit immediate and
  copying B.cond, CBZ/CBNZ, TBZ/TBNZ, B and BL to another address. What the emitted words do is stated with the
  semantics of module A64, for every processor state.
 */
module A64Relocation {
  import opened A64
  import opened A64Branches
  import opened A64Moves
  import opened Words

  /** The class writes words from some destination on and remembers the branch target. */
  class Relocator {
    var code: seq<Word32>
    var target: Word64

    constructor ()
      ensures code == []
    {
      code, target := [], 0;
    }

    method EmitInstruction(w: Word32)
      modifies this`code
      ensures code == old(code) + [w]
    {
      code := code + [w];
    }

    /** Every 64-bit immediate is loaded exactly, leaving out the pieces equal to the more frequent default. */
    method EmitMovImmediate(rd: Register, immediate: Word64) returns (size: nat, ghost words: seq<Word32>)
      modifies this`code
      ensures code == old(code) + words && size == 4 * |words| && |words| == MoveCount(immediate)
      ensures Loads(Program(words), rd, immediate)
    {
      var piece := Pieces(immediate);
      SplitPieces(immediate);
      words := [];
      var count := 0;
      if piece[3] == 0 && piece[2] == 0 && piece[1] == 0xffff {
        NarrowMove(rd, piece);
        words := [AssembleMov(false, MoveNot, rd, 0xffff - piece[0], 0)];
        EmitInstruction(AssembleMov(false, MoveNot, rd, 0xffff - piece[0], 0));
        count := count + 1;
      } else {
        var zeros, ones := Count(piece, 0), Count(piece, 0xffff);
        var d: Half := if ones > zeros then 0xffff else 0;
        count, words := EmitPieces(rd, piece, d);
        DifferingCount(piece, d);
        assert Filled(piece, 0, d) == piece;
      }
      size := count * 4;
    }

    /** The loop over the pieces, highest first. */
    method EmitPieces(rd: Register, piece: seq<Half>, d: Half) returns (count: nat, ghost words: seq<Word32>)
      requires |piece| == 4 && d in {0, 0xffff}
      modifies this`code
      ensures code == old(code) + words && count == |words|
      ensures |words| == (if Differing(piece, 0, d) == 0 then 1 else Differing(piece, 0, d))
      ensures Loads(Program(words), rd, Value(Filled(piece, 0, d)))
    {
      var first, k := true, 4;
      count, words := 0, [];
      while k > 0
        invariant k <= 4 && code == old(code) + words && count == |words|
        invariant first <==> words == []
        invariant k > 0 ==> |words| == Differing(piece, k, d)
        invariant k == 0 ==> |words| == (if Differing(piece, 0, d) == 0 then 1 else Differing(piece, 0, d))
        invariant words == [] ==> k > 0 && forall i | k <= i < 4 :: piece[i] == d
        invariant words != [] ==> Loads(Program(words), rd, Value(Filled(piece, k, d)))
      {
        k := k - 1;
        if piece[k] != d || (k == 0 && first) {
          var w := if !first then AssembleMov(true, MoveKeep, rd, piece[k], k)
                   else if d == 0xffff then AssembleMov(true, MoveNot, rd, 0xffff - piece[k], k)
                   else AssembleMov(true, MoveZero, rd, piece[k], k);
          MoveStep(words, rd, piece, k, d, w);
          count := count + 1;
          EmitInstruction(w);
          words := words + [w];
          first := false;
        } else {
          assert Filled(piece, k, d) == Filled(piece, k + 1, d);
        }
      }
    }

    /** Emits the target in x17, used when no direct branch reaches it. */
    method EmitTarget(t: Word64) returns (ghost mov: seq<Word32>)
      modifies this`code
      ensures code == old(code) + mov && |mov| <= 4 && Loads(Program(mov), SCRATCH, t)
    {
      var _, words := EmitMovImmediate(SCRATCH, t);
      mov := words;
    }

    /** The three forms of a relocated B.cond. */
    method EmitBcc(dest: Word64, cond: Condition, ghost src: Word64, ghost i: Instr)
        returns (ghost emitted: seq<Word32>)
      requires i.CondBranch? && i.test == Flags(cond)
      requires src % 4 == 0 && dest % 4 == 0 && i.offset % 4 == 0 && target == Target(i, src)
      modifies this`code
      ensures code == old(code) + emitted && 0 < |emitted| <= 6 && Relocated(Program(emitted), i, src, dest)
    {
      var delta := Delta(target, dest);
      var delta4 := Delta(target, Wrap(dest + 4));
      BranchDeltas(i, src, dest);
      if -0x10_0000 <= delta < 0x10_0000 {
        BccRoundTrip(cond, delta);
        EmitInstruction(AssembleBcc(cond, delta));
        emitted := [AssembleBcc(cond, delta)];
        PlainRuns(Program(emitted), i, src, dest);
      } else if -0x800_0000 <= delta4 < 0x800_0000 {
        BccRoundTrip(FlipLowest(cond), 8);
        BranchRoundTrip(false, delta4);
        EmitInstruction(AssembleBcc(FlipLowest(cond), 8));
        EmitInstruction(AssembleBranch(false, delta4));
        emitted := [AssembleBcc(FlipLowest(cond), 8), AssembleBranch(false, delta4)];
        SkipRuns(Program(emitted), i, src, dest);
      } else {
        ghost var mov := EmitTarget(target);
        BccRoundTrip(FlipLowest(cond), 8);
        BrRoundTrip(SCRATCH, false);
        EmitInstruction(AssembleBcc(FlipLowest(cond), 8));
        EmitInstruction(AssembleBr(SCRATCH, false));
        emitted := mov + [AssembleBcc(FlipLowest(cond), 8), AssembleBr(SCRATCH, false)];
        assert Program(emitted)[..|mov|] == Program(mov);
        LongRuns(Program(emitted), Program(mov), i, src, dest);
      }
    }

    /** Copies B.cond. */
    method CopyBcc(src: Word64, dest: Word64, instruction: Word32) returns (size: nat, ghost emitted: seq<Word32>)
      requires src % 4 == 0 && dest % 4 == 0
      requires Decode(instruction).CondBranch? && Decode(instruction).test.Flags?
      modifies this
      ensures code == old(code) + emitted && size == 4 * |emitted| && 0 < |emitted| <= 6
      ensures target == Target(Decode(instruction), src)
      ensures Relocated(Program(emitted), Decode(instruction), src, dest)
      ensures Preserves(Program(emitted), Decode(instruction), src, dest)
         <==> Preservable(Decode(instruction), src, dest)
    {
      ghost var i := Decode(instruction);
      var start := |code|;
      var cond := Field(instruction, 1, 16);
      target := Wrap(src + 4 * SignExtend(Field(instruction, 0x20, 0x8_0000), 0x8_0000));
      emitted := EmitBcc(dest, cond, src, i);
      PreservesIff(Program(emitted), i, src, dest);
      size := 4 * (|code| - start);
    }

    /** The three forms of a relocated CBZ or CBNZ. */
    method EmitCbz(dest: Word64, wide: bool, nonzero: bool, rt: Register, ghost src: Word64, ghost i: Instr)
        returns (ghost emitted: seq<Word32>)
      requires i.CondBranch? && i.test == Zero(wide, nonzero, rt)
      requires src % 4 == 0 && dest % 4 == 0 && i.offset % 4 == 0 && target == Target(i, src)
      modifies this`code
      ensures code == old(code) + emitted && 0 < |emitted| <= 6 && Relocated(Program(emitted), i, src, dest)
    {
      var delta := Delta(target, dest);
      var delta4 := Delta(target, Wrap(dest + 4));
      BranchDeltas(i, src, dest);
      if -0x10_0000 <= delta < 0x10_0000 {
        CbzRoundTrip(wide, nonzero, rt, delta);
        EmitInstruction(AssembleCbz(wide, nonzero, rt, delta));
        emitted := [AssembleCbz(wide, nonzero, rt, delta)];
        PlainRuns(Program(emitted), i, src, dest);
      } else if -0x800_0000 <= delta4 < 0x800_0000 {
        CbzRoundTrip(wide, !nonzero, rt, 8);
        BranchRoundTrip(false, delta4);
        EmitInstruction(AssembleCbz(wide, !nonzero, rt, 8));
        EmitInstruction(AssembleBranch(false, delta4));
        emitted := [AssembleCbz(wide, !nonzero, rt, 8), AssembleBranch(false, delta4)];
        SkipRuns(Program(emitted), i, src, dest);
      } else {
        ghost var mov := EmitTarget(target);
        CbzRoundTrip(wide, !nonzero, rt, 8);
        BrRoundTrip(SCRATCH, false);
        EmitInstruction(AssembleCbz(wide, !nonzero, rt, 8));
        EmitInstruction(AssembleBr(SCRATCH, false));
        emitted := mov + [AssembleCbz(wide, !nonzero, rt, 8), AssembleBr(SCRATCH, false)];
        assert Program(emitted)[..|mov|] == Program(mov);
        LongRuns(Program(emitted), Program(mov), i, src, dest);
      }
    }

    /** Copies CBZ or CBNZ. */
    method CopyCbz(src: Word64, dest: Word64, instruction: Word32) returns (size: nat, ghost emitted: seq<Word32>)
      requires src % 4 == 0 && dest % 4 == 0
      requires Decode(instruction).CondBranch? && Decode(instruction).test.Zero?
      modifies this
      ensures code == old(code) + emitted && size == 4 * |emitted| && 0 < |emitted| <= 6
      ensures target == Target(Decode(instruction), src)
      ensures Relocated(Program(emitted), Decode(instruction), src, dest)
      ensures Preserves(Program(emitted), Decode(instruction), src, dest)
         <==> Preservable(Decode(instruction), src, dest)
    {
      ghost var i := Decode(instruction);
      var start := |code|;
      var wide, nonzero := Field(instruction, 0x8000_0000, 2) == 1, Field(instruction, 0x100_0000, 2) == 1;
      var rt: Register := Field(instruction, 1, 32);
      target := Wrap(src + 4 * SignExtend(Field(instruction, 0x20, 0x8_0000), 0x8_0000));
      emitted := EmitCbz(dest, wide, nonzero, rt, src, i);
      PreservesIff(Program(emitted), i, src, dest);
      size := 4 * (|code| - start);
    }

    /** The three forms of a relocated TBZ or TBNZ. */
    method EmitTbz(
        dest: Word64, wide: bool, nonzero: bool, rt: Register, bit: BitIndex, ghost src: Word64, ghost i: Instr)
        returns (ghost emitted: seq<Word32>)
      requires i.CondBranch? && i.test == Bit(wide, nonzero, rt, bit)
      requires src % 4 == 0 && dest % 4 == 0 && i.offset % 4 == 0 && target == Target(i, src)
      modifies this`code
      ensures code == old(code) + emitted && 0 < |emitted| <= 6 && Relocated(Program(emitted), i, src, dest)
    {
      var delta := Delta(target, dest);
      var delta4 := Delta(target, Wrap(dest + 4));
      BranchDeltas(i, src, dest);
      if -0x2000 <= delta < 0x2000 {
        TbzRoundTrip(wide, nonzero, rt, bit, delta);
        EmitInstruction(AssembleTbz(wide, nonzero, rt, bit, delta));
        emitted := [AssembleTbz(wide, nonzero, rt, bit, delta)];
        PlainRuns(Program(emitted), i, src, dest);
      } else if -0x800_0000 <= delta4 < 0x800_0000 {
        TbzRoundTrip(wide, !nonzero, rt, bit, 8);
        BranchRoundTrip(false, delta4);
        EmitInstruction(AssembleTbz(wide, !nonzero, rt, bit, 8));
        EmitInstruction(AssembleBranch(false, delta4));
        emitted := [AssembleTbz(wide, !nonzero, rt, bit, 8), AssembleBranch(false, delta4)];
        SkipRuns(Program(emitted), i, src, dest);
      } else {
        ghost var mov := EmitTarget(target);
        TbzRoundTrip(wide, !nonzero, rt, bit, 8);
        BrRoundTrip(SCRATCH, false);
        EmitInstruction(AssembleTbz(wide, !nonzero, rt, bit, 8));
        EmitInstruction(AssembleBr(SCRATCH, false));
        emitted := mov + [AssembleTbz(wide, !nonzero, rt, bit, 8), AssembleBr(SCRATCH, false)];
        assert Program(emitted)[..|mov|] == Program(mov);
        LongRuns(Program(emitted), Program(mov), i, src, dest);
      }
    }

    /** Copies TBZ or TBNZ. */
    method CopyTbz(src: Word64, dest: Word64, instruction: Word32) returns (size: nat, ghost emitted: seq<Word32>)
      requires src % 4 == 0 && dest % 4 == 0
      requires Decode(instruction).CondBranch? && Decode(instruction).test.Bit?
      modifies this
      ensures code == old(code) + emitted && size == 4 * |emitted| && 0 < |emitted| <= 6
      ensures target == Target(Decode(instruction), src)
      ensures Relocated(Program(emitted), Decode(instruction), src, dest)
      ensures Preserves(Program(emitted), Decode(instruction), src, dest)
         <==> Preservable(Decode(instruction), src, dest)
    {
      ghost var i := Decode(instruction);
      var start := |code|;
      var wide, nonzero := Field(instruction, 0x8000_0000, 2) == 1, Field(instruction, 0x100_0000, 2) == 1;
      var rt: Register, bit: BitIndex := Field(instruction, 1, 32), Field(instruction, 0x8_0000, 32);
      target := Wrap(src + 4 * SignExtend(Field(instruction, 0x20, 0x4000), 0x4000));
      emitted := EmitTbz(dest, wide, nonzero, rt, bit, src, i);
      PreservesIff(Program(emitted), i, src, dest);
      size := 4 * (|code| - start);
    }

    /** The two forms of a relocated B or BL. */
    method EmitBranch(dest: Word64, link: bool, ghost src: Word64, ghost i: Instr)
        returns (ghost emitted: seq<Word32>)
      requires i.Branch? && i.link == link
      requires src % 4 == 0 && dest % 4 == 0 && i.offset % 4 == 0 && target == Target(i, src)
      modifies this`code
      ensures code == old(code) + emitted && 0 < |emitted| <= 6 && Relocated(Program(emitted), i, src, dest)
    {
      var delta := Delta(target, dest);
      BranchDeltas(i, src, dest);
      if -0x800_0000 <= delta < 0x800_0000 {
        BranchRoundTrip(link, delta);
        EmitInstruction(AssembleBranch(link, delta));
        emitted := [AssembleBranch(link, delta)];
        PlainRuns(Program(emitted), i, src, dest);
      } else {
        ghost var mov := EmitTarget(target);
        BrRoundTrip(SCRATCH, link);
        EmitInstruction(AssembleBr(SCRATCH, link));
        emitted := mov + [AssembleBr(SCRATCH, link)];
        assert Program(emitted)[..|mov|] == Program(mov);
        LongBranchRuns(Program(emitted), Program(mov), i, src, dest);
      }
    }

    /** Copies B or BL. */
    method CopyBranch(src: Word64, dest: Word64, instruction: Word32, link: bool)
        returns (size: nat, ghost emitted: seq<Word32>)
      requires src % 4 == 0 && dest % 4 == 0
      requires Decode(instruction).Branch? && Decode(instruction).link == link
      modifies this
      ensures code == old(code) + emitted && size == 4 * |emitted| && 0 < |emitted| <= 6
      ensures target == Target(Decode(instruction), src)
      ensures Relocated(Program(emitted), Decode(instruction), src, dest)
      ensures Preserves(Program(emitted), Decode(instruction), src, dest)
         <==> Preservable(Decode(instruction), src, dest)
    {
      ghost var i := Decode(instruction);
      var start := |code|;
      target := Wrap(src + 4 * SignExtend(Field(instruction, 1, 0x400_0000), 0x400_0000));
      emitted := EmitBranch(dest, link, src, i);
      PreservesIff(Program(emitted), i, src, dest);
      size := 4 * (|code| - start);
    }
  }

  /** Offsets between aligned addresses are multiples of four. */
  lemma BranchDeltas(i: Instr, src: Word64, dest: Word64)
    requires src % 4 == 0 && dest % 4 == 0 && IsBranch(i) && i.offset % 4 == 0
    ensures Delta(Target(i, src), dest) % 4 == 0 && Delta(Target(i, src), Wrap(dest + 4)) % 4 == 0
  {
    assert src + i.offset == 4 * (src / 4 + i.offset / 4);
    WrapAligned(src / 4 + i.offset / 4);
    assert dest + 4 == 4 * (dest / 4 + 1);
    WrapAligned(dest / 4 + 1);
    DeltaAligned(Target(i, src), dest);
    DeltaAligned(Target(i, src), Wrap(dest + 4));
  }
}
