/**
  Relocating x64 instructions (external/detours/src/disasm.cpp, `CopyBytes`, `CopyBytesPrefix`, `CopyBytesJump`,
  `AdjustTarget`): the copy means the same as the source, at its own address, exactly when the new displacement fits.
 */
module X64Relocation {
  import opened ByteOrder
  import opened Words
  import opened Wrappers
  import opened X64

  /** The copy d' of d: same prefixes, operation and target. */
  predicate SameMeaning(d: Decoded, d': Decoded) {
    d' == d.(length := d'.length)
  }

  /** How wide the displacement of a copy is. */
  function Width(d: Decoded): (n: nat)
    ensures IsWidth(n)
  {
    if d.Relative? && d.operation.Loop? then 1 else 4
  }

  /** The displacement of a copy that ends at `end` fits its field. */
  predicate FitsCopy(d: Decoded, end: Word64) {
    Fits(Delta(d.target, end), Width(d))
  }

  /** The copy, at dst, of a source decoded as d: it means the same iff its displacement fits. */
  ghost predicate Copied(t: Tables, d: Decoded, copy: Bytes, dst: Word64) {
    var copied := Decode(t, copy, dst);
    && copied.Some? && copied.value.length == |copy|
    && (SameMeaning(d, copied.value) <==> FitsCopy(d, Wrap(dst + |copy|)))
  }

  /** A displacement cut to n bytes leads to the target iff it fits. */
  lemma TruncatedReaches(target: Word64, end: Word64, disp: int, n: nat)
    requires disp == Delta(target, end) && IsWidth(n)
    ensures Wrap(end + Cut(disp, n)) == target <==> Fits(disp, n)
  {
    CutFits(disp, n);
    DeltaReaches(target, end);
    if !Fits(disp, n) {
      TruncatedMisses(end, disp, Cut(disp, n), n);
    }
  }

  lemma TruncatedMisses(end: int, a: int, b: int, n: nat)
    requires 0 - HALF <= a < HALF && IsWidth(n) && Fits(b, n) && !Fits(a, n)
    ensures Wrap(end + a) != Wrap(end + b)
  {
    WrapDifference(end + a, end + b);
  }

  /** The offset, adjusted by the distance and the growth of the copy, is the displacement the copy needs. */
  lemma Adjusted(src: Word64, dst: Word64, size: nat, size': nat, offset: int)
    ensures var target := Wrap(src + size + offset);
            Signed(Wrap(offset - (Delta(dst, src) + (size' - size)))) == Delta(target, Wrap(dst + size'))
  {
    WrapDifference(src + size + offset, dst + size');
    var k := DeltaShift(dst, src);
    ShiftedDifference(Delta(dst, src), src, dst, k, size, size', offset);
  }

  lemma ShiftedDifference(d: int, src: int, dst: int, k: int, size: int, size': int, offset: int)
    requires d == dst - src + k * TWO_64
    ensures Wrap(offset - (d + (size' - size))) == Wrap((src + size + offset) - (dst + size'))
  {
    WrapShift((src + size + offset) - (dst + size'), 0 - k);
  }

  lemma DeltaShift(dst: Word64, src: Word64) returns (k: int)
    ensures Delta(dst, src) == dst - src + k * TWO_64
  {
    var q := (dst - src) / TWO_64;
    k := if Wrap(dst - src) < HALF then 0 - q else 0 - q - 1;
  }

  // ---- The copies of each form

  /** The n-byte displacement field of a copy that ends at `end`. */
  function Field(target: Word64, end: Word64, n: nat): (b: Bytes)
    requires IsWidth(n)
    ensures |b| == n
  {
    WriteField(Delta(target, end), n)
  }

  lemma FieldLeads(target: Word64, end: Word64, n: nat)
    requires IsWidth(n)
    ensures Wrap(end + ReadField(Field(target, end, n))) == target <==> Fits(Delta(target, end), n)
  {
    ReadWrite(Delta(target, end), n);
    TruncatedReaches(target, end, Delta(target, end), n);
  }

  lemma PrefixCopied(t: Tables, d: Decoded, b: Byte, copy: Bytes, dst: Word64)
    requires IsPrefix(b) && Copied(t, d, copy, Wrap(dst + 1))
    ensures Copied(t, Prefixed(b, d), [b] + copy, dst)
    ensures FitsCopy(Prefixed(b, d), Wrap(dst + |[b] + copy|)) <==> FitsCopy(d, Wrap(Wrap(dst + 1) + |copy|))
  {
    var d' := Decode(t, copy, Wrap(dst + 1)).value;
    assert ([b] + copy)[1..] == copy;
    assert Decode(t, [b] + copy, dst) == Some(Prefixed(b, d'));
    PrefixedSame(b, d, d');
    WrapSum(dst + 1, |copy|);
  }

  lemma PrefixedSame(b: Byte, d: Decoded, d': Decoded)
    ensures SameMeaning(Prefixed(b, d), Prefixed(b, d')) <==> SameMeaning(d, d')
  {
    assert ([b] + d.prefixes)[1..] == d.prefixes && ([b] + d'.prefixes)[1..] == d'.prefixes;
  }

  /** CALL and JMP rel32, the latter also as the copy of a short JMP. */
  lemma BranchCopied(t: Tables, b: Byte, target: Word64, dst: Word64, length: nat)
    requires b == 0xe8 || b == 0xe9
    ensures Copied(
              t, Relative([], if b == 0xe8 then Call else Jump, target, length),
              [b] + Field(target, Wrap(dst + 5), 4), dst)
  {
    var field := Field(target, Wrap(dst + 5), 4);
    assert ([b] + field)[1..5] == field;
    FieldLeads(target, Wrap(dst + 5), 4);
    WrapSum(dst + 5, ReadField(field));
  }

  lemma LoopCopied(t: Tables, b: Byte, target: Word64, dst: Word64)
    requires 0xe0 <= b <= 0xe3
    ensures Copied(t, Relative([], Loop(b - 0xe0), target, 2), [b] + Field(target, Wrap(dst + 2), 1), dst)
  {
    var field := Field(target, Wrap(dst + 2), 1);
    assert ([b] + field)[1..2] == field;
    FieldLeads(target, Wrap(dst + 2), 1);
    WrapSum(dst + 2, ReadField(field));
  }

  /** Jcc rel32, whether copied from the long or the short form. */
  lemma NearJumpCopied(t: Tables, c: nat, target: Word64, dst: Word64, length: nat)
    requires c < 16
    ensures Copied(
              t, Relative([], JumpIf(c), target, length), [0x0f, 0x80 + c] + Field(target, Wrap(dst + 6), 4), dst)
  {
    var field := Field(target, Wrap(dst + 6), 4);
    assert ([0x0f, 0x80 + c] + field)[2..6] == field;
    FieldLeads(target, Wrap(dst + 6), 4);
    WrapSum(dst + 6, ReadField(field));
  }

  ghost predicate RipSame(e: Entry, d: Decoded, copy: Bytes, dst: Word64, skip: nat) {
    var copied := DecodeRip(e, copy, dst, skip);
    && copied.Some? && copied.value.length == d.length
    && (SameMeaning(d, copied.value) <==> FitsCopy(d, Wrap(dst + d.length)))
  }

  /** A copy as long as the source, the same up to the ModR/M byte, and of the same meaning iff the field fits. */
  ghost predicate RipDone(e: Entry, code: Bytes, src: Word64, dst: Word64, skip: nat, copy: Bytes) {
    var d := DecodeRip(e, code, src, skip);
    && d.Some? && |copy| == d.value.length == skip + e.fixed + 4 && skip + e.modOffset < |copy| <= |code|
    && (forall k | 0 <= k <= skip + e.modOffset :: copy[k] == code[k])
    && RipSame(e, d.value, copy, dst, skip)
  }

  /** An operand relative to the instruction pointer; everything but the displacement is copied. */
  lemma RipCopied(e: Entry, code: Bytes, src: Word64, dst: Word64, skip: nat, aim: Word64) returns (copy: Bytes)
    requires DecodeRip(e, code, src, skip).Some?
    requires var p, n := skip + e.modOffset + 1, skip + e.fixed + 4;
             aim == Wrap(src + n + ReadField(code[p..p + 4]))
    ensures var p, n := skip + e.modOffset + 1, skip + e.fixed + 4;
            copy == code[..p] + Field(aim, Wrap(dst + n), 4) + code[p + 4..n]
    ensures RipDone(e, code, src, dst, skip, copy)
  {
    var p, n := skip + e.modOffset + 1, skip + e.fixed + 4;
    var head, tail := code[..p], code[p + 4..n];
    RipDecoded(e, code, src, skip, aim, head, tail);
    copy := head + Field(aim, Wrap(dst + n), 4) + tail;
    RipRebuilt(e, head, tail, aim, dst, skip);
  }

  lemma RipDecoded(e: Entry, code: Bytes, src: Word64, skip: nat, aim: Word64, head: Bytes, tail: Bytes)
    requires DecodeRip(e, code, src, skip).Some?
    requires var p, n := skip + e.modOffset + 1, skip + e.fixed + 4;
             && aim == Wrap(src + n + ReadField(code[p..p + 4])) && head == code[..p] && tail == code[p + 4..n]
    ensures var n := skip + e.fixed + 4;
            && 0 < e.modOffset < e.fixed && |head| == skip + e.modOffset + 1 && |head| + |tail| == skip + e.fixed
            && IsRip(head[|head| - 1])
            && DecodeRip(e, code, src, skip) == Some(RipOperand([], head, tail, aim, n))
  {
  }

  lemma RipRebuilt(e: Entry, head: Bytes, tail: Bytes, target: Word64, dst: Word64, skip: nat)
    requires 0 < e.modOffset < e.fixed && |head| == skip + e.modOffset + 1
    requires |head| + |tail| == skip + e.fixed && IsRip(head[|head| - 1])
    ensures var n := skip + e.fixed + 4;
            RipSame(
              e, RipOperand([], head, tail, target, n), head + Field(target, Wrap(dst + n), 4) + tail, dst, skip)
  {
    var n := skip + e.fixed + 4;
    var field := Field(target, Wrap(dst + n), 4);
    RipPieces(e, head, field, tail, dst, skip);
    FieldLeads(target, Wrap(dst + n), 4);
    WrapSum(dst + n, ReadField(field));
  }

  /** An instruction put together from what is before the displacement, the displacement and what is behind it. */
  lemma RipPieces(e: Entry, head: Bytes, field: Bytes, tail: Bytes, at: Word64, skip: nat)
    requires 0 < e.modOffset < e.fixed && |head| == skip + e.modOffset + 1 && |field| == 4
    requires |head| + |tail| == skip + e.fixed && IsRip(head[|head| - 1])
    ensures var n := skip + e.fixed + 4;
            DecodeRip(e, head + field + tail, at, skip)
            == Some(RipOperand([], head, tail, Wrap(at + n + ReadField(field)), n))
  {
    Pieces(head, field, tail);
  }

  lemma Pieces(head: Bytes, field: Bytes, tail: Bytes)
    ensures var all := head + field + tail;
            && all[..|head|] == head && all[|head|..|head| + |field|] == field && all[|head| + |field|..|all|] == tail
            && (head != [] ==> all[|head| - 1] == head[|head| - 1])
  {
  }

  // ---- The code

  class Copier {
    const tables: Tables
    var out: Bytes
    var target: Option<Word64>
    var extra: int

    constructor (tables: Tables)
      ensures this.tables == tables && out == [] && target == None && extra == 0
    {
      this.tables := tables;
      out, target, extra := [], None, 0;
    }

    /** Corrects an offset field for the distance of the copy; `extra` says how much wider it would have to be. */
    method AdjustTarget(field: Bytes, src: Word64, dst: Word64, size: nat) returns (adjusted: Bytes, aim: Word64)
      requires IsWidth(|field|)
      modifies this`extra
      ensures aim == Wrap(src + size + ReadField(field)) && adjusted == Field(aim, Wrap(dst + size), |field|)
      ensures extra == if |field| == 8 || Fits(Delta(aim, Wrap(dst + size)), |field|) then old(extra) else 4 - |field|
    {
      var oldOffset := ReadField(field);
      aim := Wrap(src + size + oldOffset);
      var newOffset := Signed(Wrap(oldOffset - Delta(dst, src)));
      Adjusted(src, dst, size, size, oldOffset);
      adjusted := WriteField(newOffset, |field|);
      if |field| < 8 && !Fits(newOffset, |field|) {
        extra := 4 - |field|;
      }
    }

    /**
      Copies an instruction of a known size with one relative field, which is a code or a data target. If the
      instruction has no wider form, a field that does not fit is reported by a negative `extra`.
     */
    method CopyBytes(
        code: Bytes, src: Word64, dst: Word64, size: nat, relOffset: nat, n: nat, isCode: bool, noEnlarge: bool)
        returns (aim: Word64)
      requires IsWidth(n) && relOffset + n <= size <= |code| && extra == 0
      modifies this
      ensures aim == Wrap(src + size + ReadField(code[relOffset..relOffset + n]))
      ensures out == old(out) + (code[..relOffset] + Field(aim, Wrap(dst + size), n) + code[relOffset + n..size])
      ensures target == if isCode then Some(aim) else None
      ensures extra == if n == 8 || Fits(Delta(aim, Wrap(dst + size)), n) then 0
                       else if noEnlarge then n - 4 else 4 - n
      ensures n == 4 ==> extra == 0
    {
      var adjusted;
      adjusted, aim := AdjustTarget(code[relOffset..relOffset + n], src, dst, size);
      out := out + (code[..relOffset] + adjusted + code[relOffset + n..size]);
      target := if isCode then Some(aim) else None;
      if noEnlarge {
        extra := -extra;
      }
    }

    /** Widens an 8-bit jump to a 32-bit one. */
    method CopyBytesJump(code: Bytes, src: Word64, dst: Word64) returns (ghost copy: Bytes)
      requires |code| >= 2 && (code[0] == 0xeb || 0x70 <= code[0] <= 0x7f)
      modifies this
      ensures var aim := Wrap(src + 2 + ReadField(code[1..2]));
              && out == old(out) + copy && target == Some(aim) && extra == |copy| - 2
              && copy == (if code[0] == 0xeb then [0xe9] + Field(aim, Wrap(dst + 5), 4)
                          else [0x0f, 0x80 + (code[0] - 0x70)] + Field(aim, Wrap(dst + 6), 4))
    {
      var oldOffset := ReadField(code[1..2]);
      target := Some(Wrap(src + 2 + oldOffset));
      if code[0] == 0xeb {
        var newOffset := Signed(Wrap(oldOffset - (Delta(dst, src) + 3)));
        Adjusted(src, dst, 2, 5, oldOffset);
        var bytes := [0xe9] + WriteField(newOffset, 4);
        copy := bytes;
        out := out + bytes;
        extra := 3;
      } else {
        var newOffset := Signed(Wrap(oldOffset - (Delta(dst, src) + 4)));
        Adjusted(src, dst, 2, 6, oldOffset);
        var bytes := [0x0f, 0x80 + code[0] % 16] + WriteField(newOffset, 4);
        copy := bytes;
        out := out + bytes;
        extra := 4;
      }
    }

    /**
      Copies one instruction behind any run of prefixes. The copy means the same as the source exactly when its new
      displacement fits its field; the target is reported for branches; `extra` is the growth of the instruction, or
      negative for a loop whose displacement does not fit.
     */
    method CopyInstruction(code: Bytes, src: Word64, dst: Word64) returns (size: nat, ghost copy: Bytes)
      requires Decode(tables, code, src).Some? && extra == 0 && target == None
      modifies this
      ensures Done(Decode(tables, code, src).value, old(out), copy, size, dst)
      decreases |code|, 1
    {
      if IsPrefix(code[0]) {
        size, copy := CopyBytesPrefix(code, src, dst);
      } else {
        size, copy := CopyBare(code, src, dst);
      }
    }

    /** Copies a prefix and what is behind it. */
    method CopyBytesPrefix(code: Bytes, src: Word64, dst: Word64) returns (size: nat, ghost copy: Bytes)
      requires Decode(tables, code, src).Some? && IsPrefix(code[0]) && extra == 0 && target == None
      modifies this
      ensures Done(Decode(tables, code, src).value, old(out), copy, size, dst)
      decreases |code|, 0
    {
      ghost var d := Decode(tables, code[1..], Wrap(src + 1)).value;
      assert Decode(tables, code, src) == Some(Prefixed(code[0], d));
      out := out + [code[0]];
      ghost var rest;
      size, rest := CopyInstruction(code[1..], Wrap(src + 1), Wrap(dst + 1));
      copy := [code[0]] + rest;
      PrefixDone(d, old(out), code[0], rest, size, dst);
      size := size + 1;
    }

    lemma PrefixDone(d: Decoded, before: Bytes, b: Byte, rest: Bytes, size: nat, dst: Word64)
      requires IsPrefix(b) && Done(d, before + [b], rest, size, Wrap(dst + 1))
      ensures Done(Prefixed(b, d), before, [b] + rest, size + 1, dst)
    {
      PrefixCopied(tables, d, b, rest, dst);
      assert before + [b] + rest == before + ([b] + rest);
    }

    /** What holds of a copied instruction: its meaning, its sizes and the reported target. */
    ghost predicate Done(d: Decoded, before: Bytes, copy: Bytes, size: nat, dst: Word64)
      reads this
    {
      && out == before + copy && Copied(tables, d, copy, dst)
      && size == d.length
      && extra == (if d.Relative? && d.operation.Loop? && !FitsCopy(d, Wrap(dst + |copy|)) then -3 else |copy| - size)
      && target == (if d.Relative? then Some(d.target) else None)
    }

    /** Dispatches on the opcode. */
    method CopyBare(code: Bytes, src: Word64, dst: Word64) returns (size: nat, ghost copy: Bytes)
      requires Decode(tables, code, src).Some? && !IsPrefix(code[0]) && extra == 0 && target == None
      modifies this
      ensures Done(Decode(tables, code, src).value, old(out), copy, size, dst)
    {
      var b := code[0];
      if b == 0xe8 || b == 0xe9 {
        size, copy := CopyNear(code, src, dst);
      } else if b == 0xeb || 0x70 <= b <= 0x7f {
        size, copy := CopyShort(code, src, dst);
      } else if 0xe0 <= b <= 0xe3 {
        size, copy := CopyLoop(code, src, dst);
      } else if b == 0x0f {
        size, copy := CopyEscape(code, src, dst);
      } else {
        size, copy := CopyRip(code, src, dst, tables.main(b), 0);
        assert copy[0] == b;
      }
    }

    /** CALL or JMP rel32. */
    method CopyNear(code: Bytes, src: Word64, dst: Word64) returns (size: nat, ghost copy: Bytes)
      requires Decode(tables, code, src).Some? && code[0] in {0xe8, 0xe9} && extra == 0 && target == None
      modifies this
      ensures Done(Decode(tables, code, src).value, old(out), copy, size, dst)
    {
      size := 5;
      var _ := CopyBytes(code, src, dst, 5, 1, 4, true, false);
      copy := [code[0]] + Field(target.value, Wrap(dst + 5), 4);
      BranchCopied(tables, code[0], target.value, dst, 5);
      assert code[..1] == [code[0]] && code[5..5] == [];
    }

    /** LOOP, LOOPcc or JRCXZ, which are never widened. */
    method CopyLoop(code: Bytes, src: Word64, dst: Word64) returns (size: nat, ghost copy: Bytes)
      requires Decode(tables, code, src).Some? && 0xe0 <= code[0] <= 0xe3 && extra == 0 && target == None
      modifies this
      ensures Done(Decode(tables, code, src).value, old(out), copy, size, dst)
    {
      size := 2;
      var _ := CopyBytes(code, src, dst, 2, 1, 1, true, true);
      copy := [code[0]] + Field(target.value, Wrap(dst + 2), 1);
      LoopCopied(tables, code[0], target.value, dst);
      assert code[..1] == [code[0]] && code[2..2] == [];
    }

    /** JMP or Jcc rel8. */
    method CopyShort(code: Bytes, src: Word64, dst: Word64) returns (size: nat, ghost copy: Bytes)
      requires Decode(tables, code, src).Some? && extra == 0 && target == None
      requires code[0] == 0xeb || 0x70 <= code[0] <= 0x7f
      modifies this
      ensures Done(Decode(tables, code, src).value, old(out), copy, size, dst)
    {
      size := 2;
      copy := CopyBytesJump(code, src, dst);
      if code[0] == 0xeb {
        BranchCopied(tables, 0xe9, target.value, dst, 2);
      } else {
        NearJumpCopied(tables, code[0] - 0x70, target.value, dst, 2);
      }
    }

    /** An opcode behind 0F: Jcc rel32 or an instruction with a ModR/M byte. */
    method CopyEscape(code: Bytes, src: Word64, dst: Word64) returns (size: nat, ghost copy: Bytes)
      requires Decode(tables, code, src).Some? && code[0] == 0x0f && extra == 0 && target == None
      modifies this
      ensures Done(Decode(tables, code, src).value, old(out), copy, size, dst)
    {
      var c := code[1];
      if 0x80 <= c <= 0x8f {
        size, copy := CopyNearIf(code, src, dst);
      } else {
        size, copy := CopyRip(code, src, dst, tables.escape(c), 1);
        assert copy[0] == 0x0f && copy[1] == c;
      }
    }

    /** Jcc rel32. */
    method CopyNearIf(code: Bytes, src: Word64, dst: Word64) returns (size: nat, ghost copy: Bytes)
      requires Decode(tables, code, src).Some? && code[0] == 0x0f && 0x80 <= code[1] <= 0x8f
      requires extra == 0 && target == None
      modifies this
      ensures Done(Decode(tables, code, src).value, old(out), copy, size, dst)
    {
      size := 6;
      var _ := CopyBytes(code, src, dst, 6, 2, 4, true, false);
      copy := [0x0f, code[1]] + Field(target.value, Wrap(dst + 6), 4);
      NearJumpCopied(tables, code[1] - 0x80, target.value, dst, 6);
      assert code[..2] == [0x0f, code[1]] && code[6..6] == [];
    }

    /** An instruction whose ModR/M byte asks for a displacement from the instruction pointer. */
    method CopyRip(code: Bytes, src: Word64, dst: Word64, e: Entry, skip: nat)
        returns (size: nat, ghost copy: Bytes)
      requires DecodeRip(e, code, src, skip).Some? && extra == 0 && target == None
      modifies this
      ensures out == old(out) + copy && extra == 0 && target == None
      ensures size == |copy| && RipDone(e, code, src, dst, skip, copy)
    {
      size := skip + e.fixed + 4;
      var p := skip + e.modOffset + 1;
      var aim := CopyBytes(code, src, dst, size, p, 4, false, false);
      copy := RipCopied(e, code, src, dst, skip, aim);
    }
  }
}
