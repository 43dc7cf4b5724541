/**
  What a relocated branch does (external/detours/src/disasm.cpp, `CopyBcc`, `CopyB_or_Bl`, `CopyCbz`, `CopyTbz`): the
  emitted words, run from their first address, leave the processor in a state given in terms of the original
  instruction, and that state is the one the original promises exactly under a condition on the instruction.
 */
module A64Branches {
  import opened A64
  import opened A64Moves
  import opened Arithmetic
  import opened Words
  import opened Wrappers

  /** x17, which the long form overwrites. */
  const SCRATCH: Register := 17

  /** Wrapping keeps multiples of four. */
  lemma WrapAligned(q: int)
    ensures Wrap(4 * q) % 4 == 0
  {
    var laps := 4 * q / TWO_64;
    assert Wrap(4 * q) == 4 * q - laps * TWO_64;
    DivModUnique(Wrap(4 * q), 4, q - laps * 0x4000_0000_0000_0000, 0);
  }

  lemma DeltaAligned(target: Word64, from: Word64)
    requires target % 4 == 0 && from % 4 == 0
    ensures Delta(target, from) % 4 == 0
  {
    var q := target / 4 - from / 4;
    WrapAligned(q);
    assert target - from == 4 * q;
    if Wrap(target - from) >= HALF {
      ModShift(Wrap(target - from), 0 - 0x4000_0000_0000_0000, 4);
    }
  }

  // ---- The specification

  predicate IsBranch(i: Instr) {
    i.CondBranch? || i.Branch?
  }

  function Target(i: Instr, src: Word64): Word64
    requires IsBranch(i)
  {
    Wrap(src + i.offset)
  }

  /** The original instruction at src branches in state s. */
  predicate Taken(i: Instr, s: Cpu)
    requires IsBranch(i)
  {
    i.CondBranch? ==> Holds(i.test, s)
  }

  /** Taken and Target are what the semantics says. */
  lemma TakenTarget(i: Instr, s: Cpu)
    requires IsBranch(i)
    ensures Step(i, s).pc == if Taken(i, s) then Target(i, s.pc) else Wrap(s.pc + 4)
  {
  }

  /** The distance up to which the code keeps a branch as one instruction. */
  function Reach(i: Instr): int
    requires IsBranch(i)
  {
    if i.Branch? then 0x800_0000 else if i.test.Bit? then 0x2000 else 0x10_0000
  }

  predicate Near(i: Instr, src: Word64, dest: Word64)
    requires IsBranch(i)
  {
    -Reach(i) <= Delta(Target(i, src), dest) < Reach(i)
  }

  /** The target has to be loaded into the scratch register. */
  predicate Far(i: Instr, src: Word64, dest: Word64)
    requires IsBranch(i)
  {
    && !Near(i, src, dest)
    && (i.CondBranch? ==> !(-0x800_0000 <= Delta(Target(i, src), Wrap(dest + 4)) < 0x800_0000))
  }

  /** B.AL and B.NV, whose condition cannot be inverted. */
  predicate Always(i: Instr) {
    i.CondBranch? && i.test.Flags? && i.test.cond >= 14
  }

  /** The state the relocated code, |code| = len words at dest, ends in when started in s. */
  function Outcome(i: Instr, src: Word64, dest: Word64, len: nat, s: Cpu): Cpu
    requires IsBranch(i)
  {
    var end := Wrap(dest + 4 * len);
    var s1 := if Far(i, src, dest) then Write(s, SCRATCH, Target(i, src)) else s;
    var taken := Taken(i, s1) && (Always(i) ==> Near(i, src, dest));
    var s2 := if i.Branch? && i.link then Write(s1, 30, end) else s1;
    s2.(pc := if taken then Target(i, src) else end)
  }

  /** From s the code gets to s'. */
  ghost predicate Reaches(code: seq<Instr>, base: Word64, s: Cpu, s': Cpu) {
    exists n: nat :: Run(code, base, s, n) == Some(s')
  }

  ghost predicate Relocated(code: seq<Instr>, i: Instr, src: Word64, dest: Word64)
    requires IsBranch(i)
  {
    forall s: Cpu | s.pc == dest && |s.x| == 31 :: Reaches(code, dest, s, Outcome(i, src, dest, |code|, s))
  }

  // ---- The outcome is the original's

  ghost predicate SameEffect(i: Instr, src: Word64, dest: Word64, len: nat, s: Cpu)
    requires IsBranch(i)
  {
    HasEffect(i, src, dest, len, s, Outcome(i, src, dest, len, s))
  }

  /**
    What relocation must keep, if the code started in s gets to o: where the branch goes, the flags, and all registers
    but the scratch and the link.
   */
  ghost predicate HasEffect(i: Instr, src: Word64, dest: Word64, len: nat, s: Cpu, o: Cpu)
    requires IsBranch(i)
  {
    var end := Wrap(dest + 4 * len);
    && o.pc == (if Taken(i, s) then Target(i, src) else end)
    && (o.n, o.z, o.c, o.v) == (s.n, s.z, s.c, s.v)
    && |o.x| == |s.x|
    && (forall r | 0 <= r < |s.x| && r != SCRATCH && r != 30 :: o.x[r] == s.x[r])
    && Read(o, 30) == (if i.Branch? && i.link then end else Read(s, 30))
  }

  /** Started in any state, the code gets to one with the effect of the original. */
  ghost predicate Preserves(code: seq<Instr>, i: Instr, src: Word64, dest: Word64)
    requires IsBranch(i)
  {
    forall s: Cpu | s.pc == dest && |s.x| == 31 :: Leads(code, i, src, dest, s)
  }

  ghost predicate Leads(code: seq<Instr>, i: Instr, src: Word64, dest: Word64, s: Cpu)
    requires IsBranch(i)
  {
    exists s' :: Reaches(code, dest, s, s') && HasEffect(i, src, dest, |code|, s, s')
  }

  /** An always-branch stays a single instruction, and a test of the scratch register is not sent the long way. */
  predicate Preservable(i: Instr, src: Word64, dest: Word64)
    requires IsBranch(i)
  {
    (Always(i) ==> Near(i, src, dest)) && (TestsScratch(i) ==> !Far(i, src, dest))
  }

  /** Once outside the code nothing more happens. */
  lemma OneWayOut(code: seq<Instr>, base: Word64, s: Cpu, n: nat, s1: Cpu, m: nat, s2: Cpu)
    requires Run(code, base, s, n) == Some(s1) && Run(code, base, s, m) == Some(s2)
    requires Fetch(code, base, s1.pc) == None && Fetch(code, base, s2.pc) == None
    ensures s1 == s2
  {
    if n < m {
      RunCompose(code, base, s, n, m - n);
    } else if m < n {
      RunCompose(code, base, s, m, n - m);
    }
  }

  /** The end of the emitted words and a target that is not near lie outside them. */
  lemma OutsideCode(code: seq<Instr>, i: Instr, src: Word64, dest: Word64)
    requires IsBranch(i) && |code| <= 6 && !Near(i, src, dest)
    ensures Fetch(code, dest, Target(i, src)) == None && Fetch(code, dest, Wrap(dest + 4 * |code|)) == None
  {
    WrapSum(dest + 4 * |code|, 0 - dest);
    assert Wrap(Wrap(dest + 4 * |code|) - dest) == 4 * |code|;
    assert Wrap(Target(i, src) - dest) >= 24;
  }

  /** The words of a relocated branch preserve its effect from every state exactly in the preservable cases. */
  lemma PreservesIff(code: seq<Instr>, i: Instr, src: Word64, dest: Word64)
    requires IsBranch(i) && Relocated(code, i, src, dest) && 0 < |code| <= 6
    ensures Preserves(code, i, src, dest) <==> Preservable(i, src, dest)
  {
    if Preservable(i, src, dest) {
      forall s: Cpu | s.pc == dest && |s.x| == 31 ensures Leads(code, i, src, dest, s) {
        Faithful(i, src, dest, |code|, s);
        assert Reaches(code, dest, s, Outcome(i, src, dest, |code|, s));
      }
    } else {
      var s := Misled(i, src, dest, |code|);
      if Leads(code, i, src, dest, s) {
        NotLed(code, i, src, dest, s);
      }
    }
  }

  /** If the outcome of a branch that is not near lacks the effect, no state on the way has it either. */
  lemma NotLed(code: seq<Instr>, i: Instr, src: Word64, dest: Word64, s: Cpu)
    requires IsBranch(i) && Relocated(code, i, src, dest) && |code| <= 6 && !Near(i, src, dest)
    requires s.pc == dest && |s.x| == 31 && Leads(code, i, src, dest, s)
    ensures SameEffect(i, src, dest, |code|, s)
  {
    var o := Outcome(i, src, dest, |code|, s);
    var s' :| Reaches(code, dest, s, s') && HasEffect(i, src, dest, |code|, s, s');
    assert Reaches(code, dest, s, o);
    var n: nat :| Run(code, dest, s, n) == Some(o);
    var m: nat :| Run(code, dest, s, m) == Some(s');
    OutsideCode(code, i, src, dest);
    assert Fetch(code, dest, o.pc) == None && Fetch(code, dest, s'.pc) == None;
    OneWayOut(code, dest, s, n, o, m, s');
  }

  /** The instruction tests the scratch register. */
  predicate TestsScratch(i: Instr) {
    i.CondBranch? && !i.test.Flags? && i.test.rt == SCRATCH
  }

  lemma Faithful(i: Instr, src: Word64, dest: Word64, len: nat, s: Cpu)
    requires IsBranch(i) && |s.x| == 31
    requires Preservable(i, src, dest)
    ensures SameEffect(i, src, dest, len, s)
  {
  }

  /** The end of the emitted words is not the target of a branch that is not near. */
  lemma EndIsNotTarget(i: Instr, src: Word64, dest: Word64, len: nat)
    requires IsBranch(i) && len <= 6 && !Near(i, src, dest)
    ensures Wrap(dest + 4 * len) != Target(i, src)
  {
    if Wrap(dest + 4 * len) == Target(i, src) {
      WrapDifference(dest + 4 * len, dest);
    }
  }

  /** A state in which an unfaithful relocation goes wrong. */
  lemma Misled(i: Instr, src: Word64, dest: Word64, len: nat) returns (s: Cpu)
    requires IsBranch(i) && 0 < len <= 6
    requires !Preservable(i, src, dest)
    ensures !Near(i, src, dest) && s.pc == dest && |s.x| == 31 && !SameEffect(i, src, dest, len, s)
  {
    EndIsNotTarget(i, src, dest, len);
    s := Cpu(dest, seq(31, _ => 0), false, false, false, false);
    if TestsScratch(i) {
      var loaded := Write(s, SCRATCH, Target(i, src));
      var ones := Write(s, SCRATCH, TWO_64 - 1);
      TestVaries(i.test, s, ones);
      if Holds(i.test, s) == Holds(i.test, loaded) {
        s := ones;
        assert Write(s, SCRATCH, Target(i, src)) == loaded;
      }
    }
  }

  /** Zero and all ones answer every register test differently. */
  lemma TestVaries(t: Test, s: Cpu, s': Cpu)
    requires !t.Flags?
    requires Read(s, t.rt) == 0 && Read(s', t.rt) == TWO_64 - 1
    ensures Holds(t, s) != Holds(t, s')
  {
    if t.Bit? {
      var b := BitNumber(t);
      Pow2Of64();
      Pow2Splits(63 - b, b);
      Pow2Splits(63, 1);
      AllOnesBit(Pow2(63 - b), Pow2(b));
    }
  }

  lemma AllOnesBit(high: nat, low: nat)
    requires 0 < low && 0 < high && 2 * (high * low) == TWO_64
    ensures (TWO_64 - 1) / low % 2 == 1
    ensures 0 / low % 2 == 0
  {
    var q := 2 * high - 1;
    assert TWO_64 - 1 == q * low + (low - 1);
    DivModUnique(TWO_64 - 1, low, q, low - 1);
    DivModUnique(0, low, 0, 0);
  }

  // ---- Running the emitted words

  /** The code flips the lowest bit of the condition or of the opcode. */
  function Inverted(t: Test): Test {
    match t
    case Flags(cond) => Flags(FlipLowest(cond))
    case Zero(wide, nonzero, rt) => Zero(wide, !nonzero, rt)
    case Bit(wide, nonzero, rt, bit) => Bit(wide, !nonzero, rt, bit)
  }

  function FlipLowest(cond: Condition): Condition {
    if cond % 2 == 0 then cond + 1 else cond - 1
  }

  lemma InvertedHolds(t: Test, s: Cpu)
    ensures Holds(Inverted(t), s) <==> !Holds(t, s) || (t.Flags? && t.cond >= 14)
  {
  }

  lemma OneStep(code: seq<Instr>, base: Word64, s: Cpu, k: nat, i: Instr)
    requires k < |code| < 0x1000 && s.pc == Wrap(base + 4 * k) && i == code[k] != Other
    ensures Run(code, base, s, 1) == Some(Step(i, s))
  {
    FetchAt(code, base, s.pc, k);
    assert Run(code, base, Step(i, s), 0) == Some(Step(i, s));
  }

  lemma ReachesMore(code: seq<Instr>, base: Word64, s: Cpu, n: nat, s1: Cpu, s2: Cpu)
    requires Run(code, base, s, n) == Some(s1) && Reaches(code, base, s1, s2)
    ensures Reaches(code, base, s, s2)
  {
    var m: nat :| Run(code, base, s1, m) == Some(s2);
    RunCompose(code, base, s, n, m);
  }

  /** A branch kept as one instruction. */
  lemma PlainRuns(code: seq<Instr>, i: Instr, src: Word64, dest: Word64)
    requires IsBranch(i) && Near(i, src, dest) && |code| == 1
    requires code[0] == i.(offset := Delta(Target(i, src), dest))
    ensures Relocated(code, i, src, dest)
  {
    forall s: Cpu | s.pc == dest && |s.x| == 31 ensures Reaches(code, dest, s, Outcome(i, src, dest, |code|, s)) {
      OneStep(code, dest, s, 0, code[0]);
      PlainStep(i, src, dest, s);
    }
  }

  lemma PlainStep(i: Instr, src: Word64, dest: Word64, s: Cpu)
    requires IsBranch(i) && Near(i, src, dest) && s.pc == dest
    ensures Step(i.(offset := Delta(Target(i, src), dest)), s) == Outcome(i, src, dest, 1, s)
  {
    DeltaReaches(Target(i, src), dest);
  }

  /** The inverted test at position k of the code skips the branch behind it. */
  lemma SkipStep(code: seq<Instr>, t: Test, dest: Word64, k: nat, s: Cpu)
    requires |code| == k + 2 < 0x1000 && code[k] == CondBranch(Inverted(t), 8)
    requires s.pc == Wrap(dest + 4 * k)
    ensures Run(code, dest, s, 1)
         == Some(s.(pc := Wrap(dest + if Holds(Inverted(t), s) then 4 * (k + 2) else 4 * (k + 1))))
  {
    OneStep(code, dest, s, k, code[k]);
    WrapSum(dest + 4 * k, 8);
    WrapSum(dest + 4 * k, 4);
  }

  /** The inverted test and a direct branch. */
  lemma SkipRuns(code: seq<Instr>, i: Instr, src: Word64, dest: Word64)
    requires i.CondBranch? && !Near(i, src, dest) && !Far(i, src, dest) && |code| == 2
    requires code[0] == CondBranch(Inverted(i.test), 8)
    requires code[1] == Branch(false, Delta(Target(i, src), Wrap(dest + 4)))
    ensures Relocated(code, i, src, dest)
  {
    forall s: Cpu | s.pc == dest && |s.x| == 31 ensures Reaches(code, dest, s, Outcome(i, src, dest, |code|, s)) {
      SkipStep(code, i.test, dest, 0, s);
      SkipOutcome(i, src, dest, s);
      if !Holds(Inverted(i.test), s) {
        var s1 := s.(pc := Wrap(dest + 4));
        OneStep(code, dest, s1, 1, code[1]);
        ReachesMore(code, dest, s, 1, s1, Outcome(i, src, dest, 2, s));
      }
    }
  }

  lemma SkipOutcome(i: Instr, src: Word64, dest: Word64, s: Cpu)
    requires i.CondBranch? && !Near(i, src, dest) && !Far(i, src, dest)
    ensures var direct := Branch(false, Delta(Target(i, src), Wrap(dest + 4)));
            Outcome(i, src, dest, 2, s) == if Holds(Inverted(i.test), s) then s.(pc := Wrap(dest + 8))
                                           else Step(direct, s.(pc := Wrap(dest + 4)))
  {
    InvertedHolds(i.test, s);
    DeltaReaches(Target(i, src), Wrap(dest + 4));
  }

  /** The state during the moves: rd holds v, pc is p, all else is as in s. */
  function During(s: Cpu, rd: Register, v: Word64, p: Word64): Cpu {
    Write(s, rd, v).(pc := p)
  }

  lemma MoveAgain(i: Instr, s: Cpu, rd: Register, v: Word64, p: Word64)
    requires i.Move? && i.rd == rd && rd < |s.x|
    ensures Step(i, During(s, rd, v, p)) == During(s, rd, Moved(i, v), Wrap(p + 4))
  {
    var s1 := During(s, rd, v, p);
    assert Read(s1, rd) == v;
    assert s1.x[rd := Moved(i, v)] == s.x[rd := Moved(i, v)];
  }

  lemma LastMove(words: seq<Instr>, m: nat, rd: Register, x: Word64)
    requires m < |words| && Moves(words[..m + 1], rd)
    ensures Moves(words[..m], rd) && words[m].Move? && words[m].rd == rd
    ensures MovedBy(words[..m + 1], rd, x) == Moved(words[m], MovedBy(words[..m], rd, x))
  {
    var all := words[..m + 1];
    assert all[..m] == words[..m];
    assert all[m] == words[m];
    assert forall j | 0 <= j < m :: words[..m][j] == all[j];
  }

  lemma MoveRuns(code: seq<Instr>, base: Word64, s: Cpu, rd: Register, k: nat, v: Word64)
    requires k < |code| < 0x1000 && rd < |s.x| && code[k].Move? && code[k].rd == rd
    requires MovedTo(code, base, s, rd, k, v)
    ensures MovedTo(code, base, s, rd, k + 1, Moved(code[k], v))
  {
    var p := Wrap(base + 4 * k);
    OneStep(code, base, During(s, rd, v, p), k, code[k]);
    MoveAgain(code[k], s, rd, v, p);
    RunCompose(code, base, s, k, 1);
    NextAddress(base, k);
  }

  lemma NextAddress(base: Word64, k: nat)
    ensures Wrap(Wrap(base + 4 * k) + 4) == Wrap(base + 4 * (k + 1))
  {
    WrapSum(base + 4 * k, 4);
  }

  lemma NoMoves(code: seq<Instr>, base: Word64, s: Cpu, rd: Register)
    requires rd < |s.x| && s.pc == base
    ensures MovedTo(code, base, s, rd, 0, MovedBy([], rd, Read(s, rd)))
  {
    assert s.x[rd := s.x[rd]] == s.x;
  }

  /** The first m words are moves that leave v in a register that held x, and running them does just that. */
  ghost predicate MovedTo(code: seq<Instr>, base: Word64, s: Cpu, rd: Register, m: nat, v: Word64) {
    Run(code, base, s, m) == Some(During(s, rd, v, Wrap(base + 4 * m)))
  }

  /** Running a prefix of moves. */
  lemma {:induction false} MovesRun(code: seq<Instr>, base: Word64, s: Cpu, rd: Register, m: nat)
    requires m <= |code| < 0x1000 && Moves(code[..m], rd) && rd < |s.x| && s.pc == base
    ensures MovedTo(code, base, s, rd, m, MovedBy(code[..m], rd, Read(s, rd)))
  {
    if m == 0 {
      NoMoves(code, base, s, rd);
    } else {
      LastMove(code, m - 1, rd, Read(s, rd));
      MovesRun(code, base, s, rd, m - 1);
      MoveRuns(code, base, s, rd, m - 1, MovedBy(code[..m - 1], rd, Read(s, rd)));
    }
  }

  /** After the moves the scratch register holds the target. */
  lemma LoadRuns(code: seq<Instr>, mov: seq<Instr>, target: Word64, dest: Word64, s: Cpu)
    requires |mov| <= |code| < 0x1000 && code[..|mov|] == mov && Loads(mov, SCRATCH, target)
    requires s.pc == dest && |s.x| == 31
    ensures Run(code, dest, s, |mov|) == Some(During(s, SCRATCH, target, Wrap(dest + 4 * |mov|)))
  {
    MovesRun(code, dest, s, SCRATCH, |mov|);
  }

  /** The target in the scratch register, the inverted test and a register branch. */
  lemma LongRuns(code: seq<Instr>, mov: seq<Instr>, i: Instr, src: Word64, dest: Word64)
    requires i.CondBranch? && Far(i, src, dest) && |mov| <= 4 && |code| == |mov| + 2 && code[..|mov|] == mov
    requires Loads(mov, SCRATCH, Target(i, src))
    requires code[|mov|] == CondBranch(Inverted(i.test), 8)
    requires code[|mov| + 1] == BranchRegister(false, SCRATCH)
    ensures Relocated(code, i, src, dest)
  {
    var k := |mov|;
    forall s: Cpu | s.pc == dest && |s.x| == 31 ensures Reaches(code, dest, s, Outcome(i, src, dest, |code|, s)) {
      var s1 := During(s, SCRATCH, Target(i, src), Wrap(dest + 4 * k));
      LoadRuns(code, mov, Target(i, src), dest, s);
      LongTail(code, k, i, src, dest, s, s1);
      ReachesMore(code, dest, s, k, s1, Outcome(i, src, dest, |code|, s));
    }
  }

  lemma LongTail(code: seq<Instr>, k: nat, i: Instr, src: Word64, dest: Word64, s: Cpu, s1: Cpu)
    requires i.CondBranch? && Far(i, src, dest) && |code| == k + 2 < 0x1000 && |s.x| == 31
    requires code[k] == CondBranch(Inverted(i.test), 8)
    requires code[k + 1] == BranchRegister(false, SCRATCH)
    requires s1 == During(s, SCRATCH, Target(i, src), Wrap(dest + 4 * k))
    ensures Reaches(code, dest, s1, Outcome(i, src, dest, |code|, s))
  {
    var loaded := Write(s, SCRATCH, Target(i, src));
    SameTest(i.test, s1, loaded);
    SameTest(Inverted(i.test), s1, loaded);
    InvertedHolds(i.test, loaded);
    SkipStep(code, i.test, dest, k, s1);
    if !Holds(Inverted(i.test), s1) {
      var s2 := s1.(pc := Wrap(dest + 4 * (k + 1)));
      OneStep(code, dest, s2, k + 1, code[k + 1]);
      ReachesMore(code, dest, s1, 1, s2, Outcome(i, src, dest, |code|, s));
    }
  }

  /** A test does not look at the program counter. */
  lemma SameTest(t: Test, s: Cpu, s': Cpu)
    requires s' == s.(pc := s'.pc)
    ensures Holds(t, s) == Holds(t, s')
  {
  }

  lemma LinkedEnd(i: Instr, src: Word64, dest: Word64, k: nat, s: Cpu)
    requires i.Branch? && Far(i, src, dest) && |s.x| == 31
    ensures Step(BranchRegister(i.link, SCRATCH), During(s, SCRATCH, Target(i, src), Wrap(dest + 4 * k)))
         == Outcome(i, src, dest, k + 1, s)
  {
    WrapSum(dest + 4 * k, 4);
  }

  /** The target in the scratch register and a register branch, with or without link. */
  lemma LongBranchRuns(code: seq<Instr>, mov: seq<Instr>, i: Instr, src: Word64, dest: Word64)
    requires i.Branch? && Far(i, src, dest) && |mov| <= 4 && |code| == |mov| + 1 && code[..|mov|] == mov
    requires Loads(mov, SCRATCH, Target(i, src))
    requires code[|mov|] == BranchRegister(i.link, SCRATCH)
    ensures Relocated(code, i, src, dest)
  {
    var k := |mov|;
    forall s: Cpu | s.pc == dest && |s.x| == 31 ensures Reaches(code, dest, s, Outcome(i, src, dest, |code|, s)) {
      var s1 := During(s, SCRATCH, Target(i, src), Wrap(dest + 4 * k));
      LoadRuns(code, mov, Target(i, src), dest, s);
      OneStep(code, dest, s1, k, code[k]);
      LinkedEnd(i, src, dest, k, s);
      ReachesMore(code, dest, s, k, s1, Outcome(i, src, dest, |code|, s));
    }
  }
}
