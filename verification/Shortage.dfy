/** Runs from boot that reach the states in which a creation gets less than it needs. */
module Shortage {
  import opened Paging
  import opened Processes
  import opened Scheduling

  // ----- the runs of the machine -----

  /** What `kernel_setup` does: it creates the shell and switches to it. */
  function Setup(): seq<Event> { [CreateCall(0, 0x10_0000, true), Timer(ZERO_PCB.context.cpu, 0, 0)] }

  /** From there on, calls 9 and 11 come from the process that runs. */
  predicate Asked(k: Kernel, es: seq<Event>)
    requires LegalRun(k, es)
    decreases |es|
  {
    es == [] ||
    ((es[0].CreateCall? || es[0].Kill? ==> RunningIndex(k, 0) < 16) && Asked(Step(k, es[0]), es[1..]))
  }

  /** The shell runs alone, and `n` directories are in use. */
  ghost predicate ShellRuns(k: Kernel, n: nat) {
    && KernelOK(k, n) && k.count == 1 && RunningIndex(k, 0) == 0 && UsedCount(k.mem.used, 32) == n
    && k.active == seq(16, i => i == 0)
  }

  lemma SetupDone()
    ensures LegalRun(Boot(), Setup()) && ShellRuns(After(Boot(), Setup()), 1)
  {
    hide Boot, Create, Switch, Save, KernelOK, LegalRun, After, ShellRuns;
    var k1 := ShellCreated();
    var k2 := ShellPicked(k1);
    TwoSteps(Boot(), Setup()[0], Setup()[1]);
  }

  lemma TwoSteps(k: Kernel, e: Event, f: Event)
    requires Legal(k, e) && Legal(Step(k, e), f)
    ensures LegalRun(k, [e, f]) && After(k, [e, f]) == Step(Step(k, e), f)
  {
    hide Legal, Step;
    assert [e, f][1..] == [f];
    assert [f][1..] == [];
    assert LegalRun(Step(k, e), [f]) && After(Step(k, e), [f]) == Step(Step(k, e), f);
  }

  lemma ShellCreated() returns (k: Kernel)
    ensures Legal(Boot(), Setup()[0]) && k == Step(Boot(), Setup()[0])
    ensures KernelOK(k, 1) && k.count == 1 && k.active == seq(16, i => i == 0) && k.current == -1
    ensures UsedCount(k.mem.used, 32) == 1 && k.table[0].state == READY
  {
    hide BootMemory, AllocFrame, NewDir, UsedCount, ActiveCount, WithFlags, MemoryOK, SlotOK, SlotsApart;
    BootOK();
    BootMemoryOK();
    NoneUsed(Boot().mem.used, 32);
    assert Checked(Boot(), 0, 0x10_0000) == 0;
    assert InactiveIndex(Boot().active, 0) == 0;
    CheckedHasRoom(Boot(), 0, 0, 0x10_0000);
    CreateOK(Boot(), 0, 0, 0x10_0000, true);
    Provided(Boot(), 0, 0);
    UsedCountSet(Boot().mem.used, NewDir(Boot().mem).1, 32, true);
    k := Step(Boot(), Setup()[0]);
    assert k.active == seq(16, i => i == 0);
  }

  lemma ShellPicked(k: Kernel) returns (k': Kernel)
    requires KernelOK(k, 1) && k.count == 1 && k.active == seq(16, i => i == 0) && k.current == -1
    requires UsedCount(k.mem.used, 32) == 1 && k.table[0].state == READY
    ensures Legal(k, Setup()[1]) && k' == Step(k, Setup()[1]) && ShellRuns(k', 1)
  {
    hide MemoryOK, SlotsApart, UsedCount, ActiveCount, Switch;
    assert k.active[0];
    assert SomeActive(k);
    forall i | 0 <= i < 16 ensures k.table[i].state != RUNNING { assert SlotOK(k, i); }
    NoneRuns(k, 0);
    k' := Step(k, Setup()[1]);
    SwitchOK(k, 1);
    assert 0 <= k'.current && k.active[k'.current];
    StepOK(k, 1, Setup()[1]);
  }

  lemma {:induction false} NoneRuns(k: Kernel, i: nat)
    requires i <= 16 && forall j :: 0 <= j < 16 ==> k.table[j].state != RUNNING
    ensures RunningIndex(k, i) == 16
    decreases 16 - i
  {
    if i < 16 { NoneRuns(k, i + 1); }
  }

  // ----- no frame left -----

  /** `n` creations of a one-frame program that can be read. */
  function Creates(n: nat): (es: seq<Event>)
    ensures |es| == n
  {
    if n == 0 then [] else [CreateCall(0, 0, true)] + Creates(n - 1)
  }

  lemma OneMore(k: Kernel, made: nat)
    requires KernelOK(k, made) && k.count == made && made < 15 && RunningIndex(k, 0) == 0
    ensures Legal(k, CreateCall(0, 0, true)) && Made(k, CreateCall(0, 0, true)) == 1
    ensures KernelOK(Step(k, CreateCall(0, 0, true)), made + 1) && Step(k, CreateCall(0, 0, true)).count == made + 1
    ensures RunningIndex(Step(k, CreateCall(0, 0, true)), 0) == 0
  {
    hide MemoryOK, SlotOK, SlotsApart, UsedCount, AllocFrame, WithFlags, InactiveIndex, NewDir;
    assert FramesNeeded(0) == 1 && Checked(k, 0, 0) == 0;
    CheckedHasRoom(k, made, 0, 0);
    CreateOK(k, made, 0, 0, true);
  }

  lemma {:induction false} CreatesCount(k: Kernel, made: nat, n: nat)
    requires KernelOK(k, made) && k.count == made && made + n <= 15 && RunningIndex(k, 0) == 0
    ensures LegalRun(k, Creates(n)) && Asked(k, Creates(n))
    ensures KernelOK(After(k, Creates(n)), made + n) && After(k, Creates(n)).count == made + n
    decreases n
  {
    hide KernelOK, Legal, Step, Made, RunningIndex;
    if n > 0 {
      OneMore(k, made);
      assert Creates(n)[1..] == Creates(n - 1);
      CreatesCount(Step(k, CreateCall(0, 0, true)), made + 1, n - 1);
    }
  }

  /** After fourteen creations by the shell no frame is left, while a slot is. */
  lemma FifteenUseAll()
    ensures LegalRun(Boot(), Setup()) && LegalRun(After(Boot(), Setup()), Creates(14))
    ensures Asked(After(Boot(), Setup()), Creates(14))
    ensures var k := After(After(Boot(), Setup()), Creates(14)); KernelOK(k, 15) && k.mem.free == 0 && k.count == 15
  {
    hide LegalRun, After, Boot, MemoryOK, SlotOK, SlotsApart, UsedCount, ActiveCount, Creates, Setup, Asked,
      RunningIndex;
    SetupDone();
    CreatesCount(After(Boot(), Setup()), 1, 14);
  }

  /** Another one with a wrapping size then passes, and its directory maps nothing of its own. */
  lemma SixteenthIsEmpty(readOk: bool)
    ensures LegalRun(Boot(), Setup()) && LegalRun(After(Boot(), Setup()), Creates(14))
    ensures Asked(After(Boot(), Setup()), Creates(14))
    ensures var k := After(After(Boot(), Setup()), Creates(14));
      var (k', code) := Create(k, 0, 0xFFC0_0000, readOk);
      && Checked(k, 0, 0xFFC0_0000) == 0 && code == (if readOk then 0 else 4) && NewDir(k.mem).1 < 32
      && forall i :: 0 <= i < 1024 ==> !UserMapped(k'.mem, NewDir(k.mem).1, i)
  {
    hide LegalRun, After, Boot, Setup, Asked, Creates, KernelOK, Create, Checked, NewDir, UserMapped;
    FifteenUseAll();
    EmptyHanded(After(After(Boot(), Setup()), Creates(14)), readOk);
  }

  lemma EmptyHanded(k: Kernel, readOk: bool)
    requires KernelOK(k, 15) && k.mem.free == 0 && k.count == 15
    ensures var (k', code) := Create(k, 0, 0xFFC0_0000, readOk);
      && Checked(k, 0, 0xFFC0_0000) == 0 && code == (if readOk then 0 else 4) && NewDir(k.mem).1 < 32
      && forall i :: 0 <= i < 1024 ==> !UserMapped(k'.mem, NewDir(k.mem).1, i)
  {
    hide MemoryOK, SlotOK, SlotsApart, UsedCount, ActiveCount, NewDir, AllocFrame;
    var m1, d := NewDir(k.mem).0, NewDir(k.mem).1;
    WrappedSizePasses(k);
    CheckedHasRoom(k, 15, 0, 0xFFC0_0000);
    NewDirOK(k.mem);
    NoFrameNoChange(m1, d, 0);
    NoFrameNoChange(m1, d, 0xBFFF_FFFC);
    CreateOK(k, 15, 0, 0xFFC0_0000, readOk);
  }

  // ----- no directory left -----

  /** `n` times: the shell starts an executable that cannot be read, and kills what is left of it. */
  function Unreadable(n: nat): seq<Event> {
    if n == 0 then [] else [CreateCall(0, 0xFFC0_0000, false), Kill(1)] + Unreadable(n - 1)
  }

  lemma LeakOne(k: Kernel, n: nat)
    requires n < 32 && ShellRuns(k, n)
    ensures var e := CreateCall(0, 0xFFC0_0000, false);
      && Legal(k, e) && RunningIndex(Step(k, e), 0) == 0 && Legal(Step(k, e), Kill(1))
      && ShellRuns(Step(Step(k, e), Kill(1)), n + 1)
  {
    hide MemoryOK, SlotsApart, UsedCount, ActiveCount, AllocFrame, WithFlags, NewDir, FreeDir;
    assert Checked(k, 0, 0xFFC0_0000) == 0;
    assert InactiveIndex(k.active, 0) == 1;
    assert SlotOK(k, 1);
    CreateOK(k, n, 0, 0xFFC0_0000, false);
    var k1 := Create(k, 0, 0xFFC0_0000, false).0;
    TakesDirectory(k, n);
    assert k1.active == k.active[1 := true] && k1.table == k.table;
    DestroyOK(k1, n + 1, 1);
    NullKept(k1.mem);
  }

  lemma NullKept(m: Memory)
    ensures FreeDir(m, NULL_DIRECTORY) == m
  {}

  lemma TakesDirectory(k: Kernel, n: nat)
    requires n < 32 && ShellRuns(k, n)
    ensures UsedCount(Create(k, 0, 0xFFC0_0000, false).0.mem.used, 32) == n + 1
  {
    hide MemoryOK, SlotOK, SlotsApart, UsedCount, ActiveCount, NewDir, FreeFrame, WithFlags;
    assert Checked(k, 0, 0xFFC0_0000) == 0;
    assert InactiveIndex(k.active, 0) == 1;
    var d := NewDir(k.mem).1;
    NewDirOK(k.mem);
    UsedCountSet(k.mem.used, d, 32, true);
  }

  lemma {:induction false} LeaksCount(k: Kernel, made: nat, n: nat)
    requires ShellRuns(k, made) && made + n <= 32
    ensures LegalRun(k, Unreadable(n)) && Asked(k, Unreadable(n)) && ShellRuns(After(k, Unreadable(n)), made + n)
    decreases n
  {
    hide KernelOK, Legal, Step, RunningIndex, UsedCount;
    if n > 0 {
      LeakOne(k, made);
      var e := CreateCall(0, 0xFFC0_0000, false);
      var k1 := Step(k, e);
      assert Unreadable(n)[0] == e && Unreadable(n)[1..] == [Kill(1)] + Unreadable(n - 1);
      assert ([Kill(1)] + Unreadable(n - 1))[1..] == Unreadable(n - 1);
      LeaksCount(Step(k1, Kill(1)), made + 1, n - 1);
      assert LegalRun(k1, [Kill(1)] + Unreadable(n - 1)) && Asked(k1, [Kill(1)] + Unreadable(n - 1));
    }
  }

  /**
   * Thirty-one such rounds use up the pool while only the shell is there; the next process gets no directory. That the
   * shell goes on after each failed read is taken for granted.
   */
  lemma PoolRunsOut()
    ensures LegalRun(Boot(), Setup()) && LegalRun(After(Boot(), Setup()), Unreadable(31))
    ensures Asked(After(Boot(), Setup()), Unreadable(31))
    ensures var k := After(After(Boot(), Setup()), Unreadable(31));
      k.count == 1 && NewDir(k.mem).1 == NULL_DIRECTORY && Checked(k, 0, 0xFFC0_0000) == 0
  {
    hide LegalRun, After, Boot, Unreadable, NewDir, Checked, Setup, Asked, KernelOK, RunningIndex, UsedCount;
    SetupDone();
    LeaksCount(After(Boot(), Setup()), 1, 31);
    AllLeaked(After(After(Boot(), Setup()), Unreadable(31)));
  }

  lemma AllLeaked(k: Kernel)
    requires ShellRuns(k, 32)
    ensures k.count == 1 && NewDir(k.mem).1 == NULL_DIRECTORY && Checked(k, 0, 0xFFC0_0000) == 0
  {
    hide KernelOK, UsedCount, NewDir, RunningIndex;
    EmptyPool(k.mem);
  }
}
