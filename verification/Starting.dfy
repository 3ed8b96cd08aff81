/** Creating a process: what is answered, what the process starts with, and what its directory maps while it lives. */
module Starting {
  import opened Bytes
  import opened Paging
  import opened Processes
  import opened Scheduling

  // ----- the answer -----

  /**
   * Sizes above seven page frames are refused up to the one whose 32-bit sums begin to wrap; those that wrap to no
   * frames pass with no frame left, all others need one.
   */
  predicate TooMuch(size: u32, free: nat) {
    0x1C0_0000 < size <= 0xFF80_0000 || (free == 0 && !(0xFF80_0000 < size <= 0xFFC0_0000))
  }

  /**
   * 1 with sixteen processes, 2 for an entry point in the kernel's part, 3 for too much memory, 4 when the executable
   * cannot be read, 0 otherwise; and nothing changes with 1, 2 and 3.
   */
  lemma CreateCodeExactly(k: Kernel, made: nat, entry: u32, size: u32, readOk: bool)
    requires KernelOK(k, made)
    ensures Create(k, entry, size, readOk).1 ==
      if ActiveCount(k.active, 16) == 16 then 1
      else if entry >= 0xC000_0000 then 2
      else if TooMuch(size, k.mem.free) then 3
      else if !readOk then 4 else 0
    ensures 1 <= Create(k, entry, size, readOk).1 <= 3 ==> Create(k, entry, size, readOk).0 == k
  {
    hide KernelOK, Create, ActiveCount;
    CreateOK(k, made, entry, size, readOk);
    CountIs(k, made);
  }

  lemma CountIs(k: Kernel, made: nat)
    requires KernelOK(k, made)
    ensures k.count == ActiveCount(k.active, 16) <= 16
  {
    hide MemoryOK, SlotOK, SlotsApart, UsedCount;
  }

  // ----- the first context -----

  /**
   * The lowest inactive slot `p` gets the entry point, both stack pointers at the top of the user part, ring-3 data
   * segments, bits 1 and 9 of the flags beside those it had, and the lowest unused directory.
   */
  lemma CreatedContext(k: Kernel, entry: u32, size: u32, p: nat)
    requires p < 16 && !k.active[p] && forall j :: 0 <= j < p ==> k.active[j]
    requires Create(k, entry, size, true).1 == 0
    ensures var k' := Create(k, entry, size, true).0;
      var was, c := k.table[p].context, k'.table[p].context;
      && k'.active == k.active[p := true] && k'.table[p].pid == p && k'.table[p].state == READY
      && (forall i :: 0 <= i < 16 && i != p ==> k'.table[i] == k.table[i])
      && c.eip == entry && c.cpu.esp == 0xBFFF_FFFC && c.cpu.ebp == 0xBFFF_FFFC
      && c.cpu.ds == 0x23 && c.cpu.es == 0x23 && c.cpu.fs == 0x23 && c.cpu.gs == 0x23
      && c.cpu.eax == was.cpu.eax && c.cpu.ebx == was.cpu.ebx && c.cpu.ecx == was.cpu.ecx && c.cpu.edx == was.cpu.edx
      && c.cpu.esi == was.cpu.esi && c.cpu.edi == was.cpu.edi
      && (forall i :: 0 <= i < 32 ==> (TestBit(c.eflags, i) <==> i == 1 || i == 9 || TestBit(was.eflags, i)))
      && (if c.pd < 32 then !k.mem.used[c.pd] && (forall d :: 0 <= d < c.pd ==> k.mem.used[d])
          else c.pd == NULL_DIRECTORY && forall d :: 0 <= d < 32 ==> k.mem.used[d])
  {
    hide AllocFrame, FramesNeeded, WithFlags, Checked, TestBit;
  }

  /** In every state reached from boot the slot was zeroed, so the whole context is known. */
  lemma CreatedContextOK(k: Kernel, made: nat, entry: u32, size: u32, p: nat)
    requires p < 16 && !k.active[p] && forall j :: 0 <= j < p ==> k.active[j]
    requires Create(k, entry, size, true).1 == 0 && KernelOK(k, made)
    ensures var k' := Create(k, entry, size, true).0; k'.table[p].context == StartContext(entry, NewDir(k.mem).1)
    ensures Create(k, entry, size, true).0.table[p].state == READY && Create(k, entry, size, true).0.active[p]
  {
    hide MemoryOK, SlotsApart, AllocFrame, FramesNeeded, WithFlags, Checked, NewDir, UsedCount, ActiveCount;
    assert SlotOK(k, p);
    FlagsOfZero();
  }

  /** A process that waits keeps its context and does not run. */
  lemma StepKeepsWaiting(k: Kernel, made: nat, e: Event, p: nat)
    requires KernelOK(k, made) && Legal(k, e) && p < 16 && k.active[p] && Step(k, e).active[p]
    requires k.table[p].state == READY && (IsSwitch(e) ==> Step(k, e).current != p)
    ensures Step(k, e).table[p].context == k.table[p].context && Step(k, e).table[p].state == READY
  {
    hide KernelOK, Create, Destroy, Switch, SomeActive, RunningIndex, Checked, FramesNeeded;
    match e
    case CreateCall(entry, size, readOk) => CreateElsewhere(k, entry, size, readOk, p);
    case Kill(pid) => DestroyOK(k, made, pid);
    case Timer(cpu, eip, eflags) =>
      SaveOK(k, made, cpu, eip, eflags);
      SameActives(k, Save(k, cpu, eip, eflags));
      SwitchOK(Save(k, cpu, eip, eflags), made);
    case Exit =>
      DestroyOK(k, made, k.table[RunningIndex(k, 0)].pid);
      SwitchOK(Destroy(k, k.table[RunningIndex(k, 0)].pid).0, made);
  }

  lemma CreateElsewhere(k: Kernel, entry: u32, size: u32, readOk: bool, p: nat)
    requires p < 16 && k.active[p]
    ensures Create(k, entry, size, readOk).0.table[p] == k.table[p]
  {
    hide AllocFrame, FramesNeeded, FreshContext, Checked, NewDir;
  }

  /** What a switch hands over is what it found recorded for the process it picks, if that process was ready. */
  lemma HandsReady(k: Kernel, made: nat, e: Event, p: nat)
    requires KernelOK(k, made) && Legal(k, e) && IsSwitch(e) && p < 16 && k.active[p] && k.table[p].state == READY
    requires Step(k, e).current == p
    ensures Handed(k, e) == k.table[p].context
  {
    hide KernelOK, Destroy, Switch, SomeActive, RunningIndex;
    match e
    case Timer(cpu, eip, eflags) =>
      SaveOK(k, made, cpu, eip, eflags);
      SameActives(k, Save(k, cpu, eip, eflags));
      SwitchOK(Save(k, cpu, eip, eflags), made);
    case Exit =>
      DestroyOK(k, made, k.table[RunningIndex(k, 0)].pid);
      SwitchOK(Destroy(k, k.table[RunningIndex(k, 0)].pid).0, made);
  }

  lemma {:induction false} WaitingKeepsContext(k: Kernel, made: nat, es: seq<Event>, p: nat)
    requires p < 16 && LegalRun(k, es) && Waits(k, es, p) && k.table[p].state == READY && KernelOK(k, made)
    ensures After(k, es).active[p]
    ensures After(k, es).table[p].context == k.table[p].context && After(k, es).table[p].state == READY
    decreases |es|
  {
    hide KernelOK, Legal, Step, Made;
    if es != [] {
      StepOK(k, made, es[0]);
      StepKeepsWaiting(k, made, es[0], p);
      WaitingKeepsContext(Step(k, es[0]), made + Made(k, es[0]), es[1..], p);
    }
  }

  /**
   * From boot on: whatever happens between the creation of a process and the first switch that picks it, that switch
   * hands over the entry point, the stack pointers, the segments, the flags 0x202 and the directory of the creation.
   */
  lemma StartsAsCreated(es: seq<Event>, entry: u32, size: u32, more: seq<Event>, e: Event, p: nat)
    requires LegalRun(Boot(), es) && p < 16
    requires !After(Boot(), es).active[p] && forall j :: 0 <= j < p ==> After(Boot(), es).active[j]
    requires var (k1, code) := Create(After(Boot(), es), entry, size, true);
      code == 0 && LegalRun(k1, more) && Waits(k1, more, p) && Legal(After(k1, more), e) && IsSwitch(e) &&
      Step(After(k1, more), e).current == p
    ensures var k := After(Boot(), es);
      Handed(After(Create(k, entry, size, true).0, more), e) ==
        Context(Cpu(0, 0, 0xBFFF_FFFC, 0xBFFF_FFFC, 0, 0, 0, 0, 0x23, 0x23, 0x23, 0x23), entry, 0x202,
                NewDir(k.mem).1)
  {
    hide KernelOK, Legal, Step, Create, LegalRun, After, Waits, Handed, Boot, Creations, NewDir;
    BootOK();
    RunOK(Boot(), 0, es);
    var k, made := After(Boot(), es), 0 + Creations(Boot(), es);
    var k1 := Create(k, entry, size, true).0;
    CreatedContextOK(k, made, entry, size, p);
    CreateOK(k, made, entry, size, true);
    var made1 := if Checked(k, entry, size) != 0 then made else made + 1;
    WaitingKeepsContext(k1, made1, more, p);
    RunOK(k1, made1, more);
    HandsReady(After(k1, more), made1 + Creations(k1, more), e, p);
  }

  // ----- what its directory maps -----

  /** With frames left the new directory maps the page of the entry point, that of the stack, and the kernel's. */
  lemma CreateMaps(k: Kernel, made: nat, entry: u32, size: u32, page: nat)
    requires KernelOK(k, made) && k.mem.free > 0 && Create(k, entry, size, true).1 == 0
    requires 0x40_0000 * page <= entry < 0x40_0000 * (page + 1)
    ensures var m, d := Create(k, entry, size, true).0.mem, NewDir(k.mem).1;
      && d < 32 && page < 0x300
      && (forall i :: 0 <= i < 1024 ==> (UserMapped(m, d, i) <==> i == page || i == 0x2FF))
      && m.dirs[d][0x300] == PageEntry(true, true, false, true, 0)
      && (page != 0x2FF ==> m.dirs[d][page].frame < m.dirs[d][0x2FF].frame)
      && forall e, i :: 0 <= e <= 32 && 0 <= i < 1024 && e != d ==> m.dirs[e][i] == k.mem.dirs[e][i]
  {
    hide MemoryOK, SlotOK, SlotsApart, UsedCount, ActiveCount, AllocFrame, NewDir, FreshContext, PageIndex;
    CreateOK(k, made, entry, size, true);
    CheckedHasRoom(k, made, entry, size);
    var m1, d := NewDir(k.mem).0, NewDir(k.mem).1;
    NewDirOK(k.mem);
    NewDirMapped(k.mem);
    PageMapped(m1, d, entry, page);
    AllocFrameOK(m1, d, entry);
    PageMapped(AllocFrame(m1, d, entry), d, 0xBFFF_FFFC, 0x2FF);
    var m := AllocFrame(AllocFrame(m1, d, entry), d, 0xBFFF_FFFC);
    assert Create(k, entry, size, true).0.mem == m;
    forall i | 0 <= i < 1024 ensures UserMapped(m, d, i) <==> i == page || i == 0x2FF {
      assert !UserMapped(m1, d, i);
      if i != page && i != 0x2FF { assert m.dirs[d][i] == AllocFrame(m1, d, entry).dirs[d][i] == m1.dirs[d][i]; }
    }
  }

  // ----- and keeps mapping while the process lives -----

  /** No step changes an entry in the directory of a process that outlives it. */
  lemma StepKeepsSpace(k: Kernel, made: nat, e: Event, i: nat, j: nat)
    requires KernelOK(k, made) && Legal(k, e) && i < 16 && j < 1024 && HasDirectory(k, i) && Step(k, e).active[i]
    ensures HasDirectory(Step(k, e), i) && Step(k, e).table[i].context.pd == k.table[i].context.pd
    ensures Step(k, e).mem.dirs[k.table[i].context.pd][j] == k.mem.dirs[k.table[i].context.pd][j]
  {
    hide KernelOK, Create, Destroy, Switch, Save, SomeActive, RunningIndex, Checked, FramesNeeded;
    match e
    case CreateCall(entry, size, readOk) => CreateKeepsSpace(k, made, entry, size, readOk, i, j);
    case Kill(pid) => DestroyKeepsSpace(k, made, pid, i, j);
    case Timer(cpu, eip, eflags) =>
      SaveOK(k, made, cpu, eip, eflags);
      SaveKeepsSpace(k, cpu, eip, eflags, i);
      SameActives(k, Save(k, cpu, eip, eflags));
      SwitchOK(Save(k, cpu, eip, eflags), made);
    case Exit =>
      var pid := k.table[RunningIndex(k, 0)].pid;
      DestroyOK(k, made, pid);
      SwitchOK(Destroy(k, pid).0, made);
      DestroyKeepsSpace(k, made, pid, i, j);
  }

  lemma SaveKeepsSpace(k: Kernel, cpu: Cpu, eip: u32, eflags: u32, i: nat)
    requires i < 16
    ensures Save(k, cpu, eip, eflags).table[i].context.pd == k.table[i].context.pd
    ensures Save(k, cpu, eip, eflags).mem == k.mem && Save(k, cpu, eip, eflags).active == k.active
  {
    hide RunningIndex;
  }

  lemma CreateKeepsSpace(k: Kernel, made: nat, entry: u32, size: u32, readOk: bool, i: nat, j: nat)
    requires KernelOK(k, made) && i < 16 && j < 1024 && HasDirectory(k, i)
    ensures var k' := Create(k, entry, size, readOk).0;
      && HasDirectory(k', i) && k'.table[i].context.pd == k.table[i].context.pd
      && k'.mem.dirs[k.table[i].context.pd][j] == k.mem.dirs[k.table[i].context.pd][j]
  {
    hide MemoryOK, SlotsApart, UsedCount, ActiveCount, AllocFrame, NewDir, FreshContext, Checked, FramesNeeded;
    assert SlotOK(k, i);
    if Checked(k, entry, size) == 0 {
      CheckedHasRoom(k, made, entry, size);
      var m1, d := NewDir(k.mem).0, NewDir(k.mem).1;
      NewDirOK(k.mem);
      OtherKept(m1, d, entry, k.table[i].context.pd);
      OtherKept(AllocFrame(m1, d, entry), d, 0xBFFF_FFFC, k.table[i].context.pd);
    }
  }

  lemma OtherKept(m: Memory, d: nat, va: u32, e: nat)
    requires e < 32 && e != d
    ensures AllocFrame(m, d, va).dirs[e] == m.dirs[e]
  {}

  lemma DestroyKeepsSpace(k: Kernel, made: nat, pid: nat, i: nat, j: nat)
    requires KernelOK(k, made) && pid < 16 && i < 16 && j < 1024 && HasDirectory(k, i) && Destroy(k, pid).0.active[i]
    ensures var k' := Destroy(k, pid).0;
      && HasDirectory(k', i) && k'.table[i].context.pd == k.table[i].context.pd
      && k'.mem.dirs[k.table[i].context.pd][j] == k.mem.dirs[k.table[i].context.pd][j]
  {
    hide MemoryOK, UsedCount, ActiveCount, SlotOK, ClearedDir;
    assert SlotsApart(k, i, pid);
  }

  /** Every process that has a directory has the kernel's page in it. */
  ghost predicate KernelMapped(k: Kernel) { forall i :: 0 <= i < 16 ==> KernelIn(k, i) }

  predicate KernelIn(k: Kernel, i: nat)
    requires i < 16
  {
    HasDirectory(k, i) ==> k.mem.dirs[k.table[i].context.pd][0x300] == PageEntry(true, true, false, true, 0)
  }

  lemma StepMapsKernel(k: Kernel, made: nat, e: Event)
    requires KernelOK(k, made) && Legal(k, e) && KernelMapped(k)
    ensures KernelMapped(Step(k, e))
  {
    hide KernelOK, Legal, Step;
    forall i | 0 <= i < 16 ensures KernelIn(Step(k, e), i) {
      assert KernelIn(k, i);
      if HasDirectory(k, i) && HasDirectory(Step(k, e), i) {
        StepKeepsSpace(k, made, e, i, 0x300);
      } else if HasDirectory(Step(k, e), i) {
        NewHasKernel(k, made, e, i);
      }
    }
  }

  /** Only a creation gives a slot a directory. */
  lemma NewHasKernel(k: Kernel, made: nat, e: Event, i: nat)
    requires KernelOK(k, made) && Legal(k, e) && i < 16 && !HasDirectory(k, i) && HasDirectory(Step(k, e), i)
    ensures Step(k, e).table[i].context.pd < 32
    ensures Step(k, e).mem.dirs[Step(k, e).table[i].context.pd][0x300] == PageEntry(true, true, false, true, 0)
  {
    hide KernelOK, Create, Destroy, Switch, Save, SomeActive, RunningIndex, Checked, FramesNeeded;
    match e
    case CreateCall(entry, size, readOk) => CreateMapsKernel(k, made, entry, size, readOk, i);
    case Kill(pid) => DestroyOK(k, made, pid);
    case Timer(cpu, eip, eflags) =>
      SaveOK(k, made, cpu, eip, eflags);
      SaveKeepsSpace(k, cpu, eip, eflags, i);
      SameActives(k, Save(k, cpu, eip, eflags));
      SwitchOK(Save(k, cpu, eip, eflags), made);
    case Exit =>
      var pid := k.table[RunningIndex(k, 0)].pid;
      DestroyOK(k, made, pid);
      SwitchOK(Destroy(k, pid).0, made);
  }

  lemma CreateMapsKernel(k: Kernel, made: nat, entry: u32, size: u32, readOk: bool, i: nat)
    requires KernelOK(k, made) && i < 16 && !HasDirectory(k, i)
    requires HasDirectory(Create(k, entry, size, readOk).0, i)
    ensures var k' := Create(k, entry, size, readOk).0;
      k'.mem.dirs[k'.table[i].context.pd][0x300] == PageEntry(true, true, false, true, 0)
  {
    hide MemoryOK, SlotsApart, UsedCount, ActiveCount, AllocFrame, NewDir, Checked, FramesNeeded, WithFlags;
    assert SlotOK(k, i);
    CheckedHasRoom(k, made, entry, size);
    var m1, d := NewDir(k.mem).0, NewDir(k.mem).1;
    NewDirMapped(k.mem);
    EntryKept(m1, d, entry);
    EntryKept(AllocFrame(m1, d, entry), d, 0xBFFF_FFFC);
  }

  lemma EntryKept(m: Memory, d: nat, va: u32)
    requires d < 32 && va < KERNEL_VIRTUAL_ADDRESS_BASE
    ensures AllocFrame(m, d, va).dirs[d][0x300] == m.dirs[d][0x300]
  {}

  lemma {:induction false} RunMapsKernel(k: Kernel, made: nat, es: seq<Event>)
    requires KernelOK(k, made) && LegalRun(k, es) && KernelMapped(k)
    ensures KernelMapped(After(k, es))
    decreases |es|
  {
    hide KernelOK, KernelMapped, Legal, Step, Made;
    if es != [] {
      StepOK(k, made, es[0]);
      StepMapsKernel(k, made, es[0]);
      RunMapsKernel(Step(k, es[0]), made + Made(k, es[0]), es[1..]);
    }
  }

  /** Over every run from boot, the directory of every process that has one maps the kernel at 0xC0000000. */
  lemma ReachableMapsKernel(es: seq<Event>)
    requires LegalRun(Boot(), es)
    ensures KernelMapped(After(Boot(), es))
  {
    hide BootMemory, LegalRun, After;
    BootOK();
    RunMapsKernel(Boot(), 0, es);
  }
}
