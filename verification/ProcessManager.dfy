/** The process manager and the scheduler as they run: loops over the process list, updated in place. */
module ProcessManager {
  import opened Bytes
  import opened Paging
  import opened Processes

  lemma ScanInactive(active: Slots, i: nat)
    requires i <= 16 && forall j :: 0 <= j < i ==> active[j]
    ensures i == 16 || !active[i] ==> InactiveIndex(active, 0) == i
  {}

  lemma ScanRunning(k: Kernel, i: nat)
    requires i <= 16 && forall j :: 0 <= j < i ==> !(k.active[j] && k.table[j].state == RUNNING)
    ensures i == 16 || (k.active[i] && k.table[i].state == RUNNING) ==> RunningIndex(k, 0) == i
  {}

  lemma HopOnce(active: Slots, pid: nat, n: nat)
    requires pid < 16
    ensures n > 0 ==> Hop(active, pid, n) == if active[pid] then pid else Hop(active, (pid + 1) % 16, n - 1)
    ensures n == 0 ==> Hop(active, pid, n) == 16
  {}

  class Manager {
    const processList: array<Pcb>
    const isProcessActive: array<bool>
    var activeProcessCount: nat
    var currentRunningPid: Pid
    const memory: PageManager

    ghost predicate Valid()
      reads this, memory
    {
      && processList.Length == 16 && isProcessActive.Length == 16 && memory.Valid()
      && isProcessActive != memory.pageFrameMap && isProcessActive != memory.pageDirectoryUsed
    }

    ghost function Value(): Kernel
      reads this, memory, processList, isProcessActive, memory.pageFrameMap, memory.pageDirectoryUsed
      requires Valid()
    {
      Kernel(memory.Value(), processList[..], isProcessActive[..], activeProcessCount, currentRunningPid)
    }

    /** The state after `kernel_setup` mapped the first four megabytes. */
    constructor ()
      ensures Valid() && Value() == Boot()
    {
      processList := new Pcb[16](i => ZERO_PCB);
      isProcessActive := new bool[16](i => false);
      activeProcessCount := 0;
      currentRunningPid := NO_RUNNING_PROCESS;
      memory := new PageManager();
      new;
      var ok := memory.AllocateUserPageFrame(KERNEL_DIRECTORY, 0);
      assert processList[..] == Boot().table;
      assert isProcessActive[..] == Boot().active;
    }

    /** `process_list_get_inactive_index`: the slot is claimed at once. */
    method GetInactiveIndex() returns (ret: nat)
      requires Valid() && InactiveIndex(Value().active, 0) < 16
      modifies this`activeProcessCount, isProcessActive
      ensures Valid() && ret == InactiveIndex(old(Value().active), 0)
      ensures Value() == old(Value()).(active := old(Value().active)[ret := true], count := old(Value().count) + 1)
    {
      ghost var k := Value();
      ret := 0;
      while ret < PROCESS_COUNT_MAX && isProcessActive[ret]
        invariant ret <= 16 && Value() == k && forall j :: 0 <= j < ret ==> isProcessActive[j]
      {
        ret := ret + 1;
      }
      ScanInactive(k.active, ret);
      isProcessActive[ret] := true;
      activeProcessCount := activeProcessCount + 1;
      assert isProcessActive[..] == k.active[ret := true];
    }

    /** `process_get_current_running_pcb_pointer`, as an index; 16 for the null pointer. */
    method GetCurrentRunning() returns (r: nat)
      requires Valid()
      ensures r == RunningIndex(Value(), 0)
    {
      var i := 0;
      while i < PROCESS_COUNT_MAX
        invariant i <= 16 && forall j :: 0 <= j < i ==> !(isProcessActive[j] && processList[j].state == RUNNING)
      {
        ScanRunning(Value(), i);
        if isProcessActive[i] && processList[i].state == RUNNING { return i; }
        i := i + 1;
      }
      ScanRunning(Value(), i);
      return 16;
    }

    /** `process_create_user_process`; `readOk` is what the file system answers. */
    method CreateUserProcess(entry: u32, size: u32, readOk: bool) returns (code: int)
      requires Valid()
      requires Checked(Value(), entry, size) == 0 ==> InactiveIndex(Value().active, 0) < 16
      modifies this`activeProcessCount, processList, isProcessActive, memory, memory.pageFrameMap,
          memory.pageDirectoryUsed
      ensures Valid() && (Value(), code) == Create(old(Value()), entry, size, readOk)
    {
      hide InactiveIndex, NewDir, AllocFrame, WithFlags, FramesNeeded;
      ghost var k := Value();
      if activeProcessCount >= PROCESS_COUNT_MAX { return 1; }
      if entry >= KERNEL_VIRTUAL_ADDRESS_BASE { return 2; }
      var needed := FramesNeeded(size);
      if !(memory.freePageFrameCount >= (needed + PAGE_FRAME_SIZE - 1) % 0x1_0000_0000 / PAGE_FRAME_SIZE)
         || needed > PROCESS_PAGE_FRAME_COUNT_MAX
      {
        return 3;
      }
      var p := GetInactiveIndex();
      var dir := memory.CreateNewPageDirectory();
      var ok := memory.AllocateUserPageFrame(dir, entry);
      ok := memory.AllocateUserPageFrame(dir, 0xBFFF_FFFC);
      if !readOk { return 4; }
      processList[p] := Pcb(p, READY, FreshContext(processList[p].context, entry, dir));
      assert processList[..] == k.table[p := Pcb(p, READY, FreshContext(k.table[p].context, entry, dir))];
      return 0;
    }

    /** `process_destroy`. */
    method DestroyProcess(pid: nat) returns (done: bool)
      requires Valid() && pid < 16
      modifies this`activeProcessCount, processList, isProcessActive, memory, memory.pageDirectoryUsed
      ensures Valid() && (Value(), done) == Destroy(old(Value()), pid)
    {
      hide FreeDir;
      ghost var k := Value();
      if !isProcessActive[pid] { return false; }
      isProcessActive[pid] := false;
      activeProcessCount := if activeProcessCount > 0 then activeProcessCount - 1 else 0xFFFF_FFFF;
      var freed := memory.FreePageDirectory(processList[pid].context.pd);
      processList[pid] := ZERO_PCB;
      assert processList[..] == k.table[pid := ZERO_PCB];
      assert isProcessActive[..] == k.active[pid := false];
      return true;
    }

    /** `scheduler_save_context_to_current_running_pcb`. */
    method SaveContext(cpu: Cpu, eip: u32, eflags: u32)
      requires Valid()
      modifies processList
      ensures Valid() && Value() == Save(old(Value()), cpu, eip, eflags)
    {
      hide RunningIndex;
      ghost var k := Value();
      var r := GetCurrentRunning();
      if r < 16 {
        processList[r] := processList[r].(state := READY,
          context := Context(cpu, eip, eflags, processList[r].context.pd));
        assert processList[..] ==
          k.table[r := k.table[r].(state := READY, context := Context(cpu, eip, eflags, k.table[r].context.pd))];
      }
    }

    /** `scheduler_switch_to_next_process`, up to the context it hands to the processor. */
    method SwitchToNextProcess() returns (handed: Context)
      requires Valid() && SomeActive(Value())
      modifies this`currentRunningPid, processList
      ensures Valid() && (Value(), handed) == Switch(old(Value()))
    {
      hide Hop;
      ghost var k := Value();
      ghost var i :| 0 <= i < 16 && k.active[i];
      SearchEnds(k.active, k.current, i);
      var nextPid := (currentRunningPid + 1) % PROCESS_COUNT_MAX;
      ghost var left := 16;
      HopOnce(k.active, nextPid, left);
      while !isProcessActive[nextPid]
        invariant 0 <= nextPid < 16 && 0 < left <= 16 && Value() == k
        invariant Hop(k.active, nextPid, left) == Next(k.active, k.current) < 16
        decreases left
      {
        HopOnce(k.active, nextPid, left);
        nextPid := (nextPid + 1) % PROCESS_COUNT_MAX;
        left := left - 1;
        HopOnce(k.active, nextPid, left);
      }
      HopOnce(k.active, nextPid, left);
      handed := processList[nextPid].context;
      processList[nextPid] := processList[nextPid].(state := RUNNING);
      if nextPid != currentRunningPid && currentRunningPid >= 0 {
        processList[currentRunningPid] := processList[currentRunningPid].(state := READY);
      }
      currentRunningPid := nextPid;
      assert processList[..] == Switch(k).0.table;
    }

    /** The timer interrupt. */
    method TimerInterrupt(cpu: Cpu, eip: u32, eflags: u32) returns (handed: Context)
      requires Valid() && SomeActive(Value())
      modifies this`currentRunningPid, processList
      ensures Valid() && (Value(), handed) == Switch(Save(old(Value()), cpu, eip, eflags))
    {
      hide RunningIndex, Switch;
      ghost var k := Value();
      SaveContext(cpu, eip, eflags);
      assert Value().active == k.active;
      handed := SwitchToNextProcess();
    }

    /** System call 10. */
    method ExitCall() returns (handed: Context)
      requires Valid() && Legal(Value(), Exit)
      modifies this`currentRunningPid, this`activeProcessCount, processList, isProcessActive, memory,
          memory.pageDirectoryUsed
      ensures Valid()
      ensures (Value(), handed) == Switch(Destroy(old(Value()), old(Value().table[RunningIndex(Value(), 0)].pid)).0)
    {
      hide RunningIndex, Switch;
      var r := GetCurrentRunning();
      var done := DestroyProcess(processList[r].pid);
      handed := SwitchToNextProcess();
    }
  }
}
