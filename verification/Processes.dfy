/** Processes and their scheduler: creation, destruction, the timer and exit, as steps of one state machine. */
module Processes {
  import opened Bytes
  import opened Paging

  const PROCESS_COUNT_MAX := 16
  const PROCESS_PAGE_FRAME_COUNT_MAX := 8
  const NO_RUNNING_PROCESS := -1

  datatype RunState = READY | RUNNING | BLOCK

  datatype Cpu = Cpu(edi: u32, esi: u32, ebp: u32, esp: u32, ebx: u32, edx: u32, ecx: u32, eax: u32,
                     gs: u32, fs: u32, es: u32, ds: u32)

  /** `pd` is the process's directory, as its number in the pool; a zeroed block has none. */
  datatype Context = Context(cpu: Cpu, eip: u32, eflags: u32, pd: nat)
  datatype Pcb = Pcb(pid: nat, state: RunState, context: Context)

  const ZERO_PCB := Pcb(0, READY, Context(Cpu(0, 0, 0, 0, 0, 0, 0, 0, 0, 0, 0, 0), 0, 0, NULL_DIRECTORY))

  type Table = t: seq<Pcb> | |t| == 16 witness seq(16, i => ZERO_PCB)
  type Slots = s: seq<bool> | |s| == 16 witness seq(16, i => false)
  type Pid = p: int | -1 <= p < 16

  datatype Kernel = Kernel(mem: Memory, table: Table, active: Slots, count: nat, current: Pid)

  function Boot(): Kernel {
    Kernel(BootMemory(), seq(16, i => ZERO_PCB), seq(16, i => false), 0, NO_RUNNING_PROCESS)
  }

  // ----- creating and destroying -----

  function InactiveIndex(active: Slots, i: nat): (p: nat)
    ensures i <= 16 ==> i <= p <= 16
    ensures p < 16 ==> !active[p]
    ensures forall j :: i <= j < p && j < 16 ==> active[j]
    decreases 16 - i
  {
    if i >= 16 then i else if !active[i] then i else InactiveIndex(active, i + 1)
  }

  /** `ceil_div(size + PAGE_FRAME_SIZE, PAGE_FRAME_SIZE)`, both sums in 32 bits. */
  function FramesNeeded(size: u32): u32 {
    ((size + PAGE_FRAME_SIZE) % 0x1_0000_0000 + PAGE_FRAME_SIZE - 1) % 0x1_0000_0000 / PAGE_FRAME_SIZE
  }

  lemma WordBits()
    ensures Pow2(32) == 0x1_0000_0000
  {
    assert Pow2(8) == 256;
    assert Pow2(16) == 0x1_0000;
    assert Pow2(24) == 0x100_0000;
  }

  /** `eflags |= CPU_EFLAGS_BASE_FLAG | CPU_EFLAGS_FLAG_INTERRUPT_ENABLE`. */
  function WithFlags(eflags: u32): (r: u32)
    ensures forall i :: 0 <= i < 32 ==> (TestBit(r, i) <==> i == 1 || i == 9 || TestBit(eflags, i))
  {
    WordBits();
    BitOpsBound(eflags, 1, 32);
    BitOpsBound(SetBit(eflags, 1), 9, 32);
    assert forall i :: 0 <= i < 32 ==>
      (TestBit(SetBit(SetBit(eflags, 1), 9), i) <==> i == 1 || i == 9 || TestBit(eflags, i)) by {
      forall i | 0 <= i < 32
        ensures TestBit(SetBit(SetBit(eflags, 1), 9), i) <==> i == 1 || i == 9 || TestBit(eflags, i)
      {
        SetBitSpec(eflags, 1, i);
        SetBitSpec(SetBit(eflags, 1), 9, i);
      }
    }
    SetBit(SetBit(eflags, 1), 9)
  }

  function FreshContext(was: Context, entry: u32, d: nat): Context {
    Context(was.cpu.(ds := 0x23, es := 0x23, fs := 0x23, gs := 0x23, ebp := 0xBFFF_FFFC, esp := 0xBFFF_FFFC),
            entry, WithFlags(was.eflags), d)
  }

  lemma {:induction false} SetZero(i: nat)
    ensures SetBit(0, i) == Pow2(i)
  {
    if i > 0 { SetZero(i - 1); }
  }

  /** Out of a zeroed block: bits 1 and 9 make 0x202. */
  lemma FlagsOfZero()
    ensures WithFlags(0) == 0x202
  {
    SetZero(1);
    SetZero(7);
    assert Pow2(7) == 128;
    assert SetBit(2, 9) == SetBit(1, 8) * 2;
    assert SetBit(1, 8) == SetBit(0, 7) * 2 + 1;
  }

  /** Whether a request passes the three checks; otherwise the code it is refused with. */
  function Checked(k: Kernel, entry: u32, size: u32): int {
    if k.count >= 16 then 1
    else if entry >= KERNEL_VIRTUAL_ADDRESS_BASE then 2
    else if !AllocateCheck(k.mem, FramesNeeded(size)) || FramesNeeded(size) > 8 then 3
    else 0
  }

  /** `process_create_user_process`; `readOk` is whether the executable could be read. */
  function Create(k: Kernel, entry: u32, size: u32, readOk: bool): (Kernel, int) {
    if Checked(k, entry, size) != 0 then (k, Checked(k, entry, size))
    else
      var p := InactiveIndex(k.active, 0);
      var (m1, d) := NewDir(k.mem);
      if p >= 16 then (k, -1)     // ruled out by the invariant
      else
        var m2 := AllocFrame(AllocFrame(m1, d, entry), d, 0xBFFF_FFFC);
        var k1 := k.(mem := m2, active := k.active[p := true], count := k.count + 1);
        if !readOk then (k1, 4)
        else (k1.(table := k.table[p := Pcb(p, READY, FreshContext(k.table[p].context, entry, d))]), 0)
  }

  /** `process_destroy`. */
  function Destroy(k: Kernel, pid: nat): (Kernel, bool)
    requires pid < 16
  {
    if !k.active[pid] then (k, false)
    else (k.(active := k.active[pid := false], count := if k.count > 0 then k.count - 1 else 0xFFFF_FFFF,
             mem := FreeDir(k.mem, k.table[pid].context.pd), table := k.table[pid := ZERO_PCB]), true)
  }

  // ----- switching -----

  /** `process_get_current_running_pcb_pointer`: the first active process marked running, or 16. */
  function RunningIndex(k: Kernel, i: nat): (r: nat)
    ensures i <= 16 ==> i <= r <= 16
    ensures r < 16 ==> k.active[r] && k.table[r].state == RUNNING
    ensures forall j :: i <= j < r && j < 16 ==> !(k.active[j] && k.table[j].state == RUNNING)
    decreases 16 - i
  {
    if i >= 16 then i else if k.active[i] && k.table[i].state == RUNNING then i else RunningIndex(k, i + 1)
  }

  /** `scheduler_save_context_to_current_running_pcb`. */
  function Save(k: Kernel, cpu: Cpu, eip: u32, eflags: u32): Kernel {
    var r := RunningIndex(k, 0);
    if r >= 16 then k
    else k.(table := k.table[r := k.table[r].(state := READY,
      context := Context(cpu, eip, eflags, k.table[r].context.pd))])
  }

  /** The search of the scheduler, `n` slots from `pid` on; 16 when none of them is active. */
  function Hop(active: Slots, pid: nat, n: nat): (r: nat)
    requires pid < 16
    ensures r <= 16 && (r < 16 ==> active[r])
    decreases n
  {
    if n == 0 then 16 else if active[pid] then pid else Hop(active, (pid + 1) % 16, n - 1)
  }

  function Next(active: Slots, current: Pid): nat { Hop(active, (current + 1) % 16, 16) }

  /**
   * `scheduler_switch_to_next_process` up to the context it hands over; before the first switch there is no old
   * process.
   */
  function Switch(k: Kernel): (Kernel, Context) {
    var n := Next(k.active, k.current);
    if n >= 16 then (k, ZERO_PCB.context)     // the search does not end
    else
      var t1 := k.table[n := k.table[n].(state := RUNNING)];
      var t2 := if n != k.current && k.current >= 0 then t1[k.current := t1[k.current].(state := READY)] else t1;
      (k.(table := t2, current := n), k.table[n].context)
  }

  // ----- the steps -----

  datatype Event = CreateCall(entry: u32, size: u32, readOk: bool) | Kill(pid: nat) | Timer(cpu: Cpu, eip: u32,
    eflags: u32) | Exit

  predicate SomeActive(k: Kernel) { exists i :: 0 <= i < 16 && k.active[i] }

  /** What the machine itself needs for a step to be taken at all. */
  predicate Legal(k: Kernel, e: Event) {
    match e
    case CreateCall(_, _, _) => true
    case Kill(pid) => pid < 16
    case Timer(_, _, _) => SomeActive(k)
    case Exit =>
      var r := RunningIndex(k, 0);
      r < 16 && k.table[r].pid < 16 && SomeActive(Destroy(k, k.table[r].pid).0)
  }

  function Step(k: Kernel, e: Event): Kernel
    requires Legal(k, e)
  {
    match e
    case CreateCall(entry, size, readOk) => Create(k, entry, size, readOk).0
    case Kill(pid) => Destroy(k, pid).0
    case Timer(cpu, eip, eflags) => Switch(Save(k, cpu, eip, eflags)).0
    case Exit => Switch(Destroy(k, k.table[RunningIndex(k, 0)].pid).0).0
  }

  // ----- what always holds -----

  function ActiveCount(active: Slots, n: nat): (c: nat)
    requires n <= 16
    ensures c <= n
  {
    if n == 0 then 0 else ActiveCount(active, n - 1) + if active[n - 1] then 1 else 0
  }

  /** A process is whole, or it has no directory: its executable could not be read, or the pool was empty. */
  ghost predicate SlotOK(k: Kernel, i: nat)
    requires i < 16
  {
    var b := k.table[i];
    && (!k.active[i] ==> b == ZERO_PCB)
    && b.state != BLOCK && (b.state == RUNNING ==> k.active[i] && i == k.current)
    && (k.active[i] ==>
          if b.context.pd < 32 then b.pid == i && k.mem.used[b.context.pd]
          else b.context.pd == NULL_DIRECTORY && (b.pid == 0 || b.pid == i))
  }

  /** Two processes never share an address space. */
  ghost predicate SlotsApart(k: Kernel, i: nat, j: nat)
    requires i < 16 && j < 16
  {
    k.active[i] && k.active[j] && i != j && k.table[i].context.pd < 32 ==>
      k.table[i].context.pd != k.table[j].context.pd
  }

  /** What `made` creations past the checks leave of the thirty frames: each takes two while there are any. */
  function FramesLeft(made: nat): nat { if made <= 15 then 30 - 2 * made else 0 }

  /** `made` counts the creations that passed the checks; each took at most one slot and one directory. */
  ghost predicate KernelOK(k: Kernel, made: nat) {
    && MemoryOK(k.mem) && k.mem.free == FramesLeft(made) && UsedCount(k.mem.used, 32) <= made
    && k.count == ActiveCount(k.active, 16) <= made
    && (forall i :: 0 <= i < 16 ==> SlotOK(k, i))
    && (forall i, j :: 0 <= i < 16 && 0 <= j < 16 ==> SlotsApart(k, i, j))
  }

  lemma {:induction false} ActiveCountSame(a: Slots, b: Slots, n: nat)
    requires n <= 16 && forall i :: 0 <= i < n ==> a[i] == b[i]
    ensures ActiveCount(a, n) == ActiveCount(b, n)
  {
    if n > 0 { ActiveCountSame(a, b, n - 1); }
  }

  lemma {:induction false} ActiveCountSet(a: Slots, p: nat, n: nat, x: bool)
    requires p < n <= 16 && a[p] != x
    ensures ActiveCount(a[p := x], n) == ActiveCount(a, n) + if x then 1 else -1
  {
    if p == n - 1 { ActiveCountSame(a, a[p := x], n - 1); } else { ActiveCountSet(a, p, n - 1, x); }
  }

  lemma {:induction false} ActiveCountFull(a: Slots, n: nat)
    requires n <= 16 && forall i :: 0 <= i < n ==> a[i]
    ensures ActiveCount(a, n) == n
  {
    if n > 0 { ActiveCountFull(a, n - 1); }
  }

  lemma {:induction false} ActiveCountZero(a: Slots, n: nat)
    requires n <= 16
    ensures ActiveCount(a, n) == 0 <==> forall i :: 0 <= i < n ==> !a[i]
  {
    if n > 0 { ActiveCountZero(a, n - 1); }
  }

  lemma {:induction false} NextFinds(active: Slots, pid: nat, n: nat, d: nat)
    requires pid < 16 && d < n <= 16 && active[(pid + d) % 16]
    ensures Hop(active, pid, n) < 16
    decreases n
  {
    if !active[pid] {
      assert d > 0;
      assert ((pid + 1) % 16 + (d - 1)) % 16 == (pid + d) % 16;
      NextFinds(active, (pid + 1) % 16, n - 1, d - 1);
    }
  }

  /** The scheduler's search ends whenever some process is active. */
  lemma SearchEnds(active: Slots, current: Pid, i: nat)
    requires i < 16 && active[i]
    ensures Next(active, current) < 16
  {
    var from := (current + 1) % 16;
    var d := (i - from) % 16;
    assert (from + d) % 16 == i;
    NextFinds(active, from, 16, d);
  }

  // ----- each step keeps it -----

  /** Past the checks there is a slot, and while a frame is left there are a directory and a pair of frames. */
  lemma CheckedHasRoom(k: Kernel, made: nat, entry: u32, size: u32)
    requires KernelOK(k, made) && Checked(k, entry, size) == 0
    ensures InactiveIndex(k.active, 0) < 16 && entry < KERNEL_VIRTUAL_ADDRESS_BASE
    ensures k.mem.free > 0 ==> k.mem.free >= 2 && made <= 14 && NewDir(k.mem).1 < 32
  {
    hide MemoryOK, SlotOK, SlotsApart, FramesNeeded;
    if InactiveIndex(k.active, 0) == 16 { ActiveCountFull(k.active, 16); }
    NewDirOK(k.mem);
  }

  /** A size whose sum does not wrap to no frames passes the checks only while a frame is left. */
  lemma CheckedHasFrame(k: Kernel, entry: u32, size: u32)
    requires Checked(k, entry, size) == 0 && FramesNeeded(size) > 0
    ensures k.mem.free > 0
  {
    assert (FramesNeeded(size) + PAGE_FRAME_SIZE - 1) / PAGE_FRAME_SIZE == 1;
  }

  lemma CreateOK(k: Kernel, made: nat, entry: u32, size: u32, readOk: bool)
    requires KernelOK(k, made)
    ensures var (k', code) := Create(k, entry, size, readOk);
      if Checked(k, entry, size) != 0 then k' == k && code == Checked(k, entry, size)
      else
        && KernelOK(k', made + 1) && code == (if readOk then 0 else 4) && k'.current == k.current
        && k'.mem.free == (if k.mem.free > 0 then k.mem.free - 2 else 0)
  {
    hide MemoryOK, InactiveIndex, UsedCount, ActiveCount, AllocFrame, WithFlags, Checked, FramesNeeded, NewDir;
    if Checked(k, entry, size) == 0 {
      CheckedHasRoom(k, made, entry, size);
      var p, m1, d := InactiveIndex(k.active, 0), NewDir(k.mem).0, NewDir(k.mem).1;
      var m2 := AllocFrame(AllocFrame(m1, d, entry), d, 0xBFFF_FFFC);
      Provided(k, made, entry);
      ActiveCountSet(k.active, p, 16, true);
      var k' := Create(k, entry, size, readOk).0;
      assert k'.mem == m2;
      forall i | 0 <= i < 16 ensures SlotOK(k', i) { assert SlotOK(k, i); }
      forall i, j | 0 <= i < 16 && 0 <= j < 16 ensures SlotsApart(k', i, j) {
        assert SlotsApart(k, i, j) && SlotOK(k, i) && SlotOK(k, j);
      }
    }
  }

  /** The directory and the two frames of a creation. */
  lemma Provided(k: Kernel, made: nat, entry: u32)
    requires entry < KERNEL_VIRTUAL_ADDRESS_BASE && KernelOK(k, made)
    requires k.mem.free > 0 ==> k.mem.free >= 2 && NewDir(k.mem).1 < 32
    ensures var (m1, d) := NewDir(k.mem);
      var m2 := AllocFrame(AllocFrame(m1, d, entry), d, 0xBFFF_FFFC);
      && MemoryOK(m2) && m2.free == (if k.mem.free > 0 then k.mem.free - 2 else 0) && UsedCount(m2.used, 32) <= made + 1
      && (d < 32 || d == NULL_DIRECTORY) && (d < 32 ==> !k.mem.used[d] && m2.used == k.mem.used[d := true])
      && (d >= 32 ==> m2.used == k.mem.used)
  {
    hide MemoryOK, UsedCount, ActiveCount, AllocFrame, SlotOK, SlotsApart, NewDir;
    var m1, d := NewDir(k.mem).0, NewDir(k.mem).1;
    NewDirOK(k.mem);
    if d < 32 {
      UsedCountSet(k.mem.used, d, 32, true);
      AllocFrameOK(m1, d, entry);
      AllocFrameOK(AllocFrame(m1, d, entry), d, 0xBFFF_FFFC);
    } else {
      NoFrameNoChange(m1, d, entry);
      NoFrameNoChange(m1, d, 0xBFFF_FFFC);
    }
  }

  lemma NoFrameNoChange(m: Memory, d: nat, va: u32)
    requires m.free == 0
    ensures AllocFrame(m, d, va) == m
  {}

  lemma DestroyOK(k: Kernel, made: nat, pid: nat)
    requires KernelOK(k, made) && pid < 16
    ensures KernelOK(Destroy(k, pid).0, made) && Destroy(k, pid).0.current == k.current
    ensures (Destroy(k, pid).1 <==> k.active[pid]) && !Destroy(k, pid).0.active[pid]
    ensures forall i :: 0 <= i < 16 && i != pid ==>
      Destroy(k, pid).0.active[i] == k.active[i] && Destroy(k, pid).0.table[i] == k.table[i]
  {
    hide MemoryOK, UsedCount, ActiveCount;
    if k.active[pid] {
      var k', pd := Destroy(k, pid).0, k.table[pid].context.pd;
      FreeDirOK(k.mem, pd);
      assert SlotOK(k, pid);
      if pd < 32 { UsedCountSet(k.mem.used, pd, 32, false); }
      ActiveCountSet(k.active, pid, 16, false);
      ActiveCountZero(k.active, 16);
      forall i | 0 <= i < 16 ensures SlotOK(k', i) { assert SlotOK(k, i) && SlotsApart(k, i, pid); }
      forall i, j | 0 <= i < 16 && 0 <= j < 16 ensures SlotsApart(k', i, j) { assert SlotsApart(k, i, j); }
    }
  }

  /** Saving the context of the running process makes it ready, like all others. */
  lemma SaveOK(k: Kernel, made: nat, cpu: Cpu, eip: u32, eflags: u32)
    requires KernelOK(k, made)
    ensures KernelOK(Save(k, cpu, eip, eflags), made) && Save(k, cpu, eip, eflags).active == k.active
    ensures Save(k, cpu, eip, eflags).current == k.current
    ensures forall i :: 0 <= i < 16 ==> Save(k, cpu, eip, eflags).table[i].state == READY
  {
    hide MemoryOK, UsedCount, ActiveCount, RunningIndex;
    var k' := Save(k, cpu, eip, eflags);
    var r := RunningIndex(k, 0);
    forall i | 0 <= i < 16 ensures SlotOK(k', i) && k'.table[i].state == READY {
      assert SlotOK(k, i) && (r < 16 ==> SlotOK(k, r));
    }
    forall i, j | 0 <= i < 16 && 0 <= j < 16 ensures SlotsApart(k', i, j) { assert SlotsApart(k, i, j); }
  }

  lemma SwitchOK(k: Kernel, made: nat)
    requires KernelOK(k, made) && SomeActive(k)
    ensures var (k', c) := Switch(k);
      && KernelOK(k', made) && k'.active == k.active && k'.mem == k.mem && 0 <= k'.current && k.active[k'.current]
      && k'.current == Next(k.active, k.current) && k'.table[k'.current].state == RUNNING
      && c == k.table[k'.current].context
      && (forall i :: 0 <= i < 16 ==> k'.table[i].context == k.table[i].context)
      && (forall i :: 0 <= i < 16 && i != k'.current ==>
           k'.table[i].state == if i == k.current then READY else k.table[i].state)
  {
    hide MemoryOK, UsedCount, ActiveCount, Hop;
    var i :| 0 <= i < 16 && k.active[i];
    SearchEnds(k.active, k.current, i);
    var k' := Switch(k).0;
    forall i | 0 <= i < 16 ensures SlotOK(k', i) { assert SlotOK(k, i); }
    forall i, j | 0 <= i < 16 && 0 <= j < 16 ensures SlotsApart(k', i, j) { assert SlotsApart(k, i, j); }
  }

  /** Creations past the checks. */
  function Made(k: Kernel, e: Event): nat {
    if e.CreateCall? && Checked(k, e.entry, e.size) == 0 then 1 else 0
  }

  lemma StepOK(k: Kernel, made: nat, e: Event)
    requires KernelOK(k, made) && Legal(k, e)
    ensures KernelOK(Step(k, e), made + Made(k, e))
  {
    hide KernelOK, Create, Destroy, Switch, Save, SomeActive, RunningIndex, Checked, FramesNeeded;
    match e
    case CreateCall(entry, size, readOk) => CreateOK(k, made, entry, size, readOk);
    case Kill(pid) => DestroyOK(k, made, pid);
    case Timer(cpu, eip, eflags) =>
      SaveOK(k, made, cpu, eip, eflags);
      SameActives(k, Save(k, cpu, eip, eflags));
      SwitchOK(Save(k, cpu, eip, eflags), made);
    case Exit =>
      DestroyOK(k, made, k.table[RunningIndex(k, 0)].pid);
      SwitchOK(Destroy(k, k.table[RunningIndex(k, 0)].pid).0, made);
  }

  lemma SameActives(k: Kernel, k': Kernel)
    requires SomeActive(k) && k'.active == k.active
    ensures SomeActive(k')
  {}

  lemma BootOK()
    ensures KernelOK(Boot(), 0)
  {
    hide MemoryOK, BootMemory;
    BootMemoryOK();
    NoneUsed(BootMemory().used, 32);
    ActiveCountZero(Boot().active, 16);
  }

  lemma {:induction false} NoneUsed(used: Flags, n: nat)
    requires n <= 32 && forall i :: 0 <= i < 32 ==> !used[i]
    ensures UsedCount(used, n) == 0
  {
    if n > 0 { NoneUsed(used, n - 1); }
  }
}
