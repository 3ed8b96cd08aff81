/**
 * What the steps of the kernel add up to: isolation over all runs, bounded waiting, fair rounds, contexts that come
 * back.
 */
module Scheduling {
  import opened Bytes
  import opened Paging
  import opened Processes

  // ----- whole runs -----

  function After(k: Kernel, es: seq<Event>): Kernel
    requires LegalRun(k, es)
    decreases |es|
  {
    if es == [] then k else After(Step(k, es[0]), es[1..])
  }

  predicate LegalRun(k: Kernel, es: seq<Event>)
    decreases |es|
  {
    es == [] || (Legal(k, es[0]) && LegalRun(Step(k, es[0]), es[1..]))
  }

  /** Creations past the checks in a run. */
  function Creations(k: Kernel, es: seq<Event>): nat
    requires LegalRun(k, es)
    decreases |es|
  {
    if es == [] then 0 else Made(k, es[0]) + Creations(Step(k, es[0]), es[1..])
  }

  lemma {:induction false} RunOK(k: Kernel, made: nat, es: seq<Event>)
    requires KernelOK(k, made) && LegalRun(k, es)
    ensures KernelOK(After(k, es), made + Creations(k, es))
    decreases |es|
  {
    hide KernelOK, Legal, Step, Made;
    if es != [] {
      StepOK(k, made, es[0]);
      RunOK(Step(k, es[0]), made + Made(k, es[0]), es[1..]);
    }
  }

  // ----- where the directories are -----

  predicate HasDirectory(k: Kernel, i: nat)
    requires i < 16
  {
    k.active[i] && k.table[i].context.pd < 32
  }

  /** How many of the first `n` slots hold a process with a directory. */
  function Whole(k: Kernel, n: nat): (c: nat)
    requires n <= 16
    ensures c <= n
  {
    if n == 0 then 0 else Whole(k, n - 1) + if HasDirectory(k, n - 1) then 1 else 0
  }

  lemma {:induction false} WholeSame(k: Kernel, k': Kernel, n: nat)
    requires n <= 16 && forall i :: 0 <= i < n ==> HasDirectory(k', i) == HasDirectory(k, i)
    ensures Whole(k', n) == Whole(k, n)
  {
    hide HasDirectory;
    if n > 0 { WholeSame(k, k', n - 1); }
  }

  lemma {:induction false} WholeSet(k: Kernel, k': Kernel, p: nat, n: nat)
    requires p < n <= 16 && HasDirectory(k', p) != HasDirectory(k, p)
    requires forall i :: 0 <= i < 16 && i != p ==> HasDirectory(k', i) == HasDirectory(k, i)
    ensures Whole(k', n) == Whole(k, n) + if HasDirectory(k', p) then 1 else -1
  {
    hide HasDirectory;
    if p == n - 1 { WholeSame(k, k', n - 1); } else { WholeSet(k, k', p, n - 1); }
  }

  /** A creation that takes a directory for an executable it then cannot read: no process will give it back. */
  predicate Loses(k: Kernel, e: Event) {
    e.CreateCall? && Checked(k, e.entry, e.size) == 0 && NewDir(k.mem).1 < 32 && !e.readOk
  }

  function LostIn(k: Kernel, es: seq<Event>): nat
    requires LegalRun(k, es)
    decreases |es|
  {
    if es == [] then 0 else (if Loses(k, es[0]) then 1 else 0) + LostIn(Step(k, es[0]), es[1..])
  }

  /** The directories in use that no process has. */
  function Ledger(k: Kernel): int { UsedCount(k.mem.used, 32) - Whole(k, 16) }

  lemma LedgerIs(k: Kernel)
    ensures UsedCount(k.mem.used, 32) == Whole(k, 16) + Ledger(k)
  {
    hide UsedCount, Whole;
  }

  lemma CreateLedger(k: Kernel, made: nat, entry: u32, size: u32, readOk: bool)
    requires KernelOK(k, made)
    ensures Ledger(Create(k, entry, size, readOk).0) ==
      Ledger(k) + if Loses(k, CreateCall(entry, size, readOk)) then 1 else 0
  {
    hide MemoryOK, InactiveIndex, UsedCount, ActiveCount, AllocFrame, WithFlags, Checked, FramesNeeded, NewDir, Whole,
      SlotsApart;
    if Checked(k, entry, size) == 0 {
      CheckedHasRoom(k, made, entry, size);
      Provided(k, made, entry);
      var p, d, k' := InactiveIndex(k.active, 0), NewDir(k.mem).1, Create(k, entry, size, readOk).0;
      assert SlotOK(k, p);
      if d < 32 { UsedCountSet(k.mem.used, d, 32, true); }
      assert k'.mem.used == if d < 32 then k.mem.used[d := true] else k.mem.used;
      if d < 32 && readOk { WholeSet(k, k', p, 16); } else { WholeSame(k, k', 16); }
    }
  }

  lemma DestroyLedger(k: Kernel, made: nat, pid: nat)
    requires KernelOK(k, made) && pid < 16
    ensures Ledger(Destroy(k, pid).0) == Ledger(k)
  {
    hide MemoryOK, UsedCount, ActiveCount, Whole, SlotsApart;
    if k.active[pid] {
      var k', pd := Destroy(k, pid).0, k.table[pid].context.pd;
      assert SlotOK(k, pid);
      if pd < 32 {
        UsedCountSet(k.mem.used, pd, 32, false);
        WholeSet(k, k', pid, 16);
      } else {
        WholeSame(k, k', 16);
      }
    }
  }

  /** Contexts saved and states set do not move directories. */
  lemma SameLedger(k: Kernel, k': Kernel)
    requires k'.active == k.active && k'.mem == k.mem
    requires forall i :: 0 <= i < 16 ==> k'.table[i].context.pd == k.table[i].context.pd
    ensures Ledger(k') == Ledger(k)
  {
    hide UsedCount, Whole;
    WholeSame(k, k', 16);
  }

  lemma SwitchLedger(k: Kernel, made: nat)
    requires KernelOK(k, made) && SomeActive(k)
    ensures Ledger(Switch(k).0) == Ledger(k)
  {
    hide KernelOK, Ledger, Switch;
    SwitchOK(k, made);
    SameLedger(k, Switch(k).0);
  }

  /** A step adds to the ledger exactly what it loses. */
  lemma StepLedger(k: Kernel, made: nat, e: Event)
    requires KernelOK(k, made) && Legal(k, e)
    ensures Ledger(Step(k, e)) == Ledger(k) + if Loses(k, e) then 1 else 0
  {
    hide KernelOK, Create, Destroy, Switch, SomeActive, RunningIndex, Checked, FramesNeeded, Ledger, NewDir;
    match e
    case CreateCall(entry, size, readOk) => CreateLedger(k, made, entry, size, readOk);
    case Kill(pid) => DestroyLedger(k, made, pid);
    case Timer(cpu, eip, eflags) =>
      var k1 := Save(k, cpu, eip, eflags);
      SaveOK(k, made, cpu, eip, eflags);
      SameActives(k, k1);
      SameLedger(k, k1);
      SwitchLedger(k1, made);
    case Exit =>
      var pid := k.table[RunningIndex(k, 0)].pid;
      DestroyOK(k, made, pid);
      DestroyLedger(k, made, pid);
      SwitchLedger(Destroy(k, pid).0, made);
  }

  lemma {:induction false} RunLedger(k: Kernel, made: nat, es: seq<Event>)
    requires KernelOK(k, made) && LegalRun(k, es)
    ensures Ledger(After(k, es)) == Ledger(k) + LostIn(k, es)
    decreases |es|
  {
    hide KernelOK, Legal, Step, Made, Loses, Ledger;
    if es != [] {
      StepOK(k, made, es[0]);
      StepLedger(k, made, es[0]);
      RunLedger(Step(k, es[0]), made + Made(k, es[0]), es[1..]);
    }
  }

  lemma BootLedger()
    ensures Ledger(Boot()) == 0
  {
    hide BootMemory;
    BootMemoryOK();
    NoneUsed(Boot().mem.used, 32);
    NoneWhole(Boot(), 16);
  }

  lemma {:induction false} NoneWhole(k: Kernel, n: nat)
    requires n <= 16 && forall i :: 0 <= i < 16 ==> !k.active[i]
    ensures Whole(k, n) == 0
  {
    if n > 0 { NoneWhole(k, n - 1); }
  }

  lemma {:induction false} SomeUnused(used: Flags, d: nat, n: nat)
    requires d < n <= 32 && !used[d]
    ensures UsedCount(used, n) < n
  {
    if d < n - 1 { SomeUnused(used, d, n - 1); }
  }

  /** The pool is empty when all thirty-two directories are in use. */
  lemma EmptyPool(m: Memory)
    ensures NewDir(m).1 == NULL_DIRECTORY <==> UsedCount(m.used, 32) == 32
  {
    hide UsedCount;
    if UnusedDir(m.used, 0) < 32 { SomeUnused(m.used, UnusedDir(m.used, 0), 32); } else { UsedCountFull(m.used, 32); }
  }

  /**
   * From boot on, the directories in use are those of the processes and those lost to executables that could not be
   * read; so the pool is empty exactly when the two make thirty-two.
   */
  lemma PoolEmptyExactly(es: seq<Event>)
    requires LegalRun(Boot(), es)
    ensures UsedCount(After(Boot(), es).mem.used, 32) == Whole(After(Boot(), es), 16) + LostIn(Boot(), es)
    ensures NewDir(After(Boot(), es).mem).1 == NULL_DIRECTORY <==>
      Whole(After(Boot(), es), 16) + LostIn(Boot(), es) == 32
  {
    hide Boot, LegalRun, After, UsedCount, Whole, LostIn, NewDir, KernelOK, Ledger;
    BootOK();
    BootLedger();
    RunLedger(Boot(), 0, es);
    LedgerIs(After(Boot(), es));
    EmptyPool(After(Boot(), es).mem);
  }

  /** Fewer than sixteen unreadable executables never empty the pool, however many processes come and go. */
  lemma PoolLasts(es: seq<Event>)
    requires LegalRun(Boot(), es) && LostIn(Boot(), es) < 16
    ensures NewDir(After(Boot(), es).mem).1 < 32
  {
    hide Boot, LegalRun, After, Whole, LostIn;
    PoolEmptyExactly(es);
  }

  /**
   * From boot on, whatever is asked for: memory is isolated, the free count is what the creations leave of thirty, and
   * a directory is left unless the processes and the unreadable executables hold all thirty-two.
   */
  lemma ReachableOK(es: seq<Event>)
    requires LegalRun(Boot(), es)
    ensures var k := After(Boot(), es);
      && MemoryOK(k.mem) && k.mem.free == FramesLeft(Creations(Boot(), es))
      && UsedCount(k.mem.used, 32) <= Creations(Boot(), es)
      && (Creations(Boot(), es) < 32 ==> NewDir(k.mem).1 < 32)
      && (NewDir(k.mem).1 < 32 <==> Whole(k, 16) + LostIn(Boot(), es) < 32)
  {
    hide Boot, MemoryOK, LegalRun, After, Creations, SlotOK, SlotsApart, ActiveCount, NewDir, Whole, LostIn, UsedCount;
    BootOK();
    RunOK(Boot(), 0, es);
    NewDirOK(After(Boot(), es).mem);
    PoolEmptyExactly(es);
  }

  /** At most one process runs, active and current; all others are ready. The number of processes is counted right. */
  lemma OneRunning(es: seq<Event>, i: nat)
    requires LegalRun(Boot(), es) && i < 16
    ensures var k := After(Boot(), es);
      && (k.table[i].state == READY || (k.table[i].state == RUNNING && k.active[i] && k.current == i))
      && k.count == ActiveCount(k.active, 16)
  {
    hide Boot, MemoryOK, LegalRun, After, Creations, SlotsApart, ActiveCount;
    BootOK();
    RunOK(Boot(), 0, es);
    assert SlotOK(After(Boot(), es), i);
  }

  // ----- what the check on memory misses -----

  /**
   * A creation past the checks takes exactly two frames if and only if the 32-bit sum of its size did not wrap to no
   * frames at all, or there are frames left.
   */
  lemma TwoFramesExactly(k: Kernel, made: nat, entry: u32, size: u32, readOk: bool)
    requires KernelOK(k, made) && Checked(k, entry, size) == 0
    ensures Create(k, entry, size, readOk).0.mem.free == k.mem.free - 2 <==> FramesNeeded(size) > 0 || k.mem.free > 0
  {
    hide KernelOK, Create, FramesNeeded, Checked;
    CreateOK(k, made, entry, size, readOk);
    if FramesNeeded(size) > 0 { CheckedHasFrame(k, entry, size); }
  }

  /** Every creation of the run is one for which that holds. */
  predicate NeverEmptyHanded(k: Kernel, es: seq<Event>)
    requires LegalRun(k, es)
    decreases |es|
  {
    es == [] ||
    ((Made(k, es[0]) == 1 ==> FramesNeeded(es[0].size) > 0 || k.mem.free > 0) &&
      NeverEmptyHanded(Step(k, es[0]), es[1..]))
  }

  /** At most fifteen creations succeed if and only if each of them took its two frames. */
  lemma FifteenExactly(es: seq<Event>)
    requires LegalRun(Boot(), es)
    ensures Creations(Boot(), es) <= 15 <==> NeverEmptyHanded(Boot(), es)
  {
    hide Boot, LegalRun, Creations, NeverEmptyHanded;
    BootOK();
    CreationsBounded(Boot(), 0, es);
  }

  lemma {:induction false} CreationsBounded(k: Kernel, made: nat, es: seq<Event>)
    requires KernelOK(k, made) && LegalRun(k, es)
    ensures made <= 15 ==> (made + Creations(k, es) <= 15 <==> NeverEmptyHanded(k, es))
    decreases |es|
  {
    hide MemoryOK, SlotOK, SlotsApart, UsedCount, ActiveCount, Legal, Step, Checked, FramesNeeded;
    if es != [] {
      StepOK(k, made, es[0]);
      CreationsBounded(Step(k, es[0]), made + Made(k, es[0]), es[1..]);
      if Made(k, es[0]) == 1 && FramesNeeded(es[0].size) > 0 { CheckedHasFrame(k, es[0].entry, es[0].size); }
    }
  }

  /** Such a size exists: with no frame left, a request of 0xFFC00000 bytes still passes the checks. */
  lemma WrappedSizePasses(k: Kernel)
    requires k.count < 16 && k.mem.free == 0
    ensures Checked(k, 0, 0xFFC0_0000) == 0 && FramesNeeded(0xFFC0_0000) == 0
  {}

  // ----- the round-robin search -----

  /** A place on the ring of slots. */
  function Ring(x: nat): (r: nat)
    ensures r < 16 && (x < 16 ==> r == x) && (16 <= x < 32 ==> r == x - 16)
  {
    x % 16
  }

  lemma RingAdd(x: nat, y: nat)
    ensures Ring(Ring(x) + y) == Ring(x + y)
  {}

  /** How far process `i` is behind `current` on the ring. */
  function Distance(current: Pid, i: nat): (d: nat)
    requires i < 16
    ensures d < 16 && Ring(current + 1 + d) == i
  {
    if i > current then i - current - 1 else i + 15 - current
  }

  lemma DistanceUnique(current: Pid, i: nat, d: nat)
    requires i < 16 && d < 16 && Ring(current + 1 + d) == i
    ensures Distance(current, i) == d
  {}

  /** The slot `e` places on from `start` is active. */
  predicate ActiveFrom(active: Slots, start: nat, e: nat) { active[Ring(start + e)] }

  /** The slot `e` places behind `current`'s successor is active. */
  predicate Behind(active: Slots, current: Pid, e: nat) { ActiveFrom(active, current + 1, e) }

  lemma RingShift(active: Slots, start: nat, e: nat)
    ensures ActiveFrom(active, Ring(start), e) == ActiveFrom(active, start, e)
    ensures ActiveFrom(active, Ring(start + 1), e) == ActiveFrom(active, start, e + 1)
  {
    hide Ring;
    RingAdd(start, e);
    RingAdd(start + 1, e);
  }

  lemma HopStep(active: Slots, pid: nat, n: nat)
    requires pid < 16 && n > 0
    ensures Hop(active, pid, n) == if active[pid] then pid else Hop(active, Ring(pid + 1), n - 1)
  {}

  /** The search returns the nearest active slot. */
  lemma {:induction false} HopNearest(active: Slots, pid: nat, n: nat, d: nat)
    requires pid < 16 && d < n <= 16 && ActiveFrom(active, pid, d)
    requires forall e :: 0 <= e < d ==> !ActiveFrom(active, pid, e)
    ensures Hop(active, pid, n) == Ring(pid + d)
    decreases n
  {
    hide Ring, Hop;
    HopStep(active, pid, n);
    assert Ring(pid + 0) == pid;
    if d > 0 {
      assert !ActiveFrom(active, pid, 0);
      var next := Ring(pid + 1);
      RingAdd(pid + 1, d - 1);
      RingShift(active, pid, d - 1);
      forall e | 0 <= e < d - 1 ensures !ActiveFrom(active, next, e) {
        RingShift(active, pid, e);
        assert !ActiveFrom(active, pid, e + 1);
      }
      HopNearest(active, next, n - 1, d - 1);
    }
  }

  lemma NextFrom(active: Slots, current: Pid)
    ensures Next(active, current) == Hop(active, Ring(current + 1), 16)
  {
    hide Hop;
  }

  lemma NextIs(active: Slots, current: Pid, d: nat)
    requires d < 16 && Behind(active, current, d) && forall e :: 0 <= e < d ==> !Behind(active, current, e)
    ensures Next(active, current) == Ring(current + 1 + d)
  {
    hide Ring, Hop, Next, ActiveFrom;
    var from := Ring(current + 1);
    RingShift(active, current + 1, d);
    forall e | 0 <= e < d ensures !ActiveFrom(active, from, e) {
      assert !Behind(active, current, e);
      RingShift(active, current + 1, e);
    }
    HopNearest(active, from, 16, d);
    RingAdd(current + 1, d);
    NextFrom(active, current);
  }

  /** The nearest active slot behind `current`, at its distance. */
  lemma Nearest(active: Slots, current: Pid, i: nat) returns (d: nat)
    requires i < 16 && active[i]
    ensures d <= Distance(current, i) && Next(active, current) == Ring(current + 1 + d) && Behind(active, current, d)
    ensures forall e :: 0 <= e < d ==> !Behind(active, current, e)
  {
    hide Next, Ring, Distance;
    d := 0;
    assert Behind(active, current, Distance(current, i));
    while !Behind(active, current, d)
      invariant d <= Distance(current, i)
      invariant forall e :: 0 <= e < d ==> !Behind(active, current, e)
      decreases 16 - d
    {
      d := d + 1;
    }
    NextIs(active, current, d);
  }

  /** A switch that passes over an active process brings it strictly nearer. */
  lemma PassedOverIsNearer(active: Slots, current: Pid, i: nat)
    requires i < 16 && active[i] && Next(active, current) != i
    ensures Next(active, current) < 16 && Distance(Next(active, current), i) < Distance(current, i)
  {
    hide Next;
    var d := Nearest(active, current, i);
    DistanceUnique(current, Next(active, current), d);
  }

  predicate IsSwitch(e: Event) { e.Timer? || e.Exit? }

  /** Process `i` stays active through the run, and no switch picks it. */
  predicate Waits(k: Kernel, es: seq<Event>, i: nat)
    requires i < 16 && LegalRun(k, es)
    decreases |es|
  {
    k.active[i] &&
    (es == [] || ((IsSwitch(es[0]) ==> Step(k, es[0]).current != i) && Waits(Step(k, es[0]), es[1..], i)))
  }

  function Switches(es: seq<Event>): nat {
    if es == [] then 0 else (if IsSwitch(es[0]) then 1 else 0) + Switches(es[1..])
  }

  lemma StepDistance(k: Kernel, made: nat, e: Event, i: nat)
    requires KernelOK(k, made) && Legal(k, e) && i < 16 && k.active[i] && Step(k, e).active[i]
    requires IsSwitch(e) ==> Step(k, e).current != i
    ensures if IsSwitch(e) then Distance(Step(k, e).current, i) < Distance(k.current, i)
        else Step(k, e).current == k.current
  {
    hide KernelOK, Create, Destroy, Switch, Save, SomeActive, RunningIndex, Checked, FramesNeeded, Next, Distance;
    match e
    case CreateCall(entry, size, readOk) => CreateOK(k, made, entry, size, readOk);
    case Kill(pid) => DestroyOK(k, made, pid);
    case Timer(cpu, eip, eflags) =>
      var k1 := Save(k, cpu, eip, eflags);
      SaveOK(k, made, cpu, eip, eflags);
      SameActives(k, k1);
      SwitchOK(k1, made);
      PassedOverIsNearer(k1.active, k1.current, i);
    case Exit =>
      var k1 := Destroy(k, k.table[RunningIndex(k, 0)].pid).0;
      DestroyOK(k, made, k.table[RunningIndex(k, 0)].pid);
      SwitchOK(k1, made);
      PassedOverIsNearer(k1.active, k1.current, i);
  }

  /**
   * Bounded waiting: whatever else comes and goes, a process that stays active waits for fewer than sixteen switches.
   */
  lemma {:induction false} BoundedWaiting(k: Kernel, made: nat, es: seq<Event>, i: nat)
    requires i < 16 && LegalRun(k, es) && Waits(k, es, i) && KernelOK(k, made)
    ensures Switches(es) <= Distance(k.current, i) <= 15
    decreases |es|
  {
    hide KernelOK, Legal, Step, Distance, Made;
    if es != [] {
      StepOK(k, made, es[0]);
      StepDistance(k, made, es[0], i);
      BoundedWaiting(Step(k, es[0]), made + Made(k, es[0]), es[1..], i);
    }
  }

  // ----- fair rounds -----

  /** The processes picked by `n` switches among an unchanging set. */
  function Picks(active: Slots, current: Pid, n: nat): (ps: seq<nat>)
    ensures |ps| <= n && forall m :: 0 <= m < |ps| ==> ps[m] < 16 && active[ps[m]]
    decreases n
  {
    if n == 0 || Next(active, current) >= 16 then []
    else [Next(active, current)] + Picks(active, Next(active, current), n - 1)
  }

  /** How many of the `d` slots from `start` on are active. */
  function Ahead(active: Slots, start: nat, d: nat): (c: nat)
    ensures c <= d
    decreases d
  {
    if d == 0 then 0 else Ahead(active, start, d - 1) + if ActiveFrom(active, start, d - 1) then 1 else 0
  }

  lemma {:induction false} AheadMonotone(active: Slots, start: nat, d: nat, e: nat)
    requires d <= e
    ensures Ahead(active, start, d) <= Ahead(active, start, e)
    ensures (forall x :: d <= x < e ==> !ActiveFrom(active, start, x)) ==>
        Ahead(active, start, e) == Ahead(active, start, d)
    decreases e
  {
    hide ActiveFrom;
    if d < e { AheadMonotone(active, start, d, e - 1); }
  }

  /** Counting from one slot further on. */
  lemma {:induction false} AheadShift(active: Slots, start: nat, d: nat)
    ensures Ahead(active, start, d + 1) == (if ActiveFrom(active, start, 0) then 1 else 0) + Ahead(active, start + 1, d)
    decreases d
  {
    if d > 0 {
      AheadShift(active, start, d - 1);
    }
  }

  lemma {:induction false} AheadAround(active: Slots, start: nat)
    ensures Ahead(active, start + 16, 16) == Ahead(active, start, 16)
    ensures Ahead(active, start + 1, 16) == Ahead(active, start, 16)
  {
    AheadShift(active, start, 16);
    assert Ahead(active, start, 17) == Ahead(active, start, 16) + if ActiveFrom(active, start, 16) then 1 else 0;
    AheadPeriodic(active, start, 16);
  }

  lemma RingAround(x: nat)
    ensures Ring(x + 16) == Ring(x)
  {}

  lemma {:induction false} AheadPeriodic(active: Slots, start: nat, d: nat)
    ensures Ahead(active, start + 16, d) == Ahead(active, start, d)
    decreases d
  {
    if d > 0 {
      AheadPeriodic(active, start, d - 1);
      RingAround(start + (d - 1));
    }
  }

  /** All sixteen slots from anywhere are all the slots there are. */
  lemma {:induction false} AheadAll(active: Slots, start: nat)
    ensures Ahead(active, start, 16) == ActiveCount(active, 16)
    decreases start
  {
    if start == 0 { AheadFromZero(active, 16); } else { AheadAll(active, start - 1); AheadAround(active, start - 1); }
  }

  lemma {:induction false} AheadFromZero(active: Slots, n: nat)
    requires n <= 16
    ensures Ahead(active, 0, n) == ActiveCount(active, n)
  {
    if n > 0 { AheadFromZero(active, n - 1); }
  }

  /** The rank of an active process: how many active ones come before it on the ring. */
  function Rank(active: Slots, current: Pid, i: nat): nat
    requires i < 16
  {
    Ahead(active, current + 1, Distance(current, i))
  }

  lemma RankBelow(active: Slots, current: Pid, i: nat, j: nat)
    requires i < 16 && j < 16 && active[i] && Distance(current, i) < Distance(current, j)
    ensures Rank(active, current, i) < Rank(active, current, j)
  {
    hide Ring;
    var d := Distance(current, i);
    assert ActiveFrom(active, current + 1, d);
    AheadMonotone(active, current + 1, d + 1, Distance(current, j));
  }

  lemma RanksDiffer(active: Slots, current: Pid, i: nat, j: nat)
    requires i < 16 && j < 16 && active[i] && active[j] && Rank(active, current, i) == Rank(active, current, j)
    ensures i == j
  {
    if Distance(current, i) < Distance(current, j) { RankBelow(active, current, i, j); }
    if Distance(current, j) < Distance(current, i) { RankBelow(active, current, j, i); }
  }

  /** Ranks lie below the number of active processes. */
  lemma RankBound(active: Slots, current: Pid, i: nat)
    requires i < 16 && active[i]
    ensures Rank(active, current, i) < ActiveCount(active, 16)
  {
    hide Ring;
    var d := Distance(current, i);
    assert ActiveFrom(active, current + 1, d);
    AheadMonotone(active, current + 1, d + 1, 16);
    AheadAll(active, current + 1);
  }

  /**
   * The active process that follows `p` on the ring from `current`, unless `p` is the last one before the ring closes.
   */
  lemma NextRank(active: Slots, current: Pid, p: nat)
    requires p < 16 && active[p] && Rank(active, current, p) + 1 < ActiveCount(active, 16)
    ensures Next(active, p) < 16 && active[Next(active, p)]
    ensures Rank(active, current, Next(active, p)) == Rank(active, current, p) + 1
  {
    hide Next, Ring, Distance, ActiveCount, ActiveFrom;
    var s, d := current + 1, Distance(current, p);
    AheadAll(active, s);
    assert ActiveFrom(active, s, d) by { AtDistance(active, current, p); }
    var e := FirstFrom(active, s, d + 1);
    AheadMonotone(active, s, d + 1, e);
    assert e < 16;
    NextAt(active, current, p, s, e);
    AtDistance(active, current, Next(active, p));
  }

  lemma FirstFrom(active: Slots, s: nat, from: nat) returns (e: nat)
    requires from <= 16
    ensures from <= e <= 16 && (e < 16 ==> ActiveFrom(active, s, e))
    ensures forall x :: from <= x < e ==> !ActiveFrom(active, s, x)
  {
    hide ActiveFrom;
    e := from;
    while e < 16 && !ActiveFrom(active, s, e)
      invariant from <= e <= 16 && forall x :: from <= x < e ==> !ActiveFrom(active, s, x)
    {
      e := e + 1;
    }
  }

  /** The first active slot beyond `p`, at distance `e` from `current`, is the successor of `p`. */
  lemma NextAt(active: Slots, current: Pid, p: nat, s: nat, e: nat)
    requires s == current + 1 && p < 16 && Distance(current, p) < e < 16 && ActiveFrom(active, s, e)
    requires forall x :: Distance(current, p) + 1 <= x < e ==> !ActiveFrom(active, s, x)
    ensures Next(active, p) < 16 && Distance(current, Next(active, p)) == e
  {
    hide Next, Ring, Distance, ActiveFrom, Behind;
    var d := Distance(current, p);
    forall x | 0 <= x < e - d - 1 ensures !Behind(active, p, x) {
      FromOther(active, current, p, x);
      assert !ActiveFrom(active, s, d + 1 + x);
    }
    FromOther(active, current, p, e - d - 1);
    NextIs(active, p, e - d - 1);
    DistanceUnique(current, Next(active, p), e);
  }

  lemma AtDistance(active: Slots, current: Pid, i: nat)
    requires i < 16
    ensures ActiveFrom(active, current + 1, Distance(current, i)) == active[i]
  {
    hide Ring, Distance;
  }

  /** The same slot counted from `p` and from `current`. */
  lemma FromOther(active: Slots, current: Pid, p: nat, x: nat)
    requires p < 16
    ensures Behind(active, p, x) == ActiveFrom(active, current + 1, Distance(current, p) + 1 + x)
    ensures Ring(p + 1 + x) == Ring(current + 1 + (Distance(current, p) + 1 + x))
  {
    hide Ring, Distance;
    RingAdd(current + 1 + Distance(current, p), 1 + x);
  }

  lemma FirstRank(active: Slots, current: Pid)
    requires ActiveCount(active, 16) > 0
    ensures Next(active, current) < 16 && active[Next(active, current)]
    ensures Rank(active, current, Next(active, current)) == 0
  {
    hide Next, Ring, Distance, ActiveFrom;
    ActiveCountZero(active, 16);
    var i :| 0 <= i < 16 && active[i];
    hide ActiveCount;
    var d := Nearest(active, current, i);
    var s := current + 1;
    forall x | 0 <= x < d ensures !ActiveFrom(active, s, x) { assert !Behind(active, current, x); }
    AheadMonotone(active, s, 0, d);
    DistanceUnique(current, Next(active, current), d);
    AtDistance(active, current, Next(active, current));
  }

  /** The picks after `p`, with their ranks counted from `current`. */
  lemma {:induction false} PicksFrom(active: Slots, current: Pid, p: nat, n: nat)
    requires p < 16 && active[p] && Rank(active, current, p) + n < ActiveCount(active, 16)
    ensures |Picks(active, p, n)| == n
    ensures forall m :: 0 <= m < n ==> Picks(active, p, n)[m] < 16
    ensures forall m :: 0 <= m < n ==>
      Rank(active, current, Picks(active, p, n)[m]) == Rank(active, current, p) + 1 + m
    decreases n
  {
    hide Next, Rank;
    if n > 0 {
      NextRank(active, current, p);
      PicksFrom(active, current, Next(active, p), n - 1);
    }
  }

  /** Value `i` occurs exactly once in `ps`. */
  ghost predicate Once(ps: seq<nat>, i: nat) {
    exists m :: 0 <= m < |ps| && ps[m] == i && forall l :: 0 <= l < |ps| && l != m ==> ps[l] != i
  }

  /** Among a fixed set of `k` active slots, `k` picks hit each of them exactly once. */
  lemma PicksEachOnce(active: Slots, current: Pid, i: nat)
    requires i < 16 && active[i]
    ensures var k := ActiveCount(active, 16);
      |Picks(active, current, k)| == k && Once(Picks(active, current, k), i)
  {
    hide Next, Rank;
    var k := ActiveCount(active, 16);
    RankBound(active, current, i);
    FirstRank(active, current);
    var p := Next(active, current);
    PicksFrom(active, current, p, k - 1);
    var ps := Picks(active, current, k);
    assert ps == [p] + Picks(active, p, k - 1);
    forall m | 0 <= m < k ensures ps[m] < 16 && Rank(active, current, ps[m]) == m {
      if m > 0 { assert ps[m] == Picks(active, p, k - 1)[m - 1]; }
    }
    var r := Rank(active, current, i);
    RanksDiffer(active, current, ps[r], i);
    assert ps[r] == i;
    forall l | 0 <= l < k && l != r ensures ps[l] != i {}
  }

  /** The set of active processes is the same all along the run. */
  predicate Steady(k: Kernel, es: seq<Event>)
    requires LegalRun(k, es)
    decreases |es|
  {
    es == [] || (Step(k, es[0]).active == k.active && Steady(Step(k, es[0]), es[1..]))
  }

  /** The processes that the switches of a run pick, in order. */
  function Picked(k: Kernel, es: seq<Event>): (ps: seq<Pid>)
    requires LegalRun(k, es)
    ensures |ps| == Switches(es)
    decreases |es|
  {
    if es == [] then []
    else (if IsSwitch(es[0]) then [Step(k, es[0]).current] else []) + Picked(Step(k, es[0]), es[1..])
  }

  /** A step either switches to the next active process of those still there, or leaves the current one. */
  lemma StepPicks(k: Kernel, made: nat, e: Event)
    requires KernelOK(k, made) && Legal(k, e)
    ensures Step(k, e).current == if IsSwitch(e) then Next(Step(k, e).active, k.current) else k.current
    ensures IsSwitch(e) ==> 0 <= Step(k, e).current
  {
    hide KernelOK, Create, Destroy, Switch, Save, SomeActive, RunningIndex, Checked, FramesNeeded, Next;
    match e
    case CreateCall(entry, size, readOk) => CreateOK(k, made, entry, size, readOk);
    case Kill(pid) => DestroyOK(k, made, pid);
    case Timer(cpu, eip, eflags) =>
      SaveOK(k, made, cpu, eip, eflags);
      SameActives(k, Save(k, cpu, eip, eflags));
      SwitchOK(Save(k, cpu, eip, eflags), made);
    case Exit =>
      DestroyOK(k, made, k.table[RunningIndex(k, 0)].pid);
      SwitchOK(Destroy(k, k.table[RunningIndex(k, 0)].pid).0, made);
  }

  /** While the set of active processes stays the same, the switches of a run pick what `Picks` says. */
  lemma {:induction false} PickedArePicks(k: Kernel, made: nat, es: seq<Event>)
    requires LegalRun(k, es) && Steady(k, es) && KernelOK(k, made)
    ensures Picked(k, es) == Picks(k.active, k.current, Switches(es))
    decreases |es|
  {
    hide KernelOK, Legal, Step, Made, Next;
    if es != [] {
      StepOK(k, made, es[0]);
      StepPicks(k, made, es[0]);
      PickedArePicks(Step(k, es[0]), made + Made(k, es[0]), es[1..]);
    }
  }

  /** With a steady set of `k` active processes, any run with `k` switches runs each of them exactly once. */
  lemma FairRound(k: Kernel, made: nat, es: seq<Event>, i: nat)
    requires i < 16 && k.active[i] && KernelOK(k, made)
    requires LegalRun(k, es) && Steady(k, es) && Switches(es) == ActiveCount(k.active, 16)
    ensures exists m :: 0 <= m < Switches(es) && Picked(k, es)[m] == i &&
                        forall l :: 0 <= l < Switches(es) && l != m ==> Picked(k, es)[l] != i
  {
    hide KernelOK, LegalRun, Steady, Picked, Picks, ActiveCount, Switches;
    PickedArePicks(k, made, es);
    PicksEachOnce(k.active, k.current, i);
    var ps := Picks(k.active, k.current, Switches(es));
    var m :| 0 <= m < |ps| && ps[m] == i && forall l :: 0 <= l < |ps| && l != m ==> ps[l] != i;
    assert Picked(k, es)[m] == i;
  }

  // ----- contexts come back -----

  /** The context a timer or exit step hands to the processor. */
  function Handed(k: Kernel, e: Event): Context
    requires Legal(k, e) && IsSwitch(e)
  {
    match e
    case Timer(cpu, eip, eflags) => Switch(Save(k, cpu, eip, eflags)).1
    case Exit => Switch(Destroy(k, k.table[RunningIndex(k, 0)].pid).0).1
  }

  /**
   * What a process starts with: its entry point, the stack pointers at the top of the user part, ring-3 data segments,
   * interrupts enabled, and directory `d`.
   */
  function StartContext(entry: u32, d: nat): Context {
    Context(Cpu(0, 0, 0xBFFF_FFFC, 0xBFFF_FFFC, 0, 0, 0, 0, 0x23, 0x23, 0x23, 0x23), entry, 0x202, d)
  }

  /** For each process, the context recorded for it last: at its creation, or when the timer interrupted it. */
  function Recorded(k: Kernel, e: Event, last: map<nat, Context>): map<nat, Context>
    requires Legal(k, e)
  {
    match e
    case CreateCall(entry, size, readOk) =>
      if Checked(k, entry, size) != 0 then last
      else last[InactiveIndex(k.active, 0) :=
        if readOk then StartContext(entry, NewDir(k.mem).1) else ZERO_PCB.context]
    case Kill(pid) => if k.active[pid] then last - {pid} else last
    case Timer(cpu, eip, eflags) =>
      var r := RunningIndex(k, 0);
      if r < 16 then last[r := Context(cpu, eip, eflags, k.table[r].context.pd)] else last
    case Exit => if k.active[k.table[RunningIndex(k, 0)].pid] then last - {k.table[RunningIndex(k, 0)].pid} else last
  }

  ghost predicate ContextsKept(k: Kernel, last: map<nat, Context>) {
    forall i :: 0 <= i < 16 && k.active[i] ==> i in last && last[i] == k.table[i].context
  }

  lemma DestroyKept(k: Kernel, made: nat, pid: nat, last: map<nat, Context>)
    requires KernelOK(k, made) && ContextsKept(k, last) && pid < 16
    ensures ContextsKept(Destroy(k, pid).0, if k.active[pid] then last - {pid} else last)
  {
    hide KernelOK, FreeDir;
  }

  lemma CreateKept(k: Kernel, made: nat, entry: u32, size: u32, readOk: bool, last: map<nat, Context>)
    requires KernelOK(k, made) && ContextsKept(k, last)
    ensures ContextsKept(Create(k, entry, size, readOk).0, Recorded(k, CreateCall(entry, size, readOk), last))
  {
    hide MemoryOK, AllocFrame, NewDir, FramesNeeded, Checked, WithFlags, InactiveIndex, SlotsApart, UsedCount,
      ActiveCount;
    if Checked(k, entry, size) == 0 {
      CheckedHasRoom(k, made, entry, size);
      assert SlotOK(k, InactiveIndex(k.active, 0));
      FlagsOfZero();
    }
  }

  lemma SaveKept(k: Kernel, cpu: Cpu, eip: u32, eflags: u32, last: map<nat, Context>)
    requires ContextsKept(k, last)
    ensures ContextsKept(Save(k, cpu, eip, eflags), var r := RunningIndex(k, 0);
      if r < 16 then last[r := Context(cpu, eip, eflags, k.table[r].context.pd)] else last)
  {
    hide RunningIndex;
  }

  lemma SwitchKept(k: Kernel, made: nat, last: map<nat, Context>)
    requires KernelOK(k, made) && SomeActive(k) && ContextsKept(k, last)
    ensures ContextsKept(Switch(k).0, last) && 0 <= Switch(k).0.current
    ensures Switch(k).0.current as nat in last && Switch(k).1 == last[Switch(k).0.current]
  {
    hide KernelOK, Switch, Next, ContextsKept;
    SwitchOK(k, made);
    SameKept(k, Switch(k).0, last);
    ContextKeptAt(k, last, Switch(k).0.current);
  }

  lemma SameKept(k: Kernel, k': Kernel, last: map<nat, Context>)
    requires ContextsKept(k, last) && k'.active == k.active && forall i :: 0 <= i < 16 ==>
        k'.table[i].context == k.table[i].context
    ensures ContextsKept(k', last)
  {}

  lemma ContextKeptAt(k: Kernel, last: map<nat, Context>, i: nat)
    requires ContextsKept(k, last) && i < 16 && k.active[i]
    ensures i in last && last[i] == k.table[i].context
  {}

  /** Every switch hands over exactly the context last recorded for the process it picks. */
  lemma HandsOverRecorded(k: Kernel, made: nat, e: Event, last: map<nat, Context>)
    requires KernelOK(k, made) && Legal(k, e) && ContextsKept(k, last)
    ensures ContextsKept(Step(k, e), Recorded(k, e, last))
    ensures IsSwitch(e) ==>
      var p := Step(k, e).current; p >= 0 && p as nat in Recorded(k, e, last) && Handed(k, e) == Recorded(k, e, last)[p]
  {
    hide KernelOK, ContextsKept, Create, Destroy, Switch, Save, SomeActive, RunningIndex, Checked, FramesNeeded,
      InactiveIndex;
    match e
    case CreateCall(entry, size, readOk) => CreateKept(k, made, entry, size, readOk, last);
    case Kill(pid) => DestroyKept(k, made, pid, last);
    case Timer(cpu, eip, eflags) =>
      SaveKept(k, cpu, eip, eflags, last);
      SaveOK(k, made, cpu, eip, eflags);
      SameActives(k, Save(k, cpu, eip, eflags));
      SwitchKept(Save(k, cpu, eip, eflags), made, Recorded(k, e, last));
    case Exit =>
      var pid := k.table[RunningIndex(k, 0)].pid;
      DestroyKept(k, made, pid, last);
      DestroyOK(k, made, pid);
      SwitchKept(Destroy(k, pid).0, made, Recorded(k, e, last));
  }

  function RecordedBy(k: Kernel, es: seq<Event>, last: map<nat, Context>): map<nat, Context>
    requires LegalRun(k, es)
    decreases |es|
  {
    if es == [] then last else RecordedBy(Step(k, es[0]), es[1..], Recorded(k, es[0], last))
  }

  lemma {:induction false} RunKeepsContexts(k: Kernel, made: nat, es: seq<Event>, last: map<nat, Context>)
    requires KernelOK(k, made) && LegalRun(k, es) && ContextsKept(k, last)
    ensures ContextsKept(After(k, es), RecordedBy(k, es, last))
    decreases |es|
  {
    hide KernelOK, ContextsKept, Legal, Step, Made, Recorded;
    if es != [] {
      StepOK(k, made, es[0]);
      HandsOverRecorded(k, made, es[0], last);
      RunKeepsContexts(Step(k, es[0]), made + Made(k, es[0]), es[1..], Recorded(k, es[0], last));
    }
  }

  /** After any run from boot, the next switch resumes its process exactly where it was last recorded. */
  lemma ResumesWhereRecorded(es: seq<Event>, e: Event)
    requires LegalRun(Boot(), es) && Legal(After(Boot(), es), e) && IsSwitch(e)
    ensures var k, last := After(Boot(), es), RecordedBy(Boot(), es, map[]);
      var p := Step(k, e).current;
      p >= 0 && p as nat in Recorded(k, e, last) && Handed(k, e) == Recorded(k, e, last)[p]
  {
    hide KernelOK, Legal, After, RecordedBy, Step, Recorded, Handed, Creations;
    BootOK();
    RunOK(Boot(), 0, es);
    assert ContextsKept(Boot(), map[]);
    RunKeepsContexts(Boot(), 0, es, map[]);
    HandsOverRecorded(After(Boot(), es), 0 + Creations(Boot(), es), e, RecordedBy(Boot(), es, map[]));
  }
}
