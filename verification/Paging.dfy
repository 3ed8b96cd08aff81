/** Page frames and page directories: who maps what, and that no frame is mapped twice. */
module Paging {
  import opened Bytes

  const PAGE_FRAME_MAX_COUNT := 32
  const PAGING_DIRECTORY_TABLE_MAX_COUNT := 32
  const PAGE_ENTRY_COUNT := 1024
  const PAGE_FRAME_SIZE := 0x40_0000
  const KERNEL_VIRTUAL_ADDRESS_BASE := 0xC000_0000
  const KERNEL_DIRECTORY := 32
  const NULL_DIRECTORY := 33

  /** The fields of a directory entry the kernel writes; `frame` is the 10-bit lower address. */
  datatype PageEntry = PageEntry(present: bool, write: bool, user: bool, big: bool, frame: nat)

  const NO_ENTRY := PageEntry(false, false, false, false, 0)

  type Dir = t: seq<PageEntry> | |t| == 1024 witness seq(1024, i => NO_ENTRY)

  /** Rows 0 to 31 are the pool of process directories, row 32 is the kernel's own. */
  type Dirs = d: seq<Dir> | |d| == 33 witness seq<Dir>(33, i => EmptyDir())
  type Flags = f: seq<bool> | |f| == 32 witness seq(32, i => false)

  function EmptyDir(): (d: Dir)
    ensures forall i :: 0 <= i < 1024 ==> d[i] == NO_ENTRY
  {
    seq(1024, i => NO_ENTRY)
  }

  datatype Memory = Memory(frames: Flags, free: nat, dirs: Dirs, used: Flags)

  // ----- the operations as functions -----

  /** The lowest free frame from `i` on, or 32. */
  function FreeFrame(frames: Flags, i: nat): (f: nat)
    ensures i <= 32 ==> i <= f <= 32
    ensures f < 32 ==> !frames[f]
    ensures forall j :: i <= j < f && j < 32 ==> frames[j]
    decreases 32 - i
  {
    if i >= 32 then i else if !frames[i] then i else FreeFrame(frames, i + 1)
  }

  function PageIndex(va: u32): (i: nat)
    ensures i < 1024
  {
    va / PAGE_FRAME_SIZE
  }

  /** `paging_allocate_user_page_frame`; an entry written through the null pointer lands in no directory. */
  function AllocFrame(m: Memory, d: nat, va: u32): Memory {
    var f := FreeFrame(m.frames, 1);
    if m.free == 0 || f >= 32 then m
    else m.(frames := m.frames[f := true], free := m.free - 1,
            dirs := if d <= 32 then m.dirs[d := m.dirs[d][PageIndex(va) := PageEntry(true, true, true, true, f)]]
              else m.dirs)
  }

  function UnusedDir(used: Flags, i: nat): (d: nat)
    ensures i <= 32 ==> i <= d <= 32
    ensures d < 32 ==> !used[d]
    ensures forall j :: i <= j < d && j < 32 ==> used[j]
    decreases 32 - i
  {
    if i >= 32 then i else if !used[i] then i else UnusedDir(used, i + 1)
  }

  const KERNEL_ENTRY := PageEntry(true, true, false, true, 0)

  /** `paging_create_new_page_directory`: the directory taken, or null when the pool is empty. */
  function NewDir(m: Memory): (Memory, nat) {
    var d := UnusedDir(m.used, 0);
    if d >= 32 then (m, NULL_DIRECTORY)
    else (m.(used := m.used[d := true], dirs := m.dirs[d := m.dirs[d][0x300 := KERNEL_ENTRY]]), d)
  }

  function Cleared(e: PageEntry): PageEntry { e.(present := false, write := false, big := false) }

  function ClearedDir(t: Dir): (r: Dir)
    ensures forall i :: 0 <= i < 1024 ==> r[i] == Cleared(t[i])
  {
    seq(1024, i requires 0 <= i < 1024 => Cleared(t[i]))
  }

  /** `paging_free_page_directory`; a pointer that is not in the pool is refused. */
  function FreeDir(m: Memory, d: nat): Memory {
    if d >= 32 then m else m.(used := m.used[d := false], dirs := m.dirs[d := ClearedDir(m.dirs[d])])
  }

  /** `paging_allocate_check`: the amount is taken for bytes. */
  predicate AllocateCheck(m: Memory, amount: u32) {
    m.free >= (amount + PAGE_FRAME_SIZE - 1) % 0x1_0000_0000 / PAGE_FRAME_SIZE
  }

  function InitialMemory(): Memory {
    Memory(seq(32, i => i == 0), 31, seq<Dir>(33, i requires 0 <= i < 33 => InitialDir(i)), seq(32, i => false))
  }

  function InitialDir(i: nat): Dir { if i == 32 then KernelDir() else EmptyDir() }

  /** The kernel's directory as linked into the image: the first page and the higher half, both frame 0. */
  function KernelDir(): Dir {
    EmptyDir()[0 := KERNEL_ENTRY][0x300 := KERNEL_ENTRY]
  }

  /** After `kernel_setup` took the frame of the first four megabytes. */
  function BootMemory(): Memory { AllocFrame(InitialMemory(), 32, 0) }

  // ----- what always holds -----

  /** How many of the first `n` frames are free. */
  function FreeCount(frames: Flags, n: nat): (c: nat)
    requires n <= 32
    ensures c <= n
  {
    if n == 0 then 0 else FreeCount(frames, n - 1) + if frames[n - 1] then 0 else 1
  }

  function UsedCount(used: Flags, n: nat): (c: nat)
    requires n <= 32
    ensures c <= n
  {
    if n == 0 then 0 else UsedCount(used, n - 1) + if used[n - 1] then 1 else 0
  }

  lemma {:induction false} FreeCountSet(frames: Flags, f: nat, n: nat)
    requires f < n <= 32 && !frames[f]
    ensures FreeCount(frames[f := true], n) == FreeCount(frames, n) - 1
  {
    if f == n - 1 { FreeCountSame(frames, frames[f := true], n - 1); } else { FreeCountSet(frames, f, n - 1); }
  }

  lemma {:induction false} FreeCountSame(a: Flags, b: Flags, n: nat)
    requires n <= 32 && forall i :: 0 <= i < n ==> a[i] == b[i]
    ensures FreeCount(a, n) == FreeCount(b, n)
  {
    if n > 0 { FreeCountSame(a, b, n - 1); }
  }

  lemma {:induction false} FreeCountZero(frames: Flags, n: nat)
    requires n <= 32 && forall i :: 0 <= i < n ==> frames[i]
    ensures FreeCount(frames, n) == 0
  {
    if n > 0 { FreeCountZero(frames, n - 1); }
  }

  lemma {:induction false} UsedCountSame(a: Flags, b: Flags, n: nat)
    requires n <= 32 && forall i :: 0 <= i < n ==> a[i] == b[i]
    ensures UsedCount(a, n) == UsedCount(b, n)
  {
    if n > 0 { UsedCountSame(a, b, n - 1); }
  }

  lemma {:induction false} UsedCountSet(used: Flags, d: nat, n: nat, b: bool)
    requires d < n <= 32 && used[d] != b
    ensures UsedCount(used[d := b], n) == UsedCount(used, n) + if b then 1 else -1
  {
    if d == n - 1 { UsedCountSame(used, used[d := b], n - 1); } else { UsedCountSet(used, d, n - 1, b); }
  }

  lemma {:induction false} UsedCountFull(used: Flags, n: nat)
    requires n <= 32 && forall i :: 0 <= i < n ==> used[i]
    ensures UsedCount(used, n) == n
  {
    if n > 0 { UsedCountFull(used, n - 1); }
  }

  predicate UserMapped(m: Memory, d: nat, i: nat)
    requires d <= 32 && i < 1024
  {
    m.dirs[d][i].present && m.dirs[d][i].user
  }

  /**
   * A present user entry maps a frame in use, from a directory in use, below the kernel's part of the address space.
   */
  ghost predicate MappingOK(m: Memory, d: nat, i: nat)
    requires d <= 32 && i < 1024
  {
    UserMapped(m, d, i) ==>
      1 <= m.dirs[d][i].frame < 32 && m.frames[m.dirs[d][i].frame] && i < 0x300 && (d == 32 || m.used[d])
  }

  /** Two present user entries map different frames, unless they are the same entry. */
  ghost predicate Apart(m: Memory, d: nat, i: nat, e: nat, j: nat)
    requires d <= 32 && i < 1024 && e <= 32 && j < 1024
  {
    UserMapped(m, d, i) && UserMapped(m, e, j) && m.dirs[d][i].frame == m.dirs[e][j].frame ==> d == e && i == j
  }

  /** Isolation, and a true free count. Frame 0 is never handed out. */
  ghost predicate MemoryOK(m: Memory) {
    && m.frames[0] && m.free == FreeCount(m.frames, 32)
    && (forall d, i :: 0 <= d <= 32 && 0 <= i < 1024 ==> MappingOK(m, d, i))
    && (forall d, i, e, j :: 0 <= d <= 32 && 0 <= i < 1024 && 0 <= e <= 32 && 0 <= j < 1024 ==> Apart(m, d, i, e, j))
  }

  // ----- each operation keeps it -----

  lemma FreeMeansFrame(m: Memory)
    requires m.frames[0] && m.free == FreeCount(m.frames, 32)
    ensures m.free == 0 <==> FreeFrame(m.frames, 1) == 32
  {
    var f := FreeFrame(m.frames, 1);
    if f == 32 { FreeCountZero(m.frames, 32); } else { FreeCountSet(m.frames, f, 32); }
  }

  /** Mapping a page takes the lowest free frame, if there is one, and disturbs no other mapping. */
  lemma AllocFrameOK(m: Memory, d: nat, va: u32)
    requires d <= 32 && va < KERNEL_VIRTUAL_ADDRESS_BASE && (d == 32 || m.used[d]) && MemoryOK(m)
    ensures var m' := AllocFrame(m, d, va);
      && MemoryOK(m') && m'.used == m.used
      && (m.free == 0 ==> m' == m)
      && (m.free > 0 ==> m'.free == m.free - 1 && UserMapped(m', d, PageIndex(va)))
      && (m.free > 0 ==> !m.frames[m'.dirs[d][PageIndex(va)].frame])
      && (forall e, j :: 0 <= e <= 32 && 0 <= j < 1024 && (e != d || j != PageIndex(va)) ==>
           m'.dirs[e][j] == m.dirs[e][j])
  {
    hide FreeFrame, FreeCount, UsedCount;
    var m', f, p := AllocFrame(m, d, va), FreeFrame(m.frames, 1), PageIndex(va);
    FreeMeansFrame(m);
    if m.free > 0 {
      FreeCountSet(m.frames, f, 32);
      forall e, j | 0 <= e <= 32 && 0 <= j < 1024 ensures MappingOK(m', e, j) { assert MappingOK(m, e, j); }
      forall e, j, e', j' | 0 <= e <= 32 && 0 <= j < 1024 && 0 <= e' <= 32 && 0 <= j' < 1024
        ensures Apart(m', e, j, e', j')
      {
        assert Apart(m, e, j, e', j') && MappingOK(m, e, j) && MappingOK(m, e', j');
      }
    }
  }

  /** A directory is taken from the pool exactly when one is unused; its user part is empty. */
  lemma NewDirOK(m: Memory)
    requires MemoryOK(m)
    ensures var (m', d) := NewDir(m);
      && MemoryOK(m') && m'.free == m.free && m'.frames == m.frames && (d < 32 || d == NULL_DIRECTORY)
      && (d == NULL_DIRECTORY ==> m' == m && UsedCount(m.used, 32) == 32)
      && (d < 32 ==> !m.used[d] && m'.used == m.used[d := true] && forall i :: 0 <= i < 1024 ==> !UserMapped(m', d, i))
      && (forall e :: 0 <= e <= 32 && e != d ==> m'.dirs[e] == m.dirs[e])
  {
    hide UnusedDir, FreeCount, UsedCount;
    var (m', d) := NewDir(m);
    if d == NULL_DIRECTORY { UsedCountFull(m.used, 32); } else {
      forall e, j | 0 <= e <= 32 && 0 <= j < 1024 ensures MappingOK(m', e, j) { assert MappingOK(m, e, j); }
      forall i | 0 <= i < 1024 ensures !UserMapped(m', d, i) { assert MappingOK(m, d, i); }
      forall e, j, e', j' | 0 <= e <= 32 && 0 <= j < 1024 && 0 <= e' <= 32 && 0 <= j' < 1024
        ensures Apart(m', e, j, e', j')
      {
        assert Apart(m, e, j, e', j') && MappingOK(m, e, j) && MappingOK(m, e', j');
      }
    }
  }

  /** The entry of the four megabytes around `va` gets the lowest free frame; nothing else in any directory changes. */
  lemma PageMapped(m: Memory, d: nat, va: u32, page: nat)
    requires d <= 32 && 0x40_0000 * page <= va < 0x40_0000 * (page + 1) && MemoryOK(m) && m.free > 0
    ensures var m' := AllocFrame(m, d, va);
      && page < 1024
      && (exists f :: 1 <= f < 32 && !m.frames[f] && (forall g :: 1 <= g < f ==> m.frames[g]) &&
           m'.frames == m.frames[f := true] && m'.dirs[d][page] == PageEntry(true, true, true, true, f))
      && (forall e, j :: 0 <= e <= 32 && 0 <= j < 1024 && (e != d || j != page) ==> m'.dirs[e][j] == m.dirs[e][j])
  {
    hide FreeFrame, FreeCount, MappingOK, Apart;
    FreeMeansFrame(m);
    assert PageIndex(va) == page;
    var f := FreeFrame(m.frames, 1);
    assert AllocFrame(m, d, va).frames == m.frames[f := true];
  }

  /** The lowest unused directory gets the kernel's page at 0xC0000000; nothing else in any directory changes. */
  lemma NewDirMapped(m: Memory)
    ensures var (m', d) := NewDir(m);
      d < 32 ==>
        && !m.used[d] && (forall e :: 0 <= e < d ==> m.used[e]) && m'.used == m.used[d := true]
        && m'.dirs[d][0xC000_0000 / 0x40_0000] == PageEntry(true, true, false, true, 0)
        && forall e, j :: 0 <= e <= 32 && 0 <= j < 1024 && (e != d || j != 0xC000_0000 / 0x40_0000) ==>
          m'.dirs[e][j] == m.dirs[e][j]
  {}

  /** Giving a directory back unmaps all of it and nothing else; its frames stay taken. */
  lemma FreeDirOK(m: Memory, d: nat)
    requires MemoryOK(m)
    ensures var m' := FreeDir(m, d);
      && MemoryOK(m') && m'.free == m.free && m'.frames == m.frames
      && (d < 32 ==> m'.used == m.used[d := false] && forall i :: 0 <= i < 1024 ==>
           m'.dirs[d][i] == PageEntry(false, false, m.dirs[d][i].user, false, m.dirs[d][i].frame))
      && (forall e :: 0 <= e <= 32 && (e != d || d == 32) ==> m'.dirs[e] == m.dirs[e])
  {
    hide FreeCount, UsedCount;
    var m' := FreeDir(m, d);
    if d < 32 {
      forall e, j | 0 <= e <= 32 && 0 <= j < 1024 ensures MappingOK(m', e, j) { assert MappingOK(m, e, j); }
      forall e, j, e', j' | 0 <= e <= 32 && 0 <= j < 1024 && 0 <= e' <= 32 && 0 <= j' < 1024
        ensures Apart(m', e, j, e', j')
      {
        assert Apart(m, e, j, e', j') && MappingOK(m, e, j) && MappingOK(m, e', j');
      }
    }
  }

  /**
   * After booting: frame 1 backs the first four megabytes, the kernel is mapped at 0xC0000000, thirty frames are free.
   */
  lemma BootMemoryOK()
    ensures MemoryOK(BootMemory()) && BootMemory().free == 30 && BootMemory().used == seq(32, i => false)
    ensures BootMemory().dirs[32][0] == PageEntry(true, true, true, true, 1)
    ensures BootMemory().dirs[32][0x300] == PageEntry(true, true, false, true, 0)
    ensures forall i :: 1 <= i < 1024 && i != 0x300 ==> !BootMemory().dirs[32][i].present
  {
    var m := InitialMemory();
    assert m.dirs[32] == KernelDir();
    InitialCount(m.frames, 32);
    forall d, i | 0 <= d <= 32 && 0 <= i < 1024 ensures !UserMapped(m, d, i) { assert m.dirs[d] == InitialDir(d); }
    assert MemoryOK(m);
    AllocFrameOK(m, 32, 0);
  }

  lemma {:induction false} InitialCount(frames: Flags, n: nat)
    requires n <= 32 && forall i :: 0 <= i < 32 ==> frames[i] == (i == 0)
    ensures FreeCount(frames, n) == if n == 0 then 0 else n - 1
  {
    if n > 0 { InitialCount(frames, n - 1); }
  }

  // ----- the manager as it runs -----

  lemma ScanFrames(frames: Flags, i: nat)
    requires 1 <= i <= 32 && forall j :: 1 <= j < i ==> frames[j]
    ensures i == 32 || !frames[i] ==> FreeFrame(frames, 1) == i
  {}

  lemma ScanDirs(used: Flags, i: nat)
    requires i <= 32 && forall j :: 0 <= j < i ==> used[j]
    ensures i == 32 || !used[i] ==> UnusedDir(used, 0) == i
  {}

  class PageManager {
    const pageFrameMap: array<bool>
    const pageDirectoryUsed: array<bool>
    var directories: Dirs
    var freePageFrameCount: nat

    ghost predicate Valid()
      reads this
    {
      pageFrameMap.Length == 32 && pageDirectoryUsed.Length == 32 && pageFrameMap != pageDirectoryUsed
    }

    ghost function Value(): Memory
      reads this, pageFrameMap, pageDirectoryUsed
      requires Valid()
    {
      Memory(pageFrameMap[..], freePageFrameCount, directories, pageDirectoryUsed[..])
    }

    /** The statically initialised state. */
    constructor ()
      ensures Valid() && fresh(pageFrameMap) && fresh(pageDirectoryUsed) && Value() == InitialMemory()
    {
      pageFrameMap := new bool[32](i => i == 0);
      pageDirectoryUsed := new bool[32](i => false);
      directories := InitialMemory().dirs;
      freePageFrameCount := PAGE_FRAME_MAX_COUNT - 1;
      new;
      assert pageFrameMap[..] == InitialMemory().frames;
      assert pageDirectoryUsed[..] == InitialMemory().used;
    }

    method UpdatePageDirectoryEntry(dir: nat, frame: nat, virtualAddr: u32, user: bool)
      requires dir <= 32
      modifies this`directories
      ensures directories == old(directories)[dir := old(directories)[dir][PageIndex(virtualAddr) :=
                PageEntry(true, true, user, true, frame)]]
    {
      directories := directories[dir := directories[dir][PageIndex(virtualAddr) := PageEntry(true, true, user, true,
        frame)]];
    }

    method AllocateUserPageFrame(dir: nat, virtualAddr: u32) returns (ok: bool)
      requires Valid()
      modifies this, pageFrameMap
      ensures Valid() && Value() == AllocFrame(old(Value()), dir, virtualAddr)
      ensures ok <==> old(freePageFrameCount) > 0
    {
      if freePageFrameCount == 0 { return false; }
      ghost var m := Value();
      var i := 1;
      while i < PAGE_FRAME_MAX_COUNT
        invariant 1 <= i <= 32 && Value() == m
        invariant forall j :: 1 <= j < i ==> pageFrameMap[j]
      {
        ScanFrames(m.frames, i);
        if !pageFrameMap[i] {
          pageFrameMap[i] := true;
          if dir <= KERNEL_DIRECTORY { UpdatePageDirectoryEntry(dir, i, virtualAddr, true); }
          freePageFrameCount := freePageFrameCount - 1;
          assert pageFrameMap[..] == m.frames[i := true];
          return true;
        }
        i := i + 1;
      }
      ScanFrames(m.frames, i);
      return true;
    }

    method CreateNewPageDirectory() returns (dir: nat)
      requires Valid()
      modifies this, pageDirectoryUsed
      ensures Valid() && (Value(), dir) == NewDir(old(Value()))
    {
      ghost var m := Value();
      var i := 0;
      while i < PAGING_DIRECTORY_TABLE_MAX_COUNT
        invariant i <= 32 && Value() == m
        invariant forall j :: 0 <= j < i ==> pageDirectoryUsed[j]
      {
        ScanDirs(m.used, i);
        if !pageDirectoryUsed[i] {
          pageDirectoryUsed[i] := true;
          directories := directories[i := directories[i][0x300 := KERNEL_ENTRY]];
          assert pageDirectoryUsed[..] == m.used[i := true];
          return i;
        }
        i := i + 1;
      }
      ScanDirs(m.used, i);
      return NULL_DIRECTORY;
    }

    method FreePageDirectory(dir: nat) returns (ok: bool)
      requires Valid()
      modifies this, pageDirectoryUsed
      ensures Valid() && Value() == FreeDir(old(Value()), dir) && (ok <==> dir < 32)
    {
      ghost var m := Value();
      var i := 0;
      while i < PAGING_DIRECTORY_TABLE_MAX_COUNT
        invariant i <= 32 && Value() == m && (i <= dir || dir >= 32)
      {
        if i == dir {
          pageDirectoryUsed[i] := false;
          var table := directories[i];
          var j := 0;
          while j < PAGE_ENTRY_COUNT
            invariant j <= 1024
            invariant forall k :: 0 <= k < 1024 ==> table[k] == if k < j then Cleared(m.dirs[i][k]) else m.dirs[i][k]
          {
            table := table[j := Cleared(table[j])];
            j := j + 1;
          }
          assert table == ClearedDir(m.dirs[i]);
          directories := directories[i := table];
          assert pageDirectoryUsed[..] == m.used[i := false];
          return true;
        }
        i := i + 1;
      }
      return false;
    }
  }
}
