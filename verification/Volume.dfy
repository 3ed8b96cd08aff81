/** The state of the driver as a value: the disk and the two caches, with the single steps that change them. */
module Volume {
  import opened Bytes
  import opened Layout
  import opened Metadata

  datatype Volume = Volume(disk: Disk, sb: Superblock, bgdt: Bgdt)

  // ----- 16-bit and 32-bit counters, wrapping as in C -----

  function Dec16(x: u16): u16 { (x + 0xFFFF) % 0x1_0000 }
  function Inc16(x: u16): u16 { (x + 1) % 0x1_0000 }
  function Dec32(x: u32): u32 { (x + 0xFFFF_FFFF) % 0x1_0000_0000 }
  function Inc32(x: u32): u32 { (x + 1) % 0x1_0000_0000 }

  // ----- single steps -----

  function PutBlock(v: Volume, m: nat, b: Block): Volume
    requires m < 8192
  {
    v.(disk := v.disk[m := b])
  }

  /** Set the bitmap bit of block `m` and count it down in both caches. */
  function Take(v: Volume, m: nat): Volume
    requires m < 2048
  {
    var d := v.bgdt[m / 256];
    Volume(MarkUsed(v.disk, m), v.sb.(freeBlocks := Dec32(v.sb.freeBlocks)),
           v.bgdt[m / 256 := d.(freeBlocks := Dec16(d.freeBlocks))])
  }

  /** Clear the bitmap bit of block `m` and count it up in both caches. */
  function Release(v: Volume, m: nat): Volume
    requires m < 2048
  {
    var d := v.bgdt[m / 256];
    Volume(MarkFree(v.disk, m), v.sb.(freeBlocks := Inc32(v.sb.freeBlocks)),
           v.bgdt[m / 256 := d.(freeBlocks := Inc16(d.freeBlocks))])
  }

  function TakeInode(v: Volume, ino: nat): Volume
    requires ValidInode(ino)
  {
    var g := InodeToBgd(ino);
    var d := v.bgdt[g];
    Volume(MarkInodeUsed(v.disk, ino), v.sb.(freeInodes := Dec32(v.sb.freeInodes)),
           v.bgdt[g := d.(freeInodes := Dec16(d.freeInodes))])
  }

  function ReleaseInode(v: Volume, ino: nat): Volume
    requires ValidInode(ino)
  {
    var g := InodeToBgd(ino);
    var d := v.bgdt[g];
    Volume(MarkInodeFree(v.disk, ino), v.sb.(freeInodes := Inc32(v.sb.freeInodes)),
           v.bgdt[g := d.(freeInodes := Inc16(d.freeInodes))])
  }

  // ----- the free counts are always the truth -----

  ghost predicate Counted(v: Volume) { Counts(v.disk, v.sb, v.bgdt) }

  lemma CountedAfterTake(v: Volume, m: nat)
    requires Counted(v) && m < 2048 && !Used(v.disk, m)
    ensures Counted(Take(v, m))
    ensures v.bgdt[m / 256].freeBlocks > 0
  {
    CountsAfterTake(v.disk, v.sb, v.bgdt, m);
  }

  lemma CountedAfterRelease(v: Volume, m: nat)
    requires Counted(v) && m < 2048 && Used(v.disk, m)
    ensures Counted(Release(v, m))
  {
    CountsAfterRelease(v.disk, v.sb, v.bgdt, m);
  }

  lemma CountedAfterTakeInode(v: Volume, ino: nat)
    requires Counted(v) && ValidInode(ino) && !InodeUsed(v.disk, ino)
    ensures Counted(TakeInode(v, ino))
  {
    CountsAfterTakeInode(v.disk, v.sb, v.bgdt, ino);
  }

  lemma CountedAfterReleaseInode(v: Volume, ino: nat)
    requires Counted(v) && ValidInode(ino) && InodeUsed(v.disk, ino)
    ensures Counted(ReleaseInode(v, ino))
  {
    CountsAfterReleaseInode(v.disk, v.sb, v.bgdt, ino);
  }

  /** Apart from the free-block counts the caches are as they were. */
  ghost predicate OnlyFreeBlocks(v: Volume, w: Volume) {
    && w.sb == v.sb.(freeBlocks := w.sb.freeBlocks)
    && forall g :: 0 <= g < 8 ==> w.bgdt[g] == v.bgdt[g].(freeBlocks := w.bgdt[g].freeBlocks)
  }

  lemma OnlyFreeBlocksStep(v: Volume, w: Volume, m: nat)
    requires OnlyFreeBlocks(v, w) && m < 2048
    ensures OnlyFreeBlocks(v, Take(w, m)) && OnlyFreeBlocks(v, Release(w, m))
  {}

  predicate IsBlockBitmap(m: nat) { m == 3 || (256 <= m < 2048 && m % 256 == 0) }
  predicate IsInodeBitmap(m: nat) { m == 4 || (256 <= m < 2048 && m % 256 == 1) }

  lemma CountedAfterPut(v: Volume, m: nat, b: Block)
    requires Counted(v) && m < 8192 && !IsBlockBitmap(m) && !IsInodeBitmap(m)
    ensures Counted(PutBlock(v, m, b))
  {
    var w := PutBlock(v, m, b);
    forall g | 0 <= g < 8 ensures GroupCount(w.disk, w.bgdt, g) { assert GroupCount(v.disk, v.bgdt, g); }
  }

  // ----- searching for a free block or inode -----

  /** The lowest block at or after `m` that is free, or 0: what every block scan of the driver returns. */
  function FirstFree(d: Disk, m: nat): (n: nat)
    ensures n < 2048
    decreases 2048 - m
  {
    if m >= 2048 then 0 else if !Used(d, m) then m else FirstFree(d, m + 1)
  }

  function FirstFreeInode(d: Disk, ino: nat): (n: nat)
    requires ino >= 1
    ensures n <= 896
    decreases 897 - ino
  {
    if ino > 896 then 0 else if !InodeUsed(d, ino) then ino else FirstFreeInode(d, ino + 1)
  }

  /** The scan finds the lowest clear bit from its start on, and fails exactly when there is none. */
  lemma {:induction false} FirstFreeSpec(d: Disk, m: nat)
    requires m > 0 || Used(d, 0)
    ensures var n := FirstFree(d, m);
            if n == 0 then forall k :: m <= k < 2048 ==> Used(d, k)
            else m <= n < 2048 && !Used(d, n) && forall k :: m <= k < n ==> Used(d, k)
    decreases 2048 - m
  {
    hide Used;
    if m < 2048 && Used(d, m) { FirstFreeSpec(d, m + 1); }
  }

  lemma {:induction false} FirstFreeUnique(d: Disk, m: nat, n: nat)
    requires m <= n < 2048 && !Used(d, n) && forall k :: m <= k < n ==> Used(d, k)
    ensures FirstFree(d, m) == n
    decreases n - m
  {
    hide Used;
    if m < n { FirstFreeUnique(d, m + 1, n); }
  }

  lemma {:induction false} FirstFreeNone(d: Disk, m: nat)
    requires forall k :: m <= k < 2048 ==> Used(d, k)
    ensures FirstFree(d, m) == 0
    decreases 2048 - m
  {
    hide Used;
    if m < 2048 { FirstFreeNone(d, m + 1); }
  }

  lemma {:induction false} FirstFreeInodeSpec(d: Disk, ino: nat)
    requires ino >= 1
    ensures var n := FirstFreeInode(d, ino);
            if n == 0 then forall k :: ino <= k <= 896 ==> InodeUsed(d, k)
            else ino <= n <= 896 && !InodeUsed(d, n) && forall k :: ino <= k < n ==> InodeUsed(d, k)
    decreases 897 - ino
  {
    hide InodeUsed;
    if ino <= 896 && InodeUsed(d, ino) { FirstFreeInodeSpec(d, ino + 1); }
  }

  lemma {:induction false} FirstFreeInodeUnique(d: Disk, ino: nat, n: nat)
    requires 1 <= ino <= n <= 896 && !InodeUsed(d, n) && forall k :: ino <= k < n ==> InodeUsed(d, k)
    ensures FirstFreeInode(d, ino) == n
    decreases n - ino
  {
    hide InodeUsed;
    if ino < n { FirstFreeInodeUnique(d, ino + 1, n); }
  }

  lemma {:induction false} FirstFreeInodeNone(d: Disk, ino: nat)
    requires ino >= 1 && forall k :: ino <= k <= 896 ==> InodeUsed(d, k)
    ensures FirstFreeInode(d, ino) == 0
    decreases 897 - ino
  {
    hide InodeUsed;
    if ino <= 896 { FirstFreeInodeNone(d, ino + 1); }
  }

  ghost predicate MetaUsed(d: Disk) {
    forall m {:trigger Used(d, m)} :: 0 <= m < 2048 && Meta(m) ==> Used(d, m)
  }
}
