/** Superblock and block group descriptor table: the two structures the driver caches. */
module Metadata {
  import opened Bytes
  import opened Layout

  datatype Superblock = Superblock(
    inodesCount: u32, blocksCount: u32, rBlocksCount: u32, freeBlocks: u32, freeInodes: u32,
    firstDataBlock: u32, firstIno: u32, blocksPerGroup: u32, fragsPerGroup: u32, inodesPerGroup: u32,
    magic: u16, preallocBlocks: byte, preallocDirBlocks: byte)

  datatype GroupDesc = GroupDesc(
    blockBitmap: u32, inodeBitmap: u32, inodeTable: u32,
    freeBlocks: u16, freeInodes: u16, usedDirs: u16, pad: u16,
    reserved0: u32, reserved1: u32, reserved2: u32)

  type Bgdt = t: seq<GroupDesc> | |t| == 8
    witness seq(8, i => GroupDesc(0, 0, 0, 0, 0, 0, 0, 0, 0, 0))

  datatype DescTable = DescTable(table: Bgdt)

  // ----- the bytes of blocks 1 and 2 -----

  function EncSuperblock(s: Superblock): (r: seq<byte>)
    ensures |r| == 44
  {
    EncPtrs([s.inodesCount, s.blocksCount, s.rBlocksCount, s.freeBlocks, s.freeInodes,
             s.firstDataBlock, s.firstIno, s.blocksPerGroup, s.fragsPerGroup, s.inodesPerGroup])
    + Le16(s.magic) + [s.preallocBlocks, s.preallocDirBlocks]
  }

  function DecSuperblock(b: seq<byte>): Superblock
    requires |b| >= 44
  {
    Superblock(U32At(b, 0), U32At(b, 4), U32At(b, 8), U32At(b, 12), U32At(b, 16),
               U32At(b, 20), U32At(b, 24), U32At(b, 28), U32At(b, 32), U32At(b, 36),
               U16At(b, 40), b[42], b[43])
  }

  lemma SuperblockRoundTrip(s: Superblock, b: seq<byte>)
    requires |b| >= 44 && b[..44] == EncSuperblock(s)
    ensures DecSuperblock(b) == s
  {
    var ps := [s.inodesCount, s.blocksCount, s.rBlocksCount, s.freeBlocks, s.freeInodes,
               s.firstDataBlock, s.firstIno, s.blocksPerGroup, s.fragsPerGroup, s.inodesPerGroup];
    var e := EncPtrs(ps);
    assert b[..40] == e;
    forall j | 0 <= j < 10 ensures U32At(b, 4 * j) == ps[j] {
      assert U32At(b, 4 * j) == U32At(e, 4 * j);
    }
    assert b[40..42] == Le16(s.magic);
    assert U16At(b, 40) == U16At(Le16(s.magic), 0);
    assert U32At(b, 4 * 0) == ps[0] && U32At(b, 4 * 1) == ps[1] && U32At(b, 4 * 2) == ps[2];
    assert U32At(b, 4 * 3) == ps[3] && U32At(b, 4 * 4) == ps[4] && U32At(b, 4 * 5) == ps[5];
    assert U32At(b, 4 * 6) == ps[6] && U32At(b, 4 * 7) == ps[7] && U32At(b, 4 * 8) == ps[8];
    assert U32At(b, 4 * 9) == ps[9];
  }

  function EncDesc(d: GroupDesc): (r: seq<byte>)
    ensures |r| == 32
  {
    Le32(d.blockBitmap) + Le32(d.inodeBitmap) + Le32(d.inodeTable) + Le16(d.freeBlocks) +
    Le16(d.freeInodes) + Le16(d.usedDirs) + Le16(d.pad) +
    Le32(d.reserved0) + Le32(d.reserved1) + Le32(d.reserved2)
  }

  function DecDesc(b: seq<byte>, o: nat): GroupDesc
    requires o + 32 <= |b|
  {
    GroupDesc(U32At(b, o), U32At(b, o + 4), U32At(b, o + 8), U16At(b, o + 12), U16At(b, o + 14),
              U16At(b, o + 16), U16At(b, o + 18), U32At(b, o + 20), U32At(b, o + 24), U32At(b, o + 28))
  }

  lemma DescRoundTrip(d: GroupDesc, b: seq<byte>, o: nat)
    requires o + 32 <= |b| && b[o..o + 32] == EncDesc(d)
    ensures DecDesc(b, o) == d
  {
    var e := EncDesc(d);
    Shifted(b, o, e);
    assert U32At(e, 0) == U32At(Le32(d.blockBitmap), 0);
    assert U32At(e, 4) == U32At(Le32(d.inodeBitmap), 0);
    assert U32At(e, 8) == U32At(Le32(d.inodeTable), 0);
    assert U16At(e, 12) == U16At(Le16(d.freeBlocks), 0);
    assert U16At(e, 14) == U16At(Le16(d.freeInodes), 0);
    assert U16At(e, 16) == U16At(Le16(d.usedDirs), 0);
    assert U16At(e, 18) == U16At(Le16(d.pad), 0);
    assert U32At(e, 20) == U32At(Le32(d.reserved0), 0);
    assert U32At(e, 24) == U32At(Le32(d.reserved1), 0);
    assert U32At(e, 28) == U32At(Le32(d.reserved2), 0);
  }

  function EncTable(t: seq<GroupDesc>): (r: seq<byte>)
    ensures |r| == 32 * |t|
  {
    if t == [] then [] else EncTable(t[..|t| - 1]) + EncDesc(t[|t| - 1])
  }

  function DecTable(b: seq<byte>): Bgdt
    requires |b| >= 256
  {
    seq(8, g requires 0 <= g < 8 => DecDesc(b, 32 * g))
  }

  lemma SplitPrefix(b: seq<byte>, x: seq<byte>, y: seq<byte>)
    requires |b| >= |x| + |y| && b[..|x| + |y|] == x + y
    ensures b[..|x|] == x && b[|x|..|x| + |y|] == y
  {
    var n := |x| + |y|;
    assert b[..|x|] == b[..n][..|x|] && b[|x|..n] == b[..n][|x|..];
  }

  lemma {:induction false} TableRoundTrip(t: seq<GroupDesc>, b: seq<byte>)
    requires |b| >= 32 * |t| && b[..32 * |t|] == EncTable(t)
    ensures forall g :: 0 <= g < |t| ==> DecDesc(b, 32 * g) == t[g]
  {
    if t != [] {
      var k := |t| - 1;
      SplitPrefix(b, EncTable(t[..k]), EncDesc(t[k]));
      TableRoundTrip(t[..k], b);
      DescRoundTrip(t[k], b, 32 * k);
    }
  }

  /** Blocks 1 and 2 hold exactly the two caches, byte for byte. */
  predicate Synced(disk: Disk, sb: Superblock, bgdt: Bgdt) {
    && (forall i {:trigger disk[1][i]} :: 0 <= i < 44 ==> disk[1][i] == EncSuperblock(sb)[i])
    && (forall i {:trigger disk[2][i]} :: 0 <= i < 256 ==> disk[2][i] == EncTable(bgdt)[i])
  }

  /** Mounting a synced disk rebuilds both caches exactly. */
  lemma RemountIsInvisible(disk: Disk, sb: Superblock, bgdt: Bgdt)
    requires Synced(disk, sb, bgdt)
    ensures DecSuperblock(disk[1]) == sb && DecTable(disk[2]) == bgdt
  {
    SuperblockRoundTrip(sb, disk[1]);
    TableRoundTrip(bgdt, disk[2]);
  }

  // ----- free counts -----

  function SumFreeBlocks(t: seq<GroupDesc>): nat {
    if t == [] then 0 else SumFreeBlocks(t[..|t| - 1]) + t[|t| - 1].freeBlocks
  }

  function SumFreeInodes(t: seq<GroupDesc>): nat {
    if t == [] then 0 else SumFreeInodes(t[..|t| - 1]) + t[|t| - 1].freeInodes
  }

  lemma {:induction false} SumsAfterUpdate(t: seq<GroupDesc>, g: nat, d: GroupDesc)
    requires g < |t|
    ensures SumFreeBlocks(t[g := d]) == SumFreeBlocks(t) - t[g].freeBlocks + d.freeBlocks
    ensures SumFreeInodes(t[g := d]) == SumFreeInodes(t) - t[g].freeInodes + d.freeInodes
  {
    var k := |t| - 1;
    if g == k {
      assert t[g := d][..k] == t[..k];
    } else {
      assert t[g := d][..k] == t[..k][g := d];
      SumsAfterUpdate(t[..k], g, d);
    }
  }

  lemma {:induction false} SumsBounded(t: seq<GroupDesc>)
    requires forall g :: 0 <= g < |t| ==> t[g].freeBlocks <= 256 && t[g].freeInodes <= 112
    ensures SumFreeBlocks(t) <= 256 * |t| && SumFreeInodes(t) <= 112 * |t|
  {
    if t != [] { SumsBounded(t[..|t| - 1]); }
  }

  /** The superblock counts 8192 blocks while the groups cover 2048: the surplus never changes. */
  const SURPLUS := 6144

  ghost predicate Geometry(bgdt: Bgdt) {
    forall g :: 0 <= g < 8 ==>
      bgdt[g].blockBitmap == BlockBitmap(g) && bgdt[g].inodeBitmap == InodeBitmap(g) &&
      bgdt[g].inodeTable == InodeTable(g)
  }

  ghost predicate GroupCount(disk: Disk, bgdt: Bgdt, g: nat)
    requires g < 8
  {
    && bgdt[g].freeBlocks == ClearCount(disk[BlockBitmap(g)], 256)
    && bgdt[g].freeInodes == ClearCount(disk[InodeBitmap(g)], 112)
  }

  ghost predicate GroupCounts(disk: Disk, bgdt: Bgdt) {
    forall g {:trigger GroupCount(disk, bgdt, g)} :: 0 <= g < 8 ==> GroupCount(disk, bgdt, g)
  }

  /** Directory counts are left alone. */
  ghost predicate SameDirs(t: Bgdt, t': Bgdt) {
    forall g :: 0 <= g < 8 ==> t'[g].usedDirs == t[g].usedDirs
  }

  /** Every cached count is the truth about the bitmaps. */
  ghost predicate Counts(disk: Disk, sb: Superblock, bgdt: Bgdt) {
    && Geometry(bgdt)
    && GroupCounts(disk, bgdt)
    && sb.freeBlocks == SumFreeBlocks(bgdt) + SURPLUS
    && sb.freeInodes == SumFreeInodes(bgdt)
  }

  predicate Used(disk: Disk, m: nat)
    requires m < 2048
  {
    Bit(disk[BlockBitmap(m / 256)], m % 256)
  }

  predicate InodeUsed(disk: Disk, ino: nat)
    requires ValidInode(ino)
  {
    Bit(disk[InodeBitmap(InodeToBgd(ino))], InodeToLocal(ino))
  }

  function MarkUsed(disk: Disk, m: nat): Disk
    requires m < 2048
  {
    disk[BlockBitmap(m / 256) := WithBit(disk[BlockBitmap(m / 256)], m % 256)]
  }

  function MarkFree(disk: Disk, m: nat): Disk
    requires m < 2048
  {
    disk[BlockBitmap(m / 256) := WithoutBit(disk[BlockBitmap(m / 256)], m % 256)]
  }

  function MarkInodeUsed(disk: Disk, ino: nat): Disk
    requires ValidInode(ino)
  {
    var b := InodeBitmap(InodeToBgd(ino));
    disk[b := WithBit(disk[b], InodeToLocal(ino))]
  }

  function MarkInodeFree(disk: Disk, ino: nat): Disk
    requires ValidInode(ino)
  {
    var b := InodeBitmap(InodeToBgd(ino));
    disk[b := WithoutBit(disk[b], InodeToLocal(ino))]
  }

  /** Only the bitmap bit of `m` differs. */
  lemma UsedAfterMark(disk: Disk, m: nat, k: nat)
    requires m < 2048 && k < 2048
    ensures Used(MarkUsed(disk, m), k) <==> k == m || Used(disk, k)
    ensures Used(MarkFree(disk, m), k) <==> k != m && Used(disk, k)
  {
    MetadataApart(m / 256, k / 256, 1);
  }

  lemma InodeUsedAfterMark(disk: Disk, ino: nat, k: nat)
    requires ValidInode(ino) && ValidInode(k)
    ensures InodeUsed(MarkInodeUsed(disk, ino), k) <==> k == ino || InodeUsed(disk, k)
    ensures InodeUsed(MarkInodeFree(disk, ino), k) <==> k != ino && InodeUsed(disk, k)
  {
    MetadataInRange(ino);
    MetadataInRange(k);
    MetadataApart(InodeToBgd(ino), InodeToBgd(k), 1);
  }

  lemma CountsBounded(disk: Disk, bgdt: Bgdt)
    requires GroupCounts(disk, bgdt)
    ensures forall g :: 0 <= g < 8 ==> bgdt[g].freeBlocks <= 256 && bgdt[g].freeInodes <= 112
  {
    forall g | 0 <= g < 8 ensures bgdt[g].freeBlocks <= 256 && bgdt[g].freeInodes <= 112 {
      assert GroupCount(disk, bgdt, g);
    }
  }

  lemma CountsAfterTake(disk: Disk, sb: Superblock, bgdt: Bgdt, m: nat)
    requires Counts(disk, sb, bgdt)
    requires m < 2048 && !Used(disk, m)
    ensures bgdt[m / 256].freeBlocks > 0 && sb.freeBlocks > 0
    ensures Counts(MarkUsed(disk, m), sb.(freeBlocks := sb.freeBlocks - 1),
                   bgdt[m / 256 := bgdt[m / 256].(freeBlocks := bgdt[m / 256].freeBlocks - 1)])
  {
    var g, i := m / 256, m % 256;
    var disk' := MarkUsed(disk, m);
    assert GroupCount(disk, bgdt, g);
    ClearCountFlip(disk[BlockBitmap(g)], disk'[BlockBitmap(g)], i, 256);
    SumsAfterUpdate(bgdt, g, bgdt[g].(freeBlocks := bgdt[g].freeBlocks - 1));
    forall h | 0 <= h < 8
      ensures GroupCount(disk', bgdt[g := bgdt[g].(freeBlocks := bgdt[g].freeBlocks - 1)], h)
      ensures h != g ==> disk'[BlockBitmap(h)] == disk[BlockBitmap(h)]
      ensures disk'[InodeBitmap(h)] == disk[InodeBitmap(h)]
    {
      assert GroupCount(disk, bgdt, h);
      MetadataApart(g, h, 1);
    }
  }

  lemma CountsAfterRelease(disk: Disk, sb: Superblock, bgdt: Bgdt, m: nat)
    requires Counts(disk, sb, bgdt)
    requires m < 2048 && Used(disk, m)
    ensures bgdt[m / 256].freeBlocks < 256 && sb.freeBlocks < 8192
    ensures Counts(MarkFree(disk, m), sb.(freeBlocks := sb.freeBlocks + 1),
                   bgdt[m / 256 := bgdt[m / 256].(freeBlocks := bgdt[m / 256].freeBlocks + 1)])
  {
    var g, i := m / 256, m % 256;
    var disk' := MarkFree(disk, m);
    assert GroupCount(disk, bgdt, g);
    ClearCountFlip(disk'[BlockBitmap(g)], disk[BlockBitmap(g)], i, 256);
    CountsBounded(disk, bgdt);
    SumsBounded(bgdt);
    SumsAfterUpdate(bgdt, g, bgdt[g].(freeBlocks := bgdt[g].freeBlocks + 1));
    SumsBounded(bgdt[g := bgdt[g].(freeBlocks := bgdt[g].freeBlocks + 1)]);
    forall h | 0 <= h < 8
      ensures GroupCount(disk', bgdt[g := bgdt[g].(freeBlocks := bgdt[g].freeBlocks + 1)], h)
      ensures h != g ==> disk'[BlockBitmap(h)] == disk[BlockBitmap(h)]
      ensures disk'[InodeBitmap(h)] == disk[InodeBitmap(h)]
    {
      assert GroupCount(disk, bgdt, h);
      MetadataApart(g, h, 1);
    }
  }

  lemma CountsAfterTakeInode(disk: Disk, sb: Superblock, bgdt: Bgdt, ino: nat)
    requires Counts(disk, sb, bgdt)
    requires ValidInode(ino) && !InodeUsed(disk, ino)
    ensures InodeToBgd(ino) < 8
    ensures bgdt[InodeToBgd(ino)].freeInodes > 0 && sb.freeInodes > 0
    ensures var g := InodeToBgd(ino);
            Counts(MarkInodeUsed(disk, ino), sb.(freeInodes := sb.freeInodes - 1),
                   bgdt[g := bgdt[g].(freeInodes := bgdt[g].freeInodes - 1)])
  {
    var g, i := InodeToBgd(ino), InodeToLocal(ino);
    MetadataInRange(ino);
    var disk' := MarkInodeUsed(disk, ino);
    assert GroupCount(disk, bgdt, g);
    ClearCountFlip(disk[InodeBitmap(g)], disk'[InodeBitmap(g)], i, 112);
    SumsAfterUpdate(bgdt, g, bgdt[g].(freeInodes := bgdt[g].freeInodes - 1));
    forall h | 0 <= h < 8
      ensures GroupCount(disk', bgdt[g := bgdt[g].(freeInodes := bgdt[g].freeInodes - 1)], h)
      ensures h != g ==> disk'[InodeBitmap(h)] == disk[InodeBitmap(h)]
      ensures disk'[BlockBitmap(h)] == disk[BlockBitmap(h)]
    {
      assert GroupCount(disk, bgdt, h);
      MetadataApart(g, h, 1);
      MetadataApart(h, g, 1);
    }
  }

  lemma CountsAfterReleaseInode(disk: Disk, sb: Superblock, bgdt: Bgdt, ino: nat)
    requires Counts(disk, sb, bgdt)
    requires ValidInode(ino) && InodeUsed(disk, ino)
    ensures InodeToBgd(ino) < 8
    ensures bgdt[InodeToBgd(ino)].freeInodes < 112 && sb.freeInodes < 896
    ensures var g := InodeToBgd(ino);
            Counts(MarkInodeFree(disk, ino), sb.(freeInodes := sb.freeInodes + 1),
                   bgdt[g := bgdt[g].(freeInodes := bgdt[g].freeInodes + 1)])
  {
    var g, i := InodeToBgd(ino), InodeToLocal(ino);
    MetadataInRange(ino);
    var disk' := MarkInodeFree(disk, ino);
    assert GroupCount(disk, bgdt, g);
    ClearCountFlip(disk'[InodeBitmap(g)], disk[InodeBitmap(g)], i, 112);
    CountsBounded(disk, bgdt);
    SumsBounded(bgdt);
    SumsAfterUpdate(bgdt, g, bgdt[g].(freeInodes := bgdt[g].freeInodes + 1));
    SumsBounded(bgdt[g := bgdt[g].(freeInodes := bgdt[g].freeInodes + 1)]);
    forall h | 0 <= h < 8
      ensures GroupCount(disk', bgdt[g := bgdt[g].(freeInodes := bgdt[g].freeInodes + 1)], h)
      ensures h != g ==> disk'[InodeBitmap(h)] == disk[InodeBitmap(h)]
      ensures disk'[BlockBitmap(h)] == disk[BlockBitmap(h)]
    {
      assert GroupCount(disk, bgdt, h);
      MetadataApart(g, h, 1);
      MetadataApart(h, g, 1);
    }
  }
}
