/**
 * The EXT2 driver as it runs: a block store, two cached metadata structures, and operations that change them in place.
 * Each operation is proved to do exactly what its function on volumes says.
 */
module Driver {
  import opened Bytes
  import opened Layout
  import opened Metadata
  import opened Volume
  import opened FileTree
  import opened Accounting
  import opened Allocation
  import opened Reading
  import opened Reclaim
  import opened Directory
  import opened Operations
  import opened Invariant
  import opened Creation
  import opened Format
  import opened Writing
  import opened DeleteEffects

  // ----- facts the loops need -----

  /** What every allocation starts from and leaves behind: true counters, and metadata blocks marked. */
  ghost predicate Fit(v: Volume) { Counted(v) && MetaUsed(v.disk) }

  /** The two inner loops of every bitmap scan: the lowest clear bit below `limit`, or `limit`. */
  method ScanBitmap(bmp: Block, limit: nat) returns (idx: nat)
    requires limit <= 4096
    ensures idx <= limit && (idx < limit ==> !Bit(bmp, idx))
    ensures forall j :: 0 <= j < idx ==> Bit(bmp, j)
  {
    for byte := 0 to 512
      invariant forall j :: 0 <= j < 8 * byte && j < limit ==> Bit(bmp, j)
    {
      if bmp[byte] != 0xFF {
        for bit := 0 to 8
          invariant forall j :: 0 <= j < 8 * byte + bit && j < limit ==> Bit(bmp, j)
        {
          var i := byte * 8 + bit;
          if i >= limit { break; }
          if !TestBit(bmp[byte], bit) { return i; }
        }
      } else {
        ghost var i := FullByte(bmp[byte]);
      }
    }
    return limit;
  }

  lemma GroupBits(d: Disk, g: nat, i: nat)
    requires g < 8 && i < 256
    ensures Used(d, 256 * g + i) <==> Bit(d[BlockBitmap(g)], i)
  {}

  /** Group `g` has no free block: neither has the scan up to the next group. */
  lemma NoneInGroup(d: Disk, pref: nat, g: nat)
    requires g < 8 && pref <= g && forall i :: 0 <= i < 256 ==> Bit(d[BlockBitmap(g)], i)
    requires forall m :: 256 * pref <= m < 256 * g ==> Used(d, m)
    ensures forall m :: 256 * pref <= m < 256 * (g + 1) ==> Used(d, m)
  {
    hide Used, Bit;
    forall m | 256 * pref <= m < 256 * (g + 1) ensures Used(d, m) {
      if m >= 256 * g { GroupBits(d, g, m - 256 * g); }
    }
  }

  lemma LowestIsFirstFree(d: Disk, pref: nat, g: nat, idx: nat)
    requires g < 8 && pref <= g && idx < 256 && !Bit(d[BlockBitmap(g)], idx)
    requires forall i :: 0 <= i < idx ==> Bit(d[BlockBitmap(g)], i)
    requires forall m :: 256 * pref <= m < 256 * g ==> Used(d, m)
    ensures FirstFree(d, 256 * pref) == 256 * g + idx
  {
    hide Used, Bit;
    GroupBits(d, g, idx);
    forall m | 256 * pref <= m < 256 * g + idx ensures Used(d, m) {
      if m >= 256 * g { GroupBits(d, g, m - 256 * g); }
    }
    FirstFreeUnique(d, 256 * pref, 256 * g + idx);
  }

  lemma NothingFree(d: Disk, pref: nat)
    requires forall m :: 256 * pref <= m < 2048 ==> Used(d, m)
    ensures FirstFree(d, 256 * pref) == 0
  {
    hide Used;
    FirstFreeNone(d, 256 * pref);
  }

  /** What the cached count of a group says about its bitmap. */
  lemma CountSays(v: Volume, g: nat)
    requires Counted(v) && g < 8
    ensures v.bgdt[g].blockBitmap == BlockBitmap(g) && v.bgdt[g].inodeBitmap == InodeBitmap(g)
    ensures v.bgdt[g].inodeTable == InodeTable(g)
    ensures v.bgdt[g].freeBlocks == 0 ==> forall i :: 0 <= i < 256 ==> Bit(v.disk[BlockBitmap(g)], i)
    ensures v.bgdt[g].freeInodes == 0 ==> forall i :: 0 <= i < 112 ==> Bit(v.disk[InodeBitmap(g)], i)
  {
    assert GroupCount(v.disk, v.bgdt, g);
    ClearCountPositive(v.disk[BlockBitmap(g)], 256);
    ClearCountPositive(v.disk[InodeBitmap(g)], 112);
  }

  lemma TakeFits(v: Volume, n: nat)
    requires Fit(v) && n < 2048 && !Used(v.disk, n)
    ensures Fit(Take(v, n)) && !Meta(n)
  {
    CountedAfterTake(v, n);
    MetaUsedAfterMark(v.disk, n);
  }

  lemma InodeBits(d: Disk, g: nat, i: nat)
    requires g < 8 && i < 112
    ensures ValidInode(112 * g + i + 1) && InodeToBgd(112 * g + i + 1) == g && InodeToLocal(112 * g + i + 1) == i
    ensures InodeUsed(d, 112 * g + i + 1) <==> Bit(d[InodeBitmap(g)], i)
  {}

  lemma NoneInInodeGroup(d: Disk, g: nat)
    requires g < 8 && forall i :: 0 <= i < 112 ==> Bit(d[InodeBitmap(g)], i)
    requires forall k :: 1 <= k <= 112 * g ==> ValidInode(k) && InodeUsed(d, k)
    ensures forall k :: 1 <= k <= 112 * (g + 1) ==> ValidInode(k) && InodeUsed(d, k)
  {
    hide InodeUsed, Bit, InodeToBgd, InodeToLocal;
    forall k | 1 <= k <= 112 * (g + 1) ensures ValidInode(k) && InodeUsed(d, k) {
      if k > 112 * g { InodeBits(d, g, k - 112 * g - 1); }
    }
  }

  lemma LowestInodeIsFirst(d: Disk, g: nat, idx: nat)
    requires g < 8 && idx < 112 && !Bit(d[InodeBitmap(g)], idx) && forall i :: 0 <= i < idx ==>
        Bit(d[InodeBitmap(g)], i)
    requires forall k :: 1 <= k <= 112 * g ==> ValidInode(k) && InodeUsed(d, k)
    ensures ValidInode(112 * g + idx + 1) && !InodeUsed(d, 112 * g + idx + 1)
    ensures FirstFreeInode(d, 1) == 112 * g + idx + 1
  {
    hide InodeUsed, Bit, InodeToBgd, InodeToLocal;
    InodeBits(d, g, idx);
    forall k | 1 <= k < 112 * g + idx + 1 ensures InodeUsed(d, k) {
      if k > 112 * g { InodeBits(d, g, k - 112 * g - 1); }
    }
    FirstFreeInodeUnique(d, 1, 112 * g + idx + 1);
  }

  lemma TakeInodeIs(v: Volume, g: nat, idx: nat)
    requires g < 8 && idx < 112
    ensures ValidInode(112 * g + idx + 1) && TakeInode(v, 112 * g + idx + 1) ==
      Volume(v.disk[InodeBitmap(g) := WithBit(v.disk[InodeBitmap(g)], idx)],
        v.sb.(freeInodes := Dec32(v.sb.freeInodes)),
             v.bgdt[g := v.bgdt[g].(freeInodes := Dec16(v.bgdt[g].freeInodes))])
  {
    InodeBits(v.disk, g, idx);
  }

  lemma AllocNodeFits(v: Volume, ino: nat)
    requires Fit(v) && ValidInode(ino) && !InodeUsed(v.disk, ino)
    ensures Fit(AllocNode(v, ino))
  {
    hide Counted, MetaUsed, InodeUsed, Sync, Synced, Untouched, SameTables, SameInodeBitmaps, SameBlockBitmaps;
    var w := TakeInode(v, ino);
    CountedAfterTakeInode(v, ino);
    SyncSpec(w);
    InodeMarkKeepsBlocks(v.disk, ino);
    BlockBitsSame(v.disk, w.disk);
    BlockBitsSame(w.disk, Sync(w).disk);
  }

  lemma InodeMarkKeepsBlocks(d: Disk, ino: nat)
    requires ValidInode(ino)
    ensures SameBlockBitmaps(d, MarkInodeUsed(d, ino))
  {
    MetadataInRange(ino);
    assert IsInodeBitmap(InodeBitmap(InodeToBgd(ino)));
  }

  lemma PutFits(v: Volume, m: nat, b: Block)
    requires Fit(v) && 21 <= m < 2048 && !Meta(m)
    ensures Fit(PutBlock(v, m, b))
  {
    CountedAfterPut(v, m, b);
    MetaUsedAfterPut(v.disk, m, b);
  }

  lemma SyncFits(v: Volume)
    requires Fit(v)
    ensures Fit(Sync(v))
  {
    hide Sync, Synced, Untouched, Counted, SameTables, SameInodeBitmaps, SameBlockBitmaps, MetaUsed;
    SyncSpec(v);
    BlockBitsSame(v.disk, Sync(v).disk);
  }

  lemma FillRunStep(r: PtrFill, pref: nat, data: seq<byte>, n: nat, idx: nat)
    ensures FillRun(r, pref, data, n, idx) ==
      if r.placed >= n || idx >= 128 then r
      else
        var b := FirstFree(r.v.disk, 256 * pref);
        if b == 0 then r else FillRun(PlaceInRun(r, data, idx, b), pref, data, n, idx + 1)
  {}

  lemma DirectStep(s: Stage, pref: nat, data: seq<byte>, i: nat)
    ensures AllocDirect(s, pref, data, i) ==
      if i >= 12 || s.placed >= s.node.blocks then s
      else
        var b := FirstFree(s.v.disk, 256 * pref);
        if b == 0 then s else AllocDirect(PlaceDirect(s, data, i, b), pref, data, i + 1)
  {}

  lemma DoubleStep(r: PtrFill, pref: nat, data: seq<byte>, n: nat, k: nat)
    ensures FillDouble(r, pref, data, n, k) ==
      if r.placed >= n || k >= 128 then r
      else
        var p := FirstFree(r.v.disk, 256 * pref);
        if p == 0 then r else FillDouble(PlaceInner(r, pref, data, n, k, p), pref, data, n, k + 1)
  {}

  /** The bytes copied into a data block are the chunk, padded with zeros. */
  lemma CopiedChunk(data: seq<byte>, n: nat, placed: nat, toCopy: nat)
    requires |data| < 0x1_0000_0000 && n == BlocksFor(|data|) && placed < n
    requires toCopy == if placed == n - 1 && |data| % 512 != 0 then |data| % 512 else 512
    ensures placed * 512 + toCopy <= |data|
    ensures Splice(ZeroBlock(), 0, data[placed * 512..placed * 512 + toCopy]) == Chunk(data, placed)
  {
    hide BlocksFor, Chunk, Splice;
    LastPart(|data|, n, placed);
    CopiedPart(data, placed, toCopy);
  }

  lemma LastPart(size: nat, n: nat, placed: nat)
    requires size < 0x1_0000_0000 && n == BlocksFor(size) && placed < n
    ensures if placed == n - 1 && size % 512 != 0 then placed * 512 + size % 512 == size else placed * 512 + 512 <= size
  {}

  lemma CopiedPart(data: seq<byte>, placed: nat, len: nat)
    requires placed * 512 + len <= |data| && (len == 512 || (0 < len < 512 && placed * 512 + len == |data|))
    ensures Splice(ZeroBlock(), 0, data[placed * 512..placed * 512 + len]) == Chunk(data, placed)
  {
    var s := data[placed * 512..placed * 512 + len];
    if len == 512 {
      assert Splice(ZeroBlock(), 0, s) == s;
    } else {
      assert data[512 * placed..] == s;
      assert ZeroBlock()[len..] == seq(512 * placed + 512 - |data|, i => 0);
      assert Splice(ZeroBlock(), 0, s) == s + ZeroBlock()[len..];
    }
  }

  /** What `init_directory_table` does to the volume, and the inode it fills in. */
  function InitDir(v: Volume, slot: Inode, ino: nat, parent: nat): (Volume, Inode)
    requires ValidInode(ino) && parent < 0x1_0000_0000
  {
    var b := FirstFree(v.disk, 256 * InodeToBgd(ino));
    var m := if b != 0 then b else FallbackBlock(InodeToBgd(ino));
    (Sync(PutBlock(if b != 0 then Take(v, b) else v, m, NewDirBlock(ino, parent))), DirNode(slot, m))
  }

  lemma MakeDirIs(v: Volume, ino: nat, parent: nat)
    requires ValidInode(ino) && parent < 0x1_0000_0000
    ensures var (w, node), g := InitDir(v, Node(v.disk, ino), ino, parent), InodeToBgd(ino);
      g < 8 && MakeDir(v, ino, parent) == SyncNode(WithUsedDirs(w, g, Inc16(w.bgdt[g].usedDirs)), ino, node)
  {
    MetadataInRange(ino);
  }

  lemma FallbackInData(g: nat)
    requires g < 8
    ensures 21 <= FallbackBlock(g) < 2048 && !Meta(FallbackBlock(g))
  {}

  lemma UsedDirsFits(v: Volume, g: nat, n: u16)
    requires Fit(v) && g < 8
    ensures Fit(WithUsedDirs(v, g, n))
  {
    hide Counted, MetaUsed;
    UsedDirsSpec(v, g, n);
  }

  // ----- releasing -----

  /** All pointers of a pointer block lie on the part of the disk the groups cover. */
  predicate PtrBlockOK(b: Block) { forall j :: 0 <= j < 128 ==> PtrAt(b, j) < 2048 }

  /** The pointers an inode's tree is reached through can be followed. */
  predicate TreePtrsOK(d: Disk, n: Inode) {
    && (forall i :: 0 <= i < 14 ==> n.block[i] < 2048)
    && (n.block[12] != 0 ==> !IsBlockBitmap(n.block[12]) && PtrBlockOK(d[n.block[12]]))
    && (n.block[13] != 0 ==> !IsBlockBitmap(n.block[13]) && DoublePtrsOK(d, d[n.block[13]]))
  }

  predicate DoublePtrsOK(d: Disk, b: Block) {
    PtrBlockOK(b) && forall k :: 0 <= k < 128 && PtrAt(b, k) != 0 ==> InnerPtrsOK(d, PtrAt(b, k))
  }

  predicate InnerPtrsOK(d: Disk, p: u32) { p < 2048 && !IsBlockBitmap(p) && PtrBlockOK(d[p]) }

  /** In a sound volume they can. */
  lemma LaidPtrsOK(d: Disk, n: Inode, a: seq<nat>)
    requires Lays(d, n, a)
    ensures TreePtrsOK(d, n)
  {
    hide PtrAt;
    forall i | 0 <= i < 12 ensures n.block[i] < 2048 { assert n.block[i] == At(a, i); }
    if |a| > 12 {
      forall j | 0 <= j < 128 ensures PtrAt(d[a[12]], j) < 2048 { assert PtrAt(d[a[12]], j) == At(a, 13 + j); }
    }
    if |a| > 141 {
      var b := d[a[141]];
      forall k | 0 <= k < 128 ensures PtrAt(b, k) < 2048 && (PtrAt(b, k) != 0 ==> InnerPtrsOK(d, PtrAt(b, k))) {
        assert PtrAt(b, k) == At(a, 142 + 129 * k);
        if PtrAt(b, k) != 0 { LaidInner(d, a, k); }
      }
    }
  }

  lemma LaidInner(d: Disk, a: seq<nat>, k: nat)
    requires InRange(a) && k < 128 && 142 + 129 * k < |a| && Inner(d, a, k)
    ensures InnerPtrsOK(d, a[142 + 129 * k])
  {
    hide PtrAt;
    var p := a[142 + 129 * k];
    forall j | 0 <= j < 128 ensures PtrAt(d[p], j) < 2048 { assert PtrAt(d[p], j) == At(a, 143 + 129 * k + j); }
  }

  /** Only block bitmaps differ. */
  ghost predicate OnlyBitmaps(d: Disk, d': Disk) { forall m :: 0 <= m < 8192 && !IsBlockBitmap(m) ==> d'[m] == d[m] }

  lemma DoublePtrsKept(d: Disk, d': Disk, b: Block)
    requires DoublePtrsOK(d, b) && OnlyBitmaps(d, d')
    ensures DoublePtrsOK(d', b)
  {
    hide PtrAt, PtrBlockOK;
    forall k | 0 <= k < 128 && PtrAt(b, k) != 0
      ensures InnerPtrsOK(d', PtrAt(b, k))
    {
      assert InnerPtrsOK(d, PtrAt(b, k));
    }
  }

  lemma BitmapGeometry(v: Volume, p: nat)
    requires Geometry(v.bgdt) && p < 2048
    ensures v.bgdt[p / 256].blockBitmap == BlockBitmap(p / 256) < 2048 && Geometry(Release(v, p).bgdt)
    ensures OnlyBitmaps(v.disk, Release(v, p).disk)
  {
    hide WithoutBit;
    assert IsBlockBitmap(BlockBitmap(p / 256));
  }

  lemma OnlyBitmapsTransitive(d: Disk, d': Disk, d'': Disk)
    requires OnlyBitmaps(d, d') && OnlyBitmaps(d', d'')
    ensures OnlyBitmaps(d, d'')
  {}

  lemma TreePtrsKept(d: Disk, d': Disk, n: Inode)
    requires TreePtrsOK(d, n) && OnlyBitmaps(d, d')
    ensures TreePtrsOK(d', n)
  {
    hide PtrAt, PtrBlockOK;
    if n.block[13] != 0 { DoublePtrsKept(d, d', d[n.block[13]]); }
  }

  lemma TableKept(d: Disk, d': Disk, ino: nat)
    requires ValidInode(ino) && OnlyBitmaps(d, d')
    ensures TableBlock(ino) < 8192 && d'[TableBlock(ino)] == d[TableBlock(ino)]
  {
    TableApart(ino);
    MetadataInRange(ino);
  }

  lemma GeometryUsedDirs(v: Volume, g: nat, n: u16)
    requires g < 8 && Geometry(v.bgdt)
    ensures Geometry(WithUsedDirs(v, g, n).bgdt) && WithUsedDirs(v, g, n).disk == v.disk
  {}

  lemma GroupGeometry(t: Bgdt, g: nat)
    requires g < 8 && Geometry(t)
    ensures t[g].blockBitmap == BlockBitmap(g) && t[g].inodeBitmap == InodeBitmap(g) && t[g].inodeTable == InodeTable(g)
  {}

  lemma OnlyBitmapsSelf(d: Disk)
    ensures OnlyBitmaps(d, d)
  {}

  lemma FreeRunStep(v: Volume, b: Block, j: nat, count: nat)
    requires count <= 128
    ensures FreeRun(v, b, j, count) == if j >= count then v else FreeRun(ReleasePtr(v, PtrAt(b, j)), b, j + 1, count)
  {}

  lemma FreeDirectStep(v: Volume, n: Inode, i: nat, remain: nat)
    ensures FreeDirect(v, n, i, remain) ==
      if i >= 12 || remain == 0 then v else FreeDirect(ReleasePtr(v, n.block[i]), n, i + 1, remain - 1)
  {}

  lemma FreeInnerStep(v: Volume, dbl: Block, k: nat, total: nat)
    ensures FreeInner(v, dbl, k, total) ==
      if k >= 128 || total == 0 then v
      else if PtrAt(dbl, k) == 0 then FreeInner(v, dbl, k + 1, total)
      else FreeInner(ReleasePtr(FreeRun(v, BlockAt(v.disk, PtrAt(dbl, k)), 0, Least(total, 128)), PtrAt(dbl, k)), dbl,
        k + 1,
                     total - Least(total, 128))
  {}

  // ----- scanning directory blocks -----

  lemma ChainStep(b: Block, o: nat)
    requires Chain(b, o) && o < 512
    ensures Sound(b, o) && 12 <= RecLen(b, o) && o + RecLen(b, o) <= 512 && Chain(b, o + RecLen(b, o))
  {
    hide U16At, U32At, SlackZero;
  }

  lemma FindNameStep(b: Block, o: nat, name: Name)
    requires Chain(b, o)
    ensures FindName(b, o, name) == if o == 512 then 512
      else if Live(b, o) && NameAt(b, o) == name then o else FindName(b, o + RecLen(b, o), name)
  {
    hide U16At, U32At, SlackZero, NameAt;
  }

  lemma {:induction false} FindNameBeyond(b: Block, o: nat, name: Name)
    requires Chain(b, o)
    ensures o <= FindName(b, o, name) <= 512
    decreases 512 - o
  {
    hide U16At, U32At, SlackZero, NameAt;
    if o < 512 { FindNameBeyond(b, o + RecLen(b, o), name); }
  }

  lemma PreviousStep(b: Block, o: nat, prev: nat, p: nat)
    requires Chain(b, o)
    ensures Previous(b, o, prev, p) == if o == p || o == 512 then prev else Previous(b, o + RecLen(b, o), o, p)
  {
    hide U16At, U32At, SlackZero, NameAt;
  }

  lemma ScanStep(b: Block, o: nat, name: Name, need: nat)
    requires Chain(b, o)
    ensures ScanForHole(b, o, name, need) == if o == 512 then NoRoom
      else if Live(b, o) && NameAt(b, o) == name then Duplicate
      else if Live(b, o) && RecLen(b, o) - RecordLen(NameLen(b, o)) >= need then Hole(o)
      else ScanForHole(b, o + RecLen(b, o), name, need)
  {
    hide U16At, U32At, SlackZero, NameAt;
  }

  lemma FindEntryStep(d: Disk, n: Inode, bi: nat, name: Name)
    requires DirOK(d, n)
    ensures bi < n.blocks ==> DirBlockOK(d, n.block[bi])
    ensures FindEntry(d, n, bi, name) ==
      if bi >= n.blocks then Nowhere
      else if FindName(d[n.block[bi]], 0, name) != 512 then Place(bi, FindName(d[n.block[bi]], 0, name))
      else FindEntry(d, n, bi + 1, name)
  {
    hide Chain, FindName;
    if bi < n.blocks { assert DirBlockOK(d, n.block[bi]); }
  }

  lemma FindRoomStep(d: Disk, n: Inode, bi: nat, name: Name)
    requires DirOK(d, n)
    ensures bi < n.blocks ==> DirBlockOK(d, n.block[bi])
    ensures FindRoom(d, n, bi, name) ==
      if bi >= n.blocks then Full
      else match ScanForHole(d[n.block[bi]], 0, name, RecordLen(|name|))
        case Duplicate => Exists
        case Hole(at) => InHole(bi, at)
        case NoRoom => FindRoom(d, n, bi + 1, name)
  {
    hide Chain, ScanForHole, RecordLen;
    if bi < n.blocks { assert DirBlockOK(d, n.block[bi]); }
  }

  /** The record loop of `read` and `delete`: the first live entry called `name`, or 512, and the record before it. */
  method FindInBlock(b: Block, name: Name) returns (offset: nat, prev: nat)
    requires Chain(b, 0)
    ensures offset == FindName(b, 0, name)
    ensures offset != 512 ==> prev == Previous(b, 0, 512, offset)
  {
    hide Chain, FindName, Previous, NameAt, Live, Sound, RecLen;
    ghost var target := FindName(b, 0, name);
    offset, prev := 0, 512;
    while offset < BLOCK_SIZE
      invariant offset <= 512 && Chain(b, offset) && FindName(b, offset, name) == target
      invariant Previous(b, offset, prev, target) == Previous(b, 0, 512, target)
      decreases 512 - offset
    {
      ChainStep(b, offset);
      FindNameStep(b, offset, name);
      PreviousStep(b, offset, prev, target);
      if Live(b, offset) && NameAt(b, offset) == name { return; }
      FindNameBeyond(b, offset + RecLen(b, offset), name);
      prev := offset;
      offset := offset + RecLen(b, offset);
    }
    FindNameStep(b, offset, name);
  }

  /** The record loop of `write`: the name itself, or the first live record with room behind it. */
  method ScanBlock(b: Block, name: Name, need: nat) returns (s: Scan)
    requires Chain(b, 0)
    ensures s == ScanForHole(b, 0, name, need)
  {
    hide Chain, ScanForHole, NameAt, Live, Sound, RecLen, NameLen, RecordLen;
    var off := 0;
    while off < BLOCK_SIZE
      invariant off <= 512 && Chain(b, off) && ScanForHole(b, off, name, need) == ScanForHole(b, 0, name, need)
      decreases 512 - off
    {
      ChainStep(b, off);
      ScanStep(b, off, name, need);
      if Live(b, off) {
        if NameAt(b, off) == name { return Duplicate; }
        if RecLen(b, off) - SoundNameLen(b, off) >= need { return Hole(off); }
      }
      off := off + RecLen(b, off);
    }
    ScanStep(b, off, name, need);
    return NoRoom;
  }

  /** `get_entry_record_len` of the record's own name. */
  function SoundNameLen(b: Block, o: nat): (r: nat)
    requires Sound(b, o)
    ensures r == RecordLen(NameLen(b, o))
  {
    RecordLen(NameLen(b, o))
  }

  // ----- copying a file out -----

  /** The buffer holds `out` and is otherwise as it was. */
  ghost predicate BufferFilled(now: seq<byte>, was: seq<byte>, out: seq<byte>) {
    |out| <= |now| == |was| && now[..|out|] == out && now[|out|..] == was[|out|..]
  }

  lemma FilledOneMore(now: seq<byte>, now': seq<byte>, was: seq<byte>, out: seq<byte>, b: Block, len: nat)
    requires BufferFilled(now, was, out) && |now'| == |now| && len <= 512 && |out| + len <= |now|
    requires forall i :: 0 <= i < |now| ==> now'[i] == if |out| <= i < |out| + len then b[i - |out|] else now[i]
    ensures BufferFilled(now', was, out + b[..len])
  {
    var out' := out + b[..len];
    assert now'[..|out'|] == out' by {
      forall i | 0 <= i < |out'| ensures now'[i] == out'[i] {
        if i < |out| { assert now'[i] == now[i] == now[..|out|][i]; }
      }
    }
    forall i | |out'| <= i < |now|
      ensures now'[i] == was[i]
    {
      assert now[|out|..][i - |out|] == was[|out|..][i - |out|];
    }
  }

  lemma EmptyFilled(was: seq<byte>)
    ensures BufferFilled(was, was, [])
  {}

  lemma CopiedFills(was: seq<byte>, now: seq<byte>, out: seq<byte>)
    requires |out| <= |now| == |was|
    requires forall i :: 0 <= i < |now| ==> now[i] == if i < |out| then out[i] else was[i]
    ensures BufferFilled(now, was, out)
  {}

  lemma TreeBlocksInRange(d: Disk, n: Inode)
    requires NodeOK(d, n)
    ensures n.block[0] < 2048
  {
    hide IsDirMode, DirBlockOK;
  }

  lemma ReadDirectStep(d: Disk, n: Inode, out: seq<byte>, i: nat)
    ensures ReadDirect(d, n, out, i) ==
      if i >= 12 || |out| >= n.size || n.block[i] == 0 then out
      else ReadDirect(d, n, CopyBlock(d, n.block[i], n.size, out), i + 1)
  {}

  lemma ReadRunStep(d: Disk, b: Block, size: nat, out: seq<byte>, j: nat)
    ensures ReadRun(d, b, size, out, j) ==
      if j >= 128 || |out| >= size || PtrAt(b, j) == 0 then out
      else ReadRun(d, b, size, CopyBlock(d, PtrAt(b, j), size, out), j + 1)
  {}

  lemma ReadDoubleStep(d: Disk, b: Block, size: nat, out: seq<byte>, k: nat)
    ensures ReadDouble(d, b, size, out, k) ==
      if k >= 128 || |out| >= size || PtrAt(b, k) == 0 then out
      else ReadDouble(d, b, size, ReadRun(d, BlockAt(d, PtrAt(b, k)), size, out, 0), k + 1)
  {}

  // ----- the target of `read` and `delete` -----

  /** The inode a request finds can be followed: a valid number, pointers on the disk, a sound first directory block. */
  predicate TargetOK(v: Volume, q: Request)
    requires ValidRequest(q) && ParentOK(v, q)
  {
    Target(v, q) != 0 ==> ValidInode(Target(v, q)) && NodeOK(v.disk, Node(v.disk, Target(v, q)))
  }

  predicate NodeOK(d: Disk, n: Inode) {
    TreePtrsOK(d, n) && (IsDirMode(n.mode) ==> DirBlockOK(d, n.block[0]))
  }

  lemma TargetFound(v: Volume, q: Request)
    requires ValidRequest(q) && ParentOK(v, q) && q.parent != 0 && IsDirMode(ParentNode(v, q).mode)
    requires FindEntry(v.disk, ParentNode(v, q), 0, q.name).Place?
    ensures var r, n := FindEntry(v.disk, ParentNode(v, q), 0, q.name), ParentNode(v, q);
      && r.bi < n.blocks <= 12 && DirBlockOK(v.disk, n.block[r.bi]) && Sound(v.disk[n.block[r.bi]], r.at)
      && Target(v, q) == EntInode(v.disk[n.block[r.bi]], r.at) != 0
  {
    hide Node, IsDirMode, FindEntry, Chain, Reaches, NameAt, RecLen, NameLen, SlackZero;
    FindEntrySound(v.disk, ParentNode(v, q), 0, q.name);
  }

  lemma TakeKeepsInodes(v: Volume, b: nat)
    requires b < 2048
    ensures FirstFreeInode(Take(v, b).disk, 1) == FirstFreeInode(v.disk, 1)
  {
    hide FirstFreeInode, InodeUsed;
    assert IsBlockBitmap(BlockBitmap(b / 256)) && !IsInodeBitmap(BlockBitmap(b / 256));
    InodeBitsSame(v.disk, Take(v, b).disk);
    FirstFreeInodeSame(v.disk, Take(v, b).disk, 1);
  }

  lemma BlockNumber(d: Disk, p: nat)
    requires DirBlockOK(d, p)
    ensures 0 < p < 2048 && Chain(d[p], 0)
  {}

  lemma HeaderFits(b: Block, p: nat)
    requires Sound(b, p)
    ensures Fits(p)
  {}

  lemma CountedGeometry(v: Volume)
    requires Counted(v)
    ensures Geometry(v.bgdt)
  {}

  lemma DirBounds(d: Disk, n: Inode)
    requires DirOK(d, n)
    ensures n.blocks <= 12 && forall i :: 0 <= i < n.blocks ==> DirBlockOK(d, n.block[i])
  {}

  lemma InTable(ino: nat)
    requires ValidInode(ino)
    ensures TableBlock(ino) < 2048
  {
    MetadataInRange(ino);
  }

  lemma NodeParts(d: Disk, n: Inode)
    requires NodeOK(d, n)
    ensures TreePtrsOK(d, n)
  {}

  /** The first bits of a bitmap, those of the group at most, are set. */
  ghost predicate SetUpTo(bmp: Block, n: nat) { forall i :: 0 <= i < n && i < 256 ==> Bit(bmp, i) }

  lemma BitAt(bmp: Block, byte: nat, bit: nat)
    requires byte < 512 && bit < 8
    ensures Bit(bmp, 8 * byte + bit) == TestBit(bmp[byte], bit)
  {}

  lemma BitPassed(bmp: Block, byte: nat, bit: nat)
    requires byte < 512 && bit < 8 && TestBit(bmp[byte], bit) && SetUpTo(bmp, 8 * byte + bit)
    ensures SetUpTo(bmp, 8 * byte + bit + 1)
  {}

  lemma RowPassed(bmp: Block, byte: nat, bit: nat)
    requires bit <= 8 && SetUpTo(bmp, 8 * byte + bit) && (bit == 8 || 8 * byte + bit >= 256)
    ensures SetUpTo(bmp, 8 * (byte + 1))
  {
    hide Bit;
  }

  lemma FullPassed(bmp: Block, byte: nat)
    requires byte < 512 && bmp[byte] == 0xFF && SetUpTo(bmp, 8 * byte)
    ensures SetUpTo(bmp, 8 * (byte + 1))
  {
    ghost var i := FullByte(bmp[byte]);
  }

  /** A scan from group `pref` that has passed the groups before `bg`, and what it found. */
  ghost predicate Scanned(v: Volume, w: Volume, pref: nat, bg: nat, found: bool, n: nat) {
    if found then n == FirstFree(v.disk, 256 * pref) && 21 <= n < 2048 && !Meta(n) && w == Take(v, n) && Fit(w)
    else w == v && n == 0 && Fit(w) && forall m :: 256 * pref <= m < 256 * bg && m < 2048 ==> Used(v.disk, m)
  }

  lemma NothingScanned(v: Volume, pref: nat)
    requires Fit(v)
    ensures Scanned(v, v, pref, pref, false, 0)
  {}

  lemma GroupScanned(v: Volume, w: Volume, pref: nat, bg: nat, n: nat)
    requires bg < 8 && Scanned(v, w, pref, bg, false, n)
    ensures w == v && n == 0 && Fit(v) && v.bgdt[bg].blockBitmap == BlockBitmap(bg)
    ensures v.bgdt[bg].freeBlocks == 0 ==> SetUpTo(v.disk[BlockBitmap(bg)], 256)
  {
    hide Used, Bit, MetaUsed, Counted;
    FitParts(v);
    CountSays(v, bg);
  }

  lemma FoundLowest(v: Volume, pref: nat, bg: nat, idx: nat, n: nat)
    requires bg < 8 && pref <= bg && idx < 256 && Scanned(v, v, pref, bg, false, n)
    requires !Bit(v.disk[BlockBitmap(bg)], idx) && SetUpTo(v.disk[BlockBitmap(bg)], idx)
    ensures Scanned(v, Take(v, 256 * bg + idx), pref, bg + 1, true, 256 * bg + idx)
  {
    hide Fit, Used, Bit, FirstFree, Meta, Take;
    LowestIsFirstFree(v.disk, pref, bg, idx);
    GroupBits(v.disk, bg, idx);
    TakeFits(v, 256 * bg + idx);
    DataAreaBegins(256 * bg + idx);
  }

  lemma GroupPassed(v: Volume, pref: nat, bg: nat, n: nat)
    requires bg < 8 && pref <= bg && Scanned(v, v, pref, bg, false, n) && SetUpTo(v.disk[BlockBitmap(bg)], 256)
    ensures Scanned(v, v, pref, bg + 1, false, n)
  {
    hide Fit, Used, Bit;
    NoneInGroup(v.disk, pref, bg);
  }

  lemma FoundNonzero(v: Volume, w: Volume, pref: nat, bg: nat, n: nat)
    requires Scanned(v, w, pref, bg, true, n)
    ensures n != 0
  {
    hide Fit, Used, Take, FirstFree, Meta;
  }

  /** What the scans deliver, in the terms of the specification. */
  lemma ScanIsFirstFree(v: Volume, w: Volume, pref: nat, found: bool, n: nat)
    requires Scanned(v, w, pref, 8, found, n)
    ensures n == FirstFree(v.disk, 256 * pref) && (found <==> n != 0) && Fit(w)
    ensures w == (if found then Take(v, n) else v) && (found ==> n < 2048 && !Meta(n))
  {
    hide Fit, Used, Take, FirstFree, Meta;
    if !found { NothingFree(v.disk, pref); }
  }

  lemma ScanEnds(v: Volume, w: Volume, pref: nat, bg: nat, found: bool, n: nat)
    requires Scanned(v, w, pref, bg, found, n) && (found || bg >= 8)
    ensures Scanned(v, w, pref, 8, found, n)
  {
    hide Fit, Used, Take, FirstFree, Meta;
  }

  class Ext2 {
    var image: Image
    var superBlock: Superblock
    var bgdtCache: DescTable

    /** The state as a value. */
    ghost function V(): Volume
      reads this
    {
      Volume(image.blocks, superBlock, bgdtCache.table)
    }

    /** The scan repeated word for word for the blocks of a file: from group `pref` on, never wrapping. */
    method AllocateBlock(pref: nat) returns (n: nat)
      requires Fit(V())
      modifies this
      ensures n == FirstFree(old(V().disk), 256 * pref)
      ensures V() == (if n == 0 then old(V()) else Take(old(V()), n)) && Fit(V())
      ensures n != 0 ==> n < 2048 && !Meta(n)
    {
      hide Fit, Used, Bit, FirstFree, Meta, MarkUsed;
      ghost var v := V();
      FitParts(v);
      n := 0;
      var bg := pref;
      while bg < GROUPS_COUNT
        invariant V() == v && pref <= bg && n == 0
        invariant bg <= 8 ==> forall m :: 256 * pref <= m < 256 * bg ==> Used(v.disk, m)
        invariant bg > 8 ==> bg == pref
      {
        CountSays(v, bg);
        if bgdtCache.table[bg].freeBlocks > 0 {
          var bmp := image.blocks[bgdtCache.table[bg].blockBitmap];
          var idx := ScanBitmap(bmp, 256);
          if idx < 256 {
            n := bg * 256 + idx;
            LowestIsFirstFree(v.disk, pref, bg, idx);
            GroupBits(v.disk, bg, idx);
            TakeFits(v, n);
            MarkBlock(bg, idx);
            DataAreaBegins(n);
            return;
          }
        }
        NoneInGroup(v.disk, pref, bg);
        bg := bg + 1;
      }
      NothingFree(v.disk, pref);
    }

    /** The body of every scan: the bit is set and both counters go down. */
    method MarkBlock(bg: nat, idx: nat)
      requires bg < 8 && idx < 256 && bgdtCache.table[bg].blockBitmap == BlockBitmap(bg)
      modifies this
      ensures V() == Take(old(V()), 256 * bg + idx)
    {
      hide WithBit;
      ghost var v := V();
      var bmp := image.blocks[bgdtCache.table[bg].blockBitmap];
      image := Image(image.blocks[bgdtCache.table[bg].blockBitmap := WithBit(bmp, idx)]);
      var desc := bgdtCache.table[bg];
      bgdtCache := DescTable(bgdtCache.table[bg := desc.(freeBlocks := Dec16(desc.freeBlocks))]);
      superBlock := superBlock.(freeBlocks := Dec32(superBlock.freeBlocks));
      TakeIs(v, bg, idx);
    }

    /** The scan of `init_directory_table`: a flag ends its loops. */
    method TakeDirectoryBlock(bgd: nat) returns (found: bool, dirBlock: nat)
      requires Fit(V())
      modifies this
      ensures Scanned(old(V()), V(), bgd, 8, found, dirBlock)
    {
      hide Fit, Bit, Scanned;
      ghost var v := V();
      found, dirBlock := false, 0;
      var bg := bgd;
      NothingScanned(v, bgd);
      while bg < GROUPS_COUNT && !found
        invariant bgd <= bg && Scanned(v, V(), bgd, bg, found, dirBlock)
      {
        GroupScanned(v, V(), bgd, bg, dirBlock);
        var byte := 0;
        if bgdtCache.table[bg].freeBlocks > 0 {
          var bmp := image.blocks[bgdtCache.table[bg].blockBitmap];
          while byte < BLOCK_SIZE
            invariant byte <= 512 && !found && dirBlock == 0 && V() == v && SetUpTo(bmp, 8 * byte)
          {
            if bmp[byte] != 0xFF {
              var bit := 0;
              while bit < 8
                invariant bit <= 8 && !found && dirBlock == 0 && V() == v && SetUpTo(bmp, 8 * byte + bit)
              {
                var bitIdx := byte * 8 + bit;
                if bitIdx >= BLOCKS_PER_GROUP { break; }
                BitAt(bmp, byte, bit);
                if !TestBit(bmp[byte], bit) {
                  FoundLowest(v, bgd, bg, bitIdx, dirBlock);
                  MarkBlock(bg, bitIdx);
                  dirBlock := bg * BLOCKS_PER_GROUP + bitIdx;
                  found := true;
                  break;
                }
                BitPassed(bmp, byte, bit);
                bit := bit + 1;
              }
              if !found { RowPassed(bmp, byte, bit); }
            } else {
              FullPassed(bmp, byte);
            }
            if found { break; }
            byte := byte + 1;
          }
        }
        if found {
          assert Scanned(v, V(), bgd, bg + 1, found, dirBlock);
        } else {
          GroupPassed(v, bgd, bg, dirBlock);
        }
        bg := bg + 1;
      }
      ScanEnds(v, V(), bgd, bg, found, dirBlock);
    }

    /**
     * The scan of `write` for a block to grow by: it ends when the number found is not zero, block 0 being always in
     * use.
     */
    method TakeGrowthBlock(parentBgd: nat) returns (newBlock: nat)
      requires Fit(V())
      modifies this
      ensures Scanned(old(V()), V(), parentBgd, 8, newBlock != 0, newBlock)
    {
      hide Fit, Bit, Scanned;
      ghost var v := V();
      newBlock := 0;
      var bg := parentBgd;
      NothingScanned(v, parentBgd);
      while bg < GROUPS_COUNT
        invariant parentBgd <= bg && newBlock == 0 && Scanned(v, V(), parentBgd, bg, false, 0)
      {
        GroupScanned(v, V(), parentBgd, bg, 0);
        if bgdtCache.table[bg].freeBlocks != 0 {
          var bmp := image.blocks[bgdtCache.table[bg].blockBitmap];
          var b := 0;
          while b < BLOCK_SIZE
            invariant b <= 512 && newBlock == 0 && V() == v && SetUpTo(bmp, 8 * b)
          {
            if bmp[b] != 0xFF {
              var bit := 0;
              while bit < 8
                invariant bit <= 8 && newBlock == 0 && V() == v && SetUpTo(bmp, 8 * b + bit)
              {
                var idx := b * 8 + bit;
                if idx >= BLOCKS_PER_GROUP { break; }
                BitAt(bmp, b, bit);
                if !TestBit(bmp[b], bit) {
                  FoundLowest(v, parentBgd, bg, idx, 0);
                  MarkBlock(bg, idx);
                  newBlock := bg * BLOCKS_PER_GROUP + idx;
                  FoundNonzero(v, V(), parentBgd, bg + 1, newBlock);
                  break;
                }
                BitPassed(bmp, b, bit);
                bit := bit + 1;
              }
              if newBlock == 0 { RowPassed(bmp, b, bit); }
            } else {
              FullPassed(bmp, b);
            }
            if newBlock != 0 { break; }
            b := b + 1;
          }
        }
        if newBlock != 0 {
          ScanEnds(v, V(), parentBgd, bg + 1, true, newBlock);
          return;
        }
        GroupPassed(v, parentBgd, bg, 0);
        bg := bg + 1;
      }
      ScanEnds(v, V(), parentBgd, bg, false, 0);
    }

    /** `sync_metadata`; of blocks 1 and 2 only the bytes of the structures are modelled. */
    method SyncMetadata()
      modifies this
      ensures V() == Sync(old(V()))
    {
      image := Image(image.blocks[1 := Splice(image.blocks[1], 0, EncSuperblock(superBlock))]);
      image := Image(image.blocks[2 := Splice(image.blocks[2], 0, EncTable(bgdtCache.table))]);
    }

    /** `allocate_node`: the lowest free inode of all groups. */
    method AllocateNode() returns (ino: nat)
      requires Fit(V())
      modifies this
      ensures ino == FirstFreeInode(old(V().disk), 1) && (ino != 0 ==> ValidInode(ino))
      ensures V() == (if ino == 0 then old(V()) else AllocNode(old(V()), ino)) && Fit(V())
    {
      hide Fit, InodeUsed, Bit, FirstFreeInode, MarkInodeUsed, Sync, InodeToBgd, InodeToLocal;
      ghost var v := V();
      FitParts(v);
      ino := 0;
      var i := 0;
      while i < GROUPS_COUNT
        invariant V() == v && i <= 8 && ino == 0
        invariant forall k :: 1 <= k <= 112 * i ==> ValidInode(k) && InodeUsed(v.disk, k)
      {
        CountSays(v, i);
        if bgdtCache.table[i].freeInodes > 0 {
          var bmp := image.blocks[bgdtCache.table[i].inodeBitmap];
          var idx := ScanBitmap(bmp, INODES_PER_GROUP);
          if idx < INODES_PER_GROUP {
            ino := i * INODES_PER_GROUP + idx + 1;
            LowestInodeIsFirst(v.disk, i, idx);
            AllocNodeFits(v, ino);
            image := Image(image.blocks[bgdtCache.table[i].inodeBitmap := WithBit(bmp, idx)]);
            var desc := bgdtCache.table[i];
            bgdtCache := DescTable(bgdtCache.table[i := desc.(freeInodes := Dec16(desc.freeInodes))]);
            superBlock := superBlock.(freeInodes := Dec32(superBlock.freeInodes));
            TakeInodeIs(v, i, idx);
            assert V() == TakeInode(v, ino);
            SyncMetadata();
            return;
          }
        }
        NoneInInodeGroup(v.disk, i);
        i := i + 1;
      }
      FirstFreeInodeNone(v.disk, 1);
    }

    /** Copies the `placed`-th part of `data` into block `n`; the rest of the last block is zero. */
    method WriteData(n: nat, data: seq<byte>, blocksNeeded: nat, placed: nat)
      requires 21 <= n < 2048 && !Meta(n) && Fit(V())
      requires |data| < 0x1_0000_0000 && blocksNeeded == BlocksFor(|data|) && placed < blocksNeeded
      modifies this`image
      ensures V() == PutBlock(old(V()), n, Chunk(data, placed)) && Fit(V())
    {
      hide Fit, Chunk, Meta, BlocksFor;
      var toCopy := if placed == blocksNeeded - 1 then |data| % 512 else 512;
      if toCopy == 0 { toCopy := 512; }
      CopiedChunk(data, blocksNeeded, placed, toCopy);
      PutFits(V(), n, Chunk(data, placed));
      image := Image(image.blocks[n := Splice(ZeroBlock(), 0, data[placed * 512..placed * 512 + toCopy])]);
    }

    /** The loop that fills one pointer block with up to 128 freshly taken data blocks. */
    method FillPointerBlock(pref: nat, data: seq<byte>, blocksNeeded: nat, allocatedBefore: nat)
      returns (ptrBuf: Block, placed: nat)
      requires Fit(V()) && |data| < 0x1_0000_0000 && blocksNeeded == BlocksFor(|data|)
      modifies this
      ensures PtrFill(V(), placed, ptrBuf) ==
          FillRun(PtrFill(old(V()), allocatedBefore, ZeroBlock()), pref, data, blocksNeeded, 0)
      ensures Fit(V())
    {
      hide Fit, Chunk, Meta, BlocksFor, FillRun, FirstFree, Take, WithPtr, ZeroBlock;
      ptrBuf, placed := ZeroBlock(), allocatedBefore;
      ghost var r0 := PtrFill(V(), placed, ptrBuf);
      var ptrIdx := 0;
      while placed < blocksNeeded && ptrIdx < 128
        invariant Fit(V()) && ptrIdx <= 128
        invariant FillRun(PtrFill(V(), placed, ptrBuf), pref, data, blocksNeeded, ptrIdx) ==
            FillRun(r0, pref, data, blocksNeeded, 0)
        decreases 128 - ptrIdx
      {
        FillRunStep(PtrFill(V(), placed, ptrBuf), pref, data, blocksNeeded, ptrIdx);
        var blockNum := AllocateBlock(pref);
        if blockNum == 0 { return; }
        DataAreaBegins(blockNum);
        WriteData(blockNum, data, blocksNeeded, placed);
        ptrBuf := WithPtr(ptrBuf, ptrIdx, blockNum);
        placed := placed + 1;
        ptrIdx := ptrIdx + 1;
      }
      FillRunStep(PtrFill(V(), placed, ptrBuf), pref, data, blocksNeeded, ptrIdx);
    }

    /** `write_blocks` of one block in the data area. */
    method WriteBlock(m: nat, b: Block)
      requires 21 <= m < 2048 && !Meta(m) && Fit(V())
      modifies this`image
      ensures V() == PutBlock(old(V()), m, b) && Fit(V())
    {
      hide Fit, Meta;
      PutFits(V(), m, b);
      image := Image(image.blocks[m := b]);
    }

    /** The twelve direct blocks. */
    method AllocateDirect(node0: Inode, pref: nat, data: seq<byte>) returns (node: Inode, allocatedBlocks: nat)
      requires Fit(V()) && |data| < 0x1_0000_0000 && node0.blocks == BlocksFor(|data|)
      modifies this
      ensures Stage(V(), node, allocatedBlocks) == AllocDirect(Stage(old(V()), node0, 0), pref, data, 0)
      ensures Fit(V()) && node.blocks == node0.blocks
    {
      hide Fit, Chunk, Meta, BlocksFor, AllocDirect, FirstFree, Take;
      node, allocatedBlocks := node0, 0;
      ghost var s0 := Stage(V(), node, 0);
      var i := 0;
      while i < 12 && allocatedBlocks < node.blocks
        invariant Fit(V()) && i <= 12 && node.blocks == node0.blocks
        invariant AllocDirect(Stage(V(), node, allocatedBlocks), pref, data, i) == AllocDirect(s0, pref, data, 0)
        decreases 12 - i
      {
        DirectStep(Stage(V(), node, allocatedBlocks), pref, data, i);
        var blockNum := AllocateBlock(pref);
        if blockNum == 0 { return; }
        node := WithSlot(node, i, blockNum);
        DataAreaBegins(blockNum);
        WriteData(blockNum, data, node.blocks, allocatedBlocks);
        allocatedBlocks := allocatedBlocks + 1;
        i := i + 1;
      }
      DirectStep(Stage(V(), node, allocatedBlocks), pref, data, i);
    }

    /** The single-indirect block and its data blocks. */
    method AllocateIndirect(node0: Inode, before: nat, pref: nat, data: seq<byte>)
      returns (node: Inode, allocatedBlocks: nat)
      requires Fit(V()) && |data| < 0x1_0000_0000 && node0.blocks == BlocksFor(|data|)
      modifies this
      ensures Stage(V(), node, allocatedBlocks) == AllocIndirect(Stage(old(V()), node0, before), pref, data)
      ensures Fit(V()) && node.blocks == node0.blocks
    {
      hide Fit, Meta, BlocksFor, FillRun, FirstFree, Take;
      node, allocatedBlocks := node0, before;
      if allocatedBlocks < node.blocks {
        var pointerBlock := AllocateBlock(pref);
        if pointerBlock != 0 {
          DataAreaBegins(pointerBlock);
          node := WithSlot(node, 12, pointerBlock);
          var ptrBuf;
          ptrBuf, allocatedBlocks := FillPointerBlock(pref, data, node.blocks, allocatedBlocks);
          WriteBlock(pointerBlock, ptrBuf);
        }
      }
    }

    /** The double-indirect block, its inner pointer blocks and their data blocks. */
    method AllocateDouble(node0: Inode, before: nat, pref: nat, data: seq<byte>)
      returns (node: Inode, allocatedBlocks: nat)
      requires Fit(V()) && |data| < 0x1_0000_0000 && node0.blocks == BlocksFor(|data|)
      modifies this
      ensures Stage(V(), node, allocatedBlocks) == AllocDouble(Stage(old(V()), node0, before), pref, data)
      ensures Fit(V())
    {
      hide Fit, Meta, BlocksFor, FillRun, FillDouble, FirstFree, Take, WithPtr, ZeroBlock;
      node, allocatedBlocks := node0, before;
      if allocatedBlocks < node.blocks {
        var dblBlock := AllocateBlock(pref);
        if dblBlock != 0 {
          DataAreaBegins(dblBlock);
          node := WithSlot(node, 13, dblBlock);
          var dblBuf := ZeroBlock();
          ghost var r0 := PtrFill(V(), allocatedBlocks, dblBuf);
          var dblIdx := 0;
          while allocatedBlocks < node.blocks && dblIdx < 128
            invariant Fit(V()) && dblIdx <= 128
            invariant FillDouble(PtrFill(V(), allocatedBlocks, dblBuf), pref, data, node.blocks, dblIdx)
                   == FillDouble(r0, pref, data, node.blocks, 0)
            decreases 128 - dblIdx
          {
            DoubleStep(PtrFill(V(), allocatedBlocks, dblBuf), pref, data, node.blocks, dblIdx);
            var indBlock := AllocateBlock(pref);
            if indBlock == 0 { break; }
            DataAreaBegins(indBlock);
            var ptrBuf;
            ptrBuf, allocatedBlocks := FillPointerBlock(pref, data, node.blocks, allocatedBlocks);
            WriteBlock(indBlock, ptrBuf);
            dblBuf := WithPtr(dblBuf, dblIdx, indBlock);
            dblIdx := dblIdx + 1;
          }
          DoubleStep(PtrFill(V(), allocatedBlocks, dblBuf), pref, data, node.blocks, dblIdx);
          WriteBlock(dblBlock, dblBuf);
        }
      }
    }

    /** `allocate_node_blocks`. */
    method AllocateNodeBlocks(node0: Inode, pref: nat, data: seq<byte>) returns (node: Inode)
      requires Fit(V()) && |data| < 0x1_0000_0000 && node0.blocks == BlocksFor(|data|)
      modifies this
      ensures var s := AllocBlocks(old(V()), node0, pref, data); V() == Sync(s.v) && node == s.node
      ensures Fit(V())
    {
      hide Fit, BlocksFor, AllocDirect, AllocIndirect, AllocDouble, Sync;
      var allocatedBlocks;
      node, allocatedBlocks := AllocateDirect(node0, pref, data);
      node, allocatedBlocks := AllocateIndirect(node, allocatedBlocks, pref, data);
      node, allocatedBlocks := AllocateDouble(node, allocatedBlocks, pref, data);
      SyncFits(V());
      SyncMetadata();
    }

    /** `sync_node`. */
    method WriteNode(node: Inode, ino: nat)
      requires Fit(V()) && ValidInode(ino)
      modifies this`image
      ensures V() == SyncNode(old(V()), ino, node) && Fit(V())
    {
      hide Counted, MetaUsed, PutInode, Meta;
      MetadataInRange(ino);
      CountSays(V(), InodeToBgd(ino));
      SyncNodeFits(V(), ino, node);
      var tableBlock := bgdtCache.table[InodeToBgd(ino)].inodeTable + InodeToLocal(ino) / INODES_PER_TABLE;
      image := Image(image.blocks[tableBlock := PutInode(image.blocks[tableBlock], InodeToLocal(ino) % INODES_PER_TABLE,
        node)]);
    }

    /** `init_directory_table` on a mounted volume. */
    method InitDirectoryTable(slot: Inode, ino: nat, parent: nat) returns (node: Inode)
      requires Fit(V()) && ValidInode(ino) && parent < 0x1_0000_0000
      modifies this
      ensures (V(), node) == InitDir(old(V()), slot, ino, parent) && Fit(V())
    {
      hide Fit, FirstFree, Meta, Take, NewDirBlock, Sync, FallbackBlock, Scanned;
      var bgd := InodeToBgd(ino);
      MetadataInRange(ino);
      ghost var v := V();
      var found, dirBlock := TakeDirectoryBlock(bgd);
      ScanIsFirstFree(v, V(), bgd, found, dirBlock);
      if !found {
        FallbackInData(bgd);
        dirBlock := FallbackBlock(bgd);
      } else {
        DataAreaBegins(dirBlock);
      }
      node := DirNode(slot, dirBlock);
      WriteBlock(dirBlock, NewDirBlock(ino, parent));
      SyncFits(V());
      SyncMetadata();
    }

    /** Clears the bit of block `p` and counts it free; zero pointers are skipped. */
    method ReleaseBlock(p: u32)
      requires Geometry(V().bgdt) && p < 2048
      modifies this
      ensures V() == ReleasePtr(old(V()), p) && Geometry(V().bgdt) && OnlyBitmaps(old(V().disk), V().disk)
    {
      hide Geometry, WithoutBit, OnlyBitmaps;
      OnlyBitmapsSelf(V().disk);
      if p != 0 {
        BitmapGeometry(V(), p);
        var grp, off := p / BLOCKS_PER_GROUP, p % BLOCKS_PER_GROUP;
        var bmp := image.blocks[bgdtCache.table[grp].blockBitmap];
        image := Image(image.blocks[bgdtCache.table[grp].blockBitmap := WithoutBit(bmp, off)]);
        var desc := bgdtCache.table[grp];
        bgdtCache := DescTable(bgdtCache.table[grp := desc.(freeBlocks := Inc16(desc.freeBlocks))]);
        superBlock := superBlock.(freeBlocks := Inc32(superBlock.freeBlocks));
      }
    }

    /** The first `count` pointers of a pointer block. */
    method ReleaseRun(b: Block, count: nat)
      requires Geometry(V().bgdt) && count <= 128 && PtrBlockOK(b)
      modifies this
      ensures V() == FreeRun(old(V()), b, 0, count) && Geometry(V().bgdt) && OnlyBitmaps(old(V().disk), V().disk)
    {
      hide Geometry, ReleasePtr, FreeRun, PtrAt, OnlyBitmaps;
      ghost var v := V();
      OnlyBitmapsSelf(v.disk);
      var j := 0;
      while j < count
        invariant j <= count && Geometry(V().bgdt) && OnlyBitmaps(v.disk, V().disk)
        invariant FreeRun(V(), b, j, count) == FreeRun(v, b, 0, count)
      {
        ghost var d := V().disk;
        FreeRunStep(V(), b, j, count);
        ReleaseBlock(PtrAt(b, j));
        OnlyBitmapsTransitive(v.disk, d, V().disk);
        j := j + 1;
      }
      FreeRunStep(V(), b, j, count);
    }

    method ReleaseDirect(node: Inode) returns (remain: nat)
      requires Geometry(V().bgdt) && forall i :: 0 <= i < 12 ==> node.block[i] < 2048
      modifies this
      ensures V() == FreeDirect(old(V()), node, 0, node.blocks) && remain == AfterDirect(node)
      ensures Geometry(V().bgdt) && OnlyBitmaps(old(V().disk), V().disk)
    {
      hide Geometry, ReleasePtr, FreeDirect, OnlyBitmaps;
      ghost var v := V();
      OnlyBitmapsSelf(v.disk);
      remain := node.blocks;
      var i := 0;
      while i < 12 && remain > 0
        invariant i <= 12 && i <= node.blocks && remain == node.blocks - i
        invariant Geometry(V().bgdt) && OnlyBitmaps(v.disk, V().disk)
        invariant FreeDirect(V(), node, i, remain) == FreeDirect(v, node, 0, node.blocks)
      {
        ghost var d := V().disk;
        FreeDirectStep(V(), node, i, remain);
        ReleaseBlock(node.block[i]);
        OnlyBitmapsTransitive(v.disk, d, V().disk);
        remain := remain - 1;
        i := i + 1;
      }
      FreeDirectStep(V(), node, i, remain);
    }

    method ReleaseDouble(dblPtrs: Block, remain: nat)
      requires Geometry(V().bgdt) && DoublePtrsOK(V().disk, dblPtrs)
      modifies this
      ensures V() == FreeInner(old(V()), dblPtrs, 0, remain)
      ensures Geometry(V().bgdt) && OnlyBitmaps(old(V().disk), V().disk)
    {
      hide Geometry, ReleasePtr, FreeRun, FreeInner, PtrAt, OnlyBitmaps, PtrBlockOK;
      ghost var v := V();
      OnlyBitmapsSelf(v.disk);
      var total, k := remain, 0;
      while k < 128 && total > 0
        invariant k <= 128 && Geometry(V().bgdt) && OnlyBitmaps(v.disk, V().disk)
        invariant FreeInner(V(), dblPtrs, k, total) == FreeInner(v, dblPtrs, 0, remain)
        decreases 128 - k
      {
        FreeInnerStep(V(), dblPtrs, k, total);
        DoublePtrsKept(v.disk, V().disk, dblPtrs);
        var indBlock := PtrAt(dblPtrs, k);
        if indBlock != 0 {
          assert InnerPtrsOK(V().disk, indBlock);
          ghost var d := V().disk;
          var indPtrs := image.blocks[indBlock];
          var cnt := if total < 128 then total else 128;
          ReleaseRun(indPtrs, cnt);
          OnlyBitmapsTransitive(v.disk, d, V().disk);
          ghost var d' := V().disk;
          ReleaseBlock(indBlock);
          OnlyBitmapsTransitive(v.disk, d', V().disk);
          total := total - cnt;
        }
        k := k + 1;
      }
      FreeInnerStep(V(), dblPtrs, k, total);
    }

    /** All blocks of a mapping tree, as `deallocate_node` gives them back. */
    method ReleaseTree(node: Inode)
      requires Geometry(V().bgdt) && TreePtrsOK(V().disk, node)
      modifies this
      ensures V() == FreeTree(old(V()), node) && Geometry(V().bgdt) && OnlyBitmaps(old(V().disk), V().disk)
    {
      hide Geometry, ReleasePtr, FreeDirect, FreeRun, FreeInner, PtrAt, OnlyBitmaps, PtrBlockOK, DoublePtrsOK;
      ghost var d0 := V().disk;
      var remain := ReleaseDirect(node);
      TreePtrsKept(d0, V().disk, node);
      if remain > 0 && node.block[12] != 0 {
        ghost var d := V().disk;
        var indPtrs := image.blocks[node.block[12]];
        var count := if remain < 128 then remain else 128;
        ReleaseRun(indPtrs, count);
        OnlyBitmapsTransitive(d0, d, V().disk);
        ghost var d' := V().disk;
        ReleaseBlock(node.block[12]);
        OnlyBitmapsTransitive(d0, d', V().disk);
        remain := if remain > count then remain - count else 0;
      }
      TreePtrsKept(d0, V().disk, node);
      if remain > 0 && node.block[13] != 0 {
        ghost var d := V().disk;
        ReleaseDouble(image.blocks[node.block[13]], remain);
        OnlyBitmapsTransitive(d0, d, V().disk);
        ghost var d' := V().disk;
        ReleaseBlock(node.block[13]);
        OnlyBitmapsTransitive(d0, d', V().disk);
      }
    }

    /** `deallocate_node`. */
    method DeallocateNode(ino: nat)
      requires ValidInode(ino) && Geometry(V().bgdt) && TreePtrsOK(V().disk, Node(V().disk, ino))
      modifies this
      ensures V() == DeallocNode(old(V()), ino)
    {
      hide Geometry, FreeTree, OnlyBitmaps, TreePtrsOK, IsDirMode, PutInode, GetInode, WithoutBit, Sync;
      MetadataInRange(ino);
      ghost var v := V();
      GroupGeometry(v.bgdt, InodeToBgd(ino));
      var bg, local := InodeToBgd(ino), InodeToLocal(ino);
      var tableBlock := bgdtCache.table[bg].inodeTable + local / INODES_PER_TABLE;
      var buf := image.blocks[tableBlock];
      var node := GetInode(buf, local % INODES_PER_TABLE);
      if IsDirMode(node.mode) {
        if bgdtCache.table[bg].usedDirs > 0 {
          GeometryUsedDirs(v, bg, v.bgdt[bg].usedDirs - 1);
          var desc := bgdtCache.table[bg];
          bgdtCache := DescTable(bgdtCache.table[bg := desc.(usedDirs := desc.usedDirs - 1)]);
        }
      }
      ghost var v1 := V();
      ReleaseTree(node);
      TableKept(v1.disk, V().disk, ino);
      image := Image(image.blocks[tableBlock := PutInode(buf, local % INODES_PER_TABLE, ZeroInode())]);
      ghost var w := V();
      assert w == SyncNode(FreeTree(v1, node), ino, ZeroInode());
      GroupGeometry(w.bgdt, bg);
      var bmp := image.blocks[bgdtCache.table[bg].inodeBitmap];
      image := Image(image.blocks[bgdtCache.table[bg].inodeBitmap := WithoutBit(bmp, local)]);
      var desc := bgdtCache.table[bg];
      bgdtCache := DescTable(bgdtCache.table[bg := desc.(freeInodes := Inc16(desc.freeInodes))]);
      superBlock := superBlock.(freeInodes := Inc32(superBlock.freeInodes));
      assert V() == ReleaseInode(w, ino);
      SyncMetadata();
    }

    // ----- directories -----

    /** The block loop of `read` and `delete`. */
    method Find(n: Inode, name: Name) returns (r: Place, prev: nat)
      requires DirOK(V().disk, n)
      ensures r == FindEntry(V().disk, n, 0, name)
      ensures r.Place? ==> r.bi < n.blocks && DirBlockOK(V().disk, n.block[r.bi])
      ensures r.Place? ==> prev == Previous(V().disk[n.block[r.bi]], 0, 512, r.at)
    {
      hide Chain, FindName, Previous, FindEntry;
      prev := 512;
      var bi := 0;
      while bi < n.blocks
        invariant bi <= n.blocks && FindEntry(V().disk, n, bi, name) == FindEntry(V().disk, n, 0, name)
      {
        FindEntryStep(V().disk, n, bi, name);
        assert DirBlockOK(V().disk, n.block[bi]);
        var offset;
        offset, prev := FindInBlock(image.blocks[n.block[bi]], name);
        if offset != 512 { return Place(bi, offset), prev; }
        bi := bi + 1;
      }
      FindEntryStep(V().disk, n, bi, name);
      r := Nowhere;
    }

    /** The block loop of `write`. */
    method FindSpace(n: Inode, name: Name) returns (r: Room)
      requires DirOK(V().disk, n)
      ensures r == FindRoom(V().disk, n, 0, name)
    {
      hide Chain, ScanForHole, FindRoom, RecordLen;
      var bi := 0;
      while bi < n.blocks
        invariant bi <= n.blocks && FindRoom(V().disk, n, bi, name) == FindRoom(V().disk, n, 0, name)
      {
        FindRoomStep(V().disk, n, bi, name);
        assert DirBlockOK(V().disk, n.block[bi]);
        var s := ScanBlock(image.blocks[n.block[bi]], name, RecordLen(|name|));
        match s {
          case Duplicate => return Exists;
          case Hole(at) => return InHole(bi, at);
          case NoRoom =>
        }
        bi := bi + 1;
      }
      FindRoomStep(V().disk, n, bi, name);
      r := Full;
    }

    // ----- read -----

    /** One data block to the buffer, at most `toRead` bytes of it. */
    method CopyOut(p: u32, buf: array<byte>, copied: nat, toRead: nat, ghost was: seq<byte>, ghost out: seq<byte>)
      returns (copyLen: nat)
      requires p < 2048 && 0 < toRead && copied + toRead <= buf.Length && |out| == copied
      requires BufferFilled(buf[..], was, out)
      modifies buf
      ensures BufferFilled(buf[..], was, CopyBlock(V().disk, p, copied + toRead, out))
      ensures copyLen <= toRead && |CopyBlock(V().disk, p, copied + toRead, out)| == copied + copyLen
    {
      var dataBuf := image.blocks[p];
      copyLen := if toRead > BLOCK_SIZE then BLOCK_SIZE else toRead;
      ghost var before := buf[..];
      forall i | 0 <= i < copyLen { buf[copied + i] := dataBuf[i]; }
      FilledOneMore(before, buf[..], was, out, dataBuf, copyLen);
    }

    method ReadDirectBlocks(node: Inode, buf: array<byte>) returns (copied: nat)
      requires node.size <= buf.Length && forall i :: 0 <= i < 12 ==> node.block[i] < 2048
      modifies buf
      ensures copied == |ReadDirect(V().disk, node, [], 0)| <= node.size
      ensures BufferFilled(buf[..], old(buf[..]), ReadDirect(V().disk, node, [], 0))
    {
      hide ReadDirect, CopyBlock, BufferFilled;
      ghost var was, out := buf[..], [];
      EmptyFilled(was);
      copied := 0;
      var i := 0;
      while i < 12 && node.size - copied > 0
        invariant i <= 12 && copied == |out| <= node.size && BufferFilled(buf[..], was, out)
        invariant ReadDirect(V().disk, node, out, i) == ReadDirect(V().disk, node, [], 0)
        decreases 12 - i
      {
        ReadDirectStep(V().disk, node, out, i);
        if node.block[i] == 0 { return; }
        var copyLen := CopyOut(node.block[i], buf, copied, node.size - copied, was, out);
        out := CopyBlock(V().disk, node.block[i], node.size, out);
        copied := copied + copyLen;
        i := i + 1;
      }
      ReadDirectStep(V().disk, node, out, i);
    }

    method ReadPointers(ptrs: Block, size: nat, buf: array<byte>, from: nat, ghost was: seq<byte>,
      ghost out0: seq<byte>)
      returns (copied: nat)
      requires size <= buf.Length && PtrBlockOK(ptrs) && from == |out0| <= size && BufferFilled(buf[..], was, out0)
      modifies buf
      ensures copied == |ReadRun(V().disk, ptrs, size, out0, 0)| <= size
      ensures BufferFilled(buf[..], was, ReadRun(V().disk, ptrs, size, out0, 0))
    {
      hide ReadRun, CopyBlock, BufferFilled, PtrAt;
      ghost var out := out0;
      copied := from;
      var j := 0;
      while j < 128 && size - copied > 0
        invariant j <= 128 && copied == |out| <= size && BufferFilled(buf[..], was, out)
        invariant ReadRun(V().disk, ptrs, size, out, j) == ReadRun(V().disk, ptrs, size, out0, 0)
        decreases 128 - j
      {
        ReadRunStep(V().disk, ptrs, size, out, j);
        var blockId := PtrAt(ptrs, j);
        if blockId == 0 { return; }
        var copyLen := CopyOut(blockId, buf, copied, size - copied, was, out);
        out := CopyBlock(V().disk, blockId, size, out);
        copied := copied + copyLen;
        j := j + 1;
      }
      ReadRunStep(V().disk, ptrs, size, out, j);
    }

    method ReadDoublePointers(ptrs: Block, size: nat, buf: array<byte>, from: nat, ghost was: seq<byte>,
        ghost out0: seq<byte>)
      returns (copied: nat)
      requires size <= buf.Length && DoublePtrsOK(V().disk, ptrs) && from == |out0| <= size
      requires BufferFilled(buf[..], was, out0)
      modifies buf
      ensures copied == |ReadDouble(V().disk, ptrs, size, out0, 0)| <= size
      ensures BufferFilled(buf[..], was, ReadDouble(V().disk, ptrs, size, out0, 0))
    {
      hide ReadRun, ReadDouble, BufferFilled, PtrAt, PtrBlockOK;
      ghost var out := out0;
      copied := from;
      var k := 0;
      while k < 128 && size - copied > 0
        invariant k <= 128 && copied == |out| <= size && BufferFilled(buf[..], was, out)
        invariant ReadDouble(V().disk, ptrs, size, out, k) == ReadDouble(V().disk, ptrs, size, out0, 0)
        decreases 128 - k
      {
        ReadDoubleStep(V().disk, ptrs, size, out, k);
        var indBlock := PtrAt(ptrs, k);
        if indBlock == 0 { return; }
        assert InnerPtrsOK(V().disk, indBlock);
        copied := ReadPointers(image.blocks[indBlock], size, buf, copied, was, out);
        out := ReadRun(V().disk, image.blocks[indBlock], size, out, 0);
        k := k + 1;
      }
      ReadDoubleStep(V().disk, ptrs, size, out, k);
    }

    /** The bytes of an inode, through its direct, single-indirect and double-indirect blocks. */
    method ReadInode(node: Inode, buf: array<byte>)
      requires node.size <= buf.Length && TreePtrsOK(V().disk, node)
      modifies buf
      ensures BufferFilled(buf[..], old(buf[..]), ReadNode(V().disk, node))
    {
      hide ReadDirect, ReadRun, ReadDouble, BufferFilled, PtrBlockOK, DoublePtrsOK;
      ghost var was := buf[..];
      var copied := ReadDirectBlocks(node, buf);
      ghost var out := ReadDirect(V().disk, node, [], 0);
      if node.size - copied > 0 && node.block[12] != 0 {
        copied := ReadPointers(image.blocks[node.block[12]], node.size, buf, copied, was, out);
        out := ReadRun(V().disk, image.blocks[node.block[12]], node.size, out, 0);
      }
      if node.size - copied > 0 && node.block[13] != 0 {
        copied := ReadDoublePointers(image.blocks[node.block[13]], node.size, buf, copied, was, out);
      }
    }

    // ----- the operations -----

    method LoadNode(ino: nat) returns (n: Inode)
      requires ValidInode(ino) && Geometry(V().bgdt)
      ensures n == Node(V().disk, ino)
    {
      hide Geometry, GetInode;
      MetadataInRange(ino);
      GroupGeometry(V().bgdt, InodeToBgd(ino));
      var tableBlock := bgdtCache.table[InodeToBgd(ino)].inodeTable + InodeToLocal(ino) / INODES_PER_TABLE;
      n := GetInode(image.blocks[tableBlock], InodeToLocal(ino) % INODES_PER_TABLE);
    }

    /** `is_directory_empty`; `stack` is the word past the end of the buffer, read when ".." fills its block. */
    method IsDirectoryEmpty(ino: nat, stack: u32) returns (empty: bool)
      requires ValidInode(ino) && Geometry(V().bgdt) && NodeOK(V().disk, Node(V().disk, ino))
      ensures empty == DirEmpty(V(), ino, stack)
    {
      hide Geometry, IsDirMode, TreePtrsOK, Chain, RecLen, EntInode, Node;
      var node := LoadNode(ino);
      if !IsDirMode(node.mode) { return false; }
      var dirBuf := image.blocks[node.block[0]];
      ChainStep(dirBuf, 0);
      var offset := RecLen(dirBuf, 0);
      if offset >= BLOCK_SIZE { return false; }
      ChainStep(dirBuf, offset);
      offset := offset + RecLen(dirBuf, offset);
      if offset < BLOCK_SIZE { ChainStep(dirBuf, offset); }
      empty := (if offset < BLOCK_SIZE then EntInode(dirBuf, offset) else stack) == 0;
    }

    /** `read` of a regular file. */
    method Read(q: Request, buf: array<byte>) returns (code: int)
      requires ValidRequest(q) && Geometry(V().bgdt) && ParentOK(V(), q) && TargetOK(V(), q)
      modifies buf
      ensures code == ReadOp(V(), q, buf.Length).code
      ensures BufferFilled(buf[..], old(buf[..]), ReadOp(V(), q, buf.Length).bytes)
    {
      hide Geometry, IsDirMode, TreePtrsOK, Chain, FindEntry, BufferFilled, Node, ReadNode, Sound, EntInode, FileType,
        DirOK, DirBlockOK, RecLen, NameLen;
      EmptyFilled(buf[..]);
      if q.parent == 0 { return -1; }
      var parent := LoadNode(q.parent);
      if !IsDirMode(parent.mode) { return -1; }
      var r, prev := Find(parent, q.name);
      match r
      case Nowhere => return 2;
      case Place(bi, at) =>
        TargetFound(V(), q);
        BlockNumber(V().disk, parent.block[bi]);
        var dirBuf := image.blocks[parent.block[bi]];
        HeaderFits(dirBuf, at);
        if FileType(dirBuf, at) != EXT2_FT_REG_FILE { return 1; }
        var fileNode := LoadNode(EntInode(dirBuf, at));
        if buf.Length < fileNode.size { return -1; }
        ReadInode(fileNode, buf);
        return 0;
    }

    /**
     * `read_directory`: the first block of the directory found, and what lies past the block buffer if it is larger.
     */
    method ReadDirectory(q: Request, buf: array<byte>, spill: seq<byte>) returns (code: int)
      requires ValidRequest(q) && Geometry(V().bgdt) && ParentOK(V(), q) && TargetOK(V(), q) && |spill| == buf.Length
      modifies buf
      ensures code == ReadDirectoryOp(V(), q, buf.Length, spill).code
      ensures BufferFilled(buf[..], old(buf[..]), ReadDirectoryOp(V(), q, buf.Length, spill).bytes)
    {
      hide Geometry, IsDirMode, TreePtrsOK, Chain, FindEntry, BufferFilled, Node, Sound, EntInode, FileType, DirOK,
        DirBlockOK, RecLen, NameLen;
      EmptyFilled(buf[..]);
      if q.parent == 0 { return -1; }
      var parent := LoadNode(q.parent);
      if !IsDirMode(parent.mode) { return -1; }
      var r, prev := Find(parent, q.name);
      match r
      case Nowhere => return 2;
      case Place(bi, at) =>
        TargetFound(V(), q);
        BlockNumber(V().disk, parent.block[bi]);
        var dirBuf := image.blocks[parent.block[bi]];
        HeaderFits(dirBuf, at);
        if FileType(dirBuf, at) != EXT2_FT_DIR { return 1; }
        var node := LoadNode(EntInode(dirBuf, at));
        if node.blocks == 0 { return -1; }
        TreeBlocksInRange(V().disk, node);
        var dirBlock := node.block[0];
        if dirBlock == 0 { return -1; }
        if buf.Length < node.size { return -1; }
        var dataBuf := image.blocks[dirBlock] + spill;
        ghost var was := buf[..];
        forall i | 0 <= i < node.size { buf[i] := dataBuf[i]; }
        CopiedFills(was, buf[..], dataBuf[..node.size]);
        return 0;
    }

    /** The new inode's contents: a directory table, or the file's blocks. */
    method CreateInode(ino: nat, q: Request)
      requires ValidInode(ino) && ValidRequest(q) && Fit(V())
      modifies this
      ensures V() == Populate(old(V()), ino, q) && Fit(V())
    {
      hide Fit, Node, InitDir, AllocBlocks, BlocksFor, Sync, SyncNode;
      FitParts(V());
      CountedGeometry(V());
      var slot := LoadNode(ino);
      var bgd := InodeToBgd(ino);
      MetadataInRange(ino);
      var node;
      if MakesDir(q) {
        MakeDirIs(V(), ino, q.parent);
        node := InitDirectoryTable(slot, ino, q.parent);
        UsedDirsFits(V(), bgd, Inc16(V().bgdt[bgd].usedDirs));
        var desc := bgdtCache.table[bgd];
        bgdtCache := DescTable(bgdtCache.table[bgd := desc.(usedDirs := Inc16(desc.usedDirs))]);
      } else {
        node := Inode(EXT2_S_IFREG, |q.data|, BlocksFor(|q.data|), slot.block);
        node := AllocateNodeBlocks(node, bgd, q.data);
      }
      WriteNode(node, ino);
    }

    /** `write`. */
    method Write(q: Request) returns (code: int)
      requires ValidRequest(q) && Fit(V()) && ParentOK(V(), q)
      modifies this
      ensures Outcome(code, V()) == WriteOp(old(V()), q)
    {
      hide Fit, Node, IsDirMode, Chain, FindRoom, RecordLen, SlackLen, Sound, Populate, AllocNode, Sync, FirstFreeInode,
        FirstFree, Take, DirOK, PutInode, GetInode, Insert, NewEntryBlock, GrownDir, InodeToBgd, InodeToLocal,
        TableBlock, DirBlockOK, Scanned;
      if q.parent == 0 { return 2; }
      ghost var v := V();
      FitParts(v);
      CountedGeometry(v);
      var parent := LoadNode(q.parent);
      if !IsDirMode(parent.mode) { return 2; }
      var blockIdx := TableBlock(q.parent);
      InTable(q.parent);
      var buf := image.blocks[blockIdx];
      FindRoomSound(v.disk, parent, 0, q.name);
      var room := FindSpace(parent, q.name);
      match room
      case Exists => return 1;
      case InHole(bi, at) =>
        DirBounds(v.disk, parent);
        BlockNumber(v.disk, parent.block[bi]);
        var dbuf := image.blocks[parent.block[bi]];
        var newIno := AllocateNode();
        if newIno == 0 { return -1; }
        CreateInode(newIno, q);
        image := Image(image.blocks[parent.block[bi] := Insert(dbuf, at, newIno, TypeOf(q), q.name)]);
        SyncMetadata();
        return 0;
      case Full =>
        DirBounds(v.disk, parent);
        var newBlock := TakeGrowthBlock(InodeToBgd(q.parent));
        ScanIsFirstFree(v, V(), InodeToBgd(q.parent), newBlock != 0, newBlock);
        if newBlock == 0 { return -1; }
        TakeKeepsInodes(v, newBlock);
        var newIno := AllocateNode();
        if newIno == 0 { return -1; }
        CreateInode(newIno, q);
        image := Image(image.blocks[newBlock := NewEntryBlock(newIno, TypeOf(q), q.name)]);
        image := Image(image.blocks[blockIdx := PutInode(buf, TableSlot(q.parent), GrownDir(parent, newBlock))]);
        SyncMetadata();
        return 0;
    }

    /** `delete`. */
    method Delete(q: Request, stack: u32) returns (code: int)
      requires ValidRequest(q) && Geometry(V().bgdt) && ParentOK(V(), q) && TargetOK(V(), q)
      modifies this
      ensures Outcome(code, V()) == DeleteOp(old(V()), q, stack)
    {
      hide Geometry, IsDirMode, TreePtrsOK, Chain, FindEntry, Node, Sound, EntInode, FileType, DirOK, DirBlockOK, Sync,
        DeallocNode, Remove, Previous, DirEmpty, RecLen, NameLen;
      ghost var v := V();
      if q.parent == 0 { return -1; }
      var parent := LoadNode(q.parent);
      if !IsDirMode(parent.mode) { return -1; }
      var r, prev := Find(parent, q.name);
      match r
      case Nowhere => return 1;
      case Place(bi, at) =>
        TargetFound(v, q);
        var entryBlock := parent.block[bi];
        BlockNumber(v.disk, entryBlock);
        var targetBuf := image.blocks[entryBlock];
        HeaderFits(targetBuf, at);
        var targetInode := EntInode(targetBuf, at);
        if q.isDir {
          if FileType(targetBuf, at) != EXT2_FT_DIR { return 1; }
          var empty := IsDirectoryEmpty(targetInode, stack);
          if !empty { return 2; }
        } else {
          if FileType(targetBuf, at) != EXT2_FT_REG_FILE { return 1; }
        }
        NodeParts(v.disk, Node(v.disk, targetInode));
        DeallocateNode(targetInode);
        image := Image(image.blocks[entryBlock := Remove(targetBuf, at, prev)]);
        SyncMetadata();
        return 0;
    }

    // ----- formatting and mounting -----

    /** Writes one block anywhere on the device. */
    method WriteRaw(m: nat, b: Block)
      requires m < 8192
      modifies this`image
      ensures image.blocks == old(image.blocks)[m := b]
    {
      image := Image(image.blocks[m := b]);
    }

    /**
     * `init_directory_table` as `create_ext2` calls it, before anything is mounted: no bitmap to scan, nothing to sync.
     */
    method InitRootTable() returns (node: Inode)
      requires bgdtCache.table[0].blockBitmap == 0
      modifies this`image
      ensures image.blocks == old(image.blocks)[21 := NewDirBlock(1, 1)] && node == DirNode(ZeroInode(), 21)
    {
      var dirBlock := FallbackBlock(InodeToBgd(1));
      node := DirNode(ZeroInode(), dirBlock);
      WriteRaw(dirBlock, NewDirBlock(1, 1));
    }

    /** A bitmap buffer with its first `n` bits set. */
    method BitmapWith(n: nat) returns (b: Block)
      requires n <= 4096
      ensures b == FirstBits(n)
    {
      hide WithBit, ZeroBlock;
      b := ZeroBlock();
      var i := 0;
      NoFirstBits();
      while i < n
        invariant i <= n && b == FirstBits(i)
      {
        b := WithBit(b, i);
        i := i + 1;
      }
    }

    /** `create_ext2`. */
    method CreateExt2(signature: Block)
      requires bgdtCache.table[0].blockBitmap == 0
      modifies this`image
      ensures image.blocks == Format.CreateExt2(old(image.blocks), signature)
    {
      hide ZeroBlock, FirstBits, NewDirBlock, PutInode, EncSuperblock, EncTable, FreshSuperblock, FreshTable, Splice,
        ZeroBlocks, FormatGroups, DirNode;
      WriteRaw(0, signature);
      WriteRaw(1, Splice(ZeroBlock(), 0, EncSuperblock(FreshSuperblock())));
      WriteRaw(2, Splice(ZeroBlock(), 0, EncTable(FreshTable())));
      var root := InitRootTable();
      WriteRaw(5, PutInode(ZeroBlock(), 0, root));
      ghost var d := image.blocks;
      var blk := 6;
      while blk < 21
        invariant 6 <= blk <= 21 && ZeroBlocks(image.blocks, blk) == ZeroBlocks(d, 6)
      {
        ZeroBlocksStep(image.blocks, blk);
        WriteRaw(blk, ZeroBlock());
        blk := blk + 1;
      }
      ZeroBlocksStep(image.blocks, blk);
      var bitmap := BitmapWith(22);
      WriteRaw(3, bitmap);
      var rootBit := BitmapWith(1);
      WriteRaw(4, rootBit);
      ghost var f := image.blocks;
      assert f == FormatFirstGroup(old(image.blocks), signature);
      var i := 1;
      while i < GROUPS_COUNT
        invariant 1 <= i <= 8 && FormatGroups(image.blocks, i) == FormatGroups(f, 1)
      {
        FormatGroupsStep(image.blocks, i);
        var used := BitmapWith(18);
        WriteRaw(256 * i, used);
        WriteRaw(256 * i + 1, ZeroBlock());
        i := i + 1;
      }
      FormatGroupsStep(image.blocks, i);
    }

    /** `initialize_filesystem_ext2`: format a device that does not carry the signature, then load both caches. */
    method Initialize(signature: Block)
      requires EmptyStorage(image.blocks, signature) ==> bgdtCache.table[0].blockBitmap == 0
      modifies this
      ensures V() == Initialise(old(image.blocks), signature)
    {
      hide Format.CreateExt2, DecSuperblock, DecTable;
      if U16At(image.blocks[0], 0) != U16At(signature, 0) { CreateExt2(signature); }
      superBlock := DecSuperblock(image.blocks[1]);
      bgdtCache := DescTable(DecTable(image.blocks[2]));
    }
  }

  lemma NoFirstBits()
    ensures FirstBits(0) == ZeroBlock()
  {}

  lemma ZeroBlocksStep(d: Disk, m: nat)
    ensures ZeroBlocks(d, m) == if m >= 21 then d else ZeroBlocks(d[m := ZeroBlock()], m + 1)
  {}

  lemma FormatGroupsStep(d: Disk, g: nat)
    ensures FormatGroups(d, g) ==
      if g >= 8 then d else FormatGroups(d[256 * g := FirstBits(18)][256 * g + 1 := ZeroBlock()], g + 1)
  {}

  lemma FitParts(v: Volume)
    requires Fit(v)
    ensures Counted(v) && MetaUsed(v.disk)
  {}

  lemma SyncNodeFits(v: Volume, ino: nat, n: Inode)
    requires Fit(v) && ValidInode(ino)
    ensures Fit(SyncNode(v, ino, n))
  {
    hide Counted, MetaUsed, SyncNode, Node, SameInodeBitmaps, SameBlockBitmaps, Untouched, OneSlot, SameData;
    SyncNodeSpec(v, ino, n);
    BlockBitsSame(v.disk, SyncNode(v, ino, n).disk);
  }

  lemma DataAreaBegins(n: nat)
    requires !Meta(n)
    ensures n >= 21
  {}

  lemma TakeIs(v: Volume, g: nat, idx: nat)
    requires g < 8 && idx < 256
    ensures Take(v, 256 * g + idx) ==
      Volume(v.disk[BlockBitmap(g) := WithBit(v.disk[BlockBitmap(g)], idx)],
        v.sb.(freeBlocks := Dec32(v.sb.freeBlocks)),
             v.bgdt[g := v.bgdt[g].(freeBlocks := Dec16(v.bgdt[g].freeBlocks))])
  {
    assert (256 * g + idx) / 256 == g && (256 * g + idx) % 256 == idx;
  }
}
