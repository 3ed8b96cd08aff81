/** `create_ext2` and mounting: the first sound volume, and every volume reached from it. */
module Format {
  import opened Bytes
  import opened Layout
  import opened Metadata
  import opened Volume
  import opened Directory
  import opened Operations
  import opened Invariant
  import opened Creation

  // ----- the operation -----

  /** A bitmap whose first `n` bits are set. */
  function FirstBits(n: nat): Block
    requires n <= 4096
  {
    if n == 0 then ZeroBlock() else WithBit(FirstBits(n - 1), n - 1)
  }

  function FreshSuperblock(): Superblock {
    Superblock(896, 8192, 0, 8192 - 148, 896 - 1, 1, 1, 256, 256, 112, 0xEF53, 0, 0)
  }

  function FreshDesc(g: nat): GroupDesc
    requires g < 8
  {
    if g == 0 then GroupDesc(3, 4, 5, 256 - 22, 112 - 1, 1, 0, 0, 0, 0)
    else GroupDesc(256 * g, 256 * g + 1, 256 * g + 2, 256 - 18, 112, 0, 0, 0, 0, 0)
  }

  function FreshTable(): Bgdt {
    [FreshDesc(0), FreshDesc(1), FreshDesc(2), FreshDesc(3), FreshDesc(4), FreshDesc(5), FreshDesc(6), FreshDesc(7)]
  }

  /** The blocks of group 0, in the order written: the boot block, both caches, the root directory and the bitmaps. */
  function FormatFirstGroup(d: Disk, signature: Block): Disk {
    ZeroBlocks(
      d[0 := signature]
       [1 := Splice(ZeroBlock(), 0, EncSuperblock(FreshSuperblock()))]
       [2 := Splice(ZeroBlock(), 0, EncTable(FreshTable()))]
       [21 := NewDirBlock(1, 1)]
       [5 := PutInode(ZeroBlock(), 0, DirNode(ZeroInode(), 21))], 6)
      [3 := FirstBits(22)]
      [4 := FirstBits(1)]
  }

  /** The rest of group 0's inode table. */
  function ZeroBlocks(d: Disk, m: nat): Disk
    decreases 21 - m
  {
    if m >= 21 then d else ZeroBlocks(d[m := ZeroBlock()], m + 1)
  }

  /** The bitmaps of groups `g`.. */
  function FormatGroups(d: Disk, g: nat): Disk
    decreases 8 - g
  {
    if g >= 8 then d else FormatGroups(d[256 * g := FirstBits(18)][256 * g + 1 := ZeroBlock()], g + 1)
  }

  function CreateExt2(d: Disk, signature: Block): Disk {
    FormatGroups(FormatFirstGroup(d, signature), 1)
  }

  /** Mounting reads both caches from the disk. */
  function Mount(d: Disk): Volume {
    Volume(d, DecSuperblock(d[1]), DecTable(d[2]))
  }

  /** The boot block does not carry the first two bytes of the signature. */
  predicate EmptyStorage(d: Disk, signature: Block) { U16At(d[0], 0) != U16At(signature, 0) }

  /** `initialize_filesystem_ext2`: format what does not carry the signature, then mount. */
  function Initialise(d: Disk, signature: Block): Volume {
    Mount(if EmptyStorage(d, signature) then CreateExt2(d, signature) else d)
  }

  // ----- what lies where -----

  lemma {:induction false} FirstBitsSpec(n: nat, i: nat)
    requires n <= 4096 && i < 4096
    ensures Bit(FirstBits(n), i) <==> i < n
  {
    if n == 0 { ZeroBits(i % 8); } else { FirstBitsSpec(n - 1, i); }
  }

  lemma {:induction false} FirstBitsCount(n: nat, k: nat)
    requires n <= 4096 && k <= 4096
    ensures ClearCount(FirstBits(n), k) == if k <= n then 0 else k - n
  {
    if k > 0 {
      FirstBitsSpec(n, k - 1);
      FirstBitsCount(n, k - 1);
    }
  }

  lemma {:induction false} ZeroBlocksAt(d: Disk, m: nat, i: nat)
    requires i < 8192
    ensures ZeroBlocks(d, m)[i] == if m <= i < 21 then ZeroBlock() else d[i]
    decreases 21 - m
  {
    hide ZeroBlock;
    if m < 21 { ZeroBlocksAt(d[m := ZeroBlock()], m + 1, i); }
  }

  lemma {:induction false} FormatGroupsAt(d: Disk, g: nat, i: nat)
    requires i < 8192 && 1 <= g <= 8
    ensures FormatGroups(d, g)[i] ==
      if 256 * g <= i < 2048 && i % 256 == 0 then FirstBits(18)
      else if 256 * g <= i < 2048 && i % 256 == 1 then ZeroBlock() else d[i]
    decreases 8 - g
  {
    hide ZeroBlock, FirstBits;
    if g < 8 { FormatGroupsAt(d[256 * g := FirstBits(18)][256 * g + 1 := ZeroBlock()], g + 1, i); }
  }

  lemma FormattedAt(d: Disk, signature: Block, i: nat)
    requires i < 8192
    ensures var f := CreateExt2(d, signature);
      f[i] == if i == 0 then signature
              else if i == 1 then Splice(ZeroBlock(), 0, EncSuperblock(FreshSuperblock()))
              else if i == 2 then Splice(ZeroBlock(), 0, EncTable(FreshTable()))
              else if i == 3 then FirstBits(22)
              else if i == 4 then FirstBits(1)
              else if i == 5 then PutInode(ZeroBlock(), 0, DirNode(ZeroInode(), 21))
              else if i < 21 then ZeroBlock()
              else if i == 21 then NewDirBlock(1, 1)
              else if i < 256 then d[i]
              else if i < 2048 && i % 256 == 0 then FirstBits(18)
              else if i < 2048 && i % 256 == 1 then ZeroBlock() else d[i]
  {
    hide ZeroBlock, FirstBits, NewDirBlock, PutInode, EncTable, EncSuperblock, DirNode, FreshTable, FreshSuperblock,
      Splice;
    var d5 := d[0 := signature]
       [1 := Splice(ZeroBlock(), 0, EncSuperblock(FreshSuperblock()))]
       [2 := Splice(ZeroBlock(), 0, EncTable(FreshTable()))]
       [21 := NewDirBlock(1, 1)]
       [5 := PutInode(ZeroBlock(), 0, DirNode(ZeroInode(), 21))];
    FormatGroupsAt(FormatFirstGroup(d, signature), 1, i);
    ZeroBlocksAt(d5, 6, i);
  }

  // ----- the formatted volume is sound -----

  /** The device as the image file starts out: the inode tables of groups 1 to 7 are zero. */
  ghost predicate Blank(d: Disk) {
    forall m: nat :: IsTable(m) && m >= 256 ==> d[m] == ZeroBlock()
  }

  function FreshFS(): FS {
    FS(map[1 := [21]], map[21 := (1, 0)], map[], map[])
  }

  lemma FreshCaches(d: Disk, signature: Block)
    ensures var v := Mount(CreateExt2(d, signature)); v.sb == FreshSuperblock() && v.bgdt == FreshTable()
    ensures Synced(CreateExt2(d, signature), FreshSuperblock(), FreshTable())
  {
    hide ZeroBlock, EncTable, EncSuperblock, FreshTable, FreshSuperblock, CreateExt2;
    var f := CreateExt2(d, signature);
    FormattedAt(d, signature, 1);
    FormattedAt(d, signature, 2);
    assert f[1][..44] == f[1][0..44] && f[2][..256] == f[2][0..256];
    RemountIsInvisible(f, FreshSuperblock(), FreshTable());
  }

  lemma FreshSums()
    ensures SumFreeBlocks(FreshTable()) == 1900 && SumFreeInodes(FreshTable()) == 895
  {
    var t := FreshTable();
    assert t[..8] == t;
    SumStep(t, 7); SumStep(t, 6); SumStep(t, 5); SumStep(t, 4); SumStep(t, 3); SumStep(t, 2); SumStep(t, 1);
    SumStep(t, 0);
    assert t[..0] == [];
  }

  lemma SumStep(t: seq<GroupDesc>, k: nat)
    requires k < |t|
    ensures SumFreeBlocks(t[..k + 1]) == SumFreeBlocks(t[..k]) + t[k].freeBlocks
    ensures SumFreeInodes(t[..k + 1]) == SumFreeInodes(t[..k]) + t[k].freeInodes
  {
    assert t[..k + 1][..k] == t[..k];
  }

  lemma FreshGroup(d: Disk, signature: Block, g: nat)
    requires g < 8
    ensures var f := CreateExt2(d, signature);
      && f[BlockBitmap(g)] == FirstBits(if g == 0 then 22 else 18)
      && f[InodeBitmap(g)] == FirstBits(if g == 0 then 1 else 0)
      && FreshDesc(g).freeBlocks == ClearCount(f[BlockBitmap(g)], 256)
      && FreshDesc(g).freeInodes == ClearCount(f[InodeBitmap(g)], 112)
  {
    hide CreateExt2, ClearCount, FirstBits, ZeroBlock, NewDirBlock, PutInode, EncTable, EncSuperblock, DirNode,
      FreshTable, FreshSuperblock, Splice;
    FormattedAt(d, signature, BlockBitmap(g));
    FormattedAt(d, signature, InodeBitmap(g));
    NoBits();
    FirstBitsCount(if g == 0 then 22 else 18, 256);
    FirstBitsCount(if g == 0 then 1 else 0, 112);
  }

  lemma NoBits()
    ensures FirstBits(0) == ZeroBlock()
  {}

  lemma FreshCounted(d: Disk, signature: Block)
    ensures Counted(Volume(CreateExt2(d, signature), FreshSuperblock(), FreshTable()))
  {
    hide CreateExt2, ClearCount, FirstBits, SumFreeBlocks, SumFreeInodes;
    FreshSums();
    forall g | 0 <= g < 8
      ensures FreshTable()[g] == FreshDesc(g)
      ensures FreshTable()[g].freeBlocks == ClearCount(CreateExt2(d, signature)[BlockBitmap(g)], 256)
      ensures FreshTable()[g].freeInodes == ClearCount(CreateExt2(d, signature)[InodeBitmap(g)], 112)
    {
      FreshGroup(d, signature, g);
    }
  }

  lemma FreshUsed(d: Disk, signature: Block, m: nat)
    requires m < 2048
    ensures Used(CreateExt2(d, signature), m) <==> Meta(m) || m == 21
  {
    hide CreateExt2, ClearCount, FirstBits;
    FreshGroup(d, signature, m / 256);
    FirstBitsSpec(if m / 256 == 0 then 22 else 18, m % 256);
  }

  lemma FreshInodeUsed(d: Disk, signature: Block, k: nat)
    requires ValidInode(k)
    ensures InodeUsed(CreateExt2(d, signature), k) <==> k == 1
  {
    hide CreateExt2, ClearCount, FirstBits;
    MetadataInRange(k);
    FreshGroup(d, signature, InodeToBgd(k));
    FirstBitsSpec(if InodeToBgd(k) == 0 then 1 else 0, InodeToLocal(k));
  }

  lemma ZeroSlot(s: nat)
    requires s < 7
    ensures GetInode(ZeroBlock(), s) == ZeroInode()
  {
    hide U16At, U32At;
    forall o | 0 <= o <= 508 ensures U16At(ZeroBlock(), o) == 0 && U32At(ZeroBlock(), o) == 0 { ZeroWord(o); }
    assert GetInode(ZeroBlock(), s).block == ZeroInode().block;
  }

  lemma ZeroWord(o: nat)
    requires o <= 508
    ensures U16At(ZeroBlock(), o) == 0 && U32At(ZeroBlock(), o) == 0
  {}

  lemma FreshNode(d: Disk, signature: Block, k: nat)
    requires ValidInode(k) && Blank(d)
    ensures Node(CreateExt2(d, signature), k) == if k == 1 then DirNode(ZeroInode(), 21) else ZeroInode()
  {
    hide CreateExt2, GetInode, PutInode, ZeroBlock, DirNode;
    TableApart(k);
    MetadataInRange(k);
    FormattedAt(d, signature, TableBlock(k));
    ZeroSlot(TableSlot(k));
    if TableBlock(k) == 5 {
      assert TableBlock(1) == 5 && TableSlot(1) == 0;
      if TableSlot(k) == 0 {
        SlotsDistinct(k, 1);
        GetPut(ZeroBlock(), 0, DirNode(ZeroInode(), 21));
      } else {
        GetPutOther(ZeroBlock(), 0, DirNode(ZeroInode(), 21), TableSlot(k));
      }
    }
  }

  /** Formatting a blank image and mounting it gives a sound volume with an empty root directory. */
  lemma FormatIsSound(d: Disk, signature: Block)
    requires Blank(d)
    ensures Inv(Mount(CreateExt2(d, signature)), FreshFS())
  {
    hide CreateExt2, Counted, Used, InodeUsed, Node, NewDirBlock, DirNode, DirectoryOK, Chain, Entries, FreshTable,
         FreshSuperblock, Synced, Meta;
    var f, fs := CreateExt2(d, signature), FreshFS();
    FreshCaches(d, signature);
    FreshCounted(d, signature);
    forall m | 0 <= m < 2048 ensures Used(f, m) <==> Meta(m) || m == 21 { FreshUsed(d, signature, m); }
    forall k | ValidInode(k)
      ensures InodeUsed(f, k) <==> k == 1
      ensures Node(f, k) == if k == 1 then DirNode(ZeroInode(), 21) else ZeroInode()
    {
      FreshInodeUsed(d, signature, k);
      FreshNode(d, signature, k);
    }
    FormattedAt(d, signature, 21);
    assert !Meta(21) by { RootBlock(); }
    NewDirectory(f, Node(f, 1), 21, 1, 1);
    assert fs.tree[1] == [21];
    assert ContentOK(f, fs, 1);
    assert DirNamesOK(f, fs, {}, 1);
  }

  lemma RootBlock()
    ensures !Meta(21)
  {}
}
