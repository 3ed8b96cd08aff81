/** `write`, `read` and `delete` as functions of the driver's state, step by step as the driver performs them. */
module Operations {
  import opened Bytes
  import opened Layout
  import opened Metadata
  import opened Volume
  import opened FileTree
  import opened Allocation
  import opened Reading
  import opened Reclaim
  import opened Directory

  // ----- shared steps -----

  predicate IsDirMode(mode: u16) { TestBit(mode, 14) }   // mode & EXT2_S_IFDIR

  lemma Modes()
    ensures IsDirMode(EXT2_S_IFDIR) && !IsDirMode(EXT2_S_IFREG) && !IsDirMode(0)
  {
    ZeroBits(14);
    Pow2Bit(14, 14);
    Pow2Bit(15, 14);
    assert Pow2(4) == 16;
    assert Pow2(8) == 256;
    assert Pow2(12) == 4096;
    assert Pow2(14) == 0x4000 && Pow2(15) == 0x8000;
  }

  /** `sync_metadata`: both caches to their blocks; the rest of those blocks is left as it was. */
  function Sync(v: Volume): Volume {
    v.(disk := v.disk[1 := Splice(v.disk[1], 0, EncSuperblock(v.sb))]
                     [2 := Splice(v.disk[2], 0, EncTable(v.bgdt))])
  }

  function SyncNode(v: Volume, ino: nat, n: Inode): Volume
    requires ValidInode(ino)
  {
    v.(disk := PutNode(v.disk, ino, n))
  }

  function WithUsedDirs(v: Volume, g: nat, n: u16): Volume
    requires g < 8
  {
    v.(bgdt := v.bgdt[g := v.bgdt[g].(usedDirs := n)])
  }

  /** `allocate_node` once inode `ino` has been found free. */
  function AllocNode(v: Volume, ino: nat): Volume
    requires ValidInode(ino)
  {
    Sync(TakeInode(v, ino))
  }

  /** The block `init_directory_table` uses when no block is free: the first data block of the group. */
  function FallbackBlock(g: nat): nat {
    if g == 0 then 21 else 256 * g + 18
  }

  /** `init_directory_table` together with the count of directories and `sync_node`, as `write` performs them. */
  function MakeDir(v: Volume, ino: nat, parent: nat): Volume
    requires ValidInode(ino) && parent < 0x1_0000_0000
  {
    var g := InodeToBgd(ino);
    var b := FirstFree(v.disk, 256 * g);
    var m := if b != 0 then b else FallbackBlock(g);
    var v1 := if b != 0 then Take(v, b) else v;
    var node := DirNode(Node(v.disk, ino), m);
    var v2 := Sync(PutBlock(v1, m, NewDirBlock(ino, parent)));
    SyncNode(WithUsedDirs(v2, g, Inc16(v2.bgdt[g].usedDirs)), ino, node)
  }

  function DirNode(slot: Inode, m: u32): Inode {
    Inode(EXT2_S_IFDIR, 512, 1, slot.block[0 := m])
  }

  /** The file branch: header, blocks, synchronisation, `sync_node`. */
  function MakeFile(v: Volume, ino: nat, data: seq<byte>): Volume
    requires ValidInode(ino) && |data| < 0x1_0000_0000
  {
    var node := Inode(EXT2_S_IFREG, |data|, BlocksFor(|data|), Node(v.disk, ino).block);
    var s := AllocBlocks(v, node, InodeToBgd(ino), data);
    SyncNode(Sync(s.v), ino, s.node)
  }

  datatype Request = Request(parent: u32, name: Name, isDir: bool, data: seq<byte>)

  predicate ValidRequest(q: Request) {
    q.parent <= 896 && |q.data| < 0x1_0000_0000
  }

  /** `is_dir` in `write`: an empty buffer and the directory flag. */
  predicate MakesDir(q: Request) { q.data == [] && q.isDir }

  function TypeOf(q: Request): byte { if MakesDir(q) then EXT2_FT_DIR else EXT2_FT_REG_FILE }

  function Populate(v: Volume, ino: nat, q: Request): Volume
    requires ValidInode(ino) && ValidRequest(q)
  {
    if MakesDir(q) then MakeDir(v, ino, q.parent) else MakeFile(v, ino, q.data)
  }

  // ----- directories -----

  /** What the directory loops of the driver need of an inode. */
  predicate DirOK(d: Disk, n: Inode) {
    n.blocks <= 12 && forall i :: 0 <= i < n.blocks ==> DirBlockOK(d, n.block[i])
  }

  predicate DirBlockOK(d: Disk, p: nat) {
    0 < p < 2048 && Chain(d[p], 0)
  }

  datatype Place = Place(bi: nat, at: nat) | Nowhere

  /** The block scan of `read` and `delete`: the first live entry called `name`. */
  function FindEntry(d: Disk, n: Inode, bi: nat, name: Name): (r: Place)
    requires DirOK(d, n)
    ensures r.Place? ==> bi <= r.bi < n.blocks
    decreases 15 - bi
  {
    if bi >= n.blocks then Nowhere
    else
      var o := FindName(d[n.block[bi]], 0, name);
      if o != 512 then Place(bi, o) else FindEntry(d, n, bi + 1, name)
  }

  datatype Room = Exists | InHole(bi: nat, at: nat) | Full

  function FindRoom(d: Disk, n: Inode, bi: nat, name: Name): (r: Room)
    requires DirOK(d, n)
    ensures r.InHole? ==> bi <= r.bi < n.blocks
    decreases 15 - bi
  {
    if bi >= n.blocks then Full
    else match ScanForHole(d[n.block[bi]], 0, name, RecordLen(|name|))
      case Duplicate => Exists
      case Hole(at) => InHole(bi, at)
      case NoRoom => FindRoom(d, n, bi + 1, name)
  }

  lemma {:induction false} FindRoomSound(d: Disk, n: Inode, bi: nat, name: Name)
    requires DirOK(d, n)
    ensures var r := FindRoom(d, n, bi, name);
      r.InHole? ==> DirBlockOK(d, n.block[r.bi]) && var b := d[n.block[r.bi]];
        Reaches(b, 0, r.at) && Live(b, r.at) && RecordLen(|name|) <= SlackLen(b, r.at)
    decreases 15 - bi
  {
    hide Chain, Reaches, Live, RecordLen, ScanForHole, SlackLen;
    if bi < n.blocks {
      assert DirBlockOK(d, n.block[bi]);
      HoleSound(d[n.block[bi]], name);
      FindRoomSound(d, n, bi + 1, name);
    }
  }

  lemma HoleSound(b: Block, name: Name)
    requires Chain(b, 0)
    ensures var s := ScanForHole(b, 0, name, RecordLen(|name|));
      s.Hole? ==> Reaches(b, 0, s.at) && Live(b, s.at) && RecordLen(|name|) <= SlackLen(b, s.at)
  {
    hide ScanForHole;
    ScanForHoleSpec(b, 0, name, RecordLen(|name|));
  }

  // ----- write -----

  datatype Outcome = Outcome(code: int, v: Volume)

  /** Hole found: new inode, its contents, then the entry. */
  function WriteInHole(v: Volume, q: Request, blk: nat, at: nat): Outcome
    requires ValidRequest(q) && DirBlockOK(v.disk, blk)
    requires Sound(v.disk[blk], at) && RecordLen(|q.name|) <= SlackLen(v.disk[blk], at)
  {
    var ino := FirstFreeInode(v.disk, 1);
    if ino == 0 then Outcome(-1, v)
    else
      var v2 := Populate(AllocNode(v, ino), ino, q);
      Outcome(0, Sync(PutBlock(v2, blk, Insert(v.disk[blk], at, ino, TypeOf(q), q.name))))
  }

  function GrownDir(n: Inode, b: u32): Inode
    requires n.blocks < 15
  {
    Inode(n.mode, (n.size + 512) % 0x1_0000_0000, n.blocks + 1, n.block[n.blocks := b])
  }

  /** No room: a new directory block, a new inode, its contents, then the block and the parent's stale table block. */
  function WriteGrowing(v: Volume, q: Request, n: Inode): Outcome
    requires ValidRequest(q) && ValidInode(q.parent) && n.blocks < 15
  {
    var b := FirstFree(v.disk, 256 * InodeToBgd(q.parent));
    if b == 0 then Outcome(-1, v)
    else
      var ino := FirstFreeInode(v.disk, 1);
      if ino == 0 then Outcome(-1, Take(v, b))
      else
        var v2 := Populate(AllocNode(Take(v, b), ino), ino, q);
        var v3 := PutBlock(v2, b, NewEntryBlock(ino, TypeOf(q), q.name));
        var stale := PutInode(v.disk[TableBlock(q.parent)], TableSlot(q.parent), GrownDir(n, b));
        Outcome(0, Sync(PutBlock(v3, TableBlock(q.parent), stale)))
  }

  function ParentNode(v: Volume, q: Request): Inode
    requires ValidRequest(q) && q.parent != 0
  {
    Node(v.disk, q.parent)
  }

  /** The directories the request walks are sound, when it names one at all. */
  predicate ParentOK(v: Volume, q: Request)
    requires ValidRequest(q)
  {
    q.parent != 0 && IsDirMode(ParentNode(v, q).mode) ==> DirOK(v.disk, ParentNode(v, q))
  }

  /** The code `write` returns: what stops it, in the order it looks. */
  function WriteCode(v: Volume, q: Request): int
    requires ValidRequest(q) && ParentOK(v, q)
  {
    if q.parent == 0 || !IsDirMode(ParentNode(v, q).mode) then 2
    else match FindRoom(v.disk, ParentNode(v, q), 0, q.name)
      case Exists => 1
      case InHole(_, _) => if FirstFreeInode(v.disk, 1) == 0 then -1 else 0
      case Full =>
        if FirstFree(v.disk, 256 * InodeToBgd(q.parent)) == 0 || FirstFreeInode(v.disk, 1) == 0 then -1 else 0
  }

  function WriteOp(v: Volume, q: Request): (r: Outcome)
    requires ValidRequest(q) && ParentOK(v, q)
    ensures r.code == WriteCode(v, q)
  {
    if q.parent == 0 || !IsDirMode(ParentNode(v, q).mode) then Outcome(2, v)
    else
      var n := ParentNode(v, q);
      FindRoomSound(v.disk, n, 0, q.name);
      match FindRoom(v.disk, n, 0, q.name)
      case Exists => Outcome(1, v)
      case InHole(bi, at) => WriteInHole(v, q, n.block[bi], at)
      case Full => WriteGrowing(v, q, n)
  }

  // ----- delete -----

  /** `deallocate_node`. */
  function DeallocNode(v: Volume, ino: nat): Volume
    requires ValidInode(ino)
  {
    var node := Node(v.disk, ino);
    var g := InodeToBgd(ino);
    var v1 := if IsDirMode(node.mode) && v.bgdt[g].usedDirs > 0
              then WithUsedDirs(v, g, v.bgdt[g].usedDirs - 1) else v;
    Sync(ReleaseInode(SyncNode(FreeTree(v1, node), ino, ZeroInode()), ino))
  }

  /** `is_directory_empty`; `stack` is the word found past the end of the block just read. */
  predicate DirEmpty(v: Volume, ino: nat, stack: u32)
    requires ValidInode(ino)
  {
    var n := Node(v.disk, ino);
    IsDirMode(n.mode) && DirBlockOK(v.disk, n.block[0]) && EmptyBlock(v.disk[n.block[0]], stack)
  }

  predicate EmptyBlock(b: Block, stack: u32)
    requires Chain(b, 0)
  {
    var o1 := RecLen(b, 0) as int;
    assert Chain(b, o1);
    o1 < 512 && (
      var o2 := o1 + RecLen(b, o1);
      assert Chain(b, o2);
      (if o2 < 512 then EntInode(b, o2) else stack) == 0)
  }

  /** The code of `delete` once the record is found. */
  function DeleteCodeAt(v: Volume, q: Request, blk: nat, at: nat, stack: u32): int
    requires DirBlockOK(v.disk, blk) && Sound(v.disk[blk], at)
  {
    var b := v.disk[blk];
    var ino := EntInode(b, at);
    if !ValidInode(ino) then 1
    else if FileType(b, at) != (if q.isDir then EXT2_FT_DIR else EXT2_FT_REG_FILE) then 1
    else if q.isDir && !DirEmpty(v, ino, stack) then 2
    else 0
  }

  function DeleteAt(v: Volume, q: Request, blk: nat, at: nat, stack: u32): (r: Outcome)
    requires DirBlockOK(v.disk, blk) && Sound(v.disk[blk], at)
    ensures r.code == DeleteCodeAt(v, q, blk, at, stack)
  {
    var b := v.disk[blk];
    var c := DeleteCodeAt(v, q, blk, at, stack);
    if c != 0 then Outcome(c, v)
    else Outcome(0, Sync(PutBlock(DeallocNode(v, EntInode(b, at)), blk, Remove(b, at, Previous(b, 0, 512, at)))))
  }

  lemma {:induction false} FindEntrySound(d: Disk, n: Inode, bi: nat, name: Name)
    requires DirOK(d, n)
    ensures var r := FindEntry(d, n, bi, name);
      r.Place? ==> DirBlockOK(d, n.block[r.bi]) && FoundRecord(d[n.block[r.bi]], 0, r.at, name)
    decreases 15 - bi
  {
    hide Chain, FoundRecord, FindName;
    if bi < n.blocks {
      assert DirBlockOK(d, n.block[bi]);
      FindNameSpec(d[n.block[bi]], 0, name);
      FindEntrySound(d, n, bi + 1, name);
    }
  }

  /** The code `delete` returns: what stops it, in the order it looks. */
  function DeleteCode(v: Volume, q: Request, stack: u32): int
    requires ValidRequest(q) && ParentOK(v, q)
  {
    if q.parent == 0 || !IsDirMode(ParentNode(v, q).mode) then -1
    else
      var n := ParentNode(v, q);
      FindEntrySound(v.disk, n, 0, q.name);
      match FindEntry(v.disk, n, 0, q.name)
      case Nowhere => 1
      case Place(bi, at) => DeleteCodeAt(v, q, n.block[bi], at, stack)
  }

  function DeleteOp(v: Volume, q: Request, stack: u32): (r: Outcome)
    requires ValidRequest(q) && ParentOK(v, q)
    ensures r.code == DeleteCode(v, q, stack)
  {
    if q.parent == 0 || !IsDirMode(ParentNode(v, q).mode) then Outcome(-1, v)
    else
      var n := ParentNode(v, q);
      FindEntrySound(v.disk, n, 0, q.name);
      match FindEntry(v.disk, n, 0, q.name)
      case Nowhere => Outcome(1, v)
      case Place(bi, at) => DeleteAt(v, q, n.block[bi], at, stack)
  }

  // ----- read -----

  datatype Contents = Contents(code: int, bytes: seq<byte>)

  function ReadOp(v: Volume, q: Request, bufferSize: nat): Contents
    requires ValidRequest(q) && ParentOK(v, q)
  {
    if q.parent == 0 || !IsDirMode(ParentNode(v, q).mode) then Contents(-1, [])
    else
      var n := ParentNode(v, q);
      FindEntrySound(v.disk, n, 0, q.name);
      match FindEntry(v.disk, n, 0, q.name)
      case Nowhere => Contents(2, [])
      case Place(bi, at) => ReadAt(v, v.disk[n.block[bi]], at, bufferSize)
  }

  function ReadAt(v: Volume, b: Block, at: nat, bufferSize: nat): Contents
    requires Sound(b, at)
  {
    if FileType(b, at) != EXT2_FT_REG_FILE then Contents(1, [])
    else if !ValidInode(EntInode(b, at)) then Contents(-1, [])
    else
      var node := Node(v.disk, EntInode(b, at));
      if bufferSize < node.size then Contents(-1, []) else Contents(0, ReadNode(v.disk, node))
  }

  // ----- read_directory -----

  /**
   * `read_directory`; `spill` is what lies past the block buffer, copied along when the directory is larger than a
   * block.
   */
  function ReadDirectoryOp(v: Volume, q: Request, bufferSize: nat, spill: seq<byte>): Contents
    requires ValidRequest(q) && ParentOK(v, q) && |spill| == bufferSize
  {
    if q.parent == 0 || !IsDirMode(ParentNode(v, q).mode) then Contents(-1, [])
    else
      var n := ParentNode(v, q);
      FindEntrySound(v.disk, n, 0, q.name);
      match FindEntry(v.disk, n, 0, q.name)
      case Nowhere => Contents(2, [])
      case Place(bi, at) => ReadDirectoryAt(v, v.disk[n.block[bi]], at, bufferSize, spill)
  }

  function ReadDirectoryAt(v: Volume, b: Block, at: nat, bufferSize: nat, spill: seq<byte>): Contents
    requires Sound(b, at) && |spill| == bufferSize
  {
    if FileType(b, at) != EXT2_FT_DIR then Contents(1, [])
    else if !ValidInode(EntInode(b, at)) then Contents(-1, [])
    else
      var node := Node(v.disk, EntInode(b, at));
      if node.blocks == 0 || node.block[0] == 0 || node.block[0] >= 8192 || bufferSize < node.size then Contents(-1, [])
      else Contents(0, (v.disk[node.block[0]] + spill)[..node.size])
  }
}
