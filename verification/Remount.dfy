/** Initialising again after any operation finds the signature, does not format, and rebuilds both caches. */
module Remount {
  import opened Bytes
  import opened Layout
  import opened Metadata
  import opened Volume
  import opened FileTree
  import opened Allocation
  import opened Reclaim
  import opened Directory
  import opened Operations
  import opened Format
  import opened FirstUse
  import opened Invariant
  import opened DirCounts
  import opened TreeShape
  import opened Observing
  import opened WriteEffects
  import opened Runs

  // ----- nothing writes the boot block, whatever the volume -----

  ghost predicate SameBoot(v: Volume, w: Volume) { w.disk[0] == v.disk[0] }

  lemma BootTake(v: Volume, m: nat)
    requires m < 2048
    ensures SameBoot(v, Take(v, m)) && SameBoot(v, Release(v, m)) && SameBoot(v, Sync(v))
  {
    hide EncSuperblock, EncTable, WithBit, WithoutBit;
  }

  lemma BootNode(v: Volume, ino: nat, n: Inode)
    requires ValidInode(ino)
    ensures SameBoot(v, SyncNode(v, ino, n)) && SameBoot(v, TakeInode(v, ino)) && SameBoot(v, ReleaseInode(v, ino))
    ensures 0 < TableBlock(ino) < 2048
  {
    hide PutInode, WithBit, WithoutBit;
    MetadataInRange(ino);
  }

  lemma {:induction false} BootRun(r: PtrFill, pref: nat, data: seq<byte>, n: nat, idx: nat)
    ensures SameBoot(r.v, FillRun(r, pref, data, n, idx).v)
    decreases 128 - idx
  {
    hide Chunk, WithPtr, Take, FirstFree;
    var b := FirstFree(r.v.disk, 256 * pref);
    if r.placed < n && idx < 128 && b != 0 {
      BootTake(r.v, b);
      BootRun(PlaceInRun(r, data, idx, b), pref, data, n, idx + 1);
    }
  }

  lemma BootPointer(v: Volume, pref: nat, data: seq<byte>, n: nat, placed: nat, p: nat)
    requires 0 < p < 2048
    ensures SameBoot(v, PointerRun(v, pref, data, n, placed, p).v)
  {
    hide Take, FillRun, ZeroBlock;
    BootTake(v, p);
    BootRun(PtrFill(Take(v, p), placed, ZeroBlock()), pref, data, n, 0);
  }

  lemma {:induction false} BootDirect(s: Stage, pref: nat, data: seq<byte>, i: nat)
    ensures SameBoot(s.v, AllocDirect(s, pref, data, i).v)
    decreases 12 - i
  {
    hide Chunk, Take, FirstFree;
    var b := FirstFree(s.v.disk, 256 * pref);
    if i < 12 && s.placed < s.node.blocks && b != 0 {
      BootTake(s.v, b);
      BootDirect(PlaceDirect(s, data, i, b), pref, data, i + 1);
    }
  }

  lemma {:induction false} BootInner(r: PtrFill, pref: nat, data: seq<byte>, n: nat, k: nat)
    ensures SameBoot(r.v, FillDouble(r, pref, data, n, k).v)
    decreases 128 - k
  {
    hide PointerRun, WithPtr, FirstFree;
    var p := FirstFree(r.v.disk, 256 * pref);
    if r.placed < n && k < 128 && p != 0 {
      BootPointer(r.v, pref, data, n, r.placed, p);
      BootInner(PlaceInner(r, pref, data, n, k, p), pref, data, n, k + 1);
    }
  }

  lemma BootIndirect(s: Stage, pref: nat, data: seq<byte>)
    ensures SameBoot(s.v, AllocIndirect(s, pref, data).v)
  {
    hide PointerRun, FirstFree;
    var p := FirstFree(s.v.disk, 256 * pref);
    if p != 0 { BootPointer(s.v, pref, data, s.node.blocks, s.placed, p); }
  }

  lemma BootDouble(s: Stage, pref: nat, data: seq<byte>)
    ensures SameBoot(s.v, AllocDouble(s, pref, data).v)
  {
    hide FillDouble, FirstFree, Take, ZeroBlock;
    var p := FirstFree(s.v.disk, 256 * pref);
    if p != 0 {
      BootTake(s.v, p);
      BootInner(PtrFill(Take(s.v, p), s.placed, ZeroBlock()), pref, data, s.node.blocks, 0);
    }
  }

  lemma BootBlocks(v: Volume, node: Inode, pref: nat, data: seq<byte>)
    ensures SameBoot(v, AllocBlocks(v, node, pref, data).v)
  {
    hide AllocDirect, AllocIndirect, AllocDouble;
    var s := AllocDirect(Stage(v, node, 0), pref, data, 0);
    BootDirect(Stage(v, node, 0), pref, data, 0);
    BootIndirect(s, pref, data);
    BootDouble(AllocIndirect(s, pref, data), pref, data);
  }

  lemma BootPopulate(v: Volume, ino: nat, q: Request)
    requires ValidInode(ino) && ValidRequest(q)
    ensures SameBoot(v, Populate(AllocNode(v, ino), ino, q))
  {
    hide AllocBlocks, Take, TakeInode, Sync, SyncNode, FirstFree, NewDirBlock, Node;
    var w := AllocNode(v, ino);
    BootNode(v, ino, ZeroInode());
    BootTake(TakeInode(v, ino), 0);
    if MakesDir(q) { BootDir(w, ino, q.parent); } else { BootFile(w, ino, q.data); }
  }

  lemma BootDir(v: Volume, ino: nat, parent: nat)
    requires ValidInode(ino) && parent < 0x1_0000_0000
    ensures SameBoot(v, MakeDir(v, ino, parent))
  {
    hide Take, Sync, SyncNode, FirstFree, NewDirBlock, Node, Inc16;
    var g := InodeToBgd(ino);
    var b := FirstFree(v.disk, 256 * g);
    var m := if b != 0 then b else FallbackBlock(g);
    var v1 := if b != 0 then Take(v, b) else v;
    BootTake(v, b);
    var x := PutBlock(v1, m, NewDirBlock(ino, parent));
    BootTake(x, 0);
    var v2 := Sync(x);
    BootNode(WithUsedDirs(v2, g, Inc16(v2.bgdt[g].usedDirs)), ino, DirNode(Node(v.disk, ino), m));
  }

  lemma BootFile(v: Volume, ino: nat, data: seq<byte>)
    requires ValidInode(ino) && |data| < 0x1_0000_0000
    ensures SameBoot(v, MakeFile(v, ino, data))
  {
    hide AllocBlocks, Sync, SyncNode, Node, BlocksFor;
    var node := Inode(EXT2_S_IFREG, |data|, BlocksFor(|data|), Node(v.disk, ino).block);
    var s := AllocBlocks(v, node, InodeToBgd(ino), data);
    BootBlocks(v, node, InodeToBgd(ino), data);
    BootTake(s.v, 0);
    BootNode(Sync(s.v), ino, s.node);
  }

  lemma BootHole(v: Volume, q: Request, blk: nat, at: nat)
    requires ValidRequest(q) && DirBlockOK(v.disk, blk)
    requires Sound(v.disk[blk], at) && RecordLen(|q.name|) <= SlackLen(v.disk[blk], at)
    ensures SameBoot(v, WriteInHole(v, q, blk, at).v)
  {
    hide FirstFreeInode, Populate, AllocNode, Sync, Insert, Chain, Sound, RecordLen, SlackLen;
    var ino := FirstFreeInode(v.disk, 1);
    if ino != 0 {
      BootPopulate(v, ino, q);
      var v2 := Populate(AllocNode(v, ino), ino, q);
      BootTake(PutBlock(v2, blk, Insert(v.disk[blk], at, ino, TypeOf(q), q.name)), 0);
    }
  }

  lemma BootGrowing(v: Volume, q: Request, n: Inode)
    requires ValidRequest(q) && ValidInode(q.parent) && n.blocks < 15
    ensures SameBoot(v, WriteGrowing(v, q, n).v)
  {
    hide FirstFreeInode, FirstFree, Populate, AllocNode, Sync, NewEntryBlock, PutInode, Take;
    var b := FirstFree(v.disk, 256 * InodeToBgd(q.parent));
    var ino := FirstFreeInode(v.disk, 1);
    if b != 0 {
      BootTake(v, b);
      if ino != 0 {
        BootPopulate(Take(v, b), ino, q);
        BootNode(v, q.parent, ZeroInode());
        var v2 := Populate(AllocNode(Take(v, b), ino), ino, q);
        var v3 := PutBlock(v2, b, NewEntryBlock(ino, TypeOf(q), q.name));
        var stale := PutInode(v.disk[TableBlock(q.parent)], TableSlot(q.parent), GrownDir(n, b));
        BootTake(PutBlock(v3, TableBlock(q.parent), stale), 0);
      }
    }
  }

  /** No `write` touches the boot block, safe or not. */
  lemma WriteKeepsBoot(v: Volume, q: Request)
    requires ValidRequest(q) && ParentOK(v, q)
    ensures SameBoot(v, WriteOp(v, q).v)
  {
    hide FindRoom, WriteInHole, WriteGrowing, Node, IsDirMode, Chain, Reaches, Live, RecordLen, SlackLen;
    if q.parent != 0 && IsDirMode(ParentNode(v, q).mode) {
      var n := ParentNode(v, q);
      FindRoomSound(v.disk, n, 0, q.name);
      match FindRoom(v.disk, n, 0, q.name)
      case Exists =>
      case InHole(bi, at) => BootHole(v, q, n.block[bi], at);
      case Full => BootGrowing(v, q, n);
    }
  }

  lemma BootPtr(v: Volume, p: u32)
    ensures SameBoot(v, ReleasePtr(v, p))
  {
    hide Release;
    if 0 < p < 2048 { BootTake(v, p); }
  }

  lemma {:induction false} BootFreeDirect(v: Volume, node: Inode, i: nat, remain: nat)
    ensures SameBoot(v, FreeDirect(v, node, i, remain))
    decreases 12 - i
  {
    hide ReleasePtr;
    if i < 12 && remain > 0 {
      BootPtr(v, node.block[i]);
      BootFreeDirect(ReleasePtr(v, node.block[i]), node, i + 1, remain - 1);
    }
  }

  lemma {:induction false} BootFreeRun(v: Volume, b: Block, j: nat, count: nat)
    requires count <= 128
    ensures SameBoot(v, FreeRun(v, b, j, count))
    decreases count - j
  {
    hide ReleasePtr, PtrAt;
    if j < count {
      BootPtr(v, PtrAt(b, j));
      BootFreeRun(ReleasePtr(v, PtrAt(b, j)), b, j + 1, count);
    }
  }

  lemma {:induction false} BootFreeInner(v: Volume, dbl: Block, k: nat, total: nat)
    ensures SameBoot(v, FreeInner(v, dbl, k, total))
    decreases 128 - k
  {
    hide ReleasePtr, PtrAt, FreeRun, BlockAt;
    if k < 128 && total > 0 {
      var p := PtrAt(dbl, k);
      if p == 0 {
        BootFreeInner(v, dbl, k + 1, total);
      } else {
        var cnt := Least(total, 128);
        var w := FreeRun(v, BlockAt(v.disk, p), 0, cnt);
        BootFreeRun(v, BlockAt(v.disk, p), 0, cnt);
        BootPtr(w, p);
        BootFreeInner(ReleasePtr(w, p), dbl, k + 1, total - cnt);
      }
    }
  }

  lemma BootFreeTree(v: Volume, node: Inode)
    ensures SameBoot(v, FreeTree(v, node))
  {
    hide ReleasePtr, FreeDirect, FreeRun, FreeInner, BlockAt;
    var v1 := FreeDirect(v, node, 0, node.blocks);
    BootFreeDirect(v, node, 0, node.blocks);
    var r := AfterDirect(node);
    if r != 0 && node.block[12] != 0 {
      var w := FreeRun(v1, BlockAt(v1.disk, node.block[12]), 0, Least(r, 128));
      BootFreeRun(v1, BlockAt(v1.disk, node.block[12]), 0, Least(r, 128));
      BootPtr(w, node.block[12]);
    }
    var v2 := FreeIndirect(v1, node, r);
    if AfterIndirect(node) != 0 && node.block[13] != 0 {
      var w := FreeInner(v2, BlockAt(v2.disk, node.block[13]), 0, AfterIndirect(node));
      BootFreeInner(v2, BlockAt(v2.disk, node.block[13]), 0, AfterIndirect(node));
      BootPtr(w, node.block[13]);
    }
  }

  lemma BootDealloc(v: Volume, ino: nat)
    requires ValidInode(ino)
    ensures SameBoot(v, DeallocNode(v, ino))
  {
    hide FreeTree, Node, IsDirMode, Sync, SyncNode, ReleaseInode, ZeroInode;
    var node, g := Node(v.disk, ino), InodeToBgd(ino);
    var v1 := if IsDirMode(node.mode) && v.bgdt[g].usedDirs > 0 then WithUsedDirs(v, g, v.bgdt[g].usedDirs - 1) else v;
    BootFreeTree(v1, node);
    BootNode(FreeTree(v1, node), ino, ZeroInode());
    var w := SyncNode(FreeTree(v1, node), ino, ZeroInode());
    BootNode(w, ino, ZeroInode());
    BootTake(ReleaseInode(w, ino), 0);
  }

  /** No `delete` touches the boot block either. */
  lemma DeleteKeepsBoot(v: Volume, q: Request, stack: u32)
    requires ValidRequest(q) && ParentOK(v, q)
    ensures SameBoot(v, DeleteOp(v, q, stack).v)
  {
    hide FindEntry, DeallocNode, Node, IsDirMode, Chain, Reaches, Live, Remove, Previous, Sync, DirEmpty, FoundRecord;
    if q.parent != 0 && IsDirMode(ParentNode(v, q).mode) {
      var n := ParentNode(v, q);
      FindEntrySound(v.disk, n, 0, q.name);
      match FindEntry(v.disk, n, 0, q.name)
      case Nowhere =>
      case Place(bi, at) =>
        FoundSound(v.disk[n.block[bi]], at, q.name);
        BootDeleteAt(v, q, n.block[bi], at, stack);
    }
  }

  lemma FoundSound(b: Block, at: nat, name: Name)
    requires Chain(b, 0) && FoundRecord(b, 0, at, name)
    ensures Sound(b, at)
  {
    hide Chain, Reaches;
  }

  lemma BootDeleteAt(v: Volume, q: Request, blk: nat, at: nat, stack: u32)
    requires DirBlockOK(v.disk, blk) && Sound(v.disk[blk], at)
    ensures SameBoot(v, DeleteAt(v, q, blk, at, stack).v)
  {
    hide DeallocNode, Chain, SlackZero, Remove, Previous, Sync, DirEmpty, EntInode;
    var ino := EntInode(v.disk[blk], at);
    if ValidInode(ino) {
      BootDealloc(v, ino);
      var b := v.disk[blk];
      BootTake(PutBlock(DeallocNode(v, ino), blk, Remove(b, at, Previous(b, 0, 512, at))), 0);
    }
  }

  // ----- whatever succeeds is on the disk -----

  lemma SyncIsSynced(v: Volume)
    ensures Synced(Sync(v).disk, Sync(v).sb, Sync(v).bgdt)
  {
    hide EncSuperblock, EncTable;
  }

  /** A `write` that returns 0 leaves both caches on the disk, safe or not. */
  lemma WriteSyncs(v: Volume, q: Request)
    requires ValidRequest(q) && ParentOK(v, q) && WriteCode(v, q) == 0
    ensures var w := WriteOp(v, q).v; Synced(w.disk, w.sb, w.bgdt)
  {
    hide FindRoom, Node, IsDirMode, Chain, Reaches, Live, RecordLen, SlackLen, Populate, AllocNode, Insert, Sync,
      Synced, FirstFree, FirstFreeInode, Take, PutInode, NewEntryBlock;
    var n := ParentNode(v, q);
    FindRoomSound(v.disk, n, 0, q.name);
    var ino := FirstFreeInode(v.disk, 1);
    match FindRoom(v.disk, n, 0, q.name)
    case InHole(bi, at) =>
      var v2 := Populate(AllocNode(v, ino), ino, q);
      var blk := n.block[bi];
      SyncIsSynced(PutBlock(v2, blk, Insert(v.disk[blk], at, ino, TypeOf(q), q.name)));
    case Full =>
      var b := FirstFree(v.disk, 256 * InodeToBgd(q.parent));
      var v2 := Populate(AllocNode(Take(v, b), ino), ino, q);
      var v3 := PutBlock(v2, b, NewEntryBlock(ino, TypeOf(q), q.name));
      BootNode(v, q.parent, ZeroInode());
      var stale := PutInode(v.disk[TableBlock(q.parent)], TableSlot(q.parent), GrownDir(n, b));
      SyncIsSynced(PutBlock(v3, TableBlock(q.parent), stale));
  }

  /** So does a `delete`. */
  lemma DeleteSyncs(v: Volume, q: Request, stack: u32)
    requires ValidRequest(q) && ParentOK(v, q) && DeleteCode(v, q, stack) == 0
    ensures var w := DeleteOp(v, q, stack).v; Synced(w.disk, w.sb, w.bgdt)
  {
    hide FindEntry, DeallocNode, Node, IsDirMode, Chain, Reaches, Live, Remove, Previous, Sync, DirEmpty, FoundRecord,
      EntInode, FileType, Synced;
    var n := ParentNode(v, q);
    FindEntrySound(v.disk, n, 0, q.name);
    match FindEntry(v.disk, n, 0, q.name)
    case Place(bi, at) =>
      FoundSound(v.disk[n.block[bi]], at, q.name);
      var b := v.disk[n.block[bi]];
      var w := PutBlock(DeallocNode(v, EntInode(b, at)), n.block[bi], Remove(b, at, Previous(b, 0, 512, at)));
      SyncIsSynced(w);
  }

  /** Initialising a synchronised volume that carries the signature changes nothing. */
  lemma InitialiseAgain(v: Volume, signature: Block)
    requires !EmptyStorage(v.disk, signature) && Synced(v.disk, v.sb, v.bgdt)
    ensures Initialise(v.disk, signature) == v
  {
    hide Synced, CreateExt2;
    RemountIsInvisible(v.disk, v.sb, v.bgdt);
  }

  /** After any `write` that returns 0, initialising again gives the state there is. */
  lemma InitialiseAfterWrite(v: Volume, q: Request, signature: Block)
    requires ValidRequest(q) && ParentOK(v, q) && WriteCode(v, q) == 0 && !EmptyStorage(v.disk, signature)
    ensures Initialise(WriteOp(v, q).v.disk, signature) == WriteOp(v, q).v
  {
    hide WriteOp, ParentOK, Synced, Initialise;
    WriteKeepsBoot(v, q);
    WriteSyncs(v, q);
    InitialiseAgain(WriteOp(v, q).v, signature);
  }

  /** And after any `delete` that returns 0. */
  lemma InitialiseAfterDelete(v: Volume, q: Request, stack: u32, signature: Block)
    requires ValidRequest(q) && ParentOK(v, q) && DeleteCode(v, q, stack) == 0 && !EmptyStorage(v.disk, signature)
    ensures Initialise(DeleteOp(v, q, stack).v.disk, signature) == DeleteOp(v, q, stack).v
  {
    hide DeleteOp, ParentOK, Synced, Initialise;
    DeleteKeepsBoot(v, q, stack);
    DeleteSyncs(v, q, stack);
    InitialiseAgain(DeleteOp(v, q, stack).v, signature);
  }

  // ----- whole runs -----

  lemma {:induction false} RunKeepsBoot(v: Volume, ops: seq<Op>)
    ensures SameBoot(v, Run(v, ops))
    decreases |ops|
  {
    hide WriteOp, DeleteOp, ParentOK;
    if ops != [] {
      var op := ops[0];
      if ValidRequest(op.q) && ParentOK(v, op.q) {
        match op
        case WriteCall(q) => WriteKeepsBoot(v, q);
        case DeleteCall(q, stack) => DeleteKeepsBoot(v, q, stack);
      }
      RunKeepsBoot(Apply(v, op), ops[1..]);
    }
  }

  /** After any safe run from a sane volume that carries the signature, initialising again gives the same state. */
  lemma InitialiseAfterRun(v: Volume, fs: FS, depth: map<nat, nat>, signature: Block, ops: seq<Op>)
    requires !EmptyStorage(v.disk, signature) && SafeRun(v, ops) && Sane(v, fs, depth)
    ensures !EmptyStorage(Run(v, ops).disk, signature)
    ensures Initialise(Run(v, ops).disk, signature) == Run(v, ops)
  {
    hide SafeRun, Run, Holds, TreeOK, DirsCounted, Synced, Initialise;
    RunKeepsBoot(v, ops);
    var fs', depth' := RunKeepsSane(v, fs, depth, ops);
    InitialiseAgain(Run(v, ops), signature);
  }

  /**
   * After any safe run from a freshly formatted device, initialising again does not format and gives the same state.
   */
  lemma InitialiseIsIdentity(d: Disk, signature: Block, ops: seq<Op>)
    requires Blank(d) && EmptyStorage(d, signature) && SafeRun(Initialise(d, signature), ops)
    ensures var v := Run(Initialise(d, signature), ops);
      !EmptyStorage(v.disk, signature) && Initialise(v.disk, signature) == v
  {
    hide SafeRun, Run, Blank, CreateExt2, Mount, Sane;
    FormattedAt(d, signature, 0);
    MountKeeps(CreateExt2(d, signature));
    FreshSane(d, signature);
    InitialiseAfterRun(Mount(CreateExt2(d, signature)), FreshFS(), map[1 := 0], signature, ops);
  }

  lemma MountKeeps(d: Disk)
    ensures Mount(d).disk == d
  {
    hide DecSuperblock, DecTable;
  }

  // ----- what initialising does to any device -----

  /** A device is formatted unless its first two bytes are those of the signature; then its caches are loaded. */
  lemma InitialiseExactly(d: Disk, signature: Block)
    ensures Initialise(d, signature) ==
      Mount(if d[0][0] == signature[0] && d[0][1] == signature[1] then d else CreateExt2(d, signature))
  {
    hide CreateExt2, Mount;
  }

  /** The zeroed image is formatted when first used, and its root directory lists nothing but the dots. */
  lemma FirstBoot(signature: Block)
    requires signature[0] == 67 && signature[1] == 111     // 'C' and 'o'
    ensures var v := Initialise(seq(8192, i => ZeroBlock()), signature);
      && v.disk[0] == signature && Sane(v, FreshFS(), map[1 := 0])
      && NamesIn(v, FreshFS(), 1) == [Entry(0, 1, 2, [46]), Entry(12, 1, 2, [46, 46])]
  {
    hide CreateExt2, Mount, Sane, NamesIn;
    var d: Disk := seq(8192, i => ZeroBlock());
    assert d[0][0] == 0;
    InitialiseExactly(d, signature);
    ZeroImageIsBlank();
    FreshSane(d, signature);
    MountKeeps(CreateExt2(d, signature));
    FormattedAt(d, signature, 0);
    FreshNames(d, signature);
  }

  lemma FreshNames(d: Disk, signature: Block)
    ensures NamesIn(Mount(CreateExt2(d, signature)), FreshFS(), 1) ==
      [Entry(0, 1, 2, [46]), Entry(12, 1, 2, [46, 46])]
  {
    hide CreateExt2, NewDirBlock, Chain, Entries, DecSuperblock, DecTable;
    var f := CreateExt2(d, signature);
    FormattedAt(d, signature, 21);
    NewDirBlockSpec(1, 1);
    SingleListing(f, 21);
  }

  /** The fields of blocks 1 and 2, at their places in the two structures. */
  ghost predicate HeadersAre(f: Disk) {
    && U32At(f[1], 0) == 896 && U32At(f[1], 4) == 8192 && U32At(f[1], 8) == 0 && U32At(f[1], 12) == 8044
    && U32At(f[1], 16) == 895 && U32At(f[1], 20) == 1 && U32At(f[1], 24) == 1 && U32At(f[1], 28) == 256
    && U32At(f[1], 32) == 256 && U32At(f[1], 36) == 112 && U16At(f[1], 40) == 0xEF53 && f[1][42] == 0 == f[1][43]
    && U32At(f[2], 0) == 3 && U32At(f[2], 4) == 4 && U32At(f[2], 8) == 5 && U16At(f[2], 12) == 234
    && U16At(f[2], 14) == 111 && U16At(f[2], 16) == 1
    && f[1][0] == 0x80 && f[1][1] == 0x03 && f[1][40] == 0x53 && f[1][41] == 0xEF     // lowest byte first
    && forall g :: 1 <= g < 8 ==>
      && U32At(f[2], 32 * g) == 256 * g && U32At(f[2], 32 * g + 4) == 256 * g + 1
      && U32At(f[2], 32 * g + 8) == 256 * g + 2 && U16At(f[2], 32 * g + 12) == 238
      && U16At(f[2], 32 * g + 14) == 112 && U16At(f[2], 32 * g + 16) == 0
  }

  /** The bitmaps as bytes: 22 blocks and one inode are taken in the first group, 18 blocks in each other. */
  ghost predicate BitmapsAre(f: Disk) {
    && f[3][0] == 0xFF && f[3][1] == 0xFF && f[3][2] == 0x3F && f[4][0] == 0x01
    && (forall i :: 3 <= i < 512 ==> f[3][i] == 0) && (forall i :: 1 <= i < 512 ==> f[4][i] == 0)
    && forall g :: 1 <= g < 8 ==>
      && f[256 * g][0] == 0xFF && f[256 * g][1] == 0xFF && f[256 * g][2] == 0x03
      && (forall i :: 3 <= i < 512 ==> f[256 * g][i] == 0) && f[256 * g + 1] == ZeroBlock()
  }

  lemma {:induction false} LowOnes(w: nat, i: nat)
    ensures TestBit(Pow2(w) - 1, i) <==> i < w
  {
    if w == 0 {
      ZeroBits(i);
    } else {
      assert (Pow2(w) - 1) / 2 == Pow2(w - 1) - 1 && (Pow2(w) - 1) % 2 == 1;
      if i > 0 { LowOnes(w - 1, i - 1); }
    }
  }

  /** Byte `i` of a bitmap whose first `n` bits are set. */
  lemma FirstBitsByte(n: nat, i: nat, w: nat)
    requires n <= 4096 && i < 512 && w == if 8 * i >= n then 0 else if 8 * i + 8 <= n then 8 else n - 8 * i
    ensures FirstBits(n)[i] == Pow2(w) - 1
  {
    hide FirstBits;
    Pow2Of8();
    Pow2Grows(w, 8);
    forall j | 0 <= j < 8 ensures TestBit(FirstBits(n)[i], j) <==> TestBit(Pow2(w) - 1, j) {
      FirstBitsSpec(n, 8 * i + j);
      assert (8 * i + j) / 8 == i && (8 * i + j) % 8 == j;
      LowOnes(w, j);
    }
    BitsDetermine(FirstBits(n)[i], Pow2(w) - 1, 8);
  }

  lemma {:induction false} Pow2Grows(a: nat, b: nat)
    requires a <= b
    ensures Pow2(a) <= Pow2(b)
  {
    if a < b { Pow2Grows(a, b - 1); }
  }

  lemma FirstBitsBytes(n: nat)
    requires n == 22 || n == 18
    ensures var b := FirstBits(n);
      b[0] == 0xFF && b[1] == 0xFF && b[2] == (if n == 22 then 0x3F else 0x03) && forall i :: 3 <= i < 512 ==> b[i] == 0
  {
    hide FirstBits;
    Pow2Of8();
    assert Pow2(2) == 4;
    assert Pow2(6) == 64;
    FirstBitsByte(n, 0, 8);
    FirstBitsByte(n, 1, 8);
    FirstBitsByte(n, 2, n - 16);
    forall i | 3 <= i < 512 ensures FirstBits(n)[i] == 0 { FirstBitsByte(n, i, 0); }
  }

  lemma FormattedBitmaps(d: Disk, signature: Block)
    ensures BitmapsAre(CreateExt2(d, signature))
  {
    hide CreateExt2, FirstBits, ZeroBlock;
    FirstBitsBytes(22);
    FirstBitsBytes(18);
    FormattedAt(d, signature, 3);
    FormattedAt(d, signature, 4);
    FirstBitsByte(1, 0, 1);
    forall i | 1 <= i < 512 ensures FirstBits(1)[i] == 0 { FirstBitsByte(1, i, 0); }
    forall g | 1 <= g < 8
      ensures CreateExt2(d, signature)[256 * g] == FirstBits(18) && CreateExt2(d, signature)[256 * g + 1] == ZeroBlock()
    {
      FormattedAt(d, signature, 256 * g);
      FormattedAt(d, signature, 256 * g + 1);
    }
  }

  lemma FormattedHeaders(d: Disk, signature: Block)
    ensures HeadersAre(CreateExt2(d, signature))
  {
    hide CreateExt2, U16At, U32At;
    var f := CreateExt2(d, signature);
    FreshCaches(d, signature);
    RemountIsInvisible(f, FreshSuperblock(), FreshTable());
    forall g | 0 <= g < 8 ensures DecDesc(f[2], 32 * g) == FreshDesc(g) {
      assert DecTable(f[2])[g] == FreshTable()[g];
    }
    assert DecDesc(f[2], 32 * 0) == FreshDesc(0);
    LowFirst(f[1], 0);
    LowFirst(f[1], 40);
  }

  lemma LowFirst(b: Block, o: nat)
    requires o + 4 <= 512
    ensures b[o] as int == U16At(b, o) % 256 && b[o + 1] as int == U16At(b, o) / 256
    ensures U16At(b, o) as int == U32At(b, o) % 0x1_0000
  {
  }
}
