/** The count of directories each group descriptor keeps is the truth, in every reachable state. */
module DirCounts {
  import opened Bytes
  import opened Layout
  import opened Metadata
  import opened Volume
  import opened Reclaim
  import opened Directory
  import opened Operations
  import opened Invariant
  import opened Writing
  import opened Deletion
  import opened Format
  import opened Observing
  import opened WriteEffects
  import opened Effects
  import opened DeleteEffects
  import opened Undo

  /** The directories whose inodes lie in group `g`. */
  function DirsIn(fs: FS, g: nat): (s: set<nat>)
    ensures forall k :: k in s <==> k in fs.tree && k !in fs.data && InodeToBgd(k) == g
  {
    set k | k in fs.tree && k !in fs.data && InodeToBgd(k) == g
  }

  ghost predicate DirsCounted(t: Bgdt, fs: FS) {
    forall g :: 0 <= g < 8 ==> t[g].usedDirs == |DirsIn(fs, g)|
  }

  /** A group has 112 inodes, so its count of directories never wraps. */
  lemma DirsBounded(v: Volume, fs: FS, g: nat)
    requires Inv(v, fs) && g < 8
    ensures |DirsIn(fs, g)| <= 112
  {
    hide Inv;
    RootZero(v, fs);
    var range := Span(112 * g + 1, 112 * g + 113);
    forall k | k in DirsIn(fs, g) ensures k in range { MetadataInRange(k); }
    SpanCount(112 * g + 1, 112 * g + 113);
    SubsetCount(DirsIn(fs, g), range);
  }

  lemma {:induction false} SpanCount(lo: nat, hi: nat)
    requires lo <= hi
    ensures |Span(lo, hi)| == hi - lo
    decreases hi - lo
  {
    if lo < hi { SpanCount(lo + 1, hi); }
  }

  /** `ino` is one more inode, a directory or a file. */
  ghost predicate NewInode(fs: FS, fs': FS, ino: nat, dir: bool) {
    && (forall k :: k in fs'.tree <==> k in fs.tree || k == ino)
    && (forall k :: k in fs.tree ==> (k in fs'.data <==> k in fs.data))
    && (ino in fs'.data <==> !dir)
  }

  lemma NewDirCounted(t: Bgdt, t': Bgdt, fs: FS, fs': FS, ino: nat, dir: bool)
    requires DirsCounted(t, fs) && ValidInode(ino) && ino !in fs.tree
    requires NewInode(fs, fs', ino, dir)
    requires forall g :: 0 <= g < 8 ==> |DirsIn(fs, g)| <= 112
    requires if dir then DirsSet(t, t', InodeToBgd(ino), Inc16(t[InodeToBgd(ino)].usedDirs)) else SameDirs(t, t')
    ensures DirsCounted(t', fs')
  {
    MetadataInRange(ino);
    CountUp(|DirsIn(fs, InodeToBgd(ino))|);
    hide InodeToBgd, InodeToLocal, Inc16, DirsIn;
    forall g | 0 <= g < 8 ensures t'[g].usedDirs == |DirsIn(fs', g)| {
      NewDirSets(fs, fs', ino, dir, g);
    }
  }

  lemma CountUp(n: u16)
    requires n <= 112
    ensures Inc16(n) == n + 1
  {}

  lemma NewDirSets(fs: FS, fs': FS, ino: nat, dir: bool, g: nat)
    requires ino !in fs.tree
    requires NewInode(fs, fs', ino, dir)
    ensures |DirsIn(fs', g)| == |DirsIn(fs, g)| + if dir && InodeToBgd(ino) == g then 1 else 0
  {
    hide InodeToBgd, DirsIn;
    var more := dir && InodeToBgd(ino) == g;
    forall k: nat ensures k in DirsIn(fs', g) <==> k in DirsIn(fs, g) || (more && k == ino) {}
    SetPlus(DirsIn(fs, g), DirsIn(fs', g), ino, more);
  }

  lemma SetPlus(s: set<nat>, s': set<nat>, x: nat, more: bool)
    requires x !in s && forall k: nat :: k in s' <==> k in s || (more && k == x)
    ensures |s'| == |s| + if more then 1 else 0
  {
    if more { assert s' == s + {x}; } else { assert s' == s; }
  }

  lemma GoneDirCounted(t: Bgdt, t': Bgdt, fs: FS, ino: nat)
    requires DirsCounted(t, fs) && ValidInode(ino) && ino in fs.tree
    requires DirsSet(t, t', InodeToBgd(ino), if ino !in fs.data && t[InodeToBgd(ino)].usedDirs > 0
                                             then t[InodeToBgd(ino)].usedDirs - 1 else t[InodeToBgd(ino)].usedDirs)
    ensures DirsCounted(t', Without(fs, ino))
  {
    var fs' := Without(fs, ino);
    WithoutMaps(fs, ino);
    MetadataInRange(ino);
    hide InodeToBgd, InodeToLocal, Without, DirsIn;
    forall g | 0 <= g < 8 ensures t'[g].usedDirs == |DirsIn(fs', g)| {
      var less := ino !in fs.data && InodeToBgd(ino) == g;
      forall k: nat ensures k in DirsIn(fs, g) <==> k in DirsIn(fs', g) || (less && k == ino) {}
      SetPlus(DirsIn(fs', g), DirsIn(fs, g), ino, less);
    }
  }

  /** How `write` changes the counts of directories. */
  ghost predicate DirsAfterWrite(t: Bgdt, t': Bgdt, ino: nat, q: Request) {
    ValidInode(ino) &&
    if MakesDir(q) then InodeToBgd(ino) < 8 && DirsSet(t, t', InodeToBgd(ino), Inc16(t[InodeToBgd(ino)].usedDirs))
    else SameDirs(t, t')
  }

  lemma DirsOfHole(v: Volume, fs: FS, q: Request, ino: nat, blk: nat, at: nat)
    requires ino == FirstFreeInode(v.disk, 1) && ino != 0 && ValidInode(ino) && ValidRequest(q)
    requires DirBlockOK(v.disk, blk)
    requires Sound(v.disk[blk], at) && RecordLen(|q.name|) <= SlackLen(v.disk[blk], at) && Holds(v, fs, {}, {})
    ensures DirsAfterWrite(v.bgdt, WriteInHole(v, q, blk, at).v.bgdt, ino, q)
  {
    hide Holds, FirstFreeInode, AllocNode, Populate, Sound, RecordLen, SlackLen, Sync, Insert, SameHeaders, DirsSet,
      SameDirs, Inc16, Chain;
    MetadataInRange(ino);
    HeadersPopulate(v, fs, {}, ino, q);
    SyncCaches(PutBlock(Populate(AllocNode(v, ino), ino, q), blk, Insert(v.disk[blk], at, ino, TypeOf(q), q.name)));
  }

  lemma DirsOfGrowth(v: Volume, fs: FS, q: Request, n: Inode, ino: nat, b: nat)
    requires ValidRequest(q) && ValidInode(q.parent) && n.blocks < 15
    requires b == FirstFree(v.disk, 256 * InodeToBgd(q.parent)) && b != 0
    requires ino == FirstFreeInode(v.disk, 1) && ino != 0 && ValidInode(ino) && Holds(v, fs, {}, {})
    ensures DirsAfterWrite(v.bgdt, WriteGrowing(v, q, n).v.bgdt, ino, q)
  {
    hide Holds, FirstFreeInode, FirstFree, AllocNode, Populate, Sync, SameHeaders, DirsSet, Inc16, Used, NewEntryBlock,
         PutInode, GrownDir, Take;
    MetadataInRange(ino);
    TakenForGrowth(v, fs, InodeToBgd(q.parent), b);
    HeadersPopulate(Take(v, b), fs, {b}, ino, q);
    var w := Populate(AllocNode(Take(v, b), ino), ino, q);
    var stale := PutInode(v.disk[TableBlock(q.parent)], TableSlot(q.parent), GrownDir(n, b));
    MetadataInRange(q.parent);
    SyncCaches(PutBlock(PutBlock(w, b, NewEntryBlock(ino, TypeOf(q), q.name)), TableBlock(q.parent), stale));
    DirsThroughTake(v, b, w.bgdt, InodeToBgd(ino));
  }

  lemma DirsThroughTake(v: Volume, b: nat, t: Bgdt, g: nat)
    requires b < 2048 && g < 8
    ensures forall n: u16 :: DirsSet(Take(v, b).bgdt, t, g, n) ==> DirsSet(v.bgdt, t, g, n)
    ensures SameDirs(Take(v, b).bgdt, t) ==> SameDirs(v.bgdt, t)
    ensures Take(v, b).bgdt[g].usedDirs == v.bgdt[g].usedDirs
  {
    hide MarkUsed;
    assert forall h :: 0 <= h < 8 ==> Take(v, b).bgdt[h].usedDirs == v.bgdt[h].usedDirs;
  }

  lemma WriteDirs(v: Volume, fs: FS, q: Request)
    requires ValidRequest(q) && ParentOK(v, q) && WriteCode(v, q) == 0 && WriteSafe(v, q) && Inv(v, fs)
    ensures DirsAfterWrite(v.bgdt, WriteOp(v, q).v.bgdt, FirstFreeInode(v.disk, 1), q)
  {
    hide Inv, Holds, DirOK, IsDirMode, FindRoom, HoleAt, RoomForDir, FirstFree, FirstFreeInode, Chain, Reaches, Live,
      SlackLen, RecordLen, Blocks, Listing, Passed, Node, Take, Populate, AllocNode, DirsAfterWrite;
    ScanFacts(v, fs, q);
    InvParts(v, fs);
    var n, ino := ParentNode(v, q), FirstFreeInode(v.disk, 1);
    FindRoomSound(v.disk, n, 0, q.name);
    match FindRoom(v.disk, n, 0, q.name)
    case InHole(bi, at) => DirsOfHole(v, fs, q, ino, fs.tree[q.parent][bi], at);
    case Full => DirsOfGrowth(v, fs, q, n, ino, FirstFree(v.disk, 256 * InodeToBgd(q.parent)));
    case Exists =>
  }

  lemma WriteKeepsDirCounts(v: Volume, fs: FS, q: Request) returns (fs': FS, e: Entry, i: nat)
    requires ValidRequest(q) && ParentOK(v, q) && WriteCode(v, q) == 0 && WriteSafe(v, q) && Inv(v, fs)
    requires DirsCounted(v.bgdt, fs)
    ensures Inv(WriteOp(v, q).v, fs') && Wrote(v, WriteOp(v, q).v, fs, fs', q, e, i, Spent(v, q))
    ensures DirsCounted(WriteOp(v, q).v.bgdt, fs') && e.ino == FirstFreeInode(v.disk, 1)
  {
    hide Inv, WriteOp, WriteSafe, ParentOK, DirsIn, NamesIn, InsertedAt, FirstFreeInode, Granted, Spent, DirsSet,
      SameDirs, InodeToBgd, Inc16;
    fs', e, i := WriteEffect(v, fs, q);
    WriteDirs(v, fs, q);
    FilesExist(v, fs);
    forall g | 0 <= g < 8 ensures |DirsIn(fs, g)| <= 112 { DirsBounded(v, fs, g); }
    NewDirCounted(v.bgdt, WriteOp(v, q).v.bgdt, fs, fs', e.ino, MakesDir(q)) by {
      WroteNewInode(v, WriteOp(v, q).v, fs, fs', q, e, i, Spent(v, q));
    }
  }

  lemma FilesExist(v: Volume, fs: FS)
    requires Inv(v, fs)
    ensures fs.data.Keys <= fs.tree.Keys
  {
    hide Holds, Synced;
    InvParts(v, fs);
    FilesInTree(v.disk, fs);
  }

  lemma WroteNewInode(v: Volume, v': Volume, fs: FS, fs': FS, q: Request, e: Entry, i: nat, spent: set<nat>)
    requires Wrote(v, v', fs, fs', q, e, i, spent)
    ensures NewInode(fs, fs', e.ino, MakesDir(q))
  {
    hide NamesIn, InsertedAt, Granted;
  }

  lemma DeleteTable(v: Volume, q: Request, stack: u32)
    requires ValidRequest(q) && ParentOK(v, q) && DeleteCode(v, q, stack) == 0
    ensures ValidInode(Target(v, q)) && DeleteOp(v, q, stack).v.bgdt == DeallocNode(v, Target(v, q)).bgdt
  {
    hide Node, IsDirMode, FindEntry, DeallocNode, Chain, Remove, Previous, DirEmpty, Sound, DirBlockOK, EncSuperblock,
      EncTable, FoundRecord;
    FindEntrySound(v.disk, ParentNode(v, q), 0, q.name);
    match FindEntry(v.disk, ParentNode(v, q), 0, q.name)
    case Nowhere =>
    case Place(bi, at) => FoundParts(v.disk, ParentNode(v, q).block[bi], at, q.name);
  }

  lemma DeleteKeepsDirCounts(v: Volume, fs: FS, q: Request, stack: u32) returns (fs': FS, e: Entry, i: nat)
    requires ValidRequest(q) && ParentOK(v, q) && DeleteSafe(v, q) && DeleteCode(v, q, stack) == 0
    requires Inv(v, fs) && DirsCounted(v.bgdt, fs)
    ensures Inv(DeleteOp(v, q, stack).v, fs') && Deleted(v, DeleteOp(v, q, stack).v, fs, fs', q, e, i)
    ensures DirsCounted(DeleteOp(v, q, stack).v.bgdt, fs') && e.ino == Target(v, q)
  {
    hide Inv, Holds, DeleteOp, DeleteSafe, ParentOK, DirsIn, NamesIn, DirsSet, InodeToBgd, Without, Target, DeallocNode,
      IsDirMode, Node, Synced;
    fs', e, i := DeleteEffect(v, fs, q, stack);
    DeleteTable(v, q, stack);
    InvParts(v, fs);
    HeadersDealloc(v, fs, {}, e.ino);
    if IsDirectory(fs, e.ino) { DirContents(v, fs, e.ino); } else { NotADirectory(v, fs, e.ino); }
    MetadataInRange(e.ino);
    GoneDirCounted(v.bgdt, DeleteOp(v, q, stack).v.bgdt, fs, e.ino);
  }

  lemma FreshDirCounts()
    ensures DirsCounted(FreshTable(), FreshFS())
  {
    forall g | 0 <= g < 8 ensures FreshTable()[g].usedDirs == |DirsIn(FreshFS(), g)| {
      if g == 0 {
        assert DirsIn(FreshFS(), 0) == {1};
      } else {
        assert DirsIn(FreshFS(), g) == {};
      }
    }
  }
}
