/** Everything that holds between operations, over every run from a freshly formatted image. */
module Runs {
  import opened Bytes
  import opened Layout
  import opened Metadata
  import opened Volume
  import opened Directory
  import opened Operations
  import opened Invariant
  import opened Creation
  import opened Naming
  import opened Growth
  import opened Writing
  import opened Deletion
  import opened Format
  import opened Observing
  import opened WriteEffects
  import opened Effects
  import opened DeleteEffects
  import opened Undo
  import opened DirCounts
  import opened TreeShape

  /** Allocation, contents, names, directory counts and tree shape at once. */
  ghost predicate Sane(v: Volume, fs: FS, depth: map<nat, nat>) {
    Inv(v, fs) && DirsCounted(v.bgdt, fs) && TreeOK(v.disk, fs, depth)
  }

  // ----- write -----

  lemma SproutedIsNew(d: Disk, d': Disk, fs: FS, fs': FS, ino: nat, p: nat, dir: bool)
    requires Sprouted(d', fs, fs', ino, p) && Carried(d, d', fs, fs') && (IsDirectory(fs', ino) <==> dir)
    ensures NewInode(fs, fs', ino, dir)
  {
    hide Placed, Up, CarriedAt;
  }

  lemma WrittenSane(v: Volume, v': Volume, fs: FS, fs': FS, depth: map<nat, nat>, ino: nat, q: Request)
    returns (depth': map<nat, nat>)
    requires Sane(v, fs, depth) && Inv(v', fs')
    requires Sprouted(v'.disk, fs, fs', ino, q.parent) && Carried(v.disk, v'.disk, fs, fs')
    requires (IsDirectory(fs', ino) <==> MakesDir(q)) && DirsAfterWrite(v.bgdt, v'.bgdt, ino, q)
    ensures Sane(v', fs', depth')
  {
    hide Inv, Carried, DirsSet, SameDirs, DirsIn, Inc16, InodeToBgd, UpOK, Placed;
    SproutedIsNew(v.disk, v'.disk, fs, fs', ino, q.parent, MakesDir(q));
    forall g | 0 <= g < 8 ensures |DirsIn(fs, g)| <= 112 { DirsBounded(v, fs, g); }
    NewDirCounted(v.bgdt, v'.bgdt, fs, fs', ino, MakesDir(q));
    assert UpOK(v.disk, fs, depth, q.parent);
    DepthThere(v.disk, fs, depth, q.parent);
    SproutedTree(v.disk, v'.disk, fs, fs', depth, ino, q.parent);
    depth' := depth[ino := depth[q.parent] + 1];
  }

  lemma HoleSane(v: Volume, fs: FS, depth: map<nat, nat>, q: Request)
    returns (s: HoleCase, fs': FS, depth': map<nat, nat>)
    requires WritesInHole(v, q) && Sane(v, fs, depth)
    ensures Sane(WriteOp(v, q).v, fs', depth')
    ensures s.v == v && s.fs == fs && s.q == q && Done(s, WriteOp(v, q).v, fs')
    ensures FindRoom(v.disk, ParentNode(v, q), 0, q.name) == InHole(s.bi, s.at) && s.ino == FirstFreeInode(v.disk, 1)
  {
    hide Inv, Sprouted, Carried, DirsAfterWrite, WriteOp, WriteSafe, HoleStep, WriteInHole, RecordLen, SlackLen,
      SlackAt, Sound, DirBlockOK, NewFS, Named, TreeOK, DirsCounted, ParentOK, FindRoom, Node, IsDirMode, Done,
      FirstFreeInode, Populated, Populate, AllocNode;
    s, fs' := HoleIsDone(v, fs, q);
    var v' := WriteOp(v, q).v;
    DoneShape(s, v', fs');
    StepParts(s);
    HoleSprouted(s, v', fs');
    HoleCarried(s, v', fs');
    WriteDirs(v, fs, q);
    depth' := WrittenSane(v, v', fs, fs', depth, s.ino, q);
  }

  lemma GrowthIsStep(v: Volume, fs: FS, q: Request) returns (g: Growing)
    requires ValidRequest(q) && ParentOK(v, q) && q.parent != 0 && IsDirMode(ParentNode(v, q).mode)
    requires FindRoom(v.disk, ParentNode(v, q), 0, q.name).Full? && WriteSafe(v, q) && WriteCode(v, q) == 0
    requires Inv(v, fs)
    ensures g.v == v && g.fs == fs && g.q == q && g.v' == WriteOp(v, q).v && g.ino == FirstFreeInode(v.disk, 1)
    ensures GrowthStep(g) && Inv(g.v', GrownFS(g))
  {
    hide Inv, RoomForDir, FirstFree, FirstFreeInode, NewFS, Populated, Blocks, Listing, Passed, Node, SameData,
      FindRoom, IsDirMode, Attached, Meta, WriteGrowing, OneBlock, Take, Populate, AllocNode, DirOK;
    ScanFacts(v, fs, q);
    var n, ino, b := ParentNode(v, q), FirstFreeInode(v.disk, 1), FirstFree(v.disk, 256 * InodeToBgd(q.parent));
    assert WriteOp(v, q) == WriteGrowing(v, q, n);
    assert b != 0 && ino != 0 by { GrowsOnly(v, q, n); }
    var t := WriteGrowingHolds(v, fs, q, n, ino, b);
    GrowingOneBlock(v, q, n, ino, b);
    g := Growing(v, fs, q, ino, b, t, Populate(AllocNode(Take(v, b), ino), ino, q), WriteOp(v, q).v);
  }

  lemma GrowsOnly(v: Volume, q: Request, n: Inode)
    requires ValidRequest(q) && ValidInode(q.parent) && n.blocks < 15 && WriteGrowing(v, q, n).code == 0
    ensures FirstFree(v.disk, 256 * InodeToBgd(q.parent)) != 0 && FirstFreeInode(v.disk, 1) != 0
  {
    hide FirstFree, FirstFreeInode, Take, Populate, AllocNode, NewEntryBlock, PutInode, Sync;
  }

  lemma GrowthSane(v: Volume, fs: FS, depth: map<nat, nat>, q: Request)
    returns (g: Growing, fs': FS, depth': map<nat, nat>)
    requires ValidRequest(q) && ParentOK(v, q) && q.parent != 0 && IsDirMode(ParentNode(v, q).mode)
    requires FindRoom(v.disk, ParentNode(v, q), 0, q.name).Full? && WriteSafe(v, q) && WriteCode(v, q) == 0
    requires Sane(v, fs, depth)
    ensures Sane(WriteOp(v, q).v, fs', depth')
    ensures g.v == v && g.fs == fs && g.q == q && g.v' == WriteOp(v, q).v && g.ino == FirstFreeInode(v.disk, 1)
    ensures GrowthStep(g) && fs' == GrownFS(g)
  {
    hide Inv, Sprouted, Carried, DirsAfterWrite, WriteOp, WriteSafe, GrowthStep, GrownFS, TreeOK, DirsCounted, ParentOK,
      FindRoom, Node, IsDirMode, FirstFreeInode, DirOK;
    g := GrowthIsStep(v, fs, q);
    fs' := GrownFS(g);
    GrowthSprouted(g);
    GrowthCarried(g);
    WriteDirs(v, fs, q);
    depth' := WrittenSane(v, g.v', fs, fs', depth, g.ino, q);
  }

  /** Every safe `write` keeps everything; one that fails changes nothing. */
  lemma WriteKeepsSane(v: Volume, fs: FS, depth: map<nat, nat>, q: Request) returns (fs': FS, depth': map<nat, nat>)
    requires ValidRequest(q) && ParentOK(v, q) && WriteSafe(v, q) && Sane(v, fs, depth)
    ensures Sane(WriteOp(v, q).v, fs', depth')
    ensures WriteCode(v, q) != 0 ==> WriteOp(v, q).v == v
  {
    hide Inv, TreeOK, DirsCounted, WriteOp, WriteSafe, FindRoom, IsDirMode, Node, DirOK;
    if WriteCode(v, q) == 0 {
      WriteBranches(v, q);
      if FindRoom(v.disk, ParentNode(v, q), 0, q.name).Full? {
        var g;
        g, fs', depth' := GrowthSane(v, fs, depth, q);
      } else {
        var s;
        s, fs', depth' := HoleSane(v, fs, depth, q);
      }
    } else {
      fs', depth' := fs, depth;
      var fs1 := WriteKeepsInv(v, fs, q);
    }
  }

  lemma WriteBranches(v: Volume, q: Request)
    requires ValidRequest(q) && ParentOK(v, q) && WriteCode(v, q) == 0
    ensures q.parent != 0 && IsDirMode(ParentNode(v, q).mode)
    ensures !FindRoom(v.disk, ParentNode(v, q), 0, q.name).Exists?
  {
    hide IsDirMode, Node, FindRoom, WriteInHole, WriteGrowing;
    if q.parent != 0 && IsDirMode(ParentNode(v, q).mode) { FindRoomSound(v.disk, ParentNode(v, q), 0, q.name); }
  }

  // ----- delete -----

  /**
   * `is_directory_empty` looks at the first block only; what a caller must check beside it: the later blocks of the
   * directory hold no entries.
   */
  predicate LeavesNoOrphans(v: Volume, q: Request)
    requires ValidRequest(q) && ParentOK(v, q)
  {
    q.isDir && ValidInode(Target(v, q)) ==> NothingBeyond(v.disk, Node(v.disk, Target(v, q)))
  }

  predicate NothingBeyond(d: Disk, n: Inode) {
    IsDirMode(n.mode) && DirOK(d, n) ==> forall i :: 1 <= i < n.blocks ==> NoEntries(d, n.block[i])
  }

  predicate NoEntries(d: Disk, m: nat) { m < 2048 && Chain(d[m], 0) && Entries(d[m], 0) == [] }

  lemma NothingListed(d: Disk, m: nat)
    requires NoEntries(d, m)
    ensures forall skip, at, k :: !Listed(d[m], skip, at, k)
  {
    hide Chain, Entries;
  }

  lemma EmptyHasNoChildren(v: Volume, fs: FS, ino: nat, stack: u32)
    requires ValidInode(ino) && IsDirectory(fs, ino) && Inv(v, fs)
    requires DirEmpty(v, ino, stack) && NothingBeyond(v.disk, Node(v.disk, ino))
    ensures NoChildren(v.disk, fs, ino)
  {
    hide Inv, Node, IsDirMode, Listed, Chain, Entries, DirEmpty, Dots, DirOK, NoEntries;
    DirContents(v, fs, ino);
    DirectoryFound(v, fs, ino);
    EmptyDirMeans(v, fs, ino, stack);
    var a := fs.tree[ino];
    forall i, at, j | 0 <= i < |a| && a[i] < 2048 ensures !Listed(v.disk[a[i]], Skip(i), at, j) {
      if i == 0 { OnlyDots(v.disk[a[0]], at, j); } else {
        assert NoEntries(v.disk, Node(v.disk, ino).block[i]);
        NothingListed(v.disk, a[i]);
      }
    }
  }

  lemma OnlyDots(b: Block, at: nat, j: nat)
    requires Chain(b, 0) && |Entries(b, 0)| == 2
    ensures !Listed(b, 2, at, j)
  {
    hide Chain, Entries;
  }

  /** The state after a successful `delete` of inode `x`, whose entry sat at `at` of block `blk`. */
  ghost predicate DeletedAt(v: Volume, v': Volume, fs: FS, q: Request, bi: nat, blk: nat, at: nat, x: nat, stack: u32) {
    && ValidInode(x) && 21 <= blk < 2048 && !Meta(blk) && Sound(v.disk[blk], at) && Chain(v.disk[blk], 0)
    && Removing(v, v', fs, q.parent, bi, blk, at, x)
    && v' == Sync(PutBlock(DeallocNode(v, x), blk, Remove(v.disk[blk], at, Previous(v.disk[blk], 0, 512, at))))
    && x in fs.tree && (x in fs.data <==> !q.isDir) && (q.isDir ==> DirEmpty(v, x, stack))
  }

  lemma RemovingAt(v: Volume, fs: FS, q: Request, bi: nat, blk: nat, at: nat, stack: u32)
    requires IsDirBlock(fs, q.parent, bi, blk) && DirBlockOK(v.disk, blk) && Sound(v.disk[blk], at)
    requires Reaches(v.disk[blk], 0, at) && Live(v.disk[blk], at) && !IsDot(bi, at)
    requires DeleteCodeAt(v, q, blk, at, stack) == 0 && Holds(v, fs, {}, {})
    ensures DeletedAt(v, DeleteAt(v, q, blk, at, stack).v, fs, q, bi, blk, at, EntInode(v.disk[blk], at), stack)
  {
    hide DeleteAt, IsDot, Sound, Meta, Reaches, Live, NameAt, Holds, EntriesBefore, OneBlock, Remove, Previous, EntryAt,
      DirEmpty, DeallocNode, Sync, Chain;
    FoundEntry(v, fs, q.parent, bi, blk, at);
    EntryFields(v.disk[blk], at);
    DeleteTypes(v, fs, q, bi, blk, at, stack);
    DeleteOneBlock(v, fs, q, blk, at, stack);
    DeletedDirEmpty(v, q, blk, at, stack);
  }

  /** Where the entry sat that a successful `delete` removed. */
  lemma DeleteRemoving(v: Volume, fs: FS, q: Request, stack: u32) returns (bi: nat, blk: nat, at: nat)
    requires ValidRequest(q) && ParentOK(v, q) && DeleteSafe(v, q) && DeleteCode(v, q, stack) == 0 && Inv(v, fs)
    ensures DeletedAt(v, DeleteOp(v, q, stack).v, fs, q, bi, blk, at, Target(v, q), stack)
  {
    hide Inv, DirOK, IsDirMode, FindEntry, DeleteAt, FoundRecord, DirBlockOK, IsDot, FirstAt, Node, Blocks, Sound,
      Listing, Meta, Reaches, Live, NameAt, Holds, DeletedAt;
    var n, k := ParentNode(v, q), q.parent;
    FindsTarget(v, q, stack);
    DeleteScan(v, fs, q);
    FindEntrySound(v.disk, n, 0, q.name);
    match FindEntry(v.disk, n, 0, q.name)
    case Place(bj, at') =>
      bi, at := bj, at';
      blk := fs.tree[k][bi];
      FoundParts(v.disk, blk, at, q.name);
      InvParts(v, fs);
      RemovingAt(v, fs, q, bi, blk, at, stack);
    case Nowhere =>
  }

  lemma FindsTarget(v: Volume, q: Request, stack: u32)
    requires ValidRequest(q) && ParentOK(v, q) && DeleteCode(v, q, stack) == 0
    ensures q.parent != 0 && IsDirMode(ParentNode(v, q).mode) && FindEntry(v.disk, ParentNode(v, q), 0, q.name).Place?
  {
    hide IsDirMode, Node, FindEntry, DeleteAt, FoundRecord, Chain;
    if q.parent != 0 && IsDirMode(ParentNode(v, q).mode) { FindEntrySound(v.disk, ParentNode(v, q), 0, q.name); }
  }

  lemma DeletedDirEmpty(v: Volume, q: Request, blk: nat, at: nat, stack: u32)
    requires DirBlockOK(v.disk, blk) && Sound(v.disk[blk], at) && DeleteCodeAt(v, q, blk, at, stack) == 0
    ensures ValidInode(EntInode(v.disk[blk], at)) && (q.isDir ==> DirEmpty(v, EntInode(v.disk[blk], at), stack))
    ensures DeleteAt(v, q, blk, at, stack).v ==
      Sync(PutBlock(DeallocNode(v, EntInode(v.disk[blk], at)), blk,
        Remove(v.disk[blk], at, Previous(v.disk[blk], 0, 512, at))))
  {
    hide Chain, DirEmpty, Remove, Previous, DeallocNode, Sync;
  }

  lemma DeletedSane(v: Volume, fs: FS, depth: map<nat, nat>, q: Request, stack: u32) returns (fs': FS)
    requires ValidRequest(q) && ParentOK(v, q) && DeleteSafe(v, q) && LeavesNoOrphans(v, q)
    requires DeleteCode(v, q, stack) == 0
    requires Sane(v, fs, depth)
    ensures Sane(DeleteOp(v, q, stack).v, fs', depth) && fs' == Without(fs, Target(v, q))
  {
    hide Inv, TreeOK, DirsCounted, DeleteOp, DeleteSafe, ParentOK, Removing, NoChildren, Target, Node, NothingBeyond,
      DirEmpty, Carried, NamesIn, FirstNamed, Without;
    var ino := Target(v, q);
    var bi, blk, at := DeleteRemoving(v, fs, q, stack);
    if q.isDir { EmptyHasNoChildren(v, fs, ino, stack); } else { FileHasNoChildren(v.disk, fs, ino); }
    var v' := DeleteOp(v, q, stack).v;
    DeleteCarried(v, v', fs, q.parent, bi, blk, at, ino);
    var e, i;
    fs', e, i := DeleteKeepsDirCounts(v, fs, q, stack);
    WithoutMaps(fs, ino);
    PrunedTree(v.disk, v'.disk, fs, fs', depth);
  }

  lemma FileHasNoChildren(d: Disk, fs: FS, ino: nat)
    requires !IsDirectory(fs, ino)
    ensures NoChildren(d, fs, ino)
  {}

  /** Every safe `delete` that leaves no orphans keeps everything; a refusal changes nothing. */
  lemma DeleteKeepsSane(v: Volume, fs: FS, depth: map<nat, nat>, q: Request, stack: u32) returns (fs': FS)
    requires ValidRequest(q) && ParentOK(v, q) && DeleteSafe(v, q) && LeavesNoOrphans(v, q) && Sane(v, fs, depth)
    ensures Sane(DeleteOp(v, q, stack).v, fs', depth)
    ensures DeleteCode(v, q, stack) != 0 ==> DeleteOp(v, q, stack).v == v
  {
    hide Inv, TreeOK, DirsCounted, DeleteOp, DeleteSafe, ParentOK, LeavesNoOrphans;
    if DeleteCode(v, q, stack) == 0 {
      fs' := DeletedSane(v, fs, depth, q, stack);
    } else {
      fs' := fs;
      var fs1 := DeleteKeepsInv(v, fs, q, stack);
    }
  }

  // ----- runs -----

  lemma FreshTree(d: Disk, signature: Block)
    ensures TreeOK(CreateExt2(d, signature), FreshFS(), map[1 := 0])
  {
    hide CreateExt2, NewDirBlock, Entries, Chain;
    FormattedAt(d, signature, 21);
    UpOfNewDir(1, 1);
    assert Up(CreateExt2(d, signature), FreshFS(), 1) == 1;
    assert UpOK(CreateExt2(d, signature), FreshFS(), map[1 := 0], 1);
  }

  /** Formatting gives a volume with one directory, the root, its own parent. */
  lemma FreshSane(d: Disk, signature: Block)
    requires Blank(d)
    ensures Sane(Mount(CreateExt2(d, signature)), FreshFS(), map[1 := 0])
  {
    hide CreateExt2, Inv, TreeOK, FreshTable, DirsCounted, Blank;
    FormatIsSound(d, signature);
    FreshTree(d, signature);
    FreshDirCounts();
    FreshCaches(d, signature);
  }

  datatype Op = WriteCall(q: Request) | DeleteCall(q: Request, stack: u32)

  function Apply(v: Volume, op: Op): Volume {
    if !ValidRequest(op.q) || !ParentOK(v, op.q) then v
    else match op
      case WriteCall(q) => WriteOp(v, q).v
      case DeleteCall(q, stack) => DeleteOp(v, q, stack).v
  }

  /** What a caller must check before each operation. */
  predicate SafeOp(v: Volume, op: Op) {
    ValidRequest(op.q) && (ParentOK(v, op.q) ==>
      if op.WriteCall? then WriteSafe(v, op.q) else DeleteSafe(v, op.q) && LeavesNoOrphans(v, op.q))
  }

  function Run(v: Volume, ops: seq<Op>): Volume
    decreases |ops|
  {
    if ops == [] then v else Run(Apply(v, ops[0]), ops[1..])
  }

  predicate SafeRun(v: Volume, ops: seq<Op>)
    decreases |ops|
  {
    ops == [] || (SafeOp(v, ops[0]) && SafeRun(Apply(v, ops[0]), ops[1..]))
  }

  lemma {:induction false} RunKeepsSane(v: Volume, fs: FS, depth: map<nat, nat>, ops: seq<Op>)
    returns (fs': FS, depth': map<nat, nat>)
    requires Sane(v, fs, depth) && SafeRun(v, ops)
    ensures Sane(Run(v, ops), fs', depth')
    decreases |ops|
  {
    hide Sane, WriteOp, DeleteOp, WriteSafe, DeleteSafe, LeavesNoOrphans, ParentOK;
    fs', depth' := fs, depth;
    if ops != [] {
      var op := ops[0];
      SaneParentOK(v, fs, depth, op.q);
      var fs1, depth1 := fs, depth;
      match op {
        case WriteCall(q) => fs1, depth1 := WriteKeepsSane(v, fs, depth, q);
        case DeleteCall(q, stack) => fs1 := DeleteKeepsSane(v, fs, depth, q, stack);
      }
      fs', depth' := RunKeepsSane(Apply(v, op), fs1, depth1, ops[1..]);
    }
  }

  lemma SaneParentOK(v: Volume, fs: FS, depth: map<nat, nat>, q: Request)
    requires Sane(v, fs, depth) && ValidRequest(q)
    ensures ParentOK(v, q)
  {
    hide Inv, TreeOK, DirsCounted, ParentOK;
    InvParentOK(v, fs, q);
  }

  /** Safety over whole runs, from a blank image on. */
  lemma ReachableIsSane(d: Disk, signature: Block, ops: seq<Op>) returns (fs: FS, depth: map<nat, nat>)
    requires Blank(d) && SafeRun(Mount(CreateExt2(d, signature)), ops)
    ensures Sane(Run(Mount(CreateExt2(d, signature)), ops), fs, depth)
  {
    hide Sane, SafeRun, Run, Blank, CreateExt2;
    FreshSane(d, signature);
    fs, depth := RunKeepsSane(Mount(CreateExt2(d, signature)), FreshFS(), map[1 := 0], ops);
  }

  // ----- what that means, in the terms of the volume alone -----

  /** Remounting any reached volume gives the same state back, caches included. */
  lemma RemountIsIdentity(d: Disk, signature: Block, ops: seq<Op>)
    requires Blank(d) && SafeRun(Mount(CreateExt2(d, signature)), ops)
    ensures Mount(Run(Mount(CreateExt2(d, signature)), ops).disk) == Run(Mount(CreateExt2(d, signature)), ops)
  {
    hide SafeRun, Run, Blank, CreateExt2, Synced, Holds, TreeOK, DirsCounted;
    var fs, depth := ReachableIsSane(d, signature, ops);
    var v := Run(Mount(CreateExt2(d, signature)), ops);
    RemountIsInvisible(v.disk, v.sb, v.bgdt);
  }

  /**
   * In every reached volume the group counters are the numbers of clear bits, the superblock's free inodes are their
   * sum, and its free blocks exceed theirs by the constant fixed at formatting.
   */
  lemma CountersAreTrue(d: Disk, signature: Block, ops: seq<Op>)
    requires Blank(d) && SafeRun(Mount(CreateExt2(d, signature)), ops)
    ensures var v := Run(Mount(CreateExt2(d, signature)), ops);
      && GroupCounts(v.disk, v.bgdt)
      && v.sb.freeBlocks == SumFreeBlocks(v.bgdt) + 6144 && v.sb.freeInodes == SumFreeInodes(v.bgdt)
  {
    hide SafeRun, Run, Blank, CreateExt2, Synced, TreeOK, DirsCounted, MetaUsed, InodesOK, OwnersOK, ContentsOK,
      NamesOK, GroupCounts, Geometry, SumFreeBlocks, SumFreeInodes;
    var fs, depth := ReachableIsSane(d, signature, ops);
  }
}
