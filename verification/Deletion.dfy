/** `delete`: giving an inode back keeps the volume sound. */
module Deletion {
  import opened Bytes
  import opened Layout
  import opened Metadata
  import opened Volume
  import opened FileTree
  import opened Accounting
  import opened Reclaim
  import opened Directory
  import opened Operations
  import opened Invariant
  import opened Creation
  import opened Naming
  import opened Writing

  // ----- the abstract effect -----

  function Without(fs: FS, ino: nat): FS {
    FS(fs.tree - {ino}, map m | m in fs.owner && fs.owner[m].0 != ino :: fs.owner[m], fs.data - {ino}, fs.home - {ino})
  }

  /** Where each block of inode `ino` sits in its tree. */
  function PosOf(fs: FS, ino: nat): map<nat, nat> {
    map m | m in fs.owner && fs.owner[m].0 == ino :: fs.owner[m].1
  }

  lemma PosInverts(d: Disk, fs: FS, loose: set<nat>, ino: nat)
    requires OwnersOK(d, fs, loose) && ino in fs.tree
    ensures Inverse(fs.tree[ino], PosOf(fs, ino))
    ensures forall i :: 0 <= i < |fs.tree[ino]| ==> fs.tree[ino][i] < 2048 && Used(d, fs.tree[ino][i])
  {
    hide Used, Meta;
    var a, pos := fs.tree[ino], PosOf(fs, ino);
    assert Owns(fs, ino);
    forall m | m in pos ensures pos[m] < |a| && a[pos[m]] == m { assert OwnedAt(fs, m); }
  }

  /** How the disk changed while inode `ino` and its blocks were given back. */
  ghost predicate Dropping(d: Disk, d': Disk, ino: nat, pos: map<nat, nat>) {
    && ValidInode(ino)
    && (forall k {:trigger InodeUsed(d', k)} :: ValidInode(k) ==> (InodeUsed(d', k) <==> InodeUsed(d, k) && k != ino))
    && (forall k {:trigger Node(d', k)} :: ValidInode(k) ==>
         Node(d', k) == if k == ino then ZeroInode() else Node(d, k))
    && (forall m {:trigger Used(d', m)} :: 0 <= m < 2048 ==> (Used(d', m) <==> Used(d, m) && m !in pos))
    && SameData(d, d') && OneSlot(d, d', ino) && Untouched(d, d')
  }

  lemma DropInodes(d: Disk, d': Disk, fs: FS, ino: nat, pos: map<nat, nat>)
    requires InodesOK(d, fs) && Dropping(d, d', ino, pos) && ino in fs.tree && ino != 1
    ensures InodesOK(d', Without(fs, ino))
  {
    hide InodeUsed, Used, Node, Meta, OneSlot, Untouched;
  }

  lemma DropOwners(d: Disk, d': Disk, fs: FS, loose: set<nat>, ino: nat)
    requires OwnersOK(d, fs, loose) && Dropping(d, d', ino, PosOf(fs, ino)) && ino in fs.tree
    ensures OwnersOK(d', Without(fs, ino), loose)
  {
    hide InodeUsed, Used, Node, Meta, OneSlot, Untouched, SameData;
    var fs' := Without(fs, ino);
    forall m | m in fs'.owner ensures OwnedAt(fs', m) { assert OwnedAt(fs, m); }
    forall k | k in fs'.tree ensures Owns(fs', k) { assert Owns(fs, k); }
  }

  lemma DropContents(d: Disk, d': Disk, fs: FS, ino: nat, pos: map<nat, nat>)
    requires ContentsOK(d, fs) && Dropping(d, d', ino, pos) && ino in fs.tree
    ensures ContentsOK(d', Without(fs, ino))
  {
    hide InodeUsed, Used, Node, FileOK, DirectoryOK, OneSlot, Untouched, InRange;
    var fs' := Without(fs, ino);
    forall k | k in fs'.tree ensures ContentOK(d', fs', k) {
      assert ContentOK(d, fs, k);
      ContentInRange(d, fs, k);
      DataAreaKept(d, d', fs.tree[k]);
      ContentSame(d, d', fs, k);
    }
  }

  /** Only the entry in the gap may name the inode that goes. */
  ghost predicate GapNames(fs: FS, ino: nat, gap: set<(nat, nat)>) {
    ino in fs.home ==> fs.home[ino] in gap
  }

  lemma DropNames(d: Disk, d': Disk, fs: FS, gap: set<(nat, nat)>, ino: nat, pos: map<nat, nat>)
    requires NamesOK(d, fs, gap) && ContentsOK(d, fs) && Dropping(d, d', ino, pos) && ino in fs.tree
    requires GapNames(fs, ino, gap)
    ensures NamesOK(d', Without(fs, ino), gap)
  {
    hide InodeUsed, Used, Node, ContentOK, OneSlot, Untouched, BlockNamesOK;
    var fs' := Without(fs, ino);
    forall k | k in fs'.tree && k !in fs'.data ensures DirNamesOK(d', fs', gap, k) {
      assert DirNamesOK(d, fs, gap, k) && ContentOK(d, fs, k);
      ContentInRange(d, fs, k);
      forall i | 0 <= i < |fs.tree[k]|
        ensures BlockNamesOK(d'[fs.tree[k][i]], fs', fs.tree[k][i], Skip(i), gap)
      {
        DropBlockNames(d[fs.tree[k][i]], fs, fs.tree[k][i], Skip(i), gap, ino);
      }
    }
  }

  lemma DropBlockNames(b: Block, fs: FS, m: nat, skip: nat, gap: set<(nat, nat)>, ino: nat)
    requires BlockNamesOK(b, fs, m, skip, gap) && GapNames(fs, ino, gap)
    ensures BlockNamesOK(b, Without(fs, ino), m, skip, gap)
  {
    hide Chain, Entries;
  }

  // ----- the steps of `deallocate_node` -----

  lemma ReleaseInodeSpec(v: Volume, ino: nat)
    requires Counted(v) && ValidInode(ino) && InodeUsed(v.disk, ino)
    ensures var v' := ReleaseInode(v, ino);
      && Counted(v') && SameTables(v.disk, v'.disk) && SameBlockBitmaps(v.disk, v'.disk) && SameData(v.disk, v'.disk)
      && (forall k :: ValidInode(k) ==> (InodeUsed(v'.disk, k) <==> InodeUsed(v.disk, k) && k != ino))
      && Untouched(v.disk, v'.disk)
  {
    hide Counted, InodeUsed, Untouched;
    UntouchedInodeMark(v.disk, ino);
    CountedAfterReleaseInode(v, ino);
    InodeMarkFrame(v.disk, ino);
    forall k | ValidInode(k) ensures InodeUsed(ReleaseInode(v, ino).disk, k) <==> InodeUsed(v.disk, k) && k != ino {
      InodeUsedAfterMark(v.disk, ino, k);
    }
  }

  lemma UntouchedGiving(w: Volume, v: Volume, a: seq<nat>, pos: map<nat, nat>, done: set<nat>)
    requires Giving(w, v, a, pos, done)
    ensures Untouched(v.disk, w.disk)
  {
    hide Bit, Counted, MetaUsed, Used;
    forall g | 0 <= g < 8 ensures SameBeyond(v.disk[BlockBitmap(g)], w.disk[BlockBitmap(g)], 256) {
      assert BitsRemoved(v.disk[BlockBitmap(g)], w.disk[BlockBitmap(g)], g, pos, done);
    }
  }

  lemma GivingFrame(w: Volume, v: Volume, a: seq<nat>, pos: map<nat, nat>)
    requires Giving(w, v, a, pos, Span(0, |a|))
    ensures SameTables(v.disk, w.disk) && SameInodeBitmaps(v.disk, w.disk) && SameData(v.disk, w.disk)
    ensures forall m :: 0 <= m < 2048 ==> (Used(w.disk, m) <==> Used(v.disk, m) && m !in pos)
    ensures Counted(w) && MetaUsed(w.disk) && Untouched(v.disk, w.disk)
  {
    hide Untouched, Used, Counted, BitsRemoved, OnlyFreeBlocks, MetaUsed, SameTables, SameInodeBitmaps, SameData,
      Inverse;
    UntouchedGiving(w, v, a, pos, Span(0, |a|));
    BitmapsAlone(v.disk, w.disk);
    forall m | 0 <= m < 2048 ensures Used(w.disk, m) <==> Used(v.disk, m) && m !in pos {
      UsedAfterGave(v.disk, w.disk, a, pos, Span(0, |a|), m);
      if m in pos { InSpan(a, pos, m); }
    }
  }

  lemma BitmapsAlone(d: Disk, d': Disk)
    requires forall m :: 0 <= m < 8192 && !IsBlockBitmap(m) ==> d'[m] == d[m]
    ensures SameTables(d, d') && SameInodeBitmaps(d, d') && SameData(d, d')
  {}

  lemma InSpan(a: seq<nat>, pos: map<nat, nat>, m: nat)
    requires Inverse(a, pos) && m in pos
    ensures pos[m] in Span(0, |a|)
  {}

  lemma DroppingSteps(d: Disk, d1: Disk, d2: Disk, d3: Disk, d4: Disk, ino: nat, pos: map<nat, nat>)
    requires ValidInode(ino)
    requires SameTables(d, d1) && SameInodeBitmaps(d, d1) && SameData(d, d1)
    requires forall m :: 0 <= m < 2048 ==> (Used(d1, m) <==> Used(d, m) && m !in pos)
    requires forall k :: ValidInode(k) ==> Node(d2, k) == if k == ino then ZeroInode() else Node(d1, k)
    requires SameInodeBitmaps(d1, d2) && SameBlockBitmaps(d1, d2) && SameData(d1, d2) && OneSlot(d1, d2, ino)
    requires SameTables(d2, d3) && SameBlockBitmaps(d2, d3) && SameData(d2, d3)
    requires forall k :: ValidInode(k) ==> (InodeUsed(d3, k) <==> InodeUsed(d2, k) && k != ino)
    requires SameTables(d3, d4) && SameInodeBitmaps(d3, d4) && SameBlockBitmaps(d3, d4) && SameData(d3, d4)
    requires Untouched(d, d1) && Untouched(d1, d2) && Untouched(d2, d3) && Untouched(d3, d4)
    ensures Dropping(d, d4, ino, pos)
  {
    hide Node, Used, InodeUsed, SameTables, SameInodeBitmaps, SameBlockBitmaps, MetaUsed, OneSlot, Untouched, SameData;
    NodesSame(d, d1);
    NodesSame(d2, d3);
    NodesSame(d3, d4);
    InodeBitsSame(d, d1);
    InodeBitsSame(d1, d2);
    InodeBitsSame(d3, d4);
    BlockBitsSame(d1, d2);
    BlockBitsSame(d2, d3);
    BlockBitsSame(d3, d4);
    SameDataTransitive(d, d1, d2);
    SameDataTransitive(d, d2, d3);
    SameDataTransitive(d, d3, d4);
    OneSlotAround(d, d1, d2, d3, d4, ino);
    UntouchedTransitive(d, d1, d2);
    UntouchedTransitive(d, d2, d3);
    UntouchedTransitive(d, d3, d4);
  }

  lemma OneSlotAround(d: Disk, d1: Disk, d2: Disk, d3: Disk, d4: Disk, ino: nat)
    requires ValidInode(ino) && SameTables(d, d1) && OneSlot(d1, d2, ino) && SameTables(d2, d3) && SameTables(d3, d4)
    ensures OneSlot(d, d4, ino)
  {
    hide IsTable, PutInode, Node;
    TableApart(ino);
    NodesSame(d2, d3);
    NodesSame(d3, d4);
  }

  /** `deallocate_node` gives back exactly the inode and the blocks of its tree. */
  lemma DeallocNodeSpec(v: Volume, fs: FS, loose: set<nat>, gap: set<(nat, nat)>, ino: nat)
    requires Holds(v, fs, loose, gap) && ino in fs.tree && ValidInode(ino)
    ensures var v' := DeallocNode(v, ino);
      Dropping(v.disk, v'.disk, ino, PosOf(fs, ino)) && Counted(v') && MetaUsed(v'.disk)
  {
    hide Counted, MetaUsed, InodeUsed, Used, Node, Giving, FreeTree, Sync, SameTables, SameInodeBitmaps,
      SameBlockBitmaps, SameData, Inverse, Synced, Dropping, SyncNode, ReleaseInode, Lays, InodesOK, OwnersOK,
      ContentsOK, NamesOK, OneSlot, Untouched, WithUsedDirs;
    var node, g, a, pos := Node(v.disk, ino), InodeToBgd(ino), fs.tree[ino], PosOf(fs, ino);
    MetadataInRange(ino);
    PosInverts(v.disk, fs, loose, ino);
    AllocatedLays(v.disk, fs, ino);
    var v1 := if IsDirMode(node.mode) && v.bgdt[g].usedDirs > 0 then WithUsedDirs(v, g, v.bgdt[g].usedDirs - 1) else v;
    if v.bgdt[g].usedDirs > 0 { UsedDirsSpec(v, g, v.bgdt[g].usedDirs - 1); }
    FreeTreeSpec(v1, node, a, pos);
    var w := FreeTree(v1, node);
    GivingFrame(w, v1, a, pos);
    var x := SyncNode(w, ino, ZeroInode());
    SyncNodeSpec(w, ino, ZeroInode());
    InodeBitsSame(v1.disk, w.disk);
    InodeBitsSame(w.disk, x.disk);
    ReleaseInodeSpec(x, ino);
    var y := ReleaseInode(x, ino);
    SyncSpec(y);
    SameDataSync(y);
    BlockBitsSame(w.disk, x.disk);
    BlockBitsSame(x.disk, y.disk);
    BlockBitsSame(y.disk, Sync(y).disk);
    DroppingSteps(v1.disk, w.disk, x.disk, y.disk, Sync(y).disk, ino, pos);
  }

  lemma AllocatedLays(d: Disk, fs: FS, ino: nat)
    requires ContentsOK(d, fs) && InodesOK(d, fs) && ino in fs.tree
    ensures ValidInode(ino) && Lays(d, Node(d, ino), fs.tree[ino]) && InodeUsed(d, ino)
  {
    hide Node, InodeUsed, Lays, DataOn, Chain, Entries;
    assert ContentOK(d, fs, ino);
  }

  lemma DeallocHolds(v: Volume, fs: FS, loose: set<nat>, gap: set<(nat, nat)>, ino: nat)
    requires ino in fs.tree && ValidInode(ino) && ino != 1 && GapNames(fs, ino, gap)
    requires Holds(v, fs, loose, gap)
    ensures Holds(DeallocNode(v, ino), Without(fs, ino), loose, gap)
    ensures Dropping(v.disk, DeallocNode(v, ino).disk, ino, PosOf(fs, ino))
  {
    hide InodesOK, OwnersOK, ContentsOK, NamesOK, Dropping, Counted, MetaUsed, DeallocNode, GapNames;
    DeallocNodeSpec(v, fs, loose, gap, ino);
    var d' := DeallocNode(v, ino).disk;
    DropInodes(v.disk, d', fs, ino, PosOf(fs, ino));
    DropOwners(v.disk, d', fs, loose, ino);
    DropContents(v.disk, d', fs, ino, PosOf(fs, ino));
    DropNames(v.disk, d', fs, gap, ino, PosOf(fs, ino));
  }

  // ----- the whole operation -----

  /** "." and ".." are the records at 0 and 12 of a directory's first block. */
  predicate IsDot(bi: nat, at: nat) { bi == 0 && (at == 0 || at == 12) }

  lemma BehindDots(b: Block, k: nat, p: nat)
    requires Dots(b, k) && Reaches(b, 0, p) && p != 0 && p != 12
    ensures |EntriesBefore(b, 0, p)| >= 2
  {
    hide U16At, U32At, SlackZero, Dots;
    DotsHead(b, k);
    SecondLive(b, k);
  }

  lemma SecondLive(b: Block, k: nat)
    requires Dots(b, k)
    ensures Sound(b, 0) && RecLen(b, 0) == 12 && Chain(b, 12) && Live(b, 12)
  {
    hide U16At, U32At, SlackZero;
    DotsHead(b, k);
  }

  lemma GapWider(v: Volume, fs: FS, loose: set<nat>, gap: set<(nat, nat)>)
    requires Holds(v, fs, loose, {})
    ensures Holds(v, fs, loose, gap)
  {
    hide Counted, MetaUsed, InodesOK, OwnersOK, ContentsOK, Chain, Entries;
    forall k | k in fs.tree && k !in fs.data ensures DirNamesOK(v.disk, fs, gap, k) {
      assert DirNamesOK(v.disk, fs, {}, k);
      forall i | 0 <= i < |fs.tree[k]|
        ensures fs.tree[k][i] < 2048 && BlockNamesOK(v.disk[fs.tree[k][i]], fs, fs.tree[k][i], Skip(i), gap)
      {
        assert BlockNamesOK(v.disk[fs.tree[k][i]], fs, fs.tree[k][i], Skip(i), {});
      }
    }
  }

  /** A data-area block that nobody owns may be written, and an entry in it is no gap. */
  lemma PutFreeHolds(v: Volume, fs: FS, m: nat, p: nat, x: Block)
    requires Holds(v, fs, {}, {(m, p)}) && 21 <= m < 2048 && !Meta(m) && m !in fs.owner
    ensures Holds(PutBlock(v, m, x), fs, {}, {})
  {
    hide Counted, MetaUsed, Used, InodeUsed, Node, ContentOK, BlockNamesOK, Meta;
    var d' := v.disk[m := x];
    ReplacedMeta(v, m, x);
    NodesUntouched(v.disk, m, x);
    forall k | k in fs.tree ensures ContentOK(d', fs, k) && (k !in fs.data ==> DirNamesOK(d', fs, {}, k)) {
      assert ContentOK(v.disk, fs, k) && Owns(fs, k);
      ContentInRange(v.disk, fs, k);
      assert forall q :: 0 <= q < |fs.tree[k]| ==> fs.tree[k][q] != m;
      KeptApart(v.disk, m, x, fs.tree[k]);
      ContentSame(v.disk, d', fs, k);
      if k !in fs.data {
        assert DirNamesOK(v.disk, fs, {(m, p)}, k);
        forall i | 0 <= i < |fs.tree[k]|
          ensures fs.tree[k][i] < 2048 && BlockNamesOK(d'[fs.tree[k][i]], fs, fs.tree[k][i], Skip(i), {})
        {
          HomesGrown(v.disk[fs.tree[k][i]], fs, fs, fs.tree[k][i], Skip(i), {(m, p)}, {});
        }
      }
    }
    OtherHomes(v.disk, d', fs, fs, {});
  }

  /** The entry a request finds, away from the dots, is sound. */
  lemma FoundEntry(v: Volume, fs: FS, k: nat, bi: nat, blk: nat, at: nat)
    requires Holds(v, fs, {}, {}) && IsDirBlock(fs, k, bi, blk) && DirBlockOK(v.disk, blk)
    requires Reaches(v.disk[blk], 0, at) && Live(v.disk[blk], at) && !IsDot(bi, at)
    ensures EntryOK(fs, blk, EntryAt(v.disk[blk], at)) && Skip(bi) <= |EntriesBefore(v.disk[blk], 0, at)|
    ensures fs.owner.Keys >= {blk} && fs.owner[blk] == (k, bi) && 21 <= blk && !Meta(blk)
  {
    hide Holds, Chain, Entries, EntriesBefore, Reaches, Live, EntryOK, Dots, EntryAt;
    var b := v.disk[blk];
    DirBlockFacts(v, fs, {}, {}, k, bi, blk);
    if bi == 0 { BehindDots(b, k, at); }
    RecordInList(b, at);
    assert Entries(b, 0)[|EntriesBefore(b, 0, at)|] == EntryAt(b, at);
  }

  lemma RecordInList(b: Block, p: nat)
    requires Chain(b, 0) && Reaches(b, 0, p) && Live(b, p)
    ensures ListSplit(b, p) && |EntriesBefore(b, 0, p)| < |Entries(b, 0)|
    ensures Entries(b, 0)[|EntriesBefore(b, 0, p)|] == EntryAt(b, p)
  {
    hide Entries, EntriesBefore, EntryAt, U16At, U32At;
    EntriesSplit(b, 0, p);
    ChainHead(b, p);
  }

  lemma DeleteAtHolds(v: Volume, fs: FS, q: Request, bi: nat, blk: nat, at: nat, stack: u32)
    requires DirBlockOK(v.disk, blk) && Reaches(v.disk[blk], 0, at) && Live(v.disk[blk], at) && !IsDot(bi, at)
    requires Inv(v, fs) && IsDirBlock(fs, q.parent, bi, blk)
    ensures var out, ino := DeleteAt(v, q, blk, at, stack), EntInode(v.disk[blk], at);
      if out.code == 0 then ino in fs.tree && fs.home.Keys >= {ino} && fs.home[ino] == (blk, at) &&
        Inv(out.v, Without(fs, ino))
      else out.v == v
  {
    hide Holds, Chain, Reaches, Live, Remove, DeallocNode, Sync, Synced, Previous, EntriesBefore, DirEmpty, Without,
      Meta, Dropping, RecLen, NameLen, SlackZero;
    var b := v.disk[blk];
    var ino := EntInode(b, at);
    FoundEntry(v, fs, q.parent, bi, blk, at);
    var out := DeleteAt(v, q, blk, at, stack);
    if out.code == 0 {
      var gap, fs' := {(blk, at)}, Without(fs, ino);
      GapWider(v, fs, {}, gap);
      DeallocHolds(v, fs, {}, gap, ino);
      var v2 := DeallocNode(v, ino);
      var x := Remove(b, at, Previous(b, 0, 512, at));
      assert v2.disk[blk] == b by { DroppedData(v.disk, v2.disk, ino, PosOf(fs, ino), blk); }
      WithoutDirs(fs, ino, q.parent, bi, blk);
      if q.parent != ino {
        RemoveHolds(v2, fs', {}, q.parent, bi, blk, at);
      } else {
        PutFreeHolds(v2, fs', blk, at, x);
      }
      HoldsAfterSync(PutBlock(v2, blk, x), fs', {}, {});
    }
  }

  lemma DroppedData(d: Disk, d': Disk, ino: nat, pos: map<nat, nat>, m: nat)
    requires Dropping(d, d', ino, pos) && 21 <= m < 2048 && !Meta(m)
    ensures d'[m] == d[m]
  {
    hide InodeUsed, Used, Node, OneSlot, Untouched;
  }

  lemma WithoutDirs(fs: FS, ino: nat, k: nat, i: nat, blk: nat)
    requires IsDirBlock(fs, k, i, blk) && blk in fs.owner && fs.owner[blk] == (k, i)
    ensures k != ino ==> IsDirBlock(Without(fs, ino), k, i, blk)
    ensures k == ino ==> blk !in Without(fs, ino).owner
  {}

  /** Whether the name a request deletes is "." or ".." of its directory. */
  predicate DeleteSafe(v: Volume, q: Request)
    requires ValidRequest(q) && ParentOK(v, q)
  {
    q.parent == 0 || !IsDirMode(ParentNode(v, q).mode) ||
    match FindEntry(v.disk, ParentNode(v, q), 0, q.name)
    case Nowhere => true
    case Place(bi, at) => !IsDot(bi, at)
  }

  /** Deleting anything but the dots keeps the volume sound; a refusal changes nothing. */
  lemma DeleteKeepsInv(v: Volume, fs: FS, q: Request, stack: u32) returns (fs': FS)
    requires Inv(v, fs) && ValidRequest(q) && ParentOK(v, q) && DeleteSafe(v, q)
    ensures Inv(DeleteOp(v, q, stack).v, fs')
    ensures DeleteCode(v, q, stack) != 0 ==> DeleteOp(v, q, stack).v == v && fs' == fs
    ensures DeleteCode(v, q, stack) == 0 ==> exists ino :: ino in fs.tree && fs' == Without(fs, ino)
  {
    hide Inv, DirOK, IsDirMode, FindEntry, DeleteAt, FoundRecord, DirBlockOK, Without, IsDot;
    fs' := fs;
    if q.parent != 0 && IsDirMode(ParentNode(v, q).mode) {
      var n := ParentNode(v, q);
      DirectoryFound(v, fs, q.parent);
      FindEntrySound(v.disk, n, 0, q.name);
      match FindEntry(v.disk, n, 0, q.name)
      case Nowhere =>
      case Place(bi, at) =>
        var blk := fs.tree[q.parent][bi];
        FoundParts(v.disk, blk, at, q.name);
        DeleteAtHolds(v, fs, q, bi, blk, at, stack);
        if DeleteCodeAt(v, q, blk, at, stack) == 0 { fs' := Without(fs, EntInode(v.disk[blk], at)); }
    }
  }

  lemma FoundParts(d: Disk, blk: nat, at: nat, name: Name)
    requires DirBlockOK(d, blk) && FoundRecord(d[blk], 0, at, name)
    ensures 0 < blk < 2048 && Fits(at)
    ensures Reaches(d[blk], 0, at) && Live(d[blk], at) && Sound(d[blk], at) && NameAt(d[blk], at) == name
  {}
}
