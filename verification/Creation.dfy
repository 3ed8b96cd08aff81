/** Creating inodes: from a sound volume to a sound volume in which the new inode exists but is not named yet. */
module Creation {
  import opened Bytes
  import opened Options
  import opened Layout
  import opened Metadata
  import opened Volume
  import opened FileTree
  import opened Accounting
  import opened Allocation
  import opened Directory
  import opened Operations
  import opened Invariant

  /** Inode `ino` comes to own the blocks `a`; `data` when it is a regular file. */
  function Adopt(fs: FS, ino: nat, a: seq<nat>, pos: map<nat, nat>, content: Option<seq<byte>>): FS {
    FS(fs.tree[ino := a], fs.owner + map m | m in pos :: (ino, pos[m]),
       if content.Some? then fs.data[ino := content.value] else fs.data, fs.home)
  }

  /** How the disk changed while inode `ino` and the blocks in `pos` were taken. */
  ghost predicate Adopting(d: Disk, d': Disk, ino: nat, pos: map<nat, nat>) {
    && ValidInode(ino)
    && (forall k {:trigger InodeUsed(d', k)} :: ValidInode(k) ==> (InodeUsed(d', k) <==> InodeUsed(d, k) || k == ino))
    && (forall k {:trigger Node(d', k)} :: ValidInode(k) && k != ino ==> Node(d', k) == Node(d, k))
    && (forall m {:trigger Used(d', m)} :: 0 <= m < 2048 ==> (Used(d', m) <==> Used(d, m) || m in pos))
    && (forall m {:trigger m in pos} :: m in pos ==> m < 2048 && !Meta(m) && !Used(d, m))
    && (forall m {:trigger d'[m]} :: 21 <= m < 2048 && !Meta(m) && m !in pos ==> d'[m] == d[m])
    && OneSlot(d, d', ino) && Untouched(d, d')
  }

  /** Of all inode-table bytes only the slot of `ino` was written. */
  ghost predicate OneSlot(d: Disk, d': Disk, ino: nat)
    requires ValidInode(ino)
  {
    && (forall m: nat {:trigger d'[m]} :: IsTable(m) && m != TableBlock(ino) ==> d'[m] == d[m])
    && SameOutside(d[TableBlock(ino)], d'[TableBlock(ino)], TableSlot(ino))
  }

  lemma AdoptInodes(d: Disk, d': Disk, fs: FS, ino: nat, a: seq<nat>, pos: map<nat, nat>, content: Option<seq<byte>>)
    requires InodesOK(d, fs) && Adopting(d, d', ino, pos) && ino !in fs.tree
    ensures InodesOK(d', Adopt(fs, ino, a, pos, content))
  {
    hide InodeUsed, Used, Node, Meta, OneSlot, Untouched;
  }

  lemma AdoptOwners(d: Disk, d': Disk, fs: FS, loose: set<nat>, ino: nat, a: seq<nat>, pos: map<nat, nat>,
                    content: Option<seq<byte>>)
    requires OwnersOK(d, fs, loose) && Adopting(d, d', ino, pos) && ino !in fs.tree && Inverse(a, pos)
    ensures OwnersOK(d', Adopt(fs, ino, a, pos, content), loose)
  {
    hide InodeUsed, Used, Node, Meta, Inverse, OwnedAt, Owns, OneSlot, Untouched;
    var fs' := Adopt(fs, ino, a, pos, content);
    forall m | m in fs'.owner ensures OwnedAt(fs', m) {
      if m in pos { AdoptedOwned(fs, ino, a, pos, content, m); } else { AdoptOwnedAt(fs, ino, a, pos, content, m); }
    }
    forall k | k in fs'.tree ensures Owns(fs', k) {
      if k == ino {
        AdoptedOwns(fs, ino, a, pos, content);
      } else {
        assert Owns(fs, k);
        AdoptOwns(fs, ino, a, pos, content, k);
      }
    }
  }

  lemma AdoptedOwned(fs: FS, ino: nat, a: seq<nat>, pos: map<nat, nat>, content: Option<seq<byte>>, m: nat)
    requires Inverse(a, pos) && m in pos
    ensures OwnedAt(Adopt(fs, ino, a, pos, content), m)
  {}

  lemma AdoptOwnedAt(fs: FS, ino: nat, a: seq<nat>, pos: map<nat, nat>, content: Option<seq<byte>>, m: nat)
    requires m in fs.owner && m !in pos && OwnedAt(fs, m) && ino !in fs.tree
    ensures OwnedAt(Adopt(fs, ino, a, pos, content), m)
  {}

  lemma AdoptedOwns(fs: FS, ino: nat, a: seq<nat>, pos: map<nat, nat>, content: Option<seq<byte>>)
    requires Inverse(a, pos)
    ensures Owns(Adopt(fs, ino, a, pos, content), ino)
  {}

  lemma AdoptOwns(fs: FS, ino: nat, a: seq<nat>, pos: map<nat, nat>, content: Option<seq<byte>>, k: nat)
    requires k in fs.tree && k != ino && Owns(fs, k) && forall m :: m in fs.owner ==> m !in pos
    ensures Owns(Adopt(fs, ino, a, pos, content), k)
  {}

  lemma OldBlocksKept(d: Disk, d': Disk, fs: FS, loose: set<nat>, ino: nat, pos: map<nat, nat>, k: nat)
    requires OwnersOK(d, fs, loose) && ContentsOK(d, fs) && Adopting(d, d', ino, pos) && k in fs.tree
    ensures InRange(fs.tree[k]) && Kept(d, d', fs.tree[k])
  {
    hide InodeUsed, Used, Node, ContentOK, OneSlot, Untouched;
    assert ContentOK(d, fs, k);
    ContentInRange(d, fs, k);
    assert Owns(fs, k);
    forall i | 0 <= i < |fs.tree[k]| ensures d'[fs.tree[k][i]] == d[fs.tree[k][i]] {
      assert fs.tree[k][i] in fs.owner;
    }
  }

  lemma AdoptContents(d: Disk, d': Disk, fs: FS, loose: set<nat>, ino: nat, a: seq<nat>, pos: map<nat, nat>,
                      content: Option<seq<byte>>)
    requires OwnersOK(d, fs, loose) && ContentsOK(d, fs) && Adopting(d, d', ino, pos)
    requires ino !in fs.tree && InodesOK(d, fs)
    requires ContentOK(d', Adopt(fs, ino, a, pos, content), ino)
    ensures ContentsOK(d', Adopt(fs, ino, a, pos, content))
  {
    hide InodeUsed, Used, Node, FileOK, DirectoryOK, OwnersOK;
    var fs' := Adopt(fs, ino, a, pos, content);
    forall k | k in fs'.tree ensures ContentOK(d', fs', k) {
      if k != ino {
        OldBlocksKept(d, d', fs, loose, ino, pos, k);
        assert ContentOK(d, fs, k);
        ContentSame(d, d', fs, k);
      }
    }
  }

  lemma AdoptNames(d: Disk, d': Disk, fs: FS, loose: set<nat>, gap: set<(nat, nat)>, ino: nat, a: seq<nat>,
                   pos: map<nat, nat>, content: Option<seq<byte>>)
    requires OwnersOK(d, fs, loose) && ContentsOK(d, fs) && InodesOK(d, fs) && Adopting(d, d', ino, pos)
    requires ino !in fs.tree && NamesOK(d, fs, gap)
    requires content.None? ==> |a| == 1 && a[0] < 2048 && Chain(d'[a[0]], 0) && |Entries(d'[a[0]], 0)| == 2
    ensures NamesOK(d', Adopt(fs, ino, a, pos, content), gap)
  {
    hide InodeUsed, Used, Node, ContentsOK, OwnersOK, Chain, Entries, EntryOK;
    var fs' := Adopt(fs, ino, a, pos, content);
    forall k | k in fs'.tree && k !in fs'.data ensures DirNamesOK(d', fs', gap, k) {
      if k != ino {
        OldBlocksKept(d, d', fs, loose, ino, pos, k);
        assert DirNamesOK(d, fs, gap, k);
        forall i | 0 <= i < |fs.tree[k]| ensures BlockNamesOK(d'[fs.tree[k][i]], fs', fs.tree[k][i], Skip(i), gap) {
          AdoptBlockNames(d[fs.tree[k][i]], fs, fs.tree[k][i], Skip(i), gap, ino, a, pos, content);
        }
      } else {
        assert BlockNamesOK(d'[a[0]], fs', a[0], 2, gap);
      }
    }
  }

  lemma AdoptBlockNames(b: Block, fs: FS, m: nat, skip: nat, gap: set<(nat, nat)>, ino: nat, a: seq<nat>,
                        pos: map<nat, nat>, content: Option<seq<byte>>)
    requires BlockNamesOK(b, fs, m, skip, gap) && ino !in fs.tree
    ensures BlockNamesOK(b, Adopt(fs, ino, a, pos, content), m, skip, gap)
  {
    hide Chain, Entries;
  }

  /** Adopting a fresh inode with sound content keeps the volume sound. */
  lemma AdoptHolds(v: Volume, v': Volume, fs: FS, loose: set<nat>, gap: set<(nat, nat)>, ino: nat, a: seq<nat>,
                   pos: map<nat, nat>, content: Option<seq<byte>>)
    requires Holds(v, fs, loose, gap) && Adopting(v.disk, v'.disk, ino, pos) && ino !in fs.tree && Inverse(a, pos)
    requires Counted(v') && MetaUsed(v'.disk)
    requires ContentOK(v'.disk, Adopt(fs, ino, a, pos, content), ino)
    requires content.None? ==> |a| == 1 && a[0] < 2048 && Chain(v'.disk[a[0]], 0) && |Entries(v'.disk[a[0]], 0)| == 2
    ensures Holds(v', Adopt(fs, ino, a, pos, content), loose, gap)
  {
    hide InodesOK, OwnersOK, ContentsOK, NamesOK, Adopting, Counted, MetaUsed, Inverse, Chain, Entries, ContentOK;
    AdoptInodes(v.disk, v'.disk, fs, ino, a, pos, content);
    AdoptOwners(v.disk, v'.disk, fs, loose, ino, a, pos, content);
    AdoptContents(v.disk, v'.disk, fs, loose, ino, a, pos, content);
    AdoptNames(v.disk, v'.disk, fs, loose, gap, ino, a, pos, content);
  }

  // ----- the steps of `write` that create an inode -----

  ghost predicate SameData(d: Disk, d': Disk) {
    forall m {:trigger d'[m]} :: 21 <= m < 2048 && !Meta(m) ==> d'[m] == d[m]
  }

  /** `allocate_node`: one inode bit, nothing else of interest. */
  lemma AllocNodeSpec(v: Volume, ino: nat)
    requires Counted(v) && ValidInode(ino) && !InodeUsed(v.disk, ino)
    ensures var v' := AllocNode(v, ino);
      && Counted(v') && SameTables(v.disk, v'.disk) && SameBlockBitmaps(v.disk, v'.disk) && SameData(v.disk, v'.disk)
      && (forall k :: ValidInode(k) ==> (InodeUsed(v'.disk, k) <==> InodeUsed(v.disk, k) || k == ino))
      && Synced(v'.disk, v'.sb, v'.bgdt) && Untouched(v.disk, v'.disk)
  {
    hide Counted, InodeUsed, Synced, Sync, Untouched;
    UntouchedInodeMark(v.disk, ino);
    var w := TakeInode(v, ino);
    CountedAfterTakeInode(v, ino);
    SyncSpec(w);
    UntouchedTransitive(v.disk, w.disk, Sync(w).disk);
    InodeMarkFrame(v.disk, ino);
    InodeBitsSame(w.disk, Sync(w).disk);
    forall k | ValidInode(k) ensures InodeUsed(w.disk, k) <==> InodeUsed(v.disk, k) || k == ino {
      InodeUsedAfterMark(v.disk, ino, k);
    }
  }

  lemma InodeMarkFrame(d: Disk, ino: nat)
    requires ValidInode(ino)
    ensures SameTables(d, MarkInodeUsed(d, ino)) && SameBlockBitmaps(d, MarkInodeUsed(d, ino))
    ensures SameData(d, MarkInodeUsed(d, ino))
    ensures SameTables(d, MarkInodeFree(d, ino)) && SameBlockBitmaps(d, MarkInodeFree(d, ino))
    ensures SameData(d, MarkInodeFree(d, ino))
  {
    MetadataInRange(ino);
    assert IsInodeBitmap(InodeBitmap(InodeToBgd(ino)));
  }

  /** `sync_node`: one slot. */
  lemma SyncNodeSpec(v: Volume, ino: nat, n: Inode)
    requires ValidInode(ino)
    ensures var v' := SyncNode(v, ino, n);
      && (forall k :: ValidInode(k) ==> Node(v'.disk, k) == if k == ino then n else Node(v.disk, k))
      && SameInodeBitmaps(v.disk, v'.disk) && SameBlockBitmaps(v.disk, v'.disk) && SameData(v.disk, v'.disk)
      && (Counted(v) ==> Counted(v')) && v'.disk[1] == v.disk[1] && v'.disk[2] == v.disk[2]
      && v'.sb == v.sb && v'.bgdt == v.bgdt && OneSlot(v.disk, v'.disk, ino) && Untouched(v.disk, v'.disk)
  {
    hide Node, PutInode, Untouched;
    MetadataInRange(ino);
    assert IsTable(TableBlock(ino)) by { TableApart(ino); }
    UntouchedPut(v.disk, TableBlock(ino), PutInode(v.disk[TableBlock(ino)], TableSlot(ino), n));
    var v' := SyncNode(v, ino, n);
    forall k | ValidInode(k) ensures Node(v'.disk, k) == if k == ino then n else Node(v.disk, k) {
      NodeOfPutNode(v.disk, ino, n, k);
    }
    PutInodeOutside(v.disk[TableBlock(ino)], TableSlot(ino), n);
    if Counted(v) { CountedSame(v, v'); }
  }

  lemma TableApart(ino: nat)
    requires ValidInode(ino)
    ensures !IsBlockBitmap(TableBlock(ino)) && !IsInodeBitmap(TableBlock(ino)) && IsTable(TableBlock(ino))
  {
    MetadataInRange(ino);
  }

  /** Taking blocks leaves inodes and all other data blocks alone. */
  lemma TakingFrame(w: Volume, t: Account)
    requires Taking(w, t)
    ensures SameTables(t.v0.disk, w.disk) && SameInodeBitmaps(t.v0.disk, w.disk) && Counted(w) && MetaUsed(w.disk)
    ensures forall m :: 0 <= m < 2048 ==> (Used(w.disk, m) <==> Used(t.v0.disk, m) || m in t.pos)
    ensures forall m :: m in t.pos ==> m < 2048 && !Meta(m) && !Used(t.v0.disk, m)
    ensures forall m :: 21 <= m < 2048 && !Meta(m) && m !in t.pos ==> w.disk[m] == t.v0.disk[m]
    ensures Inverse(t.a, t.pos) && InRange(t.a) && Untouched(t.v0.disk, w.disk)
  {
    UntouchedTaking(w, t);
    hide Used, Counted, FirstFit, BitsAdded, OnlyFreeBlocks, Untouched;
    TakingFacts(w, t);
    forall m | 0 <= m < 2048 ensures Used(w.disk, m) <==> Used(t.v0.disk, m) || m in t.pos {
      UsedAfterTook(t.v0.disk, w.disk, t.a, t.pos, m);
    }
  }

  lemma OneSlotSteps(d: Disk, d1: Disk, d2: Disk, d3: Disk, d4: Disk, ino: nat)
    requires ValidInode(ino) && SameTables(d, d1) && SameTables(d1, d2) && SameTables(d2, d3) && OneSlot(d3, d4, ino)
    ensures OneSlot(d, d4, ino)
  {
    hide Meta, IsBlockBitmap, IsInodeBitmap, IsTable, Node, PutInode;
    TableApart(ino);
  }

  lemma AdoptingSteps(d: Disk, d1: Disk, d2: Disk, d3: Disk, d4: Disk, ino: nat, pos: map<nat, nat>)
    requires ValidInode(ino)
    requires SameTables(d, d1) && SameBlockBitmaps(d, d1) && SameData(d, d1)
    requires forall k :: ValidInode(k) ==> (InodeUsed(d1, k) <==> InodeUsed(d, k) || k == ino)
    requires SameTables(d1, d2) && SameInodeBitmaps(d1, d2)
    requires forall m :: 0 <= m < 2048 ==> (Used(d2, m) <==> Used(d1, m) || m in pos)
    requires forall m :: m in pos ==> m < 2048 && !Meta(m) && !Used(d1, m)
    requires forall m :: 21 <= m < 2048 && !Meta(m) && m !in pos ==> d2[m] == d1[m]
    requires SameTables(d2, d3) && SameInodeBitmaps(d2, d3) && SameBlockBitmaps(d2, d3)
    requires forall m :: 21 <= m < 2048 && !Meta(m) && m !in pos ==> d3[m] == d2[m]
    requires forall k :: ValidInode(k) && k != ino ==> Node(d4, k) == Node(d3, k)
    requires SameInodeBitmaps(d3, d4) && SameBlockBitmaps(d3, d4) && SameData(d3, d4) && OneSlot(d3, d4, ino)
    requires Untouched(d, d1) && Untouched(d1, d2) && Untouched(d2, d3) && Untouched(d3, d4)
    ensures Adopting(d, d4, ino, pos)
  {
    hide Node, Used, InodeUsed, Meta, SameTables, SameInodeBitmaps, SameBlockBitmaps, MetaUsed, OneSlot, Untouched;
    OneSlotSteps(d, d1, d2, d3, d4, ino);
    UntouchedTransitive(d, d1, d2);
    UntouchedTransitive(d, d2, d3);
    UntouchedTransitive(d, d3, d4);
    NodesSame(d, d1);
    NodesSame(d1, d2);
    NodesSame(d2, d3);
    InodeBitsSame(d1, d2);
    InodeBitsSame(d2, d3);
    InodeBitsSame(d3, d4);
    BlockBitsSame(d, d1);
    BlockBitsSame(d2, d3);
    BlockBitsSame(d3, d4);
  }

  // ----- a new regular file -----

  function AddFile(fs: FS, ino: nat, t: Account, data: seq<byte>): FS {
    Adopt(fs, ino, t.a, t.pos, Some(data))
  }

  /** The account of a file just made: its blocks, and why there may be fewer than it needs. */
  ghost predicate FileMade(d: Disk, v': Volume, ino: nat, data: seq<byte>, t: Account) {
    && ValidInode(ino) && |data| < 0x1_0000_0000
    && t.pref == InodeToBgd(ino) && FirstFit(d, t.pref, t.a)
    && (|t.a| == Needed(BlocksFor(|data|)) || NoneFree(v'.disk, t.pref))
  }

  lemma FreeInode(v: Volume, fs: FS, loose: set<nat>, gap: set<(nat, nat)>, ino: nat)
    requires Holds(v, fs, loose, gap) && ino == FirstFreeInode(v.disk, 1) && ino != 0
    ensures ValidInode(ino) && !InodeUsed(v.disk, ino) && Node(v.disk, ino) == ZeroInode()
    ensures ino !in fs.tree && ino !in fs.data && ino !in fs.home
    ensures Counted(v) && MetaUsed(v.disk)
  {
    hide Counted, MetaUsed, OwnersOK, ContentsOK, NamesOK, InodeUsed, Node;
    FirstFreeInodeSpec(v.disk, 1);
  }

  lemma NewFileNode(n: Inode, data: seq<byte>)
    requires n == ZeroInode() && |data| < 0x1_0000_0000
    ensures Inode(EXT2_S_IFREG, |data|, BlocksFor(|data|), n.block) == NewFile(|data|)
  {}

  lemma FileContent(d2: Disk, d4: Disk, node: Inode, a: seq<nat>, data: seq<byte>)
    requires |data| < 0x1_0000_0000 && Lays(d2, node, a) && DataOn(d2, a, data) && SameHeader(node, |data|)
    requires SameData(d2, d4)
    ensures FileOK(d4, node, a, data)
  {
    hide Direct, Indirect, Double;
    assert InRange(a);
    DataAreaKept(d2, d4, a);
    LaysSame(d2, d4, node, a);
    DataSame(d2, d4, a, data);
  }

  lemma SameDataTransitive(d: Disk, d': Disk, d'': Disk)
    requires SameData(d, d') && SameData(d', d'')
    ensures SameData(d, d'')
  {}

  lemma SameDataSync(v: Volume)
    ensures SameData(v.disk, Sync(v).disk)
  {
    hide Sync, Synced, Counted, Untouched;
    SyncSpec(v);
  }

  lemma MakeFileHolds(v: Volume, fs: FS, loose: set<nat>, gap: set<(nat, nat)>, ino: nat, data: seq<byte>)
    returns (t: Account)
    requires Holds(v, fs, loose, gap) && ino == FirstFreeInode(v.disk, 1) && ino != 0 && |data| < 0x1_0000_0000
    ensures ValidInode(ino) && ino !in fs.tree
    ensures var v' := MakeFile(AllocNode(v, ino), ino, data);
      Holds(v', AddFile(fs, ino, t, data), loose, gap) && FileMade(v.disk, v', ino, data, t) &&
      Adopting(v.disk, v'.disk, ino, t.pos) && Inverse(t.a, t.pos)
  {
    hide Holds, Counted, MetaUsed, InodeUsed, Used, Node, Taking, AllocBlocks, AllocNode, Sync, Lays, DataOn,
      SameTables, SameInodeBitmaps, SameBlockBitmaps, SameData, NoneFree, FirstFit, BlocksFor, FileOK, Inverse, Synced,
      Untouched;
    FreeInode(v, fs, loose, gap, ino);
    var v1 := AllocNode(v, ino);
    AllocNodeSpec(v, ino);
    NodesSame(v.disk, v1.disk);
    BlockBitsSame(v.disk, v1.disk);
    NewFileNode(Node(v1.disk, ino), data);
    var g := InodeToBgd(ino);
    t := AllocBlocksSpec(v1, g, data);
    var s := AllocBlocks(v1, NewFile(|data|), g, data);
    MakeFileDelta(v, v1, s, t, ino);
    var v' := SyncNode(Sync(s.v), ino, s.node);
    SyncNodeSpec(Sync(s.v), ino, s.node);
    SyncSpec(s.v);
    SameDataSync(s.v);
    SameDataTransitive(s.v.disk, Sync(s.v).disk, v'.disk);
    FileContent(s.v.disk, v'.disk, s.node, t.a, data);
    TakingFrame(s.v, t);
    FileAdopted(v'.disk, fs, ino, t, data);
    BlockBitsSame(s.v.disk, Sync(s.v).disk);
    BlockBitsSame(Sync(s.v).disk, v'.disk);
    AdoptHolds(v, v', fs, loose, gap, ino, t.a, t.pos, Some(data));
    NoneFreeSame(s.v.disk, v'.disk, g);
    TakingFirstFit(s.v, t);
    FirstFitSame(v1.disk, v.disk, g, t.a);
  }

  lemma TakingFirstFit(v: Volume, t: Account)
    requires Taking(v, t)
    ensures FirstFit(t.v0.disk, t.pref, t.a)
  {}

  lemma FirstFitSame(d: Disk, d': Disk, pref: nat, a: seq<nat>)
    requires forall k :: 0 <= k < 2048 ==> (Used(d', k) <==> Used(d, k))
    requires FirstFit(d, pref, a)
    ensures FirstFit(d', pref, a)
  {
    hide Used;
  }

  lemma NoneFreeSame(d: Disk, d': Disk, g: nat)
    requires forall m :: 0 <= m < 2048 ==> (Used(d', m) <==> Used(d, m))
    ensures NoneFree(d', g) <==> NoneFree(d, g)
  {
    hide Used;
  }

  lemma FileAdopted(d: Disk, fs: FS, ino: nat, t: Account, data: seq<byte>)
    requires ValidInode(ino) && FileOK(d, Node(d, ino), t.a, data)
    ensures ContentOK(d, AddFile(fs, ino, t, data), ino)
  {
    hide FileOK, Node;
  }

  lemma MakeFileDelta(v: Volume, v1: Volume, s: Stage, t: Account, ino: nat)
    requires ValidInode(ino) && Counted(v) && !InodeUsed(v.disk, ino) && v1 == AllocNode(v, ino)
    requires t.v0 == v1 && Taking(s.v, t)
    ensures var v' := SyncNode(Sync(s.v), ino, s.node);
      Adopting(v.disk, v'.disk, ino, t.pos) && Counted(v') && MetaUsed(v'.disk)
  {
    hide Counted, MetaUsed, InodeUsed, Used, Node, Taking, AllocNode, Sync, SameTables, SameInodeBitmaps,
      SameBlockBitmaps, SameData, Inverse, Synced, Adopting, Meta, SyncNode, Untouched;
    AllocNodeSpec(v, ino);
    TakingFrame(s.v, t);
    SyncSpec(s.v);
    SyncNodeSpec(Sync(s.v), ino, s.node);
    BlockBitsSame(s.v.disk, Sync(s.v).disk);
    BlockBitsSame(Sync(s.v).disk, SyncNode(Sync(s.v), ino, s.node).disk);
    AdoptingSteps(v.disk, v1.disk, s.v.disk, Sync(s.v).disk, SyncNode(Sync(s.v), ino, s.node).disk, ino, t.pos);
  }

  // ----- a new directory -----

  function AddDir(fs: FS, ino: nat, b: nat): FS {
    Adopt(fs, ino, [b], map[b := 0], None)
  }

  lemma UsedDirsSpec(v: Volume, g: nat, n: u16)
    requires g < 8 && Counted(v)
    ensures Counted(WithUsedDirs(v, g, n)) && WithUsedDirs(v, g, n).disk == v.disk
  {
    var w := WithUsedDirs(v, g, n);
    SumsAfterUpdate(v.bgdt, g, w.bgdt[g]);
    forall h | 0 <= h < 8 ensures GroupCount(w.disk, w.bgdt, h) { assert GroupCount(v.disk, v.bgdt, h); }
  }

  lemma NewDirectory(d: Disk, node: Inode, b: nat, ino: nat, parent: nat)
    requires ValidInode(ino) && 0 < parent < 0x1_0000_0000 && b < 2048 && !Meta(b)
    requires d[b] == NewDirBlock(ino, parent) && node == DirNode(ZeroInode(), b)
    ensures DirectoryOK(d, node, [b], ino) && Chain(d[b], 0) && |Entries(d[b], 0)| == 2
  {
    hide Chain, Entries, PtrRun, PtrStride;
    NewDirBlockSpec(ino, parent);
  }

  ghost predicate DirMade(v: Volume, v': Volume, fs: FS, loose: set<nat>, gap: set<(nat, nat)>, ino: nat, parent: nat,
                          b: nat)
  {
    && b < 2048 && 0 < ino <= 896 && 0 < parent < 0x1_0000_0000 && ino !in fs.tree && ino !in fs.home
    && Holds(v', AddDir(fs, ino, b), loose, gap) && Adopting(v.disk, v'.disk, ino, map[b := 0])
    && v'.disk[b] == NewDirBlock(ino, parent)
  }

  /** With a free block at or after the group of `ino`, making a directory keeps the volume sound. */
  lemma MakeDirHolds(v: Volume, fs: FS, loose: set<nat>, gap: set<(nat, nat)>, ino: nat, parent: nat)
    returns (b: nat)
    requires ino == FirstFreeInode(v.disk, 1) && ino != 0 && ValidInode(ino) && 0 < parent < 0x1_0000_0000
    requires FirstFree(v.disk, 256 * InodeToBgd(ino)) != 0 && Holds(v, fs, loose, gap)
    ensures b == FirstFree(v.disk, 256 * InodeToBgd(ino))
    ensures DirMade(v, MakeDir(AllocNode(v, ino), ino, parent), fs, loose, gap, ino, parent, b)
  {
    hide Holds, Counted, MetaUsed, InodeUsed, Used, Node, Taking, AllocNode, Sync, SameTables, SameInodeBitmaps,
         SameBlockBitmaps, SameData, Inverse, Synced, NewDirBlock, MakeDir, Untouched;
    FreeInode(v, fs, loose, gap, ino);
    var v1 := AllocNode(v, ino);
    AllocNodeSpec(v, ino);
    NodesSame(v.disk, v1.disk);
    BlockBitsSame(v.disk, v1.disk);
    b := FirstFree(v.disk, 256 * InodeToBgd(ino));
    FirstFreeSame(v.disk, v1.disk, 256 * InodeToBgd(ino));
    MakeDirDelta(v, v1, ino, parent, b);
    var v' := MakeDir(v1, ino, parent);
    NewDirectory(v'.disk, Node(v'.disk, ino), b, ino, parent);
    DirAdopted(v'.disk, fs, ino, b);
    InverseSingle(b);
    AdoptHolds(v, v', fs, loose, gap, ino, [b], map[b := 0], None);
  }

  lemma InverseSingle(b: nat)
    ensures Inverse([b], map[b := 0])
  {}

  lemma DirAdopted(d: Disk, fs: FS, ino: nat, b: nat)
    requires ValidInode(ino) && DirectoryOK(d, Node(d, ino), [b], ino) && ino !in fs.data
    ensures ContentOK(d, AddDir(fs, ino, b), ino)
  {
    hide DirectoryOK, Node;
  }

  lemma {:induction false} FirstFreeSame(d: Disk, d': Disk, m: nat)
    requires forall k :: 0 <= k < 2048 ==> (Used(d', k) <==> Used(d, k))
    ensures FirstFree(d', m) == FirstFree(d, m)
    decreases 2048 - m
  {
    hide Used;
    if m < 2048 { FirstFreeSame(d, d', m + 1); }
  }

  lemma MakeDirDelta(v: Volume, v1: Volume, ino: nat, parent: nat, b: nat)
    requires ValidInode(ino) && parent < 0x1_0000_0000 && v1 == AllocNode(v, ino) && !InodeUsed(v.disk, ino)
    requires b == FirstFree(v1.disk, 256 * InodeToBgd(ino)) && b != 0 && Node(v1.disk, ino) == ZeroInode()
    requires Counted(v) && MetaUsed(v1.disk)
    ensures var v' := MakeDir(v1, ino, parent);
      && Adopting(v.disk, v'.disk, ino, map[b := 0]) && Counted(v') && MetaUsed(v'.disk)
      && b < 2048 && !Meta(b) && v'.disk[b] == NewDirBlock(ino, parent)
      && Node(v'.disk, ino) == DirNode(ZeroInode(), b)
  {
    hide Counted, MetaUsed, InodeUsed, Used, Node, Taking, AllocNode, Sync, SameTables, SameInodeBitmaps,
      SameBlockBitmaps, SameData, Inverse, Synced, Adopting, SyncNode, Take, NewDirBlock, DirNode, Inc16, WithUsedDirs,
      Untouched;
    AllocNodeSpec(v, ino);
    var g := InodeToBgd(ino);
    MetadataInRange(ino);
    var t0 := Account(v1, g, [], map[]);
    TakingNothing(v1, g);
    TakingOne(v1, t0, b);
    var t := Plus(t0, b);
    var w := Take(v1, b);
    TakingFrame(w, t);
    assert t.pos == map[b := 0] && t.a == [b] && t.a[0] == b;
    var x := PutBlock(w, b, NewDirBlock(ino, parent));
    TakingWrite(w, t, 0, NewDirBlock(ino, parent));
    TakingFrame(x, t);
    SyncSpec(x);
    SameDataSync(x);
    BlockBitsSame(x.disk, Sync(x).disk);
    var y := WithUsedDirs(Sync(x), g, Inc16(Sync(x).bgdt[g].usedDirs));
    UsedDirsSpec(Sync(x), g, Inc16(Sync(x).bgdt[g].usedDirs));
    var n := DirNode(Node(v1.disk, ino), b);
    SyncNodeSpec(y, ino, n);
    BlockBitsSame(y.disk, SyncNode(y, ino, n).disk);
    AdoptingSteps(v.disk, v1.disk, x.disk, Sync(x).disk, SyncNode(y, ino, n).disk, ino, t.pos);
    KeptAt(x.disk, Sync(x).disk, SyncNode(y, ino, n).disk, b);
  }

  lemma KeptAt(d: Disk, d': Disk, d'': Disk, b: nat)
    requires SameData(d, d') && SameData(d', d'') && b < 2048 && !Meta(b)
    ensures d''[b] == d[b]
  {
    assert b >= 21;
  }
}
