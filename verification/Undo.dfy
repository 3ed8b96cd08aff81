/** Deleting what was just written restores the volume byte for byte. */
module Undo {
  import opened Bytes
  import opened Layout
  import opened Metadata
  import opened Volume
  import opened FileTree
  import opened Accounting
  import opened Allocation
  import opened Reclaim
  import opened Directory
  import opened Operations
  import opened Invariant
  import opened Creation
  import opened Naming
  import opened Growth
  import opened Writing
  import opened Deletion
  import opened Observing
  import opened WriteEffects
  import opened Effects
  import opened DeleteEffects

  // ----- the fields of the caches that are no counters -----

  /** Free counts and directory counts aside, the caches agree. */
  ghost predicate SameHeaders(v: Volume, w: Volume) {
    && w.sb == v.sb.(freeBlocks := w.sb.freeBlocks, freeInodes := w.sb.freeInodes)
    && forall g :: 0 <= g < 8 ==>
         w.bgdt[g] == v.bgdt[g].(freeBlocks := w.bgdt[g].freeBlocks, freeInodes := w.bgdt[g].freeInodes,
                                 usedDirs := w.bgdt[g].usedDirs)
  }

  lemma HeadersTransitive(v: Volume, w: Volume, x: Volume)
    requires SameHeaders(v, w) && SameHeaders(w, x)
    ensures SameHeaders(v, x)
  {}

  lemma HeadersOnlyBlocks(v: Volume, w: Volume)
    requires OnlyFreeBlocks(v, w)
    ensures SameHeaders(v, w) && SameDirs(v.bgdt, w.bgdt)
  {}

  lemma HeadersAlloc(v: Volume, ino: nat)
    requires ValidInode(ino)
    ensures SameHeaders(v, AllocNode(v, ino)) && SameDirs(v.bgdt, AllocNode(v, ino).bgdt)
  {
    hide MarkInodeUsed, EncSuperblock, EncTable;
  }

  lemma HeadersMakeFile(v: Volume, ino: nat, data: seq<byte>)
    requires ValidInode(ino) && |data| < 0x1_0000_0000 && Counted(v) && MetaUsed(v.disk)
    requires Node(v.disk, ino) == ZeroInode()
    ensures SameHeaders(v, MakeFile(v, ino, data)) && SameDirs(v.bgdt, MakeFile(v, ino, data).bgdt)
  {
    hide Counted, MetaUsed, Taking, Node, AllocBlocks, Lays, DataOn, NoneFree, Sync, BlocksFor, PutNode;
    NewFileNode(Node(v.disk, ino), data);
    var g := InodeToBgd(ino);
    var t := AllocBlocksSpec(v, g, data);
    var s := AllocBlocks(v, NewFile(|data|), g, data);
    TakingHeaders(s.v, t);
    SyncCaches(s.v);
  }

  lemma TakingHeaders(v: Volume, t: Account)
    requires Taking(v, t)
    ensures SameHeaders(t.v0, v) && SameDirs(t.v0.bgdt, v.bgdt)
  {
    HeadersOnlyBlocks(t.v0, v);
  }

  lemma SyncCaches(v: Volume)
    ensures SameHeaders(v, Sync(v)) && SameDirs(v.bgdt, Sync(v).bgdt) && Sync(v).sb == v.sb && Sync(v).bgdt == v.bgdt
  {
    hide EncSuperblock, EncTable;
  }

  /** The directory count of group `g` became `n`, the others stayed. */
  ghost predicate DirsSet(t: Bgdt, t': Bgdt, g: nat, n: u16) {
    g < 8 && t'[g].usedDirs == n && forall h :: 0 <= h < 8 && h != g ==> t'[h].usedDirs == t[h].usedDirs
  }

  lemma HeadersMakeDir(v: Volume, ino: nat, parent: nat)
    requires ValidInode(ino) && parent < 0x1_0000_0000
    ensures SameHeaders(v, MakeDir(v, ino, parent))
    ensures DirsSet(v.bgdt, MakeDir(v, ino, parent).bgdt, InodeToBgd(ino), Inc16(v.bgdt[InodeToBgd(ino)].usedDirs))
  {
    hide FirstFree, MarkUsed, NewDirBlock, EncSuperblock, EncTable, PutNode, Node, DirNode, Dec16, Dec32, Inc16;
    MetadataInRange(ino);
  }

  function DirsAfterDealloc(v: Volume, ino: nat): u16
    requires ValidInode(ino)
  {
    var u := v.bgdt[InodeToBgd(ino)].usedDirs;
    if IsDirMode(Node(v.disk, ino).mode) && u > 0 then u - 1 else u
  }

  lemma HeadersDealloc(v: Volume, fs: FS, loose: set<nat>, ino: nat)
    requires ino in fs.tree && ValidInode(ino) && Holds(v, fs, loose, {})
    ensures SameHeaders(v, DeallocNode(v, ino))
    ensures DirsSet(v.bgdt, DeallocNode(v, ino).bgdt, InodeToBgd(ino), DirsAfterDealloc(v, ino))
  {
    hide Counted, MetaUsed, InodeUsed, Used, Node, Giving, FreeTree, Sync, Inverse, Synced, SyncNode, Lays, InodesOK,
      OwnersOK, ContentsOK, NamesOK, SameHeaders, DirsSet, IsDirMode;
    var node, g, a, pos := Node(v.disk, ino), InodeToBgd(ino), fs.tree[ino], PosOf(fs, ino);
    MetadataInRange(ino);
    PosInverts(v.disk, fs, loose, ino);
    AllocatedLays(v.disk, fs, ino);
    var v1 := if IsDirMode(node.mode) && v.bgdt[g].usedDirs > 0 then WithUsedDirs(v, g, v.bgdt[g].usedDirs - 1) else v;
    if v.bgdt[g].usedDirs > 0 { UsedDirsSpec(v, g, v.bgdt[g].usedDirs - 1); }
    FreeTreeSpec(v1, node, a, pos);
    var w := FreeTree(v1, node);
    GivingHeaders(w, v1, a, pos, Span(0, |a|));
    DeallocHeaders(v, v1, w, ino, g, if IsDirMode(node.mode) && v.bgdt[g].usedDirs > 0 then v.bgdt[g].usedDirs - 1
      else v.bgdt[g].usedDirs);
  }

  lemma GivingHeaders(w: Volume, v: Volume, a: seq<nat>, pos: map<nat, nat>, done: set<nat>)
    requires Giving(w, v, a, pos, done)
    ensures SameHeaders(v, w) && SameDirs(v.bgdt, w.bgdt)
  {
    HeadersOnlyBlocks(v, w);
  }

  lemma DeallocHeaders(v: Volume, v1: Volume, w: Volume, ino: nat, g: nat, n: u16)
    requires ValidInode(ino) && g < 8 && (v1 == WithUsedDirs(v, g, n) || (v1 == v && n == v.bgdt[g].usedDirs))
    requires SameHeaders(v1, w) && SameDirs(v1.bgdt, w.bgdt)
    ensures var v' := Sync(ReleaseInode(SyncNode(w, ino, ZeroInode()), ino));
        SameHeaders(v, v') && DirsSet(v.bgdt, v'.bgdt, g, n)
  {
    hide EncSuperblock, EncTable, PutNode, MarkInodeFree, Inc16, Inc32;
  }

  // ----- the blocks -----

  /** One data block and the two cache blocks were written, nothing else. */
  ghost predicate Edited(d: Disk, d': Disk, blk: nat) {
    && SameTables(d, d') && SameInodeBitmaps(d, d') && SameBlockBitmaps(d, d') && Untouched(d, d')
    && forall m {:trigger d'[m]} :: 21 <= m < 2048 && !Meta(m) && m != blk ==> d'[m] == d[m]
  }

  lemma EditedBySync(v: Volume, blk: nat, x: Block)
    requires 21 <= blk < 2048 && !Meta(blk)
    ensures var w := Sync(PutBlock(v, blk, x));
      Edited(v.disk, w.disk, blk) && w.disk[blk] == x && w.sb == v.sb && w.bgdt == v.bgdt &&
        Synced(w.disk, w.sb, w.bgdt) &&
      (Counted(v) ==> Counted(w))
  {
    hide Sync, Synced, Counted, Untouched, Meta;
    var y := PutBlock(v, blk, x);
    SyncSpec(y);
    UntouchedPut(v.disk, blk, x) by { DataNotBitmap(blk); }
    UntouchedTransitive(v.disk, y.disk, Sync(y).disk);
    DataNotBitmap(blk);
    if Counted(v) { CountedAfterPut(v, blk, x); }
  }

  /** An inode and its blocks came and went, with an edit of `blk` after each. */
  ghost predicate ThereAndBack(d: Disk, d1: Disk, d2: Disk, d3: Disk, d4: Disk, ino: nat, pos: map<nat, nat>,
                               pos': map<nat, nat>, blk: nat)
  {
    && ValidInode(ino) && !InodeUsed(d, ino) && Node(d, ino) == ZeroInode()
    && Adopting(d, d1, ino, pos) && Edited(d1, d2, blk) && Dropping(d2, d3, ino, pos') && Edited(d3, d4, blk)
    && pos'.Keys == pos.Keys
  }

  lemma BitsRestored(d: Disk, d1: Disk, d2: Disk, d3: Disk, d4: Disk, ino: nat, pos: map<nat, nat>, pos': map<nat, nat>,
      blk: nat)
    requires ThereAndBack(d, d1, d2, d3, d4, ino, pos, pos', blk)
    ensures forall m :: 0 <= m < 2048 ==> (Used(d4, m) <==> Used(d, m))
    ensures forall k :: ValidInode(k) ==> (InodeUsed(d4, k) <==> InodeUsed(d, k))
    ensures Untouched(d, d4)
  {
    hide Used, InodeUsed, Node, OneSlot, Untouched, SameTables, SameInodeBitmaps, SameBlockBitmaps, MetaUsed, Meta,
      SameData;
    BlockBitsSame(d1, d2);
    BlockBitsSame(d3, d4);
    InodeBitsSame(d1, d2);
    InodeBitsSame(d3, d4);
    UntouchedTransitive(d, d1, d2);
    UntouchedTransitive(d, d2, d3);
    UntouchedTransitive(d, d3, d4);
    forall m | 0 <= m < 2048 ensures Used(d4, m) <==> Used(d, m) {
      assert m in pos' <==> m in pos;
    }
  }

  lemma BitmapsFromBits(d: Disk, d': Disk, g: nat)
    requires g < 8 && Untouched(d, d')
    requires forall m :: 0 <= m < 2048 ==> (Used(d', m) <==> Used(d, m))
    requires forall k :: ValidInode(k) ==> (InodeUsed(d', k) <==> InodeUsed(d, k))
    ensures d'[BlockBitmap(g)] == d[BlockBitmap(g)] && d'[InodeBitmap(g)] == d[InodeBitmap(g)]
  {
    hide Bit;
    assert SameBeyond(d[BlockBitmap(g)], d'[BlockBitmap(g)], 256) &&
      SameBeyond(d[InodeBitmap(g)], d'[InodeBitmap(g)], 112);
    forall i | 0 <= i < 4096 ensures Bit(d'[BlockBitmap(g)], i) <==> Bit(d[BlockBitmap(g)], i) {
      if i < 256 { assert Used(d', 256 * g + i) <==> Used(d, 256 * g + i); }
    }
    forall i | 0 <= i < 4096 ensures Bit(d'[InodeBitmap(g)], i) <==> Bit(d[InodeBitmap(g)], i) {
      if i < 112 {
        assert InodeToBgd(112 * g + i + 1) == g && InodeToLocal(112 * g + i + 1) == i;
        assert InodeUsed(d', 112 * g + i + 1) <==> InodeUsed(d, 112 * g + i + 1);
      }
    }
    BitmapExtensional(d'[BlockBitmap(g)], d[BlockBitmap(g)]);
    BitmapExtensional(d'[InodeBitmap(g)], d[InodeBitmap(g)]);
  }

  lemma TablesRestored(d: Disk, d1: Disk, d2: Disk, d3: Disk, d4: Disk, ino: nat, pos: map<nat, nat>,
      pos': map<nat, nat>, blk: nat)
    requires ThereAndBack(d, d1, d2, d3, d4, ino, pos, pos', blk)
    ensures SameTables(d, d4)
  {
    hide Used, InodeUsed, Untouched, SameInodeBitmaps, SameBlockBitmaps, Meta, SameData, PutInode, GetInode;
    hide SameOutside;
    TableApart(ino);
    var m, s := TableBlock(ino), TableSlot(ino);
    assert d2[m] == d1[m] && d4[m] == d3[m];
    SlotIsPut(d[m], d1[m], s);
    SlotIsPut(d2[m], d3[m], s);
    assert Node(d3, ino) == Node(d, ino);
    PutInodeUndone(d[m], s, Node(d1, ino));
  }

  lemma DataRestored(d: Disk, d1: Disk, d2: Disk, d3: Disk, d4: Disk, ino: nat, pos: map<nat, nat>, pos': map<nat, nat>,
      blk: nat)
    requires ThereAndBack(d, d1, d2, d3, d4, ino, pos, pos', blk)
    ensures forall m :: 21 <= m < 2048 && !Meta(m) && m != blk && Used(d, m) ==> d4[m] == d[m]
  {
    hide Used, InodeUsed, Node, OneSlot, Untouched, SameInodeBitmaps, SameBlockBitmaps, SameTables, Meta;
  }

  // ----- the counters -----

  /** Equal bitmaps have equal counts. */
  lemma CachesRestored(v: Volume, w: Volume)
    requires Counted(v) && Counted(w) && SameHeaders(v, w) && SameDirs(v.bgdt, w.bgdt)
    requires forall g :: 0 <= g < 8 ==> w.disk[BlockBitmap(g)] == v.disk[BlockBitmap(g)]
    requires forall g :: 0 <= g < 8 ==> w.disk[InodeBitmap(g)] == v.disk[InodeBitmap(g)]
    ensures w.sb == v.sb && w.bgdt == v.bgdt
  {
    forall g | 0 <= g < 8 ensures w.bgdt[g] == v.bgdt[g] {
      assert GroupCount(v.disk, v.bgdt, g) && GroupCount(w.disk, w.bgdt, g);
    }
    assert w.bgdt == v.bgdt;
  }

  lemma CacheBlocksRestored(v: Volume, w: Volume)
    requires Synced(v.disk, v.sb, v.bgdt) && Synced(w.disk, w.sb, w.bgdt) && w.sb == v.sb && w.bgdt == v.bgdt
    ensures w.disk[1][..44] == v.disk[1][..44] && w.disk[2][..256] == v.disk[2][..256]
  {
    hide EncSuperblock, EncTable;
  }

  /**
   * The whole state is back; blocks that were free, and are free again, may hold other bytes, and so may the tails of
   * blocks 1 and 2 behind the caches.
   */
  ghost predicate Restored(v: Volume, w: Volume) {
    && w.sb == v.sb && w.bgdt == v.bgdt
    && w.disk[1][..44] == v.disk[1][..44] && w.disk[2][..256] == v.disk[2][..256]
    && forall m :: 0 <= m < 8192 && m != 1 && m != 2 && (m < 2048 ==> Used(v.disk, m)) ==> w.disk[m] == v.disk[m]
  }

  lemma AllRestored(v: Volume, w: Volume, d1: Disk, d2: Disk, d3: Disk, ino: nat, pos: map<nat, nat>,
      pos': map<nat, nat>, blk: nat)
    requires ThereAndBack(v.disk, d1, d2, d3, w.disk, ino, pos, pos', blk) && blk < 2048 && w.disk[blk] == v.disk[blk]
    requires SameHeaders(v, w) && SameDirs(v.bgdt, w.bgdt) && Counted(v) && Counted(w)
    requires Synced(v.disk, v.sb, v.bgdt) && Synced(w.disk, w.sb, w.bgdt)
    ensures Restored(v, w)
  {
    hide ThereAndBack, Used, InodeUsed, Node, Counted, Synced, Untouched, SameHeaders, SameDirs, Meta;
    BitsRestored(v.disk, d1, d2, d3, w.disk, ino, pos, pos', blk);
    forall g | 0 <= g < 8
      ensures w.disk[BlockBitmap(g)] == v.disk[BlockBitmap(g)] && w.disk[InodeBitmap(g)] == v.disk[InodeBitmap(g)]
    {
      BitmapsFromBits(v.disk, w.disk, g);
    }
    CachesRestored(v, w);
    CacheBlocksRestored(v, w);
    TablesRestored(v.disk, d1, d2, d3, w.disk, ino, pos, pos', blk);
    DataRestored(v.disk, d1, d2, d3, w.disk, ino, pos, pos', blk);
    forall m | 0 <= m < 8192 && m != 1 && m != 2 && (m < 2048 ==> Used(v.disk, m)) ensures w.disk[m] == v.disk[m] {
      EveryBlock(v.disk, w.disk, m);
      if !Meta(m) { DataAreaStart(m); }
    }
  }

  /** Every block is one of: boot block, caches, bitmaps, tables, data, past the groups. */
  lemma EveryBlock(d: Disk, d': Disk, m: nat)
    requires m < 8192 && m != 1 && m != 2 && Untouched(d, d') && SameTables(d, d')
    requires forall g :: 0 <= g < 8 ==>
        d'[BlockBitmap(g)] == d[BlockBitmap(g)] && d'[InodeBitmap(g)] == d[InodeBitmap(g)]
    ensures m >= 2048 || Meta(m) ==> d'[m] == d[m]
  {
    hide SameBeyond;
    if 2 < m < 2048 && Meta(m) && !IsTable(m) {
      var g := m / 256;
      assert m == BlockBitmap(g) || m == InodeBitmap(g);
    }
  }

  // ----- the entry is found where it was put -----

  lemma {:induction false} NextReached(b: Block, o: nat, prev: nat, p: nat)
    requires Chain(b, o) && Reaches(b, o, p) && Live(b, p) && p + RecLen(b, p) < 512
    ensures Reaches(b, o, p + RecLen(b, p)) && Previous(b, o, prev, p + RecLen(b, p)) == p
    ensures EntriesBefore(b, o, p + RecLen(b, p)) == EntriesBefore(b, o, p) + [EntryAt(b, p)]
    decreases 512 - o
  {
    hide EntryAt, U16At, U32At, NameAt, RecordLen, FileType;
    if o != p {
      NextReached(b, o + RecLen(b, o), o, p);
    } else {
      assert Reaches(b, p + RecLen(b, p), p + RecLen(b, p));
      assert EntriesBefore(b, p + RecLen(b, p), p + RecLen(b, p)) == [];
    }
  }

  /** The new record follows the one that made room. */
  lemma InsertedReached(b: Block, p: nat, ino: u32, ftype: byte, name: Name)
    requires Chain(b, 0) && Reaches(b, 0, p) && Live(b, p) && RecordLen(|name|) <= SlackLen(b, p) && ino != 0
    ensures var b', q := Insert(b, p, ino, ftype, name), SlackAt(b, p);
      && q < 512 && Chain(b', 0) && Reaches(b', 0, q) && Live(b', q) && EntryAt(b', q) == Entry(q, ino, ftype, name)
      && Previous(b', 0, 512, q) == p && EntriesBefore(b', 0, q) == EntriesBefore(b, 0, p) + [EntryAt(b, p)]
  {
    hide U16At, U32At, RecordLen, EntryAt, Insert, Live, NameAt, Entries, EntriesBefore, Reaches, Chain, Previous;
    var b', q, next := Insert(b, p, ino, ftype, name), SlackAt(b, p), p + RecLen(b, p);
    InsertRecords(b, p, ino, ftype, name);
    EntriesSplit(b, 0, p);
    ChainHead(b, p);
    SuffixSame(b, b', next);
    EntriesCons(b', q);
    EntriesCons(b', p);
    PrefixSame(b, b', 0, p);
    NextReached(b', 0, 512, p);
  }

  /** A first match is unique. */
  lemma FirstAtUnique(d: Disk, a: seq<nat>, name: Name, bi: nat, at: nat, bj: nat, at': nat)
    requires FirstAt(d, a, name, bi, at) && FirstAt(d, a, name, bj, at')
    ensures bi == bj && at == at'
  {
    hide Chain, Entries, Reaches, Live, EntriesBefore, NameAt, Listing, FirstAt, Passed, EntryAt;
    if bi < bj {
      LaterPassed(d, a, name, bi, at, bj, at');
      assert false;
    } else if bj < bi {
      LaterPassed(d, a, name, bj, at', bi, at);
      assert false;
    } else {
      SameBlockFirst(d, a, name, bi, at, at');
    }
  }

  lemma LaterPassed(d: Disk, a: seq<nat>, name: Name, bi: nat, at: nat, bj: nat, at': nat)
    requires FirstAt(d, a, name, bi, at) && FirstAt(d, a, name, bj, at')
    ensures bi >= bj
  {
    hide Chain, Entries, Reaches, Live, EntriesBefore, NameAt, Listing, EntryAt;
    if bi < bj {
      var i := FirstListed(d, a[..bj], name, bi, at) by { PrefixFirst(d, a, name, bi, at, bj); }
      EntryName(d[a[bi]], at);
    }
  }

  lemma PrefixFirst(d: Disk, a: seq<nat>, name: Name, bi: nat, at: nat, bj: nat)
    requires FirstAt(d, a, name, bi, at) && bi < bj <= |a|
    ensures FirstAt(d, a[..bj], name, bi, at)
  {
    hide Chain, Entries, Reaches, Live, EntriesBefore, NameAt, Listing, Passed;
    assert a[..bj][..bi] == a[..bi];
  }

  lemma SameBlockFirst(d: Disk, a: seq<nat>, name: Name, bi: nat, at: nat, at': nat)
    requires FirstAt(d, a, name, bi, at) && FirstAt(d, a, name, bi, at')
    ensures at == at'
  {
    hide Chain, Entries, Reaches, Live, EntriesBefore, NameAt, Listing, EntryAt;
    var b := d[a[bi]];
    RecordInList(b, at);
    RecordInList(b, at');
    EntryName(b, at);
    EntryName(b, at');
    SplitPrefixes(b, at);
    SplitPrefixes(b, at');
    EntryPlace(b, at);
    EntryPlace(b, at');
  }

  lemma EntryPlace(b: Block, p: nat)
    requires Sound(b, p)
    ensures EntryAt(b, p).at == p
  {}

  lemma SplitPrefixes(b: Block, p: nat)
    requires Chain(b, 0) && Reaches(b, 0, p)
    ensures EntriesBefore(b, 0, p) <= Entries(b, 0)
  {
    hide Entries, EntriesBefore;
    EntriesSplit(b, 0, p);
  }

  // ----- write, then delete -----

  /** The hole case, with all its parts named; `mid` is the volume once the inode is made. */
  datatype HoleCase = HoleCase(v: Volume, fs: FS, q: Request, ino: nat, bi: nat, blk: nat, at: nat, t: Account,
    mid: Volume)

  ghost predicate HoleStep(s: HoleCase) {
    && IsDirBlock(s.fs, s.q.parent, s.bi, s.blk) && DirBlockOK(s.v.disk, s.blk)
    && Reaches(s.v.disk[s.blk], 0, s.at) && Live(s.v.disk[s.blk], s.at)
    && RecordLen(|s.q.name|) <= SlackLen(s.v.disk[s.blk], s.at) && ValidRequest(s.q) && s.q.parent != 0
    && s.ino == FirstFreeInode(s.v.disk, 1) && s.ino != 0 && ValidInode(s.ino)
    && Populated(s.v, s.mid, s.fs, NewFS(s.fs, s.ino, s.q, s.t), {}, s.ino, s.q, s.t)
    && Inv(s.v, s.fs)
  }

  /** How the case came about: no entry of the name was passed, and `mid` is what making the inode gives. */
  ghost predicate Midway(s: HoleCase) {
    && HoleAt(s.v.disk, s.fs, s.q, s.bi, s.blk, s.at)
    && ValidInode(s.ino) && ValidRequest(s.q) && s.mid == Populate(AllocNode(s.v, s.ino), s.ino, s.q)
  }

  function NewBlock(s: HoleCase): Block
    requires s.blk < 2048 && Sound(s.v.disk[s.blk], s.at) && RecordLen(|s.q.name|) <= SlackLen(s.v.disk[s.blk], s.at)
    requires s.ino < 0x1_0000_0000
  {
    Insert(s.v.disk[s.blk], s.at, s.ino, TypeOf(s.q), s.q.name)
  }

  /** In `v1` the entry is inserted and the caches are synchronised. */
  ghost predicate Written(s: HoleCase, v1: Volume) {
    && s.blk < 2048 && Sound(s.v.disk[s.blk], s.at) && RecordLen(|s.q.name|) <= SlackLen(s.v.disk[s.blk], s.at)
    && s.ino < 0x1_0000_0000 && v1.disk[s.blk] == NewBlock(s) && Edited(s.mid.disk, v1.disk, s.blk)
    && v1.sb == s.mid.sb && v1.bgdt == s.mid.bgdt
  }

  lemma HoleWrites(s: HoleCase)
    requires HoleStep(s) && Midway(s)
    ensures ValidInode(s.ino) && ValidRequest(s.q) && s.blk < 2048 && Sound(s.v.disk[s.blk], s.at)
    ensures RecordLen(|s.q.name|) <= SlackLen(s.v.disk[s.blk], s.at) && DirBlockOK(s.v.disk, s.blk)
    ensures Written(s, WriteInHole(s.v, s.q, s.blk, s.at).v)
  {
    hide Inv, Chain, Reaches, Live, EntriesBefore, Listing, Passed, NameAt, RecordLen, SlackLen, Populated, Populate,
      AllocNode, NewFS, FirstFreeInode, Insert, Sync, Synced, Edited, Meta, Blocks, Adopting;
    InvParts(s.v, s.fs);
    DirBlockFacts(s.v, s.fs, {}, {}, s.q.parent, s.bi, s.blk);
    EditedBySync(s.mid, s.blk, NewBlock(s));
  }

  lemma WrittenDisk(s: HoleCase, v1: Volume)
    requires HoleStep(s) && Written(s, v1)
    ensures ValidInode(s.ino) && ValidRequest(s.q) && 21 <= s.blk < 2048 && !Meta(s.blk) && Sound(s.v.disk[s.blk], s.at)
    ensures RecordLen(|s.q.name|) <= SlackLen(s.v.disk[s.blk], s.at) && DirBlockOK(s.v.disk, s.blk)
    ensures Adopting(s.v.disk, s.mid.disk, s.ino, s.t.pos) && Edited(s.mid.disk, v1.disk, s.blk)
    ensures v1.disk[s.blk] == NewBlock(s) && v1.sb == s.mid.sb && v1.bgdt == s.mid.bgdt
  {
    hide Inv, Chain, Reaches, Live, EntriesBefore, Listing, Passed, NameAt, RecordLen, SlackLen, Populated, Populate,
      AllocNode, NewFS, FirstFreeInode, Insert, Sync, Synced, Edited, Meta, Blocks, Adopting;
    InvParts(s.v, s.fs);
    DirBlockFacts(s.v, s.fs, {}, {}, s.q.parent, s.bi, s.blk);
    PopulatedParts(s.v, s.mid, s.fs, NewFS(s.fs, s.ino, s.q, s.t), {}, s.ino, s.q, s.t);
  }

  lemma FirstAtWritten(s: HoleCase, v1: Volume)
    requires ValidInode(s.ino) && ValidRequest(s.q) && s.blk < 2048 && Sound(s.v.disk[s.blk], s.at)
    requires RecordLen(|s.q.name|) <= SlackLen(s.v.disk[s.blk], s.at)
    requires HoleAt(s.v.disk, s.fs, s.q, s.bi, s.blk, s.at) && Inv(s.v, s.fs)
    requires Adopting(s.v.disk, s.mid.disk, s.ino, s.t.pos) && Edited(s.mid.disk, v1.disk, s.blk)
    requires v1.disk[s.blk] == NewBlock(s)
    ensures s.q.parent in s.fs.tree
    ensures FirstAt(v1.disk, s.fs.tree[s.q.parent], s.q.name, s.bi, SlackAt(s.v.disk[s.blk], s.at))
  {
    hide Inv, Chain, Reaches, Live, EntriesBefore, Listing, Passed, NameAt, RecordLen, SlackLen, SlackAt, Populated,
      Populate, AllocNode, NewFS, FirstFreeInode, Insert, Meta, Adopting, SameTables, SameInodeBitmaps,
      SameBlockBitmaps, Untouched, Dots, IsDirMode, Node, EntryAt;
    var k, a, b, q := s.q.parent, s.fs.tree[s.q.parent], s.v.disk[s.blk], SlackAt(s.v.disk[s.blk], s.at);
    DirContents(s.v, s.fs, k);
    OldDirBlocks(s.v, s.mid, v1, s.fs, s.ino, s.t.pos, k, s.bi, s.blk, k);
    InsertedReached(b, s.at, s.ino, TypeOf(s.q), s.q.name);
    ListingSame(s.v.disk, v1.disk, a[..s.bi]);
    EntryName(NewBlock(s), q);
    EntryName(b, s.at);
    PassedOneMore(EntriesBefore(b, 0, s.at), EntryAt(b, s.at), s.q.name);
    forall j | 0 <= j < |a| ensures a[j] < 2048 && Chain(v1.disk[a[j]], 0) {}
  }

  lemma PassedOneMore(x: seq<Entry>, e: Entry, name: Name)
    requires Passed(x, name) && e.name != name
    ensures Passed(x + [e], name)
  {}

  lemma FoundNotPassed(d: Disk, a: seq<nat>, name: Name, bi: nat, at: nat)
    requires FirstAt(d, a, name, bi, at)
    ensures !Passed(Listing(d, a), name)
  {
    hide Chain, Entries, Reaches, Live, EntriesBefore, NameAt, Listing, EntryAt;
    var i := FirstListed(d, a, name, bi, at);
    EntryName(d[a[bi]], at);
    assert Listing(d, a)[i].name == name;
  }

  /** Looking the new name up finds the new entry. */
  lemma FoundWhereWritten(v1: Volume, fs1: FS, q: Request, a: seq<nat>, bi: nat, at: nat)
    requires Inv(v1, fs1) && ValidRequest(q) && ParentOK(v1, q) && IsDirectory(fs1, q.parent) && fs1.tree[q.parent] == a
    requires FirstAt(v1.disk, a, q.name, bi, at)
    ensures q.parent != 0 && IsDirMode(ParentNode(v1, q).mode)
    ensures FindEntry(v1.disk, ParentNode(v1, q), 0, q.name) == Place(bi, at)
    ensures bi < |a| && bi < 15 && ParentNode(v1, q).block[bi] == a[bi]
  {
    hide Inv, FirstAt, Node, IsDirMode, FindEntry, Listing, Passed, Blocks, DirOK, Dots;
    RootZero(v1, fs1);
    DirContents(v1, fs1, q.parent);
    DeleteScan(v1, fs1, q);
    assert Blocks(v1.disk, a);
    match FindEntry(v1.disk, ParentNode(v1, q), 0, q.name) {
      case Nowhere => FoundNotPassed(v1.disk, a, q.name, bi, at);
      case Place(bj, at') =>
        FirstAtUnique(v1.disk, a, q.name, bi, at, bj, at');
        FirstAtBound(v1.disk, a, q.name, bi, at);
    }
  }

  lemma FirstAtBound(d: Disk, a: seq<nat>, name: Name, bi: nat, at: nat)
    requires FirstAt(d, a, name, bi, at)
    ensures bi < |a|
  {}

  /** The request that deletes what `q` wrote. */
  function Undoing(q: Request): Request { q.(isDir := MakesDir(q)) }

  lemma StepParts(s: HoleCase)
    requires HoleStep(s)
    ensures ValidInode(s.ino) && ValidRequest(s.q) && IsDirBlock(s.fs, s.q.parent, s.bi, s.blk) && Inv(s.v, s.fs)
    ensures s.q.parent != 0 && s.ino == FirstFreeInode(s.v.disk, 1) && s.ino != 0
    ensures Populated(s.v, s.mid, s.fs, NewFS(s.fs, s.ino, s.q, s.t), {}, s.ino, s.q, s.t)
  {
    hide Inv, Populated, Chain, Reaches, Live, EntriesBefore, Listing, Passed, NameAt, RecordLen, SlackLen, Populate,
      AllocNode, NewFS, FirstFreeInode, Blocks;
  }

  lemma NewDirThere(s: HoleCase, v1: Volume)
    requires ValidInode(s.ino) && ValidRequest(s.q) && s.blk < 2048 && MakesDir(s.q)
    requires Edited(s.mid.disk, v1.disk, s.blk)
    requires Populated(s.v, s.mid, s.fs, NewFS(s.fs, s.ino, s.q, s.t), {}, s.ino, s.q, s.t)
    requires s.blk !in s.t.pos
    ensures |s.t.a| == 1 && s.t.a[0] < 2048 && v1.disk[s.t.a[0]] == NewDirBlock(s.ino, s.q.parent)
    ensures Chain(NewDirBlock(s.ino, s.q.parent), 0) && |Entries(NewDirBlock(s.ino, s.q.parent), 0)| == 2
  {
    hide Populate, AllocNode, NewFS, Meta, SameTables, SameInodeBitmaps, SameBlockBitmaps, Untouched, Node, NewDirBlock,
      Holds, Nameless, FileMade, Adopt, Chain, Entries, OneSlot, Used, InodeUsed;
    NewDirBlockSpec(s.ino, s.q.parent);
    var b := s.t.a[0];
    assert b in s.t.pos;
    DataAreaStart(b);
  }

  /** The new inode, looked at after the write. */
  lemma NewInodeThere(s: HoleCase, v1: Volume, fs1: FS, stack: u32)
    requires ValidInode(s.ino) && ValidRequest(s.q) && s.blk < 2048 && Edited(s.mid.disk, v1.disk, s.blk)
    requires Adopting(s.v.disk, s.mid.disk, s.ino, s.t.pos)
    requires fs1.tree == NewFS(s.fs, s.ino, s.q, s.t).tree && fs1.data == NewFS(s.fs, s.ino, s.q, s.t).data
    requires MakesDir(s.q) ==> stack == 0
    requires HoleStep(s) && Inv(v1, fs1)
    ensures s.ino in fs1.tree && (IsDirMode(Node(v1.disk, s.ino).mode) <==> MakesDir(s.q))
    ensures MakesDir(s.q) ==> DirEmpty(v1, s.ino, stack)
  {
    hide Inv, NewFS, FirstFreeInode, Adopting, Edited, IsDirMode, Node, HoleStep, Populated, NewDirBlock, Populate,
      AllocNode, DirEmpty, Chain, Entries, Holds, Dots;
    StepParts(s);
    InvParts(s.v, s.fs);
    FilesInTree(s.v.disk, s.fs);
    PopulatedParts(s.v, s.mid, s.fs, NewFS(s.fs, s.ino, s.q, s.t), {}, s.ino, s.q, s.t);
    AdoptedMaps(s.fs, s.ino, s.q, s.t);
    if MakesDir(s.q) {
      BlockSurvives(s.v.disk, s.mid.disk, s.fs, {}, s.ino, s.t.pos, s.q.parent, s.bi, s.blk);
      NewDirThere(s, v1);
      DirContents(v1, fs1, s.ino);
      EmptyDirMeans(v1, fs1, s.ino, stack);
    } else {
      NotADirectory(v1, fs1, s.ino);
    }
  }

  /** What making the inode does to the fields of the caches. */
  lemma HeadersPopulate(v: Volume, fs: FS, loose: set<nat>, ino: nat, q: Request)
    requires ino == FirstFreeInode(v.disk, 1) && ino != 0 && ValidInode(ino) && ValidRequest(q)
    requires Holds(v, fs, loose, {})
    ensures SameHeaders(v, Populate(AllocNode(v, ino), ino, q))
    ensures if MakesDir(q) then DirsSet(v.bgdt, Populate(AllocNode(v, ino), ino, q).bgdt, InodeToBgd(ino),
                                        Inc16(v.bgdt[InodeToBgd(ino)].usedDirs))
            else SameDirs(v.bgdt, Populate(AllocNode(v, ino), ino, q).bgdt)
  {
    hide Holds, FirstFreeInode, AllocNode, MakeDir, MakeFile, Counted, MetaUsed, InodeUsed, Node, Inc16, SameTables,
      SameBlockBitmaps, SameData, Synced, Untouched, Used, SameHeaders;
    FreeInode(v, fs, loose, {}, ino);
    HeadersAlloc(v, ino);
    AllocNodeSpec(v, ino);
    NodesSame(v.disk, AllocNode(v, ino).disk);
    BlockBitsSame(v.disk, AllocNode(v, ino).disk);
    var v1 := AllocNode(v, ino);
    if MakesDir(q) { HeadersMakeDir(v1, ino, q.parent); } else { HeadersMakeFile(v1, ino, q.data); }
    HeadersTransitive(v, v1, Populate(v1, ino, q));
  }

  lemma PosOfNew(fs: FS, ino: nat, q: Request, t: Account, blk: nat, at: nat)
    requires ino !in fs.tree && forall m :: m in fs.owner ==> fs.owner[m].0 in fs.tree
    ensures PosOf(Named(NewFS(fs, ino, q, t), ino, blk, at), ino).Keys == t.pos.Keys
  {}

  lemma OwnersInTree(d: Disk, fs: FS, loose: set<nat>)
    requires OwnersOK(d, fs, loose)
    ensures forall m :: m in fs.owner ==> fs.owner[m].0 in fs.tree
  {
    hide Used;
    forall m | m in fs.owner ensures fs.owner[m].0 in fs.tree { assert OwnedAt(fs, m); }
  }

  /** The directory counts are back. */
  lemma DirsBack(v: Volume, w: Volume, v1: Volume, x: Volume, g: nat, dir: bool)
    requires g < 8 && v1.bgdt == w.bgdt
    requires if dir then v.bgdt[g].usedDirs < 0xFFFF && DirsSet(v.bgdt, w.bgdt, g, Inc16(v.bgdt[g].usedDirs))
        else SameDirs(v.bgdt, w.bgdt)
    requires DirsSet(v1.bgdt, x.bgdt, g, if dir && v1.bgdt[g].usedDirs > 0 then v1.bgdt[g].usedDirs - 1
        else v1.bgdt[g].usedDirs)
    ensures SameDirs(v.bgdt, x.bgdt)
  {}

  /** `v1` and `fs1` are what the write led to. */
  ghost predicate Done(s: HoleCase, v1: Volume, fs1: FS) {
    && ValidInode(s.ino) && ValidRequest(s.q) && s.blk < 2048 && DirBlockOK(s.v.disk, s.blk) &&
         Sound(s.v.disk[s.blk], s.at)
    && RecordLen(|s.q.name|) <= SlackLen(s.v.disk[s.blk], s.at)
    && Written(s, v1)
    && fs1 == Named(NewFS(s.fs, s.ino, s.q, s.t), s.ino, s.blk, SlackAt(s.v.disk[s.blk], s.at))
    && HoleStep(s) && Inv(v1, fs1)
  }

  lemma UndoFinds(s: HoleCase, v1: Volume, fs1: FS)
    requires Midway(s) && Done(s, v1, fs1)
    ensures ParentOK(v1, Undoing(s.q)) && s.q.parent != 0 && IsDirMode(ParentNode(v1, Undoing(s.q)).mode)
    ensures s.bi < 15 && s.blk < 2048 && Sound(s.v.disk[s.blk], s.at)
    ensures FindEntry(v1.disk, ParentNode(v1, Undoing(s.q)), 0, s.q.name) == Place(s.bi, SlackAt(s.v.disk[s.blk], s.at))
    ensures ParentNode(v1, Undoing(s.q)).block[s.bi] == s.blk
  {
    hide Inv, NewFS, FirstFreeInode, Adopting, Edited, IsDirMode, Node, HoleStep, Populated, NewDirBlock, Populate,
      AllocNode, FindEntry, DirOK, Dots, DirBlockOK, Holds, FirstAt, Written, RecordLen, SlackLen, SlackAt, Sound,
      Insert;
    StepParts(s);
    WrittenDisk(s, v1);
    FirstAtWritten(s, v1);
    InvParentOK(v1, fs1, Undoing(s.q));
    InvParts(s.v, s.fs);
    PopulatedParts(s.v, s.mid, s.fs, NewFS(s.fs, s.ino, s.q, s.t), {}, s.ino, s.q, s.t);
    ParentTree(s.fs, s.ino, s.q, s.t);
    FilesInTree(s.v.disk, s.fs);
    AdoptedMaps(s.fs, s.ino, s.q, s.t);
    FoundWhereWritten(v1, fs1, Undoing(s.q), s.fs.tree[s.q.parent], s.bi, SlackAt(s.v.disk[s.blk], s.at));
  }

  lemma UndoDeletes(s: HoleCase, v1: Volume, fs1: FS, stack: u32)
    requires Midway(s) && Done(s, v1, fs1) && (MakesDir(s.q) ==> stack == 0)
    ensures ValidInode(s.ino) && s.blk < 2048 && Sound(s.v.disk[s.blk], s.at) && DirBlockOK(v1.disk, s.blk)
    ensures Sound(v1.disk[s.blk], SlackAt(s.v.disk[s.blk], s.at))
    ensures DeleteAt(v1, Undoing(s.q), s.blk, SlackAt(s.v.disk[s.blk], s.at), stack)
         == Outcome(0, Sync(PutBlock(DeallocNode(v1, s.ino), s.blk, s.v.disk[s.blk])))
  {
    hide Inv, NewFS, FirstFreeInode, Adopting, Edited, IsDirMode, Node, HoleStep, Populated, NewDirBlock, Populate,
      AllocNode, Dots, Holds, Written, RecordLen, SlackLen, SlackAt, Chain, Reaches, Live, Insert, Remove, DirEmpty,
      DeallocNode, Sync, Previous, EntriesBefore, RecLen, NameLen, SlackZero;
    StepParts(s);
    WrittenDisk(s, v1);
    NewInodeThere(s, v1, fs1, stack);
    var b, q := s.v.disk[s.blk], SlackAt(s.v.disk[s.blk], s.at);
    StepHole(s);
    InsertedReached(b, s.at, s.ino, TypeOf(s.q), s.q.name);
    InsertUndone(b, s.at, s.ino, TypeOf(s.q), s.q.name);
    EntryFields(v1.disk[s.blk], q);
  }

  lemma StepHole(s: HoleCase)
    requires HoleStep(s)
    ensures DirBlockOK(s.v.disk, s.blk) && Chain(s.v.disk[s.blk], 0) && Reaches(s.v.disk[s.blk], 0, s.at)
    ensures Live(s.v.disk[s.blk], s.at)
  {
    hide Inv, Populated, Chain, Reaches, Live, EntriesBefore, Listing, Passed, NameAt, RecordLen, SlackLen, Populate,
      AllocNode, NewFS, FirstFreeInode, Blocks;
  }

  lemma UndoState(s: HoleCase, v1: Volume, fs1: FS)
    requires ValidInode(s.ino) && s.blk < 2048
    requires MakesDir(s.q) ==> s.v.bgdt[InodeToBgd(s.ino)].usedDirs < 0xFFFF
    requires Midway(s) && Done(s, v1, fs1)
    ensures Restored(s.v, Sync(PutBlock(DeallocNode(v1, s.ino), s.blk, s.v.disk[s.blk])))
  {
    hide Inv, NewFS, FirstFreeInode, Adopting, Edited, IsDirMode, Node, HoleStep, Populated, Populate, AllocNode,
      MakesDir, Dropping, Holds, Written, RecordLen, SlackLen, SlackAt, Sound, Insert, DeallocNode, Sync, Synced,
      Untouched, SameHeaders, DirsSet, SameDirs, Counted, MetaUsed, InodeUsed, ThereAndBack, DirBlockOK, Restored, Meta,
      PosOf;
    var ino, fs2, b, x := s.ino, NewFS(s.fs, s.ino, s.q, s.t), s.v.disk[s.blk], DeallocNode(v1, s.ino);
    var w := Sync(PutBlock(x, s.blk, b));
    StepParts(s);
    WrittenDisk(s, v1);
    InvParts(s.v, s.fs);
    InvParts(v1, fs1);
    FreeInode(s.v, s.fs, {}, {}, ino);
    NewInodeThere(s, v1, fs1, 0);
    DeallocNodeSpec(v1, fs1, {}, {}, ino);
    EditedBySync(x, s.blk, b);
    OwnersInTree(s.v.disk, s.fs, {});
    PosOfNew(s.fs, ino, s.q, s.t, s.blk, SlackAt(b, s.at));
    assert ThereAndBack(s.v.disk, s.mid.disk, v1.disk, x.disk, w.disk, ino, s.t.pos, PosOf(fs1, ino), s.blk) by {
      BackAgain(s.v.disk, s.mid.disk, v1.disk, x.disk, w.disk, ino, s.t.pos, PosOf(fs1, ino), s.blk);
    }
    UndoHeaders(s, v1, fs1);
    HeadersAgain(s.v, x, w);
    AllRestored(s.v, w, s.mid.disk, v1.disk, x.disk, ino, s.t.pos, PosOf(fs1, ino), s.blk);
  }

  lemma BackAgain(d: Disk, d1: Disk, d2: Disk, d3: Disk, d4: Disk, ino: nat, pos: map<nat, nat>, pos': map<nat, nat>,
      blk: nat)
    requires ValidInode(ino) && !InodeUsed(d, ino) && Node(d, ino) == ZeroInode()
    requires Adopting(d, d1, ino, pos) && Edited(d1, d2, blk) && Dropping(d2, d3, ino, pos') && Edited(d3, d4, blk)
    requires pos'.Keys == pos.Keys
    ensures ThereAndBack(d, d1, d2, d3, d4, ino, pos, pos', blk)
  {
    hide InodeUsed, Node, Adopting, Edited, Dropping;
  }

  lemma HeadersAgain(v: Volume, x: Volume, w: Volume)
    requires SameHeaders(v, x) && SameDirs(v.bgdt, x.bgdt) && w.sb == x.sb && w.bgdt == x.bgdt
    ensures SameHeaders(v, w) && SameDirs(v.bgdt, w.bgdt)
  {}

  lemma UndoHeaders(s: HoleCase, v1: Volume, fs1: FS)
    requires ValidInode(s.ino) && s.blk < 2048
    requires MakesDir(s.q) ==> s.v.bgdt[InodeToBgd(s.ino)].usedDirs < 0xFFFF
    requires Midway(s) && Done(s, v1, fs1)
    ensures SameHeaders(s.v, DeallocNode(v1, s.ino)) && SameDirs(s.v.bgdt, DeallocNode(v1, s.ino).bgdt)
  {
    hide Inv, NewFS, FirstFreeInode, Adopting, Edited, IsDirMode, Node, HoleStep, Populated, Populate, AllocNode,
      MakesDir, Holds, Written, RecordLen, SlackLen, SlackAt, Sound, Insert, DeallocNode, Sync, SameHeaders,
      DirsSet, SameDirs, Inc16, DirBlockOK;
    StepParts(s);
    WrittenDisk(s, v1);
    InvParts(s.v, s.fs);
    InvParts(v1, fs1);
    NewInodeThere(s, v1, fs1, 0);
    MetadataInRange(s.ino);
    HeadersPopulate(s.v, s.fs, {}, s.ino, s.q);
    HeadersDealloc(v1, fs1, {}, s.ino);
    HeadersThrough(s.v, s.mid, v1, DeallocNode(v1, s.ino));
    DirsBack(s.v, s.mid, v1, DeallocNode(v1, s.ino), InodeToBgd(s.ino), MakesDir(s.q));
  }

  lemma HeadersThrough(v: Volume, w: Volume, v1: Volume, x: Volume)
    requires SameHeaders(v, w) && v1.sb == w.sb && v1.bgdt == w.bgdt && SameHeaders(v1, x)
    ensures SameHeaders(v, x)
  {}

  /** `write` succeeds, without growing the directory. */
  predicate WritesInHole(v: Volume, q: Request) {
    && ValidRequest(q) && ParentOK(v, q) && q.parent != 0 && IsDirMode(ParentNode(v, q).mode)
    && FindRoom(v.disk, ParentNode(v, q), 0, q.name).InHole?
    && WriteSafe(v, q) && WriteCode(v, q) == 0
  }

  /** Deleting what `q` wrote succeeds and brings the state `v` back. */
  ghost predicate UndoneBy(v: Volume, v1: Volume, q: Request, stack: u32) {
    && ValidRequest(q) && ParentOK(v1, q)
    && DeleteCode(v1, q, stack) == 0 && Restored(v, DeleteOp(v1, q, stack).v)
  }

  ghost predicate DirCountsSmall(v: Volume) { forall g :: 0 <= g < 8 ==> v.bgdt[g].usedDirs < 0xFFFF }

  lemma DoneUndone(s: HoleCase, v1: Volume, fs1: FS, stack: u32)
    requires Midway(s) && Done(s, v1, fs1) && (MakesDir(s.q) ==> stack == 0 && DirCountsSmall(s.v))
    ensures UndoneBy(s.v, v1, Undoing(s.q), stack)
  {
    hide Inv, FindEntry, IsDirMode, Node, DirOK, HoleStep, NewFS, Written, DeleteAt, DeallocNode, Sync, Restored,
      ParentOK, Sound, RecordLen, SlackLen, SlackAt, DirBlockOK;
    UndoFinds(s, v1, fs1);
    UndoDeletes(s, v1, fs1, stack);
    MetadataInRange(s.ino);
    UndoState(s, v1, fs1);
    DeleteIs(v1, Undoing(s.q), stack, s.bi, s.blk, SlackAt(s.v.disk[s.blk], s.at));
  }

  lemma DeleteIs(v: Volume, q: Request, stack: u32, bi: nat, blk: nat, at: nat)
    requires ValidRequest(q) && ParentOK(v, q) && q.parent != 0 && IsDirMode(ParentNode(v, q).mode) && bi < 15
    requires FindEntry(v.disk, ParentNode(v, q), 0, q.name) == Place(bi, at) && ParentNode(v, q).block[bi] == blk
    ensures DirBlockOK(v.disk, blk) && Sound(v.disk[blk], at) && DeleteOp(v, q, stack) == DeleteAt(v, q, blk, at, stack)
  {
    hide Node, IsDirMode, FindEntry, DeleteAt, Chain, Reaches, Live, NameAt;
    FindEntrySound(v.disk, ParentNode(v, q), 0, q.name);
  }

  lemma HoleIsDone(v: Volume, fs: FS, q: Request) returns (s: HoleCase, fs1: FS)
    requires WritesInHole(v, q) && Inv(v, fs)
    ensures s.v == v && s.fs == fs && s.q == q && Done(s, WriteOp(v, q).v, fs1) && Midway(s)
    ensures FindRoom(v.disk, ParentNode(v, q), 0, q.name) == InHole(s.bi, s.at) && s.ino == FirstFreeInode(v.disk, 1)
  {
    hide Inv, DirOK, IsDirMode, FindRoom, HoleAt, RoomForDir, FirstFree, FirstFreeInode, Chain, Reaches, Live, NewFS,
         SlackLen, RecordLen, Blocks, Listing, Passed, Node, Populate, AllocNode, Populated, Named;
    ScanFacts(v, fs, q);
    var n := ParentNode(v, q);
    FindRoomSound(v.disk, n, 0, q.name);
    var ino := FirstFreeInode(v.disk, 1);
    match FindRoom(v.disk, n, 0, q.name)
    case InHole(bi, at) =>
      var blk := fs.tree[q.parent][bi];
      HoleFacts(v.disk, fs, q, bi, blk, at);
      var t := WriteInHoleHolds(v, fs, q, ino, bi, blk, at);
      s := HoleCase(v, fs, q, ino, bi, blk, at, t, Populate(AllocNode(v, ino), ino, q));
      HoleWrites(s);
      fs1 := Named(NewFS(fs, ino, q, t), ino, blk, SlackAt(v.disk[blk], at));
    case _ =>
  }

  lemma HoleFacts(d: Disk, fs: FS, q: Request, bi: nat, blk: nat, at: nat)
    requires HoleAt(d, fs, q, bi, blk, at)
    ensures DirBlockOK(d, blk) && Reaches(d[blk], 0, at) && Live(d[blk], at)
    ensures RecordLen(|q.name|) <= SlackLen(d[blk], at)
    ensures IsDirBlock(fs, q.parent, bi, blk)
  {
    hide Chain, Reaches, Live, EntriesBefore, Listing, Passed, NameAt, RecordLen, SlackLen, Blocks;
  }

  /**
   * Writing a new file or directory into a hole and deleting it again restores both caches and every block in use,
   * byte for byte: the directory block, the inode table, all bitmaps, the group descriptors and the superblock.
   */
  lemma WriteUndone(v: Volume, fs: FS, q: Request, stack: u32)
    requires WritesInHole(v, q) && Inv(v, fs) && (MakesDir(q) ==> stack == 0 && DirCountsSmall(v))
    ensures UndoneBy(v, WriteOp(v, q).v, Undoing(q), stack)
  {
    hide Inv, Done, UndoneBy, WriteOp, Undoing, WriteSafe, FindRoom, IsDirMode, Node, ParentOK;
    var s, fs1 := HoleIsDone(v, fs, q);
    DoneUndone(s, WriteOp(v, q).v, fs1, stack);
  }
}
