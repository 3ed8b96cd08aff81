/**
 * What holds of the volume between operations: the allocator, the mapping trees, the directories and the names agree.
 * `FS` is the abstract file system the bytes stand for.
 */
module Invariant {
  import opened Bytes
  import opened Layout
  import opened Metadata
  import opened Volume
  import opened FileTree
  import opened Accounting
  import opened Allocation
  import opened Directory
  import opened Operations

  /**
   * tree: the blocks of each allocated inode, in taking order;   owner: for each data-area block in use, whose it is;
   * data: the bytes of each regular file;                        home: where the one entry naming an inode sits.
   */
  datatype FS = FS(tree: map<nat, seq<nat>>, owner: map<nat, (nat, nat)>, data: map<nat, seq<byte>>,
                   home: map<nat, (nat, nat)>)

  // ----- inodes -----

  ghost predicate InodesOK(d: Disk, fs: FS) {
    && 1 in fs.tree && fs.data.Keys <= fs.tree.Keys && fs.home.Keys <= fs.tree.Keys
    && (forall ino :: ino in fs.tree ==> ValidInode(ino))
    && (forall ino {:trigger InodeUsed(d, ino)} :: ValidInode(ino) ==> (InodeUsed(d, ino) <==> ino in fs.tree))
    && (forall ino {:trigger Node(d, ino)} :: ValidInode(ino) && ino !in fs.tree ==> Node(d, ino) == ZeroInode())
  }

  // ----- blocks: each in use has one owner, and at one position only -----

  ghost predicate OwnersOK(d: Disk, fs: FS, loose: set<nat>) {
    && (forall m {:trigger m in fs.owner} :: m in fs.owner ==>
         m < 2048 && !Meta(m) && Used(d, m) && m !in loose)
    && (forall m {:trigger m in loose} :: m in loose ==> m < 2048 && !Meta(m) && Used(d, m))
    && (forall m {:trigger Used(d, m)} :: 0 <= m < 2048 && Used(d, m) && !Meta(m) ==> m in fs.owner || m in loose)
    && (forall m {:trigger OwnedAt(fs, m)} :: m in fs.owner ==> OwnedAt(fs, m))
    && (forall ino {:trigger Owns(fs, ino)} :: ino in fs.tree ==> Owns(fs, ino))
  }

  ghost predicate OwnedAt(fs: FS, m: nat)
    requires m in fs.owner
  {
    var o := fs.owner[m];
    o.0 in fs.tree && o.1 < |fs.tree[o.0]| && fs.tree[o.0][o.1] == m
  }

  ghost predicate Owns(fs: FS, ino: nat)
    requires ino in fs.tree
  {
    forall q :: 0 <= q < |fs.tree[ino]| ==> fs.tree[ino][q] in fs.owner && fs.owner[fs.tree[ino][q]] == (ino, q)
  }

  // ----- inodes and their blocks -----

  ghost predicate FileOK(d: Disk, node: Inode, a: seq<nat>, data: seq<byte>) {
    && |data| < 0x1_0000_0000 && SameHeader(node, |data|)
    && Lays(d, node, a) && DataOn(d, a, data)
  }

  ghost predicate DirectoryOK(d: Disk, node: Inode, a: seq<nat>, ino: nat) {
    && node.mode == EXT2_S_IFDIR && 1 <= node.blocks <= 12 && |a| == node.blocks && node.size == 512 * node.blocks
    && Lays(d, node, a)
    && (forall i :: 0 <= i < |a| ==> Chain(d[a[i]], 0))
    && Dots(d[a[0]], ino)
  }

  ghost predicate Dots(b: Block, ino: nat) {
    && Chain(b, 0)
    && var es := Entries(b, 0);
       |es| >= 2 && es[0].at == 0 && es[0].ino == ino && es[0].name == DOT && es[0].ftype == EXT2_FT_DIR &&
       es[1].at == 12 && es[1].name == DOTDOT && es[1].ftype == EXT2_FT_DIR
  }

  ghost predicate ContentOK(d: Disk, fs: FS, ino: nat)
    requires ino in fs.tree
  {
    ValidInode(ino) &&
    if ino in fs.data then FileOK(d, Node(d, ino), fs.tree[ino], fs.data[ino])
    else DirectoryOK(d, Node(d, ino), fs.tree[ino], ino)
  }

  ghost predicate ContentsOK(d: Disk, fs: FS) {
    forall ino {:trigger ContentOK(d, fs, ino)} :: ino in fs.tree ==> ContentOK(d, fs, ino)
  }

  // ----- names: every entry but the dots names an allocated inode of its type, and no inode is named twice -----

  ghost predicate EntryOK(fs: FS, blk: nat, e: Entry) {
    && e.ino != 1 && e.ino in fs.tree && e.ino in fs.home && fs.home[e.ino] == (blk, e.at)
    && e.ftype == (if e.ino in fs.data then EXT2_FT_REG_FILE else EXT2_FT_DIR)
  }

  /** All entries of block `blk` from the `skip`-th on, the one at `gap` excepted. */
  ghost predicate BlockNamesOK(b: Block, fs: FS, blk: nat, skip: nat, gap: set<(nat, nat)>) {
    && Chain(b, 0)
    && forall k :: skip <= k < |Entries(b, 0)| ==>
         (blk, Entries(b, 0)[k].at) in gap || EntryOK(fs, blk, Entries(b, 0)[k])
  }

  /** "." and ".." head the first block of a directory and are exempt. */
  function Skip(i: nat): nat { if i == 0 then 2 else 0 }

  ghost predicate NamesOK(d: Disk, fs: FS, gap: set<(nat, nat)>) {
    forall ino {:trigger DirNamesOK(d, fs, gap, ino)} :: ino in fs.tree && ino !in fs.data ==>
      DirNamesOK(d, fs, gap, ino)
  }

  ghost predicate DirNamesOK(d: Disk, fs: FS, gap: set<(nat, nat)>, ino: nat)
    requires ino in fs.tree
  {
    forall i :: 0 <= i < |fs.tree[ino]| ==>
      fs.tree[ino][i] < 2048 && BlockNamesOK(d[fs.tree[ino][i]], fs, fs.tree[ino][i], Skip(i), gap)
  }

  /**
   * `loose` are blocks in use that nothing owns yet, `gap` an entry whose inode is just being deleted;
   * both are empty between operations.
   */
  ghost predicate Holds(v: Volume, fs: FS, loose: set<nat>, gap: set<(nat, nat)>) {
    && Counted(v) && MetaUsed(v.disk)
    && InodesOK(v.disk, fs) && OwnersOK(v.disk, fs, loose) && ContentsOK(v.disk, fs) && NamesOK(v.disk, fs, gap)
  }

  ghost predicate Inv(v: Volume, fs: FS) {
    Holds(v, fs, {}, {}) && Synced(v.disk, v.sb, v.bgdt)
  }

  // ----- frames -----

  predicate IsTable(m: nat) { 5 <= m < 2048 && Meta(m) && !IsBlockBitmap(m) && !IsInodeBitmap(m) }

  lemma DataNotBitmap(m: nat)
    requires 21 <= m < 2048 && !Meta(m)
    ensures !IsBlockBitmap(m) && !IsInodeBitmap(m) && !IsTable(m)
  {}

  ghost predicate SameTables(d: Disk, d': Disk) {
    forall m: nat {:trigger d'[m]} :: IsTable(m) ==> d'[m] == d[m]
  }

  ghost predicate SameInodeBitmaps(d: Disk, d': Disk) {
    forall m: nat {:trigger d'[m]} :: IsInodeBitmap(m) ==> d'[m] == d[m]
  }

  ghost predicate SameBlockBitmaps(d: Disk, d': Disk) {
    forall m: nat {:trigger d'[m]} :: IsBlockBitmap(m) ==> d'[m] == d[m]
  }

  ghost predicate SameBeyond(b: Block, b': Block, n: nat) {
    forall i {:trigger Bit(b', i)} :: n <= i < 4096 ==> (Bit(b', i) <==> Bit(b, i))
  }

  /**
   * What no operation ever touches: the boot block, the tails of the two cache blocks, the blocks past the groups, and
   * the bits of each bitmap past its group.
   */
  ghost predicate Untouched(d: Disk, d': Disk) {
    && d'[0] == d[0] && d'[1][44..] == d[1][44..] && d'[2][256..] == d[2][256..]
    && (forall m {:trigger d'[m]} :: 2048 <= m < 8192 ==> d'[m] == d[m])
    && (forall g :: 0 <= g < 8 ==> SameBeyond(d[BlockBitmap(g)], d'[BlockBitmap(g)], 256))
    && (forall g :: 0 <= g < 8 ==> SameBeyond(d[InodeBitmap(g)], d'[InodeBitmap(g)], 112))
  }

  lemma UntouchedTransitive(d: Disk, d': Disk, d'': Disk)
    requires Untouched(d, d') && Untouched(d', d'')
    ensures Untouched(d, d'')
  {
    hide Bit;
  }

  lemma UntouchedPut(d: Disk, m: nat, b: Block)
    requires 5 <= m < 2048 && !IsBlockBitmap(m) && !IsInodeBitmap(m)
    ensures Untouched(d, d[m := b])
  {}

  lemma UntouchedSync(v: Volume)
    ensures Untouched(v.disk, Sync(v).disk)
  {
    hide Bit, EncSuperblock, EncTable;
  }

  lemma UntouchedInodeMark(d: Disk, ino: nat)
    requires ValidInode(ino)
    ensures Untouched(d, MarkInodeUsed(d, ino)) && Untouched(d, MarkInodeFree(d, ino))
  {
    hide Bit;
    MetadataInRange(ino);
  }

  lemma UntouchedTaking(w: Volume, t: Account)
    requires Taking(w, t)
    ensures Untouched(t.v0.disk, w.disk)
  {
    hide Bit, Counted, FirstFit, Used;
    forall m: nat | m <= 2 || 2048 <= m < 8192 || IsInodeBitmap(m) ensures w.disk[m] == t.v0.disk[m] {
      assert m < 2048 ==> Meta(m);
    }
    forall g | 0 <= g < 8 ensures SameBeyond(t.v0.disk[BlockBitmap(g)], w.disk[BlockBitmap(g)], 256) {
      assert BitsAdded(t.v0.disk[BlockBitmap(g)], w.disk[BlockBitmap(g)], g, t.pos);
    }
  }

  lemma NodesSame(d: Disk, d': Disk)
    requires SameTables(d, d')
    ensures forall k :: ValidInode(k) ==> Node(d', k) == Node(d, k)
  {
    forall k | ValidInode(k) ensures Node(d', k) == Node(d, k) {
      MetadataInRange(k);
      assert IsTable(TableBlock(k));
    }
  }

  lemma InodeBitsSame(d: Disk, d': Disk)
    requires SameInodeBitmaps(d, d')
    ensures forall k :: ValidInode(k) ==> (InodeUsed(d', k) <==> InodeUsed(d, k))
  {
    forall k | ValidInode(k) ensures InodeUsed(d', k) <==> InodeUsed(d, k) {
      assert IsInodeBitmap(InodeBitmap(InodeToBgd(k)));
    }
  }

  lemma BlockBitsSame(d: Disk, d': Disk)
    requires SameBlockBitmaps(d, d')
    ensures forall m :: 0 <= m < 2048 ==> (Used(d', m) <==> Used(d, m))
    ensures MetaUsed(d) ==> MetaUsed(d')
  {
    forall m | 0 <= m < 2048 ensures Used(d', m) <==> Used(d, m) { assert IsBlockBitmap(BlockBitmap(m / 256)); }
  }

  lemma CountedSame(v: Volume, v': Volume)
    requires SameBlockBitmaps(v.disk, v'.disk) && SameInodeBitmaps(v.disk, v'.disk)
    requires v'.sb == v.sb && Counted(v)
    requires forall g :: 0 <= g < 8 ==> v'.bgdt[g] == v.bgdt[g]
    ensures Counted(v')
  {
    assert v'.bgdt == v.bgdt;
    forall g | 0 <= g < 8 ensures GroupCount(v'.disk, v'.bgdt, g) {
      assert GroupCount(v.disk, v.bgdt, g) && IsBlockBitmap(BlockBitmap(g)) && IsInodeBitmap(InodeBitmap(g));
    }
  }

  /** `Sync` touches nothing but blocks 1 and 2. */
  lemma SyncSpec(v: Volume)
    ensures Synced(Sync(v).disk, v.sb, v.bgdt) && Sync(v).sb == v.sb && Sync(v).bgdt == v.bgdt
    ensures forall m :: 3 <= m < 8192 ==> Sync(v).disk[m] == v.disk[m]
    ensures SameTables(v.disk, Sync(v).disk) && SameInodeBitmaps(v.disk, Sync(v).disk)
    ensures SameBlockBitmaps(v.disk, Sync(v).disk)
    ensures Counted(v) ==> Counted(Sync(v))
    ensures Untouched(v.disk, Sync(v).disk)
  {
    hide EncSuperblock, EncTable, Untouched;
    UntouchedSync(v);
    if Counted(v) { CountedSame(v, Sync(v)); }
  }

  lemma HoldsAfterSync(v: Volume, fs: FS, loose: set<nat>, gap: set<(nat, nat)>)
    requires Holds(v, fs, loose, gap)
    ensures Holds(Sync(v), fs, loose, gap) && Synced(Sync(v).disk, Sync(v).sb, Sync(v).bgdt)
  {
    hide Synced, Sync, InodeUsed, Used, Counted, ContentOK, BlockNamesOK, Untouched;
    SyncSpec(v);
    NodesSame(v.disk, Sync(v).disk);
    InodeBitsSame(v.disk, Sync(v).disk);
    BlockBitsSame(v.disk, Sync(v).disk);
    ContentsSame(v.disk, Sync(v).disk, fs);
    NamesSame(v.disk, Sync(v).disk, fs, gap);
  }

  /** Contents and names depend only on the inodes and on the blocks the trees own. */
  lemma ContentsSame(d: Disk, d': Disk, fs: FS)
    requires ContentsOK(d, fs)
    requires forall k :: ValidInode(k) ==> Node(d', k) == Node(d, k)
    requires forall m :: 21 <= m < 2048 && !Meta(m) ==> d'[m] == d[m]
    ensures ContentsOK(d', fs)
  {
    hide Node, ContentOK, InRange;
    forall ino | ino in fs.tree ensures ContentOK(d', fs, ino) {
      assert ContentOK(d, fs, ino);
      ContentInRange(d, fs, ino);
      DataAreaKept(d, d', fs.tree[ino]);
      ContentSame(d, d', fs, ino);
    }
  }

  lemma ContentInRange(d: Disk, fs: FS, ino: nat)
    requires ino in fs.tree && ContentOK(d, fs, ino)
    ensures ValidInode(ino) && InRange(fs.tree[ino])
  {
    hide Node, Chain, Entries, DataOn, Direct, Indirect, Double;
  }

  lemma DataAreaKept(d: Disk, d': Disk, a: seq<nat>)
    requires InRange(a) && forall m :: 21 <= m < 2048 && !Meta(m) ==> d'[m] == d[m]
    ensures Kept(d, d', a)
  {}

  lemma ContentSame(d: Disk, d': Disk, fs: FS, ino: nat)
    requires ino in fs.tree && ContentOK(d, fs, ino) && Node(d', ino) == Node(d, ino)
    requires Kept(d, d', fs.tree[ino])
    ensures ContentOK(d', fs, ino)
  {
    hide Node, Chain, Entries, PtrRun, PtrStride, Chunk;
    var node, a := Node(d, ino), fs.tree[ino];
    LaysSame(d, d', node, a);
    if ino in fs.data {
      DataSame(d, d', a, fs.data[ino]);
    } else {
      forall i | 0 <= i < |a| ensures Chain(d'[a[i]], 0) { assert d'[a[i]] == d[a[i]]; }
      assert d'[a[0]] == d[a[0]];
    }
  }

  lemma LaysSame(d: Disk, d': Disk, node: Inode, a: seq<nat>)
    requires Lays(d, node, a) && Kept(d, d', a)
    ensures Lays(d', node, a)
  {
    hide PtrRun, PtrStride;
    forall k | 0 <= k < 128 ensures Inner(d', a, k) { assert Inner(d, a, k); }
  }

  lemma DataSame(d: Disk, d': Disk, a: seq<nat>, data: seq<byte>)
    requires DataOn(d, a, data) && Kept(d, d', a)
    ensures DataOn(d', a, data)
  {
    hide Chunk;
    forall j | 0 <= j < DataCount(|a|) ensures d'[BlockOf(a, j)] == Chunk(data, j) {
      DataPosSpec(j, |a|);
      assert d'[a[DataPos(j)]] == d[a[DataPos(j)]];
    }
  }

  lemma NamesSame(d: Disk, d': Disk, fs: FS, gap: set<(nat, nat)>)
    requires NamesOK(d, fs, gap) && ContentsOK(d, fs)
    requires forall m :: 21 <= m < 2048 && !Meta(m) ==> d'[m] == d[m]
    ensures NamesOK(d', fs, gap)
  {
    hide BlockNamesOK, ContentOK;
    forall ino | ino in fs.tree && ino !in fs.data ensures DirNamesOK(d', fs, gap, ino) {
      assert ContentOK(d, fs, ino) && DirNamesOK(d, fs, gap, ino);
      ContentInRange(d, fs, ino);
    }
  }
}
