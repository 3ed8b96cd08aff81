/**
 * The conditions under which `write` keeps the volume sound are necessary: without them no abstract file system fits
 * the result.
 */
module Exactness {
  import opened Bytes
  import opened Options
  import opened Layout
  import opened Metadata
  import opened Volume
  import opened FileTree
  import opened Accounting
  import opened Directory
  import opened Operations
  import opened Invariant
  import opened Creation
  import opened Naming
  import opened Growth
  import opened Writing
  import opened Observing
  import opened WriteEffects
  import opened Effects
  import opened TreeShape

  // ----- a mapping tree is determined by the inode and its pointer blocks -----

  /** Positions of pointer blocks in the taking order. */
  predicate IsPointerPos(i: nat) { i == 12 || i == 141 || (i >= 142 && (i - 142) % 129 == 0) }

  lemma DirectFollows(n: Inode, n': Inode, a: seq<nat>, a': seq<nat>, q: nat)
    requires Direct(n, a) && Direct(n', a') && q < |a| && q < 12 && n'.block[q] == n.block[q] && a[q] != 0
    ensures q < |a'| && a'[q] == a[q]
  {
    assert n.block[q] == At(a, q) && n'.block[q] == At(a', q);
  }

  lemma IndirectFollows(d: Disk, d': Disk, n: Inode, n': Inode, a: seq<nat>, a': seq<nat>, q: nat)
    requires Indirect(d, n, a) && Indirect(d', n', a') && 12 <= q < |a| && q <= 140 && n'.block[12] == n.block[12]
    requires a[q] != 0
    requires q != 12 && a[12] < 8192 ==> d'[a[12]] == d[a[12]]
    ensures q < |a'| && a'[q] == a[q]
  {
    hide PtrAt;
    assert a[12] != 0;
    assert At(a', 12) == a[12] && |a'| > 12;
    if q != 12 {
      assert PtrAt(d[a[12]], q - 13) == At(a, 13 + (q - 13)) && PtrAt(d'[a[12]], q - 13) == At(a', 13 + (q - 13));
    }
  }

  lemma DoubleFollows(d: Disk, d': Disk, n: Inode, n': Inode, a: seq<nat>, a': seq<nat>, q: nat)
    requires Double(d, n, a) && Double(d', n', a') && 141 <= q < |a| && |a| <= 142 + 129 * 128
    requires n'.block[13] == n.block[13]
    requires forall i :: 141 <= i < q && IsPointerPos(i) && a[i] < 8192 ==> d'[a[i]] == d[a[i]]
    ensures q < |a'| && a'[q] == a[q]
  {
    hide PtrAt, PtrRun, PtrStride;
    assert a[q] != 0 && a[141] != 0 && At(a', 141) == a[141] && |a'| > 141;
    if q > 141 {
      assert d'[a[141]] == d[a[141]];
      var k, r := (q - 142) / 129, (q - 142) % 129;
      var p := 142 + 129 * k;
      InnerFollows(d[a[141]], a, a', k);
      if r != 0 {
        assert IsPointerPos(p) by { assert (p - 142) % 129 == 0; }
        assert Inner(d, a, k) && Inner(d', a', k);
        RunFollows(d[a[p]], a, a', p + 1, r - 1);
      }
    }
  }

  lemma InnerFollows(b: Block, a: seq<nat>, a': seq<nat>, k: nat)
    requires PtrStride(b, a) && PtrStride(b, a') && k < 128 && 142 + 129 * k < |a| && a[142 + 129 * k] != 0
    ensures 142 + 129 * k < |a'| && a'[142 + 129 * k] == a[142 + 129 * k]
  {
    hide PtrAt;
    assert PtrAt(b, k) == At(a, 142 + 129 * k) && PtrAt(b, k) == At(a', 142 + 129 * k);
  }

  lemma RunFollows(b: Block, a: seq<nat>, a': seq<nat>, base: nat, j: nat)
    requires PtrRun(b, a, base) && PtrRun(b, a', base) && j < 128 && base + j < |a| && a[base + j] != 0
    ensures base + j < |a'| && a'[base + j] == a[base + j]
  {
    hide PtrAt;
    assert PtrAt(b, j) == At(a, base + j) && PtrAt(b, j) == At(a', base + j);
  }

  /** Following the same pointers leads to the same block. */
  lemma TreeFollows(d: Disk, d': Disk, n: Inode, n': Inode, a: seq<nat>, a': seq<nat>, q: nat)
    requires Lays(d, n, a) && Lays(d', n', a') && q < |a|
    requires if q < 12 then n'.block[q] == n.block[q] else n'.block[12] == n.block[12] && n'.block[13] == n.block[13]
    requires forall i :: 0 <= i < q && IsPointerPos(i) && a[i] < 8192 ==> d'[a[i]] == d[a[i]]
    ensures q < |a'| && a'[q] == a[q]
  {
    hide Direct, Indirect, Double, IsPointerPos;
    assert a[q] != 0;
    LaysLimit(d, n, a);
    if q < 12 { DirectFollows(n, n', a, a', q); }
    else if q <= 140 {
      assert IsPointerPos(12) by { TwelveIsPointer(); }
      IndirectFollows(d, d', n, n', a, a', q);
    } else { DoubleFollows(d, d', n, n', a, a', q); }
  }

  lemma TwelveIsPointer()
    ensures IsPointerPos(12)
  {}

  lemma LaysLimit(d: Disk, n: Inode, a: seq<nat>)
    requires Lays(d, n, a)
    ensures |a| <= 142 + 129 * 128
  {
    hide Direct, Indirect, Double;
  }

  // ----- what a sound volume would have to say -----

  lemma TreeOfSound(v: Volume, fs: FS, k: nat)
    requires k in fs.tree && Holds(v, fs, {}, {})
    ensures ValidInode(k) && InodeUsed(v.disk, k) && Lays(v.disk, Node(v.disk, k), fs.tree[k]) && InRange(fs.tree[k])
    ensures forall q :: 0 <= q < |fs.tree[k]| ==> fs.tree[k][q] in fs.owner && fs.owner[fs.tree[k][q]] == (k, q)
  {
    hide Counted, MetaUsed, NamesOK, InodeUsed, Used, Node, DataOn, Direct, Indirect, Double, Chain, Entries, Meta;
    assert ContentOK(v.disk, fs, k) && Owns(fs, k);
  }

  lemma MarkedIsThere(v: Volume, fs: FS, k: nat)
    requires ValidInode(k) && InodeUsed(v.disk, k) && Holds(v, fs, {}, {})
    ensures k in fs.tree
  {
    hide Counted, MetaUsed, OwnersOK, ContentsOK, NamesOK, InodeUsed, Node;
  }

  ghost predicate SamePath(n: Inode, n': Inode, q: nat) {
    if q < 12 then n'.block[q] == n.block[q] else n'.block[12] == n.block[12] && n'.block[13] == n.block[13]
  }

  /** A block an inode owned is still at its place in any abstract file system that fits the new state. */
  lemma StillOwned(v: Volume, v': Volume, fs: FS, fs': FS, k: nat, q: nat)
    requires k in fs.tree && q < |fs.tree[k]| && ValidInode(k) && InodeUsed(v'.disk, k)
    requires SamePath(Node(v.disk, k), Node(v'.disk, k), q)
    requires forall m :: m in fs.owner && fs.owner[m].1 >= 12 && m < 2048 && m != fs.tree[k][q] ==>
        v'.disk[m] == v.disk[m]
    requires Holds(v, fs, {}, {}) && Holds(v', fs', {}, {})
    ensures k in fs'.tree && q < |fs'.tree[k]| && fs'.tree[k][q] == fs.tree[k][q]
  {
    hide Holds, InodeUsed, Node, Lays, Meta;
    TreeOfSound(v, fs, k);
    MarkedIsThere(v', fs', k);
    TreeOfSound(v', fs', k);
    var a := fs.tree[k];
    forall i | 0 <= i < q && IsPointerPos(i) && a[i] < 8192 ensures v'.disk[a[i]] == v.disk[a[i]] {
      assert fs.owner[a[i]] == (k, i) && fs.owner[a[q]] == (k, q);
      RangeAt(a, i);
    }
    TreeFollows(v.disk, v'.disk, Node(v.disk, k), Node(v'.disk, k), a, fs'.tree[k], q);
  }

  lemma RangeAt(a: seq<nat>, i: nat)
    requires InRange(a) && i < |a|
    ensures a[i] < 2048
  {}

  /** No block has two owners. */
  lemma OneOwner(v: Volume, fs: FS, i: nat, q: nat, j: nat, r: nat)
    requires i in fs.tree && q < |fs.tree[i]| && j in fs.tree && r < |fs.tree[j]| && fs.tree[i][q] == fs.tree[j][r]
    requires Holds(v, fs, {}, {})
    ensures i == j && q == r
  {
    hide Holds, InodeUsed, Lays, Node;
    TreeOfSound(v, fs, i);
    TreeOfSound(v, fs, j);
  }

  // ----- a block leaks when no inode is left -----

  /** The new directory block is marked used but nothing can own it. */
  lemma LeakBreaks(v: Volume, fs: FS, pref: nat, b: nat, fs': FS)
    requires b == FirstFree(v.disk, 256 * pref) && b != 0 && b < 2048 && Holds(v, fs, {}, {})
    ensures !Holds(Take(v, b), fs', {}, {})
  {
    hide Holds, Used, InodeUsed, Node, FirstFree, Take, Meta, MetaUsed, Counted, SameTables, SameInodeBitmaps;
    if Holds(Take(v, b), fs', {}, {}) {
      var v' := Take(v, b);
      CountedPart(v, fs, {}, {});
      TakeOneFrame(v, pref, b);
      NodesSame(v.disk, v'.disk);
      InodeBitsSame(v.disk, v'.disk);
      UsedIsOwned(v', fs', b);
      var k, q := fs'.owner[b].0, fs'.owner[b].1;
      TreeOfSound(v', fs', k);
      forall m | m in fs'.owner && m < 2048 ensures v'.disk[m] == v.disk[m] {
        OwnedNotMeta(v', fs', m);
        SameDataAt(v.disk, v'.disk, m);
      }
      StillOwned(v', v, fs', fs, k, q);
      TreeOfSound(v, fs, k);
      OwnedNotMeta(v, fs, b);
      assert false;
    }
  }

  lemma UsedIsOwned(v: Volume, fs: FS, m: nat)
    requires m < 2048 && Used(v.disk, m) && !Meta(m) && Holds(v, fs, {}, {})
    ensures m in fs.owner && fs.owner[m].0 in fs.tree && fs.owner[m].1 < |fs.tree[fs.owner[m].0]|
    ensures fs.tree[fs.owner[m].0][fs.owner[m].1] == m
  {
    hide Counted, MetaUsed, InodesOK, ContentsOK, NamesOK, Used, Meta;
    assert OwnedAt(fs, m);
  }

  lemma OwnedNotMeta(v: Volume, fs: FS, m: nat)
    requires m in fs.owner && Holds(v, fs, {}, {})
    ensures 21 <= m < 2048 && !Meta(m) && Used(v.disk, m)
  {
    hide Counted, MetaUsed, InodesOK, ContentsOK, NamesOK, Used, Meta;
    DataAreaStart(m);
  }

  // ----- inodes that cannot be right -----

  /** In a sound volume an allocated inode is a file, or a directory of at most twelve blocks. */
  lemma SoundInode(v: Volume, k: nat, fs: FS)
    requires ValidInode(k) && InodeUsed(v.disk, k) && Holds(v, fs, {}, {})
    ensures Node(v.disk, k).mode == EXT2_S_IFREG ||
        (Node(v.disk, k).mode == EXT2_S_IFDIR && Node(v.disk, k).blocks <= 12)
  {
    hide Counted, MetaUsed, OwnersOK, NamesOK, InodeUsed, Node, Lays, DataOn, Chain, Entries;
    MarkedIsThere(v, fs, k);
    assert ContentOK(v.disk, fs, k);
  }

  // ----- making an inode, with or without a free block -----

  /** `ino` was marked and made; of the blocks in use only `f` may have been written. */
  ghost predicate InodeMade(d: Disk, d': Disk, ino: nat, f: nat) {
    && ValidInode(ino)
    && (forall k :: ValidInode(k) ==> (InodeUsed(d', k) <==> InodeUsed(d, k) || k == ino))
    && (forall k :: ValidInode(k) && k != ino ==> Node(d', k) == Node(d, k))
    && (forall m :: 21 <= m < 2048 && !Meta(m) && Used(d, m) && m != f ==> d'[m] == d[m])
  }

  lemma AdoptingMade(d: Disk, d': Disk, ino: nat, pos: map<nat, nat>, f: nat)
    requires Adopting(d, d', ino, pos)
    ensures InodeMade(d, d', ino, f)
  {
    hide Used, InodeUsed, Node, OneSlot, Untouched, Meta;
  }

  /** Without a free block a new directory goes to the first data block of its inode's group. */
  lemma FallbackIsData(g: nat)
    requires g < 8
    ensures 21 <= FallbackBlock(g) < 2048 && FallbackBlock(g) >= 256 * g && FallbackBlock(g) / 256 == g
    ensures !Meta(FallbackBlock(g)) && forall m :: 256 * g <= m < FallbackBlock(g) ==> Meta(m)
  {}

  lemma FallbackMade(v: Volume, fs: FS, loose: set<nat>, ino: nat, parent: nat)
    requires ino == FirstFreeInode(v.disk, 1) && ino != 0 && ValidInode(ino) && 0 < parent < 0x1_0000_0000
    requires !RoomForDir(v.disk, ino) && Holds(v, fs, loose, {})
    ensures var w, f := MakeDir(AllocNode(v, ino), ino, parent), FallbackBlock(InodeToBgd(ino));
      f < 2048 && InodeMade(v.disk, w.disk, ino, f) && Node(w.disk, ino) == DirNode(ZeroInode(), f)
  {
    hide Holds, Counted, MetaUsed, InodeUsed, Used, Node, AllocNode, Sync, SameTables, SameInodeBitmaps,
      SameBlockBitmaps, SameData, Synced, NewDirBlock, FirstFree, FirstFreeInode, Untouched, WithUsedDirs, DirNode,
      SyncNode, Meta, OneSlot;
    FreeInode(v, fs, loose, {}, ino);
    var v1, g := AllocNode(v, ino), InodeToBgd(ino);
    MetadataInRange(ino);
    AllocNodeSpec(v, ino);
    NodesSame(v.disk, v1.disk);
    BlockBitsSame(v.disk, v1.disk);
    FirstFreeSame(v.disk, v1.disk, 256 * g);
    var f := FallbackBlock(g);
    FallbackIsData(g);
    var x := PutBlock(v1, f, NewDirBlock(ino, parent));
    NodesUntouched(v1.disk, f, NewDirBlock(ino, parent));
    InodeBitsUntouched(v1.disk, f, NewDirBlock(ino, parent));
    SyncSpec(x);
    NodesSame(x.disk, Sync(x).disk);
    InodeBitsSame(x.disk, Sync(x).disk);
    var y := WithUsedDirs(Sync(x), g, Inc16(Sync(x).bgdt[g].usedDirs));
    assert y.disk == Sync(x).disk by { UsedDirsDisk(Sync(x), g, Inc16(Sync(x).bgdt[g].usedDirs)); }
    var n := DirNode(Node(v1.disk, ino), f);
    SyncNodeSpec(y, ino, n);
    InodeBitsSame(y.disk, SyncNode(y, ino, n).disk);
    forall m | 21 <= m < 2048 && !Meta(m) && Used(v.disk, m) && m != f
      ensures SyncNode(y, ino, n).disk[m] == v.disk[m]
    {
      SameDataAt(v.disk, v1.disk, m);
      SameDataAt(y.disk, SyncNode(y, ino, n).disk, m);
    }
  }

  lemma UsedDirsDisk(v: Volume, g: nat, n: u16)
    requires g < 8
    ensures WithUsedDirs(v, g, n).disk == v.disk
  {}

  lemma InodeBitsUntouched(d: Disk, m: nat, b: Block)
    requires 21 <= m < 2048 && !Meta(m)
    ensures forall k :: ValidInode(k) ==> (InodeUsed(d[m := b], k) <==> InodeUsed(d, k))
  {
    hide InodeUsed;
    DataNotBitmap(m);
    InodeBitsSame(d, d[m := b]);
  }

  /** Whichever way the new inode is made. */
  lemma PopulateMade(v: Volume, fs: FS, loose: set<nat>, ino: nat, q: Request)
    requires ino == FirstFreeInode(v.disk, 1) && ino != 0 && ValidInode(ino) && ValidRequest(q) && q.parent != 0
    requires Holds(v, fs, loose, {})
    ensures var w, f := Populate(AllocNode(v, ino), ino, q), FallbackBlock(InodeToBgd(ino));
      && InodeMade(v.disk, w.disk, ino, f)
      && (MakesDir(q) && !RoomForDir(v.disk, ino) ==> f < 2048 && Node(w.disk, ino) == DirNode(ZeroInode(), f))
  {
    hide Holds, AllocNode, MakeDir, MakeFile, FirstFree, FirstFreeInode, Populated, NewFS, RoomForDir, InodeMade,
      DirNode, Node, Adopting, Adopt, FallbackBlock;
    if MakesDir(q) && !RoomForDir(v.disk, ino) {
      FallbackMade(v, fs, loose, ino, q.parent);
    } else {
      var t := PopulateHolds(v, fs, loose, ino, q);
      PopulatedParts(v, Populate(AllocNode(v, ino), ino, q), fs, NewFS(fs, ino, q, t), loose, ino, q, t) by {
        assert NewFS(fs, ino, q, t) == Adopt(fs, ino, t.a, t.pos, if MakesDir(q) then None else Some(q.data)) by {
          NewFSIs(fs, ino, q, t);
        }
      }
      AdoptingMade(v.disk, Populate(AllocNode(v, ino), ino, q).disk, ino, t.pos, FallbackBlock(InodeToBgd(ino)));
    }
  }

  lemma NewFSIs(fs: FS, ino: nat, q: Request, t: Account)
    ensures NewFS(fs, ino, q, t) == Adopt(fs, ino, t.a, t.pos, if MakesDir(q) then None else Some(q.data))
  {}

  // ----- a directory made without a free block -----

  lemma NoRoomUsed(d: Disk, ino: nat)
    requires ValidInode(ino) && !RoomForDir(d, ino) && MetaUsed(d)
    ensures FallbackBlock(InodeToBgd(ino)) < 2048 && Used(d, FallbackBlock(InodeToBgd(ino)))
  {
    hide Used, FirstFree;
    MetadataInRange(ino);
    BootBlockUsed(d);
    FirstFreeSpec(d, 256 * InodeToBgd(ino));
    FallbackIsData(InodeToBgd(ino));
  }

  /** The one block of a directory inode. */
  lemma DirOwns(v: Volume, fs: FS, ino: nat, f: nat)
    requires ValidInode(ino) && InodeUsed(v.disk, ino) && f < 0x1_0000_0000 && f != 0
    requires Node(v.disk, ino) == DirNode(ZeroInode(), f)
    requires Holds(v, fs, {}, {})
    ensures ino in fs.tree && |fs.tree[ino]| == 1 && fs.tree[ino][0] == f
  {
    hide Counted, MetaUsed, OwnersOK, NamesOK, InodeUsed, Node, DataOn, Chain, Entries, Indirect, Double;
    MarkedIsThere(v, fs, ino);
    assert ContentOK(v.disk, fs, ino);
    assert Node(v.disk, ino).block[0] == At(fs.tree[ino], 0);
  }

  /** The fallback block then has two owners: the new directory, and whoever had it. */
  lemma FallbackBreaks(v: Volume, v': Volume, fs: FS, fs': FS, ino: nat, f: nat)
    requires ValidInode(ino) && ino !in fs.tree && f in fs.owner && f < 2048 && InodeUsed(v'.disk, ino) && f != 0
    requires Node(v'.disk, ino) == DirNode(ZeroInode(), f)
    requires ValidInode(fs.owner[f].0) && InodeUsed(v'.disk, fs.owner[f].0)
    requires SamePath(Node(v.disk, fs.owner[f].0), Node(v'.disk, fs.owner[f].0), fs.owner[f].1)
    requires forall m :: m in fs.owner && fs.owner[m].1 >= 12 && m < 2048 && m != f ==> v'.disk[m] == v.disk[m]
    requires Holds(v, fs, {}, {})
    ensures !Holds(v', fs', {}, {})
  {
    hide Holds, InodeUsed, Node, Lays, Used, Meta, DirNode;
    if Holds(v', fs', {}, {}) {
      OwnedNotMeta(v, fs, f);
      UsedIsOwned(v, fs, f);
      var k, q := fs.owner[f].0, fs.owner[f].1;
      StillOwned(v, v', fs, fs', k, q);
      DirOwns(v', fs', ino, f);
      OneOwner(v', fs', k, q, ino, 0);
      assert false;
    }
  }

  // ----- in a hole -----

  lemma HoleBreaks(v: Volume, fs: FS, q: Request, ino: nat, bi: nat, blk: nat, at: nat, fs': FS)
    requires DirBlockOK(v.disk, blk) && Sound(v.disk[blk], at) && RecordLen(|q.name|) <= SlackLen(v.disk[blk], at)
    requires ValidRequest(q) && q.parent != 0 && ino == FirstFreeInode(v.disk, 1) && ino != 0 && ValidInode(ino)
    requires MakesDir(q) && !RoomForDir(v.disk, ino) && IsDirBlock(fs, q.parent, bi, blk) && bi < 12
    requires Holds(v, fs, {}, {})
    ensures !Holds(WriteInHole(v, q, blk, at).v, fs', {}, {})
  {
    hide Holds, InodeUsed, Node, Used, Meta, DirNode, Sound, SlackLen, Chain, Insert, AllocNode, Populate, RoomForDir,
      FallbackBlock, FirstFreeInode, RecordLen, Sync, Counted, MetaUsed, Synced, SameTables, SameInodeBitmaps,
      Untouched, Dots;
    var w, f, x := Populate(AllocNode(v, ino), ino, q), FallbackBlock(InodeToBgd(ino)),
      Insert(v.disk[blk], at, ino, TypeOf(q), q.name);
    var v' := Sync(PutBlock(w, blk, x));
    FreeInode(v, fs, {}, {}, ino);
    PopulateMade(v, fs, {}, ino, q);
    NoRoomUsed(v.disk, ino);
    MetadataInRange(ino);
    FallbackIsData(InodeToBgd(ino));
    UsedIsOwned(v, fs, f);
    TreeOfSound(v, fs, fs.owner[f].0);
    DirBlockFacts(v, fs, {}, {}, q.parent, bi, blk);
    NodesUntouched(w.disk, blk, x);
    InodeBitsUntouched(w.disk, blk, x);
    SyncSpec(PutBlock(w, blk, x));
    NodesSame(PutBlock(w, blk, x).disk, v'.disk);
    InodeBitsSame(PutBlock(w, blk, x).disk, v'.disk);
    forall m | m in fs.owner && fs.owner[m].1 >= 12 && m < 2048 && m != f ensures v'.disk[m] == v.disk[m] {
      OwnedNotMeta(v, fs, m);
    }
    FallbackBreaks(v, v', fs, fs', ino, f);
  }

  // ----- when the directory grows -----

  /** The inodes after a growing write: the parent's table block is the stale one. */
  lemma GrownNodes(v: Volume, q: Request, n: Inode, ino: nat, b: nat, w: Volume)
    requires ValidRequest(q) && ValidInode(q.parent) && n.blocks < 15
    requires b == FirstFree(v.disk, 256 * InodeToBgd(q.parent)) && b != 0
    requires ino == FirstFreeInode(v.disk, 1) && ino != 0 && ValidInode(ino) && 21 <= b && !Meta(b)
    requires w == Populate(AllocNode(Take(v, b), ino), ino, q)
    ensures var v' := WriteGrowing(v, q, n).v;
      && (forall k :: ValidInode(k) ==> Node(v'.disk, k) == if k == q.parent then GrownDir(n, b)
                                        else if TableBlock(k) == TableBlock(q.parent) then Node(v.disk, k)
                                          else Node(w.disk, k))
      && (forall k :: ValidInode(k) ==> (InodeUsed(v'.disk, k) <==> InodeUsed(w.disk, k)))
      && (forall m :: 21 <= m < 2048 && !Meta(m) && m != b ==> v'.disk[m] == w.disk[m])
  {
    hide InodeUsed, Used, Meta, AllocNode, Populate, FirstFree, FirstFreeInode, Take, NewEntryBlock, Sync, Counted,
      Synced, SameTables, SameInodeBitmaps, Untouched, GrownDir, GetInode, PutInode, Node;
    var p, x := q.parent, NewEntryBlock(ino, TypeOf(q), q.name);
    var stale := PutInode(v.disk[TableBlock(p)], TableSlot(p), GrownDir(n, b));
    var w1 := PutBlock(w, b, x);
    MetadataInRange(p);
    TableApart(p);
    var w2 := PutBlock(w1, TableBlock(p), stale);
    SyncSpec(w2);
    NodesSame(w2.disk, Sync(w2).disk);
    InodeBitsSame(w2.disk, Sync(w2).disk);
    NodesUntouched(w.disk, b, x);
    InodeBitsUntouched(w.disk, b, x);
    TableBits(w1.disk, p, stale);
    forall k | ValidInode(k)
      ensures Node(w2.disk, k) == if k == p then GrownDir(n, b)
                                  else if TableBlock(k) == TableBlock(p) then Node(v.disk, k) else Node(w1.disk, k)
    {
      StaleNode(v.disk, w1.disk, p, GrownDir(n, b), k);
    }
  }

  lemma TableBits(d: Disk, p: nat, x: Block)
    requires ValidInode(p)
    ensures TableBlock(p) < 8192 && forall k :: ValidInode(k) ==>
        (InodeUsed(d[TableBlock(p) := x], k) <==> InodeUsed(d, k))
  {
    hide InodeUsed;
    TableApart(p);
    MetadataInRange(p);
    InodeBitsSame(d, d[TableBlock(p) := x]);
  }

  /** Inodes after block `TableBlock(p)` was overwritten by an older copy with inode `p` changed. */
  lemma StaleNode(d: Disk, w: Disk, p: nat, n: Inode, k: nat)
    requires ValidInode(p) && ValidInode(k)
    ensures TableBlock(p) < 8192
    ensures Node(w[TableBlock(p) := PutInode(d[TableBlock(p)], TableSlot(p), n)], k) ==
      if k == p then n else if TableBlock(k) == TableBlock(p) then Node(d, k) else Node(w, k)
  {
    hide GetInode, PutInode;
    MetadataInRange(p);
    if k == p {
      GetPut(d[TableBlock(p)], TableSlot(p), n);
    } else if TableBlock(k) == TableBlock(p) {
      if TableSlot(k) == TableSlot(p) { SlotsDistinct(k, p); }
      GetPutOther(d[TableBlock(p)], TableSlot(p), n, TableSlot(k));
    }
  }

  lemma ParentIsDir(v: Volume, fs: FS, k: nat)
    requires IsDirectory(fs, k) && ValidInode(k) && Holds(v, fs, {}, {})
    ensures Node(v.disk, k).mode == EXT2_S_IFDIR && |fs.tree[k]| == Node(v.disk, k).blocks <= 12 && InodeUsed(v.disk, k)
    ensures Direct(Node(v.disk, k), fs.tree[k]) && InRange(fs.tree[k])
  {
    hide Counted, MetaUsed, OwnersOK, NamesOK, InodeUsed, Node, DataOn, Chain, Entries, Indirect, Double;
    assert ContentOK(v.disk, fs, k);
  }

  /** A growing write, its parts named: `w` is the state after the new inode is made. */
  datatype Grow = Grow(v: Volume, fs: FS, q: Request, n: Inode, b: nat, ino: nat, w: Volume, v': Volume)

  ghost predicate GrowStep(g: Grow) {
    && ValidRequest(g.q) && ValidInode(g.q.parent) && IsDirectory(g.fs, g.q.parent) && g.n == Node(g.v.disk, g.q.parent)
    && g.n.blocks < 15 && g.b < 2048 && g.b == FirstFree(g.v.disk, 256 * InodeToBgd(g.q.parent)) && g.b != 0
    && ValidInode(g.ino) && g.ino == FirstFreeInode(g.v.disk, 1) && g.ino != 0
    && g.w == Populate(AllocNode(Take(g.v, g.b), g.ino), g.ino, g.q) && g.v' == WriteGrowing(g.v, g.q, g.n).v
    && Holds(g.v, g.fs, {}, {})
  }

  function GrewNode(g: Grow, k: nat): Inode
    requires ValidInode(k) && ValidInode(g.q.parent) && g.n.blocks < 15 && g.b < 0x1_0000_0000
  {
    if k == g.q.parent then GrownDir(g.n, g.b)
    else if k == g.ino && TableBlock(k) != TableBlock(g.q.parent) then Node(g.w.disk, k) else Node(g.v.disk, k)
  }

  /** What is known after the write, whether or not it was safe. */
  ghost predicate Grew(g: Grow) {
    && ValidInode(g.ino) && ValidInode(g.q.parent) && g.n.blocks < 15 && g.b < 2048 && g.ino !in g.fs.tree &&
         g.b !in g.fs.owner
    && 21 <= g.b && !Meta(g.b) && Node(g.v.disk, g.ino) == ZeroInode()
    && (forall k :: ValidInode(k) ==> (InodeUsed(g.v'.disk, k) <==> InodeUsed(g.v.disk, k) || k == g.ino))
    && (forall k :: ValidInode(k) ==> Node(g.v'.disk, k) == GrewNode(g, k))
    && (forall m :: m in g.fs.owner && m != FallbackBlock(InodeToBgd(g.ino)) ==>
         m < 2048 && g.v'.disk[m] == g.v.disk[m])
  }

  lemma GrewFrom(g: Grow)
    requires GrowStep(g)
    ensures Grew(g) && Holds(Take(g.v, g.b), g.fs, {g.b}, {})
    ensures g.ino == FirstFreeInode(Take(g.v, g.b).disk, 1)
    ensures forall k :: 0 <= k < 2048 ==> (Used(Take(g.v, g.b).disk, k) <==> Used(g.v.disk, k) || k == g.b)
    ensures InodeMade(Take(g.v, g.b).disk, g.w.disk, g.ino, FallbackBlock(InodeToBgd(g.ino)))
  {
    hide Holds, InodeUsed, Used, Node, Meta, AllocNode, Populate, FirstFree, FirstFreeInode, Take, Counted, MetaUsed,
      SameTables, SameInodeBitmaps, SameData, GrownDir, FallbackBlock, WriteGrowing, RoomForDir, DirNode;
    var v1 := Take(g.v, g.b);
    TakenForGrowth(g.v, g.fs, InodeToBgd(g.q.parent), g.b);
    TakeLooseHolds(g.v, g.fs, {}, {}, InodeToBgd(g.q.parent), g.b);
    CountedPart(g.v, g.fs, {}, {});
    TakeOneFrame(g.v, InodeToBgd(g.q.parent), g.b);
    NodesSame(g.v.disk, v1.disk);
    InodeBitsSame(g.v.disk, v1.disk);
    DataAreaStart(g.b);
    FreeInode(g.v, g.fs, {}, {}, g.ino);
    PopulateMade(v1, g.fs, {g.b}, g.ino, g.q);
    GrownNodes(g.v, g.q, g.n, g.ino, g.b, g.w);
    forall m | m in g.fs.owner && m != FallbackBlock(InodeToBgd(g.ino))
      ensures m < 2048 && g.v'.disk[m] == g.v.disk[m]
    {
      OwnedNotMeta(g.v, g.fs, m);
      SameDataAt(g.v.disk, v1.disk, m);
    }
  }

  /** A thirteenth directory block lands in the slot of the single-indirect pointer. */
  lemma ThirteenthBreaks(g: Grow, fs': FS)
    requires GrowStep(g) && g.n.blocks >= 12
    ensures !Holds(g.v', fs', {}, {})
  {
    hide Holds, InodeUsed, Node, Used, Meta, WriteGrowing, Populate, AllocNode, Take, FirstFree, FirstFreeInode;
    GrewFrom(g);
    ParentIsDir(g.v, g.fs, g.q.parent);
    if Holds(g.v', fs', {}, {}) { SoundInode(g.v', g.q.parent, fs'); assert false; }
  }

  /** The stale copy of a shared table block wipes the new inode out, while its bit stays set. */
  lemma SharedTableBreaks(g: Grow, fs': FS)
    requires GrowStep(g) && TableBlock(g.ino) == TableBlock(g.q.parent)
    ensures !Holds(g.v', fs', {}, {})
  {
    hide Holds, InodeUsed, Node, Used, Meta, WriteGrowing, Populate, AllocNode, Take, FirstFree, FirstFreeInode;
    GrewFrom(g);
    if Holds(g.v', fs', {}, {}) { SoundInode(g.v', g.ino, fs'); assert false; }
  }

  lemma GrownPath(n: Inode, b: nat, q: nat)
    requires n.blocks < 12 && b < 0x1_0000_0000 && (q < n.blocks || q >= 12)
    ensures SamePath(n, GrownDir(n, b), q)
  {}

  /** A directory made in the fallback block takes a block that somebody else owns, or the one its parent just got. */
  lemma GrownFallbackBreaks(g: Grow, fs': FS)
    requires GrowStep(g) && g.n.blocks < 12 && TableBlock(g.ino) != TableBlock(g.q.parent)
    requires MakesDir(g.q) && !RoomForDir(Take(g.v, g.b).disk, g.ino)
    ensures !Holds(g.v', fs', {}, {})
  {
    hide Holds, InodeUsed, Node, Used, Meta, WriteGrowing, Populate, AllocNode, Take, FirstFree, FirstFreeInode,
      RoomForDir, DirNode, GrownDir, FallbackBlock, InodeMade, SamePath;
    GrewFrom(g);
    var f, k := FallbackBlock(InodeToBgd(g.ino)), g.q.parent;
    PopulateMade(Take(g.v, g.b), g.fs, {g.b}, g.ino, g.q);
    LooseMeta(Take(g.v, g.b), g.fs, {g.b});
    NoRoomUsed(Take(g.v, g.b).disk, g.ino);
    MetadataInRange(g.ino);
    FallbackIsData(InodeToBgd(g.ino));
    ParentIsDir(g.v, g.fs, k);
    if f == g.b {
      SharedWithParent(g, fs', f);
    } else {
      UsedIsOwned(g.v, g.fs, f);
      var j, q := g.fs.owner[f].0, g.fs.owner[f].1;
      TreeOfSound(g.v, g.fs, j);
      if j == k { GrownPath(g.n, g.b, q); } else { SameNodePath(Node(g.v.disk, j), q); }
      FallbackBreaks(g.v, g.v', g.fs, fs', g.ino, f);
    }
  }

  lemma SameNodePath(n: Inode, q: nat)
    ensures SamePath(n, n, q)
  {}

  lemma LooseMeta(v: Volume, fs: FS, loose: set<nat>)
    requires Holds(v, fs, loose, {})
    ensures MetaUsed(v.disk)
  {}

  lemma SharedWithParent(g: Grow, fs': FS, f: nat)
    requires GrowStep(g) && Grew(g) && g.n.blocks < 12 && f == g.b && f < 0x1_0000_0000
    requires Node(g.v'.disk, g.ino) == DirNode(ZeroInode(), f)
    ensures !Holds(g.v', fs', {}, {})
  {
    hide Holds, InodeUsed, Node, Used, Meta, WriteGrowing, Populate, AllocNode, Take, FirstFree, FirstFreeInode,
      DirNode, Direct;
    var k := g.q.parent;
    ParentIsDir(g.v, g.fs, k);
    if Holds(g.v', fs', {}, {}) {
      DirOwns(g.v', fs', g.ino, f);
      MarkedIsThere(g.v', fs', k);
      GrownOwns(g.v', fs', k, g.n, g.b);
      OneOwner(g.v', fs', k, g.n.blocks, g.ino, 0);
      assert false;
    }
  }

  lemma GrownOwns(v: Volume, fs: FS, k: nat, n: Inode, b: nat)
    requires k in fs.tree && ValidInode(k) && n.blocks < 12 && n.mode == EXT2_S_IFDIR && 0 < b < 0x1_0000_0000
    requires Node(v.disk, k) == GrownDir(n, b)
    requires Holds(v, fs, {}, {})
    ensures n.blocks < |fs.tree[k]| && fs.tree[k][n.blocks] == b
  {
    hide Counted, MetaUsed, OwnersOK, NamesOK, InodeUsed, Node, DataOn, Chain, Entries, Indirect, Double;
    assert ContentOK(v.disk, fs, k);
    assert Node(v.disk, k).block[n.blocks] == At(fs.tree[k], n.blocks);
  }

  // ----- the whole operation -----

  lemma GrowingUnsafeBreaks(v: Volume, fs: FS, q: Request, fs': FS)
    requires ValidRequest(q) && ValidInode(q.parent) && IsDirectory(fs, q.parent) && Node(v.disk, q.parent).blocks < 15
    requires !GrowthSafe(v, q, Node(v.disk, q.parent)) && Holds(v, fs, {}, {})
    ensures !Holds(WriteGrowing(v, q, Node(v.disk, q.parent)).v, fs', {}, {})
  {
    hide Holds, InodeUsed, Node, Used, Meta, Populate, AllocNode, Take, FirstFree, FirstFreeInode, NewEntryBlock, Sync,
      PutInode, GrownDir, RoomForDir;
    var n, b, ino := Node(v.disk, q.parent), FirstFree(v.disk, 256 * InodeToBgd(q.parent)), FirstFreeInode(v.disk, 1);
    if ino == 0 {
      LeakBreaks(v, fs, InodeToBgd(q.parent), b, fs');
    } else {
      FreeInode(v, fs, {}, {}, ino);
      var g := Grow(v, fs, q, n, b, ino, Populate(AllocNode(Take(v, b), ino), ino, q), WriteGrowing(v, q, n).v);
      if n.blocks >= 12 { ThirteenthBreaks(g, fs'); }
      else if TableBlock(ino) == TableBlock(q.parent) { SharedTableBreaks(g, fs'); }
      else { GrownFallbackBreaks(g, fs'); }
    }
  }

  /** An unsafe `write` leaves a state that no abstract file system fits. */
  lemma UnsafeWriteBreaks(v: Volume, fs: FS, q: Request, fs': FS)
    requires ValidRequest(q) && ParentOK(v, q) && !WriteSafe(v, q) && Inv(v, fs)
    ensures !Inv(WriteOp(v, q).v, fs')
  {
    hide Inv, Holds, DirOK, IsDirMode, FindRoom, HoleAt, RoomForDir, FirstFree, FirstFreeInode, Chain, Reaches, Live,
      WriteInHole, SlackLen, RecordLen, Blocks, Listing, Passed, Node, WriteGrowing, GrowthSafe, NameAt, EntriesBefore;
    var n, k := ParentNode(v, q), q.parent;
    InvParts(v, fs);
    ScanFacts(v, fs, q);
    FindRoomSound(v.disk, n, 0, q.name);
    match FindRoom(v.disk, n, 0, q.name) {
      case InHole(bi, at) =>
        FreeInode(v, fs, {}, {}, FirstFreeInode(v.disk, 1));
        HoleInDir(v.disk, fs, q, bi, fs.tree[k][bi], at);
        HoleBreaks(v, fs, q, FirstFreeInode(v.disk, 1), bi, fs.tree[k][bi], at, fs');
      case Full => GrowingUnsafeBreaks(v, fs, q, fs');
      case Exists =>
    }
    if Inv(WriteOp(v, q).v, fs') { InvParts(WriteOp(v, q).v, fs'); }
  }

  lemma HoleInDir(d: Disk, fs: FS, q: Request, bi: nat, blk: nat, at: nat)
    requires HoleAt(d, fs, q, bi, blk, at)
    ensures IsDirBlock(fs, q.parent, bi, blk) && DirBlockOK(d, blk) && Sound(d[blk], at)
  {
    hide Chain, Reaches, Live, EntriesBefore, Listing, Passed, NameAt, RecordLen, SlackLen, Blocks;
  }

  /** `write` leads from a sound volume to a sound volume if and only if the caller's check passes. */
  lemma WriteSafeExactly(v: Volume, fs: FS, q: Request)
    requires ValidRequest(q) && ParentOK(v, q) && Inv(v, fs)
    ensures WriteSafe(v, q) <==> exists fs' :: Inv(WriteOp(v, q).v, fs')
  {
    hide Inv, WriteOp, WriteSafe, ParentOK;
    if WriteSafe(v, q) {
      var fs' := WriteKeepsInv(v, fs, q);
    } else {
      forall fs' ensures !Inv(WriteOp(v, q).v, fs') { UnsafeWriteBreaks(v, fs, q, fs'); }
    }
  }
}
