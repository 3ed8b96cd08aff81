/** Growing a directory by one block. */
module Growth {
  import opened Bytes
  import opened Layout
  import opened Metadata
  import opened Volume
  import opened FileTree
  import opened Accounting
  import opened Directory
  import opened Operations
  import opened Invariant
  import opened Creation
  import opened Naming

  // ----- a block taken for no inode yet -----

  lemma TakeOneFrame(v: Volume, pref: nat, b: nat)
    requires Counted(v) && MetaUsed(v.disk) && b == FirstFree(v.disk, 256 * pref) && b != 0
    ensures b < 2048 && !Meta(b) && !Used(v.disk, b) && Counted(Take(v, b)) && MetaUsed(Take(v, b).disk)
    ensures SameTables(v.disk, Take(v, b).disk) && SameInodeBitmaps(v.disk, Take(v, b).disk)
    ensures SameData(v.disk, Take(v, b).disk)
    ensures forall m :: 0 <= m < 2048 ==> (Used(Take(v, b).disk, m) <==> Used(v.disk, m) || m == b)
  {
    hide Counted, MetaUsed, Used, Taking, SameTables, SameInodeBitmaps, MarkUsed, Take;
    var t0 := Account(v, pref, [], map[]);
    TakingNothing(v, pref);
    TakingOne(v, t0, b);
    TakingFrame(Take(v, b), Plus(t0, b));
    assert Plus(t0, b).pos == map[b := 0];
    assert b in Plus(t0, b).pos;
  }

  /** The block is in use but owned by nobody: it is loose. */
  lemma TakeLooseHolds(v: Volume, fs: FS, loose: set<nat>, gap: set<(nat, nat)>, pref: nat, b: nat)
    requires Holds(v, fs, loose, gap) && b == FirstFree(v.disk, 256 * pref) && b != 0
    ensures Holds(Take(v, b), fs, loose + {b}, gap) && b < 2048 && !Meta(b) && b !in loose && b !in fs.owner
    ensures !Used(v.disk, b)
  {
    hide Counted, MetaUsed, Used, InodeUsed, Node, SameTables, SameInodeBitmaps, Take, ContentsOK, NamesOK, OwnersOK;
    TakeOneFrame(v, pref, b);
    var d' := Take(v, b).disk;
    NodesSame(v.disk, d');
    InodeBitsSame(v.disk, d');
    ContentsSame(v.disk, d', fs);
    NamesSame(v.disk, d', fs, gap);
    LooseOwners(v.disk, d', fs, loose, b);
  }

  lemma LooseOwners(d: Disk, d': Disk, fs: FS, loose: set<nat>, b: nat)
    requires OwnersOK(d, fs, loose) && b < 2048 && !Meta(b) && !Used(d, b)
    requires forall m :: 0 <= m < 2048 ==> (Used(d', m) <==> Used(d, m) || m == b)
    ensures OwnersOK(d', fs, loose + {b}) && b !in loose && b !in fs.owner
  {
    hide Used, Meta;
  }

  /** A loose block may be written freely. */
  lemma PutLooseHolds(v: Volume, fs: FS, loose: set<nat>, gap: set<(nat, nat)>, b: nat, x: Block)
    requires Holds(v, fs, loose, gap) && b in loose
    ensures b < 2048 && !Meta(b) && Holds(PutBlock(v, b, x), fs, loose, gap)
  {
    hide Counted, MetaUsed, Used, InodeUsed, Node, ContentOK, BlockNamesOK, Meta;
    var d' := v.disk[b := x];
    assert b < 2048 && !Meta(b) && b >= 21 by { DataAreaStart(b); }
    ReplacedMeta(v, b, x);
    NodesUntouched(v.disk, b, x);
    forall k | k in fs.tree ensures ContentOK(d', fs, k) && (k !in fs.data ==> DirNamesOK(d', fs, gap, k)) {
      assert ContentOK(v.disk, fs, k) && Owns(fs, k);
      ContentInRange(v.disk, fs, k);
      assert forall q :: 0 <= q < |fs.tree[k]| ==> fs.tree[k][q] != b;
      KeptApart(v.disk, b, x, fs.tree[k]);
      ContentSame(v.disk, d', fs, k);
      if k !in fs.data { assert DirNamesOK(v.disk, fs, gap, k); }
    }
    OtherHomes(v.disk, d', fs, fs, loose);
  }

  lemma DataAreaStart(b: nat)
    requires !Meta(b)
    ensures b >= 21
  {}

  // ----- the loose block becomes the directory's -----

  function Attached(fs: FS, k: nat, b: nat, ino: nat): FS
    requires k in fs.tree
  {
    FS(fs.tree[k := fs.tree[k] + [b]], fs.owner[b := (k, |fs.tree[k]|)], fs.data, fs.home[ino := (b, 0)])
  }

  lemma GrownDirectory(d: Disk, d': Disk, n: Inode, a: seq<nat>, k: nat, b: nat)
    requires DirectoryOK(d, n, a, k) && n.blocks < 12 && 21 <= b < 2048 && !Meta(b) && Kept(d, d', a) && Chain(d'[b], 0)
    ensures DirectoryOK(d', GrownDir(n, b), a + [b], k)
  {
    hide Chain, Entries, PtrRun, PtrStride;
    forall i | 0 <= i < |a + [b]| ensures Chain(d'[(a + [b])[i]], 0) {
      if i < |a| { assert d'[a[i]] == d[a[i]]; }
    }
    assert d'[a[0]] == d[a[0]];
  }

  lemma AttachedOwners(d: Disk, d': Disk, fs: FS, loose: set<nat>, k: nat, b: nat, ino: nat)
    requires OwnersOK(d, fs, loose) && b in loose && k in fs.tree && b !in fs.owner
    requires forall m :: 0 <= m < 2048 ==> (Used(d', m) <==> Used(d, m))
    ensures OwnersOK(d', Attached(fs, k, b, ino), loose - {b})
  {
    hide Used, Meta;
    var fs' := Attached(fs, k, b, ino);
    forall m | m in fs'.owner ensures OwnedAt(fs', m) {
      if m != b { assert OwnedAt(fs, m); }
    }
    forall j | j in fs'.tree ensures Owns(fs', j) {
      assert Owns(fs, j);
      forall q | 0 <= q < |fs'.tree[j]| ensures fs'.tree[j][q] in fs'.owner && fs'.owner[fs'.tree[j][q]] == (j, q) {
        if q < |fs.tree[j]| { assert fs.tree[j][q] in fs.owner; }
      }
    }
  }

  lemma AttachedInodes(d: Disk, d': Disk, fs: FS, k: nat, b: nat, ino: nat)
    requires InodesOK(d, fs) && k in fs.tree && ino in fs.tree
    requires forall j :: ValidInode(j) ==> (InodeUsed(d', j) <==> InodeUsed(d, j))
    requires forall j :: ValidInode(j) && j != k ==> Node(d', j) == Node(d, j)
    ensures InodesOK(d', Attached(fs, k, b, ino))
  {
    hide InodeUsed, Node;
  }

  lemma AttachedNames(d: Disk, d': Disk, fs: FS, loose: set<nat>, gap: set<(nat, nat)>, k: nat, b: nat, ino: u32,
                      ftype: byte, name: Name)
    requires NamesOK(d, fs, gap) && ContentsOK(d, fs) && k in fs.tree && k !in fs.data && 1 <= |fs.tree[k]|
    requires b < 2048 && Chain(d'[b], 0) && Entries(d'[b], 0) == [Entry(0, ino, ftype, name)]
    requires Nameless(fs, ino, ftype)
    requires forall m :: 21 <= m < 2048 && !Meta(m) ==> d'[m] == d[m]
    ensures NamesOK(d', Attached(fs, k, b, ino), gap)
  {
    hide Chain, Entries, ContentOK;
    var fs' := Attached(fs, k, b, ino);
    forall j | j in fs'.tree && j !in fs'.data ensures DirNamesOK(d', fs', gap, j) {
      assert DirNamesOK(d, fs, gap, j) && ContentOK(d, fs, j);
      ContentInRange(d, fs, j);
      forall q | 0 <= q < |fs'.tree[j]|
        ensures fs'.tree[j][q] < 2048 && BlockNamesOK(d'[fs'.tree[j][q]], fs', fs'.tree[j][q], Skip(q), gap)
      {
        if q < |fs.tree[j]| {
          AttachedBlockNames(d[fs.tree[j][q]], fs, fs.tree[j][q], Skip(q), gap, k, b, ino, ftype);
        }
      }
    }
  }

  lemma AttachedBlockNames(x: Block, fs: FS, m: nat, skip: nat, gap: set<(nat, nat)>, k: nat, b: nat, ino: nat,
      ftype: byte)
    requires BlockNamesOK(x, fs, m, skip, gap) && k in fs.tree && Nameless(fs, ino, ftype)
    ensures BlockNamesOK(x, Attached(fs, k, b, ino), m, skip, gap)
  {
    hide Chain, Entries;
  }

  lemma AttachedContents(d: Disk, d': Disk, fs: FS, k: nat, b: nat, ino: nat)
    requires ValidInode(k) && Node(d, k).blocks < 12 && 21 <= b < 2048 && Node(d', k) == GrownDir(Node(d, k), b)
    requires ContentsOK(d, fs) && k in fs.tree && k !in fs.data && !Meta(b) && Chain(d'[b], 0)
    requires forall j :: ValidInode(j) && j != k ==> Node(d', j) == Node(d, j)
    requires forall m :: 21 <= m < 2048 && !Meta(m) ==> d'[m] == d[m]
    ensures ContentsOK(d', Attached(fs, k, b, ino))
  {
    hide Node, FileOK, DirectoryOK, Chain, GrownDir, InRange;
    var fs' := Attached(fs, k, b, ino);
    forall j | j in fs'.tree ensures ContentOK(d', fs', j) {
      assert ContentOK(d, fs, j);
      ContentInRange(d, fs, j);
      DataAreaKept(d, d', fs.tree[j]);
      if j == k {
        GrownDirectory(d, d', Node(d, k), fs.tree[k], k, b);
      } else {
        ContentSame(d, d', fs, j);
      }
    }
  }

  /** The directory's inode takes the block over, and with it the name of `ino`. */
  lemma AttachHolds(v: Volume, fs: FS, loose: set<nat>, gap: set<(nat, nat)>, k: nat, b: nat, ino: u32, ftype: byte,
      name: Name)
    requires Holds(v, fs, loose, gap) && b in loose && b < 2048 && k in fs.tree && k !in fs.data && ValidInode(k)
    requires Node(v.disk, k).blocks < 12 && Nameless(fs, ino, ftype)
    requires Chain(v.disk[b], 0) && Entries(v.disk[b], 0) == [Entry(0, ino, ftype, name)]
    ensures Holds(SyncNode(v, k, GrownDir(Node(v.disk, k), b)), Attached(fs, k, b, ino), loose - {b}, gap)
  {
    hide Counted, MetaUsed, Used, InodeUsed, Node, ContentsOK, NamesOK, InodesOK, Chain, Entries, SameInodeBitmaps,
         SameBlockBitmaps, GrownDir, SyncNode, Nameless, Meta;
    var n' := GrownDir(Node(v.disk, k), b);
    var v' := SyncNode(v, k, n');
    SyncNodeSpec(v, k, n');
    BlockBitsSame(v.disk, v'.disk);
    InodeBitsSame(v.disk, v'.disk);
    DataAreaStart(b);
    NamelessExists(fs, ino, ftype);
    AttachedOwners(v.disk, v'.disk, fs, loose, k, b, ino);
    AttachedInodes(v.disk, v'.disk, fs, k, b, ino);
    AttachedContents(v.disk, v'.disk, fs, k, b, ino);
    DirSize(v.disk, fs, k);
    AttachedNames(v.disk, v'.disk, fs, loose, gap, k, b, ino, ftype, name);
  }

  lemma NamelessExists(fs: FS, ino: nat, ftype: byte)
    requires Nameless(fs, ino, ftype)
    ensures ino in fs.tree
  {}

  lemma DirSize(d: Disk, fs: FS, k: nat)
    requires ContentsOK(d, fs) && k in fs.tree && k !in fs.data
    ensures 1 <= |fs.tree[k]| <= 12 && ValidInode(k) && |fs.tree[k]| == Node(d, k).blocks
  {
    hide Node, Chain, Entries, Lays;
    assert ContentOK(d, fs, k);
  }
}
