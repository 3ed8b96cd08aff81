/** `write` keeps the volume sound; exactly when it does. */
module Writing {
  import opened Options
  import opened Layout
  import opened Metadata
  import opened Volume
  import opened FileTree
  import opened Accounting
  import opened Directory
  import opened Operations
  import opened Invariant
  import opened Creation
  import opened Naming
  import opened Growth

  // ----- the parent directory of a request -----

  /** In a sound volume an inode with the directory bit is a directory, and the driver can walk it. */
  lemma DirectoryFound(v: Volume, fs: FS, k: nat)
    requires Inv(v, fs) && ValidInode(k) && IsDirMode(Node(v.disk, k).mode)
    ensures k in fs.tree && k !in fs.data && DirOK(v.disk, Node(v.disk, k))
    ensures 1 <= |fs.tree[k]| <= 12 && |fs.tree[k]| == Node(v.disk, k).blocks
    ensures forall i :: 0 <= i < |fs.tree[k]| ==> Node(v.disk, k).block[i] == fs.tree[k][i]
  {
    hide Node, Chain, Entries, Indirect, Double, DataOn, Counted, MetaUsed, OwnersOK, NamesOK, InodeUsed, IsDirMode,
      Synced;
    Modes();
    if k in fs.tree {
      assert ContentOK(v.disk, fs, k);
      var n, a := Node(v.disk, k), fs.tree[k];
      if k !in fs.data {
        forall i | 0 <= i < n.blocks ensures DirBlockOK(v.disk, n.block[i]) && n.block[i] == a[i] {
          assert n.block[i] == At(a, i);
        }
      }
    }
  }

  lemma InvParentOK(v: Volume, fs: FS, q: Request)
    requires Inv(v, fs) && ValidRequest(q)
    ensures ParentOK(v, q)
  {
    hide Inv, Node, IsDirMode, DirOK;
    if q.parent != 0 && IsDirMode(ParentNode(v, q).mode) { DirectoryFound(v, fs, q.parent); }
  }

  // ----- the new inode, whichever kind -----

  /** A directory can be made: some block is free at or after the group of the new inode. */
  predicate RoomForDir(d: Disk, ino: nat) { FirstFree(d, 256 * InodeToBgd(ino)) != 0 }

  /** What is known of the state after the inode is made and before it is named. */
  ghost predicate Populated(v: Volume, v': Volume, fs: FS, fs': FS, loose: set<nat>, ino: nat, q: Request, t: Account) {
    && ValidRequest(q) && ValidInode(ino) && ino !in fs.tree && ino != 0
    && Holds(v', fs', loose, {}) && Adopting(v.disk, v'.disk, ino, t.pos) && Nameless(fs', ino, TypeOf(q))
    && fs' == Adopt(fs, ino, t.a, t.pos, if MakesDir(q) then None else Some(q.data)) && Inverse(t.a, t.pos)
    && (if MakesDir(q) then q.parent != 0 && |t.a| == 1 && t.a[0] < 2048 &&
         v'.disk[t.a[0]] == NewDirBlock(ino, q.parent)
        else FileMade(v.disk, v', ino, q.data, t))
  }

  lemma PopulateHolds(v: Volume, fs: FS, loose: set<nat>, ino: nat, q: Request) returns (t: Account)
    requires Holds(v, fs, loose, {}) && ValidRequest(q) && q.parent != 0
    requires ino == FirstFreeInode(v.disk, 1) && ino != 0 && ValidInode(ino)
    requires MakesDir(q) ==> RoomForDir(v.disk, ino)
    ensures Populated(v, Populate(AllocNode(v, ino), ino, q), fs,
                      Adopt(fs, ino, t.a, t.pos, if MakesDir(q) then None else Some(q.data)), loose, ino, q, t)
  {
    hide Holds, FirstFree, FirstFreeInode, AllocNode, MakeDir, MakeFile, Adopting, FileMade, NewDirBlock, Inverse;
    FreeInode(v, fs, loose, {}, ino);
    if MakesDir(q) {
      var b := MakeDirHolds(v, fs, loose, {}, ino, q.parent);
      t := Account(v, InodeToBgd(ino), [b], map[b := 0]);
      InverseSingle(b);
      assert t.a[0] == b;
    } else {
      t := MakeFileHolds(v, fs, loose, {}, ino, q.data);
    }
    RootIsThere(v, fs, loose, ino);
  }

  lemma RootIsThere(v: Volume, fs: FS, loose: set<nat>, ino: nat)
    requires Holds(v, fs, loose, {}) && ino !in fs.tree
    ensures ino != 1
  {
    hide Counted, MetaUsed, OwnersOK, ContentsOK, NamesOK, InodeUsed, Node;
  }

  // ----- a hole was found -----

  function NewFS(fs: FS, ino: nat, q: Request, t: Account): FS {
    Adopt(fs, ino, t.a, t.pos, if MakesDir(q) then None else Some(q.data))
  }

  lemma BlockSurvives(d: Disk, d': Disk, fs: FS, loose: set<nat>, ino: nat, pos: map<nat, nat>, k: nat, i: nat,
      blk: nat)
    requires Adopting(d, d', ino, pos) && OwnersOK(d, fs, loose) && IsDirBlock(fs, k, i, blk)
    ensures blk < 2048 && d'[blk] == d[blk] && blk !in pos
  {
    hide Used, InodeUsed, Node, OneSlot, Untouched;
    assert Owns(fs, k);
  }

  lemma WriteInHoleHolds(v: Volume, fs: FS, q: Request, ino: nat, bi: nat, blk: nat, at: nat) returns (t: Account)
    requires DirBlockOK(v.disk, blk) && ValidRequest(q) && q.parent != 0
    requires Reaches(v.disk[blk], 0, at) && Live(v.disk[blk], at) && RecordLen(|q.name|) <= SlackLen(v.disk[blk], at)
    requires ino == FirstFreeInode(v.disk, 1) && ino != 0 && ValidInode(ino)
    requires (MakesDir(q) ==> RoomForDir(v.disk, ino))
    requires Inv(v, fs) && IsDirBlock(fs, q.parent, bi, blk)
    ensures WriteInHole(v, q, blk, at).code == 0
    ensures Inv(WriteInHole(v, q, blk, at).v, Named(NewFS(fs, ino, q, t), ino, blk, SlackAt(v.disk[blk], at)))
    ensures Populated(v, Populate(AllocNode(v, ino), ino, q), fs, NewFS(fs, ino, q, t), {}, ino, q, t)
  {
    hide Holds, FirstFreeInode, AllocNode, Populate, FirstFree, Chain, Reaches, Live, SlackLen, RecordLen, Insert,
      SlackAt, Adopting, Nameless, FileMade, Synced, Sync, NewDirBlock, RoomForDir, Adopt;
    t := PopulateHolds(v, fs, {}, ino, q);
    var v2, fs1 := Populate(AllocNode(v, ino), ino, q), NewFS(fs, ino, q, t);
    OwnersPart(v, fs, {}, {});
    BlockSurvives(v.disk, v2.disk, fs, {}, ino, t.pos, q.parent, bi, blk);
    AdoptKeepsDirs(fs, ino, q, t, q.parent, bi, blk);
    InsertHolds(v2, fs1, {}, {}, q.parent, bi, blk, at, ino, TypeOf(q), q.name);
    var v3 := PutBlock(v2, blk, Insert(v.disk[blk], at, ino, TypeOf(q), q.name));
    HoldsAfterSync(v3, Named(fs1, ino, blk, SlackAt(v.disk[blk], at)), {}, {});
  }

  lemma OwnersPart(v: Volume, fs: FS, loose: set<nat>, gap: set<(nat, nat)>)
    requires Holds(v, fs, loose, gap)
    ensures OwnersOK(v.disk, fs, loose) && InodesOK(v.disk, fs) && ContentsOK(v.disk, fs)
  {}

  lemma AdoptKeepsDirs(fs: FS, ino: nat, q: Request, t: Account, k: nat, i: nat, blk: nat)
    requires IsDirBlock(fs, k, i, blk) && ino !in fs.tree
    ensures IsDirBlock(NewFS(fs, ino, q, t), k, i, blk)
  {}

  // ----- the directory grows -----

  /** When growing a directory is safe; module `Exactness` shows what goes wrong otherwise, part by part. */
  predicate GrowthSafe(v: Volume, q: Request, n: Inode)
    requires ValidRequest(q) && q.parent != 0
  {
    var b, ino := FirstFree(v.disk, 256 * InodeToBgd(q.parent)), FirstFreeInode(v.disk, 1);
    b == 0 ||
    (n.blocks < 12 && ino != 0 && TableBlock(ino) != TableBlock(q.parent) &&
     (MakesDir(q) ==> RoomForDir(Take(v, b).disk, ino)))
  }

  lemma {:induction false} FirstFreeInodeSame(d: Disk, d': Disk, ino: nat)
    requires ino >= 1 && forall k :: ValidInode(k) ==> (InodeUsed(d', k) <==> InodeUsed(d, k))
    ensures FirstFreeInode(d', ino) == FirstFreeInode(d, ino)
    decreases 897 - ino
  {
    hide InodeUsed;
    if ino <= 896 { FirstFreeInodeSame(d, d', ino + 1); }
  }

  /** The parent's stale table block is the right one when the new inode lives in another block of the table. */
  lemma StaleIsCurrent(d: Disk, d': Disk, ino: nat, pos: map<nat, nat>, k: nat, n: Inode, w: Volume)
    requires Adopting(d, d', ino, pos) && ValidInode(k) && TableBlock(k) != TableBlock(ino)
    requires w.disk[TableBlock(k)] == d'[TableBlock(k)]
    ensures PutBlock(w, TableBlock(k), PutInode(d[TableBlock(k)], TableSlot(k), n)) == SyncNode(w, k, n)
  {
    hide Used, InodeUsed, Node, PutInode, Meta;
    TableApart(k);
  }

  /** The state just before the parent's inode is written. */
  function GrownTo(v: Volume, q: Request, ino: nat, b: nat): Volume
    requires ValidRequest(q) && ValidInode(ino) && b < 2048
  {
    PutBlock(Populate(AllocNode(Take(v, b), ino), ino, q), b, NewEntryBlock(ino, TypeOf(q), q.name))
  }

  lemma GrownToHolds(v: Volume, fs: FS, q: Request, ino: nat, b: nat) returns (t: Account)
    requires ValidRequest(q) && q.parent != 0 && b == FirstFree(v.disk, 256 * InodeToBgd(q.parent)) && b != 0
    requires ino == FirstFreeInode(v.disk, 1) && ino != 0 && ValidInode(ino)
    requires MakesDir(q) ==> RoomForDir(Take(v, b).disk, ino)
    requires Holds(v, fs, {}, {})
    ensures Holds(Take(v, b), fs, {b}, {}) && b !in fs.owner && !Meta(b)
    ensures Holds(GrownTo(v, q, ino, b), NewFS(fs, ino, q, t), {b}, {})
    ensures Nameless(NewFS(fs, ino, q, t), ino, TypeOf(q))
    ensures SameTables(v.disk, Take(v, b).disk) && SameData(v.disk, Take(v, b).disk)
    ensures Populated(Take(v, b), Populate(AllocNode(Take(v, b), ino), ino, q), fs, NewFS(fs, ino, q, t), {b}, ino, q,
        t)
  {
    hide Holds, FirstFreeInode, AllocNode, Populate, FirstFree, Adopting, Nameless, FileMade, NewDirBlock,
      NewEntryBlock, RoomForDir, Adopt, Take, SameTables, SameInodeBitmaps, SameData, Used, Counted, MetaUsed;
    TakeLooseHolds(v, fs, {}, {}, InodeToBgd(q.parent), b);
    CountedPart(v, fs, {}, {});
    TakeOneFrame(v, InodeToBgd(q.parent), b);
    var w := Take(v, b);
    InodeBitsSame(v.disk, w.disk);
    FirstFreeInodeSame(v.disk, w.disk, 1);
    assert {} + {b} == {b};
    t := PopulateHolds(w, fs, {b}, ino, q);
    PutLooseHolds(Populate(AllocNode(w, ino), ino, q), NewFS(fs, ino, q, t), {b}, {}, b,
      NewEntryBlock(ino, TypeOf(q), q.name));
  }

  lemma CountedPart(v: Volume, fs: FS, loose: set<nat>, gap: set<(nat, nat)>)
    requires Holds(v, fs, loose, gap)
    ensures Counted(v) && MetaUsed(v.disk)
  {}

  lemma WriteGrowingHolds(v: Volume, fs: FS, q: Request, n: Inode, ino: nat, b: nat) returns (t: Account)
    requires ValidRequest(q) && q.parent != 0 && b == FirstFree(v.disk, 256 * InodeToBgd(q.parent)) && b != 0
    requires ino == FirstFreeInode(v.disk, 1) && ino != 0 && ValidInode(ino)
    requires MakesDir(q) ==> RoomForDir(Take(v, b).disk, ino)
    requires n == Node(v.disk, q.parent) && n.blocks < 12 && TableBlock(ino) != TableBlock(q.parent)
    requires Inv(v, fs) && q.parent in fs.tree && q.parent !in fs.data
    ensures WriteGrowing(v, q, n).code == 0 && !Meta(b) && b !in fs.owner
    ensures q.parent in NewFS(fs, ino, q, t).tree
    ensures Inv(WriteGrowing(v, q, n).v, Attached(NewFS(fs, ino, q, t), q.parent, b, ino))
    ensures Populated(Take(v, b), Populate(AllocNode(Take(v, b), ino), ino, q), fs, NewFS(fs, ino, q, t), {b}, ino, q,
        t)
    ensures SameData(v.disk, Take(v, b).disk)
  {
    hide Holds, FirstFreeInode, AllocNode, Populate, FirstFree, Nameless, FileMade, Synced, Sync, NewDirBlock,
      NewEntryBlock, RoomForDir, Adopt, Take, SameTables, SameData, Node, Chain, Entries, GrownDir, SyncNode, PutInode,
      Adopting;
    t := GrownToHolds(v, fs, q, ino, b);
    var fs1, w := NewFS(fs, ino, q, t), GrownTo(v, q, ino, b);
    NewEntryBlockSpec(ino, TypeOf(q), q.name);
    ParentKept(v, fs, q, ino, b, t, w);
    AttachHolds(w, fs1, {b}, {}, q.parent, b, ino, TypeOf(q), q.name);
    assert {b} - {b} == {};
    HoldsAfterSync(SyncNode(w, q.parent, GrownDir(n, b)), Attached(fs1, q.parent, b, ino), {}, {});
  }

  lemma ParentKept(v: Volume, fs: FS, q: Request, ino: nat, b: nat, t: Account, w: Volume)
    requires ValidRequest(q) && q.parent != 0 && ValidInode(ino) && b < 2048 && !Meta(b) && w == GrownTo(v, q, ino, b)
    requires SameTables(v.disk, Take(v, b).disk) && TableBlock(ino) != TableBlock(q.parent)
    requires Adopting(Take(v, b).disk, Populate(AllocNode(Take(v, b), ino), ino, q).disk, ino, t.pos)
    requires q.parent in fs.tree && q.parent !in fs.data && ino !in fs.tree
    ensures Node(w.disk, q.parent) == Node(v.disk, q.parent)
    ensures q.parent in NewFS(fs, ino, q, t).tree && q.parent !in NewFS(fs, ino, q, t).data
    ensures forall m: Inode :: PutBlock(w, TableBlock(q.parent),
        PutInode(v.disk[TableBlock(q.parent)], TableSlot(q.parent), m))
                            == SyncNode(w, q.parent, m)
  {
    hide Used, InodeUsed, Node, PutInode, Meta, AllocNode, Populate, NewEntryBlock, Take;
    var k := q.parent;
    var d1, d2 := Take(v, b).disk, Populate(AllocNode(Take(v, b), ino), ino, q).disk;
    NodesSame(v.disk, d1);
    assert Node(d2, k) == Node(d1, k);
    DataAreaStart(b);
    NodesUntouched(d2, b, NewEntryBlock(ino, TypeOf(q), q.name));
    TableApart(k);
    forall m: Inode
      ensures PutBlock(w, TableBlock(k), PutInode(v.disk[TableBlock(k)], TableSlot(k), m)) == SyncNode(w, k, m)
    {
      StaleIsCurrent(d1, d2, ino, t.pos, k, m, w);
    }
  }

  // ----- the whole operation -----

  /** What a caller can check before `write`: the guards of the branches that leave the volume unsound. */
  predicate WriteSafe(v: Volume, q: Request)
    requires ValidRequest(q) && ParentOK(v, q)
  {
    q.parent == 0 || !IsDirMode(ParentNode(v, q).mode) ||
    match FindRoom(v.disk, ParentNode(v, q), 0, q.name)
    case Exists => true
    case InHole(_, _) =>
      var ino := FirstFreeInode(v.disk, 1);
      ino == 0 || !MakesDir(q) || RoomForDir(v.disk, ino)
    case Full => GrowthSafe(v, q, ParentNode(v, q))
  }

  /** Every safe `write` leads from a sound volume to a sound volume; one that fails then changes nothing. */
  lemma WriteKeepsInv(v: Volume, fs: FS, q: Request) returns (fs': FS)
    requires Inv(v, fs) && ValidRequest(q) && ParentOK(v, q) && WriteSafe(v, q)
    ensures Inv(WriteOp(v, q).v, fs')
    ensures WriteCode(v, q) != 0 ==> WriteOp(v, q).v == v && fs' == fs
  {
    hide Inv, DirOK, IsDirMode, FindRoom, DirBlockOK, Adopt, RoomForDir, FirstFree, FirstFreeInode, Chain, Reaches,
      Live, SlackLen, RecordLen, Populated;
    fs' := fs;
    if q.parent != 0 && IsDirMode(ParentNode(v, q).mode) {
      var n := ParentNode(v, q);
      DirectoryFound(v, fs, q.parent);
      FindRoomSound(v.disk, n, 0, q.name);
      var ino := FirstFreeInode(v.disk, 1);
      match FindRoom(v.disk, n, 0, q.name)
      case Exists =>
      case InHole(bi, at) =>
        if ino != 0 {
          var blk := fs.tree[q.parent][bi];
          HoleParts(v.disk, blk);
          var t := WriteInHoleHolds(v, fs, q, ino, bi, blk, at);
          fs' := Named(NewFS(fs, ino, q, t), ino, blk, SlackAt(v.disk[blk], at));
        }
      case Full =>
        var b := FirstFree(v.disk, 256 * InodeToBgd(q.parent));
        if b != 0 {
          var t := WriteGrowingHolds(v, fs, q, n, ino, b);
          fs' := Attached(NewFS(fs, ino, q, t), q.parent, b, ino);
        }
    }
  }

  lemma HoleParts(d: Disk, blk: nat)
    requires DirBlockOK(d, blk)
    ensures 0 < blk < 2048 && Chain(d[blk], 0)
  {}
}
