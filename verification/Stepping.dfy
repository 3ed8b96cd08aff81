/** What one operation does to the record lists of directories, in the terms of the lists alone. */
module Stepping {
  import opened Bytes
  import opened Options
  import opened Layout
  import opened Metadata
  import opened Volume
  import opened FileTree
  import opened Accounting
  import opened Directory
  import opened Operations
  import opened Invariant
  import opened Creation
  import opened Naming
  import opened Writing
  import opened Deletion
  import opened Growth
  import opened Observing
  import opened WriteEffects
  import opened Effects
  import opened DeleteEffects
  import opened Undo
  import opened DirCounts
  import opened TreeShape
  import opened Runs
  import opened DeleteExactness

  // ----- a list of live records determines its block -----

  /** Where the first record of the list ends. */
  function EndOf(es: seq<Entry>): nat
    requires es != []
  {
    if |es| > 1 then es[1].at else 512
  }

  /** The scan of `write` over the list. */
  function RoomIn(es: seq<Entry>, name: Name): Scan {
    if es == [] then NoRoom
    else if es[0].name == name then Duplicate
    else if EndOf(es) - es[0].at - RecordLen(|es[0].name|) >= RecordLen(|name|) then Hole(es[0].at)
    else RoomIn(es[1..], name)
  }

  function InsertedIn(es: seq<Entry>, at: nat, ino: u32, ftype: byte, name: Name): seq<Entry> {
    if es == [] then []
    else if es[0].at == at then [es[0], Entry(at + RecordLen(|es[0].name|), ino, ftype, name)] + es[1..]
    else [es[0]] + InsertedIn(es[1..], at, ino, ftype, name)
  }

  lemma {:induction false} ScanIsRoom(b: Block, o: nat, name: Name)
    requires Chain(b, o) && (o < 512 ==> Sound(b, o) && Live(b, o))
    ensures ScanForHole(b, o, name, RecordLen(|name|)) == RoomIn(Entries(b, o), name)
    decreases 512 - o
  {
    hide U16At, U32At, RecordLen, NameAt, SlackZero;
    if o < 512 {
      ChainHead(b, o);
      var next := o + RecLen(b, o);
      if next < 512 { ChainHead(b, next); }
      ScanIsRoom(b, next, name);
      assert Entries(b, o)[1..] == Entries(b, next);
    }
  }

  lemma {:induction false} InsertedAfter(x: seq<Entry>, h: Entry, y: seq<Entry>, ino: u32, ftype: byte, name: Name)
    requires forall i :: 0 <= i < |x| ==> x[i].at != h.at
    ensures InsertedIn(x + [h] + y, h.at, ino, ftype, name) ==
      x + [h] + [Entry(h.at + RecordLen(|h.name|), ino, ftype, name)] + y
  {
    hide RecordLen;
    var es := x + [h] + y;
    if x == [] {
      assert es[1..] == y;
    } else {
      assert es[1..] == x[1..] + [h] + y;
      InsertedAfter(x[1..], h, y, ino, ftype, name);
    }
  }

  lemma {:induction false} PlacesBefore(b: Block, o: nat, p: nat, i: nat)
    requires Chain(b, o) && Reaches(b, o, p) && i < |EntriesBefore(b, o, p)|
    ensures EntriesBefore(b, o, p)[i].at < p
    decreases 512 - o
  {
    hide U16At, U32At, SlackZero, NameAt, RecordLen;
    if o != p {
      var next := o + RecLen(b, o);
      ReachesOnward(b, next, p);
      if Live(b, o) {
        if i > 0 { PlacesBefore(b, next, p, i - 1); }
      } else {
        assert EntriesBefore(b, o, p) == EntriesBefore(b, next, p);
        PlacesBefore(b, next, p, i);
      }
    }
  }

  lemma ReachesOnward(b: Block, o: nat, p: nat)
    requires Chain(b, o) && Reaches(b, o, p)
    ensures o <= p
  {}

  /** Inserting a record into the block inserts its entry into the list. */
  lemma InsertIsList(b: Block, p: nat, ino: u32, ftype: byte, name: Name)
    requires Chain(b, 0) && Reaches(b, 0, p) && Live(b, p) && RecordLen(|name|) <= SlackLen(b, p) && ino != 0
    ensures Chain(Insert(b, p, ino, ftype, name), 0)
    ensures Entries(Insert(b, p, ino, ftype, name), 0) == InsertedIn(Entries(b, 0), p, ino, ftype, name)
  {
    hide Chain, Entries, EntriesBefore, EntriesAfter, Insert, Reaches, RecordLen, SlackLen, InsertedIn;
    InsertSpec(b, p, ino, ftype, name);
    var x := EntriesBefore(b, 0, p);
    forall i | 0 <= i < |x| ensures x[i].at != p { PlacesBefore(b, 0, p, i); }
    EntryNameLen(b, p);
    InsertedAfter(x, EntryAt(b, p), EntriesAfter(b, p), ino, ftype, name);
  }

  lemma EntryNameLen(b: Block, p: nat)
    requires Sound(b, p)
    ensures EntryAt(b, p).at == p && |EntryAt(b, p).name| == NameLen(b, p)
  {
    hide U16At, U32At, SlackZero;
  }

  // ----- packed lists -----

  /** No record but the last has slack. */
  predicate Packed(es: seq<Entry>) {
    es != [] && forall j :: 0 <= j < |es| - 1 ==> es[j + 1].at == es[j].at + RecordLen(|es[j].name|)
  }

  /** Where the names of a packed list end. */
  function Filled(es: seq<Entry>): nat
    requires es != []
  {
    es[|es| - 1].at + RecordLen(|es[|es| - 1].name|)
  }

  predicate Unnamed(es: seq<Entry>, name: Name) { forall j :: 0 <= j < |es| ==> es[j].name != name }

  lemma {:induction false} PackedRoom(es: seq<Entry>, name: Name)
    requires Packed(es) && Unnamed(es, name)
    ensures RoomIn(es, name) == if 512 - Filled(es) >= RecordLen(|name|) then Hole(es[|es| - 1].at) else NoRoom
  {
    hide RecordLen;
    assert es[0].name != name;
    if |es| > 1 {
      assert es[1].at == es[0].at + RecordLen(|es[0].name|);
      RecordLenPositive(name);
      PackedTail(es);
      PackedRoom(es[1..], name);
    } else {
      assert es[1..] == [];
    }
  }

  lemma RecordLenPositive(name: Name)
    ensures RecordLen(|name|) > 0
  {}

  lemma PackedTail(es: seq<Entry>)
    requires Packed(es) && |es| > 1
    ensures Packed(es[1..]) && Filled(es[1..]) == Filled(es)
  {
    hide RecordLen;
    forall j | 0 <= j < |es[1..]| - 1 ensures es[1..][j + 1].at == es[1..][j].at + RecordLen(|es[1..][j].name|) {
      assert es[j + 2].at == es[j + 1].at + RecordLen(|es[j + 1].name|);
    }
  }

  lemma {:induction false} PackedBelow(es: seq<Entry>, i: nat, j: nat)
    requires Packed(es) && i < j < |es|
    ensures es[i].at < es[j].at
    decreases j
  {
    hide RecordLen;
    assert es[j - 1 + 1].at == es[j - 1].at + RecordLen(|es[j - 1].name|);
    RecordLenPositive(es[j - 1].name);
    if i < j - 1 { PackedBelow(es, i, j - 1); }
  }

  /** An entry put in at the end of a packed list. */
  lemma PackedInsert(es: seq<Entry>, ino: u32, ftype: byte, name: Name)
    requires Packed(es)
    ensures var es' := es + [Entry(Filled(es), ino, ftype, name)];
      && InsertedIn(es, es[|es| - 1].at, ino, ftype, name) == es' && Packed(es') &&
           Filled(es') == Filled(es) + RecordLen(|name|)
  {
    hide RecordLen;
    var x, h := es[..|es| - 1], es[|es| - 1];
    assert es == x + [h] + [];
    forall j | 0 <= j < |x| ensures x[j].at != h.at { PackedBelow(es, j, |es| - 1); }
    InsertedAfter(x, h, [], ino, ftype, name);
    assert InsertedIn(es, h.at, ino, ftype, name) == es + [Entry(Filled(es), ino, ftype, name)];
  }

  // ----- the first blocks of directories -----

  lemma FirstIsEntries(v: Volume, fs: FS, k: nat)
    requires IsDirectory(fs, k) && Inv(v, fs)
    ensures |fs.tree[k]| > 0 && 21 <= fs.tree[k][0] < 2048 && Chain(v.disk[fs.tree[k][0]], 0)
    ensures FirstEntries(v.disk, fs, k) == Entries(v.disk[fs.tree[k][0]], 0)
    ensures Dots(v.disk[fs.tree[k][0]], k) && Sound(v.disk[fs.tree[k][0]], 0) && Live(v.disk[fs.tree[k][0]], 0)
  {
    hide Inv, Holds, Dots, Chain, Entries, Meta, Sound, Live;
    FirstOwned(v, fs, k);
    InvParts(v, fs);
    DirBlockFacts(v, fs, {}, {}, k, 0, fs.tree[k][0]);
    DotEntry(v.disk[fs.tree[k][0]], k, 0);
    DotsHead(v.disk[fs.tree[k][0]], k);
  }

  /** The scan of `write` stops in the first block where the list says so. */
  lemma RoomFound(v: Volume, fs: FS, q: Request)
    requires ValidRequest(q) && IsDirectory(fs, q.parent) && Inv(v, fs)
    ensures ParentOK(v, q) && q.parent != 0 && IsDirMode(ParentNode(v, q).mode)
    ensures ParentNode(v, q).blocks == |fs.tree[q.parent]|
    ensures |fs.tree[q.parent]| > 0 && ParentNode(v, q).block[0] == fs.tree[q.parent][0]
    ensures match RoomIn(FirstEntries(v.disk, fs, q.parent), q.name)
      case Hole(at) => FindRoom(v.disk, ParentNode(v, q), 0, q.name) == InHole(0, at)
      case NoRoom => |fs.tree[q.parent]| == 1 ==> FindRoom(v.disk, ParentNode(v, q), 0, q.name).Full?
      case Duplicate => true
  {
    hide Inv, Node, IsDirMode, RoomIn, FirstEntries, Dots, Chain, ScanForHole, Sound, Live, Entries, Spells, Blocks,
      RecordLen;
    var k := q.parent;
    DirContents(v, fs, k);
    DirectoryFound(v, fs, k);
    FirstIsEntries(v, fs, k);
    ScanIsRoom(v.disk[fs.tree[k][0]], 0, q.name);
    RoomUnfold(v.disk, ParentNode(v, q), q.name);
  }

  lemma RoomUnfold(d: Disk, n: Inode, name: Name)
    requires DirOK(d, n) && n.blocks >= 1
    ensures DirBlockOK(d, n.block[0])
    ensures match ScanForHole(d[n.block[0]], 0, name, RecordLen(|name|))
      case Hole(at) => FindRoom(d, n, 0, name) == InHole(0, at)
      case NoRoom => n.blocks == 1 ==> FindRoom(d, n, 0, name).Full?
      case Duplicate => true
  {
    hide ScanForHole, RecordLen, Chain;
  }

  /** The lowest inode number that is not taken. */
  lemma NextInode(v: Volume, fs: FS, n: nat)
    requires 1 <= n <= 896 && n !in fs.tree && (forall k :: 1 <= k < n ==> k in fs.tree) && Inv(v, fs)
    ensures FirstFreeInode(v.disk, 1) == n && ValidInode(n)
  {
    hide Holds, InodeUsed, Node, Synced;
    InvParts(v, fs);
    FirstFreeInodeUnique(v.disk, 1, n);
  }

  /** What a write into a hole of the parent's first block leads to. */
  ghost predicate HoleWritten(v: Volume, fs: FS, w: Volume, fs': FS, q: Request, n: u32, at: nat) {
    && (forall k :: k in fs'.tree <==> k in fs.tree || k == n)
    && (forall k :: k in fs.tree ==> k in fs'.tree && fs'.tree[k] == fs.tree[k])
    && (forall k :: k in fs.tree ==> (IsDirectory(fs', k) <==> IsDirectory(fs, k)))
    && (IsDirectory(fs', n) <==> MakesDir(q))
    && FirstEntries(w.disk, fs', q.parent) == InsertedIn(FirstEntries(v.disk, fs, q.parent), at, n, TypeOf(q), q.name)
    && (forall k :: IsDirectory(fs, k) && k != q.parent ==> FirstEntries(w.disk, fs', k) == FirstEntries(v.disk, fs, k))
    && (!MakesDir(q) && q.data == [] ==> n in fs'.tree && fs'.tree[n] == [])
    && (MakesDir(q) && 0 < q.parent ==>
         n in fs'.tree && |fs'.tree[n]| == 1 && FirstEntries(w.disk, fs', n) == NewList(n, q.parent))
  }

  function NewList(self: u32, parent: u32): seq<Entry> {
    [Entry(0, self, EXT2_FT_DIR, DOT), Entry(12, parent, EXT2_FT_DIR, DOTDOT)]
  }

  lemma StepInHole(v: Volume, fs: FS, depth: map<nat, nat>, q: Request, n: u32, at: nat)
    returns (fs': FS, depth': map<nat, nat>)
    requires ValidRequest(q) && IsDirectory(fs, q.parent) && Sane(v, fs, depth)
    requires RoomIn(FirstEntries(v.disk, fs, q.parent), q.name) == Hole(at)
    requires FirstFreeInode(v.disk, 1) == n && n != 0 && (MakesDir(q) ==> RoomForDir(v.disk, n))
    ensures ParentOK(v, q) && WriteSafe(v, q) && WriteCode(v, q) == 0
    ensures Sane(WriteOp(v, q).v, fs', depth') && HoleWritten(v, fs, WriteOp(v, q).v, fs', q, n, at)
    ensures !MakesDir(q) && Needed(BlocksFor(|q.data|)) >= 2048 && InodeToBgd(n) == 0 ==>
        FirstFree(WriteOp(v, q).v.disk, 0) == 0
  {
    hide Inv, TreeOK, DirsCounted, Node, FindRoom, IsDirMode, RoomIn, FirstEntries, FirstFreeInode, RoomForDir, DirOK,
      WriteOp, Done, HoleWritten, Needed, BlocksFor, FirstFree;
    RoomFound(v, fs, q);
    HoleSucceeds(v, q, n);
    var s;
    s, fs', depth' := HoleSane(v, fs, depth, q);
    HoleShown(v, fs, s, WriteOp(v, q).v, fs', at);
    if !MakesDir(q) && Needed(BlocksFor(|q.data|)) >= 2048 && InodeToBgd(n) == 0 {
      WholeDiskTaken(v, fs, s, WriteOp(v, q).v, fs');
    }
  }

  lemma HoleSucceeds(v: Volume, q: Request, n: u32)
    requires ValidRequest(q) && ParentOK(v, q) && q.parent != 0 && IsDirMode(ParentNode(v, q).mode)
    requires FindRoom(v.disk, ParentNode(v, q), 0, q.name).InHole?
    requires FirstFreeInode(v.disk, 1) == n && n != 0 && (MakesDir(q) ==> RoomForDir(v.disk, n))
    ensures WritesInHole(v, q)
  {
    hide Node, FindRoom, IsDirMode, FirstFreeInode, RoomForDir, Populate, AllocNode, Insert, Chain, Reaches, Live,
      SlackLen, RecordLen, Sync, DirOK;
    FindRoomSound(v.disk, ParentNode(v, q), 0, q.name);
  }

  lemma HoleShown(v: Volume, fs: FS, s: HoleCase, w: Volume, fs': FS, at: nat)
    requires s.v == v && s.fs == fs && s.bi == 0 && s.at == at && Done(s, w, fs') && Inv(v, fs)
    ensures 0 < s.ino < 0x1_0000_0000 && HoleWritten(v, fs, w, fs', s.q, s.ino, at)
  {
    hide Inv, HoleStep, Done, Written, Sound, RecordLen, SlackLen, SlackAt, DirBlockOK, FirstFreeInode, Populate,
      NewDirBlock, AllocNode, Insert, Edited, Adopting, Populated, Entries, Chain, NewFS, Entered, Named, Dots,
      FirstEntries, Elsewhere, MapsKept, InsertedIn, Meta, Reaches, Live;
    DoneShape(s, w, fs');
    StepParts(s);
    HoleEntered(s, w, fs');
    EnteredHas(s.fs, fs', s.ino, s.q.parent, s.bi, s.blk, SlackAt(s.v.disk[s.blk], s.at));
    KeptTrees(v, fs, s, w, fs');
    var k := s.q.parent;
    HoleParentShown(v, fs, s, w, fs');
    forall j | IsDirectory(fs, j) && j != k ensures FirstEntries(w.disk, fs', j) == FirstEntries(v.disk, fs, j) {
      HoleOtherShown(v, fs, s, w, fs', j);
    }
    if MakesDir(s.q) { HoleDirShown(v, fs, s, w, fs'); } else if s.q.data == [] { HoleFileShown(v, fs, s, w, fs'); }
  }

  /** An empty file takes no block. */
  lemma HoleFileShown(v: Volume, fs: FS, s: HoleCase, w: Volume, fs': FS)
    requires s.v == v && s.fs == fs && Done(s, w, fs') && !MakesDir(s.q) && s.q.data == [] && Inv(v, fs)
    ensures s.ino in fs'.tree && fs'.tree[s.ino] == []
  {
    hide Inv, HoleStep, Written, Sound, RecordLen, SlackLen, SlackAt, DirBlockOK, FirstFreeInode, Populate, Entered,
      Holds, AllocNode, Insert, Edited, Adopting, Populated, Entries, Chain, NewFS, Done, FreeFrom, InodeUsed, Node,
      Needed, Counted, DataCount, Meta, Used, Synced;
    DoneShape(s, w, fs');
    StepParts(s);
    HoleEntered(s, w, fs');
    EnteredHas(s.fs, fs', s.ino, s.q.parent, s.bi, s.blk, SlackAt(s.v.disk[s.blk], s.at));
    InvParts(v, fs);
    FreeInode(v, fs, {}, {}, s.ino);
    CountedPart(v, fs, {}, {});
    TakenByFile(v, s.mid, fs, NewFS(fs, s.ino, s.q, s.t), {}, s.ino, s.q, s.t);
    NoBlocks();
  }

  /** A file at least as large as the disk takes every free block. */
  lemma WholeDiskTaken(v: Volume, fs: FS, s: HoleCase, w: Volume, fs': FS)
    requires s.v == v && s.fs == fs && Done(s, w, fs') && !MakesDir(s.q) && Needed(BlocksFor(|s.q.data|)) >= 2048
    requires InodeToBgd(s.ino) == 0 && Inv(v, fs)
    ensures FirstFree(w.disk, 0) == 0
  {
    hide Inv, HoleStep, Written, Sound, RecordLen, SlackLen, SlackAt, DirBlockOK, FirstFreeInode, Populate, Holds,
      Adopting, AllocNode, Insert, Edited, Populated, NewFS, Done, InodeUsed, Node, Needed, Counted, FirstFit, Used,
      BlocksFor, NoneFree;
    DoneShape(s, w, fs');
    StepParts(s);
    DoneWrites(s, w, fs');
    WrittenDisk(s, w);
    FileTaken(s);
    TakenAll(s, w);
  }

  lemma {:induction false} AscendsAtLeast(a: seq<nat>, i: nat)
    requires i < |a| && forall j, k :: 0 <= j < k < |a| ==> a[j] < a[k]
    ensures a[i] >= a[0] + i
  {
    if i > 0 { AscendsAtLeast(a, i - 1); }
  }

  lemma FileTaken(s: HoleCase)
    requires HoleStep(s) && ValidInode(s.ino) && ValidRequest(s.q) && !MakesDir(s.q)
    requires Needed(BlocksFor(|s.q.data|)) >= 2048 && InodeToBgd(s.ino) == 0
    ensures NoneFree(s.mid.disk, 0)
  {
    hide Inv, HoleStep, Populate, Holds, AllocNode, InodeUsed, Node, Needed, Counted, Used, BlocksFor, NoneFree, NewFS,
      FileOK, Adopting, Nameless, SameTables, SameBlockBitmaps, SameData, FirstFreeInode, MetaUsed;
    StepParts(s);
    InvParts(s.v, s.fs);
    CountedPart(s.v, s.fs, {}, {});
    FreeInode(s.v, s.fs, {}, {}, s.ino);
    ZeroUsed(s.v.disk);
    if |s.t.a| >= 2048 {
      assert s.t.a[0] != 0;
      AscendsAtLeast(s.t.a, 2047);
      assert false;
    }
  }

  lemma ZeroUsed(d: Disk)
    requires MetaUsed(d)
    ensures Used(d, 0)
  {
    hide Used;
    assert Meta(0);
  }

  lemma TakenAll(s: HoleCase, w: Volume)
    requires ValidInode(s.ino) && ValidRequest(s.q) && NoneFree(s.mid.disk, 0) && s.blk < 2048
    requires Edited(s.mid.disk, w.disk, s.blk)
    ensures FirstFree(w.disk, 0) == 0
  {
    hide Used, Populate, AllocNode, Meta, SameTables, SameInodeBitmaps, SameBlockBitmaps, Untouched;
    BlockBitsSame(s.mid.disk, w.disk);
    FirstFreeNone(w.disk, 0);
  }

  lemma KeptTrees(v: Volume, fs: FS, s: HoleCase, w: Volume, fs': FS)
    requires s.v == v && s.fs == fs && Done(s, w, fs')
    ensures forall k :: k in fs.tree ==> k in fs'.tree && fs'.tree[k] == fs.tree[k] && (k in fs'.data <==> k in fs.data)
    ensures IsDirectory(fs, s.q.parent) && IsDirBlock(fs, s.q.parent, s.bi, s.blk)
  {
    hide Inv, HoleStep, Written, Sound, RecordLen, SlackLen, SlackAt, DirBlockOK, FirstFreeInode, Populate, Holds,
      AllocNode, Insert, Edited, Adopting, Populated, Entries, Chain, NewFS, Done, InodesOK, OwnersOK;
    DoneShape(s, w, fs');
    StepParts(s);
    InvParts(v, fs);
    FilesInTree(v.disk, fs);
    PopulatedParts(v, s.mid, fs, NewFS(fs, s.ino, s.q, s.t), {}, s.ino, s.q, s.t);
    AdoptedMaps(fs, s.ino, s.q, s.t);
  }

  lemma HoleParentShown(v: Volume, fs: FS, s: HoleCase, w: Volume, fs': FS)
    requires s.v == v && s.fs == fs && s.bi == 0 && Done(s, w, fs') && Inv(v, fs) && 0 < s.ino < 0x1_0000_0000
    requires s.q.parent in fs'.tree && s.q.parent in fs.tree && fs'.tree[s.q.parent] == fs.tree[s.q.parent]
    ensures FirstEntries(w.disk, fs', s.q.parent) ==
      InsertedIn(FirstEntries(v.disk, fs, s.q.parent), s.at, s.ino, TypeOf(s.q), s.q.name)
  {
    hide Inv, HoleStep, Written, Sound, RecordLen, SlackLen, SlackAt, DirBlockOK, FirstFreeInode, Populate,
      AllocNode, Insert, Edited, Adopting, Populated, Entries, Chain, NewFS, Done, InsertedIn, Dots, Meta, Reaches,
        Live;
    KeptTrees(v, fs, s, w, fs');
    DoneShape(s, w, fs');
    DoneWrites(s, w, fs');
    WrittenDisk(s, w);
    StepHole(s);
    FirstIsEntries(v, fs, s.q.parent);
    InsertIsList(v.disk[s.blk], s.at, s.ino, TypeOf(s.q), s.q.name);
  }

  lemma DoneWrites(s: HoleCase, w: Volume, fs': FS)
    requires Done(s, w, fs')
    ensures ValidRequest(s.q) && DirBlockOK(s.v.disk, s.blk) && Sound(s.v.disk[s.blk], s.at)
    ensures RecordLen(|s.q.name|) <= SlackLen(s.v.disk[s.blk], s.at) && Written(s, w)
  {
    hide Inv, HoleStep, Written, RecordLen, SlackLen, SlackAt, DirBlockOK, NewFS, Named, Sound;
  }

  lemma HoleOtherShown(v: Volume, fs: FS, s: HoleCase, w: Volume, fs': FS, j: nat)
    requires s.v == v && s.fs == fs && s.bi == 0 && Done(s, w, fs') && Inv(v, fs) && IsDirectory(fs, j)
    requires j != s.q.parent
    ensures FirstEntries(w.disk, fs', j) == FirstEntries(v.disk, fs, j)
  {
    hide Inv, Done, Entries, Chain, Dots, MapsKept;
    KeptTrees(v, fs, s, w, fs');
    StepElsewhere(s, w, fs');
    FirstOwned(v, fs, j);
    FirstOwned(v, fs, s.q.parent);
  }

  lemma HoleDirShown(v: Volume, fs: FS, s: HoleCase, w: Volume, fs': FS)
    requires s.v == v && s.fs == fs && Done(s, w, fs') && MakesDir(s.q) && 0 < s.ino < 0x1_0000_0000 && 0 < s.q.parent
    ensures s.ino in fs'.tree && |fs'.tree[s.ino]| == 1
    ensures FirstEntries(w.disk, fs', s.ino) == NewList(s.ino, s.q.parent)
  {
    hide Inv, HoleStep, Written, Sound, RecordLen, SlackLen, SlackAt, DirBlockOK, FirstFreeInode, Populate, Entered,
      AllocNode, Insert, Edited, Adopting, Populated, Entries, Chain, NewFS, Done, NewDirBlock, Meta;
    DoneShape(s, w, fs');
    StepParts(s);
    HoleEntered(s, w, fs');
    EnteredHas(s.fs, fs', s.ino, s.q.parent, s.bi, s.blk, SlackAt(s.v.disk[s.blk], s.at));
    DoneWrites(s, w, fs');
    WrittenDisk(s, w);
    NewDirThere(s, w);
    NewDirBlockSpec(s.ino, s.q.parent);
  }

  lemma EnteredHas(fs: FS, fs': FS, ino: nat, p: nat, bi: nat, blk: nat, at: nat)
    requires Entered(fs, fs', ino, p, bi, blk, at)
    ensures ino in fs'.tree && ino !in fs.tree && forall k :: k in fs'.tree <==> k in fs.tree || k == ino
  {}

  // ----- deleting a file named in the first block -----

  /** Entry `j` is the first of its name, behind the dots. */
  predicate FirstOf(es: seq<Entry>, j: nat, name: Name) {
    2 <= j < |es| && es[j].name == name && forall i :: 0 <= i < j ==> es[i].name != name
  }

  lemma LookupIs(es: seq<Entry>, j: nat, name: Name)
    requires FirstOf(es, j, name)
    ensures Lookup(es, name) == j
  {}

  lemma {:induction false} LookupIn(x: seq<Entry>, y: seq<Entry>, j: nat, name: Name)
    requires FirstOf(x, j, name)
    ensures Resolve(x + y, name) == Some(x[j])
  {
    hide Lookup;
    LookupIs(x, j, name);
    LookupAppend(x, y, name);
  }

  /** The scan of `read` and `delete` stops at that entry. */
  lemma FoundFirst(b: Block, k: nat, j: nat, name: Name)
    requires Dots(b, k) && FirstOf(Entries(b, 0), j, name)
    ensures Chain(b, 0) && FindName(b, 0, name) == Entries(b, 0)[j].at && FindName(b, 0, name) != 512
    ensures var p := FindName(b, 0, name);
        FoundRecord(b, 0, p, name) && EntryAt(b, p) == Entries(b, 0)[j] && p != 0 && p != 12
    ensures var p := FindName(b, 0, name); |EntriesBefore(b, 0, p)| == j
  {
    hide Chain, Entries, Reaches, Live, EntriesBefore, Lookup, FindName, EntryAt, NameAt;
    LookupIs(Entries(b, 0), j, name);
    FindNameSpec(b, 0, name);
    var p := FindName(b, 0, name);
    RecordInList(b, p);
    EntryNameLen(b, p);
    DotPlaces(b, k);
    if p == 0 { PlacesDiffer(b, 0, 0, j); assert false; }
    if p == 12 { PlacesDiffer(b, 0, 1, j); assert false; }
  }

  lemma DotPlaces(b: Block, k: nat)
    requires Dots(b, k)
    ensures Chain(b, 0) && |Entries(b, 0)| >= 2 && Entries(b, 0)[0].at == 0 && Entries(b, 0)[1].at == 12
  {
    hide Chain, Entries;
  }

  /** Removing that record takes entry `j` out of the list. */
  lemma RemoveIsList(b: Block, p: nat, j: nat)
    requires Chain(b, 0) && Reaches(b, 0, p) && Live(b, p) && |EntriesBefore(b, 0, p)| == j
    ensures var b' := Remove(b, p, Previous(b, 0, 512, p));
      Chain(b', 0) && j < |Entries(b, 0)| && Entries(b', 0) == Entries(b, 0)[..j] + Entries(b, 0)[j + 1..]
  {
    hide Chain, Entries, Reaches, Live, EntriesBefore, EntriesAfter, Remove, Previous, EntryAt;
    RemoveSpec(b, p, Previous(b, 0, 512, p));
    var x, y := EntriesBefore(b, 0, p), EntriesAfter(b, p);
    assert Entries(b, 0)[..j] == x && Entries(b, 0)[j + 1..] == y;
  }

  /** What the deletion of a file named by entry `j` of the parent's first block leads to. */
  ghost predicate FileDeleted(v: Volume, fs: FS, w: Volume, fs': FS, q: Request, j: nat) {
    var es := FirstEntries(v.disk, fs, q.parent);
    && j < |es| && fs' == Without(fs, es[j].ino) && es[j].ino in fs.data
    && FirstEntries(w.disk, fs', q.parent) == es[..j] + es[j + 1..]
    && (forall k :: IsDirectory(fs, k) && k != q.parent ==> FirstEntries(w.disk, fs', k) == FirstEntries(v.disk, fs, k))
    && (forall k, i :: IsDirectory(fs, k) && 0 < i < |fs.tree[k]| ==>
          fs.tree[k][i] < 2048 && w.disk[fs.tree[k][i]] == v.disk[fs.tree[k][i]])
  }

  lemma StepDelete(v: Volume, fs: FS, depth: map<nat, nat>, q: Request, stack: u32, j: nat) returns (fs': FS)
    requires ValidRequest(q) && !q.isDir && IsDirectory(fs, q.parent) && Sane(v, fs, depth)
    requires var es := FirstEntries(v.disk, fs, q.parent); FirstOf(es, j, q.name) && es[j].ftype == EXT2_FT_REG_FILE
    ensures ParentOK(v, q) && DeleteSafe(v, q) && LeavesNoOrphans(v, q) && DeleteCode(v, q, stack) == 0
    ensures Sane(DeleteOp(v, q, stack).v, fs', depth) && FileDeleted(v, fs, DeleteOp(v, q, stack).v, fs', q, j)
  {
    hide Inv, TreeOK, DirsCounted, Node, FindEntry, IsDirMode, FirstEntries, DirOK, DeleteOp, FileDeleted, Without,
      Target, Resolved, ParentOK, FirstOf, NothingBeyond, DeleteSafe, Refused;
    InvParentOK(v, fs, q);
    DeletesFirst(v, fs, depth, q, stack, j);
    fs' := DeletedSane(v, fs, depth, q, stack);
    DeleteShown(v, fs, q, stack, j, fs');
  }

  /** The request finds entry `j`, is not refused and does not name a dot. */
  lemma DeletesFirst(v: Volume, fs: FS, depth: map<nat, nat>, q: Request, stack: u32, j: nat)
    requires ValidRequest(q) && ParentOK(v, q) && !q.isDir && IsDirectory(fs, q.parent) && Sane(v, fs, depth)
    requires var es := FirstEntries(v.disk, fs, q.parent); FirstOf(es, j, q.name) && es[j].ftype == EXT2_FT_REG_FILE
    ensures DeleteSafe(v, q) && DeleteCode(v, q, stack) == 0
    ensures Target(v, q) == FirstEntries(v.disk, fs, q.parent)[j].ino
  {
    hide Inv, TreeOK, DirsCounted, FirstEntries, DeleteOp, Resolved, FirstOf, DeleteSafe, Target, ParentOK;
    RefusedExactly(v, fs, depth, q, stack);
    ResolvedFirst(v, fs, q.parent, j, q.name);
    TargetsFirst(v, fs, q, j);
  }

  lemma TargetsFirst(v: Volume, fs: FS, q: Request, j: nat)
    requires ValidRequest(q) && ParentOK(v, q) && IsDirectory(fs, q.parent)
    requires FirstOf(FirstEntries(v.disk, fs, q.parent), j, q.name) && Inv(v, fs)
    ensures DeleteSafe(v, q) && Target(v, q) == FirstEntries(v.disk, fs, q.parent)[j].ino
  {
    hide Inv, Node, IsDirMode, FirstEntries, DirOK, FirstOf, Chain, Entries, Dots, FindEntry, FindName, EntryAt,
      EntInode, Reaches, Live, NameAt, EntriesBefore;
    FindsFirst(v, fs, q, j);
    FirstIsEntries(v, fs, q.parent);
    var b := v.disk[fs.tree[q.parent][0]];
    FoundFirst(b, q.parent, j, q.name);
    EntryFields(b, FindName(b, 0, q.name));
  }

  lemma ResolvedFirst(v: Volume, fs: FS, k: nat, j: nat, name: Name)
    requires IsDirectory(fs, k) && FirstOf(FirstEntries(v.disk, fs, k), j, name) && Inv(v, fs)
    ensures Resolved(v, fs, k, name) == Some(FirstEntries(v.disk, fs, k)[j])
  {
    hide Inv, FirstOf, Chain, Entries, Dots, FirstEntries, NamesIn, Resolve, Listing;
    DirContents(v, fs, k);
    FirstIsEntries(v, fs, k);
    NamesInIs(v, fs, k);
    ListingHead(v.disk, fs.tree[k]);
    LookupIn(FirstEntries(v.disk, fs, k), Listing(v.disk, fs.tree[k][1..]), j, name);
  }

  lemma ListingHead(d: Disk, a: seq<nat>)
    requires Blocks(d, a) && a != []
    ensures Blocks(d, a[1..]) && Listing(d, a) == Entries(d[a[0]], 0) + Listing(d, a[1..])
  {
    hide Chain, Entries;
  }

  lemma FindsFirst(v: Volume, fs: FS, q: Request, j: nat)
    requires ValidRequest(q) && ParentOK(v, q) && IsDirectory(fs, q.parent)
    requires FirstOf(FirstEntries(v.disk, fs, q.parent), j, q.name) && Inv(v, fs)
    ensures q.parent != 0 && IsDirMode(ParentNode(v, q).mode) && ParentNode(v, q).blocks >= 1
    ensures |fs.tree[q.parent]| > 0 && ParentNode(v, q).block[0] == fs.tree[q.parent][0] < 2048
    ensures FindEntry(v.disk, ParentNode(v, q), 0, q.name) == Place(0, FirstEntries(v.disk, fs, q.parent)[j].at)
  {
    hide Inv, Node, IsDirMode, FirstEntries, FirstOf, Dots, Chain, FindName, Entries, Sound, Live, DirOK, Spells,
      Blocks, Reaches, EntryAt, EntriesBefore, NameAt;
    var k := q.parent;
    DirContents(v, fs, k);
    DirectoryFound(v, fs, k);
    FirstIsEntries(v, fs, k);
    FoundFirst(v.disk[fs.tree[k][0]], k, j, q.name);
    FindUnfold(v.disk, ParentNode(v, q), q.name);
  }

  lemma FindUnfold(d: Disk, n: Inode, name: Name)
    requires DirOK(d, n) && n.blocks >= 1
    ensures DirBlockOK(d, n.block[0])
    ensures FindName(d[n.block[0]], 0, name) != 512 ==>
        FindEntry(d, n, 0, name) == Place(0, FindName(d[n.block[0]], 0, name))
  {
    hide FindName, Chain;
  }

  /** One block changes, and in it one record. */
  lemma DeletedBlock(v: Volume, fs: FS, q: Request, stack: u32, j: nat, blk: nat, at: nat)
    requires ValidRequest(q) && ParentOK(v, q) && !q.isDir && IsDirectory(fs, q.parent)
    requires DeleteCode(v, q, stack) == 0
    requires IsDirBlock(fs, q.parent, 0, blk) && DirBlockOK(v.disk, blk) && 21 <= blk
    requires FoundRecord(v.disk[blk], 0, at, q.name) && Sound(v.disk[blk], at) && at != 0 && at != 12
    requires |EntriesBefore(v.disk[blk], 0, at)| == j && DeleteOp(v, q, stack) == DeleteAt(v, q, blk, at, stack)
    requires Inv(v, fs)
    ensures var w := DeleteOp(v, q, stack).v;
      && Chain(v.disk[blk], 0) && Chain(w.disk[blk], 0) && j < |Entries(v.disk[blk], 0)|
      && Entries(w.disk[blk], 0) == Entries(v.disk[blk], 0)[..j] + Entries(v.disk[blk], 0)[j + 1..]
      && EntryAt(v.disk[blk], at).ino in fs.data
    ensures forall m :: 21 <= m < 2048 && !Meta(m) && m != blk ==> DeleteOp(v, q, stack).v.disk[m] == v.disk[m]
  {
    hide Inv, IsDirMode, Node, Chain, Entries, Sound, DirOK, Reaches, Live, EntryAt, EntriesBefore, NameAt, DeleteAt,
      DeleteOp, Remove, Previous, Holds, Meta, ParentOK, DirBlockOK;
    InvParts(v, fs);
    BlockNumberOf(v.disk, blk);
    DeleteTypes(v, fs, q, 0, blk, at, stack);
    EntryFields(v.disk[blk], at);
    DeleteOneBlock(v, fs, q, blk, at, stack);
    RemoveIsList(v.disk[blk], at, j);
  }

  lemma BlockNumberOf(d: Disk, p: nat)
    requires DirBlockOK(d, p)
    ensures 0 < p < 2048 && Chain(d[p], 0)
  {}

  lemma DeleteShown(v: Volume, fs: FS, q: Request, stack: u32, j: nat, fs': FS)
    requires ValidRequest(q) && ParentOK(v, q) && !q.isDir && IsDirectory(fs, q.parent)
    requires DeleteCode(v, q, stack) == 0
    requires var es := FirstEntries(v.disk, fs, q.parent);
      FirstOf(es, j, q.name) && es[j].ftype == EXT2_FT_REG_FILE && Target(v, q) == es[j].ino &&
        fs' == Without(fs, es[j].ino)
    requires Inv(v, fs)
    ensures FileDeleted(v, fs, DeleteOp(v, q, stack).v, fs', q, j)
  {
    hide Inv, Node, IsDirMode, Dots, Chain, FindName, Entries, Sound, Live, DirOK, Reaches, EntryAt, EntriesBefore,
      NameAt, DeleteOp, FindEntry, Holds, FoundRecord, Target, Meta, FirstEntries, DirBlockOK, ParentOK, Without;
    var k := q.parent;
    FirstIsEntries(v, fs, k);
    var blk, es, w := fs.tree[k][0], FirstEntries(v.disk, fs, k), DeleteOp(v, q, stack).v;
    FoundFirst(v.disk[blk], k, j, q.name);
    var at := es[j].at;
    DeletesAt(v, fs, q, stack, j);
    DeletedBlock(v, fs, q, stack, j, blk, at);
    forall p, i | IsDirectory(fs, p) && 0 <= i < |fs.tree[p]| && (p != k || i != 0)
      ensures 21 <= fs.tree[p][i] < 2048 && w.disk[fs.tree[p][i]] == v.disk[fs.tree[p][i]]
    {
      OtherBlock(v, w, fs, k, p, i);
    }
    WithoutFile(v, w, fs, k, es[j].ino, j);
  }

  /** Seen through the lists. */
  lemma WithoutFile(v: Volume, w: Volume, fs: FS, k: nat, x: nat, j: nat)
    requires IsDirectory(fs, k) && x in fs.data && Inv(v, fs)
    requires |fs.tree[k]| > 0 && fs.tree[k][0] < 2048 && Chain(w.disk[fs.tree[k][0]], 0)
    requires forall p, i :: IsDirectory(fs, p) && 0 <= i < |fs.tree[p]| && (p != k || i != 0) ==>
      21 <= fs.tree[p][i] < 2048 && w.disk[fs.tree[p][i]] == v.disk[fs.tree[p][i]]
    ensures FirstEntries(w.disk, Without(fs, x), k) == Entries(w.disk[fs.tree[k][0]], 0)
    ensures forall p :: IsDirectory(fs, p) && p != k ==>
        FirstEntries(w.disk, Without(fs, x), p) == FirstEntries(v.disk, fs, p)
  {
    hide Inv, Chain, Entries;
  }

  /** The whole operation is the deletion at that record. */
  lemma DeletesAt(v: Volume, fs: FS, q: Request, stack: u32, j: nat)
    requires ValidRequest(q) && ParentOK(v, q) && IsDirectory(fs, q.parent)
    requires FirstOf(FirstEntries(v.disk, fs, q.parent), j, q.name) && Inv(v, fs)
    ensures |fs.tree[q.parent]| > 0 && DirBlockOK(v.disk, fs.tree[q.parent][0])
    ensures var at, blk := FirstEntries(v.disk, fs, q.parent)[j].at, fs.tree[q.parent][0];
      Sound(v.disk[blk], at) && DeleteOp(v, q, stack) == DeleteAt(v, q, blk, at, stack)
  {
    hide Inv, Node, IsDirMode, FirstEntries, Chain, FindEntry, DirOK, DeleteAt, Reaches, Live, NameAt, SlackZero;
    FindsFirst(v, fs, q, j);
    FindEntrySound(v.disk, ParentNode(v, q), 0, q.name);
  }

  /** Block `i` of directory `p` is not the first block of `k`. */
  lemma OtherBlock(v: Volume, w: Volume, fs: FS, k: nat, p: nat, i: nat)
    requires IsDirectory(fs, k) && IsDirectory(fs, p) && i < |fs.tree[p]| && (p != k || i != 0) && Inv(v, fs)
    requires |fs.tree[k]| > 0 && fs.tree[k][0] < 2048
    requires forall m :: 21 <= m < 2048 && !Meta(m) && m != fs.tree[k][0] ==> w.disk[m] == v.disk[m]
    ensures 21 <= fs.tree[p][i] < 2048 && w.disk[fs.tree[p][i]] == v.disk[fs.tree[p][i]]
  {
    hide Inv, Holds, Meta, Dots, Chain;
    InvParts(v, fs);
    FirstOwned(v, fs, k);
    DirBlockFacts(v, fs, {}, {}, p, i, fs.tree[p][i]);
  }

  // ----- growing a directory -----

  /** No block of the directory has room for the name, nor lists it. */
  ghost predicate Crowded(d: Disk, a: seq<nat>, name: Name) {
    forall i :: 0 <= i < |a| ==> a[i] < 2048 && Chain(d[a[i]], 0) && RoomIn(Entries(d[a[i]], 0), name) == NoRoom
  }

  /** The scan of a whole block, whose first record may be dead. */
  lemma BlockScanIsRoom(b: Block, name: Name)
    requires Chain(b, 0)
    ensures ScanForHole(b, 0, name, RecordLen(|name|)) == RoomIn(Entries(b, 0), name)
  {
    hide U16At, U32At, RecordLen, NameAt, SlackZero, RoomIn;
    if Live(b, 0) {
      ScanIsRoom(b, 0, name);
    } else {
      ScanIsRoom(b, RecLen(b, 0), name);
      assert Entries(b, 0) == Entries(b, RecLen(b, 0));
    }
  }

  lemma {:induction false} CrowdedIsFull(d: Disk, n: Inode, a: seq<nat>, i: nat, name: Name)
    requires DirOK(d, n) && Spells(n, a) && Crowded(d, a, name)
    ensures FindRoom(d, n, i, name).Full?
    decreases 15 - i
  {
    hide ScanForHole, RecordLen, Chain, RoomIn, Entries;
    if i < n.blocks {
      BlockScanIsRoom(d[a[i]], name);
      CrowdedIsFull(d, n, a, i + 1, name);
    }
  }

  /** The scan of `write` finds no place in a crowded directory. */
  lemma NoRoomFound(v: Volume, fs: FS, q: Request)
    requires ValidRequest(q) && IsDirectory(fs, q.parent) && Crowded(v.disk, fs.tree[q.parent], q.name) && Inv(v, fs)
    ensures ParentOK(v, q) && q.parent != 0 && IsDirMode(ParentNode(v, q).mode)
    ensures ParentNode(v, q).blocks == |fs.tree[q.parent]| && FindRoom(v.disk, ParentNode(v, q), 0, q.name).Full?
  {
    hide Inv, Node, IsDirMode, Dots, Chain, Spells, Blocks, Crowded, FindRoom;
    var k := q.parent;
    DirContents(v, fs, k);
    DirectoryFound(v, fs, k);
    CrowdedIsFull(v.disk, Node(v.disk, k), fs.tree[k], 0, q.name);
    SpelledCount(Node(v.disk, k), fs.tree[k]);
  }

  /** A directory of one block is crowded if its first list has no room. */
  lemma OneBlockCrowded(v: Volume, fs: FS, k: nat, name: Name)
    requires IsDirectory(fs, k) && |fs.tree[k]| == 1 && RoomIn(FirstEntries(v.disk, fs, k), name) == NoRoom
    requires Inv(v, fs)
    ensures Crowded(v.disk, fs.tree[k], name)
  {
    hide Inv, FirstEntries, Chain, Entries, Dots, RoomIn, Sound, Live;
    FirstIsEntries(v, fs, k);
  }

  lemma SpelledCount(n: Inode, a: seq<nat>)
    requires Spells(n, a)
    ensures n.blocks == |a|
  {}

  /** What growing directory `q.parent` by a block that names the new file leads to. */
  ghost predicate Extended(v: Volume, fs: FS, w: Volume, fs': FS, q: Request, n: u32) {
    && (forall k :: k in fs'.tree <==> k in fs.tree || k == n)
    && (forall k :: k in fs.tree ==> (IsDirectory(fs', k) <==> IsDirectory(fs, k)))
    && (forall k :: k in fs.tree && k != q.parent ==> k in fs'.tree && fs'.tree[k] == fs.tree[k])
    && (q.data == [] ==> n in fs'.tree && fs'.tree[n] == [])
    && (forall k :: IsDirectory(fs, k) ==> FirstEntries(w.disk, fs', k) == FirstEntries(v.disk, fs, k))
    && q.parent in fs'.tree && q.parent in fs.tree && GrownBy(v.disk, w.disk, fs.tree[q.parent], fs'.tree[q.parent])
    && Entries(w.disk[fs'.tree[q.parent][|fs.tree[q.parent]|]], 0) == [Entry(0, n, TypeOf(q), q.name)]
  }

  /** One block more behind the others, which keep their bytes. */
  ghost predicate GrownBy(d: Disk, d': Disk, a: seq<nat>, a': seq<nat>) {
    && |a'| == |a| + 1 && a'[..|a|] == a && a'[|a|] < 2048 && Chain(d'[a'[|a|]], 0)
    && forall i :: 0 <= i < |a| ==> a[i] < 2048 && d'[a[i]] == d[a[i]]
  }

  lemma StepGrow(v: Volume, fs: FS, depth: map<nat, nat>, q: Request, n: u32) returns (fs': FS, depth': map<nat, nat>)
    requires ValidRequest(q) && !MakesDir(q) && IsDirectory(fs, q.parent) && |fs.tree[q.parent]| < 12
    requires Sane(v, fs, depth)
    requires Crowded(v.disk, fs.tree[q.parent], q.name)
    requires FirstFreeInode(v.disk, 1) == n && ValidInode(n) && TableBlock(n) != TableBlock(q.parent)
    requires FirstFree(v.disk, 256 * InodeToBgd(q.parent)) != 0
    ensures ParentOK(v, q) && WriteSafe(v, q) && WriteCode(v, q) == 0
    ensures Sane(WriteOp(v, q).v, fs', depth') && Extended(v, fs, WriteOp(v, q).v, fs', q, n)
  {
    hide Inv, TreeOK, DirsCounted, Node, FindRoom, IsDirMode, RoomIn, FirstEntries, FirstFreeInode, FirstFree, DirOK,
      WriteOp, Extended, GrowthStep, GrownFS, InodeToBgd, TableBlock, Crowded;
    NoRoomFound(v, fs, q);
    GrowthSucceeds(v, q, n);
    var g;
    g, fs', depth' := GrowthSane(v, fs, depth, q);
    GrowthShown(v, fs, g);
  }

  lemma GrowthSucceeds(v: Volume, q: Request, n: u32)
    requires ValidRequest(q) && ParentOK(v, q) && q.parent != 0 && IsDirMode(ParentNode(v, q).mode) && !MakesDir(q)
    requires FindRoom(v.disk, ParentNode(v, q), 0, q.name).Full? && ParentNode(v, q).blocks < 12
    requires FirstFreeInode(v.disk, 1) == n && ValidInode(n) && TableBlock(n) != TableBlock(q.parent)
    requires FirstFree(v.disk, 256 * InodeToBgd(q.parent)) != 0
    ensures WriteSafe(v, q) && WriteCode(v, q) == 0
  {
    hide Node, FindRoom, IsDirMode, FirstFreeInode, FirstFree, RoomForDir, Populate, AllocNode, NewEntryBlock, Sync,
      DirOK, Take, PutInode, InodeToBgd, TableBlock;
    FindRoomSound(v.disk, ParentNode(v, q), 0, q.name);
  }

  lemma GrowthShown(v: Volume, fs: FS, g: Growing)
    requires g.v == v && g.fs == fs && GrowthStep(g) && !MakesDir(g.q) && 0 < g.ino < 0x1_0000_0000 && Inv(v, fs)
    requires IsDirectory(fs, g.q.parent)
    ensures Extended(v, fs, g.v', GrownFS(g), g.q, g.ino)
  {
    hide Inv, GrowthStep, GrownFS, FirstEntries, Entered, MapsKept, Chain, Entries, Elsewhere, NewEntryBlock, OneBlock,
      Populate, AllocNode, Adopting, Used, SameData, Take, NewFS, Populated, Meta, GrownBy;
    GrowthParts(g);
    GrowthElsewhere(g);
    GrowthMaps(g);
    GrowthTrees(g);
    EnteredHas(fs, GrownFS(g), g.ino, g.q.parent, |fs.tree[g.q.parent]|, g.b, 0);
    NewEntryBlockSpec(g.ino, TypeOf(g.q), g.q.name);
    GrownBlock(g);
    GrownParent(g);
    if g.q.data == [] { GrownFile(g); }
    forall k | IsDirectory(fs, k) ensures FirstEntries(g.v'.disk, GrownFS(g), k) == FirstEntries(v.disk, fs, k) {
      GrowthFirst(v, fs, g, k);
    }
  }

  lemma GrownBlock(g: Growing)
    requires ValidRequest(g.q) && ValidInode(g.ino) && g.b < 2048
    requires OneBlock(g.mid, g.v', g.b, NewEntryBlock(g.ino, TypeOf(g.q), g.q.name))
    ensures g.v'.disk[g.b] == NewEntryBlock(g.ino, TypeOf(g.q), g.q.name)
  {
    hide Populate, AllocNode, NewEntryBlock, Take, Meta;
  }

  lemma GrownParent(g: Growing)
    requires GrowthStep(g) && IsDirectory(g.fs, g.q.parent) && Inv(g.v, g.fs) && g.b < 2048 && g.b !in g.fs.owner
    requires Elsewhere(g.v.disk, g.v'.disk, g.fs, g.b) && Chain(g.v'.disk[g.b], 0)
    ensures GrownBy(g.v.disk, g.v'.disk, g.fs.tree[g.q.parent], g.fs.tree[g.q.parent] + [g.b])
  {
    hide Inv, Holds, GrowthStep, Chain, Meta, Dots, Entries;
    var a := g.fs.tree[g.q.parent];
    InvParts(g.v, g.fs);
    forall i | 0 <= i < |a| ensures a[i] < 2048 && g.v'.disk[a[i]] == g.v.disk[a[i]] {
      DirBlockFacts(g.v, g.fs, {}, {}, g.q.parent, i, a[i]);
    }
  }

  lemma UnknownIsUnused(v: Volume, fs: FS, ino: nat)
    requires ValidInode(ino) && ino !in fs.tree && Holds(v, fs, {}, {})
    ensures !InodeUsed(v.disk, ino)
  {
    hide Counted, MetaUsed, OwnersOK, ContentsOK, NamesOK, InodeUsed, Node;
  }

  lemma GrowthPlaces(g: Growing)
    requires GrowthStep(g)
    ensures g.b == FirstFree(g.v.disk, 256 * InodeToBgd(g.q.parent)) && g.b != 0
  {
    hide Inv, Meta, Populate, AllocNode, NewFS, Populated, Take, OneBlock, NewEntryBlock, FirstFree;
  }

  lemma GrownUnused(g: Growing)
    requires GrowthStep(g)
    ensures ValidInode(g.ino) && g.b < 2048 && Counted(Take(g.v, g.b)) && !InodeUsed(Take(g.v, g.b).disk, g.ino)
  {
    hide Inv, Holds, Meta, Adopting, Used, Populate, AllocNode, Take, NewEntryBlock, SameData, OneBlock, Counted,
      FirstFree, GrowthStep, InodeUsed, MetaUsed, SameInodeBitmaps, SameTables;
    GrowthParts(g);
    GrowthPlaces(g);
    InvParts(g.v, g.fs);
    UnknownIsUnused(g.v, g.fs, g.ino);
    CountedPart(g.v, g.fs, {}, {});
    TakeOneFrame(g.v, InodeToBgd(g.q.parent), g.b);
    InodeBitsSame(g.v.disk, Take(g.v, g.b).disk);
  }

  /** An empty file takes no block. */
  lemma GrownFile(g: Growing)
    requires GrowthStep(g) && !MakesDir(g.q) && g.q.data == [] && ValidRequest(g.q)
    ensures g.ino in GrownFS(g).tree && GrownFS(g).tree[g.ino] == []
  {
    hide Inv, Populate, AllocNode, NewFS, Take, Counted, Populated, GrowthStep, GrownFS, InodeUsed, Needed, MapsKept,
      Entered, FreeFrom, DataCount, Meta, Used;
    GrownUnused(g);
    GrowthRest(g);
    GrowthMaps(g);
    TakenByFile(Take(g.v, g.b), g.mid, g.fs, NewFS(g.fs, g.ino, g.q, g.t), {g.b}, g.ino, g.q, g.t);
    NoBlocks();
  }

  lemma GrowthTrees(g: Growing)
    requires GrowthStep(g)
    ensures g.q.parent in g.fs.tree && g.q.parent in GrownFS(g).tree
    ensures GrownFS(g).tree[g.q.parent] == g.fs.tree[g.q.parent] + [g.b]
    ensures forall k :: k in g.fs.tree && k != g.q.parent ==> k in GrownFS(g).tree && GrownFS(g).tree[k] == g.fs.tree[k]
    ensures forall k :: k in g.fs.tree ==> (k in GrownFS(g).data <==> k in g.fs.data)
  {
    hide Inv, Holds, Meta, Adopting, Used, Populate, AllocNode, NewFS, Take, NewEntryBlock, SameData, OneBlock,
      FirstFree, Populated, GrowthStep;
    GrowthParts(g);
    GrowthRest(g);
    InvParts(g.v, g.fs);
    FilesInTree(g.v.disk, g.fs);
    AdoptedMaps(g.fs, g.ino, g.q, g.t);
  }

  lemma GrowthFirst(v: Volume, fs: FS, g: Growing, k: nat)
    requires g.v == v && g.fs == fs && GrowthStep(g) && IsDirectory(fs, k) && Inv(v, fs)
    requires Elsewhere(v.disk, g.v'.disk, fs, g.b) && g.b !in fs.owner && IsDirectory(fs, g.q.parent)
    requires GrownFS(g).tree.Keys >= fs.tree.Keys
    requires k != g.q.parent ==> GrownFS(g).tree[k] == fs.tree[k]
    requires k == g.q.parent ==> GrownFS(g).tree[k] == fs.tree[k] + [g.b]
    ensures FirstEntries(g.v'.disk, GrownFS(g), k) == FirstEntries(v.disk, fs, k)
  {
    hide Inv, GrowthStep, GrownFS, Chain, Entries;
    FirstOwned(v, fs, k);
  }
}
