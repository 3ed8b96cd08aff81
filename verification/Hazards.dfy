/** Runs from a freshly formatted image that reach the states in which an operation goes wrong. */
module Hazards {
  import opened Bytes
  import opened Layout
  import opened Metadata
  import opened Volume
  import opened FileTree
  import opened Directory
  import opened Operations
  import opened Invariant
  import opened Writing
  import opened Deletion
  import opened Format
  import opened Observing
  import opened WriteEffects
  import opened Effects
  import opened DeleteEffects
  import opened DirCounts
  import opened TreeShape
  import opened Runs
  import opened Exactness
  import opened DeleteExactness
  import opened Paths
  import opened FirstUse
  import opened Stepping

  // ----- reached volumes -----

  function Fresh(d: Disk, signature: Block): Volume { Mount(CreateExt2(d, signature)) }

  /** A set of volumes that no safe operation leaves. */
  ghost predicate Closed(vs: iset<Volume>) {
    forall v, op :: v in vs && SafeOp(v, op) ==> Apply(v, op) in vs
  }

  /** Safe operations lead from `start` to `v`: it is in every closed set that `start` is in. */
  ghost predicate Reached(start: Volume, v: Volume) {
    forall vs: iset<Volume> {:trigger Closed(vs)} :: Closed(vs) && start in vs ==> v in vs
  }

  ghost predicate RunLeads(start: Volume, v: Volume) {
    exists ops :: SafeRun(start, ops) && Run(start, ops) == v
  }

  lemma {:induction false} RunMore(v: Volume, ops: seq<Op>, op: Op)
    requires SafeRun(v, ops) && SafeOp(Run(v, ops), op)
    ensures SafeRun(v, ops + [op]) && Run(v, ops + [op]) == Apply(Run(v, ops), op)
    decreases |ops|
  {
    hide SafeOp, Apply;
    if ops == [] {
      assert [] + [op] == [op];
      assert [op][1..] == [];
    } else {
      assert (ops + [op])[1..] == ops[1..] + [op];
      RunMore(Apply(v, ops[0]), ops[1..], op);
    }
  }

  /** That is to say that some run of safe operations leads there. */
  lemma ReachedIsRun(start: Volume, v: Volume)
    ensures Reached(start, v) <==> RunLeads(start, v)
  {
    hide SafeOp, Apply;
    if Reached(start, v) {
      var vs := iset w | RunLeads(start, w);
      forall w, op | w in vs && SafeOp(w, op) ensures Apply(w, op) in vs {
        var ops :| SafeRun(start, ops) && Run(start, ops) == w;
        RunMore(start, ops, op);
        assert SafeRun(start, ops + [op]);
      }
      assert SafeRun(start, []) && Run(start, []) == start;
      assert Closed(vs);
    } else if RunLeads(start, v) {
      var ops :| SafeRun(start, ops) && Run(start, ops) == v;
      var vs :| Closed(vs) && start in vs && v !in vs;
      RunStays(start, ops, vs);
    }
  }

  lemma {:induction false} RunStays(v: Volume, ops: seq<Op>, vs: iset<Volume>)
    requires SafeRun(v, ops) && Closed(vs) && v in vs
    ensures Run(v, ops) in vs
    decreases |ops|
  {
    hide SafeOp, Apply;
    if ops != [] { RunStays(Apply(v, ops[0]), ops[1..], vs); }
  }

  lemma ReachedMore(start: Volume, v: Volume, op: Op)
    requires Reached(start, v) && SafeOp(v, op)
    ensures Reached(start, Apply(v, op))
  {
    hide SafeOp, Apply;
  }

  lemma ReachedWrite(start: Volume, v: Volume, q: Request)
    requires ValidRequest(q) && ParentOK(v, q) && WriteSafe(v, q) && Reached(start, v)
    ensures Reached(start, WriteOp(v, q).v)
  {
    hide Reached, WriteOp, WriteSafe, ParentOK;
    ReachedMore(start, v, WriteCall(q));
  }

  lemma ReachedDelete(start: Volume, v: Volume, q: Request, stack: u32)
    requires ValidRequest(q) && ParentOK(v, q) && DeleteSafe(v, q) && LeavesNoOrphans(v, q) && Reached(start, v)
    ensures Reached(start, DeleteOp(v, q, stack).v)
  {
    hide Reached, DeleteOp, DeleteSafe, LeavesNoOrphans, ParentOK;
    ReachedMore(start, v, DeleteCall(q, stack));
  }

  // ----- a reached volume and what its lists say -----

  /** A reached sane volume, with what it stands for. */
  datatype Scene = Scene(start: Volume, v: Volume, fs: FS, depth: map<nat, nat>)

  ghost predicate Set(s: Scene) { Reached(s.start, s.v) && Sane(s.v, s.fs, s.depth) }

  function ListOf(s: Scene, k: nat): seq<Entry> { FirstEntries(s.v.disk, s.fs, k) }

  /** The volume just formatted. */
  ghost predicate Beginning(s: Scene) {
    && s.fs == FreshFS() && IsDirectory(s.fs, 1) && |s.fs.tree[1]| == 1 && (forall k :: k in s.fs.tree <==> k == 1)
    && ListOf(s, 1) == NewList(1, 1) && Set(s)
  }

  lemma Begin(d: Disk, signature: Block) returns (s: Scene)
    requires Blank(d)
    ensures Beginning(s) && s.start == s.v == Fresh(d, signature)
  {
    hide CreateExt2, Mount, Sane, Blank, NewDirBlock, Entries, Chain;
    s := Scene(Fresh(d, signature), Fresh(d, signature), FreshFS(), map[1 := 0]);
    FreshSane(d, signature);
    FreshRoot(d, signature);
    NewDirBlockSpec(1, 1);
  }

  /**
   * Scene `t` comes out of `s` by one write into the hole at `at` of the parent's first block, which makes inode `n`.
   */
  ghost predicate Grows(s: Scene, t: Scene, q: Request, n: u32, at: nat) {
    && t.start == s.start && ValidRequest(q) && |q.data| < 0x1_0000_0000
    && HoleWritten(s.v, s.fs, t.v, t.fs, q, n, at)
    && (!MakesDir(q) && Needed(BlocksFor(|q.data|)) >= 2048 && InodeToBgd(n) == 0 ==> FirstFree(t.v.disk, 0) == 0)
    && Set(t)
  }

  predicate NextFree(fs: FS, n: nat) { ValidInode(n) && n !in fs.tree && forall k :: 1 <= k < n ==> k in fs.tree }

  /** One more file or directory, in a hole of its parent's first block. */
  lemma Put(s: Scene, q: Request, n: u32, at: nat) returns (t: Scene)
    requires ValidRequest(q) && IsDirectory(s.fs, q.parent) && RoomIn(ListOf(s, q.parent), q.name) == Hole(at)
    requires NextFree(s.fs, n) && (MakesDir(q) ==> RoomForDir(s.v.disk, n)) && Set(s)
    ensures Grows(s, t, q, n, at)
  {
    hide Inv, TreeOK, DirsCounted, Reached, RoomIn, FirstEntries, WriteOp, WriteSafe, HoleWritten, RoomForDir, Needed,
      BlocksFor, FirstFree, FirstFreeInode, ParentOK;
    NextInode(s.v, s.fs, n);
    var fs', depth' := StepInHole(s.v, s.fs, s.depth, q, n, at);
    ReachedWrite(s.start, s.v, q);
    t := Scene(s.start, WriteOp(s.v, q).v, fs', depth');
  }

  /** A packed list with room for one more name. */
  predicate RoomAtEnd(es: seq<Entry>, name: Name) {
    Packed(es) && Unnamed(es, name) && 512 - Filled(es) >= RecordLen(|name|)
  }

  /** The same at the end of a packed list. */
  ghost predicate PutAtEnd(s: Scene, t: Scene, q: Request, n: u32) {
    var es := ListOf(s, q.parent);
    && Packed(es) && ListOf(t, q.parent) == es + [Entry(Filled(es), n, TypeOf(q), q.name)]
    && Packed(ListOf(t, q.parent)) && Filled(ListOf(t, q.parent)) == Filled(es) + RecordLen(|q.name|)
    && Grows(s, t, q, n, es[|es| - 1].at)
  }

  lemma PutLast(s: Scene, q: Request, n: u32) returns (t: Scene)
    requires ValidRequest(q) && IsDirectory(s.fs, q.parent) && RoomAtEnd(ListOf(s, q.parent), q.name)
    requires NextFree(s.fs, n) && (MakesDir(q) ==> RoomForDir(s.v.disk, n)) && Set(s)
    ensures PutAtEnd(s, t, q, n)
  {
    hide Set, RoomIn, FirstEntries, RoomForDir, Packed, Filled, RecordLen, InsertedIn, HoleWritten;
    var es := ListOf(s, q.parent);
    PackedRoom(es, q.name);
    PackedSome(es);
    t := Put(s, q, n, es[|es| - 1].at);
    PackedInsert(es, n, TypeOf(q), q.name);
    WrittenList(s, t, q, n, es[|es| - 1].at);
  }

  lemma WrittenList(s: Scene, t: Scene, q: Request, n: u32, at: nat)
    requires Grows(s, t, q, n, at)
    ensures ListOf(t, q.parent) == InsertedIn(ListOf(s, q.parent), at, n, TypeOf(q), q.name)
  {
    hide Set, FirstEntries, InsertedIn;
  }

  lemma PackedSome(es: seq<Entry>)
    requires Packed(es)
    ensures es != []
  {}

  // ----- blocks left -----

  /** Block `m` belongs to nobody. */
  predicate Ownerless(fs: FS, m: nat) { 21 <= m < 2048 && !Meta(m) && forall k :: k in fs.tree ==> m !in fs.tree[k] }

  lemma OwnerOf(v: Volume, fs: FS, m: nat) returns (k: nat)
    requires m < 2048 && Used(v.disk, m) && !Meta(m) && Inv(v, fs)
    ensures k in fs.tree && m in fs.tree[k]
  {
    hide Counted, MetaUsed, InodesOK, ContentsOK, NamesOK, Used, Synced, Meta;
    assert OwnedAt(fs, m);
    k := fs.owner[m].0;
  }

  lemma OwnerlessIsFree(v: Volume, fs: FS, m: nat, from: nat)
    requires Ownerless(fs, m) && Inv(v, fs) && 0 <= from <= m
    ensures FirstFree(v.disk, from) != 0
  {
    hide Inv, Holds, Used, Meta;
    InvParts(v, fs);
    CountedPart(v, fs, {}, {});
    ZeroUsed(v.disk);
    if Used(v.disk, m) { var k := OwnerOf(v, fs, m); }
    FirstFreeSpec(v.disk, from);
  }

  lemma LastAreData()
    ensures !Meta(2047) && !Meta(2046) && !Meta(2045) && !Meta(21)
  {}

  // ----- what goes wrong -----

  /** No sound volume with a sound tree fits. */
  ghost predicate Ruined(v: Volume) { forall fs, depth :: !(Inv(v, fs) && TreeOK(v.disk, fs, depth)) }

  /** The unsafe write returns 0 and leaves a state that no abstract file system fits. */
  ghost predicate WriteSpoils(v: Volume, q: Request) {
    && ValidRequest(q) && ParentOK(v, q) && !WriteSafe(v, q) && WriteCode(v, q) == 0
    && forall fs :: !Inv(WriteOp(v, q).v, fs)
  }

  /** A `delete` of a dot, with a zero word past the block, returns 0 and leaves no sound volume. */
  ghost predicate DotSpoils(v: Volume, q: Request) {
    ValidRequest(q) && ParentOK(v, q) && !DeleteSafe(v, q) && DeleteCode(v, q, 0) == 0 && Ruined(DeleteOp(v, q, 0).v)
  }

  /** So does a `delete` that leaves orphans. */
  ghost predicate OrphanSpoils(v: Volume, q: Request) {
    && ValidRequest(q) && ParentOK(v, q) && DeleteSafe(v, q) && !LeavesNoOrphans(v, q) && DeleteCode(v, q, 0) == 0
    && Ruined(DeleteOp(v, q, 0).v)
  }

  // ----- deleting "." -----

  /** In the fresh root, `delete` of "." returns 0 and leaves no sound volume. */
  lemma DotHazard(d: Disk, signature: Block)
    requires Blank(d)
    ensures DotSpoils(Fresh(d, signature), Request(1, DOT, true, []))
  {
    hide Fresh, Inv, TreeOK, DirsCounted, Reached, DeleteOp, FirstEntries, ParentOK, DeleteSafe, Refused,
      LeavesNoOrphans;
    var s := Begin(d, signature);
    var q := Request(1, DOT, true, []);
    InvParentOK(s.v, s.fs, q);
    DotTaken(s.v, s.fs, s.depth, q);
    RefusedExactly(s.v, s.fs, s.depth, q, 0);
    DeleteSafeExactly(s.v, s.fs, s.depth, q, 0);
  }

  lemma DotTaken(v: Volume, fs: FS, depth: map<nat, nat>, q: Request)
    requires ValidRequest(q) && ParentOK(v, q) && q.isDir && q.name == DOT && IsDirectory(fs, q.parent)
    requires |FirstEntries(v.disk, fs, q.parent)| == 2
    requires Inv(v, fs) && TreeOK(v.disk, fs, depth)
    ensures !DeleteSafe(v, q) && DeleteCode(v, q, 0) == 0
  {
    hide Inv, Node, IsDirMode, FirstEntries, Dots, Chain, FindName, Entries, Sound, Live, DirOK, Spells, Blocks,
      Reaches, FoundRecord, EntryAt, NameAt, TreeOK, DeleteAt, FindEntry, FileType, EntInode;
    var k := q.parent;
    DirContents(v, fs, k);
    DirectoryFound(v, fs, k);
    FirstIsEntries(v, fs, k);
    DotFound(v.disk[fs.tree[k][0]], k);
    FindFirst(v.disk, ParentNode(v, q));
    FindEntrySound(v.disk, ParentNode(v, q), 0, DOT);
    RefusedAt(v, fs, depth, q, 0, fs.tree[k][0], 0, 0);
    EntryFields(v.disk[fs.tree[k][0]], 0);
  }

  // ----- a parent that shares its table block with the new inode -----

  function LongName(c: byte): Name { seq(255, i => c) }

  lemma FreshPacked()
    ensures Packed(NewList(1, 1)) && Filled(NewList(1, 1)) == 24
  {}

  /** Two files with names of 255 bytes in the root: the second write loses the file it makes. */
  lemma SharedTableHazard(d: Disk, signature: Block) returns (v: Volume)
    requires Blank(d)
    ensures Reached(Fresh(d, signature), v)
    ensures WriteSpoils(v, Request(1, LongName(98), false, []))
  {
    hide Fresh, Inv, TreeOK, DirsCounted, Reached, WriteOp, FirstEntries, ParentOK, WriteSafe, RoomIn, Needed,
      BlocksFor, FirstFree, Packed, Filled, Unnamed, FirstFreeInode, TableBlock;
    var s := Begin(d, signature);
    var q0, q := Request(1, LongName(97), false, []), Request(1, LongName(98), false, []);
    FreshPacked();
    LongFits(1, 1);
    var t := PutLast(s, q0, 2);
    v := t.v;
    var fs := t.fs;
    LongFull(ListOf(t, 1), 1, 1, 2);
    NextInode(v, fs, 3);
    OneBlockOwned(fs);
    OwnerlessIsFree(v, fs, 2047, 0);
    RoomFound(v, fs, q);
    SharedGrowth(v, q, 3);
    WriteSafeExactly(v, fs, q);
  }

  lemma LongFits(self: u32, parent: u32)
    ensures RoomAtEnd(NewList(self, parent), LongName(97)) && Filled(NewList(self, parent)) == 24
  {}

  lemma LongFull(es: seq<Entry>, self: u32, parent: u32, n: u32)
    requires es == NewList(self, parent) + [Entry(24, n, EXT2_FT_REG_FILE, LongName(97))] && Packed(es)
    ensures RoomIn(es, LongName(98)) == NoRoom
  {
    assert LongName(97)[0] != LongName(98)[0];
    assert Filled(es) == 288 && RecordLen(255) == 264;
    PackedRoom(es, LongName(98));
  }

  lemma OneBlockOwned(fs: FS)
    requires forall k :: k in fs.tree <==> k == 1 || k == 2
    requires fs.tree[1] == [21] && fs.tree[2] == []
    ensures Ownerless(fs, 2047)
  {
    LastAreData();
  }

  lemma SharedGrowth(v: Volume, q: Request, n: u32)
    requires ValidRequest(q) && ParentOK(v, q) && q.parent != 0 && IsDirMode(ParentNode(v, q).mode) && !MakesDir(q)
    requires FindRoom(v.disk, ParentNode(v, q), 0, q.name).Full?
    requires FirstFreeInode(v.disk, 1) == n && ValidInode(n) && FirstFree(v.disk, 256 * InodeToBgd(q.parent)) != 0
    requires q.parent == 1 && n == 3
    ensures !WriteSafe(v, q) && WriteCode(v, q) == 0
  {
    hide Node, FindRoom, IsDirMode, FirstFreeInode, FirstFree, RoomForDir, Populate, AllocNode, NewEntryBlock, Sync,
      DirOK, Take, PutInode;
    FindRoomSound(v.disk, ParentNode(v, q), 0, q.name);
    assert TableBlock(1) == TableBlock(3);
  }

  // ----- no block left for a directory -----

  /** A file that takes every free block, then a directory: it is made in a block that somebody owns. */
  lemma FullDiskHazard(d: Disk, signature: Block) returns (v: Volume)
    requires Blank(d)
    ensures Reached(Fresh(d, signature), v)
    ensures WriteSpoils(v, Request(1, [98], true, []))
  {
    hide Fresh, Inv, TreeOK, DirsCounted, Reached, WriteOp, FirstEntries, ParentOK, WriteSafe, RoomIn, Needed,
      BlocksFor, FirstFree, Packed, Filled, Unnamed, FirstFreeInode, TableBlock, HoleWritten;
    var s := Begin(d, signature);
    var q0, q := Request(1, [97], false, seq(0x10_0000, i => 0)), Request(1, [98], true, []);
    FreshPacked();
    ShortFits(NewList(1, 1), [97]);
    WholeDisk();
    var t := PutLast(s, q0, 2);
    v := t.v;
    var fs := t.fs;
    ShortRoom(ListOf(t, 1), 2);
    FileThere(s, t, q0, 2);
    NextInode(v, fs, 3);
    RoomFound(v, fs, q);
    NoRoomForDir(v, q, 3);
    WriteSafeExactly(v, fs, q);
  }

  /** One file larger than the disk: `write` returns 0, but the file does not read back. */
  lemma CutShortHazard(d: Disk, signature: Block, data: seq<byte>, size: nat)
    requires Blank(d) && 0x10_0000 <= |data| < 0x1_0000_0000 && size >= |data|
    ensures var v, q := Fresh(d, signature), Request(1, [97], false, data);
      && ParentOK(v, q) && WriteSafe(v, q) && WriteCode(v, q) == 0 && ParentOK(WriteOp(v, q).v, q)
      && ReadOp(WriteOp(v, q).v, q, size) != Contents(0, data)
  {
    hide CreateExt2, Mount, Inv, TreeOK, DirsCounted, WriteOp, WriteSafe, ReadOp, ParentOK, FreeFrom, Spent, Needed,
      BlocksFor, FirstFreeInode;
    var v, q := Fresh(d, signature), Request(1, [97], false, data);
    FreshAccepts(d, signature, q);
    FreshSane(d, signature);
    ReadsBackWhole(v, FreshFS(), q, size);
    var m := 256 * InodeToBgd(FirstFreeInode(v.disk, 1));
    FreeFromCount(v.disk, m);
    SubsetCount(FreeFrom(v.disk, m) - Spent(v, q), FreeFrom(v.disk, m));
    TooLarge(|data|);
  }

  lemma TooLarge(size: u32)
    requires size >= 0x10_0000
    ensures size <= 0xFFFF_FE00 ==> Needed(BlocksFor(size)) > 2048
  {}

  lemma WholeDisk()
    ensures Needed(BlocksFor(0x10_0000)) >= 2048
  {}

  lemma ShortFits(es: seq<Entry>, name: Name)
    requires es == NewList(1, 1) && |name| == 1 && name != DOT
    ensures RoomAtEnd(es, name)
  {}

  lemma ShortRoom(es: seq<Entry>, n: u32)
    requires es == NewList(1, 1) + [Entry(24, n, EXT2_FT_REG_FILE, [97])] && Packed(es)
    ensures RoomIn(es, [98]) == Hole(24)
  {
    assert Filled(es) == 36;
    PackedRoom(es, [98]);
  }

  lemma FileThere(s: Scene, t: Scene, q: Request, n: u32)
    requires PutAtEnd(s, t, q, n) && IsDirectory(s.fs, q.parent)
    ensures forall k :: k in t.fs.tree <==> k in s.fs.tree || k == n
    ensures forall k :: k in s.fs.tree ==>
        t.fs.tree[k] == s.fs.tree[k] && (IsDirectory(t.fs, k) <==> IsDirectory(s.fs, k))
    ensures IsDirectory(t.fs, n) <==> MakesDir(q)
    ensures !MakesDir(q) && q.data == [] ==> t.fs.tree[n] == []
    ensures !MakesDir(q) && Needed(BlocksFor(|q.data|)) >= 2048 && InodeToBgd(n) == 0 ==> FirstFree(t.v.disk, 0) == 0
    ensures Set(t) && t.start == s.start
    ensures forall k :: IsDirectory(s.fs, k) && k != q.parent ==> ListOf(t, k) == ListOf(s, k)
    ensures MakesDir(q) && 0 < q.parent ==> |t.fs.tree[n]| == 1 && ListOf(t, n) == NewList(n, q.parent)
    ensures ListOf(t, q.parent) == ListOf(s, q.parent) + [Entry(Filled(ListOf(s, q.parent)), n, TypeOf(q), q.name)]
    ensures Packed(ListOf(t, q.parent))
    ensures Filled(ListOf(t, q.parent)) == Filled(ListOf(s, q.parent)) + RecordLen(|q.name|)
  {
    hide Set, FirstEntries, Packed, Filled, RecordLen, Needed, BlocksFor, FirstFree, InsertedIn;
  }

  lemma NoRoomForDir(v: Volume, q: Request, n: u32)
    requires ValidRequest(q) && ParentOK(v, q) && q.parent != 0 && IsDirMode(ParentNode(v, q).mode) && MakesDir(q)
    requires FindRoom(v.disk, ParentNode(v, q), 0, q.name).InHole?
    requires FirstFreeInode(v.disk, 1) == n && n == 3 && FirstFree(v.disk, 0) == 0
    ensures !WriteSafe(v, q) && WriteCode(v, q) == 0
  {
    hide Node, FindRoom, IsDirMode, FirstFreeInode, FirstFree, Populate, AllocNode, Insert, Chain, Reaches, Live,
      SlackLen, RecordLen, Sync, DirOK;
    FindRoomSound(v.disk, ParentNode(v, q), 0, q.name);
    assert InodeToBgd(3) == 0;
  }

  // ----- a directory whose second block still names a file -----

  /** Every name is a dot or one byte below `c`. */
  predicate Below(es: seq<Entry>, c: byte) {
    forall j :: 0 <= j < |es| ==> es[j].name == DOT || es[j].name == DOTDOT || (|es[j].name| == 1 && es[j].name[0] < c)
  }

  /**
   * In scene `s` inodes 1 to `n - 1` are taken, 1 and 2 are directories of one block, and the root's list is packed.
   */
  ghost predicate Nursery(s: Scene, n: nat, c: byte, sub: seq<Entry>) {
    && (forall k :: k in s.fs.tree <==> 1 <= k < n) && 3 <= n
    && IsDirectory(s.fs, 1) && IsDirectory(s.fs, 2)
    && |s.fs.tree[1]| == 1 && |s.fs.tree[2]| == 1 && (forall k :: 3 <= k < n ==> s.fs.tree[k] == [])
    && Packed(ListOf(s, 1)) && Below(ListOf(s, 1), c) && FirstOf(ListOf(s, 1), 2, [97]) && ListOf(s, 1)[2].ino == 2
    && ListOf(s, 1)[2].ftype == EXT2_FT_DIR && Filled(ListOf(s, 1)) <= 12 * n && ListOf(s, 2) == sub
    && Set(s)
  }

  /** The directory "a" in the fresh root. */
  lemma MakeSub(s: Scene) returns (t: Scene)
    requires Beginning(s)
    ensures Nursery(t, 3, 98, NewList(2, 1)) && t.start == s.start
  {
    hide Fresh, Sane, Reached, FirstEntries, RoomForDir, Needed, BlocksFor, FirstFree, HoleWritten, Set, Packed, Filled,
      Below, FirstOf, Unnamed, NewList, Ownerless, RoomAtEnd, PutAtEnd;
    var q := Request(1, [97], true, []);
    FreshPacked();
    ShortFits(NewList(1, 1), [97]);
    FreshRoomForDir(s);
    t := PutLast(s, q, 2);
    FileThere(s, t, q, 2);
    SubList(ListOf(t, 1));
    RecordLenOne();
  }

  lemma SubList(es: seq<Entry>)
    requires es == NewList(1, 1) + [Entry(24, 2, EXT2_FT_DIR, [97])]
    ensures Below(es, 98) && FirstOf(es, 2, [97]) && es[2].ino == 2 && es[2].ftype == EXT2_FT_DIR
  {}

  lemma FreshRoomForDir(s: Scene)
    requires s.fs == FreshFS() && Set(s)
    ensures RoomForDir(s.v.disk, 2)
  {
    hide Set, FirstFree, Meta, Inv, Sane, Reached;
    LastAreData();
    SetInv(s);
    OwnerlessIsFree(s.v, s.fs, 2047, 256 * InodeToBgd(2));
  }

  lemma SetInv(s: Scene)
    requires Set(s)
    ensures Inv(s.v, s.fs) && Sane(s.v, s.fs, s.depth) && Reached(s.start, s.v)
  {
    hide Inv, TreeOK, DirsCounted, Reached;
  }

  lemma NewInodeNumber(n: nat)
    requires 1 <= n <= 896
    ensures ValidInode(n)
  {}

  /** A file in the root, or one with a long name in the new directory. */
  lemma AddToRoot(s: Scene, n: nat, c: byte, sub: seq<Entry>) returns (t: Scene)
    requires Nursery(s, n, c, sub) && 98 <= c < 255 && n <= 20
    ensures Nursery(t, n + 1, c + 1, sub) && t.start == s.start
  {
    hide FirstEntries, RoomForDir, Needed, BlocksFor, FirstFree, HoleWritten, Set, Filled, Packed;
    var q := Request(1, [c], false, []);
    NewInodeNumber(n);
    FitsInRoot(ListOf(s, 1), n, c);
    t := PutLast(s, q, n);
    FileThere(s, t, q, n);
    RecordLenOne();
  }

  lemma RecordLenOne()
    ensures RecordLen(1) == 12
  {}

  lemma FitsInRoot(es: seq<Entry>, n: nat, c: byte)
    requires Packed(es) && Below(es, c) && Filled(es) <= 12 * n && n <= 20 && c >= 98
    ensures RoomAtEnd(es, [c])
  {
    hide Packed, Filled;
    RecordLenOne();
    assert [c][0] != DOT[0] && |DOTDOT| == 2;
  }

  /** A file with a long name fills the first block of the new directory. */
  lemma FillSub(s: Scene) returns (t: Scene)
    requires Nursery(s, 3, 98, NewList(2, 1))
    ensures Nursery(t, 4, 98, NewList(2, 1) + [Entry(24, 3, EXT2_FT_REG_FILE, LongName(97))])
    ensures Packed(ListOf(t, 2)) && t.start == s.start
  {
    hide FirstEntries, RoomForDir, Needed, BlocksFor, FirstFree, HoleWritten, Set, Filled, Packed, Below, FirstOf,
      NewList, Unnamed, RoomAtEnd, LongName, PutAtEnd;
    var q := Request(2, LongName(97), false, []);
    NewInodeNumber(3);
    LongFits(2, 1);
    t := PutLast(s, q, 3);
    FileThere(s, t, q, 3);
  }

  lemma SubGrows(s: Scene, sub: seq<Entry>)
    requires Nursery(s, 8, 102, sub) && Packed(sub)
    requires sub == NewList(2, 1) + [Entry(24, 3, EXT2_FT_REG_FILE, LongName(97))]
    ensures 2 in s.fs.tree && Crowded(s.v.disk, s.fs.tree[2], LongName(98))
    ensures FirstFreeInode(s.v.disk, 1) == 8 && ValidInode(8)
    ensures TableBlock(8) != TableBlock(2) && FirstFree(s.v.disk, 256 * InodeToBgd(2)) != 0 && Inv(s.v, s.fs)
  {
    hide FirstEntries, FirstFree, FirstFreeInode, Set, Filled, Packed, Below, FirstOf, NewList, LongName, RoomIn, Inv,
      Sane, Reached, Crowded;
    SetInv(s);
    LongFull(sub, 2, 1, 3);
    OneBlockCrowded(s.v, s.fs, 2, LongName(98));
    NewInodeNumber(8);
    NextInode(s.v, s.fs, 8);
    TwoOwned(s.fs);
    var m := if Ownerless(s.fs, 2047) then 2047 else if Ownerless(s.fs, 2046) then 2046 else 2045;
    hide Ownerless;
    OwnerlessIsFree(s.v, s.fs, m, 256 * InodeToBgd(2));
  }

  lemma TwoOwned(fs: FS)
    requires (forall k :: k in fs.tree <==> 1 <= k < 8) && |fs.tree[1]| == 1 && |fs.tree[2]| == 1
    requires forall k :: 3 <= k < 8 ==> fs.tree[k] == []
    ensures Ownerless(fs, 2047) || Ownerless(fs, 2046) || Ownerless(fs, 2045)
  {
    LastAreData();
  }

  /** Directory 2 is named in the root, lists nothing in its first block, but names a file in its second. */
  ghost predicate Hollow(s: Scene) {
    && IsDirectory(s.fs, 1) && IsDirectory(s.fs, 2)
    && FirstOf(ListOf(s, 1), 2, [97]) && ListOf(s, 1)[2].ino == 2 && ListOf(s, 1)[2].ftype == EXT2_FT_DIR
    && |ListOf(s, 2)| == 2 && |s.fs.tree[2]| == 2 && s.fs.tree[2][1] < 2048
    && Chain(s.v.disk[s.fs.tree[2][1]], 0) && Entries(s.v.disk[s.fs.tree[2][1]], 0) != []
    && Set(s)
  }

  function LongList(): seq<Entry> { NewList(2, 1) + [Entry(24, 3, EXT2_FT_REG_FILE, LongName(97))] }

  /** A second long name in directory 2 makes it grow; deleting the first leaves the first block without names. */
  lemma HollowOut(s: Scene) returns (t: Scene)
    requires Nursery(s, 8, 102, LongList()) && Packed(LongList())
    ensures Hollow(t) && t.start == s.start
  {
    hide FirstEntries, FirstFree, FirstFreeInode, Set, Filled, Packed, Below, NewList, LongName, RoomIn, Inv, Sane,
      Reached, WriteOp, TableBlock, DeleteOp, WriteSafe, DeleteSafe, LeavesNoOrphans, ParentOK, Chain, Entries,
      Extended, FileDeleted, FirstOf, Hollow, LongList, Crowded;
    var q, r := Request(2, LongName(98), false, []), Request(2, LongName(97), false, []);
    LongListIs();
    SubGrows(s, LongList());
    SetInv(s);
    var fs1, depth1 := StepGrow(s.v, s.fs, s.depth, q, 8);
    var v1 := WriteOp(s.v, q).v;
    ReachedWrite(s.start, s.v, q);
    GrownLists(s.v, s.fs, v1, fs1, q, 8);
    LongFirst();
    var fs2 := StepDelete(v1, fs1, depth1, r, 0, 2);
    ReachedDelete(s.start, v1, r, 0);
    t := Scene(s.start, DeleteOp(v1, r, 0).v, fs2, depth1);
    SetScene(t);
    HollowedOut(v1, fs1, t);
  }

  lemma LongListIs()
    ensures LongList() == NewList(2, 1) + [Entry(24, 3, EXT2_FT_REG_FILE, LongName(97))]
  {}

  lemma SetScene(s: Scene)
    requires Sane(s.v, s.fs, s.depth) && Reached(s.start, s.v)
    ensures Set(s)
  {
    hide Sane, Reached;
  }

  lemma LongFirst()
    ensures FirstOf(LongList(), 2, LongName(97)) && LongList()[2].ftype == EXT2_FT_REG_FILE && LongList()[2].ino == 3
    ensures |LongList()| == 3
  {
    hide LongName;
    LongIsLong();
  }

  lemma LongIsLong()
    ensures |LongName(97)| == 255
  {}

  lemma GrownLists(v: Volume, fs: FS, w: Volume, fs': FS, q: Request, n: u32)
    requires Extended(v, fs, w, fs', q, n) && IsDirectory(fs, 1) && IsDirectory(fs, 2) && q.parent == 2
    requires |fs.tree[2]| == 1
    ensures IsDirectory(fs', 1) && IsDirectory(fs', 2)
    ensures FirstEntries(w.disk, fs', 1) == FirstEntries(v.disk, fs, 1)
    ensures FirstEntries(w.disk, fs', 2) == FirstEntries(v.disk, fs, 2)
    ensures |fs'.tree[2]| == 2 && fs'.tree[2][1] < 2048 && Chain(w.disk[fs'.tree[2][1]], 0)
    ensures Entries(w.disk[fs'.tree[2][1]], 0) != []
  {
    hide FirstEntries, Chain, Entries;
  }

  /** Directory 2 has a second block that names something, and its first block lists three entries. */
  ghost predicate Swollen(v: Volume, fs: FS) {
    && IsDirectory(fs, 1) && IsDirectory(fs, 2) && |fs.tree[2]| == 2 && fs.tree[2][1] < 2048
    && Chain(v.disk[fs.tree[2][1]], 0) && Entries(v.disk[fs.tree[2][1]], 0) != []
    && |FirstEntries(v.disk, fs, 2)| == 3 && FirstOf(FirstEntries(v.disk, fs, 1), 2, [97])
    && FirstEntries(v.disk, fs, 1)[2].ino == 2 && FirstEntries(v.disk, fs, 1)[2].ftype == EXT2_FT_DIR
    && FirstEntries(v.disk, fs, 2)[2].ino == 3
  }

  lemma HollowedOut(v1: Volume, fs1: FS, t: Scene)
    requires Swollen(v1, fs1) && FileDeleted(v1, fs1, t.v, t.fs, Request(2, LongName(97), false, []), 2) && Set(t)
    ensures Hollow(t)
  {
    hide FirstEntries, Chain, Entries, Set, LongName;
  }

  /**
   * Deleting a directory whose second block still names a file: it counts as empty, `delete` returns 0, and no sound
   * volume with a sound tree is left.
   */
  lemma OrphanHazard(d: Disk, signature: Block) returns (v: Volume)
    requires Blank(d)
    ensures OrphanSpoils(v, Request(1, [97], true, [])) && Reached(Fresh(d, signature), v)
  {
    hide OrphanSpoils, Nursery, Hollow, Reached, Sane, ParentOK, DeleteSafe, LeavesNoOrphans, DeleteOp, Inv, TreeOK,
      NewList, LongName, LongList, Packed;
    var s := Begin(d, signature);
    var s3 := MakeSub(s);
    var s4 := FillSub(s3);
    LongListIs();
    StageList(s4, 4, 98, LongList());
    var s5 := AddToRoot(s4, 4, 98, LongList());
    var s6 := AddToRoot(s5, 5, 99, LongList());
    var s7 := AddToRoot(s6, 6, 100, LongList());
    var s8 := AddToRoot(s7, 7, 101, LongList());
    var t := HollowOut(s8);
    v := t.v;
    HollowDeletes(t);
  }

  lemma StageList(s: Scene, n: nat, c: byte, sub: seq<Entry>)
    requires Nursery(s, n, c, sub)
    ensures ListOf(s, 2) == sub
  {
    hide Set, Packed, Below, FirstOf, FirstEntries, Filled;
  }

  lemma HollowDeletes(t: Scene)
    requires Hollow(t)
    ensures OrphanSpoils(t.v, Request(1, [97], true, [])) && Reached(t.start, t.v)
  {
    hide FirstEntries, Set, Inv, Reached, FirstOf, Chain, Entries, TreeOK, DirsCounted, DeleteOp, DeleteSafe, ParentOK,
      Resolved, Target, Node, NothingBeyond;
    var q := Request(1, [97], true, []);
    SetInv(t);
    InvParentOK(t.v, t.fs, q);
    RefusedExactly(t.v, t.fs, t.depth, q, 0);
    ResolvedFirst(t.v, t.fs, 1, 2, [97]);
    TargetsFirst(t.v, t.fs, q, 2);
    SomethingBeyond(t.v, t.fs);
    DeleteSafeExactly(t.v, t.fs, t.depth, q, 0);
  }

  lemma SomethingBeyond(v: Volume, fs: FS)
    requires IsDirectory(fs, 2) && |fs.tree[2]| == 2 && fs.tree[2][1] < 2048 && Chain(v.disk[fs.tree[2][1]], 0)
    requires Entries(v.disk[fs.tree[2][1]], 0) != [] && Inv(v, fs)
    ensures ValidInode(2) && !NothingBeyond(v.disk, Node(v.disk, 2))
  {
    hide Inv, Chain, Entries, Node, IsDirMode, DirOK, Dots, Blocks, Spells;
    DirContents(v, fs, 2);
    DirectoryFound(v, fs, 2);
    assert Node(v.disk, 2).block[1] == fs.tree[2][1];
    assert !NoEntries(v.disk, Node(v.disk, 2).block[1]);
  }

  // ----- a directory that its own path does not lead to -----

  /** The root of the run: "b" twice, the newer one first. */
  function TwinList(): seq<Entry> {
    NewList(1, 1) + [Entry(24, 2, EXT2_FT_DIR, [98]), Entry(36, 3, EXT2_FT_DIR, [98])]
  }

  /** A file "x" and a directory "b" behind it. */
  lemma MakeTwin(s: Scene) returns (t: Scene)
    requires Beginning(s)
    ensures t.start == s.start && forall k :: k in t.fs.tree <==> k == 1 || k == 2 || k == 3
    ensures IsDirectory(t.fs, 1) && IsDirectory(t.fs, 3) && |t.fs.tree[1]| == 1 && |t.fs.tree[3]| == 1
    ensures ListOf(t, 1) == NewList(1, 1) + [Entry(24, 2, EXT2_FT_REG_FILE, [120]), Entry(36, 3, EXT2_FT_DIR, [98])]
    ensures ListOf(t, 3) == NewList(3, 1) && Set(t)
  {
    hide Fresh, Sane, Reached, FirstEntries, RoomForDir, Needed, BlocksFor, FirstFree, HoleWritten, Set, Packed, Filled,
      NewList, Ownerless, RoomAtEnd, PutAtEnd, Inv;
    var q0, q := Request(1, [120], false, []), Request(1, [98], true, []);
    FreshPacked();
    RecordLenOne();
    ShortFits(NewList(1, 1), [120]);
    NewInodeNumber(2);
    NewInodeNumber(3);
    var s1 := PutLast(s, q0, 2);
    FileThere(s, s1, q0, 2);
    SetInv(s1);
    OneBlockOwned(s1.fs);
    OwnerlessIsFree(s1.v, s1.fs, 2047, 256 * InodeToBgd(3));
    assert RoomForDir(s1.v.disk, 3) by { HasRoom(s1.v.disk, 3); }
    SecondFits(ListOf(s1, 1));
    t := PutLast(s1, q, 3);
    FileThere(s1, t, q, 3);
    TwoAppended(NewList(1, 1), Entry(24, 2, EXT2_FT_REG_FILE, [120]), Entry(36, 3, EXT2_FT_DIR, [98]));
  }

  lemma HasRoom(d: Disk, ino: nat)
    requires FirstFree(d, 256 * InodeToBgd(ino)) != 0
    ensures RoomForDir(d, ino)
  {
    hide FirstFree;
  }

  lemma TwoAppended(x: seq<Entry>, e: Entry, f: Entry)
    ensures x + [e] + [f] == x + [e, f]
  {}

  lemma SecondFits(es: seq<Entry>)
    requires es == NewList(1, 1) + [Entry(24, 2, EXT2_FT_REG_FILE, [120])] && Packed(es)
    ensures RoomAtEnd(es, [98]) && Filled(es) == 36
  {}

  lemma TwinLists(es: seq<Entry>)
    requires es == NewList(1, 1) + [Entry(24, 2, EXT2_FT_REG_FILE, [120]), Entry(36, 3, EXT2_FT_DIR, [98])]
    ensures FirstOf(es, 2, [120]) && es[2].ftype == EXT2_FT_REG_FILE && es[2].ino == 2
    ensures es[..2] + es[3..] == NewList(1, 1) + [Entry(36, 3, EXT2_FT_DIR, [98])]
  {}

  lemma TwinHole(es: seq<Entry>)
    requires es == NewList(1, 1) + [Entry(36, 3, EXT2_FT_DIR, [98])]
    ensures RoomIn(es, [98]) == Hole(12)
    ensures InsertedIn(es, 12, 2, EXT2_FT_DIR, [98]) == TwinList()
  {
    RecordLenOne();
    assert RecordLen(2) == 12;
    assert es[1..] == [Entry(12, 1, EXT2_FT_DIR, DOTDOT), Entry(36, 3, EXT2_FT_DIR, [98])];
    assert es[1..][1..] == [Entry(36, 3, EXT2_FT_DIR, [98])];
  }

  lemma TwinOwned(fs: FS)
    requires (forall k :: k in fs.tree <==> k == 1 || k == 3) && |fs.tree[1]| == 1 && |fs.tree[3]| == 1
    ensures Ownerless(fs, 2047) || Ownerless(fs, 2046) || Ownerless(fs, 2045)
  {
    LastAreData();
  }

  /** Deleting "x" opens a hole before "b", where `write` puts a second "b" without looking further. */
  lemma Twins(s0: Scene) returns (t: Scene)
    requires Beginning(s0)
    ensures IsDirectory(t.fs, 1) && IsDirectory(t.fs, 3) && ListOf(t, 1) == TwinList() && ListOf(t, 3) == NewList(3, 1)
    ensures t.start == s0.start && Set(t)
  {
    hide Sane, Reached, FirstEntries, RoomForDir, FirstFree, HoleWritten, Set, NewList, Ownerless, Inv, FirstOf,
      DeleteOp, FileDeleted, DeleteSafe, LeavesNoOrphans, ParentOK, RoomIn, InsertedIn, TwinList, Grows;
    var q, r := Request(1, [98], true, []), Request(1, [120], false, []);
    var s := MakeTwin(s0);
    SetInv(s);
    TwinLists(ListOf(s, 1));
    var fs' := StepDelete(s.v, s.fs, s.depth, r, 0, 2);
    ReachedDelete(s.start, s.v, r, 0);
    var u := Scene(s.start, DeleteOp(s.v, r, 0).v, fs', s.depth);
    SetScene(u);
    TwinDeleted(s, u, r);
    SetInv(u);
    TwinHole(ListOf(u, 1));
    TwinOwned(u.fs);
    var m := if Ownerless(u.fs, 2047) then 2047 else if Ownerless(u.fs, 2046) then 2046 else 2045;
    OwnerBound(u.fs, m);
    OwnerlessIsFree(u.v, u.fs, m, 256 * InodeToBgd(2));
    HasRoom(u.v.disk, 2);
    NewInodeNumber(2);
    t := Put(u, q, 2, 12);
    TwinPut(u, t, q);
  }

  lemma OwnerBound(fs: FS, m: nat)
    requires Ownerless(fs, m)
    ensures m < 2048
  {}

  lemma TwinDeleted(s: Scene, u: Scene, r: Request)
    requires FileDeleted(s.v, s.fs, u.v, u.fs, r, 2) && r.parent == 1 && ListOf(s, 1)[2].ino == 2
    requires forall k :: k in s.fs.tree <==> k == 1 || k == 2 || k == 3
    requires IsDirectory(s.fs, 1) && IsDirectory(s.fs, 3) && |s.fs.tree[1]| == 1 && |s.fs.tree[3]| == 1
    ensures forall k :: k in u.fs.tree <==> k == 1 || k == 3
    ensures IsDirectory(u.fs, 1) && IsDirectory(u.fs, 3) && |u.fs.tree[1]| == 1 && |u.fs.tree[3]| == 1
    ensures ListOf(u, 1) == ListOf(s, 1)[..2] + ListOf(s, 1)[3..] && ListOf(u, 3) == ListOf(s, 3)
  {
    hide FirstEntries;
  }

  lemma TwinPut(u: Scene, t: Scene, q: Request)
    requires Grows(u, t, q, 2, 12) && q.parent == 1 && q.name == [98] && MakesDir(q)
    requires IsDirectory(u.fs, 1) && IsDirectory(u.fs, 3)
    ensures IsDirectory(t.fs, 1) && IsDirectory(t.fs, 3) && ListOf(t, 3) == ListOf(u, 3) && Set(t)
    ensures ListOf(t, 1) == InsertedIn(ListOf(u, 1), 12, 2, EXT2_FT_DIR, [98]) && t.start == u.start
  {
    hide FirstEntries, InsertedIn, Set, Needed, BlocksFor, FirstFree;
  }

  lemma UpFromList(v: Volume, fs: FS, k: nat)
    requires IsDirectory(fs, k) && Inv(v, fs)
    ensures |FirstEntries(v.disk, fs, k)| >= 2 && Up(v.disk, fs, k) == FirstEntries(v.disk, fs, k)[1].ino
  {
    hide Inv, Chain, Entries, Dots, UpIn;
    FirstIsEntries(v, fs, k);
    UpIs(v.disk, fs, k);
    DotPlaces(v.disk[fs.tree[k][0]], k);
    UpIsSecond(v.disk[fs.tree[k][0]]);
  }

  lemma UpIsSecond(b: Block)
    requires Chain(b, 0) && |Entries(b, 0)| >= 2
    ensures UpIn(b) == Entries(b, 0)[1].ino
  {
    hide Chain, Entries;
  }

  lemma TwinShadowed(v: Volume, fs: FS)
    requires IsDirectory(fs, 1) && IsDirectory(fs, 3) && Up(v.disk, fs, 3) == 1
    requires FirstEntries(v.disk, fs, 1) == TwinList()
    ensures Lineage(v.disk, fs, 3, 1) && Printable(v.disk, fs, 3, 1) && !Unshadowed(v.disk, fs, 3, 1)
  {
    hide Up, FirstEntries;
    var es := TwinList();
    TwinIndex();
    assert Lineage(v.disk, fs, 1, 0);
    assert Printable(v.disk, fs, 1, 0);
  }

  lemma TwinIndex()
    ensures NameIndex(TwinList(), 3) == 3 && TwinList()[3].name == [98]
    ensures DirLookup(TwinList(), [98]) == 2 && TwinList()[2].ino == 2 && |TwinList()| == 4
  {
    var es := TwinList();
    assert es[0].name == DOT && es[1].name == DOTDOT && es[2].ino == 2 && es[3].ino == 3;
    assert [98][0] != DOT[0] && |DOTDOT| == 2;
    assert Nameable(es[3].name);
  }

  /** A reached volume with a directory, printed as "/b", to which `cd` does not return. */
  lemma ShadowHazard(d: Disk, signature: Block) returns (v: Volume, fs: FS, depth: map<nat, nat>)
    requires Blank(d)
    ensures IsDirectory(fs, 3) && Lineage(v.disk, fs, 3, 1) && Printable(v.disk, fs, 3, 1)
    ensures !Unshadowed(v.disk, fs, 3, 1)
    ensures forall from: nat, res: nat -> Residue, res': nat -> Residue ::
      from != 3 && AllBarren(v, res') ==> Cd(v, from, Display(v, 3, res), res') != 3
    ensures Reached(Fresh(d, signature), v) && Sane(v, fs, depth)
  {
    hide Set, Inv, TreeOK, DirsCounted, Reached, FirstEntries, Lineage, Printable, Unshadowed, Cd, Display, AllBarren,
      Up, TwinList;
    var s := Begin(d, signature);
    var t := Twins(s);
    v, fs, depth := t.v, t.fs, t.depth;
    SetInv(t);
    UpFromList(v, fs, 3);
    TwinShadowed(v, fs);
    forall from: nat, res: nat -> Residue, res': nat -> Residue | from != 3 && AllBarren(v, res')
      ensures Cd(v, from, Display(v, 3, res), res') != 3
    {
      CdReturnsExactly(v, fs, depth, 3, 1, from, res, res');
    }
  }
}
