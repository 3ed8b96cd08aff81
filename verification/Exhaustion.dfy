/** Runs from a freshly formatted image that use up the block pointers of a directory, or all inodes. */
module Exhaustion {
  import opened Bytes
  import opened Layout
  import opened Metadata
  import opened Volume
  import opened FileTree
  import opened Directory
  import opened Operations
  import opened Invariant
  import opened Writing
  import opened Format
  import opened WriteEffects
  import opened Effects
  import opened DeleteExactness
  import opened Runs
  import opened Exactness
  import opened Stepping
  import opened Hazards

  // ----- few blocks are owned -----

  /** Among `n` numbers, one is not listed in a shorter sequence. */
  lemma {:induction false} Unlisted(a: seq<nat>, lo: nat, n: nat) returns (m: nat)
    requires |a| < n
    ensures lo <= m < lo + n && m !in a
    decreases n
  {
    m := lo + n - 1;
    if m in a {
      var j :| 0 <= j < |a| && a[j] == m;
      var m' := Unlisted(a[..j] + a[j + 1..], lo, n - 1);
      forall i | 0 <= i < |a| ensures a[i] != m' {
        if i < j { assert a[i] in a[..j]; } else if i > j { assert a[i] in a[j + 1..]; }
      }
      m := m';
    }
  }

  /** Fewer than twenty-eight owned blocks leave one for group 0. */
  lemma SomeFree(s: Scene, a: seq<nat>)
    requires Set(s) && |a| < 28 && forall k, i :: k in s.fs.tree && 0 <= i < |s.fs.tree[k]| ==> s.fs.tree[k][i] in a
    ensures FirstFree(s.v.disk, 0) != 0
  {
    hide Set, Inv, Sane, Reached, FirstFree;
    SetInv(s);
    var m := Unlisted(a, 2020, 28);
    OwnerlessIsFree(s.v, s.fs, m, 0);
  }

  lemma FirstGroup(n: nat)
    requires 1 <= n <= 112
    ensures InodeToBgd(n) == 0
  {}

  // ----- names of one byte -----

  lemma ByteFits(es: seq<Entry>, c: byte)
    requires Packed(es) && Below(es, c) && Filled(es) <= 500 && c >= 98
    ensures RoomAtEnd(es, [c])
  {
    hide Packed, Filled;
    RecordLenOne();
    assert [c][0] != DOT[0] && |DOTDOT| == 2;
  }

  lemma BelowMore(es: seq<Entry>, e: Entry, c: byte)
    requires Below(es, c) && e.name == [c] && c < 255
    ensures Below(es + [e], c + 1)
  {}

  lemma NewListBelow(self: u32, parent: u32)
    ensures Packed(NewList(self, parent)) && Below(NewList(self, parent), 98) && Filled(NewList(self, parent)) == 24
  {}

  /** The scan for a long name through a packed list of short ones. */
  lemma LongRoom(es: seq<Entry>, c: byte, name: Name)
    requires Packed(es) && Below(es, c) && |name| == 255
    ensures RoomIn(es, name) == if Filled(es) <= 248 then Hole(es[|es| - 1].at) else NoRoom
    ensures Filled(es) <= 248 ==> RoomAtEnd(es, name)
  {
    hide RoomIn, Filled;
    assert Unnamed(es, name);
    PackedRoom(es, name);
    PackedSome(es);
    LongRecord();
  }

  lemma LongRecord()
    ensures RecordLen(255) == 264
  {}

  // ----- a directory of twelve blocks -----

  /** The root lists `n - 2` empty files with names of one byte. */
  ghost predicate Shelf(s: Scene, n: nat) {
    && 2 <= n <= 7 && (forall k :: k in s.fs.tree <==> 1 <= k < n) && (forall k :: 2 <= k < n ==> s.fs.tree[k] == [])
    && IsDirectory(s.fs, 1) && |s.fs.tree[1]| == 1
    && Packed(ListOf(s, 1)) && Below(ListOf(s, 1), 96 + n) && Filled(ListOf(s, 1)) == 12 * n && Set(s)
  }

  lemma EmptyShelf(s: Scene)
    requires Beginning(s)
    ensures Shelf(s, 2)
  {
    hide Fresh, FirstEntries, Set, Packed, Filled, Below, NewList;
    NewListBelow(1, 1);
  }

  lemma ShelfMore(s: Scene, n: nat) returns (t: Scene)
    requires Shelf(s, n) && n < 7
    ensures Shelf(t, n + 1) && t.start == s.start
  {
    hide FirstEntries, RoomForDir, Needed, BlocksFor, FirstFree, HoleWritten, Set, Filled, Packed, Below, PutAtEnd,
      RoomAtEnd;
    var c: byte := 96 + n;
    var q := Request(1, [c], false, []);
    NewInodeNumber(n);
    ByteFits(ListOf(s, 1), c);
    t := PutLast(s, q, n);
    FileThere(s, t, q, n);
    PackedSome(ListOf(s, 1));
    BelowMore(ListOf(s, 1), Entry(Filled(ListOf(s, 1)), n, TypeOf(q), q.name), c);
    RecordLenOne();
  }

  lemma {:induction false} FillShelf(s: Scene, n: nat) returns (t: Scene)
    requires Shelf(s, n)
    ensures Shelf(t, 7) && t.start == s.start
    decreases 7 - n
  {
    hide Set, Packed, Filled, Below, FirstEntries;
    t := s;
    if n < 7 {
      t := ShelfMore(s, n);
      t := FillShelf(t, n + 1);
    }
  }

  /** No block has room for a long name made of a byte from `c` on, nor lists it. */
  ghost predicate Walled(d: Disk, a: seq<nat>, c: nat) {
    forall x: byte :: c <= x ==> Crowded(d, a, LongName(x))
  }

  /** The root has `m` blocks, and inodes 1 to `m + 6` are taken. */
  ghost predicate Tower(s: Scene, m: nat) {
    && 1 <= m <= 12 && (forall k :: k in s.fs.tree <==> 1 <= k < 7 + m)
    && (forall k :: 2 <= k < 7 + m ==> s.fs.tree[k] == [])
    && IsDirectory(s.fs, 1) && |s.fs.tree[1]| == m && Walled(s.v.disk, s.fs.tree[1], 97 + m) && Set(s)
  }

  /** A long name fills the first block of the root. */
  lemma FirstFloor(s: Scene) returns (t: Scene)
    requires Shelf(s, 7)
    ensures Tower(t, 1) && t.start == s.start
  {
    hide FirstEntries, RoomForDir, Needed, BlocksFor, FirstFree, HoleWritten, Set, Filled, Packed, Below, PutAtEnd,
      RoomAtEnd, LongName, Walled;
    var q := Request(1, LongName(97), false, []);
    NewInodeNumber(7);
    LongIsLong();
    LongRoom(ListOf(s, 1), 103, LongName(97));
    t := PutLast(s, q, 7);
    FileThere(s, t, q, 7);
    FirstWall(t, ListOf(s, 1), 103);
  }

  lemma FirstWall(t: Scene, es: seq<Entry>, c: byte)
    requires Set(t) && IsDirectory(t.fs, 1) && |t.fs.tree[1]| == 1 && Packed(es) && Below(es, c) && Filled(es) == 84
    requires ListOf(t, 1) == es + [Entry(84, 7, EXT2_FT_REG_FILE, LongName(97))] && Packed(ListOf(t, 1))
    requires Filled(ListOf(t, 1)) == 348
    ensures Walled(t.v.disk, t.fs.tree[1], 98)
  {
    hide Set, FirstEntries, Packed, Filled, RoomIn, Crowded, Inv, Sane, Reached, LongName;
    SetInv(t);
    forall x: byte | 98 <= x ensures Crowded(t.v.disk, t.fs.tree[1], LongName(x)) {
      LongNames(97, x);
      assert Unnamed(ListOf(t, 1), LongName(x));
      PackedRoom(ListOf(t, 1), LongName(x));
      LongRecord();
      OneBlockCrowded(t.v, t.fs, 1, LongName(x));
    }
  }

  lemma LongNames(x: byte, y: byte)
    ensures |LongName(x)| == 255 && |LongName(y)| == 255 && (LongName(x) == LongName(y) ==> x == y)
  {
    assert LongName(x)[0] == x && LongName(y)[0] == y;
  }

  lemma GrownCrowded(d: Disk, d': Disk, a: seq<nat>, a': seq<nat>, name: Name)
    requires GrownBy(d, d', a, a') && Crowded(d, a, name)
    requires RoomIn(Entries(d'[a'[|a|]], 0), name) == NoRoom
    ensures Crowded(d', a', name)
  {
    hide RoomIn, Entries, Chain;
    forall i | 0 <= i < |a'|
      ensures a'[i] < 2048 && Chain(d'[a'[i]], 0) && RoomIn(Entries(d'[a'[i]], 0), name) == NoRoom
    {
      if i < |a| { assert a'[i] == a'[..|a|][i]; }
    }
  }

  lemma AloneIsFull(n: u32, x: byte, y: byte)
    requires x != y
    ensures RoomIn([Entry(0, n, EXT2_FT_REG_FILE, LongName(x))], LongName(y)) == NoRoom
  {
    hide LongName;
    LongNames(x, y);
    LongRecord();
    var es := [Entry(0, n, EXT2_FT_REG_FILE, LongName(x))];
    assert es[1..] == [];
  }

  lemma HigherWall(d: Disk, d': Disk, a: seq<nat>, a': seq<nat>, n: u32, c: byte)
    requires GrownBy(d, d', a, a') && Walled(d, a, c)
    requires Entries(d'[a'[|a|]], 0) == [Entry(0, n, EXT2_FT_REG_FILE, LongName(c))]
    ensures Walled(d', a', c + 1)
  {
    hide GrownBy, Crowded, Entries, RoomIn, LongName;
    forall x: byte | c + 1 <= x ensures Crowded(d', a', LongName(x)) {
      AloneIsFull(n, c, x);
      GrownCrowded(d, d', a, a', LongName(x));
    }
  }

  /** What the root's growth needs: a free block, a free inode of another table block, and no room in the blocks. */
  lemma TowerReady(s: Scene, m: nat)
    requires Tower(s, m)
    ensures FirstFree(s.v.disk, 0) != 0 && FirstFreeInode(s.v.disk, 1) == 7 + m && ValidInode(7 + m)
    ensures TableBlock(7 + m) != TableBlock(1) && Crowded(s.v.disk, s.fs.tree[1], LongName(97 + m)) && Inv(s.v, s.fs)
    ensures Sane(s.v, s.fs, s.depth)
  {
    hide Set, Crowded, FirstFree, FirstFreeInode, Inv, LongName, Sane, Reached;
    SetInv(s);
    NewInodeNumber(7 + m);
    SomeFree(s, s.fs.tree[1]);
    NextInode(s.v, s.fs, 7 + m);
  }

  lemma NextFloor(s: Scene, m: nat) returns (t: Scene)
    requires Tower(s, m) && m < 12
    ensures Tower(t, m + 1) && t.start == s.start
  {
    hide Set, Crowded, FirstFree, FirstFreeInode, Inv, LongName, Sane, Reached, WriteOp, WriteSafe, ParentOK,
      TableBlock, FirstEntries, Entries, GrownBy, Walled;
    var q := Request(1, LongName(97 + m), false, []);
    LongNames(97, 97 + m);
    TowerReady(s, m);
    FirstGroup(1);
    SetInv(s);
    var fs', depth' := StepGrow(s.v, s.fs, s.depth, q, 7 + m);
    ReachedWrite(s.start, s.v, q);
    t := Scene(s.start, WriteOp(s.v, q).v, fs', depth');
    SetScene(t);
    HigherWall(s.v.disk, t.v.disk, s.fs.tree[1], fs'.tree[1], 7 + m, 97 + m);
    GrownLength(s.v.disk, t.v.disk, s.fs.tree[1], fs'.tree[1]);
  }

  lemma GrownLength(d: Disk, d': Disk, a: seq<nat>, a': seq<nat>)
    requires GrownBy(d, d', a, a')
    ensures |a'| == |a| + 1
  {}

  lemma {:induction false} Build(s: Scene, m: nat) returns (t: Scene)
    requires Tower(s, m)
    ensures Tower(t, 12) && t.start == s.start
    decreases 12 - m
  {
    hide Set, Walled;
    t := s;
    if m < 12 {
      t := NextFloor(s, m);
      t := Build(t, m + 1);
    }
  }

  /** Twelve long names in the root, then a thirteenth: its block lands in the slot of the indirect pointer. */
  lemma ThirteenthHazard(d: Disk, signature: Block) returns (v: Volume)
    requires Blank(d)
    ensures Reached(Fresh(d, signature), v)
    ensures WriteSpoils(v, Request(1, LongName(109), false, []))
  {
    hide Fresh, Inv, Reached, WriteOp, ParentOK, WriteSafe, Crowded, FirstFree, FirstFreeInode, TableBlock, Shelf,
      LongName, Sane, Tower;
    var s := Begin(d, signature);
    EmptyShelf(s);
    s := FillShelf(s, 2);
    s := FirstFloor(s);
    s := Build(s, 1);
    v := s.v;
    TopFloor(s);
  }

  lemma TopFloor(s: Scene)
    requires Tower(s, 12)
    ensures Reached(s.start, s.v) && WriteSpoils(s.v, Request(1, LongName(109), false, []))
  {
    hide Inv, Reached, WriteOp, ParentOK, WriteSafe, Crowded, FirstFree, FirstFreeInode, TableBlock, LongName, Sane,
      Walled;
    var q := Request(1, LongName(109), false, []);
    LongNames(97, 109);
    SetInv(s);
    TowerReady(s, 12);
    FirstGroup(1);
    NoRoomFound(s.v, s.fs, q);
    TooManyBlocks(s.v, q);
    WriteSafeExactly(s.v, s.fs, q);
  }

  lemma TooManyBlocks(v: Volume, q: Request)
    requires ValidRequest(q) && ParentOK(v, q) && q.parent != 0 && IsDirMode(ParentNode(v, q).mode)
    requires FindRoom(v.disk, ParentNode(v, q), 0, q.name).Full? && ParentNode(v, q).blocks == 12
    requires FirstFreeInode(v.disk, 1) != 0 && FirstFree(v.disk, 256 * InodeToBgd(q.parent)) != 0
    ensures !WriteSafe(v, q) && WriteCode(v, q) == 0
  {
    hide Node, FindRoom, IsDirMode, FirstFreeInode, FirstFree, Populate, AllocNode, NewEntryBlock, Sync, DirOK, Take,
      PutInode, InodeToBgd, TableBlock, RoomForDir;
    FindRoomSound(v.disk, ParentNode(v, q), 0, q.name);
  }

  // ----- no inode left -----

  /** Inodes 1 to `n - 1` are the root and its subdirectories, all of them empty but the root. */
  ghost predicate Woods(s: Scene, n: nat) {
    && 2 <= n <= 25 && (forall k :: k in s.fs.tree <==> 1 <= k < n)
    && (forall k :: 1 <= k < n ==> IsDirectory(s.fs, k) && |s.fs.tree[k]| == 1)
    && (forall k :: 2 <= k < n ==> ListOf(s, k) == NewList(k, 1))
    && Packed(ListOf(s, 1)) && Below(ListOf(s, 1), 96 + n) && Filled(ListOf(s, 1)) == 12 * n && Set(s)
  }

  lemma NoWoods(s: Scene)
    requires Beginning(s)
    ensures Woods(s, 2)
  {
    hide Fresh, FirstEntries, Set, Packed, Filled, Below, NewList;
    NewListBelow(1, 1);
  }

  /** With a few directories of one block each and otherwise empty files, group 0 has a free block. */
  lemma FewDirectories(s: Scene, n: nat)
    requires Set(s) && 1 <= n <= 25 && forall k :: 1 <= k < n ==> k in s.fs.tree && |s.fs.tree[k]| == 1
    requires forall k :: k in s.fs.tree ==> 1 <= k && (n <= k ==> s.fs.tree[k] == [])
    ensures FirstFree(s.v.disk, 0) != 0
  {
    hide Set, FirstFree;
    var a := seq(n - 1, i requires 0 <= i < n - 1 => s.fs.tree[i + 1][0]);
    forall k, i | k in s.fs.tree && 0 <= i < |s.fs.tree[k]| ensures s.fs.tree[k][i] in a {
      assert a[k - 1] == s.fs.tree[k][i];
    }
    SomeFree(s, a);
  }

  lemma WoodsMore(s: Scene, n: nat) returns (t: Scene)
    requires Woods(s, n) && n < 25
    ensures Woods(t, n + 1) && t.start == s.start
  {
    hide FirstEntries, Needed, BlocksFor, FirstFree, HoleWritten, Set, Filled, Packed, Below, PutAtEnd, RoomAtEnd,
      NewList;
    var c: byte := 96 + n;
    var q := Request(1, [c], true, []);
    NewInodeNumber(n);
    FirstGroup(n);
    FewDirectories(s, n);
    ByteFits(ListOf(s, 1), c);
    t := PutLast(s, q, n);
    FileThere(s, t, q, n);
    PackedSome(ListOf(s, 1));
    BelowMore(ListOf(s, 1), Entry(Filled(ListOf(s, 1)), n, TypeOf(q), q.name), c);
    RecordLenOne();
  }

  lemma {:induction false} AllWoods(s: Scene, n: nat) returns (t: Scene)
    requires Woods(s, n)
    ensures Woods(t, 25) && t.start == s.start
    decreases 25 - n
  {
    hide Set, Packed, Filled, Below, FirstEntries, NewList;
    t := s;
    if n < 25 {
      t := WoodsMore(s, n);
      t := AllWoods(t, n + 1);
    }
  }

  /** The next inode when the directories before `p` hold thirty-eight files each, and `p` holds `j`. */
  function NextPlanted(p: nat, j: nat): nat
    requires p >= 2
  {
    25 + 38 * (p - 2) + j
  }

  /** Directory `p` lists `j` empty files, the directories after it none; inodes below `NextPlanted(p, j)` are taken. */
  ghost predicate Planted(s: Scene, p: nat, j: nat) {
    && 2 <= p <= 24 && j <= 38 && NextPlanted(p, j) <= 897
    && (forall k :: k in s.fs.tree <==> 1 <= k < NextPlanted(p, j))
    && (forall k :: 1 <= k < 25 ==> IsDirectory(s.fs, k) && |s.fs.tree[k]| == 1)
    && (forall k :: 25 <= k < NextPlanted(p, j) ==> s.fs.tree[k] == [])
    && (forall k :: p < k < 25 ==> ListOf(s, k) == NewList(k, 1))
    && Packed(ListOf(s, p)) && Below(ListOf(s, p), 98 + j) && Filled(ListOf(s, p)) == 24 + 12 * j && Set(s)
  }

  lemma FirstPlant(s: Scene)
    requires Woods(s, 25)
    ensures Planted(s, 2, 0)
  {
    hide FirstEntries, Set, Packed, Filled, Below, NewList;
    NewListBelow(2, 1);
  }

  lemma PlantMore(s: Scene, p: nat, j: nat) returns (t: Scene)
    requires Planted(s, p, j) && j < 38 && NextPlanted(p, j) < 897
    ensures Planted(t, p, j + 1) && t.start == s.start
  {
    hide FirstEntries, RoomForDir, Needed, BlocksFor, FirstFree, HoleWritten, Set, Filled, Packed, Below, PutAtEnd,
      RoomAtEnd, NewList;
    var n, c: byte := NextPlanted(p, j), 98 + j;
    var q := Request(p, [c], false, []);
    NewInodeNumber(n);
    ByteFits(ListOf(s, p), c);
    t := PutLast(s, q, n);
    FileThere(s, t, q, n);
    PackedSome(ListOf(s, p));
    BelowMore(ListOf(s, p), Entry(Filled(ListOf(s, p)), n, TypeOf(q), q.name), c);
    RecordLenOne();
  }

  lemma NextPlant(s: Scene, p: nat)
    requires Planted(s, p, 38) && p < 24
    ensures Planted(s, p + 1, 0)
  {
    hide FirstEntries, Set, Packed, Filled, Below, NewList;
    NewListBelow(p + 1, 1);
  }

  lemma {:induction false} PlantAll(s: Scene, p: nat, j: nat) returns (t: Scene)
    requires Planted(s, p, j)
    ensures Planted(t, 24, 36) && t.start == s.start
    decreases 24 - p, 38 - j
  {
    hide Set, Packed, Filled, Below, FirstEntries, NewList;
    t := s;
    if j == 38 {
      NextPlant(s, p);
      t := PlantAll(s, p + 1, 0);
    } else if NextPlanted(p, j) < 897 {
      t := PlantMore(s, p, j);
      t := PlantAll(t, p, j + 1);
    }
  }

  /** The write fails for want of an inode, but its block stays taken: no abstract file system fits. */
  ghost predicate LeakSpoils(v: Volume, q: Request) {
    && ValidRequest(q) && ParentOK(v, q) && !WriteSafe(v, q) && WriteCode(v, q) == -1
    && forall fs :: !Inv(WriteOp(v, q).v, fs)
  }

  /** Twenty-three directories and 872 files use up the inodes; a name that does not fit then leaks a block. */
  lemma LeakHazard(d: Disk, signature: Block) returns (v: Volume)
    requires Blank(d)
    ensures Reached(Fresh(d, signature), v) && LeakSpoils(v, Request(24, LongName(97), false, []))
  {
    hide Reached, LeakSpoils, Woods, Planted, LongName;
    var s := Begin(d, signature);
    NoWoods(s);
    s := AllWoods(s, 2);
    FirstPlant(s);
    s := PlantAll(s, 2, 0);
    v := s.v;
    NoInodeLeft(s);
  }

  lemma NoInodeLeft(s: Scene)
    requires Planted(s, 24, 36)
    ensures Reached(s.start, s.v) && LeakSpoils(s.v, Request(24, LongName(97), false, []))
  {
    hide Inv, Reached, WriteOp, ParentOK, WriteSafe, Crowded, FirstFree, FirstFreeInode, LongName, Sane, FirstEntries,
      Packed, Below, Filled, RoomIn, NewList;
    var q := Request(24, LongName(97), false, []);
    LongIsLong();
    SetInv(s);
    FewDirectories(s, 25);
    FirstGroup(24);
    AllTaken(s.v, s.fs);
    LongRoom(ListOf(s, 24), 134, q.name);
    OneBlockCrowded(s.v, s.fs, 24, q.name);
    NoRoomFound(s.v, s.fs, q);
    GrowthLeaks(s.v, q);
    WriteSafeExactly(s.v, s.fs, q);
  }

  lemma AllTaken(v: Volume, fs: FS)
    requires (forall k :: 1 <= k <= 896 ==> k in fs.tree) && Inv(v, fs)
    ensures FirstFreeInode(v.disk, 1) == 0
  {
    hide Holds, InodeUsed, Node, Synced;
    InvParts(v, fs);
    FirstFreeInodeNone(v.disk, 1);
  }

  lemma GrowthLeaks(v: Volume, q: Request)
    requires ValidRequest(q) && ParentOK(v, q) && q.parent != 0 && IsDirMode(ParentNode(v, q).mode)
    requires FindRoom(v.disk, ParentNode(v, q), 0, q.name).Full?
    requires FirstFreeInode(v.disk, 1) == 0 && FirstFree(v.disk, 256 * InodeToBgd(q.parent)) != 0
    ensures !WriteSafe(v, q) && WriteCode(v, q) == -1
  {
    hide Node, FindRoom, IsDirMode, FirstFreeInode, FirstFree, Populate, AllocNode, NewEntryBlock, Sync, DirOK, Take,
      PutInode, InodeToBgd, TableBlock, RoomForDir;
    FindRoomSound(v.disk, ParentNode(v, q), 0, q.name);
  }
}
