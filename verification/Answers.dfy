/** What `write`, `read_directory` and `delete` answer, told by lists of names, free blocks and free inodes alone. */
module Answers {
  import opened Bytes
  import opened Options
  import opened Layout
  import opened Metadata
  import opened Volume
  import opened FileTree
  import opened Directory
  import opened Operations
  import opened Invariant
  import opened Naming
  import opened Writing
  import opened Observing
  import opened WriteEffects
  import opened Effects
  import opened DeleteEffects
  import opened TreeShape
  import opened DeleteExactness

  // ----- the bytes to spare behind each entry -----

  /** What the record of entry `e` of block `b` has left behind its name. */
  function Spare(b: Block, e: Entry): int {
    if Fits(e.at) then U16At(b, e.at + 4) - RecordLen(|e.name|) else 0
  }

  function Spares(b: Block, es: seq<Entry>): (r: seq<int>)
    ensures |r| == |es|
  {
    if es == [] then [] else [Spare(b, es[0])] + Spares(b, es[1..])
  }

  /** The bytes to spare behind each entry of a directory, over all its blocks. */
  function SparesOf(d: Disk, a: seq<nat>): (r: seq<int>)
    requires Blocks(d, a)
    ensures |r| == |Listing(d, a)|
  {
    if a == [] then [] else Spares(d[a[0]], Entries(d[a[0]], 0)) + SparesOf(d, a[1..])
  }

  function SparesIn(v: Volume, fs: FS, k: nat): (r: seq<int>)
    ensures |r| == |NamesIn(v, fs, k)|
  {
    if k in fs.tree && (forall i :: 0 <= i < |fs.tree[k]| ==> fs.tree[k][i] < 2048 && Chain(v.disk[fs.tree[k][i]], 0))
    then SparesOf(v.disk, fs.tree[k]) else []
  }

  /** The first entry that carries the name or has room for `need` bytes. */
  function Stop(es: seq<Entry>, ss: seq<int>, name: Name, need: nat): (r: nat)
    requires |ss| == |es|
    ensures r <= |es| && (r < |es| ==> es[r].name == name || ss[r] >= need)
    ensures forall i :: 0 <= i < r ==> es[i].name != name && ss[i] < need
  {
    if es == [] then 0
    else if es[0].name == name || ss[0] >= need then 0
    else 1 + Stop(es[1..], ss[1..], name, need)
  }

  lemma StopIs(es: seq<Entry>, ss: seq<int>, name: Name, need: nat, r: nat)
    requires |ss| == |es| && r <= |es| && (r < |es| ==> es[r].name == name || ss[r] >= need)
    requires forall i :: 0 <= i < r ==> es[i].name != name && ss[i] < need
    ensures Stop(es, ss, name, need) == r
  {}

  lemma StopAppend(x: seq<Entry>, xs: seq<int>, y: seq<Entry>, ys: seq<int>, name: Name, need: nat)
    requires |xs| == |x| && |ys| == |y|
    ensures var r := Stop(x, xs, name, need);
      Stop(x + y, xs + ys, name, need) == if r < |x| then r else |x| + Stop(y, ys, name, need)
  {
    hide Stop;
    var r := Stop(x, xs, name, need);
    StopIs(x + y, xs + ys, name, need, if r < |x| then r else |x| + Stop(y, ys, name, need));
  }

  /** What stopping at entry `r` means to `write`. */
  predicate Verdict(s: Scan, es: seq<Entry>, r: nat, name: Name)
    requires r <= |es|
  {
    match s
    case Duplicate => r < |es| && es[r].name == name
    case Hole(at) => r < |es| && es[r].name != name && es[r].at == at
    case NoRoom => r == |es|
  }

  lemma {:induction false} ScanStops(b: Block, o: nat, name: Name, need: nat)
    requires Chain(b, o)
    ensures var es := Entries(b, o);
      Verdict(ScanForHole(b, o, name, need), es, Stop(es, Spares(b, es), name, need), name)
    decreases 512 - o
  {
    hide U16At, U32At, RecordLen, Sound, SlackZero, Stop, Spare, Spares, EntryAt, NameAt, RecLen, Entries, Live;
    HeadOf(b, o);
    if o < 512 {
      var next := o + RecLen(b, o);
      var rest := Entries(b, next);
      ScanStops(b, next, name, need);
      if Live(b, o) {
        var e := EntryAt(b, o);
        StopAppend([e], [Spare(b, e)], rest, Spares(b, rest), name, need);
        StopOne(e, Spare(b, e), name, need);
      }
    } else {
      StopNone(name, need);
    }
  }

  lemma HeadOf(b: Block, o: nat)
    requires Chain(b, o)
    ensures o == 512 ==> Entries(b, o) == [] && Spares(b, []) == []
    ensures o < 512 ==> Fits(o) && Sound(b, o) && RecLen(b, o) > 0 && Chain(b, o + RecLen(b, o))
    ensures o < 512 ==> var e, rest := EntryAt(b, o), Entries(b, o + RecLen(b, o));
      if Live(b, o) then
        && Entries(b, o) == [e] + rest && Spares(b, [e] + rest) == [Spare(b, e)] + Spares(b, rest)
        && e.at == o && e.name == NameAt(b, o) && Spare(b, e) == RecLen(b, o) - RecordLen(NameLen(b, o))
      else Entries(b, o) == rest
  {
    hide U16At, U32At, SlackZero, RecordLen;
    if o < 512 {
      var e, rest := EntryAt(b, o), Entries(b, o + RecLen(b, o));
      assert ([e] + rest)[1..] == rest;
      assert [] + rest == rest;
    }
  }

  lemma StopOne(e: Entry, s: int, name: Name, need: nat)
    ensures Stop([e], [s], name, need) == if e.name == name || s >= need then 0 else 1
  {}

  lemma StopNone(name: Name, need: nat)
    ensures Stop([], [], name, need) == 0
  {}

  /** The block loop of `write` stops where the whole list says. */
  lemma {:induction false} RoomStops(d: Disk, n: Inode, a: seq<nat>, bi: nat, name: Name)
    requires DirOK(d, n) && Spells(n, a) && Blocks(d, a) && bi <= |a| && Blocks(d, a[bi..])
    ensures var es, need := Listing(d, a[bi..]), RecordLen(|name|);
      var r := Stop(es, SparesOf(d, a[bi..]), name, need);
      match FindRoom(d, n, bi, name)
      case Exists => r < |es| && es[r].name == name
      case InHole(_, _) => r < |es| && es[r].name != name
      case Full => r == |es|
    decreases |a| - bi
  {
    hide Chain, Entries, ScanForHole, RecordLen, Stop, Spares;
    if bi < |a| {
      var b, need := d[a[bi]], RecordLen(|name|);
      assert DirBlockOK(d, n.block[bi]);
      assert a[bi..][0] == a[bi] && a[bi..][1..] == a[bi + 1..];
      var es, ys := Entries(b, 0), Listing(d, a[bi + 1..]);
      ScanStops(b, 0, name, need);
      StopAppend(es, Spares(b, es), ys, SparesOf(d, a[bi + 1..]), name, need);
      RoomStops(d, n, a, bi + 1, name);
    } else {
      StopNone(name, RecordLen(|name|));
    }
  }

  // ----- the answer of `write` -----

  /** An entry of the name stands before the first entry with room for `need` more bytes. */
  ghost predicate Taken(es: seq<Entry>, ss: seq<int>, name: Name, need: nat)
    requires |ss| == |es|
  {
    exists i :: 0 <= i < |es| && es[i].name == name && forall j :: 0 <= j < i ==> ss[j] < need
  }

  ghost predicate Roomy(ss: seq<int>, need: nat) { exists i :: 0 <= i < |ss| && ss[i] >= need }

  ghost predicate InodesGone(fs: FS) { forall k :: 1 <= k <= 896 ==> k in fs.tree }

  /** No data block is free from group `g` on. */
  ghost predicate BlocksGone(fs: FS, g: int) { forall m :: 256 * g <= m < 2048 && !Meta(m) ==> m in fs.owner }

  lemma StopMeans(es: seq<Entry>, ss: seq<int>, name: Name, need: nat)
    requires |ss| == |es|
    ensures var r := Stop(es, ss, name, need);
      && (Taken(es, ss, name, need) <==> r < |es| && es[r].name == name)
      && (r < |es| && es[r].name != name ==> Roomy(ss, need))
      && (r == |es| ==> !Roomy(ss, need))
  {
    hide Stop;
    var r := Stop(es, ss, name, need);
    if r < |es| && es[r].name == name { assert Taken(es, ss, name, need); }
  }

  lemma InodesGoneExactly(v: Volume, fs: FS)
    requires Inv(v, fs)
    ensures FirstFreeInode(v.disk, 1) == 0 <==> InodesGone(fs)
  {
    hide Counted, MetaUsed, OwnersOK, ContentsOK, NamesOK, InodeUsed, Node, Synced, FirstFreeInode;
    FirstFreeInodeSpec(v.disk, 1);
    assert forall k :: ValidInode(k) ==> (InodeUsed(v.disk, k) <==> k in fs.tree);
  }

  lemma BlocksGoneExactly(v: Volume, fs: FS, g: nat)
    requires Inv(v, fs)
    ensures FirstFree(v.disk, 256 * g) == 0 <==> BlocksGone(fs, g)
  {
    hide Counted, InodesOK, ContentsOK, NamesOK, Used, Node, Synced, FirstFree, Meta;
    ZeroIsMeta();
    FirstFreeSpec(v.disk, 256 * g);
    assert forall m :: 0 <= m < 2048 ==> (Used(v.disk, m) <==> Meta(m) || m in fs.owner);
  }

  lemma ZeroIsMeta()
    ensures Meta(0)
  {}

  /**
   * 2 when the parent is no directory; 1 when the name is taken before room is found; -1 when no inode is free, or
   * there is no room and no block is free from the parent's group on; 0 otherwise.
   */
  ghost function WriteAnswer(v: Volume, fs: FS, q: Request): int {
    var es, ss, need := NamesIn(v, fs, q.parent), SparesIn(v, fs, q.parent), RecordLen(|q.name|);
    if !IsDirectory(fs, q.parent) then 2
    else if Taken(es, ss, q.name, need) then 1
    else if InodesGone(fs) || (!Roomy(ss, need) && BlocksGone(fs, (q.parent - 1) / 112)) then -1
    else 0
  }

  /** `write` answers so in every sound volume, for every request. */
  lemma WriteCodeExactly(v: Volume, fs: FS, q: Request)
    requires ValidRequest(q) && ParentOK(v, q) && Inv(v, fs)
    ensures WriteOp(v, q).code == WriteAnswer(v, fs, q)
  {
    hide Inv, WriteOp, Node, IsDirMode, DirOK, FindRoom, Listing, SparesOf, Stop, Taken, Roomy, InodesGone, BlocksGone,
      RecordLen, FirstFree, FirstFreeInode, Blocks, Spells, Dots;
    RootZero(v, fs);
    var k, need := q.parent, RecordLen(|q.name|);
    if IsDirectory(fs, k) {
      DirContents(v, fs, k);
      DirectoryFound(v, fs, k);
      SparesInIs(v, fs, k);
      var n, a := Node(v.disk, k), fs.tree[k];
      assert a[0..] == a;
      RoomStops(v.disk, n, a, 0, q.name);
      StopMeans(NamesIn(v, fs, k), SparesIn(v, fs, k), q.name, need);
      InodesGoneExactly(v, fs);
      BlocksGoneExactly(v, fs, InodeToBgd(k));
    } else if k != 0 {
      NotADirectory(v, fs, k);
    }
  }

  lemma SparesInIs(v: Volume, fs: FS, k: nat)
    requires k in fs.tree && Blocks(v.disk, fs.tree[k])
    ensures NamesIn(v, fs, k) == Listing(v.disk, fs.tree[k]) && SparesIn(v, fs, k) == SparesOf(v.disk, fs.tree[k])
  {}

  /** What a successful `write` makes is a directory exactly when it was given no data and the directory flag. */
  lemma WriteMakes(v: Volume, fs: FS, q: Request) returns (fs': FS, e: Entry)
    requires ValidRequest(q) && ParentOK(v, q) && WriteSafe(v, q) && WriteCode(v, q) == 0 && Inv(v, fs)
    ensures Inv(WriteOp(v, q).v, fs') && Resolved(WriteOp(v, q).v, fs', q.parent, q.name) == Some(e)
    ensures e.ino !in fs.tree && e.ino in fs'.tree
    ensures e.ftype == (if |q.data| == 0 && q.isDir then 2 else 1)
    ensures if |q.data| == 0 && q.isDir then IsDirectory(fs', e.ino) && |NamesIn(WriteOp(v, q).v, fs', e.ino)| == 2
            else e.ino in fs'.data && fs'.data[e.ino] == q.data
  {
    hide Inv, WriteOp, WriteSafe, NamesIn, Spent, FirstFreeInode, ParentOK, Resolve, InsertedAt;
    var i;
    fs', e, i := WriteEffect(v, fs, q);
    InsertedResolves(NamesIn(v, fs, q.parent), NamesIn(WriteOp(v, q).v, fs', q.parent), e, i, q.name);
  }

  // ----- the answer of `delete` -----

  /**
   * -1 when the parent is no directory; 1 when the name stands for nothing or for the other type; 2 when it stands for
   * a directory whose first block lists more than the dots, or past whose block a nonzero word lies; 0 otherwise.
   */
  function DeleteAnswer(v: Volume, fs: FS, q: Request, stack: u32): int {
    if !IsDirectory(fs, q.parent) then -1
    else match Resolved(v, fs, q.parent, q.name)
      case None => 1
      case Some(e) =>
        if e.ftype != (if q.isDir then 2 else 1) then 1
        else if q.isDir && (|FirstEntries(v.disk, fs, e.ino)| != 2 || stack != 0) then 2
        else 0
  }

  lemma DeleteCodeExactly(v: Volume, fs: FS, depth: map<nat, nat>, q: Request, stack: u32)
    requires ValidRequest(q) && ParentOK(v, q) && Inv(v, fs) && TreeOK(v.disk, fs, depth)
    ensures DeleteOp(v, q, stack).code == DeleteAnswer(v, fs, q, stack)
  {
    hide Inv, TreeOK, Node, IsDirMode, NamesIn, FindEntry, FoundRecord, Dots, Blocks, Listing, FirstEntries, Chain,
      DeleteAt, Spells, DirOK, Lookup, DeleteOp, DeleteCodeAt, EntryAt;
    RootZero(v, fs);
    var k := q.parent;
    if IsDirectory(fs, k) {
      var bi, at := FoundWhere(v, fs, k, q.name);
      FindEntrySound(v.disk, Node(v.disk, k), 0, q.name);
      if bi < |fs.tree[k]| { DeleteCodeThere(v, fs, depth, q, bi, fs.tree[k][bi], at, stack); }
    } else if k != 0 {
      NotADirectory(v, fs, k);
    }
  }

  /** The block loop of `read`, `delete` and `read_directory` finds the entry the name resolves to. */
  lemma FoundWhere(v: Volume, fs: FS, k: nat, name: Name) returns (bi: nat, at: nat)
    requires Inv(v, fs) && IsDirectory(fs, k)
    ensures ValidInode(k) && IsDirMode(Node(v.disk, k).mode) && DirOK(v.disk, Node(v.disk, k)) && bi <= |fs.tree[k]|
    ensures FindEntry(v.disk, Node(v.disk, k), 0, name) == if bi < |fs.tree[k]| then Place(bi, at) else Nowhere
    ensures if bi == |fs.tree[k]| then Resolved(v, fs, k, name) == None
            else
              && bi < Node(v.disk, k).blocks <= 12 && Node(v.disk, k).block[bi] == fs.tree[k][bi]
              && IsDirBlock(fs, k, bi, fs.tree[k][bi]) && DirBlockOK(v.disk, fs.tree[k][bi])
              && FoundRecord(v.disk[fs.tree[k][bi]], 0, at, name) && Sound(v.disk[fs.tree[k][bi]], at)
              && Resolved(v, fs, k, name) == Some(EntryAt(v.disk[fs.tree[k][bi]], at))
  {
    hide Inv, Node, IsDirMode, NamesIn, FindEntry, FoundRecord, Dots, Blocks, Listing, Chain, Lookup, EntryAt, Sound;
    DirContents(v, fs, k);
    DirectoryFound(v, fs, k);
    var n, a := Node(v.disk, k), fs.tree[k];
    NamesInIs(v, fs, k);
    FindEntrySound(v.disk, n, 0, name);
    assert a[0..] == a;
    FindEntryIsLookup(v.disk, n, a, 0, name);
    match FindEntry(v.disk, n, 0, name)
    case Nowhere => bi, at := |a|, 0;
    case Place(i, p) => bi, at := i, p;
  }

  lemma DeleteCodeThere(v: Volume, fs: FS, depth: map<nat, nat>, q: Request, bi: nat, blk: nat, at: nat, stack: u32)
    requires IsDirBlock(fs, q.parent, bi, blk) && DirBlockOK(v.disk, blk) && FoundRecord(v.disk[blk], 0, at, q.name)
    requires Sound(v.disk[blk], at)
    requires Inv(v, fs) && TreeOK(v.disk, fs, depth)
    ensures var e := EntryAt(v.disk[blk], at);
      DeleteCodeAt(v, q, blk, at, stack) ==
        if e.ftype != (if q.isDir then 2 else 1) then 1
        else if q.isDir && (|FirstEntries(v.disk, fs, e.ino)| != 2 || stack != 0) then 2
        else 0
  {
    hide Inv, TreeOK, DirEmpty, Chain, Reaches, Live, SlackZero, EntInode, FileType, NameAt, Entries;
    FoundAllocated(v, fs, depth, q.parent, bi, blk, at);
    EntryFields(v.disk[blk], at);
    var ino := EntInode(v.disk[blk], at);
    RootZero(v, fs);
    if IsDirectory(fs, ino) { EmptyDirMeans(v, fs, ino, stack); }
  }

  // ----- the answer of `read_directory` -----

  /**
   * -1 when the parent is no directory; 2 when the name stands for nothing; 1 when it stands for no directory; -1 when
   * the buffer is smaller than the directory's blocks; otherwise 0 and the first block, followed, for a larger
   * directory, by what lay behind it in memory.
   */
  function DirectoryAnswer(v: Volume, fs: FS, q: Request, bufferSize: nat, spill: seq<byte>): Contents
    requires |spill| == bufferSize
  {
    if !IsDirectory(fs, q.parent) then Contents(-1, [])
    else match Resolved(v, fs, q.parent, q.name)
      case None => Contents(2, [])
      case Some(e) =>
        if e.ftype != 2 then Contents(1, [])
        else if e.ino !in fs.tree || fs.tree[e.ino] == [] || fs.tree[e.ino][0] >= 2048 then Contents(-1, [])
        else if bufferSize < 512 * |fs.tree[e.ino]| then Contents(-1, [])
        else Contents(0, v.disk[fs.tree[e.ino][0]] + spill[..512 * |fs.tree[e.ino]| - 512])
  }

  lemma DirectoryReadSpec(v: Volume, fs: FS, depth: map<nat, nat>, q: Request, bufferSize: nat, spill: seq<byte>)
    requires ValidRequest(q) && ParentOK(v, q) && |spill| == bufferSize
    requires Inv(v, fs) && TreeOK(v.disk, fs, depth)
    ensures ReadDirectoryOp(v, q, bufferSize, spill) == DirectoryAnswer(v, fs, q, bufferSize, spill)
    ensures forall e :: IsDirectory(fs, q.parent) && Resolved(v, fs, q.parent, q.name) == Some(e) && e.ftype == 2 ==>
      IsDirectory(fs, e.ino) && 1 <= |fs.tree[e.ino]| <= 12 && fs.tree[e.ino][0] < 2048
  {
    hide Inv, TreeOK, Node, IsDirMode, NamesIn, FindEntry, FoundRecord, Dots, Blocks, Listing, Chain, ReadDirectoryAt,
      Spells, DirOK, Lookup, EntryAt;
    RootZero(v, fs);
    var k := q.parent;
    if IsDirectory(fs, k) {
      var bi, at := FoundWhere(v, fs, k, q.name);
      FindEntrySound(v.disk, Node(v.disk, k), 0, q.name);
      if bi < |fs.tree[k]| { DirectoryReadThere(v, fs, depth, q, bi, fs.tree[k][bi], at, bufferSize, spill); }
    } else if k != 0 {
      NotADirectory(v, fs, k);
    }
  }

  lemma DirectoryReadThere(v: Volume, fs: FS, depth: map<nat, nat>, q: Request, bi: nat, blk: nat, at: nat,
      bufferSize: nat, spill: seq<byte>)
    requires IsDirBlock(fs, q.parent, bi, blk) && DirBlockOK(v.disk, blk) && FoundRecord(v.disk[blk], 0, at, q.name)
    requires Sound(v.disk[blk], at) && |spill| == bufferSize
    requires Inv(v, fs) && TreeOK(v.disk, fs, depth)
    ensures var e, r := EntryAt(v.disk[blk], at), ReadDirectoryAt(v, v.disk[blk], at, bufferSize, spill);
      if e.ftype != 2 then r == Contents(1, [])
      else
        && IsDirectory(fs, e.ino) && 1 <= |fs.tree[e.ino]| <= 12 && fs.tree[e.ino][0] < 2048
        && r == if bufferSize < 512 * |fs.tree[e.ino]| then Contents(-1, [])
                else Contents(0, v.disk[fs.tree[e.ino][0]] + spill[..512 * |fs.tree[e.ino]| - 512])
  {
    hide Inv, TreeOK, Chain, Reaches, Live, SlackZero, EntInode, FileType, NameAt, Entries, Node;
    FoundAllocated(v, fs, depth, q.parent, bi, blk, at);
    EntryFields(v.disk[blk], at);
    var ino := EntInode(v.disk[blk], at);
    if IsDirectory(fs, ino) {
      InvParts(v, fs);
      DirectoryNode(v, fs, ino);
      var n, b := Node(v.disk, ino), v.disk[fs.tree[ino][0]];
      if bufferSize >= n.size { assert (b + spill)[..n.size] == b + spill[..n.size - 512]; }
    }
  }

  lemma DirectoryNode(v: Volume, fs: FS, k: nat)
    requires IsDirectory(fs, k) && Holds(v, fs, {}, {})
    ensures ValidInode(k)
    ensures var n := Node(v.disk, k);
      && IsDirMode(n.mode) && 1 <= n.blocks <= 12 && n.size == 512 * n.blocks
      && |fs.tree[k]| == n.blocks && n.block[0] == fs.tree[k][0] && 21 <= fs.tree[k][0] < 2048
  {
    hide Counted, MetaUsed, InodesOK, OwnersOK, NamesOK, Node, Chain, Entries, FileOK, Indirect, Double, Dots,
      IsDirMode;
    assert ContentOK(v.disk, fs, k);
    assert Node(v.disk, k).block[0] == At(fs.tree[k], 0);
    Modes();
  }
}
