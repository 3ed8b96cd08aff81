/** What `delete` means to its callers: one name and one inode go, and nothing else changes. */
module DeleteEffects {
  import opened Bytes
  import opened Options
  import opened Layout
  import opened Metadata
  import opened Volume
  import opened FileTree
  import opened Reading
  import opened Directory
  import opened Operations
  import opened Invariant
  import opened Creation
  import opened Naming
  import opened Writing
  import opened Deletion
  import opened Observing
  import opened WriteEffects
  import opened Effects

  // ----- the scan -----

  /** The scan of `delete` stopped at the first entry of the name. */
  ghost predicate FirstAt(d: Disk, a: seq<nat>, name: Name, bi: nat, at: nat) {
    && Blocks(d, a) && bi < |a| && Blocks(d, a[..bi])
    && Reaches(d[a[bi]], 0, at) && Live(d[a[bi]], at) && NameAt(d[a[bi]], at) == name
    && Passed(Listing(d, a[..bi]), name) && Passed(EntriesBefore(d[a[bi]], 0, at), name)
  }

  lemma LookupPassed(es: seq<Entry>, x: seq<Entry>, w: seq<Entry>, name: Name)
    requires es == x + w && Lookup(es, name) >= |x|
    ensures Passed(x, name)
  {
    forall j | 0 <= j < |x| ensures x[j].name != name { assert es[j] == x[j]; }
  }

  lemma NotThere(es: seq<Entry>, name: Name)
    requires Lookup(es, name) == |es|
    ensures Passed(es, name)
  {}

  lemma {:induction false} FindEntryFirst(d: Disk, n: Inode, a: seq<nat>, bi: nat, name: Name)
    requires DirOK(d, n) && Spells(n, a) && Blocks(d, a) && bi <= |a| && Blocks(d, a[..bi])
    requires Passed(Listing(d, a[..bi]), name)
    ensures match FindEntry(d, n, bi, name)
      case Nowhere => Passed(Listing(d, a), name)
      case Place(hi, at) => FirstAt(d, a, name, hi, at)
    decreases |a| - bi
  {
    hide Chain, Entries, Reaches, Live, EntriesBefore, FindName, NameAt, Lookup;
    if bi < |a| {
      var b := d[a[bi]];
      assert DirBlockOK(d, n.block[bi]);
      FindNameSpec(b, 0, name);
      if FindName(b, 0, name) != 512 {
        FirstInBlock(b, FindName(b, 0, name), name);
      } else {
        NotThere(Entries(b, 0), name);
        SingleListing(d, a[bi]);
        ListingAppend(d, a[..bi], [a[bi]]);
        assert a[..bi] + [a[bi]] == a[..bi + 1];
        FindEntryFirst(d, n, a, bi + 1, name);
      }
    } else {
      assert a[..bi] == a;
    }
  }

  lemma FirstInBlock(b: Block, p: nat, name: Name)
    requires Chain(b, 0) && FoundRecord(b, 0, p, name) && Lookup(Entries(b, 0), name) == |EntriesBefore(b, 0, p)|
    ensures Passed(EntriesBefore(b, 0, p), name)
  {
    hide Entries, EntriesBefore, Lookup, NameAt;
    EntriesSplit(b, 0, p);
    LookupPassed(Entries(b, 0), EntriesBefore(b, 0, p), Entries(b, p), name);
  }

  // ----- the effect -----

  /** `e`, at position `i`, is the first entry of its name. */
  ghost predicate FirstNamed(es: seq<Entry>, e: Entry, i: nat) {
    i < |es| && es[i] == e && forall j :: 0 <= j < i ==> es[j].name != e.name
  }

  lemma FirstResolves(es: seq<Entry>, e: Entry, i: nat)
    requires FirstNamed(es, e, i)
    ensures Resolve(es, e.name) == Some(e)
  {}

  /** Everything a caller can see of a successful `delete`; `e` was the entry, at position `i` of the parent's list. */
  ghost predicate Deleted(v: Volume, v': Volume, fs: FS, fs': FS, q: Request, e: Entry, i: nat) {
    && IsDirectory(fs, q.parent) && e.name == q.name && e.ino in fs.tree && e.ino != 1
    && e.ftype == (if q.isDir then EXT2_FT_DIR else EXT2_FT_REG_FILE) && (e.ino in fs.data <==> !q.isDir)
    && fs' == Without(fs, e.ino)
    && FirstNamed(NamesIn(v, fs, q.parent), e, i)
    && (q.parent != e.ino ==> RemovedAt(NamesIn(v, fs, q.parent), NamesIn(v', fs', q.parent), e, i))
    && (forall k :: IsDirectory(fs, k) && k != q.parent && k != e.ino ==> NamesIn(v', fs', k) == NamesIn(v, fs, k))
  }

  lemma RemovedFromThree(x: seq<Entry>, y: seq<Entry>, e: Entry, z: seq<Entry>, w: seq<Entry>) returns (i: nat)
    requires Passed(x, e.name) && Passed(y, e.name)
    ensures RemovedAt(x + (y + [e] + z) + w, x + (y + z) + w, e, i)
  {
    var es, es' := x + (y + [e] + z) + w, x + (y + z) + w;
    i := |x| + |y|;
    assert es[..i] == x + y && es[i + 1..] == z + w;
    assert es' == x + y + (z + w);
  }

  lemma FirstListed(d: Disk, a: seq<nat>, name: Name, bi: nat, at: nat) returns (i: nat)
    requires FirstAt(d, a, name, bi, at)
    ensures i < |Listing(d, a)| && Listing(d, a)[i] == EntryAt(d[a[bi]], at)
    ensures i == |Listing(d, a[..bi])| + |EntriesBefore(d[a[bi]], 0, at)|
  {
    hide Chain, Entries, Reaches, Live, EntriesBefore, NameAt, Listing, Passed, EntryAt;
    ListingCut(d, a, bi);
    RecordInList(d[a[bi]], at);
    i := |Listing(d, a[..bi])| + |EntriesBefore(d[a[bi]], 0, at)|;
  }

  lemma RemovedListing(d: Disk, d': Disk, a: seq<nat>, name: Name, bi: nat, at: nat) returns (i: nat)
    requires FirstAt(d, a, name, bi, at) && d'[a[bi]] == Remove(d[a[bi]], at, Previous(d[a[bi]], 0, 512, at))
    requires forall j :: 0 <= j < |a| && j != bi ==> a[j] != a[bi] && d'[a[j]] == d[a[j]]
    ensures Blocks(d', a)
    ensures RemovedAt(Listing(d, a), Listing(d', a), EntryAt(d[a[bi]], at), i)
  {
    hide Chain, Entries, Reaches, Live, EntriesBefore, EntriesAfter, Remove, Previous, NameAt, EntryAt, Listing,
      RemovedAt, Passed;
    var b := d[a[bi]];
    RemoveSpec(b, at, Previous(b, 0, 512, at));
    ListingCut(d, a, bi);
    ListingSame(d, d', a[..bi]);
    ListingSame(d, d', a[bi + 1..]);
    forall j | 0 <= j < |a| ensures Chain(d'[a[j]], 0) {}
    ListingCut(d', a, bi);
    EntryName(b, at);
    i := RemovedFromThree(Listing(d, a[..bi]), EntriesBefore(b, 0, at), EntryAt(b, at), EntriesAfter(b, at),
      Listing(d, a[bi + 1..]));
  }

  /** Only block `blk` of directory `k` was written. */
  lemma OthersUntouched(v: Volume, v': Volume, fs: FS, k: nat, bi: nat, blk: nat, x: Block, j: nat)
    requires Holds(v, fs, {}, {}) && IsDirBlock(fs, k, bi, blk) && OneBlock(v, v', blk, x) && j in fs.tree
    ensures forall i :: 0 <= i < |fs.tree[j]| && (j != k || i != bi) ==>
      fs.tree[j][i] < 2048 && fs.tree[j][i] != blk && v'.disk[fs.tree[j][i]] == v.disk[fs.tree[j][i]]
  {
    hide Counted, MetaUsed, InodesOK, OwnersOK, NamesOK, Meta, ContentOK;
    assert ContentOK(v.disk, fs, j);
    ContentInRange(v.disk, fs, j);
    if j == k { OwnBlocksDistinct(v.disk, fs, {}, k, bi, blk); } else { NotMine(v.disk, fs, {}, k, bi, blk, j); }
    DataAreaStarts(fs.tree[j]);
  }

  lemma WithoutMaps(fs: FS, ino: nat)
    ensures Without(fs, ino).tree == fs.tree - {ino} && Without(fs, ino).data == fs.data - {ino}
  {}

  lemma DeletedFrom(v: Volume, v': Volume, fs: FS, q: Request, bi: nat, blk: nat, at: nat, e: Entry) returns (i: nat)
    requires IsDirBlock(fs, q.parent, bi, blk) && FirstAt(v.disk, fs.tree[q.parent], q.name, bi, at)
    requires e == EntryAt(v.disk[blk], at) && e.ino in fs.tree && e.ino != 1
    requires e.ftype == (if q.isDir then EXT2_FT_DIR else EXT2_FT_REG_FILE) && (e.ino in fs.data <==> !q.isDir)
    requires OneBlock(v, v', blk, Remove(v.disk[blk], at, Previous(v.disk[blk], 0, 512, at)))
    requires Inv(v, fs)
    ensures Deleted(v, v', fs, Without(fs, e.ino), q, e, i)
  {
    hide Inv, Holds, Chain, Entries, Reaches, Live, EntriesBefore, Remove, Previous, NameAt, Listing, RemovedAt, Passed,
      OneBlock, NamesIn, Without, Synced;
    var k, a, b, fs' := q.parent, fs.tree[q.parent], v.disk[blk], Without(fs, e.ino);
    var x := Remove(b, at, Previous(b, 0, 512, at));
    InvParts(v, fs);
    WithoutMaps(fs, e.ino);
    EntryName(b, at);
    OthersUntouched(v, v', fs, k, bi, blk, x, k);
    OneBlockAt(v, v', blk, x);
    NamesInIs(v, fs, k);
    i := RemovedListing(v.disk, v'.disk, a, q.name, bi, at);
    RemovedPlace(Listing(v.disk, a), Listing(v'.disk, a), e, i);
    if k != e.ino { NamesInIs(v', fs', k); }
    forall j | IsDirectory(fs, j) && j != k && j != e.ino ensures NamesIn(v', fs', j) == NamesIn(v, fs, j) {
      DirContents(v, fs, j);
      OthersUntouched(v, v', fs, k, bi, blk, x, j);
      OtherListing(v, v', fs, fs', j);
    }
  }

  lemma RemovedPlace(es: seq<Entry>, es': seq<Entry>, e: Entry, i: nat)
    requires RemovedAt(es, es', e, i)
    ensures FirstNamed(es, e, i)
  {}

  lemma DeleteOneBlock(v: Volume, fs: FS, q: Request, blk: nat, at: nat, stack: u32)
    requires DirBlockOK(v.disk, blk) && Sound(v.disk[blk], at) && 21 <= blk && DeleteCodeAt(v, q, blk, at, stack) == 0
    requires EntInode(v.disk[blk], at) in fs.tree && Holds(v, fs, {}, {})
    ensures OneBlock(v, DeleteAt(v, q, blk, at, stack).v, blk,
        Remove(v.disk[blk], at, Previous(v.disk[blk], 0, 512, at)))
  {
    hide Holds, Chain, Remove, Previous, DeallocNode, DirEmpty, Sync, OneBlock, Dropping, Counted, MetaUsed, RecLen,
      NameLen, SlackZero, U16At, U32At;
    var ino, w := EntInode(v.disk[blk], at), DeallocNode(v, EntInode(v.disk[blk], at));
    DeallocNodeSpec(v, fs, {}, {}, ino);
    var x := Remove(v.disk[blk], at, Previous(v.disk[blk], 0, 512, at));
    OneBlockSynced(w, blk, x);
    OneBlockFrom(v, w, Sync(PutBlock(w, blk, x)), blk, x, ino, PosOf(fs, ino));
  }

  lemma OneBlockFrom(v: Volume, w: Volume, v': Volume, blk: nat, x: Block, ino: nat, pos: map<nat, nat>)
    requires Dropping(v.disk, w.disk, ino, pos) && OneBlock(w, v', blk, x)
    ensures OneBlock(v, v', blk, x)
  {
    hide InodeUsed, Used, Node, OneSlot, Untouched, Meta;
  }

  lemma DeleteScan(v: Volume, fs: FS, q: Request)
    requires Inv(v, fs) && ValidRequest(q) && q.parent != 0 && IsDirMode(ParentNode(v, q).mode)
    ensures IsDirectory(fs, q.parent) && DirOK(v.disk, ParentNode(v, q)) && Blocks(v.disk, fs.tree[q.parent])
    ensures |fs.tree[q.parent]| == ParentNode(v, q).blocks <= 12
    ensures forall i :: 0 <= i < |fs.tree[q.parent]| ==> ParentNode(v, q).block[i] == fs.tree[q.parent][i]
    ensures match FindEntry(v.disk, ParentNode(v, q), 0, q.name)
      case Nowhere => Passed(Listing(v.disk, fs.tree[q.parent]), q.name)
      case Place(bi, at) => FirstAt(v.disk, fs.tree[q.parent], q.name, bi, at)
  {
    hide Inv, Node, IsDirMode, Chain, Entries, FirstAt, FindEntry, DirBlockOK, Dots;
    DirectoryFound(v, fs, q.parent);
    var a := fs.tree[q.parent];
    DirContents(v, fs, q.parent);
    assert a[..0] == [];
    FindEntryFirst(v.disk, ParentNode(v, q), a, 0, q.name);
  }

  /** The inode a request finds, or 0. */
  function Target(v: Volume, q: Request): u32
    requires ValidRequest(q) && ParentOK(v, q)
  {
    if q.parent == 0 || !IsDirMode(ParentNode(v, q).mode) then 0
    else
      FindEntrySound(v.disk, ParentNode(v, q), 0, q.name);
      match FindEntry(v.disk, ParentNode(v, q), 0, q.name)
      case Nowhere => 0
      case Place(bi, at) => EntInode(v.disk[ParentNode(v, q).block[bi]], at)
  }

  /** A successful `delete` removes exactly one name and one inode, and keeps the volume sound. */
  lemma DeleteEffect(v: Volume, fs: FS, q: Request, stack: u32) returns (fs': FS, e: Entry, i: nat)
    requires ValidRequest(q) && ParentOK(v, q) && DeleteSafe(v, q) && DeleteCode(v, q, stack) == 0 && Inv(v, fs)
    ensures Inv(DeleteOp(v, q, stack).v, fs')
    ensures Deleted(v, DeleteOp(v, q, stack).v, fs, fs', q, e, i) && e.ino == Target(v, q)
  {
    hide Inv, DirOK, IsDirMode, FindEntry, DeleteAt, FoundRecord, DirBlockOK, Without, IsDot, FirstAt, Deleted, Node,
      Blocks, Listing, Passed, Reaches, Live, NameAt, Holds, Synced;
    var n, k := ParentNode(v, q), q.parent;
    DeleteScan(v, fs, q);
    FindEntrySound(v.disk, n, 0, q.name);
    match FindEntry(v.disk, n, 0, q.name)
    case Place(bi, at) =>
      var blk := fs.tree[k][bi];
      FoundParts(v.disk, blk, at, q.name);
      DeleteAtHolds(v, fs, q, bi, blk, at, stack);
      e := EntryAt(v.disk[blk], at);
      fs' := Without(fs, e.ino);
      InvParts(v, fs);
      EntryFields(v.disk[blk], at);
      DeleteTypes(v, fs, q, bi, blk, at, stack);
      DeleteOneBlock(v, fs, q, blk, at, stack);
      i := DeletedFrom(v, DeleteAt(v, q, blk, at, stack).v, fs, q, bi, blk, at, e);
    case Nowhere =>
  }

  lemma DeleteTypes(v: Volume, fs: FS, q: Request, bi: nat, blk: nat, at: nat, stack: u32)
    requires DirBlockOK(v.disk, blk) && Reaches(v.disk[blk], 0, at) && Live(v.disk[blk], at) && !IsDot(bi, at)
    requires IsDirBlock(fs, q.parent, bi, blk) && Holds(v, fs, {}, {})
    ensures 21 <= blk
    ensures DeleteCodeAt(v, q, blk, at, stack) == 0 ==>
      var e := EntryAt(v.disk[blk], at);
      && e.ino in fs.tree && e.ino != 1 && e.ftype == (if q.isDir then EXT2_FT_DIR else EXT2_FT_REG_FILE)
      && (e.ino in fs.data <==> !q.isDir)
  {
    hide Holds, Chain, Reaches, Live, Remove, DeallocNode, Sync, Previous, EntriesBefore, DirEmpty, RecLen, NameLen,
      SlackZero, IsDot;
    FoundEntry(v, fs, q.parent, bi, blk, at);
  }

  // ----- as seen through `read` -----

  /** Whatever a name still stands for reads as before. */
  lemma AnswerKept(v': Volume, fs: FS, ino: nat, k: nat, name: Name, size: nat)
    requires Inv(v', Without(fs, ino)) && IsDirectory(Without(fs, ino), k)
    ensures AbstractRead(Without(fs, ino), Resolved(v', Without(fs, ino), k, name), size)
         == AbstractRead(fs, Resolved(v', Without(fs, ino), k, name), size)
  {
    hide Inv, NamesIn, DataCount, Upto, Lookup;
    var fs' := Without(fs, ino);
    WithoutMaps(fs, ino);
    var es := NamesIn(v', fs', k);
    if Lookup(es, name) < |es| { EntryIsSound(v', fs', k, Lookup(es, name)); }
  }

  /**
   * After a successful `delete` the name stands for the next entry it shadowed, or for nothing; every other name stands
   * for what it stood for before.
   */
  lemma DeleteResolves(v: Volume, fs: FS, q: Request, stack: u32) returns (fs': FS, e: Entry, i: nat)
    requires ValidRequest(q) && ParentOK(v, q) && DeleteSafe(v, q) && DeleteCode(v, q, stack) == 0 && Inv(v, fs)
    ensures Inv(DeleteOp(v, q, stack).v, fs') && fs' == Without(fs, e.ino) && IsDirectory(fs, q.parent)
    ensures i < |NamesIn(v, fs, q.parent)| && NamesIn(v, fs, q.parent)[i] == e && e.name == q.name
    ensures Resolved(v, fs, q.parent, q.name) == Some(e)
    ensures q.parent != e.ino ==>
      Resolved(DeleteOp(v, q, stack).v, fs', q.parent, q.name) == Resolve(NamesIn(v, fs, q.parent)[i + 1..], q.name)
    ensures forall k, name: Name :: IsDirectory(fs, k) && k != e.ino && (k != q.parent || name != q.name) ==>
      Resolved(DeleteOp(v, q, stack).v, fs', k, name) == Resolved(v, fs, k, name)
  {
    hide Inv, DeleteOp, DeleteSafe, NamesIn, ParentOK, Resolve, RemovedAt, Without;
    fs', e, i := DeleteEffect(v, fs, q, stack);
    var v' := DeleteOp(v, q, stack).v;
    forall k, name: Name | IsDirectory(fs, k) && k != e.ino && (k != q.parent || name != q.name)
      ensures Resolved(v', fs', k, name) == Resolved(v, fs, k, name)
    {
      if k == q.parent { RemovedResolves(NamesIn(v, fs, k), NamesIn(v', fs', k), e, i, name); }
    }
    if q.parent != e.ino {
      RemovedResolves(NamesIn(v, fs, q.parent), NamesIn(v', fs', q.parent), e, i, q.name);
    }
    FirstResolves(NamesIn(v, fs, q.parent), e, i);
  }

  /** Every other name reads as before. */
  lemma DeleteKeepsReads(v: Volume, fs: FS, q: Request, stack: u32, r: Request, size: nat)
    requires ValidRequest(q) && ParentOK(v, q) && DeleteSafe(v, q) && DeleteCode(v, q, stack) == 0 && Inv(v, fs)
    requires ValidRequest(r) && ParentOK(v, r) && (r.parent != q.parent || r.name != q.name)
    requires Resolved(v, fs, q.parent, q.name).Some? && r.parent != Resolved(v, fs, q.parent, q.name).value.ino
    ensures ParentOK(DeleteOp(v, q, stack).v, r)
    ensures ReadOp(DeleteOp(v, q, stack).v, r, size) == ReadOp(v, r, size)
  {
    hide Inv, DeleteOp, DeleteSafe, ReadOp, NamesIn, ParentOK, Resolve, AbstractRead, Without, ValidRequest;
    var fs', e, i := DeleteResolves(v, fs, q, stack);
    var v' := DeleteOp(v, q, stack).v;
    InvParentOK(v', fs', r);
    WithoutMaps(fs, e.ino);
    ReadMeaning(v, fs, r, size);
    ReadMeaning(v', fs', r, size);
    if IsDirectory(fs, r.parent) { AnswerKept(v', fs, e.ino, r.parent, r.name, size); }
  }

  /** A deleted name that shadowed nothing is not found any more. */
  lemma DeletedIsGone(v: Volume, fs: FS, q: Request, stack: u32, size: nat)
    requires ValidRequest(q) && ParentOK(v, q) && DeleteSafe(v, q) && DeleteCode(v, q, stack) == 0 && Inv(v, fs)
    requires forall i, j :: 0 <= i < j < |NamesIn(v, fs, q.parent)| && NamesIn(v, fs, q.parent)[i].name == q.name ==>
      NamesIn(v, fs, q.parent)[j].name != q.name
    requires Resolved(v, fs, q.parent, q.name).Some? ==> Resolved(v, fs, q.parent, q.name).value.ino != q.parent
    ensures ParentOK(DeleteOp(v, q, stack).v, q) && ReadOp(DeleteOp(v, q, stack).v, q, size) == Contents(2, [])
  {
    hide Inv, DeleteOp, DeleteSafe, ReadOp, NamesIn, ParentOK, Resolve, Without;
    var fs', e, i := DeleteResolves(v, fs, q, stack);
    var v' := DeleteOp(v, q, stack).v;
    NothingShadowed(NamesIn(v, fs, q.parent), e, i, q.name);
    InvParentOK(v', fs', q);
    WithoutMaps(fs, e.ino);
    ReadMeaning(v', fs', q, size);
  }

  lemma NothingShadowed(es: seq<Entry>, e: Entry, i: nat, name: Name)
    requires i < |es| && es[i] == e && e.name == name
    requires forall i, j :: 0 <= i < j < |es| && es[i].name == name ==> es[j].name != name
    ensures Resolve(es[i + 1..], name) == None
  {
    NoMatch(es[i + 1..], name);
  }

  // ----- `is_directory_empty` -----

  /**
   * The driver takes a directory for empty exactly when its first block holds nothing but the dots and the word it
   * reads past that block is zero.
   */
  lemma EmptyMeans(b: Block, k: nat, stack: u32)
    requires Dots(b, k)
    ensures Chain(b, 0)
    ensures EmptyBlock(b, stack) <==> |Entries(b, 0)| == 2 && stack == 0
  {
    hide U16At, U32At, SlackZero, NameAt, Dots;
    DotsHead(b, k);
    SecondLive(b, k);
    var o2: nat := 12 + RecLen(b, 12);
    ChainHead(b, 0);
    ChainHead(b, 12);
    assert Chain(b, o2);
    if o2 < 512 { assert Live(b, o2); ChainHead(b, o2); }
  }

  lemma EmptyDirMeans(v: Volume, fs: FS, ino: nat, stack: u32)
    requires Inv(v, fs) && IsDirectory(fs, ino) && ValidInode(ino)
    ensures |fs.tree[ino]| > 0 && fs.tree[ino][0] < 2048 && Chain(v.disk[fs.tree[ino][0]], 0)
    ensures DirEmpty(v, ino, stack) <==> |Entries(v.disk[fs.tree[ino][0]], 0)| == 2 && stack == 0
  {
    hide Inv, Node, IsDirMode, Chain, Entries, EmptyBlock, Dots;
    DirContents(v, fs, ino);
    DirectoryFound(v, fs, ino);
    var b := v.disk[fs.tree[ino][0]];
    assert Node(v.disk, ino).block[0] == fs.tree[ino][0];
    assert DirBlockOK(v.disk, Node(v.disk, ino).block[0]);
    EmptyMeans(b, ino, stack);
  }
}
