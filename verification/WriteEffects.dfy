/** What `write` means to its callers: one more name, one more file, and nothing else changed. */
module WriteEffects {
  import opened Bytes
  import opened Layout
  import opened Metadata
  import opened Volume
  import opened FileTree
  import opened Accounting
  import opened Allocation
  import opened Directory
  import opened Operations
  import opened Invariant
  import opened Creation
  import opened Naming
  import opened Growth
  import opened Writing
  import opened Observing

  // ----- free space -----

  /** The blocks free at or after `m`. */
  function FreeFrom(d: Disk, m: nat): (s: set<nat>)
    ensures forall k :: k in s <==> m <= k < 2048 && !Used(d, k)
    decreases 2048 - m
  {
    if m >= 2048 then {} else (if Used(d, m) then {} else {m}) + FreeFrom(d, m + 1)
  }

  function SetOf(a: seq<nat>): (s: set<nat>)
    ensures forall m :: m in s <==> m in a
  {
    set m | m in a
  }

  lemma {:induction false} DistinctCount(a: seq<nat>)
    requires forall i, j :: 0 <= i < j < |a| ==> a[i] < a[j]
    ensures |SetOf(a)| == |a|
  {
    if a != [] {
      var k := |a| - 1;
      DistinctCount(a[..k]);
      assert a == a[..k] + [a[k]];
      assert SetOf(a) == SetOf(a[..k]) + {a[k]};
    }
  }

  lemma SubsetCount(x: set<nat>, y: set<nat>)
    requires x <= y
    ensures |x| <= |y|
  {
    assert |y| == |x| + |y - x| by { assert y == x + (y - x); }
  }

  /** First-fit takes every free block before it gives up. */
  lemma TakenCount(d: Disk, d': Disk, pref: nat, a: seq<nat>, pos: map<nat, nat>, needed: nat)
    requires FirstFit(d, pref, a) && Inverse(a, pos) && |a| <= needed
    requires forall m :: 0 <= m < 2048 ==> (Used(d', m) <==> Used(d, m) || m in pos)
    requires |a| == needed || NoneFree(d', pref)
    ensures |a| == Least(needed, |FreeFrom(d, 256 * pref)|)
  {
    hide Used;
    DistinctCount(a);
    var s, f := SetOf(a), FreeFrom(d, 256 * pref);
    SubsetCount(s, f);
    if |a| < needed {
      forall m | m in f ensures m in s { assert Used(d', m); assert a[pos[m]] == m; }
      SubsetCount(f, s);
    }
  }

  // ----- the effect -----

  /** The block a growing directory takes before anything else is allocated. */
  function Spent(v: Volume, q: Request): set<nat>
    requires ValidRequest(q) && ParentOK(v, q)
  {
    if q.parent != 0 && IsDirMode(ParentNode(v, q).mode) && FindRoom(v.disk, ParentNode(v, q), 0, q.name).Full?
      then {FirstFree(v.disk, 256 * InodeToBgd(q.parent))} else {}
  }

  /** How many blocks a new file of inode `ino` gets. */
  function Granted(d: Disk, ino: nat, size: u32, spent: set<nat>): nat {
    Least(Needed(BlocksFor(size)), |FreeFrom(d, 256 * InodeToBgd(ino)) - spent|)
  }

  /** Files and directory lists other than those of `k` are as they were. */
  ghost predicate OthersKept(v: Volume, v': Volume, fs: FS, fs': FS, k: nat) {
    && (forall j :: j in fs.tree && j !in fs.data && j != k ==> NamesIn(v', fs', j) == NamesIn(v, fs, j))
    && (forall j :: j in fs.data ==> j in fs.tree && j in fs'.tree && j in fs'.data &&
                                     fs'.data[j] == fs.data[j] && fs'.tree[j] == fs.tree[j])
    && (forall j :: j in fs.tree && j !in fs.data ==> j !in fs'.data)
  }

  /** What the new inode holds: the data, as far as blocks were granted, or the two dots. */
  ghost predicate NewContents(v: Volume, v': Volume, fs': FS, q: Request, ino: nat, spent: set<nat>) {
    && ValidRequest(q) && ino in fs'.tree
    && if MakesDir(q)
       then 0 < ino <= 896 && ino !in fs'.data && NamesIn(v', fs', ino) ==
              [Entry(0, ino, EXT2_FT_DIR, DOT), Entry(12, q.parent, EXT2_FT_DIR, DOTDOT)]
       else ino in fs'.data && fs'.data[ino] == q.data && |fs'.tree[ino]| == Granted(v.disk, ino, |q.data|, spent)
  }

  /**
   * Everything a caller can see of a successful `write`: `e` is the new entry, at position `i` of the parent's list,
   * and `spent` are the blocks the parent itself grew by.
   */
  ghost predicate Wrote(v: Volume, v': Volume, fs: FS, fs': FS, q: Request, e: Entry, i: nat, spent: set<nat>) {
    && e.name == q.name && e.ftype == TypeOf(q) && ValidInode(e.ino) && e.ino !in fs.tree
    && q.parent in fs.tree && q.parent !in fs.data && fs'.tree.Keys == fs.tree.Keys + {e.ino as nat}
    && InsertedAt(NamesIn(v, fs, q.parent), NamesIn(v', fs', q.parent), e, i)
    && OthersKept(v, v', fs, fs', q.parent)
    && NewContents(v, v', fs', q, e.ino, spent)
  }

  lemma OtherListing(v: Volume, v': Volume, fs: FS, fs': FS, k: nat)
    requires k in fs.tree && k in fs'.tree && fs'.tree[k] == fs.tree[k] && Blocks(v.disk, fs.tree[k])
    requires forall i :: 0 <= i < |fs.tree[k]| ==> v'.disk[fs.tree[k][i]] == v.disk[fs.tree[k][i]]
    ensures NamesIn(v', fs', k) == NamesIn(v, fs, k)
  {
    hide Chain, Entries;
    ListingSame(v.disk, v'.disk, fs.tree[k]);
  }

  lemma SingleListing(d: Disk, b: nat)
    requires b < 2048 && Chain(d[b], 0)
    ensures Blocks(d, [b]) && Listing(d, [b]) == Entries(d[b], 0)
  {
    hide Chain, Entries;
    assert [b][1..] == [];
  }

  lemma DotsOnly(v: Volume, fs: FS, ino: nat, b: nat, parent: nat)
    requires ino in fs.tree && fs.tree[ino] == [b] && b < 2048 && 0 < ino < 0x1_0000_0000 && 0 < parent < 0x1_0000_0000
    requires v.disk[b] == NewDirBlock(ino, parent)
    ensures NamesIn(v, fs, ino) == [Entry(0, ino, EXT2_FT_DIR, DOT), Entry(12, parent, EXT2_FT_DIR, DOTDOT)]
  {
    hide Chain, Entries, NewDirBlock, Listing, NamesIn;
    NewDirBlockSpec(ino, parent);
    SingleListing(v.disk, b);
    NamesInIs(v, fs, ino);
  }

  /** The list of the parent after an insertion in block `bi`. */
  lemma HoleListing(d: Disk, d': Disk, a: seq<nat>, bi: nat, at: nat, ino: u32, ftype: byte, name: Name)
    returns (i: nat)
    requires Blocks(d, a) && bi < |a| && Chain(d[a[bi]], 0) && ino != 0
    requires Reaches(d[a[bi]], 0, at) && Live(d[a[bi]], at)
    requires RecordLen(|name|) <= SlackLen(d[a[bi]], at)
    requires Passed(Listing(d, a[..bi]), name) && Passed(EntriesBefore(d[a[bi]], 0, at), name)
    requires NameAt(d[a[bi]], at) != name
    requires d'[a[bi]] == Insert(d[a[bi]], at, ino, ftype, name)
    requires forall j :: 0 <= j < |a| && j != bi ==> a[j] != a[bi] && d'[a[j]] == d[a[j]]
    ensures Blocks(d', a)
    ensures InsertedAt(Listing(d, a), Listing(d', a), Entry(SlackAt(d[a[bi]], at), ino, ftype, name), i)
  {
    hide Chain, Entries, Reaches, Live, EntriesBefore, EntriesAfter, Insert, SlackLen, SlackAt, RecordLen, NameAt,
      EntryAt, Listing, InsertedAt, Passed;
    var b := d[a[bi]];
    InsertSpec(b, at, ino, ftype, name);
    ListingCut(d, a, bi);
    ListingSame(d, d', a[..bi]);
    ListingSame(d, d', a[bi + 1..]);
    forall j | 0 <= j < |a| ensures Chain(d'[a[j]], 0) {}
    ListingCut(d', a, bi);
    EntryName(b, at);
    i := InsertedInThree(Listing(d, a[..bi]), EntriesBefore(b, 0, at), EntryAt(b, at), EntriesAfter(b, at),
                         Listing(d, a[bi + 1..]), Entry(SlackAt(b, at), ino, ftype, name));
  }

  lemma InsertedInThree(x: seq<Entry>, y: seq<Entry>, p: Entry, z: seq<Entry>, w: seq<Entry>, e: Entry) returns (i: nat)
    requires Passed(x, e.name) && Passed(y, e.name) && p.name != e.name
    ensures InsertedAt(x + (y + [p] + z) + w, x + (y + [p] + [e] + z) + w, e, i)
  {
    var es, es' := x + (y + [p] + z) + w, x + (y + [p] + [e] + z) + w;
    i := |x| + |y| + 1;
    assert es[..i] == x + y + [p] && es[i..] == z + w;
    assert es' == x + y + [p] + [e] + (z + w);
  }

  lemma EntryName(b: Block, p: nat)
    requires Sound(b, p)
    ensures EntryAt(b, p).name == NameAt(b, p)
  {}

  // ----- the effect, when a hole is found -----

  /** Blocks of the old directories are as they were, the one just written excepted. */
  lemma OldDirBlocks(v: Volume, v2: Volume, v': Volume, fs: FS, ino: nat, pos: map<nat, nat>, k: nat, bi: nat, blk: nat,
      j: nat)
    requires Inv(v, fs) && Adopting(v.disk, v2.disk, ino, pos) && IsDirBlock(fs, k, bi, blk) && j in fs.tree
    requires forall m :: 21 <= m < 2048 && !Meta(m) && m != blk ==> v'.disk[m] == v2.disk[m]
    ensures InRange(fs.tree[j])
    ensures forall i :: 0 <= i < |fs.tree[j]| && (j != k || i != bi) ==>
      fs.tree[j][i] != blk && v'.disk[fs.tree[j][i]] == v.disk[fs.tree[j][i]]
  {
    hide Holds, Adopting, Meta, Synced;
    OwnersPart(v, fs, {}, {});
    OldBlocksKept(v.disk, v2.disk, fs, {}, ino, pos, j);
    if j == k { OwnBlocksDistinct(v.disk, fs, {}, k, bi, blk); } else { NotMine(v.disk, fs, {}, k, bi, blk, j); }
    DataAreaStarts(fs.tree[j]);
  }

  lemma DataAreaStarts(a: seq<nat>)
    requires InRange(a)
    ensures forall i :: 0 <= i < |a| ==> 21 <= a[i] < 2048 && !Meta(a[i])
  {}

  lemma {:induction false} FreeFromSame(d: Disk, d': Disk, m: nat)
    requires forall k :: 0 <= k < 2048 ==> (Used(d', k) <==> Used(d, k))
    ensures FreeFrom(d', m) == FreeFrom(d, m)
    decreases 2048 - m
  {
    hide Used;
    if m < 2048 { FreeFromSame(d, d', m + 1); }
  }

  lemma PopulatedFile(v: Volume, w: Volume, fs: FS, fs1: FS, loose: set<nat>, ino: nat, q: Request, t: Account)
    requires Populated(v, w, fs, fs1, loose, ino, q, t) && !MakesDir(q)
    ensures ValidInode(ino) && FileOK(w.disk, Node(w.disk, ino), t.a, q.data)
  {
    hide Counted, MetaUsed, InodesOK, OwnersOK, NamesOK, FileOK, Node, Adopting, FileMade, Inverse;
    assert ContentOK(w.disk, fs1, ino);
  }

  /** A new file gets the blocks it needs, or all there are. */
  lemma TakenByFile(v: Volume, w: Volume, fs: FS, fs1: FS, loose: set<nat>, ino: nat, q: Request, t: Account)
    requires Populated(v, w, fs, fs1, loose, ino, q, t) && !MakesDir(q) && ValidInode(ino) && ValidRequest(q)
    requires Counted(v) && !InodeUsed(v.disk, ino)
    ensures |t.a| == Granted(v.disk, ino, |q.data|, {})
  {
    hide Holds, Used, InodeUsed, Node, FirstFit, OneSlot, Untouched, Lays, DataOn, FreeFrom, NoneFree, Counted,
      Nameless, Meta, Adopt, AllocNode, Inverse, SameTables, SameData, Synced, SameBlockBitmaps, Needed, BlocksFor;
    PopulatedFile(v, w, fs, fs1, loose, ino, q, t);
    LaysBound(w.disk, Node(w.disk, ino), t.a);
    TakenCount(v.disk, w.disk, t.pref, t.a, t.pos, Needed(BlocksFor(|q.data|)));
    assert FreeFrom(v.disk, 256 * t.pref) - {} == FreeFrom(v.disk, 256 * t.pref);
  }

  /** After the new inode is made, one block is written and the caches are synchronised. */
  ghost predicate OneBlock(w: Volume, v': Volume, blk: nat, x: Block) {
    blk < 2048 && v'.disk[blk] == x && forall m :: 21 <= m < 2048 && !Meta(m) && m != blk ==> v'.disk[m] == w.disk[m]
  }

  lemma OneBlockSynced(w: Volume, blk: nat, x: Block)
    requires 21 <= blk < 2048
    ensures OneBlock(w, Sync(PutBlock(w, blk, x)), blk, x)
  {
    hide Sync, Synced, Meta, Counted;
    SyncSpec(PutBlock(w, blk, x));
  }

  /** What the maps of the abstract file system say of old and new inodes. */
  lemma AdoptedMaps(fs: FS, ino: nat, q: Request, t: Account)
    requires ino !in fs.tree && fs.data.Keys <= fs.tree.Keys
    ensures var fs' := NewFS(fs, ino, q, t);
      && fs'.tree.Keys == fs.tree.Keys + {ino}
      && (forall k :: k in fs.tree ==> fs'.tree[k] == fs.tree[k]) && fs'.tree[ino] == t.a
      && (forall k :: k in fs.data ==> k in fs.tree && k in fs'.data && fs'.data[k] == fs.data[k])
      && (forall k :: k in fs.tree && k !in fs.data ==> k !in fs'.data)
      && (if MakesDir(q) then ino !in fs'.data else ino in fs'.data && fs'.data[ino] == q.data)
  {}

  lemma FilesInTree(d: Disk, fs: FS)
    requires InodesOK(d, fs)
    ensures fs.data.Keys <= fs.tree.Keys
  {
    hide InodeUsed, Node;
  }

  lemma OtherLists(v: Volume, v2: Volume, v': Volume, fs: FS, fs': FS, ino: nat, pos: map<nat, nat>, k: nat, bi: nat,
      blk: nat, x: Block)
    requires Inv(v, fs) && Adopting(v.disk, v2.disk, ino, pos) && IsDirBlock(fs, k, bi, blk) && OneBlock(v2, v', blk, x)
    requires forall j :: j in fs.tree && j != k ==> j in fs'.tree && fs'.tree[j] == fs.tree[j]
    ensures forall j :: j in fs.tree && j !in fs.data && j != k ==> NamesIn(v', fs', j) == NamesIn(v, fs, j)
  {
    hide Inv, Adopting, Meta, NamesIn;
    forall j | j in fs.tree && j !in fs.data && j != k ensures NamesIn(v', fs', j) == NamesIn(v, fs, j) {
      DirContents(v, fs, j);
      OldDirBlocks(v, v2, v', fs, ino, pos, k, bi, blk, j);
      OtherListing(v, v', fs, fs', j);
    }
  }

  /** The scan of `write` stopped at record `at` of block `bi` of the parent, and passed no entry of the name. */
  ghost predicate HoleAt(d: Disk, fs: FS, q: Request, bi: nat, blk: nat, at: nat) {
    && IsDirBlock(fs, q.parent, bi, blk) && DirBlockOK(d, blk)
    && Reaches(d[blk], 0, at) && Live(d[blk], at) && RecordLen(|q.name|) <= SlackLen(d[blk], at)
    && Blocks(d, fs.tree[q.parent][..bi])
    && Passed(Listing(d, fs.tree[q.parent][..bi]), q.name) && Passed(EntriesBefore(d[blk], 0, at), q.name)
    && NameAt(d[blk], at) != q.name
  }

  lemma HoleParentList(v: Volume, v2: Volume, v': Volume, fs: FS, fs': FS, ino: nat, pos: map<nat, nat>, q: Request,
      bi: nat, blk: nat, at: nat)
    returns (i: nat)
    requires HoleAt(v.disk, fs, q, bi, blk, at) && 0 < ino < 0x1_0000_0000
    requires OneBlock(v2, v', blk, Insert(v.disk[blk], at, ino, TypeOf(q), q.name))
    requires q.parent in fs'.tree && fs'.tree[q.parent] == fs.tree[q.parent]
    requires Inv(v, fs) && Adopting(v.disk, v2.disk, ino, pos)
    ensures InsertedAt(NamesIn(v, fs, q.parent), NamesIn(v', fs', q.parent),
                       Entry(SlackAt(v.disk[blk], at), ino, TypeOf(q), q.name), i)
  {
    hide Inv, Adopting, Meta, NamesIn, Chain, Entries, Reaches, Live, EntriesBefore, Insert, SlackLen, SlackAt,
      RecordLen, NameAt, Listing, InsertedAt, Passed;
    var k := q.parent;
    DirContents(v, fs, k);
    OldDirBlocks(v, v2, v', fs, ino, pos, k, bi, blk, k);
    i := HoleListing(v.disk, v'.disk, fs.tree[k], bi, at, ino, TypeOf(q), q.name);
    NamesInIs(v, fs, k);
    NamesInIs(v', fs', k);
  }

  /** The list of a directory just made. */
  lemma NewDirList(v: Volume, v2: Volume, v': Volume, fs: FS, fs1: FS, fs': FS, loose: set<nat>, ino: nat, q: Request,
                   t: Account, blk: nat, x: Block)
    requires Populated(v, v2, fs, fs1, loose, ino, q, t) && MakesDir(q) && OneBlock(v2, v', blk, x) && blk !in t.pos
    requires ino in fs'.tree && fs'.tree[ino] == t.a && 0 < ino < 0x1_0000_0000 && 0 < q.parent
    ensures NamesIn(v', fs', ino) == [Entry(0, ino, EXT2_FT_DIR, DOT), Entry(12, q.parent, EXT2_FT_DIR, DOTDOT)]
  {
    hide Holds, Nameless, NewDirBlock, NamesIn, Meta, OneSlot, Untouched, Used, InodeUsed, Node, Adopt;
    var b := t.a[0];
    assert t.a == [b] && b in t.pos;
    DataAreaStart(b);
    DotsOnly(v', fs', ino, b, q.parent);
  }

  lemma AdoptedContents(v: Volume, v2: Volume, v': Volume, fs: FS, fs': FS, loose: set<nat>, q: Request, ino: nat,
      blk: nat, x: Block, t: Account)
    requires ino == FirstFreeInode(v.disk, 1) && ino != 0 && blk !in t.pos && OneBlock(v2, v', blk, x) && q.parent != 0
    requires Populated(v, v2, fs, NewFS(fs, ino, q, t), loose, ino, q, t) && Holds(v, fs, loose, {}) && ValidRequest(q)
    requires fs'.tree == NewFS(fs, ino, q, t).tree && fs'.data == NewFS(fs, ino, q, t).data
    ensures NewContents(v, v', fs', q, ino, {})
  {
    hide Holds, Meta, NamesIn, FirstFreeInode, Populated, NewFS, OneBlock, Granted, InodeUsed, Counted;
    var fs1 := NewFS(fs, ino, q, t);
    OwnersPart(v, fs, loose, {});
    FilesInTree(v.disk, fs);
    FreeInode(v, fs, loose, {}, ino);
    AdoptedMaps(fs, ino, q, t);
    if MakesDir(q) {
      NewDirList(v, v2, v', fs, fs1, fs', loose, ino, q, t, blk, x);
    } else {
      TakenByFile(v, v2, fs, fs1, loose, ino, q, t);
    }
  }

  /** The parts of `Wrote` together; block `blk` of the parent is written last. */
  lemma WroteFrom(v: Volume, v2: Volume, v': Volume, fs: FS, fs': FS, q: Request, ino: nat, bi: nat, blk: nat, x: Block,
                  t: Account, e: Entry, i: nat)
    requires IsDirBlock(fs, q.parent, bi, blk) && q.parent != 0 && OneBlock(v2, v', blk, x)
    requires ino == FirstFreeInode(v.disk, 1) && ino != 0 && Inv(v, fs)
    requires Populated(v, v2, fs, NewFS(fs, ino, q, t), {}, ino, q, t)
    requires fs'.tree == NewFS(fs, ino, q, t).tree && fs'.data == NewFS(fs, ino, q, t).data
    requires e.ino == ino && e.name == q.name && ValidRequest(q) && e.ftype == TypeOf(q)
    requires InsertedAt(NamesIn(v, fs, q.parent), NamesIn(v', fs', q.parent), e, i)
    ensures Wrote(v, v', fs, fs', q, e, i, {})
  {
    hide Inv, Holds, Meta, NamesIn, FirstFreeInode, InsertedAt, Populated, NewFS, OneBlock, TypeOf, NewContents;
    var k, fs1 := q.parent, NewFS(fs, ino, q, t);
    PopulatedParts(v, v2, fs, fs1, {}, ino, q, t);
    InvParts(v, fs);
    FilesInTree(v.disk, fs);
    AdoptedMaps(fs, ino, q, t);
    BlockSurvives(v.disk, v2.disk, fs, {}, ino, t.pos, k, bi, blk);
    OtherLists(v, v2, v', fs, fs', ino, t.pos, k, bi, blk, x);
    AdoptedContents(v, v2, v', fs, fs', {}, q, ino, blk, x, t);
  }

  lemma HoleWrote(v: Volume, fs: FS, q: Request, ino: nat, bi: nat, blk: nat, at: nat, t: Account)
    returns (e: Entry, i: nat)
    requires HoleAt(v.disk, fs, q, bi, blk, at) && ValidRequest(q) && q.parent != 0
    requires ino == FirstFreeInode(v.disk, 1) && ino != 0 && ValidInode(ino)
    requires Inv(v, fs)
    requires Populated(v, Populate(AllocNode(v, ino), ino, q), fs, NewFS(fs, ino, q, t), {}, ino, q, t)
    ensures Wrote(v, WriteInHole(v, q, blk, at).v, fs, Named(NewFS(fs, ino, q, t), ino, blk, SlackAt(v.disk[blk], at)),
        q, e, i, {})
    ensures e.ino == ino
  {
    hide Inv, Meta, NamesIn, Chain, Entries, Reaches, Live, EntriesBefore, Insert, SlackLen, SlackAt, RecordLen,
      FirstFreeInode, NameAt, Listing, InsertedAt, Passed, Populated, Populate, AllocNode, Sync, NewFS, OneBlock, Wrote,
      Blocks;
    var k, v2, fs1 := q.parent, Populate(AllocNode(v, ino), ino, q), NewFS(fs, ino, q, t);
    var fs' := Named(fs1, ino, blk, SlackAt(v.disk[blk], at));
    var x := Insert(v.disk[blk], at, ino, TypeOf(q), q.name);
    var v' := Sync(PutBlock(v2, blk, x));
    e := Entry(SlackAt(v.disk[blk], at), ino, TypeOf(q), q.name);
    PopulatedParts(v, v2, fs, fs1, {}, ino, q, t);
    InvParts(v, fs);
    DirBlockFacts(v, fs, {}, {}, k, bi, blk);
    OneBlockSynced(v2, blk, x);
    ParentTree(fs, ino, q, t);
    i := HoleParentList(v, v2, v', fs, fs', ino, t.pos, q, bi, blk, at);
    WroteFrom(v, v2, v', fs, fs', q, ino, bi, blk, x, t, e, i);
  }

  lemma ParentTree(fs: FS, ino: nat, q: Request, t: Account)
    requires q.parent in fs.tree && ino !in fs.tree
    ensures q.parent in NewFS(fs, ino, q, t).tree && NewFS(fs, ino, q, t).tree[q.parent] == fs.tree[q.parent]
  {}

  lemma PopulatedParts(v: Volume, v': Volume, fs: FS, fs': FS, loose: set<nat>, ino: nat, q: Request, t: Account)
    requires Populated(v, v', fs, fs', loose, ino, q, t)
    ensures ValidRequest(q) && ino !in fs.tree && Adopting(v.disk, v'.disk, ino, t.pos)
  {
    hide Holds, Nameless, Adopting, Adopt, AllocNode, FileMade;
  }

  lemma InvParts(v: Volume, fs: FS)
    requires Inv(v, fs)
    ensures Holds(v, fs, {}, {}) && OwnersOK(v.disk, fs, {}) && InodesOK(v.disk, fs) && Synced(v.disk, v.sb, v.bgdt)
  {
    hide Counted, MetaUsed, OwnersOK, ContentsOK, NamesOK, InodesOK, Synced;
  }

  // ----- the effect, when the directory grows -----

  lemma FreeFromTaken(v: Volume, b: nat, m: nat)
    requires b < 2048 && forall k :: 0 <= k < 2048 ==> (Used(Take(v, b).disk, k) <==> Used(v.disk, k) || k == b)
    ensures FreeFrom(Take(v, b).disk, m) - {} == FreeFrom(v.disk, m) - {b}
  {
    hide Used, Take;
  }

  /** All old blocks survive the growth of a directory by block `b`. */
  lemma GrowthKeeps(v: Volume, v1: Volume, v2: Volume, v': Volume, fs: FS, ino: nat, pos: map<nat, nat>, b: nat,
      x: Block, j: nat)
    requires Holds(v1, fs, {b}, {}) && SameData(v.disk, v1.disk) && Adopting(v1.disk, v2.disk, ino, pos)
    requires OneBlock(v2, v', b, x)
    requires j in fs.tree && b !in fs.owner
    ensures InRange(fs.tree[j])
    ensures forall i :: 0 <= i < |fs.tree[j]| ==> fs.tree[j][i] != b && v'.disk[fs.tree[j][i]] == v.disk[fs.tree[j][i]]
  {
    hide Holds, Adopting, Meta;
    OwnersPart(v1, fs, {b}, {});
    OldBlocksKept(v1.disk, v2.disk, fs, {b}, ino, pos, j);
    NotOwned(v1.disk, fs, {b}, b, j);
    DataAreaStarts(fs.tree[j]);
  }

  lemma NotOwned(d: Disk, fs: FS, loose: set<nat>, b: nat, j: nat)
    requires OwnersOK(d, fs, loose) && b !in fs.owner && j in fs.tree
    ensures forall i :: 0 <= i < |fs.tree[j]| ==> fs.tree[j][i] != b
  {
    hide Used;
    assert Owns(fs, j);
  }

  lemma GrowthLists(v: Volume, v1: Volume, v2: Volume, v': Volume, fs: FS, fs': FS, ino: nat, pos: map<nat, nat>,
      b: nat, x: Block, k: nat)
    requires Holds(v1, fs, {b}, {}) && SameData(v.disk, v1.disk) && Adopting(v1.disk, v2.disk, ino, pos)
    requires OneBlock(v2, v', b, x)
    requires b !in fs.owner && Inv(v, fs)
    requires forall j :: j in fs.tree && j != k ==> j in fs'.tree && fs'.tree[j] == fs.tree[j]
    ensures forall j :: j in fs.tree && j !in fs.data && j != k ==> NamesIn(v', fs', j) == NamesIn(v, fs, j)
  {
    hide Holds, Inv, Adopting, Meta, NamesIn, SameData, OneBlock;
    forall j | j in fs.tree && j !in fs.data && j != k ensures NamesIn(v', fs', j) == NamesIn(v, fs, j) {
      DirContents(v, fs, j);
      GrowthKeeps(v, v1, v2, v', fs, ino, pos, b, x, j);
      OtherListing(v, v', fs, fs', j);
    }
  }

  lemma AppendedAt(es: seq<Entry>, e: Entry)
    requires Passed(es, e.name)
    ensures InsertedAt(es, es + [e], e, |es|)
  {
    assert es[..|es|] + [e] + es[|es|..] == es + [e];
  }

  lemma GrowthParentList(v: Volume, v': Volume, fs: FS, fs': FS, k: nat, b: nat, ino: u32, ftype: byte, name: Name)
    requires k in fs.tree && Blocks(v.disk, fs.tree[k]) && Passed(Listing(v.disk, fs.tree[k]), name) && ino != 0
    requires forall i :: 0 <= i < |fs.tree[k]| ==> v'.disk[fs.tree[k][i]] == v.disk[fs.tree[k][i]]
    requires b < 2048 && v'.disk[b] == NewEntryBlock(ino, ftype, name)
    requires k in fs'.tree && fs'.tree[k] == fs.tree[k] + [b]
    ensures InsertedAt(NamesIn(v, fs, k), NamesIn(v', fs', k), Entry(0, ino, ftype, name), |NamesIn(v, fs, k)|)
  {
    hide Chain, Entries, NewEntryBlock, NamesIn, Listing, InsertedAt, Passed;
    NewEntryBlockSpec(ino, ftype, name);
    SingleListing(v'.disk, b);
    ListingSame(v.disk, v'.disk, fs.tree[k]);
    ListingAppend(v'.disk, fs.tree[k], [b]);
    NamesInIs(v, fs, k);
    NamesInIs(v', fs', k);
    AppendedAt(Listing(v.disk, fs.tree[k]), Entry(0, ino, ftype, name));
  }

  lemma GrownContents(v: Volume, v1: Volume, v2: Volume, v': Volume, fs: FS, fs': FS, q: Request, ino: nat, b: nat,
      x: Block, t: Account)
    requires ino == FirstFreeInode(v1.disk, 1) && ino != 0 && OneBlock(v2, v', b, x) && q.parent != 0
    requires b < 2048 && v1 == Take(v, b) && Used(v1.disk, b)
    requires forall k :: 0 <= k < 2048 ==> (Used(v1.disk, k) <==> Used(v.disk, k) || k == b)
    requires Populated(v1, v2, fs, NewFS(fs, ino, q, t), {b}, ino, q, t) && Holds(v1, fs, {b}, {}) && ValidRequest(q)
    requires ino in fs'.tree && fs'.tree[ino] == t.a && fs'.data == NewFS(fs, ino, q, t).data
    ensures NewContents(v, v', fs', q, ino, {b})
  {
    hide Holds, Meta, NamesIn, FirstFreeInode, Populated, NewFS, OneBlock, InodeUsed, Counted, Take, Used, Adopting;
    var fs1 := NewFS(fs, ino, q, t);
    PopulatedParts(v1, v2, fs, fs1, {b}, ino, q, t);
    OwnersPart(v1, fs, {b}, {});
    FilesInTree(v1.disk, fs);
    FreeInode(v1, fs, {b}, {}, ino);
    AdoptedMaps(fs, ino, q, t);
    assert b !in t.pos by { FreshBlocks(v1.disk, v2.disk, ino, t.pos, b); }
    FreeFromTaken(v, b, 256 * InodeToBgd(ino));
    if MakesDir(q) {
      NewDirList(v1, v2, v', fs, fs1, fs', {b}, ino, q, t, b, x);
    } else {
      TakenByFile(v1, v2, fs, fs1, {b}, ino, q, t);
    }
  }

  lemma FreshBlocks(d: Disk, d': Disk, ino: nat, pos: map<nat, nat>, b: nat)
    requires Adopting(d, d', ino, pos) && b < 2048 && Used(d, b)
    ensures b !in pos
  {
    hide Used, InodeUsed, Node, OneSlot, Untouched;
  }

  lemma TakenForGrowth(v: Volume, fs: FS, pref: nat, b: nat)
    requires b == FirstFree(v.disk, 256 * pref) && b != 0 && b < 2048 && Holds(v, fs, {}, {})
    ensures Holds(Take(v, b), fs, {b}, {}) && FirstFreeInode(Take(v, b).disk, 1) == FirstFreeInode(v.disk, 1)
    ensures Used(Take(v, b).disk, b)
    ensures forall k :: 0 <= k < 2048 ==> (Used(Take(v, b).disk, k) <==> Used(v.disk, k) || k == b)
  {
    hide Holds, Meta, FirstFreeInode, FirstFree, Take, Used, SameData, SameTables, SameInodeBitmaps, Counted, MetaUsed;
    TakeLooseHolds(v, fs, {}, {}, pref, b);
    assert {} + {b} == {b};
    CountedPart(v, fs, {}, {});
    TakeOneFrame(v, pref, b);
    InodeBitsSame(v.disk, Take(v, b).disk);
    FirstFreeInodeSame(v.disk, Take(v, b).disk, 1);
  }

  lemma GrowingWrote(v: Volume, fs: FS, q: Request, ino: nat, b: nat, v': Volume, v2: Volume, t: Account)
    returns (e: Entry)
    requires ValidRequest(q) && ValidInode(q.parent) && b == FirstFree(v.disk, 256 * InodeToBgd(q.parent)) && b != 0
    requires ino == FirstFreeInode(v.disk, 1) && ino != 0 && ValidInode(ino) && b !in fs.owner && !Meta(b)
    requires v2 == Populate(AllocNode(Take(v, b), ino), ino, q)
    requires OneBlock(v2, v', b, NewEntryBlock(ino, TypeOf(q), q.name))
    requires q.parent in fs.tree && q.parent !in fs.data
    requires Blocks(v.disk, fs.tree[q.parent]) && Passed(Listing(v.disk, fs.tree[q.parent]), q.name)
    requires Inv(v, fs) && Populated(Take(v, b), v2, fs, NewFS(fs, ino, q, t), {b}, ino, q, t)
    requires SameData(v.disk, Take(v, b).disk) && q.parent in NewFS(fs, ino, q, t).tree
    ensures Wrote(v, v', fs, Attached(NewFS(fs, ino, q, t), q.parent, b, ino), q, e, |NamesIn(v, fs, q.parent)|, {b})
    ensures e.ino == ino
  {
    hide Inv, Holds, Meta, NamesIn, FirstFreeInode, FirstFree, InsertedAt, Populated, NewFS, OneBlock, NewContents,
      Populate, AllocNode, Take, NewEntryBlock, Used, SameData, Blocks, Listing, Passed, SameTables, SameInodeBitmaps,
      Counted, MetaUsed, Adopting;
    var k, v1, fs1 := q.parent, Take(v, b), NewFS(fs, ino, q, t);
    var fs', x := Attached(fs1, k, b, ino), NewEntryBlock(ino, TypeOf(q), q.name);
    e := Entry(0, ino, TypeOf(q), q.name);
    InvParts(v, fs);
    TakenForGrowth(v, fs, InodeToBgd(k), b);
    PopulatedParts(v1, v2, fs, fs1, {b}, ino, q, t);
    FilesInTree(v.disk, fs);
    AdoptedMaps(fs, ino, q, t);
    GrowthLists(v, v1, v2, v', fs, fs', ino, t.pos, b, x, k);
    GrowthKeeps(v, v1, v2, v', fs, ino, t.pos, b, x, k);
    assert v'.disk[b] == x by { OneBlockAt(v2, v', b, x); }
    GrowthParentList(v, v', fs, fs', k, b, ino, TypeOf(q), q.name);
    GrownContents(v, v1, v2, v', fs, fs', q, ino, b, x, t);
  }

  lemma OneBlockAt(w: Volume, v': Volume, blk: nat, x: Block)
    requires OneBlock(w, v', blk, x)
    ensures blk < 2048 && v'.disk[blk] == x
  {}

  // ----- the whole operation -----

  lemma ScanFacts(v: Volume, fs: FS, q: Request)
    requires Inv(v, fs) && ValidRequest(q) && q.parent != 0 && IsDirMode(ParentNode(v, q).mode)
    ensures q.parent in fs.tree && q.parent !in fs.data && DirOK(v.disk, ParentNode(v, q)) && ValidInode(q.parent)
    ensures Blocks(v.disk, fs.tree[q.parent]) && |fs.tree[q.parent]| == ParentNode(v, q).blocks <= 12
    ensures forall i :: 0 <= i < |fs.tree[q.parent]| ==> ParentNode(v, q).block[i] == fs.tree[q.parent][i]
    ensures match FindRoom(v.disk, ParentNode(v, q), 0, q.name)
      case Exists => true
      case InHole(bi, at) => bi < |fs.tree[q.parent]| && HoleAt(v.disk, fs, q, bi, fs.tree[q.parent][bi], at)
      case Full => Passed(Listing(v.disk, fs.tree[q.parent]), q.name)
  {
    hide Inv, Node, IsDirMode, Chain, Entries, Reaches, Live, EntriesBefore, NameAt, Listing, Passed, RecordLen,
      SlackLen, FindRoom, DirBlockOK, Dots;
    var n := ParentNode(v, q);
    DirectoryFound(v, fs, q.parent);
    var a := fs.tree[q.parent];
    DirContents(v, fs, q.parent);
    assert a[0..] == a;
    FindRoomPassed(v.disk, n, a, 0, q.name);
    FindRoomSound(v.disk, n, 0, q.name);
    match FindRoom(v.disk, n, 0, q.name)
    case InHole(bi, at) =>
      assert a[0..bi] == a[..bi];
      assert Blocks(v.disk, a[..bi]);
      assert a[bi] == n.block[bi];
    case _ =>
  }

  lemma HoleEffect(v: Volume, fs: FS, q: Request, ino: nat, bi: nat, blk: nat, at: nat)
    returns (fs': FS, e: Entry, i: nat)
    requires HoleAt(v.disk, fs, q, bi, blk, at) && ValidRequest(q) && q.parent != 0
    requires ino == FirstFreeInode(v.disk, 1) && ino != 0 && ValidInode(ino)
    requires (MakesDir(q) ==> RoomForDir(v.disk, ino))
    requires Inv(v, fs)
    ensures Inv(WriteInHole(v, q, blk, at).v, fs')
    ensures Wrote(v, WriteInHole(v, q, blk, at).v, fs, fs', q, e, i, {})
    ensures e.ino == FirstFreeInode(v.disk, 1)
  {
    hide Inv, RoomForDir, FirstFreeInode, Chain, Reaches, Live, NewFS, Wrote, SlackLen, RecordLen, Populated, Blocks,
      Listing, Passed, Named, WriteInHole;
    var t := WriteInHoleHolds(v, fs, q, ino, bi, blk, at);
    fs' := Named(NewFS(fs, ino, q, t), ino, blk, SlackAt(v.disk[blk], at));
    e, i := HoleWrote(v, fs, q, ino, bi, blk, at, t);
  }

  lemma GrowthEffect(v: Volume, fs: FS, q: Request, n: Inode, ino: nat, b: nat) returns (fs': FS, e: Entry, i: nat)
    requires ValidRequest(q) && ValidInode(q.parent) && b == FirstFree(v.disk, 256 * InodeToBgd(q.parent)) && b != 0
    requires ino == FirstFreeInode(v.disk, 1) && ino != 0 && ValidInode(ino)
    requires MakesDir(q) ==> RoomForDir(Take(v, b).disk, ino)
    requires n == Node(v.disk, q.parent) && n.blocks < 12 && TableBlock(ino) != TableBlock(q.parent)
    requires q.parent in fs.tree && q.parent !in fs.data && Blocks(v.disk, fs.tree[q.parent])
    requires Passed(Listing(v.disk, fs.tree[q.parent]), q.name)
    requires Inv(v, fs)
    ensures Inv(WriteGrowing(v, q, n).v, fs')
    ensures Wrote(v, WriteGrowing(v, q, n).v, fs, fs', q, e, i, {b})
    ensures e.ino == FirstFreeInode(v.disk, 1)
  {
    hide Inv, RoomForDir, FirstFree, FirstFreeInode, NewFS, Wrote, Populated, Blocks, Listing, Passed, Node, NamesIn,
      SameData, Attached, Meta, WriteGrowing, OneBlock, Take, Populate, AllocNode;
    var t := WriteGrowingHolds(v, fs, q, n, ino, b);
    fs' := Attached(NewFS(fs, ino, q, t), q.parent, b, ino);
    i := |NamesIn(v, fs, q.parent)|;
    GrowingOneBlock(v, q, n, ino, b);
    e := GrowingWrote(v, fs, q, ino, b, WriteGrowing(v, q, n).v, Populate(AllocNode(Take(v, b), ino), ino, q), t);
  }

  /** A successful `write` adds exactly one name and one inode, and keeps the volume sound. */
  lemma WriteEffect(v: Volume, fs: FS, q: Request) returns (fs': FS, e: Entry, i: nat)
    requires ValidRequest(q) && ParentOK(v, q) && WriteCode(v, q) == 0 && WriteSafe(v, q) && Inv(v, fs)
    ensures Inv(WriteOp(v, q).v, fs')
    ensures Wrote(v, WriteOp(v, q).v, fs, fs', q, e, i, Spent(v, q))
    ensures e.ino == FirstFreeInode(v.disk, 1)
  {
    hide Inv, DirOK, IsDirMode, FindRoom, HoleAt, RoomForDir, FirstFree, FirstFreeInode, Chain, Reaches, Live, Wrote,
         SlackLen, RecordLen, Blocks, Listing, Passed, Node, Take, Populate, AllocNode;
    var n, k := ParentNode(v, q), q.parent;
    ScanFacts(v, fs, q);
    FindRoomSound(v.disk, n, 0, q.name);
    var ino := FirstFreeInode(v.disk, 1);
    match FindRoom(v.disk, n, 0, q.name)
    case InHole(bi, at) =>
      fs', e, i := HoleEffect(v, fs, q, ino, bi, fs.tree[k][bi], at);
    case Full =>
      fs', e, i := GrowthEffect(v, fs, q, n, ino, FirstFree(v.disk, 256 * InodeToBgd(k)));
    case Exists =>
  }

  lemma GrowingOneBlock(v: Volume, q: Request, n: Inode, ino: nat, b: nat)
    requires ValidRequest(q) && ValidInode(q.parent) && n.blocks < 15
    requires b == FirstFree(v.disk, 256 * InodeToBgd(q.parent)) && b != 0 && !Meta(b)
    requires ino == FirstFreeInode(v.disk, 1) && ino != 0
    ensures OneBlock(Populate(AllocNode(Take(v, b), ino), ino, q), WriteGrowing(v, q, n).v, b,
        NewEntryBlock(ino, TypeOf(q), q.name))
  {
    hide Meta, Populate, AllocNode, Take, NewEntryBlock, FirstFree, FirstFreeInode, Sync, PutInode, GrownDir, Synced,
      Counted;
    var w, k := Populate(AllocNode(Take(v, b), ino), ino, q), q.parent;
    var stale := PutInode(v.disk[TableBlock(k)], TableSlot(k), GrownDir(n, b));
    MetadataInRange(k);
    DataAreaStart(b);
    SyncSpec(PutBlock(PutBlock(w, b, NewEntryBlock(ino, TypeOf(q), q.name)), TableBlock(k), stale));
  }
}
