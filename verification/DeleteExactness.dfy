/** The conditions under which `delete` keeps volume and tree sound are necessary. */
module DeleteExactness {
  import opened Bytes
  import opened Layout
  import opened Metadata
  import opened Volume
  import opened FileTree
  import opened Directory
  import opened Operations
  import opened Invariant
  import opened Creation
  import opened Naming
  import opened Writing
  import opened Deletion
  import opened Observing
  import opened WriteEffects
  import opened Effects
  import opened DeleteEffects
  import opened DirCounts
  import opened TreeShape
  import opened Runs
  import opened Exactness

  /** Inode `x` went, block `blk` was edited, nothing else in use changed. */
  ghost predicate Gone(v: Volume, v': Volume, fs: FS, x: nat, blk: nat) {
    && (forall k :: ValidInode(k) ==> (InodeUsed(v'.disk, k) <==> InodeUsed(v.disk, k) && k != x))
    && (forall k :: ValidInode(k) && k != x ==> Node(v'.disk, k) == Node(v.disk, k))
    && (forall m :: 21 <= m < 2048 && !Meta(m) && m != blk ==> v'.disk[m] == v.disk[m])
  }

  /** A directory that is still there is a directory in every fitting file system, with the same blocks. */
  lemma SameDirectory(v: Volume, v': Volume, fs: FS, fs': FS, k: nat)
    requires ValidInode(k) && InodeUsed(v.disk, k) && InodeUsed(v'.disk, k) && Node(v'.disk, k) == Node(v.disk, k)
    requires Holds(v, fs, {}, {}) && Holds(v', fs', {}, {})
    ensures k in fs.tree && k in fs'.tree && (IsDirectory(fs', k) <==> IsDirectory(fs, k))
    ensures IsDirectory(fs, k) ==> fs'.tree[k] == fs.tree[k]
  {
    hide Holds, InodeUsed, Node, Direct;
    MarkedIsThere(v, fs, k);
    MarkedIsThere(v', fs', k);
    KindOf(v, fs, k);
    KindOf(v', fs', k);
    if IsDirectory(fs, k) {
      ParentIsDir(v, fs, k);
      ParentIsDir(v', fs', k);
      DirectSame(Node(v.disk, k), fs.tree[k], fs'.tree[k]);
    }
  }

  lemma KindOf(v: Volume, fs: FS, k: nat)
    requires k in fs.tree && ValidInode(k) && Holds(v, fs, {}, {})
    ensures IsDirectory(fs, k) <==> Node(v.disk, k).mode == EXT2_S_IFDIR
  {
    hide Counted, MetaUsed, InodesOK, OwnersOK, NamesOK, InodeUsed, Node, Lays, DataOn, Chain, Entries;
    assert ContentOK(v.disk, fs, k);
  }

  lemma DirectSame(n: Inode, a: seq<nat>, a': seq<nat>)
    requires Direct(n, a) && Direct(n, a') && |a| == |a'| <= 12
    ensures a' == a
  {
    forall i | 0 <= i < |a| ensures a'[i] == a[i] { assert n.block[i] == At(a, i) && n.block[i] == At(a', i); }
  }

  // ----- a directory whose name stays behind -----

  /** The entry of a directory that is gone dangles; the root cannot go at all. */
  lemma DanglingBreaks(v: Volume, v': Volume, fs: FS, depth: map<nat, nat>, fs': FS, x: nat, k: nat, blk: nat)
    requires Gone(v, v', fs, x, blk) && x in fs.tree && ValidInode(x)
    requires blk in fs.owner && fs.owner[blk].0 == k
    requires x != 1 ==> x in fs.home && fs.home[x].0 in fs.owner && ParentOf(fs, x) != k && ParentOf(fs, x) != x
    requires Inv(v, fs) && TreeOK(v.disk, fs, depth)
    ensures !Inv(v', fs')
  {
    hide Inv, Holds, InodeUsed, Node, Meta, Listed, UpOK, Gone;
    if Inv(v', fs') {
      InvParts(v, fs);
      InvParts(v', fs');
      GoneAt(v, v', fs, x, blk, x);
      if x == 1 {
        RootMarked(v', fs');
        assert false;
      } else {
        assert Placed(v.disk, fs, x);
        var m, p := fs.home[x].0, ParentOf(fs, x);
        HomeBlock(v, fs, x);
        TreeOfSound(v, fs, p);
        GoneAt(v, v', fs, x, blk, p);
        SameDirectory(v, v', fs, fs', p);
        GoneData(v, v', fs, x, blk, m);
        ListedNamed(v', fs', p, fs.owner[m].1, m, fs.home[x].1, x);
        TreeOfSound(v', fs', x);
        assert false;
      }
    }
  }

  lemma GoneAt(v: Volume, v': Volume, fs: FS, x: nat, blk: nat, k: nat)
    requires Gone(v, v', fs, x, blk) && ValidInode(k)
    ensures InodeUsed(v'.disk, k) <==> InodeUsed(v.disk, k) && k != x
    ensures k != x ==> Node(v'.disk, k) == Node(v.disk, k)
  {
    hide InodeUsed, Node, Meta;
  }

  lemma GoneData(v: Volume, v': Volume, fs: FS, x: nat, blk: nat, m: nat)
    requires Gone(v, v', fs, x, blk) && 21 <= m < 2048 && !Meta(m) && m != blk
    ensures v'.disk[m] == v.disk[m]
  {
    hide InodeUsed, Node, Meta;
  }

  lemma RootMarked(v: Volume, fs: FS)
    requires Holds(v, fs, {}, {})
    ensures InodeUsed(v.disk, 1)
  {
    hide Counted, MetaUsed, OwnersOK, ContentsOK, NamesOK, InodeUsed, Node;
  }

  /** What a directory block lists exists, and is at home there. */
  lemma ListedNamed(v: Volume, fs: FS, p: nat, i: nat, m: nat, at: nat, x: nat)
    requires IsDirBlock(fs, p, i, m) && m < 2048 && Listed(v.disk[m], Skip(i), at, x) && Inv(v, fs)
    ensures x in fs.tree && x != 1 && x in fs.home && fs.home[x] == (m, at) && m in fs.owner && fs.owner[m] == (p, i)
  {
    hide Inv, Holds, Chain, Entries;
    var j :| Skip(i) <= j < |Entries(v.disk[m], 0)| && Entries(v.disk[m], 0)[j].at == at &&
      Entries(v.disk[m], 0)[j].ino == x;
    NamedAtHome(v, fs, p, i, j, x);
  }

  /** `deallocate_node` followed by one edit. */
  lemma DeallocGone(v: Volume, fs: FS, x: nat, blk: nat, y: Block)
    requires x in fs.tree && ValidInode(x) && 21 <= blk < 2048 && !Meta(blk) && Holds(v, fs, {}, {})
    ensures Gone(v, Sync(PutBlock(DeallocNode(v, x), blk, y)), fs, x, blk)
  {
    hide Holds, InodeUsed, Node, Used, Meta, DeallocNode, Sync, Counted, MetaUsed, Synced, SameTables, SameInodeBitmaps,
         SameBlockBitmaps, Untouched, OneSlot, PosOf;
    DeallocNodeSpec(v, fs, {}, {}, x);
    var w := DeallocNode(v, x);
    NodesUntouched(w.disk, blk, y);
    InodeBitsUntouched(w.disk, blk, y);
    SyncSpec(PutBlock(w, blk, y));
    NodesSame(PutBlock(w, blk, y).disk, Sync(PutBlock(w, blk, y)).disk);
    InodeBitsSame(PutBlock(w, blk, y).disk, Sync(PutBlock(w, blk, y)).disk);
  }

  // ----- deleting "." or ".." -----

  lemma DotEntry(b: Block, k: nat, at: nat)
    requires Dots(b, k) && (at == 0 || at == 12)
    ensures Chain(b, 0) && Sound(b, at) && EntInode(b, at) == (if at == 0 then k else UpIn(b))
    ensures FileType(b, at) == EXT2_FT_DIR
  {
    hide U16At, U32At, SlackZero, NameAt, Dots;
    DotsHead(b, k);
    SecondLive(b, k);
    ChainHead(b, 0);
    ChainHead(b, 12);
    DotsList(b, k);
  }

  lemma DotsList(b: Block, k: nat)
    requires Dots(b, k)
    ensures Chain(b, 0) && |Entries(b, 0)| >= 2 && Entries(b, 0)[0].ino == k && Entries(b, 0)[0].ftype == EXT2_FT_DIR
    ensures Entries(b, 0)[1].ftype == EXT2_FT_DIR
  {
    hide Chain, Entries;
  }

  /** In a tree a directory is not its own parent, nor its parent's parent. */
  lemma NoLoops(v: Volume, fs: FS, depth: map<nat, nat>, k: nat)
    requires IsDirectory(fs, k) && TreeOK(v.disk, fs, depth)
    ensures k == 1 ==> Up(v.disk, fs, k) == 1
    ensures k != 1 ==> k in fs.home && fs.home[k].0 in fs.owner && ParentOf(fs, k) == Up(v.disk, fs, k) != k
    ensures k != 1 ==> IsDirectory(fs, Up(v.disk, fs, k))
    ensures var p := Up(v.disk, fs, k);
      k != 1 && p != 1 ==> p in fs.home && fs.home[p].0 in fs.owner && ParentOf(fs, p) != p && ParentOf(fs, p) != k
  {
    hide Listed, Up;
    UpPlace(v.disk, fs, depth, k);
    if k != 1 {
      UpPlace(v.disk, fs, depth, Up(v.disk, fs, k));
    }
  }

  lemma UpPlace(d: Disk, fs: FS, depth: map<nat, nat>, k: nat)
    requires IsDirectory(fs, k) && TreeOK(d, fs, depth)
    ensures k in depth && (k == 1 ==> Up(d, fs, k) == 1)
    ensures k != 1 ==> k in fs.home && fs.home[k].0 in fs.owner && ParentOf(fs, k) == Up(d, fs, k)
    ensures k != 1 ==> IsDirectory(fs, Up(d, fs, k))
    ensures k != 1 ==> Up(d, fs, k) in depth && depth[Up(d, fs, k)] < depth[k]
  {
    hide Listed, Up;
    assert UpOK(d, fs, depth, k);
    if k != 1 { assert Placed(d, fs, k); }
  }

  /** Deleting "." frees the directory itself, deleting ".." its parent; either leaves a name behind. */
  lemma DotBreaks(v: Volume, fs: FS, depth: map<nat, nat>, q: Request, at: nat, stack: u32, fs': FS)
    requires IsDirectory(fs, q.parent) && |fs.tree[q.parent]| > 0 && fs.tree[q.parent][0] < 2048
    requires (at == 0 || at == 12)
    requires DirBlockOK(v.disk, fs.tree[q.parent][0]) && Sound(v.disk[fs.tree[q.parent][0]], at)
    requires DeleteCodeAt(v, q, fs.tree[q.parent][0], at, stack) == 0
    requires Inv(v, fs) && TreeOK(v.disk, fs, depth)
    ensures !Inv(DeleteAt(v, q, fs.tree[q.parent][0], at, stack).v, fs')
  {
    hide Inv, Holds, Chain, Remove, Previous, DeallocNode, DirEmpty, Sync, Meta, Gone, Up, TreeOK, Sound, EntInode,
      FileType, UpIn, Dots;
    var k, blk := q.parent, fs.tree[q.parent][0];
    var b, x := v.disk[blk], EntInode(v.disk[blk], at);
    InvParts(v, fs);
    DirBlockFacts(v, fs, {}, {}, k, 0, blk);
    DotEntry(b, k, at);
    NoLoops(v, fs, depth, k);
    assert Up(v.disk, fs, k) == UpIn(b) by { UpIs(v.disk, fs, k); }
    assert x in fs.tree;
    DeallocGone(v, fs, x, blk, Remove(b, at, Previous(b, 0, 512, at)));
    DanglingBreaks(v, DeleteAt(v, q, blk, at, stack).v, fs, depth, fs', x, k, blk);
  }

  lemma UpIs(d: Disk, fs: FS, k: nat)
    requires k in fs.tree && |fs.tree[k]| > 0 && fs.tree[k][0] < 2048
    ensures Up(d, fs, k) == UpIn(d[fs.tree[k][0]])
  {}

  // ----- deleting a directory that still has children -----

  /** What is listed after a removal was listed before. */
  lemma ListedBeforeRemove(b: Block, p: nat, skip: nat, at: nat, c: nat)
    requires Chain(b, 0) && Reaches(b, 0, p) && Live(b, p)
    requires Listed(Remove(b, p, Previous(b, 0, 512, p)), skip, at, c)
    ensures Listed(b, skip, at, c)
  {
    hide Chain, Entries, EntriesBefore, EntriesAfter, EntryAt, Remove, Previous, Reaches, Live;
    RemoveSpec(b, p, Previous(b, 0, 512, p));
    var x, b' := EntriesBefore(b, 0, p), Remove(b, p, Previous(b, 0, 512, p));
    var es, es' := Entries(b, 0), Entries(b', 0);
    var j :| skip <= j < |es'| && es'[j].at == at && es'[j].ino == c;
    if j < |x| { assert es[j] == es'[j]; } else { assert es[j + 1] == es'[j]; }
  }

  lemma ListedBefore(v: Volume, v': Volume, fs: FS, k: nat, bi: nat, blk: nat, at: nat, x: nat, m: nat, skip: nat,
      p: nat, c: nat)
    requires Removing(v, v', fs, k, bi, blk, at, x) && 21 <= m < 2048 && !Meta(m) && Listed(v'.disk[m], skip, p, c)
    ensures Listed(v.disk[m], skip, p, c)
  {
    hide Listed, Meta, Remove, Previous, Chain, Reaches, Live, EntriesBefore, EntryAt;
    if m == blk { ListedBeforeRemove(v.disk[blk], at, skip, p, c); }
  }

  /** Wherever a fitting file system puts inode `c`, it was at home there before. */
  lemma PlacedBefore(v: Volume, fs: FS, v': Volume, k: nat, bi: nat, blk: nat, at: nat, x: nat, c: nat, fs': FS)
    requires Removing(v, v', fs, k, bi, blk, at, x) && Gone(v, v', fs, x, blk) && Placed(v'.disk, fs', c)
    requires Inv(v, fs) && Inv(v', fs')
    ensures c in fs.home && fs.home[c].0 in fs.owner && ParentOf(fs, c) != x
  {
    hide Inv, Holds, InodeUsed, Node, Meta, Listed, Gone, Removing, Placed, Lays, InRange;
    InvParts(v, fs);
    InvParts(v', fs');
    HomeBlock(v', fs', c);
    PlacedListed(v'.disk, fs', c);
    var m, p := fs'.home[c].0, ParentOf(fs', c);
    TreeOfSound(v', fs', p);
    GoneAt(v, v', fs, x, blk, p);
    SameDirectory(v, v', fs, fs', p);
    ListedBefore(v, v', fs, k, bi, blk, at, x, m, Skip(fs'.owner[m].1), fs'.home[c].1, c);
    ListedNamed(v, fs, p, fs'.owner[m].1, m, fs'.home[c].1, c);
  }

  /** The child of a deleted directory is allocated, yet no directory names it. */
  lemma OrphanBreaks(v: Volume, fs: FS, depth: map<nat, nat>, v': Volume, k: nat, bi: nat, blk: nat, at: nat, x: nat,
                     i: nat, j: nat, c: nat, fs': FS, depth': map<nat, nat>)
    requires Removing(v, v', fs, k, bi, blk, at, x) && Gone(v, v', fs, x, blk) && IsDirectory(fs, x)
    requires Names(v.disk, fs, x, i, j, c)
    requires Inv(v, fs) && TreeOK(v.disk, fs, depth)
    ensures !(Inv(v', fs') && TreeOK(v'.disk, fs', depth'))
  {
    hide Inv, Holds, InodeUsed, Node, Meta, Listed, UpOK, Gone, Removing, Names, Entries, Chain, TreeOK, Placed, Lays,
      InRange;
    if Inv(v', fs') && TreeOK(v'.disk, fs', depth') {
      InvParts(v, fs);
      InvParts(v', fs');
      NamedAtHome(v, fs, x, i, j, c);
      ChildDiffers(v, fs, depth, x, i, c);
      TreeOfSound(v, fs, c);
      GoneAt(v, v', fs, x, blk, c);
      MarkedIsThere(v', fs', c);
      PlacedIn(v'.disk, fs', depth', c);
      PlacedBefore(v, fs, v', k, bi, blk, at, x, c, fs');
      assert false;
    }
  }

  lemma ChildDiffers(v: Volume, fs: FS, depth: map<nat, nat>, x: nat, i: nat, c: nat)
    requires IsDirectory(fs, x) && TreeOK(v.disk, fs, depth) && c in fs.home && c != 1
    requires fs.home[c].0 in fs.owner && fs.owner[fs.home[c].0] == (x, i)
    ensures c != x
  {
    hide TreeOK, Up;
    NoLoops(v, fs, depth, x);
  }

  lemma PlacedIn(d: Disk, fs: FS, depth: map<nat, nat>, c: nat)
    requires TreeOK(d, fs, depth) && c in fs.tree && c != 1
    ensures Placed(d, fs, c)
  {
    hide Listed, UpOK;
  }

  lemma PlacedListed(d: Disk, fs: FS, c: nat)
    requires Placed(d, fs, c)
    ensures c in fs.home && fs.home[c].0 in fs.owner && fs.home[c].0 < 2048
    ensures Listed(d[fs.home[c].0], Skip(fs.owner[fs.home[c].0].1), fs.home[c].1, c)
  {
    hide Listed;
  }

  // ----- the whole operation -----

  lemma OrphansBreak(v: Volume, fs: FS, depth: map<nat, nat>, q: Request, stack: u32, fs': FS, depth': map<nat, nat>)
    requires ValidRequest(q) && ParentOK(v, q) && DeleteSafe(v, q) && !LeavesNoOrphans(v, q)
    requires DeleteCode(v, q, stack) == 0
    requires Inv(v, fs) && TreeOK(v.disk, fs, depth)
    ensures !(Inv(DeleteOp(v, q, stack).v, fs') && TreeOK(DeleteOp(v, q, stack).v.disk, fs', depth'))
  {
    hide Inv, Holds, TreeOK, DeleteOp, DeleteSafe, ParentOK, Removing, Target, Node, DirEmpty, Gone, NothingBeyond,
      Names, DeallocNode, Remove, Previous, Sync, Sound, Meta;
    var x := Target(v, q);
    var bi, blk, at := DeleteRemoving(v, fs, q, stack);
    InvParts(v, fs);
    DeallocGone(v, fs, x, blk, Remove(v.disk[blk], at, Previous(v.disk[blk], 0, 512, at)));
    var i, c := ChildBeyond(v, fs, x);
    OrphanBreaks(v, fs, depth, DeleteOp(v, q, stack).v, q.parent, bi, blk, at, x, i, 0, c, fs', depth');
  }

  lemma ChildBeyond(v: Volume, fs: FS, x: nat) returns (i: nat, c: nat)
    requires ValidInode(x) && IsDirectory(fs, x) && !NothingBeyond(v.disk, Node(v.disk, x)) && Inv(v, fs)
    ensures Names(v.disk, fs, x, i, 0, c)
  {
    hide Inv, Node, NoEntries, IsDirMode, Names, Dots, DirOK;
    DirContents(v, fs, x);
    i :| 1 <= i < Node(v.disk, x).blocks && !NoEntries(v.disk, Node(v.disk, x).block[i]);
    c := SomeEntry(v, fs, x, i);
  }

  /** A later block of a directory that is not empty has a first entry. */
  lemma SomeEntry(v: Volume, fs: FS, x: nat, i: nat) returns (c: nat)
    requires IsDirectory(fs, x) && 1 <= i < |fs.tree[x]| && Blocks(v.disk, fs.tree[x])
    requires !NoEntries(v.disk, fs.tree[x][i])
    ensures Names(v.disk, fs, x, i, 0, c)
  {
    hide Chain, Entries;
    c := Entries(v.disk[fs.tree[x][i]], 0)[0].ino;
  }

  lemma DotsBreak(v: Volume, fs: FS, depth: map<nat, nat>, q: Request, stack: u32, fs': FS)
    requires ValidRequest(q) && ParentOK(v, q) && !DeleteSafe(v, q) && DeleteCode(v, q, stack) == 0
    requires Inv(v, fs) && TreeOK(v.disk, fs, depth)
    ensures !Inv(DeleteOp(v, q, stack).v, fs')
  {
    hide Inv, TreeOK, DirOK, IsDirMode, FindEntry, DeleteAt, FoundRecord, DirBlockOK, FirstAt, Node, Blocks, Listing,
      Passed, Reaches, Live, NameAt, Sound, Dots;
    var n, k := ParentNode(v, q), q.parent;
    FindsTarget(v, q, stack);
    DeleteScan(v, fs, q);
    FindEntrySound(v.disk, n, 0, q.name);
    match FindEntry(v.disk, n, 0, q.name)
    case Place(bi, at) =>
      FoundParts(v.disk, fs.tree[k][0], at, q.name);
      DotBreaks(v, fs, depth, q, at, stack, fs');
    case Nowhere =>
  }

  // ----- what is refused -----

  lemma EntryType(fs: FS, blk: nat, e: Entry)
    requires EntryOK(fs, blk, e)
    ensures e.ino in fs.tree && (e.ftype == EXT2_FT_DIR <==> IsDirectory(fs, e.ino))
  {}

  /** Whatever a name leads to, dots included, is allocated. */
  lemma FoundAllocated(v: Volume, fs: FS, depth: map<nat, nat>, k: nat, bi: nat, blk: nat, at: nat)
    requires IsDirBlock(fs, k, bi, blk) && DirBlockOK(v.disk, blk) && Sound(v.disk[blk], at)
    requires Reaches(v.disk[blk], 0, at) && Live(v.disk[blk], at)
    requires Inv(v, fs) && TreeOK(v.disk, fs, depth)
    ensures EntInode(v.disk[blk], at) in fs.tree
    ensures FileType(v.disk[blk], at) == EXT2_FT_DIR <==> IsDirectory(fs, EntInode(v.disk[blk], at))
  {
    hide Inv, Holds, Chain, Reaches, Live, Sound, EntInode, Up, TreeOK, EntriesBefore, Meta, Dots, UpIn, FileType;
    InvParts(v, fs);
    if IsDot(bi, at) {
      DirBlockFacts(v, fs, {}, {}, k, bi, blk);
      DotEntry(v.disk[blk], k, at);
      NoLoops(v, fs, depth, k);
      UpIs(v.disk, fs, k);
    } else {
      FoundEntry(v, fs, k, bi, blk, at);
      EntryFields(v.disk[blk], at);
      EntryType(fs, blk, EntryAt(v.disk[blk], at));
    }
  }

  /** The entries of the first block of directory `k`. */
  function FirstEntries(d: Disk, fs: FS, k: nat): seq<Entry> {
    if k in fs.tree && |fs.tree[k]| > 0 && fs.tree[k][0] < 2048 && Chain(d[fs.tree[k][0]], 0)
      then Entries(d[fs.tree[k][0]], 0)
    else []
  }

  /**
   * The refusals of `delete` in terms of names: no directory, no such name, the other type, or a directory whose first
   * block lists more than the dots; with a first block that lists only the dots, also a nonzero word past it.
   */
  predicate Refused(v: Volume, fs: FS, q: Request, stack: u32) {
    !IsDirectory(fs, q.parent) ||
    match Resolved(v, fs, q.parent, q.name)
    case None => true
    case Some(e) =>
      if q.isDir then e.ftype != EXT2_FT_DIR || |FirstEntries(v.disk, fs, e.ino)| != 2 || stack != 0
      else e.ftype != EXT2_FT_REG_FILE
  }

  lemma RefusedExactly(v: Volume, fs: FS, depth: map<nat, nat>, q: Request, stack: u32)
    requires ValidRequest(q) && ParentOK(v, q) && Inv(v, fs) && TreeOK(v.disk, fs, depth)
    ensures DeleteCode(v, q, stack) != 0 <==> Refused(v, fs, q, stack)
  {
    hide Inv, TreeOK, Node, IsDirMode, NamesIn, FindEntry, FoundRecord, Dots, Blocks, Listing, FirstEntries, Chain,
      DeleteAt, Spells, DirOK, Lookup;
    RootZero(v, fs);
    var k := q.parent;
    if IsDirectory(fs, k) {
      DirContents(v, fs, k);
      DirectoryFound(v, fs, k);
      var n, a := Node(v.disk, k), fs.tree[k];
      NamesInIs(v, fs, k);
      FindEntrySound(v.disk, n, 0, q.name);
      assert a[0..] == a;
      FindEntryIsLookup(v.disk, n, a, 0, q.name);
      match FindEntry(v.disk, n, 0, q.name) {
        case Nowhere =>
        case Place(bi, at) => RefusedAt(v, fs, depth, q, bi, a[bi], at, stack);
      }
    } else if k != 0 {
      NotADirectory(v, fs, k);
    }
  }

  lemma RefusedAt(v: Volume, fs: FS, depth: map<nat, nat>, q: Request, bi: nat, blk: nat, at: nat, stack: u32)
    requires IsDirBlock(fs, q.parent, bi, blk) && DirBlockOK(v.disk, blk) && FoundRecord(v.disk[blk], 0, at, q.name)
    requires Sound(v.disk[blk], at)
    requires Inv(v, fs) && TreeOK(v.disk, fs, depth)
    ensures var e := EntryAt(v.disk[blk], at);
      DeleteCodeAt(v, q, blk, at, stack) != 0 <==>
        if q.isDir then e.ftype != EXT2_FT_DIR || |FirstEntries(v.disk, fs, e.ino)| != 2 || stack != 0
        else e.ftype != EXT2_FT_REG_FILE
  {
    hide Inv, TreeOK, DirEmpty, Chain, Reaches, Live, SlackZero, EntInode, FileType, DeallocNode, Remove, Previous,
      Sync, NameAt, Entries;
    FoundAllocated(v, fs, depth, q.parent, bi, blk, at);
    EntryFields(v.disk[blk], at);
    var ino := EntInode(v.disk[blk], at);
    RootZero(v, fs);
    if IsDirectory(fs, ino) { EmptyDirMeans(v, fs, ino, stack); }
  }

  /**
   * In a sane volume a `delete` leads to a sound volume with a sound tree if and only if it is refused, or the caller's
   * checks pass: the name is not one of the dots, and the later blocks of a directory that goes are empty.
   */
  lemma DeleteSafeExactly(v: Volume, fs: FS, depth: map<nat, nat>, q: Request, stack: u32)
    requires ValidRequest(q) && ParentOK(v, q) && Sane(v, fs, depth)
    ensures Refused(v, fs, q, stack) || (DeleteSafe(v, q) && LeavesNoOrphans(v, q)) <==>
            exists fs', depth' :: Inv(DeleteOp(v, q, stack).v, fs') && TreeOK(DeleteOp(v, q, stack).v.disk, fs', depth')
  {
    hide Inv, TreeOK, DirsCounted, DeleteOp, DeleteSafe, ParentOK, LeavesNoOrphans, Refused;
    var v' := DeleteOp(v, q, stack).v;
    RefusedExactly(v, fs, depth, q, stack);
    if Refused(v, fs, q, stack) {
      RefusedUnchanged(v, q, stack);
      assert Inv(v', fs) && TreeOK(v'.disk, fs, depth);
    } else if DeleteSafe(v, q) && LeavesNoOrphans(v, q) {
      var fs' := DeleteKeepsSane(v, fs, depth, q, stack);
      assert Inv(v', fs') && TreeOK(v'.disk, fs', depth);
    } else {
      forall fs', depth' ensures !(Inv(v', fs') && TreeOK(v'.disk, fs', depth')) {
        if DeleteSafe(v, q) {
          OrphansBreak(v, fs, depth, q, stack, fs', depth');
        } else {
          DotsBreak(v, fs, depth, q, stack, fs');
        }
      }
    }
  }

  lemma RefusedUnchanged(v: Volume, q: Request, stack: u32)
    requires ValidRequest(q) && ParentOK(v, q) && DeleteCode(v, q, stack) != 0
    ensures DeleteOp(v, q, stack).v == v
  {
    hide IsDirMode, Node, FindEntry, FoundRecord, Chain, DeallocNode, Sync, Remove, Previous, DirEmpty, DirOK;
    if q.parent != 0 && IsDirMode(ParentNode(v, q).mode) { FindEntrySound(v.disk, ParentNode(v, q), 0, q.name); }
  }
}
