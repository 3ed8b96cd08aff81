/**
 * The directories form a tree: every inode is named once, ".." names the directory that names it, all paths lead to the
 * root.
 */
module TreeShape {
  import opened Bytes
  import opened Layout
  import opened Metadata
  import opened Volume
  import opened Accounting
  import opened Directory
  import opened Operations
  import opened Invariant
  import opened Creation
  import opened Naming
  import opened Growth
  import opened Writing
  import opened Deletion
  import opened Observing
  import opened WriteEffects
  import opened Effects
  import opened DeleteEffects
  import opened Undo

  // ----- the shape -----

  /** From its `skip`-th entry on, block `b` names inode `ino` at byte `at`. */
  ghost predicate Listed(b: Block, skip: nat, at: nat, ino: nat) {
    Chain(b, 0) && exists j :: skip <= j < |Entries(b, 0)| && Entries(b, 0)[j].at == at && Entries(b, 0)[j].ino == ino
  }

  /** The inode that ".." of a directory's first block names. */
  function UpIn(b: Block): nat {
    if Chain(b, 0) && |Entries(b, 0)| >= 2 then Entries(b, 0)[1].ino else 0
  }

  function Up(d: Disk, fs: FS, k: nat): nat {
    if k in fs.tree && |fs.tree[k]| > 0 && fs.tree[k][0] < 2048 then UpIn(d[fs.tree[k][0]]) else 0
  }

  /** Inode `k` has its one entry in a block of a directory. */
  ghost predicate Placed(d: Disk, fs: FS, k: nat) {
    && k in fs.home && fs.home[k].0 in fs.owner && fs.home[k].0 < 2048
    && IsDirectory(fs, ParentOf(fs, k))
    && Listed(d[fs.home[k].0], Skip(fs.owner[fs.home[k].0].1), fs.home[k].1, k)
  }

  /** The directory whose entry names `k`. */
  function ParentOf(fs: FS, k: nat): nat
    requires k in fs.home && fs.home[k].0 in fs.owner
  {
    fs.owner[fs.home[k].0].0
  }

  ghost predicate UpOK(d: Disk, fs: FS, depth: map<nat, nat>, k: nat) {
    && k in depth
    && if k == 1 then Up(d, fs, 1) == 1
       else k in fs.home && fs.home[k].0 in fs.owner && ParentOf(fs, k) in depth &&
            Up(d, fs, k) == ParentOf(fs, k) && depth[ParentOf(fs, k)] < depth[k]
  }

  ghost predicate TreeOK(d: Disk, fs: FS, depth: map<nat, nat>) {
    && (forall k :: k in fs.tree && k != 1 ==> Placed(d, fs, k))
    && (forall k :: IsDirectory(fs, k) ==> UpOK(d, fs, depth, k))
  }

  // ----- what the shape means -----

  function Climb(d: Disk, fs: FS, k: nat, n: nat): nat
    decreases n
  {
    if n == 0 then k else Climb(d, fs, Up(d, fs, k), n - 1)
  }

  /** Following ".." from any directory reaches the root, through directories only. */
  lemma {:induction false} ReachesRoot(d: Disk, fs: FS, depth: map<nat, nat>, k: nat) returns (n: nat)
    requires TreeOK(d, fs, depth) && IsDirectory(fs, k)
    ensures k in depth && n <= depth[k] && Climb(d, fs, k, n) == 1
    decreases if k in depth then depth[k] else 0
  {
    hide Up, Climb;
    UpStep(d, fs, depth, k);
    if k == 1 {
      n := 0;
      assert Climb(d, fs, 1, 0) == 1 by { ClimbStep(d, fs, 1, 0); }
    } else {
      n := ReachesRoot(d, fs, depth, Up(d, fs, k));
      ClimbStep(d, fs, k, n);
      n := n + 1;
    }
  }

  lemma ClimbStep(d: Disk, fs: FS, k: nat, n: nat)
    ensures Climb(d, fs, k, 0) == k && Climb(d, fs, k, n + 1) == Climb(d, fs, Up(d, fs, k), n)
  {
    hide Up;
  }

  lemma UpStep(d: Disk, fs: FS, depth: map<nat, nat>, k: nat)
    requires TreeOK(d, fs, depth) && IsDirectory(fs, k)
    ensures k in depth
    ensures k != 1 ==> IsDirectory(fs, Up(d, fs, k)) && Up(d, fs, k) in depth && depth[Up(d, fs, k)] < depth[k]
  {
    hide Up, Listed;
    assert UpOK(d, fs, depth, k);
    if k != 1 { assert Placed(d, fs, k); }
  }

  /** Entry `j` of block `i` of directory `p`, the dots excepted, names `k`. */
  ghost predicate Names(d: Disk, fs: FS, p: nat, i: nat, j: nat, k: nat) {
    && IsDirectory(fs, p) && i < |fs.tree[p]| && fs.tree[p][i] < 2048 && Chain(d[fs.tree[p][i]], 0)
    && Skip(i) <= j < |Entries(d[fs.tree[p][i]], 0)| && Entries(d[fs.tree[p][i]], 0)[j].ino == k
  }

  /** An entry that names `k` is the one at the home of `k`. */
  lemma NamedAtHome(v: Volume, fs: FS, p: nat, i: nat, j: nat, k: nat)
    requires Inv(v, fs) && Names(v.disk, fs, p, i, j, k)
    ensures k in fs.tree && k != 1 && k in fs.home
    ensures fs.home[k] == (fs.tree[p][i], Entries(v.disk[fs.tree[p][i]], 0)[j].at)
    ensures fs.tree[p][i] in fs.owner && fs.owner[fs.tree[p][i]] == (p, i)
  {
    hide Holds, Chain, Entries, Synced, EntryOK, Dots;
    InvParts(v, fs);
    DirBlockFacts(v, fs, {}, {}, p, i, fs.tree[p][i]);
    NamedEntry(v.disk[fs.tree[p][i]], fs, fs.tree[p][i], Skip(i), j);
  }

  lemma NamedEntry(b: Block, fs: FS, blk: nat, skip: nat, j: nat)
    requires BlockNamesOK(b, fs, blk, skip, {}) && Chain(b, 0) && skip <= j < |Entries(b, 0)|
    ensures EntryOK(fs, blk, Entries(b, 0)[j])
    ensures var k := Entries(b, 0)[j].ino;
      k in fs.tree && k != 1 && k in fs.home && fs.home[k] == (blk, Entries(b, 0)[j].at)
  {
    hide Chain, Entries;
  }

  /**
   * Each inode but the root is named by exactly one live entry, and for a directory that is in the directory its ".."
   * names.
   */
  lemma NamedOnce(v: Volume, fs: FS, depth: map<nat, nat>, k: nat) returns (p: nat, i: nat, j: nat)
    requires Inv(v, fs) && TreeOK(v.disk, fs, depth) && k in fs.tree && k != 1
    ensures Names(v.disk, fs, p, i, j, k)
    ensures forall p', i', j' :: Names(v.disk, fs, p', i', j', k) ==> p' == p && i' == i && j' == j
    ensures IsDirectory(fs, k) ==> Up(v.disk, fs, k) == p
  {
    hide Inv, Chain, Entries, Up;
    assert Placed(v.disk, fs, k);
    var blk, at := fs.home[k].0, fs.home[k].1;
    p, i := fs.owner[blk].0, fs.owner[blk].1;
    OwnedBlock(v, fs, blk);
    var b := v.disk[blk];
    j :| Skip(i) <= j < |Entries(b, 0)| && Entries(b, 0)[j].at == at && Entries(b, 0)[j].ino == k;
    forall p', i', j' | Names(v.disk, fs, p', i', j', k) ensures p' == p && i' == i && j' == j {
      NamedAtHome(v, fs, p', i', j', k);
      PlacesDiffer(b, 0, j, j');
    }
    if IsDirectory(fs, k) { assert UpOK(v.disk, fs, depth, k); }
  }

  lemma OwnedBlock(v: Volume, fs: FS, blk: nat)
    requires Inv(v, fs) && blk in fs.owner
    ensures fs.owner[blk].0 in fs.tree && fs.owner[blk].1 < |fs.tree[fs.owner[blk].0]|
    ensures fs.tree[fs.owner[blk].0][fs.owner[blk].1] == blk && 21 <= blk < 2048 && !Meta(blk)
  {
    hide Counted, MetaUsed, InodesOK, ContentsOK, NamesOK, Synced, Used, Meta;
    assert OwnedAt(fs, blk);
    DataAreaStart(blk);
  }

  /** Different entries of a block sit at different places. */
  lemma {:induction false} PlacesDiffer(b: Block, o: nat, i: nat, j: nat)
    requires Chain(b, o) && i < |Entries(b, o)| && j < |Entries(b, o)| && Entries(b, o)[i].at == Entries(b, o)[j].at
    ensures i == j
    decreases 512 - o
  {
    hide U16At, U32At, SlackZero, NameAt, RecordLen;
    if o < 512 {
      var next := o + RecLen(b, o);
      AfterPlaces(b, next);
      if Live(b, o) {
        if i > 0 && j > 0 { PlacesDiffer(b, next, i - 1, j - 1); }
      } else {
        assert Entries(b, o) == Entries(b, next);
        PlacesDiffer(b, next, i, j);
      }
    }
  }

  // ----- one block edited -----

  lemma ListedAfterInsert(b: Block, p: nat, ino: u32, ftype: byte, name: Name, skip: nat)
    requires Chain(b, 0) && Reaches(b, 0, p) && Live(b, p) && RecordLen(|name|) <= SlackLen(b, p) && ino != 0
    requires skip <= |EntriesBefore(b, 0, p)| + 1
    ensures var b' := Insert(b, p, ino, ftype, name);
      && Listed(b', skip, SlackAt(b, p), ino)
      && forall at, k :: Listed(b, skip, at, k) ==> Listed(b', skip, at, k)
  {
    hide Chain, Entries, EntriesBefore, EntriesAfter, EntryAt, Insert, Reaches, Live, SlackLen, SlackAt, RecordLen;
    InsertSpec(b, p, ino, ftype, name);
    var x := EntriesBefore(b, 0, p);
    var es, es' := Entries(b, 0), Entries(Insert(b, p, ino, ftype, name), 0);
    assert es'[|x| + 1].at == SlackAt(b, p) && es'[|x| + 1].ino == ino;
    forall at, k | Listed(b, skip, at, k) ensures Listed(Insert(b, p, ino, ftype, name), skip, at, k) {
      var j :| skip <= j < |es| && es[j].at == at && es[j].ino == k;
      if j <= |x| { assert es'[j] == es[j]; } else { assert es'[j + 1] == es[j]; }
    }
  }

  lemma UpAfterInsert(b: Block, p: nat, ino: u32, ftype: byte, name: Name)
    requires Chain(b, 0) && Reaches(b, 0, p) && Live(b, p) && RecordLen(|name|) <= SlackLen(b, p) && ino != 0
    requires |EntriesBefore(b, 0, p)| >= 1
    ensures UpIn(Insert(b, p, ino, ftype, name)) == UpIn(b)
  {
    hide Chain, Entries, EntriesBefore, EntriesAfter, EntryAt, Insert, Reaches, Live, SlackLen, SlackAt, RecordLen;
    InsertSpec(b, p, ino, ftype, name);
    assert Entries(Insert(b, p, ino, ftype, name), 0)[1] == Entries(b, 0)[1];
  }

  lemma ListedAfterRemove(b: Block, p: nat, skip: nat)
    requires Chain(b, 0) && Reaches(b, 0, p) && Live(b, p) && skip <= |EntriesBefore(b, 0, p)|
    ensures forall at, k :: Listed(b, skip, at, k) && at != p ==>
        Listed(Remove(b, p, Previous(b, 0, 512, p)), skip, at, k)
    ensures Listed(b, skip, p, EntryAt(b, p).ino)
  {
    hide Chain, Entries, EntriesBefore, EntriesAfter, Remove, Previous, Reaches, Live, NameAt;
    RemoveSpec(b, p, Previous(b, 0, 512, p));
    var x, b' := EntriesBefore(b, 0, p), Remove(b, p, Previous(b, 0, 512, p));
    var es, es' := Entries(b, 0), Entries(b', 0);
    assert es[|x|] == EntryAt(b, p);
    forall at, k | Listed(b, skip, at, k) && at != p ensures Listed(b', skip, at, k) {
      var j :| skip <= j < |es| && es[j].at == at && es[j].ino == k;
      if j < |x| { assert es'[j] == es[j]; } else { assert es'[j - 1] == es[j]; }
    }
  }

  lemma UpAfterRemove(b: Block, p: nat)
    requires Chain(b, 0) && Reaches(b, 0, p) && Live(b, p) && |EntriesBefore(b, 0, p)| >= 2
    ensures UpIn(Remove(b, p, Previous(b, 0, 512, p))) == UpIn(b)
  {
    hide Chain, Entries, EntriesBefore, EntriesAfter, EntryAt, Remove, Previous, Reaches, Live;
    RemoveSpec(b, p, Previous(b, 0, 512, p));
    assert Entries(Remove(b, p, Previous(b, 0, 512, p)), 0)[1] == Entries(b, 0)[1];
  }

  lemma ListedOnce(b: Block, skip: nat, at: nat, k: nat, l: nat)
    requires Listed(b, skip, at, k) && Listed(b, skip, at, l)
    ensures k == l
  {
    hide Chain, Entries;
    var i :| skip <= i < |Entries(b, 0)| && Entries(b, 0)[i].at == at && Entries(b, 0)[i].ino == k;
    var j :| skip <= j < |Entries(b, 0)| && Entries(b, 0)[j].at == at && Entries(b, 0)[j].ino == l;
    PlacesDiffer(b, 0, i, j);
  }

  // ----- the tree after a step -----

  /** What a step leaves of the old tree: inodes in both states keep their place, and directories their "..". */
  ghost predicate Carried(d: Disk, d': Disk, fs: FS, fs': FS) {
    && (forall k :: k in fs.tree && k in fs'.tree && k != 1 && Placed(d, fs, k) ==> CarriedAt(d, d', fs, fs', k))
    && (forall k :: k in fs.tree && k in fs'.tree ==> (IsDirectory(fs', k) <==> IsDirectory(fs, k)))
    && (forall k :: IsDirectory(fs, k) && k in fs'.tree ==> Up(d', fs', k) == Up(d, fs, k))
  }

  ghost predicate CarriedAt(d: Disk, d': Disk, fs: FS, fs': FS, k: nat)
    requires Placed(d, fs, k)
  {
    && k in fs'.home && fs'.home[k] == fs.home[k] && fs.home[k].0 in fs'.owner
    && fs'.owner[fs.home[k].0] == fs.owner[fs.home[k].0] && ParentOf(fs, k) in fs'.tree
    && Listed(d'[fs.home[k].0], Skip(fs.owner[fs.home[k].0].1), fs.home[k].1, k)
  }

  /** A new inode below directory `p`. */
  ghost predicate Sprouted(d': Disk, fs: FS, fs': FS, ino: nat, p: nat) {
    && ino !in fs.tree && ino != 1 && IsDirectory(fs, p) && p in fs'.tree
    && (forall k :: k in fs'.tree <==> k in fs.tree || k == ino)
    && Placed(d', fs', ino) && ParentOf(fs', ino) == p && (IsDirectory(fs', ino) ==> Up(d', fs', ino) == p)
  }

  lemma CarriedPlaced(d: Disk, d': Disk, fs: FS, fs': FS, k: nat)
    requires Carried(d, d', fs, fs') && k in fs.tree && k in fs'.tree && k != 1 && Placed(d, fs, k)
    ensures Placed(d', fs', k) && ParentOf(fs', k) == ParentOf(fs, k)
  {
    hide Listed, Up;
    assert CarriedAt(d, d', fs, fs', k);
  }

  lemma SproutedTree(d: Disk, d': Disk, fs: FS, fs': FS, depth: map<nat, nat>, ino: nat, p: nat)
    requires TreeOK(d, fs, depth) && Carried(d, d', fs, fs') && Sprouted(d', fs, fs', ino, p) && p in depth
    ensures TreeOK(d', fs', depth[ino := depth[p] + 1])
  {
    hide Listed, Up, CarriedAt, Placed;
    var depth' := depth[ino := depth[p] + 1];
    forall k | k in fs'.tree && k != 1 ensures Placed(d', fs', k) {
      if k != ino { CarriedPlaced(d, d', fs, fs', k); }
    }
    forall k | IsDirectory(fs', k) ensures UpOK(d', fs', depth', k) {
      if k != ino {
        assert UpOK(d, fs, depth, k);
        if k != 1 { CarriedPlaced(d, d', fs, fs', k); PlacedHome(d', fs', k); NotNew(d, fs, ino, k); }
      } else {
        PlacedHome(d', fs', ino);
      }
    }
  }

  lemma PlacedHome(d: Disk, fs: FS, k: nat)
    requires Placed(d, fs, k)
    ensures k in fs.home && fs.home[k].0 in fs.owner && IsDirectory(fs, ParentOf(fs, k))
  {
    hide Listed;
  }

  lemma NotNew(d: Disk, fs: FS, ino: nat, k: nat)
    requires Placed(d, fs, k) && ino !in fs.tree
    ensures k in fs.home && fs.home[k].0 in fs.owner && ParentOf(fs, k) != ino
  {
    hide Listed;
  }

  lemma PrunedTree(d: Disk, d': Disk, fs: FS, fs': FS, depth: map<nat, nat>)
    requires TreeOK(d, fs, depth) && Carried(d, d', fs, fs') && forall k :: k in fs'.tree ==> k in fs.tree
    ensures TreeOK(d', fs', depth)
  {
    hide Listed, Up, CarriedAt, Placed;
    forall k | k in fs'.tree && k != 1 ensures Placed(d', fs', k) { CarriedPlaced(d, d', fs, fs', k); }
    forall k | IsDirectory(fs', k) ensures UpOK(d', fs', depth, k) {
      assert UpOK(d, fs, depth, k);
      if k != 1 { CarriedPlaced(d, d', fs, fs', k); PlacedHome(d', fs', k); }
    }
  }

  // ----- `write` keeps the shape -----

  lemma HomeBlock(v: Volume, fs: FS, k: nat)
    requires Inv(v, fs) && Placed(v.disk, fs, k)
    ensures fs.home[k].0 in fs.owner && 21 <= fs.home[k].0 < 2048 && !Meta(fs.home[k].0)
    ensures IsDirBlock(fs, ParentOf(fs, k), fs.owner[fs.home[k].0].1, fs.home[k].0)
  {
    hide Inv, Listed, Meta;
    OwnedBlock(v, fs, fs.home[k].0);
  }

  /** Of the blocks owned before, only `blk` may have changed. */
  ghost predicate Elsewhere(d: Disk, d': Disk, fs: FS, blk: nat) {
    forall m :: m in fs.owner && m != blk ==> m < 2048 && d'[m] == d[m]
  }

  /** Owners, and the trees of old inodes up to growth at the end, are as they were. */
  ghost predicate MapsKept(fs: FS, fs': FS) {
    && (forall m :: m in fs.owner ==> m in fs'.owner && fs'.owner[m] == fs.owner[m])
    && (forall k :: k in fs.tree ==> k in fs'.tree && fs.tree[k] <= fs'.tree[k] && (k in fs'.data <==> k in fs.data))
    && (forall k :: k in fs.home && k in fs.tree ==> k in fs'.home && fs'.home[k] == fs.home[k])
  }

  /** If block `blk` keeps what it lists and names by "..", everything is carried over. */
  lemma AllCarried(v: Volume, d': Disk, fs: FS, fs': FS, blk: nat)
    requires Elsewhere(v.disk, d', fs, blk) && MapsKept(fs, fs')
    requires blk < 2048
    requires forall at, k :: blk in fs.owner && Listed(v.disk[blk], Skip(fs.owner[blk].1), at, k) ==>
      Listed(d'[blk], Skip(fs.owner[blk].1), at, k)
    requires blk in fs.owner && fs.owner[blk].1 == 0 ==> UpIn(d'[blk]) == UpIn(v.disk[blk])
    requires Inv(v, fs)
    ensures Carried(v.disk, d', fs, fs')
  {
    hide Inv, Listed, UpIn, Meta;
    forall k | k in fs.tree && k in fs'.tree && k != 1 && Placed(v.disk, fs, k)
      ensures CarriedAt(v.disk, d', fs, fs', k)
    {
      HomeBlock(v, fs, k);
    }
    forall k | IsDirectory(fs, k) && k in fs'.tree ensures Up(d', fs', k) == Up(v.disk, fs, k) {
      FirstOwned(v, fs, k);
    }
  }

  lemma FirstOwned(v: Volume, fs: FS, k: nat)
    requires Inv(v, fs) && IsDirectory(fs, k)
    ensures |fs.tree[k]| > 0 && fs.tree[k][0] < 2048 && fs.tree[k][0] in fs.owner && fs.owner[fs.tree[k][0]] == (k, 0)
  {
    hide Holds, Synced, Dots;
    DirContents(v, fs, k);
    InvParts(v, fs);
    DirBlockFacts(v, fs, {}, {}, k, 0, fs.tree[k][0]);
  }

  lemma OwnedIsData(v: Volume, fs: FS, m: nat)
    requires Inv(v, fs) && m in fs.owner
    ensures 21 <= m < 2048 && !Meta(m) && Used(v.disk, m)
  {
    hide Counted, MetaUsed, InodesOK, ContentsOK, NamesOK, Synced, Used, Meta;
    DataAreaStart(m);
  }

  lemma AdoptedElsewhere(v: Volume, d2: Disk, d': Disk, fs: FS, ino: nat, pos: map<nat, nat>, blk: nat)
    requires Adopting(v.disk, d2, ino, pos) && Inv(v, fs)
    requires forall m :: 21 <= m < 2048 && !Meta(m) && m != blk ==> d'[m] == d2[m]
    ensures Elsewhere(v.disk, d', fs, blk)
  {
    hide Inv, Meta, Adopting, Used;
    forall m | m in fs.owner ensures m < 2048 && (m != blk ==> d'[m] == v.disk[m]) {
      OwnedIsData(v, fs, m);
      FreshBlocks(v.disk, d2, ino, pos, m);
      UnadoptedBlock(v.disk, d2, ino, pos, m);
    }
  }

  lemma AdoptedMapsKept(v: Volume, d2: Disk, fs: FS, ino: nat, q: Request, t: Account)
    requires Adopting(v.disk, d2, ino, t.pos) && Inv(v, fs) && ino !in fs.tree
    ensures MapsKept(fs, NewFS(fs, ino, q, t))
  {
    hide Inv, Holds, Adopting, NewFS;
    InvParts(v, fs);
    FilesInTree(v.disk, fs);
    AdoptedMaps(fs, ino, q, t);
    AdoptedHomes(fs, ino, q, t);
    forall m | m in fs.owner ensures m in NewFS(fs, ino, q, t).owner && NewFS(fs, ino, q, t).owner[m] == fs.owner[m] {
      OwnersKept(v, d2, fs, ino, q, t, m);
    }
  }

  lemma NamedMapsKept(fs: FS, fs1: FS, ino: nat, blk: nat, at: nat)
    requires MapsKept(fs, fs1) && ino !in fs.tree
    ensures MapsKept(fs, Named(fs1, ino, blk, at))
  {}

  lemma StepElsewhere(s: HoleCase, v1: Volume, fs1: FS)
    requires Done(s, v1, fs1)
    ensures Elsewhere(s.v.disk, v1.disk, s.fs, s.blk) && MapsKept(s.fs, fs1)
  {
    hide Inv, Meta, HoleStep, NewFS, Written, Sound, RecordLen, SlackLen, SlackAt, DirBlockOK, FirstFreeInode,
      Populate, AllocNode, Populated, Adopting, Edited, Insert, Elsewhere, MapsKept, Named;
    StepParts(s);
    WrittenDisk(s, v1);
    PopulatedParts(s.v, s.mid, s.fs, NewFS(s.fs, s.ino, s.q, s.t), {}, s.ino, s.q, s.t);
    EditedParts(s.mid.disk, v1.disk, s.blk);
    AdoptedElsewhere(s.v, s.mid.disk, v1.disk, s.fs, s.ino, s.t.pos, s.blk);
    AdoptedMapsKept(s.v, s.mid.disk, s.fs, s.ino, s.q, s.t);
    NamedMapsKept(s.fs, NewFS(s.fs, s.ino, s.q, s.t), s.ino, s.blk, SlackAt(s.v.disk[s.blk], s.at));
  }

  lemma AdoptedHomes(fs: FS, ino: nat, q: Request, t: Account)
    ensures NewFS(fs, ino, q, t).home == fs.home
  {}

  lemma UnadoptedBlock(d: Disk, d': Disk, ino: nat, pos: map<nat, nat>, m: nat)
    requires Adopting(d, d', ino, pos) && m !in pos && 21 <= m < 2048 && !Meta(m)
    ensures d'[m] == d[m]
  {
    hide Used, InodeUsed, Node, OneSlot, Untouched, Meta;
  }

  lemma HoleCarried(s: HoleCase, v1: Volume, fs1: FS)
    requires Done(s, v1, fs1)
    ensures Carried(s.v.disk, v1.disk, s.fs, fs1)
  {
    hide Inv, Listed, Meta, HoleStep, NewFS, Written, Sound, RecordLen, SlackLen, SlackAt, DirBlockOK,
      FirstFreeInode, Populate, AllocNode, Insert, UpIn, Carried, Edited, Adopting, Elsewhere, MapsKept;
    StepParts(s);
    StepElsewhere(s, v1, fs1);
    WrittenDisk(s, v1);
    HoleListed(s);
    InvParts(s.v, s.fs);
    DirBlockFacts(s.v, s.fs, {}, {}, s.q.parent, s.bi, s.blk);
    AllCarried(s.v, v1.disk, s.fs, fs1, s.blk);
  }

  lemma EditedParts(d: Disk, d': Disk, blk: nat)
    requires Edited(d, d', blk)
    ensures forall m :: 21 <= m < 2048 && !Meta(m) && m != blk ==> d'[m] == d[m]
  {
    hide Meta;
  }

  /** Owners of old blocks stay when an inode is adopted. */
  lemma OwnersKept(v: Volume, d2: Disk, fs: FS, ino: nat, q: Request, t: Account, blk: nat)
    requires Adopting(v.disk, d2, ino, t.pos) && blk in fs.owner && OwnersOK(v.disk, fs, {})
    ensures blk in NewFS(fs, ino, q, t).owner && NewFS(fs, ino, q, t).owner[blk] == fs.owner[blk]
  {
    hide Used, InodeUsed, Node, OneSlot, Untouched, Meta;
  }

  /** The edited block still lists what it did, and the new inode. */
  lemma HoleListed(s: HoleCase)
    requires HoleStep(s)
    ensures ValidInode(s.ino) && ValidRequest(s.q) && s.blk < 2048 && Sound(s.v.disk[s.blk], s.at)
    ensures RecordLen(|s.q.name|) <= SlackLen(s.v.disk[s.blk], s.at)
    ensures Listed(NewBlock(s), Skip(s.bi), SlackAt(s.v.disk[s.blk], s.at), s.ino)
    ensures forall at, k :: Listed(s.v.disk[s.blk], Skip(s.bi), at, k) ==> Listed(NewBlock(s), Skip(s.bi), at, k)
    ensures s.bi == 0 ==> UpIn(NewBlock(s)) == UpIn(s.v.disk[s.blk])
  {
    hide Inv, Listed, Populated, Chain, Reaches, Live, EntriesBefore, Listing, Passed, NameAt, RecordLen, SlackLen,
      Populate, AllocNode, NewFS, FirstFreeInode, Blocks, Insert, UpIn, Dots, Entries, Meta;
    StepParts(s);
    StepHole(s);
    InvParts(s.v, s.fs);
    DirBlockFacts(s.v, s.fs, {}, {}, s.q.parent, s.bi, s.blk);
    var b := s.v.disk[s.blk];
    RoomFacts(s);
    if s.bi == 0 {
      DotsFirst(b, s.q.parent, s.at);
      UpAfterInsert(b, s.at, s.ino, TypeOf(s.q), s.q.name);
    }
    ListedAfterInsert(b, s.at, s.ino, TypeOf(s.q), s.q.name, Skip(s.bi));
  }

  lemma RoomFacts(s: HoleCase)
    requires HoleStep(s)
    ensures s.blk < 2048 && Sound(s.v.disk[s.blk], s.at)
    ensures 12 <= RecordLen(|s.q.name|) <= SlackLen(s.v.disk[s.blk], s.at)
  {
    hide Inv, Populated, Chain, Reaches, Live, EntriesBefore, Listing, Passed, NameAt, SlackLen, Populate, AllocNode,
         NewFS, FirstFreeInode, Blocks, Entries;
  }

  lemma UpOfNewDir(self: u32, parent: u32)
    requires self != 0 && parent != 0
    ensures UpIn(NewDirBlock(self, parent)) == parent
  {
    hide Entries, Chain, NewDirBlock;
    NewDirBlockSpec(self, parent);
  }

  /** What the maps say of a new inode named at `at` of block `blk`, block `bi` of directory `p`. */
  ghost predicate Entered(fs: FS, fs': FS, ino: nat, p: nat, bi: nat, blk: nat, at: nat) {
    && ino !in fs.tree && ino != 1 && IsDirectory(fs, p) && p in fs'.tree && p !in fs'.data
    && (forall k :: k in fs'.tree <==> k in fs.tree || k == ino)
    && ino in fs'.home && fs'.home[ino] == (blk, at) && blk in fs'.owner && fs'.owner[blk] == (p, bi) && blk < 2048
  }

  lemma SproutFrom(d': Disk, fs: FS, fs': FS, ino: nat, p: nat, bi: nat, blk: nat, at: nat)
    requires Entered(fs, fs', ino, p, bi, blk, at) && Listed(d'[blk], Skip(bi), at, ino)
    requires IsDirectory(fs', ino) ==> Up(d', fs', ino) == p
    ensures Sprouted(d', fs, fs', ino, p)
  {
    hide Listed, Up;
  }

  lemma NamedEntered(fs: FS, fs2: FS, ino: nat, p: nat, bi: nat, blk: nat, at: nat)
    requires ino !in fs.tree && ino != 1 && IsDirectory(fs, p) && p in fs2.tree && p !in fs2.data && blk < 2048
    requires fs2.tree.Keys == fs.tree.Keys + {ino} && blk in fs2.owner && fs2.owner[blk] == (p, bi)
    ensures Entered(fs, Named(fs2, ino, blk, at), ino, p, bi, blk, at)
    ensures Named(fs2, ino, blk, at).tree == fs2.tree && Named(fs2, ino, blk, at).data == fs2.data
  {}

  lemma HoleEntered(s: HoleCase, v1: Volume, fs1: FS)
    requires Done(s, v1, fs1)
    ensures s.blk < 2048 && Sound(s.v.disk[s.blk], s.at)
    ensures Entered(s.fs, fs1, s.ino, s.q.parent, s.bi, s.blk, SlackAt(s.v.disk[s.blk], s.at))
    ensures fs1.tree[s.ino] == s.t.a && (s.ino in fs1.data <==> !MakesDir(s.q)) && s.blk !in s.t.pos
  {
    hide Inv, Meta, HoleStep, Done, Written, Sound, RecordLen, SlackLen, SlackAt, DirBlockOK, FirstFreeInode,
      Populate, Holds, AllocNode, Insert, Edited, Adopting, Populated, NewDirBlock, Entries, Chain, NewFS, Entered,
      Named, Dots, BlockNamesOK;
    DoneShape(s, v1, fs1);
    StepParts(s);
    InvParts(s.v, s.fs);
    DirBlockFacts(s.v, s.fs, {}, {}, s.q.parent, s.bi, s.blk);
    PopulatedParts(s.v, s.mid, s.fs, NewFS(s.fs, s.ino, s.q, s.t), {}, s.ino, s.q, s.t);
    RootIsThere(s.v, s.fs, {}, s.ino);
    FilesInTree(s.v.disk, s.fs);
    AdoptedMaps(s.fs, s.ino, s.q, s.t);
    OwnersKept(s.v, s.mid.disk, s.fs, s.ino, s.q, s.t, s.blk);
    BlockSurvives(s.v.disk, s.mid.disk, s.fs, {}, s.ino, s.t.pos, s.q.parent, s.bi, s.blk);
    NamedEntered(s.fs, NewFS(s.fs, s.ino, s.q, s.t), s.ino, s.q.parent, s.bi, s.blk, SlackAt(s.v.disk[s.blk], s.at));
  }

  lemma DoneShape(s: HoleCase, v1: Volume, fs1: FS)
    requires Done(s, v1, fs1)
    ensures s.blk < 2048 && Sound(s.v.disk[s.blk], s.at) && HoleStep(s) && Inv(v1, fs1)
    ensures fs1 == Named(NewFS(s.fs, s.ino, s.q, s.t), s.ino, s.blk, SlackAt(s.v.disk[s.blk], s.at))
  {
    hide Inv, HoleStep, Written, RecordLen, SlackLen, SlackAt, DirBlockOK, NewFS, Named, Sound;
  }

  lemma HoleSprouted(s: HoleCase, v1: Volume, fs1: FS)
    requires Done(s, v1, fs1)
    ensures Sprouted(v1.disk, s.fs, fs1, s.ino, s.q.parent)
    ensures IsDirectory(fs1, s.ino) <==> MakesDir(s.q)
  {
    hide Inv, Listed, Meta, HoleStep, Written, Sound, RecordLen, SlackLen, SlackAt, DirBlockOK, FirstFreeInode,
      Populate, AllocNode, Insert, UpIn, Edited, Adopting, Populated, NewDirBlock, NewFS, Sprouted;
    StepParts(s);
    WrittenDisk(s, v1);
    HoleListed(s);
    HoleEntered(s, v1, fs1);
    if MakesDir(s.q) {
      NewDirThere(s, v1);
      UpOfNewDir(s.ino, s.q.parent);
    }
    SproutFrom(v1.disk, s.fs, fs1, s.ino, s.q.parent, s.bi, s.blk, SlackAt(s.v.disk[s.blk], s.at));
  }

  // ----- growing a directory keeps the shape -----

  /** The growth case, with all its parts named. */
  datatype Growing = Growing(v: Volume, fs: FS, q: Request, ino: nat, b: nat, t: Account, mid: Volume,
    v': Volume)

  ghost predicate GrowthStep(g: Growing) {
    && ValidRequest(g.q) && ValidInode(g.q.parent) && ValidInode(g.ino) && g.b < 2048
    && g.b == FirstFree(g.v.disk, 256 * InodeToBgd(g.q.parent)) && g.b != 0 && g.b !in g.fs.owner && !Meta(g.b)
    && IsDirectory(g.fs, g.q.parent)
    && OneBlock(g.mid, g.v', g.b, NewEntryBlock(g.ino, TypeOf(g.q), g.q.name))
    && Populated(Take(g.v, g.b), g.mid, g.fs, NewFS(g.fs, g.ino, g.q, g.t), {g.b}, g.ino, g.q, g.t)
    && Inv(g.v, g.fs)
  }

  function GrownFS(g: Growing): FS
  {
    var fs1 := NewFS(g.fs, g.ino, g.q, g.t);
    if g.q.parent in fs1.tree then Attached(fs1, g.q.parent, g.b, g.ino) else fs1
  }

  lemma GrowthParts(g: Growing)
    requires GrowthStep(g)
    ensures ValidRequest(g.q) && ValidInode(g.ino) && g.b < 2048 && 21 <= g.b && !Meta(g.b) && g.b !in g.fs.owner
    ensures g.ino !in g.fs.tree
    ensures Adopting(Take(g.v, g.b).disk, g.mid.disk, g.ino, g.t.pos) && SameData(g.v.disk, Take(g.v, g.b).disk)
    ensures forall m :: 0 <= m < 2048 && Used(g.v.disk, m) ==> Used(Take(g.v, g.b).disk, m)
    ensures Used(Take(g.v, g.b).disk, g.b) && Inv(g.v, g.fs)
    ensures OneBlock(g.mid, g.v', g.b, NewEntryBlock(g.ino, TypeOf(g.q), g.q.name))
  {
    hide Inv, Meta, Populate, AllocNode, NewFS, Populated, Adopting, Take, Used, OneBlock, NewEntryBlock, FirstFree,
      Holds, Counted, MetaUsed, SameData, SameTables, SameInodeBitmaps;
    InvParts(g.v, g.fs);
    CountedPart(g.v, g.fs, {}, {});
    TakeOneFrame(g.v, InodeToBgd(g.q.parent), g.b);
    DataAreaStart(g.b);
    PopulatedParts(Take(g.v, g.b), g.mid, g.fs, NewFS(g.fs, g.ino, g.q, g.t), {g.b}, g.ino, g.q, g.t);
  }

  lemma GrowthElsewhere(g: Growing)
    requires GrowthStep(g)
    ensures Elsewhere(g.v.disk, g.v'.disk, g.fs, g.b)
  {
    hide Inv, Meta, Adopting, Used, Populate, AllocNode, NewFS, Take, NewEntryBlock, GrowthStep, SameData;
    GrowthParts(g);
    var d1, d2 := Take(g.v, g.b).disk, g.mid.disk;
    forall m | m in g.fs.owner ensures m < 2048 && (m != g.b ==> g.v'.disk[m] == g.v.disk[m]) {
      OwnedIsData(g.v, g.fs, m);
      FreshBlocks(d1, d2, g.ino, g.t.pos, m);
      UnadoptedBlock(d1, d2, g.ino, g.t.pos, m);
      SameDataAt(g.v.disk, d1, m);
    }
  }

  lemma SameDataAt(d: Disk, d': Disk, m: nat)
    requires SameData(d, d') && 21 <= m < 2048 && !Meta(m)
    ensures d'[m] == d[m]
  {
    hide Meta;
  }

  lemma AttachedEntered(fs: FS, fs2: FS, ino: nat, p: nat, b: nat)
    requires MapsKept(fs, fs2) && ino !in fs.tree && ino != 1 && IsDirectory(fs, p) && p in fs2.tree
    requires fs2.tree[p] == fs.tree[p]
    requires fs2.tree.Keys == fs.tree.Keys + {ino} && b < 2048 && b !in fs.owner
    ensures Entered(fs, Attached(fs2, p, b, ino), ino, p, |fs.tree[p]|, b, 0) && MapsKept(fs, Attached(fs2, p, b, ino))
  {}

  lemma GrowthMaps(g: Growing)
    requires GrowthStep(g)
    ensures MapsKept(g.fs, GrownFS(g)) && g.q.parent in g.fs.tree
    ensures Entered(g.fs, GrownFS(g), g.ino, g.q.parent, |g.fs.tree[g.q.parent]|, g.b, 0)
    ensures g.ino in GrownFS(g).tree && GrownFS(g).tree[g.ino] == g.t.a
    ensures (g.ino in GrownFS(g).data <==> !MakesDir(g.q))
  {
    hide Inv, Holds, Meta, Adopting, Used, Populate, AllocNode, NewFS, Take, NewEntryBlock, SameData, OneBlock,
      FirstFree, Populated, MapsKept, Entered, GrowthStep, Attached;
    GrowthParts(g);
    GrowthRest(g);
    InvParts(g.v, g.fs);
    RootIsThere(g.v, g.fs, {}, g.ino);
    FilesInTree(g.v.disk, g.fs);
    HomesInTree(g.v.disk, g.fs);
    var fs2 := NewFS(g.fs, g.ino, g.q, g.t);
    AdoptedMaps(g.fs, g.ino, g.q, g.t);
    GrowthMapsKept(g);
    AttachedEntered(g.fs, fs2, g.ino, g.q.parent, g.b);
    AttachedFields(fs2, g.q.parent, g.b, g.ino);
  }

  lemma AttachedFields(fs: FS, k: nat, b: nat, ino: nat)
    requires k in fs.tree
    ensures Attached(fs, k, b, ino).data == fs.data
    ensures forall j :: j in fs.tree && j != k ==>
        j in Attached(fs, k, b, ino).tree && Attached(fs, k, b, ino).tree[j] == fs.tree[j]
  {}

  lemma GrowthRest(g: Growing)
    requires GrowthStep(g)
    ensures IsDirectory(g.fs, g.q.parent) && g.q.parent != 0
    ensures Populated(Take(g.v, g.b), g.mid, g.fs, NewFS(g.fs, g.ino, g.q, g.t), {g.b}, g.ino, g.q, g.t)
  {
    hide Inv, Meta, Used, Populate, AllocNode, NewFS, Take, NewEntryBlock, OneBlock, FirstFree, Populated;
  }

  lemma GrowthMapsKept(g: Growing)
    requires GrowthStep(g)
    ensures MapsKept(g.fs, NewFS(g.fs, g.ino, g.q, g.t))
  {
    hide Inv, Holds, Meta, Adopting, Used, Populate, AllocNode, NewFS, Take, NewEntryBlock, SameData, OneBlock,
      FirstFree, Populated, GrowthStep;
    GrowthParts(g);
    InvParts(g.v, g.fs);
    FilesInTree(g.v.disk, g.fs);
    AdoptedMaps(g.fs, g.ino, g.q, g.t);
    AdoptedHomes(g.fs, g.ino, g.q, g.t);
    forall m | m in g.fs.owner
      ensures m in NewFS(g.fs, g.ino, g.q, g.t).owner && NewFS(g.fs, g.ino, g.q, g.t).owner[m] == g.fs.owner[m]
    {
      OwnedIsData(g.v, g.fs, m);
      FreshBlocks(Take(g.v, g.b).disk, g.mid.disk, g.ino, g.t.pos, m);
      OwnerKept(g.fs, g.ino, g.q, g.t, m);
    }
  }

  lemma OwnerKept(fs: FS, ino: nat, q: Request, t: Account, m: nat)
    requires m in fs.owner && m !in t.pos
    ensures m in NewFS(fs, ino, q, t).owner && NewFS(fs, ino, q, t).owner[m] == fs.owner[m]
  {}

  lemma NewEntryListed(ino: u32, ftype: byte, name: Name)
    requires ino != 0
    ensures Listed(NewEntryBlock(ino, ftype, name), 0, 0, ino)
  {
    hide Chain, Entries, NewEntryBlock;
    NewEntryBlockSpec(ino, ftype, name);
    assert Entries(NewEntryBlock(ino, ftype, name), 0)[0].ino == ino;
  }

  lemma GrownDirThere(g: Growing)
    requires GrowthStep(g) && MakesDir(g.q)
    ensures |g.t.a| == 1 && g.t.a[0] < 2048 && 0 < g.ino <= 896 && g.q.parent <= 896
    ensures g.v'.disk[g.t.a[0]] == NewDirBlock(g.ino, g.q.parent)
  {
    hide Inv, Holds, Meta, Used, Populate, AllocNode, NewFS, Take, NewEntryBlock, SameData, FirstFree, NewDirBlock,
      Nameless, GrowthStep, Adopt, OneSlot, Untouched, InodeUsed, Node, FileMade;
    GrowthParts(g);
    GrowthRest(g);
    FreshBlocks(Take(g.v, g.b).disk, g.mid.disk, g.ino, g.t.pos, g.b);
    assert g.t.a[0] in g.t.pos;
    DataAreaStart(g.t.a[0]);
  }

  lemma GrowthCarried(g: Growing)
    requires GrowthStep(g)
    ensures Carried(g.v.disk, g.v'.disk, g.fs, GrownFS(g))
  {
    hide Inv, Listed, Meta, Used, Populate, AllocNode, NewFS, Take, NewEntryBlock, GrownFS, GrowthStep, Adopting,
      Carried, MapsKept, Elsewhere, UpIn, SameData, OneBlock, Entered;
    GrowthParts(g);
    GrowthElsewhere(g);
    GrowthMaps(g);
    AllCarried(g.v, g.v'.disk, g.fs, GrownFS(g), g.b);
  }

  lemma GrowthSprouted(g: Growing)
    requires GrowthStep(g)
    ensures Sprouted(g.v'.disk, g.fs, GrownFS(g), g.ino, g.q.parent)
    ensures (IsDirectory(GrownFS(g), g.ino) <==> MakesDir(g.q))
  {
    hide Inv, Listed, Meta, Used, Populate, AllocNode, NewFS, Take, NewEntryBlock, NewDirBlock, GrownFS, GrowthStep,
      Adopting, Sprouted, MapsKept, UpIn, Dots, SameData, OneBlock, Entered, Node, IsDirMode, Blocks;
    GrowthParts(g);
    GrowthRest(g);
    GrowthMaps(g);
    OneBlockAt(g.mid, g.v', g.b, NewEntryBlock(g.ino, TypeOf(g.q), g.q.name));
    NewEntryListed(g.ino, TypeOf(g.q), g.q.name);
    DirContents(g.v, g.fs, g.q.parent);
    if MakesDir(g.q) {
      GrownDirThere(g);
      UpOfNewDir(g.ino, g.q.parent);
    }
    SproutFrom(g.v'.disk, g.fs, GrownFS(g), g.ino, g.q.parent, |g.fs.tree[g.q.parent]|, g.b, 0);
  }

  lemma DepthThere(d: Disk, fs: FS, depth: map<nat, nat>, k: nat)
    requires UpOK(d, fs, depth, k)
    ensures k in depth
  {}

  // ----- `delete` keeps the shape -----

  /** Nothing but the dots is listed in directory `k`. */
  ghost predicate NoChildren(d: Disk, fs: FS, k: nat) {
    IsDirectory(fs, k) ==> forall i, at, j :: 0 <= i < |fs.tree[k]| && fs.tree[k][i] < 2048 ==>
      !Listed(d[fs.tree[k][i]], Skip(i), at, j)
  }

  lemma ParentNotGone(v: Volume, fs: FS, ino: nat, k: nat)
    requires Inv(v, fs) && Placed(v.disk, fs, k) && NoChildren(v.disk, fs, ino)
    ensures ParentOf(fs, k) != ino
  {
    hide Inv, Listed, Meta;
    HomeBlock(v, fs, k);
  }

  lemma WithoutOwner(fs: FS, ino: nat, m: nat)
    requires m in fs.owner && fs.owner[m].0 != ino
    ensures m in Without(fs, ino).owner && Without(fs, ino).owner[m] == fs.owner[m]
  {}

  lemma WithoutHome(fs: FS, ino: nat, k: nat)
    requires k in fs.home && k != ino
    ensures k in Without(fs, ino).home && Without(fs, ino).home[k] == fs.home[k]
  {}

  /** The entry that goes, and its surroundings. */
  ghost predicate Removing(v: Volume, v': Volume, fs: FS, k: nat, bi: nat, blk: nat, at: nat, ino: nat) {
    && IsDirBlock(fs, k, bi, blk) && DirBlockOK(v.disk, blk) && Reaches(v.disk[blk], 0, at) && Live(v.disk[blk], at)
    && Skip(bi) <= |EntriesBefore(v.disk[blk], 0, at)| && EntryAt(v.disk[blk], at).ino == ino
    && blk in fs.owner && fs.owner[blk] == (k, bi)
    && OneBlock(v, v', blk, Remove(v.disk[blk], at, Previous(v.disk[blk], 0, 512, at)))
  }

  lemma RemovedListed(v: Volume, v': Volume, fs: FS, k: nat, bi: nat, blk: nat, at: nat, ino: nat)
    requires Removing(v, v', fs, k, bi, blk, at, ino)
    ensures blk < 2048 && Listed(v.disk[blk], Skip(bi), at, ino)
    ensures forall p, j :: Listed(v.disk[blk], Skip(bi), p, j) && j != ino ==> Listed(v'.disk[blk], Skip(bi), p, j)
    ensures bi == 0 ==> UpIn(v'.disk[blk]) == UpIn(v.disk[blk])
  {
    hide Chain, Entries, EntriesBefore, Remove, Previous, Reaches, Live, NameAt, Listed, EntryAt, UpIn, Meta;
    var b := v.disk[blk];
    ListedAfterRemove(b, at, Skip(bi));
    if bi == 0 { UpAfterRemove(b, at); }
    forall p, j | Listed(b, Skip(bi), p, j) && j != ino ensures Listed(v'.disk[blk], Skip(bi), p, j) {
      if p == at { ListedOnce(b, Skip(bi), at, j, ino); }
    }
  }

  lemma RemovingParts(v: Volume, v': Volume, fs: FS, k: nat, bi: nat, blk: nat, at: nat, ino: nat)
    requires Removing(v, v', fs, k, bi, blk, at, ino)
    ensures IsDirBlock(fs, k, bi, blk) && blk in fs.owner && fs.owner[blk] == (k, bi)
    ensures forall m :: 21 <= m < 2048 && !Meta(m) && m != blk ==> v'.disk[m] == v.disk[m]
  {
    hide Chain, EntriesBefore, Remove, Previous, Reaches, Live, EntryAt, Meta;
  }

  lemma DeleteCarried(v: Volume, v': Volume, fs: FS, k: nat, bi: nat, blk: nat, at: nat, ino: nat)
    requires Removing(v, v', fs, k, bi, blk, at, ino) && NoChildren(v.disk, fs, ino) && Inv(v, fs)
    ensures Carried(v.disk, v'.disk, fs, Without(fs, ino))
  {
    hide Inv, Listed, Meta, UpIn, Removing, Without, NoChildren;
    var fs' := Without(fs, ino);
    RemovingParts(v, v', fs, k, bi, blk, at, ino);
    RemovedListed(v, v', fs, k, bi, blk, at, ino);
    WithoutMaps(fs, ino);
    forall j | j in fs.tree && j in fs'.tree && j != 1 && Placed(v.disk, fs, j)
      ensures CarriedAt(v.disk, v'.disk, fs, fs', j)
    {
      HomeBlock(v, fs, j);
      ParentNotGone(v, fs, ino, j);
      WithoutOwner(fs, ino, fs.home[j].0);
      WithoutHome(fs, ino, j);
    }
    forall j | IsDirectory(fs, j) && j in fs'.tree ensures Up(v'.disk, fs', j) == Up(v.disk, fs, j) {
      FirstOwned(v, fs, j);
      OwnedIsData(v, fs, fs.tree[j][0]);
    }
  }
}
