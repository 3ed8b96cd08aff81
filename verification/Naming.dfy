/** Entering names into directories and taking them out, one block at a time. */
module Naming {
  import opened Bytes
  import opened Layout
  import opened Metadata
  import opened Volume
  import opened FileTree
  import opened Directory
  import opened Invariant

  /** Block `i` of directory `k`. */
  ghost predicate IsDirBlock(fs: FS, k: nat, i: nat, blk: nat) {
    k in fs.tree && k !in fs.data && i < |fs.tree[k]| && fs.tree[k][i] == blk
  }

  lemma DirBlockFacts(v: Volume, fs: FS, loose: set<nat>, gap: set<(nat, nat)>, k: nat, i: nat, blk: nat)
    requires Holds(v, fs, loose, gap) && IsDirBlock(fs, k, i, blk)
    ensures 21 <= blk < 2048 && !Meta(blk) && Chain(v.disk[blk], 0) && blk in fs.owner && fs.owner[blk] == (k, i)
    ensures i == 0 ==> Dots(v.disk[blk], k)
    ensures BlockNamesOK(v.disk[blk], fs, blk, Skip(i), gap)
  {
    hide Counted, MetaUsed, InodesOK, Chain, Entries, Dots, Direct, Indirect, Double, FileOK, EntryOK, Used;
    assert ContentOK(v.disk, fs, k);
    assert Owns(fs, k);
    assert DirNamesOK(v.disk, fs, gap, k);
  }

  /** "." fills its record exactly. */
  lemma DotsHead(b: Block, k: nat)
    requires Dots(b, k)
    ensures Live(b, 0) && RecLen(b, 0) == 12 && SlackLen(b, 0) == 0
  {
    hide U16At, U32At, SlackZero;
    var es := Entries(b, 0);
    assert Live(b, 0);
    var q: nat := RecLen(b, 0);
    assert es[1..] == Entries(b, q);
    assert es[1] == EntryAt(b, q);
  }

  /** In a first directory block "." leaves no room, so nothing is ever entered before "..". */
  lemma DotsFirst(b: Block, k: nat, p: nat)
    requires Dots(b, k) && Reaches(b, 0, p) && Live(b, p) && (p == 0 ==> SlackLen(b, p) >= 12)
    ensures |EntriesBefore(b, 0, p)| >= 1
  {
    hide U16At, U32At, SlackZero, Dots;
    DotsHead(b, k);
  }

  // ----- replacing the bytes of one directory block -----

  lemma ShortLays(d: Disk, d': Disk, node: Inode, a: seq<nat>)
    requires Lays(d, node, a) && |a| <= 12
    ensures Lays(d', node, a)
  {}

  /** Only block `blk` of directory `k` changes; its chain and its dots stay sound. */
  lemma ReplacedContents(d: Disk, d': Disk, fs: FS, loose: set<nat>, k: nat, i: nat, blk: nat, b': Block)
    requires 21 <= blk < 2048 && !Meta(blk) && Chain(b', 0) && (i == 0 ==> Dots(b', k)) && d' == d[blk := b']
    requires ContentsOK(d, fs) && OwnersOK(d, fs, loose) && IsDirBlock(fs, k, i, blk)
    ensures ContentsOK(d', fs)
  {
    hide Used, Node, Chain, Dots, ContentOK, OwnersOK, InRange;
    NodesUntouched(d, blk, b');
    forall j | j in fs.tree ensures ContentOK(d', fs, j) {
      assert ContentOK(d, fs, j);
      ContentInRange(d, fs, j);
      if j == k {
        OwnBlocksDistinct(d, fs, loose, k, i, blk);
        ReplacedDirectory(d, fs, k, i, blk, b');
      } else {
        NotMine(d, fs, loose, k, i, blk, j);
        assert Kept(d, d', fs.tree[j]) by { KeptApart(d, blk, b', fs.tree[j]); }
        ContentSame(d, d', fs, j);
      }
    }
  }

  lemma KeptApart(d: Disk, m: nat, b: Block, a: seq<nat>)
    requires InRange(a) && m < 8192 && forall q :: 0 <= q < |a| ==> a[q] != m
    ensures Kept(d, d[m := b], a)
  {}

  lemma NodesUntouched(d: Disk, m: nat, b: Block)
    requires 21 <= m < 2048 || m >= 2048
    requires m < 8192 && (m < 2048 ==> !Meta(m))
    ensures forall k :: ValidInode(k) ==> Node(d[m := b], k) == Node(d, k)
  {
    forall k | ValidInode(k) ensures TableBlock(k) != m { MetadataInRange(k); }
  }

  lemma NotMine(d: Disk, fs: FS, loose: set<nat>, k: nat, i: nat, blk: nat, j: nat)
    requires OwnersOK(d, fs, loose) && IsDirBlock(fs, k, i, blk) && j in fs.tree && j != k
    ensures forall q :: 0 <= q < |fs.tree[j]| ==> fs.tree[j][q] != blk
  {
    hide Used;
    assert Owns(fs, k) && Owns(fs, j);
  }

  lemma ReplacedDirectory(d: Disk, fs: FS, k: nat, i: nat, blk: nat, b': Block)
    requires IsDirBlock(fs, k, i, blk) && ContentOK(d, fs, k) && blk < 2048 && !Meta(blk)
    requires Chain(b', 0) && (i == 0 ==> Dots(b', k))
    requires forall q :: 0 <= q < |fs.tree[k]| && q != i ==> fs.tree[k][q] != blk
    requires Node(d[blk := b'], k) == Node(d, k)
    ensures ContentOK(d[blk := b'], fs, k)
  {
    hide Node, Chain, Dots, Direct, Indirect, Double;
    ShortLays(d, d[blk := b'], Node(d, k), fs.tree[k]);
  }

  lemma OwnBlocksDistinct(d: Disk, fs: FS, loose: set<nat>, k: nat, i: nat, blk: nat)
    requires OwnersOK(d, fs, loose) && IsDirBlock(fs, k, i, blk)
    ensures forall q :: 0 <= q < |fs.tree[k]| && q != i ==> fs.tree[k][q] != blk
  {
    hide Used;
    assert Owns(fs, k);
  }

  lemma ReplacedMeta(v: Volume, m: nat, b: Block)
    requires Counted(v) && MetaUsed(v.disk) && 21 <= m < 2048 && !Meta(m)
    ensures Counted(PutBlock(v, m, b)) && MetaUsed(PutBlock(v, m, b).disk)
    ensures forall k :: 0 <= k < 2048 ==> (Used(v.disk[m := b], k) <==> Used(v.disk, k))
    ensures forall k :: ValidInode(k) ==> (InodeUsed(v.disk[m := b], k) <==> InodeUsed(v.disk, k))
  {
    hide Used, InodeUsed, Counted;
    assert !IsBlockBitmap(m) && !IsInodeBitmap(m);
    CountedAfterPut(v, m, b);
    BlockBitsSame(v.disk, v.disk[m := b]);
    InodeBitsSame(v.disk, v.disk[m := b]);
  }

  /** The names of every other directory block are judged as before, by an abstract file system with other homes. */
  lemma ReplacedNames(d: Disk, d': Disk, fs: FS, fs': FS, loose: set<nat>, gap: set<(nat, nat)>, gap': set<(nat, nat)>,
                      k: nat, i: nat, blk: nat, b': Block)
    requires blk < 8192 && d' == d[blk := b'] && IsDirBlock(fs, k, i, blk)
    requires NamesOK(d, fs, gap) && OwnersOK(d, fs, loose)
    requires fs' == fs.(home := fs'.home)
    requires forall j :: j in fs.home ==> j in fs'.home && fs'.home[j] == fs.home[j]
    requires forall g :: g in gap && g.0 != blk ==> g in gap'
    requires BlockNamesOK(b', fs', blk, Skip(i), gap')
    ensures NamesOK(d', fs', gap')
  {
    hide OwnersOK, BlockNamesOK, Used;
    forall j | j in fs'.tree && j !in fs'.data ensures DirNamesOK(d', fs', gap', j) {
      assert DirNamesOK(d, fs, gap, j);
      forall q | 0 <= q < |fs.tree[j]|
        ensures fs.tree[j][q] < 2048 && BlockNamesOK(d'[fs.tree[j][q]], fs', fs.tree[j][q], Skip(q), gap')
      {
        var m := fs.tree[j][q];
        if m == blk {
          SamePlace(d, fs, loose, k, i, blk, j, q);
        } else {
          HomesGrown(d[m], fs, fs', m, Skip(q), gap, gap');
        }
      }
    }
  }

  lemma SamePlace(d: Disk, fs: FS, loose: set<nat>, k: nat, i: nat, blk: nat, j: nat, q: nat)
    requires OwnersOK(d, fs, loose) && IsDirBlock(fs, k, i, blk) && IsDirBlock(fs, j, q, blk)
    ensures j == k && q == i
  {
    hide Used;
    assert Owns(fs, k) && Owns(fs, j);
  }

  lemma HomesGrown(b: Block, fs: FS, fs': FS, m: nat, skip: nat, gap: set<(nat, nat)>, gap': set<(nat, nat)>)
    requires BlockNamesOK(b, fs, m, skip, gap) && fs' == fs.(home := fs'.home)
    requires forall j :: j in fs.home ==> j in fs'.home && fs'.home[j] == fs.home[j]
    requires forall g :: g in gap && g.0 == m ==> g in gap'
    ensures BlockNamesOK(b, fs', m, skip, gap')
  {
    hide Chain, Entries;
  }

  // ----- entering a name -----

  function Named(fs: FS, ino: nat, blk: nat, at: nat): FS {
    fs.(home := fs.home[ino := (blk, at)])
  }

  /** An inode that exists, is not the root, has no name yet, and is of type `ftype`. */
  ghost predicate Nameless(fs: FS, ino: nat, ftype: byte) {
    && ino in fs.tree && ino !in fs.home && ino != 1
    && ftype == (if ino in fs.data then EXT2_FT_REG_FILE else EXT2_FT_DIR)
  }

  lemma InsertedNames(b: Block, fs: FS, blk: nat, skip: nat, gap: set<(nat, nat)>, p: nat, ino: u32, ftype: byte,
      name: Name)
    requires BlockNamesOK(b, fs, blk, skip, gap) && Nameless(fs, ino, ftype)
    requires Reaches(b, 0, p) && Live(b, p) && RecordLen(|name|) <= SlackLen(b, p) && ino != 0
    requires skip <= |EntriesBefore(b, 0, p)| + 1
    ensures BlockNamesOK(Insert(b, p, ino, ftype, name), Named(fs, ino, blk, SlackAt(b, p)), blk, skip, gap)
  {
    hide Chain, Entries, EntriesBefore, EntriesAfter, EntryAt, Insert, Reaches, Live, SlackLen, SlackAt, RecordLen;
    InsertSpec(b, p, ino, ftype, name);
    var x, w := EntriesBefore(b, 0, p), EntriesAfter(b, p);
    var es, es' := Entries(b, 0), Entries(Insert(b, p, ino, ftype, name), 0);
    var fs' := Named(fs, ino, blk, SlackAt(b, p));
    forall k | skip <= k < |es'| ensures (blk, es'[k].at) in gap || EntryOK(fs', blk, es'[k]) {
      if k <= |x| {
        assert es'[k] == es[k];
      } else if k > |x| + 1 {
        assert es'[k] == es[k - 1];
      }
    }
  }

  lemma InsertedDots(b: Block, k: nat, p: nat, ino: u32, ftype: byte, name: Name)
    requires Dots(b, k) && Reaches(b, 0, p) && Live(b, p) && RecordLen(|name|) <= SlackLen(b, p) && ino != 0
    ensures Dots(Insert(b, p, ino, ftype, name), k)
  {
    hide Chain, Entries, EntriesBefore, EntriesAfter, EntryAt, Insert, Reaches, Live, SlackLen, SlackAt;
    DotsFirst(b, k, p);
    InsertSpec(b, p, ino, ftype, name);
    var es, es' := Entries(b, 0), Entries(Insert(b, p, ino, ftype, name), 0);
    assert es'[0] == es[0] && es'[1] == es[1];
  }

  /** Naming an inode in the slack of a record keeps the volume sound. */
  lemma InsertHolds(v: Volume, fs: FS, loose: set<nat>, gap: set<(nat, nat)>, k: nat, i: nat, blk: nat, p: nat,
                    ino: u32, ftype: byte, name: Name)
    requires Holds(v, fs, loose, gap) && IsDirBlock(fs, k, i, blk) && blk < 2048 && Chain(v.disk[blk], 0)
    requires Reaches(v.disk[blk], 0, p) && Live(v.disk[blk], p) && RecordLen(|name|) <= SlackLen(v.disk[blk], p)
    requires ino != 0 && Nameless(fs, ino, ftype)
    ensures Holds(PutBlock(v, blk, Insert(v.disk[blk], p, ino, ftype, name)),
                  Named(fs, ino, blk, SlackAt(v.disk[blk], p)), loose, gap)
  {
    hide Chain, Entries, EntriesBefore, Insert, Reaches, Live, SlackLen, SlackAt, RecordLen, Dots, Counted, MetaUsed,
         ContentsOK, OwnersOK, NamesOK, InodesOK, BlockNamesOK, Meta, Nameless;
    var b := v.disk[blk];
    var b', fs' := Insert(b, p, ino, ftype, name), Named(fs, ino, blk, SlackAt(b, p));
    DirBlockFacts(v, fs, loose, gap, k, i, blk);
    InsertSpec(b, p, ino, ftype, name);
    if i == 0 {
      assert RecordLen(|name|) >= 12;
      DotsFirst(b, k, p);
      InsertedDots(b, k, p, ino, ftype, name);
    }
    InsertedNames(b, fs, blk, Skip(i), gap, p, ino, ftype, name);
    NewHome(v.disk, fs, ino, ftype, blk, SlackAt(b, p));
    ReplacedHolds(v, fs, fs', loose, gap, gap, k, i, blk, b');
  }

  lemma NewHome(d: Disk, fs: FS, ino: nat, ftype: byte, blk: nat, at: nat)
    requires InodesOK(d, fs) && Nameless(fs, ino, ftype)
    ensures var fs' := Named(fs, ino, blk, at);
      fs'.home.Keys <= fs.tree.Keys && forall j :: j in fs.home ==> j in fs'.home && fs'.home[j] == fs.home[j]
  {
    hide InodeUsed, Node;
  }

  /** Putting a sound directory block in the place of another. */
  lemma ReplacedHolds(v: Volume, fs: FS, fs': FS, loose: set<nat>, gap: set<(nat, nat)>, gap': set<(nat, nat)>,
                      k: nat, i: nat, blk: nat, b': Block)
    requires Holds(v, fs, loose, gap) && IsDirBlock(fs, k, i, blk) && 21 <= blk < 2048 && !Meta(blk)
    requires Chain(b', 0) && (i == 0 ==> Dots(b', k))
    requires fs' == fs.(home := fs'.home) && fs'.home.Keys <= fs.tree.Keys
    requires forall j :: j in fs.home ==> j in fs'.home && fs'.home[j] == fs.home[j]
    requires forall g :: g in gap && g.0 != blk ==> g in gap'
    requires BlockNamesOK(b', fs', blk, Skip(i), gap')
    ensures Holds(PutBlock(v, blk, b'), fs', loose, gap')
  {
    hide Chain, Dots, Counted, MetaUsed, ContentsOK, NamesOK, BlockNamesOK, Meta, Used, InodeUsed, Node, InodesOK,
      OwnersOK;
    ReplacedMeta(v, blk, b');
    ReplacedContents(v.disk, v.disk[blk := b'], fs, loose, k, i, blk, b');
    ReplacedNames(v.disk, v.disk[blk := b'], fs, fs', loose, gap, gap', k, i, blk, b');
    NodesUntouched(v.disk, blk, b');
    OtherHomes(v.disk, v.disk[blk := b'], fs, fs', loose);
  }

  /** Inodes, owners and contents do not depend on the homes. */
  lemma OtherHomes(d: Disk, d': Disk, fs: FS, fs': FS, loose: set<nat>)
    requires InodesOK(d, fs) && OwnersOK(d, fs, loose) && ContentsOK(d', fs)
    requires fs' == fs.(home := fs'.home) && fs'.home.Keys <= fs.tree.Keys
    requires forall k :: ValidInode(k) ==> Node(d', k) == Node(d, k)
    requires forall k :: ValidInode(k) ==> (InodeUsed(d', k) <==> InodeUsed(d, k))
    requires forall m :: 0 <= m < 2048 ==> (Used(d', m) <==> Used(d, m))
    ensures InodesOK(d', fs') && OwnersOK(d', fs', loose) && ContentsOK(d', fs')
  {
    hide Used, InodeUsed, Node, Meta, FileOK, DirectoryOK;
    forall ino | ino in fs'.tree ensures ContentOK(d', fs', ino) && Owns(fs', ino) {
      assert ContentOK(d', fs, ino) && Owns(fs, ino);
    }
    forall m | m in fs'.owner ensures OwnedAt(fs', m) { assert OwnedAt(fs, m); }
  }

  // ----- taking a name out -----

  lemma RemovedNames(b: Block, fs: FS, blk: nat, skip: nat, gap: set<(nat, nat)>, p: nat)
    requires BlockNamesOK(b, fs, blk, skip, gap) && Reaches(b, 0, p) && Live(b, p)
    requires skip <= |EntriesBefore(b, 0, p)|
    ensures BlockNamesOK(Remove(b, p, Previous(b, 0, 512, p)), fs, blk, skip, gap - {(blk, p)})
  {
    hide Chain, Entries, EntriesBefore, EntriesAfter, Remove, Reaches, Live, Previous;
    RemoveSpec(b, p, Previous(b, 0, 512, p));
    DistinctPlaces(b, 0, p);
    var x := EntriesBefore(b, 0, p);
    var es, es' := Entries(b, 0), Entries(Remove(b, p, Previous(b, 0, 512, p)), 0);
    forall k | skip <= k < |es'| ensures (blk, es'[k].at) in gap - {(blk, p)} || EntryOK(fs, blk, es'[k]) {
      if k < |x| {
        assert es'[k] == es[k];
      } else {
        assert es'[k] == es[k + 1];
      }
    }
  }

  /** The entries around record `p` sit elsewhere. */
  lemma DistinctPlaces(b: Block, o: nat, p: nat)
    requires Chain(b, o) && Reaches(b, o, p)
    ensures forall k :: 0 <= k < |EntriesBefore(b, o, p)| ==> EntriesBefore(b, o, p)[k].at < p
    ensures forall k :: 0 <= k < |EntriesAfter(b, p)| ==> EntriesAfter(b, p)[k].at > p
  {
    BeforePlaces(b, o, p);
    AfterPlaces(b, p + RecLen(b, p));
  }

  lemma {:induction false} BeforePlaces(b: Block, o: nat, p: nat)
    requires Chain(b, o) && Reaches(b, o, p)
    ensures forall k :: 0 <= k < |EntriesBefore(b, o, p)| ==> EntriesBefore(b, o, p)[k].at < p
    decreases 512 - o
  {
    hide U16At, U32At, SlackZero, NameAt, RecordLen;
    if o != p { BeforePlaces(b, o + RecLen(b, o), p); }
  }

  lemma {:induction false} AfterPlaces(b: Block, o: nat)
    requires Chain(b, o)
    ensures forall k :: 0 <= k < |Entries(b, o)| ==> Entries(b, o)[k].at >= o
    decreases 512 - o
  {
    hide U16At, U32At, SlackZero, NameAt, RecordLen;
    if o < 512 { AfterPlaces(b, o + RecLen(b, o)); }
  }

  lemma RemovedDots(b: Block, k: nat, p: nat)
    requires Dots(b, k) && Reaches(b, 0, p) && Live(b, p) && |EntriesBefore(b, 0, p)| >= 2
    ensures Dots(Remove(b, p, Previous(b, 0, 512, p)), k)
  {
    hide Chain, Entries, EntriesBefore, EntriesAfter, EntryAt, Remove, Reaches, Live, Previous;
    RemoveSpec(b, p, Previous(b, 0, 512, p));
    var es, es' := Entries(b, 0), Entries(Remove(b, p, Previous(b, 0, 512, p)), 0);
    assert es'[0] == es[0] && es'[1] == es[1];
  }

  /** Removing the record in the gap closes the gap. */
  lemma RemoveHolds(v: Volume, fs: FS, loose: set<nat>, k: nat, i: nat, blk: nat, p: nat)
    requires Holds(v, fs, loose, {(blk, p)}) && IsDirBlock(fs, k, i, blk) && blk < 2048 && Chain(v.disk[blk], 0)
    requires Reaches(v.disk[blk], 0, p) && Live(v.disk[blk], p) && Skip(i) <= |EntriesBefore(v.disk[blk], 0, p)|
    ensures Holds(PutBlock(v, blk, Remove(v.disk[blk], p, Previous(v.disk[blk], 0, 512, p))), fs, loose, {})
  {
    hide Chain, Entries, EntriesBefore, Remove, Reaches, Live, Previous, Dots, Counted, MetaUsed,
         ContentsOK, OwnersOK, NamesOK, InodesOK, BlockNamesOK, Meta;
    var b := v.disk[blk];
    var b' := Remove(b, p, Previous(b, 0, 512, p));
    DirBlockFacts(v, fs, loose, {(blk, p)}, k, i, blk);
    RemoveSpec(b, p, Previous(b, 0, 512, p));
    if i == 0 { RemovedDots(b, k, p); }
    RemovedNames(b, fs, blk, Skip(i), {(blk, p)}, p);
    assert {(blk, p)} - {(blk, p)} == {};
    HomesInTree(v.disk, fs);
    ReplacedHolds(v, fs, fs, loose, {(blk, p)}, {}, k, i, blk, b');
  }

  lemma HomesInTree(d: Disk, fs: FS)
    requires InodesOK(d, fs)
    ensures fs.home.Keys <= fs.tree.Keys && fs == fs.(home := fs.home)
  {
    hide InodeUsed, Node;
  }
}
