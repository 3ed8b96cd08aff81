/** What a caller sees: `read` answers from the abstract file system and the ordered list of names. */
module Observing {
  import opened Options
  import opened Layout
  import opened Metadata
  import opened Volume
  import opened FileTree
  import opened Reading
  import opened Directory
  import opened Operations
  import opened Invariant
  import opened Writing
  import opened Deletion

  // ----- the ordered list of a directory -----

  ghost predicate Blocks(d: Disk, a: seq<nat>) {
    forall i :: 0 <= i < |a| ==> a[i] < 2048 && Chain(d[a[i]], 0)
  }

  function Listing(d: Disk, a: seq<nat>): seq<Entry>
    requires Blocks(d, a)
  {
    if a == [] then [] else Entries(d[a[0]], 0) + Listing(d, a[1..])
  }

  lemma {:induction false} LookupAppend(x: seq<Entry>, y: seq<Entry>, name: Name)
    ensures Lookup(x + y, name) == if Lookup(x, name) < |x| then Lookup(x, name) else |x| + Lookup(y, name)
  {
    if x == [] {
      assert x + y == y;
    } else {
      assert (x + y)[1..] == x[1..] + y;
      LookupAppend(x[1..], y, name);
    }
  }

  lemma {:induction false} ListingAppend(d: Disk, a: seq<nat>, b: seq<nat>)
    requires Blocks(d, a) && Blocks(d, b)
    ensures Blocks(d, a + b) && Listing(d, a + b) == Listing(d, a) + Listing(d, b)
  {
    hide Chain, Entries;
    if a == [] {
      assert a + b == b;
    } else {
      assert (a + b)[1..] == a[1..] + b;
      ListingAppend(d, a[1..], b);
    }
  }

  lemma {:induction false} ListingSame(d: Disk, d': Disk, a: seq<nat>)
    requires Blocks(d, a) && forall i :: 0 <= i < |a| ==> d'[a[i]] == d[a[i]]
    ensures Blocks(d', a) && Listing(d', a) == Listing(d, a)
  {
    hide Chain, Entries;
    if a != [] { ListingSame(d, d', a[1..]); }
  }

  /** Directory `n` is spelled by the blocks `a`. */
  ghost predicate Spells(n: Inode, a: seq<nat>) {
    |a| == n.blocks <= 12 && forall i :: 0 <= i < |a| ==> n.block[i] == a[i]
  }

  /** The block-by-block scan finds exactly the first match of the whole list. */
  lemma {:induction false} FindEntryIsLookup(d: Disk, n: Inode, a: seq<nat>, bi: nat, name: Name)
    requires DirOK(d, n) && Spells(n, a) && Blocks(d, a) && bi <= |a| && Blocks(d, a[bi..])
    ensures var r, es := FindEntry(d, n, bi, name), Listing(d, a[bi..]);
      if r.Nowhere? then Lookup(es, name) == |es|
      else Lookup(es, name) < |es| && DirBlockOK(d, a[r.bi]) && Sound(d[a[r.bi]], r.at) &&
           es[Lookup(es, name)] == EntryAt(d[a[r.bi]], r.at)
    decreases |a| - bi
  {
    hide Chain, Entries, Reaches, Live, EntriesBefore, FindName, EntryAt, Sound, Lookup;
    if bi < |a| {
      var b := d[a[bi]];
      assert DirBlockOK(d, n.block[bi]);
      assert a[bi..][0] == a[bi] && a[bi..][1..] == a[bi + 1..];
      FindNameSpec(b, 0, name);
      LookupAppend(Entries(b, 0), Listing(d, a[bi + 1..]), name);
      if FindName(b, 0, name) != 512 {
        FoundInList(b, FindName(b, 0, name), name);
      } else {
        FindEntryIsLookup(d, n, a, bi + 1, name);
      }
    } else {
      LookupNil(name);
    }
  }

  lemma FoundInList(b: Block, p: nat, name: Name)
    requires Chain(b, 0) && FoundRecord(b, 0, p, name) && Lookup(Entries(b, 0), name) == |EntriesBefore(b, 0, p)|
    ensures Sound(b, p) && Lookup(Entries(b, 0), name) < |Entries(b, 0)|
    ensures Entries(b, 0)[Lookup(Entries(b, 0), name)] == EntryAt(b, p)
  {
    hide Entries, EntriesBefore, EntryAt, Lookup;
    RecordInList(b, p);
  }

  // ----- read answers from the abstract file system -----

  /** What a name stands for: its first entry in the list. */
  function Resolve(es: seq<Entry>, name: Name): Option<Entry> {
    if Lookup(es, name) < |es| then Some(es[Lookup(es, name)]) else None
  }

  function AbstractRead(fs: FS, found: Option<Entry>, bufferSize: nat): Contents {
    match found
    case None => Contents(2, [])
    case Some(e) =>
      if e.ftype != EXT2_FT_REG_FILE then Contents(1, [])
      else if e.ino !in fs.data || e.ino !in fs.tree || bufferSize < |fs.data[e.ino]| then Contents(-1, [])
      else Contents(0, Upto(fs.data[e.ino], DataCount(|fs.tree[e.ino]|)))
  }

  /** The list of names of directory `k`. */
  function NamesIn(v: Volume, fs: FS, k: nat): seq<Entry> {
    if k in fs.tree && (forall i :: 0 <= i < |fs.tree[k]| ==> fs.tree[k][i] < 2048 && Chain(v.disk[fs.tree[k][i]], 0))
    then Listing(v.disk, fs.tree[k]) else []
  }

  lemma EntryIsSound(v: Volume, fs: FS, k: nat, j: nat)
    requires Inv(v, fs) && k in fs.tree && k !in fs.data && j < |NamesIn(v, fs, k)|
    ensures var e := NamesIn(v, fs, k)[j];
      e.ftype == EXT2_FT_REG_FILE ==> e.ino in fs.tree && e.ino in fs.data && ValidInode(e.ino) && e.ino in fs.home
  {
    hide Counted, MetaUsed, OwnersOK, ContentsOK, InodeUsed, Node, Synced, Chain, Entries, BlockNamesOK;
    DirContents(v, fs, k);
    assert DirNamesOK(v.disk, fs, {}, k);
    if k in fs.tree && Blocks(v.disk, fs.tree[k]) {
      ListedEntry(v.disk, fs, fs.tree[k], 0, j, k);
    }
  }

  lemma DirContents(v: Volume, fs: FS, k: nat)
    requires Inv(v, fs) && k in fs.tree && k !in fs.data
    ensures ValidInode(k) && Blocks(v.disk, fs.tree[k]) && 1 <= |fs.tree[k]| <= 12 && Dots(v.disk[fs.tree[k][0]], k)
    ensures Spells(Node(v.disk, k), fs.tree[k]) && IsDirMode(Node(v.disk, k).mode) && InRange(fs.tree[k])
  {
    hide Counted, MetaUsed, OwnersOK, NamesOK, InodeUsed, Node, Synced, Chain, Entries, Dots, IsDirMode, Indirect,
      Double;
    Modes();
    assert ContentOK(v.disk, fs, k);
    var n, a := Node(v.disk, k), fs.tree[k];
    forall i | 0 <= i < |a| ensures n.block[i] == a[i] { assert n.block[i] == At(a, i); }
  }

  /** Entry `j` of the list from block `i` on: a dot, or a sound entry. */
  lemma {:induction false} ListedEntry(d: Disk, fs: FS, a: seq<nat>, i: nat, j: nat, k: nat)
    requires i <= |a| && Blocks(d, a) && Blocks(d, a[i..]) && j < |Listing(d, a[i..])|
    requires forall q :: 0 <= q < |a| ==> BlockNamesOK(d[a[q]], fs, a[q], Skip(q), {})
    requires |a| > 0 && Dots(d[a[0]], k)
    ensures var e := Listing(d, a[i..])[j];
      e.ftype == EXT2_FT_REG_FILE ==> e.ino in fs.tree && e.ino in fs.data && e.ino in fs.home
    decreases |a| - i
  {
    hide Chain, Entries;
    assert a[i..][1..] == a[i + 1..] && a[i..][0] == a[i];
    var es := Entries(d[a[i]], 0);
    if j < |es| {
      assert Listing(d, a[i..])[j] == es[j];
      assert BlockNamesOK(d[a[i]], fs, a[i], Skip(i), {});
    } else {
      ListedEntry(d, fs, a, i + 1, j - |es|, k);
    }
  }

  lemma NamesInIs(v: Volume, fs: FS, k: nat)
    requires k in fs.tree && Blocks(v.disk, fs.tree[k])
    ensures NamesIn(v, fs, k) == Listing(v.disk, fs.tree[k])
  {}

  lemma EntryFields(b: Block, p: nat)
    requires Sound(b, p)
    ensures EntryAt(b, p).ino == EntInode(b, p) && EntryAt(b, p).ftype == FileType(b, p)
  {}

  lemma FileBytes(v: Volume, fs: FS, ino: nat)
    requires Inv(v, fs) && ino in fs.tree && ino in fs.data
    ensures ValidInode(ino) && Node(v.disk, ino).size == |fs.data[ino]|
    ensures ReadNode(v.disk, Node(v.disk, ino)) == Upto(fs.data[ino], DataCount(|fs.tree[ino]|))
  {
    hide Counted, MetaUsed, OwnersOK, NamesOK, InodeUsed, Node, Synced, Lays, DataOn, ReadNode, Upto, DataCount;
    assert ContentOK(v.disk, fs, ino);
    ReadNodeSpec(v.disk, Node(v.disk, ino), fs.tree[ino], fs.data[ino]);
  }

  /** `read` is first-match lookup in the list of names followed by the bytes of the file. */
  lemma ReadSpec(v: Volume, fs: FS, q: Request, bufferSize: nat)
    requires ValidRequest(q) && ParentOK(v, q) && Inv(v, fs) && q.parent in fs.tree && q.parent !in fs.data
    ensures ReadOp(v, q, bufferSize) == AbstractRead(fs, Resolve(NamesIn(v, fs, q.parent), q.name), bufferSize)
  {
    hide Inv, Node, IsDirMode, Blocks, FindEntry, DirBlockOK, EntryAt, Lookup, DirOK, FoundRecord, Dots, ReadNode, Upto,
         DataCount, FileType, EntInode, InRange, NamesIn, Sound, Listing;
    var k := q.parent;
    DirContents(v, fs, k);
    DirectoryFound(v, fs, k);
    var n, a := Node(v.disk, k), fs.tree[k];
    NamesInIs(v, fs, k);
    FindEntrySound(v.disk, n, 0, q.name);
    assert a[0..] == a;
    FindEntryIsLookup(v.disk, n, a, 0, q.name);
    match FindEntry(v.disk, n, 0, q.name)
    case Nowhere =>
    case Place(bi, at) =>
      var es := NamesIn(v, fs, k);
      var e := es[Lookup(es, q.name)];
      BlockParts(v.disk, a[bi]);
      EntryFields(v.disk[a[bi]], at);
      EntryIsSound(v, fs, k, Lookup(es, q.name));
      if e.ftype == EXT2_FT_REG_FILE { FileBytes(v, fs, e.ino); }
  }

  lemma BlockParts(d: Disk, m: nat)
    requires DirBlockOK(d, m)
    ensures 0 < m < 2048
  {}

  // ----- lists that gain or lose an entry -----

  /** `e` was put in at position `i`, before any entry of its name. */
  ghost predicate InsertedAt(es: seq<Entry>, es': seq<Entry>, e: Entry, i: nat) {
    i <= |es| && es' == es[..i] + [e] + es[i..] && forall j :: 0 <= j < i ==> es[j].name != e.name
  }

  /** `e`, the first entry of its name, was taken out at position `i`. */
  ghost predicate RemovedAt(es: seq<Entry>, es': seq<Entry>, e: Entry, i: nat) {
    i < |es| && es' == es[..i] + es[i + 1..] && es[i] == e && forall j :: 0 <= j < i ==> es[j].name != e.name
  }

  lemma NoMatch(x: seq<Entry>, name: Name)
    requires forall j :: 0 <= j < |x| ==> x[j].name != name
    ensures Lookup(x, name) == |x|
  {}

  /** Resolution in a list cut at an entry that is the first of its name. */
  lemma ResolveAround(x: seq<Entry>, e: Entry, w: seq<Entry>, name: Name)
    requires forall j :: 0 <= j < |x| ==> x[j].name != e.name
    ensures Resolve(x + ([e] + w), name) == if name == e.name then Some(e) else Resolve(x + w, name)
    ensures name == e.name ==> Resolve(x + w, name) == Resolve(w, name)
  {
    hide Lookup;
    LookupAppend(x, w, name);
    LookupAppend(x, [e] + w, name);
    LookupCons(e, w, name);
    if name == e.name { NoMatch(x, name); }
  }

  /** The new name resolves to the new entry, every other name as before. */
  lemma InsertedResolves(es: seq<Entry>, es': seq<Entry>, e: Entry, i: nat, name: Name)
    requires InsertedAt(es, es', e, i)
    ensures Resolve(es', name) == if name == e.name then Some(e) else Resolve(es, name)
  {
    hide Resolve;
    assert es == es[..i] + es[i..] && es' == es[..i] + ([e] + es[i..]);
    ResolveAround(es[..i], e, es[i..], name);
  }

  /** The removed name resolves to the next entry it shadowed, or to nothing; every other name as before. */
  lemma RemovedResolves(es: seq<Entry>, es': seq<Entry>, e: Entry, i: nat, name: Name)
    requires RemovedAt(es, es', e, i)
    ensures Resolve(es, e.name) == Some(e)
    ensures Resolve(es', name) == if name == e.name then Resolve(es[i + 1..], name) else Resolve(es, name)
  {
    hide Resolve;
    assert es == es[..i] + ([e] + es[i + 1..]);
    ResolveAround(es[..i], e, es[i + 1..], name);
    ResolveAround(es[..i], e, es[i + 1..], e.name);
  }

  // ----- how one block's change shows in the list -----

  lemma ListingCut(d: Disk, a: seq<nat>, i: nat)
    requires Blocks(d, a) && i < |a|
    ensures Blocks(d, a[..i]) && Blocks(d, a[i + 1..]) && Chain(d[a[i]], 0)
    ensures Listing(d, a) == Listing(d, a[..i]) + Entries(d[a[i]], 0) + Listing(d, a[i + 1..])
  {
    hide Chain, Entries;
    assert a == a[..i] + ([a[i]] + a[i + 1..]);
    assert Blocks(d, [a[i]]);
    assert Listing(d, [a[i]]) == Entries(d[a[i]], 0) by { assert [a[i]][1..] == []; }
    ListingAppend(d, [a[i]], a[i + 1..]);
    ListingAppend(d, a[..i], [a[i]] + a[i + 1..]);
  }

  /** The scan of `write` passed no entry of the name on its way to the hole. */
  lemma {:induction false} FindRoomPassed(d: Disk, n: Inode, a: seq<nat>, bi: nat, name: Name)
    requires DirOK(d, n) && Spells(n, a) && bi <= |a| && Blocks(d, a) && Blocks(d, a[bi..])
    ensures match FindRoom(d, n, bi, name)
      case Exists => true
      case InHole(hi, at) => bi <= hi < |a| && Chain(d[a[hi]], 0) && Reaches(d[a[hi]], 0, at) &&
        Passed(Listing(d, a[bi..hi]) , name) && Passed(EntriesBefore(d[a[hi]], 0, at), name) &&
          NameAt(d[a[hi]], at) != name
      case Full => Passed(Listing(d, a[bi..]), name)
    decreases |a| - bi
  {
    hide Chain, Entries, Reaches, Live, EntriesBefore, ScanForHole, NameAt;
    if bi < |a| {
      var b := d[a[bi]];
      assert DirBlockOK(d, n.block[bi]);
      ScanForHoleSpec(b, 0, name, RecordLen(|name|));
      assert a[bi..][0] == a[bi] && a[bi..][1..] == a[bi + 1..];
      FindRoomPassed(d, n, a, bi + 1, name);
      match FindRoom(d, n, bi + 1, name) {
        case InHole(hi, at) => assert a[bi..hi][0] == a[bi] && a[bi..hi][1..] == a[bi + 1..hi];
        case _ =>
      }
    }
  }

  ghost predicate Passed(es: seq<Entry>, name: Name) {
    forall j :: 0 <= j < |es| ==> es[j].name != name
  }
}
