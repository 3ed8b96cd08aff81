/**
 * Walking paths: `cd` on the path that the shell prints for a directory leads back to that directory. The walkers read
 * directories into a buffer larger than a block; what lies past the block just read is a parameter.
 */
module Paths {
  import opened Bytes
  import opened Options
  import opened Layout
  import opened Volume
  import opened Directory
  import opened Operations
  import opened Invariant
  import opened Naming
  import opened Writing
  import opened Deletion
  import opened WriteEffects
  import opened Effects
  import opened DirCounts
  import opened TreeShape
  import opened Runs
  import opened Exactness
  import opened DeleteExactness
  import opened Answers
  import opened PathText

  const BUFFER_SIZE := 8192

  /**
   * What one directory read finds around its data: past the driver's block buffer, and in and after the shell's own.
   */
  datatype Leftovers = Leftovers(spill: seq<byte>, stack: seq<byte>)
  type Residue = r: Leftovers | |r.spill| == 8192 && |r.stack| == 8704
    witness Leftovers(seq(8192, i => 0), seq(8704, i => 0))
  type Buffer = s: seq<byte> | |s| == 8704 witness seq(8704, i => 0)

  function DotRequest(k: nat): Request
    requires k <= 896
  {
    Request(k, DOT, false, [])
  }

  /** The shell's buffer after reading directory "." of inode `k`. */
  function DirBuffer(v: Volume, k: nat, r: Residue): Option<Buffer> {
    if k > 896 || !ParentOK(v, DotRequest(k)) then None
    else
      var c := ReadDirectoryOp(v, DotRequest(k), BUFFER_SIZE, r.spill);
      if c.code != 0 then None else Some(Shown(c.bytes, r.stack))
  }

  function Shown(bytes: seq<byte>, stack: seq<byte>): Buffer
    requires |stack| == 8704
  {
    if |bytes| <= 8704 then bytes + stack[|bytes|..] else stack
  }

  // ----- the walkers -----

  /** `get_parent_inode`: the record after the first, if it is called "..". */
  function GetParent(v: Volume, ino: nat, r: Residue): u32 {
    if ino == 1 then 1
    else match DirBuffer(v, ino, r)
      case None => 1
      case Some(buf) =>
        var o := U16At(buf, 4);
        if o != 0 && o < BUFFER_SIZE && U16At(buf, o + 6) == 2 && buf[o + 9] == 46 && buf[o + 10] == 46
        then U32At(buf, o) else 1
  }

  predicate IsChild(buf: Buffer, o: nat, name: Name)
    requires o < BUFFER_SIZE
  {
    U32At(buf, o) != 0 && buf[o + 8] == EXT2_FT_DIR && U16At(buf, o + 6) == |name| && buf[o + 9..o + 9 + |name|] == name
  }

  function ScanChild(buf: Buffer, o: nat, name: Name): u32
    decreases BUFFER_SIZE - o
  {
    if o >= BUFFER_SIZE then 0
    else
      var n := U16At(buf, o + 4);
      if n == 0 || o + n > BUFFER_SIZE then 0
      else if IsChild(buf, o, name) then U32At(buf, o)
      else ScanChild(buf, o + n, name)
  }

  /** `find_child_inode`: the first directory entry called `name`, or 0. */
  function FindChild(v: Volume, parent: nat, name: Name, r: Residue): u32 {
    if parent == 0 then 0
    else match DirBuffer(v, parent, r)
      case None => 0
      case Some(buf) => ScanChild(buf, 0, name)
  }

  predicate IsNameOf(buf: Buffer, o: nat, ino: nat)
    requires o < BUFFER_SIZE
  {
    var n := U16At(buf, o + 6);
    U32At(buf, o) == ino && 0 < n < MAX_COMPONENT && buf[o + 9..o + 9 + n] != DOT && buf[o + 9..o + 9 + n] != DOTDOT
  }

  /** The search of `update_path_display`: the first entry for inode `ino`, the dots excepted. */
  function ScanName(buf: Buffer, o: nat, ino: nat): Option<Name>
    decreases BUFFER_SIZE - o
  {
    if o >= BUFFER_SIZE then None
    else
      var n := U16At(buf, o + 4);
      if n == 0 then None
      else if IsNameOf(buf, o, ino) then
        var name: Name := buf[o + 9..o + 9 + U16At(buf, o + 6)];
        Some(name)
      else ScanName(buf, o + n, ino)
  }

  const MAX_DEPTH := 31

  /** The climb of `update_path_display`: the names from inode `ino` up, innermost first. */
  function PartsUp(v: Volume, ino: nat, depth: nat, res: nat -> Residue): seq<CString>
    decreases MAX_DEPTH - depth
  {
    if ino == 1 || depth >= MAX_DEPTH then []
    else
      var parent := GetParent(v, ino, res(2 * depth));
      if parent == ino then []
      else match DirBuffer(v, parent, res(2 * depth + 1))
        case None => []
        case Some(buf) =>
          match ScanName(buf, 0, ino)
          case None => []
          case Some(name) => [Str(name)] + PartsUp(v, parent, depth + 1, res)
  }

  function Reversed(s: seq<CString>): seq<CString> { if s == [] then [] else Reversed(s[1..]) + [s[0]] }

  /** `update_path_display`. */
  function Display(v: Volume, ino: nat, res: nat -> Residue): CString { Joined(Reversed(PartsUp(v, ino, 0, res))) }

  /** One component of `cd`. */
  function CdStep(v: Volume, target: nat, c: CString, r: Residue): Option<nat> {
    if |c| == 0 || c == DOT then Some(target)
    else if c == DOTDOT then
      var parent := GetParent(v, target, r);
      Some(if parent != 0 then parent else target)
    else
      var child := if |c| < 256 then FindChild(v, target, c, r) else 0;
      if child == 0 then None else Some(child)
  }

  function CdWalk(v: Volume, target: nat, cs: seq<CString>, i: nat, res: nat -> Residue): Option<nat>
    decreases |cs|
  {
    if cs == [] then Some(target)
    else match CdStep(v, target, cs[0], res(i))
      case None => None
      case Some(t) => CdWalk(v, t, cs[1..], i + 1, res)
  }

  const MAX_COMPONENTS := 16

  /** `cd`: where it leads from inode `from`, or `from` itself when a component is missing. */
  function Cd(v: Volume, from: nat, path: CString, res: nat -> Residue): nat {
    var start := if path != [] && path[0] == SLASH then 1 else from;
    match CdWalk(v, start, SplitPath(path, MAX_COMPONENTS), 0, res)
    case None => from
    case Some(t) => t
  }

  // ----- what the buffer shows of a directory -----

  /** No scan that runs off the block of any directory finds a name in what lies past it. */
  ghost predicate Barren(v: Volume, r: Residue) {
    forall k: nat :: DirBuffer(v, k, r).Some? ==> NothingPast(DirBuffer(v, k, r).value)
  }

  ghost predicate NothingPast(buf: Buffer) { forall name: Name :: ScanChild(buf, 512, name) == 0 }

  /** A zero record length right past the block, which ends every such scan. */
  predicate Quiet(r: Residue) { U16At(r.spill, 4) == 0 && U16At(r.stack, 516) == 0 }

  ghost predicate Shows(buf: Buffer, b: Block) { forall i :: 0 <= i < 512 ==> buf[i] == b[i] }

  lemma ShownBlock(b: Block, spill: seq<byte>, stack: seq<byte>, size: nat)
    requires |spill| == 8192 && |stack| == 8704 && 512 <= size <= 8192
    requires size == 512 || size >= 1024
    ensures |(b + spill)[..size]| == size && Shows(Shown((b + spill)[..size], stack), b)
    ensures U16At(spill, 4) == 0 && U16At(stack, 516) == 0 ==> U16At(Shown((b + spill)[..size], stack), 516) == 0
    ensures size == 512 ==> Shown((b + spill)[..size], stack)[512..] == stack[512..]
  {
    var bytes := (b + spill)[..size];
    var buf := Shown(bytes, stack);
    if size == 512 {
      assert buf[516] == stack[516] && buf[517] == stack[517];
    } else {
      assert buf[516] == spill[4] && buf[517] == spill[5];
    }
  }

  lemma DotFound(b: Block, k: nat)
    requires Dots(b, k)
    ensures Chain(b, 0) && FindName(b, 0, DOT) == 0 && Sound(b, 0) && FileType(b, 0) == EXT2_FT_DIR
    ensures EntInode(b, 0) == k
  {
    hide U16At, U32At, SlackZero, NameAt, Dots, Entries;
    DotEntry(b, k, 0);
    DotsHead(b, k);
    ChainHead(b, 0);
    DotNames(b, k);
    assert EntryAt(b, 0).name == DOT;
  }

  lemma DotNames(b: Block, k: nat)
    requires Dots(b, k)
    ensures Chain(b, 0) && |Entries(b, 0)| >= 2 && Entries(b, 0)[0].name == DOT && Entries(b, 0)[1].name == DOTDOT
    ensures Entries(b, 0)[0].at == 0 && Entries(b, 0)[1].at == 12
  {
    hide Chain, Entries;
  }

  lemma FindFirst(d: Disk, n: Inode)
    requires DirOK(d, n) && n.blocks >= 1 && DirBlockOK(d, n.block[0]) && FindName(d[n.block[0]], 0, DOT) == 0
    ensures FindEntry(d, n, 0, DOT) == Place(0, 0)
  {
    hide FindName, Chain;
  }

  /** Reading "." of a directory fills the buffer with the directory's first block. */
  lemma SeenDirectory(v: Volume, fs: FS, k: nat, r: Residue)
    requires Inv(v, fs) && IsDirectory(fs, k)
    ensures ValidInode(k) && |fs.tree[k]| > 0 && fs.tree[k][0] < 2048 && Dots(v.disk[fs.tree[k][0]], k)
    ensures DirBuffer(v, k, r).Some? && Shows(DirBuffer(v, k, r).value, v.disk[fs.tree[k][0]])
    ensures Quiet(r) ==> U16At(DirBuffer(v, k, r).value, 516) == 0
    ensures |fs.tree[k]| == 1 ==> DirBuffer(v, k, r).value[512..] == r.stack[512..]
  {
    hide Inv, Holds, Node, IsDirMode, Dots, Chain, FindName, Shown, Shows, Sound, FileType, EntInode, U16At, DirBlockOK,
      Meta;
    InvParts(v, fs);
    TreeOfSound(v, fs, k);
    var q := DotRequest(k);
    InvParentOK(v, fs, q);
    DirectoryNode(v, fs, k);
    var n, blk := Node(v.disk, k), fs.tree[k][0];
    DirectoryFound(v, fs, k);
    assert IsDirBlock(fs, k, 0, blk);
    DirBlockFacts(v, fs, {}, {}, k, 0, blk);
    DotFound(v.disk[blk], k);
    FindFirst(v.disk, n);
    ShownBlock(v.disk[blk], r.spill, r.stack, n.size);
  }

  // ----- the scans read the list of entries -----

  /** First directory entry called `name`. */
  function DirLookup(es: seq<Entry>, name: Name): (r: nat)
    ensures r <= |es|
    ensures r < |es| ==> es[r].ftype == EXT2_FT_DIR && es[r].name == name
    ensures forall i :: 0 <= i < r ==> !(es[i].ftype == EXT2_FT_DIR && es[i].name == name)
  {
    if es == [] then 0 else if es[0].ftype == EXT2_FT_DIR && es[0].name == name then 0 else 1 + DirLookup(es[1..], name)
  }

  predicate Nameable(n: Name) { 0 < |n| < MAX_COMPONENT && n != DOT && n != DOTDOT }

  /** First entry for inode `ino` whose name can be printed. */
  function NameIndex(es: seq<Entry>, ino: nat): (r: nat)
    ensures r <= |es|
    ensures r < |es| ==> es[r].ino == ino && Nameable(es[r].name)
    ensures forall i :: 0 <= i < r ==> !(es[i].ino == ino && Nameable(es[i].name))
  {
    if es == [] then 0 else if es[0].ino == ino && Nameable(es[0].name) then 0 else 1 + NameIndex(es[1..], ino)
  }

  lemma IndexCons(e: Entry, es: seq<Entry>, name: Name, ino: nat)
    ensures DirLookup([e] + es, name) == if e.ftype == EXT2_FT_DIR && e.name == name then 0 else 1 + DirLookup(es, name)
    ensures NameIndex([e] + es, ino) == if e.ino == ino && Nameable(e.name) then 0 else 1 + NameIndex(es, ino)
  {
    assert ([e] + es)[1..] == es;
  }

  /** A record reads the same from the buffer as from the block. */
  lemma RecordShown(buf: Buffer, b: Block, o: nat)
    requires Sound(b, o) && Shows(buf, b)
    ensures U32At(buf, o) == EntInode(b, o) && U16At(buf, o + 4) == RecLen(b, o) && U16At(buf, o + 6) == NameLen(b, o)
    ensures buf[o + 8] == FileType(b, o) && buf[o + 9..o + 9 + NameLen(b, o)] == NameAt(b, o)
  {
    hide SlackZero;
    forall i | 0 <= i < NameLen(b, o) ensures buf[o + 9..o + 9 + NameLen(b, o)][i] == NameAt(b, o)[i] {
      assert buf[o + 9 + i] == b[o + 9 + i];
    }
  }

  lemma IsChildShown(buf: Buffer, b: Block, o: nat, name: Name)
    requires Sound(b, o) && Shows(buf, b)
    ensures IsChild(buf, o, name) <==> Live(b, o) && FileType(b, o) == EXT2_FT_DIR && NameAt(b, o) == name
  {
    hide Sound, Shows, U16At, U32At;
    RecordShown(buf, b, o);
  }

  lemma IsNameShown(buf: Buffer, b: Block, o: nat, ino: nat)
    requires Sound(b, o) && Shows(buf, b)
    ensures IsNameOf(buf, o, ino) <==> EntInode(b, o) == ino && Nameable(NameAt(b, o))
  {
    hide Sound, Shows, U16At, U32At;
    RecordShown(buf, b, o);
  }

  lemma ScanChildStep(buf: Buffer, b: Block, o: nat, name: Name)
    requires Sound(b, o) && Shows(buf, b)
    ensures ScanChild(buf, o, name) ==
      if Live(b, o) && FileType(b, o) == EXT2_FT_DIR && NameAt(b, o) == name then EntInode(b, o)
      else ScanChild(buf, o + RecLen(b, o), name)
  {
    hide Shows, U16At, U32At, NameAt, IsChild, Live, FileType, EntInode;
    IsChildShown(buf, b, o, name);
    RecordShown(buf, b, o);
  }

  lemma ScanNameStep(buf: Buffer, b: Block, o: nat, ino: nat)
    requires Sound(b, o) && Shows(buf, b)
    ensures ScanName(buf, o, ino) ==
      if EntInode(b, o) == ino && Nameable(NameAt(b, o)) then Some(NameAt(b, o))
        else ScanName(buf, o + RecLen(b, o), ino)
  {
    hide Shows, U16At, U32At, NameAt, IsNameOf, Live, FileType, EntInode, Nameable;
    IsNameShown(buf, b, o, ino);
    RecordShown(buf, b, o);
  }

  lemma EntriesHead(b: Block, o: nat)
    requires Chain(b, o) && o < 512
    ensures Sound(b, o) && Chain(b, o + RecLen(b, o))
    ensures Entries(b, o) == (if Live(b, o) then [EntryAt(b, o)] else []) + Entries(b, o + RecLen(b, o))
  {
    hide Sound, EntryAt;
  }

  /** `find_child_inode` over the block finds the first directory entry of that name, else it runs on past the block. */
  lemma {:induction false} ScanChildIs(buf: Buffer, b: Block, o: nat, name: Name)
    requires Chain(b, o) && Shows(buf, b)
    ensures var j, es := DirLookup(Entries(b, o), name), Entries(b, o);
      ScanChild(buf, o, name) == if j < |es| then es[j].ino else ScanChild(buf, 512, name)
    decreases 512 - o
  {
    hide Shows, U16At, U32At, NameAt, Chain, Entries, Live, Sound, ScanChild, DirLookup, FileType, EntInode, RecLen;
    if o < 512 {
      EntriesHead(b, o);
      RecordsAdvance(b, o);
      ScanChildStep(buf, b, o, name);
      ScanChildIs(buf, b, o + RecLen(b, o), name);
      var rest := Entries(b, o + RecLen(b, o));
      if Live(b, o) {
        IndexCons(EntryAt(b, o), rest, name, 0);
      } else {
        assert [] + rest == rest;
      }
    } else {
      ChainPast(b, o);
      NothingThere(name, 0);
    }
  }

  lemma RecordsAdvance(b: Block, o: nat)
    requires Sound(b, o)
    ensures Fits(o) && RecLen(b, o) > 0
  {
    hide U16At, SlackZero;
  }

  lemma ChainPast(b: Block, o: nat)
    requires Chain(b, o) && o >= 512
    ensures o == 512 && Entries(b, o) == []
  {}

  lemma NothingThere(name: Name, ino: nat)
    ensures DirLookup([], name) == 0 && NameIndex([], ino) == 0
  {}

  lemma {:induction false} ScanNameIs(buf: Buffer, b: Block, o: nat, ino: nat)
    requires Chain(b, o) && Shows(buf, b) && ino != 0
    ensures var j, es := NameIndex(Entries(b, o), ino), Entries(b, o);
      ScanName(buf, o, ino) == if j < |es| then Some(es[j].name) else ScanName(buf, 512, ino)
    decreases 512 - o
  {
    hide Shows, U16At, U32At, NameAt, Chain, Entries, Sound, ScanName, NameIndex, FileType, RecLen, Nameable;
    if o < 512 {
      EntriesHead(b, o);
      RecordsAdvance(b, o);
      ScanNameStep(buf, b, o, ino);
      ScanNameIs(buf, b, o + RecLen(b, o), ino);
      var rest := Entries(b, o + RecLen(b, o));
      if Live(b, o) {
        IndexCons(EntryAt(b, o), rest, [], ino);
      } else {
        assert [] + rest == rest;
      }
    } else {
      ChainPast(b, o);
      NothingThere([], ino);
    }
  }

  /** `get_parent_inode` answers what ".." of the directory names. */
  lemma ParentIsUp(v: Volume, fs: FS, depth: map<nat, nat>, k: nat, r: Residue)
    requires IsDirectory(fs, k) && Inv(v, fs) && TreeOK(v.disk, fs, depth)
    ensures GetParent(v, k, r) == Up(v.disk, fs, k)
  {
    hide Inv, Dots, Chain, DirBuffer, Shows, Up, UpIn, TreeOK, U16At, U32At, Sound, EntInode, NameAt, Entries, Live;
    SeenDirectory(v, fs, k, r);
    NoLoops(v, fs, depth, k);
    if k != 1 {
      var b, buf := v.disk[fs.tree[k][0]], DirBuffer(v, k, r).value;
      UpIs(v.disk, fs, k);
      SecondIsUp(b, k);
      RecordShown(buf, b, 0);
      RecordShown(buf, b, 12);
      assert buf[21..23][0] == 46 && buf[21..23][1] == 46;
    }
  }

  lemma SecondIsUp(b: Block, k: nat)
    requires Dots(b, k)
    ensures Sound(b, 0) && RecLen(b, 0) == 12 && Sound(b, 12) && EntInode(b, 12) == UpIn(b)
    ensures NameLen(b, 12) == 2 && NameAt(b, 12) == DOTDOT
  {
    hide Dots, U16At, U32At, SlackZero, NameAt, Entries;
    DotEntry(b, k, 12);
    DotsHead(b, k);
    SecondLive(b, k);
    ChainHead(b, 0);
    ChainHead(b, 12);
    DotNames(b, k);
    assert EntryAt(b, 12).name == DOTDOT;
  }

  /** `find_child_inode` in a directory. */
  lemma ChildIsListed(v: Volume, fs: FS, p: nat, name: Name, r: Residue)
    requires Inv(v, fs) && IsDirectory(fs, p)
    ensures var es := FirstEntries(v.disk, fs, p);
      && (DirLookup(es, name) < |es| ==> FindChild(v, p, name, r) == es[DirLookup(es, name)].ino)
      && (DirLookup(es, name) == |es| && Barren(v, r) ==> FindChild(v, p, name, r) == 0)
  {
    hide Inv, Dots, DirBuffer, Shows, U16At, Entries, DirLookup, ScanChild, Barren;
    SeenDirectory(v, fs, p, r);
    var b, buf := v.disk[fs.tree[p][0]], DirBuffer(v, p, r).value;
    DotNames(b, p);
    ScanChildIs(buf, b, 0, name);
    if Barren(v, r) { BarrenScan(v, p, r, name); }
  }

  lemma BarrenScan(v: Volume, k: nat, r: Residue, name: Name)
    requires DirBuffer(v, k, r).Some? && Barren(v, r)
    ensures ScanChild(DirBuffer(v, k, r).value, 512, name) == 0
  {
    hide DirBuffer, ScanChild;
    assert NothingPast(DirBuffer(v, k, r).value);
  }

  lemma OnlyDirectoriesShow(v: Volume, fs: FS, k: nat, r: Residue)
    requires Inv(v, fs) && DirBuffer(v, k, r).Some?
    ensures IsDirectory(fs, k)
  {
    hide Inv, Node, IsDirMode, FindEntry, ReadDirectoryAt, Shown, DirOK;
    DirectoryFound(v, fs, k);
  }

  /** A zero record length past the block is enough. */
  lemma QuietIsBarren(v: Volume, fs: FS, r: Residue)
    requires Quiet(r) && Inv(v, fs)
    ensures Barren(v, r)
  {
    hide Inv, DirBuffer, Quiet, U16At, ScanChild, Shows, Dots;
    forall k: nat | DirBuffer(v, k, r).Some? ensures NothingPast(DirBuffer(v, k, r).value) {
      OnlyDirectoriesShow(v, fs, k, r);
      SeenDirectory(v, fs, k, r);
      ZeroPast(DirBuffer(v, k, r).value);
    }
  }

  lemma ZeroPast(buf: Buffer)
    requires U16At(buf, 516) == 0
    ensures NothingPast(buf)
  {
    hide U32At;
  }

  /** A stack that holds a directory record where the buffer goes on after the block. */
  function Forged(ino: u32, name: Name): Residue {
    Leftovers(seq(8192, i => 0),
      seq(512, i => 0) + EncEntry(ino, 268, EXT2_FT_DIR, name) + seq(8192 - (9 + |name|), i => 0))
  }

  /** Then any name that the directory does not list leads to the forged inode: the stack decides where `cd` goes. */
  lemma ForgedIsFound(v: Volume, fs: FS, p: nat, ino: u32, name: Name)
    requires IsDirectory(fs, p) && |fs.tree[p]| == 1 && ino != 0 && Inv(v, fs)
    requires DirLookup(FirstEntries(v.disk, fs, p), name) == |FirstEntries(v.disk, fs, p)|
    ensures FindChild(v, p, name, Forged(ino, name)) == ino
  {
    hide Inv, Dots, DirBuffer, Shows, U16At, Entries, DirLookup, ScanChild, Forged, Quiet;
    var r := Forged(ino, name);
    SeenDirectory(v, fs, p, r);
    var b, buf := v.disk[fs.tree[p][0]], DirBuffer(v, p, r).value;
    DotNames(b, p);
    ScanChildIs(buf, b, 0, name);
    ForgedScan(buf, ino, name);
  }

  lemma ForgedScan(buf: Buffer, ino: u32, name: Name)
    requires buf[512..] == Forged(ino, name).stack[512..] && ino != 0
    ensures ScanChild(buf, 512, name) == ino
  {
    hide U16At, U32At, ScanChild;
    var e, n := EncEntry(ino, 268, EXT2_FT_DIR, name), |name|;
    assert Forged(ino, name).stack[512..][..9 + n] == e;
    assert buf[512..521 + n] == buf[512..][..9 + n] == e;
    ForgedHeader(buf, e, ino, name);
    assert buf[521..521 + n] == buf[512..521 + n][9..] == name;
    ScanChildTurn(buf, 512, name);
  }

  lemma ForgedHeader(buf: Buffer, e: seq<byte>, ino: u32, name: Name)
    requires e == EncEntry(ino, 268, EXT2_FT_DIR, name) && buf[512..521 + |name|] == e
    ensures U32At(buf, 512) == ino && U16At(buf, 516) == 268 && U16At(buf, 518) == |name| && buf[520] == EXT2_FT_DIR
  {
    assert forall i :: 0 <= i < 9 ==> buf[512 + i] == e[i];
    assert U32At(e, 0) == U32At(Le32(ino), 0);
    assert U16At(e, 4) == U16At(Le16(268), 0);
    assert U16At(e, 6) == U16At(Le16(|name|), 0);
  }

  lemma ScanChildTurn(buf: Buffer, o: nat, name: Name)
    ensures ScanChild(buf, o, name) ==
      if o >= BUFFER_SIZE || U16At(buf, o + 4) == 0 || o + U16At(buf, o + 4) > BUFFER_SIZE then 0
      else if IsChild(buf, o, name) then U32At(buf, o)
      else ScanChild(buf, o + U16At(buf, o + 4), name)
  {
    hide U16At, U32At, IsChild;
  }

  // ----- the names on the way from the root -----

  /** Following ".." `n` times from directory `k` reaches the root for the first time. */
  ghost predicate Lineage(d: Disk, fs: FS, k: nat, n: nat)
    decreases n
  {
    IsDirectory(fs, k) && if n == 0 then k == 1 else k != 1 && Lineage(d, fs, Up(d, fs, k), n - 1)
  }

  /** Every directory has a lineage. */
  lemma {:induction false} HasLineage(d: Disk, fs: FS, depth: map<nat, nat>, k: nat) returns (n: nat)
    requires TreeOK(d, fs, depth) && IsDirectory(fs, k)
    ensures Lineage(d, fs, k, n)
    decreases if k in depth then depth[k] else 0
  {
    hide Up, TreeOK;
    UpStep(d, fs, depth, k);
    if k == 1 {
      n := 0;
    } else {
      n := HasLineage(d, fs, depth, Up(d, fs, k));
      n := n + 1;
    }
  }

  lemma {:induction false} LineageOnce(d: Disk, fs: FS, k: nat, n: nat, m: nat)
    requires Lineage(d, fs, k, n) && Lineage(d, fs, k, m)
    ensures n == m
    decreases n
  {
    hide Up;
    if n > 0 && m > 0 { LineageOnce(d, fs, Up(d, fs, k), n - 1, m - 1); }
  }

  /** The name under which the first block of its parent lists directory `k`. */
  function NameOf(d: Disk, fs: FS, k: nat): Name {
    var es := FirstEntries(d, fs, Up(d, fs, k));
    if NameIndex(es, k) < |es| then es[NameIndex(es, k)].name else []
  }

  /** Each directory on the way is listed in its parent's first block under a plain name. */
  predicate Printable(d: Disk, fs: FS, k: nat, n: nat)
    decreases n
  {
    n == 0 || (Plain(NameOf(d, fs, k)) && Printable(d, fs, Up(d, fs, k), n - 1))
  }

  /** On the way, the first directory called by a name is the one meant. */
  predicate Unshadowed(d: Disk, fs: FS, k: nat, n: nat)
    decreases n
  {
    n == 0 || (Leads(d, fs, k) && Unshadowed(d, fs, Up(d, fs, k), n - 1))
  }

  predicate Leads(d: Disk, fs: FS, k: nat) {
    var es := FirstEntries(d, fs, Up(d, fs, k));
    DirLookup(es, NameOf(d, fs, k)) < |es| && es[DirLookup(es, NameOf(d, fs, k))].ino == k
  }

  lemma PrintableStep(d: Disk, fs: FS, k: nat, n: nat)
    requires n > 0 && Printable(d, fs, k, n)
    ensures Plain(NameOf(d, fs, k)) && 0 !in NameOf(d, fs, k) && Printable(d, fs, Up(d, fs, k), n - 1)
  {
    hide Up, NameIndex, FirstEntries, NameOf;
  }

  /** The names from the root down to `k`. */
  function PathNames(d: Disk, fs: FS, k: nat, n: nat): (r: seq<CString>)
    requires Printable(d, fs, k, n)
    ensures |r| == n
    decreases n
  {
    hide Up, NameIndex, FirstEntries, NameOf, Printable, Plain;
    if n == 0 then []
    else
      PrintableStep(d, fs, k, n);
      PathNames(d, fs, Up(d, fs, k), n - 1) + [NameOf(d, fs, k)]
  }

  lemma {:induction false} NamesArePlain(d: Disk, fs: FS, k: nat, n: nat)
    requires Printable(d, fs, k, n)
    ensures AllPlain(PathNames(d, fs, k, n)) && forall i :: 0 <= i < n ==> Nameable(PathNames(d, fs, k, n)[i])
    decreases n
  {
    hide Up, NameIndex, FirstEntries;
    if n > 0 { NamesArePlain(d, fs, Up(d, fs, k), n - 1); }
  }

  lemma {:induction false} StrPlain(name: seq<byte>)
    requires Plain(name)
    ensures Str(name) == name
  {
    assert name[..|name|] == name;
    StrWhole(name, |name|);
  }

  lemma NameIsSeen(v: Volume, fs: FS, p: nat, ino: nat, r: Residue)
    requires Inv(v, fs) && IsDirectory(fs, p) && ino != 0
    ensures var es := FirstEntries(v.disk, fs, p);
      DirBuffer(v, p, r).Some? &&
      (NameIndex(es, ino) < |es| ==> ScanName(DirBuffer(v, p, r).value, 0, ino) == Some(es[NameIndex(es, ino)].name))
  {
    hide Inv, Dots, DirBuffer, Shows, U16At, Entries, NameIndex, ScanName, Quiet;
    SeenDirectory(v, fs, p, r);
    DotNames(v.disk[fs.tree[p][0]], p);
    ScanNameIs(DirBuffer(v, p, r).value, v.disk[fs.tree[p][0]], 0, ino);
  }

  lemma PartsUnfold(v: Volume, k: nat, i: nat, res: nat -> Residue, parent: nat, buf: Buffer, name: Name)
    requires k != 1 && i < MAX_DEPTH && GetParent(v, k, res(2 * i)) == parent && parent != k
    requires DirBuffer(v, parent, res(2 * i + 1)) == Some(buf) && ScanName(buf, 0, k) == Some(name)
    ensures PartsUp(v, k, i, res) == [Str(name)] + PartsUp(v, parent, i + 1, res)
  {
    hide GetParent, DirBuffer, ScanName, Str;
  }

  lemma NameOfIs(d: Disk, fs: FS, k: nat)
    requires Plain(NameOf(d, fs, k))
    ensures var es := FirstEntries(d, fs, Up(d, fs, k));
        NameIndex(es, k) < |es| && es[NameIndex(es, k)].name == NameOf(d, fs, k)
  {
    hide NameIndex, FirstEntries, Up;
  }

  /** One turn of the climb. */
  lemma PartsStep(v: Volume, fs: FS, depth: map<nat, nat>, k: nat, i: nat, res: nat -> Residue)
    requires IsDirectory(fs, k) && k != 1 && i < MAX_DEPTH && Plain(NameOf(v.disk, fs, k))
    requires Inv(v, fs) && TreeOK(v.disk, fs, depth)
    ensures PartsUp(v, k, i, res) == [NameOf(v.disk, fs, k)] + PartsUp(v, Up(v.disk, fs, k), i + 1, res)
  {
    hide Inv, TreeOK, Up, DirBuffer, GetParent, ScanName, NameIndex, FirstEntries, NameOf, PartsUp, Plain, Str;
    var p, name := Up(v.disk, fs, k), NameOf(v.disk, fs, k);
    ParentIsUp(v, fs, depth, k, res(2 * i));
    NoLoops(v, fs, depth, k);
    KIsPositive(v, fs, k);
    NameIsSeen(v, fs, p, k, res(2 * i + 1));
    NameOfIs(v.disk, fs, k);
    StrPlain(name);
    PartsUnfold(v, k, i, res, p, DirBuffer(v, p, res(2 * i + 1)).value, name);
  }

  lemma KIsPositive(v: Volume, fs: FS, k: nat)
    requires IsDirectory(fs, k) && Inv(v, fs)
    ensures k != 0
  {
    hide Inv, Holds;
    InvParts(v, fs);
    TreeOfSound(v, fs, k);
  }

  /** What the climb collects are the names on the way, innermost first. */
  lemma {:induction false} PartsAreNames(v: Volume, fs: FS, depth: map<nat, nat>, k: nat, n: nat, i: nat,
      res: nat -> Residue)
    requires Lineage(v.disk, fs, k, n) && Printable(v.disk, fs, k, n) && i + n <= MAX_DEPTH
    requires Inv(v, fs) && TreeOK(v.disk, fs, depth)
    ensures Reversed(PartsUp(v, k, i, res)) == PathNames(v.disk, fs, k, n)
    decreases n
  {
    hide Inv, TreeOK, Up, NameOf, PartsUp;
    if n == 0 {
      PartsAtRoot(v, i, res);
    } else {
      PartsStep(v, fs, depth, k, i, res);
      var rest := PartsUp(v, Up(v.disk, fs, k), i + 1, res);
      assert ([NameOf(v.disk, fs, k)] + rest)[1..] == rest;
      PartsAreNames(v, fs, depth, Up(v.disk, fs, k), n - 1, i + 1, res);
    }
  }

  lemma PartsAtRoot(v: Volume, i: nat, res: nat -> Residue)
    ensures PartsUp(v, 1, i, res) == []
  {}

  // ----- walking them down again -----

  lemma {:induction false} WalkAppend(v: Volume, t: nat, cs: seq<CString>, c: CString, i: nat, res: nat -> Residue)
    ensures CdWalk(v, t, cs + [c], i, res) ==
      match CdWalk(v, t, cs, i, res)
      case None => None
      case Some(u) => CdStep(v, u, c, res(i + |cs|))
    decreases |cs|
  {
    hide CdStep;
    if cs == [] {
      assert [] + [c] == [c];
    } else {
      assert (cs + [c])[1..] == cs[1..] + [c];
      match CdStep(v, t, cs[0], res(i))
      case None =>
      case Some(u) => WalkAppend(v, u, cs[1..], c, i + 1, res);
    }
  }

  lemma StepDown(v: Volume, t: nat, c: CString, r: Residue)
    requires |c| < MAX_COMPONENT && Nameable(c)
    ensures CdStep(v, t, c, r) == if FindChild(v, t, c, r) == 0 then None else Some(FindChild(v, t, c, r) as nat)
  {
    hide FindChild;
  }

  /** Unshadowed names lead down to the directory they were printed for. */
  lemma {:induction false} NamesLeadBack(v: Volume, fs: FS, depth: map<nat, nat>, k: nat, n: nat, res: nat -> Residue)
    requires Lineage(v.disk, fs, k, n) && Printable(v.disk, fs, k, n) && Unshadowed(v.disk, fs, k, n)
    requires Inv(v, fs) && TreeOK(v.disk, fs, depth)
    ensures CdWalk(v, 1, PathNames(v.disk, fs, k, n), 0, res) == Some(k)
    decreases n
  {
    hide Inv, TreeOK, Up, NameOf, CdWalk, CdStep, FindChild, FirstEntries;
    if n == 0 {
      WalkNothing(v, 1, 0, res);
    } else {
      var p, c := Up(v.disk, fs, k), NameOf(v.disk, fs, k);
      NamesLeadBack(v, fs, depth, p, n - 1, res);
      WalkAppend(v, 1, PathNames(v.disk, fs, p, n - 1), c, 0, res);
      NamesArePlain(v.disk, fs, k, n);
      assert c == PathNames(v.disk, fs, k, n)[n - 1];
      StepDown(v, p, c, res(n - 1));
      LineageDirectory(v.disk, fs, p, n - 1);
      ChildIsListed(v, fs, p, c, res(n - 1));
      KIsPositive(v, fs, k);
    }
  }

  lemma LineageDirectory(d: Disk, fs: FS, k: nat, n: nat)
    requires Lineage(d, fs, k, n)
    ensures IsDirectory(fs, k)
  {}

  lemma WalkNothing(v: Volume, t: nat, i: nat, res: nat -> Residue)
    ensures CdWalk(v, t, [], i, res) == Some(t)
  {}

  /** A name other than the dots that the first block of `p` gives to a directory leads to a child of `p`. */
  lemma ChildOf(v: Volume, fs: FS, depth: map<nat, nat>, p: nat, j: nat)
    requires IsDirectory(fs, p) && j < |FirstEntries(v.disk, fs, p)| && Nameable(FirstEntries(v.disk, fs, p)[j].name)
    requires Inv(v, fs) && TreeOK(v.disk, fs, depth)
    ensures var e := FirstEntries(v.disk, fs, p)[j];
      && e.ino in fs.tree && e.ino != 1 && (e.ftype == EXT2_FT_DIR <==> IsDirectory(fs, e.ino))
      && (IsDirectory(fs, e.ino) ==> Up(v.disk, fs, e.ino) == p)
  {
    hide Inv, Holds, Dots, Chain, Entries, Up, Listed, Meta, EntryOK, FirstEntries, Nameable, Names;
    var t := FirstEntries(v.disk, fs, p)[j].ino;
    var blk := BehindTheDots(v, fs, p, j);
    NamedAtHome(v, fs, p, 0, j, t);
    InvParts(v, fs);
    DirBlockFacts(v, fs, {}, {}, p, 0, blk);
    BehindSkip(v.disk, fs, p, j, t);
    NamedEntry(v.disk[blk], fs, blk, 2, j);
    EntryType(fs, blk, Entries(v.disk[blk], 0)[j]);
    if IsDirectory(fs, t) { assert UpOK(v.disk, fs, depth, t); }
  }

  lemma BehindSkip(d: Disk, fs: FS, p: nat, j: nat, t: nat)
    requires Names(d, fs, p, 0, j, t)
    ensures j >= 2
  {
    hide Chain, Entries;
  }

  /** One step down, when nothing is found past the block. */
  lemma StepLands(v: Volume, fs: FS, depth: map<nat, nat>, p: nat, c: CString, r: Residue, t: nat)
    requires |c| < MAX_COMPONENT && Nameable(c) && Barren(v, r) && IsDirectory(fs, p) && CdStep(v, p, c, r) == Some(t)
    requires Inv(v, fs) && TreeOK(v.disk, fs, depth)
    ensures IsDirectory(fs, t) && t != 1 && Up(v.disk, fs, t) == p
    ensures var es := FirstEntries(v.disk, fs, p); DirLookup(es, c) < |es| && es[DirLookup(es, c)].ino == t
  {
    hide Inv, TreeOK, Up, FindChild, FirstEntries, CdStep, Barren;
    StepDown(v, p, c, r);
    ChildIsListed(v, fs, p, c, r);
    ChildOf(v, fs, depth, p, DirLookup(FirstEntries(v.disk, fs, p), c));
  }

  ghost predicate AllBarren(v: Volume, res: nat -> Residue) { forall i :: Barren(v, res(i)) }

  predicate AllNameable(cs: seq<CString>) { forall i :: 0 <= i < |cs| ==> |cs[i]| < MAX_COMPONENT && Nameable(cs[i]) }

  lemma RootIsDirectory(d: Disk, fs: FS, k: nat, n: nat)
    requires Lineage(d, fs, k, n)
    ensures IsDirectory(fs, 1)
    decreases n
  {
    hide Up;
    if n > 0 { RootIsDirectory(d, fs, Up(d, fs, k), n - 1); }
  }

  /** How a walk can have come to directory `t`: by plain names, each the first of its name, from the root. */
  ghost predicate Attained(d: Disk, fs: FS, t: nat, m: nat) {
    Lineage(d, fs, t, m) && Printable(d, fs, t, m) && Unshadowed(d, fs, t, m)
  }

  lemma AttainedRoot(d: Disk, fs: FS)
    requires IsDirectory(fs, 1)
    ensures Attained(d, fs, 1, 0)
  {}

  lemma AttainedUp(d: Disk, fs: FS, t: nat, m: nat)
    requires m > 0 && Attained(d, fs, t, m)
    ensures t != 1 && Attained(d, fs, Up(d, fs, t), m - 1)
  {
    hide Up;
  }

  lemma AttainedDirectory(d: Disk, fs: FS, t: nat, m: nat)
    requires Attained(d, fs, t, m)
    ensures IsDirectory(fs, t) && (m == 0 ==> t == 1)
  {
    hide Up;
  }

  lemma AttainedDown(d: Disk, fs: FS, t: nat, m: nat, c: Name)
    requires IsDirectory(fs, t) && t != 1 && Attained(d, fs, Up(d, fs, t), m)
    requires NameOf(d, fs, t) == c && Plain(c) && Leads(d, fs, t)
    ensures Attained(d, fs, t, m + 1)
  {
    hide Up, NameOf, Leads;
  }

  /** The name that leads to a child is the name the child is printed under. */
  lemma LedByName(v: Volume, fs: FS, depth: map<nat, nat>, p: nat, c: CString, t: nat)
    requires |c| < MAX_COMPONENT && Nameable(c) && IsDirectory(fs, p) && IsDirectory(fs, t) && Up(v.disk, fs, t) == p
    requires var es := FirstEntries(v.disk, fs, p); DirLookup(es, c) < |es| && es[DirLookup(es, c)].ino == t
    requires Inv(v, fs) && TreeOK(v.disk, fs, depth)
    ensures NameOf(v.disk, fs, t) == c && Leads(v.disk, fs, t)
  {
    hide Inv, TreeOK, Up, DirLookup, Plain;
    var es := FirstEntries(v.disk, fs, p);
    var i, j := NameIndex(es, t), DirLookup(es, c);
    hide NameIndex, FirstEntries;
    NamedAtOnce(v, fs, p, i, j, t);
  }

  /** No two entries of a block other than the dots name the same inode. */
  lemma NamedAtOnce(v: Volume, fs: FS, p: nat, i: nat, j: nat, t: nat)
    requires IsDirectory(fs, p) && i < |FirstEntries(v.disk, fs, p)| && j < |FirstEntries(v.disk, fs, p)|
    requires var es := FirstEntries(v.disk, fs, p);
        es[i].ino == t && es[j].ino == t && Nameable(es[i].name) && Nameable(es[j].name)
    requires Inv(v, fs)
    ensures i == j
  {
    hide Inv, FirstEntries, Nameable, Names, Chain, Entries;
    var blk := BehindTheDots(v, fs, p, i);
    var blk' := BehindTheDots(v, fs, p, j);
    NamedAtHome(v, fs, p, 0, i, t);
    NamedAtHome(v, fs, p, 0, j, t);
    PlacesDiffer(v.disk[blk], 0, i, j);
  }

  /** An entry of the first block that is not called after a dot is behind the two. */
  lemma BehindTheDots(v: Volume, fs: FS, p: nat, i: nat) returns (blk: nat)
    requires IsDirectory(fs, p) && i < |FirstEntries(v.disk, fs, p)| && Nameable(FirstEntries(v.disk, fs, p)[i].name)
    requires Inv(v, fs)
    ensures Names(v.disk, fs, p, 0, i, FirstEntries(v.disk, fs, p)[i].ino)
    ensures |fs.tree[p]| > 0 && fs.tree[p][0] == blk < 2048 && Chain(v.disk[blk], 0)
    ensures FirstEntries(v.disk, fs, p) == Entries(v.disk[blk], 0)
  {
    hide Inv, Holds, Dots, Chain, Entries, Meta;
    FirstOwned(v, fs, p);
    InvParts(v, fs);
    blk := fs.tree[p][0];
    DirBlockFacts(v, fs, {}, {}, p, 0, blk);
    DotNames(v.disk[blk], p);
  }

  /** One component of a walk, whatever it is. */
  lemma StepAttains(v: Volume, fs: FS, depth: map<nat, nat>, p: nat, m: nat, c: CString, r: Residue, t: nat)
    returns (n: nat)
    requires Plain(c) && Barren(v, r) && Attained(v.disk, fs, p, m) && CdStep(v, p, c, r) == Some(t)
    requires Inv(v, fs) && TreeOK(v.disk, fs, depth)
    ensures n <= m + 1 && Attained(v.disk, fs, t, n) && (Nameable(c) ==> n == m + 1)
  {
    hide Inv, TreeOK, Up, FindChild, FirstEntries, Barren, Attained, GetParent, NameOf, Leads, DirLookup;
    AttainedDirectory(v.disk, fs, p, m);
    if c == DOT {
      n := m;
    } else if c == DOTDOT {
      ParentIsUp(v, fs, depth, p, r);
      NoLoops(v, fs, depth, p);
      if p == 1 {
        n := 0;
        AttainedRoot(v.disk, fs);
      } else {
        n := m - 1;
        AttainedUp(v.disk, fs, p, m);
        KIsPositive(v, fs, Up(v.disk, fs, p));
      }
    } else {
      n := m + 1;
      StepLands(v, fs, depth, p, c, r, t);
      LedByName(v, fs, depth, p, c, t);
      AttainedDown(v.disk, fs, t, m, c);
    }
  }

  /** Wherever a walk from the root ends, it came there by plain, unshadowed names, no more than it had components. */
  lemma {:induction false} WalkAttains(v: Volume, fs: FS, depth: map<nat, nat>, cs: seq<CString>, res: nat -> Residue,
      t: nat)
    returns (n: nat)
    requires IsDirectory(fs, 1) && AllPlain(cs) && AllBarren(v, res) && CdWalk(v, 1, cs, 0, res) == Some(t)
    requires Inv(v, fs) && TreeOK(v.disk, fs, depth)
    ensures n <= |cs| && Attained(v.disk, fs, t, n) && (AllNameable(cs) ==> n == |cs|)
    decreases |cs|
  {
    hide Inv, TreeOK, CdWalk, CdStep, Barren, Attained, Nameable, Plain;
    if cs == [] {
      WalkNothing(v, 1, 0, res);
      AttainedRoot(v.disk, fs);
      n := 0;
    } else {
      var i := |cs| - 1;
      assert cs == cs[..i] + [cs[i]];
      WalkAppend(v, 1, cs[..i], cs[i], 0, res);
      var p := CdWalk(v, 1, cs[..i], 0, res).value;
      var m := WalkAttains(v, fs, depth, cs[..i], res, p);
      n := StepAttains(v, fs, depth, p, m, cs[i], res(i), t);
    }
  }

  lemma NamesNameable(d: Disk, fs: FS, k: nat, n: nat)
    requires Printable(d, fs, k, n)
    ensures AllPlain(PathNames(d, fs, k, n)) && AllNameable(PathNames(d, fs, k, n))
  {
    hide Nameable, PathNames, Printable;
    NamesArePlain(d, fs, k, n);
    var ns := PathNames(d, fs, k, n);
    assert forall i :: 0 <= i < |ns| ==> Plain(ns[i]);
  }

  // ----- the round trip -----

  /** The shell prints the names from the root down. */
  lemma DisplayIsPath(v: Volume, fs: FS, depth: map<nat, nat>, k: nat, n: nat, res: nat -> Residue)
    requires Lineage(v.disk, fs, k, n) && Printable(v.disk, fs, k, n) && n <= MAX_DEPTH
    requires Inv(v, fs) && TreeOK(v.disk, fs, depth)
    ensures Display(v, k, res) == Joined(PathNames(v.disk, fs, k, n))
  {
    hide Inv, TreeOK, Lineage, Printable, PathNames, PartsUp, Joined;
    PartsAreNames(v, fs, depth, k, n, 0, res);
  }

  /** No search that runs off a block finds anything. */
  ghost predicate AllQuiet(res: nat -> Residue) { forall i :: Quiet(res(i)) }

  /**
   * The names from directory `k` up, innermost first: each the first short name its parent's first block lists it
   * under; at most `n`, and none beyond a directory its parent does not list so.
   */
  function NamesUp(d: Disk, fs: FS, k: nat, n: nat): seq<CString>
    decreases n
  {
    var p := Up(d, fs, k);
    var es := FirstEntries(d, fs, p);
    if k == 1 || n == 0 || NameIndex(es, k) == |es| then []
    else [Str(es[NameIndex(es, k)].name)] + NamesUp(d, fs, p, n - 1)
  }

  lemma NameIsMissing(v: Volume, fs: FS, p: nat, ino: nat, r: Residue)
    requires Inv(v, fs) && IsDirectory(fs, p) && ino != 0 && Quiet(r)
    requires var es := FirstEntries(v.disk, fs, p); NameIndex(es, ino) == |es|
    ensures DirBuffer(v, p, r).Some? && ScanName(DirBuffer(v, p, r).value, 0, ino) == None
  {
    hide Inv, Dots, DirBuffer, Shows, U16At, Entries, NameIndex, Quiet, IsNameOf;
    SeenDirectory(v, fs, p, r);
    DotNames(v.disk[fs.tree[p][0]], p);
    ScanNameIs(DirBuffer(v, p, r).value, v.disk[fs.tree[p][0]], 0, ino);
  }

  lemma {:induction false} PartsAreNamesUp(v: Volume, fs: FS, depth: map<nat, nat>, k: nat, i: nat,
      res: nat -> Residue)
    requires IsDirectory(fs, k) && i <= 31 && AllQuiet(res) && Inv(v, fs) && TreeOK(v.disk, fs, depth)
    ensures PartsUp(v, k, i, res) == NamesUp(v.disk, fs, k, 31 - i)
    decreases 31 - i
  {
    hide Inv, TreeOK, Up, DirBuffer, GetParent, ScanName, NameIndex, FirstEntries, Str, Quiet;
    if k != 1 && i < 31 {
      var p := Up(v.disk, fs, k);
      var es := FirstEntries(v.disk, fs, p);
      ParentIsUp(v, fs, depth, k, res(2 * i));
      NoLoops(v, fs, depth, k);
      UpStep(v.disk, fs, depth, k);
      KIsPositive(v, fs, k);
      if NameIndex(es, k) < |es| {
        NameIsSeen(v, fs, p, k, res(2 * i + 1));
        PartsAreNamesUp(v, fs, depth, p, i + 1, res);
      } else {
        NameIsMissing(v, fs, p, k, res(2 * i + 1));
      }
    }
  }

  /** What the shell prints for any directory, however deep and whatever it is called. */
  lemma DisplayExactly(v: Volume, fs: FS, depth: map<nat, nat>, k: nat, res: nat -> Residue)
    requires IsDirectory(fs, k) && AllQuiet(res) && Inv(v, fs) && TreeOK(v.disk, fs, depth)
    ensures Display(v, k, res) == Joined(Reversed(NamesUp(v.disk, fs, k, 31)))
  {
    hide Inv, TreeOK, PartsUp, NamesUp, Joined, Reversed, AllQuiet;
    PartsAreNamesUp(v, fs, depth, k, 0, res);
  }

  lemma {:induction false} JoinedIsAbsolute(names: seq<CString>)
    ensures Joined(names)[0] == SLASH
  {
    if names != [] { JoinedIsAbsolute(names[..|names| - 1]); }
  }

  lemma CdIsWalk(v: Volume, from: nat, names: seq<CString>, res: nat -> Residue)
    requires AllPlain(names)
    ensures Cd(v, from, Joined(names), res) ==
      match CdWalk(v, 1, Head(names, MAX_COMPONENTS), 0, res)
      case None => from
      case Some(t) => t
  {
    hide CdWalk, Joined, SplitPath, AllPlain, Head;
    JoinedIsAbsolute(names);
    SplitKeepsFirst(names, MAX_COMPONENTS);
  }

  /** `cd` on the printed path returns to the same directory, from wherever it is called and whatever the stack held. */
  lemma CdReturns(v: Volume, fs: FS, depth: map<nat, nat>, k: nat, n: nat, from: nat, res: nat -> Residue,
      res': nat -> Residue)
    requires Lineage(v.disk, fs, k, n) && Printable(v.disk, fs, k, n) && Unshadowed(v.disk, fs, k, n)
    requires n <= MAX_COMPONENTS
    requires Inv(v, fs) && TreeOK(v.disk, fs, depth)
    ensures Cd(v, from, Display(v, k, res), res') == k
  {
    hide Inv, TreeOK, Lineage, Printable, Unshadowed, PathNames, CdWalk, Display, Cd, Joined;
    DisplayIsPath(v, fs, depth, k, n, res);
    NamesNameable(v.disk, fs, k, n);
    CdIsWalk(v, from, PathNames(v.disk, fs, k, n), res');
    NamesLeadBack(v, fs, depth, k, n, res');
  }

  /** Where a component leads by the names alone, from directory `p`. */
  function NamedStep(d: Disk, fs: FS, p: nat, c: CString): Option<nat> {
    if c == DOT then Some(p)
    else if c == DOTDOT then Some(Up(d, fs, p))
    else if |c| > 255 then None
    else
      var es := FirstEntries(d, fs, p);
      if DirLookup(es, c) < |es| then Some(es[DirLookup(es, c)].ino) else None
  }

  /** Where the components lead one after another, or nothing when one is not listed as a directory where they led. */
  function NamedWalk(d: Disk, fs: FS, p: nat, cs: seq<CString>): Option<nat>
    decreases |cs|
  {
    if cs == [] then Some(p)
    else match NamedStep(d, fs, p, cs[0])
      case None => None
      case Some(t) => NamedWalk(d, fs, t, cs[1..])
  }

  predicate LosesWay(d: Disk, fs: FS, p: nat, cs: seq<CString>) { NamedWalk(d, fs, p, cs).None? }

  lemma StepNamed(v: Volume, fs: FS, depth: map<nat, nat>, p: nat, c: CString, r: Residue)
    requires Plain(c) && Barren(v, r) && IsDirectory(fs, p) && Inv(v, fs) && TreeOK(v.disk, fs, depth)
    ensures CdStep(v, p, c, r) == NamedStep(v.disk, fs, p, c)
    ensures CdStep(v, p, c, r).Some? ==> IsDirectory(fs, CdStep(v, p, c, r).value)
  {
    hide Inv, TreeOK, Up, FindChild, FirstEntries, Barren, GetParent, DirLookup;
    if c == DOT {
    } else if c == DOTDOT {
      ParentIsUp(v, fs, depth, p, r);
      UpStep(v.disk, fs, depth, p);
      NoLoops(v, fs, depth, p);
      KIsPositive(v, fs, Up(v.disk, fs, p));
    } else {
      var es := FirstEntries(v.disk, fs, p);
      ChildIsListed(v, fs, p, c, r);
      if DirLookup(es, c) < |es| {
        ChildOf(v, fs, depth, p, DirLookup(es, c));
        KIsPositive(v, fs, es[DirLookup(es, c)].ino);
      }
    }
  }

  /** A walk goes where the names lead, and fails exactly when it loses its way among them. */
  lemma {:induction false} WalkFailsExactly(v: Volume, fs: FS, depth: map<nat, nat>, p: nat, cs: seq<CString>, i: nat,
      res: nat -> Residue)
    requires IsDirectory(fs, p) && AllPlain(cs) && AllBarren(v, res) && Inv(v, fs) && TreeOK(v.disk, fs, depth)
    ensures CdWalk(v, p, cs, i, res) == NamedWalk(v.disk, fs, p, cs)
    ensures CdWalk(v, p, cs, i, res).None? <==> LosesWay(v.disk, fs, p, cs)
    decreases |cs|
  {
    hide Inv, TreeOK, CdStep, NamedStep, Barren, Plain;
    if cs != [] {
      StepNamed(v, fs, depth, p, cs[0], res(i));
      match CdStep(v, p, cs[0], res(i))
      case None =>
      case Some(t) => WalkFailsExactly(v, fs, depth, t, cs[1..], i + 1, res);
    }
  }

  /**
   * `cd` in directory `from`, whatever the path: it ends where the names lead from `from` on, or from the root on when
   * the path begins with a slash, and stays where it is exactly when they lose their way there.
   */
  lemma CdExactly(v: Volume, fs: FS, depth: map<nat, nat>, from: nat, path: CString, res: nat -> Residue)
    requires IsDirectory(fs, from) && AllBarren(v, res) && Inv(v, fs) && TreeOK(v.disk, fs, depth)
    ensures var start := if path == [] || path[0] != 47 then from else 1;
      Cd(v, from, path, res) ==
        match NamedWalk(v.disk, fs, start, SplitPath(path, 16))
        case None => from
        case Some(t) => t
  {
    hide Inv, TreeOK, CdWalk, SplitPath, AllBarren, AllPlain, NamedWalk;
    SplitIsPlain(path, MAX_COMPONENTS);
    RootInTree(v, fs, depth, from);
    WalkFailsExactly(v, fs, depth, if path == [] || path[0] != 47 then from else 1, SplitPath(path, MAX_COMPONENTS), 0,
      res);
  }

  lemma RootInTree(v: Volume, fs: FS, depth: map<nat, nat>, k: nat)
    requires IsDirectory(fs, k) && TreeOK(v.disk, fs, depth)
    ensures IsDirectory(fs, 1)
  {
    hide TreeOK, Lineage;
    var n := HasLineage(v.disk, fs, depth, k);
    RootIsDirectory(v.disk, fs, k, n);
  }

  /** `cd` on a name that the directory lists as a directory goes to that child, whatever the stack holds. */
  lemma CdIntoChild(v: Volume, fs: FS, depth: map<nat, nat>, from: nat, name: CString, res: nat -> Residue)
    requires Plain(name) && name != DOT && name != DOTDOT && IsDirectory(fs, from)
    requires DirLookup(FirstEntries(v.disk, fs, from), name) < |FirstEntries(v.disk, fs, from)|
    requires Inv(v, fs) && TreeOK(v.disk, fs, depth)
    ensures var es, t := FirstEntries(v.disk, fs, from), Cd(v, from, name, res);
      t == es[DirLookup(es, name)].ino && IsDirectory(fs, t) && Up(v.disk, fs, t) == from
  {
    hide Inv, TreeOK, Up, FindChild, FirstEntries, DirLookup, CdStep;
    var es := FirstEntries(v.disk, fs, from);
    ChildIsListed(v, fs, from, name, res(0));
    ChildOf(v, fs, depth, from, DirLookup(es, name));
    KIsPositive(v, fs, es[DirLookup(es, name)].ino);
    StepDown(v, from, name, res(0));
    OneComponent(v, from, name, res);
  }

  /** `cd ..` goes to the parent, whatever the stack holds; in the root it stays. */
  lemma CdToParent(v: Volume, fs: FS, depth: map<nat, nat>, from: nat, res: nat -> Residue)
    requires IsDirectory(fs, from) && Inv(v, fs) && TreeOK(v.disk, fs, depth)
    ensures Cd(v, from, [46, 46], res) == Up(v.disk, fs, from) && (from == 1 ==> Up(v.disk, fs, from) == 1)
  {
    hide Inv, TreeOK, Up, GetParent;
    ParentIsUp(v, fs, depth, from, res(0));
    NoLoops(v, fs, depth, from);
    UpStep(v.disk, fs, depth, from);
    KIsPositive(v, fs, Up(v.disk, fs, from));
    OneComponent(v, from, DOTDOT, res);
  }

  lemma OneComponent(v: Volume, from: nat, c: CString, res: nat -> Residue)
    requires Plain(c)
    ensures Cd(v, from, c, res) == match CdStep(v, from, c, res(0)) case None => from case Some(t) => t
  {
    hide CdStep, Words;
    OneWord(c);
    assert Shorts([c]) == [c] by { assert [c][1..] == []; }
    assert SplitPath(c, MAX_COMPONENTS) == [c] && [c][1..] == [];
    assert c[0] in c;
    match CdStep(v, from, c, res(0)) {
      case None =>
      case Some(t) => WalkNothing(v, t, 1, res);
    }
  }

  /** Wherever an absolute path leads, at most sixteen plain, unshadowed names lead there. */
  lemma CdArrives(v: Volume, fs: FS, depth: map<nat, nat>, k: nat, from: nat, path: CString, res: nat -> Residue)
    returns (m: nat)
    requires IsDirectory(fs, 1) && path != [] && path[0] == SLASH && AllBarren(v, res)
    requires !LosesWay(v.disk, fs, 1, SplitPath(path, MAX_COMPONENTS))
    requires Cd(v, from, path, res) == k && Inv(v, fs) && TreeOK(v.disk, fs, depth)
    ensures m <= MAX_COMPONENTS && Attained(v.disk, fs, k, m)
  {
    hide Inv, TreeOK, CdWalk, SplitPath, Attained, AllBarren, AllPlain, LosesWay;
    SplitIsPlain(path, MAX_COMPONENTS);
    WalkFailsExactly(v, fs, depth, 1, SplitPath(path, MAX_COMPONENTS), 0, res);
    m := WalkAttains(v, fs, depth, SplitPath(path, MAX_COMPONENTS), res, k);
  }

  /**
   * `cd` on the printed path of a directory ends there exactly when the directory is at most sixteen levels deep and
   * every name on the way can be printed and leads to no other directory first; or when it was called there and some
   * component of the path is not listed where those before it lead.
   */
  lemma CdReturnsExactly(v: Volume, fs: FS, depth: map<nat, nat>, k: nat, n: nat, from: nat, res: nat -> Residue,
      res': nat -> Residue)
    requires Lineage(v.disk, fs, k, n) && AllBarren(v, res')
    requires Inv(v, fs) && TreeOK(v.disk, fs, depth)
    ensures Cd(v, from, Display(v, k, res), res') == k <==>
      (n <= MAX_COMPONENTS && Printable(v.disk, fs, k, n) && Unshadowed(v.disk, fs, k, n)) ||
      (from == k && LosesWay(v.disk, fs, 1, SplitPath(Display(v, k, res), MAX_COMPONENTS)))
  {
    hide Inv, TreeOK, Lineage, Printable, Unshadowed, CdWalk, PartsUp, Joined, AllBarren, SplitPath, LosesWay,
      AllPlain;
    var path := Display(v, k, res);
    JoinedIsAbsolute(Reversed(PartsUp(v, k, 0, res)));
    RootIsDirectory(v.disk, fs, k, n);
    SplitIsPlain(path, MAX_COMPONENTS);
    WalkFailsExactly(v, fs, depth, 1, SplitPath(path, MAX_COMPONENTS), 0, res');
    if n <= MAX_COMPONENTS && Printable(v.disk, fs, k, n) && Unshadowed(v.disk, fs, k, n) {
      CdReturns(v, fs, depth, k, n, from, res, res');
    } else if Cd(v, from, path, res') == k && !LosesWay(v.disk, fs, 1, SplitPath(path, MAX_COMPONENTS)) {
      var m := CdArrives(v, fs, depth, k, from, Display(v, k, res), res');
      LineageOnce(v.disk, fs, k, n, m);
      assert false;
    }
  }

  // ----- distinct sibling names are enough -----

  predicate DistinctNames(es: seq<Entry>) { forall i, j :: 0 <= i < j < |es| ==> es[i].name != es[j].name }

  predicate DistinctSiblings(d: Disk, fs: FS, k: nat, n: nat)
    decreases n
  {
    n == 0 || (DistinctNames(FirstEntries(d, fs, Up(d, fs, k))) && DistinctSiblings(d, fs, Up(d, fs, k), n - 1))
  }

  lemma {:induction false} DistinctAreUnshadowed(v: Volume, fs: FS, depth: map<nat, nat>, k: nat, n: nat)
    requires Lineage(v.disk, fs, k, n) && Printable(v.disk, fs, k, n) && DistinctSiblings(v.disk, fs, k, n)
    requires Inv(v, fs) && TreeOK(v.disk, fs, depth)
    ensures Unshadowed(v.disk, fs, k, n)
    decreases n
  {
    hide Inv, TreeOK, Up, FirstEntries, NameOf, NameIndex, DirLookup, Plain;
    if n > 0 {
      var p := Up(v.disk, fs, k);
      var es := FirstEntries(v.disk, fs, p);
      NameOfIs(v.disk, fs, k);
      LineageDirectory(v.disk, fs, p, n - 1);
      ChildOf(v, fs, depth, p, NameIndex(es, k));
      DistinctAreUnshadowed(v, fs, depth, p, n - 1);
    }
  }

  /** In a reachable volume: with distinct sibling names, depth at most sixteen and plain names, the path leads back. */
  lemma PathRoundTrip(v: Volume, fs: FS, depth: map<nat, nat>, k: nat, from: nat, res: nat -> Residue,
      res': nat -> Residue)
    returns (n: nat)
    requires IsDirectory(fs, k) && Sane(v, fs, depth)
    ensures Lineage(v.disk, fs, k, n)
    ensures n <= MAX_COMPONENTS && Printable(v.disk, fs, k, n) && DistinctSiblings(v.disk, fs, k, n) ==>
      Cd(v, from, Display(v, k, res), res') == k
  {
    hide Inv, TreeOK, DirsCounted, Lineage, Printable, DistinctSiblings, Unshadowed, Display, Cd;
    n := HasLineage(v.disk, fs, depth, k);
    if n <= MAX_COMPONENTS && Printable(v.disk, fs, k, n) && DistinctSiblings(v.disk, fs, k, n) {
      DistinctAreUnshadowed(v, fs, depth, k, n);
      CdReturns(v, fs, depth, k, n, from, res, res');
    }
  }
}
