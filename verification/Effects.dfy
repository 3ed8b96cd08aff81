/** `write` and `delete` as seen through `read`: round trips, frames and first-match lookup. */
module Effects {
  import opened Bytes
  import opened Options
  import opened Layout
  import opened Metadata
  import opened Volume
  import opened FileTree
  import opened Reading
  import opened Directory
  import opened Operations
  import opened Invariant
  import opened Writing
  import opened Observing
  import opened WriteEffects

  // ----- `read` on a sound volume -----

  predicate IsDirectory(fs: FS, k: nat) { k in fs.tree && k !in fs.data }

  /** What a name stands for in directory `k`. */
  function Resolved(v: Volume, fs: FS, k: nat, name: Name): Option<Entry> {
    Resolve(NamesIn(v, fs, k), name)
  }

  /** `read` in terms of lists of names and file contents only. */
  function SpecRead(v: Volume, fs: FS, q: Request, size: nat): Contents {
    if IsDirectory(fs, q.parent) then AbstractRead(fs, Resolved(v, fs, q.parent, q.name), size) else Contents(-1, [])
  }

  lemma NotADirectory(v: Volume, fs: FS, k: nat)
    requires Inv(v, fs) && ValidInode(k) && !IsDirectory(fs, k)
    ensures !IsDirMode(Node(v.disk, k).mode)
  {
    hide Counted, MetaUsed, OwnersOK, NamesOK, InodeUsed, Node, Synced, IsDirMode, Lays, DataOn;
    Modes();
    if k in fs.tree { assert ContentOK(v.disk, fs, k); }
  }

  lemma RootZero(v: Volume, fs: FS)
    requires Inv(v, fs)
    ensures 0 !in fs.tree && forall k :: k in fs.tree ==> ValidInode(k)
  {
    hide Counted, MetaUsed, OwnersOK, ContentsOK, NamesOK, InodeUsed, Node, Synced;
  }

  lemma ReadMeaning(v: Volume, fs: FS, q: Request, size: nat)
    requires ValidRequest(q) && ParentOK(v, q) && Inv(v, fs)
    ensures ReadOp(v, q, size) == SpecRead(v, fs, q, size)
  {
    hide Inv, Node, IsDirMode, AbstractRead, NamesIn, Resolve, FindEntry;
    RootZero(v, fs);
    if IsDirectory(fs, q.parent) {
      ReadSpec(v, fs, q, size);
    } else if q.parent != 0 {
      NotADirectory(v, fs, q.parent);
    }
  }

  // ----- read after write -----

  /** The new file fits: the driver counts its blocks without wrapping, and enough of them are free where it looks. */
  predicate FitsOn(v: Volume, q: Request)
    requires ValidRequest(q) && ParentOK(v, q) && FirstFreeInode(v.disk, 1) != 0
  {
    |q.data| <= 0xFFFF_FE00 &&
    Needed(BlocksFor(|q.data|)) <= |FreeFrom(v.disk, 256 * InodeToBgd(FirstFreeInode(v.disk, 1))) - Spent(v, q)|
  }

  /** Blocks granted to the file `write` makes. */
  function GrantedTo(v: Volume, q: Request): nat
    requires ValidRequest(q) && ParentOK(v, q)
  {
    Granted(v.disk, FirstFreeInode(v.disk, 1), |q.data|, Spent(v, q))
  }

  lemma WhenWhole(data: seq<byte>, granted: nat, free: nat)
    requires |data| < 0x1_0000_0000 && free <= 2048 && granted == Least(Needed(BlocksFor(|data|)), free)
    ensures Upto(data, DataCount(granted)) == data <==> |data| <= 0xFFFF_FE00 && Needed(BlocksFor(|data|)) <= free
  {
    hide DataCount, Needed;
    var n := BlocksFor(|data|);
    NeededLarge(n);
    if |data| > 0xFFFF_FE00 {
      assert n == 0;
      assert DataCount(0) == 0 && Needed(0) == 0 by { NoBlocks(); }
      assert |Upto(data, 0)| == 0;
    } else if Needed(n) <= free {
      NeededHoldsAll(n);
    } else {
      DataCountMonotone(granted, Needed(n));
      if DataCount(granted) >= n { NeededExact(n, granted); }
      assert 512 * DataCount(granted) <= 512 * (n - 1) < |data|;
    }
  }

  lemma NoBlocks()
    ensures DataCount(0) == 0 && Needed(0) == 0
  {}

  lemma NeededLarge(n: nat)
    ensures Needed(n) <= 2048 ==> n <= MAX_DATA
    ensures n <= MAX_DATA ==> DataCount(Needed(n)) == n
    ensures DataCount(Needed(n)) <= n
  {
    if n <= MAX_DATA { NeededHoldsAll(n); } else { assert Needed(n) == MAX_DATA + 130; FullTree(); }
  }

  lemma FullTree()
    ensures DataCount(MAX_DATA + 130) == MAX_DATA
  {}

  lemma {:induction false} FreeFromCount(d: Disk, m: nat)
    ensures |FreeFrom(d, m)| <= if m < 2048 then 2048 - m else 0
    decreases 2048 - m
  {
    hide Used;
    if m < 2048 { FreeFromCount(d, m + 1); }
  }

  lemma GrantedWhole(v: Volume, q: Request)
    requires ValidRequest(q) && ParentOK(v, q) && FirstFreeInode(v.disk, 1) != 0
    ensures Upto(q.data, DataCount(GrantedTo(v, q))) == q.data <==> FitsOn(v, q)
  {
    hide Spent, DataCount, Needed, Upto, BlocksFor, FreeFrom;
    var m := 256 * InodeToBgd(FirstFreeInode(v.disk, 1));
    FreeFromCount(v.disk, m);
    SubsetCount(FreeFrom(v.disk, m) - Spent(v, q), FreeFrom(v.disk, m));
    WhenWhole(q.data, GrantedTo(v, q), |FreeFrom(v.disk, m) - Spent(v, q)|);
  }

  /**
   * Reading a file just written returns the first blocks of its data, as many as were free where the driver looks; too
   * small a buffer is refused.
   */
  lemma ReadAfterWrite(v: Volume, fs: FS, q: Request, size: nat)
    requires ValidRequest(q) && ParentOK(v, q) && WriteSafe(v, q) && WriteCode(v, q) == 0 && !MakesDir(q)
    requires Inv(v, fs)
    ensures ParentOK(WriteOp(v, q).v, q)
    ensures ReadOp(WriteOp(v, q).v, q, size) ==
      if size < |q.data| then Contents(-1, []) else Contents(0, Upto(q.data, DataCount(GrantedTo(v, q))))
  {
    hide Inv, WriteOp, WriteSafe, ReadOp, NamesIn, Spent, DataCount, Upto, Granted, FirstFreeInode, Resolve, ParentOK;
    var fs', e, i := WriteEffect(v, fs, q);
    var v' := WriteOp(v, q).v;
    InvParentOK(v', fs', q);
    ReadMeaning(v', fs', q, size);
    InsertedResolves(NamesIn(v, fs, q.parent), NamesIn(v', fs', q.parent), e, i, q.name);
  }

  /** The round trip, exactly: a written file reads back whole if and only if it fitted. */
  lemma ReadsBackWhole(v: Volume, fs: FS, q: Request, size: nat)
    requires ValidRequest(q) && ParentOK(v, q) && WriteSafe(v, q) && WriteCode(v, q) == 0 && !MakesDir(q)
    requires Inv(v, fs)
    requires size >= |q.data|
    ensures FirstFreeInode(v.disk, 1) != 0 && ParentOK(WriteOp(v, q).v, q)
    ensures ReadOp(WriteOp(v, q).v, q, size) == Contents(0, q.data) <==> FitsOn(v, q)
  {
    hide Inv, WriteOp, WriteSafe, ReadOp, Wrote, Spent, DataCount, Upto, Granted, FirstFreeInode, ParentOK, FitsOn,
      GrantedTo;
    ReadAfterWrite(v, fs, q, size);
    NewInodeIsValid(v, fs, q);
    GrantedWhole(v, q);
  }

  lemma NewInodeIsValid(v: Volume, fs: FS, q: Request)
    requires ValidRequest(q) && ParentOK(v, q) && WriteSafe(v, q) && WriteCode(v, q) == 0 && Inv(v, fs)
    ensures ValidInode(FirstFreeInode(v.disk, 1))
  {
    hide Inv, WriteOp, WriteSafe, NamesIn, Spent, FirstFreeInode, OthersKept, NewContents, ParentOK;
    var fs', e, i := WriteEffect(v, fs, q);
  }

  /** Every other name reads as before, files and directories alike, also when it is a later duplicate's first match. */
  lemma WriteKeepsReads(v: Volume, fs: FS, q: Request, r: Request, size: nat)
    requires ValidRequest(q) && ParentOK(v, q) && WriteSafe(v, q) && WriteCode(v, q) == 0 && Inv(v, fs)
    requires ValidRequest(r) && ParentOK(v, r) && (r.parent != q.parent || r.name != q.name)
    requires r.parent != FirstFreeInode(v.disk, 1)
    ensures ParentOK(WriteOp(v, q).v, r)
    ensures ReadOp(WriteOp(v, q).v, r, size) == ReadOp(v, r, size)
  {
    hide Inv, WriteOp, WriteSafe, ReadOp, NamesIn, Spent, DataCount, Upto, FirstFreeInode, NewContents, ParentOK;
    var fs', e, i := WriteEffect(v, fs, q);
    var v' := WriteOp(v, q).v;
    InvParentOK(v', fs', r);
    ReadMeaning(v, fs, r, size);
    ReadMeaning(v', fs', r, size);
    if IsDirectory(fs, r.parent) {
      if r.parent == q.parent {
        InsertedResolves(NamesIn(v, fs, q.parent), NamesIn(v', fs', q.parent), e, i, r.name);
      }
      assert Resolved(v', fs', r.parent, r.name) == Resolved(v, fs, r.parent, r.name);
      SameAnswer(v, v', fs, fs', r.parent, r.name, q.parent, size);
    }
  }

  /** An entry that was there before leads to the same answer. */
  lemma SameAnswer(v: Volume, v': Volume, fs: FS, fs': FS, k: nat, name: Name, p: nat, size: nat)
    requires Inv(v, fs) && IsDirectory(fs, k) && OthersKept(v, v', fs, fs', p)
    ensures AbstractRead(fs', Resolved(v, fs, k, name), size) == AbstractRead(fs, Resolved(v, fs, k, name), size)
  {
    hide Inv, NamesIn, DataCount, Upto, Lookup;
    var es := NamesIn(v, fs, k);
    if Lookup(es, name) < |es| { EntryIsSound(v, fs, k, Lookup(es, name)); }
  }

  /** After a successful `write` the name stands for the new inode and every other name for what it stood for before. */
  lemma WriteResolves(v: Volume, fs: FS, q: Request) returns (fs': FS, e: Entry)
    requires ValidRequest(q) && ParentOK(v, q) && WriteSafe(v, q) && WriteCode(v, q) == 0 && Inv(v, fs)
    ensures Inv(WriteOp(v, q).v, fs') && e.ino == FirstFreeInode(v.disk, 1) && e.ino !in fs.tree && e.ftype == TypeOf(q)
    ensures Resolved(WriteOp(v, q).v, fs', q.parent, q.name) == Some(e)
    ensures forall k, name: Name :: IsDirectory(fs, k) && (k != q.parent || name != q.name) ==>
      Resolved(WriteOp(v, q).v, fs', k, name) == Resolved(v, fs, k, name)
  {
    hide Inv, WriteOp, WriteSafe, NamesIn, Spent, FirstFreeInode, NewContents, ParentOK, Resolve, InsertedAt;
    var i;
    fs', e, i := WriteEffect(v, fs, q);
    var v' := WriteOp(v, q).v;
    forall k, name: Name | IsDirectory(fs, k) && (k != q.parent || name != q.name)
      ensures Resolved(v', fs', k, name) == Resolved(v, fs, k, name)
    {
      if k == q.parent { InsertedResolves(NamesIn(v, fs, k), NamesIn(v', fs', k), e, i, name); }
    }
    InsertedResolves(NamesIn(v, fs, q.parent), NamesIn(v', fs', q.parent), e, i, q.name);
  }
}
