/** Between operations every precondition of the driver's methods holds: they can always be called. */
module Mounted {
  import opened Layout
  import opened Metadata
  import opened Volume
  import opened FileTree
  import opened Directory
  import opened Operations
  import opened Invariant
  import opened Writing
  import opened Deletion
  import opened WriteEffects
  import opened DeleteEffects
  import opened DirCounts
  import opened TreeShape
  import opened Runs
  import opened Exactness
  import opened DeleteExactness
  import opened Driver

  lemma AllocatedNodeOK(v: Volume, fs: FS, x: nat)
    requires x in fs.tree && Inv(v, fs)
    ensures ValidInode(x) && NodeOK(v.disk, Node(v.disk, x))
  {
    hide Inv, Holds, Lays, TreePtrsOK, IsDirMode, Node, DirOK, Dots, Chain;
    InvParts(v, fs);
    TreeOfSound(v, fs, x);
    LaidPtrsOK(v.disk, Node(v.disk, x), fs.tree[x]);
    if IsDirMode(Node(v.disk, x).mode) {
      DirectoryFound(v, fs, x);
      DirBounds(v.disk, Node(v.disk, x));
    }
  }

  lemma TargetIsOK(v: Volume, fs: FS, depth: map<nat, nat>, q: Request)
    requires ValidRequest(q) && ParentOK(v, q) && Inv(v, fs) && TreeOK(v.disk, fs, depth)
    ensures TargetOK(v, q)
  {
    hide Inv, TreeOK, Node, IsDirMode, FindEntry, DirBlockOK, Sound, EntInode, NodeOK, DirOK, FoundRecord, FirstAt;
    var k := q.parent;
    if k != 0 && IsDirMode(ParentNode(v, q).mode) {
      var n := ParentNode(v, q);
      DeleteScan(v, fs, q);
      FindEntrySound(v.disk, n, 0, q.name);
      match FindEntry(v.disk, n, 0, q.name)
      case Place(bi, at) =>
        FoundParts(v.disk, fs.tree[k][bi], at, q.name);
        FoundAllocated(v, fs, depth, k, bi, fs.tree[k][bi], at);
        AllocatedNodeOK(v, fs, EntInode(v.disk[fs.tree[k][bi]], at));
      case Nowhere =>
    }
  }

  /** The preconditions of `Write`, `Read` and `Delete`, for any request. */
  lemma AlwaysCallable(v: Volume, fs: FS, depth: map<nat, nat>, q: Request)
    requires ValidRequest(q) && Sane(v, fs, depth)
    ensures Fit(v) && Geometry(v.bgdt) && ParentOK(v, q) && TargetOK(v, q)
  {
    hide TreeOK, DirsCounted, ParentOK, TargetOK, InodesOK, OwnersOK, ContentsOK, NamesOK, MetaUsed, GroupCounts,
      Synced;
    InvParentOK(v, fs, q);
    TargetIsOK(v, fs, depth, q);
  }

  lemma RunStep(v: Volume, ops: seq<Op>)
    requires ops != []
    ensures Run(v, ops) == Run(Apply(v, ops[0]), ops[1..])
    ensures SafeRun(v, ops) ==> SafeOp(v, ops[0]) && SafeRun(Apply(v, ops[0]), ops[1..])
  {
    hide SafeOp, Apply;
  }

  lemma SafeIsValid(v: Volume, op: Op)
    requires SafeOp(v, op)
    ensures ValidRequest(op.q)
  {
    hide ParentOK, WriteSafe, DeleteSafe, LeavesNoOrphans;
  }

  lemma StepSane(v: Volume, fs: FS, depth: map<nat, nat>, op: Op) returns (fs': FS, depth': map<nat, nat>)
    requires SafeOp(v, op) && ParentOK(v, op.q) && Sane(v, fs, depth)
    ensures Sane(Apply(v, op), fs', depth')
  {
    hide ParentOK, WriteSafe, DeleteSafe, LeavesNoOrphans, Sane, WriteOp, DeleteOp;
    match op {
      case WriteCall(q) => fs', depth' := WriteKeepsSane(v, fs, depth, q);
      case DeleteCall(q, stack) =>
        fs' := DeleteKeepsSane(v, fs, depth, q, stack);
        depth' := depth;
    }
  }

  /**
   * A session with the driver: any sequence of writes and deletes whose checks pass, carried out by the class, leads
   * exactly where the run of the specification leads, and the class is never called outside its preconditions.
   */
  method Session(fs: Ext2, ops: seq<Op>, ghost fs0: FS, ghost depth0: map<nat, nat>)
    returns (ghost fs1: FS, ghost depth1: map<nat, nat>)
    requires Sane(fs.V(), fs0, depth0) && SafeRun(fs.V(), ops)
    modifies fs
    ensures fs.V() == Run(old(fs.V()), ops) && Sane(fs.V(), fs1, depth1)
  {
    hide Sane, SafeOp, WriteOp, DeleteOp, ParentOK, TargetOK, Fit, Geometry, LeavesNoOrphans;
    ghost var v0 := fs.V();
    fs1, depth1 := fs0, depth0;
    var i := 0;
    while i < |ops|
      invariant i <= |ops| && Sane(fs.V(), fs1, depth1) && SafeRun(fs.V(), ops[i..])
      invariant Run(fs.V(), ops[i..]) == Run(v0, ops)
    {
      var op := ops[i];
      ghost var v := fs.V();
      assert ops[i..][0] == op && ops[i..][1..] == ops[i + 1..];
      RunStep(v, ops[i..]);
      SafeIsValid(v, op);
      AlwaysCallable(v, fs1, depth1, op.q);
      ghost var f, d := StepSane(v, fs1, depth1, op);
      match op {
        case WriteCall(q) => var code := fs.Write(q);
        case DeleteCall(q, stack) => var code := fs.Delete(q, stack);
      }
      fs1, depth1 := f, d;
      i := i + 1;
    }
    assert ops[i..] == [];
  }
}
