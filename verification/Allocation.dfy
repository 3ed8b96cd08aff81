/**
 * `allocate_node_blocks`: taking the blocks of a new file, writing its data and spelling its pointer blocks.
 * The functions follow the loops of the driver; the lemmas say what they build.
 */
module Allocation {
  import opened Bytes
  import opened Layout
  import opened Metadata
  import opened Volume
  import opened FileTree
  import opened Accounting

  // ----- the operation -----

  datatype PtrFill = PtrFill(v: Volume, placed: nat, ptrBuf: Block)
  datatype Stage = Stage(v: Volume, node: Inode, placed: nat)

  /** Fill pointer buffer entries `idx`.. with freshly taken data blocks until `n` are placed or none is free. */
  function FillRun(r: PtrFill, pref: nat, data: seq<byte>, n: nat, idx: nat): PtrFill
    decreases 128 - idx
  {
    if r.placed >= n || idx >= 128 then r
    else
      var b := FirstFree(r.v.disk, 256 * pref);
      if b == 0 then r
      else FillRun(PlaceInRun(r, data, idx, b), pref, data, n, idx + 1)
  }

  function PlaceInRun(r: PtrFill, data: seq<byte>, idx: nat, b: nat): PtrFill
    requires b < 2048 && idx < 128
  {
    PtrFill(PutBlock(Take(r.v, b), b, Chunk(data, r.placed)), r.placed + 1, WithPtr(r.ptrBuf, idx, b))
  }

  function AllocDirect(s: Stage, pref: nat, data: seq<byte>, i: nat): Stage
    decreases 12 - i
  {
    if i >= 12 || s.placed >= s.node.blocks then s
    else
      var b := FirstFree(s.v.disk, 256 * pref);
      if b == 0 then s
      else AllocDirect(PlaceDirect(s, data, i, b), pref, data, i + 1)
  }

  function WithSlot(node: Inode, i: nat, b: u32): Inode
    requires i < 15
  {
    node.(block := node.block[i := b])
  }

  function PlaceDirect(s: Stage, data: seq<byte>, i: nat, b: nat): Stage
    requires b < 2048 && i < 12
  {
    Stage(PutBlock(Take(s.v, b), b, Chunk(data, s.placed)), WithSlot(s.node, i, b), s.placed + 1)
  }

  /** A pointer block and its run of data blocks, as both indirect regions take them. */
  function PointerRun(v: Volume, pref: nat, data: seq<byte>, n: nat, placed: nat, p: nat): PtrFill
    requires p < 2048
  {
    var r := FillRun(PtrFill(Take(v, p), placed, ZeroBlock()), pref, data, n, 0);
    PtrFill(PutBlock(r.v, p, r.ptrBuf), r.placed, r.ptrBuf)
  }

  function AllocIndirect(s: Stage, pref: nat, data: seq<byte>): Stage {
    if s.placed >= s.node.blocks then s
    else
      var p := FirstFree(s.v.disk, 256 * pref);
      if p == 0 then s
      else
        var r := PointerRun(s.v, pref, data, s.node.blocks, s.placed, p);
        Stage(r.v, WithSlot(s.node, 12, p), r.placed)
  }

  /** Inner pointer blocks `k`.. of the double-indirect block, whose buffer is `r.ptrBuf`. */
  function FillDouble(r: PtrFill, pref: nat, data: seq<byte>, n: nat, k: nat): PtrFill
    decreases 128 - k
  {
    if r.placed >= n || k >= 128 then r
    else
      var p := FirstFree(r.v.disk, 256 * pref);
      if p == 0 then r else FillDouble(PlaceInner(r, pref, data, n, k, p), pref, data, n, k + 1)
  }

  function PlaceInner(r: PtrFill, pref: nat, data: seq<byte>, n: nat, k: nat, p: nat): PtrFill
    requires p < 2048 && k < 128
  {
    var inner := PointerRun(r.v, pref, data, n, r.placed, p);
    PtrFill(inner.v, inner.placed, WithPtr(r.ptrBuf, k, p))
  }

  function AllocDouble(s: Stage, pref: nat, data: seq<byte>): Stage {
    if s.placed >= s.node.blocks then s
    else
      var p := FirstFree(s.v.disk, 256 * pref);
      if p == 0 then s
      else
        var r := FillDouble(PtrFill(Take(s.v, p), s.placed, ZeroBlock()), pref, data, s.node.blocks, 0);
        Stage(PutBlock(r.v, p, r.ptrBuf), WithSlot(s.node, 13, p), r.placed)
  }

  /** All of `allocate_node_blocks` before its final synchronisation. */
  function AllocBlocks(v: Volume, node: Inode, pref: nat, data: seq<byte>): Stage {
    AllocDouble(AllocIndirect(AllocDirect(Stage(v, node, 0), pref, data, 0), pref, data), pref, data)
  }

  // ----- what the loops build -----

  /**
   * From position `base` on, `a` lists data blocks holding `data` from chunk `start` on, spelled by pointer buffer `b`.
   */
  ghost predicate RunFilled(b: Block, d: Disk, a: seq<nat>, base: nat, data: seq<byte>, start: nat) {
    InRange(a) && PtrRun(b, a, base) && forall i :: base <= i < |a| ==> d[a[i]] == Chunk(data, start + i - base)
  }

  lemma RunExtended(b: Block, d: Disk, d': Disk, a: seq<nat>, base: nat, data: seq<byte>, start: nat, n: nat)
    requires RunFilled(b, d, a, base, data, start)
    requires n !in a && n < 2048 && !Meta(n) && base <= |a| < base + 128
    requires d'[n] == Chunk(data, start + |a| - base)
    requires forall m :: 0 <= m < 8192 && !IsBlockBitmap(m) && m != n ==> d'[m] == d[m]
    ensures RunFilled(WithPtr(b, |a| - base, n), d', a + [n], base, data, start)
    ensures Kept(d, d', a)
  {
    hide Chunk, PtrAt, WithPtr;
    forall i | 0 <= i < |a| ensures d'[a[i]] == d[a[i]] { assert a[i] != n; }
    var a' := a + [n];
    forall i | base <= i < |a'| ensures d'[a'[i]] == Chunk(data, start + i - base) {}
  }

  /** The inode `write` starts from: a zeroed slot with mode, size and block count filled in. */
  function NewFile(size: u32): Inode {
    Inode(EXT2_S_IFREG, size, BlocksFor(size), seq(15, i => 0))
  }

  ghost predicate SameHeader(node: Inode, size: u32) {
    node.mode == EXT2_S_IFREG && node.size == size && node.blocks == BlocksFor(size)
  }

  /** Only direct blocks so far: `a` in slots 0..11, each holding its chunk. */
  ghost predicate DirectStage(disk: Disk, node: Inode, a: seq<nat>, data: seq<byte>, placed: nat) {
    && InRange(a)
    && |data| < 0x1_0000_0000 && SameHeader(node, |data|)
    && |a| == placed <= 12 && placed <= node.blocks
    && (forall i :: 0 <= i < 15 ==> node.block[i] == At(a, i))
    && (forall i :: 0 <= i < |a| ==> disk[a[i]] == Chunk(data, i))
  }

  lemma DirectExtended(node: Inode, d: Disk, d': Disk, a: seq<nat>, data: seq<byte>, n: nat)
    requires DirectStage(d, node, a, data, |a|) && |a| < 12 && |a| < node.blocks
    requires n !in a && n < 2048 && !Meta(n)
    requires d'[n] == Chunk(data, |a|)
    requires forall m :: 0 <= m < 8192 && !IsBlockBitmap(m) && m != n ==> d'[m] == d[m]
    ensures DirectStage(d', node.(block := node.block[|a| := n]), a + [n], data, |a| + 1)
  {
    hide Chunk, BlocksFor;
    forall i | 0 <= i < |a| ensures d'[a[i]] == d[a[i]] { assert a[i] != n; }
  }

  /** Header, direct and single-indirect part, and all the data blocks: what every later stage keeps. */
  ghost predicate Based(disk: Disk, node: Inode, a: seq<nat>, data: seq<byte>, placed: nat) {
    && InRange(a) && NoDup(a)
    && |data| < 0x1_0000_0000 && SameHeader(node, |data|)
    && placed == DataCount(|a|) <= node.blocks && |a| <= Needed(node.blocks)
    && Direct(node, a) && Indirect(disk, node, a) && node.block[14] == 0
    && DataOn(disk, a, data)
  }

  ghost predicate IndirectStage(disk: Disk, node: Inode, a: seq<nat>, data: seq<byte>, placed: nat) {
    Based(disk, node, a, data, placed) && |a| <= 141 && node.block[13] == 0
  }

  lemma DirectIsIndirect(disk: Disk, node: Inode, a: seq<nat>, data: seq<byte>, placed: nat)
    requires NoDup(a) && DirectStage(disk, node, a, data, placed)
    ensures IndirectStage(disk, node, a, data, placed) && |a| == placed
  {
    hide Chunk, BlocksFor;
    assert node.block[12] == At(a, 12) && node.block[13] == At(a, 13) && node.block[14] == At(a, 14);
  }

  lemma IndirectBuilt(d: Disk, d': Disk, node: Inode, a: seq<nat>, a': seq<nat>, data: seq<byte>, ptrBuf: Block)
    requires Grown(d, d', a, a') && NoDup(a') && DirectStage(d, node, a, data, 12) && node.blocks > 12
    requires 13 <= |a'| <= 141 && |a'| - 1 <= node.blocks
    requires d'[a'[12]] == ptrBuf && RunFilled(ptrBuf, d', a', 13, data, 12)
    ensures IndirectStage(d', node.(block := node.block[12 := a'[12]]), a', data, |a'| - 1)
  {
    hide Chunk, BlocksFor, PtrAt;
    assert node.block[12] == At(a, 12) && node.block[13] == At(a, 13) && node.block[14] == At(a, 14);
    forall i | 0 <= i < 12 ensures a'[i] == a[i] && node.block[i] == a[i] {}
    forall j | 0 <= j < DataCount(|a'|) ensures d'[BlockOf(a', j)] == Chunk(data, j) {
      if j < 12 { assert d'[a[j]] == d[a[j]]; }
    }
  }

  lemma {:induction false} FillRunSpec(r: PtrFill, t: Account, data: seq<byte>, n: nat, idx: nat, base: nat, start: nat)
    returns (t': Account)
    requires Taking(r.v, t) && RunFilled(r.ptrBuf, r.v.disk, t.a, base, data, start)
    requires idx <= 128 && |t.a| == base + idx && r.placed == start + idx
    ensures var r' := FillRun(r, t.pref, data, n, idx);
      && Taking(r'.v, t') && Continues(t, t')
      && RunFilled(r'.ptrBuf, r'.v.disk, t'.a, base, data, start)
      && r'.placed == start + |t'.a| - base && |t'.a| <= base + 128 && (r.placed <= n ==> r'.placed <= n)
      && (r'.placed >= n || |t'.a| == base + 128 || NoneFree(r'.v.disk, t.pref))
      && Kept(r.v.disk, r'.v.disk, t.a)
    decreases 128 - idx
  {
    hide Taking, NoneFree, RunFilled, Chunk, Take, PutBlock, WithPtr;
    t' := t;
    assert Kept(r.v.disk, r.v.disk, t.a) by { TakingFacts(r.v, t); }
    if r.placed < n && idx < 128 {
      var b := FirstFree(r.v.disk, 256 * t.pref);
      TakingOne(r.v, t, b);
      if b != 0 {
        var r1, t1 := PlaceInRun(r, data, idx, b), Plus(t, b);
        PlaceInRunSpec(r, t, data, idx, base, start, b);
        t' := FillRunSpec(r1, t1, data, n, idx + 1, base, start);
        var r' := FillRun(r1, t.pref, data, n, idx + 1);
        KeptTransitive(r.v.disk, r1.v.disk, r'.v.disk, t.a, t1.a);
      }
    }
  }

  lemma PlaceInRunSpec(r: PtrFill, t: Account, data: seq<byte>, idx: nat, base: nat, start: nat, b: nat)
    requires Taking(r.v, t) && RunFilled(r.ptrBuf, r.v.disk, t.a, base, data, start)
    requires idx < 128 && |t.a| == base + idx && r.placed == start + idx
    requires b == FirstFree(r.v.disk, 256 * t.pref) && b != 0
    ensures var r' := PlaceInRun(r, data, idx, b);
      && Taking(r'.v, Plus(t, b))
      && RunFilled(r'.ptrBuf, r'.v.disk, t.a + [b], base, data, start)
      && Kept(r.v.disk, r'.v.disk, t.a)
  {
    hide Taking, RunFilled, Chunk, WithPtr, MarkUsed;
    TakingOne(r.v, t, b);
    TakingWrite(Take(r.v, b), Plus(t, b), |t.a|, Chunk(data, r.placed));
    RunExtended(r.ptrBuf, r.v.disk, PlaceInRun(r, data, idx, b).v.disk, t.a, base, data, start, b);
  }

  lemma {:induction false} AllocDirectSpec(s: Stage, t: Account, data: seq<byte>, i: nat) returns (t': Account)
    requires Taking(s.v, t) && i == s.placed && DirectStage(s.v.disk, s.node, t.a, data, i)
    ensures var s' := AllocDirect(s, t.pref, data, i);
      && Taking(s'.v, t') && Continues(t, t')
      && DirectStage(s'.v.disk, s'.node, t'.a, data, s'.placed)
      && (s'.placed >= s'.node.blocks || s'.placed == 12 || NoneFree(s'.v.disk, t.pref))
    decreases 12 - i
  {
    hide Taking, NoneFree, Chunk, Take, PutBlock;
    t' := t;
    if i < 12 && s.placed < s.node.blocks {
      var b := FirstFree(s.v.disk, 256 * t.pref);
      TakingOne(s.v, t, b);
      if b != 0 {
        PlaceDirectSpec(s, t, data, i, b);
        t' := AllocDirectSpec(PlaceDirect(s, data, i, b), Plus(t, b), data, i + 1);
      }
    }
  }

  lemma PlaceDirectSpec(s: Stage, t: Account, data: seq<byte>, i: nat, b: nat)
    requires Taking(s.v, t) && i == s.placed < 12 && i < s.node.blocks && DirectStage(s.v.disk, s.node, t.a, data, i)
    requires b == FirstFree(s.v.disk, 256 * t.pref) && b != 0
    ensures var s' := PlaceDirect(s, data, i, b);
      Taking(s'.v, Plus(t, b)) && DirectStage(s'.v.disk, s'.node, t.a + [b], data, i + 1)
  {
    hide Taking, Chunk, MarkUsed;
    TakingOne(s.v, t, b);
    TakingWrite(Take(s.v, b), Plus(t, b), i, Chunk(data, i));
    DirectExtended(s.node, s.v.disk, PlaceDirect(s, data, i, b).v.disk, t.a, data, b);
  }

  lemma PointerRunSpec(v: Volume, t: Account, data: seq<byte>, n: nat, placed: nat, p: nat) returns (t': Account)
    requires Taking(v, t) && p == FirstFree(v.disk, 256 * t.pref) && p != 0 && placed <= n
    ensures var r := PointerRun(v, t.pref, data, n, placed, p);
      && Taking(r.v, t') && Continues(t, t') && Grown(v.disk, r.v.disk, t.a, t'.a)
      && |t.a| < |t'.a| <= |t.a| + 129 && t'.a[|t.a|] == p
      && r.v.disk[p] == r.ptrBuf && RunFilled(r.ptrBuf, r.v.disk, t'.a, |t.a| + 1, data, placed)
      && r.placed == placed + |t'.a| - |t.a| - 1 <= n
      && (r.placed == n || |t'.a| == |t.a| + 129 || NoneFree(r.v.disk, t.pref))
  {
    TakingFacts(v, t);
    hide Taking, NoneFree, RunFilled, FillRun, MarkUsed, Chunk;
    TakingOne(v, t, p);
    var r0, t0 := PtrFill(Take(v, p), placed, ZeroBlock()), Plus(t, p);
    TakingFacts(r0.v, t0);
    EmptyRun(r0.v.disk, t0.a, |t0.a|, data, placed);
    t' := FillRunSpec(r0, t0, data, n, 0, |t0.a|, placed);
    var r := FillRun(r0, t.pref, data, n, 0);
    PointerRunStored(v, t, r.v, t0, t', p, r.ptrBuf, data, placed);
  }

  lemma PointerRunStored(v: Volume, t: Account, w: Volume, t0: Account, t': Account, p: nat, b: Block,
                         data: seq<byte>, placed: nat)
    requires InRange(t.a) && p < 2048 && t0 == Plus(t, p) && Continues(t0, t') && Taking(w, t')
    requires Kept(Take(v, p).disk, w.disk, t0.a) && RunFilled(b, w.disk, t'.a, |t0.a|, data, placed)
    requires forall m :: 0 <= m < 8192 && !IsBlockBitmap(m) ==> Take(v, p).disk[m] == v.disk[m]
    ensures var w' := PutBlock(w, p, b);
      && Taking(w', t') && Grown(v.disk, w'.disk, t.a, t'.a)
      && RunFilled(b, w'.disk, t'.a, |t0.a|, data, placed)
      && (NoneFree(w'.disk, t.pref) <==> NoneFree(w.disk, t.pref))
  {
    hide Taking, NoneFree, RunFilled, Take, Kept, Grown;
    TakingFacts(w, t');
    assert t0.a[|t.a|] == p && t'.a[|t.a|] == p;
    TakingWrite(w, t', |t.a|, b);
    RunKept(b, w.disk, w.disk[p := b], t'.a, |t0.a|, data, placed);
    NoneFreeKept(w.disk, w.disk[p := b], p, b, t.pref);
    KeptStored(v.disk, Take(v, p).disk, w.disk, t.a, t'.a, p, b);
  }

  lemma KeptStored(d: Disk, d1: Disk, d2: Disk, a: seq<nat>, a': seq<nat>, p: nat, b: Block)
    requires InRange(a) && InRange(a') && a + [p] <= a' && NoDup(a') && p < 2048
    requires forall m :: 0 <= m < 8192 && !IsBlockBitmap(m) ==> d1[m] == d[m]
    requires Kept(d1, d2, a + [p])
    ensures Grown(d, d2[p := b], a, a')
  {
    assert (a + [p])[|a|] == a'[|a|] == p;
    forall i | 0 <= i < |a| ensures d2[p := b][a[i]] == d[a[i]] {
      assert (a + [p])[i] == a[i] == a'[i];
    }
  }

  lemma AllocIndirectSpec(s: Stage, t: Account, data: seq<byte>) returns (t': Account)
    requires Taking(s.v, t) && DirectStage(s.v.disk, s.node, t.a, data, s.placed)
    requires s.placed >= s.node.blocks || s.placed == 12 || NoneFree(s.v.disk, t.pref)
    ensures var s' := AllocIndirect(s, t.pref, data);
      && Taking(s'.v, t') && Continues(t, t')
      && IndirectStage(s'.v.disk, s'.node, t'.a, data, s'.placed)
      && (s'.placed >= s'.node.blocks || |t'.a| == 141 || NoneFree(s'.v.disk, t.pref))
  {
    hide Taking, NoneFree, IndirectStage, DirectStage, RunFilled, PointerRun, Grown, BlocksFor, Chunk, InRange, NoDup,
      Continues;
    TakingFacts(s.v, t);
    DirectIsIndirect(s.v.disk, s.node, t.a, data, s.placed);
    ContinuesItself(t);
    t' := t;
    if s.placed < s.node.blocks {
      var p := FirstFree(s.v.disk, 256 * t.pref);
      TakingOne(s.v, t, p);
      if p != 0 {
        t' := PointerRunSpec(s.v, t, data, s.node.blocks, s.placed, p);
        var r := PointerRun(s.v, t.pref, data, s.node.blocks, s.placed, p);
        TakingFacts(r.v, t');
        IndirectBuilt(s.v.disk, r.v.disk, s.node, t.a, t'.a, data, r.ptrBuf);
      }
    }
  }

  lemma EmptyRun(d: Disk, a: seq<nat>, base: nat, data: seq<byte>, start: nat)
    requires InRange(a) && |a| == base
    ensures RunFilled(ZeroBlock(), d, a, base, data, start)
  {
    ZeroPointers();
  }

  /** Storing the pointer buffer in its own block disturbs none of the data blocks it points to. */
  lemma RunKept(b: Block, d: Disk, d': Disk, a: seq<nat>, base: nat, data: seq<byte>, start: nat)
    requires RunFilled(b, d, a, base, data, start) && NoDup(a) && 0 < base <= |a|
    requires d' == d[a[base - 1] := b]
    ensures RunFilled(b, d', a, base, data, start)
  {
    hide Chunk, PtrAt;
  }

  lemma NoneFreeKept(d: Disk, d': Disk, m: nat, b: Block, pref: nat)
    requires m < 2048 && !IsBlockBitmap(m) && d' == d[m := b]
    ensures NoneFree(d', pref) <==> NoneFree(d, pref)
  {
    forall k | 0 <= k < 2048 ensures Used(d', k) <==> Used(d, k) { assert m != BlockBitmap(k / 256); }
  }

  // ----- the double-indirect region -----

  /** The loop over inner pointer blocks: `k` runs are spelled by `dblBuf`, the last one possibly cut short. */
  ghost predicate DoubleLoop(d: Disk, dblBuf: Block, node: Inode, a: seq<nat>, data: seq<byte>, placed: nat, k: nat) {
    && Based(d, node, a, data, placed) && node.blocks > 140
    && 142 <= |a| <= 142 + 129 * k && k <= 128
    && PtrStride(dblBuf, a)
    && forall j :: 0 <= j < 128 ==> Inner(d, a, j)
  }

  lemma DoubleStarted(d: Disk, d': Disk, node: Inode, a: seq<nat>, data: seq<byte>, p: nat)
    requires IndirectStage(d, node, a, data, 140) && |a| == 141 && node.blocks > 140
    requires Grown(d, d', a, a + [p]) && NoDup(a + [p])
    ensures DoubleLoop(d', ZeroBlock(), node, a + [p], data, 140, 0)
  {
    hide Chunk, BlocksFor, DataOn;
    ZeroPointers();
    IndirectGrown(d, d', node, a, a + [p]);
    assert DataCount(142) == 140;
    DataOnGrown(d, d', a, a + [p], data);
  }

  lemma InnerBuilt(d: Disk, d': Disk, dblBuf: Block, node: Inode, a: seq<nat>, a': seq<nat>, data: seq<byte>,
                   placed: nat, k: nat, b: Block)
    requires DoubleLoop(d, dblBuf, node, a, data, placed, k) && |a| == 142 + 129 * k && k < 128
    requires placed < node.blocks && placed + |a'| - |a| - 1 <= node.blocks
    requires Grown(d, d', a, a') && NoDup(a') && |a| < |a'| <= |a| + 129
    requires d'[a'[|a|]] == b && RunFilled(b, d', a', |a| + 1, data, placed)
    ensures DoubleLoop(d', WithPtr(dblBuf, k, a'[|a|]), node, a', data, placed + |a'| - |a| - 1, k + 1)
  {
    hide Chunk, BlocksFor, PtrAt, WithPtr;
    DataCountOfFullRuns(k);
    DataCountOfRun(k, |a'| - |a| - 1);
    IndirectGrown(d, d', node, a, a');
    InnersGrown(d, d', a, a', k, b);
    StrideGrown(dblBuf, a, a', k);
    RunData(d', a, a', data, placed, k, b);
    DataOnGrown(d, d', a, a', data);
  }

  lemma RunData(d: Disk, a: seq<nat>, a': seq<nat>, data: seq<byte>, placed: nat, k: nat, b: Block)
    requires |a| == 142 + 129 * k && |a| < |a'| <= |a| + 129 && placed == 140 + 128 * k
    requires RunFilled(b, d, a', |a| + 1, data, placed)
    ensures forall j :: DataCount(|a|) <= j < DataCount(|a'|) ==> d[BlockOf(a', j)] == Chunk(data, j)
  {
    hide Chunk, PtrAt;
    DataCountOfFullRuns(k);
    DataCountOfRun(k, |a'| - |a| - 1);
    forall j | DataCount(|a|) <= j < DataCount(|a'|) ensures d[BlockOf(a', j)] == Chunk(data, j) {
      DataCountOfRun(k, j - 140 - 128 * k);
      assert d[a'[|a| + 1 + (j - placed)]] == Chunk(data, j);
    }
  }

  lemma InnersGrown(d: Disk, d': Disk, a: seq<nat>, a': seq<nat>, k: nat, b: Block)
    requires Grown(d, d', a, a') && |a| == 142 + 129 * k && |a| < |a'| <= |a| + 129
    requires forall j :: 0 <= j < 128 ==> Inner(d, a, j)
    requires d'[a'[|a|]] == b && PtrRun(b, a', |a| + 1)
    ensures forall j :: 0 <= j < 128 ==> Inner(d', a', j)
  {
    hide PtrAt;
    forall j | 0 <= j < 128 ensures Inner(d', a', j) {
      if j < k {
        assert Inner(d, a, j);
        var q := 142 + 129 * j;
        assert d'[a[q]] == d[a[q]] && a'[q] == a[q];
        assert forall i :: 0 <= i < |a| ==> At(a, i) == At(a', i);
        assert PtrRun(d[a[q]], a, q + 1);
        forall l | 0 <= l < 128 ensures PtrAt(d'[a'[q]], l) == At(a', q + 1 + l) {
          assert PtrAt(d[a[q]], l) == At(a, q + 1 + l);
        }
      }
    }
  }

  lemma StrideGrown(dblBuf: Block, a: seq<nat>, a': seq<nat>, k: nat)
    requires |a| == 142 + 129 * k && |a| < |a'| <= |a| + 129 && a <= a' && k < 128 && InRange(a')
    requires PtrStride(dblBuf, a)
    ensures PtrStride(WithPtr(dblBuf, k, a'[|a|]), a')
  {
    hide PtrAt, WithPtr;
    var w := WithPtr(dblBuf, k, a'[|a|]);
    forall j | 0 <= j < 128 ensures PtrAt(w, j) == At(a', 142 + 129 * j) {
      assert PtrAt(dblBuf, j) == At(a, 142 + 129 * j);
    }
  }

  lemma DoubleStored(d: Disk, node: Inode, a: seq<nat>, data: seq<byte>, placed: nat, k: nat, dblBuf: Block)
    requires DoubleLoop(d, dblBuf, node, a, data, placed, k) && node.block[13] == 0
    ensures var d', node' := d[a[141] := dblBuf], WithSlot(node, 13, a[141]);
            Lays(d', node', a) && DataOn(d', a, data) && SameHeader(node', |data|)
  {
    hide Chunk, BlocksFor, PtrAt;
    var d', node' := d[a[141] := dblBuf], WithSlot(node, 13, a[141]);
    forall i | 0 <= i < |a| && i != 141 ensures d'[a[i]] == d[a[i]] { assert a[i] != a[141]; }
    forall j | 0 <= j < 128 ensures Inner(d', a, j) { assert Inner(d, a, j); }
    forall j | 0 <= j < DataCount(|a|) ensures d'[BlockOf(a, j)] == Chunk(data, j) {
      DataPosSpec(j, |a|);
      assert DataPos(j) != 141;
      assert a[DataPos(j)] != a[141];
    }
  }

  lemma {:induction false} FillDoubleSpec(r: PtrFill, t: Account, data: seq<byte>, node: Inode, k: nat)
    returns (t': Account, k': nat)
    requires Taking(r.v, t) && k <= 128 && DoubleLoop(r.v.disk, r.ptrBuf, node, t.a, data, r.placed, k)
    requires r.placed == node.blocks || |t.a| == 142 + 129 * k || NoneFree(r.v.disk, t.pref)
    ensures var r' := FillDouble(r, t.pref, data, node.blocks, k);
      && Taking(r'.v, t') && Continues(t, t')
      && DoubleLoop(r'.v.disk, r'.ptrBuf, node, t'.a, data, r'.placed, k')
      && (r'.placed == node.blocks || |t'.a| == 142 + 129 * 128 || NoneFree(r'.v.disk, t.pref))
    decreases 128 - k
  {
    hide Taking, NoneFree, DoubleLoop, RunFilled, PointerRun, Grown, BlocksFor, Chunk, WithPtr, InRange, NoDup,
      Continues;
    DoubleLoopBounds(r.v.disk, r.ptrBuf, node, t.a, data, r.placed, k);
    ContinuesItself(t);
    t', k' := t, k;
    if r.placed < node.blocks && k < 128 {
      var p := FirstFree(r.v.disk, 256 * t.pref);
      TakingOne(r.v, t, p);
      if p != 0 {
        var t1 := PointerRunSpec(r.v, t, data, node.blocks, r.placed, p);
        var inner := PointerRun(r.v, t.pref, data, node.blocks, r.placed, p);
        TakingFacts(inner.v, t1);
        InnerBuilt(r.v.disk, inner.v.disk, r.ptrBuf, node, t.a, t1.a, data, r.placed, k, inner.ptrBuf);
        ContinuesTransitive(t, t1, t1);
        t', k' := FillDoubleSpec(PlaceInner(r, t.pref, data, node.blocks, k, p), t1, data, node, k + 1);
        ContinuesTransitive(t, t1, t');
      }
    }
  }

  lemma DoubleLoopBounds(d: Disk, dblBuf: Block, node: Inode, a: seq<nat>, data: seq<byte>, placed: nat, k: nat)
    requires DoubleLoop(d, dblBuf, node, a, data, placed, k)
    ensures placed <= node.blocks && 142 <= |a| <= 142 + 129 * k && placed == DataCount(|a|)
    ensures InRange(a) && node.block[12] == a[12]
  {}

  lemma IndirectStageDone(d: Disk, node: Inode, a: seq<nat>, data: seq<byte>, placed: nat)
    requires IndirectStage(d, node, a, data, placed)
    ensures Lays(d, node, a) && DataOn(d, a, data) && SameHeader(node, |data|)
    ensures placed == DataCount(|a|) <= node.blocks && node.block[13] == 0
  {}

  lemma AllocDoubleSpec(s: Stage, t: Account, data: seq<byte>) returns (t': Account)
    requires Taking(s.v, t) && IndirectStage(s.v.disk, s.node, t.a, data, s.placed)
    requires s.placed >= s.node.blocks || |t.a| == 141 || NoneFree(s.v.disk, t.pref)
    ensures var s' := AllocDouble(s, t.pref, data);
      && Taking(s'.v, t') && Continues(t, t')
      && Lays(s'.v.disk, s'.node, t'.a) && DataOn(s'.v.disk, t'.a, data) && SameHeader(s'.node, |data|)
      && s'.placed == DataCount(|t'.a|) <= s'.node.blocks
      && (s'.placed == s'.node.blocks || |t'.a| == 142 + 129 * 128 || NoneFree(s'.v.disk, t.pref))
  {
    hide Taking, NoneFree, IndirectStage, DoubleLoop, Lays, DataOn, SameHeader, FillDouble, MarkUsed, BlocksFor, Chunk,
         InRange, NoDup, Continues, Grown, Plus;
    IndirectStageDone(s.v.disk, s.node, t.a, data, s.placed);
    ContinuesItself(t);
    t' := t;
    if s.placed < s.node.blocks {
      var p := FirstFree(s.v.disk, 256 * t.pref);
      TakingOne(s.v, t, p);
      if p != 0 {
        var r0, t0 := PtrFill(Take(s.v, p), s.placed, ZeroBlock()), Plus(t, p);
        DoubleTaken(s, t, data, p);
        var k;
        t', k := FillDoubleSpec(r0, t0, data, s.node, 0);
        var r := FillDouble(r0, t.pref, data, s.node.blocks, 0);
        DoubleClosed(s, t, r, t', data, p, k);
      }
    }
  }

  lemma DoubleTaken(s: Stage, t: Account, data: seq<byte>, p: nat)
    requires Taking(s.v, t) && IndirectStage(s.v.disk, s.node, t.a, data, s.placed) && s.placed < s.node.blocks
    requires |t.a| == 141 && p == FirstFree(s.v.disk, 256 * t.pref) && p != 0
    ensures DoubleLoop(Take(s.v, p).disk, ZeroBlock(), s.node, Plus(t, p).a, data, s.placed, 0)
    ensures |Plus(t, p).a| == 142 && Plus(t, p).pref == t.pref
  {
    hide Taking, IndirectStage, DoubleLoop, NoDup, NoneFree, Take;
    IndirectStageDone(s.v.disk, s.node, t.a, data, s.placed);
    TakingOne(s.v, t, p);
    TakingFacts(s.v, t);
    TakingFacts(Take(s.v, p), Plus(t, p));
    DoubleStarted(s.v.disk, Take(s.v, p).disk, s.node, t.a, data, p);
  }

  lemma DoubleClosed(s: Stage, t: Account, r: PtrFill, t': Account, data: seq<byte>, p: nat, k: nat)
    requires |t.a| == 141 && p < 2048 && Continues(Plus(t, p), t') && Taking(r.v, t')
    requires DoubleLoop(r.v.disk, r.ptrBuf, s.node, t'.a, data, r.placed, k) && s.node.block[13] == 0
    ensures var v', node' := PutBlock(r.v, p, r.ptrBuf), WithSlot(s.node, 13, p);
      && Continues(t, t') && Taking(v', t') && (NoneFree(v'.disk, t.pref) <==> NoneFree(r.v.disk, t.pref))
      && Lays(v'.disk, node', t'.a) && DataOn(v'.disk, t'.a, data) && SameHeader(node', |data|)
      && r.placed == DataCount(|t'.a|) <= s.node.blocks
  {
    hide Taking, DoubleLoop, Lays, DataOn, SameHeader, NoneFree, NoDup;
    DoubleLoopBounds(r.v.disk, r.ptrBuf, s.node, t'.a, data, r.placed, k);
    assert Plus(t, p).a[141] == p && t'.a[141] == p;
    TakingWrite(r.v, t', 141, r.ptrBuf);
    DoubleStored(r.v.disk, s.node, t'.a, data, r.placed, k, r.ptrBuf);
    NoneFreeKept(r.v.disk, r.v.disk[p := r.ptrBuf], p, r.ptrBuf, t.pref);
  }

  /**
   * Allocation takes exactly the first `Needed` free blocks at or after the preferred group, or all of them when there
   * are fewer; the inode and the pointer blocks spell them, and every data block taken holds its part of `data`.
   */
  lemma AllocBlocksSpec(v: Volume, pref: nat, data: seq<byte>) returns (t: Account)
    requires Counted(v) && MetaUsed(v.disk) && |data| < 0x1_0000_0000
    ensures var s := AllocBlocks(v, NewFile(|data|), pref, data);
      && t.v0 == v && t.pref == pref && Taking(s.v, t)
      && Lays(s.v.disk, s.node, t.a) && DataOn(s.v.disk, t.a, data) && SameHeader(s.node, |data|)
      && s.placed == DataCount(|t.a|) <= s.node.blocks
      && (|t.a| == Needed(s.node.blocks) || NoneFree(s.v.disk, pref))
  {
    hide Taking, NoneFree, DirectStage, IndirectStage, Lays, DataOn, AllocDirect, AllocIndirect, AllocDouble, Continues;
    var t0 := Account(v, pref, [], map[]);
    TakingNothing(v, pref);
    var s0 := Stage(v, NewFile(|data|), 0);
    NothingPlaced(v, data);
    var t1 := AllocDirectSpec(s0, t0, data, 0);
    var s1 := AllocDirect(s0, pref, data, 0);
    ContinuesFields(t0, t1);
    var t2 := AllocIndirectSpec(s1, t1, data);
    var s2 := AllocIndirect(s1, pref, data);
    ContinuesFields(t1, t2);
    t := AllocDoubleSpec(s2, t2, data);
    var s := AllocDouble(s2, pref, data);
    LaysBound(s.v.disk, s.node, t.a);
    if !NoneFree(s.v.disk, pref) { NeededExact(s.node.blocks, |t.a|); }
    ContinuesFields(t2, t);
  }

  lemma ContinuesFields(t: Account, u: Account)
    requires Continues(t, u)
    ensures u.v0 == t.v0 && u.pref == t.pref
  {}

  lemma LaysBound(d: Disk, node: Inode, a: seq<nat>)
    requires Lays(d, node, a)
    ensures |a| <= Needed(node.blocks) && InRange(a)
  {}

  lemma NothingPlaced(v: Volume, data: seq<byte>)
    requires |data| < 0x1_0000_0000
    ensures DirectStage(v.disk, NewFile(|data|), [], data, 0)
  {}
}
