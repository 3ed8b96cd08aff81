/** `deallocate_node`: giving back every block of an inode's mapping tree, and the inode itself. */
module Reclaim {
  import opened Bytes
  import opened Layout
  import opened Metadata
  import opened Volume
  import opened FileTree
  import opened Accounting

  // ----- the operation -----

  /** Zero pointers are skipped. */
  function ReleasePtr(v: Volume, p: u32): Volume {
    if 0 < p < 2048 then Release(v, p) else v
  }

  function FreeDirect(v: Volume, node: Inode, i: nat, remain: nat): Volume
    decreases 12 - i
  {
    if i >= 12 || remain == 0 then v else FreeDirect(ReleasePtr(v, node.block[i]), node, i + 1, remain - 1)
  }

  /** The first `count` pointers of a pointer block. */
  function FreeRun(v: Volume, b: Block, j: nat, count: nat): Volume
    requires count <= 128
    decreases count - j
  {
    if j >= count then v else FreeRun(ReleasePtr(v, PtrAt(b, j)), b, j + 1, count)
  }

  function FreeIndirect(v: Volume, node: Inode, remain: nat): Volume {
    if remain == 0 || node.block[12] == 0 then v
    else ReleasePtr(FreeRun(v, BlockAt(v.disk, node.block[12]), 0, Least(remain, 128)), node.block[12])
  }

  function FreeInner(v: Volume, dbl: Block, k: nat, total: nat): Volume
    decreases 128 - k
  {
    if k >= 128 || total == 0 then v
    else
      var p := PtrAt(dbl, k);
      if p == 0 then FreeInner(v, dbl, k + 1, total)
      else
        var cnt := Least(total, 128);
        FreeInner(ReleasePtr(FreeRun(v, BlockAt(v.disk, p), 0, cnt), p), dbl, k + 1, total - cnt)
  }

  function FreeDouble(v: Volume, node: Inode, remain: nat): Volume {
    if remain == 0 || node.block[13] == 0 then v
    else ReleasePtr(FreeInner(v, BlockAt(v.disk, node.block[13]), 0, remain), node.block[13])
  }

  /** What is left of the block count after the direct and after the single-indirect region. */
  function AfterDirect(node: Inode): nat {
    if node.blocks < 12 then 0 else node.blocks - 12
  }

  function AfterIndirect(node: Inode): nat {
    var r := AfterDirect(node);
    if r == 0 || node.block[12] == 0 then r else if r > 128 then r - 128 else 0
  }

  function FreeTree(v: Volume, node: Inode): Volume {
    var v1 := FreeDirect(v, node, 0, node.blocks);
    var v2 := FreeIndirect(v1, node, AfterDirect(node));
    FreeDouble(v2, node, AfterIndirect(node))
  }

  // ----- the account of what has been given back -----

  /** Positions of the tree whose blocks have been released. */
  ghost predicate BitsRemoved(b0: Block, b: Block, g: nat, pos: map<nat, nat>, done: set<nat>) {
    forall i :: 0 <= i < 4096 ==>
      (Bit(b, i) <==> Bit(b0, i) && !(i < 256 && 256 * g + i in pos && pos[256 * g + i] in done))
  }

  ghost predicate Gave(d0: Disk, d: Disk, a: seq<nat>, pos: map<nat, nat>, done: set<nat>) {
    && Inverse(a, pos) && InRange(a)
    && (forall i :: 0 <= i < |a| ==> Used(d0, a[i]))
    && (forall g :: 0 <= g < 8 ==> BitsRemoved(d0[BlockBitmap(g)], d[BlockBitmap(g)], g, pos, done))
    && (forall m :: 0 <= m < 8192 && !IsBlockBitmap(m) ==> d[m] == d0[m])
  }

  ghost predicate Giving(v: Volume, v0: Volume, a: seq<nat>, pos: map<nat, nat>, done: set<nat>) {
    Counted(v) && OnlyFreeBlocks(v0, v) && MetaUsed(v.disk) && Gave(v0.disk, v.disk, a, pos, done)
  }

  lemma UsedAfterGave(d0: Disk, d: Disk, a: seq<nat>, pos: map<nat, nat>, done: set<nat>, m: nat)
    requires Gave(d0, d, a, pos, done) && m < 2048
    ensures Used(d, m) <==> Used(d0, m) && !(m in pos && pos[m] in done)
  {
    assert 256 * (m / 256) + m % 256 == m;
    assert BitsRemoved(d0[BlockBitmap(m / 256)], d[BlockBitmap(m / 256)], m / 256, pos, done);
  }

  lemma GivingNothing(v: Volume, a: seq<nat>, pos: map<nat, nat>)
    requires Counted(v) && MetaUsed(v.disk) && Inverse(a, pos) && InRange(a)
    requires forall i :: 0 <= i < |a| ==> Used(v.disk, a[i])
    ensures Giving(v, v, a, pos, {})
  {}

  /** Releasing one more block of the tree: its bit is still set, so both counters go up by one and stay true. */
  lemma GivingOne(v: Volume, v0: Volume, a: seq<nat>, pos: map<nat, nat>, done: set<nat>, q: nat)
    requires Giving(v, v0, a, pos, done) && q < |a| && q !in done
    ensures 0 < a[q] < 2048 && Giving(ReleasePtr(v, a[q]), v0, a, pos, done + {q})
    ensures forall m :: 0 <= m < 8192 && !IsBlockBitmap(m) ==> ReleasePtr(v, a[q]).disk[m] == v.disk[m]
  {
    hide Counted, MetaUsed, BitsRemoved, Used, OnlyFreeBlocks;
    var m := a[q];
    OnlyFreeBlocksStep(v0, v, m);
    UsedAfterGave(v0.disk, v.disk, a, pos, done, m);
    CountedAfterRelease(v, m);
    MetaUsedAfterMark(v.disk, m);
    assert IsBlockBitmap(BlockBitmap(m / 256));
    forall g | 0 <= g < 8
      ensures BitsRemoved(v0.disk[BlockBitmap(g)], MarkFree(v.disk, m)[BlockBitmap(g)], g, pos, done + {q})
    {
      BitRemovedOneMore(v0.disk, v.disk, g, a, pos, done, q);
    }
  }

  lemma BitRemovedOneMore(d0: Disk, d: Disk, g: nat, a: seq<nat>, pos: map<nat, nat>, done: set<nat>, q: nat)
    requires g < 8 && q < |a| && Inverse(a, pos) && a[q] < 2048
    requires BitsRemoved(d0[BlockBitmap(g)], d[BlockBitmap(g)], g, pos, done)
    ensures BitsRemoved(d0[BlockBitmap(g)], MarkFree(d, a[q])[BlockBitmap(g)], g, pos, done + {q})
  {
    MetadataApart(g, a[q] / 256, 1);
    assert 256 * (a[q] / 256) + a[q] % 256 == a[q];
  }

  // ----- each region gives back its part -----

  function Span(lo: nat, hi: nat): (s: set<nat>)
    ensures forall i: nat :: i in s <==> lo <= i < hi
    decreases hi - lo
  {
    if lo >= hi then {} else {lo} + Span(lo + 1, hi)
  }

  lemma GivingOneAt(v: Volume, v0: Volume, a: seq<nat>, pos: map<nat, nat>, done: set<nat>, q: nat, p: u32)
    requires Giving(v, v0, a, pos, done) && p == At(a, q) && q !in done
    ensures Giving(ReleasePtr(v, p), v0, a, pos, if q < |a| then done + {q} else done)
    ensures forall m :: 0 <= m < 8192 && !IsBlockBitmap(m) ==> ReleasePtr(v, p).disk[m] == v.disk[m]
  {
    hide Giving;
    if q < |a| { GivingOne(v, v0, a, pos, done, q); }
  }

  lemma SpanGrows(lo: nat, hi: nat)
    requires lo <= hi
    ensures Span(lo, hi) + {hi} == Span(lo, hi + 1)
  {}

  lemma {:induction false} FreeDirectSpec(v: Volume, node: Inode, v0: Volume, a: seq<nat>, pos: map<nat, nat>, i: nat)
    requires Giving(v, v0, a, pos, Span(0, Least(i, |a|))) && Direct(node, a) && i <= 12 && i <= node.blocks
    requires |a| <= node.blocks || 12 <= node.blocks
    ensures Giving(FreeDirect(v, node, i, node.blocks - i), v0, a, pos, Span(0, Least(12, |a|)))
    decreases 12 - i
  {
    hide Giving, ReleasePtr, Span;
    if i < 12 && i < node.blocks {
      assert node.block[i] == At(a, i);
      GivingOneAt(v, v0, a, pos, Span(0, Least(i, |a|)), i, node.block[i]);
      SpanGrows(0, i);
      FreeDirectSpec(ReleasePtr(v, node.block[i]), node, v0, a, pos, i + 1);
    }
  }

  lemma {:induction false} FreeRunSpec(v: Volume, b: Block, v0: Volume, a: seq<nat>, pos: map<nat, nat>,
                                       done: set<nat>, base: nat, j: nat, count: nat)
    requires Giving(v, v0, a, pos, done) && PtrRun(b, a, base) && j <= count <= 128
    requires forall q :: q in done && base <= q ==> q < base + j
    ensures Giving(FreeRun(v, b, j, count), v0, a, pos, done + Span(base + j, Least(base + count, |a|)))
    decreases count - j
  {
    hide Giving, ReleasePtr, PtrAt;
    if j < count {
      assert PtrAt(b, j) == At(a, base + j);
      GivingOneAt(v, v0, a, pos, done, base + j, PtrAt(b, j));
      var done' := if base + j < |a| then done + {base + j} else done;
      FreeRunSpec(ReleasePtr(v, PtrAt(b, j)), b, v0, a, pos, done', base, j + 1, count);
      assert done' + Span(base + j + 1, Least(base + count, |a|)) == done + Span(base + j, Least(base + count, |a|));
    } else {
      assert done + Span(base + j, Least(base + count, |a|)) == done;
    }
  }

  lemma GaveKeeps(v: Volume, v0: Volume, a: seq<nat>, pos: map<nat, nat>, done: set<nat>, q: nat)
    requires Giving(v, v0, a, pos, done) && q < |a|
    ensures 0 < a[q] < 2048 && v.disk[a[q]] == v0.disk[a[q]] && BlockAt(v.disk, a[q]) == v0.disk[a[q]]
  {}

  /** A pointer block: its run first, then the block itself. */
  lemma PointerBlockGiven(v: Volume, v0: Volume, a: seq<nat>, pos: map<nat, nat>, done: set<nat>, q: nat, count: nat)
    requires Giving(v, v0, a, pos, done) && q < |a| && PtrRun(v0.disk[GivenBlock(a, q)], a, q + 1) && count <= 128
    requires forall i :: i in done ==> i < q
    ensures a[q] < 2048
    ensures Giving(ReleasePtr(FreeRun(v, BlockAt(v.disk, a[q]), 0, count), a[q]), v0, a, pos,
                   done + Span(q, Least(q + 1 + count, |a|)))
  {
    hide Giving, ReleasePtr, PtrRun, FreeRun, BlockAt;
    GaveKeeps(v, v0, a, pos, done, q);
    FreeRunSpec(v, v0.disk[a[q]], v0, a, pos, done, q + 1, 0, count);
    var w, done' := FreeRun(v, v0.disk[a[q]], 0, count), done + Span(q + 1, Least(q + 1 + count, |a|));
    GivingOneAt(w, v0, a, pos, done', q, a[q]);
    assert done' + {q} == done + Span(q, Least(q + 1 + count, |a|));
  }

  /** `a[q]` as an index into the disk. */
  function GivenBlock(a: seq<nat>, q: nat): (m: nat)
    ensures m < 8192
  {
    if At(a, q) < 8192 then At(a, q) else 0
  }

  lemma FreeIndirectSpec(v: Volume, node: Inode, v0: Volume, a: seq<nat>, pos: map<nat, nat>)
    requires Lays(v0.disk, node, a) && Giving(v, v0, a, pos, Span(0, Least(12, |a|)))
    ensures Giving(FreeIndirect(v, node, AfterDirect(node)), v0, a, pos, Span(0, Least(141, |a|)))
  {
    hide Giving, ReleasePtr, FreeRun;
    var n := node.blocks;
    if |a| > 12 {
      assert a[12] != 0 && n > 12;
      var count := Least(n - 12, 128);
      PointerBlockGiven(v, v0, a, pos, Span(0, 12), 12, count);
      assert Span(0, 12) + Span(12, Least(13 + count, |a|)) == Span(0, Least(141, |a|));
    }
  }

  lemma {:induction false} FreeInnerNothing(v: Volume, dbl: Block, a: seq<nat>, k: nat, total: nat)
    requires PtrStride(dbl, a) && |a| <= 142 + 129 * k
    ensures FreeInner(v, dbl, k, total) == v
    decreases 128 - k
  {
    hide PtrAt;
    if k < 128 && total > 0 {
      assert PtrAt(dbl, k) == At(a, 142 + 129 * k);
      FreeInnerNothing(v, dbl, a, k + 1, total);
    }
  }

  /** Everything but the double-indirect block itself, up to inner run `k`. */
  function UpToInner(a: seq<nat>, k: nat): set<nat> {
    Span(0, 141) + Span(142, Least(142 + 129 * k, |a|))
  }

  lemma {:induction false} FreeInnerSpec(v: Volume, dbl: Block, node: Inode, v0: Volume, a: seq<nat>,
      pos: map<nat, nat>, k: nat, total: nat)
    requires Lays(v0.disk, node, a) && PtrStride(dbl, a) && |a| >= 142 && k <= 128
    requires Giving(v, v0, a, pos, UpToInner(a, k))
    requires 142 + 129 * k < |a| ==> node.blocks > 140 + 128 * k && total == node.blocks - 140 - 128 * k
    ensures Giving(FreeInner(v, dbl, k, total), v0, a, pos, UpToInner(a, 128))
    decreases 128 - k
  {
    hide Giving, ReleasePtr, FreeRun, PtrAt, PtrRun, BlockAt, Lays, PtrStride, UpToInner, Span, Needed;
    var q := 142 + 129 * k;
    LaysNeeded(v0.disk, node, a);
    if q >= |a| {
      FreeInnerNothing(v, dbl, a, k, total);
      AllInner(a, k);
    } else {
      LaysInner(v0.disk, node, a, k);
      assert PtrAt(dbl, k) == a[q] by { StrideAt(dbl, a, k); }
      var cnt := Least(total, 128);
      NeededBeyondRun(node.blocks, k);
      NextInner(a, k, cnt);
      PointerBlockGiven(v, v0, a, pos, UpToInner(a, k), q, cnt);
      FreeInnerSpec(ReleasePtr(FreeRun(v, BlockAt(v.disk, a[q]), 0, cnt), a[q]), dbl, node, v0, a, pos, k + 1,
        total - cnt);
    }
  }

  lemma StrideAt(dbl: Block, a: seq<nat>, k: nat)
    requires PtrStride(dbl, a) && k < 128 && 142 + 129 * k < |a|
    ensures PtrAt(dbl, k) == a[142 + 129 * k]
  {
    hide PtrAt;
  }

  lemma AllInner(a: seq<nat>, k: nat)
    requires k <= 128 && 142 <= |a| <= 142 + 129 * k
    ensures UpToInner(a, k) == UpToInner(a, 128)
  {}

  lemma NextInner(a: seq<nat>, k: nat, cnt: nat)
    requires k < 128 && 142 + 129 * k < |a| && cnt <= 128
    requires cnt == 128 || |a| <= 143 + 129 * k + cnt
    ensures forall i :: i in UpToInner(a, k) ==> i < 142 + 129 * k
    ensures UpToInner(a, k) + Span(142 + 129 * k, Least(143 + 129 * k + cnt, |a|)) == UpToInner(a, k + 1)
  {}

  lemma LaysNeeded(d: Disk, node: Inode, a: seq<nat>)
    requires Lays(d, node, a)
    ensures |a| <= Needed(node.blocks)
  {}

  lemma LaysInner(d: Disk, node: Inode, a: seq<nat>, k: nat)
    requires Lays(d, node, a) && k < 128 && 142 + 129 * k < |a|
    ensures var q := 142 + 129 * k; 0 != a[q] < 2048 && GivenBlock(a, q) == a[q] && PtrRun(d[a[q]], a, q + 1)
  {
    hide PtrRun, PtrStride;
    assert Inner(d, a, k);
  }

  /** What a file of `n` blocks needs beyond inner run `k`. */
  lemma NeededBeyondRun(n: nat, k: nat)
    requires n > 140 + 128 * k && k < 128
    ensures n <= 140 + 128 * k + 128 ==> Needed(n) == 143 + 129 * k + (n - 140 - 128 * k)
    ensures Needed(n) > 142 + 129 * k + 129 ==> n > 140 + 128 * (k + 1)
  {
    if n <= 140 + 128 * k + 128 {
      var r := n - 140 - 128 * k;
      assert (n - 140 + 127) / 128 == k + 1;
    }
  }

  lemma FreeDoubleSpec(v: Volume, node: Inode, v0: Volume, a: seq<nat>, pos: map<nat, nat>)
    requires Lays(v0.disk, node, a) && Giving(v, v0, a, pos, Span(0, Least(141, |a|)))
    ensures Giving(FreeDouble(v, node, AfterIndirect(node)), v0, a, pos, Span(0, |a|))
  {
    hide Giving, ReleasePtr, FreeInner, PtrStride, PtrRun, Lays, UpToInner, Span, BlockAt;
    LaysRoots(v0.disk, node, a);
    if |a| > 141 {
      var p := node.block[13];
      GaveKeeps(v, v0, a, pos, Span(0, 141), 141);
      RootPositions(a);
      FreeInnerSpec(v, v0.disk[p], node, v0, a, pos, 0, node.blocks - 140);
      var w := FreeInner(v, v0.disk[p], 0, node.blocks - 140);
      GivingOneAt(w, v0, a, pos, UpToInner(a, 128), 141, p);
    }
  }

  lemma LaysRoots(d: Disk, node: Inode, a: seq<nat>)
    requires Lays(d, node, a)
    ensures node.block[12] == At(a, 12) && node.block[13] == At(a, 141) && |a| <= 142 + 129 * 128
    ensures |a| > 12 ==> a[12] != 0 && node.blocks > 12
    ensures |a| > 141 ==> node.blocks > 140 && 0 < a[141] < 2048 && PtrStride(d[a[141]], a)
  {
    hide PtrStride, PtrRun, Inner;
  }

  lemma RootPositions(a: seq<nat>)
    requires 142 <= |a| <= 142 + 129 * 128
    ensures UpToInner(a, 0) == Span(0, 141) && 141 !in UpToInner(a, 128)
    ensures UpToInner(a, 128) + {141} == Span(0, |a|)
  {}

  /**
   * Releasing an inode's tree clears exactly the bits of its blocks, data and pointer blocks alike, whatever its size
   * and wherever a full disk cut it short.
   */
  lemma FreeTreeSpec(v: Volume, node: Inode, a: seq<nat>, pos: map<nat, nat>)
    requires Counted(v) && MetaUsed(v.disk) && Inverse(a, pos) && Lays(v.disk, node, a)
    requires forall i :: 0 <= i < |a| ==> Used(v.disk, a[i])
    ensures Giving(FreeTree(v, node), v, a, pos, Span(0, |a|))
  {
    hide Giving, FreeDirect, FreeIndirect, FreeDouble, Span, Counted, MetaUsed, Inverse, InRange, Lays, Direct, Used;
    LaysDirect(v.disk, node, a);
    GivingNothing(v, a, pos);
    SpanEmpty();
    FreeDirectSpec(v, node, v, a, pos, 0);
    var v1 := FreeDirect(v, node, 0, node.blocks);
    FreeIndirectSpec(v1, node, v, a, pos);
    FreeDoubleSpec(FreeIndirect(v1, node, AfterDirect(node)), node, v, a, pos);
  }

  lemma LaysDirect(d: Disk, node: Inode, a: seq<nat>)
    requires Lays(d, node, a)
    ensures InRange(a) && Direct(node, a) && (|a| <= node.blocks || 12 <= node.blocks)
  {
    hide Indirect, Double;
  }

  lemma SpanEmpty()
    ensures Span(0, 0) == {}
  {}
}
