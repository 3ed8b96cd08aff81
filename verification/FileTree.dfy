/**
 * The mapping tree of one inode: twelve direct blocks, one single-indirect and one double-indirect block.
 *
 * A tree is described by the sequence `a` of blocks in the order the driver takes them:
 *   0..11 direct data, 12 the indirect block, 13..140 its data, 141 the double-indirect block, and from 142 on
 *   runs of 129: an inner pointer block and its 128 data blocks.
 * A tree cut short by a full disk is a shorter sequence.
 */
module FileTree {
  import opened Bytes
  import opened Layout

  function At(a: seq<nat>, i: nat): nat { if i < |a| then a[i] else 0 }

  function Least(x: nat, y: nat): nat { if x < y then x else y }

  /** Block `p` of the disk; pointers of a sound volume always lie on it. */
  function BlockAt(d: Disk, p: u32): Block {
    if p < 8192 then d[p] else ZeroBlock()
  }

  /** Position in the taking order of the `j`-th data block. */
  function DataPos(j: nat): nat {
    if j < 12 then j else if j < 140 then j + 1 else j + 3 + (j - 140) / 128
  }

  /** How many of the first `k` taken blocks hold data. */
  function DataCount(k: nat): nat {
    if k <= 12 then k
    else if k <= 141 then k - 1
    else if k == 142 then 140
    else 140 + (k - 142) / 129 * 128 + (if (k - 142) % 129 == 0 then 0 else (k - 142) % 129 - 1)
  }

  const MAX_DATA := 16524   // 12 + 128 + 128 * 128

  /** Blocks a file of `n` data blocks takes, pointer blocks included. */
  function Needed(n: nat): (k: nat)
    ensures k <= 142 + 129 * 128
  {
    if n <= 12 then n
    else if n <= 140 then n + 1
    else if n <= MAX_DATA then n + 2 + (n - 140 + 127) / 128
    else MAX_DATA + 130
  }

  lemma DataPosSpec(j: nat, k: nat)
    ensures j < DataCount(k) <==> DataPos(j) < k
  {
    if j >= 140 && k > 142 {
      var q, r, q', r' := (k - 142) / 129, (k - 142) % 129, (j - 140) / 128, (j - 140) % 128;
      assert DataPos(j) == 143 + 129 * q' + r';
    }
  }

  lemma NeededHoldsAll(n: nat)
    requires n <= MAX_DATA
    ensures DataCount(Needed(n)) == n
  {
    if n > 140 {
      var q, r := (n - 140) / 128, (n - 140) % 128;
      assert (n - 140 + 127) / 128 == if r == 0 then q else q + 1;
      if r == 0 {
        assert Needed(n) - 142 == 129 * q;
      } else {
        assert Needed(n) - 142 == 129 * q + (r + 1);
      }
    }
  }

  /** `Needed` is the least number of blocks that holds `n` data blocks. */
  lemma NeededExact(n: nat, k: nat)
    requires k <= Needed(n) && (DataCount(k) == n || k == 142 + 129 * 128)
    ensures k == Needed(n)
  {
    if k == 142 + 129 * 128 {
      assert DataCount(k) == MAX_DATA;
    } else if 0 < n <= MAX_DATA {
      DataPosSpec(n - 1, k);
    } else if n > MAX_DATA {
      DataPosSpec(n - 1, k);
    }
  }

  // ----- the tree as it lies on the disk -----

  ghost predicate PtrRun(b: Block, a: seq<nat>, base: nat) {
    forall j :: 0 <= j < 128 ==> PtrAt(b, j) == At(a, base + j)
  }

  ghost predicate PtrStride(b: Block, a: seq<nat>) {
    forall k :: 0 <= k < 128 ==> PtrAt(b, k) == At(a, 142 + 129 * k)
  }

  ghost predicate InRange(a: seq<nat>) {
    forall i :: 0 <= i < |a| ==> 21 <= a[i] < 2048 && !Meta(a[i])
  }

  ghost predicate Direct(node: Inode, a: seq<nat>) {
    forall i :: 0 <= i < 12 ==> node.block[i] == At(a, i)
  }

  ghost predicate Indirect(disk: Disk, node: Inode, a: seq<nat>) {
    InRange(a) && node.block[12] == At(a, 12) && (|a| > 12 ==> PtrRun(disk[a[12]], a, 13))
  }

  ghost predicate Inner(disk: Disk, a: seq<nat>, k: nat) {
    InRange(a) && (142 + 129 * k < |a| ==> PtrRun(disk[a[142 + 129 * k]], a, 143 + 129 * k))
  }

  ghost predicate Double(disk: Disk, node: Inode, a: seq<nat>) {
    && InRange(a)
    && node.block[13] == At(a, 141)
    && (|a| > 141 ==> PtrStride(disk[a[141]], a))
    && forall k :: 0 <= k < 128 ==> Inner(disk, a, k)
  }

  /** `node` and the pointer blocks on `disk` spell exactly the tree `a`. */
  ghost predicate Lays(disk: Disk, node: Inode, a: seq<nat>) {
    && InRange(a)
    && |a| <= Needed(node.blocks)
    && Direct(node, a)
    && Indirect(disk, node, a)
    && Double(disk, node, a)
    && node.block[14] == 0
  }

  // ----- file contents -----

  /** `i_blocks` for a buffer of `size` bytes, in the 32-bit arithmetic of the driver. */
  function BlocksFor(size: u32): u32 {
    (size + 511) % 0x1_0000_0000 / 512
  }

  /** The `j`-th block of a file holding `data`: 512 bytes, the last one padded with zeros. */
  function Chunk(data: seq<byte>, j: nat): Block {
    if 512 * j + 512 <= |data| then data[512 * j..512 * j + 512]
    else if 512 * j < |data| then data[512 * j..] + seq(512 * j + 512 - |data|, i => 0)
    else ZeroBlock()
  }

  /** Byte `i` of that block. */
  lemma ChunkBytes(data: seq<byte>, j: nat, i: nat)
    requires i < 512
    ensures Chunk(data, j)[i] == if 512 * j + i < |data| then data[512 * j + i] else 0
  {}

  /** The block that holds the `j`-th data block of the tree `a`. */
  function BlockOf(a: seq<nat>, j: nat): (m: nat)
    requires InRange(a)
    ensures m < 2048
  {
    At(a, DataPos(j))
  }

  ghost predicate DataOn(disk: Disk, a: seq<nat>, data: seq<byte>) {
    InRange(a) && forall j :: 0 <= j < DataCount(|a|) ==> disk[BlockOf(a, j)] == Chunk(data, j)
  }

  // ----- trees that grow -----

  ghost predicate NoDup(a: seq<nat>) {
    forall i, j :: 0 <= i < j < |a| ==> a[i] != a[j]
  }

  /** Blocks taken earlier keep their contents. */
  ghost predicate Kept(d: Disk, d': Disk, a: seq<nat>) {
    InRange(a) && forall i :: 0 <= i < |a| ==> d'[a[i]] == d[a[i]]
  }

  lemma KeptTransitive(d: Disk, d': Disk, d'': Disk, a: seq<nat>, a': seq<nat>)
    requires a <= a' && Kept(d, d', a) && Kept(d', d'', a')
    ensures Kept(d, d'', a)
  {
    forall i | 0 <= i < |a| ensures d''[a[i]] == d[a[i]] { assert a'[i] == a[i]; }
  }

  /** `a'` extends the tree `a`, whose blocks all keep their contents. */
  ghost predicate Grown(d: Disk, d': Disk, a: seq<nat>, a': seq<nat>) {
    InRange(a) && InRange(a') && a <= a' && Kept(d, d', a)
  }

  lemma DataCountOfRun(k: nat, r: nat)
    requires r <= 128
    ensures DataCount(143 + 129 * k + r) == 140 + 128 * k + r
    ensures r < 128 ==> DataPos(140 + 128 * k + r) == 143 + 129 * k + r
  {
    assert (143 + 129 * k + r - 142) == 129 * k + (r + 1);
    if r < 128 { assert (128 * k + r) / 128 == k; } else { assert (129 * k + 129) / 129 == k + 1; }
  }

  lemma DataCountOfFullRuns(k: nat)
    ensures DataCount(142 + 129 * k) == 140 + 128 * k
  {}

  /** Data blocks of a longer tree: the old ones kept, the new ones written. */
  lemma DataOnGrown(d: Disk, d': Disk, a: seq<nat>, a': seq<nat>, data: seq<byte>)
    requires Grown(d, d', a, a') && DataOn(d, a, data)
    requires forall j :: DataCount(|a|) <= j < DataCount(|a'|) ==> d'[BlockOf(a', j)] == Chunk(data, j)
    ensures DataOn(d', a', data)
  {
    hide Chunk;
    forall j | 0 <= j < DataCount(|a|) ensures d'[BlockOf(a', j)] == Chunk(data, j) {
      DataPosSpec(j, |a|);
      assert a'[DataPos(j)] == a[DataPos(j)];
      assert BlockOf(a', j) == BlockOf(a, j);
    }
  }

  lemma IndirectGrown(d: Disk, d': Disk, node: Inode, a: seq<nat>, a': seq<nat>)
    requires Grown(d, d', a, a') && Indirect(d, node, a) && Direct(node, a)
    requires |a| >= 141 || a' == a
    ensures Indirect(d', node, a') && Direct(node, a')
  {
    if |a| > 12 {
      assert d'[a[12]] == d[a[12]] && a'[12] == a[12];
      assert forall i :: 0 <= i < 141 ==> At(a, i) == At(a', i);
    }
    forall i | 0 <= i < 12 ensures At(a, i) == At(a', i) {}
  }
}
