/** Reading a file back through its mapping tree. */
module Reading {
  import opened Bytes
  import opened Layout
  import opened FileTree

  // ----- the operation -----

  /** Append one block to what has been copied, never beyond `size` bytes. */
  function CopyBlock(d: Disk, p: u32, size: nat, out: seq<byte>): (r: seq<byte>)
    requires |out| < size
    ensures |out| < |r| <= size
  {
    out + BlockAt(d, p)[..if size - |out| > 512 then 512 else size - |out|]
  }

  function ReadDirect(d: Disk, node: Inode, out: seq<byte>, i: nat): seq<byte>
    decreases 12 - i
  {
    if i >= 12 || |out| >= node.size || node.block[i] == 0 then out
    else ReadDirect(d, node, CopyBlock(d, node.block[i], node.size, out), i + 1)
  }

  function ReadRun(d: Disk, b: Block, size: nat, out: seq<byte>, j: nat): seq<byte>
    decreases 128 - j
  {
    if j >= 128 || |out| >= size || PtrAt(b, j) == 0 then out
    else ReadRun(d, b, size, CopyBlock(d, PtrAt(b, j), size, out), j + 1)
  }

  function ReadDouble(d: Disk, b: Block, size: nat, out: seq<byte>, k: nat): seq<byte>
    decreases 128 - k
  {
    if k >= 128 || |out| >= size || PtrAt(b, k) == 0 then out
    else ReadDouble(d, b, size, ReadRun(d, BlockAt(d, PtrAt(b, k)), size, out, 0), k + 1)
  }

  /** The bytes `read` copies for an inode. */
  function ReadNode(d: Disk, node: Inode): seq<byte> {
    var out1 := ReadDirect(d, node, [], 0);
    var out2 := if |out1| < node.size && node.block[12] != 0
                then ReadRun(d, BlockAt(d, node.block[12]), node.size, out1, 0) else out1;
    if |out2| < node.size && node.block[13] != 0
    then ReadDouble(d, BlockAt(d, node.block[13]), node.size, out2, 0) else out2
  }

  // ----- what it returns -----

  /** The first `c` blocks' worth of a file. */
  function Upto(data: seq<byte>, c: nat): seq<byte> {
    if 512 * c <= |data| then data[..512 * c] else data
  }

  lemma CopyNext(d: Disk, p: u32, data: seq<byte>, c: nat)
    requires p < 8192 && d[p] == Chunk(data, c) && 512 * c < |data|
    ensures CopyBlock(d, p, |data|, Upto(data, c)) == Upto(data, c + 1)
  {
    var o := 512 * c;
    if o + 512 <= |data| {
      assert data[..o] + data[o..o + 512] == data[..o + 512];
    } else {
      assert Chunk(data, c)[..|data| - o] == data[o..];
    }
  }

  lemma DataAt(d: Disk, a: seq<nat>, data: seq<byte>, j: nat, q: nat)
    requires DataOn(d, a, data) && q == DataPos(j) < |a|
    ensures 0 != a[q] < 2048 && d[a[q]] == Chunk(data, j) && At(a, q) == a[q]
  {
    hide Chunk;
    DataPosSpec(j, |a|);
    assert d[BlockOf(a, j)] == Chunk(data, j);
  }

  lemma {:induction false} ReadDirectSpec(d: Disk, node: Inode, a: seq<nat>, data: seq<byte>, i: nat)
    requires Direct(node, a) && DataOn(d, a, data) && node.size == |data|
    requires i <= 12 && i <= |a|
    ensures ReadDirect(d, node, Upto(data, i), i) == Upto(data, if |a| < 12 then |a| else 12)
    decreases 12 - i
  {
    hide Chunk, DataOn, CopyBlock;
    if i < 12 && 512 * i < |data| && i < |a| {
      assert node.block[i] == At(a, i);
      DataAt(d, a, data, i, i);
      CopyNext(d, a[i], data, i);
      ReadDirectSpec(d, node, a, data, i + 1);
    } else if i < 12 && i == |a| {
      assert node.block[i] == At(a, i);
    }
  }

  /** Data block `c0` sits at position `base`, the first of a run below one pointer block. */
  ghost predicate RunAt(c0: nat, base: nat) {
    (c0 == 12 && base == 13) || (c0 >= 140 && (c0 - 140) % 128 == 0 && base == 143 + (c0 - 140) / 128 * 129)
  }

  lemma RunPosition(c0: nat, base: nat, j: nat)
    requires RunAt(c0, base) && j < 128
    ensures DataPos(c0 + j) == base + j
  {
    if c0 != 12 { DataCountOfRun((c0 - 140) / 128, j); }
  }

  /** A run of pointers whose entry `j` names the data block `c0 + j`. */
  lemma {:induction false} ReadRunSpec(d: Disk, b: Block, a: seq<nat>, data: seq<byte>, base: nat, c0: nat, j: nat)
    requires DataOn(d, a, data) && PtrRun(b, a, base)
    requires RunAt(c0, base)
    requires j <= 128 && base + j <= |a|
    ensures ReadRun(d, b, |data|, Upto(data, c0 + j), j)
         == Upto(data, if |a| < base + 128 then c0 + |a| - base else c0 + 128)
    decreases 128 - j
  {
    hide Chunk, DataOn, CopyBlock, DataPos, PtrAt, RunAt;
    if j < 128 {
      assert PtrAt(b, j) == At(a, base + j);
      if 512 * (c0 + j) < |data| && base + j < |a| {
        RunPosition(c0, base, j);
        DataAt(d, a, data, c0 + j, base + j);
        CopyNext(d, a[base + j], data, c0 + j);
        ReadRunSpec(d, b, a, data, base, c0, j + 1);
      }
    }
  }

  lemma UptoAll(data: seq<byte>, c: nat, c': nat)
    requires 512 * c >= |data| && c <= c'
    ensures Upto(data, c) == data && Upto(data, c') == data
  {}

  lemma UptoShort(data: seq<byte>, c: nat)
    ensures |Upto(data, c)| < |data| <==> 512 * c < |data|
  {}

  lemma DataCountMonotone(k: nat, l: nat)
    requires k <= l
    ensures DataCount(k) <= DataCount(l)
  {
    if DataCount(k) > DataCount(l) {
      DataPosSpec(DataCount(l), k);
      DataPosSpec(DataCount(l), l);
      assert false;
    }
  }

  lemma InnerAt(d: Disk, b: Block, a: seq<nat>, data: seq<byte>, k: nat)
    requires DataOn(d, a, data) && PtrStride(b, a) && k < 128 && Inner(d, a, k)
    ensures PtrAt(b, k) == At(a, 142 + 129 * k)
    ensures 142 + 129 * k < |a| ==>
      var p := a[142 + 129 * k]; 0 != p < 2048 && p == PtrAt(b, k) && PtrRun(d[p], a, 143 + 129 * k)
  {}

  lemma {:induction false} ReadDoubleSpec(d: Disk, b: Block, a: seq<nat>, data: seq<byte>, k: nat)
    requires DataOn(d, a, data) && PtrStride(b, a) && forall j :: 0 <= j < 128 ==> Inner(d, a, j)
    requires k <= 128 && 142 <= |a| <= 142 + 129 * 128
    ensures ReadDouble(d, b, |data|, Upto(data, DataCount(Least(|a|, 142 + 129 * k))), k) == Upto(data, DataCount(|a|))
    decreases 128 - k
  {
    hide Chunk, DataOn, DataPos, DataCount, PtrAt, ReadRun, Inner, Upto, PtrRun, PtrStride;
    var q := 142 + 129 * k;
    var c := DataCount(Least(|a|, q));
    UptoShort(data, c);
    DataCountMonotone(Least(|a|, q), |a|);
    if 512 * c >= |data| {
      UptoAll(data, c, DataCount(|a|));
    } else if k < 128 {
      assert Inner(d, a, k);
      InnerAt(d, b, a, data, k);
      if q < |a| {
        DataCountOfFullRuns(k);
        DataCountOfRun(k, Least(|a|, q + 129) - q - 1);
        ReadRunSpec(d, d[a[q]], a, data, q + 1, c, 0);
        ReadDoubleSpec(d, b, a, data, k + 1);
      }
    }
  }

  /** Reading a tree returns the file's bytes, as far as blocks were found for them. */
  lemma ReadNodeSpec(d: Disk, node: Inode, a: seq<nat>, data: seq<byte>)
    requires Lays(d, node, a) && DataOn(d, a, data) && node.size == |data|
    ensures ReadNode(d, node) == Upto(data, DataCount(|a|))
  {
    hide Chunk, DataOn, PtrAt, ReadDirect, ReadRun, ReadDouble, Inner, PtrRun, PtrStride;
    assert Upto(data, 0) == [];
    ReadDirectSpec(d, node, a, data, 0);
    var c1 := Least(|a|, 12);
    var out1 := ReadDirect(d, node, [], 0);
    UptoShort(data, c1);
    var c2 := DataCount(Least(|a|, 141));
    var out2 := if |out1| < node.size && node.block[12] != 0
                then ReadRun(d, BlockAt(d, node.block[12]), node.size, out1, 0) else out1;
    if 512 * c1 >= |data| {
      UptoAll(data, c1, c2);
    } else if |a| > 12 {
      ReadRunSpec(d, d[a[12]], a, data, 13, 12, 0);
    }
    assert out2 == Upto(data, c2);
    UptoShort(data, c2);
    DataCountMonotone(Least(|a|, 141), |a|);
    if 512 * c2 >= |data| {
      UptoAll(data, c2, DataCount(|a|));
    } else if |a| > 141 {
      assert DataCount(142) == 140 == DataCount(141);
      ReadDoubleSpec(d, d[a[141]], a, data, 0);
    }
  }
}
