/** On-disk layout: geometry of the groups, bitmaps, inode slots and pointer blocks. */
module Layout {
  import opened Bytes

  const BLOCK_SIZE := 512
  const GROUPS_COUNT := 8
  const BLOCKS_PER_GROUP := 256
  const INODES_PER_TABLE := 7
  const INODES_PER_GROUP := 112

  const EXT2_S_IFREG: u16 := 0x8000
  const EXT2_S_IFDIR: u16 := 0x4000

  type Block = b: seq<byte> | |b| == 512 witness seq(512, i => 0)
  type Disk = d: seq<Block> | |d| == 8192 witness seq<Block>(8192, i => ZeroBlock())

  /** The storage device: all its blocks. */
  datatype Image = Image(blocks: Disk)

  function ZeroBlock(): (b: Block)
    ensures forall i :: 0 <= i < 512 ==> b[i] == 0
  {
    seq(512, i => 0)
  }

  // ----- where each group keeps its metadata -----

  function BlockBitmap(g: nat): nat { if g == 0 then 3 else 256 * g }
  function InodeBitmap(g: nat): nat { if g == 0 then 4 else 256 * g + 1 }
  function InodeTable(g: nat): nat { if g == 0 then 5 else 256 * g + 2 }

  /** Blocks that hold metadata and never belong to an inode. */
  predicate Meta(m: nat) { if m < 256 then m < 21 else m % 256 < 18 }

  predicate ValidInode(ino: nat) { 1 <= ino <= 896 }

  function InodeToBgd(ino: nat): nat {
    if ino == 0 then 0 else (ino - 1) / 112
  }

  function InodeToLocal(ino: nat): nat {
    if ino == 0 then 0 else (ino - 1) % 112
  }

  function TableBlock(ino: nat): nat {
    InodeTable(InodeToBgd(ino)) + InodeToLocal(ino) / 7
  }

  function TableSlot(ino: nat): (s: nat)
    ensures s < 7
  {
    InodeToLocal(ino) % 7
  }

  lemma MetadataInRange(ino: nat)
    requires ValidInode(ino)
    ensures InodeToBgd(ino) < 8 && InodeToLocal(ino) < 112
    ensures ino == 112 * InodeToBgd(ino) + InodeToLocal(ino) + 1
    ensures InodeTable(InodeToBgd(ino)) <= TableBlock(ino) < InodeTable(InodeToBgd(ino)) + 16
    ensures TableBlock(ino) < 2048 && Meta(TableBlock(ino)) && 5 <= TableBlock(ino)
  {}

  lemma GroupMetadata(g: nat)
    requires g < 8
    ensures BlockBitmap(g) < 2048 && Meta(BlockBitmap(g)) && 3 <= BlockBitmap(g)
    ensures InodeBitmap(g) < 2048 && Meta(InodeBitmap(g)) && 3 <= InodeBitmap(g)
  {}

  /** The three metadata regions of all groups are pairwise apart. */
  lemma MetadataApart(g: nat, h: nat, ino: nat)
    requires g < 8 && h < 8 && ValidInode(ino)
    ensures BlockBitmap(g) == BlockBitmap(h) ==> g == h
    ensures InodeBitmap(g) == InodeBitmap(h) ==> g == h
    ensures BlockBitmap(g) != InodeBitmap(h)
    ensures TableBlock(ino) != BlockBitmap(g) && TableBlock(ino) != InodeBitmap(g)
  {}

  /** The table maps inode numbers to slots one to one. */
  lemma SlotsDistinct(a: nat, b: nat)
    requires ValidInode(a) && ValidInode(b)
    requires TableBlock(a) == TableBlock(b) && TableSlot(a) == TableSlot(b)
    ensures a == b
  {
    MetadataInRange(a);
    MetadataInRange(b);
  }

  // ----- bitmaps -----

  predicate Bit(b: Block, i: nat)
    requires i < 4096
  {
    TestBit(b[i / 8], i % 8)
  }

  function WithBit(b: Block, i: nat): (r: Block)
    requires i < 4096
    ensures forall j :: 0 <= j < 4096 ==> (Bit(r, j) <==> i == j || Bit(b, j))
  {
    var r: Block := b[i / 8 := Or(b[i / 8], i % 8)];
    assert forall j :: 0 <= j < 4096 ==> (Bit(r, j) <==> i == j || Bit(b, j)) by {
      forall j | 0 <= j < 4096 ensures Bit(r, j) <==> i == j || Bit(b, j) {
        SetBitSpec(b[i / 8], i % 8, j % 8);
      }
    }
    r
  }

  function WithoutBit(b: Block, i: nat): (r: Block)
    requires i < 4096
    ensures forall j :: 0 <= j < 4096 ==> (Bit(r, j) <==> i != j && Bit(b, j))
  {
    var r: Block := b[i / 8 := AndNot(b[i / 8], i % 8)];
    assert forall j :: 0 <= j < 4096 ==> (Bit(r, j) <==> i != j && Bit(b, j)) by {
      forall j | 0 <= j < 4096 ensures Bit(r, j) <==> i != j && Bit(b, j) {
        ClearBitSpec(b[i / 8], i % 8, j % 8);
      }
    }
    r
  }

  /** A bitmap block is determined by its bits. */
  lemma BitmapExtensional(a: Block, b: Block)
    requires forall i :: 0 <= i < 4096 ==> (Bit(a, i) <==> Bit(b, i))
    ensures a == b
  {
    forall k | 0 <= k < 512 ensures a[k] == b[k] {
      forall i | 0 <= i < 8 ensures TestBit(a[k], i) <==> TestBit(b[k], i) {
        assert Bit(a, 8 * k + i) <==> Bit(b, 8 * k + i);
      }
      ByteBits(a[k], b[k]);
    }
  }

  /** How many of the first `k` bits are clear: what a free counter caches. */
  function ClearCount(b: Block, k: nat): (r: nat)
    requires k <= 4096
    ensures r <= k
  {
    if k == 0 then 0 else ClearCount(b, k - 1) + (if Bit(b, k - 1) then 0 else 1)
  }

  lemma {:induction false} ClearCountSame(a: Block, b: Block, k: nat)
    requires k <= 4096
    requires forall j :: 0 <= j < k ==> (Bit(a, j) <==> Bit(b, j))
    ensures ClearCount(a, k) == ClearCount(b, k)
  {
    if k > 0 { ClearCountSame(a, b, k - 1); }
  }

  /** Making one clear bit set lowers the count by exactly one, and back. */
  lemma {:induction false} ClearCountFlip(a: Block, b: Block, i: nat, k: nat)
    requires i < k <= 4096
    requires !Bit(a, i)
    requires forall j :: 0 <= j < k ==> (Bit(b, j) <==> i == j || Bit(a, j))
    ensures ClearCount(a, k) == ClearCount(b, k) + 1
  {
    if i == k - 1 { ClearCountSame(a, b, k - 1); } else { ClearCountFlip(a, b, i, k - 1); }
  }

  lemma {:induction false} ClearCountPositive(b: Block, k: nat)
    requires k <= 4096
    ensures ClearCount(b, k) > 0 <==> exists i :: 0 <= i < k && !Bit(b, i)
  {
    if k > 0 { ClearCountPositive(b, k - 1); }
  }

  // ----- inodes -----

  datatype RawInode = Inode(mode: u16, size: u32, blocks: u32, block: seq<u32>)
  type Inode = n: RawInode | |n.block| == 15 witness Inode(0, 0, 0, seq(15, i => 0))

  /** A free slot. */
  function ZeroInode(): (n: Inode)
    ensures forall i :: 0 <= i < 15 ==> n.block[i] == 0
    ensures n.mode == 0 && n.size == 0 && n.blocks == 0
  {
    Inode(0, 0, 0, seq(15, i => 0))
  }

  function EncPtrs(ps: seq<u32>): (r: seq<byte>)
    ensures |r| == 4 * |ps|
    ensures forall j :: 0 <= j < |ps| ==> U32At(r, 4 * j) == ps[j]
  {
    if ps == [] then [] else
      var init := EncPtrs(ps[..|ps| - 1]);
      var r := init + Le32(ps[|ps| - 1]);
      assert forall j :: 0 <= j < |ps| - 1 ==> U32At(r, 4 * j) == U32At(init, 4 * j);
      assert U32At(r, 4 * (|ps| - 1)) == U32At(Le32(ps[|ps| - 1]), 0);
      r
  }

  function EncInode(n: Inode): (r: seq<byte>)
    ensures |r| == 70
  {
    Le16(n.mode) + Le32(n.size) + Le32(n.blocks) + EncPtrs(n.block)
  }

  function GetInode(b: Block, s: nat): Inode
    requires s < 7
  {
    Inode(U16At(b, 70 * s), U32At(b, 70 * s + 2), U32At(b, 70 * s + 6),
          seq(15, j requires 0 <= j < 15 => U32At(b, 70 * s + 10 + 4 * j)))
  }

  function PutInode(b: Block, s: nat, n: Inode): (r: Block)
    requires s < 7
  {
    Splice(b, 70 * s, EncInode(n))
  }

  lemma GetPut(b: Block, s: nat, n: Inode)
    requires s < 7
    ensures GetInode(PutInode(b, s, n), s) == n
  {
    hide EncInode, PutInode, U16At, U32At;
    SlotFilled(b, s, n);
    SlotRead(PutInode(b, s, n), s, n);
  }

  lemma SlotFilled(b: Block, s: nat, n: Inode)
    requires s < 7
    ensures PutInode(b, s, n)[70 * s..70 * s + 70] == EncInode(n)
  {
    hide EncInode;
  }

  /** A slot that holds the bytes of an inode reads as that inode. */
  lemma SlotRead(r: Block, s: nat, n: Inode)
    requires s < 7 && r[70 * s..70 * s + 70] == EncInode(n)
    ensures GetInode(r, s) == n
  {
    hide EncInode, U16At, U32At;
    HeaderRead(r, 70 * s, n);
    forall j | 0 <= j < 15 ensures GetInode(r, s).block[j] == n.block[j] { PointerRead(r, 70 * s, n, j); }
    assert GetInode(r, s).block == n.block;
  }

  lemma HeaderRead(r: Block, o: nat, n: Inode)
    requires o + 70 <= 512 && r[o..o + 70] == EncInode(n)
    ensures U16At(r, o) == n.mode && U32At(r, o + 2) == n.size && U32At(r, o + 6) == n.blocks
  {
    var e := EncInode(n);
    assert forall i :: 0 <= i < 10 ==> r[o + i] == e[i];
    assert U16At(e, 0) == U16At(Le16(n.mode), 0);
    assert U32At(e, 2) == U32At(Le32(n.size), 0);
    assert U32At(e, 6) == U32At(Le32(n.blocks), 0);
  }

  lemma PointerRead(r: Block, o: nat, n: Inode, j: nat)
    requires o + 70 <= 512 && r[o..o + 70] == EncInode(n) && j < 15
    ensures U32At(r, o + 10 + 4 * j) == n.block[j]
  {
    hide Le16, Le32, EncPtrs;
    var e, h := EncInode(n), Le16(n.mode) + Le32(n.size) + Le32(n.blocks);
    assert e == h + EncPtrs(n.block);
    Tail(h, EncPtrs(n.block), 4 * j);
    assert forall i :: 0 <= i < 70 ==> r[o + i] == e[i];
  }

  lemma GetPutOther(b: Block, s: nat, n: Inode, t: nat)
    requires s < 7 && t < 7 && s != t
    ensures GetInode(PutInode(b, s, n), t) == GetInode(b, t)
  {
    var r := PutInode(b, s, n);
    assert forall i :: 70 * t <= i < 70 * t + 70 ==> r[i] == b[i];
  }

  /** Equal inodes sit in equal bytes: writing back what was read changes nothing. */
  lemma PutGet(b: Block, s: nat)
    requires s < 7
    ensures PutInode(b, s, GetInode(b, s)) == b
  {
    hide U16At, U32At, Le16, Le32, EncPtrs;
    var n, o := GetInode(b, s), 70 * s;
    Le16Decoded(b, o);
    Le32Decoded(b, o + 2);
    Le32Decoded(b, o + 6);
    PtrsDecoded(b, o + 10, n.block);
    assert EncInode(n) == b[o..o + 2] + b[o + 2..o + 6] + b[o + 6..o + 10] + b[o + 10..o + 70];
    assert EncInode(n) == b[o..o + 70];
  }

  lemma {:induction false} PtrsDecoded(b: seq<byte>, o: nat, ps: seq<u32>)
    requires o + 4 * |ps| <= |b|
    requires forall j :: 0 <= j < |ps| ==> ps[j] == U32At(b, o + 4 * j)
    ensures EncPtrs(ps) == b[o..o + 4 * |ps|]
  {
    hide U32At, Le32;
    if ps != [] {
      var k := |ps| - 1;
      PtrsDecoded(b, o, ps[..k]);
      assert Le32(ps[k]) == b[o + 4 * k..o + 4 * k + 4] by { Le32Decoded(b, o + 4 * k); }
      assert b[o..o + 4 * k] + b[o + 4 * k..o + 4 * k + 4] == b[o..o + 4 * |ps|];
    }
  }

  lemma Shifted(r: seq<byte>, o: nat, e: seq<byte>)
    requires o + |e| <= |r| && r[o..o + |e|] == e
    ensures forall i :: 0 <= i && i + 2 <= |e| ==> U16At(r, o + i) == U16At(e, i)
    ensures forall i :: 0 <= i && i + 4 <= |e| ==> U32At(r, o + i) == U32At(e, i)
  {
    assert forall i :: 0 <= i < |e| ==> r[o + i] == e[i];
  }

  lemma Tail(h: seq<byte>, t: seq<byte>, i: nat)
    requires i + 4 <= |t|
    ensures U32At(h + t, |h| + i) == U32At(t, i)
  {}

  // ----- inodes on the disk -----

  function Node(disk: Disk, ino: nat): Inode
    requires ValidInode(ino)
  {
    GetInode(disk[TableBlock(ino)], TableSlot(ino))
  }

  /** `sync_node`: one slot of one table block changes. */
  function PutNode(disk: Disk, ino: nat, n: Inode): Disk
    requires ValidInode(ino)
  {
    disk[TableBlock(ino) := PutInode(disk[TableBlock(ino)], TableSlot(ino), n)]
  }

  lemma NodeOfPutNode(disk: Disk, ino: nat, n: Inode, other: nat)
    requires ValidInode(ino) && ValidInode(other)
    ensures Node(PutNode(disk, ino, n), other) == if other == ino then n else Node(disk, other)
  {
    if other == ino {
      GetPut(disk[TableBlock(ino)], TableSlot(ino), n);
    } else if TableBlock(ino) == TableBlock(other) {
      if TableSlot(ino) == TableSlot(other) { SlotsDistinct(ino, other); }
      GetPutOther(disk[TableBlock(ino)], TableSlot(ino), n, TableSlot(other));
    }
  }

  /** Restoring a slot's former inode restores the table block byte for byte. */
  /** Outside slot `s` the blocks agree. */
  predicate SameOutside(b: Block, b': Block, s: nat) {
    forall i {:trigger b'[i]} :: 0 <= i < 512 && !(70 * s <= i < 70 * s + 70) ==> b'[i] == b[i]
  }

  lemma PutInodeOutside(b: Block, s: nat, n: Inode)
    requires s < 7
    ensures SameOutside(b, PutInode(b, s, n), s)
  {
    hide EncInode;
  }

  /** A block that differs in one slot only is the other block with that slot written. */
  lemma SlotIsPut(b: Block, b': Block, s: nat)
    requires s < 7 && SameOutside(b, b', s)
    ensures b' == PutInode(b, s, GetInode(b', s))
  {
    hide EncInode, GetInode;
    var n := GetInode(b', s);
    PutGet(b', s);
    assert PutInode(b', s, n)[70 * s..70 * s + 70] == EncInode(n) == PutInode(b, s, n)[70 * s..70 * s + 70];
    forall i | 0 <= i < 512 ensures PutInode(b', s, n)[i] == PutInode(b, s, n)[i] {
      if 70 * s <= i < 70 * s + 70 { assert PutInode(b, s, n)[i] == EncInode(n)[i - 70 * s]; }
    }
  }

  lemma PutInodeUndone(b: Block, s: nat, n: Inode)
    requires s < 7
    ensures PutInode(PutInode(b, s, n), s, GetInode(b, s)) == b
  {
    var m := GetInode(b, s);
    assert |EncInode(n)| == |EncInode(m)| == 70;
    assert PutInode(PutInode(b, s, n), s, m) == PutInode(b, s, m);
    PutGet(b, s);
  }

  // ----- pointer blocks -----

  function PtrAt(b: Block, j: nat): u32
    requires j < 128
  {
    U32At(b, 4 * j)
  }

  function WithPtr(b: Block, j: nat, p: u32): (r: Block)
    requires j < 128
    ensures forall k :: 0 <= k < 128 ==> PtrAt(r, k) == if k == j then p else PtrAt(b, k)
  {
    var e := Le32(p);
    var r: Block := b[4 * j := e[0]][4 * j + 1 := e[1]][4 * j + 2 := e[2]][4 * j + 3 := e[3]];
    assert U32At(r, 4 * j) == U32At(e, 0);
    r
  }

  lemma ZeroPointers()
    ensures forall j :: 0 <= j < 128 ==> PtrAt(ZeroBlock(), j) == 0
  {}
}
