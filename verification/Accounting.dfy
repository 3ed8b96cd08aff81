/** Keeping account of the blocks one operation takes, down to the bits of the bitmaps. */
module Accounting {
  import opened Layout
  import opened Metadata
  import opened Volume
  import opened FileTree

  /** `pos` inverts `a`: each block of `a` occurs once, at `pos` of it. */
  ghost predicate Inverse(a: seq<nat>, pos: map<nat, nat>) {
    && (forall i :: 0 <= i < |a| ==> a[i] in pos && pos[a[i]] == i)
    && (forall m :: m in pos ==> pos[m] < |a| && a[pos[m]] == m)
  }

  /** The bitmap of group `g` changed from `b0` to `b` by setting exactly the bits of the blocks in `pos`. */
  ghost predicate BitsAdded(b0: Block, b: Block, g: nat, pos: map<nat, nat>) {
    forall i :: 0 <= i < 4096 ==> (Bit(b, i) <==> Bit(b0, i) || (i < 256 && 256 * g + i in pos))
  }

  /** `d` is `d0` after taking the blocks `a`: their bits are set, only they and the bitmaps may have changed. */
  ghost predicate Took(d0: Disk, d: Disk, a: seq<nat>, pos: map<nat, nat>) {
    && Inverse(a, pos)
    && (forall m :: m in pos ==> m < 2048 && !Used(d0, m))
    && (forall g :: 0 <= g < 8 ==> BitsAdded(d0[BlockBitmap(g)], d[BlockBitmap(g)], g, pos))
    && (forall m :: 0 <= m < 8192 && m !in pos && !IsBlockBitmap(m) ==> d[m] == d0[m])
  }

  ghost predicate LowestFree(d: Disk, pref: nat, n: nat) {
    && 256 * pref <= n < 2048 && !Used(d, n)
    && forall m :: 256 * pref <= m < n ==> Used(d, m)
  }

  ghost predicate NoneFree(d: Disk, pref: nat) {
    forall m :: 256 * pref <= m < 2048 ==> Used(d, m)
  }

  /** `a` is the ascending list of the first `|a|` blocks free in `d0` at or after group `pref`. */
  ghost predicate FirstFit(d0: Disk, pref: nat, a: seq<nat>) {
    && (forall i, j :: 0 <= i < j < |a| ==> a[i] < a[j])
    && (forall i :: 0 <= i < |a| ==> 256 * pref <= a[i] < 2048 && !Used(d0, a[i]))
    && (|a| > 0 ==> forall m :: 256 * pref <= m <= a[|a| - 1] && !Used(d0, m) ==> m in a)
  }

  lemma UsedAfterTook(d0: Disk, d: Disk, a: seq<nat>, pos: map<nat, nat>, m: nat)
    requires Took(d0, d, a, pos) && m < 2048
    ensures Used(d, m) <==> Used(d0, m) || m in pos
  {
    assert 256 * (m / 256) + m % 256 == m;
    assert BitsAdded(d0[BlockBitmap(m / 256)], d[BlockBitmap(m / 256)], m / 256, pos);
  }

  lemma TookInverse(d0: Disk, d: Disk, a: seq<nat>, pos: map<nat, nat>)
    requires Took(d0, d, a, pos)
    ensures Inverse(a, pos)
  {}

  lemma TookOneMore(d0: Disk, d: Disk, a: seq<nat>, pos: map<nat, nat>, n: nat)
    requires Took(d0, d, a, pos) && n < 2048 && !Used(d, n)
    ensures !Used(d0, n) && n !in pos
    ensures Took(d0, MarkUsed(d, n), a + [n], pos[n := |a|])
  {
    UsedAfterTook(d0, d, a, pos, n);
    InverseOneMore(a, pos, n);
    forall g | 0 <= g < 8 ensures BitsAdded(d0[BlockBitmap(g)], MarkUsed(d, n)[BlockBitmap(g)], g, pos[n := |a|]) {
      BitAddedOneMore(d0, d, g, pos, n, |a|);
    }
    assert IsBlockBitmap(BlockBitmap(n / 256));
  }

  lemma InverseOneMore(a: seq<nat>, pos: map<nat, nat>, n: nat)
    requires Inverse(a, pos) && n !in pos
    ensures Inverse(a + [n], pos[n := |a|])
  {}

  lemma BitAddedOneMore(d0: Disk, d: Disk, g: nat, pos: map<nat, nat>, n: nat, p: nat)
    requires g < 8 && n < 2048 && BitsAdded(d0[BlockBitmap(g)], d[BlockBitmap(g)], g, pos)
    ensures BitsAdded(d0[BlockBitmap(g)], MarkUsed(d, n)[BlockBitmap(g)], g, pos[n := p])
  {
    MetadataApart(g, n / 256, 1);
    assert 256 * (n / 256) + n % 256 == n;
  }

  lemma TookWrite(d0: Disk, d: Disk, a: seq<nat>, pos: map<nat, nat>, m: nat, b: Block)
    requires Took(d0, d, a, pos) && m in pos && MetaUsed(d0)
    ensures Took(d0, d[m := b], a, pos)
  {
    assert !Meta(m);
    forall g | 0 <= g < 8 ensures BlockBitmap(g) != m { GroupMetadata(g); }
  }

  lemma FirstFitOneMore(d0: Disk, d: Disk, pref: nat, a: seq<nat>, pos: map<nat, nat>, n: nat)
    requires Took(d0, d, a, pos) && FirstFit(d0, pref, a) && LowestFree(d, pref, n)
    ensures FirstFit(d0, pref, a + [n])
  {
    hide Took, Used;
    UsedAfterTook(d0, d, a, pos, n);
    TookInverse(d0, d, a, pos);
    forall m | 256 * pref <= m < n && !Used(d0, m) ensures m in a {
      UsedAfterTook(d0, d, a, pos, m);
      assert Used(d, m);
    }
    FitExtends(d0, pref, a, n);
  }

  lemma FitExtends(d0: Disk, pref: nat, a: seq<nat>, n: nat)
    requires FirstFit(d0, pref, a) && 256 * pref <= n < 2048 && !Used(d0, n) && n !in a
    requires forall m :: 256 * pref <= m < n && !Used(d0, m) ==> m in a
    ensures FirstFit(d0, pref, a + [n])
  {
    hide Used;
    forall i | 0 <= i < |a| ensures a[i] < n {
      if n <= a[|a| - 1] { assert false; }
    }
    forall m | 256 * pref <= m <= n && !Used(d0, m) ensures m in a + [n] {
      if m == n { assert (a + [n])[|a|] == m; }
    }
  }

  lemma MetaUsedAfterMark(d: Disk, n: nat)
    requires MetaUsed(d) && n < 2048
    ensures MetaUsed(MarkUsed(d, n))
    ensures !Meta(n) ==> MetaUsed(MarkFree(d, n))
  {
    forall m | 0 <= m < 2048 && Meta(m)
      ensures Used(MarkUsed(d, n), m) && (!Meta(n) ==> Used(MarkFree(d, n), m))
    {
      UsedAfterMark(d, n, m);
    }
  }

  /** One allocation keeps the account of what has been taken. */
  lemma TakenOne(d0: Disk, d: Disk, pref: nat, a: seq<nat>, pos: map<nat, nat>, n: nat)
    requires MetaUsed(d) && Took(d0, d, a, pos) && FirstFit(d0, pref, a) && LowestFree(d, pref, n)
    ensures Took(d0, MarkUsed(d, n), a + [n], pos[n := |a|]) && FirstFit(d0, pref, a + [n])
    ensures n !in pos && n < 2048 && !Meta(n)
    ensures forall m :: 0 <= m < 8192 && !IsBlockBitmap(m) ==> MarkUsed(d, n)[m] == d[m]
  {
    hide Used;
    hide Took;
    TookOneMore(d0, d, a, pos, n);
    FirstFitOneMore(d0, d, pref, a, pos, n);
    assert IsBlockBitmap(BlockBitmap(n / 256));
  }

  /**
   * The account of the blocks one operation takes: `a` is what it has taken, in order, since the state was `v0`,
   * each time scanning from group `pref` on; `pos` inverts `a`.
   */
  datatype Account = Account(v0: Volume, pref: nat, a: seq<nat>, pos: map<nat, nat>)

  function Plus(t: Account, n: nat): Account {
    t.(a := t.a + [n], pos := t.pos[n := |t.a|])
  }

  /** `u` continues the account `t`. */
  ghost predicate Continues(t: Account, u: Account) {
    u.v0 == t.v0 && u.pref == t.pref && t.a <= u.a
  }

  lemma ContinuesTransitive(t: Account, u: Account, w: Account)
    requires Continues(t, u) && Continues(u, w)
    ensures Continues(t, w) && |t.a| <= |u.a| <= |w.a|
  {}

  lemma ContinuesItself(t: Account)
    ensures Continues(t, t)
  {}

  /** `v` is the state after the operation took exactly the blocks of the account `t`. */
  ghost predicate Taking(v: Volume, t: Account) {
    && Counted(v) && OnlyFreeBlocks(t.v0, v) && MetaUsed(v.disk) && MetaUsed(t.v0.disk)
    && Took(t.v0.disk, v.disk, t.a, t.pos) && FirstFit(t.v0.disk, t.pref, t.a)
  }

  lemma TakingNothing(v: Volume, pref: nat)
    requires Counted(v) && MetaUsed(v.disk)
    ensures Taking(v, Account(v, pref, [], map[]))
  {}

  lemma TakingFacts(v: Volume, t: Account)
    requires Taking(v, t)
    ensures InRange(t.a) && NoDup(t.a)
  {
    hide Used, Counted, FirstFit;
    forall i | 0 <= i < |t.a| ensures 21 <= t.a[i] < 2048 && !Meta(t.a[i]) { assert t.a[i] in t.pos; }
  }

  /** One allocation. */
  lemma TakingOne(v: Volume, t: Account, n: nat)
    requires Taking(v, t) && n == FirstFree(v.disk, 256 * t.pref)
    ensures n == 0 ==> NoneFree(v.disk, t.pref)
    ensures n != 0 ==> n < 2048 && !Meta(n) && n !in t.a && Taking(Take(v, n), Plus(t, n))
    ensures NoneFree(v.disk, t.pref) ==> n == 0
    ensures n != 0 ==> forall m :: 0 <= m < 8192 && !IsBlockBitmap(m) ==> Take(v, n).disk[m] == v.disk[m]
  {
    hide Used, Took, Counted, MetaUsed, FirstFit, OnlyFreeBlocks;
    assert Used(v.disk, 0) by { BootBlockUsed(v.disk); }
    FirstFreeSpec(v.disk, 256 * t.pref);
    if n != 0 {
      TakenOne(t.v0.disk, v.disk, t.pref, t.a, t.pos, n);
      CountedAfterTake(v, n);
      MetaUsedAfterMark(v.disk, n);
      OnlyFreeBlocksStep(t.v0, v, n);
      assert n !in t.a by { TookInverse(t.v0.disk, v.disk, t.a, t.pos); }
    }
  }

  lemma BootBlockUsed(d: Disk)
    requires MetaUsed(d)
    ensures Used(d, 0)
  {
    assert Meta(0);
  }

  /** Writing to a block already taken. */
  lemma TakingWrite(v: Volume, t: Account, i: nat, b: Block)
    requires Taking(v, t) && i < |t.a|
    ensures t.a[i] < 2048 && Taking(PutBlock(v, t.a[i], b), t)
  {
    TakingFacts(v, t);
    var m := t.a[i];
    assert t.a[i] in t.pos;
    assert !IsBlockBitmap(m) && !IsInodeBitmap(m);
    CountedAfterPut(v, m, b);
    MetaUsedAfterPut(v.disk, m, b);
    hide Used, Counted, MetaUsed, FirstFit;
    TookWrite(t.v0.disk, v.disk, t.a, t.pos, m, b);
  }

  lemma MetaUsedAfterPut(d: Disk, m: nat, b: Block)
    requires MetaUsed(d) && m < 8192 && !IsBlockBitmap(m)
    ensures MetaUsed(d[m := b])
    ensures forall k :: 0 <= k < 2048 ==> (Used(d[m := b], k) <==> Used(d, k))
  {
    forall k | 0 <= k < 2048
      ensures Used(d[m := b], k) <==> Used(d, k)
      ensures m != BlockBitmap(k / 256)
    {}
  }
}
