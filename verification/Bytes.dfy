/** Bytes, bits and little-endian integers, as the driver's C code manipulates them. */
module Bytes {

  type byte = x: int | 0 <= x < 256
  type u16 = x: int | 0 <= x < 0x1_0000
  type u32 = x: int | 0 <= x < 0x1_0000_0000

  // ----- bits of a byte: `b & (1 << i)`, `b |= (1 << i)`, `b &= ~(1 << i)` -----

  function Pow2(w: nat): (r: nat)
    ensures r >= 1
  {
    if w == 0 then 1 else 2 * Pow2(w - 1)
  }

  predicate TestBit(b: nat, i: nat) {
    if i == 0 then b % 2 == 1 else TestBit(b / 2, i - 1)
  }

  function SetBit(b: nat, i: nat): nat {
    if i == 0 then b / 2 * 2 + 1 else SetBit(b / 2, i - 1) * 2 + b % 2
  }

  function ClearBit(b: nat, i: nat): nat {
    if i == 0 then b / 2 * 2 else ClearBit(b / 2, i - 1) * 2 + b % 2
  }

  lemma {:induction false} SetBitSpec(b: nat, i: nat, j: nat)
    ensures TestBit(SetBit(b, i), j) <==> i == j || TestBit(b, j)
  {
    if i > 0 && j > 0 { SetBitSpec(b / 2, i - 1, j - 1); }
  }

  lemma {:induction false} ClearBitSpec(b: nat, i: nat, j: nat)
    ensures TestBit(ClearBit(b, i), j) <==> i != j && TestBit(b, j)
  {
    if i > 0 && j > 0 { ClearBitSpec(b / 2, i - 1, j - 1); }
  }

  lemma {:induction false} BitOpsBound(b: nat, i: nat, w: nat)
    requires b < Pow2(w) && i < w
    ensures SetBit(b, i) < Pow2(w) && ClearBit(b, i) < Pow2(w)
  {
    var half := Pow2(w - 1);
    assert b / 2 < half;
    if i > 0 { BitOpsBound(b / 2, i - 1, w - 1); }
  }

  lemma {:induction false} BitsDetermine(a: nat, b: nat, w: nat)
    requires a < Pow2(w) && b < Pow2(w)
    requires forall i :: 0 <= i < w ==> (TestBit(a, i) <==> TestBit(b, i))
    ensures a == b
  {
    if w > 0 {
      assert TestBit(a, 0) <==> TestBit(b, 0);
      forall i | 0 <= i < w - 1 ensures TestBit(a / 2, i) <==> TestBit(b / 2, i) {
        assert TestBit(a, i + 1) <==> TestBit(b, i + 1);
      }
      BitsDetermine(a / 2, b / 2, w - 1);
    }
  }

  lemma {:induction false} AllOnes(w: nat, i: nat)
    requires i < w
    ensures TestBit(Pow2(w) - 1, i)
  {
    if i > 0 {
      assert (Pow2(w) - 1) / 2 == Pow2(w - 1) - 1;
      AllOnes(w - 1, i - 1);
    }
  }

  lemma {:induction false} ZeroBits(i: nat)
    ensures !TestBit(0, i)
  {
    if i > 0 { ZeroBits(i - 1); }
  }

  lemma {:induction false} Pow2Bit(i: nat, j: nat)
    ensures TestBit(Pow2(i), j) <==> i == j
  {
    if j > 0 {
      if i == 0 { ZeroBits(j - 1); } else { Pow2Bit(i - 1, j - 1); }
    }
  }

  lemma Pow2Of8()
    ensures Pow2(8) == 256
  {
    assert Pow2(4) == 16;
  }

  function Or(b: byte, i: nat): (r: byte)
    requires i < 8
    ensures r == SetBit(b, i)
  {
    Pow2Of8(); BitOpsBound(b, i, 8);
    SetBit(b, i)
  }

  function AndNot(b: byte, i: nat): (r: byte)
    requires i < 8
    ensures r == ClearBit(b, i)
  {
    Pow2Of8(); BitOpsBound(b, i, 8);
    ClearBit(b, i)
  }

  /** A byte differs from 0xFF exactly when one of its bits is clear. */
  lemma FullByte(b: byte) returns (i: nat)
    ensures i < 8
    ensures b == 0xFF <==> TestBit(b, i)
    ensures b == 0xFF ==> forall j :: 0 <= j < 8 ==> TestBit(b, j)
  {
    Pow2Of8();
    forall j | 0 <= j < 8 ensures TestBit(0xFF, j) { AllOnes(8, j); }
    i := 0;
    while i < 7 && TestBit(b, i)
      invariant i < 8 && forall j :: 0 <= j < i ==> TestBit(b, j)
    {
      i := i + 1;
    }
    if TestBit(b, i) {
      forall j | 0 <= j < 8 ensures TestBit(b, j) <==> TestBit(0xFF, j) {}
      BitsDetermine(b, 0xFF, 8);
    }
  }

  lemma ByteBits(a: byte, b: byte)
    requires forall i :: 0 <= i < 8 ==> (TestBit(a, i) <==> TestBit(b, i))
    ensures a == b
  {
    Pow2Of8(); BitsDetermine(a, b, 8);
  }

  // ----- little-endian integers -----

  function U16At(s: seq<byte>, o: nat): u16
    requires o + 2 <= |s|
  {
    s[o] as int + 256 * s[o + 1] as int
  }

  function U32At(s: seq<byte>, o: nat): u32
    requires o + 4 <= |s|
  {
    U16At(s, o) as int + 0x1_0000 * U16At(s, o + 2) as int
  }

  function Le16(n: u16): (r: seq<byte>)
    ensures |r| == 2 && U16At(r, 0) == n
  {
    [n % 256, n / 256]
  }

  function Le32(n: u32): (r: seq<byte>)
    ensures |r| == 4 && U32At(r, 0) == n
  {
    var r := Le16(n % 0x1_0000) + Le16(n / 0x1_0000);
    assert U16At(r, 0) == U16At(Le16(n % 0x1_0000), 0);
    assert U16At(r, 2) == U16At(Le16(n / 0x1_0000), 0);
    r
  }

  lemma Le16Decoded(s: seq<byte>, o: nat)
    requires o + 2 <= |s|
    ensures Le16(U16At(s, o)) == s[o..o + 2]
  {}

  lemma Le32Decoded(s: seq<byte>, o: nat)
    requires o + 4 <= |s|
    ensures Le32(U32At(s, o)) == s[o..o + 4]
  {
    hide Le16, U16At;
    Le32Halves(s, o);
    Le16Decoded(s, o);
    Le16Decoded(s, o + 2);
    assert s[o..o + 4] == s[o..o + 2] + s[o + 2..o + 4];
  }

  lemma Le32Halves(s: seq<byte>, o: nat)
    requires o + 4 <= |s|
    ensures U32At(s, o) % 0x1_0000 == U16At(s, o) && U32At(s, o) / 0x1_0000 == U16At(s, o + 2)
  {
    hide U16At;
  }

  // ----- overwriting part of a buffer -----

  function Splice(s: seq<byte>, o: nat, t: seq<byte>): (r: seq<byte>)
    requires o + |t| <= |s|
    ensures |r| == |s|
    ensures r[o..o + |t|] == t
    ensures forall i :: 0 <= i < o || o + |t| <= i < |s| ==> r[i] == s[i]
    ensures forall i :: 0 <= i < |t| ==> r[o + i] == t[i]
  {
    s[..o] + t + s[o + |t|..]
  }
}
