/** Drawing on four bit planes: the fast block fill and the clear screen are what drawing pixel by pixel would give. */
module Graphics {
  import opened Bytes

  const VGA_WIDTH := 640
  const VGA_HEIGHT := 480
  const VGA_PITCH := 80
  const VGA_PLANE_SIZE := 38400

  type Plane = p: seq<bv8> | |p| == 38400 witness seq(38400, i => 0)
  type Planes = s: seq<Plane> | |s| == 4 witness seq<Plane>(4, i => BlankPlane())

  function BlankPlane(): Plane { seq(38400, i => 0) }

  // ----- masks -----

  /** `1 << (7 - b)`: the leftmost pixel of a byte is its highest bit. */
  function PixelMask(b: nat): bv8
    requires b < 8
  {
    (1 as bv8) << (7 - b)
  }

  function LeftMask(s: nat): bv8
    requires 0 < s < 8
  {
    (0xFF as bv8) >> s
  }

  function RightMask(s: nat): bv8
    requires 0 < s < 8
  {
    (0xFF as bv8) << (8 - s)
  }

  lemma PixelMasks()
    ensures PixelMask(0) == 0x80 && PixelMask(1) == 0x40 && PixelMask(2) == 0x20 && PixelMask(3) == 0x10
    ensures PixelMask(4) == 0x08 && PixelMask(5) == 0x04 && PixelMask(6) == 0x02 && PixelMask(7) == 0x01
  {}

  /** The bit of pixel `b` of a byte. */
  predicate Lit(v: bv8, b: nat)
    requires b < 8
  {
    v & PixelMask(b) != 0
  }

  function SetTo(v: bv8, mask: bv8, on: bool): bv8 { if on then v | mask else v & !mask }

  lemma LitAfterPixel(v: bv8, b: nat, on: bool, c: nat)
    requires b < 8 && c < 8
    ensures Lit(SetTo(v, PixelMask(b), on), c) <==> if c == b then on else Lit(v, c)
  {
    if b < 4 { LitAfterLow(v, b, on, c); } else { LitAfterHigh(v, b, on, c); }
  }

  lemma LitAfterLow(v: bv8, b: nat, on: bool, c: nat)
    requires b < 4 && c < 8
    ensures Lit(SetTo(v, PixelMask(b), on), c) <==> if c == b then on else Lit(v, c)
  {
    PixelMasks();
    hide PixelMask;
    if b == 0 {} else if b == 1 {} else if b == 2 {} else {}
  }

  lemma LitAfterHigh(v: bv8, b: nat, on: bool, c: nat)
    requires 4 <= b < 8 && c < 8
    ensures Lit(SetTo(v, PixelMask(b), on), c) <==> if c == b then on else Lit(v, c)
  {
    PixelMasks();
    hide PixelMask;
    if b == 4 {} else if b == 5 {} else if b == 6 {} else {}
  }

  lemma LitAfterLeft(v: bv8, s: nat, on: bool, c: nat)
    requires 0 < s < 8 && c < 8
    ensures Lit(SetTo(v, LeftMask(s), on), c) <==> if c >= s then on else Lit(v, c)
  {
    PixelMasks();
    LeftMasks();
    hide PixelMask, LeftMask;
    if s == 1 {} else if s == 2 {} else if s == 3 {} else if s == 4 {} else if s == 5 {} else if s == 6 {} else {}
  }

  lemma LeftMasks()
    ensures LeftMask(1) == 0x7F && LeftMask(2) == 0x3F && LeftMask(3) == 0x1F && LeftMask(4) == 0x0F
    ensures LeftMask(5) == 0x07 && LeftMask(6) == 0x03 && LeftMask(7) == 0x01
  {}

  lemma RightMasks()
    ensures RightMask(1) == 0x80 && RightMask(2) == 0xC0 && RightMask(3) == 0xE0 && RightMask(4) == 0xF0
    ensures RightMask(5) == 0xF8 && RightMask(6) == 0xFC && RightMask(7) == 0xFE
  {}

  lemma LitAfterRight(v: bv8, s: nat, on: bool, c: nat)
    requires 0 < s < 8 && c < 8
    ensures Lit(SetTo(v, RightMask(s), on), c) <==> if c < s then on else Lit(v, c)
  {
    PixelMasks();
    RightMasks();
    hide PixelMask, RightMask;
    if s == 1 {} else if s == 2 {} else if s == 3 {} else if s == 4 {} else if s == 5 {} else if s == 6 {} else {}
  }

  lemma LitAll(on: bool, c: nat)
    requires c < 8
    ensures Lit(if on then 0xFF else 0, c) <==> on
  {
    PixelMasks();
    hide PixelMask;
  }

  /** A byte is determined by its eight pixels. */
  lemma LitDetermines(v: bv8, w: bv8)
    requires forall c :: 0 <= c < 8 ==> (Lit(v, c) <==> Lit(w, c))
    ensures v == w
  {
    PixelMasks();
    hide PixelMask;
    assert Lit(v, 0) <==> Lit(w, 0);
    assert Lit(v, 1) <==> Lit(w, 1);
    assert Lit(v, 2) <==> Lit(w, 2);
    assert Lit(v, 3) <==> Lit(w, 3);
    assert Lit(v, 4) <==> Lit(w, 4);
    assert Lit(v, 5) <==> Lit(w, 5);
    assert Lit(v, 6) <==> Lit(w, 6);
    assert Lit(v, 7) <==> Lit(w, 7);
  }

  // ----- pixels of a plane -----

  predicate OnScreen(x: int, y: int) { 0 <= x < 640 && 0 <= y < 480 }

  function ByteIndex(x: nat, y: nat): (i: nat)
    requires OnScreen(x, y)
    ensures i < 38400
  {
    y * VGA_PITCH + x / 8
  }

  predicate PixelOn(p: Plane, x: nat, y: nat)
    requires OnScreen(x, y)
  {
    Lit(p[ByteIndex(x, y)], x % 8)
  }

  /** A plane is determined by its pixels. */
  lemma PlaneDetermined(p: Plane, q: Plane)
    requires forall x, y :: OnScreen(x, y) ==> (PixelOn(p, x, y) <==> PixelOn(q, x, y))
    ensures p == q
  {
    hide Lit;
    forall i | 0 <= i < 38400 ensures p[i] == q[i] {
      forall c | 0 <= c < 8 ensures Lit(p[i], c) <==> Lit(q[i], c) {
        var x, y := i % 80 * 8 + c, i / 80;
        assert OnScreen(x, y) && ByteIndex(x, y) == i && x % 8 == c;
        assert PixelOn(p, x, y) <==> PixelOn(q, x, y);
      }
      LitDetermines(p[i], q[i]);
    }
  }

  // ----- drawing on one plane -----

  function PixelOnPlane(p: Plane, x: nat, y: nat, on: bool): Plane
    requires OnScreen(x, y)
  {
    var i := ByteIndex(x, y);
    p[i := SetTo(p[i], PixelMask(x % 8), on)]
  }

  lemma PixelDrawn(p: Plane, x: nat, y: nat, on: bool, x': nat, y': nat)
    requires OnScreen(x, y) && OnScreen(x', y')
    ensures PixelOn(PixelOnPlane(p, x, y, on), x', y') <==> if x' == x && y' == y then on else PixelOn(p, x', y')
  {
    hide Lit, PixelMask, SetTo;
    if ByteIndex(x', y') == ByteIndex(x, y) {
      assert y == y' && x / 8 == x' / 8;
      LitAfterPixel(p[ByteIndex(x, y)], x % 8, on, x' % 8);
    }
  }

  /** One scanline of the block fill. */
  function FillRow(p: Plane, x: nat, y: nat, on: bool): Plane
    requires x + 8 <= 640 && y < 480
  {
    var i, s := y * VGA_PITCH + x / 8, x % 8;
    if s == 0 then p[i := if on then 0xFF else 0]
    else p[i := SetTo(p[i], LeftMask(s), on)][i + 1 := SetTo(p[i + 1], RightMask(s), on)]
  }

  lemma RowFilled(p: Plane, x: nat, y: nat, on: bool, x': nat, y': nat)
    requires x + 8 <= 640 && y < 480 && OnScreen(x', y')
    ensures PixelOn(FillRow(p, x, y, on), x', y') <==> if x <= x' < x + 8 && y' == y then on else PixelOn(p, x', y')
  {
    hide Lit, LeftMask, RightMask, SetTo;
    var i, s, j := y * VGA_PITCH + x / 8, x % 8, ByteIndex(x', y');
    if j == i {
      assert y == y' && x / 8 == x' / 8;
      if s == 0 { LitAll(on, x' % 8); } else { LitAfterLeft(p[i], s, on, x' % 8); }
    } else if s != 0 && j == i + 1 {
      assert y == y' && x / 8 + 1 == x' / 8;
      LitAfterRight(p[i + 1], s, on, x' % 8);
    }
  }

  /** The first `n` scanlines of the block fill. */
  function FillRows(p: Plane, x: nat, y: nat, on: bool, n: nat): Plane
    requires x + 8 <= 640 && y + n <= 480
  {
    if n == 0 then p else FillRow(FillRows(p, x, y, on, n - 1), x, y + (n - 1), on)
  }

  lemma {:induction false} RowsFilled(p: Plane, x: nat, y: nat, on: bool, n: nat, x': nat, y': nat)
    requires x + 8 <= 640 && y + n <= 480 && OnScreen(x', y')
    ensures PixelOn(FillRows(p, x, y, on, n), x', y') <==>
            if x <= x' < x + 8 && y <= y' < y + n then on else PixelOn(p, x', y')
  {
    hide PixelOn, FillRow;
    if n > 0 {
      RowsFilled(p, x, y, on, n - 1, x', y');
      RowFilled(FillRows(p, x, y, on, n - 1), x, y + (n - 1), on, x', y');
    }
  }

  /** `w` pixels of one scanline, one at a time. */
  function PixelRow(p: Plane, x: nat, y: nat, w: nat, on: bool): Plane
    requires x + w <= 640 && y < 480
    decreases w
  {
    if w == 0 then p else PixelOnPlane(PixelRow(p, x, y, w - 1, on), x + (w - 1), y, on)
  }

  /** `h` such scanlines. */
  function PixelRows(p: Plane, x: nat, y: nat, w: nat, h: nat, on: bool): Plane
    requires x + w <= 640 && y + h <= 480
    decreases h
  {
    if h == 0 then p else PixelRow(PixelRows(p, x, y, w, h - 1, on), x, y + (h - 1), w, on)
  }

  lemma {:induction false} PixelRowDrawn(p: Plane, x: nat, y: nat, w: nat, on: bool, x': nat, y': nat)
    requires x + w <= 640 && y < 480 && OnScreen(x', y')
    ensures PixelOn(PixelRow(p, x, y, w, on), x', y') <==> if x <= x' < x + w && y' == y then on else PixelOn(p, x', y')
    decreases w
  {
    hide PixelOn, PixelOnPlane;
    if w > 0 {
      PixelRowDrawn(p, x, y, w - 1, on, x', y');
      PixelDrawn(PixelRow(p, x, y, w - 1, on), x + (w - 1), y, on, x', y');
    }
  }

  lemma {:induction false} PixelRowsDrawn(p: Plane, x: nat, y: nat, w: nat, h: nat, on: bool, x': nat, y': nat)
    requires x + w <= 640 && y + h <= 480 && OnScreen(x', y')
    ensures PixelOn(PixelRows(p, x, y, w, h, on), x', y') <==>
            if x <= x' < x + w && y <= y' < y + h then on else PixelOn(p, x', y')
    decreases h
  {
    hide PixelOn, PixelRow;
    if h > 0 {
      PixelRowsDrawn(p, x, y, w, h - 1, on, x', y');
      PixelRowDrawn(PixelRows(p, x, y, w, h - 1, on), x, y + (h - 1), w, on, x', y');
    }
  }

  /** On one plane the masked block fill is the sixty-four pixels one by one. */
  lemma FillIsPixels(p: Plane, x: nat, y: nat, on: bool)
    requires x + 8 <= 640 && y + 8 <= 480
    ensures FillRows(p, x, y, on, 8) == PixelRows(p, x, y, 8, 8, on)
  {
    hide PixelOn, FillRows, PixelRows;
    forall x', y' | OnScreen(x', y')
      ensures PixelOn(FillRows(p, x, y, on, 8), x', y') <==> PixelOn(PixelRows(p, x, y, 8, 8, on), x', y')
    {
      RowsFilled(p, x, y, on, 8, x', y');
      PixelRowsDrawn(p, x, y, 8, 8, on, x', y');
    }
    PlaneDetermined(FillRows(p, x, y, on, 8), PixelRows(p, x, y, 8, 8, on));
  }

  function ClearedPlane(on: bool): (p: Plane)
    ensures forall i :: 0 <= i < 38400 ==> p[i] == if on then 0xFF else 0
  {
    seq(38400, i => if on then 0xFF else 0)
  }

  /** Clearing a plane is drawing every pixel of the screen. */
  lemma ClearIsPixels(p: Plane, on: bool)
    ensures ClearedPlane(on) == PixelRows(p, 0, 0, 640, 480, on)
  {
    hide PixelRows;
    forall x, y | OnScreen(x, y)
      ensures PixelOn(ClearedPlane(on), x, y) <==> PixelOn(PixelRows(p, 0, 0, 640, 480, on), x, y)
    {
      PixelRowsDrawn(p, 0, 0, 640, 480, on, x, y);
      LitAll(on, x % 8);
    }
    PlaneDetermined(ClearedPlane(on), PixelRows(p, 0, 0, 640, 480, on));
  }

  // ----- all four planes -----

  /** `color & (1 << plane)`. */
  predicate InColor(color: byte, plane: nat) { TestBit(color, plane) }

  /** `vga_draw_pixel`: off the screen nothing happens. */
  function DrawPixel(s: Planes, x: int, y: int, color: byte): Planes {
    if !OnScreen(x, y) then s
    else [PixelOnPlane(s[0], x, y, InColor(color, 0)), PixelOnPlane(s[1], x, y, InColor(color, 1)),
          PixelOnPlane(s[2], x, y, InColor(color, 2)), PixelOnPlane(s[3], x, y, InColor(color, 3))]
  }

  /** `vga_fill8x8`: a block not wholly on the screen is left out. */
  function Fill8x8(s: Planes, x: int, y: int, color: byte): Planes {
    if x < 0 || x + 8 > 640 || y < 0 || y + 8 > 480 then s
    else [FillRows(s[0], x, y, InColor(color, 0), 8), FillRows(s[1], x, y, InColor(color, 1), 8),
          FillRows(s[2], x, y, InColor(color, 2), 8), FillRows(s[3], x, y, InColor(color, 3), 8)]
  }

  /** `vga_clear`. */
  function Clear(color: byte): Planes {
    [ClearedPlane(InColor(color, 0)), ClearedPlane(InColor(color, 1)), ClearedPlane(InColor(color, 2)),
      ClearedPlane(InColor(color, 3))]
  }

  /** Eighty bytes a scanline, the leftmost pixel in the highest bit. */
  const MASKS: seq<bv8> := [0x80, 0x40, 0x20, 0x10, 0x08, 0x04, 0x02, 0x01]

  lemma MaskAt(b: nat)
    requires b < 8
    ensures |MASKS| == 8 && PixelMask(b) == MASKS[b]
  {
    PixelMasks();
    hide PixelMask;
    if b < 4 { if b == 0 {} else if b == 1 {} else if b == 2 {} } else if b == 4 {} else if b == 5 {} else if b == 6 {}
  }

  lemma PlanePlace(p: Plane, x: nat, y: nat, on: bool)
    requires x < 640 && y < 480
    ensures |MASKS| == 8
    ensures PixelOnPlane(p, x, y, on) == p[80 * y + x / 8 := SetTo(p[80 * y + x / 8], MASKS[x % 8], on)]
  {
    hide PixelMask, SetTo;
    MaskAt(x % 8);
  }

  /** The byte and the bit a pixel lives in; every other byte of the plane is left alone. */
  lemma PixelPlace(s: Planes, x: nat, y: nat, color: byte, plane: nat)
    requires x < 640 && y < 480 && plane < 4
    ensures |MASKS| == 8
    ensures var p, i, mask := s[plane], 80 * y + x / 8, MASKS[x % 8];
      DrawPixel(s, x, y, color)[plane] == p[i := if TestBit(color, plane) then p[i] | mask else p[i] & !mask]
  {
    hide PixelMask, TestBit, PixelOnPlane, SetTo;
    PlanePlace(s[plane], x, y, TestBit(color, plane));
    assert DrawPixel(s, x, y, color)[plane] == PixelOnPlane(s[plane], x, y, TestBit(color, plane));
    SetIs(s[plane][80 * y + x / 8], MASKS[x % 8], TestBit(color, plane));
  }

  lemma SetIs(v: bv8, mask: bv8, on: bool)
    ensures SetTo(v, mask, on) == if on then v | mask else v & !mask
  {}

  /** Off the screen nothing is drawn, and a block that is not wholly on it is left out. */
  lemma OffScreen(s: Planes, x: int, y: int, color: byte)
    ensures x < 0 || x > 639 || y < 0 || y > 479 ==> DrawPixel(s, x, y, color) == s
    ensures x < 0 || x > 632 || y < 0 || y > 472 ==> Fill8x8(s, x, y, color) == s
  {
    hide PixelOnPlane, FillRows, TestBit;
  }

  /** `w` calls of `vga_draw_pixel` along a scanline. */
  function DrawRow(s: Planes, x: nat, y: nat, w: nat, color: byte): Planes
    decreases w
  {
    if w == 0 then s else DrawPixel(DrawRow(s, x, y, w - 1, color), x + (w - 1), y, color)
  }

  /** `w` times `h` calls of `vga_draw_pixel`. */
  function DrawBlock(s: Planes, x: nat, y: nat, w: nat, h: nat, color: byte): Planes
    decreases h
  {
    if h == 0 then s else DrawRow(DrawBlock(s, x, y, w, h - 1, color), x, y + (h - 1), w, color)
  }

  lemma {:induction false} DrawRowPlanes(s: Planes, x: nat, y: nat, w: nat, color: byte)
    requires x + w <= 640 && y < 480
    ensures forall q :: 0 <= q < 4 ==> DrawRow(s, x, y, w, color)[q] == PixelRow(s[q], x, y, w, InColor(color, q))
    decreases w
  {
    hide PixelOnPlane, InColor;
    if w > 0 { DrawRowPlanes(s, x, y, w - 1, color); }
  }

  lemma {:induction false} DrawBlockPlanes(s: Planes, x: nat, y: nat, w: nat, h: nat, color: byte)
    requires x + w <= 640 && y + h <= 480
    ensures forall q :: 0 <= q < 4 ==>
        DrawBlock(s, x, y, w, h, color)[q] == PixelRows(s[q], x, y, w, h, InColor(color, q))
    decreases h
  {
    hide PixelRow, DrawRow, InColor;
    if h > 0 {
      DrawBlockPlanes(s, x, y, w, h - 1, color);
      DrawRowPlanes(DrawBlock(s, x, y, w, h - 1, color), x, y + (h - 1), w, color);
    }
  }

  /** The block fill leaves all four planes as sixty-four calls of `vga_draw_pixel` would, at every alignment. */
  lemma FillIsSixtyFourPixels(s: Planes, x: nat, y: nat, color: byte)
    requires x + 8 <= 640 && y + 8 <= 480
    ensures Fill8x8(s, x, y, color) == DrawBlock(s, x, y, 8, 8, color)
  {
    hide FillRows, PixelRows, DrawBlock, InColor;
    DrawBlockPlanes(s, x, y, 8, 8, color);
    FillIsPixels(s[0], x, y, InColor(color, 0));
    FillIsPixels(s[1], x, y, InColor(color, 1));
    FillIsPixels(s[2], x, y, InColor(color, 2));
    FillIsPixels(s[3], x, y, InColor(color, 3));
    assert Fill8x8(s, x, y, color) == DrawBlock(s, x, y, 8, 8, color);
  }

  /** Clearing the screen is drawing each of its pixels. */
  lemma ClearIsEveryPixel(s: Planes, color: byte)
    ensures Clear(color) == DrawBlock(s, 0, 0, 640, 480, color)
  {
    hide PixelRows, DrawBlock, ClearedPlane, InColor;
    DrawBlockPlanes(s, 0, 0, 640, 480, color);
    ClearIsPixels(s[0], InColor(color, 0));
    ClearIsPixels(s[1], InColor(color, 1));
    ClearIsPixels(s[2], InColor(color, 2));
    ClearIsPixels(s[3], InColor(color, 3));
    assert Clear(color) == DrawBlock(s, 0, 0, 640, 480, color);
  }

  function Weight(on: bool, n: nat): nat { if on then n else 0 }

  /** The color read back from the four planes. */
  function ColorAt(s: Planes, x: nat, y: nat): nat
    requires OnScreen(x, y)
  {
    Weight(PixelOn(s[0], x, y), 1) + Weight(PixelOn(s[1], x, y), 2) + Weight(PixelOn(s[2], x, y), 4) +
      Weight(PixelOn(s[3], x, y), 8)
  }

  lemma LowDigits(c: nat)
    ensures c % 16 == c % 2 + 2 * (c / 2 % 2) + 4 * (c / 2 / 2 % 2) + 8 * (c / 2 / 2 / 2 % 2)
  {
    var d := c / 2;
    var e := d / 2;
    var f := e / 2;
    assert c == 16 * (f / 2) + 8 * (f % 2) + 4 * (e % 2) + 2 * (d % 2) + c % 2;
  }

  lemma LowBits(c: nat)
    ensures TestBit(c, 0) == (c % 2 == 1) && TestBit(c, 1) == (c / 2 % 2 == 1)
    ensures TestBit(c, 2) == (c / 2 / 2 % 2 == 1) && TestBit(c, 3) == (c / 2 / 2 / 2 % 2 == 1)
  {
    assert TestBit(c, 1) == TestBit(c / 2, 0);
    assert TestBit(c, 2) == TestBit(c / 2, 1);
    assert TestBit(c / 2, 1) == TestBit(c / 2 / 2, 0);
    assert TestBit(c, 3) == TestBit(c / 2, 2);
    assert TestBit(c / 2, 2) == TestBit(c / 2 / 2, 1);
  }

  lemma LowNibble(c: byte)
    ensures Weight(TestBit(c, 0), 1) + Weight(TestBit(c, 1), 2) + Weight(TestBit(c, 2), 4) + Weight(TestBit(c, 3), 8) ==
        c % 16
  {
    hide TestBit;
    LowBits(c);
    LowDigits(c);
  }

  /** A drawn pixel reads back as the low four bits of its color; every other pixel of the screen is as before. */
  lemma PixelReadsBack(s: Planes, x: nat, y: nat, color: byte, x': nat, y': nat)
    requires OnScreen(x, y) && OnScreen(x', y')
    ensures ColorAt(DrawPixel(s, x, y, color), x', y') == if x' == x && y' == y then color % 16 else ColorAt(s, x', y')
  {
    hide PixelOn, PixelOnPlane;
    PixelDrawn(s[0], x, y, InColor(color, 0), x', y');
    PixelDrawn(s[1], x, y, InColor(color, 1), x', y');
    PixelDrawn(s[2], x, y, InColor(color, 2), x', y');
    PixelDrawn(s[3], x, y, InColor(color, 3), x', y');
    LowNibble(color);
  }

  // ----- the card as it is programmed -----

  class Vga {
    /** The memory behind the window, one bank for each plane. */
    const bank: seq<array<bv8>>
    var writePlane: nat
    var readPlane: nat

    ghost predicate Valid()
      reads this
    {
      && |bank| == 4 && writePlane < 4 && readPlane < 4
      && (forall q :: 0 <= q < 4 ==> bank[q].Length == 38400)
      && (forall q, r :: 0 <= q < r < 4 ==> bank[q] != bank[r])
    }

    ghost function Value(): Planes
      reads this, bank
      requires Valid()
    {
      [bank[0][..], bank[1][..], bank[2][..], bank[3][..]]
    }

    constructor ()
      ensures Valid()
    {
      var b0 := new bv8[38400](i => 0);
      var b1 := new bv8[38400](i => 0);
      var b2 := new bv8[38400](i => 0);
      var b3 := new bv8[38400](i => 0);
      bank := [b0, b1, b2, b3];
      writePlane, readPlane := 0, 0;
    }

    /** The sequencer's map mask and the graphics controller's read map. */
    method SelectPlane(plane: nat)
      requires Valid() && plane < 4
      modifies this
      ensures Valid() && writePlane == plane && readPlane == plane && Value() == old(Value())
    {
      writePlane, readPlane := plane, plane;
    }

    method Poke(i: nat, b: bv8)
      requires Valid() && i < 38400
      modifies bank[writePlane]
      ensures Valid() && Value() == old(Value())[writePlane := old(Value())[writePlane][i := b]]
    {
      ghost var s := Value();
      bank[writePlane][i] := b;
      assert bank[writePlane][..] == s[writePlane][i := b];
      assert forall q :: 0 <= q < 4 && q != writePlane ==> bank[q][..] == s[q];
      assert Value() == s[writePlane := s[writePlane][i := b]];
    }

    method DrawPixelAt(x: int, y: int, color: byte)
      requires Valid()
      modifies this, bank
      ensures Valid() && Value() == DrawPixel(old(Value()), x, y, color)
    {
      hide InColor, PixelMask, SetTo, PixelOnPlane;
      if x < 0 || x >= VGA_WIDTH || y < 0 || y >= VGA_HEIGHT { return; }
      ghost var s := Value();
      var byteIndex := y * VGA_PITCH + x / 8;
      var mask := PixelMask(x % 8);
      var plane := 0;
      while plane < 4
        invariant plane <= 4 && Valid()
        invariant forall q :: 0 <= q < 4 ==>
            Value()[q] == if q < plane then PixelOnPlane(s[q], x, y, InColor(color, q)) else s[q]
      {
        SelectPlane(plane);
        SetPixel(x, y, byteIndex, mask, InColor(color, plane));
        plane := plane + 1;
      }
    }

    /** Read, mask and rewrite one byte of the selected plane. */
    method SetPixel(x: nat, y: nat, byteIndex: nat, mask: bv8, on: bool)
      requires Valid() && readPlane == writePlane && OnScreen(x, y)
      requires byteIndex == y * VGA_PITCH + x / 8 && mask == PixelMask(x % 8)
      modifies bank[writePlane]
      ensures Valid() && Value() == old(Value())[writePlane := PixelOnPlane(old(Value())[writePlane], x, y, on)]
    {
      hide PixelMask, SetTo, PixelOnPlane;
      PixelStep(Value()[writePlane], x, y, byteIndex, on);
      var current := bank[readPlane][byteIndex];
      Poke(byteIndex, SetTo(current, mask, on));
    }

    method ClearScreen(color: byte)
      requires Valid()
      modifies this, bank
      ensures Valid() && Value() == Clear(color)
    {
      hide InColor;
      var plane := 0;
      while plane < 4
        invariant plane <= 4 && Valid()
        invariant forall q :: 0 <= q < plane ==> Value()[q] == ClearedPlane(InColor(color, q))
      {
        SelectPlane(plane);
        ghost var s := Value();
        var i := 0;
        while i < VGA_PLANE_SIZE
          invariant i <= 38400 && Valid() && writePlane == plane
          invariant forall q :: 0 <= q < 4 && q != plane ==> Value()[q] == s[q]
          invariant forall j :: 0 <= j < i ==> Value()[plane][j] == if InColor(color, plane) then 0xFF else 0
        {
          Poke(i, if InColor(color, plane) then 0xFF else 0);
          i := i + 1;
        }
        assert Value()[plane] == ClearedPlane(InColor(color, plane));
        plane := plane + 1;
      }
    }

    method FillBlock(x: int, y: int, color: byte)
      requires Valid()
      modifies this, bank
      ensures Valid() && Value() == Fill8x8(old(Value()), x, y, color)
    {
      hide InColor, SetTo, LeftMask, RightMask, FillRows;
      if x < 0 || x + 8 > VGA_WIDTH || y < 0 || y + 8 > VGA_HEIGHT { return; }
      ghost var s := Value();
      var plane := 0;
      while plane < 4
        invariant plane <= 4 && Valid()
        invariant forall q :: 0 <= q < 4 ==>
            Value()[q] == if q < plane then FillRows(s[q], x, y, InColor(color, q), 8) else s[q]
      {
        SelectPlane(plane);
        ghost var t := Value();
        var on := InColor(color, plane);
        var row := 0;
        FillNone(s[plane], x, y, on);
        while row < 8
          invariant row <= 8 && Valid() && writePlane == plane && readPlane == plane
          invariant forall q :: 0 <= q < 4 && q != plane ==> Value()[q] == t[q]
          invariant Value()[plane] == FillRows(s[plane], x, y, on, row)
        {
          FillNext(s[plane], x, y, on, row);
          FillScanline((y + row) * VGA_PITCH, x / 8, x % 8, on);
          row := row + 1;
        }
        plane := plane + 1;
      }
    }

    /** One scanline of the selected plane: a whole byte, or the tail of one and the head of the next. */
    method FillScanline(scanline: nat, startByte: nat, startBit: nat, on: bool)
      requires Valid() && writePlane == readPlane && startBit < 8
      requires scanline + startByte < 38400 && (startBit != 0 ==> scanline + startByte + 1 < 38400)
      modifies bank[writePlane]
      ensures Valid()
      ensures Value() == old(Value())[writePlane := ScanlineFilled(old(Value())[writePlane], scanline + startByte,
          startBit, on)]
    {
      hide SetTo, LeftMask, RightMask;
      if startBit == 0 {
        Poke(scanline + startByte, if on then 0xFF else 0);
      } else {
        var current := bank[readPlane][scanline + startByte];
        Poke(scanline + startByte, SetTo(current, LeftMask(startBit), on));
        current := bank[readPlane][scanline + startByte + 1];
        Poke(scanline + startByte + 1, SetTo(current, RightMask(startBit), on));
      }
    }
  }

  lemma PixelStep(p: Plane, x: nat, y: nat, i: nat, on: bool)
    requires OnScreen(x, y) && i == y * VGA_PITCH + x / 8
    ensures i < 38400 && PixelOnPlane(p, x, y, on) == p[i := SetTo(p[i], PixelMask(x % 8), on)]
  {
    hide SetTo, PixelMask;
  }

  function ScanlineFilled(p: Plane, i: nat, s: nat, on: bool): Plane
    requires s < 8 && i < 38400 && (s != 0 ==> i + 1 < 38400)
  {
    if s == 0 then p[i := if on then 0xFF else 0]
    else p[i := SetTo(p[i], LeftMask(s), on)][i + 1 := SetTo(p[i + 1], RightMask(s), on)]
  }

  lemma FillNone(p: Plane, x: nat, y: nat, on: bool)
    requires x + 8 <= 640 && y <= 480
    ensures FillRows(p, x, y, on, 0) == p
  {}

  lemma FillNext(p: Plane, x: nat, y: nat, on: bool, n: nat)
    requires x + 8 <= 640 && y + n < 480
    ensures (y + n) * VGA_PITCH + x / 8 < 38400 && (x % 8 != 0 ==> (y + n) * VGA_PITCH + x / 8 + 1 < 38400)
    ensures FillRows(p, x, y, on, n + 1) ==
        ScanlineFilled(FillRows(p, x, y, on, n), (y + n) * VGA_PITCH + x / 8, x % 8, on)
  {
    hide SetTo, LeftMask, RightMask;
  }
}
