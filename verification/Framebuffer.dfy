/** The framebuffer of src/shared/fbDraw.c at 32 bits per pixel: the strided byte buffer,
    the clipped pixel write, and the two fills built on it. */
module Framebuffer {

  import opened Arith
  import opened Color

  datatype Pixel = Pixel(x: int, y: int)

  /** Byte `i` of a pixel cell; the memory order is blue, green, red, zero. */
  function Component(c: Color, i: int): byte {
    if i == 0 then c.b else if i == 1 then c.g else if i == 2 then c.r else 0
  }

  /** The geometry fields of fb_var_screeninfo and fb_fix_screeninfo that the code reads. */
  datatype Screen = Screen(xres: nat, yres: nat, xoffset: nat, yoffset: nat, lineLength: nat) {

    predicate OnScreen(p: Pixel) {
      0 <= p.x < xres && 0 <= p.y < yres
    }

    function Locate(x: int, y: int): int {
      (x + xoffset) * 4 + (y + yoffset) * lineLength
    }

    /** Byte `k` is one of the four of pixel `p`. */
    predicate InCell(p: Pixel, k: int) {
      OnScreen(p) && Locate(p.x, p.y) <= k < Locate(p.x, p.y) + 4
    }

    /** The number of bytes that fb_init maps. */
    function Size(): nat {
      lineLength * yres
    }

    /** The condition under which every write of an on-screen pixel stays in the mapping. */
    predicate Fits() {
      yoffset == 0 && 4 * (xoffset + xres) <= lineLength
    }

    /** The pixel whose cell holds byte `k`, on or off the screen. */
    function Owner(k: nat): Pixel
      requires lineLength > 0
    {
      Pixel((k % lineLength) / 4 - xoffset, k / lineLength - yoffset)
    }
  }

  /** The buffer after painting the on-screen part of `S` in colour `c`. */
  ghost function Paint(s: Screen, before: seq<byte>, S: iset<Pixel>, c: Color): (after: seq<byte>)
    ensures |after| == |before|
  {
    seq(|before|, k requires 0 <= k < |before| =>
      if s.lineLength > 0 && s.OnScreen(s.Owner(k)) && s.Owner(k) in S
      then Component(c, k % s.lineLength % 4) else before[k])
  }

  ghost function Box(px: Pixel, w: int, h: int): iset<Pixel> {
    iset p: Pixel | px.x <= p.x < px.x + w && px.y <= p.y < px.y + h
  }

  /** A rectangle has its corner pixels and nothing beyond its sides. */
  lemma BoxCorners(px: Pixel, w: int, h: int, p: Pixel)
    ensures w >= 1 && h >= 1 ==> px in Box(px, w, h) && Pixel(px.x + w - 1, px.y + h - 1) in Box(px, w, h)
    ensures p.x < px.x || p.y < px.y || p.x >= px.x + w || p.y >= px.y + h ==> p !in Box(px, w, h)
  {
  }

  // ---------- Addresses ----------

  /** Bytes of an on-screen pixel's cell lie in the mapping, belong to that pixel and to no
      other: the four-byte cells of distinct on-screen pixels are disjoint. */
  lemma CellOwner(s: Screen, p: Pixel, k: int)
    requires s.Fits() && s.InCell(p, k)
    ensures 0 <= k < s.Size() && s.Owner(k) == p
    ensures k % s.lineLength % 4 == k - s.Locate(p.x, p.y)
  {
    var l := s.lineLength;
    var r := (p.x + s.xoffset) * 4 + (k - s.Locate(p.x, p.y));
    MulMono(p.y + 1, s.yres, l);
    assert (p.y + 1) * l == p.y * l + l;
    MulMono(0, p.y, l);
    DivModUnique(k, l, p.y, r);
  }

  /** Raster order: the next column is four bytes on, the next row one line length. */
  lemma RasterOrder(s: Screen, x: int, y: int)
    ensures s.Locate(0, 0) == 4 * s.xoffset + s.lineLength * s.yoffset
    ensures s.Locate(x + 1, y) == s.Locate(x, y) + 4
    ensures s.Locate(x, y + 1) == s.Locate(x, y) + s.lineLength
  {
  }

  lemma OwnerCell(s: Screen, k: nat)
    requires s.Fits() && s.lineLength > 0 && s.OnScreen(s.Owner(k))
    ensures s.InCell(s.Owner(k), k)
  {
  }

  /** `Fits` is exactly what keeps every on-screen pixel inside the bytes fb_init maps. */
  lemma MappingCoversScreen(s: Screen)
    requires s.xres > 0 && s.yres > 0
    ensures s.Fits() <==>
            forall p: Pixel :: s.OnScreen(p) ==> 0 <= s.Locate(p.x, p.y) && s.Locate(p.x, p.y) + 4 <= s.Size()
  {
    if s.Fits() {
      forall p: Pixel | s.OnScreen(p)
        ensures 0 <= s.Locate(p.x, p.y) && s.Locate(p.x, p.y) + 4 <= s.Size()
      {
        CellOwner(s, p, s.Locate(p.x, p.y));
        CellOwner(s, p, s.Locate(p.x, p.y) + 3);
      }
    } else {
      var p := Pixel(s.xres - 1, s.yres - 1);
      assert s.OnScreen(p);
      if s.yoffset > 0 {
        MulMono(s.yres, p.y + s.yoffset, s.lineLength);
      } else {
        assert (s.yres - 1) * s.lineLength == s.yres * s.lineLength - s.lineLength;
      }
    }
  }

  // ---------- Meaning of Paint ----------

  /** What `Paint` promises cell by cell: a painted on-screen pixel reads back as the colour, any
      other on-screen pixel keeps its four bytes, and bytes outside every cell are kept. */
  lemma PaintMeaning(s: Screen, before: seq<byte>, S: iset<Pixel>, c: Color)
    requires s.Fits() && |before| == s.Size()
    ensures forall p, k :: s.InCell(p, k) ==>
              0 <= k < |before| &&
              Paint(s, before, S, c)[k] == if p in S then Component(c, k - s.Locate(p.x, p.y)) else before[k]
    ensures forall k :: 0 <= k < |before| && (forall p: Pixel :: !s.InCell(p, k)) ==>
              Paint(s, before, S, c)[k] == before[k]
  {
    forall p, k | s.InCell(p, k)
      ensures 0 <= k < |before|
      ensures Paint(s, before, S, c)[k] == if p in S then Component(c, k - s.Locate(p.x, p.y)) else before[k]
    {
      CellOwner(s, p, k);
    }
    forall k | 0 <= k < |before| && (forall p: Pixel :: !s.InCell(p, k))
      ensures Paint(s, before, S, c)[k] == before[k]
    {
      if s.lineLength > 0 && s.OnScreen(s.Owner(k)) {
        OwnerCell(s, k);
      }
    }
  }

  /** The four bytes of a painted pixel in memory order: blue, green, red, zero. */
  lemma PaintedBytes(s: Screen, before: seq<byte>, S: iset<Pixel>, c: Color, p: Pixel)
    requires s.Fits() && |before| == s.Size() && s.OnScreen(p) && p in S
    ensures var l, after := 4 * (s.xoffset + p.x) + s.lineLength * p.y, Paint(s, before, S, c);
            && 0 <= l < l + 4 <= |after|
            && after[l] == c.b && after[l + 1] == c.g && after[l + 2] == c.r && after[l + 3] == 0
  {
    var l := 4 * (s.xoffset + p.x) + s.lineLength * p.y;
    CellAddress(s, p);
    PaintedByte(s, before, S, c, p, l);
    PaintedByte(s, before, S, c, p, l + 1);
    PaintedByte(s, before, S, c, p, l + 2);
    PaintedByte(s, before, S, c, p, l + 3);
  }

  /** The four bytes of any other pixel stay. */
  lemma KeptBytes(s: Screen, before: seq<byte>, S: iset<Pixel>, c: Color, p: Pixel, o: nat)
    requires s.Fits() && |before| == s.Size() && s.OnScreen(p) && p !in S && o < 4
    ensures var k := 4 * (s.xoffset + p.x) + s.lineLength * p.y + o;
            0 <= k < |before| && Paint(s, before, S, c)[k] == before[k]
  {
    CellAddress(s, p);
    PaintedByte(s, before, S, c, p, 4 * (s.xoffset + p.x) + s.lineLength * p.y + o);
  }

  lemma PaintedByte(s: Screen, before: seq<byte>, S: iset<Pixel>, c: Color, p: Pixel, k: int)
    requires s.Fits() && |before| == s.Size() && s.InCell(p, k)
    ensures 0 <= k < |before|
    ensures Paint(s, before, S, c)[k] == if p in S then Component(c, k - s.Locate(p.x, p.y)) else before[k]
  {
    CellOwner(s, p, k);
  }

  lemma CellAddress(s: Screen, p: Pixel)
    requires s.Fits() && s.OnScreen(p)
    ensures s.Locate(p.x, p.y) == 4 * (s.xoffset + p.x) + s.lineLength * p.y >= 0
  {
    MulMono(0, p.y, s.lineLength);
  }

  lemma PaintTwice(s: Screen, before: seq<byte>, S: iset<Pixel>, T: iset<Pixel>, c: Color)
    ensures Paint(s, Paint(s, before, S, c), T, c) == Paint(s, before, S + T, c)
  {
  }

  lemma PaintNothing(s: Screen, before: seq<byte>, S: iset<Pixel>, c: Color)
    requires forall p :: p in S ==> !s.OnScreen(p)
    ensures Paint(s, before, S, c) == before
  {
  }

  // ---------- The device ----------

  class Device {
    const screen: Screen
    const fbp: array<byte>

    ghost predicate Valid() {
      screen.Fits() && fbp.Length == screen.Size()
    }

    constructor (screen: Screen)
      requires screen.Fits()
      ensures Valid() && this.screen == screen && fresh(fbp)
    {
      this.screen := screen;
      this.fbp := new byte[screen.Size()];
    }
  }

  /** The four byte stores of one pixel cell. */
  method WriteCell(fb: Device, x: int, y: int, c: Color)
    requires fb.Valid() && fb.screen.OnScreen(Pixel(x, y))
    modifies fb.fbp
    ensures fb.fbp[..] == Paint(fb.screen, old(fb.fbp[..]), iset{Pixel(x, y)}, c)
  {
    ghost var s := fb.screen;
    ghost var before := fb.fbp[..];
    var location := fb.screen.Locate(x, y);
    forall k | s.InCell(Pixel(x, y), k)
      ensures 0 <= k < s.Size() && s.Owner(k) == Pixel(x, y) && k % s.lineLength % 4 == k - location
    {
      CellOwner(s, Pixel(x, y), k);
    }
    assert s.InCell(Pixel(x, y), location) && s.InCell(Pixel(x, y), location + 3);
    fb.fbp[location] := c.b;
    fb.fbp[location + 1] := c.g;
    fb.fbp[location + 2] := c.r;
    fb.fbp[location + 3] := 0;
    forall k | 0 <= k < fb.fbp.Length
      ensures fb.fbp[k] == Paint(s, before, iset{Pixel(x, y)}, c)[k]
    {
      if s.Owner(k) == Pixel(x, y) {
        OwnerCell(s, k);
      } else {
        assert !s.InCell(Pixel(x, y), k);
      }
    }
  }

  /** Writes one pixel, or nothing when it is off the screen. */
  method DrawPixel(fb: Device, x: int, y: int, c: Color)
    requires fb.Valid()
    modifies fb.fbp
    ensures fb.fbp[..] == Paint(fb.screen, old(fb.fbp[..]), iset{Pixel(x, y)}, c)
  {
    if fb.screen.OnScreen(Pixel(x, y)) {
      WriteCell(fb, x, y, c);
    } else {
      PaintNothing(fb.screen, fb.fbp[..], iset{Pixel(x, y)}, c);
    }
  }

  /** Fills a rectangle, wherever it lies relative to the screen. */
  method FillBox(fb: Device, px: Pixel, w: int, h: int, c: Color)
    requires fb.Valid()
    modifies fb.fbp
    ensures fb.fbp[..] == Paint(fb.screen, old(fb.fbp[..]), Box(px, w, h), c)
  {
    ghost var s, before := fb.screen, fb.fbp[..];
    var y := 0;
    PaintNothing(s, before, Box(px, w, 0), c);
    while y < h
      invariant 0 <= y <= h || (h < 0 && y == 0)
      invariant fb.fbp[..] == Paint(s, before, Box(px, w, y), c)
    {
      var x := 0;
      ghost var rows := Box(px, w, y);
      assert rows + Box(Pixel(px.x, px.y + y), 0, 1) == rows;
      while x < w
        invariant 0 <= x <= w || (w < 0 && x == 0)
        invariant fb.fbp[..] == Paint(s, before, rows + Box(Pixel(px.x, px.y + y), x, 1), c)
      {
        ghost var sofar := rows + Box(Pixel(px.x, px.y + y), x, 1);
        DrawPixel(fb, px.x + x, px.y + y, c);
        PaintTwice(s, before, sofar, iset{Pixel(px.x + x, px.y + y)}, c);
        assert sofar + iset{Pixel(px.x + x, px.y + y)} == rows + Box(Pixel(px.x, px.y + y), x + 1, 1);
        x := x + 1;
      }
      assert rows + Box(Pixel(px.x, px.y + y), x, 1) == Box(px, w, y + 1);
      y := y + 1;
    }
    assert h < 0 ==> Box(px, w, y) == Box(px, w, h);
  }

  /** Writes every cell of the screen without a bounds check; the result is the full-screen box. */
  method FillScr(fb: Device, c: Color)
    requires fb.Valid()
    modifies fb.fbp
    ensures fb.fbp[..] == Paint(fb.screen, old(fb.fbp[..]), Box(Pixel(0, 0), fb.screen.xres, fb.screen.yres), c)
  {
    ghost var s, before := fb.screen, fb.fbp[..];
    var y := 0;
    PaintNothing(s, before, Box(Pixel(0, 0), s.xres, 0), c);
    while y < fb.screen.yres
      invariant 0 <= y <= s.yres
      invariant fb.fbp[..] == Paint(s, before, Box(Pixel(0, 0), s.xres, y), c)
    {
      var x := 0;
      ghost var rows := Box(Pixel(0, 0), s.xres, y);
      assert rows + Box(Pixel(0, y), 0, 1) == rows;
      while x < fb.screen.xres
        invariant 0 <= x <= s.xres
        invariant fb.fbp[..] == Paint(s, before, rows + Box(Pixel(0, y), x, 1), c)
      {
        ghost var sofar := rows + Box(Pixel(0, y), x, 1);
        WriteCell(fb, x, y, c);
        PaintTwice(s, before, sofar, iset{Pixel(x, y)}, c);
        assert sofar + iset{Pixel(x, y)} == rows + Box(Pixel(0, y), x + 1, 1);
        x := x + 1;
      }
      assert rows + Box(Pixel(0, y), x, 1) == Box(Pixel(0, 0), s.xres, y + 1);
      y := y + 1;
    }
  }
}
