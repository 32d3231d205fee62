/** fb_drawLine of src/shared/fbDraw.c: the incremental integer line, and the exact set of pixels
    it visits. */
module Line {
  import opened Arith
  import opened Color
  import opened Framebuffer

  function Flip(p: Pixel): Pixel { Pixel(p.y, p.x) }

  predicate Steep(a: Pixel, b: Pixel) { Abs(b.y - a.y) > Abs(b.x - a.x) }

  // ---------- Which pixels belong to a line ----------

  /** Offset `s` is the rounding of the ideal height k*dy/dx, a half rounded down. */
  predicate Near(dx: nat, dy: nat, k: int, s: int) {
    if dx == 0 then s == 0 else 0 <= 2 * (s * dx - k * dy) + dx < 2 * dx
  }

  /** The rise of `p` above `a`, measured in the direction from `a` to `b`. */
  function Rise(a: Pixel, b: Pixel, p: Pixel): int {
    if a.y < b.y then p.y - a.y else a.y - p.y
  }

  /** `p` lies on the gently sloped line that runs rightwards from `a` to `b`. */
  predicate Sloped(a: Pixel, b: Pixel, p: Pixel)
    requires a.x <= b.x
  {
    a.x <= p.x <= b.x && Near(b.x - a.x, Abs(b.y - a.y), p.x - a.x, Rise(a, b, p))
  }

  predicate Gentle(a: Pixel, b: Pixel, p: Pixel) {
    if a.x > b.x then Sloped(b, a, p) else Sloped(a, b, p)
  }

  predicate OnLine(a: Pixel, b: Pixel, p: Pixel) {
    if Steep(a, b) then Gentle(Flip(a), Flip(b), Flip(p)) else Gentle(a, b, p)
  }

  ghost function Pixels(a: Pixel, b: Pixel): iset<Pixel> {
    iset p: Pixel | OnLine(a, b, p)
  }

  // ---------- Laws of the pixel set ----------

  lemma NearUnique(dx: nat, dy: nat, k: int, s: int, t: int)
    requires Near(dx, dy, k, s) && Near(dx, dy, k, t)
    ensures s == t
  {
    if s < t {
      MulStrict(s, t, dx);
    } else if t < s {
      MulStrict(t, s, dx);
    }
  }

  /** The rounded height after `k` columns, in closed form. */
  function Height(dx: nat, dy: nat, k: nat): int {
    if dx == 0 then 0 else (k * dy + (dx - 1) / 2) / dx
  }

  lemma HeightNear(dx: nat, dy: nat, k: nat)
    ensures Near(dx, dy, k, Height(dx, dy, k))
  {
  }

  lemma HeightEnds(dx: nat, dy: nat)
    requires dy <= dx
    ensures Height(dx, dy, 0) == 0 && Height(dx, dy, dx) == dy
  {
    HeightNear(dx, dy, 0);
    HeightNear(dx, dy, dx);
    if dx > 0 {
      assert Near(dx, dy, 0, 0);
      assert Near(dx, dy, dx, dy);
      NearUnique(dx, dy, 0, 0, Height(dx, dy, 0));
      NearUnique(dx, dy, dx, dy, Height(dx, dy, dx));
    }
  }

  lemma NearStep(dx: nat, dy: nat, k: int, s: int, t: int)
    requires dy <= dx && Near(dx, dy, k, s) && Near(dx, dy, k + 1, t)
    ensures 0 <= t - s <= 1
  {
    assert (k + 1) * dy == k * dy + dy && (s + 1) * dx == s * dx + dx;
    if t < s {
      MulStrict(t, s, dx);
    } else if s + 1 < t {
      MulStrict(s + 1, t, dx);
    }
  }

  lemma HeightStep(dx: nat, dy: nat, k: nat)
    requires dy <= dx
    ensures 0 <= Height(dx, dy, k + 1) - Height(dx, dy, k) <= 1
  {
    HeightNear(dx, dy, k);
    HeightNear(dx, dy, k + 1);
    NearStep(dx, dy, k, Height(dx, dy, k), Height(dx, dy, k + 1));
  }

  /** The line as a list, along the major axis. */
  function SlopedList(a: Pixel, b: Pixel): seq<Pixel>
    requires a.x <= b.x
  {
    var dx, dy := b.x - a.x, Abs(b.y - a.y);
    seq(dx + 1, k requires 0 <= k <= dx =>
      Pixel(a.x + k, if a.y < b.y then a.y + Height(dx, dy, k) else a.y - Height(dx, dy, k)))
  }

  function GentleList(a: Pixel, b: Pixel): seq<Pixel> {
    if a.x > b.x then SlopedList(b, a) else SlopedList(a, b)
  }

  function List(a: Pixel, b: Pixel): seq<Pixel> {
    if Steep(a, b) then
      var ps := GentleList(Flip(a), Flip(b));
      seq(|ps|, k requires 0 <= k < |ps| => Flip(ps[k]))
    else GentleList(a, b)
  }

  predicate Adjacent(p: Pixel, q: Pixel) {
    p != q && Abs(p.x - q.x) <= 1 && Abs(p.y - q.y) <= 1
  }

  predicate Chain(ps: seq<Pixel>) {
    && (forall i :: 0 <= i < |ps| - 1 ==> Adjacent(ps[i], ps[i + 1]))
    && (forall i, j :: 0 <= i < j < |ps| ==> ps[i] != ps[j])
  }

  lemma SlopedChain(a: Pixel, b: Pixel)
    requires a.x <= b.x && !Steep(a, b)
    ensures var ps := SlopedList(a, b); Chain(ps) && ps[0] == a && ps[|ps| - 1] == b
  {
    var ps, dx, dy := SlopedList(a, b), b.x - a.x, Abs(b.y - a.y);
    HeightEnds(dx, dy);
    forall i | 0 <= i < |ps| - 1
      ensures Adjacent(ps[i], ps[i + 1])
    {
      HeightStep(dx, dy, i);
    }
  }

  lemma SlopedMembers(a: Pixel, b: Pixel, p: Pixel)
    requires a.x <= b.x && !Steep(a, b)
    ensures p in SlopedList(a, b) <==> Sloped(a, b, p)
  {
    var ps, dx, dy := SlopedList(a, b), b.x - a.x, Abs(b.y - a.y);
    if p in ps {
      var k :| 0 <= k < |ps| && ps[k] == p;
      HeightNear(dx, dy, k);
    }
    if Sloped(a, b, p) {
      var k := p.x - a.x;
      HeightNear(dx, dy, k);
      NearUnique(dx, dy, k, Rise(a, b, p), Height(dx, dy, k));
      assert p == ps[k];
    }
  }

  lemma SlopedShape(a: Pixel, b: Pixel)
    requires a.x <= b.x && !Steep(a, b)
    ensures var ps := SlopedList(a, b);
            && Chain(ps) && ps[0] == a && ps[|ps| - 1] == b
            && (forall p :: p in ps <==> Sloped(a, b, p))
  {
    SlopedChain(a, b);
    forall p
      ensures p in SlopedList(a, b) <==> Sloped(a, b, p)
    {
      SlopedMembers(a, b, p);
    }
  }

  lemma GentleShape(a: Pixel, b: Pixel)
    requires !Steep(a, b)
    ensures var ps := GentleList(a, b);
            && |ps| == Abs(b.x - a.x) + 1 && Chain(ps)
            && {ps[0], ps[|ps| - 1]} == {a, b}
            && (forall p :: p in ps <==> Gentle(a, b, p))
  {
    if a.x > b.x {
      SlopedShape(b, a);
    } else {
      SlopedShape(a, b);
    }
  }

  lemma FlippedShape(ps: seq<Pixel>, qs: seq<Pixel>)
    requires |ps| == |qs| && forall i :: 0 <= i < |ps| ==> ps[i] == Flip(qs[i])
    requires Chain(qs)
    ensures Chain(ps) && forall p :: p in ps <==> Flip(p) in qs
  {
  }

  /** Shape of every line: one pixel per coordinate of the major axis, both endpoints, no pixel
      twice, consecutive pixels 8-connected, and exactly the members of `OnLine`. */
  lemma LineShape(a: Pixel, b: Pixel)
    ensures var ps := List(a, b);
            && |ps| == Max(Abs(b.x - a.x), Abs(b.y - a.y)) + 1
            && Chain(ps)
            && {ps[0], ps[|ps| - 1]} == {a, b}
            && (forall p :: p in ps <==> OnLine(a, b, p))
  {
    if Steep(a, b) {
      var qs := GentleList(Flip(a), Flip(b));
      GentleShape(Flip(a), Flip(b));
      FlippedShape(List(a, b), qs);
      assert qs[0] in {Flip(a), Flip(b)} && qs[|qs| - 1] in {Flip(a), Flip(b)};
      assert Flip(a) in {qs[0], qs[|qs| - 1]} && Flip(b) in {qs[0], qs[|qs| - 1]};
    } else {
      GentleShape(a, b);
    }
  }

  /** Twice the signed area spanned by the segment and `p`. */
  function Cross(a: Pixel, b: Pixel, p: Pixel): int {
    (p.y - a.y) * (b.x - a.x) - (p.x - a.x) * (b.y - a.y)
  }

  /** Every visited pixel is within half a pixel of the ideal segment on the minor axis, and
      inside its bounding box. */
  lemma HalfPixel(a: Pixel, b: Pixel, p: Pixel)
    requires OnLine(a, b, p)
    ensures 2 * Abs(Cross(a, b, p)) <= Max(Abs(b.x - a.x), Abs(b.y - a.y))
    ensures (a.x <= p.x <= b.x || b.x <= p.x <= a.x) && (a.y <= p.y <= b.y || b.y <= p.y <= a.y)
  {
    if Steep(a, b) {
      if a.y > b.y {
        SlopedHalf(Flip(b), Flip(a), Flip(p));
        CrossSwap(a, b, p);
      } else {
        SlopedHalf(Flip(a), Flip(b), Flip(p));
      }
      CrossFlip(a, b, p);
      CrossFlip(b, a, p);
    } else if a.x > b.x {
      SlopedHalf(b, a, p);
      CrossSwap(a, b, p);
    } else {
      SlopedHalf(a, b, p);
    }
  }

  lemma CrossSwap(a: Pixel, b: Pixel, p: Pixel)
    ensures Cross(a, b, p) == -Cross(b, a, p)
  {
  }

  lemma CrossFlip(a: Pixel, b: Pixel, p: Pixel)
    ensures Cross(Flip(a), Flip(b), Flip(p)) == -Cross(a, b, p)
  {
  }

  lemma SlopedHalf(a: Pixel, b: Pixel, p: Pixel)
    requires a.x <= b.x && !Steep(a, b) && Sloped(a, b, p)
    ensures 2 * Abs(Cross(a, b, p)) <= b.x - a.x
    ensures a.x <= p.x <= b.x && (a.y <= p.y <= b.y || b.y <= p.y <= a.y)
  {
    SlopedCross(a, b, p);
    NearBounds(b.x - a.x, Abs(b.y - a.y), p.x - a.x, Rise(a, b, p));
  }

  lemma SlopedCross(a: Pixel, b: Pixel, p: Pixel)
    requires a.x <= b.x && Sloped(a, b, p)
    ensures 2 * Abs(Cross(a, b, p)) <= b.x - a.x
  {
  }

  lemma NearBounds(dx: nat, dy: nat, k: nat, s: int)
    requires dy <= dx && k <= dx && Near(dx, dy, k, s)
    ensures 0 <= s <= dy
  {
    MulMono(0, k, dy);
    MulMono(k, dx, dy);
    if s < 0 {
      MulStrict(s, 0, dx);
    } else if s > dy {
      MulStrict(dy, s, dx);
    }
  }

  /** Drawing from either end paints the same pixels. */
  lemma LineSymmetric(a: Pixel, b: Pixel)
    ensures Pixels(a, b) == Pixels(b, a)
  {
  }

  /** Exactly which pixels lie on a line that is not steep, left end first: one on each column, within
      half a pixel; and of two equally near ones, the one in the row nearer to the left end. */
  lemma GentleExactly(a: Pixel, b: Pixel, p: Pixel)
    requires a.x < b.x && Abs(b.y - a.y) <= b.x - a.x
    ensures var d := 2 * ((p.y - a.y) * (b.x - a.x) - (p.x - a.x) * (b.y - a.y));
            OnLine(a, b, p) <==>
              a.x <= p.x <= b.x && if a.y < b.y then a.x - b.x <= d < b.x - a.x else a.x - b.x < d <= b.x - a.x
  {
  }

  /** The same for steep lines, upper end first, with rows and columns exchanged. */
  lemma SteepExactly(a: Pixel, b: Pixel, p: Pixel)
    requires a.y < b.y && Abs(b.x - a.x) < b.y - a.y
    ensures var d := 2 * ((p.x - a.x) * (b.y - a.y) - (p.y - a.y) * (b.x - a.x));
            OnLine(a, b, p) <==>
              a.y <= p.y <= b.y && if a.x < b.x then a.y - b.y <= d < b.y - a.y else a.y - b.y < d <= b.y - a.y
  {
    GentleExactly(Flip(a), Flip(b), Flip(p));
  }

  /** The line from (0,0) to (2,1) passes midway between two pixels of column 1; the upper one is drawn. */
  lemma TieGoesToTheStart(p: Pixel)
    ensures OnLine(Pixel(0, 0), Pixel(2, 1), p) <==> p in {Pixel(0, 0), Pixel(1, 0), Pixel(2, 1)}
  {
    GentleExactly(Pixel(0, 0), Pixel(2, 1), p);
  }

  lemma HorizontalLine(a: Pixel, b: Pixel, p: Pixel)
    requires a.y == b.y
    ensures OnLine(a, b, p) <==> p.y == a.y && (a.x <= p.x <= b.x || b.x <= p.x <= a.x)
  {
    var dx, s := Abs(b.x - a.x), a.y - p.y;
    if s != 0 && dx > 0 {
      if s < 0 {
        MulStrict(s, 0, dx);
      } else {
        MulStrict(0, s, dx);
      }
    }
  }

  lemma VerticalLine(a: Pixel, b: Pixel, p: Pixel)
    requires a.x == b.x
    ensures OnLine(a, b, p) <==> p.x == a.x && (a.y <= p.y <= b.y || b.y <= p.y <= a.y)
  {
    if Steep(a, b) {
      HorizontalLine(Flip(a), Flip(b), Flip(p));
    }
  }

  // ---------- The drawing loop ----------

  /** What the loop of a rightward line knows at column `x`: after `s` rises the pen is at height
      `y` and `error` is the remaining rounding error. */
  ghost predicate Tracks(a: Pixel, b: Pixel, x: int, y: int, error: int, s: int) {
    var dx, dy := b.x - a.x, Abs(b.y - a.y);
    && a.x <= x <= b.x + 1
    && y == (if a.y < b.y then a.y + s else a.y - s)
    && error == -(dx / 2) + (x - a.x) * dy - s * dx
    && if dx == 0 then s == 0 else -dx < error <= 0
  }

  /** The pen is at the only pixel of its column that is on the line. */
  lemma Column(a: Pixel, b: Pixel, x: int, y: int, error: int, s: int)
    requires x <= b.x && Tracks(a, b, x, y, error, s)
    ensures forall p: Pixel :: p.x == x ==> (Sloped(a, b, p) <==> p.y == y)
  {
    var dx, dy, k := b.x - a.x, Abs(b.y - a.y), x - a.x;
    assert Near(dx, dy, k, s);
    forall p: Pixel | p.x == x
      ensures Sloped(a, b, p) <==> p.y == y
    {
      if Sloped(a, b, p) {
        NearUnique(dx, dy, k, s, Rise(a, b, p));
      }
    }
  }

  /** The part of a rightward line strictly left of column `x`. */
  ghost function Upto(a: Pixel, b: Pixel, x: int): iset<Pixel>
    requires a.x <= b.x
  {
    iset p: Pixel | Sloped(a, b, p) && p.x < x
  }

  ghost function FlipSet(S: iset<Pixel>): iset<Pixel> {
    iset p: Pixel | Flip(p) in S
  }

  /** The body shared by the two drawing loops, after the pixel is drawn. */
  method Advance(a: Pixel, b: Pixel, x: int, y: int, error: int, dx: int, dy: int, ydir: int, ghost s: int)
    returns (y': int, error': int, ghost s': int)
    requires x <= b.x && Tracks(a, b, x, y, error, s) && dy <= dx
    requires dx == b.x - a.x && dy == Abs(b.y - a.y) && ydir == (if a.y < b.y then 1 else -1)
    ensures Tracks(a, b, x + 1, y', error', s') && (y' == y || y' == y + ydir)
  {
    y', error', s' := y, error + dy, s;
    assert (x + 1 - a.x) * dy == (x - a.x) * dy + dy;
    if error' > 0 {
      if ydir == 1 {
        y' := y' + 1;
      } else {
        y' := y' - 1;
      }
      assert (s + 1) * dx == s * dx + dx;
      error' := error' - dx;
      s' := s + 1;
    }
  }

  method DrawGentle(fb: Device, start: Pixel, end: Pixel, c: Color)
    requires fb.Valid() && start.x <= end.x && !Steep(start, end)
    modifies fb.fbp
    ensures fb.fbp[..] == Paint(fb.screen, old(fb.fbp[..]), Upto(start, end, end.x + 1), c)
  {
    var dx, dy := end.x - start.x, Abs(end.y - start.y);
    var error := -(dx / 2);
    var ydir := if start.y < end.y then 1 else -1;
    var x, y := start.x, start.y;
    ghost var s, before := 0, fb.fbp[..];
    PaintNothing(fb.screen, before, Upto(start, end, x), c);
    while x <= end.x
      invariant Tracks(start, end, x, y, error, s)
      invariant fb.fbp[..] == Paint(fb.screen, before, Upto(start, end, x), c)
    {
      Column(start, end, x, y, error, s);
      DrawPixel(fb, x, y, c);
      PaintTwice(fb.screen, before, Upto(start, end, x), iset{Pixel(x, y)}, c);
      assert Upto(start, end, x) + iset{Pixel(x, y)} == Upto(start, end, x + 1);
      y, error, s := Advance(start, end, x, y, error, dx, dy, ydir, s);
      x := x + 1;
    }
  }

  /** The same loop with the roles of the axes exchanged. */
  method DrawSteep(fb: Device, start: Pixel, end: Pixel, c: Color)
    requires fb.Valid() && start.x <= end.x && !Steep(start, end)
    modifies fb.fbp
    ensures fb.fbp[..] == Paint(fb.screen, old(fb.fbp[..]), FlipSet(Upto(start, end, end.x + 1)), c)
  {
    var dx, dy := end.x - start.x, Abs(end.y - start.y);
    var error := -(dx / 2);
    var ydir := if start.y < end.y then 1 else -1;
    var x, y := start.x, start.y;
    ghost var s, before := 0, fb.fbp[..];
    PaintNothing(fb.screen, before, FlipSet(Upto(start, end, x)), c);
    while x <= end.x
      invariant Tracks(start, end, x, y, error, s)
      invariant fb.fbp[..] == Paint(fb.screen, before, FlipSet(Upto(start, end, x)), c)
    {
      Column(start, end, x, y, error, s);
      DrawPixel(fb, y, x, c);
      PaintTwice(fb.screen, before, FlipSet(Upto(start, end, x)), iset{Pixel(y, x)}, c);
      assert FlipSet(Upto(start, end, x)) + iset{Pixel(y, x)} == FlipSet(Upto(start, end, x + 1));
      y, error, s := Advance(start, end, x, y, error, dx, dy, ydir, s);
      x := x + 1;
    }
  }

  /** The whole line, between any two points, on or off the screen. */
  method DrawLine(fb: Device, start0: Pixel, end0: Pixel, c: Color)
    requires fb.Valid()
    modifies fb.fbp
    ensures fb.fbp[..] == Paint(fb.screen, old(fb.fbp[..]), Pixels(start0, end0), c)
  {
    var start, end := start0, end0;
    var swap := Abs(end.y - start.y) > Abs(end.x - start.x);
    if swap {
      start, end := Flip(start), Flip(end);
    }
    if start.x > end.x {
      start, end := end, start;
    }
    if swap {
      DrawSteep(fb, start, end, c);
      assert FlipSet(Upto(start, end, end.x + 1)) == Pixels(start0, end0);
    } else {
      DrawGentle(fb, start, end, c);
      assert Upto(start, end, end.x + 1) == Pixels(start0, end0);
    }
  }
}
