/** fb_drawFilledCircle of src/shared/fbDraw.c: the incremental disc, the exact set of pixels it
    fills, and how that set sits between two true circles. */
module Circle {
  import opened Arith
  import opened Color
  import opened Framebuffer
  import opened Line

  // ---------- The filled set ----------

  /** Closed form of the decision variable at column `x` and height `y`. */
  function G(R: int, x: int, y: int): int {
    x * x + y * y - 3 * y + 2 * R - R * R
  }

  /** The offsets (a, b) that a disc of radius `R` fills. At R = 1 the loop exits before it can
      reach the diagonal, which leaves a plus sign. */
  predicate InDisc(R: int, a: int, b: int) {
    var u, v := Min(Abs(a), Abs(b)), Max(Abs(a), Abs(b));
    if R == 1 then u + v <= 1 else G(R, u, v) < 0 || (u == v && G(R, u, v) == 0)
  }

  ghost function Disc(center: Pixel, R: int): iset<Pixel> {
    iset p: Pixel | InDisc(R, p.x - center.x, p.y - center.y)
  }

  // ---------- Between two circles ----------

  lemma SquareMono(a: nat, b: nat)
    requires a <= b
    ensures a * a <= b * b
  {
  }

  lemma SquareAbs(a: int)
    ensures a * a == Abs(a) * Abs(a)
  {
  }

  lemma GMonoX(R: int, x: nat, x': nat, y: int)
    requires x <= x'
    ensures G(R, x, y) <= G(R, x', y) && (x < x' ==> G(R, x, y) < G(R, x', y))
  {
  }

  lemma GMonoY(R: int, x: int, y: nat, y': nat)
    requires 1 <= y <= y'
    ensures G(R, x, y) <= G(R, x, y')
  {
    assert y' * y' - y * y == (y' - y) * (y' + y);
    if y < y' {
      MulMono(3, y' + y, y' - y);
    }
  }

  /** Below two thirds of the radius the diagonal is still deep inside: a decrement of the height
      can only happen above that. */
  lemma LowDiagonal(R: int, v: int)
    requires R >= 2 && 1 <= v && 3 * v <= 2 * R
    ensures G(R, v, v) < 0
  {
  }

  /** Inner bound: nothing of the true disc is missing. */
  lemma DiscContains(R: int, a: int, b: int)
    requires R >= 1 && a * a + b * b <= R * R
    ensures InDisc(R, a, b)
  {
    SquareAbs(a);
    SquareAbs(b);
    var u, v := Min(Abs(a), Abs(b)), Max(Abs(a), Abs(b));
    assert u * u + v * v <= R * R;
    if R == 1 {
      if u + v >= 2 {
        SquareMono(1, v);
        if v >= 2 {
          SquareMono(2, v);
        }
      }
    } else if 3 * v <= 2 * R {
      if v == 0 {
        MulMono(2, R, R);
      } else {
        GMonoX(R, u, v, v);
        LowDiagonal(R, v);
      }
    }
  }

  lemma DiscHeight(R: int, u: nat, v: nat)
    requires R >= 2 && u <= v && (G(R, u, v) < 0 || (u == v && G(R, u, v) == 0))
    ensures v <= R && (u == v ==> v < R)
  {
    assert G(R, 0, R + 1) == R - 2;
    if v > R {
      GMonoY(R, u, R + 1, v);
      GMonoX(R, 0, u, R + 1);
    } else if u == v == R {
      MulMono(2, R, R);
    }
  }

  /** Outer bound: nothing outside the circle of squared radius R² + R is filled. */
  lemma DiscContained(R: int, a: int, b: int)
    requires R >= 1 && InDisc(R, a, b)
    ensures a * a + b * b < R * R + R
  {
    SquareAbs(a);
    SquareAbs(b);
    var u, v := Min(Abs(a), Abs(b)), Max(Abs(a), Abs(b));
    if R == 1 {
      assert u == 0;
    } else {
      DiscHeight(R, u, v);
    }
  }

  // ---------- The exact set, in its own terms ----------

  lemma FourG(R: int, a: int, b: int)
    ensures 4 * G(R, a, b) == 4 * (a * a) + (2 * b - 3) * (2 * b - 3) - 4 * ((R - 1) * (R - 1)) - 5
  {
  }

  /** In the octant 0 <= a <= b the filled offsets are those of a disc of squared radius (R - 1)^2 + 5/4
      about a point one and a half rows up, with the diagonal closed. */
  lemma DiscOctant(R: int, a: int, b: int)
    requires R >= 2 && 0 <= a <= b
    ensures var d := 4 * (a * a) + (2 * b - 3) * (2 * b - 3) - 4 * ((R - 1) * (R - 1)) - 5;
            InDisc(R, a, b) <==> d < 0 || (a == b && d == 0)
  {
    FourG(R, a, b);
  }

  /** The other octants are its reflections; at R = 1 the set is a plus sign. */
  lemma DiscReflections(R: int, a: int, b: int)
    ensures InDisc(R, a, b) == InDisc(R, b, a) == InDisc(R, -a, b) == InDisc(R, a, -b)
    ensures InDisc(1, a, b) <==> (a == 0 && -1 <= b <= 1) || (b == 0 && -1 <= a <= 1)
  {
  }

  // ---------- The loop ----------

  /** What holds after `x` turns with height `y`: the pair straddles the boundary of the set. */
  ghost predicate Straddles(R: int, x: int, y: int) {
    if R == 1 then (x == 0 && y == 1) || (x == 1 && y == 0)
    else
      && 0 <= x <= y + 1 && 0 <= y <= R
      && G(R, x, y + 1) >= 0
      && (x < y ==> G(R, x, y) < 0)
      && (x == y ==> G(R, x, y) <= 0)
      && (x == y + 1 ==> G(R, y, x) < 0 && G(R, x, x) > 0)
  }

  predicate OnAxes(R: int, a: int, b: int) {
    (a == 0 && Abs(b) <= R) || (b == 0 && Abs(a) <= R)
  }

  /** The offsets filled after `x` turns. */
  predicate Drawn(R: int, x: int, y: int, a: int, b: int) {
    OnAxes(R, a, b) || (InDisc(R, a, b) && (Abs(b) <= x || (Abs(b) >= y && Abs(a) <= x)))
  }

  /** The four spans of one turn. */
  predicate OnSpans(x: int, y: int, a: int, b: int) {
    (Abs(b) == x && Abs(a) <= y) || (Abs(b) == y && Abs(a) <= x)
  }

  lemma StraddlesInit(R: int)
    requires R >= 1
    ensures Straddles(R, 0, R) && G(R, 0, R) == -R
  {
  }

  /** A turn with `d` = G(R, x-1, y) < 0 updates `d` to the closed form and straddles again; where
      another turn follows, `d` is negative again. */
  lemma StraddlesStep(R: int, x: int, y: int)
    requires R >= 1 && 1 <= x <= y && Straddles(R, x - 1, y)
    ensures G(R, x, y) == G(R, x - 1, y) + 2 * x - 1
    ensures G(R, x, y - 1) == G(R, x, y) - 2 * (y - 1) + 2
    ensures Straddles(R, x, if G(R, x, y) >= 0 then y - 1 else y)
  {
  }

  lemma RowOfStep(R: int, x: int, y: int, a: int)
    requires R >= 2 && x >= 1 && Straddles(R, x, y)
    ensures InDisc(R, a, x) <==> Abs(a) <= y
  {
    var m := Abs(a);
    if m <= y {
      if m < x {
        if x == y + 1 {
          GMonoX(R, m, y, x);
        } else {
          GMonoY(R, m, x, y);
          GMonoX(R, m, x, y);
        }
      } else {
        GMonoY(R, x, x, y);
        if m > 0 {
          GMonoY(R, x, m, y);
        }
      }
    } else if m >= x {
      GMonoY(R, x, y + 1, m);
    }
  }

  lemma InDiscSymmetric(R: int, a: int, b: int)
    ensures InDisc(R, a, b) == InDisc(R, b, a)
    ensures InDisc(R, a, b) == InDisc(R, Abs(a), Abs(b))
  {
  }

  lemma AboveStep(R: int, x: int, y: int, b: int)
    requires R >= 2 && x >= 1 && Straddles(R, x, y) && Abs(b) > x && Abs(b) > y
    ensures !InDisc(R, x, b)
  {
    GMonoY(R, x, y + 1, Abs(b));
  }

  lemma SpansInside(R: int, x: int, y: int, a: int, b: int)
    requires R >= 2 && x >= 1 && Straddles(R, x, y) && OnSpans(x, y, a, b)
    ensures Drawn(R, x, y, a, b)
  {
    InDiscSymmetric(R, a, b);
    InDiscSymmetric(R, Abs(a), Abs(b));
    if Abs(b) == x {
      RowOfStep(R, x, y, a);
    } else {
      RowOfStep(R, x, y, y);
      InDiscSymmetric(R, x, y);
      if y > 0 {
        InDiscShrinks(R, Abs(a), x, y);
      }
    }
  }

  lemma InDiscShrinks(R: int, a: nat, x: nat, y: nat)
    requires R >= 2 && a <= x && y >= 1 && InDisc(R, x, y)
    ensures InDisc(R, a, y)
  {
    if x <= y {
      GMonoX(R, a, x, y);
    } else if a >= y {
      GMonoY(R, y, a, x);
    } else {
      GMonoY(R, y, y, x);
      GMonoX(R, a, y, y);
    }
  }

  lemma DrawnStep(R: int, x: int, y0: int, y: int, a: int, b: int)
    requires R >= 1 && 1 <= x <= y0 && Straddles(R, x - 1, y0)
    requires y == if G(R, x, y0) >= 0 then y0 - 1 else y0
    ensures Drawn(R, x, y, a, b) <==> Drawn(R, x - 1, y0, a, b) || OnSpans(x, y, a, b)
  {
    StraddlesStep(R, x, y0);
    if R >= 2 {
      if OnSpans(x, y, a, b) {
        SpansInside(R, x, y, a, b);
      }
      if Drawn(R, x, y, a, b) && Abs(b) == x {
        InDiscSymmetric(R, a, b);
        InDiscSymmetric(R, a, x);
        RowOfStep(R, x, y, a);
      }
      if Drawn(R, x, y, a, b) && Abs(b) > x && Abs(b) > y && Abs(a) == x {
        InDiscSymmetric(R, a, b);
        InDiscSymmetric(R, x, b);
        AboveStep(R, x, y, b);
      }
    }
  }

  lemma DrawnInit(R: int, a: int, b: int)
    requires R >= 1
    ensures Drawn(R, 0, R, a, b) <==> OnAxes(R, a, b)
  {
    if R >= 2 && InDisc(R, a, b) {
      DiscHeight(R, Min(Abs(a), Abs(b)), Max(Abs(a), Abs(b)));
    }
  }

  lemma AxesInDisc(R: int, a: int, b: int)
    requires R >= 2 && OnAxes(R, a, b)
    ensures InDisc(R, a, b)
  {
    SquareMono(Abs(a), R);
    SquareMono(Abs(b), R);
    SquareAbs(a);
    SquareAbs(b);
    DiscContains(R, a, b);
  }

  /** Past the last turn nothing is left beyond both spans. */
  lemma NothingBeyond(R: int, x: int, y: int, a: int, b: int)
    requires R >= 2 && Straddles(R, x, y) && x >= y && Abs(a) > x && Abs(b) > x
    ensures !InDisc(R, a, b)
  {
    var u, v := Min(Abs(a), Abs(b)), Max(Abs(a), Abs(b));
    GMonoY(R, u, x + 1, v);
    GMonoX(R, x, u, x + 1);
    if x == y + 1 {
      GMonoY(R, x, x, x + 1);
    }
  }

  lemma DrawnFinal(R: int, x: int, y: int, a: int, b: int)
    requires R >= 1 && Straddles(R, x, y) && x >= y
    ensures Drawn(R, x, y, a, b) <==> InDisc(R, a, b)
  {
    if R >= 2 {
      if OnAxes(R, a, b) {
        AxesInDisc(R, a, b);
      }
      if Abs(a) > x && Abs(b) > x {
        NothingBeyond(R, x, y, a, b);
      }
    }
  }

  // ---------- The drawing method ----------

  ghost function DrawnAt(center: Pixel, R: int, x: int, y: int): iset<Pixel> {
    iset p: Pixel | Drawn(R, x, y, p.x - center.x, p.y - center.y)
  }

  ghost function SpansAt(center: Pixel, x: int, y: int): iset<Pixel> {
    iset p: Pixel | OnSpans(x, y, p.x - center.x, p.y - center.y)
  }

  /** The row at height `row`, `w` pixels to either side of the centre. */
  ghost function Row(center: Pixel, w: int, row: int): iset<Pixel> {
    iset p: Pixel | p.y == row + center.y && Abs(p.x - center.x) <= w
  }

  lemma RowIsLine(center: Pixel, w: int, row: int)
    requires w >= 0
    ensures Pixels(Pixel(-w + center.x, row + center.y), Pixel(w + center.x, row + center.y)) == Row(center, w, row)
  {
    var a, b := Pixel(-w + center.x, row + center.y), Pixel(w + center.x, row + center.y);
    forall p: Pixel
      ensures OnLine(a, b, p) <==> p in Row(center, w, row)
    {
      HorizontalLine(a, b, p);
    }
  }

  method DrawRow(fb: Device, center: Pixel, w: int, row: int, c: Color, ghost before: seq<byte>, ghost S: iset<Pixel>)
    requires fb.Valid() && w >= 0 && fb.fbp[..] == Paint(fb.screen, before, S, c)
    modifies fb.fbp
    ensures fb.fbp[..] == Paint(fb.screen, before, S + Row(center, w, row), c)
  {
    DrawLine(fb, Pixel(-w + center.x, row + center.y), Pixel(w + center.x, row + center.y), c);
    RowIsLine(center, w, row);
    PaintTwice(fb.screen, before, S, Row(center, w, row), c);
  }

  method DrawSpans(fb: Device, center: Pixel, x: int, y: int, c: Color)
    requires fb.Valid() && x >= 0 && y >= 0
    modifies fb.fbp
    ensures fb.fbp[..] == Paint(fb.screen, old(fb.fbp[..]), SpansAt(center, x, y), c)
  {
    ghost var before := fb.fbp[..];
    PaintNothing(fb.screen, before, iset{}, c);
    DrawRow(fb, center, x, y, c, before, iset{});
    ghost var s := iset{} + Row(center, x, y);
    DrawRow(fb, center, x, -y, c, before, s);
    s := s + Row(center, x, -y);
    DrawRow(fb, center, y, x, c, before, s);
    s := s + Row(center, y, x);
    DrawRow(fb, center, y, -x, c, before, s);
    s := s + Row(center, y, -x);
    assert s == SpansAt(center, x, y);
  }

  lemma CrossIsAxes(center: Pixel, R: int)
    requires R >= 1
    ensures Pixels(Pixel(center.x, center.y + R), Pixel(center.x, center.y - R))
            + Pixels(Pixel(center.x + R, center.y), Pixel(center.x - R, center.y)) == DrawnAt(center, R, 0, R)
  {
    forall p: Pixel
      ensures OnLine(Pixel(center.x, center.y + R), Pixel(center.x, center.y - R), p)
              || OnLine(Pixel(center.x + R, center.y), Pixel(center.x - R, center.y), p)
              <==> p in DrawnAt(center, R, 0, R)
    {
      VerticalLine(Pixel(center.x, center.y + R), Pixel(center.x, center.y - R), p);
      HorizontalLine(Pixel(center.x + R, center.y), Pixel(center.x - R, center.y), p);
      DrawnInit(R, p.x - center.x, p.y - center.y);
    }
  }

  lemma TurnPaints(center: Pixel, R: int, x: int, y0: int, y: int)
    requires R >= 1 && 1 <= x <= y0 && Straddles(R, x - 1, y0)
    requires y == if G(R, x, y0) >= 0 then y0 - 1 else y0
    ensures DrawnAt(center, R, x - 1, y0) + SpansAt(center, x, y) == DrawnAt(center, R, x, y)
  {
    forall p: Pixel
      ensures p in DrawnAt(center, R, x - 1, y0) + SpansAt(center, x, y) <==> p in DrawnAt(center, R, x, y)
    {
      DrawnStep(R, x, y0, y, p.x - center.x, p.y - center.y);
    }
  }

  lemma FinalIsDisc(center: Pixel, R: int, x: int, y: int)
    requires R >= 1 && Straddles(R, x, y) && x >= y
    ensures DrawnAt(center, R, x, y) == Disc(center, R)
  {
    forall p: Pixel
      ensures p in DrawnAt(center, R, x, y) <==> p in Disc(center, R)
    {
      DrawnFinal(R, x, y, p.x - center.x, p.y - center.y);
    }
  }

  /** The vertical and the horizontal diameter, with which the disc begins. */
  method DrawAxes(fb: Device, center: Pixel, R: int, c: Color)
    requires fb.Valid() && R >= 1
    modifies fb.fbp
    ensures fb.fbp[..] == Paint(fb.screen, old(fb.fbp[..]), DrawnAt(center, R, 0, R), c)
  {
    var cx, cy := center.x, center.y;
    ghost var before := fb.fbp[..];
    DrawLine(fb, Pixel(cx, cy + R), Pixel(cx, cy - R), c);
    DrawLine(fb, Pixel(cx + R, cy), Pixel(cx - R, cy), c);
    PaintTwice(fb.screen, before, Pixels(Pixel(cx, cy + R), Pixel(cx, cy - R)),
               Pixels(Pixel(cx + R, cy), Pixel(cx - R, cy)), c);
    CrossIsAxes(center, R);
  }

  /** The disc around any centre, clipped to the screen: exactly the pixels of `Disc`. */
  method DrawFilledCircle(fb: Device, center: Pixel, R: int, c: Color)
    requires fb.Valid() && R >= 1
    modifies fb.fbp
    ensures fb.fbp[..] == Paint(fb.screen, old(fb.fbp[..]), Disc(center, R), c)
  {
    ghost var before := fb.fbp[..];
    var distance := -R;
    var circleY := R;
    DrawAxes(fb, center, R, c);
    StraddlesInit(R);
    var circleX := 1;
    while circleX <= circleY
      invariant circleX >= 1 && Straddles(R, circleX - 1, circleY)
      invariant distance == G(R, circleX - 1, circleY)
      invariant fb.fbp[..] == Paint(fb.screen, before, DrawnAt(center, R, circleX - 1, circleY), c)
      decreases circleY + 1 - circleX
    {
      ghost var x, y0 := circleX, circleY;
      StraddlesStep(R, x, y0);
      distance := distance + 2 * circleX - 1;
      if distance >= 0 {
        circleY := circleY - 1;
        distance := distance - 2 * circleY + 2;
      }
      DrawSpans(fb, center, circleX, circleY, c);
      PaintTwice(fb.screen, before, DrawnAt(center, R, x - 1, y0), SpansAt(center, x, circleY), c);
      TurnPaints(center, R, x, y0, circleY);
      circleX := circleX + 1;
    }
    FinalIsDisc(center, R, circleX - 1, circleY);
  }
}
