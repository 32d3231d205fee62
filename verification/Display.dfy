/** Drawing the client's list, src/client/screenballmanager.c lines 3-14: every ball is a filled
    circle of the fixed RADIUS, painted in list order. */
module Display {
  import opened Ball
  import opened BallList
  import opened Circle
  import opened Client
  import opened Color
  import opened Framebuffer
  import opened Game
  import opened Pixels
  import opened Owners
  import opened Wire

  const RADIUS := 20

  ghost predicate Covers(b: ScreenBall, p: Pixel) {
    p in Disc(Pixel(b.x, b.y), RADIUS)
  }

  /** The buffer after the balls are painted one over the other. */
  ghost function Shown(s: Screen, before: seq<byte>, balls: seq<ScreenBall>): (after: seq<byte>)
    ensures |after| == |before|
  {
    if balls == [] then before else
    var b := balls[|balls| - 1];
    Paint(s, Shown(s, before, balls[..|balls| - 1]), Disc(Pixel(b.x, b.y), RADIUS), b.color)
  }

  method DrawBallList(fb: Device, m: Manager<ScreenBall>)
    requires fb.Valid() && m.Valid()
    modifies fb.fbp
    ensures fb.fbp[..] == Shown(fb.screen, old(fb.fbp[..]), m.Contents())
  {
    var cur := m.head;
    ghost var balls, before, i := m.Contents(), fb.fbp[..], 0;
    while cur != null
      invariant 0 <= i <= |balls| && m.Valid() && m.Contents() == balls && cur == At(m.nodes, i)
      invariant fb.fbp[..] == Shown(fb.screen, before, balls[..i])
      decreases |balls| - i
    {
      m.Next(i);
      var next := cur.next;
      assert balls[..i + 1][..i] == balls[..i];
      DrawFilledCircle(fb, Pixel(cur.data.x, cur.data.y), RADIUS, cur.data.color);
      cur := next;
      i := i + 1;
    }
    assert balls[..i] == balls;
  }

  /** The position of the last ball that covers `p`, or -1. */
  ghost function LastOver(balls: seq<ScreenBall>, p: Pixel): (i: int)
    ensures -1 <= i < |balls|
    ensures i >= 0 ==> Covers(balls[i], p)
    ensures forall j :: i < j < |balls| ==> !Covers(balls[j], p)
  {
    if balls == [] then -1
    else if Covers(balls[|balls| - 1], p) then |balls| - 1
    else LastOver(balls[..|balls| - 1], p)
  }

  /** What the screen shows: each pixel has the colour of the last ball over it in list order, and
      pixels under no ball are left as they were. */
  lemma {:induction false} LastBallWins(s: Screen, before: seq<byte>, balls: seq<ScreenBall>, p: Pixel, k: int)
    requires s.Fits() && |before| == s.Size() && s.InCell(p, k)
    ensures 0 <= k < |before|
    ensures var i := LastOver(balls, p);
            Shown(s, before, balls)[k] == if i < 0 then before[k] else Component(balls[i].color, k - s.Locate(p.x, p.y))
  {
    CellOwner(s, p, k);
    if balls != [] {
      var n := |balls| - 1;
      LastBallWins(s, before, balls[..n], p, k);
      PaintMeaning(s, Shown(s, before, balls[..n]), Disc(Pixel(balls[n].x, balls[n].y), RADIUS), balls[n].color);
    }
  }

  // ---------- One frame ----------

  const BLACK := Color(0, 0, 0)

  ghost function WholeScreen(s: Screen): iset<Pixel> { Box(Pixel(0, 0), s.xres, s.yres) }

  /** The frame that render_thread draws, before the text of the command guide goes on top. */
  ghost function Frame(s: Screen, before: seq<byte>, balls: seq<ScreenBall>): (frame: seq<byte>)
    ensures |frame| == |before|
  {
    Shown(s, Paint(s, before, WholeScreen(s), BLACK), balls)
  }

  method Render(fb: Device, m: Manager<ScreenBall>)
    requires fb.Valid() && m.Valid()
    modifies fb.fbp
    ensures fb.fbp[..] == Frame(fb.screen, old(fb.fbp[..]), m.Contents())
  {
    ghost var balls := m.Contents();
    FillScr(fb, BLACK);
    assert m.Valid() && m.Contents() == balls;
    DrawBallList(fb, m);
  }

  /** Ball `b` of the server is drawn over pixel `p` of a client. */
  ghost predicate Over(s: Screen, b: LogicalBall, p: Pixel) {
    p in Disc(Pixel(LogicToPixel(b.x as real, s.xres), LogicToPixel(b.y as real, s.yres)), RADIUS)
  }

  /** A ball covers every pixel within 20 of its centre and none from squared distance 420 on. */
  lemma OverMeans(s: Screen, b: LogicalBall, p: Pixel)
    ensures var dx, dy := p.x - LogicToPixel(b.x as real, s.xres), p.y - LogicToPixel(b.y as real, s.yres);
            && (dx * dx + dy * dy <= 400 ==> Over(s, b, p))
            && (Over(s, b, p) ==> dx * dx + dy * dy < 420)
  {
    var dx, dy := p.x - LogicToPixel(b.x as real, s.xres), p.y - LogicToPixel(b.y as real, s.yres);
    if dx * dx + dy * dy <= 400 {
      DiscContains(RADIUS, dx, dy);
    }
    if Over(s, b, p) {
      DiscContained(RADIUS, dx, dy);
    }
  }

  lemma FrameShows(s: Screen, before: seq<byte>, balls: seq<ScreenBall>, p: Pixel, k: int)
    requires s.Fits() && |before| == s.Size() && s.InCell(p, k)
    ensures 0 <= k < |before|
    ensures var i := LastOver(balls, p);
            Frame(s, before, balls)[k] == if i < 0 then 0 else Component(balls[i].color, k - s.Locate(p.x, p.y))
  {
    LastBallWins(s, Paint(s, before, WholeScreen(s), BLACK), balls, p, k);
    PaintMeaning(s, before, WholeScreen(s), BLACK);
  }

  /** The client's copy `c` of the list agrees with it on what is over `p`. */
  ghost predicate Agrees(s: Screen, balls: Balls, c: seq<ScreenBall>, p: Pixel) {
    |c| == |balls| && forall i :: 0 <= i < |c| ==>
      (Covers(c[i], p) <==> Over(s, balls[i], p)) && c[i].color == ColorByOwner(balls[i].owner)
  }

  /** What a client holds after the message of a run (Client.ClientSeesServer). */
  ghost function Received(s: Screen, evs: seq<Event>, junk: nat -> WireBall): seq<ScreenBall>
    requires AllDefined(evs)
  {
    AllToScreen(Parsed(Tokens(Serialized(Run([], evs))), junk), s.xres, s.yres)
  }

  lemma ReceivedOver(s: Screen, evs: seq<Event>, junk: nat -> WireBall, p: Pixel)
    requires WithinCapacity(evs) && s.OnScreen(p)
    ensures Agrees(s, Run([], evs), Received(s, evs, junk), p)
  {
    var balls := Run([], evs);
    ClientSeesServer(evs, junk, s.xres, s.yres);
    RunSound(evs, 0);
    assert forall i :: 0 <= i < |balls| ==> balls[i] in balls;
  }

  /** The four bytes at `l` of a frame show the last ball over `p`: blue, green, red and zero of its
      owner's colour, or black where there is none. */
  ghost predicate CellShows(s: Screen, balls: Balls, p: Pixel, frame: seq<byte>, l: nat)
    requires l + 4 <= |frame|
  {
    && (forall i :: 0 <= i < |balls| && Over(s, balls[i], p)
                    && (forall j :: i < j < |balls| ==> !Over(s, balls[j], p)) ==>
          var c := ColorByOwner(balls[i].owner);
          frame[l] == c.b && frame[l + 1] == c.g && frame[l + 2] == c.r && frame[l + 3] == 0)
    && ((forall i :: 0 <= i < |balls| ==> !Over(s, balls[i], p)) ==>
          frame[l] == frame[l + 1] == frame[l + 2] == frame[l + 3] == 0)
  }

  /** The bytes at `l` are those of the last ball of `c` over `p`, or zero. */
  ghost predicate LastCell(c: seq<ScreenBall>, p: Pixel, frame: seq<byte>, l: nat)
    requires l + 4 <= |frame|
  {
    var i := LastOver(c, p);
    && frame[l] == (if i < 0 then 0 else c[i].color.b) && frame[l + 1] == (if i < 0 then 0 else c[i].color.g)
    && frame[l + 2] == (if i < 0 then 0 else c[i].color.r) && frame[l + 3] == 0
  }

  lemma CellOf(s: Screen, balls: Balls, c: seq<ScreenBall>, p: Pixel, frame: seq<byte>, l: nat)
    requires Agrees(s, balls, c, p) && l + 4 <= |frame| && LastCell(c, p, frame, l)
    ensures CellShows(s, balls, p, frame, l)
  {
    var i := LastOver(c, p);
    if i >= 0 {
      assert Covers(c[i], p);
      assert Over(s, balls[i], p);
    }
  }

  lemma FrameCell(s: Screen, before: seq<byte>, c: seq<ScreenBall>, p: Pixel)
    requires s.Fits() && |before| == s.Size() && s.OnScreen(p)
    ensures var l := 4 * (s.xoffset + p.x) + s.lineLength * p.y;
            0 <= l < l + 4 <= |before| && LastCell(c, p, Frame(s, before, c), l)
  {
    var l := s.Locate(p.x, p.y);
    CellAddress(s, p);
    FrameShows(s, before, c, p, l);
    FrameShows(s, before, c, p, l + 1);
    FrameShows(s, before, c, p, l + 2);
    FrameShows(s, before, c, p, l + 3);
  }

  /** From the server's list to the client's screen: after any run within the buffer's capacity, sent,
      parsed, converted and drawn over whatever was there before, each pixel shows the last of the
      server's balls over it, in the colour of its owner, or black where there is none. */
  lemma ScreenShowsServer(s: Screen, before: seq<byte>, evs: seq<Event>, junk: nat -> WireBall, p: Pixel)
    requires s.Fits() && |before| == s.Size() && s.OnScreen(p) && WithinCapacity(evs)
    ensures var l := 4 * (s.xoffset + p.x) + s.lineLength * p.y;
            0 <= l < l + 4 <= |before| && CellShows(s, Run([], evs), p, Frame(s, before, Received(s, evs, junk)), l)
  {
    ReceivedOver(s, evs, junk, p);
    FrameCell(s, before, Received(s, evs, junk), p);
    var l := 4 * (s.xoffset + p.x) + s.lineLength * p.y;
    CellOf(s, Run([], evs), Received(s, evs, junk), p, Frame(s, before, Received(s, evs, junk)), l);
  }
}
