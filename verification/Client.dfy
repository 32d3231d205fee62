/** Server text in, client list out: updateBallListFromSerialized and the pixel conversion of
    src/client/screenballmanager.c. */
module Client {
  import opened Arith
  import opened Ball
  import opened BallList
  import opened Color
  import opened Game
  import opened PixelLoss
  import opened Pixels
  import opened Wire

  datatype ScreenBall = ScreenBall(id: int, x: int, y: int, dx: int, dy: int, radius: int, color: Color)

  function ToScreen(l: WireBall, width: int, height: int): ScreenBall {
    ScreenBall(l.id, LogicToPixel(l.x, width), LogicToPixel(l.y, height), l.dx, l.dy,
               ScreenRadius(l.radius, Min(width, height)), l.color)
  }

  function AllToScreen(ls: seq<WireBall>, width: int, height: int): (r: seq<ScreenBall>)
    ensures |r| == |ls|
  {
    seq(|ls|, i requires 0 <= i < |ls| => ToScreen(ls[i], width, height))
  }

  // ---------- Receiving a message ----------

  method UpdateBallList(m: Manager<ScreenBall>, str: string, width: int, height: int, junk: nat -> WireBall)
    requires m.Valid()
    modifies m, m.Repr()
    ensures m.Valid() && m.Contents() == AllToScreen(Parsed(Tokens(str), junk), width, height)
  {
    m.DeleteAll();
    var input, k := str, 0;
    ghost var done: seq<string> := [];
    var token := NextToken(input);
    while token.Some?
      invariant token == NextToken(input) && Reading(str, done, input) && k == |done|
      invariant m.Valid() && m.Contents() == AllToScreen(Parsed(done, junk), width, height)
      invariant fresh(m.Repr() - old(m.Repr()))
      decreases |input|
    {
      ReadingStep(str, done, input);
      ParsedOneMore(done, token.value.0, junk, width, height);
      m.AppendCounted(ToScreen(ScanId(token.value.0, junk(k)), width, height));
      done := done + [token.value.0];
      k := k + 1;
      input := token.value.1;
      token := NextToken(input);
    }
    ReadingDone(str, done, input);
  }

  /** strtok has returned the tokens `done` and will go on at `input`. */
  ghost predicate Reading(str: string, done: seq<string>, input: string) {
    Tokens(str) == done + Tokens(input)
  }

  lemma ReadingStep(str: string, done: seq<string>, input: string)
    requires Reading(str, done, input) && NextToken(input).Some?
    ensures var (t, rest) := NextToken(input).value; Reading(str, done + [t], rest) && |rest| < |input|
  {
    NextIsFirst(input);
  }

  lemma ReadingDone(str: string, done: seq<string>, input: string)
    requires Reading(str, done, input) && NextToken(input).None?
    ensures done == Tokens(str)
  {
  }

  lemma ParsedOneMore(done: seq<string>, token: string, junk: nat -> WireBall, width: int, height: int)
    ensures AllToScreen(Parsed(done + [token], junk), width, height) ==
            AllToScreen(Parsed(done, junk), width, height) + [ToScreen(ScanId(token, junk(|done|)), width, height)]
  {
  }

  // ---------- What a client sees of a running server ----------

  lemma RunFields(evs: seq<Event>, n: nat)
    requires RadiiIn(evs, 0) && AllDefined(evs) && Peak([], evs) <= n <= 1000
    ensures forall b :: b in Run([], evs) ==> Sound(b) && b.radius >= 0 && 0 <= b.id < n && Fields32(b)
    ensures |Run([], evs)| <= n
  {
    RunSound(evs, 0);
    RunIds([], evs, n);
  }

  predicate RealOwners(evs: seq<Event>) {
    forall i :: 0 <= i < |evs| && !evs[i].Tick? ==> evs[i].owner >= 0
  }

  /** The server has never held more than 178 balls, or 186 when all owners are real socket descriptors. */
  predicate WithinCapacity(evs: seq<Event>) {
    RadiiIn(evs, 0) && AllDefined(evs) && Peak([], evs) <= if RealOwners(evs) then 186 else 178
  }

  /** So long, the text of the whole list and its NUL fit the 8192-byte buffer. */
  lemma BufferFits(evs: seq<Event>)
    requires WithinCapacity(evs)
    ensures |Serialized(Run([], evs))| + 1 <= BUFFER_SIZE
  {
    var s := Run([], evs);
    var k := if RealOwners(evs) then 44 else 46;
    RunFields(evs, if RealOwners(evs) then 186 else 178);
    if k == 44 {
      RunOwners(evs, 0);
    }
    forall b | b in s
      ensures |Temp(b)| <= k
    {
      TempLength(b);
    }
    SerializedLength(s, k);
  }

  /** What a client keeps of a ball of the server: identity, speeds and colour as they are, and on the
      program's screen of 1920 by 1080 the pixel of the place by integer division, but for column 525. */
  lemma OnProgramScreen(b: LogicalBall)
    requires Sound(b) && b.radius >= 0
    ensures var c := ToScreen(OnWire(b), 1920, 1080);
            && c.id == b.id && c.dx == b.dx && c.dy == b.dy && c.color == b.color && c.radius == 5
            && c.x == b.x * 1920 / 1000 - (if b.x == 525 then 1 else 0) && c.y == b.y * 1080 / 1000
  {
    PixelOnWidth(b.x);
    PixelOnHeight(b.y);
    GameRadius(b.radius, 1080);
  }

  lemma SoundOnScreen(b: LogicalBall, width: int, height: int)
    requires Sound(b) && b.radius >= 0 && width > 0 && height > 0
    ensures var c := ToScreen(OnWire(b), width, height);
            0 <= c.x < width && 0 <= c.y < height && c.radius == 5
  {
    PixelOnScreen(b.x, width);
    PixelOnScreen(b.y, height);
    GameRadius(b.radius, Min(width, height));
  }

  /** After any run within the buffer's capacity, a client that receives the message holds exactly
      the server's balls, in order, each centred on its screen. */
  lemma ClientSeesServer(evs: seq<Event>, junk: nat -> WireBall, width: int, height: int)
    requires WithinCapacity(evs) && width > 0 && height > 0
    ensures var s := Run([], evs);
            var c := AllToScreen(Parsed(Tokens(Serialized(s)), junk), width, height);
            && |c| == |s|
            && (forall i :: 0 <= i < |s| ==>
                 && c[i] == ToScreen(OnWire(s[i]), width, height)
                 && 0 <= c[i].x < width && 0 <= c[i].y < height && c[i].radius == 5)
  {
    var s := Run([], evs);
    RunFields(evs, 186);
    MessageRoundTrip(s, junk);
    forall i | 0 <= i < |s|
      ensures var b := ToScreen(OnWire(s[i]), width, height);
              0 <= b.x < width && 0 <= b.y < height && b.radius == 5
    {
      assert s[i] in s;
      SoundOnScreen(s[i], width, height);
    }
  }
}
