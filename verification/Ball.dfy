/** A server-side ball, src/server/loaclball.c. Positions start as whole numbers and speeds are ints, so
    the float coordinates are whole numbers; they are integers here, rounded as binary32 rounds. */
module Ball {
  import opened Arith
  import opened Binary32
  import opened Color
  import opened Motion
  import opened Speed

  datatype LogicalBall = LogicalBall(id: int, x: int, y: int, dx: int, dy: int, radius: int, owner: int, color: Color)

  /** The four calls of rand() that create one ball. */
  datatype Draws = Draws(x: nat, y: nat, dx: nat, dy: nat)

  function ColorByOwner(owner: int): Color {
    var m := Rem(owner, 5);
    if m == 0 then Color(255, 0, 0)
    else if m == 1 then Color(0, 255, 0)
    else if m == 2 then Color(0, 0, 255)
    else if m == 3 then Color(255, 255, 0)
    else if m == 4 then Color(255, 0, 255)
    else Color(128, 128, 128)
  }

  /** The float literals -2.5f and 2.5f are stored in int fields, which keep -2 and 2. At radius 500
      the source divides by zero. */
  function Create(id: int, radius: int, owner: int, rand: Draws): LogicalBall
    requires radius != 500
  {
    LogicalBall(id,
                Float(Rem(rand.x, 1000 - 2 * radius) + radius), Float(Rem(rand.y, 1000 - 2 * radius) + radius),
                if Rem(rand.dx, 2) == 0 then -2 else 2, if Rem(rand.dy, 2) == 0 then -2 else 2,
                radius, owner, ColorByOwner(owner))
  }

  function XAxis(b: LogicalBall): Axis { Axis(b.x, b.dx) }

  function YAxis(b: LogicalBall): Axis { Axis(b.y, b.dy) }

  function WithAxes(b: LogicalBall, ax: Axis, ay: Axis): LogicalBall {
    b.(x := ax.pos, dx := ax.speed, y := ay.pos, dy := ay.speed)
  }

  /** move_logical_ball */
  function MoveBall(b: LogicalBall): LogicalBall {
    WithAxes(b, MoveFloat(b.radius, XAxis(b)), MoveFloat(b.radius, YAxis(b)))
  }

  /** The same without rounding. */
  function ExactMove(b: LogicalBall): LogicalBall {
    WithAxes(b, Move(b.radius, XAxis(b)), Move(b.radius, YAxis(b)))
  }

  function SpeedUpBall(b: LogicalBall): LogicalBall {
    b.(dx := Up(b.dx), dy := Up(b.dy))
  }

  function SpeedDownBall(b: LogicalBall): LogicalBall {
    b.(dx := Down(b.dx), dy := Down(b.dy))
  }

  /** What every ball of the game satisfies at every moment. */
  predicate Sound(b: LogicalBall) {
    && Contained(b.radius, b.x) && Contained(b.radius, b.y)
    && InRange(b.dx) && InRange(b.dy)
    && b.color == ColorByOwner(b.owner)
  }

  // ---------- Creation ----------

  /** The least radius from which on rounding keeps every initial position inside the walls. */
  const LOWEST_CREATED := 997 - EXACT

  lemma FloatsPastExact()
    ensures Float(EXACT + 1) == EXACT && Float(EXACT + 2) == EXACT + 2 && Float(EXACT + 3) == EXACT + 4
  {
    assert Ulp(EXACT + 1) == 2 * Ulp((EXACT + 1) / 2) == 2;
    assert Ulp(EXACT + 2) == 2 * Ulp((EXACT + 2) / 2) == 2;
    assert Ulp(EXACT + 3) == 2 * Ulp((EXACT + 3) / 2) == 2;
  }

  /** A new ball is inside its walls exactly when its radius is below 500; its speeds are 2 either way. */
  lemma CreatedSound(id: int, radius: int, owner: int, rand: Draws)
    requires LOWEST_CREATED <= radius != 500
    ensures Sound(Create(id, radius, owner, rand)) <==> radius < 500
    ensures Abs(Create(id, radius, owner, rand).dx) == 2 && Abs(Create(id, radius, owner, rand).dy) == 2
  {
    FloatsPastExact();
    if radius < 500 {
      StoredInside(radius, Rem(rand.x, 1000 - 2 * radius) + radius);
      StoredInside(radius, Rem(rand.y, 1000 - 2 * radius) + radius);
    }
  }

  lemma StoredInside(radius: int, x: int)
    requires LOWEST_CREATED <= radius && Contained(radius, x)
    ensures Contained(radius, Float(x))
  {
    FloatsPastExact();
    assert x <= EXACT + 2;
    if x > EXACT {
      assert x == EXACT + 1 || x == EXACT + 2;
    }
  }

  /** The lower limit is exact: all radii from `lo` to 499 create balls inside their walls, whatever
      is drawn, if and only if `lo` respects it. One step below, the last position rounds onto the wall. */
  lemma CreatedSoundExactly(lo: int)
    requires lo < 500
    ensures (forall id, radius, owner, rand :: lo <= radius < 500 ==> Sound(Create(id, radius, owner, rand)))
            <==> lo >= LOWEST_CREATED
  {
    if lo >= LOWEST_CREATED {
      forall id, radius, owner, rand | lo <= radius < 500
        ensures Sound(Create(id, radius, owner, rand))
      {
        CreatedSound(id, radius, owner, rand);
      }
    } else {
      var radius, rand := LOWEST_CREATED - 1, Draws(2 * EXACT - 993, 0, 0, 0);
      assert Rem(rand.x, 1000 - 2 * radius) + radius == EXACT + 3;
      FloatsPastExact();
      assert Create(0, radius, 0, rand).x == EXACT + 4 == 1000 - radius;
      assert lo <= radius < 500;
      assert !Sound(Create(0, radius, 0, rand));
    }
  }

  /** The command a:1:-20000000 with an unlucky draw: the position 20000999 is stored as 20001000,
      which is the wall. */
  lemma CreatedOnWall(id: int, owner: int, rand: Draws)
    requires rand.x == 40000999
    ensures var b := Create(id, -20000000, owner, rand); b.x == 1000 - b.radius && !Sound(b)
  {
    assert Ulp(20000999) == 2 * Ulp(10000499) == 2;
  }

  /** What the four draws and the arguments fix: identity, radius and owner as given, a place between the
      walls from the first two draws, and a direction from the parity of the others, odd to the right
      and down. */
  lemma CreatedFrom(id: int, radius: int, owner: int, rand: Draws)
    requires 1000 - EXACT <= radius < 500
    ensures var b, room := Create(id, radius, owner, rand), 1000 - 2 * radius;
            && b.id == id && b.radius == radius && b.owner == owner && b.color == ColorByOwner(owner)
            && 0 <= b.x - radius < room && (rand.x - (b.x - radius)) % room == 0
            && 0 <= b.y - radius < room && (rand.y - (b.y - radius)) % room == 0
            && b.dx == (if rand.dx % 2 == 1 then 2 else -2) && b.dy == (if rand.dy % 2 == 1 then 2 else -2)
  {
    var room := 1000 - 2 * radius;
    WholeMultiple(rand.x, room);
    WholeMultiple(rand.y, room);
  }

  lemma WholeMultiple(n: nat, m: nat)
    requires m > 0
    ensures (n - n % m) % m == 0
  {
    assert n - n % m == n / m * m + 0;
    DivModUnique(n - n % m, m, n / m, 0);
  }

  /** Every place between the walls and every pair of directions can be drawn. */
  lemma CreatedAnywhere(id: int, radius: int, owner: int, x: int, y: int, left: bool, up: bool) returns (rand: Draws)
    requires radius >= 1000 - EXACT && Contained(radius, x) && Contained(radius, y)
    ensures var b := Create(id, radius, owner, rand);
            && XAxis(b) == Axis(x, if left then -2 else 2)
            && YAxis(b) == Axis(y, if up then -2 else 2)
  {
    rand := Draws(x - radius, y - radius, if left then 0 else 1, if up then 0 else 1);
    DivModUnique(x - radius, 1000 - 2 * radius, 0, x - radius);
    DivModUnique(y - radius, 1000 - 2 * radius, 0, y - radius);
  }

  /** Red, green, blue, yellow and magenta in turn: which descriptors light which channel. Negative
      descriptors that are no multiple of 5 are grey. */
  lemma Channels(p: int)
    ensures var c := ColorByOwner(p);
            if p < 0 && p % 5 != 0 then c.r == c.g == c.b == 128 else
            && c.r == (if p % 5 in {0, 3, 4} then 255 else 0)
            && c.g == (if p % 5 in {1, 3} then 255 else 0)
            && c.b == (if p % 5 in {2, 4} then 255 else 0)
  {
  }

  /** Two clients share a colour exactly when their descriptors agree modulo 5. */
  lemma ColorsShared(p: nat, q: nat)
    ensures ColorByOwner(p) == ColorByOwner(q) <==> p % 5 == q % 5
  {
  }

  // ---------- Motion ----------

  /** The least radius from which on every step of a sound ball is computed without rounding. */
  const LOWEST_RADIUS := 4999 - EXACT

  /** All values that a tick of the ball computes are at most 2^24 in magnitude. */
  predicate InFloatRange(b: LogicalBall) {
    && Abs(b.x) <= EXACT && Abs(b.x + b.dx) <= EXACT && Abs(b.y) <= EXACT && Abs(b.y + b.dy) <= EXACT
    && Abs(b.radius) <= EXACT && Abs(1000 - b.radius) <= EXACT
  }

  lemma TickExact(b: LogicalBall)
    requires Sound(b) && b.radius >= LOWEST_RADIUS
    ensures InFloatRange(b) && MoveBall(b) == ExactMove(b)
  {
    MoveExact(b.radius, XAxis(b));
    MoveExact(b.radius, YAxis(b));
  }

  /** That limit is exact too. */
  lemma TickExactly(lo: int)
    requires lo < 500
    ensures (forall b :: Sound(b) && b.radius >= lo ==> MoveBall(b) == ExactMove(b)) <==> lo >= LOWEST_RADIUS
  {
    if lo >= LOWEST_RADIUS {
      forall b | Sound(b) && b.radius >= lo
        ensures MoveBall(b) == ExactMove(b)
      {
        TickExact(b);
      }
    } else {
      var b := LogicalBall(0, EXACT - 3999, 0, 4000, 1, LOWEST_RADIUS - 1, 0, ColorByOwner(0));
      FloatsPastExact();
      assert MoveBall(b).x == EXACT - 4000 && ExactMove(b).x == EXACT - 3999;
      assert Sound(b) && b.radius >= lo;
    }
  }

  /** Motion and speed commands never touch identity, radius, owner or colour, and speed commands leave
      the place alone. */
  lemma Kept(b: LogicalBall)
    ensures forall c :: c in {MoveBall(b), SpeedUpBall(b), SpeedDownBall(b)} ==>
              c.id == b.id && c.radius == b.radius && c.owner == b.owner && c.color == b.color
    ensures forall c :: c in {SpeedUpBall(b), SpeedDownBall(b)} ==> c.x == b.x && c.y == b.y
  {
  }

  /** One tick of a sound ball in its own terms: an axis advances by its speed where that lands strictly
      between the walls, and otherwise stays where it is and turns round. */
  lemma TickMeans(b: LogicalBall)
    requires Sound(b) && b.radius >= LOWEST_RADIUS
    ensures var c, r := MoveBall(b), b.radius;
            && (if r < b.x + b.dx < 1000 - r then c.x == b.x + b.dx && c.dx == b.dx else c.x == b.x && c.dx == -b.dx)
            && (if r < b.y + b.dy < 1000 - r then c.y == b.y + b.dy && c.dy == b.dy else c.y == b.y && c.dy == -b.dy)
  {
    TickExact(b);
  }

  lemma ExactMoveSound(b: LogicalBall)
    requires Sound(b)
    ensures Sound(ExactMove(b))
  {
  }

  lemma MovedSound(b: LogicalBall)
    requires Sound(b) && b.radius >= LOWEST_RADIUS
    ensures Sound(MoveBall(b)) && Sound(SpeedUpBall(b)) && Sound(SpeedDownBall(b))
  {
    assert Sound(MoveBall(b)) by {
      TickExact(b);
      ExactMoveSound(b);
    }
    SpeedsBounded(b.dx);
    SpeedsBounded(b.dy);
  }

  function BallTicks(b: LogicalBall, t: nat): LogicalBall
    decreases t
  {
    if t == 0 then b else BallTicks(MoveBall(b), t - 1)
  }

  /** The two axes of a ball move independently. */
  lemma {:induction false} AxesIndependent(b: LogicalBall, t: nat)
    requires Sound(b) && b.radius >= LOWEST_RADIUS
    ensures BallTicks(b, t) == WithAxes(b, Ticks(b.radius, XAxis(b), t), Ticks(b.radius, YAxis(b), t))
    decreases t
  {
    if t > 0 {
      TickExact(b);
      MovedSound(b);
      AxesIndependent(MoveBall(b), t - 1);
    }
  }

  /** A ball strictly inside its walls is back in its initial state exactly at the common multiples
      of the two axis periods. */
  lemma BallPeriod(b: LogicalBall, t: nat)
    requires Sound(b) && b.radius >= LOWEST_RADIUS && Interior(b.radius, b.x) && Interior(b.radius, b.y)
    ensures BallTicks(b, t) == b <==>
            t % (2 * Positions(b.radius, XAxis(b))) == 0 && t % (2 * Positions(b.radius, YAxis(b))) == 0
  {
    AxesIndependent(b, t);
    PeriodExactly(b.radius, XAxis(b), t);
    PeriodExactly(b.radius, YAxis(b), t);
  }
}
