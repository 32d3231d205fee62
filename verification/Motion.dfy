/** Ball motion along one axis, src/server/loaclball.c lines 35-50: add the speed; on reaching a
    wall, reverse the speed and add it again. */
module Motion {
  import opened Arith
  import opened Binary32

  datatype Axis = Axis(pos: int, speed: int)

  predicate Interior(r: int, x: int) {
    r < x < 1000 - r
  }

  function Move(r: int, a: Axis): Axis {
    var x := a.pos + a.speed;
    if x <= r || x >= 1000 - r then Axis(x + -a.speed, -a.speed) else Axis(x, a.speed)
  }

  /** The same rule as the program computes it, every conversion and sum rounded to binary32. */
  function MoveFloat(r: int, a: Axis): Axis {
    var x := Float(a.pos + Float(a.speed));
    if x <= Float(r) || x >= Float(1000 - Float(r)) then Axis(Float(x + Float(-a.speed)), -a.speed)
    else Axis(x, a.speed)
  }

  /** While all values involved are at most 2^24 in magnitude, the rounding changes nothing. */
  lemma MoveExact(r: int, a: Axis)
    requires Abs(a.pos) <= EXACT && Abs(a.speed) <= EXACT && Abs(a.pos + a.speed) <= EXACT
    requires Abs(r) <= EXACT && Abs(1000 - r) <= EXACT
    ensures MoveFloat(r, a) == Move(r, a)
  {
  }

  function Ticks(r: int, a: Axis, t: nat): Axis
    decreases t
  {
    if t == 0 then a else Ticks(r, Move(r, a), t - 1)
  }

  function Flip(a: Axis): Axis { Axis(a.pos, -a.speed) }

  predicate Contained(r: int, x: int) {
    r <= x < 1000 - r
  }

  // ---------- Containment ----------

  /** At any speed a ball inside the walls stays inside, and only a bounce changes the speed,
      namely its sign. */
  lemma {:induction false} StaysContained(r: int, a: Axis, t: nat)
    requires Contained(r, a.pos)
    ensures Contained(r, Ticks(r, a, t).pos)
    ensures Ticks(r, a, t).speed == a.speed || Ticks(r, a, t).speed == -a.speed
    decreases t
  {
    if t > 0 {
      StaysContained(r, Move(r, a), t - 1);
    }
  }

  /** Strictly inside the walls it stays strictly inside. */
  lemma {:induction false} StaysInside(r: int, a: Axis, t: nat)
    requires r < a.pos < 1000 - r
    ensures r < Ticks(r, a, t).pos < 1000 - r
    decreases t
  {
    if t > 0 {
      StaysInside(r, Move(r, a), t - 1);
    }
  }

  // ---------- Reversal ----------

  /** Exactly when one tick can be undone by reversing the speed: from a strictly interior
      position, or when the tick bounces. */
  lemma ReversibleExactly(r: int, a: Axis)
    ensures Flip(Move(r, Flip(Move(r, a)))) == a <==> Interior(r, a.pos) || !Interior(r, a.pos + a.speed)
  {
  }

  lemma {:induction false} TicksSplit(r: int, a: Axis, s: nat, t: nat)
    ensures Ticks(r, a, s + t) == Ticks(r, Ticks(r, a, s), t)
    decreases s
  {
    if s > 0 {
      TicksSplit(r, Move(r, a), s - 1, t);
    }
  }

  /** Reversing the speed after t ticks and running t more retraces the whole path. */
  lemma {:induction false} TimeReversible(r: int, a: Axis, t: nat)
    requires Interior(r, a.pos)
    ensures Flip(Ticks(r, Flip(Ticks(r, a, t)), t)) == a
    decreases t
  {
    if t > 0 {
      var b := Move(r, a);
      TimeReversible(r, b, t - 1);
      var back := Flip(Ticks(r, b, t - 1));
      TicksSplit(r, back, t - 1, 1);
      assert Ticks(r, back, t) == Move(r, Ticks(r, back, t - 1));
      assert Ticks(r, back, t - 1) == Flip(b);
      ReversibleExactly(r, a);
    }
  }

  /** A ball created exactly on the lower wall leaves it within two ticks if one step fits, and
      otherwise trembles in place for ever. */
  lemma EdgeStart(r: int, a: Axis)
    requires a.pos == r && a.speed != 0
    ensures if Interior(r, r + Abs(a.speed)) then Interior(r, Ticks(r, a, 2).pos) else Ticks(r, a, 2) == a
  {
  }

  // ---------- Period ----------

  /** How many whole steps of speed `d` fit between `x` and the wall ahead. */
  function Room(r: int, x: int, d: int): nat
    requires Interior(r, x) && d != 0
  {
    if d > 0 then (999 - r - x) / d else (x - r - 1) / -d
  }

  lemma StepUpInterior(r: int, x: int, d: int, k: int)
    requires Interior(r, x) && d > 0
    ensures Interior(r, x + k * d) <==> 0 <= k + Room(r, x, -d) && k <= Room(r, x, d)
  {
    QuotientBound(999 - r - x, d, k);
    QuotientBound(x - r - 1, d, -k);
    assert -k * d == -(k * d);
  }

  lemma StepInterior(r: int, x: int, d: int, k: int)
    requires Interior(r, x) && d != 0
    ensures Interior(r, x + k * d) <==> 0 <= k + Room(r, x, -d) && k <= Room(r, x, d)
  {
    if d > 0 {
      StepUpInterior(r, x, d, k);
    } else {
      StepUpInterior(r, x, -d, -k);
      assert -k * -d == k * d;
    }
  }

  lemma QuotientBound(m: nat, d: nat, k: int)
    requires d > 0
    ensures k * d <= m <==> k <= m / d
  {
    var q := m / d;
    assert m == q * d + m % d;
    if k <= q {
      assert (q - k) * d >= 0;
    } else {
      assert (k - q - 1) * d >= 0;
      assert k * d == (k - q - 1) * d + q * d + d;
    }
  }

  /** The number of positions x + k*d strictly between the walls. */
  function Positions(r: int, a: Axis): nat
    requires Interior(r, a.pos) && a.speed != 0
  {
    Room(r, a.pos, -a.speed) + Room(r, a.pos, a.speed) + 1
  }

  function Range(lo: int, hi: int): (s: set<int>)
    requires lo <= hi + 1
    ensures |s| == hi - lo + 1 && forall k :: k in s <==> lo <= k <= hi
    decreases hi - lo
  {
    if lo > hi then {} else {lo} + Range(lo + 1, hi)
  }

  /** `Positions` counts the interior positions of the orbit's lattice. */
  lemma PositionsCount(r: int, a: Axis, ks: set<int>)
    requires Interior(r, a.pos) && a.speed != 0
    requires forall k :: k in ks <==> Interior(r, a.pos + k * a.speed)
    ensures |ks| == Positions(r, a)
  {
    var lo, hi := 0 - Room(r, a.pos, -a.speed), Room(r, a.pos, a.speed);
    forall k
      ensures k in ks <==> lo <= k <= hi
    {
      StepInterior(r, a.pos, a.speed, k);
    }
    assert ks == Range(lo, hi);
  }

  /** The triangle wave of period 2n through the n positions base, base+d, .., base+(n-1)d. */
  function Wave(base: int, d: int, n: nat, phase: int): Axis {
    if phase < n then Axis(base + phase * d, d) else Axis(base + (2 * n - 1 - phase) * d, -d)
  }

  lemma WaveRises(r: int, x: int, d: int, p: int, n: nat, phase: nat)
    requires phase < n && (Interior(r, x + (phase + 1 - p) * d) <==> phase + 1 < n)
    ensures Move(r, Wave(x - p * d, d, n, phase)) == Wave(x - p * d, d, n, phase + 1)
  {
  }

  lemma WaveFalls(r: int, x: int, d: int, p: int, n: nat, phase: nat)
    requires n <= phase < 2 * n && (Interior(r, x + (2 * n - 2 - phase - p) * d) <==> phase + 1 < 2 * n)
    ensures Move(r, Wave(x - p * d, d, n, phase)) == Wave(x - p * d, d, n, if phase + 1 == 2 * n then 0 else phase + 1)
  {
  }

  lemma WaveStep(r: int, a: Axis, phase: nat)
    requires Interior(r, a.pos) && a.speed != 0 && phase < 2 * Positions(r, a)
    ensures var n, base := Positions(r, a), a.pos - Room(r, a.pos, -a.speed) * a.speed;
            Move(r, Wave(base, a.speed, n, phase)) ==
            Wave(base, a.speed, n, if phase + 1 == 2 * n then 0 else phase + 1)
  {
    var n, d, p := Positions(r, a), a.speed, Room(r, a.pos, -a.speed);
    if phase < n {
      StepInterior(r, a.pos, d, phase + 1 - p);
      WaveRises(r, a.pos, d, p, n, phase);
    } else {
      StepInterior(r, a.pos, d, 2 * n - 2 - phase - p);
      WaveFalls(r, a.pos, d, p, n, phase);
    }
  }

  /** Closed form of the motion: after t ticks the ball is at phase p + t of the triangle wave,
      where p is the number of positions behind the start. */
  lemma {:induction false} TriangleWave(r: int, a: Axis, t: nat)
    requires Interior(r, a.pos) && a.speed != 0
    ensures var n, p := Positions(r, a), Room(r, a.pos, -a.speed);
            Ticks(r, a, t) == Wave(a.pos - p * a.speed, a.speed, n, (p + t) % (2 * n))
  {
    var n, p := Positions(r, a), Room(r, a.pos, -a.speed);
    if t == 0 {
      DivModUnique(p, 2 * n, 0, p);
    } else {
      TriangleWave(r, a, t - 1);
      TicksSplit(r, a, t - 1, 1);
      assert Ticks(r, a, t) == Move(r, Ticks(r, a, t - 1));
      var phase := (p + t - 1) % (2 * n);
      WaveStep(r, a, phase);
      NextRemainder(p + t - 1, 2 * n);
    }
  }

  /** The wave takes 2n distinct states, so the motion returns to its start exactly at the
      multiples of 2n ticks: the period is 2n and no less. */
  lemma PeriodExactly(r: int, a: Axis, t: nat)
    requires Interior(r, a.pos) && a.speed != 0
    ensures Ticks(r, a, t) == a <==> t % (2 * Positions(r, a)) == 0
  {
    var n, p, d := Positions(r, a), Room(r, a.pos, -a.speed), a.speed;
    TriangleWave(r, a, t);
    var phase := (p + t) % (2 * n);
    if phase < n {
      MulInjective(phase, p, d);
    }
    SameRemainder(p, t, 2 * n);
  }
}
