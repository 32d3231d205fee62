/** Whole runs of the server: ticks, client commands, connections and disconnections, in any order
    (src/server/server.c, src/server/main.c, src/server/localballmanager.c lines 199-239). */
module Game {
  import opened Arith
  import opened Ball
  import opened Owners
  import opened Speed

  const START_BALL_COUNT := 5
  const START_BALL_RADIUS := 20

  /** What changes the ball list. `rand` supplies the draws for the balls an event creates. */
  datatype Event =
    | Tick
    | Command(owner: int, op: char, count: int, radius: int, rand: nat -> Draws)
    | Connect(owner: int, rand: nat -> Draws)
    | Disconnect(owner: int)

  /** At radius 500 create_logical_ball divides by zero, so C gives the event no meaning. */
  predicate Defined(ev: Event) {
    ev.Command? && ev.op == 'a' ==> ev.radius != 500
  }

  function AtLeastOne(count: int): int {
    if count <= 0 then 1 else count
  }

  /** dispatch_command and its handlers; an unknown operation does nothing. */
  function Dispatch(s: Balls, op: char, count: int, radius: int, owner: int, rand: nat -> Draws): Balls
    requires op == 'a' ==> radius != 500
  {
    if op == 'a' then AddBalls(s, AtLeastOne(count), radius, owner, rand)
    else if op == 'd' then RemoveLast(s, owner, AtLeastOne(count))
    else if op == 'w' then SpeedUpAll(s, owner)
    else if op == 's' then SpeedDownAll(s, owner)
    else s
  }

  function Step(s: Balls, ev: Event): Balls
    requires Defined(ev)
  {
    match ev
    case Tick => MoveAll(s)
    case Command(owner, op, count, radius, rand) =>
      if op == 'x' then Without(s, owner) else Dispatch(s, op, count, radius, owner, rand)
    case Connect(owner, rand) => AddBalls(s, START_BALL_COUNT, START_BALL_RADIUS, owner, rand)
    case Disconnect(owner) => Without(s, owner)
  }

  predicate AllDefined(evs: seq<Event>) {
    forall i :: 0 <= i < |evs| ==> Defined(evs[i])
  }

  function Run(s: Balls, evs: seq<Event>): Balls
    requires AllDefined(evs)
    decreases |evs|
  {
    if evs == [] then s else Run(Step(s, evs[0]), evs[1..])
  }

  // ---------- Owners do not interfere ----------

  predicate Concerns(ev: Event, p: int) {
    ev.Tick? || ev.owner == p
  }

  function EventsOf(evs: seq<Event>, p: int): (r: seq<Event>)
    ensures AllDefined(evs) ==> AllDefined(r)
  {
    if evs == [] then [] else if Concerns(evs[0], p) then [evs[0]] + EventsOf(evs[1..], p) else EventsOf(evs[1..], p)
  }

  /** The balls with their ids forgotten; ids come from the shared total_count. */
  function Anonymous(s: Balls): (r: Balls)
    ensures |r| == |s|
  {
    seq(|s|, i requires 0 <= i < |s| => s[i].(id := 0))
  }

  lemma AnonymousAppend(s: Balls, b: LogicalBall)
    ensures Anonymous(s + [b]) == Anonymous(s) + [b.(id := 0)]
  {
  }

  lemma {:induction false} AnonymousOwned(s: Balls, p: int)
    ensures Owned(Anonymous(s), p) == Anonymous(Owned(s, p)) && Without(Anonymous(s), p) == Anonymous(Without(s, p))
  {
    if s != [] {
      var n := |s| - 1;
      AnonymousOwned(s[..n], p);
      assert s == s[..n] + [s[n]];
      AnonymousAppend(s[..n], s[n]);
      OnAppend(Anonymous(s[..n]), s[n].(id := 0), p);
      AnonymousAppend(Owned(s[..n], p), s[n]);
      AnonymousAppend(Without(s[..n], p), s[n]);
    }
  }

  lemma {:induction false} AnonymousRemoveLast(s: Balls, p: int, k: nat)
    ensures RemoveLast(Anonymous(s), p, k) == Anonymous(RemoveLast(s, p, k))
  {
    if s != [] && k > 0 {
      var n := |s| - 1;
      assert Anonymous(s)[..n] == Anonymous(s[..n]);
      if s[n].owner == p {
        AnonymousRemoveLast(s[..n], p, k - 1);
      } else {
        AnonymousRemoveLast(s[..n], p, k);
        AnonymousAppend(RemoveLast(s[..n], p, k), s[n]);
      }
    }
  }

  lemma {:induction false} AnonymousAdd(s: Balls, t: Balls, count: int, radius: int, owner: int, rand: nat -> Draws)
    requires radius != 500 && Anonymous(s) == Anonymous(t)
    ensures Anonymous(AddBalls(s, count, radius, owner, rand)) == Anonymous(AddBalls(t, count, radius, owner, rand))
    decreases count
  {
    if count > 0 {
      AnonymousAdd(s, t, count - 1, radius, owner, rand);
      var u, v := AddBalls(s, count - 1, radius, owner, rand), AddBalls(t, count - 1, radius, owner, rand);
      AnonymousAppend(u, Create(|u|, radius, owner, rand(count - 1)));
      AnonymousAppend(v, Create(|v|, radius, owner, rand(count - 1)));
    }
  }

  /** No step looks at the ids. */
  lemma AnonymousMap(s: Balls, t: Balls, p: int)
    requires Anonymous(s) == Anonymous(t)
    ensures Anonymous(MoveAll(s)) == Anonymous(MoveAll(t))
    ensures Anonymous(SpeedUpAll(s, p)) == Anonymous(SpeedUpAll(t, p))
    ensures Anonymous(SpeedDownAll(s, p)) == Anonymous(SpeedDownAll(t, p))
  {
    forall i | 0 <= i < |s|
      ensures s[i].(id := 0) == t[i].(id := 0)
    {
      assert Anonymous(s)[i] == Anonymous(t)[i];
    }
  }

  lemma AnonymousStep(s: Balls, t: Balls, ev: Event)
    requires Defined(ev) && Anonymous(s) == Anonymous(t)
    ensures Anonymous(Step(s, ev)) == Anonymous(Step(t, ev))
  {
    var p := if ev.Tick? then 0 else ev.owner;
    AnonymousMap(s, t, p);
    AnonymousOwned(s, p);
    AnonymousOwned(t, p);
    if ev.Connect? {
      AnonymousAdd(s, t, START_BALL_COUNT, START_BALL_RADIUS, p, ev.rand);
    }
    if ev.Command? {
      AnonymousRemoveLast(s, p, AtLeastOne(ev.count));
      AnonymousRemoveLast(t, p, AtLeastOne(ev.count));
      if ev.op == 'a' {
        AnonymousAdd(s, t, AtLeastOne(ev.count), ev.radius, p, ev.rand);
      }
    }
  }

  lemma {:induction false} OwnedMap(s: Balls, p: int, q: int)
    ensures Owned(MoveAll(s), p) == MoveAll(Owned(s, p))
    ensures Owned(SpeedUpAll(s, q), p) == if p == q then SpeedUpAll(Owned(s, p), p) else Owned(s, p)
    ensures Owned(SpeedDownAll(s, q), p) == if p == q then SpeedDownAll(Owned(s, p), p) else Owned(s, p)
  {
    if s != [] {
      var n := |s| - 1;
      OwnedMap(s[..n], p, q);
      assert MoveAll(s)[..n] == MoveAll(s[..n]);
      assert SpeedUpAll(s, q)[..n] == SpeedUpAll(s[..n], q);
      assert SpeedDownAll(s, q)[..n] == SpeedDownAll(s[..n], q);
    }
  }

  /** Extracting an owner's balls twice changes nothing, and nobody else's are among them. */
  lemma {:induction false} OwnedTwice(s: Balls, p: int)
    ensures Owned(Owned(s, p), p) == Owned(s, p) && Without(Owned(s, p), p) == [] && Owned(Without(s, p), p) == []
  {
    if s != [] {
      var n := |s| - 1;
      OwnedTwice(s[..n], p);
      OnAppend(Owned(s[..n], p), s[n], p);
      OnAppend(Without(s[..n], p), s[n], p);
    }
  }

  lemma {:induction false} OwnedWithout(s: Balls, p: int, q: int)
    requires p != q
    ensures Owned(Without(s, q), p) == Owned(s, p)
  {
    if s != [] {
      var n := |s| - 1;
      OwnedWithout(s[..n], p, q);
      OnAppend(Without(s[..n], q), s[n], p);
    }
  }

  lemma {:induction false} OwnedAddOther(s: Balls, p: int, q: int, count: int, radius: int, rand: nat -> Draws)
    requires radius != 500 && p != q
    ensures Owned(AddBalls(s, count, radius, q, rand), p) == Owned(s, p)
    decreases count
  {
    if count > 0 {
      OwnedAddOther(s, p, q, count - 1, radius, rand);
      var v := AddBalls(s, count - 1, radius, q, rand);
      OnAppend(v, Create(|v|, radius, q, rand(count - 1)), p);
    }
  }

  lemma CreatedAlike(i: int, j: int, radius: int, owner: int, draws: Draws)
    requires radius != 500
    ensures var b, c := Create(i, radius, owner, draws), Create(j, radius, owner, draws);
            b.(id := 0) == c.(id := 0) && b.owner == c.owner == owner
  {
  }

  lemma BothGrow(u: Balls, w: Balls, b: LogicalBall, c: LogicalBall, p: int)
    requires Anonymous(Owned(u, p)) == Anonymous(w) && b.owner == p && b.(id := 0) == c.(id := 0)
    ensures Anonymous(Owned(u + [b], p)) == Anonymous(w + [c])
  {
    OnAppend(u, b, p);
    AnonymousAppend(Owned(u, p), b);
    AnonymousAppend(w, c);
  }

  lemma {:induction false} OwnedAddOwn(s: Balls, p: int, count: int, radius: int, rand: nat -> Draws)
    requires radius != 500
    ensures Anonymous(Owned(AddBalls(s, count, radius, p, rand), p)) ==
            Anonymous(AddBalls(Owned(s, p), count, radius, p, rand))
    decreases count
  {
    if count > 0 {
      OwnedAddOwn(s, p, count - 1, radius, rand);
      var u, w := AddBalls(s, count - 1, radius, p, rand), AddBalls(Owned(s, p), count - 1, radius, p, rand);
      var draws := rand(count - 1);
      CreatedAlike(|u|, |w|, radius, p, draws);
      BothGrow(u, w, Create(|u|, radius, p, draws), Create(|w|, radius, p, draws), p);
    }
  }

  /** Among one owner's balls, removing the last k is taking a prefix. */
  lemma {:induction false} RemoveLastPrefix(t: Balls, p: int, k: nat)
    requires Owned(t, p) == t
    ensures RemoveLast(t, p, k) == t[..|t| - Min(k, |t|)]
  {
    if t != [] && k > 0 {
      var n := |t| - 1;
      OwnedShort(t[..n], p);
      assert t[n].owner == p;
      RemoveLastPrefix(t[..n], p, k - 1);
    }
  }

  lemma {:induction false} OwnedShort(s: Balls, p: int)
    ensures |Owned(s, p)| <= |s|
  {
    if s != [] {
      OwnedShort(s[..|s| - 1], p);
    }
  }

  /** Another client's command leaves p's balls alone. */
  lemma OtherStep(s: Balls, ev: Event, p: int)
    requires Defined(ev) && !Concerns(ev, p)
    ensures Owned(Step(s, ev), p) == Owned(s, p)
  {
    if ev.Connect? {
      OwnedAddOther(s, p, ev.owner, START_BALL_COUNT, START_BALL_RADIUS, ev.rand);
    } else if ev.Disconnect? || ev.op == 'x' {
      OwnedWithout(s, p, ev.owner);
    } else if ev.op == 'a' {
      OwnedAddOther(s, p, ev.owner, AtLeastOne(ev.count), ev.radius, ev.rand);
    } else if ev.op == 'd' {
      RemoveLastOthers(s, ev.owner, AtLeastOne(ev.count), p);
    } else {
      OwnedMap(s, p, ev.owner);
    }
  }

  /** A tick or a command of p acts on p's balls as if they were alone. */
  lemma OwnStep(s: Balls, ev: Event, p: int)
    requires Defined(ev) && Concerns(ev, p)
    ensures Anonymous(Owned(Step(s, ev), p)) == Anonymous(Step(Owned(s, p), ev))
  {
    if ev.Connect? {
      OwnedAddOwn(s, p, START_BALL_COUNT, START_BALL_RADIUS, ev.rand);
    } else if ev.Disconnect? || (ev.Command? && ev.op == 'x') {
      OwnedTwice(s, p);
    } else if ev.Command? && ev.op == 'a' {
      OwnedAddOwn(s, p, AtLeastOne(ev.count), ev.radius, ev.rand);
    } else if ev.Command? && ev.op == 'd' {
      OwnedTwice(s, p);
      RemoveLastOwned(s, p, AtLeastOne(ev.count));
      RemoveLastPrefix(Owned(s, p), p, AtLeastOne(ev.count));
    } else {
      OwnedMap(s, p, p);
    }
  }

  lemma {:induction false} IndependentFrom(s: Balls, t: Balls, evs: seq<Event>, p: int)
    requires AllDefined(evs) && Anonymous(Owned(s, p)) == Anonymous(t)
    ensures Anonymous(Owned(Run(s, evs), p)) == Anonymous(Run(t, EventsOf(evs, p)))
    decreases |evs|
  {
    if evs != [] {
      var ev := evs[0];
      if Concerns(ev, p) {
        OwnStep(s, ev, p);
        AnonymousStep(Owned(s, p), t, ev);
        IndependentFrom(Step(s, ev), Step(t, ev), evs[1..], p);
        assert EventsOf(evs, p)[1..] == EventsOf(evs[1..], p);
      } else {
        OtherStep(s, ev, p);
        IndependentFrom(Step(s, ev), t, evs[1..], p);
      }
    }
  }

  /** Whatever the other clients do, and however their commands interleave, owner p's balls are
      those of a server that received only p's events and the ticks. */
  lemma OwnersIndependent(s: Balls, evs: seq<Event>, p: int)
    requires AllDefined(evs)
    ensures Anonymous(Owned(Run(s, evs), p)) == Anonymous(Run(Owned(s, p), EventsOf(evs, p)))
  {
    IndependentFrom(s, Owned(s, p), evs, p);
  }

  // ---------- Arrivals and departures ----------

  /** A client that connects gets five more balls of radius 20 behind all others, and nobody loses any. */
  lemma Arrives(s: Balls, p: int, rand: nat -> Draws)
    ensures var t := Step(s, Connect(p, rand));
            && |t| == |s| + 5 && t[..|s|] == s
            && forall i :: 0 <= i < 5 ==> t[|s| + i] == Create(|s| + i, 20, p, rand(i))
  {
    AddedBalls(s, START_BALL_COUNT, START_BALL_RADIUS, p, rand);
  }

  /** A client that leaves takes all its balls with it and nobody else's. */
  lemma Departs(s: Balls, p: int)
    ensures var t := Step(s, Disconnect(p));
            && Owned(t, p) == [] && |t| == |s| - |Owned(s, p)|
            && (forall b :: b in t <==> b in s && b.owner != p)
            && (forall q :: q != p ==> Owned(t, q) == Owned(s, q))
  {
    OwnedTwice(s, p);
    OwnedAndWithout(s, p);
    WithoutMembers(s, p);
    forall q | q != p
      ensures Owned(Without(s, p), q) == Owned(s, q)
    {
      OwnedWithout(s, q, p);
    }
  }

  lemma {:induction false} StaysGone(s: Balls, evs: seq<Event>, p: int)
    requires AllDefined(evs) && Owned(s, p) == []
    requires forall i :: 0 <= i < |evs| ==> evs[i].Tick? || evs[i].owner != p
    ensures Owned(Run(s, evs), p) == []
    decreases |evs|
  {
    if evs != [] {
      if evs[0].Tick? {
        OwnedMap(s, p, p);
      } else {
        OtherStep(s, evs[0], p);
      }
      StaysGone(Step(s, evs[0]), evs[1..], p);
    }
  }

  /** Once a client has left and sends nothing more, it owns no ball at any later moment. */
  lemma GoneForGood(s: Balls, evs: seq<Event>, later: seq<Event>, p: int)
    requires AllDefined(evs) && AllDefined(later)
    requires forall i :: 0 <= i < |later| ==> later[i].Tick? || later[i].owner != p
    ensures AllDefined(evs + [Disconnect(p)] + later)
    ensures Owned(Run(s, evs + [Disconnect(p)] + later), p) == []
  {
    RunAppend(s, evs, Disconnect(p));
    RunConcat(s, evs + [Disconnect(p)], later);
    Departs(Run(s, evs), p);
    StaysGone(Run(s, evs + [Disconnect(p)]), later, p);
  }

  lemma {:induction false} RunConcat(s: Balls, evs: seq<Event>, later: seq<Event>)
    requires AllDefined(evs) && AllDefined(later)
    ensures AllDefined(evs + later) && Run(s, evs + later) == Run(Run(s, evs), later)
    decreases |evs|
  {
    assert AllDefined(evs + later);
    if evs == [] {
      assert evs + later == later;
    } else {
      assert (evs + later)[0] == evs[0] && (evs + later)[1..] == evs[1..] + later;
      RunConcat(Step(s, evs[0]), evs[1..], later);
    }
  }

  // ---------- Invariants of runs ----------

  /** A property of single balls that no motion and no speed command destroys. */
  ghost predicate Stable(P: LogicalBall -> bool) {
    forall b :: P(b) ==> P(MoveBall(b)) && P(SpeedUpBall(b)) && P(SpeedDownBall(b))
  }

  /** Every ball an event can create has the property. */
  ghost predicate Creates(P: LogicalBall -> bool, ev: Event) {
    Defined(ev) && forall id: nat, draws ::
      && (ev.Connect? ==> P(Create(id, START_BALL_RADIUS, ev.owner, draws)))
      && (ev.Command? && ev.op == 'a' ==> P(Create(id, ev.radius, ev.owner, draws)))
  }

  ghost predicate AllCreate(P: LogicalBall -> bool, evs: seq<Event>) {
    AllDefined(evs) && forall i :: 0 <= i < |evs| ==> Creates(P, evs[i])
  }

  ghost predicate Every(P: LogicalBall -> bool, s: Balls) {
    forall i :: 0 <= i < |s| ==> P(s[i])
  }

  lemma {:induction false} RemovedEvery(P: LogicalBall -> bool, s: Balls, p: int, k: nat)
    requires Every(P, s)
    ensures Every(P, RemoveLast(s, p, k)) && Every(P, Without(s, p))
  {
    if s != [] {
      var n := |s| - 1;
      RemovedEvery(P, s[..n], p, if k > 0 && s[n].owner == p then k - 1 else k);
    }
  }

  lemma {:induction false} AddedEvery(P: LogicalBall -> bool, s: Balls, count: int, radius: int, owner: int,
                                      rand: nat -> Draws)
    requires radius != 500 && Every(P, s) && forall id: nat, draws :: P(Create(id, radius, owner, draws))
    ensures Every(P, AddBalls(s, count, radius, owner, rand))
    decreases count
  {
    if count > 0 {
      AddedEvery(P, s, count - 1, radius, owner, rand);
    }
  }

  lemma StepEvery(P: LogicalBall -> bool, s: Balls, ev: Event)
    requires Stable(P) && Creates(P, ev) && Every(P, s)
    ensures Every(P, Step(s, ev))
  {
    if ev.Connect? {
      AddedEvery(P, s, START_BALL_COUNT, START_BALL_RADIUS, ev.owner, ev.rand);
    } else if ev.Command? && ev.op == 'a' {
      AddedEvery(P, s, AtLeastOne(ev.count), ev.radius, ev.owner, ev.rand);
    } else if ev.Command? {
      RemovedEvery(P, s, ev.owner, AtLeastOne(ev.count));
    } else if ev.Disconnect? {
      RemovedEvery(P, s, ev.owner, 0);
    }
  }

  /** A stable property of all initial and all created balls holds of all balls, at every moment. */
  lemma {:induction false} RunEvery(P: LogicalBall -> bool, s: Balls, evs: seq<Event>)
    requires Stable(P) && AllCreate(P, evs) && Every(P, s)
    ensures Every(P, Run(s, evs))
    decreases |evs|
  {
    if evs != [] {
      StepEvery(P, s, evs[0]);
      RunEvery(P, Step(s, evs[0]), evs[1..]);
    }
  }

  /** All added balls have radii in lo..499. */
  predicate RadiiIn(evs: seq<Event>, lo: int) {
    forall i :: 0 <= i < |evs| && evs[i].Command? && evs[i].op == 'a' ==> lo <= evs[i].radius < 500
  }

  /** At every moment of every run each ball is between its walls, moves at a speed between 1 and
      4000 on both axes, and has its owner's colour and a radius in range. */
  lemma RunSound(evs: seq<Event>, lo: int)
    requires RadiiIn(evs, lo) && LOWEST_RADIUS <= lo <= START_BALL_RADIUS
    ensures AllDefined(evs) && forall b :: b in Run([], evs) ==> Sound(b) && b.radius >= lo
  {
    var P := (b: LogicalBall) => Sound(b) && b.radius >= lo;
    forall b | P(b)
      ensures P(MoveBall(b)) && P(SpeedUpBall(b)) && P(SpeedDownBall(b))
    {
      MovedSound(b);
    }
    forall i | 0 <= i < |evs|
      ensures Creates(P, evs[i])
    {
      forall id: nat, draws
        ensures evs[i].Connect? ==> P(Create(id, START_BALL_RADIUS, evs[i].owner, draws))
        ensures evs[i].Command? && evs[i].op == 'a' ==> P(Create(id, evs[i].radius, evs[i].owner, draws))
      {
        if evs[i].Connect? {
          CreatedSound(id, START_BALL_RADIUS, evs[i].owner, draws);
        } else if evs[i].Command? && evs[i].op == 'a' {
          CreatedSound(id, evs[i].radius, evs[i].owner, draws);
        }
      }
    }
    RunEvery(P, [], evs);
  }

  /** The same in numbers. */
  lemma RunMeans(evs: seq<Event>, lo: int, b: LogicalBall)
    requires RadiiIn(evs, lo) && LOWEST_RADIUS <= lo <= 20 && b in Run([], evs)
    ensures b.radius <= b.x < 1000 - b.radius && b.radius <= b.y < 1000 - b.radius && lo <= b.radius < 500
    ensures 1 <= Abs(b.dx) <= 4000 && 1 <= Abs(b.dy) <= 4000
  {
    RunSound(evs, lo);
  }

  /** No value that a run computes for a coordinate exceeds 2^24, so binary32 is exact throughout: the
      next tick of every ball is the tick without rounding. */
  lemma RunExact(evs: seq<Event>)
    requires RadiiIn(evs, LOWEST_RADIUS)
    ensures AllDefined(evs) && forall b :: b in Run([], evs) ==> InFloatRange(b) && MoveBall(b) == ExactMove(b)
  {
    RunSound(evs, LOWEST_RADIUS);
    forall b | b in Run([], evs)
      ensures InFloatRange(b) && MoveBall(b) == ExactMove(b)
    {
      TickExact(b);
    }
  }

  predicate AddsBelow500(evs: seq<Event>) {
    forall i :: 0 <= i < |evs| && evs[i].Command? && evs[i].op == 'a' ==> evs[i].radius < 500
  }

  /** All balls are sound at every moment of a run exactly when no client ever adds a radius of 500 or
      more. */
  lemma RunSoundExactly(evs: seq<Event>)
    requires AllDefined(evs)
    requires forall i :: 0 <= i < |evs| && evs[i].Command? && evs[i].op == 'a' ==> evs[i].radius >= LOWEST_RADIUS
    ensures (forall k, b :: 0 <= k <= |evs| && b in Run([], evs[..k]) ==> Sound(b)) <==> AddsBelow500(evs)
  {
    if AddsBelow500(evs) {
      forall k, b | 0 <= k <= |evs| && b in Run([], evs[..k])
        ensures Sound(b)
      {
        RunSound(evs[..k], LOWEST_RADIUS);
      }
    } else {
      var i :| 0 <= i < |evs| && evs[i].Command? && evs[i].op == 'a' && evs[i].radius >= 500;
      var b := UnsoundAdd(evs, i);
      assert b in Run([], evs[..i + 1]);
    }
  }

  lemma UnsoundAdd(evs: seq<Event>, i: nat) returns (b: LogicalBall)
    requires AllDefined(evs) && i < |evs| && evs[i].Command? && evs[i].op == 'a' && evs[i].radius >= 500
    ensures b in Run([], evs[..i + 1]) && !Sound(b)
  {
    var ev, s := evs[i], Run([], evs[..i]);
    assert evs[..i + 1] == evs[..i] + [ev];
    RunAppend([], evs[..i], ev);
    var n := AtLeastOne(ev.count);
    var u := AddBalls(s, n - 1, ev.radius, ev.owner, ev.rand);
    b := Create(|u|, ev.radius, ev.owner, ev.rand(n - 1));
    assert AddBalls(s, n, ev.radius, ev.owner, ev.rand) == u + [b];
    CreatedSound(|u|, ev.radius, ev.owner, ev.rand(n - 1));
  }

  /** Balls belong to the clients that sent the events. */
  lemma RunOwners(evs: seq<Event>, lo: int)
    requires AllDefined(evs) && forall i :: 0 <= i < |evs| && !evs[i].Tick? ==> evs[i].owner >= lo
    ensures forall b :: b in Run([], evs) ==> b.owner >= lo
  {
    RunEvery((b: LogicalBall) => b.owner >= lo, [], evs);
  }

  /** The largest value total_count ever has. */
  function Peak(s: Balls, evs: seq<Event>): nat
    requires AllDefined(evs)
    decreases |evs|
  {
    if evs == [] then |s| else Max(|s|, Peak(Step(s, evs[0]), evs[1..]))
  }

  lemma {:induction false} RemoveLastSubset(s: Balls, p: int, k: nat)
    ensures forall b :: b in RemoveLast(s, p, k) ==> b in s
    ensures forall b :: b in Without(s, p) ==> b in s
  {
    if s != [] {
      var n := |s| - 1;
      RemoveLastSubset(s[..n], p, if k > 0 && s[n].owner == p then k - 1 else k);
      assert s == s[..n] + [s[n]];
    }
  }

  predicate IdsBelow(s: Balls, n: nat) {
    forall b :: b in s ==> 0 <= b.id < n
  }

  lemma {:induction false} AddedIds(s: Balls, count: int, radius: int, owner: int, rand: nat -> Draws, n: nat)
    requires radius != 500 && IdsBelow(s, n) && |AddBalls(s, count, radius, owner, rand)| <= n
    ensures IdsBelow(AddBalls(s, count, radius, owner, rand), n)
    decreases count
  {
    if count > 0 {
      AddedIds(s, count - 1, radius, owner, rand, n);
    }
  }

  lemma MappedIds(s: Balls, p: int, n: nat)
    requires IdsBelow(s, n)
    ensures IdsBelow(MoveAll(s), n) && IdsBelow(SpeedUpAll(s, p), n) && IdsBelow(SpeedDownAll(s, p), n)
  {
  }

  lemma StepIds(s: Balls, ev: Event, n: nat)
    requires Defined(ev) && IdsBelow(s, n) && |Step(s, ev)| <= n
    ensures IdsBelow(Step(s, ev), n)
  {
    var p := if ev.Tick? then 0 else ev.owner;
    MappedIds(s, p, n);
    RemoveLastSubset(s, p, 0);
    if ev.Connect? {
      AddedIds(s, START_BALL_COUNT, START_BALL_RADIUS, p, ev.rand, n);
    }
    if ev.Command? {
      RemoveLastSubset(s, p, AtLeastOne(ev.count));
      if ev.op == 'a' {
        AddedIds(s, AtLeastOne(ev.count), ev.radius, p, ev.rand, n);
      }
    }
  }

  /** Ids may repeat, but stay below the largest length the list ever had. */
  lemma {:induction false} RunIds(s: Balls, evs: seq<Event>, n: nat)
    requires AllDefined(evs) && IdsBelow(s, n) && Peak(s, evs) <= n
    ensures IdsBelow(Run(s, evs), n) && |Run(s, evs)| <= n
    decreases |evs|
  {
    if evs != [] {
      var t := Step(s, evs[0]);
      assert |t| <= Peak(t, evs[1..]);
      StepIds(s, evs[0], n);
      RunIds(t, evs[1..], n);
    }
  }

  // ---------- Speeding up and down again ----------

  function Repeat(ev: Event, k: nat): (r: seq<Event>)
    ensures |r| == k && forall i :: 0 <= i < k ==> r[i] == ev
  {
    if k == 0 then [] else Repeat(ev, k - 1) + [ev]
  }

  lemma {:induction false} RunAppend(s: Balls, evs: seq<Event>, ev: Event)
    requires AllDefined(evs) && Defined(ev)
    ensures AllDefined(evs + [ev]) && Run(s, evs + [ev]) == Step(Run(s, evs), ev)
    decreases |evs|
  {
    if evs == [] {
      assert [ev][1..] == [];
      assert evs + [ev] == [ev];
      assert Run(Step(s, ev), []) == Step(s, ev);
    } else {
      RunAppend(Step(s, evs[0]), evs[1..], ev);
      assert (evs + [ev])[1..] == evs[1..] + [ev];
      assert AllDefined(evs + [ev]);
    }
  }

  predicate SpeedEvent(ev: Event, p: int, op: char) {
    ev.Command? && ev.owner == p && ev.op == op
  }

  lemma {:induction false} RunSpeedUps(s: Balls, ev: Event, p: int, k: nat)
    requires SpeedEvent(ev, p, 'w')
    ensures var t := Run(s, Repeat(ev, k));
            |t| == |s| && forall i :: 0 <= i < |s| ==>
              t[i] == if s[i].owner == p then s[i].(dx := Ups(s[i].dx, k), dy := Ups(s[i].dy, k)) else s[i]
  {
    if k > 0 {
      RunSpeedUps(s, ev, p, k - 1);
      RunAppend(s, Repeat(ev, k - 1), ev);
    }
  }

  lemma {:induction false} RunSpeedDowns(s: Balls, ev: Event, p: int, k: nat)
    requires SpeedEvent(ev, p, 's')
    ensures var t := Run(s, Repeat(ev, k));
            |t| == |s| && forall i :: 0 <= i < |s| ==>
              t[i] == if s[i].owner == p then s[i].(dx := Downs(s[i].dx, k), dy := Downs(s[i].dy, k)) else s[i]
  {
    if k > 0 {
      RunSpeedDowns(s, ev, p, k - 1);
      RunAppend(s, Repeat(ev, k - 1), ev);
    }
  }

  /** k speed-ups and then k speed-downs of one owner restore the whole list exactly when every speed
      component of that owner is restorable; the other owners' balls never change. */
  lemma UpsThenDowns(s: Balls, up: Event, down: Event, p: int, k: nat)
    requires SpeedEvent(up, p, 'w') && SpeedEvent(down, p, 's')
    ensures var t := Run(Run(s, Repeat(up, k)), Repeat(down, k));
            && (t == s <==> forall b :: b in s && b.owner == p ==> Restorable(b.dx, k) && Restorable(b.dy, k))
            && |t| == |s| && (forall i :: 0 <= i < |s| && s[i].owner != p ==> t[i] == s[i])
  {
    var m := Run(s, Repeat(up, k));
    var t := Run(m, Repeat(down, k));
    RunSpeedUps(s, up, p, k);
    RunSpeedDowns(m, down, p, k);
    forall i | 0 <= i < |s| && s[i].owner == p
      ensures t[i] == s[i] <==> Restorable(s[i].dx, k) && Restorable(s[i].dy, k)
    {
      RestoredExactly(s[i].dx, k);
      RestoredExactly(s[i].dy, k);
    }
    if t == s {
      forall b | b in s && b.owner == p
        ensures Restorable(b.dx, k) && Restorable(b.dy, k)
      {
        var i :| 0 <= i < |s| && s[i] == b;
      }
    } else {
      var i :| 0 <= i < |s| && t[i] != s[i];
      assert s[i] in s;
    }
  }

  /** The speed commands of client `p` in a run, in order. */
  function SpeedOps(evs: seq<Event>, p: int): string
    decreases |evs|
  {
    if evs == [] then ""
    else if SpeedEvent(evs[0], p, 'w') || SpeedEvent(evs[0], p, 's') then [evs[0].op] + SpeedOps(evs[1..], p)
    else SpeedOps(evs[1..], p)
  }

  /** What a series of speed commands makes of one component. */
  function Effect(d: int, ops: string): int
    decreases ops
  {
    if ops == "" then d else Effect(if ops[0] == 'w' then Up(d) else Down(d), ops[1..])
  }

  /** Client `p` sends speed commands only; ticks and other clients are free. */
  predicate OnlySpeeds(evs: seq<Event>, p: int) {
    forall i :: 0 <= i < |evs| && Concerns(evs[i], p) && !evs[i].Tick? ==>
      SpeedEvent(evs[i], p, 'w') || SpeedEvent(evs[i], p, 's')
  }

  /** Magnitudes of both speeds, ball by ball. */
  predicate SpeedsAre(s: Balls, t: Balls, ops: string) {
    |t| == |s| && forall i :: 0 <= i < |s| ==>
      Abs(t[i].dx) == Effect(Abs(s[i].dx), ops) && Abs(t[i].dy) == Effect(Abs(s[i].dy), ops)
  }

  lemma SpeedAbs(d: int)
    ensures Abs(Up(d)) == Up(Abs(d)) && Abs(Down(d)) == Down(Abs(d))
  {
  }

  /** What a tick or a speed command makes of the magnitude of a component. */
  function OneEffect(ev: Event, d: int): int
    requires ev.Tick? || ev.Command?
  {
    if ev.Tick? then d else if ev.op == 'w' then Up(d) else Down(d)
  }

  /** Before and after one tick or speed command of `p`. */
  lemma OwnSpeeds(s: Balls, ev: Event, p: int)
    requires Defined(ev) && (ev.Tick? || SpeedEvent(ev, p, 'w') || SpeedEvent(ev, p, 's'))
    ensures var t, u := Owned(s, p), Owned(Step(s, ev), p);
            |u| == |t| && forall i :: 0 <= i < |t| ==>
              && Abs(u[i].dx) == OneEffect(ev, Abs(t[i].dx))
              && Abs(u[i].dy) == OneEffect(ev, Abs(t[i].dy))
  {
    OwnedMap(s, p, p);
    OwnedOwners(s, p);
    var t := Owned(s, p);
    forall i | 0 <= i < |t|
      ensures Abs(Up(t[i].dx)) == Up(Abs(t[i].dx)) && Abs(Down(t[i].dx)) == Down(Abs(t[i].dx))
      ensures Abs(Up(t[i].dy)) == Up(Abs(t[i].dy)) && Abs(Down(t[i].dy)) == Down(Abs(t[i].dy))
    {
      SpeedAbs(t[i].dx);
      SpeedAbs(t[i].dy);
    }
  }

  lemma {:induction false} OwnedOwners(s: Balls, p: int)
    ensures forall i :: 0 <= i < |Owned(s, p)| ==> Owned(s, p)[i].owner == p
  {
    if s != [] {
      OwnedOwners(s[..|s| - 1], p);
    }
  }

  /** Whatever else happens meanwhile, the magnitudes of p's speeds follow p's own commands. */
  lemma {:induction false} SpeedsFollow(s: Balls, evs: seq<Event>, p: int)
    requires AllDefined(evs) && OnlySpeeds(evs, p)
    ensures SpeedsAre(Owned(s, p), Owned(Run(s, evs), p), SpeedOps(evs, p))
    decreases |evs|
  {
    if evs != [] {
      var ev := evs[0];
      if Concerns(ev, p) {
        OwnSpeeds(s, ev, p);
      } else {
        OtherStep(s, ev, p);
      }
      SpeedsFollow(Step(s, ev), evs[1..], p);
    }
  }

  function Times(c: char, k: nat): string {
    if k == 0 then "" else [c] + Times(c, k - 1)
  }

  lemma {:induction false} EffectUps(d: int, k: nat, j: nat, ops: string)
    ensures Effect(Ups(d, j), Times('w', k) + ops) == Effect(Ups(d, j + k), ops)
    decreases k
  {
    if k > 0 {
      EffectUps(d, k - 1, j + 1, ops);
      assert (Times('w', k) + ops)[1..] == Times('w', k - 1) + ops;
    } else {
      assert Times('w', 0) + ops == ops;
    }
  }

  lemma {:induction false} EffectDowns(d: int, k: nat, j: nat)
    ensures Effect(Downs(d, j), Times('s', k)) == Downs(d, j + k)
    decreases k
  {
    if k > 0 {
      EffectDowns(d, k - 1, j + 1);
    }
  }

  lemma EffectUpsDowns(d: int, k: nat)
    ensures Effect(d, Times('w', k) + Times('s', k)) == Downs(Ups(d, k), k)
  {
    EffectUps(d, k, 0, Times('s', k));
    EffectDowns(Ups(d, k), k, 0);
  }

  lemma RestorableAbs(d: int, k: nat)
    ensures Restorable(Abs(d), k) <==> Restorable(d, k)
  {
    if k >= 1 {
      assert -d * Power(2, k - 1) == -(d * Power(2, k - 1));
    }
  }

  /** k ups and then k downs of a client, with any ticks and any commands of others in between, give
      each of its balls its speeds back, up to the bounces, exactly where they are restorable. */
  lemma SpeedsRestored(s: Balls, evs: seq<Event>, p: int, k: nat)
    requires AllDefined(evs) && OnlySpeeds(evs, p) && SpeedOps(evs, p) == Times('w', k) + Times('s', k)
    ensures var t, u := Owned(s, p), Owned(Run(s, evs), p);
            |u| == |t| && forall i :: 0 <= i < |t| ==>
              && (Abs(u[i].dx) == Abs(t[i].dx) <==> Restorable(t[i].dx, k))
              && (Abs(u[i].dy) == Abs(t[i].dy) <==> Restorable(t[i].dy, k))
  {
    SpeedsFollow(s, evs, p);
    var t, u := Owned(s, p), Owned(Run(s, evs), p);
    forall i | 0 <= i < |t|
      ensures Abs(u[i].dx) == Abs(t[i].dx) <==> Restorable(t[i].dx, k)
      ensures Abs(u[i].dy) == Abs(t[i].dy) <==> Restorable(t[i].dy, k)
    {
      OneRestored(t[i].dx, k);
      OneRestored(t[i].dy, k);
    }
  }

  lemma OneRestored(d: int, k: nat)
    ensures Effect(Abs(d), Times('w', k) + Times('s', k)) == Abs(d) <==> Restorable(d, k)
  {
    EffectUpsDowns(Abs(d), k);
    RestoredExactly(Abs(d), k);
    RestorableAbs(d, k);
  }

  // ---------- Ticks alone ----------

  lemma {:induction false} RunTicks(s: Balls, k: nat)
    ensures var t := Run(s, Repeat(Tick, k));
            |t| == |s| && forall i :: 0 <= i < |s| ==> t[i] == BallTicks(s[i], k)
  {
    if k > 0 {
      RunTicks(s, k - 1);
      RunAppend(s, Repeat(Tick, k - 1), Tick);
      forall i | 0 <= i < |s|
        ensures BallTicks(s[i], k) == MoveBall(BallTicks(s[i], k - 1))
      {
        LastTick(s[i], k);
      }
    }
  }

  lemma {:induction false} LastTick(b: LogicalBall, k: nat)
    requires k > 0
    ensures BallTicks(b, k) == MoveBall(BallTicks(b, k - 1))
    decreases k
  {
    if k > 1 {
      LastTick(MoveBall(b), k - 1);
    }
  }
}
