/** The exact capacity of the 8192-byte buffer of serialize_ball_list_all
    (src/server/localballmanager.c): how many balls the server may ever have held. */
module Capacity {
  import opened Arith
  import opened Ball
  import opened Client
  import opened Decimal
  import opened Game
  import opened Owners
  import opened Serializer
  import opened Speed
  import opened Wire

  // ---------- A run that fills the buffer ----------

  const NO_DRAWS: nat -> Draws := _ => Draws(0, 0, 0, 0)

  function Add(owner: int, count: int): Event { Command(owner, 'a', count, 100, NO_DRAWS) }

  function Delete(owner: int, count: int): Event { Command(owner, 'd', count, START_BALL_RADIUS, NO_DRAWS) }

  function SpeedUp(owner: int): Event { Command(owner, 'w', 1, START_BALL_RADIUS, NO_DRAWS) }

  /** A ball of radius 100 in its corner. */
  function Corner(id: int, owner: int, speed: int): LogicalBall {
    LogicalBall(id, 100, 100, speed, speed, 100, owner, ColorByOwner(owner))
  }

  function Corners(first: int, count: nat, owner: int, speed: int): (r: Balls)
    ensures |r| == count && forall i :: 0 <= i < count ==> r[i] == Corner(first + i, owner, speed)
  {
    seq(count, i requires 0 <= i < count => Corner(first + i, owner, speed))
  }

  lemma {:induction false} AddsCorners(s: Balls, owner: int, count: nat)
    ensures AddBalls(s, count, 100, owner, NO_DRAWS) == s + Corners(|s|, count, owner, -2)
  {
    if count > 0 {
      AddsCorners(s, owner, count - 1);
    }
  }

  lemma {:induction false} WithoutSplit(s: Balls, t: Balls, p: int)
    ensures Without(s + t, p) == Without(s, p) + Without(t, p)
  {
    if t == [] {
      assert s + t == s;
    } else {
      var n := |t| - 1;
      assert s + t == (s + t[..n]) + [t[n]];
      OnAppend(s + t[..n], t[n], p);
      WithoutSplit(s, t[..n], p);
    }
  }

  lemma {:induction false} WithoutAll(s: Balls, p: int)
    ensures (forall b :: b in s ==> b.owner == p) ==> Without(s, p) == []
    ensures (forall b :: b in s ==> b.owner != p) ==> Without(s, p) == s
  {
    if s != [] {
      var n := |s| - 1;
      assert s == s[..n] + [s[n]];
      WithoutAll(s[..n], p);
    }
  }

  /** A run of the owners `p` and `q` that leaves `t`, with no more than `n` balls on the way. */
  ghost predicate Reaches(evs: seq<Event>, t: Balls, p: int, q: int, n: nat) {
    && RadiiIn(evs, 0) && AllDefined(evs) && Run([], evs) == t && Peak([], evs) <= n
    && forall i :: 0 <= i < |evs| && !evs[i].Tick? ==> evs[i].owner == p || evs[i].owner == q
  }

  lemma {:induction false} PeakAppend(s: Balls, evs: seq<Event>, ev: Event)
    requires AllDefined(evs) && Defined(ev)
    ensures AllDefined(evs + [ev])
    ensures Peak(s, evs + [ev]) == Max(Peak(s, evs), |Step(Run(s, evs), ev)|)
    decreases |evs|
  {
    assert AllDefined(evs + [ev]);
    if evs == [] {
      assert evs + [ev] == [ev] && [ev][1..] == [];
      assert Peak(Step(s, ev), []) == |Step(s, ev)|;
    } else {
      PeakAppend(Step(s, evs[0]), evs[1..], ev);
      assert (evs + [ev])[1..] == evs[1..] + [ev];
    }
  }

  lemma ReachesOn(evs: seq<Event>, t: Balls, ev: Event, p: int, q: int, n: nat)
    requires Reaches(evs, t, p, q, n) && (ev.Command? || ev.Connect?) && (ev.owner == p || ev.owner == q)
    requires (ev.Command? && ev.op == 'a' ==> ev.radius == 100) && |Step(t, ev)| <= n
    ensures Reaches(evs + [ev], Step(t, ev), p, q, n)
  {
    RunAppend([], evs, ev);
    PeakAppend([], evs, ev);
  }

  lemma {:induction false} ReachesUps(evs: seq<Event>, t: Balls, o: int, k: nat, p: int, q: int, n: nat)
    requires Reaches(evs, t, p, q, n) && (o == p || o == q) && |t| <= n
    ensures Reaches(evs + Repeat(SpeedUp(o), k), Run(t, Repeat(SpeedUp(o), k)), p, q, n)
  {
    var ups := Repeat(SpeedUp(o), k);
    RunSpeedUps(t, SpeedUp(o), o, k);
    if k == 0 {
      assert evs + ups == evs;
    } else {
      var less := Repeat(SpeedUp(o), k - 1);
      ReachesUps(evs, t, o, k - 1, p, q, n);
      RunSpeedUps(t, SpeedUp(o), o, k - 1);
      RunAppend(t, less, SpeedUp(o));
      ReachesOn(evs + less, Run(t, less), SpeedUp(o), p, q, n);
      assert evs + ups == evs + less + [SpeedUp(o)];
    }
  }

  lemma ReachesAdd(evs: seq<Event>, t: Balls, o: int, count: nat, p: int, q: int, n: nat)
    requires Reaches(evs, t, p, q, n) && (o == p || o == q) && count >= 1 && |t| + count <= n
    ensures Reaches(evs + [Add(o, count)], t + Corners(|t|, count, o, -2), p, q, n)
  {
    AddsCorners(t, o, count);
    ReachesOn(evs, t, Add(o, count), p, q, n);
  }

  lemma DeletesAll(s: Balls, t: Balls, o: int)
    requires (forall b :: b in s ==> b.owner == o) && (forall b :: b in t ==> b.owner != o)
    ensures RemoveLast(s + t, o, |s|) == t && RemoveLast(t + s, o, |s|) == t
  {
    WithoutAll(s, o);
    WithoutAll(t, o);
    WithoutSplit(s, t, o);
    WithoutSplit(t, s, o);
    assert [] + t == t == t + [];
    OwnedAndWithout(s + t, o);
    OwnedAndWithout(t + s, o);
    RemoveLastAll(s + t, o, |s|);
    RemoveLastAll(t + s, o, |s|);
  }

  /** A client that deletes as many balls as it has: those of `s`. */
  lemma ReachesDelete(evs: seq<Event>, s: Balls, t: Balls, o: int, count: nat, p: int, q: int, n: nat)
    requires Reaches(evs, s + t, p, q, n) || Reaches(evs, t + s, p, q, n)
    requires (o == p || o == q) && |s| == count >= 1 && |t| <= n
    requires (forall b :: b in s ==> b.owner == o) && (forall b :: b in t ==> b.owner != o)
    ensures Reaches(evs + [Delete(o, count)], t, p, q, n)
  {
    DeletesAll(s, t, o);
    ReachesOn(evs, Run([], evs), Delete(o, count), p, q, n);
  }

  lemma {:induction false} AddsTail(s: Balls, count: nat, radius: int, owner: int, rand: nat -> Draws)
    returns (t: Balls)
    requires radius != 500
    ensures AddBalls(s, count, radius, owner, rand) == s + t
    ensures |t| == count && forall b :: b in t ==> b.owner == owner
  {
    if count == 0 {
      t := [];
    } else {
      t := AddsTail(s, count - 1, radius, owner, rand);
      t := t + [Create(|s + t|, radius, owner, rand(count - 1))];
    }
  }

  /** A client connects and deletes its five start balls. */
  lemma ReachesJoin(evs: seq<Event>, t: Balls, o: int, p: int, q: int, n: nat)
    requires Reaches(evs, t, p, q, n) && (o == p || o == q) && |t| + 5 <= n && forall b :: b in t ==> b.owner != o
    ensures Reaches(evs + [Connect(o, NO_DRAWS)] + [Delete(o, 5)], t, p, q, n)
  {
    var s := AddsTail(t, START_BALL_COUNT, START_BALL_RADIUS, o, NO_DRAWS);
    ReachesOn(evs, t, Connect(o, NO_DRAWS), p, q, n);
    ReachesDelete(evs + [Connect(o, NO_DRAWS)], s, t, o, 5, p, q, n);
  }

  /** Two clients connect and delete their start balls. Then p adds 100 balls and q adds `m`, and p
      deletes its 100 and adds 100 again: `m` + 100 balls, of which only 100 - m have an id below 100. */
  lemma ReachesMany(p: int, q: int, m: nat) returns (evs: seq<Event>)
    requires p != q && m >= 1
    ensures Reaches(evs, Corners(100, m, q, -2) + Corners(m, 100, p, -2), p, q, m + 100)
  {
    var n := m + 100;
    var s, t := Corners(0, 100, p, -2), Corners(100, m, q, -2);
    evs := [];
    ReachesJoin(evs, [], p, p, q, n);
    evs := evs + [Connect(p, NO_DRAWS)] + [Delete(p, 5)];
    ReachesJoin(evs, [], q, p, q, n);
    evs := evs + [Connect(q, NO_DRAWS)] + [Delete(q, 5)];
    ReachesAdd(evs, [], p, 100, p, q, n);
    assert [] + s == s;
    evs := evs + [Add(p, 100)];
    ReachesAdd(evs, s, q, m, p, q, n);
    evs := evs + [Add(q, m)];
    ReachesDelete(evs, s, t, p, 100, p, q, n);
    evs := evs + [Delete(p, 100)];
    ReachesAdd(evs, t, p, 100, p, q, n);
    evs := evs + [Add(p, 100)];
  }

  lemma TwelveUps()
    ensures Ups(-2, 12) == -4000
  {
    assert Ups(-2, 4) == -32;
    assert Ups(-2, 8) == -512;
  }

  /** Twelve speed-ups of one owner bring its components to -4000. */
  lemma ReachesFast(evs: seq<Event>, s: Balls, t: Balls, o: int, p: int, q: int, n: nat)
    requires Reaches(evs, s, p, q, n) && (o == p || o == q) && |t| == |s| <= n
    requires forall i :: 0 <= i < |s| ==>
               t[i] == if s[i].owner == o then s[i].(dx := Ups(s[i].dx, 12), dy := Ups(s[i].dy, 12)) else s[i]
    ensures Reaches(evs + Repeat(SpeedUp(o), 12), t, p, q, n)
  {
    ReachesUps(evs, s, o, 12, p, q, n);
    RunSpeedUps(s, SpeedUp(o), o, 12);
    assert Run(s, Repeat(SpeedUp(o), 12)) == t;
  }

  lemma ReachesLong(p: int, q: int, m: nat) returns (evs: seq<Event>)
    requires p != q && m >= 1
    ensures Reaches(evs, Corners(100, m, q, -4000) + Corners(m, 100, p, -4000), p, q, m + 100)
  {
    var n, s := m + 100, Corners(100, m, q, -2);
    evs := ReachesMany(p, q, m);
    TwelveUps();
    ReachesFast(evs, s + Corners(m, 100, p, -2), s + Corners(m, 100, p, -4000), p, p, q, n);
    evs := evs + Repeat(SpeedUp(p), 12);
    ReachesFast(evs, s + Corners(m, 100, p, -4000), Corners(100, m, q, -4000) + Corners(m, 100, p, -4000), q, p, q, n);
    evs := evs + Repeat(SpeedUp(q), 12);
  }

  // ---------- Its length ----------

  lemma {:induction false} DigitsAtLeast(n: nat, k: nat)
    requires k >= 1 && (k > 1 ==> n >= Power(10, k - 1))
    ensures |Digits(n)| >= k
  {
    DigitsAreDigits(n);
    if k > 1 {
      assert Power(10, k - 1) == 10 * Power(10, k - 2);
      DigitsAtLeast(n / 10, k - 1);
    }
  }

  /** The characters of a colour. */
  function ColorChars(owner: int): nat {
    var c := ColorByOwner(owner);
    |IntText(c.r as int)| + |IntText(c.g as int)| + |IntText(c.b as int)|
  }

  lemma LongColors()
    ensures ColorChars(8) >= 7 && ColorChars(9) >= 7 && ColorChars(-1) >= 9 && ColorChars(-2) >= 9
  {
    DigitsAtLeast(255, 3);
    DigitsAtLeast(128, 3);
    DigitsAtLeast(0, 1);
  }

  lemma CornerLength(id: int, owner: int)
    requires 10 <= id < 1000
    ensures |Temp(Corner(id, owner, -4000))| >= ColorChars(owner) + if id >= 100 then 37 else 36
  {
    var b := Corner(id, owner, -4000);
    NeverTruncated(b);
    RecordLength(b);
    DigitsAtLeast(id, if id >= 100 then 3 else 2);
    DigitsAtLeast(100, 3);
    DigitsAtLeast(4000, 4);
  }

  lemma {:induction false} SerializedAtLeast(s: Balls, k: nat)
    requires forall i :: 0 <= i < |s| ==> |Temp(s[i])| >= k
    ensures |Serialized(s)| >= |s| * k
  {
    if s != [] {
      SerializedAtLeast(s[1..], k);
      OneMore(|s[1..]|, k);
    }
  }

  lemma CornersLength(first: int, count: nat, owner: int, k: nat)
    requires 10 <= first && first + count <= 1000
    requires k <= ColorChars(owner) + if first >= 100 then 37 else 36
    ensures |Serialized(Corners(first, count, owner, -4000))| >= count * k
  {
    var s := Corners(first, count, owner, -4000);
    forall i | 0 <= i < count
      ensures |Temp(s[i])| >= k
    {
      CornerLength(first + i, owner);
    }
    SerializedAtLeast(s, k);
  }

  lemma ThreeParts(p: int, q: int, m: nat)
    requires m < 100
    ensures |Serialized(Corners(100, m, q, -4000) + Corners(m, 100, p, -4000))| ==
            |Serialized(Corners(100, m, q, -4000))| + |Serialized(Corners(m, 100 - m, p, -4000))|
            + |Serialized(Corners(100, m, p, -4000))|
  {
    var s1, s2, s3 := Corners(100, m, q, -4000), Corners(m, 100 - m, p, -4000), Corners(100, m, p, -4000);
    assert Corners(m, 100, p, -4000) == s2 + s3;
    SerializedSplit(s1, s2 + s3);
    SerializedSplit(s2, s3);
  }

  // ---------- The exact capacity ----------

  ghost predicate Safe(evs: seq<Event>)
    requires AllDefined(evs)
  {
    |Serialized(Run([], evs))| + 1 <= BUFFER_SIZE
  }

  lemma LongText()
    ensures |Serialized(Corners(100, 87, 9, -4000) + Corners(87, 100, 8, -4000))| >= 8215
  {
    ThreeParts(8, 9, 87);
    LongColors();
    CornersLength(100, 87, 9, 44);
    CornersLength(87, 13, 8, 43);
    CornersLength(100, 87, 8, 44);
  }

  lemma OverflowReal() returns (evs: seq<Event>)
    ensures RadiiIn(evs, 0) && AllDefined(evs) && Peak([], evs) <= 187 && RealOwners(evs) && !Safe(evs)
  {
    evs := ReachesLong(8, 9, 87);
    LongText();
  }

  /** Were descriptors negative, their colour would be grey. */
  lemma GreyText()
    ensures |Serialized(Corners(100, 79, -2, -4000) + Corners(79, 100, -1, -4000))| >= 8213
  {
    ThreeParts(-1, -2, 79);
    LongColors();
    CornersLength(100, 79, -2, 46);
    CornersLength(79, 21, -1, 45);
    CornersLength(100, 79, -1, 46);
  }

  lemma OverflowGrey() returns (evs: seq<Event>)
    ensures RadiiIn(evs, 0) && AllDefined(evs) && Peak([], evs) <= 179 && !Safe(evs)
  {
    evs := ReachesLong(-1, -2, 79);
    GreyText();
  }

  /** In every run of real descriptors that never holds more than `n` balls the text fits, exactly for
      n up to 186; for any owners whatever, exactly for n up to 178. */
  lemma CapacityExactly(n: nat)
    ensures (forall evs :: RadiiIn(evs, 0) && AllDefined(evs) && RealOwners(evs) && Peak([], evs) <= n ==> Safe(evs))
            <==> n <= 186
    ensures (forall evs :: RadiiIn(evs, 0) && AllDefined(evs) && Peak([], evs) <= n ==> Safe(evs))
            <==> n <= 178
  {
    forall evs | RadiiIn(evs, 0) && AllDefined(evs) && Peak([], evs) <= if RealOwners(evs) then 186 else 178
      ensures Safe(evs)
    {
      BufferFits(evs);
    }
    if n > 186 {
      var evs := OverflowReal();
      assert !Safe(evs);
    }
    if n > 178 {
      var evs := OverflowGrey();
      assert !Safe(evs);
    }
  }
}
