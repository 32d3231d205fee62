/** The server's ball list operations, src/server/localballmanager.c and src/server/localball_list.c,
    each proved against the sequence it computes (module Owners). */
module BallManager {
  import opened Arith
  import opened Binary32
  import opened Ball
  import opened BallList
  import opened Owners
  import opened Seqs

  type BallListManager = BallList.Manager<LogicalBall>

  /** Where the walk of a list stands at position `i`. */
  ghost predicate Cursor(m: BallListManager, cur: Node?<LogicalBall>, prev: Node?<LogicalBall>, i: int)
    reads m
  {
    0 <= i <= |m.nodes| && cur == At(m.nodes, i) && prev == Before(m.nodes, i)
  }

  /** One turn of add_ball. */
  method AddOne(m: BallListManager, radius: int, owner: int, draws: Draws)
    requires m.Valid() && radius != 500
    modifies m, m.Repr()
    ensures m.Valid() && m.Contents() == old(m.Contents()) + [Create(|old(m.Contents())|, radius, owner, draws)]
    ensures fresh(m.Repr() - old(m.Repr()))
  {
    m.AppendCounted(Create(m.totalCount, radius, owner, draws));
  }

  /** add_ball: each new ball's id is the count before it. */
  method AddBall(m: BallListManager, count: int, radius: int, owner: int, rand: nat -> Draws)
    requires m.Valid() && radius != 500
    modifies m, m.Repr()
    ensures m.Valid() && m.Contents() == AddBalls(old(m.Contents()), count, radius, owner, rand)
    ensures fresh(m.Repr() - old(m.Repr()))
  {
    var i := 0;
    ghost var s := m.Contents();
    while i < count
      invariant 0 <= i <= Max(count, 0)
      invariant m.Valid() && m.Contents() == AddBalls(s, i, radius, owner, rand)
      invariant fresh(m.Repr() - old(m.Repr()))
    {
      AddOne(m, radius, owner, rand(i));
      i := i + 1;
      assert m.Contents() == AddBalls(s, i, radius, owner, rand);
    }
    assert i == Max(count, 0);
  }

  /** The sliding window of delete_ball: the nodes at positions `at`, with their predecessors. */
  ghost predicate Window(nodes: seq<Node<LogicalBall>>, at: seq<nat>,
                         candidates: seq<Node?<LogicalBall>>, prevs: seq<Node?<LogicalBall>>)
  {
    && |at| <= |candidates| == |prevs|
    && forall j :: 0 <= j < |at| ==> candidates[j] == At(nodes, at[j]) && prevs[j] == Before(nodes, at[j])
  }

  /** What one owned node at position `i` does to the window. */
  lemma WindowPush(nodes: seq<Node<LogicalBall>>, at: seq<nat>, count: nat, i: nat,
                   candidates: seq<Node?<LogicalBall>>, prevs: seq<Node?<LogicalBall>>,
                   candidates': seq<Node?<LogicalBall>>, prevs': seq<Node?<LogicalBall>>)
    requires |candidates| == count >= 1 && Window(nodes, Last(at, count), candidates, prevs)
    requires var f := |Last(at, count)|;
             if f < count then candidates' == candidates[f := At(nodes, i)] && prevs' == prevs[f := Before(nodes, i)]
             else candidates' == candidates[1..] + [At(nodes, i)] && prevs' == prevs[1..] + [Before(nodes, i)]
    ensures Window(nodes, Last(at + [i], count), candidates', prevs')
  {
  }

  /** Records the owned node at position `i` in the window. */
  method Remember(candidates: array<Node?<LogicalBall>>, prevs: array<Node?<LogicalBall>>, found: int,
                  cur: Node?<LogicalBall>, prev: Node?<LogicalBall>,
                  ghost nodes: seq<Node<LogicalBall>>, ghost at: seq<nat>, ghost i: nat)
    returns (found': int)
    requires candidates != prevs && candidates.Length >= 1 && cur == At(nodes, i) && prev == Before(nodes, i)
    requires var w := Last(at, candidates.Length); found == |w| && Window(nodes, w, candidates[..], prevs[..])
    modifies candidates, prevs
    ensures var w := Last(at + [i], candidates.Length); found' == |w| && Window(nodes, w, candidates[..], prevs[..])
  {
    ghost var cs, ps := candidates[..], prevs[..];
    found' := Push(candidates, found, cur);
    found' := Push(prevs, found, prev);
    WindowPush(nodes, at, candidates.Length, i, cs, ps, candidates[..], prevs[..]);
    LastAppend(at, candidates.Length, i);
  }

  /** The walk of delete_ball: fills the window with the owner's last balls. */
  method FindLast(m: BallListManager, candidates: array<Node?<LogicalBall>>, prevs: array<Node?<LogicalBall>>,
                  owner: int)
    returns (found: int, ghost at: seq<nat>)
    requires m.Valid() && candidates != prevs && candidates.Length == prevs.Length >= 1
    modifies candidates, prevs
    ensures at == Last(OwnedAt(old(m.Contents()), owner), candidates.Length)
    ensures found == |at| && Window(m.nodes, at, candidates[..], prevs[..])
    ensures m.Valid() && m.Contents() == old(m.Contents())
  {
    var cur, prev := m.head, null;
    found := 0;
    ghost var s, all, i := m.Contents(), [], 0;
    while cur != null
      invariant m.Valid() && m.Contents() == s && Cursor(m, cur, prev, i) && all == OwnedAt(s[..i], owner)
      invariant found == |Last(all, candidates.Length)|
      invariant Window(m.nodes, Last(all, candidates.Length), candidates[..], prevs[..])
      decreases |s| - i
    {
      OnPrefix(s, i, owner);
      m.Next(i);
      var next := cur.next;
      if cur.data.owner == owner {
        found := Remember(candidates, prevs, found, cur, prev, m.nodes, all, i);
        all := all + [i];
      }
      prev := cur;
      cur := next;
      i := i + 1;
    }
    at := Last(all, candidates.Length);
    assert s[..i] == s;
  }

  /** Stores `x` in the next free slot of a window array, or shifts the oldest entry out. */
  method Push(a: array<Node?<LogicalBall>>, found: int, x: Node?<LogicalBall>) returns (found': int)
    requires 0 <= found <= a.Length && a.Length >= 1
    modifies a
    ensures found' == if found < a.Length then found + 1 else found
    ensures a[..] == if found < a.Length then old(a[..])[found := x] else old(a[1..]) + [x]
  {
    if found < a.Length {
      a[found] := x;
      return found + 1;
    }
    var i := 0;
    while i < a.Length - 1
      invariant 0 <= i <= a.Length - 1
      invariant forall j :: 0 <= j < i ==> a[j] == old(a[j + 1])
      invariant forall j :: i <= j < a.Length ==> a[j] == old(a[j])
    {
      a[i] := a[i + 1];
      i := i + 1;
    }
    a[a.Length - 1] := x;
    return found;
  }

  /** Position `k` is where RemoveLast cuts to remove one more ball than `removed`. */
  ghost predicate CutsAt(s: Balls, owner: int, removed: nat, k: nat) {
    k < |RemoveLast(s, owner, removed)| && RemoveLast(s, owner, removed + 1) == Cut(RemoveLast(s, owner, removed), k)
  }

  /** The positions in a window are increasing and, from the back, those RemoveLast cuts at. */
  ghost predicate CutPositions(s: Balls, owner: int, at: seq<nat>) {
    && (forall i :: 0 <= i < |at| ==> at[i] < |s| && CutsAt(s, owner, |at| - 1 - i, at[i]))
    && (forall i, j :: 0 <= i < j < |at| ==> at[i] < at[j])
  }

  lemma WindowCut(s: Balls, owner: int, all: seq<nat>, at: seq<nat>, i: nat)
    requires all == OwnedAt(s, owner) && i < |at| <= |all| && at[i] == all[|all| - |at| + i]
    ensures CutsAt(s, owner, |at| - 1 - i, at[i])
  {
    RemoveLastStep(s, owner, |at| - 1 - i);
  }

  lemma WindowPositions(s: Balls, owner: int, count: nat, at: seq<nat>)
    requires at == Last(OwnedAt(s, owner), count)
    ensures CutPositions(s, owner, at)
  {
    var all := OwnedAt(s, owner);
    OwnedAtSorted(s, owner);
    forall i | 0 <= i < |at|
      ensures CutsAt(s, owner, |at| - 1 - i, at[i])
    {
      WindowCut(s, owner, all, at, i);
    }
  }

  lemma WindowSize(s: Balls, owner: int, count: nat)
    ensures RemoveLast(s, owner, |Last(OwnedAt(s, owner), count)|) == RemoveLast(s, owner, count)
  {
    OwnedAtSorted(s, owner);
    if |OwnedAt(s, owner)| < count {
      RemoveLastAll(s, owner, count);
      RemoveLastAll(s, owner, |OwnedAt(s, owner)|);
    }
  }

  /** delete_ball after it has unlinked `removed` balls: the first `kept` nodes are untouched. */
  ghost predicate Deleting(m: BallListManager, s: Balls, nodes: seq<Node<LogicalBall>>, owner: int,
                           removed: int, kept: int, R: set<Node<LogicalBall>>)
    reads m, m.nodes
  {
    && m.Valid() && m.Repr() <= R && 0 <= removed && m.Contents() == RemoveLast(s, owner, removed)
    && 0 <= kept <= |m.nodes| && kept <= |nodes| && forall j :: 0 <= j < kept ==> m.nodes[j] == nodes[j]
  }

  /** One turn of the unlinking loop, for the candidate at position `k`. The `continue` of the source
      for a candidate that is no longer linked is never taken: the saved predecessor still points at
      its candidate. */
  method DropCandidate(m: BallListManager, target: Node?<LogicalBall>, prev: Node?<LogicalBall>, owner: int,
                       ghost s: Balls, ghost nodes: seq<Node<LogicalBall>>, ghost removed: nat, ghost kept: nat,
                       ghost k: nat, ghost R: set<Node<LogicalBall>>)
    requires Deleting(m, s, nodes, owner, removed, kept, R) && k < kept
    requires CutsAt(s, owner, removed, k) && target == At(nodes, k) && prev == Before(nodes, k)
    modifies m, R
    ensures Deleting(m, s, nodes, owner, removed + 1, k, R)
  {
    if k > 0 {
      m.Next(k - 1);
    }
    if prev != null && prev.next != target {
      assert false;
    } else {
      m.Unlink(target, prev, k);
    }
  }

  /** The unlinking loop, from the back of the window. */
  method DropCandidates(m: BallListManager, candidates: array<Node?<LogicalBall>>, prevs: array<Node?<LogicalBall>>,
                        found: int, owner: int, ghost s: Balls, ghost nodes: seq<Node<LogicalBall>>,
                        ghost at: seq<nat>, ghost R: set<Node<LogicalBall>>)
    requires Deleting(m, s, nodes, owner, 0, |nodes|, R) && Window(nodes, at, candidates[..], prevs[..])
    requires found == |at| && |nodes| == |s| && CutPositions(s, owner, at)
    modifies m, R
    ensures m.Valid() && m.Contents() == RemoveLast(s, owner, found) && m.Repr() <= R
  {
    ghost var kept, removed := |nodes| as int, 0;
    var i := found - 1;
    while i >= 0
      invariant -1 <= i == found - 1 - removed && Deleting(m, s, nodes, owner, removed, kept, R)
      invariant i >= 0 ==> at[i] < kept
      invariant unchanged(candidates) && unchanged(prevs)
    {
      ghost var k := at[i];
      assert CutsAt(s, owner, removed, k);
      var candidate, prev := candidates[i], prevs[i];
      assert candidate == At(nodes, k) && prev == Before(nodes, k);
      DropCandidate(m, candidate, prev, owner, s, nodes, removed, kept, k, R);
      kept, removed := k, removed + 1;
      i := i - 1;
    }
    assert removed == found;
  }

  /** delete_ball: collects the owner's last `count` balls, then unlinks them. */
  method DeleteBall(m: BallListManager, count: int, owner: int)
    requires m.Valid() && count >= 1
    modifies m, m.Repr()
    ensures m.Valid() && m.Contents() == RemoveLast(old(m.Contents()), owner, count)
    ensures m.Repr() <= old(m.Repr())
  {
    ghost var s, nodes := m.Contents(), m.nodes;
    var candidates := new Node?<LogicalBall>[count];
    var prevs := new Node?<LogicalBall>[count];
    var found, at := FindLast(m, candidates, prevs, owner);
    WindowPositions(s, owner, count, at);
    WindowSize(s, owner, count);
    DropCandidates(m, candidates, prevs, found, owner, s, nodes, at, m.Repr());
  }

  /** The walk of delete_ball_by_socket before ball `i` of `s`: `kept` is what is left of the
      first `i` balls. */
  ghost predicate Filtering(m: BallListManager, s: Balls, kept: Balls, i: int, fd: int)
    reads m, m.nodes
  {
    && m.Valid() && 0 <= i <= |s| && kept == Without(s[..i], fd) && m.Contents() == kept + s[i..]
  }

  /** One turn of that walk: the next ball is unlinked, or becomes the predecessor. */
  method FilterBall(m: BallListManager, cur: Node<LogicalBall>, prev: Node?<LogicalBall>, fd: int,
                    ghost s: Balls, ghost kept: Balls, ghost i: nat)
    returns (prev': Node?<LogicalBall>, ghost kept': Balls)
    requires Filtering(m, s, kept, i, fd) && i < |s| && Cursor(m, cur, prev, |kept|)
    modifies m, m.Repr()
    ensures Filtering(m, s, kept', i + 1, fd) && Cursor(m, old(cur.next), prev', |kept'|)
    ensures m.Repr() <= old(m.Repr())
  {
    m.Next(|kept|);
    OnPrefix(s, i, fd);
    FilterStep(s, kept, i);
    assert m.Contents()[|kept|] == cur.data;
    if cur.data.owner == fd {
      m.Unlink(cur, prev, |kept|);
      prev', kept' := prev, kept;
    } else {
      prev', kept' := cur, kept + [s[i]];
    }
  }

  lemma FilterDone(m: BallListManager, s: Balls, kept: Balls, i: int, fd: int)
    requires Filtering(m, s, kept, i, fd) && Cursor(m, null, Before(m.nodes, |kept|), |kept|)
    ensures m.Contents() == Without(s, fd)
  {
    assert |m.Contents()| == |m.nodes|;
    assert s[..i] == s && kept + s[i..] == kept;
  }

  /** delete_ball_by_socket: one pass that unlinks every ball of the owner. */
  method DeleteBallBySocket(m: BallListManager, fd: int)
    requires m.Valid()
    modifies m, m.Repr()
    ensures m.Valid() && m.Contents() == Without(old(m.Contents()), fd)
    ensures m.Repr() <= old(m.Repr())
  {
    var cur, prev := m.head, null;
    ghost var s, i, kept := m.Contents(), 0, [];
    while cur != null
      invariant Filtering(m, s, kept, i, fd) && Cursor(m, cur, prev, |kept|)
      invariant m.Repr() <= old(m.Repr())
      decreases |s| - i
    {
      var next := cur.next;
      prev, kept := FilterBall(m, cur, prev, fd, s, kept, i);
      cur := next;
      i := i + 1;
    }
    assert cur == null;
    FilterDone(m, s, kept, i, fd);
  }

  method CountBallByOwner(m: BallListManager, owner: int) returns (count: int)
    requires m.Valid()
    ensures count == |Owned(m.Contents(), owner)|
  {
    var head, prev := m.head, null;
    count := 0;
    ghost var s, i := m.Contents(), 0;
    while head != null
      invariant Cursor(m, head, prev, i) && count == |Owned(s[..i], owner)|
      decreases |s| - i
    {
      OnPrefix(s, i, owner);
      if head.data.owner == owner {
        count := count + 1;
      }
      prev := head;
      m.Next(i);
      head := head.next;
      i := i + 1;
    }
    assert s[..i] == s;
  }

  // ---------- In-place updates of the node data ----------

  /** The bounce test of one axis, after the step. */
  method Bounce(radius: int, pos: int, speed: int) returns (pos': int, speed': int)
    ensures (pos', speed') == if pos <= Float(radius) || pos >= Float(1000 - Float(radius))
                              then (Float(pos + Float(-speed)), -speed) else (pos, speed)
  {
    pos', speed' := pos, speed;
    if pos <= Float(radius) || pos >= Float(1000 - Float(radius)) {
      speed' := speed' * -1;
      pos' := Float(pos' + Float(speed'));
    }
  }

  /** move_logical_ball: step first, then bounce back axis by axis. */
  method MoveLogicalBall(was: LogicalBall) returns (b: LogicalBall)
    ensures b == MoveBall(was)
  {
    var x, y := Float(was.x + Float(was.dx)), Float(was.y + Float(was.dy));
    var dx, dy := was.dx, was.dy;
    x, dx := Bounce(was.radius, x, dx);
    y, dy := Bounce(was.radius, y, dy);
    b := was.(x := x, y := y, dx := dx, dy := dy);
  }

  method MoveBallList(m: BallListManager)
    requires m.Valid()
    modifies m.nodes
    ensures m.Valid() && m.Contents() == MoveAll(old(m.Contents()))
  {
    var cur := m.head;
    ghost var s, t, i := m.Contents(), MoveAll(m.Contents()), 0;
    while cur != null
      invariant 0 <= i <= |s| && m.Valid() && Mixed(m.Contents(), s, t, i) && cur == At(m.nodes, i)
      decreases |s| - i
    {
      var b := MoveLogicalBall(cur.data);
      m.Store(cur, b, i);
      m.Next(i);
      cur := cur.next;
      i := i + 1;
    }
    MixedDone(m.Contents(), s, t);
  }

  method SpeedUpBalls(m: BallListManager, owner: int)
    requires m.Valid()
    modifies m.nodes
    ensures m.Valid() && m.Contents() == SpeedUpAll(old(m.Contents()), owner)
  {
    var cur := m.head;
    ghost var s, t, i := m.Contents(), SpeedUpAll(m.Contents(), owner), 0;
    while cur != null
      invariant 0 <= i <= |s| && m.Valid() && Mixed(m.Contents(), s, t, i) && cur == At(m.nodes, i)
      decreases |s| - i
    {
      m.Store(cur, if cur.data.owner == owner then SpeedUpBall(cur.data) else cur.data, i);
      m.Next(i);
      cur := cur.next;
      i := i + 1;
    }
    MixedDone(m.Contents(), s, t);
  }

  method SpeedDownBalls(m: BallListManager, owner: int)
    requires m.Valid()
    modifies m.nodes
    ensures m.Valid() && m.Contents() == SpeedDownAll(old(m.Contents()), owner)
  {
    var cur := m.head;
    ghost var s, t, i := m.Contents(), SpeedDownAll(m.Contents(), owner), 0;
    while cur != null
      invariant 0 <= i <= |s| && m.Valid() && Mixed(m.Contents(), s, t, i) && cur == At(m.nodes, i)
      decreases |s| - i
    {
      m.Store(cur, if cur.data.owner == owner then SpeedDownBall(cur.data) else cur.data, i);
      m.Next(i);
      cur := cur.next;
      i := i + 1;
    }
    MixedDone(m.Contents(), s, t);
  }
}
