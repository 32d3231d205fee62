/** The server's command path: parseCommand and worker_thread of src/server/server.c, and the event
    handling that drives the heap list through a run. */
module Server {
  import opened Arith
  import opened Ball
  import opened BallManager
  import opened CStrings
  import opened Decimal
  import opened Game
  import opened Owners
  import opened Speed

  // ---------- parseCommand ----------

  datatype Request = Request(op: char, count: int, radius: int)

  /** sscanf "%c:%d" followed by the unread text. */
  function ScanShort(s: string): Option<(char, int, string)> {
    if |s| < 2 || s[1] != ':' then None else
    match ScanInt(s[2..])
    case None => None
    case Some((n, rest)) => Some((s[0], n, rest))
  }

  /** sscanf "%c:%d:%d" with all three conversions done. */
  function ScanFull(s: string): Option<(char, int, int)> {
    match ScanShort(s)
    case None => None
    case Some((op, n, rest)) =>
      if rest == "" || rest[0] != ':' then None else
      match ScanInt(rest[1..])
      case None => None
      case Some((r, _)) => Some((op, n, r))
  }

  /** The request a C string stands for: the longest form that scans, and otherwise a single character. */
  function RequestOf(s: string): Option<Request> {
    if ScanFull(s).Some? then var (op, n, r) := ScanFull(s).value; Some(Request(op, n, r))
    else if ScanShort(s).Some? then var (op, n, _) := ScanShort(s).value; Some(Request(op, n, START_BALL_RADIUS))
    else if |s| == 1 then Some(Request(s[0], 0, START_BALL_RADIUS))
    else None
  }

  /** parseCommand: `cmd` is None where the source returns 0, and then the out-parameters keep their
      values. */
  method ParseCommand(cmdStr: string, ballCount: int, radius: int)
    returns (cmd: Option<char>, ballCount': int, radius': int)
    ensures match RequestOf(cmdStr)
            case None => cmd == None && ballCount' == ballCount && radius' == radius
            case Some(p) => cmd == Some(p.op) && ballCount' == p.count && radius' == p.radius
  {
    var full := ScanFull(cmdStr);
    if full.Some? {
      return Some(full.value.0), full.value.1, full.value.2;
    }
    var short := ScanShort(cmdStr);
    if short.Some? {
      return Some(short.value.0), short.value.1, START_BALL_RADIUS;
    }
    if |cmdStr| == 1 {
      return Some(cmdStr[0]), 0, START_BALL_RADIUS;
    }
    return None, ballCount, radius;
  }

  function FullText(op: char, n: int, r: int): string { [op] + ":" + IntText(n) + ":" + IntText(r) }

  function ShortText(op: char, n: int): string { [op] + ":" + IntText(n) }

  lemma ScanShortText(op: char, n: int, rest: string)
    requires rest == "" || !IsDigit(rest[0])
    ensures ScanShort(ShortText(op, n) + rest) == Some((op, n, rest))
  {
    var s := ShortText(op, n) + rest;
    assert s == [op, ':'] + (IntText(n) + rest);
    assert s[2..] == IntText(n) + rest;
    ScanIntText(n, rest);
  }

  lemma ScanFullText(op: char, n: int, r: int, rest: string)
    requires rest == "" || !IsDigit(rest[0])
    ensures ScanFull(FullText(op, n, r) + rest) == Some((op, n, r))
  {
    var tail := ":" + (IntText(r) + rest);
    assert FullText(op, n, r) + rest == ShortText(op, n) + tail && tail[1..] == IntText(r) + rest;
    ScanShortText(op, n, tail);
    ScanIntText(r, rest);
  }

  /** What parseCommand makes of received data, which it reads up to the first NUL. */
  function Understood(data: string): Option<Request> {
    RequestOf(CText(data))
  }

  lemma PrintedText(op: char, n: int, r: int, rest: string)
    requires op != '\0'
    ensures CText(FullText(op, n, r) + rest) == FullText(op, n, r) + CText(rest)
    ensures CText(ShortText(op, n) + rest) == ShortText(op, n) + CText(rest)
  {
    IntTextChars(n);
    IntTextChars(r);
    CTextAppend(FullText(op, n, r), rest);
    CTextAppend(ShortText(op, n), rest);
  }

  /** What follows a complete command is ignored: anything but a further digit after "op:n:r", and after
      "op:n" anything but a digit or a colon that a number follows. */
  lemma RestIgnored(op: char, n: int, r: int, rest: string)
    requires op != '\0' && (rest == "" || !IsDigit(rest[0]))
    ensures Understood(FullText(op, n, r) + rest) == Some(Request(op, n, r))
    ensures (rest != "" && rest[0] == ':' ==> ScanInt(CText(rest[1..])).None?) ==>
              Understood(ShortText(op, n) + rest) == Some(Request(op, n, START_BALL_RADIUS))
  {
    PrintedText(op, n, r, rest);
    ScanFullText(op, n, r, CText(rest));
    ScanShortText(op, n, CText(rest));
  }

  /** The three printed forms parse back, and no form is taken for another. A NUL for a letter ends the
      string before it begins. */
  lemma CommandRoundTrip(op: char, n: int, r: int)
    ensures op != '\0' ==>
              && Understood(FullText(op, n, r)) == Some(Request(op, n, r))
              && Understood(ShortText(op, n)) == Some(Request(op, n, START_BALL_RADIUS))
              && Understood([op]) == Some(Request(op, 0, START_BALL_RADIUS))
    ensures op == '\0' ==> Understood(FullText(op, n, r)) == Understood(ShortText(op, n)) == Understood([op]) == None
  {
    if op != '\0' {
      RestIgnored(op, n, r, "");
      assert FullText(op, n, r) + "" == FullText(op, n, r) && ShortText(op, n) + "" == ShortText(op, n);
      CTextAppend([op], "");
      assert [op] + "" == [op];
    }
  }

  /** The accepted texts are exactly the single characters and those with a number after a colon in
      second place, possibly behind white space and a sign. */
  lemma CommandAccepted(data: string)
    ensures var s := CText(data);
            Understood(data).Some? <==>
            |s| == 1 || (|s| >= 3 && s[1] == ':' && DigitRun(SkipSign(SkipSpace(s[2..]))) > 0)
  {
    var s := CText(data);
    if |s| == 2 {
      assert SkipSpace(s[2..]) == "";
    }
  }

  // ---------- worker_thread ----------

  /** What a worker does with the text of one task from client `fd`. */
  function TaskEvent(text: string, fd: int, rand: nat -> Draws): Option<Event> {
    match Understood(text)
    case None => None
    case Some(p) =>
      if p.op == 'x' then Some(Disconnect(fd))
      else if ListCommand(p.op) then Some(Command(fd, p.op, AtLeastOne(p.count), p.radius, rand))
      else None
  }

  function AfterEvent(s: Balls, ev: Option<Event>): Balls
    requires ev.Some? ==> Defined(ev.value)
  {
    if ev.None? then s else Step(s, ev.value)
  }

  predicate ListCommand(op: char) { op in {'a', 'd', 'w', 's'} }

  /** The events of the commands as clients type them: counts below one mean one, a missing radius
      means 20, 'x' disconnects in every form, and any other letter does nothing. */
  lemma TypedEvents(op: char, n: int, r: int, fd: int, rand: nat -> Draws)
    ensures ListCommand(op) ==>
              && TaskEvent(FullText(op, n, r), fd, rand) == Some(Command(fd, op, if n <= 0 then 1 else n, r, rand))
              && TaskEvent(ShortText(op, n), fd, rand) == Some(Command(fd, op, if n <= 0 then 1 else n, 20, rand))
              && TaskEvent([op], fd, rand) == Some(Command(fd, op, 1, 20, rand))
    ensures !ListCommand(op) ==>
              TaskEvent(FullText(op, n, r), fd, rand) == TaskEvent(ShortText(op, n), fd, rand)
              == TaskEvent([op], fd, rand) == if op == 'x' then Some(Disconnect(fd)) else None
  {
    CommandRoundTrip(op, n, r);
  }

  /** `t` is `s` without the last `k` balls of client `fd`, or without all it has. */
  ghost predicate Shortened(s: Balls, t: Balls, fd: int, k: int)
    requires k >= 1
  {
    var owned := Owned(s, fd);
    Owned(t, fd) == (if k >= |owned| then [] else owned[..|owned| - k]) && Without(t, fd) == Without(s, fd)
  }

  lemma DeleteStep(s: Balls, fd: int, k: int, rand: nat -> Draws)
    requires k >= 1
    ensures Shortened(s, Step(s, Command(fd, 'd', k, 20, rand)), fd, k)
  {
    RemoveLastOwned(s, fd, k);
    RemoveLastOthers(s, fd, k, fd + 1);
  }

  /** Typing "d:n" removes exactly the client's last n balls, one for n below one, or all it has, and nobody
      else's. */
  lemma TypedDelete(s: Balls, fd: int, n: int, rand: nat -> Draws)
    ensures var ev := TaskEvent(ShortText('d', n), fd, rand);
            ev.Some? && Defined(ev.value) && Shortened(s, AfterEvent(s, ev), fd, if n <= 1 then 1 else n)
  {
    TypedEvents('d', n, 0, fd, rand);
    DeleteStep(s, fd, AtLeastOne(n), rand);
  }

  /** Typing x, in any of its forms, removes all the client's balls and nobody else's. */
  lemma TypedExit(s: Balls, fd: int, n: int, r: int, text: string, rand: nat -> Draws)
    requires text in {FullText('x', n, r), ShortText('x', n), ['x']}
    ensures var ev := TaskEvent(text, fd, rand);
            && (ev.Some? ==> Defined(ev.value))
            && var t := AfterEvent(s, ev);
               && Owned(t, fd) == [] && |t| == |s| - |Owned(s, fd)|
               && forall q :: q != fd ==> Owned(t, q) == Owned(s, q)
  {
    TypedEvents('x', n, r, fd, rand);
    Departs(s, fd);
  }

  /** `t` is `s` with `count` new balls of client `fd` behind all others, of that radius and with the next
      free ids. */
  ghost predicate Added(s: Balls, t: Balls, fd: int, count: int, radius: int, rand: nat -> Draws)
    requires radius != 500 && count >= 1
  {
    && |t| == |s| + count && t[..|s|] == s
    && forall i :: 0 <= i < count ==> t[|s| + i] == Create(|s| + i, radius, fd, rand(i))
  }

  lemma AddStep(s: Balls, fd: int, count: int, radius: int, rand: nat -> Draws)
    requires radius != 500 && count >= 1
    ensures Added(s, Step(s, Command(fd, 'a', count, radius, rand)), fd, count, radius, rand)
  {
    AddedBalls(s, count, radius, fd, rand);
  }

  /** What typing "a:n:r", "a:n" and "a" adds: n balls, or one for n below one, of radius r, or 20 if none
      is given. */
  lemma TypedAdd(s: Balls, fd: int, n: int, r: int, text: string, rand: nat -> Draws)
    requires r != 500 && text in {FullText('a', n, r), ShortText('a', n), ['a']}
    ensures var ev := TaskEvent(text, fd, rand);
            && (ev.Some? ==> Defined(ev.value))
            && Added(s, AfterEvent(s, ev), fd, if n <= 1 || text == ['a'] then 1 else n,
                     if text == FullText('a', n, r) then r else 20, rand)
  {
    TypedEvents('a', n, r, fd, rand);
    FormsDiffer('a', n, r);
    if text == FullText('a', n, r) {
      AddStep(s, fd, AtLeastOne(n), r, rand);
    } else if text == ShortText('a', n) {
      AddStep(s, fd, AtLeastOne(n), 20, rand);
    } else {
      AddStep(s, fd, 1, 20, rand);
    }
  }

  /** No two forms are the same text. */
  lemma FormsDiffer(op: char, n: int, r: int)
    ensures FullText(op, n, r) != ShortText(op, n) && |FullText(op, n, r)| > 2 && |ShortText(op, n)| > 1
  {
    assert |FullText(op, n, r)| == |ShortText(op, n)| + 1 + |IntText(r)|;
  }

  /** Speed components as "w" and "s" leave them. */
  function Doubled(d: int): int { if d > 2000 then 2000 else if d < -2000 then -2000 else 2 * d }

  function Halved(d: int): int { if d >= 2 then d / 2 else if d <= -2 then -(-d / 2) else d }

  lemma SpeedsInNumbers()
    ensures forall d :: Up(d) == Doubled(d)
    ensures forall d :: Down(d) == Halved(d)
  {
  }

  /** Typing w doubles both speeds of all the client's balls, or brings those above 2000 back to 2000.
      Nothing else changes. */
  lemma TypedFaster(s: Balls, fd: int, rand: nat -> Draws)
    ensures var ev := TaskEvent("w", fd, rand);
            && ev.Some? && Defined(ev.value)
            && var t := AfterEvent(s, ev);
               |t| == |s| && forall i :: 0 <= i < |s| ==>
                 t[i] == if s[i].owner == fd then s[i].(dx := Doubled(s[i].dx), dy := Doubled(s[i].dy)) else s[i]
  {
    TypedEvents('w', 0, 0, fd, rand);
    SpeedsInNumbers();
    assert AfterEvent(s, TaskEvent("w", fd, rand)) == SpeedUpAll(s, fd);
  }

  /** Typing s halves them, but never below 1. Nothing else changes. */
  lemma TypedSlower(s: Balls, fd: int, rand: nat -> Draws)
    ensures var ev := TaskEvent("s", fd, rand);
            && ev.Some? && Defined(ev.value)
            && var t := AfterEvent(s, ev);
               |t| == |s| && forall i :: 0 <= i < |s| ==>
                 t[i] == if s[i].owner == fd then s[i].(dx := Halved(s[i].dx), dy := Halved(s[i].dy)) else s[i]
  {
    TypedEvents('s', 0, 0, fd, rand);
    SpeedsInNumbers();
    assert AfterEvent(s, TaskEvent("s", fd, rand)) == SpeedDownAll(s, fd);
  }

  /** A text that parseCommand rejects, and any other letter, leaves the list as it is. */
  lemma NothingTyped(s: Balls, text: string, fd: int, rand: nat -> Draws)
    requires Understood(text).None? || Understood(text).value.op !in {'a', 'd', 'w', 's', 'x'}
    ensures TaskEvent(text, fd, rand).None? && AfterEvent(s, TaskEvent(text, fd, rand)) == s
  {
  }

  // ---------- The list on the heap ----------

  /** dispatch_command with its handlers. */
  method DispatchCommand(m: BallListManager, cmd: char, count: int, radius: int, owner: int, rand: nat -> Draws)
    requires m.Valid() && (cmd == 'a' ==> radius != 500)
    modifies m, m.Repr()
    ensures m.Valid() && m.Contents() == Dispatch(old(m.Contents()), cmd, count, radius, owner, rand)
    ensures fresh(m.Repr() - old(m.Repr()))
  {
    var n := if count <= 0 then 1 else count;
    if cmd == 'a' {
      AddBall(m, n, radius, owner, rand);
    } else if cmd == 'd' {
      DeleteBall(m, n, owner);
    } else if cmd == 'w' {
      SpeedUpBalls(m, owner);
    } else if cmd == 's' {
      SpeedDownBalls(m, owner);
    }
  }

  /** One event of a run, under mutex_ball. */
  method Handle(m: BallListManager, ev: Event)
    requires m.Valid() && Defined(ev)
    modifies m, m.Repr()
    ensures m.Valid() && m.Contents() == Step(old(m.Contents()), ev)
    ensures fresh(m.Repr() - old(m.Repr()))
  {
    match ev
    case Tick =>
      MoveBallList(m);
    case Command(owner, op, count, radius, rand) =>
      if op == 'x' {
        DeleteBallBySocket(m, owner);
      } else {
        DispatchCommand(m, op, count, radius, owner, rand);
      }
    case Connect(owner, rand) =>
      AddBall(m, START_BALL_COUNT, START_BALL_RADIUS, owner, rand);
    case Disconnect(owner) =>
      DeleteBallBySocket(m, owner);
  }

  /** worker_thread for one task: parse, normalise, dispatch. */
  method Work(m: BallListManager, text: string, fd: int, count0: int, radius0: int, rand: nat -> Draws)
    returns (count: int, radius: int)
    requires m.Valid() && (TaskEvent(text, fd, rand).Some? ==> Defined(TaskEvent(text, fd, rand).value))
    modifies m, m.Repr()
    ensures m.Valid() && m.Contents() == AfterEvent(old(m.Contents()), TaskEvent(text, fd, rand))
    ensures fresh(m.Repr() - old(m.Repr()))
    ensures match Understood(text)
            case None => count == count0 && radius == radius0
            case Some(p) => radius == p.radius && count == if ListCommand(p.op) then AtLeastOne(p.count) else p.count
  {
    var cmd;
    cmd, count, radius := ParseCommand(CText(text), count0, radius0);
    if cmd == None {
      return;
    }
    if cmd.value == 'x' {
      DeleteBallBySocket(m, fd);
      return;
    }
    if cmd.value == 'a' || cmd.value == 'd' || cmd.value == 'w' || cmd.value == 's' {
      count := if count <= 0 then 1 else count;
      DispatchCommand(m, cmd.value, count, radius, fd, rand);
    }
  }

  /** A whole run on the heap: the list is a chain with the right ends and count at every moment, and
      holds the balls of the run. */
  method Serve(evs: seq<Event>) returns (m: BallListManager)
    requires AllDefined(evs)
    ensures fresh(m) && m.Valid() && m.Contents() == Run([], evs)
  {
    m := new BallList.Manager<LogicalBall>();
    var i := 0;
    assert evs[..0] == [];
    while i < |evs|
      invariant 0 <= i <= |evs| && fresh(m) && fresh(m.Repr()) && m.Valid()
      invariant AllDefined(evs[..i]) && m.Contents() == Run([], evs[..i])
    {
      RunAppend([], evs[..i], evs[i]);
      assert evs[..i + 1] == evs[..i] + [evs[i]];
      Handle(m, evs[i]);
      i := i + 1;
    }
    assert i == |evs|;
    assert evs[..i] == evs;
  }
}
