/** push and pop of src/server/task.c as a protocol: one producer and a pool of workers share one
    mutex and ONE condition variable for both "not full" and "not empty", and wake it with signal.
    A critical section, from taking the mutex to giving it up in unlock or in wait, is one action.
    Runs are those with keep_running set. */
module QueueProtocol {
  import opened Arith

  datatype Producer<T> = Idle | Pushing(task: T) | PushAsleep(task: T)

  datatype Worker = Ready | Asleep | Busy

  /** `pushed` and `popped` record the history; `queue` is the contents of the ring buffer. */
  datatype State<T> = State(queue: seq<T>, producer: Producer<T>, workers: seq<Worker>, pushed: seq<T>, popped: seq<T>)

  /** The threads a wake-up reaches. */
  datatype Wake = Wake(workers: set<nat>, producer: bool)

  datatype Action<T> =
    | Call(task: T)                    // the main thread enters push
    | PushWaits                        // finds the queue full
    | Push(wake: Wake)                 // stores its task and signals
    | PopWaits(w: nat)                 // worker w finds the queue empty
    | Pop(w: nat, wake: Wake)          // takes a task and signals
    | Finish(w: nat)                   // goes back to pop
    | Spurious(wake: Wake)             // waits may end on their own

  function Initial<T>(n: nat): State<T> {
    State([], Idle, seq(n, _ => Ready), [], [])
  }

  predicate Sleeping<T>(s: State<T>, w: int) {
    0 <= w < |s.workers| && s.workers[w] == Asleep
  }

  predicate Wakeable<T>(s: State<T>, wake: Wake) {
    (forall w :: w in wake.workers ==> Sleeping(s, w)) && (wake.producer ==> s.producer.PushAsleep?)
  }

  /** pthread_cond_signal unblocks at least one of the waiting threads, if any. */
  predicate Signals<T>(s: State<T>, wake: Wake) {
    Wakeable(s, wake) &&
    (wake.workers == {} && !wake.producer ==>
      !s.producer.PushAsleep? && forall w :: 0 <= w < |s.workers| ==> !Sleeping(s, w))
  }

  /** A woken thread goes back to its loop test. */
  function Awaken<T>(s: State<T>, wake: Wake): State<T> {
    s.(workers := seq(|s.workers|, w requires 0 <= w < |s.workers| =>
                        if w in wake.workers then Ready else s.workers[w]),
       producer := if wake.producer && s.producer.PushAsleep? then Pushing(s.producer.task) else s.producer)
  }

  predicate Enabled<T>(s: State<T>, a: Action<T>, cap: nat) {
    match a
    case Call(_) => s.producer.Idle?
    case PushWaits => s.producer.Pushing? && |s.queue| == cap
    case Push(wake) => s.producer.Pushing? && |s.queue| != cap && Signals(s, wake)
    case PopWaits(w) => w < |s.workers| && s.workers[w] == Ready && s.queue == []
    case Pop(w, wake) => w < |s.workers| && s.workers[w] == Ready && s.queue != [] && Signals(s, wake)
    case Finish(w) => w < |s.workers| && s.workers[w] == Busy
    case Spurious(wake) => Wakeable(s, wake)
  }

  function Do<T>(s: State<T>, a: Action<T>, cap: nat): State<T>
    requires Enabled(s, a, cap)
  {
    match a
    case Call(t) => s.(producer := Pushing(t))
    case PushWaits => s.(producer := PushAsleep(s.producer.task))
    case Push(wake) =>
      var t := s.producer.task;
      Awaken(s.(queue := s.queue + [t], pushed := s.pushed + [t], producer := Idle), wake)
    case PopWaits(w) => s.(workers := s.workers[w := Asleep])
    case Pop(w, wake) =>
      Awaken(s.(queue := s.queue[1..], popped := s.popped + [s.queue[0]], workers := s.workers[w := Busy]), wake)
    case Finish(w) => s.(workers := s.workers[w := Ready])
    case Spurious(wake) => Awaken(s, wake)
  }

  /** The states of runs from the initial state with `n` workers and `cap` slots. */
  ghost predicate Leads<T>(s: State<T>, acts: seq<Action<T>>, t: State<T>, cap: nat)
    decreases |acts|
  {
    if acts == [] then s == t else Enabled(s, acts[0], cap) && Leads(Do(s, acts[0], cap), acts[1..], t, cap)
  }

  ghost predicate Reachable<T(!new)>(t: State<T>, n: nat, cap: nat) {
    exists acts :: Leads(Initial(n), acts, t, cap)
  }

  // ---------- The invariant ----------

  function Sleepers(ws: seq<Worker>): nat {
    if ws == [] then 0 else Sleepers(ws[1..]) + if ws[0] == Asleep then 1 else 0
  }

  lemma {:induction false} SleepersUpdate(ws: seq<Worker>, w: nat, x: Worker)
    requires w < |ws|
    ensures Sleepers(ws[w := x]) == Sleepers(ws) - (if ws[w] == Asleep then 1 else 0) + (if x == Asleep then 1 else 0)
  {
    if w > 0 {
      SleepersUpdate(ws[1..], w - 1, x);
      assert ws[w := x][1..] == ws[1..][w - 1 := x];
    } else {
      assert ws[w := x][1..] == ws[1..];
    }
  }

  predicate WokenFrom(ws: seq<Worker>, vs: seq<Worker>) {
    |vs| == |ws| && forall i :: 0 <= i < |ws| ==> vs[i] == ws[i] || (ws[i] == Asleep && vs[i] == Ready)
  }

  lemma {:induction false} SleepersWoken(ws: seq<Worker>, vs: seq<Worker>)
    requires WokenFrom(ws, vs)
    ensures Sleepers(vs) <= Sleepers(ws) && (vs != ws ==> Sleepers(vs) < Sleepers(ws))
  {
    if ws != [] {
      SleepersWoken(ws[1..], vs[1..]);
      assert ws == [ws[0]] + ws[1..] && vs == [vs[0]] + vs[1..];
    }
  }

  lemma {:induction false} SleepersBounds(ws: seq<Worker>)
    ensures Sleepers(ws) <= |ws|
    ensures Sleepers(ws) == 0 <==> forall i :: 0 <= i < |ws| ==> ws[i] != Asleep
    ensures Sleepers(ws) == |ws| <==> forall i :: 0 <= i < |ws| ==> ws[i] == Asleep
  {
    if ws != [] {
      SleepersBounds(ws[1..]);
      assert forall i :: 0 < i < |ws| ==> ws[i] == ws[1..][i - 1];
    }
  }

  /** Conservation: every pushed task is popped or queued, once and in order. Liveness: sleeping
      workers are covered by tasks not yet queued; and every pop since the producer fell asleep has
      woken another sleeper, so few such pops can have happened. */
  predicate Inv<T(==)>(s: State<T>, cap: nat) {
    var n, sleepers := |s.workers|, Sleepers(s.workers);
    && |s.queue| <= cap && s.popped + s.queue == s.pushed
    && (sleepers >= 1 ==> sleepers + |s.queue| <= n)
    && (s.producer.PushAsleep? ==> sleepers + (cap - |s.queue|) <= Max(n - cap, 0))
  }

  lemma AwakenSleepers<T>(s: State<T>, wake: Wake)
    requires Wakeable(s, wake)
    ensures Sleepers(Awaken(s, wake).workers) <= Sleepers(s.workers)
    ensures wake.workers != {} ==> Sleepers(Awaken(s, wake).workers) < Sleepers(s.workers)
  {
    var t := Awaken(s, wake);
    SleepersWoken(s.workers, t.workers);
    if wake.workers != {} {
      var w :| w in wake.workers;
      assert Sleeping(s, w) && t.workers[w] == Ready;
    }
  }

  lemma PushKeeps<T>(s: State<T>, wake: Wake, cap: nat)
    requires Inv(s, cap) && Enabled(s, Push(wake), cap)
    ensures Inv(Do(s, Push(wake), cap), cap)
  {
    var t := s.producer.task;
    var u := s.(queue := s.queue + [t], pushed := s.pushed + [t], producer := Idle);
    assert s.popped + u.queue == (s.popped + s.queue) + [t];
    AwakenSleepers(u, wake);
    if wake.workers == {} {
      forall w | 0 <= w < |s.workers|
        ensures s.workers[w] != Asleep
      {
        assert !Sleeping(s, w);
      }
      SleepersBounds(s.workers);
    }
  }

  lemma PopKeeps<T>(s: State<T>, w: nat, wake: Wake, cap: nat)
    requires Inv(s, cap) && Enabled(s, Pop(w, wake), cap)
    ensures Inv(Do(s, Pop(w, wake), cap), cap)
  {
    var u := s.(queue := s.queue[1..], popped := s.popped + [s.queue[0]], workers := s.workers[w := Busy]);
    assert u.popped + u.queue == s.popped + s.queue;
    SleepersUpdate(s.workers, w, Busy);
    assert forall v :: Sleeping(s, v) ==> Sleeping(u, v);
    AwakenSleepers(u, wake);
    SleepersBounds(s.workers);
  }

  /** Every action keeps the invariant while there are fewer workers than twice the slots. */
  lemma ActionKeeps<T>(s: State<T>, a: Action<T>, cap: nat)
    requires Inv(s, cap) && Enabled(s, a, cap) && |s.workers| < 2 * cap
    ensures Inv(Do(s, a, cap), cap) && |Do(s, a, cap).workers| == |s.workers|
  {
    SleepersBounds(s.workers);
    match a
    case Call(_) =>
    case PushWaits =>
    case Push(wake) => PushKeeps(s, wake, cap);
    case PopWaits(w) =>
      SleepersUpdate(s.workers, w, Asleep);
      SleepersBounds(s.workers[w := Asleep]);
    case Pop(w, wake) => PopKeeps(s, w, wake, cap);
    case Finish(w) => SleepersUpdate(s.workers, w, Ready);
    case Spurious(wake) => AwakenSleepers(s, wake);
  }

  lemma {:induction false} RunKeeps<T>(s: State<T>, acts: seq<Action<T>>, t: State<T>, cap: nat)
    requires Inv(s, cap) && |s.workers| < 2 * cap && Leads(s, acts, t, cap)
    ensures Inv(t, cap) && |t.workers| == |s.workers|
    decreases |acts|
  {
    if acts != [] {
      ActionKeeps(s, acts[0], cap);
      RunKeeps(Do(s, acts[0], cap), acts[1..], t, cap);
    }
  }

  lemma ReachableInv<T(!new)>(t: State<T>, n: nat, cap: nat)
    requires n < 2 * cap && Reachable(t, n, cap)
    ensures Inv(t, cap) && |t.workers| == n
  {
    var acts :| Leads(Initial(n), acts, t, cap);
    SleepersBounds(Initial<T>(n).workers);
    RunKeeps(Initial(n), acts, t, cap);
  }

  predicate Deadlock<T>(s: State<T>) {
    s.producer.PushAsleep? && forall w :: 0 <= w < |s.workers| ==> s.workers[w] == Asleep
  }

  /** With at least one worker and no more workers than slots, no wake-up is lost: a sleeping producer
      means a full queue and no sleeping worker, and tasks never wait while all workers sleep. */
  lemma NoLostWakeup<T(!new)>(s: State<T>, n: nat, cap: nat)
    requires 1 <= n <= cap && Reachable(s, n, cap)
    ensures |s.queue| <= cap && s.popped + s.queue == s.pushed
    ensures s.producer.PushAsleep? ==> |s.queue| == cap && Sleepers(s.workers) == 0
    ensures Sleepers(s.workers) >= 1 ==> Sleepers(s.workers) + |s.queue| <= n
    ensures Sleepers(s.workers) == n ==> s.queue == [] && !s.producer.PushAsleep?
  {
    ReachableInv(s, n, cap);
  }

  // ---------- Both limits are exact ----------

  lemma {:induction false} LeadsOn<T>(s: State<T>, acts: seq<Action<T>>, t: State<T>, a: Action<T>, cap: nat)
    requires Leads(s, acts, t, cap) && Enabled(t, a, cap)
    ensures Leads(s, acts + [a], Do(t, a, cap), cap)
    decreases |acts|
  {
    if acts == [] {
      assert acts + [a] == [a] && [a][1..] == [];
    } else {
      LeadsOn(Do(s, acts[0], cap), acts[1..], t, a, cap);
      assert (acts + [a])[1..] == acts[1..] + [a];
    }
  }

  lemma ReachOn<T(!new)>(t: State<T>, a: Action<T>, n: nat, cap: nat)
    requires Reachable(t, n, cap) && Enabled(t, a, cap)
    ensures Reachable(Do(t, a, cap), n, cap)
  {
    var acts :| Leads(Initial(n), acts, t, cap);
    LeadsOn(Initial(n), acts, t, a, cap);
  }

  function Copies<T>(t: T, k: nat): seq<T> { seq(k, _ => t) }

  /** After `asleep` workers found the queue empty. */
  function AllGoToSleep<T>(n: nat, asleep: nat): State<T> {
    State([], Idle, seq(n, w => if w < asleep then Asleep else Ready), [], [])
  }

  /** After `k` pushes, the i-th of which woke worker i. */
  function AfterPushes<T>(t: T, n: nat, k: nat): State<T> {
    State(Copies(t, k), Idle, seq(n, w => if w < k then Ready else Asleep), Copies(t, k), [])
  }

  /** After the producer then slept, and `k` pops, the i-th by worker i, waking worker cap + i. */
  function AfterPops<T>(t: T, n: nat, cap: nat, k: nat): State<T>
    requires k <= cap
  {
    State(Copies(t, cap - k), PushAsleep(t),
          seq(n, w => if w < k then Busy else if w < cap + k then Ready else Asleep), Copies(t, cap), Copies(t, k))
  }

  /** After `k` of the workers came back to an empty queue. */
  function AfterReturns<T>(t: T, n: nat, cap: nat, k: nat): State<T> {
    State([], PushAsleep(t),
          seq(n, w => if w < k then Asleep else if w < cap then Busy else if w < 2 * cap then Ready else Asleep),
          Copies(t, cap), Copies(t, cap))
  }

  lemma {:induction false} ReachSleep<T(!new)>(t: T, n: nat, cap: nat, k: nat)
    requires k <= n
    ensures Reachable(AllGoToSleep<T>(n, k), n, cap)
    decreases k
  {
    if k == 0 {
      assert AllGoToSleep<T>(n, 0) == Initial(n);
      assert Leads(Initial<T>(n), [], Initial(n), cap);
    } else {
      ReachSleep(t, n, cap, k - 1);
      ReachOn(AllGoToSleep<T>(n, k - 1), PopWaits(k - 1), n, cap);
      assert Do(AllGoToSleep<T>(n, k - 1), PopWaits(k - 1), cap) == AllGoToSleep(n, k);
    }
  }

  lemma {:induction false} ReachPushes<T(!new)>(t: T, n: nat, cap: nat, k: nat)
    requires k <= cap <= n
    ensures Reachable(AfterPushes(t, n, k), n, cap)
    decreases k
  {
    if k == 0 {
      ReachSleep(t, n, cap, n);
      assert AfterPushes(t, n, 0) == AllGoToSleep(n, n);
    } else {
      ReachPushes(t, n, cap, k - 1);
      var s := AfterPushes(t, n, k - 1);
      ReachOn(s, Call(t), n, cap);
      var u := Do(s, Call(t), cap);
      var wake := Wake({k - 1}, false);
      assert Sleeping(u, k - 1);
      ReachOn(u, Push(wake), n, cap);
      assert Copies(t, k - 1) + [t] == Copies(t, k);
      assert Do(u, Push(wake), cap) == AfterPushes(t, n, k);
    }
  }

  lemma {:induction false} ReachPops<T(!new)>(t: T, n: nat, cap: nat, k: nat)
    requires k <= cap && cap + k <= n
    ensures Reachable(AfterPops(t, n, cap, k), n, cap)
    decreases k
  {
    if k == 0 {
      ReachPushes(t, n, cap, cap);
      var s := AfterPushes(t, n, cap);
      ReachOn(s, Call(t), n, cap);
      ReachOn(Do(s, Call(t), cap), PushWaits, n, cap);
      assert Do(Do(s, Call(t), cap), PushWaits, cap) == AfterPops(t, n, cap, 0);
    } else {
      ReachPops(t, n, cap, k - 1);
      var s := AfterPops(t, n, cap, k - 1);
      var wake := Wake({cap + k - 1}, false);
      assert Sleeping(s, cap + k - 1);
      ReachOn(s, Pop(k - 1, wake), n, cap);
      assert Copies(t, k - 1) + [t] == Copies(t, k) && Copies(t, cap - (k - 1))[1..] == Copies(t, cap - k);
      assert Do(s, Pop(k - 1, wake), cap) == AfterPops(t, n, cap, k);
    }
  }

  lemma {:induction false} ReachReturns<T(!new)>(t: T, n: nat, cap: nat, k: nat)
    requires 2 * cap <= n && k <= 2 * cap
    ensures Reachable(AfterReturns(t, n, cap, k), n, cap)
    decreases k
  {
    if k == 0 {
      ReachPops(t, n, cap, cap);
      assert AfterPops(t, n, cap, cap) == AfterReturns(t, n, cap, 0);
    } else {
      ReachReturns(t, n, cap, k - 1);
      var s := AfterReturns(t, n, cap, k - 1);
      var w := k - 1;
      if w < cap {
        ReachOn(s, Finish(w), n, cap);
        s := Do(s, Finish(w), cap);
      }
      ReachOn(s, PopWaits(w), n, cap);
      assert Do(s, PopWaits(w), cap) == AfterReturns(t, n, cap, k);
    }
  }

  /** A sleeping producer always means a full queue, if and only if there are no more workers than
      slots. */
  lemma SleepingProducerMeansFull<T(!new)>(t: T, n: nat, cap: nat)
    requires cap >= 1
    ensures (forall s: State<T> :: Reachable(s, n, cap) && s.producer.PushAsleep? ==> |s.queue| == cap) <==> n <= cap
  {
    if n <= cap {
      forall s: State<T> | Reachable(s, n, cap) && s.producer.PushAsleep?
        ensures |s.queue| == cap
      {
        ReachableInv(s, n, cap);
      }
    } else {
      ReachPops(t, n, cap, 1);
      assert |AfterPops(t, n, cap, 1).queue| == cap - 1;
    }
  }

  /** No run ends with the producer and every worker asleep, if and only if there are fewer workers
      than twice the slots. The server's 4 workers and 128 slots are far on the safe side. */
  lemma DeadlockFreeExactly<T(!new)>(t: T, n: nat, cap: nat)
    requires cap >= 1 && n >= 1
    ensures (forall s: State<T> :: Reachable(s, n, cap) ==> !Deadlock(s)) <==> n < 2 * cap
  {
    if n < 2 * cap {
      forall s: State<T> | Reachable(s, n, cap)
        ensures !Deadlock(s)
      {
        ReachableInv(s, n, cap);
        SleepersBounds(s.workers);
      }
    } else {
      ReachReturns(t, n, cap, 2 * cap);
      assert Deadlock(AfterReturns(t, n, cap, 2 * cap));
    }
  }
}
