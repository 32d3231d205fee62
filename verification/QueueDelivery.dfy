/** What the queue protocol of src/server/task.c delivers: once the main thread stops calling push, the
    threads come to rest after finitely many critical sections, and then every task has been taken. */
module QueueDelivery {
  import opened QueueProtocol

  /** An action of the program itself: no new task from outside, no wait that ends on its own. */
  predicate Working<T>(a: Action<T>) {
    !a.Call? && !a.Spurious?
  }

  predicate AllWorking<T>(acts: seq<Action<T>>) {
    forall i :: 0 <= i < |acts| ==> Working(acts[i])
  }

  /** No thread can go on. */
  ghost predicate AtRest<T(!new)>(s: State<T>, cap: nat) {
    forall a :: Enabled(s, a, cap) ==> !Working(a)
  }

  /** The task that the producer has not stored yet. */
  function Pending<T>(s: State<T>): seq<T> {
    match s.producer
    case Idle => []
    case Pushing(t) => [t]
    case PushAsleep(t) => [t]
  }

  // ---------- Every run comes to rest ----------

  function Energy(ws: seq<Worker>): nat {
    if ws == [] then 0 else Energy(ws[1..]) + match ws[0] case Busy => 2 case Ready => 1 case Asleep => 0
  }

  /** An upper bound on the number of actions that the state still allows. */
  function Effort<T>(s: State<T>): nat {
    (|s.queue| + 2 * |Pending(s)|) * (2 * |s.workers| + 2) + Energy(s.workers) + if s.producer.Pushing? then 1 else 0
  }

  lemma {:induction false} EnergyUpdate(ws: seq<Worker>, w: nat, x: Worker)
    requires w < |ws|
    ensures Energy(ws[w := x]) == Energy(ws) - Energy([ws[w]]) + Energy([x])
  {
    if w > 0 {
      EnergyUpdate(ws[1..], w - 1, x);
      assert ws[w := x][1..] == ws[1..][w - 1 := x];
    } else {
      assert ws[w := x][1..] == ws[1..];
      assert Energy([ws[0]][1..]) == Energy([x][1..]) == 0;
    }
  }

  lemma {:induction false} EnergyWoken(ws: seq<Worker>, vs: seq<Worker>)
    requires WokenFrom(ws, vs)
    ensures Energy(vs) <= Energy(ws) + |ws|
  {
    if ws != [] {
      EnergyWoken(ws[1..], vs[1..]);
    }
  }

  lemma AwakenEffort<T>(s: State<T>, wake: Wake)
    requires Wakeable(s, wake)
    ensures Effort(Awaken(s, wake)) <= Effort(s) + |s.workers| + 1
    ensures Pending(Awaken(s, wake)) == Pending(s) && |Awaken(s, wake).workers| == |s.workers|
  {
    assert forall w :: w in wake.workers ==> Sleeping(s, w);
    EnergyWoken(s.workers, Awaken(s, wake).workers);
  }

  /** Storing or taking a task pays for all wake-ups. */
  lemma TaskStep<T>(s: State<T>, u: State<T>)
    requires |u.workers| == |s.workers| > 0 && Energy(u.workers) <= Energy(s.workers) + 1
    requires |u.queue| + 2 * |Pending(u)| + 1 == |s.queue| + 2 * |Pending(s)|
    requires u.producer.Pushing? ==> s.producer.Pushing?
    ensures Effort(u) + |s.workers| + 1 < Effort(s)
  {
    var m := 2 * |s.workers| + 2;
    var b, c := |s.queue| + 2 * |Pending(s)|, |u.queue| + 2 * |Pending(u)|;
    assert b * m == c * m + m by {
      assert b == c + 1;
    }
  }

  /** Each action of the program takes at least one off the bound, and tasks are neither lost nor made. */
  lemma EffortFalls<T>(s: State<T>, a: Action<T>, cap: nat)
    requires Enabled(s, a, cap) && Working(a) && |s.workers| > 0
    ensures Effort(Do(s, a, cap)) < Effort(s) && |Do(s, a, cap).workers| == |s.workers|
    ensures Do(s, a, cap).pushed + Pending(Do(s, a, cap)) == s.pushed + Pending(s)
  {
    match a
    case PushWaits =>
    case Push(wake) =>
      var u := s.(queue := s.queue + [s.producer.task], pushed := s.pushed + [s.producer.task], producer := Idle);
      TaskStep(s, u);
      AwakenEffort(u, wake);
    case PopWaits(w) =>
      EnergyUpdate(s.workers, w, Asleep);
    case Pop(w, wake) =>
      EnergyUpdate(s.workers, w, Busy);
      var u := s.(queue := s.queue[1..], popped := s.popped + [s.queue[0]], workers := s.workers[w := Busy]);
      TaskStep(s, u);
      assert forall v :: Sleeping(s, v) ==> Sleeping(u, v);
      AwakenEffort(u, wake);
    case Finish(w) =>
      EnergyUpdate(s.workers, w, Ready);
  }

  lemma {:induction false} RunEffort<T>(s: State<T>, acts: seq<Action<T>>, t: State<T>, cap: nat)
    requires Leads(s, acts, t, cap) && AllWorking(acts) && |s.workers| > 0
    ensures |acts| + Effort(t) <= Effort(s) && t.pushed + Pending(t) == s.pushed + Pending(s)
    decreases |acts|
  {
    if acts != [] {
      EffortFalls(s, acts[0], cap);
      RunEffort(Do(s, acts[0], cap), acts[1..], t, cap);
    }
  }

  // ---------- Where it comes to rest ----------

  /** The signal that wakes every sleeper. */
  function WakeAll<T>(s: State<T>): (wake: Wake)
    ensures Signals(s, wake)
  {
    var wake := Wake((set w: nat | w < |s.workers| && s.workers[w] == Asleep), s.producer.PushAsleep?);
    assert forall w :: Sleeping(s, w) ==> w in wake.workers;
    wake
  }

  /** At rest all workers sleep, and the producer is not on its way to the queue. */
  lemma RestingThreads<T(!new)>(s: State<T>, cap: nat)
    requires AtRest(s, cap)
    ensures !s.producer.Pushing? && forall w :: 0 <= w < |s.workers| ==> s.workers[w] == Asleep
  {
    var wake := WakeAll(s);
    assert !Enabled(s, PushWaits, cap) by {
      assert Working<T>(PushWaits);
    }
    assert !Enabled(s, Push(wake), cap) by {
      assert Working<T>(Push(wake));
    }
    forall w | 0 <= w < |s.workers|
      ensures s.workers[w] == Asleep
    {
      assert !Enabled(s, Finish(w), cap) by {
        assert Working<T>(Finish(w));
      }
      assert !Enabled(s, PopWaits(w), cap) by {
        assert Working<T>(PopWaits(w));
      }
      assert !Enabled(s, Pop(w, wake), cap) by {
        assert Working<T>(Pop(w, wake));
      }
    }
  }

  /** With fewer workers than twice the slots, rest means that nothing is left to do. */
  lemma NothingLeft<T(!new)>(s: State<T>, n: nat, cap: nat)
    requires 1 <= n < 2 * cap && Reachable(s, n, cap) && AtRest(s, cap)
    ensures s.producer.Idle? && s.queue == [] && s.popped == s.pushed
  {
    ReachableInv(s, n, cap);
    RestingThreads(s, cap);
    SleepersBounds(s.workers);
    assert s.popped + [] == s.popped;
  }

  lemma {:induction false} ReachRun<T(!new)>(s: State<T>, acts: seq<Action<T>>, t: State<T>, n: nat, cap: nat)
    requires Reachable(s, n, cap) && Leads(s, acts, t, cap)
    ensures Reachable(t, n, cap)
    decreases |acts|
  {
    if acts != [] {
      ReachOn(s, acts[0], n, cap);
      ReachRun(Do(s, acts[0], cap), acts[1..], t, n, cap);
    }
  }

  /** From every reachable state the program's own actions end after at most Effort(s) of them, and when
      they have ended, every task ever given to push has been taken, in order. */
  ghost predicate Delivers<T(!new)>(n: nat, cap: nat) {
    forall s: State<T>, acts, t :: Reachable(s, n, cap) && AllWorking(acts) && Leads(s, acts, t, cap) ==>
      && |acts| <= Effort(s)
      && (AtRest(t, cap) ==> t.producer.Idle? && t.queue == [] && t.popped == s.pushed + Pending(s))
  }

  /** Every task is delivered, if and only if there are fewer workers than twice the slots. */
  lemma DeliveryExactly<T(!new)>(task: T, n: nat, cap: nat)
    requires cap >= 1 && n >= 1
    ensures Delivers<T>(n, cap) <==> n < 2 * cap
  {
    if n < 2 * cap {
      forall s: State<T>, acts, t | Reachable(s, n, cap) && AllWorking(acts) && Leads(s, acts, t, cap)
        ensures |acts| <= Effort(s)
        ensures AtRest(t, cap) ==> t.producer.Idle? && t.queue == [] && t.popped == s.pushed + Pending(s)
      {
        ReachableInv(s, n, cap);
        RunEffort(s, acts, t, cap);
        ReachRun(s, acts, t, n, cap);
        if AtRest(t, cap) {
          NothingLeft(t, n, cap);
        }
      }
    } else {
      ReachReturns(task, n, cap, 2 * cap);
      var s := AfterReturns(task, n, cap, 2 * cap);
      assert Leads(s, [], s, cap) && AllWorking<T>([]) && AtRest(s, cap) && !s.producer.Idle?;
    }
  }
}
