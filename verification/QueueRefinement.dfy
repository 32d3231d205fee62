/** The ring buffer of module TaskQueue carries out the protocol of module QueueProtocol: the two sides
    of src/server/task.c joined. */
module QueueRefinement {
  import opened QueueProtocol
  import opened TaskQueue

  /** The ring holds the protocol's queue, with the same history. */
  ghost predicate Implements(q: Queue, s: State<Task>)
    reads q, q.queue
  {
    q.Valid() && q.Contents() == s.queue && q.pushed == s.pushed && q.popped == s.popped
  }

  /** The critical section of task_queue_push, from the loop test to `unlock` or `wait`: it is the
      action Push where there is room and PushWaits where there is none. */
  method PushSection(q: Queue, task: Task, ghost s: State<Task>, ghost wake: Wake) returns (stored: bool)
    requires Implements(q, s) && s.producer == Pushing(task)
    requires |s.queue| != TASK_QUEUE_CAPACITY ==> Signals(s, wake)
    modifies q, q.queue
    ensures var a := if stored then Push(wake) else PushWaits;
            Enabled(s, a, TASK_QUEUE_CAPACITY) && Implements(q, Do(s, a, TASK_QUEUE_CAPACITY))
  {
    if q.count == TASK_QUEUE_CAPACITY {
      return false;
    }
    q.Enqueue(task);
    return true;
  }

  /** The same for task_queue_pop and worker `w`; the task taken is the oldest. */
  method PopSection(q: Queue, ghost w: nat, ghost s: State<Task>, ghost wake: Wake) returns (taken: bool, task: Task)
    requires Implements(q, s) && w < |s.workers| && s.workers[w] == Ready
    requires s.queue != [] ==> Signals(s, wake)
    modifies q
    ensures var a := if taken then Pop(w, wake) else PopWaits(w);
            Enabled(s, a, TASK_QUEUE_CAPACITY) && Implements(q, Do(s, a, TASK_QUEUE_CAPACITY))
    ensures taken ==> task == s.queue[0]
  {
    if q.count == 0 {
      return false, Task(0, "", 0);
    }
    task := q.Dequeue();
    return true, task;
  }

  /** One action of a schedule on the ring. */
  method Perform(q: Queue, a: Action<Task>, s: State<Task>)
    requires Implements(q, s) && Enabled(s, a, TASK_QUEUE_CAPACITY)
    modifies q, q.queue
    ensures Implements(q, Do(s, a, TASK_QUEUE_CAPACITY))
  {
    match a
    case Push(wake) =>
      var stored := PushSection(q, s.producer.task, s, wake);
    case PushWaits =>
      var stored := PushSection(q, s.producer.task, s, Wake({}, false));
    case Pop(w, wake) =>
      var taken, task := PopSection(q, w, s, wake);
    case PopWaits(w) =>
      var taken, task := PopSection(q, w, s, Wake({}, false));
    case _ =>
  }

  /** Whatever the schedule of producer and workers, the ring that its critical sections leave is that
      of the state the protocol reaches. */
  method Replay(n: nat, acts: seq<Action<Task>>, ghost t: State<Task>) returns (q: Queue)
    requires Leads(Initial(n), acts, t, TASK_QUEUE_CAPACITY)
    ensures fresh(q) && fresh(q.queue) && Implements(q, t)
  {
    q := new Queue();
    var s: State<Task> := Initial(n);
    var i := 0;
    while i < |acts|
      invariant 0 <= i <= |acts| && fresh(q) && fresh(q.queue)
      invariant Implements(q, s) && Leads(s, acts[i..], t, TASK_QUEUE_CAPACITY)
    {
      assert acts[i..][1..] == acts[i + 1..];
      Perform(q, acts[i], s);
      s := Do(s, acts[i], TASK_QUEUE_CAPACITY);
      i := i + 1;
    }
  }
}
