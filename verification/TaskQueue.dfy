/** The bounded task queue of src/server/task.c as a data structure: a ring buffer that is a FIFO
    queue. The blocking of push and pop is in module QueueProtocol. */
module TaskQueue {

  datatype Task = Task(fd: int, data: string, length: int)

  const TASK_QUEUE_CAPACITY := 128

  class Queue {
    const queue: array<Task>
    var front: int
    var rear: int
    var count: int
    ghost var pushed: seq<Task>  // every task ever stored
    ghost var popped: seq<Task>  // every task ever taken

    ghost predicate Indexed()
      reads this
    {
      && queue.Length == TASK_QUEUE_CAPACITY
      && 0 <= front < TASK_QUEUE_CAPACITY && 0 <= count <= TASK_QUEUE_CAPACITY
      && rear == (front + count) % TASK_QUEUE_CAPACITY
    }

    /** The queued tasks, oldest first. */
    ghost function Contents(): (s: seq<Task>)
      requires Indexed()
      reads this, queue
      ensures |s| == count
    {
      seq(count, i requires 0 <= i < count reads this, queue requires Indexed() =>
        queue[(front + i) % TASK_QUEUE_CAPACITY])
    }

    /** The indices are consistent, and what was taken followed by what is queued is what was stored:
        each task once, in order. */
    ghost predicate Valid()
      reads this, queue
    {
      Indexed() && popped + Contents() == pushed
    }

    /** task_queue_init */
    constructor ()
      ensures Valid() && Contents() == pushed == popped == [] && fresh(queue) && queue.Length == 128
    {
      queue := new Task[TASK_QUEUE_CAPACITY](_ => Task(0, "", 0));
      front, rear, count := 0, 0, 0;
      pushed, popped := [], [];
    }

    /** task_queue_push once its wait loop has found a free slot. */
    method Enqueue(task: Task)
      requires Valid() && count < TASK_QUEUE_CAPACITY
      modifies this, queue
      ensures Valid() && Contents() == old(Contents()) + [task]
      ensures pushed == old(pushed) + [task] && popped == old(popped)
    {
      ghost var before := Contents();
      queue[rear] := task;
      rear := (rear + 1) % TASK_QUEUE_CAPACITY;
      count := count + 1;
      pushed := pushed + [task];
      assert Contents() == before + [task];
    }

    /** task_queue_pop once its wait loop has found a task, while keep_running is set. */
    method Dequeue() returns (task: Task)
      requires Valid() && count > 0
      modifies this
      ensures Valid() && [task] + Contents() == old(Contents())
      ensures popped == old(popped) + [task] && pushed == old(pushed)
    {
      ghost var before := Contents();
      task := queue[front];
      front := (front + 1) % TASK_QUEUE_CAPACITY;
      count := count - 1;
      popped := popped + [task];
      assert before == [task] + Contents();
    }
  }
}
