/** The linked task queue of a worker in threadpool.c: head, tail and the next links. */
module WorkerQueue {
  import opened Seqs

  class Task {
    const id: nat
    var next: Task?

    /** task_new: a task starts unlinked. */
    constructor (id: nat)
      ensures this.id == id && next == null
    {
      this.id, next := id, null;
    }
  }

  class Worker {
    var head: Task?
    var tail: Task?
    var queueLength: nat

    ghost var queue: seq<Task>

    ghost predicate Valid()
      reads this, queue
    {
      && NoDup(queue) && queueLength == |queue|
      && head == (if queue == [] then null else queue[0])
      && tail == (if queue == [] then null else queue[|queue| - 1])
      && (forall i {:trigger queue[i].next} :: 0 <= i < |queue| ==>
            queue[i].next == if i + 1 < |queue| then queue[i + 1] else null)
    }

    /** worker_init */
    constructor ()
      ensures Valid() && queue == []
    {
      head, tail, queueLength, queue := null, null, 0, [];
    }

    /** The linking part of cx_threadpool_schedule. */
    method Link(task: Task)
      requires Valid() && task !in queue && task.next == null
      modifies this, queue
      ensures Valid() && queue == old(queue) + [task]
    {
      if tail != null {
        tail.next := task;
      } else {
        head := task;
      }
      tail := task;
      queue := queue + [task];
      queueLength := queueLength + 1;
    }

    /** worker_get_task: the oldest task, or NULL from an empty queue. */
    method GetTask() returns (task: Task?)
      requires Valid()
      modifies this
      ensures Valid()
      ensures old(queue) == [] ==> task == null && queue == []
      ensures old(queue) != [] ==> task == old(queue)[0] && queue == old(queue)[1..]
    {
      task := head;
      if task != null {
        head := task.next;
        if head == null {
          tail := null;
        }
        queue := queue[1..];
        queueLength := queueLength - 1;
      }
    }
  }
}
