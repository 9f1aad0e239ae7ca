/** The bounded queue of server/tasks_queue.c: the ring buffer as a value, its FIFO reading,
    and the class whose fields the critical sections update. */
module TasksQueue {
  import opened Text

  const THREAD_POOL_SZ: nat := 30

  datatype Ring<T> = Ring(tasks: seq<T>, size: nat, head: nat, tail: nat) {

    /** The array is twice as long as the ring that is used. */
    predicate Ok() {
      && |tasks| == THREAD_POOL_SZ * 2
      && size <= THREAD_POOL_SZ && head < THREAD_POOL_SZ && tail < THREAD_POOL_SZ
      && head == (tail + size) % THREAD_POOL_SZ
    }

    /** The queued tasks, oldest first. */
    function Contents(): (s: seq<T>)
      requires Ok()
      ensures |s| == size
    {
      seq(size, i requires 0 <= i < size => tasks[(tail + i) % THREAD_POOL_SZ])
    }

    function Put(task: T): Ring<T>
      requires Ok() && size != THREAD_POOL_SZ
    {
      Ring(tasks[head := task], size + 1, (head + 1) % THREAD_POOL_SZ, tail)
    }

    function Front(): T
      requires Ok() && size != 0
    {
      tasks[tail]
    }

    function Take(): Ring<T>
      requires Ok() && size != 0
    {
      Ring(tasks, size - 1, head, (tail + 1) % THREAD_POOL_SZ)
    }
  }

  /** Putting appends to the FIFO and overwrites no queued task. */
  lemma PutAppends<T>(r: Ring<T>, task: T)
    requires r.Ok() && r.size != THREAD_POOL_SZ
    ensures r.Put(task).Ok()
    ensures r.Put(task).Contents() == r.Contents() + [task]
  {
    var p := r.Put(task);
    forall i | 0 <= i < r.size ensures p.Contents()[i] == r.Contents()[i] {
      assert (r.tail + i) % THREAD_POOL_SZ != r.head;
    }
  }

  lemma Wrap(k: nat)
    requires k < THREAD_POOL_SZ * 2
    ensures k % THREAD_POOL_SZ == if k < THREAD_POOL_SZ then k else k - THREAD_POOL_SZ
  {
  }

  lemma NextSlot(tail: nat, i: nat)
    requires tail < THREAD_POOL_SZ && i + 1 < THREAD_POOL_SZ
    ensures ((tail + 1) % THREAD_POOL_SZ + i) % THREAD_POOL_SZ == (tail + (i + 1)) % THREAD_POOL_SZ
  {
    Wrap(tail + 1);
    Wrap((tail + 1) % THREAD_POOL_SZ + i);
    Wrap(tail + (i + 1));
  }

  /** Taking removes exactly the oldest task. */
  lemma TakeRemoves<T>(r: Ring<T>)
    requires r.Ok() && r.size != 0
    ensures r.Take().Ok()
    ensures r.Contents() == [r.Front()] + r.Take().Contents()
  {
    var q := r.Take();
    Wrap(r.tail + r.size);
    Wrap(r.tail + 1);
    Wrap(q.tail + q.size);
    Wrap(r.tail);
    assert r.Contents()[0] == r.Front();
    forall i | 0 <= i < q.size ensures q.Contents()[i] == r.Contents()[i + 1] {
      NextSlot(r.tail, i);
    }
    assert r.Contents()[1..] == q.Contents();
  }

  /** `struct tasks_queue`. A method is what one thread does between taking the mutex and
      either releasing it or going to sleep; the threads themselves are in QueueProtocol. */
  class Queue<T(0)> {
    const tasks: array<T>
    var size: nat
    var head: nat
    var tail: nat

    ghost function View(): Ring<T>
      reads this, tasks
    {
      Ring(tasks[..], size, head, tail)
    }

    ghost predicate Valid()
      reads this, tasks
    {
      View().Ok()
    }

    constructor InitQueue()
      ensures Valid() && fresh(tasks) && View().Contents() == []
    {
      tasks := new T[THREAD_POOL_SZ * 2];
      size, head, tail := 0, 0, 0;
    }

    /** One pass of `enqueue` through its wait test: `false` means the thread waits on
        `not_full` and nothing has changed. */
    method Enqueue(task: T) returns (done: bool)
      requires Valid()
      modifies this, tasks
      ensures Valid()
      ensures done <==> old(View().size) != THREAD_POOL_SZ
      ensures done ==> View() == old(View()).Put(task)
      ensures done ==> View().Contents() == old(View().Contents()) + [task]
      ensures !done ==> View() == old(View())
    {
      if size == THREAD_POOL_SZ {
        return false;
      }
      PutAppends(View(), task);
      tasks[head] := task;
      head := (head + 1) % THREAD_POOL_SZ;
      size := size + 1;
      return true;
    }

    /** One pass of `dequeue` through its wait test: `None` means the thread waits on
        `not_empty` and nothing has changed. */
    method Dequeue() returns (task: Option<T>)
      requires Valid()
      modifies this
      ensures Valid()
      ensures task.Some? <==> old(View().size) != 0
      ensures task.Some? ==> View() == old(View()).Take()
      ensures task.Some? ==> [task.value] + View().Contents() == old(View().Contents())
      ensures task.None? ==> View() == old(View())
    {
      if size == 0 {
        return None;
      }
      TakeRemoves(View());
      task := Some(tasks[tail]);
      tail := (tail + 1) % THREAD_POOL_SZ;
      size := size - 1;
    }
  }
}
