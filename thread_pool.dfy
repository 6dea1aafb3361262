/**
 * `thread_pool`: workers are started on demand, up to `max_workers`, and
 * take tasks from an `async_queue`. The model is sequential. A task is
 * named by a number; running it is recorded by appending that number to
 * `completed`, which is when its future becomes ready. A worker taking a
 * task and finishing it are two separate steps, so other operations can
 * happen while tasks run.
 */
module Pool {
  import opened Queue

  /** How a turn of a worker's loop ends. */
  datatype Turn = Exited | Waiting | Started(task: nat)

  class ThreadPool {
    const maxWorkers: nat
    /** `workers.size()`: the worker threads started so far. */
    var workers: nat
    /** `num_idle_workers`. */
    var idle: nat
    /** Workers whose loop has ended; they stay in `workers` until the pool is destroyed. */
    var exited: nat
    /** The tasks being run, one per busy worker. */
    var running: seq<nat>
    /** The tasks that have run, in the order they finished. */
    var completed: seq<nat>
    const tasks: AsyncQueue<nat>

    /**
     * Every started worker is either counted as idle or is running a task;
     * a worker whose loop ended is still counted as idle, since it never
     * gives its count back.
     */
    predicate Valid()
      reads this
    {
      workers <= maxWorkers && idle + |running| == workers && exited <= idle
    }

    /** `thread_pool(max_workers)`: no workers yet. */
    constructor (max: nat)
      ensures Valid()
      ensures maxWorkers == max && workers == 0 && idle == 0 && exited == 0
      ensures running == [] && completed == []
      ensures fresh(tasks) && tasks.items == [] && !tasks.shouldStop
    {
      maxWorkers := max;
      workers := 0;
      idle := 0;
      exited := 0;
      running := [];
      completed := [];
      tasks := new AsyncQueue<nat>();
    }

    /** `add_worker`: at the cap nothing happens; otherwise one more idle worker. */
    method AddWorker()
      requires Valid()
      modifies this
      ensures Valid()
      ensures old(workers) >= maxWorkers ==> workers == old(workers) && idle == old(idle)
      ensures old(workers) < maxWorkers ==> workers == old(workers) + 1 && idle == old(idle) + 1
      ensures exited == old(exited) && running == old(running) && completed == old(completed)
    {
      if workers >= maxWorkers {
        return;
      }
      idle := idle + 1;
      workers := workers + 1;
    }

    /**
     * `submit`: with no workers allowed the task runs on the caller before
     * `submit` returns. Otherwise a worker is added when none is idle, and
     * the task is queued.
     */
    method Submit(task: nat)
      requires Valid()
      modifies this, tasks
      ensures Valid()
      ensures maxWorkers == 0 ==>
                completed == old(completed) + [task] && tasks.items == old(tasks.items) &&
                workers == old(workers) && idle == old(idle)
      ensures maxWorkers > 0 ==>
                tasks.items == old(tasks.items) + [task] && completed == old(completed) &&
                workers == old(workers) + (if old(idle) == 0 && old(workers) < maxWorkers then 1 else 0) &&
                idle == old(idle) + (workers - old(workers))
      ensures tasks.shouldStop == old(tasks.shouldStop)
      ensures running == old(running) && exited == old(exited)
    {
      if maxWorkers == 0 {
        completed := completed + [task];
      } else {
        if idle == 0 {
          AddWorker();
        }
        tasks.Push(task);
      }
    }

    /**
     * One turn of `worker_thread`'s loop for an idle, live worker, up to the
     * point where the task runs. The loop ends when the stop token is set
     * or `pop` throws `stop_request` (the throw is swallowed); with nothing
     * queued the worker waits. Otherwise the worker leaves the idle count
     * and starts the front task.
     */
    method StartTask(stopRequested: bool) returns (t: Turn)
      requires Valid() && idle > exited
      modifies this, tasks
      ensures Valid()
      ensures t == Exited <==> stopRequested || old(tasks.shouldStop)
      ensures t == Waiting <==> !stopRequested && !old(tasks.shouldStop) && old(tasks.items) == []
      ensures t.Started? ==>
                t.task == old(tasks.items)[0] && tasks.items == old(tasks.items)[1..] &&
                running == old(running) + [t.task] && idle == old(idle) - 1
      ensures !t.Started? ==> tasks.items == old(tasks.items) && running == old(running) && idle == old(idle)
      ensures exited == old(exited) + (if t == Exited then 1 else 0)
      ensures workers == old(workers) && completed == old(completed)
      ensures tasks.shouldStop == old(tasks.shouldStop)
    {
      if stopRequested {
        exited := exited + 1;
        return Exited;
      }
      var r := tasks.Pop();
      match r {
        case StopRequest =>
          exited := exited + 1;
          t := Exited;
        case Item(task) =>
          idle := idle - 1;
          running := running + [task];
          t := Started(task);
        case _ =>
          t := Waiting;
      }
    }

    /** The rest of the loop turn: the i-th running task finishes and its worker is idle again. */
    method FinishTask(i: nat)
      requires Valid() && i < |running|
      modifies this
      ensures Valid()
      ensures completed == old(completed) + [old(running)[i]]
      ensures running == old(running)[..i] + old(running)[i + 1..]
      ensures idle == old(idle) + 1
      ensures workers == old(workers) && exited == old(exited)
    {
      completed := completed + [running[i]];
      running := running[..i] + running[i + 1..];
      idle := idle + 1;
    }

    /**
     * One whole turn of `worker_thread`'s loop: a task that starts also
     * finishes before the next turn, so the idle count it gave up is given
     * back and the pool's running set is as before.
     */
    method WorkerTurn(stopRequested: bool) returns (t: Turn)
      requires Valid() && idle > exited
      modifies this, tasks
      ensures Valid()
      ensures t.Started? ==>
                old(tasks.items) != [] && t.task == old(tasks.items)[0] && tasks.items == old(tasks.items)[1..] &&
                completed == old(completed) + [t.task] &&
                running == old(running) && idle == old(idle)
      ensures !t.Started? ==>
                tasks.items == old(tasks.items) && completed == old(completed) &&
                running == old(running) && idle == old(idle)
      ensures t == Exited <==> stopRequested || old(tasks.shouldStop)
      ensures exited == old(exited) + (if t == Exited then 1 else 0)
      ensures workers == old(workers) && tasks.shouldStop == old(tasks.shouldStop)
    {
      t := StartTask(stopRequested);
      if t.Started? {
        FinishTask(|running| - 1);
        assert running == old(running);
      }
    }

    /** `~thread_pool`: stops the queue, so every waiting or later `pop` throws. */
    method Shutdown()
      modifies tasks
      ensures tasks.shouldStop && tasks.items == old(tasks.items)
    {
      tasks.Stop();
    }
  }
}
