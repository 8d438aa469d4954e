/**
 * The background worker of `sentry_sdk/worker.py`: a restartable consumer thread on a bounded queue,
 * stopped by a sentinel in the queue.
 */
module Worker {
  import opened Options
  import opened Queue

  /** `fatal`: the callback raises something `except Exception` does not catch, such as SystemExit. */
  datatype Job = Callback(id: nat, fatal: bool) | Terminator

  /** A consumer thread: waiting in `get`, running a job, returned from `_target`, or killed by a fatal callback. */
  datatype Thread = Idle | Holding(job: Job) | Ended | Crashed

  predicate Alive(t: Thread) {
    t.Idle? || t.Holding?
  }

  class BackgroundWorker {
    const queue: Queue<Job>
    var threads: seq<Thread>          // every consumer thread ever started
    var handle: Option<nat>           // self._thread, with self._thread_for_pid set along with it

    ghost predicate Valid()
      reads this
    {
      handle.Some? ==> handle.value < |threads|
    }

    constructor (queueSize: int)
      ensures Valid() && fresh(queue) && queue.maxsize == queueSize && queue.Now() == State([], 0)
      ensures threads == [] && handle == None
    {
      queue := new Queue<Job>(queueSize);
      threads, handle := [], None;
    }

    predicate IsAlive(): (alive: bool)
      requires Valid()
      reads this
      ensures alive <==> handle.Some? && !threads[handle.value].Ended? && !threads[handle.value].Crashed?
    {
      handle.Some? && Alive(threads[handle.value])
    }

    /** `start`; `canStart` says whether the interpreter can still start threads. */
    method Start(canStart: bool)
      requires Valid()
      modifies this
      ensures Valid()
      ensures (threads, handle) == StartSection(old(threads), old(handle), canStart)
      ensures old(IsAlive()) ==> threads == old(threads) && handle == old(handle)
      ensures !old(IsAlive()) && canStart ==> threads == old(threads) + [Idle] && handle == Some(|old(threads)|)
      ensures !old(IsAlive()) && !canStart ==> threads == old(threads) && handle == None
    {
      if !IsAlive() {
        if canStart {
          handle := Some(|threads|);
          threads := threads + [Idle];
        } else {
          handle := None;
        }
      }
    }

    /** `kill`: a full queue only means the sentinel is not delivered; the thread is forgotten anyway. */
    method Kill()
      requires Valid()
      modifies this`handle, queue
      ensures Valid() && handle == None
      ensures queue.Now() == KillSection(old(queue.Now()), old(handle), queue.maxsize)
      ensures if old(handle).Some? && (queue.maxsize <= 0 || |old(queue.items)| < queue.maxsize)
              then queue.items == old(queue.items) + [Terminator]
              else queue.items == old(queue.items)
    {
      if handle.Some? {
        var r := queue.Put(Terminator, NoWait, 0.0);
        handle := None;
      }
    }

    method Submit(callback: Job, canStart: bool) returns (queued: bool)
      requires Valid() && callback.Callback?
      modifies this, queue
      ensures Valid()
      ensures (threads, handle) == StartSection(old(threads), old(handle), canStart)
      ensures IsAlive() <==> old(IsAlive()) || canStart
      ensures queued <==> queue.maxsize <= 0 || |old(queue.items)| < queue.maxsize
      ensures queue.Now() == if queued then PutItem(old(queue.Now()), callback) else old(queue.Now())
      ensures queue.items == old(queue.items) + if queued then [callback] else []
    {
      if !IsAlive() {
        Start(canStart);
      }
      var r := queue.Put(callback, NoWait, 0.0);
      queued := r.Finished?;
    }

    /** A consumer thread takes a job: the `get` of `_target`. */
    method Take(t: nat) returns (taken: bool)
      requires Valid() && t < |threads| && threads[t].Idle?
      modifies this`threads, queue
      ensures Valid() && taken == (old(queue.items) != [])
      ensures taken ==> threads == old(threads)[t := Holding(old(queue.items)[0])]
      ensures taken ==> queue.items == old(queue.items)[1..]
      ensures taken ==> queue.Now() == TakeItem(old(queue.Now()))
      ensures !taken ==> threads == old(threads) && queue.Now() == old(queue.Now())
    {
      var r := queue.Get(Forever, 0.0);
      taken := r.Finished?;
      if taken {
        threads := threads[t := Holding(r.value)];
      }
    }

    /** The rest of a round of `_target`: the job is over and `task_done` is called in any case. */
    method Finish(t: nat) returns (raised: bool)
      requires Valid() && t < |threads| && threads[t].Holding?
      modifies this`threads, queue
      ensures Valid() && raised == (old(queue.unfinishedTasks) == 0)
      ensures !raised ==>
                var job := old(threads)[t].job;
                threads == old(threads)[t := if job.Terminator? then Ended else if job.fatal then Crashed else Idle]
      ensures !raised ==> queue.Now() == old(queue.Now()).(unfinished := old(queue.Now()).unfinished - 1)
    {
      var job := threads[t].job;
      var notifyAll;
      raised, notifyAll := queue.TaskDone();
      threads := threads[t := if raised then Crashed else NextThread(job)];
    }
  }

  function StartSection(threads: seq<Thread>, handle: Option<nat>, canStart: bool): (seq<Thread>, Option<nat>)
    requires handle.Some? ==> handle.value < |threads|
  {
    if handle.Some? && Alive(threads[handle.value]) then (threads, handle)
    else if canStart then (threads + [Idle], Some(|threads|))
    else (threads, None)
  }

  function KillSection(q: State<Job>, handle: Option<nat>, maxsize: int): State<Job> {
    if handle.Some? && HasRoom(q, maxsize) then PutItem(q, Terminator) else q
  }

  /** What becomes of a thread that finishes a job. */
  function NextThread(job: Job): Thread {
    match job
    case Terminator => Ended
    case Callback(_, fatal) => if fatal then Crashed else Idle
  }
}
