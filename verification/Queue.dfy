/** The bounded queue of `sentry_sdk/_queue.py`.  Each method is a section run under the queue's mutex. */
module Queue {
  datatype State<T> = State(items: seq<T>, unfinished: nat)

  predicate HasRoom<T>(s: State<T>, maxsize: int) {
    maxsize <= 0 || |s.items| < maxsize
  }

  function PutItem<T>(s: State<T>, item: T): State<T> {
    State(s.items + [item], s.unfinished + 1)
  }

  function TakeItem<T>(s: State<T>): State<T>
    requires s.items != []
  {
    s.(items := s.items[1..])
  }

  /** How long a call is willing to wait, as far as it matters: not at all, for ever, or for a time. */
  datatype Patience = NoWait | Forever | Timeout(seconds: real)

  datatype Error = FullError | EmptyError | ValueError

  /** What a call does in one round under the mutex; `Wait` releases the mutex and comes back. */
  datatype Round<T> = Finished(value: T) | Failed(error: Error) | Wait

  class Queue<T> {
    const maxsize: int
    var items: seq<T>
    var unfinishedTasks: nat

    function Now(): State<T>
      reads this
    {
      State(items, unfinishedTasks)
    }

    constructor (maxsize: int)
      ensures this.maxsize == maxsize && Now() == State([], 0)
    {
      this.maxsize := maxsize;
      items, unfinishedTasks := [], 0;
    }

    /** One round of `put`; `remaining` is the time left before the deadline. */
    method Put(item: T, patience: Patience, remaining: real) returns (r: Round<()>)
      modifies this
      ensures r.Finished? <==> maxsize <= 0 || (|old(items)| < maxsize && !NegativeTimeout(patience))
      ensures r.Finished? ==> items == old(items) + [item] && unfinishedTasks == old(unfinishedTasks) + 1
      ensures !r.Finished? ==> items == old(items) && unfinishedTasks == old(unfinishedTasks)
      ensures r == Failed(ValueError) <==> maxsize > 0 && patience.Timeout? && patience.seconds < 0.0
      ensures r == Failed(FullError) <==>
                && 0 < maxsize <= |old(items)|
                && (patience.NoWait? || (patience.Timeout? && patience.seconds >= 0.0 && remaining <= 0.0))
      ensures r != Failed(EmptyError)
    {
      if maxsize > 0 {
        if patience.NoWait? {
          if |items| >= maxsize {
            return Failed(FullError);
          }
        } else if patience.Forever? {
          if |items| >= maxsize {
            return Wait;
          }
        } else if patience.seconds < 0.0 {
          return Failed(ValueError);
        } else if |items| >= maxsize {
          if remaining <= 0.0 {
            return Failed(FullError);
          }
          return Wait;
        }
      }
      items := items + [item];
      unfinishedTasks := unfinishedTasks + 1;
      r := Finished(());
    }

    /** One round of `get`. */
    method Get(patience: Patience, remaining: real) returns (r: Round<T>)
      modifies this`items
      ensures r.Finished? <==> old(items) != [] && !NegativeTimeout(patience)
      ensures r.Finished? ==> [r.value] + items == old(items)
      ensures !r.Finished? ==> items == old(items)
      ensures r == Failed(ValueError) <==> patience.Timeout? && patience.seconds < 0.0
      ensures r == Failed(EmptyError) <==>
                && old(items) == []
                && (patience.NoWait? || (patience.Timeout? && patience.seconds >= 0.0 && remaining <= 0.0))
      ensures r != Failed(FullError)
    {
      if patience.NoWait? {
        if items == [] {
          return Failed(EmptyError);
        }
      } else if patience.Forever? {
        if items == [] {
          return Wait;
        }
      } else if patience.seconds < 0.0 {
        return Failed(ValueError);
      } else if items == [] {
        if remaining <= 0.0 {
          return Failed(EmptyError);
        }
        return Wait;
      }
      r := Finished(items[0]);
      items := items[1..];
    }

    /** `task_done`; raises if called more often than items were put. */
    method TaskDone() returns (raised: bool, notifyAll: bool)
      modifies this`unfinishedTasks
      ensures raised <==> old(unfinishedTasks) == 0
      ensures !raised ==> unfinishedTasks == old(unfinishedTasks) - 1 && (notifyAll <==> unfinishedTasks == 0)
      ensures raised ==> unfinishedTasks == old(unfinishedTasks) && !notifyAll
    {
      var unfinished := unfinishedTasks as int - 1;
      raised, notifyAll := false, false;
      if unfinished <= 0 {
        if unfinished < 0 {
          return true, false;
        }
        notifyAll := true;
      }
      unfinishedTasks := unfinished;
    }

    /** One round of the worker's `_timed_queue_join`: true once nothing is unfinished, false after the deadline. */
    method TimedJoin(delay: real) returns (r: Round<bool>)
      ensures r == Finished(true) <==> unfinishedTasks == 0
      ensures r == Finished(false) <==> unfinishedTasks > 0 && delay <= 0.0
    {
      if unfinishedTasks != 0 {
        if delay <= 0.0 {
          return Finished(false);
        }
        return Wait;
      }
      return Finished(true);
    }
  }

  predicate NegativeTimeout(p: Patience) {
    p.Timeout? && p.seconds < 0.0
  }
}
