/** Every interleaving of callers and consumer threads on one worker. */
module WorkerRuns {
  import opened Options
  import opened Queue
  import opened Worker

  /** `puts`, `takes` and `finished` record what has happened, in order. */
  datatype System = System(maxsize: int, q: State<Job>, threads: seq<Thread>, handle: Option<nat>,
                           puts: seq<Job>, takes: seq<Job>, finished: seq<Job>)

  function Initially(maxsize: int): System {
    System(maxsize, State([], 0), [], None, [], [], [])
  }

  datatype Step =
    | Start(canStart: bool)
    | Kill
    | Put(callback: Job)               // the second half of submit; without room it is refused
    | Take(t: nat)
    | Finish(t: nat)

  ghost predicate Enabled(s: System, step: Step) {
    match step
    case Start(_) => true
    case Kill => true
    case Put(callback) => callback.Callback?
    case Take(t) => t < |s.threads| && s.threads[t].Idle? && s.q.items != []
    case Finish(t) => t < |s.threads| && s.threads[t].Holding?
  }

  ghost predicate HandleOk(s: System) {
    s.handle.Some? ==> s.handle.value < |s.threads|
  }

  /** The state after a step; None if `task_done` would raise. */
  ghost function Apply(s: System, step: Step): Option<System>
    requires HandleOk(s) && Enabled(s, step)
    ensures Apply(s, step).Some? ==> HandleOk(Apply(s, step).value)
  {
    match step
    case Start(canStart) =>
      var (threads, handle) := StartSection(s.threads, s.handle, canStart);
      Some(s.(threads := threads, handle := handle))
    case Kill =>
      var q := KillSection(s.q, s.handle, s.maxsize);
      Some(s.(q := q, handle := None, puts := if q == s.q then s.puts else s.puts + [Terminator]))
    case Put(callback) =>
      if HasRoom(s.q, s.maxsize) then Some(s.(q := PutItem(s.q, callback), puts := s.puts + [callback])) else Some(s)
    case Take(t) =>
      Some(s.(q := TakeItem(s.q), threads := s.threads[t := Holding(s.q.items[0])], takes := s.takes + [s.q.items[0]]))
    case Finish(t) =>
      if s.q.unfinished == 0 then None
      else
        var job := s.threads[t].job;
        Some(s.(q := s.q.(unfinished := s.q.unfinished - 1), threads := s.threads[t := NextThread(job)],
                finished := s.finished + [job]))
  }

  // ---------------------------------------------------------------- counting

  function Count<T>(s: seq<T>, p: T -> bool): nat {
    if s == [] then 0 else Count(s[..|s| - 1], p) + if p(s[|s| - 1]) then 1 else 0
  }

  lemma CountSnoc<T>(s: seq<T>, x: T, p: T -> bool)
    ensures Count(s + [x], p) == Count(s, p) + if p(x) then 1 else 0
  {
    assert (s + [x])[..|s|] == s;
  }

  lemma {:induction false} CountTail<T>(s: seq<T>, p: T -> bool)
    requires s != []
    ensures Count(s, p) == Count(s[1..], p) + if p(s[0]) then 1 else 0
  {
    if |s| > 1 {
      CountTail(s[..|s| - 1], p);
      assert s[..|s| - 1][1..] == s[1..][..|s| - 2];
    }
  }

  lemma {:induction false} CountUpdate<T>(s: seq<T>, i: nat, x: T, p: T -> bool)
    requires i < |s|
    ensures Count(s[i := x], p) + (if p(s[i]) then 1 else 0) == Count(s, p) + if p(x) then 1 else 0
  {
    var n := |s| - 1;
    if i < n {
      CountUpdate(s[..n], i, x, p);
      assert s[i := x][..n] == s[..n][i := x];
    } else {
      assert s[i := x][..n] == s[..n];
    }
  }

  lemma {:induction false} CountPositive<T>(s: seq<T>, i: nat, p: T -> bool)
    requires i < |s| && p(s[i])
    ensures Count(s, p) > 0
  {
    var n := |s| - 1;
    if i < n {
      CountPositive(s[..n], i, p);
    }
  }

  const IS_TERMINATOR := (j: Job) => j.Terminator?
  const IS_HOLDING := (t: Thread) => t.Holding?
  const HOLDS_TERMINATOR := (t: Thread) => t.Holding? && t.job.Terminator?
  const IS_LIVE := (t: Thread) => Alive(t)
  const IS_CRASHED := (t: Thread) => t.Crashed?
  const IS_ENDED := (t: Thread) => t.Ended?
  const IS_FATAL := (j: Job) => j.Callback? && j.fatal

  /** Sentinels in the queue or in the hands of a consumer. */
  ghost function Terminators(s: System): nat {
    Count(s.q.items, IS_TERMINATOR) + Count(s.threads, HOLDS_TERMINATOR)
  }

  function Hand(t: Thread): multiset<Job> {
    if t.Holding? then multiset{t.job} else multiset{}
  }

  function InHand(threads: seq<Thread>): multiset<Job> {
    if threads == [] then multiset{} else InHand(threads[..|threads| - 1]) + Hand(threads[|threads| - 1])
  }

  lemma InHandSnoc(threads: seq<Thread>, x: Thread)
    ensures InHand(threads + [x]) == InHand(threads) + Hand(x)
  {
    assert (threads + [x])[..|threads|] == threads;
  }

  lemma {:induction false} InHandUpdate(threads: seq<Thread>, t: nat, x: Thread)
    requires t < |threads|
    ensures InHand(threads[t := x]) + Hand(threads[t]) == InHand(threads) + Hand(x)
    decreases |threads|
  {
    hide InHand, Hand;
    var n := |threads| - 1;
    var init, last := threads[..n], threads[n];
    assert threads == init + [last];
    InHandSnoc(init, last);
    if t < n {
      InHandUpdate(init, t, x);
      assert threads[t := x] == init[t := x] + [last];
      InHandSnoc(init[t := x], last);
      Swap(InHand(init[t := x]), Hand(last), Hand(threads[t]));
      Swap(InHand(init), Hand(last), Hand(x));
    } else {
      assert threads[t := x] == init + [x];
      InHandSnoc(init, x);
      Swap(InHand(init), Hand(x), Hand(last));
    }
  }

  lemma Swap(a: multiset<Job>, b: multiset<Job>, c: multiset<Job>)
    ensures a + b + c == a + c + b
  {
  }

  // ---------------------------------------------------------------- invariants

  ghost predicate QueueOk(s: System) {
    && s.q.unfinished == |s.q.items| + Count(s.threads, IS_HOLDING)
    && (s.maxsize > 0 ==> |s.q.items| <= s.maxsize)
    && s.puts == s.takes + s.q.items
    && multiset(s.takes) == multiset(s.finished) + InHand(s.threads)
  }

  /** Every sentinel, and the thread the worker still knows, is paid for by a thread that was started. */
  ghost predicate PaidFor(s: System) {
    Terminators(s) + (if s.handle.Some? then 1 else 0) <= Count(s.threads, IS_LIVE) + Count(s.threads, IS_CRASHED)
  }

  ghost predicate Invariant(s: System) {
    HandleOk(s) && QueueOk(s) && PaidFor(s)
  }

  lemma StepKeepsQueue(s: System, step: Step)
    requires HandleOk(s) && QueueOk(s) && Enabled(s, step)
    ensures Apply(s, step).Some? && QueueOk(Apply(s, step).value)
  {
    match step
    case Start(canStart) =>
      CountSnoc(s.threads, Idle, IS_HOLDING);
      assert (s.threads + [Idle])[..|s.threads|] == s.threads;
    case Kill =>
    case Put(callback) =>
    case Take(t) =>
      TakeKeepsQueue(s, t);
    case Finish(t) =>
      FinishKeepsQueue(s, t);
  }

  lemma TakeKeepsQueue(s: System, t: nat)
    requires HandleOk(s) && QueueOk(s) && Enabled(s, Take(t))
    ensures QueueOk(Apply(s, Take(t)).value)
  {
    hide Count, InHand;
    var job := s.q.items[0];
    CountUpdate(s.threads, t, Holding(job), IS_HOLDING);
    InHandUpdate(s.threads, t, Holding(job));
    assert s.q.items == [job] + s.q.items[1..];
    assert s.takes + ([job] + s.q.items[1..]) == (s.takes + [job]) + s.q.items[1..];
    var threads := s.threads[t := Holding(job)];
    assert InHand(threads) + multiset{} == InHand(threads);
    assert InHand(threads) == InHand(s.threads) + multiset{job};
    assert multiset(s.finished) + (InHand(s.threads) + multiset{job})
        == multiset(s.finished) + InHand(s.threads) + multiset{job};
    assert multiset(s.takes + [job]) == multiset(s.takes) + multiset{job};
  }

  lemma FinishKeepsQueue(s: System, t: nat)
    requires HandleOk(s) && QueueOk(s) && Enabled(s, Finish(t))
    ensures Apply(s, Finish(t)).Some? && QueueOk(Apply(s, Finish(t)).value)
  {
    hide Count, InHand;
    var x := NextThread(s.threads[t].job);
    CountPositive(s.threads, t, IS_HOLDING);
    CountUpdate(s.threads, t, x, IS_HOLDING);
    InHandUpdate(s.threads, t, x);
    var job, threads := s.threads[t].job, s.threads[t := x];
    assert InHand(s.threads) + multiset{} == InHand(s.threads);
    assert InHand(threads) + multiset{job} == InHand(s.threads);
    Swap(multiset(s.finished), multiset{job}, InHand(threads));
    assert multiset(s.finished) + (InHand(threads) + multiset{job})
        == multiset(s.finished) + InHand(threads) + multiset{job};
    assert multiset(s.finished + [job]) == multiset(s.finished) + multiset{job};
    assert multiset(s.finished) + multiset{job} + InHand(threads) == multiset(s.finished) + InHand(s.threads);
  }

  lemma StepKeepsPayment(s: System, step: Step)
    requires Invariant(s) && Enabled(s, step) && Apply(s, step).Some?
    ensures PaidFor(Apply(s, step).value)
  {
    match step
    case Start(canStart) =>
      CountSnoc(s.threads, Idle, HOLDS_TERMINATOR);
      CountSnoc(s.threads, Idle, IS_LIVE);
      CountSnoc(s.threads, Idle, IS_CRASHED);
    case Kill =>
      CountSnoc(s.q.items, Terminator, IS_TERMINATOR);
    case Put(callback) =>
      CountSnoc(s.q.items, callback, IS_TERMINATOR);
    case Take(t) =>
      var x := Holding(s.q.items[0]);
      CountTail(s.q.items, IS_TERMINATOR);
      CountUpdate(s.threads, t, x, HOLDS_TERMINATOR);
      CountUpdate(s.threads, t, x, IS_LIVE);
      CountUpdate(s.threads, t, x, IS_CRASHED);
    case Finish(t) =>
      var x := NextThread(s.threads[t].job);
      CountUpdate(s.threads, t, x, HOLDS_TERMINATOR);
      CountUpdate(s.threads, t, x, IS_LIVE);
      CountUpdate(s.threads, t, x, IS_CRASHED);
  }

  // ---------------------------------------------------------------- runs

  /** A run that never sees `task_done` raise, and the state it ends in. */
  ghost predicate Runs(maxsize: int, steps: seq<Step>, s: System) {
    if steps == [] then s == Initially(maxsize)
    else
      exists before :: Runs(maxsize, steps[..|steps| - 1], before) && HandleOk(before)
                       && Enabled(before, steps[|steps| - 1]) && Apply(before, steps[|steps| - 1]) == Some(s)
  }

  /**
   * In every state of every run the counter is right, the queue is within bounds, takes are a prefix
   * of puts, sentinels are paid for, and no further step can make `task_done` raise.
   */
  lemma {:induction false} EveryStateIsOk(maxsize: int, steps: seq<Step>, s: System)
    requires Runs(maxsize, steps, s)
    ensures Invariant(s) && s.maxsize == maxsize
    ensures forall step | Enabled(s, step) :: Apply(s, step).Some?
  {
    if steps == [] {
      assert Count([], IS_TERMINATOR) == Count([], HOLDS_TERMINATOR) == 0;
    } else {
      var init, last := steps[..|steps| - 1], steps[|steps| - 1];
      var before :| Runs(maxsize, init, before) && HandleOk(before) && Enabled(before, last)
                    && Apply(before, last) == Some(s);
      EveryStateIsOk(maxsize, init, before);
      StepKeepsQueue(before, last);
      StepKeepsPayment(before, last);
    }
    forall step | Enabled(s, step)
      ensures Apply(s, step).Some?
    {
      StepKeepsQueue(s, step);
    }
  }

  /** When a join sees nothing unfinished, every item ever put has been taken and finished. */
  lemma JoinedMeansAllFinished(maxsize: int, steps: seq<Step>, s: System)
    requires Runs(maxsize, steps, s)
    ensures s.q.unfinished == 0 <==> s.takes == s.puts && multiset(s.finished) == multiset(s.puts)
  {
    EveryStateIsOk(maxsize, steps, s);
    HandsAreEmpty(s.threads);
    if s.takes == s.puts && multiset(s.finished) == multiset(s.puts) {
      assert |s.puts| == |s.takes| + |s.q.items|;
      assert InHand(s.threads) == multiset{};
    }
  }

  lemma {:induction false} HandsAreEmpty(threads: seq<Thread>)
    ensures InHand(threads) == multiset{} <==> Count(threads, IS_HOLDING) == 0
  {
    if threads != [] {
      HandsAreEmpty(threads[..|threads| - 1]);
      if threads[|threads| - 1].Holding? {
        assert threads[|threads| - 1].job in InHand(threads);
      }
    }
  }

  // ---------------------------------------------------------------- how threads end

  /** Every sentinel that was finished ended one thread, every fatal callback crashed one, and the rest live. */
  ghost predicate EndingsOk(s: System) {
    && Count(s.threads, IS_ENDED) == Count(s.finished, IS_TERMINATOR)
    && Count(s.threads, IS_CRASHED) == Count(s.finished, IS_FATAL)
    && Count(s.threads, IS_LIVE) + Count(s.threads, IS_ENDED) + Count(s.threads, IS_CRASHED) == |s.threads|
  }

  lemma StepKeepsEndings(before: System, step: Step, after: System)
    requires HandleOk(before) && EndingsOk(before) && Enabled(before, step) && Apply(before, step) == Some(after)
    ensures EndingsOk(after)
  {
    hide Count;
    match step
    case Start(_) =>
      CountSnoc(before.threads, Idle, IS_ENDED);
      CountSnoc(before.threads, Idle, IS_CRASHED);
      CountSnoc(before.threads, Idle, IS_LIVE);
    case Kill =>
    case Put(_) =>
    case Take(t) =>
      ThreadChanges(before.threads, t, Holding(before.q.items[0]));
    case Finish(t) =>
      var job := before.threads[t].job;
      ThreadChanges(before.threads, t, NextThread(job));
      CountSnoc(before.finished, job, IS_TERMINATOR);
      CountSnoc(before.finished, job, IS_FATAL);
  }

  lemma ThreadChanges(threads: seq<Thread>, t: nat, x: Thread)
    requires t < |threads|
    ensures Count(threads[t := x], IS_ENDED) + (if threads[t].Ended? then 1 else 0)
         == Count(threads, IS_ENDED) + if x.Ended? then 1 else 0
    ensures Count(threads[t := x], IS_CRASHED) + (if threads[t].Crashed? then 1 else 0)
         == Count(threads, IS_CRASHED) + if x.Crashed? then 1 else 0
    ensures Count(threads[t := x], IS_LIVE) + (if Alive(threads[t]) then 1 else 0)
         == Count(threads, IS_LIVE) + if Alive(x) then 1 else 0
  {
    hide Count;
    CountUpdate(threads, t, x, IS_ENDED);
    CountUpdate(threads, t, x, IS_CRASHED);
    CountUpdate(threads, t, x, IS_LIVE);
  }

  /**
   * In every state of every run the ended threads are as many as the sentinels finished, the crashed
   * ones as many as the fatal callbacks finished, and all other threads ever started are live.
   */
  lemma {:induction false} LiveThreadsAreStartedMinusEnded(maxsize: int, steps: seq<Step>, s: System)
    requires Runs(maxsize, steps, s)
    ensures EndingsOk(s)
  {
    if steps == [] {
      NothingCounts();
    } else {
      var init, last := steps[..|steps| - 1], steps[|steps| - 1];
      var before :| Runs(maxsize, init, before) && HandleOk(before) && Enabled(before, last)
                    && Apply(before, last) == Some(s);
      LiveThreadsAreStartedMinusEnded(maxsize, init, before);
      StepKeepsEndings(before, last, s);
    }
  }

  lemma NothingCounts()
    ensures forall p: Thread -> bool :: Count([], p) == 0
    ensures forall p: Job -> bool :: Count([], p) == 0
  {
  }

  /** A sentinel kills the thread that finishes it, a harmless callback does not, and the dead stay dead. */
  lemma DeadStayDead(s: System, step: Step, t: nat)
    requires HandleOk(s) && Enabled(s, step) && Apply(s, step).Some? && t < |s.threads|
    ensures var s' := Apply(s, step).value;
            && t < |s'.threads|
            && (s.threads[t].Ended? || s.threads[t].Crashed? ==> s'.threads[t] == s.threads[t])
            && (step == Finish(t) ==>
                  s'.threads[t] == match s.threads[t].job
                                   case Terminator => Ended
                                   case Callback(_, fatal) => if fatal then Crashed else Idle)
  {
  }

  // ---------------------------------------------------------------- sentinels and live threads

  ghost predicate CallbacksFrom(steps: seq<Step>, fatalAllowed: bool) {
    forall i | 0 <= i < |steps| && steps[i].Put? && steps[i].callback.Callback? ::
      steps[i].callback.fatal ==> fatalAllowed
  }

  ghost predicate NoneFatal(s: System) {
    && (forall i | 0 <= i < |s.q.items| && s.q.items[i].Callback? :: !s.q.items[i].fatal)
    && (forall i | 0 <= i < |s.threads| && s.threads[i].Holding? && s.threads[i].job.Callback? ::
          !s.threads[i].job.fatal)
    && Count(s.threads, IS_CRASHED) == 0
  }

  lemma {:induction false} WithoutFatalNoneCrash(maxsize: int, steps: seq<Step>, s: System)
    requires Runs(maxsize, steps, s) && CallbacksFrom(steps, false)
    ensures NoneFatal(s)
  {
    if steps != [] {
      var init, last := steps[..|steps| - 1], steps[|steps| - 1];
      var before :| Runs(maxsize, init, before) && HandleOk(before) && Enabled(before, last)
                    && Apply(before, last) == Some(s);
      assert forall i | 0 <= i < |init| :: init[i] == steps[i];
      WithoutFatalNoneCrash(maxsize, init, before);
      HarmlessStep(before, last, s);
    }
  }

  lemma HarmlessStep(before: System, step: Step, after: System)
    requires HandleOk(before) && Enabled(before, step) && Apply(before, step) == Some(after)
    requires NoneFatal(before) && (step.Put? ==> !step.callback.fatal)
    ensures NoneFatal(after)
  {
    hide Count;
    match step
    case Start(_) =>
      CountSnoc(before.threads, Idle, IS_CRASHED);
    case Kill =>
    case Put(_) =>
    case Take(t) =>
      CountUpdate(before.threads, t, Holding(before.q.items[0]), IS_CRASHED);
    case Finish(t) =>
      CountUpdate(before.threads, t, NextThread(before.threads[t].job), IS_CRASHED);
  }

  /** The worker never has more sentinels around than live threads to consume them. */
  ghost predicate EnoughThreads(s: System) {
    Terminators(s) <= Count(s.threads, IS_LIVE)
  }

  /** A fatal callback ends its thread without a sentinel; `kill` then queues one that nobody is left to take. */
  lemma FatalCallbackStrandsSentinel(maxsize: int) returns (steps: seq<Step>, s: System)
    ensures CallbacksFrom(steps, true) && Runs(maxsize, steps, s) && !EnoughThreads(s)
  {
    hide Runs, Count;
    var bad := Callback(0, true);
    steps, s := [], Initially(maxsize);
    NothingRun(maxsize);
    steps, s := Extend(maxsize, steps, s, Start(true));
    assert s.threads == [Idle];
    steps, s := Extend(maxsize, steps, s, Put(bad));
    assert s.q.items == [bad];
    steps, s := Extend(maxsize, steps, s, Take(0));
    assert s.threads == [Holding(bad)] && s.q.items == [];
    steps, s := Extend(maxsize, steps, s, Finish(0));
    steps, s := Extend(maxsize, steps, s, Kill);
    assert s.threads == [Crashed];
    assert s.q.items == [Terminator];
    OneSentinelNoThread();
  }

  lemma OneSentinelNoThread()
    ensures Count([Terminator], IS_TERMINATOR) == 1 && Count([Crashed], IS_LIVE) == 0
  {
    CountSnoc([], Terminator, IS_TERMINATOR);
    CountSnoc([], Crashed, IS_LIVE);
    assert [] + [Terminator] == [Terminator];
    assert [] + [Crashed] == [Crashed];
  }

  lemma NothingRun(maxsize: int)
    ensures Runs(maxsize, [], Initially(maxsize))
  {
  }

  lemma Extend(maxsize: int, steps: seq<Step>, before: System, step: Step) returns (steps': seq<Step>, after: System)
    requires Runs(maxsize, steps, before) && HandleOk(before) && Enabled(before, step) && Apply(before, step).Some?
    ensures steps' == steps + [step] && Apply(before, step) == Some(after) && Runs(maxsize, steps', after)
  {
    steps', after := steps + [step], Apply(before, step).value;
    assert steps'[..|steps'| - 1] == steps;
  }

  /**
   * Sentinels never outnumber live threads, in any run over the callbacks that may be submitted, if
   * and only if none of those callbacks can raise past `except Exception`.
   */
  lemma EnoughThreadsIffNoFatalCallback(maxsize: int, fatalAllowed: bool)
    ensures (forall steps, s | Runs(maxsize, steps, s) && CallbacksFrom(steps, fatalAllowed) :: EnoughThreads(s))
            <==> !fatalAllowed
  {
    if fatalAllowed {
      var steps, s := FatalCallbackStrandsSentinel(maxsize);
    } else {
      forall steps, s | Runs(maxsize, steps, s) && CallbacksFrom(steps, false)
        ensures EnoughThreads(s)
      {
        EveryStateIsOk(maxsize, steps, s);
        WithoutFatalNoneCrash(maxsize, steps, s);
      }
    }
  }
}
