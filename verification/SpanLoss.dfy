/**
 * Child spans of a transaction from start to envelope, and the losses recorded on the way: the span
 * recorder and `finish` (`sentry_sdk/tracing.py`), `_prepare_event` and `capture_event`
 * (`sentry_sdk/client.py`).
 */
module SpanLoss {
  import opened Options

  datatype Span = Span(id: nat, genAi: bool)

  datatype Reason = BufferOverflow | EventProcessor | BeforeSend | CallbackError

  datatype Category = TransactionCategory | SpanCategory

  datatype Loss = Loss(reason: Reason, category: Category, quantity: nat)

  /** Span losses in a log. */
  function SpansLost(log: seq<Loss>): nat {
    if log == [] then 0
    else
      SpansLost(log[..|log| - 1])
      + if log[|log| - 1].category == SpanCategory then log[|log| - 1].quantity else 0
  }

  lemma {:induction false} SpansLostConcat(a: seq<Loss>, b: seq<Loss>)
    ensures SpansLost(a + b) == SpansLost(a) + SpansLost(b)
  {
    if b == [] {
      assert a + b == a;
    } else {
      assert (a + b)[..|a + b| - 1] == a + b[..|b| - 1];
      SpansLostConcat(a, b[..|b| - 1]);
    }
  }

  lemma SpansLostOne(r: Reason, c: Category, q: nat)
    ensures SpansLost([Loss(r, c, q)]) == if c == SpanCategory then q else 0
  {
    assert [Loss(r, c, q)][..0] == [];
  }

  lemma SpansLostTwo(r: Reason, q: nat)
    ensures SpansLost([Loss(r, TransactionCategory, 1), Loss(r, SpanCategory, q)]) == q
  {
    SpansLostConcat([Loss(r, TransactionCategory, 1)], [Loss(r, SpanCategory, q)]);
    SpansLostOne(r, TransactionCategory, 1);
    SpansLostOne(r, SpanCategory, q);
    assert [Loss(r, TransactionCategory, 1)] + [Loss(r, SpanCategory, q)]
        == [Loss(r, TransactionCategory, 1), Loss(r, SpanCategory, q)];
  }

  /** The transport's side of it: `record_lost_event`. */
  class LossRecorder {
    var log: seq<Loss>

    constructor ()
      ensures log == []
    {
      log := [];
    }

    method Record(reason: Reason, category: Category, quantity: nat)
      modifies this
      ensures log == old(log) + [Loss(reason, category, quantity)]
    {
      log := log + [Loss(reason, category, quantity)];
    }
  }

  // ---------------------------------------------------------------- recording and finishing

  function Limit(maxSpans: int): nat {
    if maxSpans < 0 then 0 else maxSpans
  }

  class SpanRecorder {
    const maxlen: int                          // one less than configured
    var spans: seq<Span>
    var droppedSpans: nat

    constructor (maxSpans: int)
      ensures maxlen == maxSpans - 1 && spans == [] && droppedSpans == 0
    {
      maxlen := maxSpans - 1;
      spans, droppedSpans := [], 0;
    }

    /** A full recorder only counts. */
    method Add(span: Span)
      requires |spans| <= Limit(maxlen + 1)
      modifies this
      ensures |spans| <= Limit(maxlen + 1)
      ensures |spans| + droppedSpans == |old(spans)| + old(droppedSpans) + 1
      ensures spans == old(spans) || spans == old(spans) + [span]
      ensures spans == old(spans) <==> |old(spans)| >= Limit(maxlen + 1)
    {
      if |spans| > maxlen {
        droppedSpans := droppedSpans + 1;
      } else {
        spans := spans + [span];
      }
    }
  }

  /** The event of a finished transaction; `dropped` is its `_dropped_spans` entry, 0 if absent. */
  datatype Event = Event(spans: seq<Span>, dropped: nat)

  function Finished(spans: seq<Span>, finished: Span -> bool): (r: seq<Span>)
    ensures |r| <= |spans|
  {
    if spans == [] then []
    else
      var init, last := Finished(spans[..|spans| - 1], finished), spans[|spans| - 1];
      if finished(last) then init + [last] else init
  }

  /** Exactly the finished spans are kept, each as often as it was recorded, in their order. */
  lemma {:induction false} FinishedAre(spans: seq<Span>, finished: Span -> bool, x: Span)
    ensures multiset(Finished(spans, finished))[x] == if finished(x) then multiset(spans)[x] else 0
  {
    if spans != [] {
      var init, last := spans[..|spans| - 1], spans[|spans| - 1];
      FinishedAre(init, finished, x);
      assert spans == init + [last];
    }
  }

  lemma {:induction false} FinishedConcat(a: seq<Span>, b: seq<Span>, finished: Span -> bool)
    ensures Finished(a + b, finished) == Finished(a, finished) + Finished(b, finished)
  {
    if b == [] {
      assert a + b == a;
    } else {
      assert (a + b)[..|a + b| - 1] == a + b[..|b| - 1];
      FinishedConcat(a, b[..|b| - 1], finished);
    }
  }

  class Transaction {
    const recorder: SpanRecorder
    ghost var started: nat                     // child spans started

    ghost predicate Valid()
      reads this, recorder
    {
      && |recorder.spans| <= Limit(recorder.maxlen + 1)
      && started == |recorder.spans| + recorder.droppedSpans
    }

    constructor (maxSpans: int)
      ensures Valid() && fresh(recorder) && started == 0 && recorder.maxlen == maxSpans - 1
    {
      recorder := new SpanRecorder(maxSpans);
      started := 0;
    }

    /** `start_child` */
    method StartChild(span: Span)
      requires Valid()
      modifies this, recorder
      ensures Valid() && started == old(started) + 1
      ensures recorder.spans == old(recorder.spans)
                                + if |old(recorder.spans)| < Limit(recorder.maxlen + 1) then [span] else []
    {
      recorder.Add(span);
      started := started + 1;
    }

    /**
     * `finish` of a sampled transaction: spans still running are dropped too.  A status code that is
     * to be ignored discards everything, charged to `event_processor`.
     */
    method Finish(finished: Span -> bool, ignoredStatus: bool, losses: LossRecorder) returns (event: Option<Event>)
      requires Valid()
      modifies losses
      ensures event.Some? <==> !ignoredStatus
      ensures event.Some? ==> losses.log == old(losses.log)
                              && event.value.spans == Finished(recorder.spans, finished)
                              && (forall x :: multiset(event.value.spans)[x] ==
                                              if finished(x) then multiset(recorder.spans)[x] else 0)
                              && |event.value.spans| + event.value.dropped == started
      ensures event.None? ==> losses.log == old(losses.log) + [Loss(EventProcessor, TransactionCategory, 1),
                                                               Loss(EventProcessor, SpanCategory, |recorder.spans| + 1)]
      ensures event.None? ==> SpansLost(losses.log) == SpansLost(old(losses.log)) + |recorder.spans| + 1
    {
      if ignoredStatus {
        losses.Record(EventProcessor, TransactionCategory, 1);
        var numSpans := |recorder.spans| + 1;
        losses.Record(EventProcessor, SpanCategory, numSpans);
        SpansLostTwo(EventProcessor, numSpans);
        SpansLostConcat(old(losses.log),
                        [Loss(EventProcessor, TransactionCategory, 1), Loss(EventProcessor, SpanCategory, numSpans)]);
        assert losses.log == old(losses.log)
          + [Loss(EventProcessor, TransactionCategory, 1), Loss(EventProcessor, SpanCategory, numSpans)];
        return None;
      }
      var finishedSpans: seq<Span> := [];
      for i := 0 to |recorder.spans|
        invariant finishedSpans == Finished(recorder.spans[..i], finished)
      {
        assert recorder.spans[..i + 1][..i] == recorder.spans[..i];
        if !finished(recorder.spans[i]) {
          continue;
        }
        finishedSpans := finishedSpans + [recorder.spans[i]];
      }
      assert recorder.spans[..|recorder.spans|] == recorder.spans;
      forall x
        ensures multiset(finishedSpans)[x] == if finished(x) then multiset(recorder.spans)[x] else 0
      {
        FinishedAre(recorder.spans, finished, x);
      }
      var lenDiff := |recorder.spans| - |finishedSpans|;
      event := Some(Event(finishedSpans, lenDiff + recorder.droppedSpans));
    }
  }

  // ---------------------------------------------------------------- _prepare_event

  /** What event processors make of the spans; None drops the event. */
  type Processor = seq<Span> -> Option<seq<Span>>

  datatype BeforeSendResult = Keeps(spans: seq<Span>) | Drops | Raises

  /** `before_send_transaction`, if there is one. */
  type Callback = seq<Span> -> BeforeSendResult

  datatype Prepared = Sent(spans: seq<Span>) | DroppedByProcessor | DroppedByCallback

  /** The losses of a transaction event in `_prepare_event`, in order, and what is left of it. */
  method PrepareEvent(event: Event, process: Processor, beforeSend: Option<Callback>, losses: LossRecorder)
    returns (r: Prepared)
    modifies losses
    ensures losses.log == old(losses.log) + PrepareLosses(event, process, beforeSend).0
    ensures r == PrepareLosses(event, process, beforeSend).1
  {
    var spansBefore := |event.spans|;
    var processed := process(event.spans);
    if processed.None? {
      losses.Record(EventProcessor, TransactionCategory, 1);
      losses.Record(EventProcessor, SpanCategory, spansBefore + 1);
      return DroppedByProcessor;
    }
    ghost var first: seq<Loss> := [];
    var spansDelta := spansBefore - |processed.value|;
    if spansDelta > 0 {
      losses.Record(EventProcessor, SpanCategory, spansDelta);
      first := first + [Loss(EventProcessor, SpanCategory, spansDelta)];
    }
    if event.dropped > 0 {
      losses.Record(BufferOverflow, SpanCategory, event.dropped);
      first := first + [Loss(BufferOverflow, SpanCategory, event.dropped)];
    }
    assert losses.log == old(losses.log) + first;
    r := Sent(processed.value);
    if beforeSend.Some? {
      spansBefore := |processed.value|;
      var result := beforeSend.value(processed.value);
      if !result.Keeps? {
        var reason := if result.Raises? then CallbackError else BeforeSend;
        losses.Record(reason, TransactionCategory, 1);
        losses.Record(reason, SpanCategory, spansBefore + 1);
        r := DroppedByCallback;
      } else {
        spansDelta := spansBefore - |result.spans|;
        if spansDelta > 0 {
          losses.Record(BeforeSend, SpanCategory, spansDelta);
        }
        r := Sent(result.spans);
      }
    }
  }

  function DeltaLoss(reason: Reason, before: nat, after: nat): seq<Loss> {
    if before > after then [Loss(reason, SpanCategory, before - after)] else []
  }

  function DropLosses(reason: Reason, spans: nat): seq<Loss> {
    [Loss(reason, TransactionCategory, 1), Loss(reason, SpanCategory, spans + 1)]
  }

  function PrepareLosses(event: Event, process: Processor, beforeSend: Option<Callback>): (seq<Loss>, Prepared) {
    var processed := process(event.spans);
    if processed.None? then (DropLosses(EventProcessor, |event.spans|), DroppedByProcessor)
    else
      var spans := processed.value;
      var first := DeltaLoss(EventProcessor, |event.spans|, |spans|) + DeltaLoss(BufferOverflow, event.dropped, 0);
      if beforeSend.None? then (first, Sent(spans))
      else
        match beforeSend.value(spans)
        case Keeps(kept) => (first + DeltaLoss(BeforeSend, |spans|, |kept|), Sent(kept))
        case Drops => (first + DropLosses(BeforeSend, |spans|), DroppedByCallback)
        case Raises => (first + DropLosses(CallbackError, |spans|), DroppedByCallback)
  }

  /** What a log charges to a reason and category. */
  function Charged(log: seq<Loss>, reason: Reason, category: Category): nat {
    if log == [] then 0
    else
      Charged(log[1..], reason, category)
      + if log[0].reason == reason && log[0].category == category then log[0].quantity else 0
  }

  function Missing(before: nat, after: nat): nat {
    if before > after then before - after else 0
  }

  lemma ChargedCons(l: Loss, log: seq<Loss>, reason: Reason, category: Category)
    ensures Charged([l] + log, reason, category) ==
            Charged(log, reason, category) + if l.reason == reason && l.category == category then l.quantity else 0
    ensures Charged([l], reason, category) == if l.reason == reason && l.category == category then l.quantity else 0
  {
    assert ([l] + log)[1..] == log;
  }

  lemma {:induction false} ChargedConcat(a: seq<Loss>, b: seq<Loss>, reason: Reason, category: Category)
    ensures Charged(a + b, reason, category) == Charged(a, reason, category) + Charged(b, reason, category)
  {
    if a == [] {
      assert a + b == b;
    } else {
      ChargedConcat(a[1..], b, reason, category);
      assert a + b == [a[0]] + (a[1..] + b);
      ChargedCons(a[0], a[1..] + b, reason, category);
    }
  }

  lemma DeltaCharged(reason: Reason, before: nat, after: nat, r: Reason, c: Category)
    ensures Charged(DeltaLoss(reason, before, after), r, c) ==
            if r == reason && c == SpanCategory then Missing(before, after) else 0
  {
    if before > after {
      ChargedCons(Loss(reason, SpanCategory, before - after), [], r, c);
    }
  }

  lemma DropCharged(reason: Reason, spans: nat, r: Reason, c: Category)
    ensures Charged(DropLosses(reason, spans), r, c) ==
            if r != reason then 0 else if c == SpanCategory then spans + 1 else 1
  {
    var first, second := Loss(reason, TransactionCategory, 1), Loss(reason, SpanCategory, spans + 1);
    ChargedCons(first, [second], r, c);
    ChargedCons(second, [], r, c);
    assert DropLosses(reason, spans) == [first] + [second];
  }

  /**
   * Under which reason spans and the transaction are charged: what a processor removes, or all if it
   * drops the event, to `event_processor`; what had been dropped before, to `buffer_overflow`; what the
   * callback removes or drops, to `before_send`; and all it was given, to `callback_error`, if it raises.
   */
  lemma ChargedUnder(event: Event, process: Processor, beforeSend: Option<Callback>, r: Reason, c: Category)
    ensures var charged := Charged(PrepareLosses(event, process, beforeSend).0, r, c);
            var left := PrepareLosses(event, process, beforeSend).1;
            var n := |event.spans|;
            match process(event.spans)
            case None =>
              && left == DroppedByProcessor
              && charged == (if r != EventProcessor then 0 else if c == SpanCategory then n + 1 else 1)
            case Some(spans) =>
              && (r == EventProcessor ==> charged == if c == SpanCategory then Missing(n, |spans|) else 0)
              && (r == BufferOverflow ==> charged == if c == SpanCategory then event.dropped else 0)
              && match if beforeSend.Some? then beforeSend.value(spans) else Keeps(spans)
                 case Keeps(kept) =>
                   && left == Sent(kept)
                   && (r == BeforeSend ==> charged == if c == SpanCategory then Missing(|spans|, |kept|) else 0)
                   && (r == CallbackError ==> charged == 0)
                 case Drops =>
                   && left == DroppedByCallback
                   && (r == BeforeSend ==> charged == if c == SpanCategory then |spans| + 1 else 1)
                   && (r == CallbackError ==> charged == 0)
                 case Raises =>
                   && left == DroppedByCallback
                   && (r == CallbackError ==> charged == if c == SpanCategory then |spans| + 1 else 1)
                   && (r == BeforeSend ==> charged == 0)
  {
    hide Charged, DeltaLoss, DropLosses;
    var n := |event.spans|;
    match process(event.spans)
    case None =>
      DropCharged(EventProcessor, n, r, c);
    case Some(spans) =>
      var a, b := DeltaLoss(EventProcessor, n, |spans|), DeltaLoss(BufferOverflow, event.dropped, 0);
      DeltaCharged(EventProcessor, n, |spans|, r, c);
      DeltaCharged(BufferOverflow, event.dropped, 0, r, c);
      ChargedConcat(a, b, r, c);
      if beforeSend.Some? {
        match beforeSend.value(spans)
        case Keeps(kept) =>
          DeltaCharged(BeforeSend, |spans|, |kept|, r, c);
          ChargedConcat(a + b, DeltaLoss(BeforeSend, |spans|, |kept|), r, c);
        case Drops =>
          DropCharged(BeforeSend, |spans|, r, c);
          ChargedConcat(a + b, DropLosses(BeforeSend, |spans|), r, c);
        case Raises =>
          DropCharged(CallbackError, |spans|, r, c);
          ChargedConcat(a + b, DropLosses(CallbackError, |spans|), r, c);
      } else {
        DeltaCharged(BeforeSend, |spans|, |spans|, r, c);
      }
  }

  /** Nothing is recorded as lost where nothing is lost. */
  lemma LossesAreReal(event: Event, process: Processor, beforeSend: Option<Callback>)
    ensures forall i | 0 <= i < |PrepareLosses(event, process, beforeSend).0| ::
              PrepareLosses(event, process, beforeSend).0[i].quantity > 0
  {
    assert forall reason, before: nat, after: nat, i | 0 <= i < |DeltaLoss(reason, before, after)| ::
        DeltaLoss(reason, before, after)[i].quantity > 0;
  }

  lemma DeltaLossCounts(reason: Reason, before: nat, after: nat)
    ensures SpansLost(DeltaLoss(reason, before, after)) == if before > after then before - after else 0
  {
    if before > after {
      SpansLostOne(reason, SpanCategory, before - after);
    }
  }

  /** Processors and callbacks only remove spans. */
  ghost predicate OnlyRemoves(process: Processor, beforeSend: Option<Callback>) {
    && (forall spans :: process(spans).Some? ==> |process(spans).value| <= |spans|)
    && (beforeSend.Some? ==>
          forall spans :: beforeSend.value(spans).Keeps? ==> |beforeSend.value(spans).spans| <= |spans|)
  }

  /**
   * Conservation from the finished event on.  If the event is sent, its spans and the span losses
   * are the spans started; a callback that drops it adds one, for the transaction; an event
   * processor that drops it forgets the spans the recorder had dropped.
   */
  lemma PrepareConserves(event: Event, process: Processor, beforeSend: Option<Callback>)
    requires OnlyRemoves(process, beforeSend)
    ensures var (log, r) := PrepareLosses(event, process, beforeSend);
            var started := |event.spans| + event.dropped;
            match r
            case Sent(spans) => |spans| + SpansLost(log) == started
            case DroppedByCallback => SpansLost(log) == started + 1
            case DroppedByProcessor => SpansLost(log) + event.dropped == started + 1
  {
    hide SpansLost;
    var processed := process(event.spans);
    if processed.None? {
      SpansLostTwo(EventProcessor, |event.spans| + 1);
    } else {
      var spans := processed.value;
      var a, b := DeltaLoss(EventProcessor, |event.spans|, |spans|), DeltaLoss(BufferOverflow, event.dropped, 0);
      DeltaLossCounts(EventProcessor, |event.spans|, |spans|);
      DeltaLossCounts(BufferOverflow, event.dropped, 0);
      SpansLostConcat(a, b);
      if beforeSend.Some? {
        match beforeSend.value(spans)
        case Keeps(kept) =>
          DeltaLossCounts(BeforeSend, |spans|, |kept|);
          SpansLostConcat(a + b, DeltaLoss(BeforeSend, |spans|, |kept|));
        case Drops =>
          SpansLostTwo(BeforeSend, |spans| + 1);
          SpansLostConcat(a + b, DropLosses(BeforeSend, |spans|));
        case Raises =>
          SpansLostTwo(CallbackError, |spans| + 1);
          SpansLostConcat(a + b, DropLosses(CallbackError, |spans|));
      }
    }
  }

  /** A transaction dropped by an event processor is fully accounted for if and only if nothing was dropped before. */
  lemma ProcessorDropIsExactIffNothingDroppedBefore(event: Event, process: Processor, beforeSend: Option<Callback>)
    requires OnlyRemoves(process, beforeSend) && process(event.spans).None?
    ensures SpansLost(PrepareLosses(event, process, beforeSend).0) == |event.spans| + event.dropped + 1
            <==> event.dropped == 0
  {
    PrepareConserves(event, process, beforeSend);
  }

  /** One span dropped by the recorder, then the transaction dropped by a processor: one loss is missing. */
  lemma ForgottenSpan()
    ensures SpansLost(PrepareLosses(Event([], 1), _ => None, None).0) == 1
  {
    ProcessorDropIsExactIffNothingDroppedBefore(Event([], 1), _ => None, None);
    PrepareConserves(Event([], 1), _ => None, None);
  }

  // ---------------------------------------------------------------- the envelope

  function OfKind(spans: seq<Span>, genAi: bool): seq<Span> {
    if spans == [] then []
    else
      var init, last := OfKind(spans[..|spans| - 1], genAi), spans[|spans| - 1];
      if last.genAi == genAi then init + [last] else init
  }

  lemma {:induction false} OfKindAre(spans: seq<Span>, genAi: bool, x: Span)
    ensures multiset(OfKind(spans, genAi))[x] == if x.genAi == genAi then multiset(spans)[x] else 0
  {
    if spans != [] {
      var init, last := spans[..|spans| - 1], spans[|spans| - 1];
      OfKindAre(init, genAi, x);
      assert spans == init + [last];
    }
  }

  /** `_split_gen_ai_spans` */
  method SplitGenAiSpans(spans: seq<Span>) returns (nonGenAi: seq<Span>, genAi: seq<Span>)
    ensures nonGenAi == OfKind(spans, false) && genAi == OfKind(spans, true)
    ensures forall x :: multiset(nonGenAi)[x] == if x.genAi then 0 else multiset(spans)[x]
    ensures forall x :: multiset(genAi)[x] == if x.genAi then multiset(spans)[x] else 0
  {
    nonGenAi, genAi := [], [];
    for i := 0 to |spans|
      invariant nonGenAi == OfKind(spans[..i], false) && genAi == OfKind(spans[..i], true)
    {
      assert spans[..i + 1][..i] == spans[..i];
      if spans[i].genAi {
        genAi := genAi + [spans[i]];
      } else {
        nonGenAi := nonGenAi + [spans[i]];
      }
    }
    assert spans[..|spans|] == spans;
    forall x
      ensures multiset(nonGenAi)[x] == if x.genAi then 0 else multiset(spans)[x]
      ensures multiset(genAi)[x] == if x.genAi then multiset(spans)[x] else 0
    {
      OfKindAre(spans, false, x);
      OfKindAre(spans, true, x);
    }
  }

  lemma {:induction false} SplitLosesNothing(spans: seq<Span>)
    ensures multiset(OfKind(spans, false)) + multiset(OfKind(spans, true)) == multiset(spans)
    ensures |OfKind(spans, false)| + |OfKind(spans, true)| == |spans|
  {
    if spans != [] {
      SplitLosesNothing(spans[..|spans| - 1]);
      assert spans == spans[..|spans| - 1] + [spans[|spans| - 1]];
    }
  }

  /** The spans of the transaction item, and the number of spans in the separate span item. */
  datatype Captured = Captured(transactionSpans: seq<Span>, spanItem: seq<Span>)

  /** How a finished transaction ends. */
  datatype Ending =
    | InEnvelope(captured: Captured)
    | BadStatus                                // its status code is to be ignored
    | DroppedByEventProcessor
    | DroppedBeforeSend

  /**
   * A transaction from its first child span to its envelope.  `forgotten` are child spans that were
   * dropped before the transaction was, and that nobody charges then.
   */
  method RunTransaction(children: seq<Span>, maxSpans: int, finished: Span -> bool, ignoredStatus: bool,
                        process: Processor, beforeSend: Option<Callback>, hasGenAiSpan: bool)
    returns (ending: Ending, losses: LossRecorder, ghost forgotten: nat)
    requires OnlyRemoves(process, beforeSend)
    ensures ending.InEnvelope? ==>
              |ending.captured.transactionSpans| + |ending.captured.spanItem| + SpansLost(losses.log) == |children|
    ensures ending.DroppedBeforeSend? ==> SpansLost(losses.log) == |children| + 1
    ensures ending.BadStatus? || ending.DroppedByEventProcessor? ==>
              SpansLost(losses.log) + forgotten == |children| + 1
    ensures ending.BadStatus? <==> ignoredStatus
    ensures ending.BadStatus? ==> forgotten == |children| - KeptBy(maxSpans, |children|)
    ensures ending.DroppedByEventProcessor? ==>
              forgotten == |children| - |Finished(children[..KeptBy(maxSpans, |children|)], finished)|
  {
    losses := new LossRecorder();
    var t := new Transaction(maxSpans);
    for i := 0 to |children|
      invariant t.Valid() && t.started == i && losses.log == [] && fresh(t) && fresh(t.recorder) && fresh(losses)
      invariant t.recorder.maxlen == maxSpans - 1 && t.recorder.spans == children[..KeptBy(maxSpans, i)]
    {
      t.StartChild(children[i]);
      assert children[..i + 1] == children[..i] + [children[i]];
    }
    var event := t.Finish(finished, ignoredStatus, losses);
    forgotten := 0;
    if event.None? {
      forgotten := |children| - |t.recorder.spans|;
      return BadStatus, losses, forgotten;
    }
    var prepared := PrepareEvent(event.value, process, beforeSend, losses);
    PrepareConserves(event.value, process, beforeSend);
    assert losses.log == PrepareLosses(event.value, process, beforeSend).0;
    match prepared {
      case DroppedByProcessor =>
        forgotten := event.value.dropped;
        ending := DroppedByEventProcessor;
      case DroppedByCallback =>
        ending := DroppedBeforeSend;
      case Sent(spans) =>
        if hasGenAiSpan {
          var nonGenAi, genAi := SplitGenAiSpans(spans);
          SplitLosesNothing(spans);
          ending := InEnvelope(if genAi == [] then Captured(spans, []) else Captured(nonGenAi, genAi));
        } else {
          ending := InEnvelope(Captured(spans, []));
        }
    }
  }

  /** How many of `n` child spans a recorder keeps. */
  function KeptBy(maxSpans: int, n: nat): (k: nat)
    ensures k <= n
  {
    if n <= Limit(maxSpans) then n else Limit(maxSpans)
  }
}
