/**
 * Every interleaving of `add` and flush sections.  Between the two halves of a flush, lock released
 * and envelopes not yet captured, any other section may run.
 */
module SpanBatcherRuns {
  import opened SpanBatcher

  // ---------------------------------------------------------------- the index of pending buckets

  ghost predicate HasSegment(spans: seq<Span>) {
    exists i :: 0 <= i < |spans| && spans[i].isSegment
  }

  /** Why a bucket should be flushed at the next opportunity. */
  ghost predicate Due(spans: seq<Span>) {
    HasSegment(spans) || |spans| >= 1000 || EstimateAll(spans) >= 5_242_880
  }

  ghost predicate BucketOk(b: Buffers, t: TraceId)
    requires t in b.spans && t in b.sizes
  {
    && 1 <= |b.spans[t]| <= 2000
    && (forall i | 0 <= i < |b.spans[t]| :: b.spans[t][i].trace == t)
    && b.sizes[t] == EstimateAll(b.spans[t])
  }

  /** The two maps agree, sizes are sums, no bucket is too full, and pending means due. */
  ghost predicate Indexed(b: Buffers) {
    && b.spans.Keys == b.sizes.Keys
    && (forall t <- b.spans :: BucketOk(b, t))
    && (forall t :: t in b.pending <==> t in b.spans && Due(b.spans[t]))
  }

  /** The state while a flush runs: as above, but nothing is pending. */
  ghost predicate Flushing(b: Buffers) {
    b.spans.Keys == b.sizes.Keys && forall t <- b.spans :: BucketOk(b, t)
  }

  lemma EstimateOfSnoc(spans: seq<Span>, span: Span)
    ensures EstimateAll(spans + [span]) == EstimateAll(spans) + Estimate(span.attributes)
    ensures HasSegment(spans + [span]) <==> HasSegment(spans) || span.isSegment
  {
    var all := spans + [span];
    assert all[..|all| - 1] == spans;
    if HasSegment(spans) {
      var i :| 0 <= i < |spans| && spans[i].isSegment;
      assert all[i].isSegment;
    }
    assert all[|spans|] == span;
  }

  /** `add` keeps the index exact. */
  lemma AddKeepsIndex(b: Buffers, span: Span)
    requires Indexed(b)
    ensures Indexed(AddSection(b, span).0)
  {
    var (b', fate, _) := AddSection(b, span);
    if fate == Accepted {
      EstimateOfSnoc(Bucket(b, span.trace), span);
      assert EstimateAll([]) == 0;
      forall t <- b'.spans
        ensures BucketOk(b', t)
      {
        assert t != span.trace ==> BucketOk(b, t);
        assert span.trace in b.spans ==> BucketOk(b, span.trace);
      }
    }
  }

  /** Flushing removes whole buckets, and only those listed. */
  lemma {:induction false} FlushRemovesBuckets(b: Buffers, order: seq<TraceId>)
    requires Flushing(b) && b.pending == {}
    ensures var b' := FlushBuckets(b, order).0;
            && Flushing(b') && b'.pending == {}
            && (forall t :: t in b'.spans <==> t in b.spans && t !in order)
            && (forall t <- b'.spans :: b'.spans[t] == b.spans[t])
  {
    if order != [] {
      FlushRemovesBuckets(b, order[..|order| - 1]);
      var b' := FlushBuckets(b, order[..|order| - 1]).0;
      var b'' := FlushBuckets(b, order).0;
      forall t <- b''.spans
        ensures BucketOk(b'', t)
      {
        assert BucketOk(b', t);
      }
      assert forall t :: t in order <==> t in order[..|order| - 1] || t == order[|order| - 1];
      assert forall t <- b'.spans :: BucketOk(b', t);
    }
  }

  /** Flushing the pending buckets, or all of them, keeps the index exact: nothing due is left. */
  lemma FlushKeepsIndex(b: Buffers, order: seq<TraceId>)
    requires Indexed(b)
    requires Lists(order, b.pending) || Lists(order, b.spans.Keys)
    ensures Indexed(FlushSection(b, order).0)
  {
    var start := b.(pending := {});
    forall t <- start.spans
      ensures BucketOk(start, t)
    {
      assert BucketOk(b, t);
    }
    FlushRemovesBuckets(start, order);
  }

  // ---------------------------------------------------------------- envelopes

  ghost predicate EnvelopeOk(e: Envelope) {
    && 1 <= |e.items| <= 1000 && e.itemCount == |e.items|
    && forall i | 0 <= i < |e.items| :: e.items[i].trace == e.dsc.trace
  }

  ghost predicate AllOk(es: seq<Envelope>) {
    forall i | 0 <= i < |es| :: EnvelopeOk(es[i])
  }

  function Items(es: seq<Envelope>): seq<Span> {
    if es == [] then [] else es[0].items + Items(es[1..])
  }

  /** The envelopes of a bucket are well formed and concatenate back to it. */
  lemma {:induction false} ChunksCover(spans: seq<Span>, start: nat, t: TraceId)
    requires forall i | 0 <= i < |spans| :: spans[i].trace == t
    requires start <= |spans| || start - MAX_ENVELOPE_SIZE < |spans|
    ensures Items(Chunks(spans, start)) == if start <= |spans| then spans[start..] else []
    ensures AllOk(Chunks(spans, start))
    ensures forall i | 0 <= i < |Chunks(spans, start)| :: Chunks(spans, start)[i].dsc.trace == t
    decreases |spans| - start
  {
    if start < |spans| {
      ChunksCover(spans, start + MAX_ENVELOPE_SIZE, t);
      var end := if start + MAX_ENVELOPE_SIZE < |spans| then start + MAX_ENVELOPE_SIZE else |spans|;
      var first, rest := MakeEnvelope(spans, start, end), Chunks(spans, start + MAX_ENVELOPE_SIZE);
      assert ([first] + rest)[1..] == rest;
      assert spans[start..end] + spans[end..] == spans[start..];
      assert start + MAX_ENVELOPE_SIZE >= |spans| ==> spans[end..] == [];
    }
  }

  // ---------------------------------------------------------------- runs

  /**
   * A state between sections.  `history` records every span offered with its fate, `flushed` every
   * envelope built, in order; `inFlight[i]` holds the envelopes flush i has not captured yet.
   */
  datatype System = System(b: Buffers, history: seq<(Span, Fate)>, flushed: seq<Envelope>,
                           inFlight: seq<seq<Envelope>>, captured: seq<Envelope>)

  const START := System(EMPTY, [], [], [], [])

  datatype Step =
    | Refuse(span: Span)                     // re-entrant, not running, or no flusher
    | Offer(span: Span)
    | Flush(order: seq<TraceId>)
    | Capture(i: nat)

  ghost predicate Enabled(s: System, step: Step) {
    match step
    case Refuse(_) => true
    case Offer(_) => true
    case Flush(order) => Lists(order, s.b.pending) || Lists(order, s.b.spans.Keys)
    case Capture(i) => i < |s.inFlight| && s.inFlight[i] != []
  }

  function Apply(s: System, step: Step): System {
    match step
    case Refuse(span) => s.(history := s.history + [(span, Refused)])
    case Offer(span) =>
      var (b', fate, _) := AddSection(s.b, span);
      s.(b := b', history := s.history + [(span, fate)])
    case Flush(order) =>
      var (b', es) := FlushSection(s.b, order);
      s.(b := b', flushed := s.flushed + es, inFlight := s.inFlight + [es])
    case Capture(i) =>
      if i < |s.inFlight| && s.inFlight[i] != [] then
        s.(inFlight := s.inFlight[i := s.inFlight[i][1..]], captured := s.captured + [s.inFlight[i][0]])
      else s
  }

  ghost predicate IsRun(steps: seq<Step>) {
    forall i | 0 <= i < |steps| :: Enabled(After(steps[..i]), steps[i])
  }

  function After(steps: seq<Step>): System {
    if steps == [] then START else Apply(After(steps[..|steps| - 1]), steps[|steps| - 1])
  }

  /** Spans of trace `t` with the given fate, in the order they were offered. */
  function WithFate(history: seq<(Span, Fate)>, fate: Fate, t: TraceId): seq<Span> {
    if history == [] then []
    else
      var init, last := WithFate(history[..|history| - 1], fate, t), history[|history| - 1];
      if last.1 == fate && last.0.trace == t then init + [last.0] else init
  }

  /** Spans of trace `t` in the envelopes built, in order. */
  function FlushedOf(es: seq<Envelope>, t: TraceId): seq<Span> {
    if es == [] then []
    else
      var init, last := FlushedOf(es[..|es| - 1], t), es[|es| - 1];
      if last.dsc.trace == t then init + last.items else init
  }

  function Waiting(inFlight: seq<seq<Envelope>>): multiset<Envelope> {
    if inFlight == [] then multiset{} else Waiting(inFlight[..|inFlight| - 1]) + multiset(inFlight[|inFlight| - 1])
  }

  ghost predicate Conserved(s: System) {
    && Indexed(s.b)
    && AllOk(s.flushed)
    // per trace: what was accepted is what was put in envelopes followed by what is buffered
    && (forall t :: WithFate(s.history, Accepted, t) == FlushedOf(s.flushed, t) + Bucket(s.b, t))
    // every envelope built is captured or waiting, exactly once
    && multiset(s.flushed) == multiset(s.captured) + Waiting(s.inFlight)
  }

  lemma WithFateSnoc(history: seq<(Span, Fate)>, span: Span, fate: Fate, want: Fate, t: TraceId)
    ensures WithFate(history + [(span, fate)], want, t) ==
            WithFate(history, want, t) + if fate == want && span.trace == t then [span] else []
  {
    assert (history + [(span, fate)])[..|history|] == history;
    assert WithFate(history, want, t) + [] == WithFate(history, want, t);
  }

  lemma {:induction false} FlushedOfConcat(a: seq<Envelope>, c: seq<Envelope>, t: TraceId)
    ensures FlushedOf(a + c, t) == FlushedOf(a, t) + FlushedOf(c, t)
  {
    if c == [] {
      assert a + c == a;
    } else {
      assert (a + c)[..|a + c| - 1] == a + c[..|c| - 1];
      FlushedOfConcat(a, c[..|c| - 1], t);
    }
  }

  lemma {:induction false} FlushedOfOneTrace(es: seq<Envelope>, u: TraceId, t: TraceId)
    requires forall i | 0 <= i < |es| :: es[i].dsc.trace == u
    ensures FlushedOf(es, t) == if t == u then Items(es) else []
  {
    if es != [] {
      assert [es[0]] + es[1..] == es;
      FlushedOfConcat([es[0]], es[1..], t);
      FlushedOfOneTrace(es[1..], u, t);
      assert FlushedOf([es[0]], t) == if t == u then es[0].items else [] by {
        assert [es[0]][..0] == [];
        assert FlushedOf([], t) == [];
      }
    }
  }

  /** Flushing moves buckets into envelopes: per trace nothing is lost, added or reordered. */
  lemma {:induction false} FlushMovesBuckets(b: Buffers, order: seq<TraceId>, t: TraceId)
    requires Flushing(b) && b.pending == {}
    ensures var (b', es) := FlushBuckets(b, order);
            FlushedOf(es, t) + Bucket(b', t) == Bucket(b, t) && AllOk(es)
  {
    if order == [] {
      assert FlushedOf([], t) == [];
    } else {
      var init, u := order[..|order| - 1], order[|order| - 1];
      FlushMovesBuckets(b, init, t);
      FlushRemovesBuckets(b, init);
      var (b', es) := FlushBuckets(b, init);
      if Bucket(b', u) != [] {
        FlushMovesBucket(b', u, es, t);
      }
    }
  }

  lemma FlushMovesBucket(b: Buffers, u: TraceId, es: seq<Envelope>, t: TraceId)
    requires Flushing(b) && Bucket(b, u) != [] && AllOk(es)
    ensures var made := Chunks(b.spans[u], 0);
            && FlushedOf(es + made, t) + Bucket(b.(spans := b.spans - {u}), t) == FlushedOf(es, t) + Bucket(b, t)
            && AllOk(es + made)
  {
    hide FlushedOf, Chunks, Items, EnvelopeOk;
    assert BucketOk(b, u);
    var spans := b.spans[u];
    var made := Chunks(spans, 0);
    ChunksCover(spans, 0, u);
    assert spans[0..] == spans;
    FlushedOfConcat(es, made, t);
    FlushedOfOneTrace(made, u, t);
    if t == u {
      assert FlushedOf(es, t) + spans + [] == FlushedOf(es, t) + spans;
    } else {
      assert FlushedOf(es, t) + [] == FlushedOf(es, t);
    }
  }

  lemma NothingPendingIsFlushing(b: Buffers)
    requires Indexed(b)
    ensures Flushing(b.(pending := {})) && forall t :: Bucket(b.(pending := {}), t) == Bucket(b, t)
  {
    assert forall t <- b.spans :: BucketOk(b, t) && BucketOk(b.(pending := {}), t);
  }

  lemma FlushConserves(s: System, order: seq<TraceId>)
    requires Conserved(s) && Enabled(s, Flush(order))
    ensures Conserved(Apply(s, Flush(order)))
  {
    hide WithFate, FlushedOf, FlushBuckets, Bucket, EnvelopeOk, Indexed;
    var s' := Apply(s, Flush(order));
    var es := FlushSection(s.b, order).1;
    FlushKeepsIndex(s.b, order);
    var start := s.b.(pending := {});
    NothingPendingIsFlushing(s.b);
    forall t
      ensures WithFate(s'.history, Accepted, t) == FlushedOf(s'.flushed, t) + Bucket(s'.b, t)
    {
      FlushMovesBuckets(start, order, t);
      FlushedOfConcat(s.flushed, es, t);
      assert FlushedOf(s.flushed, t) + (FlushedOf(es, t) + Bucket(s'.b, t))
          == FlushedOf(s'.flushed, t) + Bucket(s'.b, t);
    }
    FlushMovesBuckets(start, order, 0);
    assert s'.inFlight[..|s.inFlight|] == s.inFlight;
  }

  lemma {:induction false} WaitingWithout(inFlight: seq<seq<Envelope>>, i: nat)
    requires i < |inFlight| && inFlight[i] != []
    ensures Waiting(inFlight) == Waiting(inFlight[i := inFlight[i][1..]]) + multiset{inFlight[i][0]}
  {
    var n := |inFlight| - 1;
    var inFlight' := inFlight[i := inFlight[i][1..]];
    if i < n {
      WaitingWithout(inFlight[..n], i);
      assert inFlight'[..n] == inFlight[..n][i := inFlight[..n][i][1..]];
    } else {
      assert inFlight'[..n] == inFlight[..n];
      assert inFlight[n] == [inFlight[n][0]] + inFlight[n][1..];
    }
  }

  lemma OfferConserves(s: System, span: Span)
    requires Conserved(s)
    ensures Conserved(Apply(s, Offer(span)))
  {
    hide WithFate, FlushedOf, EnvelopeOk, Indexed, Estimate;
    var s' := Apply(s, Offer(span));
    AddKeepsIndex(s.b, span);
    forall t
      ensures WithFate(s'.history, Accepted, t) == FlushedOf(s'.flushed, t) + Bucket(s'.b, t)
    {
      WithFateSnoc(s.history, span, AddSection(s.b, span).1, Accepted, t);
      assert FlushedOf(s.flushed, t) + (Bucket(s.b, t) + [span]) == FlushedOf(s.flushed, t) + Bucket(s.b, t) + [span];
    }
  }

  lemma StepConserves(s: System, step: Step)
    requires Conserved(s) && Enabled(s, step)
    ensures Conserved(Apply(s, step))
  {
    hide WithFate, FlushedOf, EnvelopeOk, Indexed, Waiting, Bucket;
    var s' := Apply(s, step);
    match step
    case Refuse(span) =>
      forall t
        ensures WithFate(s'.history, Accepted, t) == WithFate(s.history, Accepted, t)
      {
        WithFateSnoc(s.history, span, Refused, Accepted, t);
        assert WithFate(s.history, Accepted, t) + [] == WithFate(s.history, Accepted, t);
      }
    case Offer(span) =>
      OfferConserves(s, span);
    case Flush(order) =>
      FlushConserves(s, order);
    case Capture(i) =>
      WaitingWithout(s.inFlight, i);
  }

  /**
   * In every state of every run the index is exact and nothing is lost: per trace, the accepted
   * spans in order are those in envelopes followed by those buffered, and each envelope built is
   * captured or waiting to be.
   */
  lemma {:induction false} EveryRunConserves(steps: seq<Step>)
    requires IsRun(steps)
    ensures Conserved(After(steps))
  {
    if steps == [] {
      assert forall t :: WithFate([], Accepted, t) == [] && FlushedOf([], t) == [];
    } else {
      var init := steps[..|steps| - 1];
      assert forall i | 0 <= i < |init| :: init[..i] == steps[..i];
      EveryRunConserves(init);
      StepConserves(After(init), steps[|steps| - 1]);
    }
  }

  // ---------------------------------------------------------------- what becomes of an offered span

  /**
   * In any run, an offered span is lost if and only if 2000 spans of its trace are buffered, and then
   * nothing changes; otherwise its bucket grows by it at the end, and all other buckets, and what was
   * flushed and captured, are as they were.
   */
  lemma OfferedSpan(steps: seq<Step>, k: nat)
    requires IsRun(steps) && k < |steps| && steps[k].Offer?
    ensures var s, s', span := After(steps[..k]), After(steps[..k + 1]), steps[k].span;
            var full := |Bucket(s.b, span.trace)| >= 2000;
            && s'.history == s.history + [(span, if full then Lost else Accepted)]
            && s'.flushed == s.flushed && s'.inFlight == s.inFlight && s'.captured == s.captured
            && (full ==> s'.b == s.b)
            && (!full ==> Bucket(s'.b, span.trace) == Bucket(s.b, span.trace) + [span])
            && (forall t | t != span.trace ::
                  Bucket(s'.b, t) == Bucket(s.b, t) && (t in s'.b.pending <==> t in s.b.pending))
            && (!full ==> (span.trace in s'.b.pending <==>
                             span.trace in s.b.pending || Urgent(Bucket(s'.b, span.trace))))
  {
    hide WithFate, FlushedOf, EnvelopeOk, Estimate, EstimateAll;
    assert steps[..k + 1][..k] == steps[..k];
    RunPrefix(steps, k);
    EveryRunConserves(steps[..k]);
    var s, span := After(steps[..k]), steps[k].span;
    assert Apply(s, Offer(span)) == After(steps[..k + 1]);
    NothingIsNothing();
    EstimateOfSnoc(Bucket(s.b, span.trace), span);
    assert span.trace in s.b.spans ==> BucketOk(s.b, span.trace);
  }

  lemma NothingIsNothing()
    ensures EstimateAll([]) == 0
  {
  }

  lemma RunPrefix(steps: seq<Step>, k: nat)
    requires IsRun(steps) && k <= |steps|
    ensures IsRun(steps[..k])
  {
    forall i | 0 <= i < k
      ensures Enabled(After(steps[..k][..i]), steps[..k][i])
    {
      assert steps[..k][..i] == steps[..i];
    }
  }

  /** What `add` wakes the flusher for: a segment span at the end, 1000 spans, or 5 MiB. */
  ghost predicate Urgent(spans: seq<Span>) {
    && spans != []
    && (spans[|spans| - 1].isSegment || |spans| >= 1000 || EstimateAll(spans) >= 5 * 1024 * 1024)
  }

  /**
   * The flusher is woken for a bucket exactly when it is due after the call, if and only if no segment
   * span was waiting in it already, or it is due for another reason as well: a bucket with a segment
   * span has been announced, and is not announced again for every further span.
   */
  lemma NotifiedWhenDueIff(b: Buffers, span: Span)
    requires Indexed(b) && |Bucket(b, span.trace)| < 2000
    ensures var (b', _, notify) := AddSection(b, span);
            var before, bucket := Bucket(b, span.trace), Bucket(b', span.trace);
            && (notify <==> Urgent(bucket))
            && ((notify <==> Due(bucket)) <==> !HasSegment(before) || Urgent(bucket))
            && (Due(bucket) ==> notify || span.trace in b.pending)
  {
    hide Estimate, EstimateAll;
    EstimateOfSnoc(Bucket(b, span.trace), span);
    NothingIsNothing();
    assert span.trace in b.spans ==> BucketOk(b, span.trace);
  }
}
