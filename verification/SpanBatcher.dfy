/**
 * The span batcher of `sentry_sdk/_span_batcher.py`, with the thread handling it inherits from
 * `sentry_sdk/_batcher.py`.  Each method is a section the source runs under the batcher's lock (or
 * on the flags of one thread), so a run of the program is an interleaving of these sections.
 */
module SpanBatcher {
  type TraceId = nat
  type ThreadId = nat

  /** `attributes` holds the length of the string form of each attribute value. */
  datatype Span = Span(id: nat, trace: TraceId, isSegment: bool, attributes: seq<nat>)

  /** `dsc` names the span whose segment supplies the dynamic sampling context of the header. */
  datatype Envelope = Envelope(dsc: Span, itemCount: nat, items: seq<Span>)

  const MAX_ENVELOPE_SIZE: nat := 1000
  const MAX_BEFORE_FLUSH: nat := 1000
  const MAX_BEFORE_DROP: nat := 2000
  const MAX_BYTES_BEFORE_FLUSH: nat := 5 * 1024 * 1024

  // ---------------------------------------------------------------- the lock sections as functions

  datatype Buffers = Buffers(spans: map<TraceId, seq<Span>>, sizes: map<TraceId, nat>, pending: set<TraceId>)

  const EMPTY := Buffers(map[], map[], {})

  function Estimate(attributes: seq<nat>): nat {
    if attributes == [] then 210
    else Estimate(attributes[..|attributes| - 1]) + 50 + attributes[|attributes| - 1]
  }

  function Sum(lengths: seq<nat>): nat {
    if lengths == [] then 0 else lengths[0] + Sum(lengths[1..])
  }

  /** 210 for the payload, 50 for each attribute, and the length of every value. */
  lemma {:induction false} EstimateIs(attributes: seq<nat>)
    ensures Estimate(attributes) == 210 + 50 * |attributes| + Sum(attributes)
  {
    if attributes != [] {
      var init, last := attributes[..|attributes| - 1], attributes[|attributes| - 1];
      EstimateIs(init);
      SumSnoc(init, last);
      assert init + [last] == attributes;
    }
  }

  lemma {:induction false} SumSnoc(lengths: seq<nat>, last: nat)
    ensures Sum(lengths + [last]) == Sum(lengths) + last
  {
    if lengths == [] {
      assert [last][1..] == [];
    } else {
      SumSnoc(lengths[1..], last);
      assert (lengths + [last])[1..] == lengths[1..] + [last];
    }
  }

  function EstimateAll(spans: seq<Span>): nat {
    if spans == [] then 0
    else EstimateAll(spans[..|spans| - 1]) + Estimate(spans[|spans| - 1].attributes)
  }

  function Bucket(b: Buffers, t: TraceId): seq<Span> {
    if t in b.spans then b.spans[t] else []
  }

  function SizeOf(b: Buffers, t: TraceId): nat {
    if t in b.sizes then b.sizes[t] else 0
  }

  datatype Fate = Refused | Lost | Accepted

  /** The locked part of `add`: the new buffers, what became of the span, whether to wake the flusher. */
  function AddSection(b: Buffers, span: Span): (Buffers, Fate, bool) {
    var t := span.trace;
    if |Bucket(b, t)| >= MAX_BEFORE_DROP then (b, Lost, false)
    else
      var spans := Bucket(b, t) + [span];
      var size := SizeOf(b, t) + Estimate(span.attributes);
      var notify := span.isSegment || |spans| >= MAX_BEFORE_FLUSH || size >= MAX_BYTES_BEFORE_FLUSH;
      (Buffers(b.spans[t := spans], b.sizes[t := size], if notify then b.pending + {t} else b.pending),
       Accepted, notify)
  }

  function MakeEnvelope(spans: seq<Span>, start: nat, end: nat): Envelope
    requires start < end <= |spans|
  {
    Envelope(spans[0], end - start, spans[start..end])
  }

  /** The envelopes for `spans` from position `start` on. */
  function Chunks(spans: seq<Span>, start: nat): seq<Envelope>
    decreases |spans| - start
  {
    if start >= |spans| then []
    else
      var end := if start + MAX_ENVELOPE_SIZE < |spans| then start + MAX_ENVELOPE_SIZE else |spans|;
      [MakeEnvelope(spans, start, end)] + Chunks(spans, start + MAX_ENVELOPE_SIZE)
  }

  /** At most 1000 spans from position `start` on. */
  function Slice(spans: seq<Span>, start: nat): seq<Span> {
    if start >= |spans| then [] else if start + 1000 < |spans| then spans[start..start + 1000] else spans[start..]
  }

  lemma {:induction false} ChunkCount(spans: seq<Span>, start: nat)
    ensures var n := |Chunks(spans, start)|;
            if start < |spans| then start + 1000 * (n - 1) < |spans| <= start + 1000 * n else n == 0
    decreases |spans| - start
  {
    if start < |spans| {
      ChunkCount(spans, start + 1000);
    }
  }

  /** Every envelope but the last one is full, and all are for the trace of the first span. */
  lemma {:induction false} ChunkAt(spans: seq<Span>, start: nat, k: nat)
    requires k < |Chunks(spans, start)|
    ensures spans != []
    ensures var items := Slice(spans, start + 1000 * k);
            Chunks(spans, start)[k] == Envelope(spans[0], |items|, items)
    decreases |spans| - start
  {
    if k > 0 {
      ChunkAt(spans, start + 1000, k - 1);
      assert start + 1000 + 1000 * (k - 1) == start + 1000 * k;
    } else if start + 1000 >= |spans| {
      assert spans[start..|spans|] == spans[start..];
    }
  }

  /** The locked part of `_flush` for the buckets in `order`. */
  function FlushBuckets(b: Buffers, order: seq<TraceId>): (Buffers, seq<Envelope>) {
    if order == [] then (b, [])
    else
      var (b', es) := FlushBuckets(b, order[..|order| - 1]);
      var t := order[|order| - 1];
      if Bucket(b', t) == [] then (b', es)
      else (Buffers(b'.spans - {t}, b'.sizes - {t}, b'.pending), es + Chunks(b'.spans[t], 0))
  }

  function FlushSection(b: Buffers, order: seq<TraceId>): (Buffers, seq<Envelope>) {
    FlushBuckets(b.(pending := {}), order)
  }

  /** `order` lists the set `s`, in some order. */
  ghost predicate Lists(order: seq<TraceId>, s: set<TraceId>) {
    && (forall t :: t in order <==> t in s)
    && forall i, j | 0 <= i < j < |order| :: order[i] != order[j]
  }

  // ---------------------------------------------------------------- the class

  method ListOf(s: set<TraceId>) returns (order: seq<TraceId>)
    ensures Lists(order, s)
  {
    order := [];
    var rest := s;
    while rest != {}
      invariant rest <= s && Lists(order, s - rest)
      decreases rest
    {
      var t :| t in rest;
      rest := rest - {t};
      order := order + [t];
    }
    assert s - {} == s;
  }

  class SpanBatcher {
    var spanBuffer: map<TraceId, seq<Span>>
    var runningSize: map<TraceId, nat>
    var pendingFlush: set<TraceId>
    var running: bool
    var threadStarted: bool           // _flusher_pid is the current process
    var flusher: bool                 // _flusher is not None
    var active: set<ThreadId>         // threads whose _active.flag is set

    function State(): Buffers
      reads this
    {
      Buffers(spanBuffer, runningSize, pendingFlush)
    }

    constructor ()
      ensures State() == EMPTY && running && !threadStarted && !flusher && active == {}
    {
      spanBuffer, runningSize, pendingFlush := map[], map[], {};
      running, threadStarted, flusher, active := true, false, false, {};
    }

    /** `_ensure_thread`; `canStart` says whether the interpreter can still start threads. */
    method EnsureThread(canStart: bool) returns (ok: bool)
      modifies this`running, this`threadStarted, this`flusher
      ensures ok == (old(running) && (old(threadStarted) || canStart))
      ensures running == (old(running) && (old(threadStarted) || canStart))
      ensures old(running) && !old(threadStarted) ==> threadStarted && flusher
      ensures old(threadStarted) || !old(running) ==> threadStarted == old(threadStarted) && flusher == old(flusher)
    {
      if !running {
        return false;
      }
      if threadStarted {
        return true;
      }
      threadStarted, flusher := true, true;
      if !canStart {
        running := false;
        return false;
      }
      return true;
    }

    method Kill()
      modifies this`running, this`flusher
      ensures !flusher && running == (old(running) && !old(flusher))
    {
      if !flusher {
        return;
      }
      running, flusher := false, false;
    }

    static method EstimateSize(attributes: seq<nat>) returns (estimate: nat)
      ensures estimate == Estimate(attributes) == 210 + 50 * |attributes| + Sum(attributes)
    {
      EstimateIs(attributes);
      estimate := 210;
      for i := 0 to |attributes|
        invariant estimate == Estimate(attributes[..i])
      {
        assert attributes[..i + 1][..i] == attributes[..i];
        estimate := estimate + 50;
        estimate := estimate + attributes[i];
      }
      assert attributes[..|attributes|] == attributes;
    }

    /**
     * `add`, called by `thread`: refused if the thread is already inside the batcher or there is no
     * flusher; otherwise the locked section decides.
     */
    method Add(thread: ThreadId, span: Span, canStart: bool) returns (fate: Fate, notify: bool)
      modifies this
      ensures fate == Refused <==> thread in old(active) || !old(running) || (old(threadStarted) && !old(flusher))
                                   || (!old(threadStarted) && !canStart)
      ensures fate == Refused ==> State() == old(State()) && !notify
      ensures fate != Refused ==> (State(), fate, notify) == AddSection(old(State()), span)
      ensures fate != Refused ==> (fate == Lost <==> |Bucket(old(State()), span.trace)| >= 2000)
      ensures fate == Lost ==> State() == old(State()) && !notify
      ensures fate == Accepted ==>
                var bucket := Bucket(old(State()), span.trace) + [span];
                var size := SizeOf(old(State()), span.trace) + Estimate(span.attributes);
                && spanBuffer == old(spanBuffer)[span.trace := bucket]
                && runningSize == old(runningSize)[span.trace := size]
                && (notify <==> span.isSegment || |bucket| >= 1000 || size >= 5_242_880)
                && pendingFlush == old(pendingFlush) + if notify then {span.trace} else {}
      ensures active == old(active)
    {
      if thread in active {
        return Refused, false;
      }
      active := active + {thread};
      var ok := EnsureThread(canStart);
      if !ok || !flusher {
        fate, notify := Refused, false;
      } else {
        var size := |if span.trace in spanBuffer then spanBuffer[span.trace] else []|;
        if size >= MAX_BEFORE_DROP {
          fate, notify := Lost, false;
        } else {
          var t := span.trace;
          spanBuffer := spanBuffer[t := (if t in spanBuffer then spanBuffer[t] else []) + [span]];
          var estimate := EstimateSize(span.attributes);
          runningSize := runningSize[t := (if t in runningSize then runningSize[t] else 0) + estimate];
          fate := Accepted;
          if span.isSegment || size + 1 >= MAX_BEFORE_FLUSH || runningSize[t] >= MAX_BYTES_BEFORE_FLUSH {
            pendingFlush := pendingFlush + {t};
            notify := true;
          } else {
            notify := false;
          }
        }
      }
      active := active - {thread};
    }

    /** The locked part of `_flush`; the envelopes returned are captured after the lock is released. */
    method Flush(onlyPending: bool) returns (envelopes: seq<Envelope>, buckets: seq<TraceId>)
      modifies this`spanBuffer, this`runningSize, this`pendingFlush
      ensures Lists(buckets, if onlyPending then old(pendingFlush) else old(spanBuffer).Keys)
      ensures (State(), envelopes) == FlushSection(old(State()), buckets)
    {
      buckets := ListOf(if onlyPending then pendingFlush else spanBuffer.Keys);
      pendingFlush := {};
      envelopes := [];
      if buckets == [] {
        return;
      }
      ghost var start := old(State()).(pending := {});
      for i := 0 to |buckets|
        invariant (State(), envelopes) == FlushBuckets(start, buckets[..i])
      {
        assert buckets[..i + 1][..i] == buckets[..i];
        var bucketId := buckets[i];
        var spans := if bucketId in spanBuffer then spanBuffer[bucketId] else [];
        if spans != [] {
          var made := EnvelopesOf(spans);
          envelopes := envelopes + made;
          spanBuffer := spanBuffer - {bucketId};
          runningSize := runningSize - {bucketId};
        }
      }
      assert buckets[..|buckets|] == buckets;
    }

    /** The inner loop of `_flush`: envelopes of at most 1000 spans. */
    static method EnvelopesOf(spans: seq<Span>) returns (envelopes: seq<Envelope>)
      requires spans != []
      ensures envelopes == Chunks(spans, 0)
      ensures 1000 * (|envelopes| - 1) < |spans| <= 1000 * |envelopes|
      ensures forall k | 0 <= k < |envelopes| ::
                var items := Slice(spans, 1000 * k);
                envelopes[k] == Envelope(spans[0], |items|, items)
    {
      ChunkCount(spans, 0);
      forall k | 0 <= k < |Chunks(spans, 0)|
        ensures Chunks(spans, 0)[k] == Envelope(spans[0], |Slice(spans, 1000 * k)|, Slice(spans, 1000 * k))
      {
        ChunkAt(spans, 0, k);
      }
      envelopes := [];
      var start := 0;
      while start < |spans|
        invariant Chunks(spans, 0) == envelopes + Chunks(spans, start)
      {
        var end := if start + MAX_ENVELOPE_SIZE < |spans| then start + MAX_ENVELOPE_SIZE else |spans|;
        envelopes := envelopes + [MakeEnvelope(spans, start, end)];
        start := start + MAX_ENVELOPE_SIZE;
      }
    }
  }
}
