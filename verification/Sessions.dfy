/**
 * Release-health sessions: how events change a session (`sentry_sdk/client.py`,
 * `sentry_sdk/session.py`) and how finished sessions are counted and sent (`sentry_sdk/sessions.py`).
 */
module Sessions {
  import opened Options

  datatype Status = Ok | Exited | CrashedStatus | Abnormal

  datatype Mode = RequestMode | ApplicationMode

  /** `handled` is the entry of the exception's mechanism, None if there is no mechanism or no entry. */
  datatype ExceptionValue = ExceptionValue(handled: Option<bool>)

  datatype Event = Event(exceptions: seq<ExceptionValue>)

  datatype Attrs = Attrs(release: Option<string>, environment: Option<string>)

  /** What `to_json` keeps of a session. */
  datatype SessionValue = SessionValue(id: nat, status: Status, errors: nat, attrs: Attrs, started: int)

  // ---------------------------------------------------------------- a session's life

  ghost predicate HasUnhandled(e: Event) {
    exists i :: 0 <= i < |e.exceptions| && e.exceptions[i].handled == Some(false)
  }

  /** Number of events that carried an exception. */
  function ErrorEvents(events: seq<Event>): nat {
    if events == [] then 0
    else ErrorEvents(events[..|events| - 1]) + if events[|events| - 1].exceptions != [] then 1 else 0
  }

  ghost predicate AnyUnhandled(events: seq<Event>) {
    exists i :: 0 <= i < |events| && HasUnhandled(events[i])
  }

  ghost predicate AnyException(events: seq<Event>) {
    exists i :: 0 <= i < |events| && events[i].exceptions != []
  }

  class Session {
    const id: nat
    const mode: Mode
    const attrs: Attrs
    const started: int                         // seconds
    var status: Status
    var errors: nat
    ghost var events: seq<Event>               // every event seen while the session was open

    /** An open session remembers whether anything crashed, and how many events had errors. */
    ghost predicate Open()
      reads this
    {
      && (status == CrashedStatus <==> AnyUnhandled(events))
      && (status == Ok || status == CrashedStatus)
      && errors == ErrorEvents(events)
    }

    function Value(): SessionValue
      reads this
    {
      SessionValue(id, status, errors, attrs, started)
    }

    constructor (id: nat, mode: Mode, attrs: Attrs, started: int)
      ensures Open() && events == []
      ensures this.mode == mode && this.id == id && this.attrs == attrs && this.started == started
    {
      this.id, this.mode, this.attrs, this.started := id, mode, attrs, started;
      status, errors, events := Ok, 0, [];
    }

    /** `update`, as far as status and errors go. */
    method Update(status: Option<Status>, errors: Option<nat>)
      modifies this`status, this`errors
      ensures this.errors == if errors.Some? then errors.value else old(this.errors)
      ensures this.status == if status.Some? then status.value else old(this.status)
    {
      if errors.Some? {
        this.errors := errors.value;
      }
      if status.Some? {
        this.status := status.value;
      }
    }

    /** `_update_session_from_event` */
    method UpdateFromEvent(event: Event)
      requires Open()
      modifies this
      ensures Open() && events == old(events) + [event]
    {
      hide AnyUnhandled, ErrorEvents;
      var crashed, errored := false, false;
      if event.exceptions != [] {
        errored := true;
        for i := 0 to |event.exceptions|
          invariant !crashed && forall j | 0 <= j < i :: event.exceptions[j].handled != Some(false)
        {
          if event.exceptions[i].handled == Some(false) {
            crashed := true;
            break;
          }
        }
      }
      assert crashed <==> HasUnhandled(event);
      Update(if crashed then Some(CrashedStatus) else None, Some(errors + if errored || crashed then 1 else 0));
      events := events + [event];
      EventsSnoc(old(events), event);
    }

    method Close(status: Option<Status>)
      modifies this`status, this`errors
      ensures errors == old(errors)
      ensures this.status == if status.Some? then status.value
                             else if old(this.status) == Ok then Exited else old(this.status)
    {
      var s := status;
      if s.None? && this.status == Ok {
        s := Some(Exited);
      }
      if s.Some? {
        Update(s, None);
      }
    }
  }

  lemma EventsSnoc(events: seq<Event>, e: Event)
    ensures ErrorEvents(events + [e]) == ErrorEvents(events) + if e.exceptions != [] then 1 else 0
    ensures AnyUnhandled(events + [e]) <==> AnyUnhandled(events) || HasUnhandled(e)
    ensures AnyException(events + [e]) <==> AnyException(events) || e.exceptions != []
  {
    var all := events + [e];
    assert all[..|all| - 1] == events;
    if i :| 0 <= i < |events| && HasUnhandled(events[i]) {
      assert HasUnhandled(all[i]);
    }
    if HasUnhandled(e) {
      assert HasUnhandled(all[|events|]);
    }
    if i :| 0 <= i < |events| && events[i].exceptions != [] {
      assert all[i].exceptions != [];
    }
    if e.exceptions != [] {
      assert all[|events|].exceptions != [];
    }
  }

  lemma {:induction false} ErrorEventsPositive(events: seq<Event>)
    ensures ErrorEvents(events) > 0 <==> AnyException(events)
  {
    if events != [] {
      var init, last := events[..|events| - 1], events[|events| - 1];
      ErrorEventsPositive(init);
      EventsSnoc(init, last);
      assert init + [last] == events;
    }
  }

  // ---------------------------------------------------------------- buckets

  datatype Bucket = InExited | InErrored | InCrashed | InAbnormal

  /** The counter a session goes to. */
  function BucketOf(s: SessionValue): Bucket {
    if s.status == CrashedStatus then InCrashed
    else if s.status == Abnormal then InAbnormal
    else if s.errors > 0 then InErrored
    else InExited
  }

  /**
   * A session that saw `events` and was closed counts as crashed if some event had an unhandled
   * exception, as errored if none had but some had an exception, and as exited otherwise.
   */
  lemma BucketOfClosedSession(s: SessionValue, events: seq<Event>)
    requires s.errors == ErrorEvents(events)
    requires s.status == if AnyUnhandled(events) then CrashedStatus else Exited
    ensures BucketOf(s) == InCrashed <==> AnyUnhandled(events)
    ensures BucketOf(s) == InErrored <==> !AnyUnhandled(events) && AnyException(events)
    ensures BucketOf(s) == InExited <==> !AnyException(events)
  {
    ErrorEventsPositive(events);
    if i :| 0 <= i < |events| && HasUnhandled(events[i]) {
      assert events[i].exceptions != [];
    }
  }

  /** A whole request session: opened, fed events, closed. */
  method RunSession(id: nat, attrs: Attrs, started: int, events: seq<Event>) returns (s: Session)
    ensures fresh(s) && s.mode == RequestMode && s.attrs == attrs && s.started == started
    ensures BucketOf(s.Value()) == InCrashed <==> AnyUnhandled(events)
    ensures BucketOf(s.Value()) == InErrored <==> !AnyUnhandled(events) && AnyException(events)
    ensures BucketOf(s.Value()) == InExited <==> !AnyException(events)
  {
    s := new Session(id, RequestMode, attrs, started);
    for i := 0 to |events|
      invariant fresh(s) && s.Open() && s.events == events[..i]
    {
      s.UpdateFromEvent(events[i]);
    }
    assert events[..|events|] == events;
    s.Close(None);
    BucketOfClosedSession(s.Value(), events);
  }

  datatype Counts = Counts(exited: nat, errored: nat, crashed: nat, abnormal: nat)

  const ZERO := Counts(0, 0, 0, 0)

  function Bump(c: Counts, b: Bucket): Counts {
    match b
    case InExited => c.(exited := c.exited + 1)
    case InErrored => c.(errored := c.errored + 1)
    case InCrashed => c.(crashed := c.crashed + 1)
    case InAbnormal => c.(abnormal := c.abnormal + 1)
  }

  function Total(c: Counts): nat {
    c.exited + c.errored + c.crashed + c.abnormal
  }

  /** A dictionary in insertion order. */
  type Dict<K, V> = seq<(K, V)>

  function Lookup<K(==), V>(d: Dict<K, V>, key: K): Option<V> {
    if d == [] then None else if d[0].0 == key then Some(d[0].1) else Lookup(d[1..], key)
  }

  function Put<K(==), V>(d: Dict<K, V>, key: K, value: V): Dict<K, V> {
    if d == [] then [(key, value)]
    else if d[0].0 == key then [(key, value)] + d[1..]
    else [d[0]] + Put(d[1..], key, value)
  }

  lemma {:induction false} LookupAfterPut<K, V>(d: Dict<K, V>, key: K, value: V, k: K)
    ensures Lookup(Put(d, key, value), k) == if k == key then Some(value) else Lookup(d, k)
  {
    var r := Put(d, key, value);
    if d != [] && d[0].0 != key {
      LookupAfterPut(d[1..], key, value, k);
      assert r[1..] == Put(d[1..], key, value);
    } else {
      assert r[1..] == if d == [] then [] else d[1..];
    }
  }

  type States = Dict<int, Counts>
  type Aggregates = Dict<Attrs, States>

  function Minute(started: int): int {
    started - started % 60
  }

  /** The minute a time lies in. */
  lemma MinuteHolds(started: int)
    ensures Minute(started) <= started < Minute(started) + 60 && exists m :: Minute(started) == 60 * m
  {
    assert Minute(started) == 60 * (started / 60);
  }

  function CountsAt(a: Aggregates, attrs: Attrs, minute: int): Counts {
    var states := Lookup(a, attrs);
    if states.None? then ZERO
    else
      var c := Lookup(states.value, minute);
      if c.None? then ZERO else c.value
  }

  /** What the counters for `attrs` and `minute` should say after these sessions. */
  function Tally(sessions: seq<SessionValue>, attrs: Attrs, minute: int): Counts {
    if sessions == [] then ZERO
    else
      var init, last := Tally(sessions[..|sessions| - 1], attrs, minute), sessions[|sessions| - 1];
      if last.attrs == attrs && Minute(last.started) == minute then Bump(init, BucketOf(last)) else init
  }

  /** Number of sessions that belong to `attrs` and `minute`. */
  function Belonging(sessions: seq<SessionValue>, attrs: Attrs, minute: int): nat {
    if sessions == [] then 0
    else
      var last := sessions[|sessions| - 1];
      Belonging(sessions[..|sessions| - 1], attrs, minute)
      + if last.attrs == attrs && Minute(last.started) == minute then 1 else 0
  }

  /** How many of the sessions that belong to `attrs` and `minute` are of a kind. */
  ghost function OfKind(sessions: seq<SessionValue>, attrs: Attrs, minute: int, kind: SessionValue -> bool): nat {
    if sessions == [] then 0
    else
      var last := sessions[|sessions| - 1];
      OfKind(sessions[..|sessions| - 1], attrs, minute, kind)
      + if last.attrs == attrs && minute <= last.started < minute + 60 && kind(last) then 1 else 0
  }

  const HAS_CRASHED := (s: SessionValue) => s.status == CrashedStatus
  const IS_ABNORMAL := (s: SessionValue) => s.status == Abnormal
  const HAS_ERRORS := (s: SessionValue) => s.status != CrashedStatus && s.status != Abnormal && s.errors > 0
  const IS_FINE := (s: SessionValue) => s.status != CrashedStatus && s.status != Abnormal && s.errors == 0

  /** Each counter of a whole minute counts the sessions that ended its way. */
  lemma {:induction false} CountersByKind(sessions: seq<SessionValue>, attrs: Attrs, minute: int)
    requires minute % 60 == 0
    ensures var c := Tally(sessions, attrs, minute);
            && c.crashed == OfKind(sessions, attrs, minute, HAS_CRASHED)
            && c.abnormal == OfKind(sessions, attrs, minute, IS_ABNORMAL)
            && c.errored == OfKind(sessions, attrs, minute, HAS_ERRORS)
            && c.exited == OfKind(sessions, attrs, minute, IS_FINE)
  {
    if sessions != [] {
      var last := sessions[|sessions| - 1];
      CountersByKind(sessions[..|sessions| - 1], attrs, minute);
      WholeMinute(last.started, minute);
    }
  }

  lemma WholeMinute(started: int, minute: int)
    requires minute % 60 == 0
    ensures Minute(started) == minute <==> minute <= started < minute + 60
  {
    assert Minute(started) == 60 * (started / 60) && minute == 60 * (minute / 60);
  }

  /** The four counters of a bucket sum to the sessions that belong to it. */
  lemma {:induction false} CountersSumToSessions(sessions: seq<SessionValue>, attrs: Attrs, minute: int)
    ensures Total(Tally(sessions, attrs, minute)) == Belonging(sessions, attrs, minute)
  {
    if sessions != [] {
      CountersSumToSessions(sessions[..|sessions| - 1], attrs, minute);
    }
  }

  function TotalOfStates(states: States): nat {
    if states == [] then 0 else Total(states[0].1) + TotalOfStates(states[1..])
  }

  /** All counters of all buckets together. */
  function TotalOf(a: Aggregates): nat {
    if a == [] then 0 else TotalOfStates(a[0].1) + TotalOf(a[1..])
  }

  /** Replacing the counters of a minute changes the total by the difference. */
  lemma {:induction false} TotalAfterPutState(states: States, minute: int, c: Counts)
    ensures var found := Lookup(states, minute);
            TotalOfStates(Put(states, minute, c)) + (if found.Some? then Total(found.value) else 0)
            == TotalOfStates(states) + Total(c)
  {
    var r := Put(states, minute, c);
    if states != [] && states[0].0 != minute {
      TotalAfterPutState(states[1..], minute, c);
      assert r[1..] == Put(states[1..], minute, c);
    } else {
      assert r[1..] == if states == [] then [] else states[1..];
    }
  }

  lemma {:induction false} TotalAfterPut(a: Aggregates, attrs: Attrs, states: States)
    ensures var found := Lookup(a, attrs);
            TotalOf(Put(a, attrs, states)) + (if found.Some? then TotalOfStates(found.value) else 0)
            == TotalOf(a) + TotalOfStates(states)
  {
    var r := Put(a, attrs, states);
    if a != [] && a[0].0 != attrs {
      TotalAfterPut(a[1..], attrs, states);
      assert r[1..] == Put(a[1..], attrs, states);
    } else {
      assert r[1..] == if a == [] then [] else a[1..];
    }
  }

  /** Counting a session in its bucket adds one to the total. */
  lemma TotalAfterSession(a: Aggregates, attrs: Attrs, minute: int, b: Bucket)
    ensures var found := Lookup(a, attrs);
            var states: States := if found.Some? then found.value else [];
            TotalOf(Put(a, attrs, Put(states, minute, Bump(CountsAt(a, attrs, minute), b)))) == TotalOf(a) + 1
  {
    var found := Lookup(a, attrs);
    var states: States := if found.Some? then found.value else [];
    TotalAfterPutState(states, minute, Bump(CountsAt(a, attrs, minute), b));
    TotalAfterPut(a, attrs, Put(states, minute, Bump(CountsAt(a, attrs, minute), b)));
  }

  // ---------------------------------------------------------------- the flusher

  datatype Item = SessionItem(session: SessionValue) | AggregateItem(attrs: Attrs, states: States)

  type Envelope = seq<Item>

  const MAX_ENVELOPE_ITEMS: nat := 100

  function SessionItems(sessions: seq<SessionValue>): seq<Item> {
    seq(|sessions|, i requires 0 <= i < |sessions| => SessionItem(sessions[i]))
  }

  function AggregateItems(a: Aggregates): seq<Item> {
    seq(|a|, i requires 0 <= i < |a| => AggregateItem(a[i].0, a[i].1))
  }

  function Concat(envelopes: seq<Envelope>): seq<Item> {
    if envelopes == [] then [] else Concat(envelopes[..|envelopes| - 1]) + envelopes[|envelopes| - 1]
  }

  /** Number of sessions that items stand for. */
  function SessionsIn(items: seq<Item>): nat {
    if items == [] then 0
    else
      (match items[0] case SessionItem(_) => 1 case AggregateItem(_, states) => TotalOfStates(states))
      + SessionsIn(items[1..])
  }

  lemma {:induction false} SessionsInSessions(sessions: seq<SessionValue>, rest: seq<Item>)
    ensures SessionsIn(SessionItems(sessions) + rest) == |sessions| + SessionsIn(rest)
  {
    var items := SessionItems(sessions) + rest;
    if sessions == [] {
      assert items == rest;
    } else {
      SessionsInSessions(sessions[1..], rest);
      assert items[1..] == SessionItems(sessions[1..]) + rest;
    }
  }

  lemma {:induction false} SessionsInAggregates(a: Aggregates)
    ensures SessionsIn(AggregateItems(a)) == TotalOf(a)
  {
    if a != [] {
      SessionsInAggregates(a[1..]);
      assert AggregateItems(a)[1..] == AggregateItems(a[1..]);
    }
  }

  /** All envelopes are full, except that the last one may hold anything from one item up. */
  ghost predicate WellFilled(envelopes: seq<Envelope>) {
    && (forall i | 0 <= i < |envelopes| - 1 :: |envelopes[i]| == 100)
    && (envelopes != [] ==> 1 <= |envelopes[|envelopes| - 1]| <= 100)
  }

  ghost predicate AllFull(envelopes: seq<Envelope>) {
    forall i | 0 <= i < |envelopes| :: |envelopes[i]| == 100
  }

  class SessionFlusher {
    var pendingSessions: seq<SessionValue>
    var pendingAggregates: Aggregates
    ghost var applications: seq<SessionValue>  // since the last flush
    ghost var requests: seq<SessionValue>      // since the last flush

    /** Every counter is the tally of its sessions, and all counters together are all the sessions. */
    ghost predicate Valid()
      reads this
    {
      && pendingSessions == applications
      && TotalOf(pendingAggregates) == |requests|
      && forall attrs, minute :: CountsAt(pendingAggregates, attrs, minute) == Tally(requests, attrs, minute)
    }

    constructor ()
      ensures Valid() && applications == [] && requests == []
    {
      pendingSessions, pendingAggregates, applications, requests := [], [], [], [];
    }

    method AddAggregateSession(session: SessionValue)
      requires Valid()
      modifies this`pendingAggregates, this`requests
      ensures Valid() && requests == old(requests) + [session]
    {
      var minute := Minute(session.started);
      var found := Lookup(pendingAggregates, session.attrs);
      var states: States := if found.Some? then found.value else [];
      var state := Lookup(states, minute);
      var bumped := Bump(if state.Some? then state.value else ZERO, BucketOf(session));
      TotalAfterSession(pendingAggregates, session.attrs, minute, BucketOf(session));
      pendingAggregates := Put(pendingAggregates, session.attrs, Put(states, minute, bumped));
      requests := requests + [session];
      forall attrs, m
        ensures CountsAt(pendingAggregates, attrs, m) == Tally(requests, attrs, m)
      {
        assert requests[..|requests| - 1] == old(requests);
        LookupAfterPut(old(pendingAggregates), session.attrs, Put(states, minute, bumped), attrs);
        LookupAfterPut(states, minute, bumped, m);
        assert CountsAt(old(pendingAggregates), attrs, m) == Tally(old(requests), attrs, m);
      }
    }

    method AddSession(session: Session)
      requires Valid()
      modifies this
      ensures Valid()
      ensures session.mode == RequestMode ==>
                requests == old(requests) + [session.Value()] && applications == old(applications)
      ensures session.mode != RequestMode ==>
                applications == old(applications) + [session.Value()] && requests == old(requests)
    {
      if session.mode == RequestMode {
        AddAggregateSession(session.Value());
      } else {
        pendingSessions := pendingSessions + [session.Value()];
        applications := applications + [session.Value()];
      }
    }

    /** A full envelope is captured before the next item is added to a new one. */
    static method AddItem(captured: seq<Envelope>, envelope: Envelope, item: Item)
      returns (captured': seq<Envelope>, envelope': Envelope)
      requires AllFull(captured) && |envelope| <= 100
      ensures AllFull(captured') && 1 <= |envelope'| <= 100
      ensures Concat(captured') + envelope' == Concat(captured) + envelope + [item]
    {
      captured', envelope' := captured, envelope;
      if |envelope'| == MAX_ENVELOPE_ITEMS {
        ConcatSnoc(captured', envelope');
        captured' := captured' + [envelope'];
        envelope' := [];
      }
      envelope' := envelope' + [item];
    }

    /** The envelopes captured hold every pending session and then every aggregate, in order. */
    method Flush() returns (captured: seq<Envelope>)
      requires Valid()
      modifies this
      ensures Valid() && applications == [] && requests == []
      ensures Concat(captured) == SessionItems(old(pendingSessions)) + AggregateItems(old(pendingAggregates))
      ensures SessionsIn(Concat(captured)) == |old(applications)| + |old(requests)|
      ensures WellFilled(captured)
    {
      hide Concat, SessionsIn, TotalOf;
      var sessions, aggregates := pendingSessions, pendingAggregates;
      SessionsInSessions(sessions, AggregateItems(aggregates));
      SessionsInAggregates(aggregates);
      pendingSessions, pendingAggregates, applications, requests := [], [], [], [];
      captured := [];
      var envelope: Envelope := [];
      ConcatNothing();
      NothingTotalsZero();
      for i := 0 to |sessions|
        invariant Concat(captured) + envelope == SessionItems(sessions[..i])
        invariant AllFull(captured) && |envelope| <= MAX_ENVELOPE_ITEMS && (envelope == [] ==> captured == [])
        invariant Valid() && applications == [] && requests == []
      {
        captured, envelope := AddItem(captured, envelope, SessionItem(sessions[i]));
        assert SessionItems(sessions[..i + 1]) == SessionItems(sessions[..i]) + [SessionItem(sessions[i])];
      }
      assert sessions[..|sessions|] == sessions;
      ghost var first := SessionItems(sessions);
      assert AggregateItems(aggregates[..0]) == [] && first + [] == first;
      for i := 0 to |aggregates|
        invariant Concat(captured) + envelope == first + AggregateItems(aggregates[..i])
        invariant AllFull(captured) && |envelope| <= MAX_ENVELOPE_ITEMS && (envelope == [] ==> captured == [])
        invariant Valid() && applications == [] && requests == []
      {
        var (attrs, states) := aggregates[i];
        captured, envelope := AddItem(captured, envelope, AggregateItem(attrs, states));
        assert AggregateItems(aggregates[..i + 1]) == AggregateItems(aggregates[..i]) + [AggregateItem(attrs, states)];
        assert first + (AggregateItems(aggregates[..i]) + [AggregateItem(attrs, states)])
            == first + AggregateItems(aggregates[..i]) + [AggregateItem(attrs, states)];
      }
      assert aggregates[..|aggregates|] == aggregates;
      if |envelope| > 0 {
        ConcatSnoc(captured, envelope);
        captured := captured + [envelope];
      } else {
        assert Concat(captured) + [] == Concat(captured);
      }
    }
  }

  lemma NothingTotalsZero()
    ensures TotalOf([]) == 0
  {
  }

  lemma ConcatNothing()
    ensures Concat([]) == []
  {
  }

  lemma ConcatSnoc(envelopes: seq<Envelope>, e: Envelope)
    ensures Concat(envelopes + [e]) == Concat(envelopes) + e
  {
    assert (envelopes + [e])[..|envelopes|] == envelopes;
  }
}
