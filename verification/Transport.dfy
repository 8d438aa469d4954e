/**
 * Loss accounting of the HTTP transport, from `sentry_sdk/transport.py`.  A request ends with a
 * response or a network failure; time is a number; the worker's queue is a field, run one job at a
 * time.
 */
module Transport {
  import opened Options

  datatype Category =
    | Default | Error | Session | Attachment | Transaction | Span | LogItem | LogByte
    | TraceMetric | TraceMetricByte | Internal | Profile | ProfileChunk | Monitor

  datatype Reason =
    | QueueOverflow | RatelimitBackoff | NetworkError | SendError
    | OtherReason(name: string)                  // recorded by other parts of the SDK

  type Key = (Category, Reason)
  type Discards = map<Key, nat>

  /**
   * `itemCount` is the header of a batched item, `bytes` the length of the payload, `spans` a
   * transaction's spans.  `dumpable` says that `json_dumps` does not raise on it.
   */
  datatype Item = Item(category: Category, itemCount: Option<int>, bytes: nat, spans: nat, report: Option<Discards>,
                       dumpable: bool)

  /** One `+=` on the counters. */
  datatype Charge = Charge(category: Category, reason: Reason, quantity: nat)

  function BatchQuantity(item: Item): nat {
    if item.itemCount.Some? && item.itemCount.value > 0 then item.itemCount.value else 1
  }

  /** What losing an item costs. */
  function Charges(reason: Reason, item: Item): seq<Charge> {
    match item.category
    case Transaction => [Charge(Span, reason, item.spans + 1), Charge(Transaction, reason, 1)]
    case Span => [Charge(Span, reason, BatchQuantity(item))]
    case LogItem => [Charge(LogByte, reason, item.bytes), Charge(LogItem, reason, BatchQuantity(item))]
    case TraceMetric => [Charge(TraceMetricByte, reason, item.bytes), Charge(TraceMetric, reason, BatchQuantity(item))]
    case Attachment => [Charge(Attachment, reason, if item.bytes == 0 then 1 else item.bytes)]
    case other => [Charge(other, reason, 1)]
  }

  function Pending(d: Discards, key: Key): nat {
    if key in d then d[key] else 0
  }

  function Recorded(log: seq<Charge>, key: Key): nat {
    if log == [] then 0
    else
      var c := log[|log| - 1];
      Recorded(log[..|log| - 1], key) + if (c.category, c.reason) == key then c.quantity else 0
  }

  function Reported(reports: seq<Discards>, key: Key): nat {
    if reports == [] then 0 else Reported(reports[..|reports| - 1], key) + Pending(reports[|reports| - 1], key)
  }

  /** Losing such an item counts its bytes, so its payload is dumped first. */
  predicate CountsBytes(item: Item) {
    item.category == LogItem || item.category == TraceMetric || item.category == Attachment
  }

  /** `record_lost_event` for the item does not raise. */
  predicate Chargeable(item: Item, reports: bool) {
    reports && CountsBytes(item) ==> item.dumpable
  }

  /** What became of an item; `Vanished` means that it was neither delivered nor charged. */
  datatype Fate = Delivered | Charged(reason: Reason) | Vanished

  /** The `Retry-After` header. */
  datatype RetryHeader = Absent | Seconds(n: int) | Unreadable

  /** The `x-sentry-rate-limits` header: the limits read from it, and whether reading on raises. */
  datatype LimitsHeader = LimitsHeader(limits: seq<(Option<Category>, int)>, raises: bool)

  datatype Response = Response(status: int, limits: Option<LimitsHeader>, retryAfter: RetryHeader)

  /** `_update_rate_limits` raises. */
  predicate HeadersRaise(r: Response) {
    if r.limits.Some? then r.limits.value.raises else r.status == 429 && r.retryAfter.Unreadable?
  }

  /** None is a network failure.  An exception while the headers are read comes before any charge. */
  function FateOfRequest(r: Option<Response>): Fate {
    if r.None? then Charged(NetworkError)
    else if r.value.status == 429 || 200 <= r.value.status < 300 then Delivered
    else if HeadersRaise(r.value) then Vanished
    else if r.value.status == 413 then Charged(SendError)
    else Charged(NetworkError)
  }

  function Marked(items: seq<Item>, fate: Fate): seq<(Item, Fate)> {
    if items == [] then [] else Marked(items[..|items| - 1], fate) + [(items[|items| - 1], fate)]
  }

  /** All charges of a list of fates, in order. */
  function ChargesOf(fates: seq<(Item, Fate)>): seq<Charge> {
    if fates == [] then []
    else
      var (item, fate) := fates[|fates| - 1];
      ChargesOf(fates[..|fates| - 1]) + if fate.Charged? then Charges(fate.reason, item) else []
  }

  type Limits = map<Option<Category>, int>

  predicate Disabled(limits: Limits, now: int, category: Category) {
    || (Some(category) in limits && limits[Some(category)] > now)
    || (None in limits && limits[None] > now)
  }

  /** The items that are, or are not, over quota. */
  function Over(items: seq<Item>, limits: Limits, now: int, over: bool): seq<Item> {
    if items == [] then []
    else
      var init, last := Over(items[..|items| - 1], limits, now, over), items[|items| - 1];
      if Disabled(limits, now, last.category) == over then init + [last] else init
  }

  /** How far the loop of `_prepare_envelope` gets: up to the first item over quota that cannot be charged. */
  function Passed(items: seq<Item>, limits: Limits, now: int, reports: bool): (n: nat)
    ensures n <= |items|
    ensures forall i | 0 <= i < n :: Disabled(limits, now, items[i].category) ==> Chargeable(items[i], reports)
    ensures n < |items| ==> Disabled(limits, now, items[n].category) && !Chargeable(items[n], reports)
  {
    if items == [] || (Disabled(limits, now, items[0].category) && !Chargeable(items[0], reports)) then 0
    else 1 + Passed(items[1..], limits, now, reports)
  }

  /** How far the loop over lost items gets: up to the first one that cannot be charged. */
  function ChargedUpTo(items: seq<Item>, reports: bool): (n: nat)
    ensures n <= |items|
    ensures forall i | 0 <= i < n :: Chargeable(items[i], reports)
    ensures n < |items| ==> !Chargeable(items[n], reports)
  {
    if items == [] || !Chargeable(items[0], reports) then 0 else 1 + ChargedUpTo(items[1..], reports)
  }

  predicate AllDump(items: seq<Item>) {
    forall i | 0 <= i < |items| :: items[i].dumpable
  }

  /** The fates of items that are lost for a reason: those behind one that cannot be charged vanish with it. */
  function LossFates(items: seq<Item>, reason: Reason, reports: bool): seq<(Item, Fate)> {
    var n := ChargedUpTo(items, reports);
    Marked(items[..n], Charged(reason)) + Marked(items[n..], Vanished)
  }

  /** The fates of the items of an envelope taken from the queue, with a client report if one is attached. */
  function SendFates(envelope: Envelope, limits: Limits, now: int, reports: bool, report: Option<Item>,
                     r: Option<Response>): seq<(Item, Fate)> {
    var n := Passed(envelope, limits, now, reports);
    var over, kept := Over(envelope[..n], limits, now, true), Over(envelope[..n], limits, now, false);
    Marked(over, Charged(RatelimitBackoff))
    + if n < |envelope| then Marked(kept + envelope[n..], Vanished)
      else if kept == [] then []
      else KeptFates(kept + if report.Some? then [report.value] else [], r)
  }

  /** `_send_envelope` does not raise. */
  predicate SendsWell(envelope: Envelope, limits: Limits, now: int, reports: bool, r: Option<Response>) {
    && Passed(envelope, limits, now, reports) == |envelope|
    && var kept := Over(envelope, limits, now, false);
       kept == [] || (AllDump(kept) && r.Some? && !HeadersRaise(r.value))
  }

  /** Items that are to be sent together: if one cannot be dumped, they all vanish. */
  function KeptFates(items: seq<Item>, r: Option<Response>): seq<(Item, Fate)> {
    Marked(items, if AllDump(items) then FateOfRequest(r) else Vanished)
  }

  type Envelope = seq<Item>

  function ItemsOf(queue: seq<Envelope>): multiset<Item> {
    if queue == [] then multiset{} else ItemsOf(queue[..|queue| - 1]) + multiset(queue[|queue| - 1])
  }

  function ItemsWithFates(fates: seq<(Item, Fate)>): multiset<Item> {
    if fates == [] then multiset{} else ItemsWithFates(fates[..|fates| - 1]) + multiset{fates[|fates| - 1].0}
  }

  function WithLimits(limits: Limits, more: seq<(Option<Category>, int)>): Limits {
    if more == [] then limits
    else WithLimits(limits, more[..|more| - 1])[more[|more| - 1].0 := more[|more| - 1].1]
  }

  /** `parse_retry_after(...) or 60` */
  function RetryAfter(r: Response): int {
    if r.retryAfter.Seconds? && r.retryAfter.n != 0 then r.retryAfter.n else 60
  }

  // ---------------------------------------------------------------- lemmas on these lists

  lemma {:induction false} RecordedConcat(a: seq<Charge>, b: seq<Charge>, key: Key)
    ensures Recorded(a + b, key) == Recorded(a, key) + Recorded(b, key)
  {
    if b == [] {
      assert a + b == a;
    } else {
      assert (a + b)[..|a + b| - 1] == a + b[..|b| - 1];
      RecordedConcat(a, b[..|b| - 1], key);
    }
  }

  lemma RecordedSnoc(a: seq<Charge>, c: Charge, key: Key)
    ensures Recorded(a + [c], key) == Recorded(a, key) + if (c.category, c.reason) == key then c.quantity else 0
  {
    assert (a + [c])[..|a|] == a;
  }

  lemma ReportedSnoc(reports: seq<Discards>, d: Discards, key: Key)
    ensures Reported(reports + [d], key) == Reported(reports, key) + Pending(d, key)
  {
    assert (reports + [d])[..|reports|] == reports;
  }

  lemma {:induction false} ChargesConcat(a: seq<(Item, Fate)>, b: seq<(Item, Fate)>)
    ensures ChargesOf(a + b) == ChargesOf(a) + ChargesOf(b)
    ensures ItemsWithFates(a + b) == ItemsWithFates(a) + ItemsWithFates(b)
  {
    hide Charges;
    if b == [] {
      assert a + b == a;
    } else {
      var init, last := b[..|b| - 1], b[|b| - 1];
      assert (a + b)[..|a + b| - 1] == a + init;
      ChargesConcat(a, init);
      var c := if last.1.Charged? then Charges(last.1.reason, last.0) else [];
      assert ChargesOf(a) + (ChargesOf(init) + c) == ChargesOf(a) + ChargesOf(init) + c;
    }
  }

  lemma MarkedSnoc(items: seq<Item>, item: Item, fate: Fate)
    ensures Marked(items + [item], fate) == Marked(items, fate) + [(item, fate)]
    ensures ChargesOf(Marked(items + [item], fate))
         == ChargesOf(Marked(items, fate)) + if fate.Charged? then Charges(fate.reason, item) else []
  {
    hide Charges, Over;
    assert (items + [item])[..|items|] == items;
    var m := Marked(items, fate);
    assert (m + [(item, fate)])[..|m|] == m;
  }

  lemma MarkedNothing(fate: Fate)
    ensures ChargesOf(Marked([], fate)) == []
  {
  }

  lemma {:induction false} DeliveredCostsNothing(items: seq<Item>, fate: Fate)
    requires !fate.Charged?
    ensures ChargesOf(Marked(items, fate)) == []
  {
    if items != [] {
      DeliveredCostsNothing(items[..|items| - 1], fate);
      MarkedSnoc(items[..|items| - 1], items[|items| - 1], fate);
      assert items[..|items| - 1] + [items[|items| - 1]] == items;
    }
  }

  lemma VanishedCostNothing(counted: seq<Item>, rest: seq<Item>, reason: Reason)
    ensures ChargesOf(Marked(counted, Charged(reason)) + Marked(rest, Vanished)) ==
            ChargesOf(Marked(counted, Charged(reason)))
  {
    ChargesConcat(Marked(counted, Charged(reason)), Marked(rest, Vanished));
    DeliveredCostsNothing(rest, Vanished);
  }

  lemma {:induction false} MarkedItems(items: seq<Item>, fate: Fate)
    ensures ItemsWithFates(Marked(items, fate)) == multiset(items)
  {
    if items != [] {
      var init, last := items[..|items| - 1], items[|items| - 1];
      MarkedItems(init, fate);
      assert items == init + [last];
      MarkedSnoc(init, last, fate);
      var m := Marked(init, fate);
      assert (m + [(last, fate)])[..|m|] == m;
    }
  }

  /** Every item of an envelope is over quota or not. */
  lemma {:induction false} OverOrNot(items: seq<Item>, limits: Limits, now: int)
    ensures multiset(Over(items, limits, now, true)) + multiset(Over(items, limits, now, false)) == multiset(items)
  {
    hide Disabled;
    if items != [] {
      OverOrNot(items[..|items| - 1], limits, now);
      assert items == items[..|items| - 1] + [items[|items| - 1]];
    }
  }

  ghost predicate Accounted(fates: seq<(Item, Fate)>) {
    forall i | 0 <= i < |fates| :: fates[i].1 != Vanished
  }

  lemma {:induction false} MarkedAt(items: seq<Item>, fate: Fate)
    ensures |Marked(items, fate)| == |items|
    ensures forall i | 0 <= i < |items| :: Marked(items, fate)[i] == (items[i], fate)
  {
    if items != [] {
      MarkedAt(items[..|items| - 1], fate);
    }
  }

  lemma MarkedAccounted(items: seq<Item>, fate: Fate)
    ensures Accounted(Marked(items, fate)) <==> items == [] || fate != Vanished
  {
    hide Marked;
    MarkedAt(items, fate);
    if items != [] {
      assert Marked(items, fate)[0].1 == fate;
    }
  }

  lemma AccountedConcat(a: seq<(Item, Fate)>, b: seq<(Item, Fate)>)
    ensures Accounted(a + b) <==> Accounted(a) && Accounted(b)
  {
    if Accounted(a + b) {
      assert forall i | 0 <= i < |a| :: (a + b)[i] == a[i];
      assert forall i | 0 <= i < |b| :: (a + b)[|a| + i] == b[i];
    }
  }

  /** No lost item vanishes if and only if every log, metric and attachment among them can be dumped. */
  lemma NothingLostVanishesIff(items: seq<Item>, reason: Reason, reports: bool)
    ensures Accounted(LossFates(items, reason, reports)) <==>
            forall i | 0 <= i < |items| :: Chargeable(items[i], reports)
    ensures ItemsWithFates(LossFates(items, reason, reports)) == multiset(items)
  {
    hide Marked, Accounted, Chargeable, ItemsWithFates, ChargesOf, Charges;
    var n := ChargedUpTo(items, reports);
    MarkedAccounted(items[..n], Charged(reason));
    MarkedAccounted(items[n..], Vanished);
    AccountedConcat(Marked(items[..n], Charged(reason)), Marked(items[n..], Vanished));
    ChargesConcat(Marked(items[..n], Charged(reason)), Marked(items[n..], Vanished));
    MarkedItems(items[..n], Charged(reason));
    MarkedItems(items[n..], Vanished);
    assert items[..n] + items[n..] == items;
  }

  /** What is not over quota is kept. */
  lemma {:induction false} KeptMeans(items: seq<Item>, limits: Limits, now: int)
    ensures Over(items, limits, now, false) == [] <==>
            forall i | 0 <= i < |items| :: Disabled(limits, now, items[i].category)
    ensures AllDump(Over(items, limits, now, false)) <==>
            forall i | 0 <= i < |items| && !Disabled(limits, now, items[i].category) :: items[i].dumpable
  {
    hide Disabled;
    if items != [] {
      var init := items[..|items| - 1];
      KeptMeans(init, limits, now);
      assert forall i | 0 <= i < |init| :: items[i] == init[i];
      var kept := Over(init, limits, now, false);
      assert (kept + [items[|items| - 1]])[|kept|] == items[|items| - 1];
      assert forall i | 0 <= i < |kept| :: (kept + [items[|items| - 1]])[i] == kept[i];
    }
  }

  /**
   * Every item of an envelope taken from the queue is delivered or charged, under one reason, if and
   * only if the items over quota can be charged, the others can be dumped, and, if there are any, the
   * headers of an error response can be read.
   */
  lemma NothingSentVanishesIff(envelope: Envelope, limits: Limits, now: int, reports: bool, report: Option<Item>,
                               r: Option<Response>)
    requires report.Some? ==> report.value.dumpable
    ensures Accounted(SendFates(envelope, limits, now, reports, report, r)) <==>
            && (forall i | 0 <= i < |envelope| ::
                  if Disabled(limits, now, envelope[i].category) then Chargeable(envelope[i], reports)
                  else envelope[i].dumpable)
            && ((exists i :: 0 <= i < |envelope| && !Disabled(limits, now, envelope[i].category)) ==>
                  !FateOfRequest(r).Vanished?)
  {
    hide Disabled, Chargeable, Marked, Accounted, Over, FateOfRequest;
    var n := Passed(envelope, limits, now, reports);
    var over, kept := Over(envelope[..n], limits, now, true), Over(envelope[..n], limits, now, false);
    MarkedAccounted(over, Charged(RatelimitBackoff));
    KeptMeans(envelope[..n], limits, now);
    if n < |envelope| {
      MarkedAccounted(kept + envelope[n..], Vanished);
      AccountedConcat(Marked(over, Charged(RatelimitBackoff)), Marked(kept + envelope[n..], Vanished));
    } else {
      assert envelope[..n] == envelope;
      AccountedConcat(Marked(over, Charged(RatelimitBackoff)), []);
      var sent := kept + if report.Some? then [report.value] else [];
      AllDumpWith(kept, report);
      MarkedAccounted(sent, if AllDump(sent) then FateOfRequest(r) else Vanished);
      AccountedConcat(Marked(over, Charged(RatelimitBackoff)), KeptFates(sent, r));
      NothingIsAccounted();
    }
  }

  lemma SendFatesCases(envelope: Envelope, limits: Limits, now: int, reports: bool, report: Option<Item>,
                       r: Option<Response>)
    ensures var n := Passed(envelope, limits, now, reports);
            var over, kept := Over(envelope[..n], limits, now, true), Over(envelope[..n], limits, now, false);
            var fates := SendFates(envelope, limits, now, reports, report, r);
            var first := Marked(over, Charged(RatelimitBackoff));
            && n <= |envelope|
            && (n < |envelope| ==> fates == first + Marked(kept + envelope[n..], Vanished)
                                   && !SendsWell(envelope, limits, now, reports, r))
            && (n == |envelope| ==> envelope[n..] == [])
            && (n == |envelope| && kept == [] ==> fates == first && SendsWell(envelope, limits, now, reports, r))
            && (n == |envelope| && kept != [] ==>
                  fates == first + KeptFates(kept + if report.Some? then [report.value] else [], r)
                  && SendsWell(envelope, limits, now, reports, r)
                     == (AllDump(kept) && r.Some? && !HeadersRaise(r.value)))
  {
    hide Marked, Over, Passed, KeptFates, AllDump;
    assert envelope[..|envelope|] == envelope;
  }

  lemma NothingIsAccounted()
    ensures Accounted([])
  {
  }

  lemma AllDumpWith(kept: seq<Item>, report: Option<Item>)
    requires report.Some? ==> report.value.dumpable
    ensures AllDump(kept + if report.Some? then [report.value] else []) <==> AllDump(kept)
  {
    var sent := kept + if report.Some? then [report.value] else [];
    assert forall i | 0 <= i < |kept| :: sent[i] == kept[i];
  }

  /** An attached client report, with all the counts in it, vanishes together with items that cannot be dumped. */
  lemma ReportSharesFate(envelope: Envelope, limits: Limits, now: int, reports: bool, report: Item, r: Option<Response>)
    requires report.dumpable && Passed(envelope, limits, now, reports) == |envelope|
    requires exists i :: 0 <= i < |envelope| && !Disabled(limits, now, envelope[i].category)
    ensures var fates := SendFates(envelope, limits, now, reports, Some(report), r);
            var allDump :=
              forall i | 0 <= i < |envelope| && !Disabled(limits, now, envelope[i].category) :: envelope[i].dumpable;
            && fates != []
            && fates[|fates| - 1] == (report, if allDump then FateOfRequest(r) else Vanished)
  {
    hide Disabled, Marked, Over, FateOfRequest;
    assert envelope[..|envelope|] == envelope;
    KeptMeans(envelope, limits, now);
    var kept := Over(envelope, limits, now, false);
    AllDumpWith(kept, Some(report));
    MarkedAt(kept + [report], if AllDump(kept + [report]) then FateOfRequest(r) else Vanished);
  }

  /** Whatever happens, every item, and an attached report, gets one fate. */
  lemma EveryItemHasOneFate(envelope: Envelope, limits: Limits, now: int, reports: bool, report: Option<Item>,
                            r: Option<Response>)
    ensures var n := Passed(envelope, limits, now, reports);
            var attached := n == |envelope| && Over(envelope, limits, now, false) != [] && report.Some?;
            ItemsWithFates(SendFates(envelope, limits, now, reports, report, r))
            == multiset(envelope) + if attached then multiset{report.value} else multiset{}
  {
    hide Disabled, Marked, Over, FateOfRequest, ItemsWithFates, AllDump, SendFates, Passed;
    SendFatesCases(envelope, limits, now, reports, report, r);
    var n := Passed(envelope, limits, now, reports);
    var over, kept := Over(envelope[..n], limits, now, true), Over(envelope[..n], limits, now, false);
    OverOrNot(envelope[..n], limits, now);
    if n < |envelope| {
      OneFateEach(over, kept, envelope[n..], Vanished);
      assert envelope == envelope[..n] + envelope[n..];
    } else {
      assert envelope[..n] == envelope;
      if kept == [] {
        MarkedItems(over, Charged(RatelimitBackoff));
      } else {
        var attached := if report.Some? then [report.value] else [];
        OneFateEach(over, kept, attached, if AllDump(kept + attached) then FateOfRequest(r) else Vanished);
      }
    }
  }

  lemma OneFateEach(over: seq<Item>, kept: seq<Item>, rest: seq<Item>, fate: Fate)
    ensures ItemsWithFates(Marked(over, Charged(RatelimitBackoff)) + Marked(kept + rest, fate)) ==
            multiset(over) + multiset(kept) + multiset(rest)
  {
    hide Marked, ItemsWithFates;
    MarkedItems(over, Charged(RatelimitBackoff));
    MarkedItems(kept + rest, fate);
    ChargesConcat(Marked(over, Charged(RatelimitBackoff)), Marked(kept + rest, fate));
  }

  // ---------------------------------------------------------------- what the limits decide

  lemma {:induction false} MarkedMember(items: seq<Item>, fate: Fate, item: Item, f: Fate)
    ensures (item, f) in Marked(items, fate) <==> item in items && f == fate
  {
    hide Marked;
    MarkedAt(items, fate);
    if i :| 0 <= i < |items| && items[i] == item && f == fate {
      assert Marked(items, fate)[i] == (item, f);
    }
  }

  /** Over quota: the map holds a time after now for the item's category or for all categories. */
  lemma {:induction false} OverMember(items: seq<Item>, limits: Limits, now: int, over: bool, item: Item)
    ensures item in Over(items, limits, now, over) <==>
            item in items
            && over == ((Some(item.category) in limits && limits[Some(item.category)] > now)
                        || (None in limits && limits[None] > now))
  {
    if items != [] {
      OverMember(items[..|items| - 1], limits, now, over, item);
    }
  }

  /**
   * An item of a dumpable envelope is charged `ratelimit_backoff` if and only if the limits hold a
   * time after now for its category or for all; it is sent, with the fate of the request, otherwise.
   */
  lemma LimitsDecide(envelope: Envelope, limits: Limits, now: int, reports: bool, r: Option<Response>, item: Item)
    requires AllDump(envelope) && item in envelope
    ensures var fates := SendFates(envelope, limits, now, reports, None, r);
            var limited := (Some(item.category) in limits && limits[Some(item.category)] > now)
                           || (None in limits && limits[None] > now);
            && ((item, Charged(RatelimitBackoff)) in fates <==> limited)
            && ((item, FateOfRequest(r)) in fates <==> !limited)
  {
    hide Disabled, Over, Marked, SendFates, Passed, AllDump;
    SendFatesCases(envelope, limits, now, reports, None, r);
    NothingStops(envelope, limits, now, reports);
    assert envelope[..|envelope|] == envelope;
    var over, kept := Over(envelope, limits, now, true), Over(envelope, limits, now, false);
    OverMember(envelope, limits, now, true, item);
    OverMember(envelope, limits, now, false, item);
    KeptDump(envelope, limits, now);
    assert kept + [] == kept;
    MarkedMember(over, Charged(RatelimitBackoff), item, Charged(RatelimitBackoff));
    MarkedMember(over, Charged(RatelimitBackoff), item, FateOfRequest(r));
    MarkedMember(kept, FateOfRequest(r), item, Charged(RatelimitBackoff));
    MarkedMember(kept, FateOfRequest(r), item, FateOfRequest(r));
  }

  lemma NothingStops(envelope: Envelope, limits: Limits, now: int, reports: bool)
    requires AllDump(envelope)
    ensures Passed(envelope, limits, now, reports) == |envelope|
  {
  }

  lemma KeptDump(envelope: Envelope, limits: Limits, now: int)
    requires AllDump(envelope)
    ensures AllDump(Over(envelope, limits, now, false))
  {
    hide Over;
    KeptMeans(envelope, limits, now);
  }

  /** Categories that a header does not name keep their limits. */
  lemma {:induction false} OthersKeepLimits(limits: Limits, more: seq<(Option<Category>, int)>, c: Option<Category>)
    requires forall i | 0 <= i < |more| :: more[i].0 != c
    ensures var after := WithLimits(limits, more);
            (c in after <==> c in limits) && (c in limits ==> after[c] == limits[c])
  {
    if more != [] {
      var init := more[..|more| - 1];
      OthersKeepLimits(limits, init, c);
    }
  }

  /** A category's last entry in a header counts. */
  lemma {:induction false} LastEntryCounts(limits: Limits, more: seq<(Option<Category>, int)>, k: nat)
    requires k < |more| && forall i | k < i < |more| :: more[i].0 != more[k].0
    ensures var after := WithLimits(limits, more); more[k].0 in after && after[more[k].0] == more[k].1
    decreases |more|
  {
    if k < |more| - 1 {
      LastEntryCounts(limits, more[..|more| - 1], k);
    }
  }

  /** After a header whose last entry for a category is `t`, its items are charged until `t`. */
  lemma LimitedUntil(envelope: Envelope, limits: Limits, more: seq<(Option<Category>, int)>, k: nat, now: int,
                     reports: bool, r: Option<Response>, item: Item)
    requires k < |more| && more[k].0 == Some(item.category)
    requires forall i | k < i < |more| :: more[i].0 != Some(item.category)
    requires AllDump(envelope) && item in envelope && now < more[k].1
    ensures (item, Charged(RatelimitBackoff)) in SendFates(envelope, WithLimits(limits, more), now, reports, None, r)
  {
    hide SendFates, WithLimits, AllDump;
    LastEntryCounts(limits, more, k);
    LimitsDecide(envelope, WithLimits(limits, more), now, reports, r, item);
  }

  // ---------------------------------------------------------------- a metric that is not a number

  datatype Number = Finite(x: real) | NaN | Infinity

  /** An item of metrics: `json_dumps` refuses NaN and infinities. */
  function MetricItem(values: seq<Number>, size: nat): Item {
    Item(TraceMetric, Some(|values|), size, 0, None, forall i | 0 <= i < |values| :: values[i].Finite?)
  }

  const FINE := Response(200, None, Absent)

  /**
   * One NaN among the metrics of an item makes the item vanish, uncharged, when it is sent, when it
   * is over quota and when the queue is full; finite metrics are delivered, or charged by number and size.
   */
  lemma NanMetricVanishes(values: seq<Number>, size: nat, reason: Reason, until: int, now: int)
    requires values != [] && until > now
    ensures var item, bad := MetricItem(values, size), NaN in values || Infinity in values;
            && SendFates([item], map[], now, true, None, Some(FINE)) == [(item, if bad then Vanished else Delivered)]
            && SendFates([item], map[None := until], now, true, None, Some(FINE))
               == [(item, if bad then Vanished else Charged(RatelimitBackoff))]
            && LossFates([item], reason, true) == [(item, if bad then Vanished else Charged(reason))]
  {
    hide SendFates, LossFates;
    var item := MetricItem(values, size);
    FiniteOrNot(values);
    SentAlone(item, map[], now);
    SentAlone(item, map[None := until], now);
    LostAlone(item, reason);
  }

  /** The fate of a metric item that is an envelope's only one. */
  lemma SentAlone(item: Item, limits: Limits, now: int)
    requires item.category == TraceMetric
    ensures SendFates([item], limits, now, true, None, Some(FINE)) ==
            [(item, if !item.dumpable then Vanished
                    else if Disabled(limits, now, TraceMetric) then Charged(RatelimitBackoff) else Delivered)]
  {
    hide Marked, Over, Disabled;
    var e := [item];
    MarkedOne(item, Delivered);
    MarkedOne(item, Vanished);
    MarkedOne(item, Charged(RatelimitBackoff));
    MarkedEmpty(Charged(RatelimitBackoff));
    OverOne(item, limits, now);
    OverNothing(limits, now);
    var n := Passed(e, limits, now, true);
    assert e[..0] == [] && e[0..] == e && e[..1] == e && e[1..] == [];
    assert [] + e == e && e + [] == e;
    assert FateOfRequest(Some(FINE)) == Delivered;
    assert AllDump(e) <==> item.dumpable;
  }

  lemma LostAlone(item: Item, reason: Reason)
    requires item.category == TraceMetric
    ensures LossFates([item], reason, true) == [(item, if item.dumpable then Charged(reason) else Vanished)]
  {
    hide Marked;
    var e := [item];
    MarkedOne(item, Vanished);
    MarkedOne(item, Charged(reason));
    MarkedEmpty(Charged(reason));
    MarkedEmpty(Vanished);
    assert e[..0] == [] && e[0..] == e && e[..1] == e && e[1..] == [];
  }

  lemma FiniteOrNot(values: seq<Number>)
    ensures (forall i | 0 <= i < |values| :: values[i].Finite?) <==> NaN !in values && Infinity !in values
  {
  }

  lemma MarkedOne(item: Item, fate: Fate)
    ensures Marked([item], fate) == [(item, fate)]
  {
    MarkedAt([item], fate);
  }

  lemma OverOne(item: Item, limits: Limits, now: int)
    ensures forall over :: Over([item], limits, now, over) ==
                           if Disabled(limits, now, item.category) == over then [item] else []
  {
    var e := [item];
    assert e[..0] == [];
    forall over
      ensures Over(e, limits, now, over) == if Disabled(limits, now, item.category) == over then [item] else []
    {
      assert Over(e[..0], limits, now, over) == [];
    }
  }

  lemma OverNothing(limits: Limits, now: int)
    ensures Over([], limits, now, true) == Over([], limits, now, false) == []
  {
  }

  lemma OverSnoc(items: seq<Item>, i: nat, limits: Limits, now: int)
    requires i < |items|
    ensures forall over :: Over(items[..i + 1], limits, now, over) == Over(items[..i], limits, now, over)
              + if Disabled(limits, now, items[i].category) == over then [items[i]] else []
  {
    assert items[..i + 1][..i] == items[..i];
  }

  lemma ItemsOfSnoc(queue: seq<Envelope>, e: Envelope)
    ensures ItemsOf(queue + [e]) == ItemsOf(queue) + multiset(e)
  {
    assert (queue + [e])[..|queue|] == queue;
  }

  lemma {:induction false} ItemsOfTail(queue: seq<Envelope>)
    requires queue != []
    ensures ItemsOf(queue) == multiset(queue[0]) + ItemsOf(queue[1..])
  {
    if |queue| > 1 {
      var init := queue[..|queue| - 1];
      ItemsOfTail(init);
      assert init[1..] == queue[1..][..|queue| - 2];
    } else {
      assert queue[..0] == [] && queue[1..] == [];
    }
  }

  // ---------------------------------------------------------------- the class

  class HttpTransport {
    const sendClientReports: bool
    const queueSize: nat
    var discarded: Discards
    var disabledUntil: Limits
    var lastReportSent: int
    var queue: seq<Envelope>                   // jobs of the worker, oldest first

    ghost var recorded: seq<Charge>            // everything ever counted
    ghost var direct: seq<Charge>              // the part of it recorded without an item
    ghost var reports: seq<Discards>           // every client report ever fetched
    ghost var entered: multiset<Item>          // every item captured, and every report attached
    ghost var fates: seq<(Item, Fate)>         // what became of them

    /** What the client reports say, and what they will say, is what was recorded. */
    ghost predicate Counted()
      reads this
    {
      forall key: Key :: Reported(reports, key) + Pending(discarded, key) == Recorded(recorded, key)
    }

    /** What was recorded is the price of what items suffered, plus what was recorded without an item. */
    ghost predicate Priced()
      reads this
    {
      PricedAt(recorded)
    }

    ghost predicate PricedAt(log: seq<Charge>)
      reads this
    {
      sendClientReports ==>
        forall key: Key :: Recorded(log, key) == Recorded(ChargesOf(fates), key) + Recorded(direct, key)
    }

    /** Every item has one fate or is still queued. */
    ghost predicate Tracked()
      reads this
    {
      entered == ItemsWithFates(fates) + ItemsOf(queue)
    }

    /** As above while a job holds `extra`. */
    ghost predicate TrackedWith(extra: multiset<Item>)
      reads this
    {
      entered == ItemsWithFates(fates) + ItemsOf(queue) + extra
    }

    constructor (sendClientReports: bool, queueSize: nat, now: int)
      ensures Counted() && Priced() && Tracked()
      ensures this.sendClientReports == sendClientReports && this.queueSize == queueSize
      ensures entered == multiset{} && fates == [] && recorded == [] && reports == []
    {
      this.sendClientReports, this.queueSize := sendClientReports, queueSize;
      discarded, disabledUntil, lastReportSent, queue := map[], map[], now, [];
      recorded, direct, reports, entered, fates := [], [], [], multiset{}, [];
    }

    /** `self._discarded_events[category, reason] += quantity` */
    method Count(charge: Charge)
      requires Counted()
      modifies this`discarded, this`recorded
      ensures Counted() && recorded == old(recorded) + [charge]
    {
      var key := (charge.category, charge.reason);
      discarded := discarded[key := Pending(discarded, key) + charge.quantity];
      recorded := recorded + [charge];
      forall k: Key
        ensures Recorded(recorded, k) == Recorded(old(recorded), k) + if k == key then charge.quantity else 0
      {
        RecordedSnoc(old(recorded), charge, k);
      }
    }

    /** `record_lost_event` with a category and a quantity. */
    method RecordLost(reason: Reason, category: Category, quantity: nat)
      requires Counted()
      modifies this`discarded, this`recorded
      ensures Counted()
      ensures recorded == old(recorded) + if sendClientReports then [Charge(category, reason, quantity)] else []
    {
      hide Recorded, Reported, Pending;
      if !sendClientReports {
        return;
      }
      Count(Charge(category, reason, quantity));
    }

    /** `record_lost_event` as other parts of the SDK call it, without an item. */
    method RecordLostEvent(reason: Reason, category: Category, quantity: nat)
      requires Counted() && Priced() && Tracked()
      modifies this`discarded, this`recorded, this`direct
      ensures Counted() && Priced() && Tracked()
      ensures recorded == old(recorded) + if sendClientReports then [Charge(category, reason, quantity)] else []
      ensures direct == old(direct) + [Charge(category, reason, quantity)]
    {
      RecordLost(reason, category, quantity);
      direct := direct + [Charge(category, reason, quantity)];
      forall k: Key
        ensures sendClientReports ==> Recorded(recorded, k) - Recorded(old(recorded), k)
                                      == Recorded(direct, k) - Recorded(old(direct), k)
      {
        RecordedSnoc(old(recorded), Charge(category, reason, quantity), k);
        RecordedSnoc(old(direct), Charge(category, reason, quantity), k);
      }
    }

    /**
     * `record_lost_event` with an item: its category and quantities come from the item.  If its bytes
     * are to be counted and cannot be had, it raises before anything is counted.
     */
    method RecordLostItem(reason: Reason, item: Item) returns (raised: bool)
      requires Counted()
      modifies this`discarded, this`recorded
      ensures Counted() && raised == !Chargeable(item, sendClientReports)
      ensures raised == (sendClientReports && !item.dumpable
                         && (item.category == LogItem || item.category == TraceMetric || item.category == Attachment))
      ensures recorded == old(recorded) + if sendClientReports && !raised then Charges(reason, item) else []
      ensures sendClientReports && !raised ==>
                var n := if item.itemCount.Some? && item.itemCount.value > 0 then item.itemCount.value else 1;
                var own := (quantity: nat) => [Charge(item.category, reason, quantity)];
                recorded == old(recorded)
                            + match item.category
                              case Transaction => [Charge(Span, reason, item.spans + 1)] + own(1)
                              case Span => own(n)
                              case LogItem => [Charge(LogByte, reason, item.bytes)] + own(n)
                              case TraceMetric => [Charge(TraceMetricByte, reason, item.bytes)] + own(n)
                              case Attachment => own(if item.bytes == 0 then 1 else item.bytes)
                              case _ => own(1)
    {
      hide Recorded, Reported, Pending;
      if !sendClientReports {
        return false;
      }
      var quantity := 1;
      ghost var before: seq<Charge> := [];
      if item.category == Transaction {
        RecordLost(reason, Span, item.spans + 1);
        before := [Charge(Span, reason, item.spans + 1)];
      } else if item.category == Span || item.category == LogItem || item.category == TraceMetric {
        if item.itemCount.Some? && item.itemCount.value > 0 {
          quantity := item.itemCount.value;
        }
        if item.category == LogItem {
          if !item.dumpable {
            return true;
          }
          RecordLost(reason, LogByte, item.bytes);
          before := [Charge(LogByte, reason, item.bytes)];
        } else if item.category == TraceMetric {
          if !item.dumpable {
            return true;
          }
          RecordLost(reason, TraceMetricByte, item.bytes);
          before := [Charge(TraceMetricByte, reason, item.bytes)];
        }
      } else if item.category == Attachment {
        if !item.dumpable {
          return true;
        }
        quantity := if item.bytes == 0 then 1 else item.bytes;
      }
      assert recorded == old(recorded) + before;
      Count(Charge(item.category, reason, quantity));
      assert old(recorded) + before + [Charge(item.category, reason, quantity)]
          == old(recorded) + (before + [Charge(item.category, reason, quantity)]);
      return false;
    }

    /** `record_lost_event` for each item of an envelope; an exception ends the loop. */
    method LoseItems(reason: Reason, items: seq<Item>) returns (raised: bool)
      requires Counted()
      modifies this`discarded, this`recorded
      ensures Counted() && raised == exists i :: 0 <= i < |items| && !Chargeable(items[i], sendClientReports)
      ensures recorded == old(recorded)
                          + if sendClientReports then ChargesOf(LossFates(items, reason, sendClientReports)) else []
    {
      hide Recorded, Reported, Pending, Charges, Marked, ChargesOf, Chargeable;
      MarkedNothing(Charged(reason));
      ghost var n := ChargedUpTo(items, sendClientReports);
      VanishedCostNothing(items[..n], items[n..], reason);
      for i := 0 to |items|
        invariant Counted() && i <= n
        invariant recorded == old(recorded)
                              + if sendClientReports then ChargesOf(Marked(items[..i], Charged(reason))) else []
      {
        raised := RecordLostItem(reason, items[i]);
        if raised {
          assert i == n;
          return;
        }
        MarkedSnoc(items[..i], items[i], Charged(reason));
        assert items[..i] + [items[i]] == items[..i + 1];
      }
      assert n == |items|;
      raised := false;
    }

    /** `_fetch_pending_client_report` */
    method FetchReport(force: bool, interval: int, now: int) returns (item: Option<Item>)
      requires Counted()
      modifies this`discarded, this`lastReportSent, this`reports
      ensures Counted()
      ensures item.Some? <==>
                sendClientReports && (force || old(lastReportSent) < now - interval) && old(discarded) != map[]
      ensures item.Some? ==> item.value == Item(Internal, None, item.value.bytes, 0, Some(old(discarded)), true)
                             && reports == old(reports) + [old(discarded)] && discarded == map[]
      ensures item.None? ==> reports == old(reports) && discarded == old(discarded)
      ensures lastReportSent ==
              if sendClientReports && (force || old(lastReportSent) < now - interval) then now else old(lastReportSent)
    {
      hide Recorded, Reported;
      if !sendClientReports {
        return None;
      }
      if !(force || lastReportSent < now - interval) {
        return None;
      }
      var discardedEvents := discarded;
      discarded := map[];
      lastReportSent := now;
      if discardedEvents == map[] {
        return None;
      }
      reports := reports + [discardedEvents];
      forall key: Key
        ensures Reported(reports, key) == Reported(old(reports), key) + Pending(discardedEvents, key)
      {
        ReportedSnoc(old(reports), discardedEvents, key);
      }
      return Some(Item(Internal, None, 0, 0, Some(discardedEvents), true));
    }

    /** `_update_rate_limits`; limits read before an exception stay. */
    method UpdateRateLimits(r: Response, now: int) returns (raised: bool)
      modifies this`disabledUntil
      ensures raised == HeadersRaise(r)
      ensures raised <==> if r.limits.Some? then r.limits.value.raises else r.status == 429 && r.retryAfter.Unreadable?
      ensures disabledUntil ==
        if r.limits.Some? then WithLimits(old(disabledUntil), r.limits.value.limits)
        else if r.status == 429 && !r.retryAfter.Unreadable? then
          old(disabledUntil)[None := now + if r.retryAfter.Seconds? && r.retryAfter.n != 0 then r.retryAfter.n else 60]
        else old(disabledUntil)
    {
      if r.limits.Some? {
        var limits := r.limits.value.limits;
        for i := 0 to |limits|
          invariant disabledUntil == WithLimits(old(disabledUntil), limits[..i])
        {
          assert limits[..i + 1][..i] == limits[..i];
          disabledUntil := disabledUntil[limits[i].0 := limits[i].1];
        }
        assert limits[..|limits|] == limits;
        return r.limits.value.raises;
      } else if r.status == 429 {
        if r.retryAfter.Unreadable? {
          return true;
        }
        disabledUntil := disabledUntil[None := now + RetryAfter(r)];
      }
      return false;
    }

    /**
     * The loop of `_prepare_envelope`: items over quota are charged to `ratelimit_backoff`, the
     * others are kept; an item that cannot be charged ends it with an exception.
     */
    method DropOverQuota(envelope: Envelope, now: int) returns (newItems: seq<Item>, raised: bool)
      requires Counted()
      modifies this`discarded, this`recorded
      ensures var n := Passed(envelope, disabledUntil, now, sendClientReports);
              && Counted() && raised == (n < |envelope|)
              && newItems == Over(envelope[..n], disabledUntil, now, false)
              && var over := Over(envelope[..n], disabledUntil, now, true);
                 recorded == old(recorded)
                             + if sendClientReports then ChargesOf(Marked(over, Charged(RatelimitBackoff))) else []
    {
      hide Recorded, Reported, Pending, Charges, Marked, ChargesOf, Disabled, Over, Chargeable;
      newItems := [];
      ghost var over: seq<Item> := [];
      ghost var n := Passed(envelope, disabledUntil, now, sendClientReports);
      MarkedNothing(Charged(RatelimitBackoff));
      OverNothing(disabledUntil, now);
      for i := 0 to |envelope|
        invariant Counted() && i <= n
        invariant newItems == Over(envelope[..i], disabledUntil, now, false)
        invariant over == Over(envelope[..i], disabledUntil, now, true)
        invariant recorded == old(recorded)
                              + if sendClientReports then ChargesOf(Marked(over, Charged(RatelimitBackoff))) else []
      {
        OverSnoc(envelope, i, disabledUntil, now);
        var item := envelope[i];
        if Disabled(disabledUntil, now, item.category) {
          raised := RecordLostItem(RatelimitBackoff, item);
          if raised {
            assert i == n;
            return;
          }
          MarkedSnoc(over, item, Charged(RatelimitBackoff));
          over := over + [item];
        } else {
          newItems := newItems + [item];
        }
      }
      raised := false;
    }

    /**
     * `_handle_response` or `_handle_request_error` for a request that carried `envelope`.  Its
     * payloads have been dumped and are kept as bytes, so charging them cannot raise any more.
     */
    method HandleOutcome(envelope: Envelope, r: Option<Response>, now: int) returns (ok: bool)
      requires Counted() && AllDump(envelope)
      modifies this`discarded, this`recorded, this`disabledUntil
      ensures r.Some? && (200 <= r.value.status < 300 || r.value.status == 429) ==> recorded == old(recorded)
      ensures r.Some? && HeadersRaise(r.value) ==> recorded == old(recorded)
      ensures sendClientReports && r.None? ==>
                recorded == old(recorded) + ChargesOf(Marked(envelope, Charged(NetworkError)))
      ensures sendClientReports && r.Some? && !HeadersRaise(r.value) && r.value.status != 429
              && !(200 <= r.value.status < 300) ==>
                recorded == old(recorded)
                  + ChargesOf(Marked(envelope, Charged(if r.value.status == 413 then SendError else NetworkError)))
      ensures Counted() && ok == (r.Some? && !HeadersRaise(r.value))
      ensures recorded == old(recorded)
                          + if sendClientReports then ChargesOf(Marked(envelope, FateOfRequest(r))) else []
    {
      hide Recorded, Reported, Pending, Charges, Marked, ChargesOf;
      DeliveredCostsNothing(envelope, Delivered);
      DeliveredCostsNothing(envelope, Vanished);
      if r.None? {
        LoseDumped(NetworkError, envelope);
        return false;
      }
      var raised := UpdateRateLimits(r.value, now);
      if raised {
        return false;
      }
      if r.value.status == 413 {
        LoseDumped(SendError, envelope);
      } else if r.value.status == 429 {
      } else if r.value.status >= 300 || r.value.status < 200 {
        LoseDumped(NetworkError, envelope);
      }
      return true;
    }

    /** `_handle_request_error` */
    method LoseDumped(reason: Reason, items: seq<Item>)
      requires Counted() && AllDump(items)
      modifies this`discarded, this`recorded
      ensures Counted()
      ensures recorded == old(recorded) + if sendClientReports then ChargesOf(Marked(items, Charged(reason))) else []
    {
      hide Recorded, Reported, Pending, Charges, Marked, ChargesOf;
      assert ChargedUpTo(items, sendClientReports) == |items|;
      assert items[..|items|] == items && items[|items|..] == [];
      MarkedEmpty(Vanished);
      assert Marked(items, Charged(reason)) + [] == Marked(items, Charged(reason));
      var _ := LoseItems(reason, items);
    }

    /** The items get the fates they were charged for. */
    ghost method Settle(more: seq<(Item, Fate)>, before: seq<Charge>, extra: multiset<Item>)
      requires TrackedWith(ItemsWithFates(more) + extra) && PricedAt(before)
      requires recorded == before + if sendClientReports then ChargesOf(more) else []
      modifies this`fates
      ensures fates == old(fates) + more
      ensures Priced() && TrackedWith(extra)
    {
      hide Recorded, ChargesOf, ItemsWithFates, ItemsOf;
      ChargesConcat(fates, more);
      fates := fates + more;
      Regroup(ItemsWithFates(old(fates)), ItemsOf(queue), ItemsWithFates(more), extra);
      forall key: Key
        ensures Recorded(before + ChargesOf(more), key) == Recorded(before, key) + Recorded(ChargesOf(more), key)
        ensures Recorded(ChargesOf(fates), key) == Recorded(ChargesOf(old(fates)), key) + Recorded(ChargesOf(more), key)
      {
        RecordedConcat(before, ChargesOf(more), key);
        RecordedConcat(ChargesOf(old(fates)), ChargesOf(more), key);
      }
    }

    /**
     * `_send_envelope` for an envelope just taken from the queue.  `ok` is false if an exception is
     * passed on; `report` is the client report attached, if one was due.
     */
    method SendEnvelope(envelope: Envelope, r: Option<Response>, now: int)
      returns (ok: bool, ghost report: Option<Item>)
      requires Counted() && Priced() && TrackedWith(multiset(envelope))
      modifies this`discarded, this`recorded, this`lastReportSent, this`reports, this`disabledUntil,
               this`entered, this`fates
      ensures Counted() && Priced() && Tracked()
      ensures report.Some? ==> report.value.dumpable && report.value.report.Some?
                               && reports == old(reports) + [report.value.report.value]
      ensures report.None? ==> reports == old(reports)
      ensures report.Some? ==> sendClientReports && old(lastReportSent) < now - 30
      ensures fates == old(fates) + SendFates(envelope, old(disabledUntil), now, sendClientReports, report, r)
      ensures ok == SendsWell(envelope, old(disabledUntil), now, sendClientReports, r)
    {
      hide Recorded, Reported, Pending, Marked, ChargesOf, ItemsWithFates, ItemsOf, Over, FateOfRequest, KeptFates;
      hide Passed, SendFates, SendsWell, AllDump, HeadersRaise, Counted, Priced, Tracked, TrackedWith;
      ghost var limits := disabledUntil;
      SendFatesCases(envelope, limits, now, sendClientReports, None, r);
      var newItems, raised := ChargeOverQuota(envelope, now);
      if raised {
        Abandon(newItems, envelope[Passed(envelope, limits, now, sendClientReports)..]);
        return false, None;
      }
      JustKept(newItems, envelope[Passed(envelope, limits, now, sendClientReports)..]);
      if newItems == [] {
        NothingExtra();
        return true, None;
      }
      ok, report := Send(newItems, r, now);
      SendFatesCases(envelope, limits, now, sendClientReports, report, r);
    }

    /** The loop of `_prepare_envelope`, and the fates it settles. */
    method ChargeOverQuota(envelope: Envelope, now: int) returns (newItems: seq<Item>, raised: bool)
      requires Counted() && Priced() && TrackedWith(multiset(envelope))
      modifies this`discarded, this`recorded, this`fates
      ensures var n := Passed(envelope, disabledUntil, now, sendClientReports);
              && n <= |envelope| && raised == (n < |envelope|)
              && newItems == Over(envelope[..n], disabledUntil, now, false)
              && fates == old(fates) + Marked(Over(envelope[..n], disabledUntil, now, true), Charged(RatelimitBackoff))
              && TrackedWith(multiset(newItems) + multiset(envelope[n..]))
      ensures Counted() && Priced()
    {
      hide Recorded, Reported, Pending, Marked, ChargesOf, ItemsWithFates, ItemsOf, Over, Passed;
      ghost var n := Passed(envelope, disabledUntil, now, sendClientReports);
      ghost var before := recorded;
      SplitByQuota(envelope, n, now);
      newItems, raised := DropOverQuota(envelope, now);
      SettleMarked(Over(envelope[..n], disabledUntil, now, true), Charged(RatelimitBackoff), before,
                   multiset(newItems) + multiset(envelope[n..]));
    }

    ghost method SettleMarked(items: seq<Item>, fate: Fate, before: seq<Charge>, extra: multiset<Item>)
      requires TrackedWith(multiset(items) + extra) && PricedAt(before)
      requires recorded == before + if sendClientReports then ChargesOf(Marked(items, fate)) else []
      modifies this`fates
      ensures fates == old(fates) + Marked(items, fate)
      ensures Priced() && TrackedWith(extra)
    {
      hide Recorded, Marked, ChargesOf, ItemsWithFates, ItemsOf;
      MarkedItems(items, fate);
      Settle(Marked(items, fate), before, extra);
    }

    /** An exception takes these items along. */
    ghost method Abandon(kept: seq<Item>, rest: seq<Item>)
      requires Counted() && Priced() && TrackedWith(multiset(kept) + multiset(rest))
      modifies this`fates
      ensures fates == old(fates) + Marked(kept + rest, Vanished)
      ensures Counted() && Priced() && Tracked()
    {
      hide Recorded, Reported, Pending, Marked, ChargesOf, ItemsWithFates, ItemsOf;
      MarkedItems(kept + rest, Vanished);
      DeliveredCostsNothing(kept + rest, Vanished);
      assert recorded + [] == recorded;
      assert multiset(kept) + multiset(rest) == multiset(kept + rest) + multiset{};
      Settle(Marked(kept + rest, Vanished), recorded, multiset{});
      NothingExtra();
    }

    lemma SplitByQuota(envelope: Envelope, n: nat, now: int)
      requires n <= |envelope| && Priced() && TrackedWith(multiset(envelope))
      ensures var over := Over(envelope[..n], disabledUntil, now, true);
              var kept := Over(envelope[..n], disabledUntil, now, false);
              TrackedWith(multiset(over) + (multiset(kept) + multiset(envelope[n..])))
      ensures PricedAt(recorded)
    {
      hide ItemsWithFates, ItemsOf, Over, Recorded;
      OverOrNot(envelope[..n], disabledUntil, now);
      assert envelope == envelope[..n] + envelope[n..];
      var over, kept := Over(envelope[..n], disabledUntil, now, true), Over(envelope[..n], disabledUntil, now, false);
      assert multiset(envelope) == multiset(over) + (multiset(kept) + multiset(envelope[n..]));
    }

    lemma JustKept(kept: seq<Item>, rest: seq<Item>)
      requires rest == [] && TrackedWith(multiset(kept) + multiset(rest))
      ensures TrackedWith(multiset(kept))
    {
      assert multiset(kept) + multiset(rest) == multiset(kept);
    }

    /** The second half of `_send_envelope`: attach a client report, dump, send, and take the consequences. */
    method Send(newItems: seq<Item>, r: Option<Response>, now: int) returns (ok: bool, ghost report: Option<Item>)
      requires Counted() && Priced() && TrackedWith(multiset(newItems))
      modifies this`discarded, this`recorded, this`lastReportSent, this`reports, this`disabledUntil,
               this`entered, this`fates
      ensures Counted() && Priced() && Tracked()
      ensures report.Some? ==> report.value.dumpable && report.value.report.Some?
                               && reports == old(reports) + [report.value.report.value]
      ensures report.None? ==> reports == old(reports)
      ensures report.Some? <==> sendClientReports && old(lastReportSent) < now - 30 && old(discarded) != map[]
      ensures fates == old(fates) + KeptFates(newItems + if report.Some? then [report.value] else [], r)
      ensures ok == (AllDump(newItems) && r.Some? && !HeadersRaise(r.value))
    {
      hide Recorded, Reported, Pending, Marked, ChargesOf, ItemsWithFates, ItemsOf, FateOfRequest, AllDump;
      hide HeadersRaise;
      var prepared;
      prepared, report := AttachReport(newItems, now);
      NothingMore(prepared);
      if !AllDump(prepared) {
        // `_serialize_envelope` raises
        Abandon(prepared, []);
        return false, report;
      }
      ghost var before := recorded;
      ok := HandleOutcome(prepared, r, now);
      SettleMarked(prepared, FateOfRequest(r), before, multiset{});
      NothingExtra();
    }

    lemma NothingMore(items: seq<Item>)
      ensures multiset(items) + multiset([]) == multiset(items) + multiset{} == multiset(items) && items + [] == items
    {
    }

    /** A client report, if one is due, goes with the envelope. */
    method AttachReport(newItems: seq<Item>, now: int) returns (prepared: seq<Item>, ghost report: Option<Item>)
      requires Counted() && Priced() && TrackedWith(multiset(newItems))
      modifies this`discarded, this`lastReportSent, this`reports, this`entered
      ensures Counted() && Priced() && TrackedWith(multiset(prepared))
      ensures report.Some? ==> report.value.dumpable && report.value.report.Some?
                               && reports == old(reports) + [report.value.report.value]
      ensures report.None? ==> reports == old(reports)
      ensures report.Some? <==> sendClientReports && old(lastReportSent) < now - 30 && old(discarded) != map[]
      ensures prepared == newItems + if report.Some? then [report.value] else []
      ensures AllDump(prepared) == AllDump(newItems)
    {
      hide Recorded, Reported, Pending, ChargesOf, ItemsWithFates, ItemsOf;
      var clientReport := FetchReport(false, 30, now);
      report := clientReport;
      AllDumpWith(newItems, report);
      if clientReport.Some? {
        prepared := newItems + [clientReport.value];
        entered := entered + multiset{clientReport.value};
      } else {
        prepared := newItems;
        assert newItems + [] == newItems;
      }
    }

    lemma NothingExtra()
      requires TrackedWith(multiset{}) || TrackedWith(multiset([]))
      ensures Tracked()
    {
    }

    /** `capture_envelope`: a full queue costs every item `queue_overflow`. */
    method CaptureEnvelope(envelope: Envelope) returns (queued: bool, raised: bool)
      requires Counted() && Priced() && Tracked()
      modifies this`discarded, this`recorded, this`queue, this`entered, this`fates
      ensures Counted() && Priced() && Tracked()
      ensures queued == (queueSize == 0 || |old(queue)| < queueSize)
      ensures raised == (!queued && exists i :: 0 <= i < |envelope| && !Chargeable(envelope[i], sendClientReports))
      ensures entered == old(entered) + multiset(envelope)
      ensures queue == old(queue) + if queued then [envelope] else []
      ensures fates == old(fates) + if queued then [] else LossFates(envelope, QueueOverflow, sendClientReports)
    {
      hide Recorded, Reported, Pending, Marked, ChargesOf, ItemsWithFates, ItemsOf, LossFates, Chargeable;
      entered := entered + multiset(envelope);
      if queueSize > 0 && |queue| >= queueSize {
        ghost var before := recorded;
        raised := LoseItems(QueueOverflow, envelope);
        NothingLostVanishesIff(envelope, QueueOverflow, sendClientReports);
        assert multiset(envelope) + multiset{} == multiset(envelope);
        Settle(LossFates(envelope, QueueOverflow, sendClientReports), before, multiset{});
        NothingExtra();
        return false, raised;
      }
      ItemsOfSnoc(queue, envelope);
      queue := queue + [envelope];
      return true, false;
    }

    /** `_flush_client_reports` */
    method FlushClientReports(force: bool, now: int)
      requires Counted() && Priced() && Tracked()
      modifies this`discarded, this`recorded, this`queue, this`entered, this`fates, this`lastReportSent, this`reports
      ensures Counted() && Priced() && Tracked()
      ensures old(fates) <= fates && old(queue) <= queue && |queue| <= |old(queue)| + 1
      ensures var due := sendClientReports && (force || old(lastReportSent) < now - 60) && old(discarded) != map[];
              && reports == old(reports) + (if due then [old(discarded)] else [])
              && (|queue| > |old(queue)| <==> due && (queueSize == 0 || |old(queue)| < queueSize))
              && (!due ==> fates == old(fates) && discarded == old(discarded))
      ensures |queue| > |old(queue)| ==>
                exists report ::
                  queue == old(queue) + [[report]] && report.report == Some(old(discarded)) && report.dumpable
    {
      hide Recorded, Reported, Pending, ChargesOf, ItemsWithFates, ItemsOf;
      var report := FetchReport(force, 60, now);
      if report.Some? {
        var queued, _ := CaptureEnvelope([report.value]);
        assert queued ==> queue == old(queue) + [[report.value]];
      }
    }

    /**
     * The worker runs its oldest job, whose items get their fates first; an exception ends the job
     * before client reports are flushed.
     */
    method RunNext(r: Option<Response>, now: int) returns (ok: bool, ghost report: Option<Item>)
      requires Counted() && Priced() && Tracked() && queue != []
      modifies this
      ensures Counted() && Priced() && Tracked()
      ensures report.Some? ==> report.value.dumpable && report.value.report.Some?
      ensures old(fates) + SendFates(old(queue)[0], old(disabledUntil), now, sendClientReports, report, r) <= fates
      ensures old(queue)[1..] <= queue && |queue| <= |old(queue)|
      ensures !ok ==> queue == old(queue)[1..]
      ensures !ok ==>
                fates == old(fates) + SendFates(old(queue)[0], old(disabledUntil), now, sendClientReports, report, r)
    {
      hide Recorded, Reported, Pending, ChargesOf, ItemsWithFates, ItemsOf, Over, SendFates, FateOfRequest;
      var envelope := queue[0];
      ItemsOfTail(queue);
      queue := queue[1..];
      ok, report := SendEnvelope(envelope, r, now);
      if ok {
        FlushClientReports(false, now);
      }
    }
  }

  lemma MarkedEmpty(fate: Fate)
    ensures Marked([], fate) == []
  {
  }

  lemma Regroup(f: multiset<Item>, q: multiset<Item>, items: multiset<Item>, extra: multiset<Item>)
    ensures f + items + q + extra == f + q + (items + extra)
  {
  }
}
