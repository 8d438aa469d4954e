/** The cache of `sentry_sdk/_lru_cache.py` against its history of calls. */
module LruCache {
  import opened Options

  type Entries<K, V> = seq<(K, V)>

  function Without<K(==), V>(d: Entries<K, V>, key: K): (r: Entries<K, V>)
    ensures |r| <= |d|
  {
    if d == [] then []
    else if d[0].0 == key then Without(d[1..], key)
    else [d[0]] + Without(d[1..], key)
  }

  function Lookup<K(==), V>(d: Entries<K, V>, key: K): Option<V> {
    if d == [] then None
    else if d[0].0 == key then Some(d[0].1)
    else Lookup(d[1..], key)
  }

  // ---------------------------------------------------------------- history

  /** A call of `set` or `get`. */
  datatype Op<K, V> = SetOp(key: K, value: V) | GetOp(key: K)

  /** All keys ever touched, each once with its last value, the most recently touched last. */
  function ByRecency<K(==), V>(touches: Entries<K, V>): Entries<K, V> {
    if touches == [] then []
    else
      var last := touches[|touches| - 1];
      Without(ByRecency(touches[..|touches| - 1]), last.0) + [last]
  }

  function Latest<K, V>(d: Entries<K, V>, n: nat): Entries<K, V> {
    if |d| <= n then d else d[|d| - n..]
  }

  /** The touches of a history: every `set`, and every `get` of one of the n most recent keys. */
  function Touches<K(==), V>(ops: seq<Op<K, V>>, n: nat): Entries<K, V> {
    if ops == [] then []
    else
      var before := Touches(ops[..|ops| - 1], n);
      match ops[|ops| - 1]
      case SetOp(key, value) => before + [(key, value)]
      case GetOp(key) =>
        var found := Lookup(Latest(ByRecency(before), n), key);
        if found.Some? then before + [(key, found.value)] else before
  }

  /** What the cache should hold after a history. */
  function Expected<K(==), V>(ops: seq<Op<K, V>>, n: nat): Entries<K, V> {
    Latest(ByRecency(Touches(ops, n)), n)
  }

  function Gets<K, V>(ops: seq<Op<K, V>>): nat {
    if ops == [] then 0 else Gets(ops[..|ops| - 1]) + if ops[|ops| - 1].GetOp? then 1 else 0
  }

  // ---------------------------------------------------------------- what recency means

  /** The last position at which `key` was touched, or -1. */
  function LastTouch<K(==), V>(touches: Entries<K, V>, key: K): int {
    if touches == [] then -1
    else if touches[|touches| - 1].0 == key then |touches| - 1
    else LastTouch(touches[..|touches| - 1], key)
  }

  lemma {:induction false} LastTouchIsLast<K, V>(touches: Entries<K, V>, key: K)
    ensures var i := LastTouch(touches, key);
            && -1 <= i < |touches|
            && (i >= 0 ==> touches[i].0 == key)
            && forall j | i < j < |touches| :: touches[j].0 != key
  {
    if touches != [] && touches[|touches| - 1].0 != key {
      LastTouchIsLast(touches[..|touches| - 1], key);
    }
  }

  lemma {:induction false} WithoutIsFilter<K, V>(d: Entries<K, V>, key: K)
    ensures forall i | 0 <= i < |Without(d, key)| :: Without(d, key)[i].0 != key && Without(d, key)[i] in d
    ensures forall e | e in d && e.0 != key :: e in Without(d, key)
  {
    if d != [] {
      WithoutIsFilter(d[1..], key);
    }
  }

  /** The keys of `d` come in increasing order of `rank`. */
  ghost predicate Ordered<K, V>(d: Entries<K, V>, rank: K -> int) {
    forall i, j | 0 <= i < j < |d| :: rank(d[i].0) < rank(d[j].0)
  }

  lemma {:induction false} WithoutKeepsOrder<K, V>(d: Entries<K, V>, key: K, rank: K -> int)
    requires Ordered(d, rank)
    ensures Ordered(Without(d, key), rank)
  {
    if d != [] {
      var tail := d[1..];
      assert forall i | 0 <= i < |tail| :: tail[i] == d[i + 1];
      WithoutKeepsOrder(tail, key, rank);
      WithoutIsFilter(tail, key);
      var w := Without(tail, key);
      forall i | 0 <= i < |w|
        ensures rank(d[0].0) < rank(w[i].0)
      {
        var j :| 0 <= j < |tail| && tail[j] == w[i];
        assert d[j + 1] == w[i];
      }
    }
  }

  function Rank<K(==), V>(touches: Entries<K, V>): K -> int {
    key => LastTouch(touches, key)
  }

  /** An entry of the recency list: a touched key with the value of its last touch. */
  ghost predicate LastValue<K, V>(touches: Entries<K, V>, key: K, value: V) {
    var i := LastTouch(touches, key);
    0 <= i < |touches| && touches[i].1 == value
  }

  lemma LastTouchSnoc<K, V>(init: Entries<K, V>, last: (K, V), key: K, value: V)
    ensures LastTouch(init + [last], key) == if last.0 == key then |init| else LastTouch(init, key)
    ensures LastValue(init + [last], key, value) <==>
            if last.0 == key then last.1 == value else LastValue(init, key, value)
    ensures LastTouch(init, key) < |init|
  {
    assert (init + [last])[..|init|] == init;
    LastTouchIsLast(init, key);
  }

  /** `ByRecency` lists exactly the touched keys, in the order of their last touch, with its value. */
  lemma {:induction false} RecencyIsOrderOfLastTouch<K(!new), V(!new)>(touches: Entries<K, V>)
    ensures Ordered(ByRecency(touches), Rank(touches))
    ensures forall key, value :: (key, value) in ByRecency(touches) <==> LastValue(touches, key, value)
    decreases |touches|, 0
  {
    if touches != [] {
      RecencyStep(touches[..|touches| - 1], touches[|touches| - 1]);
      assert touches == touches[..|touches| - 1] + [touches[|touches| - 1]];
    }
  }

  lemma RecencyStep<K(!new), V(!new)>(init: Entries<K, V>, last: (K, V))
    ensures Ordered(ByRecency(init + [last]), Rank(init + [last]))
    ensures forall key, value :: (key, value) in ByRecency(init + [last]) <==> LastValue(init + [last], key, value)
    decreases |init|, 1
  {
    hide Without, LastTouch, LastValue, ByRecency;
    RecencyIsOrderOfLastTouch(init);
    var before := ByRecency(init);
    RecencySnoc(init, last);
    WithoutIsFilter(before, last.0);
    WithoutKeepsOrder(before, last.0, Rank(init));
    var kept := Without(before, last.0);
    forall i | 0 <= i < |kept|
      ensures Rank(init + [last])(kept[i].0) == Rank(init)(kept[i].0) < |init|
    {
      LastTouchSnoc(init, last, kept[i].0, kept[i].1);
    }
    LastTouchSnoc(init, last, last.0, last.1);
    forall key, value
      ensures (key, value) in kept + [last] <==> LastValue(init + [last], key, value)
    {
      LastTouchSnoc(init, last, key, value);
      if key == last.0 {
        assert (key, value) in kept + [last] <==> (key, value) == last;
      } else {
        assert (key, value) in kept + [last] <==> (key, value) in before;
      }
    }
  }

  lemma RecencySnoc<K, V>(touches: Entries<K, V>, last: (K, V))
    ensures ByRecency(touches + [last]) == Without(ByRecency(touches), last.0) + [last]
  {
    assert (touches + [last])[..|touches|] == touches;
  }

  // ---------------------------------------------------------------- one touch

  lemma {:induction false} WithoutConcat<K, V>(a: Entries<K, V>, b: Entries<K, V>, key: K)
    ensures Without(a + b, key) == Without(a, key) + Without(b, key)
  {
    if a == [] {
      assert a + b == b;
    } else {
      assert (a + b)[1..] == a[1..] + b;
      WithoutConcat(a[1..], b, key);
    }
  }

  lemma {:induction false} WithoutAbsent<K, V>(d: Entries<K, V>, key: K)
    requires Lookup(d, key).None?
    ensures Without(d, key) == d
  {
    if d != [] {
      WithoutAbsent(d[1..], key);
    }
  }

  ghost predicate Distinct<K, V>(d: Entries<K, V>) {
    forall i, j | 0 <= i < j < |d| :: d[i].0 != d[j].0
  }

  lemma {:induction false} WithoutPresent<K, V>(d: Entries<K, V>, key: K)
    requires Distinct(d) && Lookup(d, key).Some?
    ensures |Without(d, key)| == |d| - 1
  {
    if d[0].0 == key {
      forall i | 0 < i < |d|
        ensures d[i].0 != key
      {
      }
      LookupAbsent(d[1..], key);
      WithoutAbsent(d[1..], key);
    } else {
      WithoutPresent(d[1..], key);
    }
  }

  lemma {:induction false} LookupAbsent<K, V>(d: Entries<K, V>, key: K)
    requires forall i | 0 <= i < |d| :: d[i].0 != key
    ensures Lookup(d, key).None?
  {
    if d != [] {
      LookupAbsent(d[1..], key);
    }
  }

  lemma {:induction false} WithoutDistinct<K, V>(d: Entries<K, V>, key: K, value: V)
    requires Distinct(d)
    ensures Distinct(Without(d, key) + [(key, value)])
  {
    if d != [] {
      WithoutDistinct(d[1..], key, value);
      WithoutIsFilter(d[1..], key);
      var w := Without(d[1..], key);
      forall i | 0 <= i < |w|
        ensures w[i].0 != d[0].0
      {
        var j :| 0 <= j < |d[1..]| && d[1..][j] == w[i];
        assert d[j + 1] == w[i];
      }
      assert d[0].0 != key ==> Without(d, key) + [(key, value)] == [d[0]] + (w + [(key, value)]);
    }
  }

  lemma {:induction false} RecencyIsDistinct<K, V>(touches: Entries<K, V>)
    ensures Distinct(ByRecency(touches))
  {
    if touches != [] {
      RecencyIsDistinct(touches[..|touches| - 1]);
      WithoutDistinct(ByRecency(touches[..|touches| - 1]), touches[|touches| - 1].0, touches[|touches| - 1].1);
    }
  }

  /** The entries of a cache of size `n` after a touch, the oldest one evicted if there is no room. */
  function AfterTouch<K(==), V>(d: Entries<K, V>, key: K, value: V, n: nat): Entries<K, V>
    requires n > 0
  {
    if Lookup(d, key).Some? then Without(d, key) + [(key, value)]
    else if |d| >= n then d[1..] + [(key, value)]
    else d + [(key, value)]
  }

  /** Touching the latest n keys gives the latest n keys after the touch. */
  lemma TouchLatest<K, V>(touches: Entries<K, V>, key: K, value: V, n: nat)
    requires n > 0
    ensures Latest(ByRecency(touches + [(key, value)]), n) == AfterTouch(Latest(ByRecency(touches), n), key, value, n)
  {
    hide Without, Lookup, ByRecency, Distinct, AfterTouch;
    var r := ByRecency(touches);
    var d := Latest(r, n);
    var front := r[..|r| - |d|];
    assert r == front + d;
    RecencySnoc(touches, (key, value));
    RecencyIsDistinct(touches);
    if Lookup(d, key).Some? {
      TouchKept(front, d, key, value, n);
    } else {
      TouchNew(front, d, key, value, n);
    }
  }

  /** Touching a key that is among the latest moves it to the end and changes nothing before them. */
  lemma TouchKept<K, V>(front: Entries<K, V>, d: Entries<K, V>, key: K, value: V, n: nat)
    requires n > 0 && Distinct(front + d) && (|d| == n || (front == [] && |d| <= n)) && Lookup(d, key).Some?
    ensures Latest(Without(front + d, key) + [(key, value)], n) == AfterTouch(d, key, value, n)
  {
    hide Without, Lookup, Distinct, Latest;
    WithoutConcat(front, d, key);
    DistinctSuffix(front, d);
    WithoutPresent(d, key);
    NotInFront(front, d, key);
    WithoutAbsent(front, key);
    var b := Without(d, key) + [(key, value)];
    LatestSuffix(front, b, n);
    assert Without(front + d, key) + [(key, value)] == front + b;
  }

  /** Touching any other key evicts the oldest of the latest if there is no room. */
  lemma TouchNew<K, V>(front: Entries<K, V>, d: Entries<K, V>, key: K, value: V, n: nat)
    requires n > 0 && (|d| == n || (front == [] && |d| <= n)) && Lookup(d, key).None?
    ensures Latest(Without(front + d, key) + [(key, value)], n) == AfterTouch(d, key, value, n)
  {
    hide Without, Lookup, Latest;
    WithoutConcat(front, d, key);
    WithoutAbsent(d, key);
    var rest := Without(front, key);
    if |d| < n {
      NothingWithout(key, value);
      LatestSuffix([], d + [(key, value)], n);
      assert Without(front + d, key) + [(key, value)] == [] + (d + [(key, value)]);
    } else {
      LatestSuffix(rest + [d[0]], d[1..] + [(key, value)], n);
      assert Without(front + d, key) + [(key, value)] == (rest + [d[0]]) + (d[1..] + [(key, value)]);
    }
  }

  lemma LatestSuffix<K, V>(a: Entries<K, V>, b: Entries<K, V>, n: nat)
    requires |b| == n || (a == [] && |b| <= n)
    ensures Latest(a + b, n) == b
  {
  }

  lemma NothingWithout<K, V>(key: K, value: V)
    ensures Without<K, V>([], key) == []
  {
  }

  lemma DistinctSuffix<K, V>(a: Entries<K, V>, b: Entries<K, V>)
    requires Distinct(a + b)
    ensures Distinct(b)
  {
    assert forall i | 0 <= i < |b| :: (a + b)[|a| + i] == b[i];
  }

  lemma {:induction false} LookupPresent<K, V>(d: Entries<K, V>, key: K) returns (i: nat)
    requires Lookup(d, key).Some?
    ensures i < |d| && d[i].0 == key
  {
    if d[0].0 == key {
      i := 0;
    } else {
      i := LookupPresent(d[1..], key);
      i := i + 1;
    }
  }

  lemma NotInFront<K, V>(a: Entries<K, V>, b: Entries<K, V>, key: K)
    requires Distinct(a + b) && Lookup(b, key).Some?
    ensures Lookup(a, key).None?
  {
    var j := LookupPresent(b, key);
    forall i | 0 <= i < |a|
      ensures a[i].0 != key
    {
      assert (a + b)[i] == a[i] && (a + b)[|a| + j] == b[j];
    }
    LookupAbsent(a, key);
  }

  // ---------------------------------------------------------------- the class

  class LRUCache<K(==), V> {
    const maxSize: nat
    var data: Entries<K, V>                    // a dictionary in insertion order
    var full: bool
    var hits: nat
    var misses: nat
    ghost var history: seq<Op<K, V>>

    /** The cache holds the `maxSize` most recently touched keys, in order, with their last values. */
    ghost predicate Valid()
      reads this
    {
      && maxSize > 0
      && data == Expected(history, maxSize)
      && |data| <= maxSize && (full <==> |data| == maxSize)
      && hits + misses == Gets(history)
    }

    constructor (maxSize: nat)
      requires maxSize > 0
      ensures Valid() && this.maxSize == maxSize && history == []
    {
      this.maxSize := maxSize;
      data, full, hits, misses, history := [], false, 0, 0, [];
    }

    method Set(key: K, value: V)
      requires Valid()
      modifies this
      ensures Valid() && history == old(history) + [SetOp(key, value)]
    {
      hide Without, Lookup, Expected, Gets;
      ExpectedAfterSet(history, maxSize, key, value);
      var current := Lookup(data, key);
      if current.Some? {
        data := Without(data, key) + [(key, value)];
      } else if full {
        data := data[1..];
        data := data + [(key, value)];
      } else {
        data := data + [(key, value)];
      }
      full := |data| >= maxSize;
      history := history + [SetOp(key, value)];
    }

    method Get(key: K) returns (found: Option<V>)
      requires Valid()
      modifies this
      ensures Valid() && history == old(history) + [GetOp(key)]
      ensures found == Lookup(old(data), key)
      ensures forall v :: found == Some(v) <==> (key, v) in old(data)
      ensures hits == old(hits) + if found.Some? then 1 else 0
    {
      hide Without, Lookup, Expected, Gets;
      ExpectedAfterGet(history, maxSize, key);
      found := Lookup(data, key);
      ExpectedIsDistinct(history, maxSize);
      LookupIsEntry(data, key);
      if found.None? {
        misses := misses + 1;
      } else {
        hits := hits + 1;
        data := Without(data, key) + [(key, found.value)];
      }
      history := history + [GetOp(key)];
    }

    /** `get_all` */
    method GetAll() returns (items: Entries<K, V>)
      requires Valid()
      ensures items == Expected(history, maxSize)
    {
      items := data;
    }
  }

  lemma ExpectedAfterSet<K, V>(ops: seq<Op<K, V>>, n: nat, key: K, value: V)
    requires n > 0
    ensures var ops' := ops + [SetOp(key, value)];
            && Expected(ops', n) == AfterTouch(Expected(ops, n), key, value, n)
            && |Expected(ops', n)| <= n && Gets(ops') == Gets(ops)
  {
    hide Without, Lookup, ByRecency;
    assert (ops + [SetOp(key, value)])[..|ops|] == ops;
    TouchLatest(Touches(ops, n), key, value, n);
  }

  lemma ExpectedAfterGet<K, V>(ops: seq<Op<K, V>>, n: nat, key: K)
    requires n > 0
    ensures var ops', found := ops + [GetOp(key)], Lookup(Expected(ops, n), key);
            && Expected(ops', n) == (if found.Some? then Without(Expected(ops, n), key) + [(key, found.value)]
                                     else Expected(ops, n))
            && |Expected(ops', n)| == |Expected(ops, n)| <= n && Gets(ops') == Gets(ops) + 1
  {
    hide Without, Lookup, ByRecency;
    assert (ops + [GetOp(key)])[..|ops|] == ops;
    var found := Lookup(Expected(ops, n), key);
    if found.Some? {
      TouchLatest(Touches(ops, n), key, found.value, n);
      LatestIsDistinct(Touches(ops, n), n);
      WithoutPresent(Expected(ops, n), key);
    }
  }

  lemma LatestIsDistinct<K, V>(touches: Entries<K, V>, n: nat)
    ensures Distinct(Latest(ByRecency(touches), n))
  {
    var r := ByRecency(touches);
    RecencyIsDistinct(touches);
    if |r| > n {
      assert r == r[..|r| - n] + r[|r| - n..];
      DistinctSuffix(r[..|r| - n], r[|r| - n..]);
    }
  }

  lemma ExpectedIsDistinct<K, V>(ops: seq<Op<K, V>>, n: nat)
    ensures Distinct(Expected(ops, n))
  {
    LatestIsDistinct(Touches(ops, n), n);
  }

  /** Among distinct keys, the value looked up is the one stored with the key. */
  lemma {:induction false} LookupIsEntry<K, V>(d: Entries<K, V>, key: K)
    requires Distinct(d)
    ensures Lookup(d, key).Some? ==> (key, Lookup(d, key).value) in d
    ensures forall i | 0 <= i < |d| && d[i].0 == key :: Lookup(d, key) == Some(d[i].1)
  {
    if d != [] {
      assert forall i | 0 <= i < |d[1..]| :: d[1..][i] == d[i + 1];
      LookupIsEntry(d[1..], key);
    }
  }

  /** Exactly the `n` keys touched last can hit. */
  lemma HitIsAmongLatest<K, V>(ops: seq<Op<K, V>>, n: nat, key: K, value: V)
    ensures var r := ByRecency(Touches(ops, n));
            Lookup(Expected(ops, n), key) == Some(value) <==>
            exists i :: |r| - n <= i < |r| && 0 <= i && r[i] == (key, value)
  {
    hide Touches, ByRecency, Lookup, Expected, Distinct;
    var r, d := ByRecency(Touches(ops, n)), Expected(ops, n);
    ExpectedIsDistinct(ops, n);
    LookupIsEntry(d, key);
    ExpectedIsLatest(ops, n);
    if Lookup(d, key) == Some(value) {
      var i :| 0 <= i < |d| && d[i] == (key, value);
      assert r[|r| - |d| + i] == (key, value);
    }
    if i :| |r| - n <= i < |r| && 0 <= i && r[i] == (key, value) {
      assert d[i - (|r| - |d|)] == (key, value);
    }
  }

  /** A hit returns the value of the key's last touch. */
  lemma HitIsLastValue<K(!new), V(!new)>(ops: seq<Op<K, V>>, n: nat, key: K, value: V)
    requires Lookup(Expected(ops, n), key) == Some(value)
    ensures LastValue(Touches(ops, n), key, value)
  {
    hide Touches, ByRecency, LastValue, Lookup, Expected, Ordered;
    HitIsAmongLatest(ops, n, key, value);
    RecencyIsOrderOfLastTouch(Touches(ops, n));
    assert (key, value) in ByRecency(Touches(ops, n));
  }

  lemma ExpectedIsLatest<K, V>(ops: seq<Op<K, V>>, n: nat)
    ensures var r, d := ByRecency(Touches(ops, n)), Expected(ops, n);
            |d| == (if |r| <= n then |r| else n) && forall i | 0 <= i < |d| :: d[i] == r[|r| - |d| + i]
  {
    hide Touches, ByRecency;
  }
}
