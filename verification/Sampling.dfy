/**
 * Sampling decisions and the random numbers behind them, from `sentry_sdk/tracing_utils.py`, in
 * real arithmetic, and the health monitor of `sentry_sdk/monitor.py`.
 */
module Sampling {
  import opened Options

  // ---------------------------------------------------------------- sample_rand

  const SCALE: real := 1_000_000.0

  /** Python's `int(x)`: towards zero. */
  function Truncated(x: real): int {
    if x >= 0.0 then x.Floor else -((-x).Floor)
  }

  /** n millionths */
  function Micro(n: int): real {
    n as real / SCALE
  }

  /** The scaled value drawn: any number of the range, or the lower bound if the range is empty. */
  predicate Drawable(lower: real, upper: real, n: int) {
    var (lo, hi) := (Truncated(lower * SCALE), Truncated(upper * SCALE));
    if lo < hi then lo <= n < hi else n == lo
  }

  /** `_generate_sample_rand`, where `draw` stands for the seeded generator; None if the interval is invalid. */
  method GenerateSampleRand(lower: real, upper: real, draw: (int, int) -> int) returns (r: Option<real>)
    requires forall lo, hi | lo < hi :: lo <= draw(lo, hi) < hi
    ensures r.None? <==> !(lower < upper)
    ensures r.Some? ==> exists n :: Drawable(lower, upper, n) && r.value == Micro(n)
  {
    if !(lower < upper) {
      return None;
    }
    var lowerScaled := Truncated(lower * SCALE);
    var upperScaled := Truncated(upper * SCALE);
    var scaled;
    if lowerScaled < upperScaled {
      scaled := draw(lowerScaled, upperScaled);
    } else {
      scaled := lowerScaled;
    }
    assert Drawable(lower, upper, scaled);
    r := Some(Micro(scaled));
  }

  /** `x` has six decimals. */
  ghost predicate SixDecimals(x: real) {
    exists n :: x == Micro(n)
  }

  lemma FloorBounds(x: real)
    ensures x.Floor as real <= x < x.Floor as real + 1.0
  {
  }

  lemma FloorOfInt(n: int)
    ensures (n as real).Floor == n
  {
  }

  lemma Unscale(n: int, x: real)
    ensures Micro(n) < x <==> (n as real) < x * SCALE
    ensures Micro(n) >= x <==> (n as real) >= x * SCALE
    ensures Micro(n) > x - 1.0 / SCALE <==> (n as real) > x * SCALE - 1.0
    ensures Micro(n) * SCALE == n as real
  {
    var y := Micro(n);
    assert y * SCALE == n as real;
  }

  /** Whatever is drawn has six decimals, lies below `upper`, and at most a millionth below `lower`. */
  lemma DrawnIsInRange(lower: real, upper: real, n: int)
    requires 0.0 <= lower < upper <= 1.0 && Drawable(lower, upper, n)
    ensures var r := Micro(n);
            SixDecimals(r) && 0.0 <= r < upper && r > lower - 1.0 / SCALE
  {
    FloorBounds(lower * SCALE);
    FloorBounds(upper * SCALE);
    assert 0.0 <= lower * SCALE < upper * SCALE;
    Unscale(n, upper);
    Unscale(n, lower);
    Unscale(n, 0.0);
  }

  /** No draw falls below `lower` if and only if `lower` itself has six decimals. */
  lemma NeverBelowIffSixDecimals(lower: real, upper: real)
    requires 0.0 <= lower < upper <= 1.0
    ensures (forall n | Drawable(lower, upper, n) :: Micro(n) >= lower) <==> SixDecimals(lower)
  {
    var lo := Truncated(lower * SCALE);
    FloorBounds(lower * SCALE);
    assert Drawable(lower, upper, lo) by {
      FloorBounds(upper * SCALE);
      assert lower * SCALE < upper * SCALE;
    }
    Unscale(lo, lower);
    if SixDecimals(lower) {
      var k :| lower == Micro(k);
      Unscale(k, lower);
      FloorOfInt(k);
      forall n | Drawable(lower, upper, n)
        ensures Micro(n) >= lower
      {
        Unscale(n, lower);
      }
    } else {
      assert Micro(lo) >= lower ==> lower == Micro(lo);
    }
  }

  /** A lower bound with seven decimals, and a number below it that can be drawn. */
  lemma DrawBelowLower()
    ensures Drawable(0.0000005, 1.0, 0) && Micro(0) < 0.0000005
  {
    assert 0.0000005 * SCALE == 0.5 && 1.0 * SCALE == 1_000_000.0;
  }

  /** `_sample_rand_range` */
  function SampleRandRange(parentSampled: Option<bool>, sampleRate: Option<real>): (real, real) {
    if parentSampled.None? || sampleRate.None? then (0.0, 1.0)
    else if parentSampled.value then (0.0, sampleRate.value)
    else (sampleRate.value, 1.0)
  }

  /**
   * A backfilled sample_rand repeats the parent's decision at the parent's rate: always if the
   * parent was sampled; if it was not, for every draw if and only if the rate has six decimals.
   */
  lemma BackfillRepeatsParentDecision(parentSampled: bool, rate: real)
    requires 0.0 <= rate <= 1.0
    requires var (lower, upper) := SampleRandRange(Some(parentSampled), Some(rate)); lower < upper
    ensures var (lower, upper) := SampleRandRange(Some(parentSampled), Some(rate));
            (forall n | Drawable(lower, upper, n) :: (Micro(n) < rate) == parentSampled)
            <==> parentSampled || SixDecimals(rate)
  {
    var (lower, upper) := SampleRandRange(Some(parentSampled), Some(rate));
    if parentSampled {
      forall n | Drawable(lower, upper, n)
        ensures Micro(n) < rate
      {
        DrawnIsInRange(lower, upper, n);
      }
    } else {
      NeverBelowIffSixDecimals(lower, upper);
    }
  }

  /** A sample_rand from the baggage is kept if it is a number in [0, 1). */
  predicate Usable(rand: Option<real>) {
    rand.Some? && 0.0 <= rand.value < 1.0
  }

  /**
   * `_fill_sample_rand` on baggage that holds `existing`: what the baggage holds afterwards.  The
   * number filled in repeats the parent's decision, unless the parent was unsampled at a rate with
   * more than six decimals.
   */
  method FillSampleRand(existing: Option<real>, parentSampled: Option<bool>, sampleRate: Option<real>,
                        draw: (int, int) -> int) returns (rand: Option<real>)
    requires forall lo, hi | lo < hi :: lo <= draw(lo, hi) < hi
    ensures existing.Some? && 0.0 <= existing.value < 1.0 ==> rand == existing
    ensures var (lower, upper) := SampleRandRange(parentSampled, sampleRate);
            existing.None? || existing.value < 0.0 || existing.value >= 1.0 ==>
              if lower < upper then rand.Some? && exists n :: Drawable(lower, upper, n) && rand.value == Micro(n)
              else rand == existing
    ensures !Usable(existing) && parentSampled.Some? && sampleRate.Some? && 0.0 <= sampleRate.value <= 1.0
            && rand.Some? && rand != existing && (parentSampled.value || SixDecimals(sampleRate.value)) ==>
              (rand.value < sampleRate.value) == parentSampled.value
  {
    if Usable(existing) {
      return existing;
    }
    var (lower, upper) := SampleRandRange(parentSampled, sampleRate);
    rand := GenerateSampleRand(lower, upper, draw);
    if rand.None? {
      return existing;
    }
    if parentSampled.Some? && sampleRate.Some? && 0.0 <= sampleRate.value <= 1.0 {
      BackfillRepeatsParentDecision(parentSampled.value, sampleRate.value);
    }
  }

  // ---------------------------------------------------------------- the decision

  function Pow2(n: nat): (p: real)
    ensures p >= 1.0
  {
    if n == 0 then 1.0 else 2.0 * Pow2(n - 1)
  }

  datatype Reason = CallbackError | SampleRateReason | Backpressure

  datatype Decision = Decision(sampled: Option<bool>, rate: Option<real>, rand: Option<real>, reason: Option<Reason>)

  /** What `traces_sampler` does, if there is one. */
  datatype Sampler = NoSampler | Raises | Returns(rate: real)

  predicate ValidRate(rate: real) {
    0.0 <= rate <= 1.0
  }

  function OfBool(b: bool): real {
    if b then 1.0 else 0.0
  }

  /** `_make_sampling_decision`; `factor` is the monitor's downsample factor if there is a monitor. */
  function MakeSamplingDecision(tracing: bool, parentSampled: Option<bool>, baggageRand: Option<real>, generated: real,
                                sampler: Sampler, configuredRate: real, factor: Option<nat>): Decision {
    if !tracing then Decision(parentSampled, None, None, None)
    else
      var rand := if baggageRand.Some? then baggageRand.value else generated;
      if sampler.Raises? then Decision(Some(false), None, None, Some(CallbackError))
      else
        var rate := if sampler.Returns? then sampler.rate
                    else if parentSampled.Some? then OfBool(parentSampled.value) else configuredRate;
        if !ValidRate(rate) then Decision(Some(false), None, None, Some(SampleRateReason))
        else if rate == 0.0 then Decision(Some(false), Some(0.0), Some(rand), Some(SampleRateReason))
        else Decide(rate, rand, factor)
  }

  /** The decision for a valid, positive rate. */
  function Decide(before: real, rand: real, factor: Option<nat>): Decision {
    var rate := if factor.Some? then before / Pow2(factor.value) else before;
    if rate == 0.0 then Decision(Some(false), Some(0.0), None, Some(Backpressure))
    else if rand < rate then Decision(Some(true), Some(rate), Some(rand), None)
    else if before != rate && rand < before then Decision(Some(false), Some(rate), Some(rand), Some(Backpressure))
    else Decision(Some(false), Some(rate), Some(rand), Some(SampleRateReason))
  }

  /** The decision as an interval of the random number. */
  lemma DecisionByInterval(rate: real, rand: real, factor: nat)
    requires 0.0 < rate <= 1.0
    ensures var d, low := Decide(rate, rand, Some(factor)), rate / Pow2(factor);
            && 0.0 < low <= rate
            && (d.sampled == Some(true) <==> rand < low)
            && (d.reason == Some(Backpressure) <==> low <= rand < rate)
            && (d.reason == Some(SampleRateReason) <==> rate <= rand)
            && (d.reason == None <==> d.sampled == Some(true))
  {
    DivBounds(rate, Pow2(factor));
  }

  lemma DivBounds(x: real, p: real)
    requires 0.0 < x && p >= 1.0
    ensures 0.0 < x / p <= x
  {
    var y := x / p;
    assert y * p == x;
    assert y <= 0.0 ==> y * p <= 0.0;
    assert y > x ==> y * p >= y;
  }

  lemma {:induction false} Pow2Grows(m: nat, n: nat)
    requires m <= n
    ensures Pow2(m) <= Pow2(n)
  {
    if m < n {
      Pow2Grows(m, n - 1);
    }
  }

  lemma DivAntitone(x: real, p: real, q: real)
    requires 0.0 < x && 1.0 <= p <= q
    ensures x / q <= x / p
  {
    var (a, b) := (x / p, x / q);
    assert a * p == x && b * q == x;
    DivBounds(x, q);
    if b > a {
      DivBounds(x, p);
      assert b * q >= b * p > a * p;
    }
  }

  /** Raising the factor only removes samples, and what it removes is put down to backpressure. */
  lemma RaisingFactorOnlyRemoves(rate: real, rand: real, f: nat, g: nat)
    requires 0.0 < rate <= 1.0 && f <= g
    ensures Decide(rate, rand, Some(g)).sampled == Some(true) ==> Decide(rate, rand, Some(f)).sampled == Some(true)
    ensures Decide(rate, rand, Some(f)).sampled == Some(true) && Decide(rate, rand, Some(g)).sampled != Some(true) ==>
              Decide(rate, rand, Some(g)).reason == Some(Backpressure)
  {
    Pow2Grows(f, g);
    DivAntitone(rate, Pow2(f), Pow2(g));
    DecisionByInterval(rate, rand, f);
    DecisionByInterval(rate, rand, g);
  }

  /**
   * Without a sampler the parent decides: an unsampled parent is never overruled, a sampled one only
   * by backpressure.
   */
  lemma ParentDecides(parent: bool, baggageRand: Option<real>, generated: real, configuredRate: real, factor: nat)
    requires baggageRand.Some? ==> 0.0 <= baggageRand.value < 1.0
    requires 0.0 <= generated < 1.0
    ensures var d := MakeSamplingDecision(true, Some(parent), baggageRand, generated, NoSampler, configuredRate,
                                          Some(factor));
            && (d.sampled == Some(true) ==> parent)
            && (parent && d.sampled == Some(false) ==> d.reason == Some(Backpressure) && factor > 0)
  {
    if parent {
      DecisionByInterval(1.0, if baggageRand.Some? then baggageRand.value else generated, factor);
    }
  }

  /**
   * Which rate counts, and against which number: the sampler's rate before the parent's decision, that
   * before the configured rate; the number in the baggage before a generated one.  Sampled is what lies
   * below the rate divided by 2^factor; a rate outside [0, 1], a raising sampler and no tracing have
   * outcomes of their own.
   */
  lemma RateThatCounts(tracing: bool, parentSampled: Option<bool>, baggageRand: Option<real>, generated: real,
                       sampler: Sampler, configuredRate: real, factor: Option<nat>)
    requires (baggageRand.Some? ==> baggageRand.value >= 0.0) && generated >= 0.0
    ensures var d := MakeSamplingDecision(tracing, parentSampled, baggageRand, generated, sampler, configuredRate,
                                          factor);
            var rand := if baggageRand.Some? then baggageRand.value else generated;
            var p := Pow2(if factor.Some? then factor.value else 0);
            && (!tracing ==> d == Decision(parentSampled, None, None, None))
            && (tracing && sampler == Raises ==> d == Decision(Some(false), None, None, Some(CallbackError)))
            && (forall rate | tracing && sampler == Returns(rate) :: DecidedBy(d, rate, p, rand))
            && (tracing && sampler == NoSampler && parentSampled == Some(true) ==> DecidedBy(d, 1.0, p, rand))
            && (tracing && sampler == NoSampler && parentSampled == Some(false) ==> DecidedBy(d, 0.0, p, rand))
            && (tracing && sampler == NoSampler && parentSampled == None ==> DecidedBy(d, configuredRate, p, rand))
  {
    var rate := if sampler.Returns? then sampler.rate
                else if parentSampled.Some? then OfBool(parentSampled.value) else configuredRate;
    if 0.0 < rate <= 1.0 {
      DivBounds(rate, Pow2(if factor.Some? then factor.value else 0));
    }
  }

  /** The decision `d` is the one for this rate, lowered by `p`, and this number. */
  ghost predicate DecidedBy(d: Decision, rate: real, p: real, rand: real)
    requires p >= 1.0
  {
    if rate < 0.0 || rate > 1.0 then d == Decision(Some(false), None, None, Some(SampleRateReason))
    else if rate == 0.0 then d == Decision(Some(false), Some(0.0), Some(rand), Some(SampleRateReason))
    else
      && d.sampled == Some(rand < rate / p) && d.rate == Some(rate / p) && d.rand == Some(rand)
      && d.reason == if rand < rate / p then None
                     else if rand < rate then Some(Backpressure) else Some(SampleRateReason)
  }

  /** Each step of the factor halves the rate. */
  lemma Halving(n: nat)
    ensures Pow2(0) == 1.0 && Pow2(n + 1) == 2.0 * Pow2(n)
  {
  }

  // ---------------------------------------------------------------- the monitor

  const MAX_DOWNSAMPLE_FACTOR: nat := 10

  /** How many of the latest checks failed in a row. */
  function UnhealthyInARow(checks: seq<bool>): nat {
    if checks == [] || checks[|checks| - 1] then 0 else 1 + UnhealthyInARow(checks[..|checks| - 1])
  }

  /** The latest checks failed, that many and no more. */
  lemma {:induction false} UnhealthyInARowIs(checks: seq<bool>)
    ensures var n, k := |checks|, UnhealthyInARow(checks);
            && k <= n && (forall i | n - k <= i < n :: !checks[i]) && (k < n ==> checks[n - 1 - k])
  {
    if checks != [] && !checks[|checks| - 1] {
      UnhealthyInARowIs(checks[..|checks| - 1]);
    }
  }

  class Monitor {
    var healthy: bool
    var downsampleFactor: nat
    ghost var checks: seq<bool>                // results of all health checks so far

    ghost predicate Valid()
      reads this
    {
      && (checks == [] ==> healthy)
      && (checks != [] ==> healthy == checks[|checks| - 1])
      && downsampleFactor == if UnhealthyInARow(checks) < 10 then UnhealthyInARow(checks) else 10
    }

    constructor ()
      ensures Valid() && checks == []
    {
      healthy, downsampleFactor, checks := true, 0, [];
    }

    method CheckHealth(transportIsHealthy: bool)
      modifies this`healthy
      ensures healthy == transportIsHealthy
    {
      healthy := transportIsHealthy;
    }

    method SetDownsampleFactor()
      modifies this`downsampleFactor
      ensures downsampleFactor == if healthy then 0
                                  else if old(downsampleFactor) < 10 then old(downsampleFactor) + 1
                                  else old(downsampleFactor)
    {
      if healthy {
        downsampleFactor := 0;
      } else {
        if downsampleFactor < MAX_DOWNSAMPLE_FACTOR {
          downsampleFactor := downsampleFactor + 1;
        }
      }
    }

    /** The factor counts unhealthy checks in a row, up to ten. */
    method Run(transportIsHealthy: bool)
      requires Valid()
      modifies this
      ensures Valid() && checks == old(checks) + [transportIsHealthy] && healthy == transportIsHealthy
      ensures downsampleFactor == if transportIsHealthy then 0
                                  else if old(downsampleFactor) < 10 then old(downsampleFactor) + 1 else 10
    {
      CheckHealth(transportIsHealthy);
      SetDownsampleFactor();
      checks := checks + [transportIsHealthy];
      assert checks[..|checks| - 1] == old(checks);
    }
  }
}
