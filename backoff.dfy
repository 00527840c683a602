/**
 * Delay schedules between retry attempts (app/internal/retry/backoff.go).
 * A duration is a whole number of nanoseconds, as Go's time.Duration; its
 * 64-bit overflow is not modelled. float64 values are modelled as reals, and
 * the uniform draw `rand.Float64()` is a parameter `u` in [0, 1).
 */
module Backoff {

  const Millisecond: int := 1_000_000
  const Second: int := 1_000_000_000

  /** A value of rand.Float64(): uniform in [0, 1). */
  type Draw = u: real | 0.0 <= u < 1.0 witness 0.0

  datatype Strategy =
    | Fixed(interval: int, jitter: real)
    | Linear(base: int, step: int, max: int, jitter: real)
    | Exponential(base: int, factor: real, max: int, jitter: real)

  /** Converting a float to time.Duration truncates toward zero. */
  function Trunc(x: real): (n: int)
    ensures x >= 0.0 ==> n as real <= x < n as real + 1.0
    ensures x < 0.0 ==> n as real - 1.0 < x <= n as real
  {
    if x >= 0.0 then x.Floor else -((-x).Floor)
  }

  /** Jitter is active only strictly between 0 and 1. */
  predicate JitterActive(jitter: real)
  {
    0.0 < jitter < 1.0
  }

  /** addJitter: scales `d` by 1 + delta, delta = (2u - 1) * jitter. */
  function AddJitter(d: int, jitter: real, u: Draw): int
  {
    if !JitterActive(jitter) then d
    else Trunc(d as real * (1.0 + (u * 2.0 - 1.0) * jitter))
  }

  /** math.Pow for a non-negative whole exponent. */
  function Pow(f: real, n: nat): real
  {
    if n == 0 then 1.0 else f * Pow(f, n - 1)
  }

  /** The uncapped linear delay. */
  function LinearDelay(base: int, step: int, attempt: int): int
  {
    base + attempt * step
  }

  /** Backoff.Next. Attempts are zero-based (backoff.go:8); only the
      exponential schedule needs that to be defined. */
  function Next(b: Strategy, attempt: int, u: Draw): int
    requires b.Exponential? ==> attempt >= 0
  {
    match b
    case Fixed(interval, jitter) => AddJitter(interval, jitter, u)
    case Linear(base, step, max, jitter) =>
      var d := LinearDelay(base, step, attempt);
      if max > 0 && d > max then max else AddJitter(d, jitter, u)
    case Exponential(base, factor, max, jitter) =>
      var d := base as real * Pow(factor, attempt);
      if max > 0 && d > max as real then max else AddJitter(Trunc(d), jitter, u)
  }

  /** Jitter outside (0, 1) is the identity. */
  lemma JitterOffIsIdentity(d: int, jitter: real, u: Draw)
    requires !JitterActive(jitter)
    ensures AddJitter(d, jitter, u) == d
  {
  }

  /** With active jitter a non-negative delay d lands in (d(1-j) - 1, d(1+j)]:
      the ±j band that line 58 draws its factor from, less the truncation of
      at most 1ns. */
  lemma {:induction false} JitterWithinBand(d: int, jitter: real, u: Draw)
    requires JitterActive(jitter)
    requires d >= 0
    ensures var r := AddJitter(d, jitter, u) as real;
            d as real * (1.0 - jitter) - 1.0 < r <= d as real * (1.0 + jitter)
  {
    var delta := (u * 2.0 - 1.0) * jitter;
    var x := d as real * (1.0 + delta);
    assert -jitter <= delta < jitter by {
      assert (u * 2.0 - 1.0) * jitter >= -1.0 * jitter;
      assert (u * 2.0 - 1.0) * jitter < 1.0 * jitter;
    }
    assert d as real * (delta + jitter) >= 0.0;
    assert d as real * (jitter - delta) >= 0.0;
    assert x >= d as real * (1.0 - jitter);
    assert x <= d as real * (1.0 + jitter);
    assert x >= 0.0;
  }

  /** FixedBackoff ignores the attempt number. */
  lemma FixedIgnoresAttempt(interval: int, jitter: real, a1: int, a2: int, u: Draw)
    ensures Next(Fixed(interval, jitter), a1, u) == Next(Fixed(interval, jitter), a2, u)
    ensures !JitterActive(jitter) ==> Next(Fixed(interval, jitter), a1, u) == interval
  {
  }

  /** LinearBackoff below its cap (or with the cap disabled by max <= 0) is
      base + attempt * step, jittered; above a positive cap it is exactly max. */
  lemma LinearSchedule(base: int, step: int, max: int, jitter: real, attempt: int, u: Draw)
    ensures max <= 0 || base + attempt * step <= max ==>
              Next(Linear(base, step, max, jitter), attempt, u) == AddJitter(base + attempt * step, jitter, u)
    ensures max > 0 && base + attempt * step > max ==>
              Next(Linear(base, step, max, jitter), attempt, u) == max
  {
  }

  /** With jitter off and a positive cap, a linear delay never exceeds the cap. */
  lemma LinearBoundedByMax(base: int, step: int, max: int, jitter: real, attempt: int, u: Draw)
    requires max > 0 && !JitterActive(jitter)
    ensures Next(Linear(base, step, max, jitter), attempt, u) <= max
  {
  }

  /** The schedule of backoff_test.go: 1s + 500ms per attempt, capped at 3s. */
  lemma LinearTestSchedule(u: Draw)
    ensures var b := Linear(Second, 500 * Millisecond, 3 * Second, 0.0);
            Next(b, 0, u) == Second && Next(b, 1, u) == 1500 * Millisecond &&
            Next(b, 2, u) == 2 * Second && Next(b, 10, u) == 3 * Second
  {
  }

  /** A positive cap bounds every exponential delay once the uncapped value
      passes it, whatever the jitter. */
  lemma ExponentialCapped(base: int, factor: real, max: int, jitter: real, attempt: nat, u: Draw)
    requires max > 0 && base as real * Pow(factor, attempt) > max as real
    ensures Next(Exponential(base, factor, max, jitter), attempt, u) == max
  {
  }

  /** Base 1s, factor 2, cap 10s (the exponential schedule the service
      selects): 1s, 2s, 4s, 8s, then 10s. */
  lemma {:induction false} ExponentialServiceSchedule(u: Draw)
    ensures var b := Exponential(Second, 2.0, 10 * Second, 0.0);
            Next(b, 0, u) == Second && Next(b, 1, u) == 2 * Second &&
            Next(b, 2, u) == 4 * Second && Next(b, 3, u) == 8 * Second &&
            Next(b, 4, u) == 10 * Second
  {
    assert Pow(2.0, 1) == 2.0;
    assert Pow(2.0, 2) == 4.0;
    assert Pow(2.0, 3) == 8.0;
    assert Pow(2.0, 4) == 16.0;
    assert Trunc(Second as real * 8.0) == 8 * Second;
  }
}
