/** Exponential backoff: capped geometric delays, and where the cap stops working.

    Delays are whole nanoseconds in a signed 64-bit integer. The delay is computed as a
    floating-point number first, and converting one that does not fit has no defined
    result: `wild` stands for whatever the platform yields there.
 */
module Backoff {

  const NANOS_PER_SECOND := 1_000_000_000

  /** The first value that no longer fits a signed 64-bit integer. */
  const LIMIT: real := 9_223_372_036_854_775_808.0

  datatype Config = Config(initial: int, max: int, factor: real) {
    function WithDefaults(): Config {
      Config(if initial <= 0 then NANOS_PER_SECOND else initial,
             if max <= 0 then 60 * NANOS_PER_SECOND else max,
             if factor <= 0.0 then 2.0 else factor)
    }

    predicate Complete() {
      initial > 0 && max > 0 && factor > 0.0
    }
  }

  function Power(base: real, n: nat): real {
    if n == 0 then 1.0 else Power(base, n - 1) * base
  }

  function Unrounded(c: Config, n: nat): real {
    c.initial as real * Power(c.factor, n)
  }

  function ToDuration(x: real, wild: int): int {
    if x < LIMIT then x.Floor else wild
  }

  /** The delay after n earlier attempts. */
  function Delay(c: Config, n: nat, wild: int): int {
    var d := ToDuration(Unrounded(c, n), wild);
    if d > c.max then c.max else d
  }

  class ExponentialBackoff {
    const config: Config
    var attempt: nat

    constructor (config: Config)
      ensures this.config == config.WithDefaults() && attempt == 0
    {
      this.config := config.WithDefaults();
      attempt := 0;
    }

    method NextDelay(wild: int) returns (delay: int)
      modifies this
      ensures attempt == old(attempt) + 1
      ensures delay == Delay(config, old(attempt), wild)
    {
      attempt := attempt + 1;
      var unrounded := config.initial as real * Power(config.factor, attempt - 1);
      delay := ToDuration(unrounded, wild);
      if delay > config.max {
        delay := config.max;
      }
    }

    /** After a successful start the delays begin anew. */
    method Reset()
      modifies this
      ensures attempt == 0
    {
      attempt := 0;
    }
  }

  lemma Product(a: real, b: real, c: real)
    requires 0.0 <= a && b <= c
    ensures a * b <= a * c
  {
    assert a * (c - b) >= 0.0;
  }

  lemma {:induction false} PowerAtLeastOne(base: real, n: nat)
    requires 1.0 <= base
    ensures 1.0 <= Power(base, n)
  {
    if n > 0 {
      PowerAtLeastOne(base, n - 1);
      Product(Power(base, n - 1), 1.0, base);
    }
  }

  lemma {:induction false} PowerGrows(base: real, m: nat, n: nat)
    requires 1.0 <= base && m <= n
    ensures Power(base, m) <= Power(base, n)
  {
    if m < n {
      PowerGrows(base, m, n - 1);
      PowerAtLeastOne(base, n - 1);
      Product(Power(base, n - 1), 1.0, base);
    }
  }

  lemma UnroundedGrows(c: Config, m: nat, n: nat)
    requires c.Complete() && 1.0 <= c.factor && m <= n
    ensures 1.0 <= Unrounded(c, m) <= Unrounded(c, n)
  {
    PowerGrows(c.factor, m, n);
    PowerAtLeastOne(c.factor, m);
    Product(c.initial as real, Power(c.factor, m), Power(c.factor, n));
    Product(c.initial as real, 1.0, Power(c.factor, m));
  }

  lemma FloorMonotone(x: real, y: real)
    requires x <= y
    ensures x.Floor <= y.Floor
  {
  }

  /** While the unrounded delay fits, delays never shrink and stay within 1 .. max. */
  lemma DelaysGrow(c: Config, m: nat, n: nat, wild: int)
    requires c.Complete() && 1.0 <= c.factor && m <= n && Unrounded(c, n) < LIMIT
    ensures 1 <= Delay(c, m, wild) <= Delay(c, n, wild) <= c.max
  {
    UnroundedGrows(c, m, n);
    FloorMonotone(1.0, Unrounded(c, m));
    FloorMonotone(Unrounded(c, m), Unrounded(c, n));
  }

  lemma BernoulliStep(p: real, e: real, k: real)
    requires 1.0 <= p && 0.0 <= e && 1.0 + k * e <= p
    ensures 1.0 + (k + 1.0) * e <= p * (1.0 + e)
  {
    Product(e, 1.0, p);
    assert p * (1.0 + e) == p + e * p;
    assert (k + 1.0) * e == k * e + e;
  }

  lemma {:induction false} Bernoulli(base: real, n: nat)
    requires 1.0 <= base
    ensures 1.0 + n as real * (base - 1.0) <= Power(base, n)
  {
    if n > 0 {
      Bernoulli(base, n - 1);
      PowerAtLeastOne(base, n - 1);
      BernoulliStep(Power(base, n - 1), base - 1.0, (n - 1) as real);
      assert 1.0 + (base - 1.0) == base;
    }
  }

  lemma Multiple(a: real, e: real) returns (n: nat)
    requires 0.0 < a && 0.0 < e
    ensures a <= n as real * e
  {
    var q := a / e;
    assert q * e == a;
    n := q.Floor + 1;
    Product(e, q, n as real);
  }

  /** With a factor above one the conversion is outgrown after finitely many failures
      in a row. */
  lemma EventuallyTooLarge(c: Config) returns (n: nat)
    requires c.Complete() && 1.0 < c.factor
    ensures Unrounded(c, n) >= LIMIT
  {
    n := Multiple(LIMIT, c.factor - 1.0);
    Bernoulli(c.factor, n);
    Product(Power(c.factor, n), 1.0, c.initial as real);
  }

  lemma {:induction false} PowerOfInverse(base: real, inverse: real, n: nat)
    requires base * inverse == 1.0
    ensures Power(base, n) * Power(inverse, n) == 1.0
  {
    if n > 0 {
      PowerOfInverse(base, inverse, n - 1);
      InverseStep(Power(base, n - 1), Power(inverse, n - 1), base, inverse);
    }
  }

  lemma InverseStep(p: real, q: real, base: real, inverse: real)
    requires base * inverse == 1.0 && p * q == 1.0
    ensures (p * base) * (q * inverse) == 1.0
  {
    assert (p * base) * (q * inverse) == (p * q) * (base * inverse);
  }

  lemma StrictProduct(a: real, b: real)
    requires 0.0 < a && 0.0 < b
    ensures 0.0 < a * b
  {
  }

  lemma SmallerFactor(a: real, p: real, q: real, x: real)
    requires 0.0 < a < q && x == p * q && x > 0.0
    ensures a * p < x
  {
    if p <= 0.0 {
      Product(q, p, 0.0);
    }
    StrictProduct(q - a, p);
    assert (q - a) * p == q * p - a * p;
  }

  lemma InverseAboveOne(base: real) returns (inverse: real)
    requires 0.0 < base < 1.0
    ensures base * inverse == 1.0 && 1.0 < inverse
  {
    inverse := 1.0 / base;
    if inverse <= 1.0 {
      Product(base, inverse, 1.0);
    }
  }

  /** With a factor below one the delay shrinks below a nanosecond after finitely many
      failures in a row. */
  lemma EventuallyTooSmall(c: Config) returns (n: nat)
    requires c.Complete() && c.factor < 1.0
    ensures Unrounded(c, n) < 1.0
  {
    var inverse := InverseAboveOne(c.factor);
    n := Multiple(c.initial as real, inverse - 1.0);
    Bernoulli(inverse, n);
    PowerOfInverse(c.factor, inverse, n);
    SmallerFactor(c.initial as real, Power(c.factor, n), Power(inverse, n), 1.0);
  }

  /** A worker waits exactly while the unrounded delay is at least a nanosecond and fits
      64 bits; beyond that it waits only on a platform that converts to a positive number. */
  lemma WaitsIffFits(c: Config, n: nat, wild: int)
    requires c.Complete()
    ensures 0 < Delay(c, n, wild) <==>
            1.0 <= Unrounded(c, n) < LIMIT || (LIMIT <= Unrounded(c, n) && 0 < wild)
  {
    if 1.0 <= Unrounded(c, n) {
      FloorMonotone(1.0, Unrounded(c, n));
    }
  }

  lemma {:induction false} PowerOfOne(n: nat)
    ensures Power(1.0, n) == 1.0
  {
    if n > 0 {
      PowerOfOne(n - 1);
    }
  }

  /** Every failure is followed by a wait exactly if the factor is one, or above one on a
      platform that converts what does not fit to a positive number. */
  lemma AlwaysWaitsIff(c: Config, wild: int)
    requires c.Complete() && c.initial as real < LIMIT
    ensures (forall n: nat :: 0 < Delay(c, n, wild)) <==> c.factor == 1.0 || (1.0 < c.factor && 0 < wild)
  {
    if c.factor == 1.0 || (1.0 < c.factor && 0 < wild) {
      forall n: nat
        ensures 0 < Delay(c, n, wild)
      {
        if c.factor == 1.0 {
          PowerOfOne(n);
        }
        UnroundedGrows(c, n, n);
        WaitsIffFits(c, n, wild);
      }
    } else {
      var n;
      if c.factor < 1.0 {
        n := EventuallyTooSmall(c);
      } else {
        n := EventuallyTooLarge(c);
      }
      WaitsIffFits(c, n, wild);
    }
  }

  // ---------- the intended delays ----------

  /** The first delay is the initial one, each later one is larger by the factor. */
  lemma GeometricDelays(c: Config, n: nat)
    ensures Unrounded(c, 0) == c.initial as real && Unrounded(c, n + 1) == Unrounded(c, n) * c.factor
  {
    assert Power(c.factor, n + 1) == Power(c.factor, n) * c.factor;
  }

  /** While the unrounded delay fits, the delay is its whole part or the maximum. */
  lemma DelayIsCapped(c: Config, n: nat, wild: int)
    requires Unrounded(c, n) < LIMIT
    ensures Delay(c, n, wild) == if Unrounded(c, n).Floor <= c.max then Unrounded(c, n).Floor else c.max
  {
  }

  /** Positive settings are kept, each other one is replaced by its default. */
  lemma DefaultsFillIn(c: Config)
    ensures c.WithDefaults().Complete() && (c.WithDefaults() == c <==> c.Complete())
    ensures Config(0, 0, 0.0).WithDefaults() == Config(1_000_000_000, 60_000_000_000, 2.0)
  {
  }

  /** By default a worker waits for one second after the first failure, for 2, 4, 8, 16 and
      32 seconds after the next ones, and for a minute then. */
  lemma DefaultDelays(wild: int)
    ensures var c := Config(0, 0, 0.0).WithDefaults();
      && Delay(c, 0, wild) == 1 * NANOS_PER_SECOND && Delay(c, 1, wild) == 2 * NANOS_PER_SECOND
      && Delay(c, 2, wild) == 4 * NANOS_PER_SECOND && Delay(c, 3, wild) == 8 * NANOS_PER_SECOND
      && Delay(c, 4, wild) == 16 * NANOS_PER_SECOND && Delay(c, 5, wild) == 32 * NANOS_PER_SECOND
      && Delay(c, 6, wild) == 60 * NANOS_PER_SECOND
  {
    var c := Config(0, 0, 0.0).WithDefaults();
    GeometricDelays(c, 0);
    GeometricDelays(c, 1);
    GeometricDelays(c, 2);
    GeometricDelays(c, 3);
    GeometricDelays(c, 4);
    GeometricDelays(c, 5);
  }
}
