/** How long the outer retry loop waits between its tries. */
module Backoff {

  /** The settings of the outer loop; times are in any one unit. */
  datatype Config = Config(maxAttempts: int, initialInterval: real, maxInterval: real, multiplier: real)

  function Attempts(cfg: Config): (n: int)
    ensures n >= 1
  {
    if cfg.maxAttempts <= 0 then 3 else cfg.maxAttempts
  }

  function Product(a: real, b: real): real {
    a * b
  }

  function Power(x: real, n: nat): real {
    if n == 0 then 1.0 else x * Power(x, n - 1)
  }

  function Uncapped(cfg: Config, attempt: nat): real
    requires attempt >= 1
  {
    cfg.initialInterval * Power(cfg.multiplier, attempt - 1)
  }

  function Interval(cfg: Config, attempt: nat): real
    requires attempt >= 1
  {
    var interval := Uncapped(cfg, attempt);
    if interval > cfg.maxInterval then cfg.maxInterval else interval
  }

  /** Up to three tenths are added at random. */
  function Jittered(interval: real, dice: real): real {
    interval + dice * 0.3 * interval
  }

  /** A wait that can follow failed attempt number `attempt`. */
  ghost predicate IsWait(cfg: Config, attempt: nat, wait: real)
    requires attempt >= 1
  {
    exists dice: real :: 0.0 <= dice < 1.0 && wait == Jittered(Interval(cfg, attempt), dice)
  }

  /** The waits after the failed attempts from the first on. */
  ghost predicate AreWaits(cfg: Config, waits: seq<real>) {
    forall k :: 0 <= k < |waits| ==> IsWait(cfg, k + 1, waits[k])
  }

  /** What a connection configuration asks for; anything not positive falls back to its default. */
  function BuildRetryConfig(maxRetries: int, initialMs: int, maxMs: int, multiplier: real): (cfg: Config)
    ensures Sensible(cfg) && cfg.maxAttempts == Attempts(cfg)
    ensures cfg.initialInterval > 0.0 && cfg.maxInterval > 0.0 && cfg.multiplier > 0.0
    ensures maxRetries > 0 ==> cfg.maxAttempts == maxRetries
    ensures initialMs > 0 ==> cfg.initialInterval == initialMs as real
    ensures maxMs > 0 ==> cfg.maxInterval == maxMs as real
    ensures multiplier > 0.0 ==> cfg.multiplier == multiplier
  {
    Config(
      if maxRetries <= 0 then 3 else maxRetries,
      if initialMs <= 0 then 100.0 else initialMs as real,
      if maxMs <= 0 then 5000.0 else maxMs as real,
      if multiplier <= 0.0 then 2.0 else multiplier)
  }

  /** Where nothing is configured: three attempts, a tenth of a second doubled each time, up to five seconds. */
  lemma DefaultsAre()
    ensures BuildRetryConfig(0, 0, 0, 0.0) == Config(3, 100.0, 5000.0, 2.0)
    ensures forall r, i, m: int, x: real :: r <= 0 && i <= 0 && m <= 0 && x <= 0.0 ==>
      BuildRetryConfig(r, i, m, x) == BuildRetryConfig(0, 0, 0, 0.0)
  {}

  predicate Sensible(cfg: Config) {
    cfg.initialInterval >= 0.0 && cfg.maxInterval >= 0.0 && cfg.multiplier >= 0.0
  }

  lemma MulMono(x: real, y: real, c: real)
    requires x <= y && c >= 0.0
    ensures c * x <= c * y
  {}

  lemma {:induction false} PowerPositive(x: real, n: nat)
    requires x >= 0.0
    ensures Power(x, n) >= 0.0
  {
    if n == 0 {
    } else {
      PowerPositive(x, n - 1);
      MulMono(0.0, Power(x, n - 1), x);
    }
  }

  lemma {:induction false} PowerGrows(x: real, n: nat, m: nat)
    requires x >= 1.0 && n <= m
    ensures 0.0 <= Power(x, n) <= Power(x, m)
  {
    PowerPositive(x, n);
    if n < m {
      PowerGrows(x, n, m - 1);
      PowerPositive(x, m - 1);
      MulMono(1.0, x, Power(x, m - 1));
    }
  }

  /** Before the random part, no wait is shorter than the one before it. */
  lemma IntervalsGrow(cfg: Config, n: nat, m: nat)
    requires 1 <= n <= m && cfg.initialInterval >= 0.0 && cfg.multiplier >= 1.0
    ensures Interval(cfg, n) <= Interval(cfg, m)
  {
    PowerGrows(cfg.multiplier, n - 1, m - 1);
    MulMono(Power(cfg.multiplier, n - 1), Power(cfg.multiplier, m - 1), cfg.initialInterval);
  }

  /** The intervals never shrink exactly if the multiplier is at least one; below one they fall under any cap. */
  lemma IntervalsGrowIff(cfg: Config)
    requires 0.0 < cfg.initialInterval && 0.0 < cfg.maxInterval
    ensures (forall n, m :: 1 <= n <= m ==> Interval(cfg, n) <= Interval(cfg, m)) <==> cfg.multiplier >= 1.0
  {
    if cfg.multiplier >= 1.0 {
      forall n, m | 1 <= n <= m ensures Interval(cfg, n) <= Interval(cfg, m) {
        IntervalsGrow(cfg, n, m);
      }
    } else {
      var n := IntervalsShrink(cfg);
      assert Interval(cfg, n + 1) < Interval(cfg, n);
    }
  }

  /** With a multiplier below one some interval is shorter than the one before. */
  lemma IntervalsShrink(cfg: Config) returns (n: nat)
    requires 0.0 < cfg.initialInterval && 0.0 < cfg.maxInterval && cfg.multiplier < 1.0
    ensures n >= 1 && Interval(cfg, n + 1) < Interval(cfg, n)
  {
    var i, x := cfg.initialInterval, cfg.multiplier;
    if x <= 0.0 {
      n := 1;
      assert Power(x, 0) == 1.0 && Power(x, 1) == x;
      MulMono(x, 0.0, i);
    } else {
      var k := PowersFall(x, cfg.maxInterval / i);
      n := k + 1;
      PowersStayBelowOne(x, k);
      Quotient(Power(x, k), cfg.maxInterval, i);
      Shrinks(i, x, Power(x, k));
      UncappedAre(cfg, k);
    }
  }

  lemma UncappedAre(cfg: Config, k: nat)
    ensures Uncapped(cfg, k + 1) == Product(cfg.initialInterval, Power(cfg.multiplier, k))
    ensures Uncapped(cfg, k + 2) ==
      Product(cfg.initialInterval, Product(cfg.multiplier, Power(cfg.multiplier, k)))
  {}

  lemma Quotient(p: real, cap: real, i: real)
    requires i > 0.0 && p <= cap / i
    ensures Product(i, p) <= cap
  {
    MulMono(p, cap / i, i);
  }

  lemma Shrinks(i: real, x: real, p: real)
    requires i > 0.0 && p > 0.0 && x < 1.0
    ensures Product(i, Product(x, p)) < Product(i, p)
  {
    var less := p * (1.0 - x);
    assert less > 0.0;
    assert i * less > 0.0;
    assert x * p == p - less;
    assert i * (p - less) == i * p - i * less;
  }

  lemma {:induction false} PowersStayBelowOne(x: real, n: nat)
    requires 0.0 < x < 1.0
    ensures 0.0 < Power(x, n) <= 1.0
  {
    if n == 0 {
    } else {
      PowersStayBelowOne(x, n - 1);
      MulMono(x, 1.0, Power(x, n - 1));
    }
  }

  function Rise(x: real, n: nat): real {
    x + Scaled(n, 1.0 - x)
  }

  /** Bernoulli, for the powers of a number between zero and one. */
  lemma {:induction false} PowersFallFast(x: real, n: nat)
    requires 0.0 < x < 1.0
    ensures Product(Power(x, n), Rise(x, n)) <= x
  {
    if n == 0 {
    } else {
      PowersFallFast(x, n - 1);
      PowersStayBelowOne(x, n - 1);
      FallStep(x, Power(x, n - 1), Rise(x, n - 1));
      assert Power(x, n) == Product(x, Power(x, n - 1));
      assert Rise(x, n) == Rise(x, n - 1) + (1.0 - x);
    }
  }

  lemma FallStep(x: real, p: real, a: real)
    requires 0.0 < x < 1.0 && 0.0 < p <= 1.0 && Product(p, a) <= x
    ensures Product(Product(x, p), a + (1.0 - x)) <= x
  {
    var d := 1.0 - x;
    MulMono(p, 1.0, d);
    assert p * (a + d) == p * a + d * p;
    MulMono(p * (a + d), 1.0, x);
    assert (x * p) * (a + d) == x * (p * (a + d));
  }

  /** The powers of a number below one fall under any bound. */
  lemma PowersFall(x: real, bound: real) returns (n: nat)
    requires 0.0 < x < 1.0 && bound > 0.0
    ensures Power(x, n) <= bound
  {
    var d := 1.0 - x;
    var target := x / bound;
    assert target > 0.0 && target / d > 0.0;
    n := (target / d).Floor + 1;
    Steps(target, d, n);
    PowersFallFast(x, n);
    PowersStayBelowOne(x, n);
    TooHigh(x, bound, Power(x, n), Rise(x, n));
  }

  lemma Steps(target: real, d: real, n: nat)
    requires d > 0.0 && target / d <= n as real
    ensures target <= Scaled(n, d)
  {
    ScaledIsProduct(n, d);
    MulMono(target / d, n as real, d);
    assert d * (target / d) == target;
  }

  lemma TooHigh(x: real, bound: real, p: real, a: real)
    requires x > 0.0 && bound > 0.0 && p > 0.0 && Product(p, a) <= x && a > x / bound
    ensures p <= bound
  {
    MulMono(x / bound, a, bound);
    assert bound * (x / bound) == x;
    assert bound * (a - x / bound) > 0.0;
    if p > bound {
      MulMono(bound, p, a);
    }
  }

  /** The first interval is the configured one, each further one a multiple of that before, and none is over the cap. */
  lemma IntervalsAre(cfg: Config, n: nat)
    requires n >= 1
    ensures Uncapped(cfg, 1) == cfg.initialInterval
    ensures Uncapped(cfg, n + 1) == cfg.multiplier * Uncapped(cfg, n)
    ensures Interval(cfg, n) == if Uncapped(cfg, n) < cfg.maxInterval then Uncapped(cfg, n) else cfg.maxInterval
  {
    assert Power(cfg.multiplier, 0) == 1.0;
    var i, x, p := cfg.initialInterval, cfg.multiplier, Power(cfg.multiplier, n - 1);
    assert Power(x, n) == x * p;
    assert i * (x * p) == x * (i * p);
  }

  /** The waits that can follow an attempt are those from its interval up to, and without, thirteen tenths of it. */
  lemma IsWaitIff(cfg: Config, attempt: nat, wait: real)
    requires attempt >= 1 && Interval(cfg, attempt) > 0.0
    ensures IsWait(cfg, attempt, wait) <==> Interval(cfg, attempt) <= wait < 1.3 * Interval(cfg, attempt)
  {
    var i := Interval(cfg, attempt);
    if i <= wait < 1.3 * i {
      var dice := (wait - i) / (0.3 * i);
      FairShare(i, wait, dice);
    }
    if dice: real :| 0.0 <= dice < 1.0 && wait == Jittered(i, dice) {
      Strictly(i, dice);
    }
  }

  lemma FairShare(i: real, wait: real, dice: real)
    requires 0.0 < i <= wait < 1.3 * i && dice == (wait - i) / (0.3 * i)
    ensures 0.0 <= dice < 1.0 && wait == Jittered(i, dice)
  {
    var part := 0.3 * i;
    assert dice * part == wait - i;
    assert wait - i >= 0.0 && dice >= 0.0;
    if dice >= 1.0 {
      MulMono(1.0, dice, part);
    }
    assert dice * 0.3 * i == dice * (0.3 * i);
  }

  lemma Strictly(i: real, dice: real)
    requires i > 0.0 && 0.0 <= dice < 1.0
    ensures i <= Jittered(i, dice) < 1.3 * i
  {
    JitterBounds(i, dice);
    assert (1.0 - dice) * 0.3 * i > 0.0;
  }

  /** Each wait lies between its interval and thirteen tenths of it, and so of the cap. */
  lemma WaitBounds(cfg: Config, attempt: nat, wait: real)
    requires attempt >= 1 && Sensible(cfg) && IsWait(cfg, attempt, wait)
    ensures 0.0 <= Interval(cfg, attempt) <= wait
    ensures wait <= 1.3 * Interval(cfg, attempt) <= 1.3 * cfg.maxInterval
    ensures wait <= 1.3 * Uncapped(cfg, attempt)
  {
    var dice :| 0.0 <= dice < 1.0 && wait == Jittered(Interval(cfg, attempt), dice);
    IntervalBounds(cfg, attempt);
    JitterBounds(Interval(cfg, attempt), dice);
  }

  lemma IntervalBounds(cfg: Config, attempt: nat)
    requires attempt >= 1 && Sensible(cfg)
    ensures 0.0 <= Interval(cfg, attempt) <= cfg.maxInterval
    ensures Interval(cfg, attempt) <= Uncapped(cfg, attempt)
  {
    PowerPositive(cfg.multiplier, attempt - 1);
    MulMono(0.0, Power(cfg.multiplier, attempt - 1), cfg.initialInterval);
  }

  lemma JitterBounds(interval: real, dice: real)
    requires 0.0 <= interval && 0.0 <= dice < 1.0
    ensures interval <= Jittered(interval, dice) <= 1.3 * interval
  {
    MulMono(0.3 * dice, 0.3, interval);
    MulMono(0.0, 0.3 * dice, interval);
  }

  function Sum(xs: seq<real>): real {
    if xs == [] then 0.0 else Sum(xs[..|xs| - 1]) + xs[|xs| - 1]
  }

  /** The first `n` intervals, uncapped. */
  function Geometric(cfg: Config, n: nat): real {
    if n == 0 then 0.0 else Geometric(cfg, n - 1) + Uncapped(cfg, n)
  }

  lemma {:induction false} GeometricSum(cfg: Config, n: nat)
    ensures (cfg.multiplier - 1.0) * Geometric(cfg, n) == cfg.initialInterval * (Power(cfg.multiplier, n) - 1.0)
  {
    if n == 0 {
    } else {
      GeometricSum(cfg, n - 1);
      var i, x, p := cfg.initialInterval, cfg.multiplier, Power(cfg.multiplier, n - 1);
      assert (x - 1.0) * (i * p) == i * (x * p - p);
      assert (x - 1.0) * Geometric(cfg, n) == (x - 1.0) * Geometric(cfg, n - 1) + (x - 1.0) * (i * p);
    }
  }

  lemma {:induction false} GeometricGrows(cfg: Config, n: nat, m: nat)
    requires Sensible(cfg) && n <= m
    ensures Geometric(cfg, n) <= Geometric(cfg, m)
  {
    if n == m {
    } else {
      GeometricGrows(cfg, n, m - 1);
      PowerPositive(cfg.multiplier, m - 1);
      MulMono(0.0, Power(cfg.multiplier, m - 1), cfg.initialInterval);
    }
  }

  lemma {:induction false} WaitsAddUp(cfg: Config, waits: seq<real>)
    requires Sensible(cfg) && AreWaits(cfg, waits)
    ensures Sum(waits) <= 1.3 * Scaled(|waits|, cfg.maxInterval)
    ensures Sum(waits) <= 1.3 * Geometric(cfg, |waits|)
  {
    if waits == [] {
    } else {
      var n := |waits| - 1;
      WaitsAddUp(cfg, waits[..n]);
      WaitBounds(cfg, n + 1, waits[n]);
    }
  }

  /** `n` times `x`, by addition. */
  function Scaled(n: nat, x: real): real {
    if n == 0 then 0.0 else Scaled(n - 1, x) + x
  }

  lemma {:induction false} ScaledIsProduct(n: nat, x: real)
    ensures Scaled(n, x) == Product(n as real, x)
  {
    if n == 0 {
    } else {
      ScaledIsProduct(n - 1, x);
    }
  }

  lemma {:induction false} ScaledGrows(n: nat, m: nat, x: real)
    requires n <= m && x >= 0.0
    ensures Scaled(n, x) <= Scaled(m, x)
  {
    if n == m {
    } else {
      ScaledGrows(n, m - 1, x);
    }
  }

  /** All the waits of one call together. */
  lemma TotalWait(cfg: Config, waits: seq<real>)
    requires Sensible(cfg) && AreWaits(cfg, waits) && |waits| <= Attempts(cfg) - 1
    ensures Sum(waits) <= 1.3 * Product((Attempts(cfg) - 1) as real, cfg.maxInterval)
    ensures Sum(waits) <= 1.3 * Geometric(cfg, Attempts(cfg) - 1)
  {
    WaitsAddUp(cfg, waits);
    GeometricGrows(cfg, |waits|, Attempts(cfg) - 1);
    ScaledGrows(|waits|, Attempts(cfg) - 1, cfg.maxInterval);
    ScaledIsProduct(Attempts(cfg) - 1, cfg.maxInterval);
  }
}
