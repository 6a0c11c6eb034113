/** Restart policies and the exponential backoff between restarts, over the reals. */
module Backoff {
  import opened Options
  import opened Reals
  import opened Widths

  type Seconds = r: real | r >= 0.0

  datatype ExitReason = Graceful | Signal | Error | ResourceExhausted | PolicyViolation {
    predicate IsFailure() {
      Error? || ResourceExhausted?
    }
  }

  datatype BackoffConfig = BackoffConfig(initial: Seconds, max: Seconds, multiplier: real, maxRetries: Uint32)

  datatype RestartPolicy = Never | Always | OnFailure | MaxRetries(max: Uint32) | WithBackoff(config: BackoffConfig)

  // ----- powers

  function Pow(m: real, n: nat): real {
    if n == 0 then 1.0 else m * Pow(m, n - 1)
  }

  /** `restart_count as i32`: counts from 2^31 on turn negative. */
  function AsI32(n: Uint32): int {
    if n < 0x8000_0000 then n else n - U32
  }

  function Product(a: real, b: real): real {
    a * b
  }

  /** `m.powi(k)`. */
  function Powi(m: real, k: int): real
    requires k >= 0 || Pow(m, -k) != 0.0
  {
    if k >= 0 then Pow(m, k) else 1.0 / Pow(m, -k)
  }

  function Min(a: real, b: real): real {
    if a <= b then a else b
  }

  // ----- signs and orders of products

  lemma Scaled(n: real, a: real, b: real)
    requires n >= 0.0 && a <= b
    ensures Product(n, a) <= Product(n, b)
  {}

  lemma Units(a: real)
    ensures Product(a, 1.0) == a && Product(1.0, a) == a && Product(a, 0.0) == 0.0
  {}

  lemma {:induction false} PowPositive(m: real, n: nat)
    requires m > 0.0
    ensures Pow(m, n) > 0.0
  {
    if n == 0 {
    } else {
      PowPositive(m, n - 1);
      ProductSign(m, Pow(m, n - 1));
    }
  }

  lemma {:induction false} PowGrows(m: real, n: nat)
    requires m >= 1.0
    ensures Pow(m, n) >= 1.0
    ensures Pow(m, n + 1) >= Pow(m, n)
  {
    if n == 0 {
    } else {
      PowGrows(m, n - 1);
    }
    assert Pow(m, n + 1) == Product(Pow(m, n), m);
    Scaled(Pow(m, n), 1.0, m);
    Units(Pow(m, n));
  }

  lemma {:induction false} PowSign(m: real, n: nat)
    requires m < 0.0
    ensures if n % 2 == 0 then Pow(m, n) > 0.0 else Pow(m, n) < 0.0
  {
    if n == 0 {
    } else {
      PowSign(m, n - 1);
      var p := Pow(m, n - 1);
      if p > 0.0 {
        ProductSign(-m, p);
        assert m * p == -((-m) * p);
      } else {
        ProductSign(-m, -p);
        assert m * p == (-m) * (-p);
      }
    }
  }

  // ----- the delay

  /** The delay before a restart, or None where the conversion to a duration panics. */
  function DelayFor(cfg: BackoffConfig, count: Uint32): (r: Option<real>)
  {
    var k := AsI32(count);
    var m := cfg.multiplier;
    // A zero multiplier to a negative power is infinite, and the minimum ignores a NaN.
    if k < 0 && Pow(m, -k) == 0.0 then Some(cfg.max)
    else
      var clamped := Min(Product(cfg.initial, Powi(m, k)), cfg.max);
      if clamped < 0.0 then None else Some(clamped)
  }

  lemma Reciprocal(p: real)
    requires p != 0.0
    ensures p * (1.0 / p) == 1.0
    ensures p > 0.0 <==> 1.0 / p > 0.0
  {}

  lemma FactorSign(a: real, b: real)
    requires a >= 0.0 && b != 0.0
    ensures Product(a, b) < 0.0 <==> a > 0.0 && b < 0.0
  {
    if a > 0.0 {
      if b < 0.0 {
        ProductSign(a, -b);
        assert a * b == -(a * -b);
      } else {
        ProductSign(a, b);
      }
    } else {
      assert a * b == 0.0;
    }
  }

  lemma {:induction false} PowOfZero(n: nat)
    requires n > 0
    ensures Pow(0.0, n) == 0.0
  {}

  /** The delay panics exactly for a negative multiplier, a positive initial delay and an odd
      count; otherwise it never exceeds the maximum. */
  lemma DelayPanicsIff(cfg: BackoffConfig, count: Uint32)
    ensures DelayFor(cfg, count) == None <==> cfg.multiplier < 0.0 && cfg.initial > 0.0 && count % 2 == 1
    ensures DelayFor(cfg, count).Some? ==> 0.0 <= DelayFor(cfg, count).value <= cfg.max
  {
    var k, m := AsI32(count), cfg.multiplier;
    var n := if k >= 0 then k else -k;
    assert n % 2 == count % 2;
    var p := Pow(m, n);
    if m < 0.0 {
      PowSign(m, n);
    } else if m > 0.0 {
      PowPositive(m, n);
    } else if n > 0 {
      PowOfZero(n);
    }
    if p != 0.0 {
      Reciprocal(p);
      FactorSign(cfg.initial, Powi(m, k));
    } else if k >= 0 {
      Units(cfg.initial);
    }
  }

  /** For counts below 2^31, in closed form. */
  function Delay(cfg: BackoffConfig, n: nat): real {
    Min(Product(cfg.initial, Pow(cfg.multiplier, n)), cfg.max)
  }

  lemma DelayIsClosedForm(cfg: BackoffConfig, count: Uint32)
    requires cfg.multiplier >= 0.0 && count < 0x8000_0000
    ensures DelayFor(cfg, count) == Some(Delay(cfg, count))
  {
    DelayPanicsIff(cfg, count);
  }

  lemma MinStep(m: real, e: real, max: real)
    requires m >= 1.0 && e >= 0.0 && max >= 0.0
    ensures Min(Product(m, e), max) == Min(Product(m, Min(e, max)), max)
    ensures 0.0 <= Min(e, max) <= Min(Product(m, e), max)
  {
    Scaled(e, 1.0, m);
    Units(e);
    assert Product(e, m) == Product(m, e);
    Scaled(max, 1.0, m);
    Units(max);
    assert Product(max, m) == Product(m, max);
    if e > max {
      Scaled(m, max, e);
    }
  }

  /** The closed form is the capped recurrence. */
  lemma CappedRecurrence(cfg: BackoffConfig, n: nat)
    requires cfg.multiplier >= 1.0
    ensures Delay(cfg, 0) == Min(cfg.initial, cfg.max)
    ensures Delay(cfg, n + 1) == Min(Product(cfg.multiplier, Delay(cfg, n)), cfg.max)
    ensures 0.0 <= Delay(cfg, n) <= Delay(cfg, n + 1)
  {
    var m, p := cfg.multiplier, Pow(cfg.multiplier, n);
    PowGrows(m, n);
    Units(cfg.initial);
    Scaled(cfg.initial, 0.0, p);
    Reassociate(cfg.initial, m, p);
    MinStep(m, Product(cfg.initial, p), cfg.max);
  }

  lemma Reassociate(a: real, m: real, p: real)
    ensures Product(a, m * p) == Product(m, Product(a, p))
  {}

  /** Delays never decrease, and stay at the maximum once they have reached it. */
  lemma {:induction false} DelaysIncrease(cfg: BackoffConfig, i: nat, n: nat)
    requires cfg.multiplier >= 1.0 && i <= n
    ensures Delay(cfg, i) <= Delay(cfg, n)
    ensures Delay(cfg, i) == cfg.max ==> Delay(cfg, n) == cfg.max
  {
    if i == n {
    } else {
      DelaysIncrease(cfg, i, n - 1);
      CappedRecurrence(cfg, n - 1);
    }
  }

  // ----- from count 2^31 on

  /** The delay with a positive multiplier, for every count. */
  lemma DelayIsPower(cfg: BackoffConfig, count: Uint32)
    requires cfg.multiplier > 0.0
    ensures AsI32(count) >= 0 || Pow(cfg.multiplier, -AsI32(count)) != 0.0
    ensures Powi(cfg.multiplier, AsI32(count)) > 0.0
    ensures Product(cfg.initial, Powi(cfg.multiplier, AsI32(count))) >= 0.0
    ensures DelayFor(cfg, count) == Some(Min(Product(cfg.initial, Powi(cfg.multiplier, AsI32(count))), cfg.max))
  {
    var k := AsI32(count);
    var p := Pow(cfg.multiplier, if k >= 0 then k else -k);
    PowPositive(cfg.multiplier, if k >= 0 then k else -k);
    Reciprocal(p);
    FactorSign(cfg.initial, Powi(cfg.multiplier, k));
    DelayPanicsIff(cfg, count);
  }

  /** The exponent is negative there: the delay is the initial one divided, not multiplied, by
      a power, and for a growing delay at most the initial one. */
  lemma WrappedDelay(cfg: BackoffConfig, count: Uint32)
    requires cfg.multiplier > 0.0 && count >= 0x8000_0000
    ensures var p := Pow(cfg.multiplier, U32 - count);
            p > 0.0 && DelayFor(cfg, count) == Some(Min(Product(cfg.initial, 1.0 / p), cfg.max))
    ensures cfg.multiplier >= 1.0 ==> DelayFor(cfg, count).value <= cfg.initial
  {
    DelayIsPower(cfg, count);
    var p := Pow(cfg.multiplier, U32 - count);
    assert -AsI32(count) == U32 - count;
    PowPositive(cfg.multiplier, U32 - count);
    if cfg.multiplier >= 1.0 {
      PowGrows(cfg.multiplier, U32 - count);
      ReciprocalOrder(p);
      Scaled(cfg.initial, 1.0 / p, 1.0);
      Units(cfg.initial);
    }
  }

  lemma ReciprocalOrder(p: real)
    requires p > 0.0
    ensures p >= 1.0 ==> 1.0 / p <= 1.0
    ensures p <= 1.0 ==> 1.0 / p >= 1.0
    ensures p > 1.0 ==> 1.0 / p < 1.0
  {}

  /** One more restart multiplies the uncapped delay, with positive and negative exponents. */
  lemma PowerStep(m: real, k: int)
    requires m > 0.0
    ensures k >= 0 || Pow(m, -k) != 0.0
    ensures k + 1 >= 0 || Pow(m, -(k + 1)) != 0.0
    ensures Powi(m, k + 1) == m * Powi(m, k)
  {
    if k < 0 {
      PowPositive(m, -k);
      PowPositive(m, -k - 1);
      ReciprocalStep(m, Pow(m, -k - 1));
      assert Pow(m, -k) == m * Pow(m, -k - 1);
    }
  }

  lemma ReciprocalStep(m: real, p: real)
    requires m > 0.0 && p > 0.0
    ensures m * p != 0.0 && 1.0 / p == m * (1.0 / (m * p))
  {
    ProductSign(m, p);
    var x := 1.0 / (m * p);
    Reciprocal(m * p);
    assert p * (m * x) == 1.0;
  }

  /** Where the exponent does not wrap, a step multiplies the uncapped delay `e`. */
  lemma UncappedStep(cfg: BackoffConfig, n: Uint32) returns (e: real)
    requires cfg.multiplier > 0.0 && n + 1 < U32 && n + 1 != 0x8000_0000
    ensures AsI32(n + 1) >= 0 || Pow(cfg.multiplier, -AsI32(n + 1)) != 0.0
    ensures e >= 0.0 && Product(cfg.initial, Powi(cfg.multiplier, AsI32(n + 1))) == Product(cfg.multiplier, e)
    ensures DelayFor(cfg, n) == Some(Min(e, cfg.max))
    ensures DelayFor(cfg, n + 1) == Some(Min(Product(cfg.multiplier, e), cfg.max))
  {
    var m, k := cfg.multiplier, AsI32(n);
    DelayIsPower(cfg, n);
    DelayIsPower(cfg, n + 1);
    PowerStep(m, k);
    Reassociate(cfg.initial, m, Powi(m, k));
    e := Product(cfg.initial, Powi(m, k));
  }

  /** The delays that start at 2^31 grow again. */
  lemma {:induction false} WrappedDelaysIncrease(cfg: BackoffConfig, i: Uint32, n: Uint32)
    requires cfg.multiplier >= 1.0 && 0x8000_0000 <= i <= n
    ensures DelayFor(cfg, i).Some? && DelayFor(cfg, n).Some?
    ensures DelayFor(cfg, i).value <= DelayFor(cfg, n).value
    decreases n
  {
    if i == n {
      DelayIsPower(cfg, n);
    } else {
      WrappedDelaysIncrease(cfg, i, n - 1);
      var e := UncappedStep(cfg, n - 1);
      MinStep(cfg.multiplier, e, cfg.max);
    }
  }

  lemma {:induction false} PowStrict(m: real, n: nat)
    requires m >= 1.0
    ensures m == 1.0 ==> Pow(m, n) == 1.0
    ensures m > 1.0 && n > 0 ==> Pow(m, n) > 1.0
  {
    if n == 0 {
    } else {
      PowStrict(m, n - 1);
      PowGrows(m, n - 1);
      Scaled(m, 1.0, Pow(m, n - 1));
      Units(m);
      assert Pow(m, n) == Product(m, Pow(m, n - 1));
    }
  }

  lemma StrictlyScaled(a: real, b: real, c: real)
    requires a > 0.0 && b < c
    ensures Product(a, b) < Product(a, c)
  {
    ProductSign(a, c - b);
    assert a * c - a * b == a * (c - b);
  }

  /** The step from count 2^31 - 1 to 2^31 lowers the delay exactly under these conditions. */
  lemma DelayDropsIff(cfg: BackoffConfig)
    requires cfg.multiplier >= 1.0
    ensures DelayFor(cfg, 0x7fff_ffff).Some? && DelayFor(cfg, 0x8000_0000).Some?
    ensures Pow(cfg.multiplier, 0x8000_0000) != 0.0
    ensures DelayFor(cfg, 0x8000_0000).value < DelayFor(cfg, 0x7fff_ffff).value
       <==> cfg.multiplier > 1.0 && cfg.initial > 0.0
            && Product(cfg.initial, 1.0 / Pow(cfg.multiplier, 0x8000_0000)) < cfg.max
  {
    var m, n := cfg.multiplier, 0x8000_0000;
    WrappedDelay(cfg, n);
    DelayIsClosedForm(cfg, n - 1);
    PowStrict(m, n);
    PowStrict(m, n - 1);
    PowGrows(m, n - 1);
    var low, high := 1.0 / Pow(m, n), Pow(m, n - 1);
    ReciprocalOrder(Pow(m, n));
    if cfg.initial > 0.0 {
      if m > 1.0 {
        StrictlyScaled(cfg.initial, low, high);
      }
    } else {
      Units(0.0);
      assert 0.0 * low == 0.0 && 0.0 * high == 0.0;
    }
  }

  /** Every configuration and every count: the uncapped delay, whose exponent is the count as a
      signed number; a zero multiplier to a negative power is beyond every maximum, and a
      negative delay has no duration. */
  lemma DelayInFull(cfg: BackoffConfig, count: Uint32)
    ensures count < 0x8000_0000 ==>
              var uncapped := Product(cfg.initial, Pow(cfg.multiplier, count));
              DelayFor(cfg, count) ==
              if uncapped < 0.0 then None else if uncapped <= cfg.max then Some(uncapped) else Some(cfg.max)
    ensures count >= 0x8000_0000 && cfg.multiplier == 0.0 ==> DelayFor(cfg, count) == Some(cfg.max)
    ensures count >= 0x8000_0000 && cfg.multiplier != 0.0 ==>
              var p := Pow(cfg.multiplier, 0x1_0000_0000 - count);
              && p != 0.0
              && var uncapped := Product(cfg.initial, 1.0 / p);
                 DelayFor(cfg, count) ==
                 if uncapped < 0.0 then None else if uncapped <= cfg.max then Some(uncapped) else Some(cfg.max)
  {
    if count >= 0x8000_0000 {
      var n := 0x1_0000_0000 - count;
      assert -AsI32(count) == n;
      if cfg.multiplier > 0.0 {
        PowPositive(cfg.multiplier, n);
      } else if cfg.multiplier < 0.0 {
        PowSign(cfg.multiplier, n);
      } else {
        PowOfZero(n);
      }
    }
  }

  // ----- how far the growth is exponential

  /** The promise that a delay is at least the multiplier times the one before. */
  predicate Exponential(cfg: BackoffConfig, n: Uint32)
    requires n + 1 < U32
  {
    var before, after := DelayFor(cfg, n), DelayFor(cfg, n + 1);
    before.Some? && after.Some? && after.value >= Product(cfg.multiplier, before.value)
  }

  lemma CappedStep(m: real, e: real, max: real)
    requires m >= 0.0 && e >= 0.0 && max >= 0.0
    ensures Min(Product(m, e), max) >= Product(m, Min(e, max)) <==> m <= 1.0 || max == 0.0 || Product(m, e) <= max
  {
    Units(e);
    Units(max);
    Units(m);
    assert Product(e, m) == Product(m, e) && Product(max, m) == Product(m, max);
    if m <= 1.0 {
      Scaled(e, m, 1.0);
      Scaled(max, m, 1.0);
      if e > max {
        Scaled(m, max, e);
      }
    } else {
      Scaled(e, 1.0, m);
      if max > 0.0 {
        StrictlyScaled(max, 1.0, m);
      }
    }
  }

  /** Where the exponent does not wrap, the step is the multiplication and the cap. */
  lemma OrdinaryStep(cfg: BackoffConfig, n: Uint32)
    requires cfg.multiplier > 0.0 && n + 1 < U32 && n + 1 != 0x8000_0000
    ensures AsI32(n + 1) >= 0 || Pow(cfg.multiplier, -AsI32(n + 1)) != 0.0
    ensures Exponential(cfg, n) <==>
              || cfg.multiplier <= 1.0 || cfg.max == 0.0
              || Product(cfg.initial, Powi(cfg.multiplier, AsI32(n + 1))) <= cfg.max
  {
    var e := UncappedStep(cfg, n);
    CappedStep(cfg.multiplier, e, cfg.max);
  }

  lemma {:induction false} PowShrinks(m: real, n: nat)
    requires 0.0 <= m <= 1.0
    ensures 0.0 <= Pow(m, n) <= 1.0
  {
    if n == 0 {
    } else {
      PowShrinks(m, n - 1);
      Scaled(m, 0.0, Pow(m, n - 1));
      Scaled(m, Pow(m, n - 1), 1.0);
      Units(m);
      assert Pow(m, n) == Product(m, Pow(m, n - 1));
    }
  }

  /** Where it wraps, a growing delay falls whether the maximum has been reached or not. */
  lemma WrappingStep(cfg: BackoffConfig)
    requires cfg.multiplier > 0.0
    ensures Exponential(cfg, 0x7fff_ffff) <==> cfg.multiplier <= 1.0 || cfg.max == 0.0 || cfg.initial == 0.0
  {
    var m, n := cfg.multiplier, 0x8000_0000;
    var high, q := Pow(m, n - 1), Pow(m, n);
    DelayIsPower(cfg, n - 1);
    WrappedDelay(cfg, n);
    ReciprocalOrder(q);
    var before, after := DelayFor(cfg, n - 1).value, DelayFor(cfg, n).value;
    Units(cfg.initial);
    Units(before);
    assert Product(before, m) == Product(m, before);
    if m <= 1.0 {
      PowShrinks(m, n);
      PowShrinks(m, n - 1);
      Scaled(cfg.initial, high, 1.0);
      Scaled(cfg.initial, 1.0, 1.0 / q);
      Scaled(before, m, 1.0);
    } else if cfg.initial == 0.0 {
      assert Product(0.0, high) == 0.0 && Product(0.0, 1.0 / q) == 0.0 && Product(m, 0.0) == 0.0;
    } else if cfg.max == 0.0 {
      FactorSign(cfg.initial, 1.0 / q);
      assert Product(m, 0.0) == 0.0;
    } else {
      PowStrict(m, n);
      PowGrows(m, n - 1);
      Scaled(cfg.initial, 1.0, high);
      StrictlyScaled(cfg.initial, 1.0 / q, 1.0);
      StrictlyScaled(before, 1.0, m);
    }
  }

  /** For every configuration and every count with a successor: the promise holds exactly
      where nothing grows, or where the exponent does not wrap and the uncapped delay is
      within the maximum. */
  lemma ExponentialIff(cfg: BackoffConfig, n: Uint32)
    requires n + 1 < U32
    ensures cfg.multiplier > 0.0 && AsI32(n + 1) < 0 ==> Pow(cfg.multiplier, -AsI32(n + 1)) != 0.0
    ensures Exponential(cfg, n) <==>
              if cfg.multiplier < 0.0 then cfg.initial == 0.0
              else
                || cfg.multiplier <= 1.0 || cfg.max == 0.0 || cfg.initial == 0.0
                || (n + 1 != 0x8000_0000 && Product(cfg.initial, Powi(cfg.multiplier, AsI32(n + 1))) <= cfg.max)
  {
    var m := cfg.multiplier;
    DelayPanicsIff(cfg, n);
    DelayPanicsIff(cfg, n + 1);
    if m > 0.0 {
      if n + 1 == 0x8000_0000 {
        PowPositive(m, n + 1);
        WrappingStep(cfg);
      } else {
        OrdinaryStep(cfg, n);
        assert cfg.initial == 0.0 ==> Product(cfg.initial, Powi(m, AsI32(n + 1))) == 0.0;
      }
    } else if DelayFor(cfg, n).Some? {
      Scaled(DelayFor(cfg, n).value, m, 0.0);
      Units(DelayFor(cfg, n).value);
      assert Product(DelayFor(cfg, n).value, m) == Product(m, DelayFor(cfg, n).value);
    }
  }

  /** It holds for all counts exactly where the delays do not grow. */
  lemma AlwaysExponentialIff(cfg: BackoffConfig)
    ensures (forall n: Uint32 | n + 1 < U32 :: Exponential(cfg, n)) <==>
              cfg.initial == 0.0 || (cfg.multiplier >= 0.0 && (cfg.multiplier <= 1.0 || cfg.max == 0.0))
  {
    ExponentialIff(cfg, 0x7fff_ffff);
    forall n: Uint32 | n + 1 < U32
      ensures cfg.initial == 0.0 || (cfg.multiplier >= 0.0 && (cfg.multiplier <= 1.0 || cfg.max == 0.0)) ==>
                Exponential(cfg, n)
    {
      ExponentialIff(cfg, n);
    }
  }

  lemma {:induction false} PowMonotone(m: real, i: nat, n: nat)
    requires m >= 1.0 && i <= n
    ensures Pow(m, i) <= Pow(m, n)
  {
    if i == n {
    } else {
      PowMonotone(m, i, n - 1);
      PowGrows(m, n - 1);
    }
  }

  const DEFAULT := BackoffConfig(1.0, 300.0, 2.0, 10)

  /** The default configuration doubles its delays up to 256 s, before the ninth restart, and
      then never again: the tenth waits 300 s. */
  lemma DefaultStopsDoubling(n: nat)
    requires n + 1 < 0x8000_0000
    ensures Exponential(DEFAULT, n) <==> n < 8
    ensures DelayFor(DEFAULT, 8) == Some(256.0) && DelayFor(DEFAULT, 9) == Some(300.0)
  {
    assert Pow(2.0, 4) == 16.0;
    assert Pow(2.0, 8) == 256.0;
    DelayIsClosedForm(DEFAULT, 8);
    DelayIsClosedForm(DEFAULT, 9);
    ExponentialIff(DEFAULT, n);
    if n < 8 {
      PowMonotone(2.0, n + 1, 8);
    } else {
      PowMonotone(2.0, 9, n + 1);
    }
  }

  /** A bound on powers close to 1. */
  lemma {:induction false} PowerOfOnePlus(x: real, n: nat)
    requires x >= 0.0
    ensures Pow(1.0 + x, n) >= 0.0
    ensures Product(Pow(1.0 + x, n), 1.0 - n as real * x) <= 1.0
  {
    if n == 0 {
    } else {
      PowerOfOnePlus(x, n - 1);
      PowPositive(1.0 + x, n);
      PowPositive(1.0 + x, n - 1);
      Times(n - 1, x);
      OnePlusStep(Pow(1.0 + x, n - 1), x, (n - 1) as real * x);
    }
  }

  lemma Times(n: nat, x: real)
    requires x >= 0.0
    ensures (n + 1) as real * x == n as real * x + x && n as real * x >= 0.0
  {}

  lemma OnePlusStep(p: real, x: real, y: real)
    requires p >= 0.0 && x >= 0.0 && y >= 0.0
    ensures Product((1.0 + x) * p, 1.0 - (y + x)) <= Product(p, 1.0 - y)
  {
    var z := x * (y + x);
    Scaled(x, 0.0, y + x);
    Units(x);
    assert (1.0 + x) * (1.0 - (y + x)) == 1.0 - y - z;
    Scaled(p, 1.0 - y - z, 1.0 - y);
    Regroup(p, 1.0 + x, 1.0 - (y + x));
  }

  lemma Regroup(p: real, a: real, b: real)
    ensures Product(p, a * b) == Product(a * p, b)
  {}

  lemma NearlyOne()
    ensures Pow(1.0000000001, 0x8000_0000) <= 2.0
  {
    PowerOfOnePlus(0.0000000001, 0x8000_0000);
    Halve(Pow(1.0000000001, 0x8000_0000), 1.0 - 0x8000_0000 as real * 0.0000000001);
  }

  lemma Halve(p: real, c: real)
    requires p >= 0.0 && c >= 0.5 && Product(p, c) <= 1.0
    ensures p <= 2.0
  {
    Scaled(p, 0.5, c);
  }

  /** The wrap is a failure of its own: with these delays the maximum is never reached, and
      still the delay drops at 2^31. */
  lemma UncappedDelayDrops()
    ensures var cfg := BackoffConfig(1.0, 10.0, 1.0000000001, 0xffff_ffff);
            && Product(cfg.initial, Pow(cfg.multiplier, 0x8000_0000)) <= cfg.max
            && !Exponential(cfg, 0x7fff_ffff)
            && DelayFor(cfg, 0x7fff_ffff).Some? && DelayFor(cfg, 0x8000_0000).Some?
            && DelayFor(cfg, 0x8000_0000).value < cfg.initial <= DelayFor(cfg, 0x7fff_ffff).value
  {
    var cfg := BackoffConfig(1.0, 10.0, 1.0000000001, 0xffff_ffff);
    var m, n := cfg.multiplier, 0x8000_0000;
    NearlyOne();
    WrappingStep(cfg);
    DelayIsClosedForm(cfg, n - 1);
    WrappedDelay(cfg, n);
    PowStrict(m, n);
    PowGrows(m, n - 1);
    ReciprocalOrder(Pow(m, n));
    Units(Pow(m, n));
    Units(Pow(m, n - 1));
    Units(1.0 / Pow(m, n));
  }

  // ----- restarts

  function ShouldRestart(policy: RestartPolicy, exit: ExitReason, count: nat): bool {
    match policy
    case Never => false
    case Always => true
    case OnFailure => exit.IsFailure()
    case MaxRetries(max) => count < max
    case WithBackoff(cfg) => count < cfg.maxRetries && exit.IsFailure()
  }

  /** `restart_delay`: one second, except with a backoff. */
  function RestartDelay(policy: RestartPolicy, count: Uint32): Option<real> {
    if policy.WithBackoff? then DelayFor(policy.config, count) else Some(1.0)
  }

  /** Every delay is that of the capped exponential with a backoff that has not wrapped, and one
      second with any other policy. */
  lemma RestartDelayIs(policy: RestartPolicy, count: Uint32)
    ensures !policy.WithBackoff? ==> RestartDelay(policy, count) == Some(1.0)
    ensures policy.WithBackoff? && policy.config.multiplier >= 0.0 && count < 0x8000_0000 ==>
              var uncapped := Product(policy.config.initial, Pow(policy.config.multiplier, count));
              RestartDelay(policy, count) == Some(if uncapped <= policy.config.max then uncapped else policy.config.max)
  {
    if policy.WithBackoff? && policy.config.multiplier >= 0.0 && count < 0x8000_0000 {
      DelayIsClosedForm(policy.config, count);
    }
  }

  /** The restarts granted to a daemon that exits for these reasons one after the other,
      when each restart increments the count. */
  function Restarts(policy: RestartPolicy, exits: seq<ExitReason>, count: nat): nat
    decreases |exits|
  {
    if exits == [] || !ShouldRestart(policy, exits[0], count) then 0
    else 1 + Restarts(policy, exits[1..], count + 1)
  }

  /** How many exits there are before the first that is not a failure. */
  function LeadingFailures(exits: seq<ExitReason>): nat {
    if exits == [] || exits[0] !in {Error, ResourceExhausted} then 0 else 1 + LeadingFailures(exits[1..])
  }

  function Least(a: int, b: int): int {
    if a <= b then a else b
  }

  /** Exactly how many restarts each policy grants. */
  lemma {:induction false} RestartsExactly(policy: RestartPolicy, exits: seq<ExitReason>, count: nat)
    ensures Restarts(policy, exits, count) ==
            match policy
            case Never => 0
            case Always => |exits|
            case OnFailure => LeadingFailures(exits)
            case MaxRetries(max) => if count <= max then Least(max - count, |exits|) else 0
            case WithBackoff(cfg) =>
              if count <= cfg.maxRetries then Least(cfg.maxRetries - count, LeadingFailures(exits)) else 0
    decreases |exits|
  {
    if exits == [] {
    } else {
      RestartsExactly(policy, exits[1..], count + 1);
    }
  }

  /** The time waited before `n` restarts, with counts from 0. */
  function TotalWait(cfg: BackoffConfig, n: nat): real
    requires n <= U32
  {
    if n == 0 then 0.0
    else
      var d := DelayFor(cfg, n - 1);
      TotalWait(cfg, n - 1) + if d.Some? then d.value else 0.0
  }

  function Geometric(m: real, n: nat): real {
    if n == 0 then 0.0 else Geometric(m, n - 1) + Pow(m, n - 1)
  }

  lemma {:induction false} GeometricSum(m: real, n: nat)
    ensures (m - 1.0) * Geometric(m, n) == Pow(m, n) - 1.0
  {
    if n == 0 {
    } else {
      GeometricSum(m, n - 1);
      var g, p := Geometric(m, n - 1), Pow(m, n - 1);
      assert (m - 1.0) * (g + p) == (m - 1.0) * g + m * p - p;
    }
  }

  /** No delay exceeds the maximum, nor the uncapped exponential wherever the exponent has not
      wrapped or the delays grow. */
  lemma DelayIsBounded(cfg: BackoffConfig, count: Uint32)
    requires cfg.multiplier >= 0.0
    ensures DelayFor(cfg, count).Some?
    ensures DelayFor(cfg, count).value <= cfg.max
    ensures count < 0x8000_0000 || cfg.multiplier >= 1.0 ==>
              DelayFor(cfg, count).value <= Product(cfg.initial, Pow(cfg.multiplier, count))
  {
    DelayPanicsIff(cfg, count);
    if count < 0x8000_0000 {
      DelayIsClosedForm(cfg, count);
    } else if cfg.multiplier >= 1.0 {
      WrappedDelay(cfg, count);
      PowGrows(cfg.multiplier, count);
      Scaled(cfg.initial, 1.0, Pow(cfg.multiplier, count));
      Units(cfg.initial);
    }
  }

  lemma Distribute(a: real, b: real, c: real, n: nat)
    ensures Product(a, b + c) == Product(a, b) + Product(a, c)
    ensures Product(a, (n + 1) as real) == Product(a, n as real) + a
  {}

  lemma {:induction false} TotalWaitBounds(cfg: BackoffConfig, n: nat)
    requires cfg.multiplier >= 0.0 && n <= U32
    ensures TotalWait(cfg, n) <= Product(cfg.max, n as real)
    ensures n <= 0x8000_0000 || cfg.multiplier >= 1.0 ==>
              TotalWait(cfg, n) <= Product(cfg.initial, Geometric(cfg.multiplier, n))
  {
    if n == 0 {
      Units(cfg.max);
      Units(cfg.initial);
    } else {
      TotalWaitBounds(cfg, n - 1);
      DelayIsBounded(cfg, n - 1);
      Distribute(cfg.max, 0.0, 0.0, n - 1);
      Distribute(cfg.initial, Geometric(cfg.multiplier, n - 1), Pow(cfg.multiplier, n - 1), 0);
    }
  }

  /** Whatever the exits, all the waiting that `WithBackoff` allows is bounded by both the
      capped and the geometric total. */
  lemma BackoffIsBounded(cfg: BackoffConfig, exits: seq<ExitReason>)
    requires cfg.multiplier >= 0.0
    ensures var n := Restarts(WithBackoff(cfg), exits, 0);
            && n <= cfg.maxRetries
            && TotalWait(cfg, n) <= Product(cfg.max, cfg.maxRetries as real)
            && (n <= 0x8000_0000 || cfg.multiplier >= 1.0 ==>
                  TotalWait(cfg, n) <= Product(cfg.initial, Geometric(cfg.multiplier, n)))
  {
    RestartsExactly(WithBackoff(cfg), exits, 0);
    var n := Restarts(WithBackoff(cfg), exits, 0);
    TotalWaitBounds(cfg, n);
    Scaled(cfg.max, n as real, cfg.maxRetries as real);
  }
}
