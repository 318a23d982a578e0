/** The delay between reconnection attempts. Durations are whole seconds and the multiplier is
    a rational number; scaling truncates to seconds. */
module Backoff {
  import opened MachineInts
  import IntegerCodec

  datatype ReconnectionConfig = ReconnectionConfig(
    enabled: bool, maxRetries: Uint16, initialBackoff: nat, maxBackoff: nat,
    multiplierNum: nat, multiplierDen: nat)
  {
    ghost predicate Valid() { multiplierDen > 0 }

    /** A first delay within the cap, and a multiplier of at least one. */
    ghost predicate Growing() {
      Valid() && initialBackoff <= maxBackoff && multiplierDen <= multiplierNum
    }
  }

  const DEFAULT_RECONNECTION: ReconnectionConfig := ReconnectionConfig(true, 0, 2, 300, 2, 1)

  function Scale(cfg: ReconnectionConfig, b: nat): nat
    requires cfg.Valid()
  {
    (b * cfg.multiplierNum) / cfg.multiplierDen
  }

  /** The rest of the loop, from delay b before its i-th round. */
  function BackoffFrom(cfg: ReconnectionConfig, b: nat, i: nat, attempts: nat): nat
    requires cfg.Valid()
    decreases if i < attempts then attempts - i else 0
  {
    if i >= attempts then b
    else if Scale(cfg, b) > cfg.maxBackoff then cfg.maxBackoff
    else BackoffFrom(cfg, Scale(cfg, b), i + 1, attempts)
  }

  function BackoffAfter(cfg: ReconnectionConfig, attempts: nat): nat
    requires cfg.Valid()
  {
    BackoffFrom(cfg, cfg.initialBackoff, 1, attempts)
  }

  method CalculateBackoff(cfg: ReconnectionConfig, attempts: Uint16) returns (backoff: nat)
    requires cfg.Valid()
    ensures backoff == BackoffAfter(cfg, attempts)
  {
    backoff := cfg.initialBackoff;
    var i: Uint16 := 1;
    while i < attempts
      invariant 1 <= i && (i > attempts ==> i == 1)
      invariant BackoffFrom(cfg, backoff, i, attempts) == BackoffAfter(cfg, attempts)
    {
      var nextBackoff := (backoff * cfg.multiplierNum) / cfg.multiplierDen;
      if nextBackoff > cfg.maxBackoff {
        backoff := cfg.maxBackoff;
        return;
      }
      backoff := nextBackoff;
      i := i + 1;
    }
  }

  // --- Laws ----------------------------------------------------------------

  /** The delay never exceeds the cap exactly when the first one does not. */
  lemma NeverAboveCap(cfg: ReconnectionConfig)
    requires cfg.Valid()
    ensures (forall n: nat :: BackoffAfter(cfg, n) <= cfg.maxBackoff) <==> cfg.initialBackoff <= cfg.maxBackoff
  {
    if cfg.initialBackoff <= cfg.maxBackoff {
      forall n: nat
        ensures BackoffAfter(cfg, n) <= cfg.maxBackoff
      {
        CappedFrom(cfg, cfg.initialBackoff, 1, n);
      }
    } else {
      assert BackoffAfter(cfg, 1) == cfg.initialBackoff;
    }
  }

  lemma {:induction false} CappedFrom(cfg: ReconnectionConfig, b: nat, i: nat, n: nat)
    requires cfg.Valid() && b <= cfg.maxBackoff
    ensures BackoffFrom(cfg, b, i, n) <= cfg.maxBackoff
    decreases if i < n then n - i else 0
  {
    if i < n && Scale(cfg, b) <= cfg.maxBackoff {
      CappedFrom(cfg, Scale(cfg, b), i + 1, n);
    }
  }

  /** One round of growth under the cap. */
  function Grow(cfg: ReconnectionConfig, b: nat): nat
    requires cfg.Valid()
  {
    if Scale(cfg, b) > cfg.maxBackoff then cfg.maxBackoff else Scale(cfg, b)
  }

  /** Scaling is multiplication by the rational multiplier, cut to whole seconds once. */
  lemma ScaleExactly(cfg: ReconnectionConfig, b: nat, q: nat)
    requires cfg.Valid()
    ensures Scale(cfg, b) == q <==>
            q * cfg.multiplierDen <= b * cfg.multiplierNum < q * cfg.multiplierDen + cfg.multiplierDen
  {
    var n, d := b * cfg.multiplierNum, cfg.multiplierDen;
    assert n == d * (n / d) + n % d;
    if q * d <= n < q * d + d {
      IntegerCodec.QuotientUnique(n, d, q, n - q * d);
    }
  }

  lemma ScaleGrows(cfg: ReconnectionConfig, b: nat)
    requires cfg.Growing()
    ensures b <= Scale(cfg, b)
  {
    var extra := cfg.multiplierNum - cfg.multiplierDen;
    IntegerCodec.Distribute(b, cfg.multiplierDen, extra);
    assert b * extra >= 0;
    DivLower(b * cfg.multiplierNum, cfg.multiplierDen, b);
  }

  lemma DivLower(n: nat, d: nat, b: nat)
    requires d > 0 && b * d <= n
    ensures b <= n / d
  {
    var q := n / d;
    if q < b {
      IntegerCodec.Distribute(d, b, q);
      IntegerCodec.AtLeastOnce(d, b - q);
    }
  }

  /** For a growing configuration leaving the loop early loses nothing: the delay after one more
      attempt is one more round of growth. */
  lemma {:induction false} NextDelay(cfg: ReconnectionConfig, b: nat, i: nat, n: nat)
    requires cfg.Growing() && b <= cfg.maxBackoff && i <= n
    ensures BackoffFrom(cfg, b, i, n + 1) == Grow(cfg, BackoffFrom(cfg, b, i, n))
    decreases n - i
  {
    if i < n {
      if Scale(cfg, b) > cfg.maxBackoff {
        ScaleGrows(cfg, cfg.maxBackoff);
      } else {
        NextDelay(cfg, Scale(cfg, b), i + 1, n);
      }
    } else {
      assert BackoffFrom(cfg, b, i, n) == b;
      assert Scale(cfg, b) <= cfg.maxBackoff ==> BackoffFrom(cfg, Scale(cfg, b), i + 1, n + 1) == Scale(cfg, b);
    }
  }

  /** Delays never shrink from one attempt to a later one, and stay at the cap once there. */
  lemma {:induction false} DelaysGrow(cfg: ReconnectionConfig, m: nat, n: nat)
    requires cfg.Growing() && m <= n
    ensures BackoffAfter(cfg, m) <= BackoffAfter(cfg, n) <= cfg.maxBackoff
    ensures BackoffAfter(cfg, m) == cfg.maxBackoff ==> BackoffAfter(cfg, n) == cfg.maxBackoff
    decreases n
  {
    CappedFrom(cfg, cfg.initialBackoff, 1, n);
    if m < n {
      DelaysGrow(cfg, m, n - 1);
      if n > 1 {
        NextDelay(cfg, cfg.initialBackoff, 1, n - 1);
        ScaleGrows(cfg, BackoffAfter(cfg, n - 1));
      }
    }
  }

  function Pow2(n: nat): nat {
    if n == 0 then 1 else 2 * Pow2(n - 1)
  }

  /** With the default configuration the n-th delay is 2^n seconds, cut at five minutes. */
  lemma {:induction false} DefaultDelays(n: nat)
    requires n >= 1
    ensures BackoffAfter(DEFAULT_RECONNECTION, n) == if Pow2(n) > 300 then 300 else Pow2(n)
  {
    if n == 1 {
      assert Pow2(1) == 2;
    } else {
      DefaultDelays(n - 1);
      NextDelay(DEFAULT_RECONNECTION, 2, 1, n - 1);
      DoubleScale(BackoffAfter(DEFAULT_RECONNECTION, n - 1));
    }
  }

  lemma DoubleScale(b: nat)
    ensures Scale(DEFAULT_RECONNECTION, b) == 2 * b
  {
  }

  /** The attempt counter has 16 bits; its 65536th value is zero. */
  function AttemptNumber(k: nat): Uint16 {
    k % TWO_TO_16
  }

  /** The delays after the first k attempts of an outage together. */
  function TotalBackoff(cfg: ReconnectionConfig, k: nat): nat
    requires cfg.Valid()
  {
    if k == 0 then 0 else TotalBackoff(cfg, k - 1) + BackoffAfter(cfg, AttemptNumber(k))
  }

  /** A delay that scaling leaves alone stays for good. */
  lemma {:induction false} StaysPut(cfg: ReconnectionConfig, b: nat, i: nat, n: nat)
    requires cfg.Valid() && Scale(cfg, b) == b <= cfg.maxBackoff
    ensures BackoffFrom(cfg, b, i, n) == b
    decreases if i < n then n - i else 0
  {
    if i < n {
      StaysPut(cfg, b, i + 1, n);
    }
  }

  /** The first delay is below the cap and long enough for scaling to lengthen it. */
  predicate Lengthens(cfg: ReconnectionConfig)
    requires cfg.Valid()
  {
    cfg.initialBackoff < cfg.maxBackoff && cfg.initialBackoff < Scale(cfg, cfg.initialBackoff)
  }

  lemma EverLonger(cfg: ReconnectionConfig, n: nat)
    requires cfg.Growing() && n >= 2
    ensures cfg.initialBackoff < BackoffAfter(cfg, n) <==> Lengthens(cfg)
  {
    CappedFrom(cfg, cfg.initialBackoff, 1, n);
    ScaleGrows(cfg, cfg.initialBackoff);
    if Lengthens(cfg) {
      NextDelay(cfg, cfg.initialBackoff, 1, 1);
      DelaysGrow(cfg, 2, n);
    } else if cfg.initialBackoff < cfg.maxBackoff {
      StaysPut(cfg, cfg.initialBackoff, 1, n);
    }
  }

  /** Over an outage of any length the delay shrinks from one attempt to the next exactly where the
      16-bit counter wraps to zero, and there exactly when the first delay is below the cap and
      scaling lengthens it. */
  lemma CounterWrapRestartsDelays(cfg: ReconnectionConfig, k: nat)
    requires cfg.Growing()
    ensures BackoffAfter(cfg, AttemptNumber(k + 1)) < BackoffAfter(cfg, AttemptNumber(k)) <==>
            (k + 1) % TWO_TO_16 == 0 && Lengthens(cfg)
  {
    if (k + 1) % TWO_TO_16 == 0 {
      assert AttemptNumber(k) == 65535;
      EverLonger(cfg, 65535);
    } else {
      assert AttemptNumber(k + 1) == AttemptNumber(k) + 1;
      DelaysGrow(cfg, AttemptNumber(k), AttemptNumber(k + 1));
    }
  }
}
