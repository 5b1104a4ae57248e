/**
 The wait before each attempt to reconnect: exponential, capped, and spread out by a jitter that
 never lengthens it.  Durations are whole numbers of nanoseconds.
 */
module Backoff {
  import opened Bytes
  import opened Common

  const U32_MAX: nat := 0xFFFF_FFFF
  const U64_SIZE: nat := 0x1_0000_0000_0000_0000
  const MILLI: nat := 1_000_000

  /** The longest duration there is: 2^64 - 1 seconds and the nanoseconds below one second. */
  const DURATION_MAX: nat := (U64_SIZE - 1) * 1_000_000_000 + 999_999_999

  type Duration = d: nat | d <= DURATION_MAX

  datatype RetryConfig = RetryConfig(initialDelay: Duration, maxDelay: Duration, maxAttempts: nat, jitter: bool)

  function SaturatingMul(d: Duration, k: nat): Duration {
    if d * k <= DURATION_MAX then d * k else DURATION_MAX
  }

  function Pow2(n: nat): (r: nat)
    ensures r > 0
  {
    if n == 0 then 1 else 2 * Pow2(n - 1)
  }

  /** `1u32.checked_shl(attempt)`, and the largest number where the shift is refused. */
  function Factor(attempt: nat): nat {
    if attempt < 32 then Pow2(attempt) else U32_MAX
  }

  /** The wait without jitter. */
  function BaseDelay(attempt: nat, config: RetryConfig): Duration {
    var base := SaturatingMul(config.initialDelay, Factor(attempt));
    if base < config.maxDelay then base else config.maxDelay
  }

  /** `as_millis() as u64`: the cast drops what does not fit. */
  function Millis(d: Duration): nat {
    d / MILLI % U64_SIZE
  }

  function WrappingMul(a: nat, b: nat): nat {
    a * b % U64_SIZE
  }

  function Jittered(ms: nat, attempt: nat): nat {
    ms / 2 + WrappingMul(ms / 2, attempt + 1) % (ms / 2 + 1)
  }

  lemma JitterRange(ms: nat, attempt: nat)
    ensures ms / 2 <= Jittered(ms, attempt) <= ms
  {
  }

  lemma MillisBelow(d: Duration)
    ensures Millis(d) * MILLI <= d
    ensures d / MILLI < U64_SIZE ==> Millis(d) == d / MILLI
  {
  }

  function BackoffDelay(attempt: nat, config: RetryConfig): (r: Duration)
    ensures r <= BaseDelay(attempt, config)
  {
    var delay := BaseDelay(attempt, config);
    if config.jitter then
      var ms := Millis(delay);
      JitterRange(ms, attempt);
      MillisBelow(delay);
      Jittered(ms, attempt) * MILLI
    else
      delay
  }

  lemma {:induction false} Pow2Grows(a: nat, b: nat)
    requires a <= b
    ensures Pow2(a) <= Pow2(b)
    decreases b
  {
    if a < b {
      Pow2Grows(a, b - 1);
    }
  }

  lemma FactorGrows(a: nat, b: nat)
    requires a <= b
    ensures Factor(a) <= Factor(b)
  {
    hide Pow2;
    if a < 32 {
      if b < 32 {
        Pow2Grows(a, b);
      } else {
        Pow2Grows(a, 31);
        Pow2Of31();
      }
    }
  }

  lemma Pow2Of31()
    ensures Pow2(31) == 0x8000_0000
  {
    assert Pow2(8) == 256;
    assert Pow2(16) == 0x1_0000;
    assert Pow2(24) == 0x100_0000;
  }

  lemma ProductGrows(d: nat, a: nat, b: nat)
    requires a <= b
    ensures d * a <= d * b
  {
  }

  /** Without jitter the waits never shrink from one attempt to the next, and never pass the cap. */
  lemma BaseDelayGrows(a: nat, b: nat, config: RetryConfig)
    requires a <= b
    ensures BaseDelay(a, config) <= BaseDelay(b, config) <= config.maxDelay
  {
    hide Factor;
    FactorGrows(a, b);
    ProductGrows(config.initialDelay, Factor(a), Factor(b));
  }

  /** The first wait is the initial one and each further one twice the one before, up to the cap. */
  lemma BaseDelayDoubles(attempt: nat, config: RetryConfig)
    ensures BaseDelay(0, config)
            == if config.initialDelay < config.maxDelay then config.initialDelay else config.maxDelay
    ensures attempt < 31 ==>
              BaseDelay(attempt + 1, config)
              == if 2 * BaseDelay(attempt, config) < config.maxDelay then 2 * BaseDelay(attempt, config)
                 else config.maxDelay
    ensures attempt >= 32 ==>
              BaseDelay(attempt, config)
              == if config.initialDelay * 0xFFFF_FFFF < config.maxDelay then config.initialDelay * 0xFFFF_FFFF
                 else config.maxDelay
  {
    if attempt < 31 {
      var d, p := config.initialDelay, Pow2(attempt);
      assert Factor(attempt) == p && Factor(attempt + 1) == 2 * p;
      assert d * (2 * p) == 2 * (d * p);
    }
    assert config.initialDelay * 1 == config.initialDelay;
  }

  /**
   The jitter takes one millisecond off per attempt: from twice half the milliseconds of the plain wait,
   as long as the attempt is not beyond that half and the product fits 64 bits.
   */
  lemma JitterShrinks(ms: nat, attempt: nat)
    requires attempt <= ms / 2 && ms / 2 * (attempt + 1) < U64_SIZE
    ensures Jittered(ms, attempt) == ms / 2 * 2 - attempt
  {
    var h := ms / 2;
    assert h * (attempt + 1) == (h + 1) * attempt + (h - attempt);
    RemainderUnique(h * (attempt + 1), h + 1, attempt, h - attempt);
    Small(h * (attempt + 1));
  }

  lemma Small(n: nat)
    requires n < U64_SIZE
    ensures n % U64_SIZE == n
  {
  }

  /**
   The jittered wait lies between half of the whole milliseconds of the plain wait and all of them;
   the cast of the milliseconds is exact for every cap below 2^64 milliseconds.
   */
  lemma JitteredDelayRange(attempt: nat, config: RetryConfig)
    requires config.jitter
    ensures var ms := Millis(BaseDelay(attempt, config));
            && ms / 2 * MILLI <= BackoffDelay(attempt, config) <= ms * MILLI
            && (config.maxDelay / MILLI < U64_SIZE ==> ms == BaseDelay(attempt, config) / MILLI)
  {
    hide BaseDelay, Jittered, Millis;
    var delay := BaseDelay(attempt, config);
    BaseDelayGrows(attempt, attempt, config);
    MillisBelow(delay);
    JitterRange(Millis(delay), attempt);
  }

  // ----- One outage -----

  /** All waits up to the given number of attempts. */
  function TotalWait(config: RetryConfig, attempts: nat): nat {
    if attempts == 0 then 0 else TotalWait(config, attempts - 1) + BackoffDelay(attempts - 1, config)
  }

  lemma {:induction false} TotalWaitBounded(config: RetryConfig, attempts: nat)
    ensures TotalWait(config, attempts) <= attempts * config.maxDelay
  {
    hide BackoffDelay;
    if attempts > 0 {
      TotalWaitBounded(config, attempts - 1);
      BaseDelayGrows(attempts - 1, attempts - 1, config);
      assert (attempts - 1) * config.maxDelay + config.maxDelay == attempts * config.maxDelay;
    }
  }

  /**
   The reconnection attempts of one outage: `connects(k)` says whether attempt `k` succeeds, and
   `cancelled(k)` how far into the wait before it the client is shut down, if it is.
   */
  method Reconnect(config: RetryConfig, connects: nat -> bool, cancelled: nat -> Option<nat>)
    returns (connected: bool, attempts: nat, waited: nat)
    ensures attempts <= config.maxAttempts
    ensures connected || attempts == config.maxAttempts ==> waited == TotalWait(config, attempts)
    ensures waited <= config.maxAttempts * config.maxDelay
    ensures connected ==> attempts > 0 && connects(attempts - 1)
    ensures forall k :: 0 <= k < (if connected then attempts - 1 else attempts) ==> !connects(k)
    ensures forall k :: 0 <= k < attempts && cancelled(k).Some? ==>
              cancelled(k).value > 0 && cancelled(k).value >= BackoffDelay(k, config)
    ensures !connected && attempts < config.maxAttempts ==>
              && cancelled(attempts).Some? && waited == TotalWait(config, attempts) + cancelled(attempts).value
              && (cancelled(attempts).value == 0 || cancelled(attempts).value < BackoffDelay(attempts, config))
  {
    hide BackoffDelay;
    connected, attempts, waited := false, 0, 0;
    while attempts < config.maxAttempts
      invariant attempts <= config.maxAttempts && waited == TotalWait(config, attempts)
      invariant forall k :: 0 <= k < attempts ==> !connects(k)
      invariant forall k :: 0 <= k < attempts && cancelled(k).Some? ==>
        cancelled(k).value > 0 && cancelled(k).value >= BackoffDelay(k, config)
    {
      if CutsShort(config, cancelled, attempts) {
        waited := waited + cancelled(attempts).value;
        WaitsBounded(config, attempts + 1);
        return;
      }
      waited := waited + BackoffDelay(attempts, config);
      attempts := attempts + 1;
      if connects(attempts - 1) {
        connected := true;
        break;
      }
    }
    WaitsBounded(config, attempts);
  }

  /** The shutdown comes before the wait is over, or before it begins. */
  predicate CutsShort(config: RetryConfig, cancelled: nat -> Option<nat>, k: nat) {
    cancelled(k).Some? && (cancelled(k).value == 0 || cancelled(k).value < BackoffDelay(k, config))
  }

  lemma WaitsBounded(config: RetryConfig, attempts: nat)
    requires attempts <= config.maxAttempts
    ensures TotalWait(config, attempts) <= config.maxAttempts * config.maxDelay
  {
    TotalWaitBounded(config, attempts);
    ProductGrows(config.maxDelay, attempts, config.maxAttempts);
  }
}
