/**
 Bounded retries (crates/pocox-account-proto/src/params.rs, `RetryBackoff` and
 `BoundedRetry`). Durations are milliseconds.
 */
module Retry {
  import opened Text

  const BACKOFF_MIN: nat := 100
  const U32_MAX: nat := 0xFFFF_FFFF
  const U64: nat := 0x1_0000_0000_0000_0000

  type U32 = n: nat | n <= U32_MAX

  function Min(a: nat, b: nat): nat { if a <= b then a else b }

  function Pow2(n: nat): (p: nat)
    ensures p > 0
  {
    if n == 0 then 1 else 2 * Pow2(n - 1)
  }

  /** The cap as the 64-bit number of milliseconds it is read as. */
  function Cap(max: nat): nat { max % U64 }

  /** The delay after this many earlier failures. */
  function Delay(failures: nat, max: nat): nat { Min(BACKOFF_MIN * Pow2(Min(failures, 10)), Cap(max)) }

  lemma {:induction false} Pow2Grows(a: nat, b: nat)
    requires a <= b
    ensures Pow2(a) <= Pow2(b)
  {
    if a == b {
    } else {
      Pow2Grows(a, b - 1);
    }
  }

  /** Delays never shrink, stay within the cap, and double until a bound is met. */
  lemma {:induction false} DelayCurve(a: nat, b: nat, max: nat)
    requires a <= b
    ensures Delay(a, max) <= Delay(b, max) <= Cap(max)
    ensures a < 10 && 2 * Delay(a, max) <= Cap(max) ==> Delay(a + 1, max) == 2 * Delay(a, max)
    ensures a == 0 ==> Delay(a, max) == Min(BACKOFF_MIN, Cap(max))
    ensures a >= 10 ==> Delay(b, max) == Delay(a, max)
  {
    Pow2Grows(Min(a, 10), Min(b, 10));
    if a < 10 {
      assert Pow2(Min(a + 1, 10)) == 2 * Pow2(Min(a, 10));
    }
  }

  class RetryBackoff {
    var failures: U32
    const max: nat

    constructor (max: nat)
      ensures failures == 0 && this.max == max
    {
      failures, this.max := 0, max;
    }

    method NextDelay() returns (d: nat)
      modifies this
      ensures d == Delay(old(failures), max)
      ensures failures == if old(failures) < 0xFFFF_FFFF then old(failures) + 1 else 0xFFFF_FFFF
    {
      var shift := Min(failures, 10);
      d := Min(BACKOFF_MIN * Pow2(shift), Cap(max));
      failures := Min(failures + 1, U32_MAX);
    }

    method Reset()
      modifies this
      ensures failures == 0
    {
      failures := 0;
    }
  }

  /** What the `k`-th failed attempt is told, from zero. */
  function Outcome(k: nat, budget: nat, max: nat): Option<nat> {
    if k + 1 < budget then Some(Delay(k, max)) else None
  }

  class BoundedRetry {
    const backoff: RetryBackoff
    var attempt: U32
    const maxAttempts: U32
    /** Attempts failed so far, not bounded by the counter's width. */
    ghost var failed: nat

    ghost predicate Valid()
      reads this, backoff
    {
      && attempt == Min(failed, U32_MAX)
      && backoff.failures == Min(failed, if maxAttempts > 0 then maxAttempts - 1 else 0)
    }

    constructor (maxAttempts: U32, max: nat)
      ensures Valid() && fresh(backoff) && failed == 0
      ensures this.maxAttempts == maxAttempts && backoff.max == max
    {
      backoff := new RetryBackoff(max);
      attempt, this.maxAttempts, failed := 0, maxAttempts, 0;
    }

    /** `fail`: the curve's next delay while the budget lasts, and a refusal
        on every failure from the last of the budget on. */
    method Fail() returns (d: Option<nat>)
      requires Valid()
      modifies this, backoff
      ensures Valid() && failed == old(failed) + 1
      ensures d == Outcome(old(failed), maxAttempts, backoff.max)
    {
      failed := failed + 1;
      attempt := Min(attempt + 1, U32_MAX);
      if attempt >= maxAttempts {
        return None;
      }
      var delay := backoff.NextDelay();
      return Some(delay);
    }
  }

  /** How many of the first `calls` failures are told to wait. */
  function Waits(calls: nat, budget: nat, max: nat): nat {
    if calls == 0 then 0
    else Waits(calls - 1, budget, max) + if Outcome(calls - 1, budget, max).Some? then 1 else 0
  }

  /** A budget of n gives exactly its n - 1 waits, however long it is driven. */
  lemma {:induction false} BudgetSpent(calls: nat, budget: nat, max: nat)
    requires budget > 0
    ensures Waits(calls, budget, max) == Min(calls, budget - 1)
  {
    if calls == 0 {
    } else {
      BudgetSpent(calls - 1, budget, max);
    }
  }

  /** Once refused, always refused; until then the waits never shrink. */
  lemma {:induction false} OutcomesOrdered(i: nat, j: nat, budget: nat, max: nat)
    requires i <= j
    ensures Outcome(i, budget, max).None? ==> Outcome(j, budget, max).None?
    ensures Outcome(j, budget, max).Some? ==>
              Outcome(i, budget, max).Some? && Outcome(i, budget, max).value <= Outcome(j, budget, max).value
  {
    DelayCurve(i, j, max);
  }

  /** The curve in milliseconds: 100, then twice as much each time, up to 102400
      and never above the cap. */
  lemma {:induction false} DelayValues(k: nat, max: nat)
    requires max < 0x1_0000_0000_0000_0000
    ensures Delay(0, max) == if max < 100 then max else 100
    ensures k >= 10 ==> Delay(k, max) == if max < 102400 then max else 102400
    ensures Delay(k, max) <= max
    ensures k < 10 && 2 * Delay(k, max) <= max ==> Delay(k + 1, max) == 2 * Delay(k, max)
    ensures k < 10 && 2 * Delay(k, max) > max ==> Delay(k + 1, max) == max
    ensures Delay(k, max + 0x1_0000_0000_0000_0000) == Delay(k, max)
  {
    DelayCurve(k, k + 1, max);
    assert Pow2(5) == 32;
    assert Pow2(10) == 1024 by { assert Pow2(8) == 256; }
    if k < 10 {
      assert Pow2(k + 1) == 2 * Pow2(k);
    }
  }

  /** The failure numbered from zero waits exactly while another attempt is left,
      and as long as the curve says. */
  lemma {:induction false} OutcomeIff(k: nat, budget: nat, max: nat)
    ensures Outcome(k, budget, max).Some? <==> k + 1 < budget
    ensures k + 1 < budget ==> Outcome(k, budget, max) == Some(Delay(k, max))
  {
  }
}
