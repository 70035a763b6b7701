/** The adaptive state of a consumer-group worker: its batch size and its error backoff. */
module WorkerState {
  import opened Backoff

  // ------------------------------------------------------------------------------------------
  // The batch-size controller
  // ------------------------------------------------------------------------------------------

  /** `ConsumerGroupState::adjust_batch_size`: full batches double the size, nearly empty ones halve it. */
  function Adjusted(size: nat, processed: nat, lo: nat, hi: nat): nat {
    if processed >= size then Min(size * 2, hi)
    else if processed < size / 4 && size > lo then Max(size / 2, lo)
    else size
  }

  /** `ConsumerGroupNodeState::adjust_batch_size`, which grows only below the maximum. */
  function NodeAdjusted(size: nat, processed: nat, lo: nat, hi: nat): nat {
    if processed >= size && size < hi then Min(size * 2, hi)
    else if processed < size / 4 && size > lo then Max(size / 2, lo)
    else size
  }

  /** The two controllers agree except when a size above the maximum is filled. */
  lemma ControllersAgree(size: nat, processed: nat, lo: nat, hi: nat)
    ensures Adjusted(size, processed, lo, hi) == NodeAdjusted(size, processed, lo, hi) <==> size <= hi || processed < size
  {
  }

  /** From a valid configuration the size never leaves its bounds, so below 2^63 the doubling fits 64 bits. */
  lemma AdjustedStaysInBounds(size: nat, processed: nat, lo: nat, hi: nat)
    requires lo <= size <= hi
    ensures lo <= Adjusted(size, processed, lo, hi) <= hi
    ensures hi < 0x8000_0000_0000_0000 ==> size * 2 < 0x1_0000_0000_0000_0000
  {
  }

  /** A step is a doubling or a halving, cut off at the bound; which of them, and whether at all, depends on the load. */
  lemma StepIsAFactorOfTwo(size: nat, processed: nat, lo: nat, hi: nat)
    requires lo <= size <= hi
    ensures var next := Adjusted(size, processed, lo, hi);
            && (next > size <==> processed >= size && 0 < size < hi)
            && (next > size ==> next == 2 * size || (next == hi && hi < 2 * size))
            && (next < size <==> 4 * processed + 4 <= size && size > lo)
            && (next < size ==> 2 * next == size || 2 * next + 1 == size || (next == lo && size < 2 * lo))
  {
  }

  /** The size after `n` sweeps that all process the same amount. */
  function UnderLoad(size: nat, load: nat, lo: nat, hi: nat, n: nat): nat
    decreases n
  {
    if n == 0 then size else UnderLoad(Adjusted(size, load, lo, hi), load, lo, hi, n - 1)
  }

  predicate Settled(size: nat, load: nat, lo: nat, hi: nat) {
    Adjusted(size, load, lo, hi) == size
  }

  lemma {:induction false} SettledStays(size: nat, load: nat, lo: nat, hi: nat, n: nat)
    requires Settled(size, load, lo, hi)
    ensures UnderLoad(size, load, lo, hi, n) == size
  {
    if n > 0 { SettledStays(size, load, lo, hi, n - 1); }
  }

  /** A step never turns round: after growing the size grows or rests, after shrinking it shrinks or rests. */
  lemma NoTurningBack(size: nat, load: nat, lo: nat, hi: nat)
    requires lo <= size <= hi
    ensures var next := Adjusted(size, load, lo, hi);
            && (next > size ==> Adjusted(next, load, lo, hi) >= next)
            && (next < size ==> Adjusted(next, load, lo, hi) <= next)
  {
  }

  /** Under a constant load the size moves one way only. */
  lemma {:induction false} MovesOneWay(size: nat, load: nat, lo: nat, hi: nat, n: nat)
    requires lo <= size <= hi
    ensures var first := Adjusted(size, load, lo, hi);
            && (first >= size ==> size <= UnderLoad(size, load, lo, hi, n) <= UnderLoad(size, load, lo, hi, n + 1))
            && (first <= size ==> size >= UnderLoad(size, load, lo, hi, n) >= UnderLoad(size, load, lo, hi, n + 1))
    decreases n
  {
    var first := Adjusted(size, load, lo, hi);
    if first == size {
      SettledStays(size, load, lo, hi, n);
      SettledStays(size, load, lo, hi, n + 1);
    } else if n > 0 {
      NoTurningBack(size, load, lo, hi);
      MovesOneWay(first, load, lo, hi, n - 1);
    } else {
      assert UnderLoad(size, load, lo, hi, 1) == UnderLoad(first, load, lo, hi, 0) == first;
    }
  }

  lemma {:induction false} GrowthSettles(size: nat, load: nat, lo: nat, hi: nat, n: nat)
    requires 1 <= size && lo <= size <= hi && load >= size && size * Pow2(n) > hi
    ensures Settled(UnderLoad(size, load, lo, hi, n), load, lo, hi)
    decreases n
  {
    if n > 0 {
      var next := Adjusted(size, load, lo, hi);
      if next == size * 2 && load >= next {
        assert next * Pow2(n - 1) == size * Pow2(n);
        GrowthSettles(next, load, lo, hi, n - 1);
      } else {
        SettledStays(next, load, lo, hi, n - 1);
      }
    }
  }

  lemma {:induction false} ShrinkingSettles(size: nat, load: nat, lo: nat, hi: nat, n: nat)
    requires lo <= size <= hi && load < size && Pow2(n) > size
    ensures Settled(UnderLoad(size, load, lo, hi, n), load, lo, hi)
    decreases n
  {
    var next := Adjusted(size, load, lo, hi);
    if n > 0 && next < size && next > lo {
      ShrinkingSettles(next, load, lo, hi, n - 1);
    } else if n > 0 {
      SettledStays(next, load, lo, hi, n - 1);
    }
  }

  /** Under any constant load the size is at rest after at most log2(max) + 1 sweeps: as soon as 2^n exceeds the maximum. */
  lemma {:induction false} SettlesInLogarithmicTime(size: nat, load: nat, lo: nat, hi: nat, n: nat)
    requires lo <= size <= hi && Pow2(n) > hi
    ensures Settled(UnderLoad(size, load, lo, hi, n), load, lo, hi)
  {
    if size == 0 {
      SettledStays(size, load, lo, hi, n);
    } else if load >= size {
      ProductIsLarge(size, Pow2(n));
      GrowthSettles(size, load, lo, hi, n);
    } else {
      ShrinkingSettles(size, load, lo, hi, n);
    }
  }

  /** Where the size comes to rest: it holds the load unless it cannot grow, and is not four times too large unless it cannot shrink. */
  lemma WhereItSettles(size: nat, load: nat, lo: nat, hi: nat)
    requires lo <= size <= hi
    ensures Settled(size, load, lo, hi) <==> (load < size || size == hi || size == 0) && (load >= size / 4 || size == lo)
  {
  }

  // ------------------------------------------------------------------------------------------
  // The worker's state
  // ------------------------------------------------------------------------------------------

  /** The maximum `new` installs, whatever the configuration's own maximum is. */
  const DEFAULT_MAX_BACKOFF_MS: nat := 10_000

  class ConsumerGroupState {
    var batchSize: nat
    var lastActivity: nat
    var currentBackoffMs: nat
    var consecutiveErrors: nat
    const baseBackoffMs: nat
    const maxBackoffMs: nat
    const maxConsecutiveErrors: nat

    /** The backoff is on its ladder: the closed form, except before the first error when the base is above the cap. */
    ghost predicate OnLadder()
      reads this
    {
      currentBackoffMs ==
        if consecutiveErrors == 0 then baseBackoffMs else Ladder(baseBackoffMs, maxBackoffMs, consecutiveErrors)
    }

    constructor (initialBatchSize: nat, base: nat, now: nat)
      ensures OnLadder() && batchSize == initialBatchSize && consecutiveErrors == 0 && lastActivity == now
      ensures baseBackoffMs == base && maxBackoffMs == 10_000 && maxConsecutiveErrors == 5
    {
      batchSize, lastActivity, currentBackoffMs, consecutiveErrors := initialBatchSize, now, base, 0;
      baseBackoffMs, maxBackoffMs, maxConsecutiveErrors := base, DEFAULT_MAX_BACKOFF_MS, 5;
    }

    constructor WithConfig(initialBatchSize: nat, base: nat, max: nat, maxErrors: nat, now: nat)
      ensures OnLadder() && batchSize == initialBatchSize && consecutiveErrors == 0 && lastActivity == now
      ensures baseBackoffMs == base && maxBackoffMs == max && maxConsecutiveErrors == maxErrors
    {
      batchSize, lastActivity, currentBackoffMs, consecutiveErrors := initialBatchSize, now, base, 0;
      baseBackoffMs, maxBackoffMs, maxConsecutiveErrors := base, max, maxErrors;
    }

    /**
     One sweep's adjustment, also as its caller sees it: from a size within its bounds the size stays within them, grows
     exactly when a full batch was processed and there is room, shrinks exactly when less than a quarter was and there is
     room, and never by more than a factor of two.
     */
    method AdjustBatchSize(processed: nat, lo: nat, hi: nat, now: nat)
      modifies this`batchSize, this`lastActivity
      ensures lo <= old(batchSize) <= hi ==> lo <= batchSize <= hi
      ensures lo <= old(batchSize) <= hi ==> (batchSize > old(batchSize) <==> 0 < old(batchSize) <= processed && old(batchSize) < hi)
      ensures lo <= old(batchSize) <= hi ==> (batchSize < old(batchSize) <==> processed < old(batchSize) / 4 && lo < old(batchSize))
      ensures lo <= old(batchSize) <= hi ==> old(batchSize) / 2 <= batchSize <= 2 * old(batchSize)
      ensures batchSize == Adjusted(old(batchSize), processed, lo, hi)
      ensures lastActivity == if processed > 0 then now else old(lastActivity)
    {
      if processed >= batchSize {
        batchSize := Min(batchSize * 2, hi);
      } else if processed < batchSize / 4 && batchSize > lo {
        batchSize := Max(batchSize / 2, lo);
      }
      if processed > 0 {
        lastActivity := now;
      }
    }

    method ApplyBackoff(max: nat)
      modifies this`currentBackoffMs
      ensures currentBackoffMs == Doubled(old(currentBackoffMs), max)
    {
      currentBackoffMs := Min(currentBackoffMs * 2, max);
    }

    method RegisterError()
      requires OnLadder()
      modifies this`consecutiveErrors, this`currentBackoffMs
      ensures OnLadder() && consecutiveErrors == old(consecutiveErrors) + 1
    {
      consecutiveErrors := consecutiveErrors + 1;
      ApplyBackoff(maxBackoffMs);
      FirstClimb(baseBackoffMs, maxBackoffMs);
      Climb(baseBackoffMs, maxBackoffMs, consecutiveErrors - 1);
    }

    method ResetAfterSuccess(now: nat)
      modifies this`consecutiveErrors, this`currentBackoffMs, this`lastActivity
      ensures OnLadder() && consecutiveErrors == 0 && lastActivity == now
    {
      consecutiveErrors := 0;
      currentBackoffMs := baseBackoffMs;
      lastActivity := now;
    }

    /** The closed form holds from the first error on, and before it exactly when the base is within the cap. */
    lemma ClosedForm()
      requires OnLadder()
      ensures currentBackoffMs == Min(baseBackoffMs * Pow2(consecutiveErrors), maxBackoffMs) <==>
              consecutiveErrors > 0 || baseBackoffMs <= maxBackoffMs
    {
      FirstClimb(baseBackoffMs, maxBackoffMs);
    }

    /**
     What a failing sweep sleeps, the larger of the current backoff and the base: the ladder when the configured base
     is within the built-in cap, and above it always the base, however many errors came before.
     */
    lemma SweepSleep()
      requires OnLadder() && maxBackoffMs == DEFAULT_MAX_BACKOFF_MS && baseBackoffMs > 0
      ensures Max(currentBackoffMs, baseBackoffMs) ==
              if baseBackoffMs <= 10_000 then Min(baseBackoffMs * Pow2(consecutiveErrors), 10_000) else baseBackoffMs
    {
      ClosedForm();
      assert baseBackoffMs * Pow2(consecutiveErrors) >= baseBackoffMs;
    }
  }
}
