/**
 * The inter-batch wait of the loader (`waitForNextBatch`).
 *
 * The wall clock is replaced by the finite sequence of readings that
 * `System.currentTimeMillis()` returns, in the order the loop takes them.
 * Elapsed time is a reading minus the start time of the cycle. The loop keeps
 * reading while the elapsed time is below the configured interval; inside the
 * loop it gives up with a warning once the elapsed time is above the fixed
 * ceiling. When the readings run out before either exit is taken, the result
 * says that the real loop would still be spinning.
 */
module BatchWait {

  /** Ceiling on the time between batches: ten minutes, in milliseconds. */
  const MaxMsBetweenBatches: int := 10 * 60 * 1000

  /** How a call of the wait ended. */
  datatype Outcome =
    | Normal        // the configured interval has elapsed
    | Warned        // the ceiling was passed first; one warning was logged
    | StillWaiting  // the readings ran out while the loop was still spinning

  /** The outcome and how many clock readings the call consumed. */
  datatype WaitResult = WaitResult(outcome: Outcome, used: nat)

  function Elapsed(startTime: int, reading: int): int
  {
    reading - startTime
  }

  /** The loop goes round once more after a reading of this elapsed time. */
  predicate KeepsWaiting(elapsed: int, msBetweenBatches: int)
  {
    elapsed < msBetweenBatches && elapsed <= MaxMsBetweenBatches
  }

  /**
   * What the wait does from reading `i` on, counting readings from the
   * start of the sequence.
   */
  function WaitFrom(startTime: int, msBetweenBatches: int, readings: seq<int>, i: nat): (r: WaitResult)
    requires i <= |readings|
    ensures i <= r.used <= |readings|
    ensures r.outcome == StillWaiting ==> r.used == |readings|
    ensures r.outcome != StillWaiting ==> i < r.used
    decreases |readings| - i
  {
    if i == |readings| then WaitResult(StillWaiting, i)
    else if Elapsed(startTime, readings[i]) >= msBetweenBatches then WaitResult(Normal, i + 1)
    else if Elapsed(startTime, readings[i]) > MaxMsBetweenBatches then WaitResult(Warned, i + 1)
    else WaitFrom(startTime, msBetweenBatches, readings, i + 1)
  }

  /** The specification of one call of the wait. */
  function WaitSpec(startTime: int, msBetweenBatches: int, readings: seq<int>): WaitResult
  {
    WaitFrom(startTime, msBetweenBatches, readings, 0)
  }

  /**
   * `waitForNextBatch`: take one reading, then loop while the elapsed time is
   * below the interval, returning with a warning when it is above the ceiling.
   */
  method WaitForNextBatch(startTime: int, msBetweenBatches: int, readings: seq<int>)
    returns (outcome: Outcome, used: nat)
    ensures WaitResult(outcome, used) == WaitSpec(startTime, msBetweenBatches, readings)
  {
    if readings == [] {
      return StillWaiting, 0;
    }
    var timeDiff := Elapsed(startTime, readings[0]);
    used := 1;
    while timeDiff < msBetweenBatches
      invariant 1 <= used <= |readings|
      invariant timeDiff == Elapsed(startTime, readings[used - 1])
      invariant WaitSpec(startTime, msBetweenBatches, readings) == WaitFrom(startTime, msBetweenBatches, readings, used - 1)
      decreases |readings| - used
    {
      if timeDiff > MaxMsBetweenBatches {
        return Warned, used;
      }
      if used == |readings| {
        return StillWaiting, used;
      }
      timeDiff := Elapsed(startTime, readings[used]);
      used := used + 1;
    }
    outcome := Normal;
  }

  // ---------------------------------------------------------------------------
  // Properties of the wait
  // ---------------------------------------------------------------------------

  /**
   * When the first reading already shows the interval elapsed, the wait
   * returns at once: one reading, no warning. This holds in particular when
   * that reading is also past the ceiling.
   */
  lemma ImmediateReturn(startTime: int, msBetweenBatches: int, readings: seq<int>)
    requires |readings| > 0 && Elapsed(startTime, readings[0]) >= msBetweenBatches
    ensures WaitSpec(startTime, msBetweenBatches, readings) == WaitResult(Normal, 1)
  {
  }

  /**
   * Every reading before the last one consumed kept the loop going; a normal
   * return means the last reading shows the interval elapsed.
   */
  lemma {:induction false} NormalReturn(startTime: int, msBetweenBatches: int, readings: seq<int>, i: nat)
    requires i <= |readings|
    requires WaitFrom(startTime, msBetweenBatches, readings, i).outcome == Normal
    ensures var n := WaitFrom(startTime, msBetweenBatches, readings, i).used;
      n >= 1 && Elapsed(startTime, readings[n - 1]) >= msBetweenBatches &&
      forall j :: i <= j < n - 1 ==> KeepsWaiting(Elapsed(startTime, readings[j]), msBetweenBatches)
    decreases |readings| - i
  {
    var e := Elapsed(startTime, readings[i]);
    if e < msBetweenBatches && e <= MaxMsBetweenBatches {
      NormalReturn(startTime, msBetweenBatches, readings, i + 1);
    }
  }

  /**
   * A warned return means the last reading consumed is past the ceiling and
   * still short of the interval, and every earlier reading kept the loop going.
   */
  lemma {:induction false} WarnedReturn(startTime: int, msBetweenBatches: int, readings: seq<int>, i: nat)
    requires i <= |readings|
    requires WaitFrom(startTime, msBetweenBatches, readings, i).outcome == Warned
    ensures var n := WaitFrom(startTime, msBetweenBatches, readings, i).used;
      n >= 1 &&
      MaxMsBetweenBatches < Elapsed(startTime, readings[n - 1]) < msBetweenBatches &&
      forall j :: i <= j < n - 1 ==> KeepsWaiting(Elapsed(startTime, readings[j]), msBetweenBatches)
    decreases |readings| - i
  {
    var e := Elapsed(startTime, readings[i]);
    if e < msBetweenBatches && e <= MaxMsBetweenBatches {
      WarnedReturn(startTime, msBetweenBatches, readings, i + 1);
    }
  }

  /**
   * The warning needs an interval of more than the ceiling plus one
   * millisecond; with an interval of at most ten minutes it is never logged,
   * whatever the clock says.
   */
  lemma {:induction false} WarningNeedsLongInterval(startTime: int, msBetweenBatches: int, readings: seq<int>)
    requires WaitSpec(startTime, msBetweenBatches, readings).outcome == Warned
    ensures msBetweenBatches > MaxMsBetweenBatches + 1
  {
    WarnedReturn(startTime, msBetweenBatches, readings, 0);
  }

  /**
   * The wait ends no later than the first reading whose elapsed time reaches
   * the interval or passes the ceiling. The readings need not be ordered.
   */
  lemma {:induction false} WaitEnds(startTime: int, msBetweenBatches: int, readings: seq<int>, i: nat, k: nat)
    requires i <= k < |readings|
    requires Elapsed(startTime, readings[k]) >= Min(msBetweenBatches, MaxMsBetweenBatches + 1)
    ensures WaitFrom(startTime, msBetweenBatches, readings, i).outcome != StillWaiting
    ensures WaitFrom(startTime, msBetweenBatches, readings, i).used <= k + 1
    decreases k - i
  {
    if i < k && KeepsWaiting(Elapsed(startTime, readings[i]), msBetweenBatches) {
      WaitEnds(startTime, msBetweenBatches, readings, i + 1, k);
    }
  }

  /**
   * The wait stops exactly at the first reading that does not keep the loop
   * going: normally when that reading reaches the interval, with the warning
   * otherwise.
   */
  lemma {:induction false} FirstStop(startTime: int, msBetweenBatches: int, readings: seq<int>, i: nat, k: nat)
    requires i <= k < |readings|
    requires !KeepsWaiting(Elapsed(startTime, readings[k]), msBetweenBatches)
    requires forall j :: i <= j < k ==> KeepsWaiting(Elapsed(startTime, readings[j]), msBetweenBatches)
    ensures WaitFrom(startTime, msBetweenBatches, readings, i) ==
      WaitResult(if Elapsed(startTime, readings[k]) >= msBetweenBatches then Normal else Warned, k + 1)
    decreases k - i
  {
    if i < k {
      FirstStop(startTime, msBetweenBatches, readings, i + 1, k);
    }
  }

  function Min(a: int, b: int): int
  {
    if a <= b then a else b
  }
}
