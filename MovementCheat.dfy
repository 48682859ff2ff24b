/**
  Movement speed anomaly detection for a remote character. Every received
  position is compared with the previous one; the speed between the two is
  logged in a window of at most 20 samples together with the speed stat
  the character had at that moment; when the window's average speed exceeds
  its average stat speed by more than THRESHOLD, a timer starts, and every
  sample taken while the excursion lasts and more than CHEAT_TIME after the
  timer started signals a cheat.

  The two clocks are parameters: `networkTime` (the network clock the
  elapsed time between samples is measured on) and `localTime` (the local
  clock the persistence timer runs on).
*/
module MovementCheat {
  import opened Vectors
  import opened Queues

  const THRESHOLD: real := 0.5
  const CHEAT_TIME: real := 1.0
  const LOG_LIMIT: nat := 20

  /** One sample: the time since the previous position, the speed measured over it, and the speed stat at that time. */
  datatype LogItem = LogItem(deltaTime: real, speed: real, statSpeed: real)

  function SumSpeed(log: seq<LogItem>): real
  {
    if log == [] then 0.0 else SumSpeed(log[..|log| - 1]) + log[|log| - 1].speed
  }

  function SumStatSpeed(log: seq<LogItem>): real
  {
    if log == [] then 0.0 else SumStatSpeed(log[..|log| - 1]) + log[|log| - 1].statSpeed
  }

  /** The averaging loop: the totals of measured and stat speeds over the window. */
  method Totals(log: seq<LogItem>) returns (totalSpeed: real, totalStatSpeed: real)
    ensures totalSpeed == SumSpeed(log) && totalStatSpeed == SumStatSpeed(log)
  {
    totalSpeed, totalStatSpeed := 0.0, 0.0;
    var count := |log|;
    for i := 0 to count
      invariant totalSpeed == SumSpeed(log[..i])
      invariant totalStatSpeed == SumStatSpeed(log[..i])
    {
      assert log[..i + 1][..i] == log[..i];
      totalSpeed := totalSpeed + log[i].speed;
      totalStatSpeed := totalStatSpeed + log[i].statSpeed;
    }
    assert log[..count] == log;
  }

  /** Whether the window's average speed exceeds its average stat speed by more than THRESHOLD. */
  predicate Exceeded(log: seq<LogItem>)
    requires |log| > 0
  {
    var count := |log| as real;
    SumSpeed(log) / count > SumStatSpeed(log) / count + THRESHOLD
  }

  /**
    The averaged comparison is the comparison of the totals against the
    threshold scaled by the window size.
  */
  lemma {:induction false} ExceededByTotals(log: seq<LogItem>)
    requires |log| > 0
    ensures Exceeded(log) <==> SumSpeed(log) > SumStatSpeed(log) + THRESHOLD * |log| as real
  {
    var n := |log| as real;
    var s, t := SumSpeed(log), SumStatSpeed(log);
    assert s / n - (t / n + THRESHOLD) == (s - (t + THRESHOLD * n)) / n;
  }

  lemma {:induction false} SumsWithinThreshold(log: seq<LogItem>)
    requires forall i :: 0 <= i < |log| ==> log[i].speed <= log[i].statSpeed + THRESHOLD
    ensures SumSpeed(log) <= SumStatSpeed(log) + THRESHOLD * |log| as real
  {
    if log != [] {
      SumsWithinThreshold(log[..|log| - 1]);
    }
  }

  lemma {:induction false} SumsAboveThreshold(log: seq<LogItem>)
    requires |log| > 0
    requires forall i :: 0 <= i < |log| ==> log[i].speed > log[i].statSpeed + THRESHOLD
    ensures SumSpeed(log) > SumStatSpeed(log) + THRESHOLD * |log| as real
  {
    if |log| > 1 {
      SumsAboveThreshold(log[..|log| - 1]);
    }
  }

  /** A window whose every sample is within THRESHOLD of its stat speed is never over the threshold. */
  lemma WithinThresholdNotExceeded(log: seq<LogItem>)
    requires |log| > 0
    requires forall i :: 0 <= i < |log| ==> log[i].speed <= log[i].statSpeed + THRESHOLD
    ensures !Exceeded(log)
  {
    SumsWithinThreshold(log);
    ExceededByTotals(log);
  }

  /** A window whose every sample is over THRESHOLD above its stat speed is over the threshold. */
  lemma AboveThresholdExceeded(log: seq<LogItem>)
    requires |log| > 0
    requires forall i :: 0 <= i < |log| ==> log[i].speed > log[i].statSpeed + THRESHOLD
    ensures Exceeded(log)
  {
    SumsAboveThreshold(log);
    ExceededByTotals(log);
  }

  /** The persistence timer: whether it runs, and the local time it started at. */
  datatype Hysteresis = Hysteresis(cheatTimeSet: bool, cheatDetectionTime: real)

  const Unset: Hysteresis := Hysteresis(false, 0.0)

  /**
    The timer after a sample: an excursion starts it unless it already runs
    (then it keeps its start time); a sample at or below the threshold resets it.
  */
  function HysteresisNext(h: Hysteresis, exceeded: bool, now: real): Hysteresis
  {
    if !exceeded then Unset
    else if !h.cheatTimeSet then Hysteresis(true, now)
    else h
  }

  /** Whether a sample signals: the excursion holds and has lasted strictly more than CHEAT_TIME. */
  predicate Fires(h: Hysteresis, exceeded: bool, now: real)
  {
    exceeded && now - HysteresisNext(h, exceeded, now).cheatDetectionTime > CHEAT_TIME
  }

  /** One sample as the timer sees it: whether the window was over the threshold, and the local time. */
  datatype Observation = Observation(exceeded: bool, now: real)

  /** The timer after a sequence of samples. */
  function TimerAfter(h: Hysteresis, obs: seq<Observation>): Hysteresis
  {
    if obs == [] then h
    else HysteresisNext(TimerAfter(h, obs[..|obs| - 1]), obs[|obs| - 1].exceeded, obs[|obs| - 1].now)
  }

  /** Samples `j` to the end are an unbroken excursion that starts at `j`. */
  predicate ExcursionFrom(h: Hysteresis, obs: seq<Observation>, j: nat)
  {
    && j < |obs|
    && (forall k :: j <= k < |obs| ==> obs[k].exceeded)
    && (if j == 0 then !h.cheatTimeSet else !obs[j - 1].exceeded)
  }

  /** During an excursion the timer runs from the local time of the excursion's first sample. */
  lemma {:induction false} TimerStartsAtExcursion(h: Hysteresis, obs: seq<Observation>, j: nat)
    requires ExcursionFrom(h, obs, j)
    ensures TimerAfter(h, obs) == Hysteresis(true, obs[j].now)
  {
    var n := |obs|;
    var prefix := obs[..n - 1];
    if n - 1 == j {
      if j > 0 {
        assert prefix[j - 1] == obs[j - 1];
        assert prefix[..|prefix| - 1] == obs[..j - 1];
      } else {
        assert prefix == [];
      }
    } else {
      assert ExcursionFrom(h, prefix, j) by {
        forall k | j <= k < |prefix| ensures prefix[k].exceeded {
          assert prefix[k] == obs[k];
        }
        if j > 0 { assert prefix[j - 1] == obs[j - 1]; }
      }
      TimerStartsAtExcursion(h, prefix, j);
    }
  }

  /**
    A sample in an excursion signals exactly when more than CHEAT_TIME has
    passed since the excursion's first sample; so an excursion shorter than
    that never signals, and a longer one signals on every later sample.
  */
  lemma {:induction false} SignalIffExcursionOutlastsCheatTime(h: Hysteresis, obs: seq<Observation>, j: nat)
    requires ExcursionFrom(h, obs, j)
    ensures var last := obs[|obs| - 1];
      Fires(TimerAfter(h, obs[..|obs| - 1]), last.exceeded, last.now) <==> last.now - obs[j].now > CHEAT_TIME
  {
    TimerStartsAtExcursion(h, obs, j);
  }

  /** A sample at or below the threshold never signals and resets the timer. */
  lemma NoSignalAtOrBelowThreshold(h: Hysteresis, now: real)
    ensures !Fires(h, false, now) && HysteresisNext(h, false, now) == Unset
  {
  }

  class MovemantCheatDetection {
    var cheatDetectionTime: real
    var cheatTimeSet: bool
    var previousPosition: Vec3
    var prevTime: real
    const movemantLog: FixedSizeQueue<LogItem>

    ghost predicate Valid()
      reads this, movemantLog
    {
      movemantLog.Valid() && movemantLog.Limit == LOG_LIMIT
    }

    function Timer(): Hysteresis
      reads this
    {
      Hysteresis(cheatTimeSet, cheatDetectionTime)
    }

    constructor ()
      ensures Valid() && fresh(movemantLog)
      ensures movemantLog.list == [] && prevTime == 0.0 && previousPosition == Zero
      ensures Timer() == Unset
    {
      cheatDetectionTime := 0.0;
      cheatTimeSet := false;
      previousPosition := Zero;
      prevTime := 0.0;
      movemantLog := new FixedSizeQueue(LOG_LIMIT);
    }

    /**
      The network time of a sample that moves is later than the stored one,
      unless there is no stored one yet; the elapsed time is divided by.
    */
    predicate Accepts(nextPosition: Vec3, networkTime: real)
      reads this
    {
      prevTime == 0.0 || previousPosition == nextPosition || networkTime > prevTime
    }

    /**
      `SetNext`: take the next authoritative position, `distance` away from
      the previous one, with the speed stat `statSpeed`; `cheatDetected`
      says whether the movement signals a cheat.
    */
    method SetNext(nextPosition: Vec3, distance: real, networkTime: real, localTime: real, statSpeed: real)
      returns (cheatDetected: bool)
      requires Valid() && distance >= 0.0 && Accepts(nextPosition, networkTime)
      modifies this, movemantLog
      ensures Valid()
      ensures prevTime == networkTime && previousPosition == nextPosition
      // the first position is only recorded
      ensures old(prevTime) == 0.0 ==>
        && movemantLog.list == old(movemantLog.list)
        && Timer() == old(Timer())
        && !cheatDetected
      // standing still clears the window
      ensures old(prevTime) != 0.0 && old(previousPosition) == nextPosition ==>
        && movemantLog.list == []
        && Timer() == old(Timer())
        && !cheatDetected
      // moving logs a sample and runs the timer on the window's averages
      ensures old(prevTime) != 0.0 && old(previousPosition) != nextPosition ==>
        var elapsed := networkTime - old(prevTime);
        && elapsed > 0.0
        && movemantLog.list == BoundedAppend(old(movemantLog.list), LogItem(elapsed, distance / elapsed, statSpeed), LOG_LIMIT)
        && |movemantLog.list| > 0
        && Timer() == HysteresisNext(old(Timer()), Exceeded(movemantLog.list), localTime)
        && cheatDetected == Fires(old(Timer()), Exceeded(movemantLog.list), localTime)
    {
      cheatDetected := false;
      if prevTime == 0.0 {
        prevTime := networkTime;
        previousPosition := nextPosition;
        return;
      }
      var time := networkTime;

      if previousPosition == nextPosition {
        movemantLog.Clear();
      } else {
        var newTimeDif := time - prevTime;
        movemantLog.Enqueue(LogItem(newTimeDif, distance / newTimeDif, statSpeed));

        var totalSpeed, totalStatSpeed := Totals(movemantLog.list);
        var count := |movemantLog.list|;
        var avgSpeed := totalSpeed / count as real;
        var avgStatSpeed := totalStatSpeed / count as real;

        if avgSpeed > avgStatSpeed + THRESHOLD {
          if !cheatTimeSet {
            cheatTimeSet := true;
            cheatDetectionTime := localTime;
          }
          if localTime - cheatDetectionTime > CHEAT_TIME {
            cheatDetected := true;
          }
        } else {
          cheatDetectionTime := 0.0;
          cheatTimeSet := false;
        }
      }

      prevTime := time;
      previousPosition := nextPosition;
    }
  }
}
