/** When the exit monitor acts (`monitorExit`): the failure counter over every sequence of ticks. */
module Monitor {

  /** What a tick finds: does the transport need recovery; was health evaluated, and did it pass. */
  datatype Tick = Transport(needsRecovery: bool) | Health(evaluated: bool, passed: bool)

  datatype Reaction = Nothing | Recover | DisconnectAndRecover

  function Threshold(configured: int): (t: nat)
    ensures t > 0
  {
    if configured <= 0 then 2 else configured
  }

  predicate FailedCheck(t: Tick) {
    t.Health? && t.evaluated && !t.passed
  }

  predicate Resets(t: Tick) {
    (t.Transport? && t.needsRecovery) || (t.Health? && (!t.evaluated || t.passed))
  }

  function React(failures: nat, threshold: nat, t: Tick): Reaction {
    if t.Transport? && t.needsRecovery then Recover
    else if FailedCheck(t) && failures + 1 >= threshold then DisconnectAndRecover
    else Nothing
  }

  function NextFailures(failures: nat, threshold: nat, t: Tick): nat {
    if Resets(t) then 0
    else if FailedCheck(t) then if failures + 1 >= threshold then 0 else failures + 1
    else failures
  }

  /** The counter at the loop head after `ticks`. */
  function Failures(ticks: seq<Tick>, threshold: nat): nat {
    if ticks == [] then 0 else NextFailures(Failures(ticks[..|ticks|-1], threshold), threshold, ticks[|ticks|-1])
  }

  function Reactions(ticks: seq<Tick>, threshold: nat): seq<Reaction> {
    if ticks == [] then []
    else
      var front := ticks[..|ticks|-1];
      Reactions(front, threshold) + [React(Failures(front, threshold), threshold, ticks[|ticks|-1])]
  }

  /** The monitor loop over the ticks it receives until it is cancelled. */
  method MonitorExit(ticks: seq<Tick>, configuredThreshold: int) returns (reactions: seq<Reaction>)
    ensures reactions == Reactions(ticks, Threshold(configuredThreshold))
  {
    var failureThreshold := configuredThreshold;
    if failureThreshold <= 0 {
      failureThreshold := 2;
    }
    var healthFailures := 0;
    reactions := [];
    for i := 0 to |ticks|
      invariant reactions == Reactions(ticks[..i], failureThreshold)
      invariant healthFailures == Failures(ticks[..i], failureThreshold)
    {
      assert ticks[..i+1][..i] == ticks[..i];
      match ticks[i]
      case Transport(needsRecovery) =>
        if needsRecovery {
          healthFailures := 0;
          reactions := reactions + [Recover];
        } else {
          reactions := reactions + [Nothing];
        }
      case Health(evaluated, passed) =>
        if !evaluated || passed {
          healthFailures := 0;
          reactions := reactions + [Nothing];
        } else {
          healthFailures := healthFailures + 1;
          if healthFailures >= failureThreshold {
            healthFailures := 0;
            reactions := reactions + [DisconnectAndRecover];
          } else {
            reactions := reactions + [Nothing];
          }
        }
    }
    assert ticks[..|ticks|] == ticks;
  }

  // ------------------------------------------------------------------ what the counter means

  /**
   How many evaluated health checks in a row have failed up to now, with no pass, no skipped check and no
   transport recovery between them. It knows nothing of thresholds and disconnections.
   */
  function Streak(ticks: seq<Tick>): nat {
    if ticks == [] then 0
    else
      var last := ticks[|ticks|-1];
      if Resets(last) then 0
      else Streak(ticks[..|ticks|-1]) + (if FailedCheck(last) then 1 else 0)
  }

  /** How often the current streak has already led to a disconnection. */
  function Fired(ticks: seq<Tick>, threshold: nat): nat {
    if ticks == [] then 0
    else
      var front, last := ticks[..|ticks|-1], ticks[|ticks|-1];
      if Resets(last) then 0
      else Fired(front, threshold) + (if React(Failures(front, threshold), threshold, last).DisconnectAndRecover? then 1 else 0)
  }

  lemma {:induction false} CounterIsRestOfStreak(ticks: seq<Tick>, threshold: nat)
    requires threshold > 0
    ensures Failures(ticks, threshold) < threshold
    ensures Streak(ticks) == threshold * Fired(ticks, threshold) + Failures(ticks, threshold)
  {
    if ticks == [] {
    } else {
      var front, last := ticks[..|ticks|-1], ticks[|ticks|-1];
      CounterIsRestOfStreak(front, threshold);
      if FailedCheck(last) && Failures(front, threshold) + 1 >= threshold {
        assert threshold * (Fired(front, threshold) + 1) == threshold * Fired(front, threshold) + threshold;
      }
    }
  }

  lemma SmallMultiple(threshold: nat, d: int, rest: nat)
    requires threshold > 0 && threshold * d == rest && rest < threshold
    ensures d == 0
  {
    MultipleBound(threshold, d);
  }

  lemma MultipleBound(t: int, d: int)
    requires t > 0
    ensures d >= 1 ==> t * d >= t
    ensures d <= -1 ==> t * d <= 0 - t
  {
  }

  /**
   The health branch disconnects at a tick exactly when that check failed and the streak of failures it ends
   has reached a multiple of the threshold; in particular at least `threshold` checks in a row have failed.
   */
  lemma DisconnectsExactlyOnStreaks(ticks: seq<Tick>, configured: int)
    requires ticks != []
    ensures var th := Threshold(configured);
            var front, last := ticks[..|ticks|-1], ticks[|ticks|-1];
            && (React(Failures(front, th), th, last).DisconnectAndRecover? <==>
                  FailedCheck(last) && exists q :: Streak(ticks) == th * q)
            && (React(Failures(front, th), th, last).DisconnectAndRecover? ==> Streak(ticks) >= th)
            && Failures(ticks, th) < th
  {
    var th := Threshold(configured);
    var front, last := ticks[..|ticks|-1], ticks[|ticks|-1];
    CounterIsRestOfStreak(front, th);
    CounterIsRestOfStreak(ticks, th);
    if React(Failures(front, th), th, last).DisconnectAndRecover? {
      assert Fired(ticks, th) >= 1;
      assert th * Fired(ticks, th) >= th;
      assert Streak(ticks) == th * Fired(ticks, th);
    } else if FailedCheck(last) {
      if q :| Streak(ticks) == th * q {
        assert th * (q - Fired(ticks, th)) == th * q - th * Fired(ticks, th);
        SmallMultiple(th, q - Fired(ticks, th), Failures(ticks, th));
      }
    }
  }
}
