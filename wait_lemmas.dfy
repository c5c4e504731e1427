/** What `customWait` promises, proved about its specification `WaitTrace`
    (and `Run`, the loop from any state it reaches). `CustomWait` is tied to
    `WaitTrace` by its own postcondition. */
module WaitLemmas {
  import opened Wrappers
  import opened Wait

  /** What the probe answered to a call. */
  function Answer(probe: Probe, c: Call): ProbeResult {
    probe(c.try, c.timeoutSecs)
  }

  /** The integer timeout is the source's floating-point
      `Math.floor(Math.min(600, maxTimeoutSecs - timeTakenMs / 1000))`. */
  lemma NextTimeoutIsFlooredMinimum(maxTimeoutSecs: int, timeTakenMs: int)
    ensures var left := maxTimeoutSecs as real - timeTakenMs as real / 1000.0;
      NextTimeout(maxTimeoutSecs, timeTakenMs) == (if 600.0 <= left then 600.0 else left).Floor
  {
    var left := maxTimeoutSecs as real - timeTakenMs as real / 1000.0;
    var q := (maxTimeoutSecs * 1000 - timeTakenMs) / 1000;
    assert left == (maxTimeoutSecs * 1000 - timeTakenMs) as real / 1000.0;
    assert q as real <= left < (q + 1) as real;
  }

  /** A timeout is requested only while at least a whole second of the budget
      is left, so the loop's separate `timeTakenSecs < maxTimeoutSecs` test
      never decides anything once the timeout test has passed. */
  lemma PositiveTimeoutNeedsASecondLeft(maxTimeoutSecs: int, timeTakenMs: int)
    ensures NextTimeout(maxTimeoutSecs, timeTakenMs) > 0 <==> timeTakenMs <= maxTimeoutSecs * 1000 - 1000
  {
  }

  /** The later the clock, the shorter (or equal) the next timeout. */
  lemma NextTimeoutNeverGrows(maxTimeoutSecs: int, early: int, late: int)
    requires early <= late
    ensures NextTimeout(maxTimeoutSecs, late) <= NextTimeout(maxTimeoutSecs, early)
  {
  }

  /** The calls of a run from a state after `from` calls: call `from + i + 1`
      carries the timeout computed from the clock reading before it, at a moment
      when the loop condition held. */
  predicate Scheduled(maxTimeoutSecs: int, clock: Clock, from: nat, calls: seq<Call>) {
    forall i | 0 <= i < |calls| ::
      calls[i] == Call(from + i + 1, NextTimeout(maxTimeoutSecs, Elapsed(clock, from + i))) &&
      NextTimeout(maxTimeoutSecs, Elapsed(clock, from + i)) > 0 &&
      Elapsed(clock, from + i) < maxTimeoutSecs * 1000
  }

  lemma ScheduledCons(maxTimeoutSecs: int, clock: Clock, s: LoopState, rest: seq<Call>)
    requires Consistent(maxTimeoutSecs, clock, s) && Continues(maxTimeoutSecs, s)
    requires Scheduled(maxTimeoutSecs, clock, s.currTry + 1, rest)
    ensures Scheduled(maxTimeoutSecs, clock, s.currTry, [Call(s.currTry + 1, s.thisTimeoutSecs)] + rest)
  {
    var calls := [Call(s.currTry + 1, s.thisTimeoutSecs)] + rest;
    forall i | 0 < i < |calls|
      ensures calls[i] == Call(s.currTry + i + 1, NextTimeout(maxTimeoutSecs, Elapsed(clock, s.currTry + i)))
    {
      assert calls[i] == rest[i - 1];
    }
  }

  /** The step of `RunCalls` where the call fails. */
  lemma CallsOnError(maxTimeoutSecs: int, probe: Probe, clock: Clock, s: LoopState)
    requires Monotone(clock) && Consistent(maxTimeoutSecs, clock, s) && Continues(maxTimeoutSecs, s)
    requires probe(s.currTry + 1, s.thisTimeoutSecs).Error?
    ensures Scheduled(maxTimeoutSecs, clock, s.currTry, Run(maxTimeoutSecs, probe, clock, s).calls)
  {
    RunOnce(maxTimeoutSecs, probe, clock, s);
    ScheduledCons(maxTimeoutSecs, clock, s, []);
    assert [Call(s.currTry + 1, s.thisTimeoutSecs)] + [] == [Call(s.currTry + 1, s.thisTimeoutSecs)];
  }

  /** The step of `RunCalls` where the loop goes on to `next`. */
  lemma CallsOnAnswer(maxTimeoutSecs: int, probe: Probe, clock: Clock, s: LoopState, next: LoopState)
    requires Monotone(clock) && Consistent(maxTimeoutSecs, clock, s) && Continues(maxTimeoutSecs, s)
    requires !probe(s.currTry + 1, s.thisTimeoutSecs).Error?
    requires next.currTry == s.currTry + 1 && next.timeTakenMs == Elapsed(clock, s.currTry + 1)
    requires next.isStable == (probe(s.currTry + 1, s.thisTimeoutSecs) == Success)
    requires next.thisTimeoutSecs == NextTimeout(maxTimeoutSecs, next.timeTakenMs)
    requires Scheduled(maxTimeoutSecs, clock, next.currTry, Run(maxTimeoutSecs, probe, clock, next).calls)
    ensures Scheduled(maxTimeoutSecs, clock, s.currTry, Run(maxTimeoutSecs, probe, clock, s).calls)
  {
    RunThrough(maxTimeoutSecs, probe, clock, s, next);
    ScheduledCons(maxTimeoutSecs, clock, s, Run(maxTimeoutSecs, probe, clock, next).calls);
  }

  lemma {:induction false} RunCalls(maxTimeoutSecs: int, probe: Probe, clock: Clock, s: LoopState)
    requires Monotone(clock) && Consistent(maxTimeoutSecs, clock, s)
    ensures Scheduled(maxTimeoutSecs, clock, s.currTry, Run(maxTimeoutSecs, probe, clock, s).calls)
    decreases maxTimeoutSecs * 1000 - s.timeTakenMs
  {
    if Continues(maxTimeoutSecs, s) {
      var res := probe(s.currTry + 1, s.thisTimeoutSecs);
      if res.Error? {
        CallsOnError(maxTimeoutSecs, probe, clock, s);
      } else {
        var timeTakenMs := Elapsed(clock, s.currTry + 1);
        var next := LoopState(timeTakenMs, res == Success, s.currTry + 1, NextTimeout(maxTimeoutSecs, timeTakenMs));
        RunCalls(maxTimeoutSecs, probe, clock, next);
        CallsOnAnswer(maxTimeoutSecs, probe, clock, s, next);
      }
    }
  }

  /** Every call but the last was answered `NotYetStable`. */
  predicate NotYetUntilLast(probe: Probe, calls: seq<Call>) {
    forall i | 0 <= i < |calls| - 1 :: Answer(probe, calls[i]) == NotYetStable
  }

  /** How the last answer of a run from `s` decides its result: an error ends
      the run with that error, `Success` is exactly what makes the outcome
      stable, and a run without calls keeps the stability of `s`. */
  predicate LastAnswerDecides(probe: Probe, s: LoopState, t: Trace) {
    var n := |t.calls|;
    (t.result.Err? ==> n > 0 && Answer(probe, t.calls[n - 1]) == Error(t.result.error)) &&
    (t.result.Ok? && n > 0 ==>
      !Answer(probe, t.calls[n - 1]).Error? &&
      (t.result.value.isStable <==> Answer(probe, t.calls[n - 1]) == Success)) &&
    (t.result.Ok? && n == 0 ==> t.result.value.isStable == s.isStable)
  }

  lemma AnswersCons(probe: Probe, s: LoopState, next: LoopState, rest: Trace)
    requires !s.isStable
    requires var res := probe(s.currTry + 1, s.thisTimeoutSecs);
      !res.Error? && next.isStable == (res == Success)
    requires next.isStable ==> rest.calls == [] && rest.result.Ok? && rest.result.value.isStable
    requires NotYetUntilLast(probe, rest.calls) && LastAnswerDecides(probe, next, rest)
    ensures var t := Trace([Call(s.currTry + 1, s.thisTimeoutSecs)] + rest.calls, rest.result);
      NotYetUntilLast(probe, t.calls) && LastAnswerDecides(probe, s, t)
  {
    var call := Call(s.currTry + 1, s.thisTimeoutSecs);
    var calls := [call] + rest.calls;
    forall i | 0 < i < |calls| ensures calls[i] == rest.calls[i - 1] {
    }
  }

  lemma {:induction false} RunAnswers(maxTimeoutSecs: int, probe: Probe, clock: Clock, s: LoopState)
    requires Monotone(clock) && Consistent(maxTimeoutSecs, clock, s)
    ensures NotYetUntilLast(probe, Run(maxTimeoutSecs, probe, clock, s).calls)
    ensures LastAnswerDecides(probe, s, Run(maxTimeoutSecs, probe, clock, s))
    decreases maxTimeoutSecs * 1000 - s.timeTakenMs
  {
    if Continues(maxTimeoutSecs, s) {
      RunOnce(maxTimeoutSecs, probe, clock, s);
      var res := probe(s.currTry + 1, s.thisTimeoutSecs);
      if !res.Error? {
        var timeTakenMs := Elapsed(clock, s.currTry + 1);
        var next := LoopState(timeTakenMs, res == Success, s.currTry + 1, NextTimeout(maxTimeoutSecs, timeTakenMs));
        RunAnswers(maxTimeoutSecs, probe, clock, next);
        AnswersCons(probe, s, next, Run(maxTimeoutSecs, probe, clock, next));
      }
    }
  }

  /** A run that ends without stability ends because no positive timeout is
      left, which includes the case of the budget being spent. */
  lemma {:induction false} RunEndsExhausted(maxTimeoutSecs: int, probe: Probe, clock: Clock, s: LoopState)
    requires Monotone(clock) && Consistent(maxTimeoutSecs, clock, s)
    ensures var t := Run(maxTimeoutSecs, probe, clock, s);
      t.result.Ok? ==> t.result.value.isStable || NextTimeout(maxTimeoutSecs, t.result.value.timeTakenMs) <= 0
    decreases maxTimeoutSecs * 1000 - s.timeTakenMs
  {
    if Continues(maxTimeoutSecs, s) {
      RunOnce(maxTimeoutSecs, probe, clock, s);
      var res := probe(s.currTry + 1, s.thisTimeoutSecs);
      if !res.Error? {
        var timeTakenMs := Elapsed(clock, s.currTry + 1);
        RunEndsExhausted(maxTimeoutSecs, probe, clock,
          LoopState(timeTakenMs, res == Success, s.currTry + 1, NextTimeout(maxTimeoutSecs, timeTakenMs)));
      }
    } else {
      PositiveTimeoutNeedsASecondLeft(maxTimeoutSecs, s.timeTakenMs);
    }
  }

  /** No call at all is made exactly when the budget is zero minutes or less;
      the outcome is then unstable, with no tries and no time taken. */
  lemma NoBudgetNoCalls(maxTimeoutMins: int, probe: Probe, clock: Clock)
    requires Monotone(clock)
    ensures WaitTrace(maxTimeoutMins, probe, clock).calls == [] <==> maxTimeoutMins <= 0
    ensures maxTimeoutMins <= 0 ==> WaitTrace(maxTimeoutMins, probe, clock) == Trace([], Ok(Outcome(false, 0, 0)))
  {
    var b := maxTimeoutMins * 60;
    assert NextTimeout(b, 0) == Min(ChunkCapSecs, b);
  }

  /** Calls are numbered 1, 2, ... in order, and every timeout handed to the
      probe is a whole number of seconds from 1 to 600 that fits in what is
      left of the budget at the moment it is computed. */
  lemma TimeoutsWithinBudget(maxTimeoutMins: int, probe: Probe, clock: Clock)
    requires Monotone(clock)
    ensures var calls := WaitTrace(maxTimeoutMins, probe, clock).calls;
      forall i | 0 <= i < |calls| ::
        calls[i].try == i + 1 &&
        1 <= calls[i].timeoutSecs <= ChunkCapSecs &&
        calls[i].timeoutSecs * 1000 <= maxTimeoutMins * 60 * 1000 - Elapsed(clock, i)
  {
    RunCalls(maxTimeoutMins * 60, probe, clock, Start(maxTimeoutMins * 60));
  }

  /** Successive timeouts never grow. */
  lemma TimeoutsNeverGrow(maxTimeoutMins: int, probe: Probe, clock: Clock)
    requires Monotone(clock)
    ensures var calls := WaitTrace(maxTimeoutMins, probe, clock).calls;
      forall i, j | 0 <= i < j < |calls| :: calls[j].timeoutSecs <= calls[i].timeoutSecs
  {
    var b := maxTimeoutMins * 60;
    var calls := WaitTrace(maxTimeoutMins, probe, clock).calls;
    RunCalls(b, probe, clock, Start(b));
    forall i, j | 0 <= i < j < |calls| ensures calls[j].timeoutSecs <= calls[i].timeoutSecs {
      NextTimeoutNeverGrows(b, Elapsed(clock, i), Elapsed(clock, j));
    }
  }

  /** `currTry` is the number of calls made, `timeTakenMs` the last clock
      reading minus the start (zero when no call was made, and never less
      than the elapsed time at any call), and the outcome is stable exactly
      when the last call answered `Success`. */
  lemma OutcomeReflectsCalls(maxTimeoutMins: int, probe: Probe, clock: Clock)
    requires Monotone(clock)
    ensures var t := WaitTrace(maxTimeoutMins, probe, clock);
      var n := |t.calls|;
      t.result.Ok? ==>
        t.result.value.currTry == n &&
        t.result.value.timeTakenMs == Elapsed(clock, n) &&
        (n == 0 ==> t.result.value.timeTakenMs == 0) &&
        (forall i | 0 <= i < n :: 0 <= Elapsed(clock, i) < t.result.value.timeTakenMs) &&
        (n > 0 ==> !Answer(probe, t.calls[n - 1]).Error?) &&
        (t.result.value.isStable <==> n > 0 && Answer(probe, t.calls[n - 1]) == Success)
  {
    RunAnswers(maxTimeoutMins * 60, probe, clock, Start(maxTimeoutMins * 60));
  }

  /** Once a call answers `Success` (or fails), no further call is made: every
      call before the last was answered `NotYetStable`. */
  lemma StopsAtFirstSuccess(maxTimeoutMins: int, probe: Probe, clock: Clock)
    requires Monotone(clock)
    ensures var calls := WaitTrace(maxTimeoutMins, probe, clock).calls;
      forall i | 0 <= i < |calls| - 1 :: Answer(probe, calls[i]) == NotYetStable
  {
    RunAnswers(maxTimeoutMins * 60, probe, clock, Start(maxTimeoutMins * 60));
  }

  /** A probe error ends the wait with that error and no outcome: it was the
      answer to the last call made. */
  lemma ErrorEndsWait(maxTimeoutMins: int, probe: Probe, clock: Clock)
    requires Monotone(clock)
    ensures var t := WaitTrace(maxTimeoutMins, probe, clock);
      t.result.Err? ==> |t.calls| > 0 && Answer(probe, t.calls[|t.calls| - 1]) == Error(t.result.error)
  {
    RunAnswers(maxTimeoutMins * 60, probe, clock, Start(maxTimeoutMins * 60));
  }

  /** An unstable outcome means the budget ran out: less than a whole second
      of it is left. */
  lemma UnstableMeansExhausted(maxTimeoutMins: int, probe: Probe, clock: Clock)
    requires Monotone(clock)
    ensures var t := WaitTrace(maxTimeoutMins, probe, clock);
      t.result.Ok? && !t.result.value.isStable ==>
        NextTimeout(maxTimeoutMins * 60, t.result.value.timeTakenMs) <= 0 &&
        t.result.value.timeTakenMs > maxTimeoutMins * 60 * 1000 - 1000
  {
    var b := maxTimeoutMins * 60;
    var t := WaitTrace(maxTimeoutMins, probe, clock);
    RunEndsExhausted(b, probe, clock, Start(b));
    if t.result.Ok? {
      PositiveTimeoutNeedsASecondLeft(b, t.result.value.timeTakenMs);
    }
  }

  /** A probe that answers `Success` at once ends the wait after one call with
      the whole first chunk, whatever the clock then reads. */
  lemma StableOnFirstCall(maxTimeoutMins: int, probe: Probe, clock: Clock)
    requires Monotone(clock) && 0 < maxTimeoutMins
    requires probe(1, Min(ChunkCapSecs, maxTimeoutMins * 60)) == Success
    ensures WaitTrace(maxTimeoutMins, probe, clock) ==
      Trace([Call(1, Min(ChunkCapSecs, maxTimeoutMins * 60))], Ok(Outcome(true, 1, Elapsed(clock, 1))))
  {
    var b := maxTimeoutMins * 60;
    assert NextTimeout(b, 0) == Min(ChunkCapSecs, b);
    var next := LoopState(Elapsed(clock, 1), true, 1, NextTimeout(b, Elapsed(clock, 1)));
    RunThrough(b, probe, clock, Start(b), next);
    assert Run(b, probe, clock, next) == Trace([], Ok(Outcome(true, 1, Elapsed(clock, 1))));
  }

  /** A probe that never becomes stable. */
  function NeverStable(): Probe {
    (k: nat, t: int) => NotYetStable
  }

  /** A clock on which every call takes exactly the timeout it was given, for
      a budget of `maxTimeoutSecs` that `k` full chunks cover; once the budget
      is spent it ticks by one millisecond per reading. */
  function SteadyClock(maxTimeoutSecs: int, k: nat): Clock {
    (i: nat) => if i < k then 600000 * i else maxTimeoutSecs * 1000 + (i - k)
  }

  /** The timeouts such a run requests: full chunks, then the remainder. */
  function SteadyCalls(maxTimeoutSecs: int, k: nat, from: nat): seq<Call>
    requires from <= k
    decreases k - from
  {
    if from == k then []
    else
      var timeout := if from + 1 < k then ChunkCapSecs else maxTimeoutSecs - 600 * (k - 1);
      [Call(from + 1, timeout)] + SteadyCalls(maxTimeoutSecs, k, from + 1)
  }

  lemma SteadyClockIsMonotone(maxTimeoutSecs: int, k: nat)
    requires 600 * (k - 1) < maxTimeoutSecs
    ensures Monotone(SteadyClock(maxTimeoutSecs, k))
  {
  }

  /** The state of a steady run before call `from + 1`. */
  function SteadyState(maxTimeoutSecs: int, from: nat): LoopState {
    LoopState(600000 * from, false, from, NextTimeout(maxTimeoutSecs, 600000 * from))
  }

  /** Before call `from + 1` of a steady run a full chunk is requested while more
      than one is left, then the remainder; after the last call nothing is. */
  lemma SteadyTimeout(maxTimeoutSecs: int, k: nat, from: nat)
    requires 600 * (k - 1) < maxTimeoutSecs <= 600 * k && from < k
    ensures NextTimeout(maxTimeoutSecs, 600000 * from) ==
      if from + 1 < k then ChunkCapSecs else maxTimeoutSecs - 600 * (k - 1)
    ensures NextTimeout(maxTimeoutSecs, maxTimeoutSecs * 1000) == 0
  {
    assert maxTimeoutSecs * 1000 - 600000 * from == (maxTimeoutSecs - 600 * from) * 1000;
  }

  /** A call before the last one requests a full chunk and leads to the next
      steady state, so the run from there is that call and the rest. */
  lemma SteadyMiddleCall(maxTimeoutSecs: int, k: nat, from: nat)
    requires 600 * (k - 1) < maxTimeoutSecs <= 600 * k && from + 1 < k
    requires Monotone(SteadyClock(maxTimeoutSecs, k))
    requires Consistent(maxTimeoutSecs, SteadyClock(maxTimeoutSecs, k), SteadyState(maxTimeoutSecs, from + 1))
    requires Run(maxTimeoutSecs, NeverStable(), SteadyClock(maxTimeoutSecs, k), SteadyState(maxTimeoutSecs, from + 1)) ==
      Trace(SteadyCalls(maxTimeoutSecs, k, from + 1), Ok(Outcome(false, k, maxTimeoutSecs * 1000)))
    ensures Consistent(maxTimeoutSecs, SteadyClock(maxTimeoutSecs, k), SteadyState(maxTimeoutSecs, from))
    ensures Run(maxTimeoutSecs, NeverStable(), SteadyClock(maxTimeoutSecs, k), SteadyState(maxTimeoutSecs, from)) ==
      Trace(SteadyCalls(maxTimeoutSecs, k, from), Ok(Outcome(false, k, maxTimeoutSecs * 1000)))
  {
    var clock := SteadyClock(maxTimeoutSecs, k);
    SteadyTimeout(maxTimeoutSecs, k, from);
    assert Elapsed(clock, from) == 600000 * from;
    assert Elapsed(clock, from + 1) == 600000 * (from + 1);
    assert NeverStable()(from + 1, ChunkCapSecs) == NotYetStable;
    RunThrough(maxTimeoutSecs, NeverStable(), clock, SteadyState(maxTimeoutSecs, from), SteadyState(maxTimeoutSecs, from + 1));
    assert SteadyCalls(maxTimeoutSecs, k, from) == [Call(from + 1, ChunkCapSecs)] + SteadyCalls(maxTimeoutSecs, k, from + 1);
  }

  /** The last call requests the remainder and spends the budget. */
  lemma SteadyLastCall(maxTimeoutSecs: int, k: nat, from: nat)
    requires 600 * (k - 1) < maxTimeoutSecs <= 600 * k && from + 1 == k
    requires Monotone(SteadyClock(maxTimeoutSecs, k))
    ensures Consistent(maxTimeoutSecs, SteadyClock(maxTimeoutSecs, k), SteadyState(maxTimeoutSecs, from))
    ensures Run(maxTimeoutSecs, NeverStable(), SteadyClock(maxTimeoutSecs, k), SteadyState(maxTimeoutSecs, from)) ==
      Trace(SteadyCalls(maxTimeoutSecs, k, from), Ok(Outcome(false, k, maxTimeoutSecs * 1000)))
  {
    var clock := SteadyClock(maxTimeoutSecs, k);
    SteadyTimeout(maxTimeoutSecs, k, from);
    RunOnce(maxTimeoutSecs, NeverStable(), clock, SteadyState(maxTimeoutSecs, from));
    var next := LoopState(maxTimeoutSecs * 1000, false, k, NextTimeout(maxTimeoutSecs, maxTimeoutSecs * 1000));
    assert Elapsed(clock, k) == maxTimeoutSecs * 1000;
    assert Run(maxTimeoutSecs, NeverStable(), clock, next) == Trace([], Ok(Outcome(false, k, maxTimeoutSecs * 1000)));
    assert SteadyCalls(maxTimeoutSecs, k, from) == [Call(k, maxTimeoutSecs - 600 * (k - 1))];
  }

  lemma {:induction false} SteadyRun(maxTimeoutSecs: int, k: nat, from: nat)
    requires 600 * (k - 1) < maxTimeoutSecs <= 600 * k && from < k
    requires Monotone(SteadyClock(maxTimeoutSecs, k))
    ensures Consistent(maxTimeoutSecs, SteadyClock(maxTimeoutSecs, k), SteadyState(maxTimeoutSecs, from))
    ensures Run(maxTimeoutSecs, NeverStable(), SteadyClock(maxTimeoutSecs, k), SteadyState(maxTimeoutSecs, from)) ==
      Trace(SteadyCalls(maxTimeoutSecs, k, from), Ok(Outcome(false, k, maxTimeoutSecs * 1000)))
    decreases k - from
  {
    if from + 1 < k {
      SteadyRun(maxTimeoutSecs, k, from + 1);
      SteadyMiddleCall(maxTimeoutSecs, k, from);
    } else {
      SteadyLastCall(maxTimeoutSecs, k, from);
    }
  }

  /** With a probe that never succeeds and calls that each take exactly their
      timeout, a positive budget is spent in `k` calls, `k` being the number of
      600-second chunks that cover it: full chunks, then the remainder. */
  lemma SteadyClockExhaustsBudget(maxTimeoutMins: int, k: nat)
    requires 0 < maxTimeoutMins && 600 * (k - 1) < maxTimeoutMins * 60 <= 600 * k
    ensures Monotone(SteadyClock(maxTimeoutMins * 60, k))
    ensures WaitTrace(maxTimeoutMins, NeverStable(), SteadyClock(maxTimeoutMins * 60, k)) ==
      Trace(SteadyCalls(maxTimeoutMins * 60, k, 0), Ok(Outcome(false, k, maxTimeoutMins * 60000)))
  {
    SteadyClockIsMonotone(maxTimeoutMins * 60, k);
    SteadyRun(maxTimeoutMins * 60, k, 0);
  }

  /** A 25-minute budget requests 600, 600 and 300 seconds, then stops. */
  lemma TwentyFiveMinutes()
    ensures Monotone(SteadyClock(1500, 3))
    ensures WaitTrace(25, NeverStable(), SteadyClock(1500, 3)) ==
      Trace([Call(1, 600), Call(2, 600), Call(3, 300)], Ok(Outcome(false, 3, 1500000)))
  {
    SteadyClockExhaustsBudget(25, 3);
    assert SteadyCalls(1500, 3, 0) == [Call(1, 600), Call(2, 600), Call(3, 300)];
  }
}
