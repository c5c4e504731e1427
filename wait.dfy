/** The deadline-bounded retry loop `customWait`: the total budget of
    `maxTimeoutMins * 60` seconds is spent in sub-waits of at most 600 s on a
    readiness probe, until the probe reports success or the budget runs out.

    The probe and the wall clock are parameters. `probe(k, t)` is the answer to
    the k-th call (numbered from 1) made with a timeout of `t` seconds;
    `clock(0)` is the reading taken at the start and `clock(k)` the reading taken
    right after the k-th call, in integer milliseconds. Since every timeout is
    determined by the earlier readings, indexing the environment by call number
    loses no generality. */
module Wait {
  import opened Wrappers

  /** The per-call ceiling of the readiness check, in seconds. */
  const ChunkCapSecs: int := 600

  datatype ProbeResult = Success | NotYetStable | Error(cause: string)

  /** One call of the probe: its number and the timeout it was given. */
  datatype Call = Call(try: nat, timeoutSecs: int)

  /** What `customWait` returns. Elapsed time is kept in milliseconds. */
  datatype Outcome = Outcome(isStable: bool, currTry: nat, timeTakenMs: int)
  {
    /** The source's `timeTakenSecs`, the millisecond delta divided by 1000. */
    function TimeTakenSecs(): (secs: real)
      ensures secs * 1000.0 == timeTakenMs as real
      ensures timeTakenMs >= 0 ==> secs >= 0.0
    {
      timeTakenMs as real / 1000.0
    }
  }

  /** The four locals the loop reassigns. */
  datatype LoopState = LoopState(timeTakenMs: int, isStable: bool, currTry: nat, thisTimeoutSecs: int)

  /** Every probe call made, in order, and how the wait ended: with an outcome,
      or with the error of the probe call that ended it. */
  datatype Trace = Trace(calls: seq<Call>, result: Result<Outcome, string>)

  type Probe = (nat, int) -> ProbeResult
  type Clock = nat -> int

  /** A clock that advances by at least one millisecond between readings. */
  ghost predicate Monotone(clock: Clock) {
    forall i: nat, j: nat :: i < j ==> clock(i) < clock(j)
  }

  function Min(a: int, b: int): int {
    if a <= b then a else b
  }

  /** Milliseconds between the start and the reading after the k-th call. */
  function Elapsed(clock: Clock, k: nat): int {
    clock(k) - clock(0)
  }

  /** `Math.floor(Math.min(600, maxTimeoutSecs - timeTakenSecs))` on a
      millisecond delta: the largest whole number of seconds that is at most the
      cap and at most what is left of the budget. Dafny's `/` by a positive
      divisor rounds down, as `Math.floor` does. */
  function NextTimeout(maxTimeoutSecs: int, timeTakenMs: int): (t: int)
    ensures t <= ChunkCapSecs
    ensures t * 1000 <= maxTimeoutSecs * 1000 - timeTakenMs
    ensures t == ChunkCapSecs || maxTimeoutSecs * 1000 - timeTakenMs < (t + 1) * 1000
  {
    Min(ChunkCapSecs, (maxTimeoutSecs * 1000 - timeTakenMs) / 1000)
  }

  /** The loop condition. `timeTakenSecs < maxTimeoutSecs` is compared in
      milliseconds. */
  function Continues(maxTimeoutSecs: int, s: LoopState): (goesOn: bool)
    ensures goesOn ==> 1 <= s.thisTimeoutSecs && !s.isStable
    ensures goesOn && s.thisTimeoutSecs == NextTimeout(maxTimeoutSecs, s.timeTakenMs) ==>
      s.timeTakenMs <= maxTimeoutSecs * 1000 - 1000
  {
    s.thisTimeoutSecs > 0 && s.timeTakenMs < maxTimeoutSecs * 1000 && !s.isStable
  }

  /** What holds of every state the loop reaches: the elapsed time is the last
      clock reading, and the next timeout was computed from it. */
  predicate Consistent(maxTimeoutSecs: int, clock: Clock, s: LoopState) {
    s.timeTakenMs == Elapsed(clock, s.currTry) &&
    s.thisTimeoutSecs == NextTimeout(maxTimeoutSecs, s.timeTakenMs)
  }

  /** The state before the loop. */
  function Start(maxTimeoutSecs: int): (s: LoopState)
    ensures s.currTry == 0 && s.timeTakenMs == 0 && !s.isStable
    ensures s.thisTimeoutSecs == Min(ChunkCapSecs, maxTimeoutSecs)
    ensures forall clock: Clock :: Consistent(maxTimeoutSecs, clock, s)
  {
    LoopState(0, false, 0, NextTimeout(maxTimeoutSecs, 0))
  }

  /** One iteration of the loop body: call the probe with the current timeout,
      then re-read the clock and recompute the timeout. A probe error ends the
      iteration with that error. */
  function Step(maxTimeoutSecs: int, probe: Probe, clock: Clock, s: LoopState): (r: Result<LoopState, string>)
    requires Continues(maxTimeoutSecs, s)
    ensures r.Err? <==> probe(s.currTry + 1, s.thisTimeoutSecs).Error?
    ensures r.Err? ==> probe(s.currTry + 1, s.thisTimeoutSecs) == Error(r.error)
    ensures r.Ok? ==> r.value.currTry == s.currTry + 1 && Consistent(maxTimeoutSecs, clock, r.value)
    ensures r.Ok? ==> (r.value.isStable <==> probe(s.currTry + 1, s.thisTimeoutSecs) == Success)
  {
    var try := s.currTry + 1;
    var res := probe(try, s.thisTimeoutSecs);
    if res.Error? then Err(res.cause)
    else
      var timeTakenMs := Elapsed(clock, try);
      Ok(LoopState(timeTakenMs, res == Success, try, NextTimeout(maxTimeoutSecs, timeTakenMs)))
  }

  /** The rest of the loop from state `s`. */
  function Run(maxTimeoutSecs: int, probe: Probe, clock: Clock, s: LoopState): (t: Trace)
    requires Monotone(clock) && Consistent(maxTimeoutSecs, clock, s)
    ensures t.result.Err? ==> |t.calls| > 0
    ensures t.result.Ok? ==> t.result.value.currTry == s.currTry + |t.calls|
    ensures t.result.Ok? ==> t.result.value.timeTakenMs == Elapsed(clock, t.result.value.currTry)
    decreases maxTimeoutSecs * 1000 - s.timeTakenMs
  {
    if !Continues(maxTimeoutSecs, s) then
      Trace([], Ok(Outcome(s.isStable, s.currTry, s.timeTakenMs)))
    else
      var call := Call(s.currTry + 1, s.thisTimeoutSecs);
      match Step(maxTimeoutSecs, probe, clock, s)
      case Err(cause) => Trace([call], Err(cause))
      case Ok(next) =>
        var rest := Run(maxTimeoutSecs, probe, clock, next);
        Trace([call] + rest.calls, rest.result)
  }

  /** The whole wait, as a value. */
  function WaitTrace(maxTimeoutMins: int, probe: Probe, clock: Clock): (t: Trace)
    requires Monotone(clock)
    ensures t.result.Err? ==> |t.calls| > 0
    ensures t.result.Ok? ==> t.result.value.currTry == |t.calls|
    ensures t.result.Ok? ==> t.result.value.timeTakenMs == Elapsed(clock, |t.calls|)
  {
    Run(maxTimeoutMins * 60, probe, clock, Start(maxTimeoutMins * 60))
  }

  /** Unfolds `Run` by one iteration from a state where the loop goes on. */
  lemma RunOnce(maxTimeoutSecs: int, probe: Probe, clock: Clock, s: LoopState)
    requires Monotone(clock) && Consistent(maxTimeoutSecs, clock, s) && Continues(maxTimeoutSecs, s)
    ensures var res := probe(s.currTry + 1, s.thisTimeoutSecs);
      res.Error? ==> Run(maxTimeoutSecs, probe, clock, s) == Trace([Call(s.currTry + 1, s.thisTimeoutSecs)], Err(res.cause))
    ensures var res := probe(s.currTry + 1, s.thisTimeoutSecs);
      var timeTakenMs := Elapsed(clock, s.currTry + 1);
      var next := LoopState(timeTakenMs, res == Success, s.currTry + 1, NextTimeout(maxTimeoutSecs, timeTakenMs));
      !res.Error? ==>
        Consistent(maxTimeoutSecs, clock, next) &&
        Run(maxTimeoutSecs, probe, clock, s) ==
          Trace([Call(s.currTry + 1, s.thisTimeoutSecs)] + Run(maxTimeoutSecs, probe, clock, next).calls,
                Run(maxTimeoutSecs, probe, clock, next).result)
  {
  }

  /** `RunOnce` for a probe answer that is not an error, with the next state
      named by the caller. */
  lemma RunThrough(maxTimeoutSecs: int, probe: Probe, clock: Clock, s: LoopState, next: LoopState)
    requires Monotone(clock) && Consistent(maxTimeoutSecs, clock, s) && Continues(maxTimeoutSecs, s)
    requires !probe(s.currTry + 1, s.thisTimeoutSecs).Error?
    requires next.currTry == s.currTry + 1 && next.timeTakenMs == Elapsed(clock, s.currTry + 1)
    requires next.isStable == (probe(s.currTry + 1, s.thisTimeoutSecs) == Success)
    requires next.thisTimeoutSecs == NextTimeout(maxTimeoutSecs, next.timeTakenMs)
    ensures Consistent(maxTimeoutSecs, clock, next)
    ensures Run(maxTimeoutSecs, probe, clock, s) ==
      Trace([Call(s.currTry + 1, s.thisTimeoutSecs)] + Run(maxTimeoutSecs, probe, clock, next).calls,
            Run(maxTimeoutSecs, probe, clock, next).result)
  {
    RunOnce(maxTimeoutSecs, probe, clock, s);
  }

  /** Sequence associativity, stated separately: `CustomWait`'s proof runs out
      of resources on some solver seeds without it. */
  lemma AppendCall(done: seq<Call>, c: Call, rest: seq<Call>)
    ensures (done + [c]) + rest == done + ([c] + rest)
  {
  }

  /** `customWait`. The ghost `calls` records each probe call as it is made. */
  method CustomWait(maxTimeoutMins: int, probe: Probe, clock: Clock)
    returns (r: Result<Outcome, string>, ghost calls: seq<Call>)
    requires Monotone(clock)
    ensures r == WaitTrace(maxTimeoutMins, probe, clock).result
    ensures WaitTrace(maxTimeoutMins, probe, clock) == Trace(calls, r)
  {
    var maxTimeoutSecs := maxTimeoutMins * 60;
    var timeTakenMs := 0;
    var startTime := clock(0);
    var isStable := false;
    var currTry: nat := 0;
    var thisTimeoutSecs := NextTimeout(maxTimeoutSecs, 0);
    calls := [];
    ghost var whole := WaitTrace(maxTimeoutMins, probe, clock);
    ghost var rest := whole;
    while thisTimeoutSecs > 0 && timeTakenMs < maxTimeoutSecs * 1000 && !isStable
      invariant Consistent(maxTimeoutSecs, clock, LoopState(timeTakenMs, isStable, currTry, thisTimeoutSecs))
      invariant rest == Run(maxTimeoutSecs, probe, clock, LoopState(timeTakenMs, isStable, currTry, thisTimeoutSecs))
      invariant whole == Trace(calls + rest.calls, rest.result)
      decreases maxTimeoutSecs * 1000 - timeTakenMs
    {
      RunOnce(maxTimeoutSecs, probe, clock, LoopState(timeTakenMs, isStable, currTry, thisTimeoutSecs));
      currTry := currTry + 1;
      var res := probe(currTry, thisTimeoutSecs);
      var call := Call(currTry, thisTimeoutSecs);
      AppendCall(calls, call, []);
      calls := calls + [call];
      if res.Error? {
        r := Err(res.cause);
        return;
      }
      if res == Success {
        isStable := true;
      }
      timeTakenMs := clock(currTry) - startTime;
      thisTimeoutSecs := NextTimeout(maxTimeoutSecs, timeTakenMs);
      rest := Run(maxTimeoutSecs, probe, clock, LoopState(timeTakenMs, isStable, currTry, thisTimeoutSecs));
      AppendCall(calls[..|calls| - 1], call, rest.calls);
    }
    r := Ok(Outcome(isStable, currTry, timeTakenMs));
  }
}
