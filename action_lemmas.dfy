/** How the action's report relates to the parameters and the probe calls. */
module ActionLemmas {
  import opened Wrappers
  import opened Wait
  import opened WaitLemmas
  import opened Services
  import opened Action

  /** Any missing credential fails the action with the credentials message,
      before any probe call. */
  lemma MissingCredentialsNeverPoll(inputs: Inputs, env: Environment, parse: Parser, listing: Listing, probe: Probe, clock: Clock)
    requires Monotone(clock)
    requires (inputs.accessKeyId == "" && !Truthy(env.accessKeyId)) ||
             (inputs.secretAccessKey == "" && !Truthy(env.secretAccessKey)) ||
             (inputs.region == "" && !Truthy(env.region))
    ensures Main(inputs, env, parse, listing, probe, clock) ==
      Effect([], Failed("AWS credentials were not found in inputs or environment variables."))
  {
  }

  /** A refused service list fails the action with the refusal's message,
      before any probe call. */
  lemma BadServicesNeverPoll(inputs: Inputs, env: Environment, parse: Parser, listing: Listing, probe: Probe, clock: Clock)
    requires Monotone(clock)
    requires FindCredentials(inputs, env).Some?
    requires CheckServices(inputs.ecsServices, parse, listing).Err?
    ensures Main(inputs, env, parse, listing, probe, clock) ==
      Effect([], Failed(Message(CheckServices(inputs.ecsServices, parse, listing).error)))
  {
  }

  /** Once the parameters are read, the action makes exactly the calls of the
      wait, and reports success exactly when the last of them answered
      `Success`, with the number of calls as the retries. */
  lemma StableExactlyWhenLastSucceeded(inputs: Inputs, env: Environment, parse: Parser, listing: Listing, probe: Probe, clock: Clock)
    requires Monotone(clock)
    requires ExtractParams(inputs, env, parse, listing).Ok?
    ensures var a := Main(inputs, env, parse, listing, probe, clock);
      var mins := ExtractParams(inputs, env, parse, listing).value.maxTimeoutMins;
      a.calls == WaitTrace(mins, probe, clock).calls &&
      (a.report.Stable? <==> a.calls != [] && Answer(probe, a.calls[|a.calls| - 1]) == Success) &&
      (a.report.Stable? ==> a.report.timeTakenSecs * 1000.0 == Elapsed(clock, |a.calls|) as real)
  {
    var mins := ExtractParams(inputs, env, parse, listing).value.maxTimeoutMins;
    OutcomeReflectsCalls(mins, probe, clock);
    ErrorEndsWait(mins, probe, clock);
  }

  /** A "not stable" report means every call answered `NotYetStable` and less
      than a whole second of the budget was left. */
  lemma NotStableMeansExhausted(inputs: Inputs, env: Environment, parse: Parser, listing: Listing, probe: Probe, clock: Clock)
    requires Monotone(clock)
    ensures var a := Main(inputs, env, parse, listing, probe, clock);
      a.report.NotStable? ==>
        ExtractParams(inputs, env, parse, listing).Ok? &&
        a.report.services == ExtractParams(inputs, env, parse, listing).value.services &&
        a.report.timeTakenMs > ExtractParams(inputs, env, parse, listing).value.maxTimeoutMins * 60 * 1000 - 1000 &&
        forall i | 0 <= i < |a.calls| :: Answer(probe, a.calls[i]) == NotYetStable
  {
    var a := Main(inputs, env, parse, listing, probe, clock);
    if a.report.NotStable? {
      var mins := ExtractParams(inputs, env, parse, listing).value.maxTimeoutMins;
      OutcomeReflectsCalls(mins, probe, clock);
      StopsAtFirstSuccess(mins, probe, clock);
      UnstableMeansExhausted(mins, probe, clock);
      var n := |a.calls|;
      if n > 0 {
        assert Answer(probe, a.calls[n - 1]) == NotYetStable;
      }
    }
  }
}
