/** The action's entry point: read the parameters (credentials first, then the
    service list), wait for stability, and report. The action's inputs and
    environment variables are given as values. What the action would write
    (its failure message, or its outputs) is the `Report`, together with the
    probe calls made. */
module Action {
  import opened Wrappers
  import opened Wait
  import opened WaitLemmas
  import opened Services

  /** JavaScript truthiness of a string that may be `undefined`. */
  predicate Truthy(v: Option<string>) {
    v.Some? && v.value != ""
  }

  /** `input || env`: the input when it is not empty, otherwise the environment
      variable, whatever it holds. */
  function Either(input: string, env: Option<string>): (v: Option<string>)
    ensures Truthy(v) <==> input != "" || Truthy(env)
    ensures Truthy(v) ==> v.value == input || (input == "" && Some(v.value) == env)
  {
    if input != "" then Some(input) else env
  }

  /** The action's inputs; an unset input reads as the empty string. */
  datatype Inputs = Inputs(
    accessKeyId: string,
    secretAccessKey: string,
    region: string,
    maxTimeoutMins: int,
    cluster: string,
    verbose: string,
    ecsServices: Option<string>)

  /** The environment variables the credentials fall back to. */
  datatype Environment = Environment(
    accessKeyId: Option<string>,
    secretAccessKey: Option<string>,
    region: Option<string>)

  datatype Credentials = Credentials(accessKeyId: string, secretAccessKey: string, region: string)

  datatype Params = Params(
    maxTimeoutMins: int,
    cluster: string,
    services: Targets,
    verbose: bool,
    credentials: Credentials)

  datatype SetupError = MissingCredentials | BadServices(cause: ServiceError)

  /** The message the action fails with when setting up fails. */
  function SetupMessage(e: SetupError): (m: string)
    ensures e == MissingCredentials ==> m == "AWS credentials were not found in inputs or environment variables."
    ensures e.BadServices? ==> m == Message(e.cause)
  {
    match e
    case MissingCredentials => "AWS credentials were not found in inputs or environment variables."
    case BadServices(cause) => Message(cause)
  }

  /** The guard of `extractParams`: all three credentials must be non-empty,
      each taken from its input or else from its environment variable. */
  function FindCredentials(inputs: Inputs, env: Environment): (r: Option<Credentials>)
    ensures r.Some? <==>
      (inputs.accessKeyId != "" || Truthy(env.accessKeyId)) &&
      (inputs.secretAccessKey != "" || Truthy(env.secretAccessKey)) &&
      (inputs.region != "" || Truthy(env.region))
    ensures r.Some? ==>
      r.value.accessKeyId != "" && r.value.secretAccessKey != "" && r.value.region != "" &&
      (inputs.accessKeyId != "" ==> r.value.accessKeyId == inputs.accessKeyId) &&
      (inputs.secretAccessKey != "" ==> r.value.secretAccessKey == inputs.secretAccessKey) &&
      (inputs.region != "" ==> r.value.region == inputs.region)
  {
    var accessKeyId := Either(inputs.accessKeyId, env.accessKeyId);
    var secretAccessKey := Either(inputs.secretAccessKey, env.secretAccessKey);
    var region := Either(inputs.region, env.region);
    if !Truthy(accessKeyId) || !Truthy(secretAccessKey) || !Truthy(region) then None
    else Some(Credentials(accessKeyId.value, secretAccessKey.value, region.value))
  }

  /** `extractParams`. The service list is checked only once the credentials
      are found, since the cluster listing needs a connection. */
  function ExtractParams(inputs: Inputs, env: Environment, parse: Parser, listing: Listing): (r: Result<Params, SetupError>)
    ensures r == Err(MissingCredentials) <==> FindCredentials(inputs, env).None?
    ensures r.Err? && r.error.BadServices? <==>
      FindCredentials(inputs, env).Some? && CheckServices(inputs.ecsServices, parse, listing).Err?
    ensures r.Err? && r.error.BadServices? ==> CheckServices(inputs.ecsServices, parse, listing) == Err(r.error.cause)
    ensures r.Ok? ==>
      Some(r.value.credentials) == FindCredentials(inputs, env) &&
      Ok(r.value.services) == CheckServices(inputs.ecsServices, parse, listing) &&
      r.value.maxTimeoutMins == inputs.maxTimeoutMins &&
      r.value.cluster == inputs.cluster &&
      (r.value.verbose <==> inputs.verbose == "true")
  {
    match FindCredentials(inputs, env)
    case None => Err(MissingCredentials)
    case Some(credentials) =>
      match CheckServices(inputs.ecsServices, parse, listing)
      case Err(cause) => Err(BadServices(cause))
      case Ok(services) =>
        Ok(Params(inputs.maxTimeoutMins, inputs.cluster, services, inputs.verbose == "true", credentials))
  }

  /** What the action reports: a failure message; that the services are not
      stable, naming them and the time taken; or its two outputs, the number of
      tries and the time taken in seconds. */
  datatype Report =
    | Failed(message: string)
    | NotStable(services: Targets, timeTakenMs: int)
    | Stable(retries: nat, timeTakenSecs: real)

  /** The probe calls made, and the report. */
  datatype Effect = Effect(calls: seq<Call>, report: Report)

  /** `main`. A thrown probe error is caught and reported with its message. */
  function Main(inputs: Inputs, env: Environment, parse: Parser, listing: Listing, probe: Probe, clock: Clock): (a: Effect)
    requires Monotone(clock)
    ensures ExtractParams(inputs, env, parse, listing).Err? ==> a.calls == [] && a.report.Failed?
    ensures a.report.Stable? ==>
      a.report.retries == |a.calls| > 0 && Answer(probe, a.calls[|a.calls| - 1]) == Success
    ensures a.report.Failed? && a.calls != [] ==>
      Answer(probe, a.calls[|a.calls| - 1]) == Error(a.report.message)
  {
    match ExtractParams(inputs, env, parse, listing)
    case Err(e) => Effect([], Failed(SetupMessage(e)))
    case Ok(params) =>
      var t := WaitTrace(params.maxTimeoutMins, probe, clock);
      OutcomeReflectsCalls(params.maxTimeoutMins, probe, clock);
      ErrorEndsWait(params.maxTimeoutMins, probe, clock);
      match t.result
      case Err(cause) => Effect(t.calls, Failed(cause))
      case Ok(outcome) =>
        if !outcome.isStable then Effect(t.calls, NotStable(params.services, outcome.timeTakenMs))
        else Effect(t.calls, Stable(outcome.currTry, outcome.TimeTakenSecs()))
  }
}
