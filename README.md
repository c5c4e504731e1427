# ecs-wait-action, modelled in Dafny

The GitHub Action `ecs-wait-action` waits until a set of ECS services in a
cluster is stable, or until a budget of minutes runs out. The action caps
each call of the AWS waiter at 600 seconds: it splits its budget into
sub-waits of at most 600 whole seconds. After each sub-wait it re-reads
the wall clock, and it stops at the first success or when less than a whole
second of the budget is left (`customWait`).

Before waiting, the action resolves its parameters (`extractParams`). The
three AWS credentials come from the inputs or from the environment. The
service list is either a wildcard, meaning every service in the cluster, or
a JSON text that must denote a non-empty array of strings (`checkServices`,
`isStringArray`). The entry point (`main`) then reports one of three things:
a failure message, "not stable", or the number of tries and the time taken.

Modules:

- `Wrappers`: `Option` and `Result`.
- `Wait`: the loop. `CustomWait` is a method with a `while` loop, proved
  against the functions `Step` and `Run`. These functions give the same loop
  as a value: a `Trace` of every probe call and how the wait ended.
- `WaitLemmas`: what the loop promises about its calls, timeouts and
  outcome. It also works a steady-clock example, where 25 minutes request
  600, 600 and 300 seconds.
- `Services`, `ServicesLemmas`: the service-list validation over a JSON value
  datatype.
- `Action`, `ActionLemmas`: the credentials guard, `extractParams` and
  `main`.

The environment is made of parameters:

- The readiness probe is a function `probe(k, t)`. It gives the answer to
  the k-th call, made with a timeout of `t` seconds: `Success`,
  `NotYetStable` or `Error(cause)`.
- The wall clock is a function `clock(k)` in integer milliseconds. `clock(0)`
  is the start reading, and `clock(k)` is the reading after the k-th call. It
  must be strictly increasing, which is the only guarantee that the loop ends
  while the probe never succeeds. Each timeout depends only on earlier
  readings, so indexing the clock by call number loses nothing.
- The JSON parser is a function from text to a value or an error message.
- The cluster listing is a value: the listed ARNs, possibly absent, or the
  message of the failed request.

Elapsed time is kept in integer milliseconds. The source's `timeTakenSecs`
is that value divided by 1000 (`Outcome.TimeTakenSecs`), and the action's
"stable" report gives it in those seconds. The source compares
`timeTakenSecs < maxTimeoutSecs`, which the model compares in milliseconds.
It computes `Math.floor(Math.min(600, maxTimeoutSecs - timeTakenSecs))`, which
the model computes as `Min(600, (maxTimeoutSecs * 1000 - timeTakenMs) / 1000)`.
`WaitLemmas.NextTimeoutIsFlooredMinimum` proves that the two agree on reals.

Two facts about the code are worth stating, because a reader might expect
otherwise:

- When the first call succeeds, `timeTakenSecs` is whatever the clock reads
  after that call, which may exceed the budget: nothing bounds it
  (`WaitLemmas.StableOnFirstCall`).
- Nothing but the clock's advance bounds the number of calls. A clock that
  advances by less than the requested timeout allows more calls than the
  budget divided by 600, up to one per millisecond of budget.

## Model

| member | source | states |
|---|---|---|
| Wait.NextTimeout | src/index.ts:33 | the next timeout is at most 600, fits in what is left of the budget, and is the largest whole number of seconds that does unless the cap applies |
| Wait.Step | src/index.ts:23-33 | one iteration numbers the call one higher; it fails exactly when the probe fails, with the probe's error; otherwise the new state holds the last clock reading and the timeout computed from it, and is stable exactly when the probe answered `Success` |
| Wait.Run | src/index.ts:22-35 | the rest of the loop: an outcome's `currTry` counts the calls made, and its time is the last clock reading minus the start; an error comes only after a call |
| Wait.Outcome.TimeTakenSecs | src/index.ts:32 | the time taken in seconds is the millisecond delta divided by 1000, and is not negative when the delta is not |
| Wait.Start | src/index.ts:16-21 | the loop starts with no tries, no time taken, not stable, and a first timeout of the smaller of 600 and the budget in seconds; that state agrees with every clock |
| Wait.Continues | src/index.ts:22 | the loop goes on only with a timeout of at least one second and the services not yet stable; with the timeout computed from the elapsed time, at least a second of the budget is then left |
| Wait.WaitTrace | src/index.ts:15-36 | the whole wait as a value: an error comes only after a call; an outcome's `currTry` is the number of calls and its time is the last reading minus the start |
| Wait.CustomWait | src/index.ts:15-36 | the loop returns the result of `WaitTrace`, the outcome or the error of the call that failed, and makes exactly its calls, in order |
| WaitLemmas.NextTimeoutIsFlooredMinimum | src/index.ts:33 | the integer timeout equals the floor of the real minimum of 600 and the budget left in seconds |
| WaitLemmas.PositiveTimeoutNeedsASecondLeft | src/index.ts:22-33 | the next timeout is positive exactly when at least one whole second of the budget is left |
| WaitLemmas.NextTimeoutNeverGrows | src/index.ts:33 | more elapsed time never gives a larger timeout |
| WaitLemmas.RunCalls | src/index.ts:21-33 | every call from a loop state carries its number and the timeout computed from the reading before it, which was positive, with elapsed time under the budget |
| WaitLemmas.RunAnswers | src/index.ts:22-31 | every call but the last answered `NotYetStable`; the last answer decides the ending: error, stable or not |
| WaitLemmas.RunEndsExhausted | src/index.ts:22 | a loop that ends with an outcome that is not stable ends with no positive timeout left |
| WaitLemmas.NoBudgetNoCalls | src/index.ts:16-22 | no call is made exactly when the budget is zero minutes or less, and then the outcome is not stable, with zero tries and zero time |
| WaitLemmas.TimeoutsWithinBudget | src/index.ts:21-33 | calls are numbered 1, 2, ... in order; every timeout is a whole number from 1 to 600 and fits in what is left of the budget when it is computed |
| WaitLemmas.TimeoutsNeverGrow | src/index.ts:32-33 | a later call never gets a larger timeout than an earlier one |
| WaitLemmas.OutcomeReflectsCalls | src/index.ts:17-35 | `currTry` is the number of calls; the time taken is the last reading minus the start, zero without calls, and later than every earlier reading; the outcome is stable exactly when the last call answered `Success` |
| WaitLemmas.StopsAtFirstSuccess | src/index.ts:22-31 | no call follows a `Success`: every call before the last answered `NotYetStable` |
| WaitLemmas.ErrorEndsWait | src/index.ts:27 | a probe error ends the wait with that error and no outcome, and it answered the last call made |
| WaitLemmas.UnstableMeansExhausted | src/index.ts:22-33 | an outcome that is not stable means the loop ran out of budget: less than one second was left |
| WaitLemmas.StableOnFirstCall | src/index.ts:21-35 | a first call that succeeds ends the wait with one try, the first chunk as its timeout, and the clock's reading as the time taken |
| WaitLemmas.SteadyClockExhaustsBudget | src/index.ts:21-33 | with a probe that never succeeds and a clock that advances by each full chunk, the wait requests full chunks and then the remainder, and ends not stable after the whole budget |
| WaitLemmas.TwentyFiveMinutes | src/index.ts:21-33 | under that clock, 25 minutes request 600, 600 and 300 seconds and end not stable after 1500 seconds |
| Services.IsStringArray | src/index.ts:49-51 | an array of only strings, which its strings spell back exactly; the empty array qualifies |
| Services.Message | src/index.ts:62-65 | the message of a thrown error: the request's or parser's own, "ECS services array must contain only strings", or "ECS services array cannot be empty" |
| Services.Strings | src/index.ts:49-51 | the strings read from an array of strings spell back the same items |
| Services.CheckServices | src/index.ts:53-68 | the wildcard branch is taken exactly with `''`, `undefined` or `'*'` and a successful listing; a named list is non-empty and is exactly what the input parsed to |
| ServicesLemmas.StringsRoundTrip | src/index.ts:49-51 | reading the strings back from their JSON items gives the same list, and the other way round |
| ServicesLemmas.IsStringArrayExactly | src/index.ts:49-51 | `isStringArray` holds exactly of an array that spells a list of strings |
| ServicesLemmas.ListAllSkipsParsing | src/index.ts:54-57 | with `''`, `undefined` or `'*'` the parser is never consulted and the result is the cluster listing, or its failure |
| ServicesLemmas.AcceptsNonEmptyStringArrays | src/index.ts:59-67 | otherwise a list of names is accepted exactly when the input parses to an array of exactly those strings and the list is not empty |
| ServicesLemmas.RejectionOrder | src/index.ts:59-66 | a parser error is passed on first, with the parser's own message; anything but an array of strings is refused as "must contain only strings"; then the empty array, which passed that check, is refused as "cannot be empty" |
| Action.Either | src/index.ts:75-77 | the input, or else the environment variable, is truthy exactly when the input is non-empty or the variable is, and is the input when that is non-empty |
| Action.SetupMessage | src/index.ts:78-81 | a missing credential fails with "AWS credentials were not found in inputs or environment variables."; a refused service list fails with the refusal's message |
| Action.FindCredentials | src/index.ts:75-83 | credentials are found exactly when each of the three comes non-empty from its input or its environment variable, and an input that is non-empty wins |
| Action.ExtractParams | src/index.ts:74-98 | missing credentials are reported before the service list is examined; a refused service list is reported with the refusal `checkServices` gave; otherwise the parameters hold the credentials found, the checked services, the budget, the cluster, and whether `verbose` is `"true"` |
| Action.Main | src/index.ts:103-125 | a setup error makes no probe call and fails; success reports the number of calls as retries, and the last call answered `Success`; a failure after calls carries the message of the error the last call answered |
| ActionLemmas.MissingCredentialsNeverPoll | src/index.ts:74-109 | any credential missing from both its input and its environment fails the action with the credentials message, before any probe call |
| ActionLemmas.BadServicesNeverPoll | src/index.ts:104-123 | a refused service list fails the action with the refusal's message, before any probe call |
| ActionLemmas.StableExactlyWhenLastSucceeded | src/index.ts:111-120 | with parameters read, the action makes exactly the calls of the wait, and reports stable exactly when the last call answered `Success`, with the time of the last reading in seconds |
| ActionLemmas.NotStableMeansExhausted | src/index.ts:111-114 | a "not stable" report names the checked services, and comes only after every call answered `NotYetStable` and less than a second of the budget was left |

## Left out

- The AWS SDK: `waitUntilServicesStable`, `ListServicesCommand` and the client construction. The probe and the listing are parameters. The SDK waiter's own behaviour, including throwing when it times out, is part of the probe, which may answer anything.
- The probe is one function for the whole run, independent of the cluster and the services it would be given.
- The ARNs the listing returns are passed through unchecked, as the source does: nothing is promised about them.
- GitHub Actions I/O and logging: `getInput`, `setFailed`, `setOutput`, and the `console` messages, including the verbose ones. The inputs are a value, and `Report` stands for what would be written.
- The `required: true` check on the `ecs-cluster` input: the cluster is taken as given.
- `JSON.parse`: the parser is a parameter, and the model works on the `Json` value it returns.
- `parseInt` of the budget: the model takes the parsed integer. A non-numeric input gives `NaN` in the source, whose first timeout is `NaN`; `NaN > 0` is false, so the source then behaves as with a zero budget.
- Floating point: time is kept in integer milliseconds, so `timeTakenSecs` is exact here. `Action.Main` gives the "not stable" report's time in milliseconds and the "stable" report's in exact seconds. It does not model the decimal text `toString` gives those seconds, the minutes `Math.round(timeTakenSecs / 60)` in the "not stable" message, nor that message's text.
- `Date.now`: a clock parameter that must increase strictly between readings. A clock that stands still for good would make the source loop forever.
- Runs in which a clock reading repeats the one before it, or goes back (two readings in the same millisecond, or `Date.now` stepped back), are not modelled. The source handles them without trouble: it makes another call with the timeout computed from that reading.
- `async`/`await`: the loop is sequential, and the model is too.
- A bound on the number of probe calls: the code has none beyond the clock's advance (see above).
