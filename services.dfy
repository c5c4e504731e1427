/** Validation of the `ecs-services` input (`isStringArray` and
    `checkServices`). The input is either a wildcard, meaning every service of
    the cluster, or a JSON text that must denote a non-empty array of strings.

    The JSON parser and the cluster listing are parameters: the parser is a
    function from text to a parsed value or the parser's error message, and the
    listing is the list of service ARNs the cluster returned (possibly absent),
    or the error message of the failed request. */
module Services {
  import opened Wrappers

  /** A value `JSON.parse` can produce. */
  datatype Json =
    | JNull
    | JBool(b: bool)
    | JNumber(n: real)
    | JString(s: string)
    | JArray(items: seq<Json>)
    | JObject(members: seq<(string, Json)>)

  type Parser = string -> Result<Json, string>
  type Listing = Result<Option<seq<string>>, string>

  /** The services to wait for: everything the cluster listing returned, or
      the names given in the input. */
  datatype Targets = AllInCluster(arns: Option<seq<string>>) | Named(names: seq<string>)

  /** Why the service list was refused. `ListingFailed` and `MalformedJson`
      carry the message of the request or parser that threw. */
  datatype ServiceError = ListingFailed(cause: string) | MalformedJson(cause: string) | NotOnlyStrings | EmptyServices

  /** The message the thrown error carries: the request's or the parser's
      own, or one of the two fixed texts. */
  function Message(e: ServiceError): (m: string)
    ensures e.ListingFailed? || e.MalformedJson? ==> m == e.cause
    ensures e == NotOnlyStrings ==> m == "ECS services array must contain only strings"
    ensures e == EmptyServices ==> m == "ECS services array cannot be empty"
  {
    match e
    case ListingFailed(cause) => cause
    case MalformedJson(cause) => cause
    case NotOnlyStrings => "ECS services array must contain only strings"
    case EmptyServices => "ECS services array cannot be empty"
  }

  predicate AllStrings(items: seq<Json>) {
    forall i | 0 <= i < |items| :: items[i].JString?
  }

  /** `isStringArray`: an array each of whose items is a string. The empty
      array qualifies. */
  function IsStringArray(v: Json): (b: bool)
    ensures b ==> v.JArray? && AllStrings(v.items) && v == JArray(FromStrings(Strings(v.items)))
    ensures v == JArray([]) ==> b
  {
    v.JArray? && AllStrings(v.items)
  }

  /** The JSON array items that spell a list of strings. */
  function FromStrings(ss: seq<string>): (items: seq<Json>)
    ensures |items| == |ss|
    ensures forall i | 0 <= i < |ss| :: items[i] == JString(ss[i])
  {
    if ss == [] then [] else [JString(ss[0])] + FromStrings(ss[1..])
  }

  /** The strings held by items that are all strings. */
  function Strings(items: seq<Json>): (ss: seq<string>)
    requires AllStrings(items)
    ensures |ss| == |items|
    ensures forall i | 0 <= i < |items| :: items[i] == JString(ss[i])
    ensures FromStrings(ss) == items
  {
    if items == [] then [] else [items[0].s] + Strings(items[1..])
  }

  /** `''`, `undefined` and `'*'` select every service in the cluster. */
  predicate ListsAll(input: Option<string>) {
    input == None || input == Some("") || input == Some("*")
  }

  /** `checkServices`. */
  function CheckServices(input: Option<string>, parse: Parser, listing: Listing): (r: Result<Targets, ServiceError>)
    ensures r.Ok? && r.value.AllInCluster? <==> ListsAll(input) && listing.Ok?
    ensures r.Ok? && r.value.Named? ==>
      input.Some? && r.value.names != [] && parse(input.value) == Ok(JArray(FromStrings(r.value.names)))
  {
    if ListsAll(input) then
      match listing
      case Ok(arns) => Ok(AllInCluster(arns))
      case Err(cause) => Err(ListingFailed(cause))
    else
      match parse(input.value)
      case Err(cause) => Err(MalformedJson(cause))
      case Ok(services) =>
        if !IsStringArray(services) then Err(NotOnlyStrings)
        else if |services.items| == 0 then Err(EmptyServices)
        else Ok(Named(Strings(services.items)))
  }
}
