/** The shared part of the Flask generation's routing package (trickster/routing/__init__.py):
    its error hierarchy, `Delay` and `Response`. trickster/routing.py repeats `Delay` and
    `Response` unchanged; both are modelled once, here. */
module Responses {
  import opened Wrappers
  import opened Json

  // ---------------------------------------------------------------------------
  // Errors
  // ---------------------------------------------------------------------------

  /** `RouteConfigurationError` and its two subclasses, each with its message. `MalformedInput`
      stands for the plain `TypeError`, `KeyError` and `ValueError` that badly shaped
      configuration raises from Python itself; it is not a `RouteConfigurationError`. */
  datatype ConfigError =
    | RouteConfigurationError(detail: string)
    | DuplicateRouteError(detail: string)
    | MissingRouteError(detail: string)
    | MalformedInput

  /** `isinstance(e, RouteConfigurationError)`: the two subclasses are included. */
  predicate IsRouteConfigurationError(e: ConfigError) {
    !e.MalformedInput?
  }

  /** The `http_code` class attribute: 400 for the base class, overridden by the subclasses. */
  function HttpCode(e: ConfigError): (c: Option<int>)
    ensures c.Some? <==> IsRouteConfigurationError(e)
    ensures c.Some? ==> 400 <= c.value < 500
    ensures c == Some(400) <==> e.RouteConfigurationError?
    ensures c == Some(409) <==> e.DuplicateRouteError?
    ensures c == Some(404) <==> e.MissingRouteError?
  {
    match e
    case RouteConfigurationError(_) => Some(400)
    case DuplicateRouteError(_) => Some(409)
    case MissingRouteError(_) => Some(404)
    case MalformedInput => None
  }

  // ---------------------------------------------------------------------------
  // Delay
  // ---------------------------------------------------------------------------

  /** A waiting time of `minDelay` to `maxDelay` seconds. */
  datatype Delay = Delay(minDelay: real, maxDelay: real)

  predicate ValidDelay(d: Delay) {
    d.minDelay <= d.maxDelay
  }

  /** `Delay(min_delay, max_delay)`: refuses a minimum above the maximum. */
  function NewDelay(minDelay: real, maxDelay: real): (r: Result<Delay, ConfigError>)
    ensures r.Ok? <==> minDelay <= maxDelay
    ensures r.Ok? ==> r.value == Delay(minDelay, maxDelay) && ValidDelay(r.value)
    ensures r.Err? ==> r.error.RouteConfigurationError?
  {
    if minDelay > maxDelay then Err(RouteConfigurationError("Minimum delay cannot be longer than maximum delay"))
    else Ok(Delay(minDelay, maxDelay))
  }

  /** `Delay.serialize`: one number when the bounds agree, otherwise the pair. */
  function SerializeDelay(d: Delay): (j: Json)
    ensures j.JNum? <==> d.minDelay == d.maxDelay
    ensures j.JNum? ==> j.n == d.minDelay
    ensures !j.JNum? ==> j == JArr([JNum(d.minDelay), JNum(d.maxDelay)])
  {
    if d.minDelay == d.maxDelay then JNum(d.minDelay) else JArr([JNum(d.minDelay), JNum(d.maxDelay)])
  }

  /** A Python number: an int or float, or a bool, which is an int. */
  function NumberValue(j: Json): Option<real> {
    match j
    case JNum(n) => Some(n)
    case JBool(b) => Some(if b then 1.0 else 0.0)
    case _ => None
  }

  /** The numbers of a list, when all its elements are numbers. */
  function Numbers(items: seq<Json>): (r: Option<seq<real>>)
    ensures r.Some? <==> forall k :: 0 <= k < |items| ==> NumberValue(items[k]).Some?
    ensures r.Some? ==> |r.value| == |items| && forall k :: 0 <= k < |items| ==> r.value[k] == NumberValue(items[k]).value
  {
    if items == [] then Some([])
    else
      assert forall k :: 1 <= k < |items| ==> items[k] == items[1..][k - 1];
      match (NumberValue(items[0]), Numbers(items[1..]))
      case (Some(x), Some(xs)) => Some([x] + xs)
      case _ => None
  }

  /** Python's `<` on two `str` values: code points compared left to right, a proper prefix
      being the smaller. */
  predicate StrLess(a: string, b: string) {
    if a == [] then b != []
    else if b == [] then false
    else if a[0] != b[0] then a[0] < b[0]
    else StrLess(a[1..], b[1..])
  }

  /** The one-character strings that iterating over a `str` yields. */
  function Chars(s: string): (r: seq<Json>)
    ensures |r| == |s| && forall k :: 0 <= k < |s| ==> r[k] == JStr([s[k]])
  {
    seq(|s|, k requires 0 <= k < |s| => JStr([s[k]]))
  }

  /** `Delay(*args)`. There are at most two positional parameters, and both default to 0.0.
      `min_delay > max_delay` compares two numbers as numbers and two strings as strings.
      Any other mix, or a third argument, raises a `TypeError`. Bounds that are not numbers are
      outside this model: a pair of strings in order is rejected as malformed. */
  function DelayOfArgs(args: seq<Json>): (r: Result<Delay, ConfigError>)
    ensures r.Ok? ==> ValidDelay(r.value) && forall k :: 0 <= k < |args| ==> NumberValue(args[k]).Some?
    ensures |args| > 2 ==> r == Err(MalformedInput)
    ensures |args| == 0 ==> r == Ok(Delay(0.0, 0.0))
    ensures |args| == 1 ==>
      r == if NumberValue(args[0]).Some? then NewDelay(NumberValue(args[0]).value, 0.0) else Err(MalformedInput)
    ensures |args| == 2 && NumberValue(args[0]).Some? && NumberValue(args[1]).Some? ==>
      r == NewDelay(NumberValue(args[0]).value, NumberValue(args[1]).value)
    ensures |args| == 2 && args[0].JStr? && args[1].JStr? ==>
      r.Err? && (r.error.RouteConfigurationError? <==> StrLess(args[1].s, args[0].s))
  {
    if |args| > 2 then Err(MalformedInput)
    else if |args| == 0 then NewDelay(0.0, 0.0)
    else if |args| == 1 then
      (match NumberValue(args[0])
       case Some(x) => NewDelay(x, 0.0)
       case None => Err(MalformedInput))
    else if NumberValue(args[0]).Some? && NumberValue(args[1]).Some? then
      NewDelay(NumberValue(args[0]).value, NumberValue(args[1]).value)
    else if args[0].JStr? && args[1].JStr? && StrLess(args[1].s, args[0].s) then
      Err(RouteConfigurationError("Minimum delay cannot be longer than maximum delay"))
    else Err(MalformedInput)
  }

  /** `Delay.deserialize`: `None` is no delay and a number is a fixed delay. Anything else is
      spread over the constructor's parameters (`cls(*data)`): the items of a list, the
      characters of a string, the keys of a dict. */
  function DeserializeDelay(data: Json): (r: Result<Delay, ConfigError>)
    ensures r.Ok? ==> ValidDelay(r.value)
    ensures data.JNull? ==> r == Ok(Delay(0.0, 0.0))
    ensures data.JNum? ==> r == Ok(Delay(data.n, data.n))
    ensures data.JArr? ==> r == DelayOfArgs(data.items)
    ensures data.JArr? && |data.items| == 2 && NumberValue(data.items[0]).Some? && NumberValue(data.items[1]).Some? ==>
      r == NewDelay(NumberValue(data.items[0]).value, NumberValue(data.items[1]).value)
    ensures data.JArr? && |data.items| > 2 ==> r == Err(MalformedInput)
    ensures data.JStr? && |data.s| == 0 ==> r == Ok(Delay(0.0, 0.0))
    ensures data.JStr? && |data.s| != 0 && |data.s| != 2 ==> r == Err(MalformedInput)
    ensures data.JStr? && |data.s| == 2 ==> r.Err? && (r.error.RouteConfigurationError? <==> data.s[1] < data.s[0])
    ensures data.JObj? && |data.fields| == 0 ==> r == Ok(Delay(0.0, 0.0))
    ensures data.JObj? && |data.fields| != 0 ==> r.Err?
  {
    match data
    case JNull => NewDelay(0.0, 0.0)
    case JNum(n) => NewDelay(n, n)
    case JBool(b) => var n := if b then 1.0 else 0.0; NewDelay(n, n)
    case JArr(items) => DelayOfArgs(items)
    case JStr(text) =>
      var chars := Chars(text);
      assert |text| == 2 ==> (StrLess(chars[1].s, chars[0].s) <==> text[1] < text[0]) by {
        if |text| == 2 {
          assert chars[1].s == [text[1]] && chars[0].s == [text[0]];
          assert StrLess([text[1]], [text[0]]) <==> text[1] < text[0] by {
            if text[1] == text[0] {
              assert [text[1]][1..] == [] && [text[0]][1..] == [];
            }
          }
        }
      }
      DelayOfArgs(chars)
    case JObj(fields) =>
      // The keys of a dict; with two keys their insertion order, which a map does not keep,
      // would decide between a delay and an error, so two keys are rejected as malformed.
      if |fields| == 0 then NewDelay(0.0, 0.0) else Err(MalformedInput)
  }

  /** Every valid delay survives serialization. */
  lemma DelayRoundTrip(d: Delay)
    requires ValidDelay(d)
    ensures DeserializeDelay(SerializeDelay(d)) == Ok(d)
  {
    if d.minDelay != d.maxDelay {
      var items := [JNum(d.minDelay), JNum(d.maxDelay)];
      assert NumberValue(items[0]).Some? && NumberValue(items[1]).Some?;
    }
  }

  // ---------------------------------------------------------------------------
  // Response
  // ---------------------------------------------------------------------------

  /** The arguments `Response.deserialize` hands to the constructor. */
  datatype ResponseArgs = ResponseArgs(body: Json, delay: Delay, headers: Json, status: Json)

  const JsonContentType: Json := JObj(map["content-type" := JStr("application/json")])

  /** The keys `Response.deserialize` accepts: the two it takes out and the constructor's
      keyword parameters. */
  const ResponseKeys: set<string> := {"delay", "headers", "body", "status"}

  /** `Response.deserialize`, up to the constructor call: the delay is parsed first; explicit
      headers are kept as given; otherwise a body that is not a string gets a JSON content type
      and a string body gets none. A missing body or an unknown key raises. */
  function ResponseArgsOf(data: map<string, Json>): (r: Result<ResponseArgs, ConfigError>)
    ensures r.Ok? <==>
      DeserializeDelay(if "delay" in data then data["delay"] else JNull).Ok? &&
      "body" in data && data.Keys <= ResponseKeys
    ensures DeserializeDelay(if "delay" in data then data["delay"] else JNull).Err? ==>
      r == Err(DeserializeDelay(if "delay" in data then data["delay"] else JNull).error)
    ensures r.Ok? ==>
      && r.value.body == data["body"]
      && r.value.delay == DeserializeDelay(if "delay" in data then data["delay"] else JNull).value
      && r.value.status == (if "status" in data then data["status"] else JNum(200.0))
    ensures r.Ok? && "headers" in data ==> r.value.headers == data["headers"]
    ensures r.Ok? && "headers" !in data && data["body"].JStr? ==> r.value.headers == JObj(map[])
    ensures r.Ok? && "headers" !in data && !data["body"].JStr? ==> r.value.headers == JsonContentType
  {
    match DeserializeDelay(if "delay" in data then data["delay"] else JNull)
    case Err(e) => Err(e)
    case Ok(delay) =>
      if "body" !in data || !(data.Keys <= ResponseKeys) then Err(MalformedInput)
      else
        var headers :=
          if "headers" in data then data["headers"]
          else if !data["body"].JStr? then JsonContentType
          else JObj(map[]);
        Ok(ResponseArgs(data["body"], delay, headers, if "status" in data then data["status"] else JNum(200.0)))
  }

  /** A configured response; only its use counter changes after construction. */
  class Response {
    const body: Json
    const delay: Delay
    const headers: Json
    const status: Json
    var usedCount: nat

    /** `Response(body, delay, headers, status)`: falsy headers become `{}`; the counter starts
        at zero. Callers pass `JNull` and `JNum(200.0)` for the defaults. */
    constructor(body: Json, delay: Delay, headers: Json, status: Json)
      ensures this.body == body && this.delay == delay && this.status == status
      ensures this.headers == Or(headers, JObj(map[]))
      ensures Truthy(this.headers) || this.headers == JObj(map[])
      ensures usedCount == 0
    {
      this.body := body;
      this.delay := delay;
      this.headers := Or(headers, JObj(map[]));
      this.status := status;
      usedCount := 0;
    }

    /** `Response.deserialize`. */
    static method Deserialize(data: map<string, Json>) returns (r: Result<Response, ConfigError>)
      ensures r.Err? <==> ResponseArgsOf(data).Err?
      ensures r.Ok? ==>
        var args := ResponseArgsOf(data).value;
        && fresh(r.value) && r.value.usedCount == 0
        && r.value.body == args.body && r.value.delay == args.delay && r.value.status == args.status
        && r.value.headers == Or(args.headers, JObj(map[]))
    {
      match ResponseArgsOf(data)
      case Err(e) => r := Err(e);
      case Ok(args) =>
        var response := new Response(args.body, args.delay, args.headers, args.status);
        r := Ok(response);
    }

    /** `serialized_body`: a string body is sent verbatim, anything else as `json.dumps` text. */
    function SerializedBody(dumps: Json -> string): (s: string)
      ensures body.JStr? ==> s == body.s
      ensures !body.JStr? ==> s == dumps(body)
    {
      if body.JStr? then body.s else dumps(body)
    }

    /** `Response.serialize`. */
    function Serialize(): (j: Json)
      reads this
      ensures j.JObj? && j.fields.Keys == {"status", "used_count", "headers", "delay", "body"}
      ensures j.fields["used_count"] == JNum(usedCount as real)
      ensures j.fields["delay"] == SerializeDelay(delay)
      ensures j.fields["status"] == status && j.fields["headers"] == headers && j.fields["body"] == body
    {
      JObj(map[
        "status" := status,
        "used_count" := JNum(usedCount as real),
        "headers" := headers,
        "delay" := SerializeDelay(delay),
        "body" := body])
    }

    /** `use`: the counter goes up by exactly one; nothing else is a variable. */
    method Use()
      modifies this
      ensures usedCount == old(usedCount) + 1
    {
      usedCount := usedCount + 1;
    }
  }

  /** What `Response.serialize` produces, without the counter (which the constructor does not
      accept), deserializes back to the same response. */
  lemma ResponseRoundTrip(body: Json, delay: Delay, headers: Json, status: Json)
    requires ValidDelay(delay)
    requires Truthy(headers) || headers == JObj(map[])
    ensures
      var data := map["status" := status, "headers" := headers, "delay" := SerializeDelay(delay), "body" := body];
      ResponseArgsOf(data) == Ok(ResponseArgs(body, delay, headers, status)) &&
      Or(headers, JObj(map[])) == headers
  {
    DelayRoundTrip(delay);
  }

  /** A response's own serialization, with the counter taken out, deserializes to the
      arguments it was built from. */
  lemma SerializeRoundTrip(response: Response)
    requires ValidDelay(response.delay)
    requires Truthy(response.headers) || response.headers == JObj(map[])
    ensures ResponseArgsOf(response.Serialize().fields - {"used_count"}) ==
      Ok(ResponseArgs(response.body, response.delay, response.headers, response.status))
  {
    var data := map["status" := response.status, "headers" := response.headers,
                     "delay" := SerializeDelay(response.delay), "body" := response.body];
    assert response.Serialize().fields - {"used_count"} == data;
    ResponseRoundTrip(response.body, response.delay, response.headers, response.status);
  }
}
