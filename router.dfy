/** The FastAPI generation's route model (trickster/router.py, apart from `ParametrizedPath`):
    response delays, response validators, response selection, routes and the router.

    The JSON-Schema check (`jsonschema.validate`) is foreign code; it is a parameter, `accepts`,
    that says whether a body conforms to a schema. The random draw of `RANDOM` selection is a
    parameter too. */
module Router {
  import opened Wrappers
  import opened Json
  import opened PathPattern

  /** A `uuid.UUID` identifier, compared by equality only. */
  type Uuid = string

  // ---------------------------------------------------------------------------
  // ResponseDelay
  // ---------------------------------------------------------------------------

  /** A delay of `minDelay` to `maxDelay` seconds. */
  datatype ResponseDelay = ResponseDelay(minDelay: real, maxDelay: real)

  /** The shapes the delay validator is given: a dict with optional `min_delay` / `max_delay`,
      a single number, a list or tuple of numbers, or anything else. */
  datatype DelayInput =
    | DelayDict(minKey: Option<real>, maxKey: Option<real>)
    | DelayNumber(n: real)
    | DelaySeq(items: seq<real>)
    | DelayOther

  datatype DelayError = BadShape | MaxBelowMin | Negative

  function Max(a: real, b: real): real { if a >= b then a else b }

  /** `ResponseDelay.validate_model`, followed by the `ge=0` checks of both fields. */
  function ValidateDelay(data: DelayInput): (r: Result<ResponseDelay, DelayError>)
    ensures r.Ok? ==> 0.0 <= r.value.minDelay <= r.value.maxDelay
    ensures data.DelayNumber? ==>
      (r.Ok? <==> data.n >= 0.0) && (r.Ok? ==> r.value.minDelay == r.value.maxDelay == data.n)
    ensures data.DelaySeq? && |data.items| == 2 ==>
      && (r.Ok? <==> 0.0 <= data.items[0] <= data.items[1])
      && (data.items[0] > data.items[1] ==> r == Err(MaxBelowMin))
      && (r.Ok? ==> r.value == ResponseDelay(data.items[0], data.items[1]))
    ensures data.DelayDict? ==>
      var lo := data.minKey.GetOr(0.0);
      && (r.Ok? <==> lo >= 0.0)
      && (r.Ok? ==> r.value.minDelay == lo && r.value.maxDelay >= lo && r.value.maxDelay >= data.maxKey.GetOr(0.0))
      && (r.Ok? ==> r.value.maxDelay == lo || r.value.maxDelay == data.maxKey.GetOr(0.0))
    ensures data.DelayOther? || (data.DelaySeq? && |data.items| != 2) ==> r == Err(BadShape)
  {
    var bounds: Option<(real, real)> :=
      match data
      case DelayDict(lo, hi) => Some((lo.GetOr(0.0), Max(hi.GetOr(0.0), lo.GetOr(0.0))))
      case DelayNumber(n) => Some((n, n))
      case DelaySeq(xs) => if |xs| == 2 then Some((xs[0], xs[1])) else None
      case DelayOther => None;
    match bounds
    case None => Err(BadShape)
    case Some((lo, hi)) =>
      if lo > hi then Err(MaxBelowMin)
      else if lo < 0.0 || hi < 0.0 then Err(Negative)
      else Ok(ResponseDelay(lo, hi))
  }

  // ---------------------------------------------------------------------------
  // Responses and validators
  // ---------------------------------------------------------------------------

  /** A configured response; `hits` counts how often it was returned. */
  datatype Response = Response(
    id: Uuid,
    hits: nat,
    statusCode: int,
    body: Json,
    delay: ResponseDelay,
    headers: map<string, string>,
    weight: real)

  /** A JSON-Schema constraint on the bodies of responses with one status code. */
  datatype ResponseValidator = ResponseValidator(id: Uuid, statusCode: int, jsonSchema: Json)

  datatype ValidationError = StatusMismatch | SchemaMismatch | NoValidatorMatches

  /** `ResponseValidator.validate_response`: a response with another status code fails; otherwise
      the body must conform to the schema. */
  function ValidateResponse(v: ResponseValidator, r: Response, accepts: (Json, Json) -> bool): (o: Outcome<ValidationError>)
    ensures o.Pass? <==> r.statusCode == v.statusCode && accepts(r.body, v.jsonSchema)
    ensures r.statusCode != v.statusCode ==> o == Fail(StatusMismatch)
  {
    if r.statusCode != v.statusCode then Fail(StatusMismatch)
    else if !accepts(r.body, v.jsonSchema) then Fail(SchemaMismatch)
    else Pass
  }

  // ---------------------------------------------------------------------------
  // Response selection
  // ---------------------------------------------------------------------------

  datatype ResponseSelector = Random | First | Balanced

  /** The index Python's `min(responses, key=hits)` picks: the first response with the fewest
      hits. */
  function LeastHits(rs: seq<Response>): (k: nat)
    requires |rs| > 0
    ensures k < |rs|
    ensures forall j :: 0 <= j < |rs| ==> rs[k].hits <= rs[j].hits
    ensures forall j :: 0 <= j < k ==> rs[j].hits > rs[k].hits
  {
    if |rs| == 1 then 0
    else
      var k := LeastHits(rs[1..]);
      assert forall j :: 1 <= j < |rs| ==> rs[j] == rs[1..][j - 1];
      if rs[0].hits <= rs[1..][k].hits then 0 else k + 1
  }

  datatype SelectError = NoSuitableResponse

  /** `ResponseSelector.select_response`. `draw` is the index the random draw of `RANDOM`
      produced (reduced modulo the number of candidates); the weighted distribution itself is
      not modelled. Selection returns one of the candidates unchanged. */
  function SelectResponse(sel: ResponseSelector, responses: seq<Response>, draw: nat): (r: Result<Response, SelectError>)
    ensures r.Err? <==> responses == []
    ensures r.Ok? ==> r.value in responses
    ensures r.Ok? && sel == First ==> r.value == responses[0]
    ensures r.Ok? && sel == Balanced ==>
      exists k :: 0 <= k < |responses| && r.value == responses[k]
        && (forall j :: 0 <= j < |responses| ==> responses[k].hits <= responses[j].hits)
        && (forall j :: 0 <= j < k ==> responses[j].hits > responses[k].hits)
  {
    if responses == [] then Err(NoSuitableResponse)
    else match sel
      case First => Ok(responses[0])
      case Random => Ok(responses[draw % |responses|])
      case Balanced => Ok(responses[LeastHits(responses)])
  }

  // ---------------------------------------------------------------------------
  // Routes
  // ---------------------------------------------------------------------------

  datatype HttpMethod = GET | HEAD | POST | PUT | DELETE | CONNECT | OPTIONS | TRACE | PATCH

  /** A configured route. */
  datatype Route = Route(
    id: Uuid,
    hits: nat,
    path: ParametrizedPath,
    httpMethods: seq<HttpMethod>,
    responseValidators: seq<ResponseValidator>,
    responses: seq<Response>,
    responseSelector: ResponseSelector)

  /** The loop of `validate_new_response`: the first validator that passes ends it with success;
      when none passes, the response is rejected. */
  function FirstAccepting(vs: seq<ResponseValidator>, r: Response, accepts: (Json, Json) -> bool): (o: Outcome<ValidationError>)
    ensures o.Pass? <==> exists k :: 0 <= k < |vs| && ValidateResponse(vs[k], r, accepts).Pass?
  {
    if vs == [] then Fail(NoValidatorMatches)
    else if ValidateResponse(vs[0], r, accepts).Pass? then Pass
    else
      var o := FirstAccepting(vs[1..], r, accepts);
      assert forall k :: 1 <= k < |vs| ==> vs[k] == vs[1..][k - 1];
      o
  }

  /** `Route.validate_new_response`: with no validators anything may be added; otherwise at least
      one validator must accept the response (OR semantics). */
  function ValidateNewResponse(route: Route, r: Response, accepts: (Json, Json) -> bool): (o: Outcome<ValidationError>)
    ensures o.Pass? <==>
      route.responseValidators == [] ||
      exists k :: 0 <= k < |route.responseValidators| && ValidateResponse(route.responseValidators[k], r, accepts).Pass?
  {
    if route.responseValidators == [] then Pass else FirstAccepting(route.responseValidators, r, accepts)
  }

  /** The check every response of a route against one validator, stopping at the first
      failure. */
  function AllAcceptedBy(rs: seq<Response>, v: ResponseValidator, accepts: (Json, Json) -> bool): (o: Outcome<ValidationError>)
    ensures o.Pass? <==> forall k :: 0 <= k < |rs| ==> ValidateResponse(v, rs[k], accepts).Pass?
  {
    if rs == [] then Pass
    else match ValidateResponse(v, rs[0], accepts)
      case Fail(e) => Fail(e)
      case Pass =>
        var o := AllAcceptedBy(rs[1..], v, accepts);
        assert forall k :: 1 <= k < |rs| ==> rs[k] == rs[1..][k - 1];
        o
  }

  /** `Route.validate_new_response_validator`: only while the route has no validators must every
      existing response pass the new one; a further validator only adds options. */
  function ValidateNewResponseValidator(route: Route, v: ResponseValidator, accepts: (Json, Json) -> bool): (o: Outcome<ValidationError>)
    ensures o.Pass? <==>
      route.responseValidators != [] ||
      forall k :: 0 <= k < |route.responses| ==> ValidateResponse(v, route.responses[k], accepts).Pass?
  {
    if route.responseValidators != [] then Pass else AllAcceptedBy(route.responses, v, accepts)
  }

  /** The route invariant: every response passes `validate_new_response`. */
  predicate RouteValid(route: Route, accepts: (Json, Json) -> bool) {
    forall k :: 0 <= k < |route.responses| ==> ValidateNewResponse(route, route.responses[k], accepts).Pass?
  }

  function CheckEach(route: Route, rs: seq<Response>, accepts: (Json, Json) -> bool): (o: Outcome<ValidationError>)
    ensures o.Pass? <==> forall k :: 0 <= k < |rs| ==> ValidateNewResponse(route, rs[k], accepts).Pass?
  {
    if rs == [] then Pass
    else match ValidateNewResponse(route, rs[0], accepts)
      case Fail(e) => Fail(e)
      case Pass =>
        var o := CheckEach(route, rs[1..], accepts);
        assert forall k :: 1 <= k < |rs| ==> rs[k] == rs[1..][k - 1];
        o
  }

  /** `Route.validate_model` / `validate_existing_response_validator_combinations`: passes exactly
      when the route invariant holds. */
  function ValidateExisting(route: Route, accepts: (Json, Json) -> bool): (o: Outcome<ValidationError>)
    ensures o.Pass? <==> RouteValid(route, accepts)
  {
    CheckEach(route, route.responses, accepts)
  }

  /** The management endpoint that adds a response: validate, then append. A rejected response
      leaves the route as it was. */
  function AddResponse(route: Route, r: Response, accepts: (Json, Json) -> bool): (res: Result<Route, ValidationError>)
    ensures res.Ok? <==> ValidateNewResponse(route, r, accepts).Pass?
    ensures res.Ok? ==> res.value == route.(responses := route.responses + [r])
  {
    match ValidateNewResponse(route, r, accepts)
    case Fail(e) => Err(e)
    case Pass => Ok(route.(responses := route.responses + [r]))
  }

  /** The management endpoint that adds a validator: validate, then append. */
  function AddValidator(route: Route, v: ResponseValidator, accepts: (Json, Json) -> bool): (res: Result<Route, ValidationError>)
    ensures res.Ok? <==> ValidateNewResponseValidator(route, v, accepts).Pass?
    ensures res.Ok? ==> res.value == route.(responseValidators := route.responseValidators + [v])
  {
    match ValidateNewResponseValidator(route, v, accepts)
    case Fail(e) => Err(e)
    case Pass => Ok(route.(responseValidators := route.responseValidators + [v]))
  }

  /** Adding a response that passed validation keeps the route invariant. */
  lemma AddResponseKeepsInvariant(route: Route, r: Response, accepts: (Json, Json) -> bool)
    requires RouteValid(route, accepts) && AddResponse(route, r, accepts).Ok?
    ensures RouteValid(AddResponse(route, r, accepts).value, accepts)
  {
    var route' := AddResponse(route, r, accepts).value;
    forall k | 0 <= k < |route'.responses|
      ensures ValidateNewResponse(route', route'.responses[k], accepts).Pass?
    {
      if k < |route.responses| {
        assert route'.responses[k] == route.responses[k];
        assert ValidateNewResponse(route, route.responses[k], accepts).Pass?;
      } else {
        assert route'.responses[k] == r;
      }
    }
  }

  /** Adding a validator that passed validation keeps the route invariant: on a route without
      validators every response passes the new one; otherwise the validator that already
      accepted a response still does. */
  lemma AddValidatorKeepsInvariant(route: Route, v: ResponseValidator, accepts: (Json, Json) -> bool)
    requires RouteValid(route, accepts) && AddValidator(route, v, accepts).Ok?
    ensures RouteValid(AddValidator(route, v, accepts).value, accepts)
  {
    var route' := AddValidator(route, v, accepts).value;
    var vs, vs' := route.responseValidators, route'.responseValidators;
    forall k | 0 <= k < |route'.responses|
      ensures ValidateNewResponse(route', route'.responses[k], accepts).Pass?
    {
      var r := route.responses[k];
      if vs == [] {
        assert vs' == [v] && ValidateResponse(v, r, accepts).Pass?;
        assert ValidateResponse(vs'[0], r, accepts).Pass?;
      } else {
        assert ValidateNewResponse(route, r, accepts).Pass?;
        var i :| 0 <= i < |vs| && ValidateResponse(vs[i], r, accepts).Pass?;
        assert vs'[i] == vs[i];
      }
    }
  }

  /** `Route.match_method`. */
  function MatchMethod(route: Route, m: HttpMethod): (r: Option<HttpMethod>)
    ensures r.Some? <==> m in route.httpMethods
    ensures r.Some? ==> r.value == m
  {
    if m in route.httpMethods then Some(m) else None
  }

  /** A request as the router sees it: its method and its path. */
  datatype Request = Request(httpMethod: HttpMethod, path: string)

  /** `Route.match`: the method must be one of the route's and the path must match; the path is
      only tried (and a broken pattern only raises) once the method matched. */
  function MatchRoute(route: Route, req: Request): Result<Option<(HttpMethod, Params)>, CompileError> {
    match MatchMethod(route, req.httpMethod)
    case None => Ok(None)
    case Some(m) =>
      match MatchPath(route.path, req.path)
      case Err(e) => Err(e)
      case Ok(None) => Ok(None)
      case Ok(Some(p)) => Ok(Some((m, p)))
  }

  /** A route never answers a method it does not list, not even with a pattern error; for a
      listed method the answer is the path match, tagged with the method. */
  lemma MatchRouteCases(route: Route, req: Request)
    ensures req.httpMethod !in route.httpMethods ==> MatchRoute(route, req) == Ok(None)
    ensures req.httpMethod in route.httpMethods ==>
      match MatchPath(route.path, req.path)
      case Err(e) => MatchRoute(route, req) == Err(e)
      case Ok(None) => MatchRoute(route, req) == Ok(None)
      case Ok(Some(p)) => MatchRoute(route, req) == Ok(Some((req.httpMethod, p)))
  {
  }

  /** The first element of `xs` whose id is `id`, found by a linear scan. */
  method FindById<T>(xs: seq<T>, idOf: T -> Uuid, id: Uuid) returns (r: Option<T>)
    ensures r.None? <==> forall k :: 0 <= k < |xs| ==> idOf(xs[k]) != id
    ensures r.Some? ==>
      exists k :: 0 <= k < |xs| && xs[k] == r.value && idOf(xs[k]) == id &&
        forall j :: 0 <= j < k ==> idOf(xs[j]) != id
  {
    var i := 0;
    while i < |xs|
      invariant 0 <= i <= |xs|
      invariant forall j :: 0 <= j < i ==> idOf(xs[j]) != id
    {
      if idOf(xs[i]) == id {
        return Some(xs[i]);
      }
      i := i + 1;
    }
    return None;
  }

  /** `Route.get_response_by_id`. */
  method GetResponseById(route: Route, id: Uuid) returns (r: Option<Response>)
    ensures r.None? <==> forall k :: 0 <= k < |route.responses| ==> route.responses[k].id != id
    ensures r.Some? ==> r.value in route.responses && r.value.id == id
    ensures r.Some? ==>
      exists k :: 0 <= k < |route.responses| && route.responses[k] == r.value &&
        forall j :: 0 <= j < k ==> route.responses[j].id != id
  {
    r := FindById(route.responses, (x: Response) => x.id, id);
  }

  /** `Route.get_response_validator_by_id`. */
  method GetResponseValidatorById(route: Route, id: Uuid) returns (r: Option<ResponseValidator>)
    ensures r.None? <==> forall k :: 0 <= k < |route.responseValidators| ==> route.responseValidators[k].id != id
    ensures r.Some? ==> r.value in route.responseValidators && r.value.id == id
    ensures r.Some? ==>
      exists k :: 0 <= k < |route.responseValidators| && route.responseValidators[k] == r.value &&
        forall j :: 0 <= j < k ==> route.responseValidators[j].id != id
  {
    r := FindById(route.responseValidators, (x: ResponseValidator) => x.id, id);
  }

  // ---------------------------------------------------------------------------
  // Router
  // ---------------------------------------------------------------------------

  /** A matched route with the method and path parameters it matched with. */
  datatype RouteMatch = RouteMatch(route: Route, httpMethod: HttpMethod, pathParams: Params)

  /** One step of `Router.match`: the route's match, as a match result naming the route. */
  function TryRoute(route: Route, req: Request): (r: Result<Option<RouteMatch>, CompileError>)
    ensures r == Ok(None) <==> MatchRoute(route, req) == Ok(None)
    ensures r.Ok? && r.value.Some? ==>
      r.value.value.route == route &&
      MatchRoute(route, req) == Ok(Some((r.value.value.httpMethod, r.value.value.pathParams)))
    ensures r.Err? <==> MatchRoute(route, req).Err?
    ensures r.Err? ==> MatchRoute(route, req) == Err(r.error)
  {
    match MatchRoute(route, req)
    case Err(e) => Err(e)
    case Ok(None) => Ok(None)
    case Ok(Some((m, p))) => Ok(Some(RouteMatch(route, m, p)))
  }

  /** A scan that stops at the first element whose outcome is decisive: a result or an error. */
  function FirstDecisive<T, U, E>(xs: seq<T>, f: T -> Result<Option<U>, E>): Result<Option<U>, E> {
    if xs == [] then Ok(None)
    else if f(xs[0]) == Ok(None) then FirstDecisive(xs[1..], f)
    else f(xs[0])
  }

  /** The scan answers `None` exactly when no element is decisive, and otherwise the outcome of
      the first decisive element. */
  lemma {:induction false} FirstDecisiveIsFirst<T, U, E>(xs: seq<T>, f: T -> Result<Option<U>, E>)
    ensures FirstDecisive(xs, f) == Ok(None) <==> forall k :: 0 <= k < |xs| ==> f(xs[k]) == Ok(None)
    ensures FirstDecisive(xs, f) != Ok(None) ==>
      exists k :: 0 <= k < |xs| && f(xs[k]) == FirstDecisive(xs, f) &&
        forall j :: 0 <= j < k ==> f(xs[j]) == Ok(None)
    decreases |xs|
  {
    if xs != [] && f(xs[0]) == Ok(None) {
      var tail := xs[1..];
      FirstDecisiveIsFirst(tail, f);
      assert forall k :: 1 <= k < |xs| ==> xs[k] == tail[k - 1];
      if FirstDecisive(tail, f) != Ok(None) {
        var k :| 0 <= k < |tail| && f(tail[k]) == FirstDecisive(tail, f) &&
          forall j :: 0 <= j < k ==> f(tail[j]) == Ok(None);
        assert xs[k + 1] == tail[k];
      }
    }
  }

  /** `Router.match`, as a function of the route list. */
  function FirstMatch(routes: seq<Route>, req: Request): Result<Option<RouteMatch>, CompileError> {
    FirstDecisive(routes, (route: Route) => TryRoute(route, req))
  }

  /** First match wins: the result comes from the first route, in list order, that matches;
      every route before it does not match and does not raise. No match is not an error, and a
      broken pattern raises only when every route before it failed to match. */
  lemma FirstMatchIsFirst(routes: seq<Route>, req: Request)
    ensures FirstMatch(routes, req) == Ok(None) <==> forall k :: 0 <= k < |routes| ==> MatchRoute(routes[k], req) == Ok(None)
    ensures var r := FirstMatch(routes, req);
      r.Ok? && r.value.Some? ==>
      exists k :: 0 <= k < |routes| && routes[k] == r.value.value.route
        && MatchRoute(routes[k], req) == Ok(Some((r.value.value.httpMethod, r.value.value.pathParams)))
        && forall j :: 0 <= j < k ==> MatchRoute(routes[j], req) == Ok(None)
    ensures var r := FirstMatch(routes, req);
      r.Err? ==>
      exists k :: 0 <= k < |routes| && MatchRoute(routes[k], req) == Err(r.error)
        && forall j :: 0 <= j < k ==> MatchRoute(routes[j], req) == Ok(None)
  {
    FirstDecisiveIsFirst(routes, (route: Route) => TryRoute(route, req));
  }

  /** The router: an ordered list of routes that callers append to. */
  class Router {
    var routes: seq<Route>

    constructor()
      ensures routes == []
    {
      routes := [];
    }

    /** `Router.match`: a linear scan in list order. */
    method Match(req: Request) returns (r: Result<Option<RouteMatch>, CompileError>)
      ensures r == FirstMatch(routes, req)
    {
      var i := 0;
      while i < |routes|
        invariant 0 <= i <= |routes|
        invariant FirstMatch(routes, req) == FirstMatch(routes[i..], req)
      {
        assert routes[i..][1..] == routes[i + 1..];
        var m := TryRoute(routes[i], req);
        if m != Ok(None) {
          return m;
        }
        i := i + 1;
      }
      return Ok(None);
    }

    /** `Router.get_route_by_id`. */
    method GetRouteById(id: Uuid) returns (r: Option<Route>)
      ensures r.None? <==> forall k :: 0 <= k < |routes| ==> routes[k].id != id
      ensures r.Some? ==> r.value in routes && r.value.id == id
      ensures r.Some? ==>
        exists k :: 0 <= k < |routes| && routes[k] == r.value && forall j :: 0 <= j < k ==> routes[j].id != id
    {
      r := FindById(routes, (x: Route) => x.id, id);
    }
  }
}
