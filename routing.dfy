/** Routes and the router of the Flask generation (trickster/routing.py): responses that run
    out after `repeat` uses, the selection strategies, routes that count their uses, and the
    router's create/read/update/delete operations over an `IdList`.

    A route's path is a user-supplied regular expression applied with `re.match` (a prefix
    match); it is foreign and given as a predicate on the request path. */
module Routing {
  import opened Wrappers
  import opened Json
  import opened IdLists
  import opened Responses
  import Auth

  // ---------------------------------------------------------------------------
  // Selection strategies
  // ---------------------------------------------------------------------------

  datatype Strategy = Cycle | RandomChoice | Greedy

  /** `serialize`: the enum value. */
  function StrategyName(s: Strategy): string {
    match s
    case Cycle => "cycle"
    case RandomChoice => "random"
    case Greedy => "greedy"
  }

  /** `deserialize`: `cls(method or 'greedy')`; a value that names no strategy raises a
      `ValueError`. */
  function ParseStrategy(value: Json): (r: Result<Strategy, ConfigError>)
    ensures !Truthy(value) ==> r == Ok(Greedy)
    ensures Truthy(value) ==> (r.Ok? <==> exists s :: value == JStr(StrategyName(s)))
    ensures r.Ok? && Truthy(value) ==> value == JStr(StrategyName(r.value))
    ensures r.Err? ==> r.error == MalformedInput
  {
    var name := Or(value, JStr("greedy"));
    if name == JStr(StrategyName(Cycle)) then Ok(Cycle)
    else if name == JStr(StrategyName(RandomChoice)) then Ok(RandomChoice)
    else if name == JStr(StrategyName(Greedy)) then Ok(Greedy)
    else Err(MalformedInput)
  }

  /** Every strategy survives serialization. */
  lemma StrategyRoundTrip(s: Strategy)
    ensures ParseStrategy(JStr(StrategyName(s))) == Ok(s)
  {
  }

  // ---------------------------------------------------------------------------
  // RouteResponse
  // ---------------------------------------------------------------------------

  /** `is_active`: no limit, or fewer uses than the limit. */
  predicate Active(repeat: Option<int>, usedCount: nat) {
    repeat.None? || usedCount < repeat.value
  }

  /** A use can only exhaust a response, never revive it, and a response with a limit of `n`
      is active for exactly its first `n` uses. */
  lemma ActiveOnlyDecreases(repeat: Option<int>, usedCount: nat)
    ensures Active(repeat, usedCount + 1) ==> Active(repeat, usedCount)
    ensures repeat.Some? ==> (Active(repeat, usedCount) <==> usedCount < repeat.value)
  {
  }

  /** A `Response` with an id, a use limit and a weight for random selection. */
  class RouteResponse {
    const id: string
    const body: Json
    const delay: Delay
    const headers: Json
    const status: Json
    const repeat: Option<int>
    const weight: real
    var usedCount: nat

    constructor(id: string, body: Json, delay: Delay, headers: Json, status: Json, repeat: Option<int>, weight: real)
      ensures this.id == id && this.body == body && this.delay == delay && this.status == status
      ensures this.headers == Or(headers, JObj(map[]))
      ensures this.repeat == repeat && this.weight == weight && usedCount == 0
    {
      this.id := id;
      this.body := body;
      this.delay := delay;
      this.headers := Or(headers, JObj(map[]));
      this.status := status;
      this.repeat := repeat;
      this.weight := weight;
      usedCount := 0;
    }

    predicate IsActive()
      reads this
    {
      Active(repeat, usedCount)
    }

    /** `use`, inherited from `Response`: one more use, the limit unchanged. */
    method Use()
      modifies this
      ensures usedCount == old(usedCount) + 1
    {
      usedCount := usedCount + 1;
    }
  }

  function ResponseId(r: RouteResponse): string {
    r.id
  }

  /** `select_response_greedy`: the first active response, in list order. */
  method SelectGreedy(responses: seq<RouteResponse>) returns (r: Option<RouteResponse>)
    ensures r.None? <==> forall k :: 0 <= k < |responses| ==> !responses[k].IsActive()
    ensures r.Some? ==>
      exists k :: 0 <= k < |responses| && responses[k] == r.value && r.value.IsActive() &&
        forall j :: 0 <= j < k ==> !responses[j].IsActive()
  {
    var i := 0;
    while i < |responses|
      invariant 0 <= i <= |responses|
      invariant forall j :: 0 <= j < i ==> !responses[j].IsActive()
    {
      if responses[i].IsActive() {
        return Some(responses[i]);
      }
      i := i + 1;
    }
    return None;
  }

  /** `select_response_cycle`: the active response used least often; on a tie the earliest,
      because a later one must be used strictly less often to replace the candidate. */
  method SelectCycle(responses: seq<RouteResponse>) returns (r: Option<RouteResponse>)
    ensures r.None? <==> forall k :: 0 <= k < |responses| ==> !responses[k].IsActive()
    ensures r.Some? ==>
      exists k :: 0 <= k < |responses| && responses[k] == r.value && r.value.IsActive()
        && (forall j :: 0 <= j < |responses| && responses[j].IsActive() ==> r.value.usedCount <= responses[j].usedCount)
        && (forall j :: 0 <= j < k && responses[j].IsActive() ==> responses[j].usedCount > r.value.usedCount)
  {
    var candidate: Option<nat> := None;
    var i := 0;
    while i < |responses|
      invariant 0 <= i <= |responses|
      invariant candidate.None? <==> forall j :: 0 <= j < i ==> !responses[j].IsActive()
      invariant candidate.Some? ==>
        var c := candidate.value;
        && c < i && responses[c].IsActive()
        && (forall j :: 0 <= j < i && responses[j].IsActive() ==> responses[c].usedCount <= responses[j].usedCount)
        && (forall j :: 0 <= j < c && responses[j].IsActive() ==> responses[j].usedCount > responses[c].usedCount)
    {
      var response := responses[i];
      if response.IsActive() && (candidate.None? || response.usedCount < responses[candidate.value].usedCount) {
        candidate := Some(i);
      }
      i := i + 1;
    }
    if candidate.None? {
      return None;
    }
    return Some(responses[candidate.value]);
  }

  /** The library error `random.choices` raises on an empty population. */
  datatype SelectionError = EmptyPopulation

  /** `select_response_random`: one of the active responses; `draw` is the position the weighted
      draw landed on. An empty population raises inside the library. */
  method SelectRandom(responses: seq<RouteResponse>, draw: nat) returns (r: Result<RouteResponse, SelectionError>)
    ensures r.Err? <==> forall k :: 0 <= k < |responses| ==> !responses[k].IsActive()
    ensures r.Ok? ==> r.value in responses && r.value.IsActive()
  {
    var population: seq<RouteResponse> := [];
    var i := 0;
    while i < |responses|
      invariant 0 <= i <= |responses|
      invariant forall x :: x in population ==> x in responses[..i] && x.IsActive()
      invariant population == [] <==> forall j :: 0 <= j < i ==> !responses[j].IsActive()
    {
      if responses[i].IsActive() {
        population := population + [responses[i]];
      }
      i := i + 1;
    }
    if population == [] {
      return Err(EmptyPopulation);
    }
    assert responses[..i] == responses;
    return Ok(population[draw % |population|]);
  }

  /** `select_response`: the strategy's choice. */
  method Select(strategy: Strategy, responses: seq<RouteResponse>, draw: nat) returns (r: Result<Option<RouteResponse>, SelectionError>)
    ensures r.Ok? && r.value.Some? ==> r.value.value in responses && r.value.value.IsActive()
    ensures (r.Err? || r.value.None?) <==> forall k :: 0 <= k < |responses| ==> !responses[k].IsActive()
    ensures r.Err? ==> strategy == RandomChoice
    ensures strategy == Greedy && r.Ok? && r.value.Some? ==>
      exists k :: 0 <= k < |responses| && responses[k] == r.value.value &&
        forall j :: 0 <= j < k ==> !responses[j].IsActive()
    ensures strategy == Cycle && r.Ok? && r.value.Some? ==>
      exists k :: 0 <= k < |responses| && responses[k] == r.value.value
        && (forall j :: 0 <= j < |responses| && responses[j].IsActive() ==> r.value.value.usedCount <= responses[j].usedCount)
        && (forall j :: 0 <= j < k && responses[j].IsActive() ==> responses[j].usedCount > r.value.value.usedCount)
  {
    match strategy {
      case Greedy =>
        var choice := SelectGreedy(responses);
        r := Ok(choice);
      case Cycle =>
        var choice := SelectCycle(responses);
        r := Ok(choice);
      case RandomChoice =>
        var choice := SelectRandom(responses, draw);
        r := if choice.Ok? then Ok(Some(choice.value)) else Err(choice.error);
    }
  }

  // ---------------------------------------------------------------------------
  // Route
  // ---------------------------------------------------------------------------

  /** A route: a method and path to match, an authentication strategy and its responses. */
  class Route {
    const id: string
    const strategy: Strategy
    const httpMethod: Option<string>
    const path: string -> bool
    const auth: Auth.Auth
    const responses: IdList<RouteResponse>
    var usedCount: nat

    /** The responses are keyed by their ids, which are distinct. */
    ghost predicate Valid()
      reads responses
    {
      responses.idOf == ResponseId && UniqueKeys(responses.items, ResponseId)
    }

    constructor Init(id: string, strategy: Strategy, path: string -> bool, auth: Auth.Auth, httpMethod: Option<string>)
      ensures this.id == id && this.strategy == strategy && this.path == path && this.auth == auth
      ensures this.httpMethod == httpMethod && usedCount == 0
      ensures fresh(responses) && responses.items == [] && Valid()
    {
      this.id := id;
      this.strategy := strategy;
      this.httpMethod := httpMethod;
      this.path := path;
      this.auth := auth;
      this.usedCount := 0;
      this.responses := new IdList(ResponseId);
    }

    /** `Route.__init__`: the responses are added one by one; a repeated response id raises a
        `DuplicateRouteError`. */
    static method Create(id: string, responses: seq<RouteResponse>, strategy: Strategy, path: string -> bool,
                         auth: Auth.Auth, httpMethod: Option<string>) returns (r: Result<Route, ConfigError>)
      ensures r.Ok? <==> UniqueKeys(responses, ResponseId)
      ensures r.Err? ==> r.error.DuplicateRouteError?
      ensures r.Ok? ==>
        && fresh(r.value) && fresh(r.value.responses) && r.value.Valid()
        && r.value.responses.items == responses && r.value.usedCount == 0
        && r.value.id == id && r.value.strategy == strategy && r.value.path == path
        && r.value.auth == auth && r.value.httpMethod == httpMethod
    {
      var route := new Route.Init(id, strategy, path, auth, httpMethod);
      var i := 0;
      while i < |responses|
        invariant 0 <= i <= |responses|
        invariant fresh(route) && fresh(route.responses) && route.Valid()
        invariant route.responses.items == responses[..i]
        invariant route.usedCount == 0 && route.id == id && route.strategy == strategy
        invariant route.path == path && route.auth == auth && route.httpMethod == httpMethod
      {
        var added := route.responses.Add(responses[i]);
        if added.Fail? {
          var k :| 0 <= k < i && ResponseId(responses[k]) == ResponseId(responses[i]) by {
            var p := IndexOf(responses[..i], ResponseId, ResponseId(responses[i])).value;
            assert responses[..i][p] == responses[p];
          }
          return Err(DuplicateRouteError("Duplicate response id"));
        }
        assert responses[..i + 1] == responses[..i] + [responses[i]];
        i := i + 1;
      }
      assert responses[..i] == responses;
      return Ok(route);
    }

    /** `is_active`: some response still has uses left. */
    predicate IsActive()
      reads responses, responses.items
    {
      exists k :: 0 <= k < |responses.items| && responses.items[k].IsActive()
    }

    /** `_match_method`: a route without a method matches every method. */
    predicate MatchMethod(m: string) {
      httpMethod.None? || httpMethod == Some(m)
    }

    /** `match`: method, path and activity must all hold. */
    predicate Matches(req: Auth.Request)
      reads responses, responses.items
    {
      MatchMethod(req.httpMethod) && path(req.path) && IsActive()
    }

    /** `get_response`. */
    method GetResponse(responseId: string) returns (r: Option<RouteResponse>)
      requires Valid()
      ensures r.None? <==> forall j :: 0 <= j < |responses.items| ==> responses.items[j].id != responseId
      ensures r.Some? ==> r.value in responses.items && r.value.id == responseId
    {
      r := responses.Get(responseId);
    }

    /** `select_response`: the strategy applied to the route's responses. */
    method SelectResponse(draw: nat) returns (r: Result<Option<RouteResponse>, SelectionError>)
      ensures r.Ok? && r.value.Some? ==> r.value.value in responses.items && r.value.value.IsActive()
      ensures (r.Err? || r.value.None?) <==> !IsActive()
      ensures r.Err? ==> strategy == RandomChoice
      ensures strategy == Greedy && r.Ok? && r.value.Some? ==>
        exists k :: 0 <= k < |responses.items| && responses.items[k] == r.value.value &&
          forall j :: 0 <= j < k ==> !responses.items[j].IsActive()
      ensures strategy == Cycle && r.Ok? && r.value.Some? ==>
        exists k :: 0 <= k < |responses.items| && responses.items[k] == r.value.value
          && (forall j :: 0 <= j < |responses.items| && responses.items[j].IsActive() ==>
                r.value.value.usedCount <= responses.items[j].usedCount)
          && (forall j :: 0 <= j < k && responses.items[j].IsActive() ==> responses.items[j].usedCount > r.value.value.usedCount)
    {
      r := Select(strategy, responses.items, draw);
    }

    /** `use`: the route's counter goes up by one, and the given response's too. */
    method Use(response: Option<RouteResponse>)
      modifies this, if response.Some? then {response.value} else {}
      ensures usedCount == old(usedCount) + 1
      ensures response.Some? ==> response.value.usedCount == old(response.value.usedCount) + 1
    {
      usedCount := usedCount + 1;
      if response.Some? {
        response.value.Use();
      }
    }
  }

  // ---------------------------------------------------------------------------
  // Router
  // ---------------------------------------------------------------------------

  function RouteId(r: Route): string {
    r.id
  }

  /** `_set_route_id`: an id already in the route data is kept; otherwise the given id, or a
      generated one when no (or an empty) id is given. */
  function RouteIdFor(dataId: Option<string>, routeId: Option<string>, generated: string): (id: string)
    ensures dataId.Some? ==> id == dataId.value
    ensures dataId.None? && routeId.Some? && routeId.value != "" ==> id == routeId.value
    ensures dataId.None? && (routeId.None? || routeId.value == "") ==> id == generated
  {
    match dataId
    case Some(given) => given
    case None => if routeId.Some? && routeId.value != "" then routeId.value else generated
  }

  /** The router: routes in insertion order, keyed by distinct ids. */
  class Router {
    var routes: IdList<Route>

    ghost predicate Valid()
      reads this, routes
    {
      routes.idOf == RouteId && UniqueKeys(routes.items, RouteId)
    }

    constructor()
      ensures Valid() && fresh(routes) && routes.items == []
    {
      routes := new IdList(RouteId);
    }

    /** `_generate_route_id`: the first drawn id not in use. The draws stand for `uuid4`. */
    method GenerateRouteId(draws: seq<string>) returns (r: Option<string>)
      requires Valid()
      ensures r.None? <==> forall k :: 0 <= k < |draws| ==> IndexOf(routes.items, RouteId, draws[k]).Some?
      ensures r.Some? ==>
        exists k :: 0 <= k < |draws| && draws[k] == r.value && IndexOf(routes.items, RouteId, r.value).None? &&
          forall j :: 0 <= j < k ==> IndexOf(routes.items, RouteId, draws[j]).Some?
    {
      var i := 0;
      while i < |draws|
        invariant 0 <= i <= |draws|
        invariant forall j :: 0 <= j < i ==> IndexOf(routes.items, RouteId, draws[j]).Some?
      {
        var taken := routes.Contains(draws[i]);
        if !taken {
          return Some(draws[i]);
        }
        i := i + 1;
      }
      return None;
    }

    /** `add_route`: a route whose id is taken raises a `DuplicateRouteError` and changes
        nothing; otherwise it is appended. */
    method AddRoute(route: Route) returns (r: Outcome<ConfigError>)
      requires Valid()
      modifies routes
      ensures Valid()
      ensures r.Fail? <==> IndexOf(old(routes.items), RouteId, route.id).Some?
      ensures r.Fail? ==> r.error.DuplicateRouteError? && routes.items == old(routes.items)
      ensures r.Pass? ==> routes.items == old(routes.items) + [route]
    {
      var added := routes.Add(route);
      if added.Fail? {
        return Fail(DuplicateRouteError("Route id already exists"));
      }
      return Pass;
    }

    /** `reset`: a new, empty list, then the routes are added in order; a repeated id raises and
        leaves the routes added before it in place. */
    method Reset(newRoutes: seq<Route>) returns (r: Outcome<ConfigError>)
      modifies this
      ensures Valid() && fresh(routes)
      ensures r.Pass? <==> UniqueKeys(newRoutes, RouteId)
      ensures r.Pass? ==> routes.items == newRoutes
      ensures r.Fail? ==>
        r.error.DuplicateRouteError? &&
        exists k :: 0 <= k < |newRoutes| && routes.items == newRoutes[..k] &&
          IndexOf(newRoutes[..k], RouteId, newRoutes[k].id).Some?
    {
      routes := new IdList(RouteId);
      var i := 0;
      while i < |newRoutes|
        invariant 0 <= i <= |newRoutes|
        invariant Valid() && fresh(routes)
        invariant routes.items == newRoutes[..i]
      {
        var added := AddRoute(newRoutes[i]);
        if added.Fail? {
          assert !UniqueKeys(newRoutes, RouteId) by {
            var p := IndexOf(newRoutes[..i], RouteId, newRoutes[i].id).value;
            assert newRoutes[..i][p] == newRoutes[p];
          }
          return added;
        }
        assert newRoutes[..i + 1] == newRoutes[..i] + [newRoutes[i]];
        i := i + 1;
      }
      assert newRoutes[..i] == newRoutes;
      return Pass;
    }

    /** `get_route`. */
    method GetRoute(routeId: string) returns (r: Option<Route>)
      requires Valid()
      ensures r.None? <==> IndexOf(routes.items, RouteId, routeId).None?
      ensures r.Some? ==> r.value in routes.items && r.value.id == routeId
    {
      r := routes.Get(routeId);
    }

    /** `remove_route`: removes the route with this id, if there is one. */
    method RemoveRoute(routeId: string)
      requires Valid()
      modifies routes
      ensures Valid()
      ensures IndexOf(old(routes.items), RouteId, routeId).None? ==> routes.items == old(routes.items)
      ensures IndexOf(old(routes.items), RouteId, routeId).Some? ==>
        var i := IndexOf(old(routes.items), RouteId, routeId).value;
        routes.items == old(routes.items)[..i] + old(routes.items)[i + 1..]
    {
      routes.Remove(routeId);
    }

    /** `update_route`: the route replaces the one with `routeId` at the same position. Changing
        the id to one that is taken raises a `DuplicateRouteError`, checked before the
        `MissingRouteError` of an unknown `routeId`; either failure changes nothing. */
    method UpdateRoute(routeId: string, route: Route) returns (r: Outcome<ConfigError>)
      requires Valid()
      modifies routes
      ensures Valid()
      ensures routeId != route.id && IndexOf(old(routes.items), RouteId, route.id).Some? ==>
        r.Fail? && r.error.DuplicateRouteError?
      ensures (!(routeId != route.id && IndexOf(old(routes.items), RouteId, route.id).Some?) &&
               IndexOf(old(routes.items), RouteId, routeId).None?) ==> r.Fail? && r.error.MissingRouteError?
      ensures r.Pass? <==>
        !(routeId != route.id && IndexOf(old(routes.items), RouteId, route.id).Some?) &&
        IndexOf(old(routes.items), RouteId, routeId).Some?
      ensures r.Fail? ==> routes.items == old(routes.items)
      ensures r.Pass? ==>
        routes.items == old(routes.items)[IndexOf(old(routes.items), RouteId, routeId).value := route]
    {
      if routeId != route.id {
        var taken := routes.Contains(route.id);
        if taken {
          return Fail(DuplicateRouteError("Route id already exists"));
        }
      }
      ghost var before := routes.items;
      var replaced := routes.Replace(routeId, route);
      if replaced.Fail? {
        return Fail(MissingRouteError("Route does not exist"));
      }
      OverwriteKeepsUnique(before, RouteId, IndexOf(before, RouteId, routeId).value, route);
      return Pass;
    }

    /** `match`: the first route, in insertion order, that matches the request. */
    method Match(req: Auth.Request) returns (r: Option<Route>)
      ensures r.None? <==> forall k :: 0 <= k < |routes.items| ==> !routes.items[k].Matches(req)
      ensures r.Some? ==>
        exists k :: 0 <= k < |routes.items| && routes.items[k] == r.value && r.value.Matches(req) &&
          forall j :: 0 <= j < k ==> !routes.items[j].Matches(req)
    {
      var i := 0;
      while i < |routes.items|
        invariant 0 <= i <= |routes.items|
        invariant forall j :: 0 <= j < i ==> !routes.items[j].Matches(req)
      {
        if routes.items[i].Matches(req) {
          return Some(routes.items[i]);
        }
        i := i + 1;
      }
      return None;
    }
  }
}
