/** The item router of `backend/routes/itemRoutes.js`: the gate runs on
    every request under `/items`, and only a request it passes reaches the
    routing table. Paths are the segments after `/items` (`[]` for `/`,
    `[id]` for `/:id`). As in Express, a HEAD request is served by the GET
    route. */
module ItemRoutes {
  import opened Wrappers
  import opened Text
  import opened Jwt
  import opened AuthMiddleware

  datatype Verb = Get | Post | Put | Delete | Patch | Head

  datatype Handler = CreateItem | ListItems | GetItem | UpdateItem | DeleteItem

  /** `"/"` or `"/:id"`. */
  datatype Pattern = Root | ById

  datatype Route = Route(verb: Verb, pattern: Pattern, handler: Handler)

  /** The table, in registration order. */
  const Routes: seq<Route> := [
    Route(Post, Root, CreateItem),
    Route(Get, Root, ListItems),
    Route(Get, ById, GetItem),
    Route(Put, ById, UpdateItem),
    Route(Delete, ById, DeleteItem)
  ]

  predicate PatternMatches(p: Pattern, segments: seq<string>) {
    match p
    case Root => segments == []
    case ById => |segments| == 1 && segments[0] != ""
  }

  /** A route serves its own verb, and a GET route also serves HEAD. */
  predicate RouteMatches(r: Route, verb: Verb, segments: seq<string>)
    ensures RouteMatches(r, verb, segments) ==> |segments| <= 1
    ensures r.verb == Get && verb == Head ==> (RouteMatches(r, verb, segments) <==> PatternMatches(r.pattern, segments))
  {
    (r.verb == verb || (verb == Head && r.verb == Get)) && PatternMatches(r.pattern, segments)
  }

  /** The first route of the table that matches, if any. */
  function FirstMatch(table: seq<Route>, verb: Verb, segments: seq<string>): (r: Option<Handler>)
    ensures r.Some? <==> exists i :: 0 <= i < |table| && RouteMatches(table[i], verb, segments)
    ensures r.Some? ==> exists i :: 0 <= i < |table| && RouteMatches(table[i], verb, segments) && table[i].handler == r.value
  {
    if table == [] then None
    else if RouteMatches(table[0], verb, segments) then Some(table[0].handler)
    else
      var r := FirstMatch(table[1..], verb, segments);
      assert forall i :: 1 <= i < |table| ==> table[1..][i - 1] == table[i];
      r
  }

  /** The router: HEAD is answered by the GET route, PATCH and paths
      deeper than `/:id` by none. */
  function Dispatch(verb: Verb, segments: seq<string>): (r: Option<Handler>)
    ensures verb == Patch || |segments| >= 2 ==> r.None?
    ensures verb == Post ==> (r.Some? <==> segments == [])
  {
    FirstMatch(Routes, verb, segments)
  }

  /** Express answers HEAD with the GET route, for every path. */
  lemma HeadIsServedByGet(segments: seq<string>)
    ensures Dispatch(Head, segments) == Dispatch(Get, segments)
  {
  }

  /** No request matches two routes, so the order of the table never
      decides which handler runs. */
  lemma RoutesAreDisjoint(verb: Verb, segments: seq<string>, i: int, j: int)
    requires 0 <= i < j < |Routes|
    ensures !(RouteMatches(Routes[i], verb, segments) && RouteMatches(Routes[j], verb, segments))
  {
  }

  /** The bindings of the table: POST `/` creates, GET `/` lists, GET,
      PUT and DELETE `/:id` read, update and delete; PATCH and a deeper
      path match nothing. */
  lemma DispatchTable(id: string, other: seq<string>)
    requires id != "" && |other| >= 2
    ensures Dispatch(Post, []) == Some(CreateItem)
    ensures Dispatch(Get, []) == Some(ListItems)
    ensures Dispatch(Get, [id]) == Some(GetItem)
    ensures Dispatch(Put, [id]) == Some(UpdateItem)
    ensures Dispatch(Delete, [id]) == Some(DeleteItem)
    ensures Dispatch(Patch, [id]) == None && Dispatch(Post, [id]) == None
    ensures forall v :: Dispatch(v, other) == None
  {
    assert RouteMatches(Routes[0], Post, []);
    assert RouteMatches(Routes[1], Get, []);
    assert RouteMatches(Routes[2], Get, [id]);
    assert RouteMatches(Routes[3], Put, [id]);
    assert RouteMatches(Routes[4], Delete, [id]);
  }

  /** The fate of a request under `/items`. */
  datatype Outcome =
    | Rejected(status: int, message: string)
    | Dispatched(handler: Handler, userId: string, userRole: string)
    | NoRoute

  /** `router.use(authMiddleware)` and then the table: a request the gate
      rejects reaches no handler, and a handler only ever sees the id and
      role of a token the verifier accepted. */
  function HandleRequest(header: Option<string>, verify: Verifier, verb: Verb, segments: seq<string>): (o: Outcome)
    ensures Decide(header, verify).Reject? ==> o == Rejected(Decide(header, verify).status, Decide(header, verify).message)
    ensures o.Dispatched? ==>
      && header.Some? && StartsWith(header.value, BearerPrefix)
      && verify(TokenField(header.value)) == Some(Claims(o.userId, o.userRole))
      && Dispatch(verb, segments) == Some(o.handler)
    ensures Decide(header, verify).Next? ==> (o.NoRoute? <==> Dispatch(verb, segments).None?)
    ensures Decide(header, verify).Next? && Dispatch(verb, segments).Some? ==>
      o == Dispatched(Dispatch(verb, segments).value, Decide(header, verify).userId, Decide(header, verify).userRole)
  {
    match Decide(header, verify)
    case Reject(status, message) => Rejected(status, message)
    case Next(userId, userRole) =>
      match Dispatch(verb, segments)
      case None => NoRoute
      case Some(h) => Dispatched(h, userId, userRole)
  }
}
