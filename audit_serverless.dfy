/** The two serverless audit functions. Both keep an `EventStore` of 1000
    events; one routes on the `action` query parameter and answers 405 to
    anything it does not know, the other routes on the `path` segments and
    answers anything else with its info object. */
module AuditServerless {
  import opened Optional
  import opened JsString
  import opened JsArray
  import opened AuditEvent
  import opened AuditStats
  import opened AuditStore

  const MaxEvents: nat := 1000

  /** The parsed request body: absent (`undefined` or `null`), a JSON value that
      is not an object, or an event object. */
  datatype Body = NoBody | Primitive | Json(event: Event)

  /** `query.path`: absent, a single string, or the list of path segments. */
  datatype PathQuery = NoPath | PathText(text: string) | PathSegments(segments: seq<string>)

  datatype Request = Request(
    verb: string,
    action: Option<string>,
    path: PathQuery,
    headers: Headers,
    socket: Option<string>,
    body: Body)

  datatype Response =
    | EmptyOk                          // 200 with no body (preflight)
    | Logged(total: Option<nat>)       // 200 `Event logged`
    | EventList(events: seq<Event>)    // 200 with the events, newest first
    | SummaryReport(summary: Summary)  // 200 with the summary
    | Cleared                          // 200 `All data cleared`
    | ApiInfo(currentEvents: nat)      // 200 with the endpoint list
    | MethodNotAllowed                 // 405
    | ServerError                      // 500

  datatype Route = PreflightRoute | LogRoute | EventsRoute | SummaryRoute | ClearRoute | InfoRoute | NoRoute

  /** `query.action || ''`. */
  function Action(req: Request): (a: string)
    ensures Truthy(req.action) ==> a == req.action.value
    ensures !Truthy(req.action) ==> a == ""
  {
    Or(req.action, Some("")).value
  }

  /** The dispatch of the query-routed function: each route is taken for
      exactly one method and action, and every other combination is refused. */
  function QueryRoute(req: Request): (r: Route)
    ensures r == PreflightRoute <==> req.verb == "OPTIONS"
    ensures r == LogRoute <==> req.verb == "POST" && Action(req) == ""
    ensures r == EventsRoute <==> req.verb == "GET" && Action(req) == "events"
    ensures r == SummaryRoute <==> req.verb == "GET" && Action(req) == "summary"
    ensures r == ClearRoute <==> req.verb == "DELETE" && Action(req) == "clear"
    ensures r == InfoRoute <==> req.verb == "GET" && Action(req) == ""
  {
    var a := Action(req);
    if req.verb == "OPTIONS" then PreflightRoute
    else if req.verb == "POST" && a == "" then LogRoute
    else if req.verb == "GET" && a == "events" then EventsRoute
    else if req.verb == "GET" && a == "summary" then SummaryRoute
    else if req.verb == "DELETE" && a == "clear" then ClearRoute
    else if req.verb == "GET" && a == "" then InfoRoute
    else NoRoute
  }

  /** `query.path ? query.path.join('/') : ''`. A non-empty single string has
      no `join`, so the expression throws (`None`) before the handler's
      `try`. */
  function RoutingPath(req: Request): (p: Option<string>)
    ensures req.path == NoPath ==> p == Some("")
    ensures req.path.PathText? ==> (p == None <==> req.path.text != "")
    ensures req.path.PathText? && req.path.text == "" ==> p == Some("")
    ensures req.path.PathSegments? ==> p == Some(Join(req.path.segments, '/'))
  {
    match req.path
    case NoPath => Some("")
    case PathText(t) => if t == "" then Some("") else None
    case PathSegments(parts) => Some(Join(parts, '/'))
  }

  /** The dispatch of the path-routed function on a routing path: it never
      refuses a request; whatever is not one of its four routes gets the info
      object. */
  function PathRoute(verb: string, path: string): (r: Route)
    ensures r != NoRoute
    ensures r == PreflightRoute <==> verb == "OPTIONS"
    ensures r == LogRoute <==> verb == "POST" && path == ""
    ensures r == EventsRoute <==> verb == "GET" && path == "events"
    ensures r == SummaryRoute <==> verb == "GET" && path == "summary"
    ensures r == ClearRoute <==> verb == "DELETE" && path == "clear"
  {
    if verb == "OPTIONS" then PreflightRoute
    else if verb == "POST" && path == "" then LogRoute
    else if verb == "GET" && path == "events" then EventsRoute
    else if verb == "GET" && path == "summary" then SummaryRoute
    else if verb == "DELETE" && path == "clear" then ClearRoute
    else InfoRoute
  }

  /** The query-routed handler (with the socket address as the last IP
      fallback). `now` is `new Date().toISOString()`, `hash` is `hashIP`. The
      file is an ES module, so in strict mode `event.server = ...` throws on
      any body that is not an object. */
  method HandleQueryRouted(store: EventStore, req: Request, now: string, hash: string -> IpHash)
      returns (res: Response)
    requires store.Valid() && store.capacity == MaxEvents
    modifies store
    ensures store.Valid()
    ensures QueryRoute(req) == PreflightRoute ==> res == EmptyOk
    ensures QueryRoute(req) == LogRoute && req.body.Json? ==>
      var ip := ClientIpWithSocket(req.headers, req.socket);
      store.events == Retain(old(store.events) + [Stamp(req.body.event, now, ip, hash, req.headers)], MaxEvents) &&
      res == Logged(Some(|store.events|))
    ensures QueryRoute(req) == LogRoute && !req.body.Json? ==> res == ServerError
    ensures QueryRoute(req) == EventsRoute ==> res == EventList(Reverse(old(store.events)))
    ensures QueryRoute(req) == SummaryRoute ==> res == SummaryReport(SummaryFor(old(store.events)))
    ensures QueryRoute(req) == ClearRoute ==> store.events == [] && res == Cleared
    ensures QueryRoute(req) == InfoRoute ==> res == ApiInfo(|old(store.events)|)
    ensures QueryRoute(req) == NoRoute ==> res == MethodNotAllowed
    ensures !(QueryRoute(req) == LogRoute && req.body.Json?) && QueryRoute(req) != ClearRoute ==>
      store.events == old(store.events)
  {
    match QueryRoute(req)
    case PreflightRoute => res := EmptyOk;
    case LogRoute =>
      if req.body.Json? {
        var ip := ClientIpWithSocket(req.headers, req.socket);
        var total := store.Append(Stamp(req.body.event, now, ip, hash, req.headers));
        res := Logged(Some(total));
      } else {
        res := ServerError;
      }
    case EventsRoute => res := EventList(Reverse(store.events));
    case SummaryRoute =>
      var s := Summarize(store.events);
      res := SummaryReport(s);
    case ClearRoute =>
      store.Clear();
      res := Cleared;
    case InfoRoute => res := ApiInfo(|store.events|);
    case NoRoute => res := MethodNotAllowed;
  }

  /** The path-routed handler (no socket fallback for the IP, no `total` in the
      logged answer). A `path` without `join` fails the whole invocation. The
      file is not in strict mode, so `event.server = ...` on a primitive body
      is ignored and the primitive is stored; every property the summary
      reads is then `undefined`, as on `Blank`. */
  method HandlePathRouted(store: EventStore, req: Request, now: string, hash: string -> IpHash)
      returns (res: Response)
    requires store.Valid() && store.capacity == MaxEvents
    modifies store
    ensures store.Valid()
    ensures req.verb == "OPTIONS" ==> res == EmptyOk
    ensures req.verb != "OPTIONS" && RoutingPath(req) == None ==> res == ServerError
    ensures req.verb != "OPTIONS" && RoutingPath(req).Some? ==>
      var r := PathRoute(req.verb, RoutingPath(req).value);
      (r == LogRoute && req.body.Json? ==>
         var ip := ClientIpHeadersOnly(req.headers);
         store.events == Retain(old(store.events) + [Stamp(req.body.event, now, ip, hash, req.headers)], MaxEvents) &&
         res == Logged(None)) &&
      (r == LogRoute && req.body == Primitive ==>
         store.events == Retain(old(store.events) + [Blank], MaxEvents) && res == Logged(None)) &&
      (r == LogRoute && req.body == NoBody ==> res == ServerError) &&
      (r == EventsRoute ==> res == EventList(Reverse(old(store.events)))) &&
      (r == SummaryRoute ==> res == SummaryReport(SummaryFor(old(store.events)))) &&
      (r == ClearRoute ==> store.events == [] && res == Cleared) &&
      (r == InfoRoute ==> res == ApiInfo(|old(store.events)|)) &&
      (!(r == LogRoute && req.body != NoBody) && r != ClearRoute ==> store.events == old(store.events))
    ensures req.verb == "OPTIONS" || RoutingPath(req) == None ==> store.events == old(store.events)
  {
    if req.verb == "OPTIONS" {
      return EmptyOk;
    }
    var path := RoutingPath(req);
    if path == None {
      return ServerError;
    }
    match PathRoute(req.verb, path.value)
    case LogRoute =>
      if req.body.Json? {
        var ip := ClientIpHeadersOnly(req.headers);
        var _ := store.Append(Stamp(req.body.event, now, ip, hash, req.headers));
        res := Logged(None);
      } else if req.body == Primitive {
        var _ := store.Append(Blank);
        res := Logged(None);
      } else {
        res := ServerError;
      }
    case EventsRoute => res := EventList(Reverse(store.events));
    case SummaryRoute =>
      var s := Summarize(store.events);
      res := SummaryReport(s);
    case ClearRoute =>
      store.Clear();
      res := Cleared;
    case InfoRoute => res := ApiInfo(|store.events|);
  }
}
