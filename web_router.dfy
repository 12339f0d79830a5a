/**
 * The web framework's router: a table from "<method>-<pattern>" to a handler,
 * and dispatch of a request to the handler under "<method>-<path>", or a 404
 * response. Handlers are opaque identifiers; what a handler does to the
 * response is outside the model.
 */
module WebRouter {

  /** An opaque handler. */
  type HandlerId = nat

  const StatusNotFound: nat := 404

  datatype Request = Request(httpMethod: string, path: string)

  /** What handling a request does: run a handler, or answer with a status and body. */
  datatype Outcome = Dispatched(handler: HandlerId) | Responded(status: nat, body: string)

  /** The table key: method, a dash, then the pattern. */
  function RouteKey(httpMethod: string, pattern: string): string
  {
    httpMethod + "-" + pattern
  }

  function NotFoundBody(path: string): string
  {
    "404 NOT FOUND: " + path + "\n"
  }

  /** The outcome of handling `req` with route table `handlers`. */
  function Route(handlers: map<string, HandlerId>, req: Request): Outcome
  {
    var key := RouteKey(req.httpMethod, req.path);
    if key in handlers then Dispatched(handlers[key])
    else Responded(StatusNotFound, NotFoundBody(req.path))
  }

  class Router {
    var handlers: map<string, HandlerId>

    /** A router with no routes. */
    constructor ()
      ensures handlers == map[]
    {
      handlers := map[];
    }

    /** Stores `handler` under the route key; a handler already there is replaced. */
    method AddRoute(httpMethod: string, pattern: string, handler: HandlerId)
      modifies this
      ensures handlers == old(handlers)[RouteKey(httpMethod, pattern) := handler]
    {
      var key := httpMethod + "-" + pattern;
      handlers := handlers[key := handler];
    }

    /** Dispatches `c` to the handler under its key, or answers 404 naming its path. */
    method Handle(c: Request) returns (o: Outcome)
      ensures o == Route(handlers, c)
      ensures o.Responded? <==> RouteKey(c.httpMethod, c.path) !in handlers
      ensures RouteKey(c.httpMethod, c.path) in handlers ==>
                o == Dispatched(handlers[RouteKey(c.httpMethod, c.path)])
      ensures RouteKey(c.httpMethod, c.path) !in handlers ==>
                o.status == StatusNotFound && o.body == NotFoundBody(c.path)
    {
      var key := c.httpMethod + "-" + c.path;
      if key in handlers {
        o := Dispatched(handlers[key]);
      } else {
        o := Responded(StatusNotFound, "404 NOT FOUND: " + c.path + "\n");
      }
    }
  }

  /** A request for a route just added dispatches to its handler. */
  lemma RouteAfterAdd(handlers: map<string, HandlerId>, httpMethod: string, pattern: string, h: HandlerId)
    ensures Route(handlers[RouteKey(httpMethod, pattern) := h], Request(httpMethod, pattern)) == Dispatched(h)
  {
  }

  /** Adding a route changes the outcome of no request whose key differs. */
  lemma RouteAddKeepsOthers(handlers: map<string, HandlerId>, httpMethod: string, pattern: string, h: HandlerId, req: Request)
    requires RouteKey(req.httpMethod, req.path) != RouteKey(httpMethod, pattern)
    ensures Route(handlers[RouteKey(httpMethod, pattern) := h], req) == Route(handlers, req)
  {
  }

  /** With no routes every request is answered 404 with the path in the body. */
  lemma EmptyRouterNotFound(req: Request)
    ensures Route(map[], req) == Responded(StatusNotFound, "404 NOT FOUND: " + req.path + "\n")
  {
  }

  /**
   * The key is not injective: method "A-B" with path "C" reaches the handler
   * registered for method "A" with pattern "B-C".
   */
  lemma RouteKeyCollision(h: HandlerId)
    ensures RouteKey("A-B", "C") == RouteKey("A", "B-C")
    ensures Route(map[RouteKey("A", "B-C") := h], Request("A-B", "C")) == Dispatched(h)
  {
    assert RouteKey("A-B", "C") == "A-B-C" == RouteKey("A", "B-C");
  }

  /** Index of the first dash in `s`, or `|s|` when there is none. */
  function FirstDash(s: string): nat
  {
    if s == [] || s[0] == '-' then 0 else 1 + FirstDash(s[1..])
  }

  /** In the key of a dash-free method the first dash is the separator. */
  lemma {:induction false} FirstDashOfKey(httpMethod: string, pattern: string)
    requires '-' !in httpMethod
    ensures FirstDash(RouteKey(httpMethod, pattern)) == |httpMethod|
  {
    if httpMethod != [] {
      assert RouteKey(httpMethod, pattern)[1..] == RouteKey(httpMethod[1..], pattern);
      FirstDashOfKey(httpMethod[1..], pattern);
    }
  }

  /** For methods without a dash the key determines method and pattern. */
  lemma RouteKeyInjectiveForDashFreeMethods(m1: string, p1: string, m2: string, p2: string)
    requires '-' !in m1 && '-' !in m2
    requires RouteKey(m1, p1) == RouteKey(m2, p2)
    ensures m1 == m2 && p1 == p2
  {
    var key := RouteKey(m1, p1);
    FirstDashOfKey(m1, p1);
    FirstDashOfKey(m2, p2);
    assert |m1| == |m2|;
    assert m1 == key[..|m1|] == m2;
    assert p1 == key[|m1| + 1..] == p2;
  }
}
