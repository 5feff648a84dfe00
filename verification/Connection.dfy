/** From the bytes a connection receives to the handler that answers. */
module Connection {
  import opened Wrappers
  import opened RequestState
  import opened RequestParser
  import RequestParsing
  import opened Routing

  ghost predicate NoReferer(headers: seq<(string, string)>) { forall h <- headers :: h.0 != "Referer" }

  /** Some key is registered for the target or for a prefix it may be cut to. */
  ghost predicate Served(uri: string, keys: set<string>) { uri != "" && exists k <- keys :: IsCut(uri, k) }

  /**
    Parses what was received, well-formed or not, and finds its handler. Without
    a Referer header routing goes by the parsed target. A handler is found
    exactly when one is registered for some prefix of what routing goes by, and
    it is the one of the longest such prefix.
   */
  method HandleRead<H>(raw: string, handlers: map<string, H>) returns (request: Request, r: Route<H>)
    ensures fresh(request) && Parsed(request.View(), request.parsedStatus) == Parse(raw)
    ensures r.BadReferer? <==> exists h <- Parse(raw).req.headers :: SlashlessReferer(h)
    ensures var q := Parse(raw).req; NoReferer(q.headers) ==> Basis(q.uri, q.headers) == Some(q.uri)
    ensures var basis := Basis(Parse(raw).req.uri, Parse(raw).req.headers);
            basis.Some? ==>
              && (r.Found? <==> Served(basis.value, handlers.Keys))
              && (r.Found? ==> RoutesTo(basis.value, handlers.Keys, r.prefix) && r.handler == handlers[r.prefix])
              && (r.NoDefault? ==> "default" !in handlers)
              && (r.Fallback? ==> "default" in handlers && r.handler == handlers["default"])
  {
    request := Request.ParseRequest(raw);
    assert request.View() == Parse(raw).req;
    RequestParsing.TargetIsAbsolute(raw);
    NoBasisIffSlashless(request.uri, request.headers);
    r := FindHandler(request.uri, request.headers, handlers);
    if NoReferer(request.headers) {
      ParsedTargetRoutes(raw);
    }
  }
}
