/** The routing decision of `proxy` (src/main.rs): host key extraction, lookup in the
    host map, target URL construction, header rewrite, and relaying the upstream answer. */
module Proxy {
  import opened Wrappers
  import opened Headers
  import opened Config

  /** The reply `proxy` synthesises for an unknown host or an origin without a domain. */
  const MISSING: string := "missing"

  /** Status of `Response::new`. */
  const OK: int := 200

  /** An inbound request; `verb` is the HTTP method. */
  datatype Request = Request(verb: string, path: string, query: Option<string>, headers: seq<Header>)

  datatype Response = Response(status: int, headers: seq<Header>, body: string)

  /** The operations of the `url` crate that `proxy` uses, over an abstract URL type:
      `Url::parse`, `set_path`, `set_query` and `domain`. */
  datatype UrlLib<!U> = UrlLib(
    parse: string -> Option<U>,
    setPath: (U, string) -> U,
    setQuery: (U, Option<string>) -> U,
    domain: U -> Option<string>)

  /** The request sent upstream. */
  datatype Outbound<U> = Outbound(verb: string, url: U, headers: seq<Header>, body: string)

  /** Either a locally synthesised body or a request to forward. */
  datatype Decision<U> = Local(body: string) | Forward(request: Outbound<U>)

  /** What `HeaderValue::to_str` accepts: visible ASCII and tab. */
  predicate VisibleAscii(s: string) {
    forall i | 0 <= i < |s| :: s[i] == '\t' || (' ' <= s[i] <= '~')
  }

  /** The routing key: the Host header value up to, not including, its first `:`
      (the whole value when it has none). */
  function HostKey(v: string): (k: string)
    ensures |k| <= |v| && k == v[..|k|]
    ensures ':' !in k
    ensures |k| < |v| ==> v[|k|] == ':'
  {
    if |v| == 0 || v[0] == ':' then ""
    else
      var rest := HostKey(v[1..]);
      assert v[1..][..|rest|] == v[1..|rest| + 1];
      [v[0]] + rest
  }

  /** A port suffix is ignored: `name:port` routes like `name`. */
  lemma HostKeyDropsPort(name: string, port: string)
    requires ':' !in name
    ensures HostKey(name + ":" + port) == name
    ensures HostKey(name) == name
  {
    var v := name + ":" + port;
    assert v[..|name|] == name;
    assert v[|name|] == ':';
  }

  /** The header list the outbound request gets: every inbound header inserted in
      order, with the value of `host` replaced by the origin's domain. */
  function RewriteHeaders(hs: seq<Header>, domain: string): (r: seq<Header>)
    ensures UniqueNames(r)
    ensures Names(r) == Names(hs)
    ensures forall n | n != "host" :: FirstValue(r, n) == LastValue(hs, n)
    ensures FirstValue(r, "host") == (if "host" in Names(hs) then Some(domain) else None)
  {
    if |hs| == 0 then []
    else
      var init := hs[..|hs| - 1];
      var h := hs[|hs| - 1];
      assert hs == init + [h];
      NamesSnoc(init, h);
      var acc := RewriteHeaders(init, domain);
      var v := if h.name == "host" then domain else h.value;
      InsertLookup(acc, h.name, v);
      InsertKeepsUnique(acc, h.name, v);
      Insert(acc, h.name, v)
  }

  /** The Host header value of a request (indexing panics without one). */
  function HostValue(req: Request): string
    requires FirstValue(req.headers, "host").Some?
  {
    FirstValue(req.headers, "host").value
  }

  /** The origin URL with its path and query replaced by the inbound ones. */
  function TargetUrl<U>(lib: UrlLib<U>, origin: string, path: string, query: Option<string>): U
    requires lib.parse(origin).Some?
  {
    lib.setQuery(lib.setPath(lib.parse(origin).value, path), query)
  }

  /** The conditions under which `proxy` does not panic: a Host header in visible
      ASCII, and an origin `Url::parse` accepts for a configured host. */
  predicate Routable<U>(lib: UrlLib<U>, cache: map<string, CacheConfig>, req: Request) {
    && FirstValue(req.headers, "host").Some?
    && VisibleAscii(HostValue(req))
    && (HostKey(HostValue(req)) in cache ==> lib.parse(cache[HostKey(HostValue(req))].origin).Some?)
  }

  /** The pure part of `proxy`: answer `missing` locally for an unknown host or an origin
      without a domain, otherwise forward with the same method, the rewritten URL,
      the rewritten headers and an empty body. */
  function Route<U>(lib: UrlLib<U>, cache: map<string, CacheConfig>, req: Request): (d: Decision<U>)
    requires Routable(lib, cache, req)
    ensures HostKey(HostValue(req)) !in cache ==> d == Local(MISSING)
    ensures d.Local? ==> d.body == MISSING
    ensures HostKey(HostValue(req)) in cache ==>
              var url := TargetUrl(lib, cache[HostKey(HostValue(req))].origin, req.path, req.query);
              && (d.Local? <==> lib.domain(url).None?)
              && (d.Forward? ==>
                    && d.request.verb == req.verb
                    && d.request.url == url
                    && d.request.body == ""
                    && UniqueNames(d.request.headers)
                    && Names(d.request.headers) == Names(req.headers)
                    && FirstValue(d.request.headers, "host") == lib.domain(url)
                    && forall n | n != "host" :: FirstValue(d.request.headers, n) == LastValue(req.headers, n))
  {
    var key := HostKey(HostValue(req));
    if key !in cache then Local(MISSING)
    else
      var url := TargetUrl(lib, cache[key].origin, req.path, req.query);
      match lib.domain(url)
      case None => Local(MISSING)
      case Some(domain) =>
        Forward(Outbound(req.verb, url, RewriteHeaders(req.headers, domain), ""))
  }

  /** `proxy`: route the request, send a forwarded request with `send` (the shared
      client), and relay its answer; a send error becomes a 200 reply carrying the
      error text. */
  function HandleRequest<U>(lib: UrlLib<U>, cache: map<string, CacheConfig>, req: Request,
                            send: Outbound<U> -> Result<Response, string>): (resp: Response)
    requires Routable(lib, cache, req)
    ensures Route(lib, cache, req).Local? ==> resp == Response(OK, [], MISSING)
    ensures Route(lib, cache, req).Forward? ==>
              var upstream := send(Route(lib, cache, req).request);
              && (upstream.Success? ==> resp == upstream.value)
              && (upstream.Failure? ==> resp == Response(OK, [], upstream.error))
  {
    match Route(lib, cache, req)
    case Local(body) => Response(OK, [], body)
    case Forward(outbound) =>
      match send(outbound)
      case Success(upstream) => upstream
      case Failure(err) => Response(OK, [], err)
  }

  /** An unknown host is answered locally with `missing`: the client is never used. */
  lemma UnknownHostNeverForwarded<U>(lib: UrlLib<U>, cache: map<string, CacheConfig>, req: Request,
                                     send1: Outbound<U> -> Result<Response, string>,
                                     send2: Outbound<U> -> Result<Response, string>)
    requires Routable(lib, cache, req)
    requires HostKey(HostValue(req)) !in cache
    ensures HandleRequest(lib, cache, req, send1) == HandleRequest(lib, cache, req, send2)
              == Response(OK, [], MISSING)
  {
  }
}
