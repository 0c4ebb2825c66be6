/** The public side of the server (`internal/server/proxy.go`, `internal/server/bridge.go`): from
    a request to the tunnel and the path it is forwarded with. */
module Server {
  import opened Paths
  import opened Config
  import opened Registry
  import opened Router
  import opened Host

  datatype Response =
    | Control                                  // handled by the control plane
    | InvalidHost                              // 400
    | NoRoute                                  // 404
    | NoBackend                                // 503, nobody available
    | Unhealthy                                // 503, the backend's local service
    | StreamLimit                              // 503, too many streams
    | Forward(tunnel: ClientTunnel, path: string, strip: string)

  /** The prefix that the proxy will remove and later put back; "" for none. */
  function StripOf(r: Route): string {
    if r.strip && r.pathPrefix != "" then r.pathPrefix else ""
  }

  function ForwardedPath(path: string, strip: string): string {
    if strip != "" then StripPathPrefix(path, strip).0 else path
  }

  /** What the answering binding makes of the request path, by its own settings: the path as it
      came, or, if the binding strips, less its prefix where the path is under it. */
  ghost predicate ForwardsAs(b: ClientBinding, path: string, p: string, strip: string) {
    var prefix := NormalizePathPrefix(b.pathPrefix);
    if !b.stripPrefix || prefix == "" then p == path && strip == ""
    else
      && strip == prefix
      && (prefix == "/" || !Under(prefix, path) ==> p == path)
      && (prefix != "/" && path == prefix ==> p == "/")
      && (prefix != "/" && prefix + "/" <= path ==> p == path[|prefix|..])
  }

  lemma StripsAsConfigured(b: ClientBinding, pool: TunnelPool, path: string)
    ensures var strip := StripOf(RouteOf(b, pool)); ForwardsAs(b, path, ForwardedPath(path, strip), strip)
  {
    var prefix := NormalizePathPrefix(b.pathPrefix);
    NormalizeIdempotent(b.pathPrefix);
  }

  /** What each answer means: a refusal says what was missing; a request that is forwarded goes to
      the first available tunnel of the pool of its own host, as the one binding says that answers
      for its path. */
  ghost predicate Answers(resp: Response, host: string, path: string, rootDomain: string, maxStreams: int,
                          table: RouteTable, reg: Registry, bindings: seq<ClientBinding>)
    reads *
  {
    match HostKey(host, rootDomain)
    case NoKey(_) => resp == InvalidHost
    case Key(k) =>
      match resp
      case NoRoute => k !in table.byHost || NothingCovers(table.byHost[k], Clean(path))
      case NoBackend => Matched(table, k, path) && k in reg.pools && forall m :: m in reg.pools[k] ==> !Available(m)
      case StreamLimit =>
        && Matched(table, k, path) && k in reg.pools
        && (exists m :: m in reg.pools[k] && Available(m) && FirstWith(reg.pools[k], m)
              && m.activeStreams >= maxStreams)
      case Forward(t, p, strip) =>
        && k in reg.pools && k in reg.byName && t in reg.pools[k] && t.subdomain == k
        && Available(t) && FirstWith(reg.pools[k], t) && t.activeStreams < maxStreams
        && k in table.byHost
        && (exists i :: 0 <= i < |bindings| && bindings[i].subdomain == k
              && Best(table.byHost[k], Clean(path), RouteOf(bindings[i], reg.byName[k]))
              && ForwardsAs(bindings[i], path, p, strip))
      case _ => false
  }

  ghost predicate Matched(table: RouteTable, k: string, path: string)
    reads table
  {
    k in table.byHost && exists r :: r in table.byHost[k] && Best(table.byHost[k], Clean(path), r)
  }

  method RootHandler(host: string, path: string, rootDomain: string, controlPath: string, maxStreams: int,
                     table: RouteTable, reg: Registry, ghost bindings: seq<ClientBinding>) returns (resp: Response)
    requires reg.Valid() && table.Holds(bindings, reg.byName) && table.Sorted(table.byHost.Keys)
    ensures if IsControlPath(controlPath, path) then resp == Control
      else Answers(resp, host, path, rootDomain, maxStreams, table, reg, bindings)
  {
    if IsControlPath(controlPath, path) {
      return Control;
    }
    resp := ServePublic(host, path, rootDomain, maxStreams, table, reg, bindings);
  }

  method ServePublic(host: string, path: string, rootDomain: string, maxStreams: int,
                     table: RouteTable, reg: Registry, ghost bindings: seq<ClientBinding>) returns (resp: Response)
    requires reg.Valid() && table.Holds(bindings, reg.byName) && table.Sorted(table.byHost.Keys)
    ensures Answers(resp, host, path, rootDomain, maxStreams, table, reg, bindings)
  {
    var key := HostKey(host, rootDomain);
    if key.NoKey? {
      return InvalidHost;
    }
    var route := table.Match(key.key, path);
    if route.None? {
      return NoRoute;
    }
    var r := route.value;
    ghost var i := RoutesPoint(table, bindings, reg.byName, key.key, r);
    var t := r.pool.Pick();
    if t == null {
      return NoBackend;
    }
    if !t.localHealthy {
      return Unhealthy;
    }
    if t.activeStreams >= maxStreams {
      return StreamLimit;
    }
    var strip := StripOf(r);
    StripsAsConfigured(bindings[i], reg.byName[key.key], path);
    resp := Forward(t, ForwardedPath(path, strip), strip);
  }

  /** A stream that counts as active until it is closed. */
  class CountedConn {
    const tunnel: ClientTunnel
    var closed: bool

    constructor (tunnel: ClientTunnel)
      ensures this.tunnel == tunnel && !closed
    {
      this.tunnel, closed := tunnel, false;
    }

    /** For a tunnel whose counter is the number of its open handles, it stays so when one of them
        is closed; a handle that was closed before leaves the counter one too small. */
    method Close(ghost open: set<CountedConn>)
      modifies this`closed, tunnel`activeStreams
      ensures closed
      ensures old(CountsOpen(tunnel, open)) && this in open ==> CountsOpen(tunnel, open - {this})
      ensures old(CountsOpen(tunnel, open)) && this !in open ==> tunnel.activeStreams == |open| - 1
    {
      closed := true;
      tunnel.activeStreams := tunnel.activeStreams - 1;
    }
  }

  /** The counter of the tunnel is the number of these handles, which are all open. */
  ghost predicate CountsOpen(t: ClientTunnel, open: set<CountedConn>)
    reads t`activeStreams, open
  {
    t.activeStreams == |open| && forall c :: c in open ==> c.tunnel == t && !c.closed
  }

  /** One more open handle, and the counter still counts them; `opens` is what yamux answers. */
  method OpenStream(t: ClientTunnel, opens: bool, ghost open: set<CountedConn>) returns (c: CountedConn?)
    modifies t`activeStreams
    ensures c != null <==> opens
    ensures c == null ==> t.activeStreams == old(t.activeStreams)
    ensures c != null ==> fresh(c) && c.tunnel == t && !c.closed && c !in open
    ensures c != null && old(CountsOpen(t, open)) ==> CountsOpen(t, open + {c})
  {
    if !opens {
      return null;
    }
    t.activeStreams := t.activeStreams + 1;
    c := new CountedConn(t);
  }
}
