/** Path routing (`internal/router/route.go`): the table compiled at startup from the client
    bindings, the longest-prefix match, and the removal of a public prefix. */
module Router {
  import opened GoStrings
  import opened Paths
  import opened Config
  import opened Registry

  /** StripPathPrefix: the remaining path, and whether the prefix was there to remove. */
  function StripPathPrefix(pathStr: string, prefix: string): (string, bool) {
    var p := NormalizePathPrefix(prefix);
    if CatchAll(p) then (pathStr, true)
    else if pathStr == p then ("/", true)
    else if HasPrefix(pathStr, p + "/") then (pathStr[|p|..], true)
    else (pathStr, false)
  }

  datatype Route = Route(hostKey: string, pathPrefix: string, strip: bool, pool: TunnelPool)

  predicate Covers(prefix: string, cleanPath: string) {
    prefix == "/" || Under(prefix, cleanPath)
  }

  // ---- The declarative match

  /** r is the answer for a clean path: the longest covering prefix of the host, or a route
      without prefix when nothing covers the path. */
  ghost predicate Best(rs: seq<Route>, cleanPath: string, r: Route) {
    && r in rs
    && if r.pathPrefix == "" then
         forall x :: x in rs && x.pathPrefix != "" ==> !Covers(x.pathPrefix, cleanPath)
       else
         && Covers(r.pathPrefix, cleanPath)
         && forall x :: x in rs && x.pathPrefix != "" && Covers(x.pathPrefix, cleanPath) ==>
              |x.pathPrefix| <= |r.pathPrefix|
  }

  ghost predicate NothingCovers(rs: seq<Route>, cleanPath: string) {
    forall x :: x in rs ==> x.pathPrefix != "" && !Covers(x.pathPrefix, cleanPath)
  }

  ghost predicate RootedAndDistinct(rs: seq<Route>) {
    && (forall x :: x in rs ==> x.pathPrefix == "" || Rooted(x.pathPrefix))
    && (forall x, y :: x in rs && y in rs && x.pathPrefix == y.pathPrefix ==> x == y)
  }

  /** With rooted, pairwise distinct prefixes there is at most one answer. */
  lemma BestUnique(rs: seq<Route>, cleanPath: string, r: Route, s: Route)
    requires RootedAndDistinct(rs) && Best(rs, cleanPath, r) && Best(rs, cleanPath, s)
    ensures r == s
  {
    var a, b := r.pathPrefix, s.pathPrefix;
    if a != "" && b != "" {
      assert |a| == |b|;
      if |a| == 1 {
        assert a == "/" == b;
      } else {
        PrefixesComparable(cleanPath, a, b);
      }
    }
  }

  /** The answer does not depend on the order of the routes. */
  lemma BestIsOrderFree(rs: seq<Route>, ts: seq<Route>, cleanPath: string, r: Route)
    requires multiset(rs) == multiset(ts)
    ensures Best(rs, cleanPath, r) <==> Best(ts, cleanPath, r)
    ensures RootedAndDistinct(rs) <==> RootedAndDistinct(ts)
  {
    assert forall x :: x in rs <==> x in multiset(rs);
    assert forall x :: x in ts <==> x in multiset(ts);
  }

  // ---- Sorting

  ghost predicate LongestFirst(rs: seq<Route>) {
    forall i, j :: 0 <= i < j < |rs| ==> |rs[i].pathPrefix| >= |rs[j].pathPrefix|
  }

  /** sort.Slice with the table's comparison.  Callers may rely on the contract only: the
      library promises no order among routes whose prefixes have the same length. */
  method SortLongestFirst(rs: seq<Route>) returns (out: seq<Route>)
    ensures multiset(out) == multiset(rs)
    ensures LongestFirst(out)
  {
    out := [];
    for k := 0 to |rs|
      invariant multiset(out) == multiset(rs[..k])
      invariant LongestFirst(out)
    {
      assert rs[..k + 1] == rs[..k] + [rs[k]];
      out := InsertLongestFirst(out, rs[k]);
    }
    assert rs[..|rs|] == rs;
  }

  method InsertLongestFirst(sorted: seq<Route>, r: Route) returns (out: seq<Route>)
    requires LongestFirst(sorted)
    ensures multiset(out) == multiset(sorted) + multiset{r}
    ensures LongestFirst(out)
  {
    var i := 0;
    while i < |sorted| && |sorted[i].pathPrefix| >= |r.pathPrefix|
      invariant i <= |sorted|
      invariant forall j :: 0 <= j < i ==> |sorted[j].pathPrefix| >= |r.pathPrefix|
    {
      i := i + 1;
    }
    out := sorted[..i] + [r] + sorted[i..];
    assert sorted == sorted[..i] + sorted[i..];
    InsertKeepsOrder(sorted, i, r);
  }

  lemma InsertKeepsOrder(sorted: seq<Route>, i: nat, r: Route)
    requires LongestFirst(sorted) && i <= |sorted|
    requires forall j :: 0 <= j < i ==> |sorted[j].pathPrefix| >= |r.pathPrefix|
    requires i < |sorted| ==> |sorted[i].pathPrefix| < |r.pathPrefix|
    ensures LongestFirst(sorted[..i] + [r] + sorted[i..])
  {
    var out := sorted[..i] + [r] + sorted[i..];
    forall a, b | 0 <= a < b < |out| ensures |out[a].pathPrefix| >= |out[b].pathPrefix| {
      assert a < i ==> out[a] == sorted[a];
      assert a > i ==> out[a] == sorted[a - 1];
      assert b < i ==> out[b] == sorted[b];
      assert b > i ==> out[b] == sorted[b - 1];
    }
  }

  // ---- The table

  function RouteOf(b: ClientBinding, pool: TunnelPool): Route {
    Route(b.subdomain, NormalizePathPrefix(b.pathPrefix), b.stripPrefix, pool)
  }

  /** The routes of one host in the order of the bindings. */
  function RoutesOf(bindings: seq<ClientBinding>, host: string, pool: TunnelPool): seq<Route> {
    if bindings == [] then []
    else
      var n := |bindings| - 1;
      RoutesOf(bindings[..n], host, pool) + if bindings[n].subdomain == host then [RouteOf(bindings[n], pool)] else []
  }

  function Hosts(bindings: seq<ClientBinding>): set<string> {
    set b | b in bindings :: b.subdomain
  }

  lemma {:induction false} RouteHasBinding(bindings: seq<ClientBinding>, host: string, pool: TunnelPool, r: Route)
    returns (k: nat)
    requires r in RoutesOf(bindings, host, pool)
    ensures k < |bindings| && bindings[k].subdomain == host && r == RouteOf(bindings[k], pool)
  {
    k := |bindings| - 1;
    if bindings[k].subdomain != host || r != RouteOf(bindings[k], pool) {
      k := RouteHasBinding(bindings[..k], host, pool, r);
    }
  }

  lemma {:induction false} BindingHasRoute(bindings: seq<ClientBinding>, k: nat, pool: TunnelPool)
    requires k < |bindings|
    ensures RouteOf(bindings[k], pool) in RoutesOf(bindings, bindings[k].subdomain, pool)
  {
    if k < |bindings| - 1 {
      BindingHasRoute(bindings[..|bindings| - 1], k, pool);
    }
  }

  lemma RoutesStep(bindings: seq<ClientBinding>, k: nat, host: string, pool: TunnelPool)
    requires k < |bindings|
    ensures RoutesOf(bindings[..k + 1], host, pool) ==
      RoutesOf(bindings[..k], host, pool) + if bindings[k].subdomain == host then [RouteOf(bindings[k], pool)] else []
  {
    assert bindings[..k + 1][..k] == bindings[..k];
  }

  lemma {:induction false} NoRoutes(bindings: seq<ClientBinding>, host: string, pool: TunnelPool)
    requires host !in Hosts(bindings)
    ensures RoutesOf(bindings, host, pool) == []
  {
    if bindings != [] {
      var n := |bindings| - 1;
      assert bindings[n].subdomain in Hosts(bindings);
      assert forall b :: b in bindings[..n] ==> b in bindings;
      NoRoutes(bindings[..n], host, pool);
    }
  }

  lemma HostsStep(bindings: seq<ClientBinding>, k: nat)
    requires k < |bindings|
    ensures Hosts(bindings[..k + 1]) == Hosts(bindings[..k]) + {bindings[k].subdomain}
  {
    var bs := bindings[..k + 1];
    assert bs == bindings[..k] + [bindings[k]];
    assert bindings[k] in bs;
    assert forall b :: b in bindings[..k] ==> b in bs;
  }

  function WithRoute(byHost: map<string, seq<Route>>, b: ClientBinding, pool: TunnelPool): map<string, seq<Route>> {
    var routes := if b.subdomain in byHost then byHost[b.subdomain] else [];
    byHost[b.subdomain := routes + [RouteOf(b, pool)]]
  }

  ghost predicate Collected(byHost: map<string, seq<Route>>, bs: seq<ClientBinding>, byName: map<string, TunnelPool>) {
    && byHost.Keys == Hosts(bs)
    && forall h :: h in byHost ==> h in byName && byHost[h] == RoutesOf(bs, h, byName[h])
  }

  lemma CollectStep(byHost: map<string, seq<Route>>, bs: seq<ClientBinding>, b: ClientBinding,
                    before: map<string, TunnelPool>, after: map<string, TunnelPool>)
    requires Collected(byHost, bs, before) && b.subdomain in after
    requires forall h :: h in before ==> h in after && after[h] == before[h]
    ensures Collected(WithRoute(byHost, b, after[b.subdomain]), bs + [b], after)
  {
    var ds, result := bs + [b], WithRoute(byHost, b, after[b.subdomain]);
    assert ds[..|bs| + 1] == ds && ds[..|bs|] == bs;
    HostsStep(ds, |bs|);
    forall h | h in result ensures h in after && result[h] == RoutesOf(ds, h, after[h]) {
      RoutesStep(ds, |bs|, h, after[h]);
      if h !in byHost {
        NoRoutes(bs, h, after[h]);
      }
    }
  }

  class RouteTable {
    var byHost: map<string, seq<Route>>

    /** The table holds the routes of these bindings, and every route points at the registry's
        current pool of its host. */
    ghost predicate Holds(bindings: seq<ClientBinding>, byName: map<string, TunnelPool>)
      reads this
    {
      && byHost.Keys == Hosts(bindings)
      && forall h :: h in byHost ==>
           h in byName && multiset(byHost[h]) == multiset(RoutesOf(bindings, h, byName[h]))
    }

    ghost predicate Sorted(hosts: set<string>)
      reads this
    {
      forall h :: h in byHost && h in hosts ==> LongestFirst(byHost[h])
    }

    constructor (bindings: seq<ClientBinding>, reg: Registry)
      requires reg.Valid()
      modifies reg`byName, reg`pools, reg`objects
      ensures reg.Valid() && reg.KeepsPools()
      ensures Holds(bindings, reg.byName) && Sorted(byHost.Keys)
    {
      byHost := map[];
      new;
      Collect(bindings, reg);
      SortAll();
    }

    /** The first loop: append each binding's route to the routes of its host. */
    method Collect(bindings: seq<ClientBinding>, reg: Registry)
      requires reg.Valid() && byHost == map[]
      modifies this, reg`byName, reg`pools, reg`objects
      ensures reg.Valid() && reg.KeepsPools()
      ensures Holds(bindings, reg.byName)
    {
      for k := 0 to |bindings|
        invariant reg.Valid() && reg.KeepsPools()
        invariant Collected(byHost, bindings[..k], reg.byName)
      {
        ghost var before, names := byHost, reg.byName;
        AddRoute(bindings[k], reg);
        assert bindings[..k + 1] == bindings[..k] + [bindings[k]];
        CollectStep(before, bindings[..k], bindings[k], names, reg.byName);
      }
      assert bindings[..|bindings|] == bindings;
    }

    method AddRoute(b: ClientBinding, reg: Registry)
      requires reg.Valid()
      modifies this, reg`byName, reg`pools, reg`objects
      ensures reg.Valid() && reg.KeepsPools() && b.subdomain in reg.byName
      ensures byHost == WithRoute(old(byHost), b, reg.byName[b.subdomain])
    {
      var pool := reg.EnsurePool(b.subdomain);
      byHost := WithRoute(byHost, b, pool);
    }

    /** The second loop, over the hosts in the order of a map iteration. */
    method SortAll()
      modifies this
      ensures byHost.Keys == old(byHost.Keys)
      ensures forall h :: h in byHost ==> multiset(byHost[h]) == multiset(old(byHost)[h])
      ensures Sorted(byHost.Keys)
    {
      var hosts := byHost.Keys;
      while hosts != {}
        invariant hosts <= byHost.Keys == old(byHost.Keys)
        invariant forall h :: h in byHost ==> multiset(byHost[h]) == multiset(old(byHost)[h])
        invariant Sorted(byHost.Keys - hosts)
      {
        var h :| h in hosts;
        var sorted := SortLongestFirst(byHost[h]);
        byHost := byHost[h := sorted];
        hosts := hosts - {h};
      }
    }

    /** The loop of Match over the sorted routes of the host. */
    method Match(hostKey: string, pathStr: string) returns (r: Option<Route>)
      requires Sorted(byHost.Keys)
      ensures hostKey !in byHost ==> r.None?
      ensures hostKey in byHost && r.Some? ==> Best(byHost[hostKey], Clean(pathStr), r.value)
      ensures hostKey in byHost && r.None? ==> NothingCovers(byHost[hostKey], Clean(pathStr))
    {
      if hostKey !in byHost {
        return None;
      }
      var cleanPath := Clean(pathStr);
      var routes := byHost[hostKey];
      var fallback: Option<Route> := None;
      for i := 0 to |routes|
        invariant forall j :: 0 <= j < i ==> routes[j].pathPrefix == "" || !Covers(routes[j].pathPrefix, cleanPath)
        invariant fallback.Some? ==> fallback.value in routes && fallback.value.pathPrefix == ""
        invariant fallback.None? ==> forall j :: 0 <= j < i ==> routes[j].pathPrefix != ""
      {
        var route := routes[i];
        if route.pathPrefix == "" {
          fallback := Some(route);
          continue;
        }
        if route.pathPrefix == "/" || cleanPath == route.pathPrefix
           || HasPrefix(cleanPath, route.pathPrefix + "/") {
          return Some(route);
        }
      }
      return fallback;
    }
  }

  /** A route in the table belongs to a binding of its host and points at the pool of that host. */
  lemma RoutesPoint(table: RouteTable, bindings: seq<ClientBinding>, byName: map<string, TunnelPool>,
                    h: string, r: Route) returns (i: nat)
    requires table.Holds(bindings, byName) && h in table.byHost && r in table.byHost[h]
    ensures r.hostKey == h && h in byName && r.pool == byName[h]
    ensures i < |bindings| && bindings[i].subdomain == h && r == RouteOf(bindings[i], byName[h])
  {
    assert r in multiset(table.byHost[h]);
    i := RouteHasBinding(bindings, h, byName[h], r);
  }

  // ---- What the table of an accepted configuration answers

  lemma AcceptedRoutesAreRootedAndDistinct(clients: seq<ClientBinding>, host: string, pool: TunnelPool)
    requires ValidBindings(clients)
    ensures RootedAndDistinct(RoutesOf(clients, host, pool))
  {
    var rs := RoutesOf(clients, host, pool);
    forall x | x in rs ensures x.pathPrefix == "" || Rooted(x.pathPrefix) {
      var k := RouteHasBinding(clients, host, pool, x);
      assert BindingOk(clients[k]);
      NormalizeIdempotent(clients[k].pathPrefix);
    }
    forall x, y | x in rs && y in rs && x.pathPrefix == y.pathPrefix ensures x == y {
      var i := RouteHasBinding(clients, host, pool, x);
      var j := RouteHasBinding(clients, host, pool, y);
      assert SameRoute(clients[i], clients[j]);
    }
  }

  /** A clean path under a binding's own prefix is answered with that binding's route. */
  lemma BindingAnswersItsPaths(clients: seq<ClientBinding>, i: nat, pool: TunnelPool, rs: seq<Route>,
                             q: string, r: Route)
    requires ValidBindings(clients) && i < |clients|
    requires multiset(rs) == multiset(RoutesOf(clients, clients[i].subdomain, pool))
    requires !CatchAll(EntryOf(clients[i]).prefix) && Under(EntryOf(clients[i]).prefix, q)
    ensures Best(rs, q, r) <==> r == RouteOf(clients[i], pool)
  {
    var host, own := clients[i].subdomain, RouteOf(clients[i], pool);
    var ts := RoutesOf(clients, host, pool);
    BindingHasRoute(clients, i, pool);
    assert own in ts;
    forall x | x in ts && x.pathPrefix != "" && Covers(x.pathPrefix, q)
      ensures |x.pathPrefix| <= |own.pathPrefix|
    {
      var j := RouteHasBinding(clients, host, pool, x);
      if x.pathPrefix != "/" {
        AtMostOneCover(clients, i, j, q);
      }
    }
    assert Best(ts, q, own);
    AcceptedRoutesAreRootedAndDistinct(clients, host, pool);
    BestIsOrderFree(rs, ts, q, own);
    BestIsOrderFree(rs, ts, q, r);
    if Best(ts, q, r) {
      BestUnique(ts, q, r, own);
    }
  }

  // ---- Stripping

  /** Match looks at the cleaned path, the proxy strips the raw one: a request matched by a
      prefix is stripped exactly when its raw path is under the prefix as well. */
  lemma StripsExactlyWhenRawIsUnder(raw: string, prefix: string)
    requires NormalRooted(prefix) && prefix != "/" && Covers(prefix, Clean(raw))
    ensures StripPathPrefix(raw, prefix).1 <==> Under(prefix, raw)
    ensures !StripPathPrefix(raw, prefix).1 ==> StripPathPrefix(raw, prefix).0 == raw
    ensures Clean(raw) == raw ==> StripPathPrefix(raw, prefix).1
  {
    NormalizeFixed(prefix);
  }

  /** "/x/../service/a" is matched by "/service" and forwarded as it came. */
  lemma MatchedButNotStripped(x: string, prefix: string)
    requires NormalRooted(prefix) && prefix != "/"
    requires CleanSegment(x) && x != ".." && !Under(prefix, "/" + x + "/.." + prefix)
    ensures var raw := "/" + x + "/.." + prefix;
      Covers(prefix, Clean(raw)) && StripPathPrefix(raw, prefix) == (raw, false)
  {
    var raw, up, s := "/" + x + "/.." + prefix, "/" + x + "/..", prefix[1..];
    assert prefix == "" + ['/'] + s;
    assert raw == up + ['/'] + s;
    SplitAtSeparator("", s, '/');
    SplitAtSeparator(up, s, '/');
    UpAndDown(x);
    WalkConcat(true, Split(up, '/'), Split(s, '/'), []);
    WalkConcat(true, Split("", '/'), Split(s, '/'), []);
    assert Segments(raw) == Segments(prefix);
    CleanRooted(raw);
    CleanRooted(prefix);
    NormalizeFixed(prefix);
  }

  lemma UpAndDown(x: string)
    requires CleanSegment(x) && x != ".."
    ensures Walk(true, Split("/" + x + "/..", '/'), []) == []
  {
    var up := "/" + x + "/..";
    assert up == ("" + ['/'] + x) + ['/'] + "..";
    SplitAtSeparator("" + ['/'] + x, "..", '/');
    SplitAtSeparator("", x, '/');
    SplitWithoutSeparator(x, '/');
    SplitWithoutSeparator("..", '/');
    assert Split(up, '/') == [""] + [x] + [".."];
    var w := ["", x, ".."];
    assert Split(up, '/') == w;
    assert w[1..] == [x, ".."] && [x, ".."][1..] == [".."] && [".."][1..] == [];
    assert Walk(true, [".."], [x]) == [];
    assert Walk(true, [x, ".."], []) == [];
  }
}
