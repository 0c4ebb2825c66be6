/** Startup validation of the server configuration (`internal/config`): path prefixes, the
    control path, and the uniqueness and conflict checks over the client bindings. */
module Config {
  import opened GoStrings
  import opened Paths

  datatype ClientBinding = ClientBinding(
    clientId: string,
    subdomain: string,
    pathPrefix: string,
    stripPrefix: bool,
    tokenFile: string,
    token: string,
    maxClients: int)

  datatype TunnelSettings = TunnelSettings(
    sessionTimeout: int,
    pollTimeout: int,
    pollMode: string,
    streamMaxDuration: int,
    heartbeatInterval: int,
    enableResume: bool,
    resumeGrace: int,
    maxReplayBytes: int)

  datatype ConfigError =
    | RootDomainRequired
    | ControlPathIsRoot
    | ControlPathConflict(clientId: string)
    | SessionTimeoutTooShort
    | BadPollMode
    | StreamMaxDurationTooShort
    | BadResumeGrace
    | BadReplayBytes
    | NoClients
    | ClientIdRequired
    | TokenFileRequired(clientId: string)
    | DuplicateClientId(clientId: string)
    | TokenTooShort(clientId: string)
    | DuplicateToken(other: string, clientId: string)
    | DuplicateRoute(subdomain: string, pathPrefix: string)
    | PathPrefixNotRooted(clientId: string)
    | ConflictingPrefixes(host: string, a: string, b: string)

  datatype Result<+T> = Ok(value: T) | Err(error: ConfigError)

  // ---- Path prefixes

  /** `normalizePathPrefix`; package router repeats it as `NormalizePathPrefix`. */
  function NormalizePathPrefix(p: string): string {
    if p == "" then ""
    else
      var cleaned := Clean(p);
      if cleaned == "/" then "/" else TrimSuffix(cleaned, "/")
  }

  /** Prefixes that cover every path of a host and are exempt from the conflict checks. */
  predicate CatchAll(prefix: string) {
    prefix == "" || prefix == "/"
  }

  lemma {:induction false} JoinDoesNotEndInSlash(st: seq<string>)
    requires st != []
    requires forall i :: 0 <= i < |st| ==> st[i] != "" && '/' !in st[i]
    ensures Join(st, '/') != "" && !HasSuffix(Join(st, '/'), "/")
  {
    if |st| == 1 {
      assert st[0][|st[0]| - 1] in st[0];
    } else {
      JoinDoesNotEndInSlash(st[1..]);
      var r := Join(st[1..], '/');
      var s := Join(st, '/');
      assert s[|s| - 1] == r[|r| - 1];
      assert r[|r| - 1..] == [r[|r| - 1]] && s[|s| - 1..] == [s[|s| - 1]];
    }
  }

  /** Nothing is left for TrimSuffix to trim: normalising a prefix is cleaning it. */
  lemma NormalizeIsClean(p: string)
    requires p != ""
    ensures NormalizePathPrefix(p) == Clean(p)
    ensures Clean(p) == "/" || !HasSuffix(Clean(p), "/")
  {
    if Rooted(p) {
      CleanRooted(p);
      CleanIdempotent(p);
      if Clean(p) != "/" {
        NormalDoesNotEndInSlash(Clean(p));
      }
    } else {
      SplitHasNoSeparator(p, '/');
      var st := Walk(false, Split(p, '/'), []);
      WalkNormal(false, Split(p, '/'), []);
      if st != [] {
        JoinDoesNotEndInSlash(st);
      }
    }
  }

  /** Normalising is idempotent, and a rooted prefix becomes a rooted normal path. */
  lemma NormalizeIdempotent(p: string)
    ensures NormalizePathPrefix(NormalizePathPrefix(p)) == NormalizePathPrefix(p)
    ensures Rooted(p) ==> NormalRooted(NormalizePathPrefix(p))
  {
    if p != "" {
      NormalizeIsClean(p);
      CleanIdempotent(p);
      NormalizeIsClean(Clean(p));
    }
  }

  lemma NormalizeFixed(p: string)
    requires NormalRooted(p)
    ensures NormalizePathPrefix(p) == p
  {
    NormalizeIsClean(p);
  }

  // ---- The control path

  const DEFAULT_CONTROL_PATH := "/tunnel"

  function ValidateControlPath(p: string): Result<string> {
    if p == "" then Ok(DEFAULT_CONTROL_PATH)
    else
      var c := Clean(p);
      var cleaned := if HasPrefix(c, "/") then c else "/" + c;
      if cleaned == "/" then Err(ControlPathIsRoot) else Ok(TrimSuffix(cleaned, "/"))
  }

  function NormalizeControlPath(p: string): string {
    match ValidateControlPath(p)
    case Ok(normalized) => normalized
    case Err(_) => DEFAULT_CONTROL_PATH
  }

  /** `isControlPath`: the request goes to the control plane instead of a tunnel. */
  predicate IsControlPath(controlPath: string, p: string) {
    Under(NormalizeControlPath(controlPath), p)
  }

  /** The configured paths whose validated form is stable: everything except a relative path
      that climbs out of where it starts, or cleans to nothing. */
  predicate StableControlPath(p: string) {
    p == "" || Rooted(p) ||
    (Clean(p) != "." && Clean(p) != ".." && !HasPrefix(Clean(p), "../"))
  }

  lemma NormalIffGoodSegments(w: seq<string>)
    requires w != [] && NoneContains(w, '/') && "/" + Join(w, '/') != "/"
    ensures NormalRooted("/" + Join(w, '/')) <==> AllGood(w)
  {
    var v := "/" + Join(w, '/');
    AbsJoin(w);
    if AllGood(w) {
      SegmentsOfRender(w);
    }
    if NormalRooted(v) {
      NormalRootedIsRender(v);
      var t := Segments(v);
      AbsJoin(t);
      assert Join(t, '/') == v[1..] == Join(w, '/');
      SplitJoin(t, '/');
      SplitJoin(w, '/');
    }
  }

  lemma ValidatedIsTrimmed(p: string)
    requires p != "" && ValidateControlPath(p).Ok?
    ensures ValidateControlPath(p).value == if Rooted(p) then Clean(p) else "/" + Clean(p)
    ensures Rooted(p) ==> NormalRooted(Clean(p))
  {
    NormalizeIsClean(p);
    CleanIdempotent(p);
  }

  /** The validated control path is a fixed point of the normalisation that every request
      applies to it again exactly when the configured path is stable. */
  lemma ControlPathFixedPoint(p: string)
    requires ValidateControlPath(p).Ok?
    ensures NormalizeControlPath(ValidateControlPath(p).value) == ValidateControlPath(p).value
            <==> StableControlPath(p)
    ensures StableControlPath(p) ==> NormalRooted(ValidateControlPath(p).value)
  {
    if p == "" {
      SegmentsOfRender(["tunnel"]);
      assert ["tunnel"][1..] == [];
      assert Render(["tunnel"]) == DEFAULT_CONTROL_PATH;
      ValidatedIsTrimmed(DEFAULT_CONTROL_PATH);
    } else if Rooted(p) {
      ValidatedIsTrimmed(p);
      ValidatedIsTrimmed(Clean(p));
    } else {
      RelativeControlPath(p);
    }
  }

  /** Paths that clean to the root, and the empty one, stand for the default. */
  lemma ControlPathDefaults(p: string)
    requires p == "" || Clean(p) == "/"
    ensures NormalizeControlPath(p) == "/tunnel"
  {}

  lemma RelativeControlPath(p: string)
    requires p != "" && !Rooted(p) && ValidateControlPath(p).Ok?
    ensures NormalizeControlPath(ValidateControlPath(p).value) == ValidateControlPath(p).value
            <==> StableControlPath(p)
    ensures StableControlPath(p) ==> NormalRooted(ValidateControlPath(p).value)
  {
    ValidatedIsTrimmed(p);
    var v := ValidateControlPath(p).value;
    var w := RelativeSegments(p);
    NormalIffGoodSegments(w);
    FirstSegmentDecides(w);
    if ValidateControlPath(v).Ok? {
      ValidatedIsTrimmed(v);
    } else {
      assert v[1] == Clean(p)[0] == w[0][0];
      assert DEFAULT_CONTROL_PATH[1] == 't';
      assert !NormalRooted(v);
      assert w[0][0] == '.';
    }
  }

  /** A relative path cleans to segments in which only leading ".." (or a lone ".") are odd. */
  lemma RelativeSegments(p: string) returns (w: seq<string>)
    requires p != "" && !Rooted(p)
    ensures w != [] && NoneContains(w, '/') && Clean(p) == Join(w, '/')
    ensures forall i :: 0 <= i < |w| ==> w[i] != ""
    ensures w == ["."] || NormalStack(false, w)
    ensures Clean(p) != ""
  {
    SplitHasNoSeparator(p, '/');
    WalkNormal(false, Split(p, '/'), []);
    w := Walk(false, Split(p, '/'), []);
    if w == [] {
      w := ["."];
    }
  }

  lemma FirstSegmentDecides(w: seq<string>)
    requires w != [] && NoneContains(w, '/')
    requires w == ["."] || NormalStack(false, w)
    ensures AllGood(w) <==> w[0] != "." && w[0] != ".."
    ensures w[0] == "." <==> Join(w, '/') == "."
    ensures w[0] == ".." <==> Join(w, '/') == ".." || HasPrefix(Join(w, '/'), "../")
  {
    var j := Join(w, '/');
    SplitJoin(w, '/');
    SplitWithoutSeparator(".", '/');
    SplitWithoutSeparator("..", '/');
    if HasPrefix(j, "../") {
      assert j == ".." + ['/'] + j[3..];
      SplitAtSeparator("..", j[3..], '/');
    }
    if w[0] != ".." && NormalStack(false, w) {
      assert forall i :: 0 <= i < |w| ==> w[i] != "..";
    }
  }

  /** `validateControlPathNotConflicting`: the first binding in conflict, if any. */
  function FirstControlConflict(controlPath: string, clients: seq<ClientBinding>): (r: Option<ClientBinding>)
    ensures r.None? <==> forall i :: 0 <= i < |clients| ==> !ConflictsWithControl(controlPath, clients[i])
    ensures r.Some? ==> r.value in clients && ConflictsWithControl(controlPath, r.value)
  {
    if clients == [] then None
    else if ConflictsWithControl(controlPath, clients[0]) then Some(clients[0])
    else
      var r := FirstControlConflict(controlPath, clients[1..]);
      assert forall i :: 0 < i < |clients| ==> clients[i] == clients[1..][i - 1];
      r
  }

  predicate ConflictsWithControl(controlPath: string, cb: ClientBinding) {
    var pp := NormalizePathPrefix(cb.pathPrefix);
    pp != "" && (pp == controlPath || HasPrefix(controlPath, pp + "/") || HasPrefix(pp, controlPath + "/"))
  }

  // ---- validatePathPrefixConflicts

  datatype Entry = Entry(prefix: string, clientId: string)

  predicate PrefixesConflict(a: Entry, b: Entry) {
    a.clientId != b.clientId &&
    (HasPrefix(a.prefix, b.prefix + "/") || HasPrefix(b.prefix, a.prefix + "/") || a.prefix == b.prefix)
  }

  function EntryOf(cb: ClientBinding): Entry {
    Entry(NormalizePathPrefix(cb.pathPrefix), cb.clientId)
  }

  /** The entries collected for one host, in the order of the bindings. */
  function Entries(bindings: seq<ClientBinding>, host: string): seq<Entry> {
    if bindings == [] then []
    else
      var cb := bindings[|bindings| - 1];
      var rest := Entries(bindings[..|bindings| - 1], host);
      if IsEntryOf(cb, host) then rest + [EntryOf(cb)] else rest
  }

  predicate IsEntryOf(cb: ClientBinding, host: string) {
    cb.subdomain == host && EntryOf(cb).prefix != ""
  }

  lemma {:induction false} BindingHasEntry(bindings: seq<ClientBinding>, k: nat)
    requires k < |bindings| && IsEntryOf(bindings[k], bindings[k].subdomain)
    ensures EntryOf(bindings[k]) in Entries(bindings, bindings[k].subdomain)
  {
    if k < |bindings| - 1 {
      BindingHasEntry(bindings[..|bindings| - 1], k);
    }
  }

  lemma {:induction false} EntryHasBinding(bindings: seq<ClientBinding>, host: string, e: Entry) returns (k: nat)
    requires e in Entries(bindings, host)
    ensures k < |bindings| && IsEntryOf(bindings[k], host) && EntryOf(bindings[k]) == e
  {
    var n := |bindings| - 1;
    if IsEntryOf(bindings[n], host) && EntryOf(bindings[n]) == e {
      k := n;
    } else {
      k := EntryHasBinding(bindings[..n], host, e);
    }
  }

  ghost predicate BindingsConflict(a: ClientBinding, b: ClientBinding) {
    && a.subdomain == b.subdomain
    && EntryOf(a).prefix != "" && EntryOf(b).prefix != ""
    && PrefixesConflict(EntryOf(a), EntryOf(b))
  }

  ghost predicate ConflictFree(bindings: seq<ClientBinding>) {
    forall i, j :: 0 <= i < |bindings| && 0 <= j < |bindings| ==> !BindingsConflict(bindings[i], bindings[j])
  }

  method GroupByHost(bindings: seq<ClientBinding>) returns (byHost: map<string, seq<Entry>>)
    ensures forall h :: h in byHost ==> byHost[h] == Entries(bindings, h)
    ensures forall h :: h !in byHost ==> Entries(bindings, h) == []
  {
    byHost := map[];
    for k := 0 to |bindings|
      invariant forall h :: h in byHost ==> byHost[h] == Entries(bindings[..k], h)
      invariant forall h :: h !in byHost ==> Entries(bindings[..k], h) == []
    {
      var cb := bindings[k];
      assert bindings[..k + 1][..k] == bindings[..k];
      var p := NormalizePathPrefix(cb.pathPrefix);
      if p == "" {
        continue;
      }
      var sofar := if cb.subdomain in byHost then byHost[cb.subdomain] else [];
      byHost := byHost[cb.subdomain := sofar + [Entry(p, cb.clientId)]];
    }
    assert bindings[..|bindings|] == bindings;
  }

  /** Both loops over the entries of one host. */
  method FindConflict(host: string, entries: seq<Entry>) returns (err: Option<ConfigError>)
    ensures err.None? <==> forall a, b :: a in entries && b in entries ==> !PrefixesConflict(a, b)
    ensures err.Some? ==> exists a, b :: a in entries && b in entries && PrefixesConflict(a, b)
                                     && err.value == ConflictingPrefixes(host, a.prefix, b.prefix)
  {
    for i := 0 to |entries|
      invariant forall x, y :: 0 <= x < i && 0 <= y < |entries| ==> !PrefixesConflict(entries[x], entries[y])
    {
      for j := 0 to |entries|
        invariant forall y :: 0 <= y < j ==> !PrefixesConflict(entries[i], entries[y])
      {
        if i == j || entries[i].clientId == entries[j].clientId {
          continue;
        }
        var a, b := entries[i].prefix, entries[j].prefix;
        if HasPrefix(a, b + "/") || HasPrefix(b, a + "/") || a == b {
          assert PrefixesConflict(entries[i], entries[j]);
          return Some(ConflictingPrefixes(host, a, b));
        }
      }
    }
    return None;
  }

  method ValidatePathPrefixConflicts(bindings: seq<ClientBinding>) returns (err: Option<ConfigError>)
    ensures err.None? <==> ConflictFree(bindings)
    ensures err.Some? ==> err.value.ConflictingPrefixes?
  {
    var byHost := GroupByHost(bindings);
    var hosts := byHost.Keys;
    while hosts != {}
      invariant hosts <= byHost.Keys
      invariant forall h :: h in byHost && h !in hosts ==>
        forall a, b :: a in byHost[h] && b in byHost[h] ==> !PrefixesConflict(a, b)
    {
      var host :| host in hosts;
      err := FindConflict(host, byHost[host]);
      if err.Some? {
        ghost var a, b :| a in byHost[host] && b in byHost[host] && PrefixesConflict(a, b);
        ghost var i := EntryHasBinding(bindings, host, a);
        ghost var j := EntryHasBinding(bindings, host, b);
        assert BindingsConflict(bindings[i], bindings[j]);
        return;
      }
      hosts := hosts - {host};
    }
    err := None;
    forall k | 0 <= k < |bindings| && IsEntryOf(bindings[k], bindings[k].subdomain)
      ensures EntryOf(bindings[k]) in Entries(bindings, bindings[k].subdomain)
    {
      BindingHasEntry(bindings, k);
    }
  }

  // ---- ValidateServer

  const POLL_MODE_BATCH := "batch"
  const POLL_MODE_STREAM := "stream"

  const MIN_TOKEN_LENGTH := 32

  function RouteKey(cb: ClientBinding): string {
    cb.subdomain + "\0" + NormalizePathPrefix(cb.pathPrefix)
  }

  /** The same host and the same normalised prefix.  A NUL in a subdomain can be taken for the
      separator; then it is the two joined by NUL that count. */
  predicate SameRoute(a: ClientBinding, b: ClientBinding) {
    var p, q := NormalizePathPrefix(a.pathPrefix), NormalizePathPrefix(b.pathPrefix);
    if '\0' in a.subdomain || '\0' in b.subdomain
    then a.subdomain + ['\0'] + p == b.subdomain + ['\0'] + q
    else a.subdomain == b.subdomain && p == q
  }

  lemma RouteKeyExactly(a: ClientBinding, b: ClientBinding)
    ensures RouteKey(a) == RouteKey(b) <==> SameRoute(a, b)
  {
    var k, l := RouteKey(a), RouteKey(b);
    assert k[|a.subdomain|] == '\0' && l[|b.subdomain|] == '\0';
    assert k[..|a.subdomain|] == a.subdomain && l[..|b.subdomain|] == b.subdomain;
    assert k[|a.subdomain| + 1..] == NormalizePathPrefix(a.pathPrefix);
    assert l[|b.subdomain| + 1..] == NormalizePathPrefix(b.pathPrefix);
    if k == l && |a.subdomain| < |b.subdomain| {
      assert b.subdomain[|a.subdomain|] == l[|a.subdomain|];
    }
    if k == l && |b.subdomain| < |a.subdomain| {
      assert a.subdomain[|b.subdomain|] == k[|b.subdomain|];
    }
  }

  predicate BindingOk(cb: ClientBinding) {
    && cb.clientId != ""
    && (cb.tokenFile != "" || cb.token != "")
    && |cb.token| >= 32
    && (cb.pathPrefix == "" || Rooted(cb.pathPrefix))
  }

  ghost predicate Distinct(clients: seq<ClientBinding>) {
    forall i, j :: 0 <= i < j < |clients| ==> Separate(clients[i], clients[j])
  }

  predicate Separate(a: ClientBinding, b: ClientBinding) {
    a.clientId != b.clientId && a.token != b.token && !SameRoute(a, b)
  }

  predicate TunnelOk(t: TunnelSettings, maxResumeGrace: int) {
    && t.sessionTimeout >= 2 * t.pollTimeout
    && (t.pollMode == "" || t.pollMode == "batch" || t.pollMode == "stream")
    && (t.pollMode == "stream" ==> t.streamMaxDuration >= 2 * t.heartbeatInterval)
    && (t.enableResume ==> 0 < t.resumeGrace <= maxResumeGrace && t.maxReplayBytes > 0)
  }

  ghost predicate NoControlConflict(controlPath: string, clients: seq<ClientBinding>) {
    forall i :: 0 <= i < |clients| ==> !ConflictsWithControl(controlPath, clients[i])
  }

  /** The bindings a started server works with. */
  ghost predicate ValidBindings(clients: seq<ClientBinding>) {
    clients != [] && AllOkAndDistinct(clients) && ConflictFree(clients)
  }

  /** What a reported binding error says about the configuration. */
  ghost predicate BindingFault(clients: seq<ClientBinding>, e: ConfigError) {
    match e
    case ClientIdRequired =>
      exists i :: 0 <= i < |clients| && clients[i].clientId == ""
    case TokenFileRequired(c) =>
      exists i :: 0 <= i < |clients| && clients[i].clientId == c && clients[i].tokenFile == "" == clients[i].token
    case TokenTooShort(c) =>
      exists i :: 0 <= i < |clients| && clients[i].clientId == c && |clients[i].token| < 32
    case PathPrefixNotRooted(c) =>
      exists i :: 0 <= i < |clients| && clients[i].clientId == c
               && clients[i].pathPrefix != "" && !Rooted(clients[i].pathPrefix)
    case DuplicateClientId(c) =>
      exists i, j :: 0 <= i < j < |clients| && clients[i].clientId == c == clients[j].clientId
    case DuplicateToken(o, c) =>
      exists i, j :: 0 <= i < j < |clients| && clients[i].clientId == o && clients[j].clientId == c
                  && clients[i].token == clients[j].token
    case DuplicateRoute(sub, prefix) =>
      exists i, j :: 0 <= i < j < |clients| && clients[j].subdomain == sub && clients[j].pathPrefix == prefix
                  && SameRoute(clients[i], clients[j])
    case _ => false
  }

  lemma FaultMeansInvalid(clients: seq<ClientBinding>, e: ConfigError)
    requires BindingFault(clients, e)
    ensures !ValidBindings(clients)
  {
    if e.DuplicateClientId? || e.DuplicateToken? || e.DuplicateRoute? {
      DuplicateMeansInvalid(clients, e);
    } else {
      BadBindingMeansInvalid(clients, e);
    }
  }

  lemma DuplicateMeansInvalid(clients: seq<ClientBinding>, e: ConfigError)
    requires BindingFault(clients, e) && (e.DuplicateClientId? || e.DuplicateToken? || e.DuplicateRoute?)
    ensures !Distinct(clients)
  {
    var i, j :| 0 <= i < j < |clients| && !Separate(clients[i], clients[j]);
  }

  lemma BadBindingMeansInvalid(clients: seq<ClientBinding>, e: ConfigError)
    requires BindingFault(clients, e) && !(e.DuplicateClientId? || e.DuplicateToken? || e.DuplicateRoute?)
    ensures exists i :: 0 <= i < |clients| && !BindingOk(clients[i])
  {
    var i :| 0 <= i < |clients| && !BindingOk(clients[i]);
  }

  /** The checks on one binding, in the order in which they are made, against what the
      bindings before it have used. */
  function BindingError(cb: ClientBinding, seenClientId: set<string>, seenRoute: set<string>,
                        seenToken: map<string, string>): (err: Option<ConfigError>)
    ensures err.None? <==> (BindingOk(cb) && cb.clientId !in seenClientId
                            && RouteKey(cb) !in seenRoute && cb.token !in seenToken)
  {
    if cb.clientId == "" then Some(ClientIdRequired)
    else if cb.tokenFile == "" && cb.token == "" then Some(TokenFileRequired(cb.clientId))
    else if cb.clientId in seenClientId then Some(DuplicateClientId(cb.clientId))
    else if |cb.token| < MIN_TOKEN_LENGTH then Some(TokenTooShort(cb.clientId))
    else if cb.token in seenToken then Some(DuplicateToken(seenToken[cb.token], cb.clientId))
    else if RouteKey(cb) in seenRoute then Some(DuplicateRoute(cb.subdomain, cb.pathPrefix))
    else if cb.pathPrefix != "" && !HasPrefix(cb.pathPrefix, "/") then Some(PathPrefixNotRooted(cb.clientId))
    else None
  }

  /** What a list of bindings uses: the contents of the three maps of ValidateServer. */
  function ClientIds(cs: seq<ClientBinding>): set<string> {
    if cs == [] then {} else ClientIds(cs[..|cs| - 1]) + {cs[|cs| - 1].clientId}
  }

  function RouteKeys(cs: seq<ClientBinding>): set<string> {
    if cs == [] then {} else RouteKeys(cs[..|cs| - 1]) + {RouteKey(cs[|cs| - 1])}
  }

  function Tokens(cs: seq<ClientBinding>): map<string, string> {
    if cs == [] then map[] else Tokens(cs[..|cs| - 1])[cs[|cs| - 1].token := cs[|cs| - 1].clientId]
  }

  lemma {:induction false} ClientIdUser(cs: seq<ClientBinding>, id: string) returns (i: nat)
    requires id in ClientIds(cs)
    ensures i < |cs| && cs[i].clientId == id
  {
    i := |cs| - 1;
    if cs[i].clientId != id { i := ClientIdUser(cs[..i], id); }
  }

  lemma {:induction false} RouteKeyUser(cs: seq<ClientBinding>, key: string) returns (i: nat)
    requires key in RouteKeys(cs)
    ensures i < |cs| && RouteKey(cs[i]) == key
  {
    i := |cs| - 1;
    if RouteKey(cs[i]) != key { i := RouteKeyUser(cs[..i], key); }
  }

  lemma {:induction false} TokenUser(cs: seq<ClientBinding>, token: string) returns (i: nat)
    requires token in Tokens(cs)
    ensures i < |cs| && cs[i].token == token && cs[i].clientId == Tokens(cs)[token]
  {
    i := |cs| - 1;
    if cs[i].token != token { i := TokenUser(cs[..i], token); }
  }

  lemma ErrorIsFault(clients: seq<ClientBinding>, k: nat)
    requires k < |clients|
    requires BindingError(clients[k], ClientIds(clients[..k]), RouteKeys(clients[..k]), Tokens(clients[..k])).Some?
    ensures BindingFault(clients,
      BindingError(clients[k], ClientIds(clients[..k]), RouteKeys(clients[..k]), Tokens(clients[..k])).value)
  {
    var cs, cb := clients[..k], clients[k];
    match BindingError(cb, ClientIds(cs), RouteKeys(cs), Tokens(cs)).value
    case DuplicateClientId(_) => var i := ClientIdUser(cs, cb.clientId);
    case DuplicateToken(_, _) => var i := TokenUser(cs, cb.token);
    case DuplicateRoute(_, _) =>
      var i := RouteKeyUser(cs, RouteKey(cb));
      RouteKeyExactly(cs[i], cb);
    case _ =>
  }

  lemma {:induction false} UnseenIsSeparate(cs: seq<ClientBinding>, cb: ClientBinding)
    requires cb.clientId !in ClientIds(cs) && RouteKey(cb) !in RouteKeys(cs) && cb.token !in Tokens(cs)
    ensures forall i :: 0 <= i < |cs| ==> Separate(cs[i], cb)
  {
    if cs != [] {
      var n := |cs| - 1;
      UnseenIsSeparate(cs[..n], cb);
      RouteKeyExactly(cs[n], cb);
      assert Separate(cs[n], cb);
      forall i | 0 <= i < |cs| ensures Separate(cs[i], cb) {
        if i < n { assert cs[..n][i] == cs[i]; }
      }
    }
  }

  ghost predicate AllOkAndDistinct(cs: seq<ClientBinding>) {
    (forall i :: 0 <= i < |cs| ==> BindingOk(cs[i])) && Distinct(cs)
  }

  lemma OneMoreBinding(cs: seq<ClientBinding>, cb: ClientBinding)
    requires AllOkAndDistinct(cs)
    requires BindingError(cb, ClientIds(cs), RouteKeys(cs), Tokens(cs)).None?
    ensures AllOkAndDistinct(cs + [cb])
  {
    UnseenIsSeparate(cs, cb);
    var ds := cs + [cb];
    forall i, j | 0 <= i < j < |ds| ensures Separate(ds[i], ds[j]) {
      if j < |cs| { assert Separate(cs[i], cs[j]); }
    }
  }

  /** The uniqueness loop of ValidateServer. */
  method CheckBindings(clients: seq<ClientBinding>) returns (err: Option<ConfigError>)
    ensures err.None? ==> AllOkAndDistinct(clients)
    ensures err.Some? ==> BindingFault(clients, err.value)
  {
    var seenClientId: set<string> := {};
    var seenRoute: set<string> := {};
    var seenToken: map<string, string> := map[];
    for k := 0 to |clients|
      invariant AllOkAndDistinct(clients[..k])
      invariant seenClientId == ClientIds(clients[..k])
      invariant seenRoute == RouteKeys(clients[..k])
      invariant seenToken == Tokens(clients[..k])
    {
      var cb := clients[k];
      err := BindingError(cb, seenClientId, seenRoute, seenToken);
      if err.Some? {
        ErrorIsFault(clients, k);
        return;
      }
      OneMoreBinding(clients[..k], cb);
      assert clients[..k + 1] == clients[..k] + [cb] && clients[..k + 1][..k] == clients[..k];
      seenClientId := seenClientId + {cb.clientId};
      seenToken := seenToken[cb.token := cb.clientId];
      seenRoute := seenRoute + {RouteKey(cb)};
    }
    assert clients[..|clients|] == clients;
    return None;
  }

  class ServerConfig {
    const rootDomain: string
    const tunnel: TunnelSettings
    const clients: seq<ClientBinding>
    var controlPath: string

    constructor (rootDomain: string, controlPath: string, tunnel: TunnelSettings, clients: seq<ClientBinding>)
      ensures this.rootDomain == rootDomain && this.controlPath == controlPath
      ensures this.tunnel == tunnel && this.clients == clients
    {
      this.rootDomain, this.controlPath, this.tunnel, this.clients := rootDomain, controlPath, tunnel, clients;
    }

    /** Everything ValidateServer demands, as a property of the configuration. */
    ghost predicate Acceptable(maxResumeGrace: int)
      reads this
    {
      && rootDomain != ""
      && ValidateControlPath(controlPath).Ok?
      && NoControlConflict(ValidateControlPath(controlPath).value, clients)
      && TunnelOk(tunnel, maxResumeGrace)
      && ValidBindings(clients)
    }

    /** What a reported error says about the configuration. */
    ghost predicate Fault(e: ConfigError, maxResumeGrace: int)
      reads this
    {
      match e
      case RootDomainRequired => rootDomain == ""
      case ControlPathIsRoot => ValidateControlPath(controlPath).Err?
      case ControlPathConflict(c) =>
        && ValidateControlPath(controlPath).Ok?
        && (exists cb :: cb in clients && cb.clientId == c
              && ConflictsWithControl(ValidateControlPath(controlPath).value, cb))
      case SessionTimeoutTooShort => tunnel.sessionTimeout < 2 * tunnel.pollTimeout
      case BadPollMode => tunnel.pollMode !in {"", "batch", "stream"}
      case StreamMaxDurationTooShort =>
        tunnel.pollMode == "stream" && tunnel.streamMaxDuration < 2 * tunnel.heartbeatInterval
      case BadResumeGrace =>
        tunnel.enableResume && (tunnel.resumeGrace <= 0 || tunnel.resumeGrace > maxResumeGrace)
      case BadReplayBytes => tunnel.enableResume && tunnel.maxReplayBytes <= 0
      case NoClients => clients == []
      case ConflictingPrefixes(_, _, _) => !ConflictFree(clients)
      case _ => BindingFault(clients, e)
    }

    method ValidateServer(maxResumeGrace: int) returns (err: Option<ConfigError>)
      modifies this`controlPath
      ensures err.None? <==> old(Acceptable(maxResumeGrace))
      ensures controlPath ==
        if rootDomain != "" && ValidateControlPath(old(controlPath)).Ok?
        then ValidateControlPath(old(controlPath)).value else old(controlPath)
      ensures err.Some? ==> old(Fault(err.value, maxResumeGrace))
    {
      if rootDomain == "" {
        return Some(RootDomainRequired);
      }
      var normalized := ValidateControlPath(controlPath);
      if normalized.Err? {
        return Some(normalized.error);
      }
      controlPath := normalized.value;
      var conflict := FirstControlConflict(controlPath, clients);
      if conflict.Some? {
        return Some(ControlPathConflict(conflict.value.clientId));
      }
      if tunnel.sessionTimeout < 2 * tunnel.pollTimeout {
        return Some(SessionTimeoutTooShort);
      }
      var pollMode := if tunnel.pollMode == "" then POLL_MODE_BATCH else tunnel.pollMode;
      if pollMode != POLL_MODE_BATCH && pollMode != POLL_MODE_STREAM {
        return Some(BadPollMode);
      }
      if pollMode == POLL_MODE_STREAM && tunnel.streamMaxDuration < 2 * tunnel.heartbeatInterval {
        return Some(StreamMaxDurationTooShort);
      }
      if tunnel.enableResume {
        if tunnel.resumeGrace <= 0 || tunnel.resumeGrace > maxResumeGrace {
          return Some(BadResumeGrace);
        }
        if tunnel.maxReplayBytes <= 0 {
          return Some(BadReplayBytes);
        }
      }
      if |clients| == 0 {
        return Some(NoClients);
      }
      err := CheckBindings(clients);
      if err.Some? {
        FaultMeansInvalid(clients, err.value);
        return;
      }
      err := ValidatePathPrefixConflicts(clients);
    }
  }

  // ---- What an accepted configuration guarantees

  /** No clean path of a host is covered by two prefixes other than the catch-alls. */
  lemma AtMostOneCover(clients: seq<ClientBinding>, i: nat, j: nat, q: string)
    requires ValidBindings(clients) && i < |clients| && j < |clients|
    requires clients[i].subdomain == clients[j].subdomain
    requires !CatchAll(EntryOf(clients[i]).prefix) && Under(EntryOf(clients[i]).prefix, q)
    requires !CatchAll(EntryOf(clients[j]).prefix) && Under(EntryOf(clients[j]).prefix, q)
    ensures i == j
  {
    UnderComparable(EntryOf(clients[i]).prefix, EntryOf(clients[j]).prefix, q);
    assert !BindingsConflict(clients[i], clients[j]);
  }

  /** Only a prefix other than the catch-alls conflicts with a control path: if one of the two is
      under the other. */
  lemma ConflictExactly(configured: string, cb: ClientBinding)
    requires ValidateControlPath(configured).Ok?
    ensures var v, p := ValidateControlPath(configured).value, EntryOf(cb).prefix;
      ConflictsWithControl(v, cb) <==> !CatchAll(p) && (Under(p, v) || Under(v, p))
  {
    ControlPathShape(configured);
  }

  lemma ControlPathShape(configured: string)
    requires ValidateControlPath(configured).Ok?
    ensures var v := ValidateControlPath(configured).value; |v| >= 2 && v[0] == '/' && v[1] != '/'
  {
    if configured != "" {
      ValidatedIsTrimmed(configured);
      if Rooted(configured) {
        NormalRootedIsRender(Clean(configured));
        assert Segments(Clean(configured)) != [];
      } else {
        CleanIdempotent(configured);
        var w := RelativeSegments(configured);
      }
    }
  }

  /** The control plane takes a request away from a client prefix exactly when the prefix
      conflicts with the control path as it is normalised again for every request. */
  lemma ShadowedExactly(controlPath: string, cb: ClientBinding)
    requires !CatchAll(EntryOf(cb).prefix)
    ensures (exists q :: IsControlPath(controlPath, q) && Under(EntryOf(cb).prefix, q))
            <==> ConflictsWithControl(NormalizeControlPath(controlPath), cb)
  {
    var c, p := NormalizeControlPath(controlPath), EntryOf(cb).prefix;
    if q :| Under(c, q) && Under(p, q) {
      UnderComparable(c, p, q);
    }
    if ConflictsWithControl(c, cb) {
      var longer := if |c| <= |p| then p else c;
      assert Under(c, longer) && Under(p, longer);
      assert IsControlPath(controlPath, longer);
    }
  }

  /** So validation keeps the control plane off the clients exactly when its check would pass for
      the normalised path too; for a stable control path that is the very same check. */
  lemma ControlPathSafeExactly(configured: string, clients: seq<ClientBinding>)
    requires ValidateControlPath(configured).Ok?
    requires NoControlConflict(ValidateControlPath(configured).value, clients)
    ensures var v := ValidateControlPath(configured).value;
      (forall i, q :: 0 <= i < |clients| && !CatchAll(EntryOf(clients[i]).prefix) && IsControlPath(v, q) ==>
         !Under(EntryOf(clients[i]).prefix, q))
      <==> (forall i :: 0 <= i < |clients| && !CatchAll(EntryOf(clients[i]).prefix) ==>
         !ConflictsWithControl(NormalizeControlPath(v), clients[i]))
    ensures StableControlPath(configured) ==>
      NoControlConflict(NormalizeControlPath(ValidateControlPath(configured).value), clients)
  {
    ControlPathFixedPoint(configured);
    forall i | 0 <= i < |clients| && !CatchAll(EntryOf(clients[i]).prefix)
      ensures var v := ValidateControlPath(configured).value;
        (exists q :: IsControlPath(v, q) && Under(EntryOf(clients[i]).prefix, q))
        <==> ConflictsWithControl(NormalizeControlPath(v), clients[i])
    {
      ShadowedExactly(ValidateControlPath(configured).value, clients[i]);
    }
  }

  /** In particular a stable control path shadows no client prefix. */
  lemma ControlPathNeverCovered(configured: string, clients: seq<ClientBinding>, i: nat, q: string)
    requires StableControlPath(configured) && ValidateControlPath(configured).Ok?
    requires NoControlConflict(ValidateControlPath(configured).value, clients)
    requires i < |clients| && !CatchAll(EntryOf(clients[i]).prefix)
    ensures !(IsControlPath(ValidateControlPath(configured).value, q) && Under(EntryOf(clients[i]).prefix, q))
  {
    ControlPathFixedPoint(configured);
    ShadowedExactly(ValidateControlPath(configured).value, clients[i]);
  }

  /** A control path that is not stable can be checked at one place and served at another: "../x"
      passes next to the client prefix "/x", conflicts with it once normalised, and shadows it. */
  lemma UnstableControlPathShadowsRoute(x: string, cb: ClientBinding)
    requires CleanSegment(x) && x != ".." && cb.pathPrefix == "/" + x
    ensures ValidateControlPath("../" + x) == Ok("/../" + x)
    ensures NoControlConflict("/../" + x, [cb])
    ensures ConflictsWithControl(NormalizeControlPath("/../" + x), cb)
    ensures exists q :: IsControlPath("/../" + x, q) && Under(EntryOf(cb).prefix, q)
  {
    OneSegmentPrefix(x);
    UnstableValidates(x);
    UpPathIsElsewhere(x);
    ShadowedExactly("/../" + x, cb);
  }

  lemma OneSegmentPrefix(x: string)
    requires CleanSegment(x) && x != ".."
    ensures NormalizePathPrefix("/" + x) == "/" + x
  {
    assert [x][1..] == [];
    SegmentsOfRender([x]);
    assert Render([x]) == "/" + x;
    NormalizeFixed("/" + x);
  }

  lemma UnstableValidates(x: string)
    requires CleanSegment(x) && x != ".."
    ensures ValidateControlPath("../" + x) == Ok("/../" + x) && NormalizeControlPath("/../" + x) == "/" + x
  {
    var r, v := "../" + x, "/../" + x;
    CleanUpThen(x);
    assert r[0] == '.' && v[0] == '/' && "/" + r == v;
    ValidatesTo(r, v);
    ValidatesTo(v, "/" + x);
  }

  lemma ValidatesTo(p: string, v: string)
    requires p != "" && v == (if Rooted(p) then Clean(p) else "/" + Clean(p)) && v != "/"
    ensures ValidateControlPath(p) == Ok(v) && NormalizeControlPath(p) == v
  {
    CleanIdempotent(p);
    ValidatedIsTrimmed(p);
  }

  lemma UpPathIsElsewhere(x: string)
    requires CleanSegment(x) && x != ".."
    ensures !Under("/" + x, "/../" + x) && !Under("/../" + x, "/" + x)
  {
    var p, q := "/" + x, "/../" + x;
    assert q[1] == '.' && q[2] == '.' && q[3] == '/' && |q| == |p| + 3;
    assert forall i :: 0 <= i < |x| ==> p[i + 1] == x[i];
    assert |x| == 1 ==> x == [x[0]];
    assert |x| == 2 ==> x == [x[0], x[1]];
    assert |x| > 2 ==> x[2] != '/';
  }

  lemma CleanUpThen(x: string)
    requires CleanSegment(x) && x != ".."
    ensures Clean("../" + x) == "../" + x
    ensures Clean("/../" + x) == "/" + x
  {
    var r := "../" + x;
    SplitWithoutSeparator(x, '/');
    SplitWithoutSeparator("..", '/');
    SplitAtSeparator("..", x, '/');
    assert r == ".." + ['/'] + x;
    SplitAtSeparator("", r, '/');
    assert "/../" + x == "" + ['/'] + r;
    var w := ["..", x];
    assert Split(r, '/') == w && Split("/../" + x, '/') == [""] + w;
    assert [] + w == w;
    WalkAppends(false, w, []);
    assert Join(w[1..], '/') == x;
    assert ([""] + w)[1..] == w && w[1..] == [x] && [x][1..] == [];
    assert Walk(true, [x], []) == [x];
    assert Walk(true, w, []) == [x];
  }
}
