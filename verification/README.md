# HttpHop: a verified model of its own logic

HttpHop publishes services of private networks under subdomains or path prefixes of a public
domain.  Clients keep a tunnel to the server; the server picks a tunnel for every public request,
strips the public prefix on the way in, puts it back into `Location` and `Set-Cookie` on the way
out, and bridges bytes between connections.  This project models that logic in Dafny and proves
what it promises.  `dafny verify dfyconfig.toml` checks everything.

| module | what it models |
|---|---|
| `GoStrings` | the functions of Go's `strings` package that the code uses, for one-character separators and ASCII |
| `Paths`, `CleanRules` | `path.Clean` as a fold over slash-separated segments, its normal forms and the rules that determine it, "equal or continued after a slash" |
| `Config` | startup validation: path prefixes, control path, uniqueness, conflicts |
| `Registry` | tunnels, pools and the two indices, as classes that update in place, refining an ordered map |
| `Router`, `Rewrite`, `Cookies`, `Headers`, `Host` | route table, longest-prefix match, strip and prepend, response headers, host keys |
| `Server` | a public request from host and path to the tunnel it is forwarded to |
| `Hooks`, `Runs` | the hooks on the registry as concurrent goroutines: the step relation and its invariant, and what follows for every run |
| `Admission`, `Closing` | who gets in, and what a disconnect, a refusal and a supersede leave behind |
| `Refine` | interleaved with anything, the steps of the hooks add up to the contracts of the classes in `Registry` |
| `Handles` | the same server with pool objects and pointers to them, in step with `Hooks` |
| `Sharing` | whose tunnel answers behind a path prefix |
| `Bridge` | the two pumps of the byte bridge, waiting for both or closing on the first |
| `Streams`, `Drain` | the stream counter, the check-then-act limit, the drain of a superseded tunnel |

Protocols are step relations.  One step is a read or a write under one lock, or an atomic store;
between two steps of a goroutine any other goroutine may run, and a run is any sequence of enabled
steps.  Sessions are IDs with a closed flag; connect, poll and disconnect callbacks start at any
time, with fresh session IDs and fresh tunnel objects, a disconnect after its connect has returned.

Some plausible statements are false of the code.  Each is stated here as what is true instead, for
all inputs and with the exact condition where there is one:

* A stripped route is matched on the cleaned path but stripped on the raw one
  (`StripsExactlyWhenRawIsUnder`, `MatchedButNotStripped`).
* The validated control path is not always a fixed point of the normalisation applied to it again on
  every request (`ControlPathFixedPoint`), so a client prefix can be shadowed by it: exactly when
  `ControlPathSafeExactly` says.
* The prefix `/` doubles slashes (`RootPrefixDoublesSlash`); the query of a redirect is cleaned along
  with its path (`QuerySurvives`), and `//host/p` is taken for a path (`NetworkPathIsCollapsed`).
* A path prefix does not reach its own client only, although ARCHITECTURE.md line 330 intends that: two
  clients of one host share its pool (`OwnClientOnlyExactly`, `AnotherClientAnswers`).
* `Bridge` truncates (`BridgeTruncates`, `WholeExactly`), the stream limit can be overrun
  (`LimitKeptExactly`), and the drain can cut an open stream (`DrainHarmlessExactly`).

Elsewhere code and documentation disagree as follows; the model follows the code.  ARCHITECTURE.md
says that `poll_mode: stream` is rejected at startup, the code accepts it under a duration check
(`internal/config/load.go:264-272`).  ARCHITECTURE.md restricts the prefix match to bindings that are
alive, the code matches all bindings and looks for an available tunnel afterwards.

## Model

| member | source | states |
|---|---|---|
| Paths.CleanIdempotent | internal/router/route.go:36-40 | cleaning a path twice is cleaning it once, for rooted and relative paths, and keeps which of the two it is |
| Paths.CleanConcat | internal/server/proxy_rewrite.go:61-68 | a normal prefix in front of a normal path is in normal form, with the segments of both in order |
| Paths.UnderComparable | internal/config/load.go:345 | two prefixes of one path are comparable segment by segment |
| Paths.UnderIsSegmentPrefix | internal/router/route.go:106 | the character test for a prefix is the test on segments: the one list begins with the other |
| CleanRules.SlashesCollapse | internal/router/route.go:97 | anywhere in a path several slashes count as one, and one at the end as none |
| CleanRules.DotGoes | internal/router/route.go:97 | a "." segment can be taken out anywhere |
| CleanRules.UpGoes | internal/router/route.go:97 | a ".." segment can be taken out anywhere together with the segment before it |
| CleanRules.UpAtRootGoes | internal/router/route.go:97 | a ".." segment at the root can be taken out |
| CleanRules.LeadingDotGoes | internal/config/control_path.go:24 | a leading "." segment of a relative path can be taken out |
| CleanRules.LeadingUpGoes | internal/config/control_path.go:24 | a segment and the ".." after it can be taken out at the front of a relative path |
| CleanRules.NormalFormsStay | internal/router/route.go:36-40 | nothing else is changed: paths of good segments, and relative ones that climb at the front only, stay |
| CleanRules.RulesDetermine | internal/router/route.go:97 | cleaning is the only function on rooted paths that follows these rules |
| Config.NormalizeIdempotent | internal/config/load.go:355-364 | a normalised prefix is normalised |
| Config.ControlPathFixedPoint | internal/config/control_path.go:12-32 | the validated control path is a fixed point of normalising exactly when the configured one is empty, rooted, or relative without climbing out |
| Config.FirstControlConflict | internal/config/control_path.go:34-48 | no error if and only if no non-empty client prefix equals, contains or lies in the control path; otherwise a binding that does |
| Config.ConflictExactly | internal/config/control_path.go:36-42 | a client prefix conflicts if and only if it is neither "" nor "/" and one of it and the control path is under the other |
| Config.ValidatePathPrefixConflicts | internal/config/load.go:325-353 | no error if and only if no two bindings of one host with different clients have nested or equal prefixes |
| Config.RouteKeyExactly | internal/config/load.go:308 | two bindings have one route key if and only if host and normalised prefix are the same; a NUL in a subdomain can be taken for the separator |
| Config.CheckBindings | internal/config/load.go:285-317 | acceptance means valid bindings with pairwise distinct client IDs, tokens, and pairs of host and normalised prefix; an error names a binding that has that fault |
| Config.FaultMeansInvalid | internal/config/load.go:285-317 | whatever fault is reported, the list of bindings is indeed not acceptable |
| Config.ServerConfig.ValidateServer | internal/config/load.go:244-323 | accepts if and only if the root domain, control path, tunnel settings and bindings are all in order; every error is true of the configuration; the normalised control path is left behind, also on later errors |
| Config.AtMostOneCover | internal/config/load.go:325-353 | in an accepted configuration no path of a host is covered by two prefixes other than "" and "/" |
| Config.ShadowedExactly | internal/server/proxy.go:138-141 | some path under a client prefix goes to the control plane if and only if the prefix conflicts with the control path as it is normalised again on every request |
| Config.ControlPathSafeExactly | internal/config/control_path.go:34-48 | a validated configuration shadows no client prefix exactly when the same check passes for the normalised path; a stable control path always passes |
| Config.UnstableControlPathShadowsRoute | internal/config/control_path.go:24-31 | an input that fails that condition: the control path "../x" passes validation beside the client prefix "/x", conflicts with it once normalised, and takes its requests |
| Registry.PutRefinesInsert | internal/registry/pool.go:30-48 | adding to a pool is insertion into an ordered map: a known client keeps its position |
| Registry.DeleteRefinesRemove | internal/registry/pool.go:69-78 | in-place removal is removal from an ordered map: everybody else keeps their order |
| Registry.TunnelPool.Add | internal/registry/pool.go:30-48 | replaces the client's tunnel and starts one drain, or appends, or reports a full pool and changes nothing; full only for an unknown client |
| Registry.TunnelPool.Remove | internal/registry/pool.go:69-78 | the members without the one of that client ID, in order |
| Registry.TunnelPool.FindById | internal/registry/pool.go:90-99 | the first member with that client ID, or none |
| Registry.TunnelPool.Pick | internal/registry/pool.go:21-28 | the first available member; nobody exactly when no member is available |
| Registry.AgreeMeansExact | internal/registry/registry.go:82-105 | when nothing is missing, a session maps to a tunnel if and only if the tunnel is a member of its host's pool under that session |
| Registry.RegistrationAgrees | internal/registry/registry.go:82-105 | delete the old entry, put, index takes exact indices to exact indices |
| Registry.RemoveAgrees | internal/registry/registry.go:143-154 | removing by session keeps the indices exact although the pool deletes by client ID |
| Registry.Registry.EnsurePool | internal/registry/registry.go:71-80 | the pool of a key, created at most once and never replaced |
| Registry.Registry.Register | internal/registry/registry.go:82-105 | keeps the indices exact; fails only for an unknown client at the limit, and then changes nothing but possibly an empty pool; supersedes in place, marks the old tunnel draining and the new one healthy |
| Registry.Registry.RemoveBySessionID | internal/registry/registry.go:143-154 | the entry and exactly its tunnel are gone, and nothing happens for an unknown session |
| Registry.Registry.GetBySessionID | internal/registry/registry.go:107-112 | the member of some pool that carries the session; none exactly when no pool has such a member |
| Registry.Registry.SetLocalHealth | internal/registry/registry.go:131-141 | sets the flag of the member with that client ID and of nobody else |
| Registry.ClientTunnel.Close | internal/registry/registry.go:41-51 | closes the transport and the session; the tunnel is not alive afterwards |
| Hooks.InitialInv | internal/server/server.go:48-79 | the invariant holds when the routes are compiled and nobody has connected |
| Hooks.StepKeepsInv | internal/server/server.go:159-233 | every step of every hook and drain worker keeps the invariant, which inside Register allows exactly one client's member to be missing from the session index |
| Admission.RefusedExactly | internal/server/server.go:147-150 | an authentication that runs by itself is refused if and only if the pool of its host exists, is full and holds no tunnel of this client; it changes nothing but itself |
| Admission.AuthDecides | internal/server/server.go:125-157 | and it comes to a decision |
| Admission.ClientGetsIn | internal/server/server.go:125-207 | from any state with a free lock, the own steps of a client that the pool has room for register its tunnel, with the indices that Register promises |
| Admission.KnownClientGetsIn | internal/registry/pool.go:34-41 | a client that has a tunnel gets back in however full the pool is, at the place of the old one |
| Admission.HealthExactly | internal/server/server.go:209-218 | a health report that runs by itself sets the flag of the client's member of that host's pool and changes nothing else |
| Closing.NobodyLeftOpen | internal/server/server.go:188-233 | in every reachable state a tunnel that was registered or refused is a member, has a closed transport, or has a drain worker that can close it |
| Closing.DisconnectIsFinal | internal/server/server.go:220-233 | once a disconnect is done, no later state has its session in either index, and its tunnel is closed or draining |
| Hooks.RunKeepsInv | internal/server/server.go:116-233 | every state reachable by any interleaving satisfies it |
| Runs.IndicesExactWhenFree | internal/registry/registry.go:82-154 | in every reachable state in which the registry lock is free, the two indices agree exactly |
| Runs.IndicesWhileHeld | internal/registry/registry.go:92-103 | even while it is held no entry leads outside the pools, and only the client being worked on can be missing |
| Runs.RemovesExactlyItsSession | internal/registry/registry.go:143-154 | the removal step takes the tunnel of its own session out of its place, although it looks for the client ID |
| Runs.HowMembersLeave | internal/registry/pool.go:30-78 | a member leaves its pool if and only if its own session is removed or a newer tunnel of the same client replaces it |
| Runs.SupersedeKeepsPlace | internal/registry/pool.go:34-41 | the newer tunnel takes the very place of the older one, which gets a drain worker and had none |
| Runs.LateDisconnectIsHarmless | internal/server/server.go:220-233 | no step of a disconnect, however late, changes membership, entry or transport of another session's tunnel |
| Runs.EveryTunnelIsAccountedFor | internal/registry/pool.go:34-67 | every tunnel that entered a pool is a member exactly when it has no drain worker and its disconnect has not removed it; no tunnel has two workers |
| Runs.MembersStayOpen | internal/server/server.go:227-230 | the server closes the transport of a current member only while the member's own disconnect is under way |
| Runs.DisconnectedNeverReappears | internal/server/server.go:220-233 | after a disconnect has finished, no later state has the session in either index |
| Runs.PoolsFitTheirLimit | internal/registry/pool.go:43-46 | no interleaving of connects brings a pool above the largest max_clients of its host's bindings, although the check in authenticateConnect holds no lock |
| Runs.OneTunnelPerClient | internal/server/server.go:166-198 | at most one tunnel per client ID is registered anywhere |
| Runs.PickIsEarliest | internal/registry/pool.go:21-28 | no member is draining, and the first usable member is the one whose client joined first |
| Refine.RegisterSteps | internal/registry/registry.go:82-105 | whatever other goroutines do between the steps of a registration, the indices when it gives the lock back are what the class's Register promises for the indices when it took it, admitted or refused |
| Refine.RemoveSteps | internal/registry/registry.go:143-154 | the same for the removal of a session: lookup and deletion act as one step, whatever runs in between |
| Refine.OthersWait | internal/registry/registry.go:83-84 | while one goroutine holds the lock, a step of another changes neither index nor the holder's progress |
| Router.BestUnique | internal/router/route.go:97-114 | with rooted, distinct prefixes a path has at most one longest-prefix answer |
| Router.BestIsOrderFree | internal/router/route.go:78-82 | the answer does not depend on the order of the bindings or on how the unstable sort breaks ties |
| Router.SortLongestFirst | internal/router/route.go:79-81 | a permutation with longer prefixes first |
| Router.RouteTable.constructor | internal/router/route.go:60-85 | every host has exactly the routes of its bindings, longest first, each with the registry's pool of that host |
| Router.RouteTable.Match | internal/router/route.go:91-115 | the longest covering prefix of the host, "/" and then "" as fallbacks; no answer exactly when nothing covers the cleaned path |
| Handles.RunKeepsCurrent | internal/registry/registry.go:71-90 | with pool objects and pointers to them, every run keeps each pointer that is in use at the registry's current pool, and is a run of the model that looks pools up by name |
| Handles.RunLifts | internal/registry/registry.go:71-90 | conversely every run by name is a run with pool objects |
| Handles.RoutesNeverStale | internal/router/route.go:63-76 | in every reachable state a route's pool is the registry's current pool of its host, and whoever is picked from it is a member with that host as its subdomain |
| Handles.HeldPoolsNeverStale | internal/registry/registry.go:131-141 | a goroutine that found a pool earlier and uses it now uses the current pool |
| Router.AcceptedRoutesAreRootedAndDistinct | internal/config/load.go:308-316 | validation establishes what the uniqueness of the match needs |
| Sharing.MembersComeFromTheHost | internal/registry/pool.go:30-48 | in every reachable state a member of a host's pool belongs to a client bound to that host with room for a tunnel |
| Sharing.OwnClientOnlyExactly | internal/router/route.go:64-75 | the pool behind a client's routes never holds another client's tunnel if and only if no other client of its host may have a tunnel |
| Sharing.AnotherClientAnswers | internal/server/proxy.go:35-45 | a request under one client's prefix is answered by that client's own route and no other, and there is a run after which the only tunnel in that route's pool, healthy and open, is another client's |
| Router.BindingAnswersItsPaths | internal/router/route.go:91-115 | a clean path under a binding's own prefix is answered by that binding's route and no other |
| Router.StripsExactlyWhenRawIsUnder | internal/server/proxy.go:70-74 | a matched request is stripped if and only if its raw path is under the prefix, and otherwise forwarded as it came |
| Router.MatchedButNotStripped | internal/server/proxy.go:70-74 | a path that climbs out of another segment is matched by the prefix and forwarded unstripped |
| Rewrite.PrependLandsUnderPrefix | internal/server/proxy_rewrite.go:55-69 | for every rooted path the result is in normal form and under the prefix |
| Rewrite.PrependOfClean | internal/server/proxy_rewrite.go:61-67 | only what a path cleans to matters; a path that cleans to one under the prefix is that clean path |
| Rewrite.PrependIdempotent | internal/server/proxy_rewrite.go:55-69 | putting the prefix back twice is putting it back once |
| Rewrite.StripAfterPrepend | internal/router/route.go:43-58 | stripping what was prepended gives the cleaned path exactly when that was not under the prefix already |
| Rewrite.PrependAfterStrip | internal/server/proxy_rewrite.go:55-69 | prepending to what was stripped gives the path back exactly when the rest is not under the prefix again |
| Rewrite.RootPrefixDoublesSlash | internal/server/proxy_rewrite.go:68 | for the prefix "/" every path but the root gets a second slash |
| Rewrite.RedirectClosure | internal/server/proxy_rewrite.go:37-40 | a rooted redirect from behind a prefix leads to a clean path that is not a control path, is matched by the same binding's route and no other, and can be stripped |
| Rewrite.QuerySurvives | internal/server/proxy_rewrite.go:38-39 | the query of a rewritten redirect is intact exactly when cleaning has nothing to do in it |
| Rewrite.NetworkPathIsCollapsed | internal/server/proxy_rewrite.go:38-39 | a reference that begins with two slashes is rewritten like the path with one |
| Cookies.CookieStaysUnderPrefix | internal/server/proxy_rewrite.go:99-113 | whatever path the backend sets, the rewritten cookie matches no request path outside the prefix |
| Cookies.RewrittenCookieMatches | internal/server/proxy_rewrite.go:99-113 | behind the prefix the rewritten path matches (section 5.1.4 of RFC 6265) exactly the requests that matched the original one, or its stripped form when it had the prefix |
| Cookies.MatchPreservedExactly | internal/server/proxy_rewrite.go:99-113 | path-match is preserved for every request path if and only if the cookie path was not under the prefix |
| Cookies.LeftAloneExactly | internal/server/proxy_rewrite.go:85 | a cookie path is left alone if and only if it is in normal form and under the prefix |
| Cookies.RelativeCookiePath | internal/server/proxy_rewrite.go:105-112 | a cookie path without a leading slash is taken from the root, and an empty one for the root |
| Cookies.RewriteSetCookiePath | internal/server/proxy_rewrite.go:71-97 | the first Path attribute is rewritten; every other part and the order are byte for byte as before |
| Cookies.RewrittenIsUnique | internal/server/proxy_rewrite.go:71-97 | that specification has one solution |
| Cookies.OnlyOnePartChanges | internal/server/proxy_rewrite.go:72-96 | splitting the result again gives the old parts with one replaced, exactly unless a prefix with a semicolon was put in |
| Cookies.RewriteIdempotentExactly | internal/server/proxy_rewrite.go:71-97 | a second rewriting changes nothing if and only if the path was clean and under the prefix, or is so once rewritten and trimmed at its end |
| Cookies.RewriteIdempotent | internal/server/proxy_rewrite.go:71-97 | in particular a second rewriting changes nothing for prefixes and paths without whitespace |
| Headers.ResponseHeaders.RewritePublicPrefix | internal/server/proxy_rewrite.go:15-35 | a rooted redirect becomes a clean path under the prefix that strips back to the backend's path, exactly unless that had the prefix; every cookie is rewritten in its place; nothing changes without a prefix |
| Host.HostKeyExactly | internal/router/host.go:19-41 | a host has key k if and only if it is the full name of k after normalising, except for ".root" and "@.root", which count as the apex |
| Host.HostKeyInvertsFQDN | internal/router/host.go:89-94 | the key of a key's full name is that key if and only if it is the apex or one lower-case label |
| Host.PortDoesNotMatter | internal/router/host.go:43-49 | a port in the Host header does not change the key |
| Host.SplitHostPortExactly | internal/router/host.go:43-49 | host and port are split if and only if one colon stands between two parts without colon or brackets, or after a part in brackets |
| Host.CaseDoesNotMatter | internal/router/host.go:21-22 | nor does the case of any letter |
| Host.AllowedByListExactly | internal/router/host.go:66-75 | the loop accepts if and only if the key is listed and the host is its full name |
| Host.AllowedHostsExactly | internal/router/host.go:56-77 | for all keys, roots and hosts: allowed are exactly the full names of listed keys that name a host, and none if spaces surround the root or the name has a second port |
| Server.ServePublic | internal/server/proxy.go:28-74 | each refusal says what was missing; a forwarded request goes to the first available tunnel of its own host key below the stream limit; by the settings of the binding that answers, its path is as it came or less the binding's prefix where it is under it |
| Server.RootHandler | internal/server/proxy.go:130-141 | control paths and only those go to the control plane, and every other request is answered as above |
| Server.CountedConn.Close | internal/server/bridge.go:15-19 | if the counter is the number of open handles, it still is after closing one of them; a second close of the same handle leaves it one too small |
| Server.OpenStream | internal/server/bridge.go:21-28 | a new handle that is not among the open ones, and the counter still is their number; no handle and no change if no stream opens |
| Bridge.StepKeepsInv | internal/client/handler.go:69-92 | every step of pumps, waiter, peers and network keeps the bridge's invariant, for both ways of waiting |
| Bridge.DeliversInOrder | internal/client/handler.go:86-92 | in every reachable state what was delivered is a prefix of what was sent |
| Bridge.NothingClosesUnderAPump | internal/client/handler.go:69-79 | while a pump is at work neither connection is closed and its destination is not half-closed |
| Bridge.HalfClosedExactly | internal/client/handler.go:86-92 | in every reachable state a side is half-closed if and only if the pump that writes to it is through and it has CloseWrite; the other bridge half-closes nothing |
| Bridge.WriteDelivers | internal/client/handler.go:87 | a write hands on the next bytes of the stream and no others, also when it fails |
| Bridge.WaitingPeerIsServed | internal/client/handler.go:86-92 | a peer that ends only after it has seen the end: once the other has ended, on sound connections, the program comes to rest with all of it delivered and the waiting side half-closed if it can be |
| Bridge.AnswerIsDelivered | internal/client/handler.go:69-79 | and when that peer then answers and ends, the program comes to rest with everything delivered, a nil result and both connections closed |
| Bridge.NoTruncation | internal/client/handler.go:69-79 | the result is nil exactly if both pumps succeeded, and then both directions were delivered whole; an error means a pump failed at a connection the network broke |
| Bridge.BridgeCompletes | internal/client/handler.go:35-79 | once both peers have finished, on sound connections, any schedule ends within a bounded number of steps with everything delivered, a nil result and both connections closed |
| Bridge.FirstDirectionIsWhole | internal/server/bridge.go:30-39 | the result of the other bridge is that of the direction that finished first, and a nil result guarantees no more than that this one is whole |
| Bridge.WholeExactly | internal/server/bridge.go:34-38 | there a direction ends up whole if and only if what was delivered when both connections were closed is all its peer ever sends |
| Bridge.BridgeTruncates | internal/server/bridge.go:30-39 | for every answer there is a run without any fault that returns nil and delivers none of it |
| Streams.LimitHolds | internal/server/proxy.go:52-62 | with at most k requests between check and count, counted and pending requests exceed the limit by at most k - 1; the counter is the number of counted streams exactly when no handle was closed twice |
| Streams.LimitIsOverrun | internal/server/proxy.go:52-55 | while there is room for one request, that bound is reached, for every limit and every k |
| Streams.LimitKeptExactly | internal/server/proxy.go:52-55 | the configured limit itself is kept if and only if no two requests are between check and count together |
| Streams.RequestsEnd | internal/server/bridge.go:15-28 | every step of a request brings it nearer to its end |
| Streams.DrainCutsOnlyInFlight | internal/registry/pool.go:57-65 | a worker that leaves before its deadline cuts at most as many streams as requests had picked the tunnel and were not counted when it looked, whatever runs afterwards |
| Streams.DrainHarmlessExactly | internal/registry/pool.go:57-65 | such a worker cuts nothing in any continuation if and only if nobody was in flight when it saw zero; otherwise some continuation cuts all of them |
| Streams.DeadlineCloses | internal/registry/pool.go:59-65 | at its deadline the worker closes the tunnel whatever is open on it |
| Streams.LooksWhileInFlight | internal/registry/pool.go:34-61 | any number of requests can be in flight when the worker sees zero |
| Drain.AwaitStreams | internal/registry/pool.go:57-64 | the loop ends at the first look that finds no stream or comes after the deadline, less than one pause (and one scheduling delay) after it |
| Drain.DrainWorker | internal/registry/pool.go:52-67 | closes the tunnel before start + timeout + 100 ms and the delay, and before the deadline only when it has just seen zero streams; ten minutes without a configured timeout |

## Left out

- Cookies.RewriteIdempotentExactly: for prefixes without whitespace and ";"; a prefix with ";" is the
  subject of `OnlyOnePartChanges`.
- Headers.ResponseHeaders.RewritePublicPrefix: the syntax of absolute URLs is a parameter, so for a
  `Location` that does not begin with a slash only the use of the parsed path is stated.
- Server.ServePublic: the steps of one request without others in between; `Runs`, `Handles` and
  `Streams` cover the interleavings.
- Drain.DrainWorker: the clock and the counter are given functions of the look; the counter's own
  changes are in `Streams`.
- Config.ServerConfig.ValidateServer: durations are unbounded integers, without the wrap-around of
  `2 * poll_timeout`; the largest resume grace is a parameter, as pollmux defines it.
- Streams.DrainHarmlessExactly: for limits of at least one and without handles closed twice before the
  look; `DrainCutsOnlyInFlight` has neither restriction.
- Streams.LimitHolds: requests are counted, not named, as nothing distinguishes them.
- `path.Clean`, `net.SplitHostPort`, `sort.Slice`, `io.Copy` and package `strings` are modelled from the
  documentation of Go's standard library; Unicode whitespace and case folding are not.
- `RawPath` and percent-encoding: paths are decoded strings.
- Bridge.FirstDirectionIsWhole: `copyOneWay` also calls `CloseRead` on a source whose direction has ended;
  no step of the model depends on it.
- pollmux and yamux: poll loops, resume, replay buffers, reconnecting.  A session is an ID with a flag.
- A disconnect that comes before its connect has returned, or after the connect was refused.
- TLS, certificates, HTTP servers, the control API, status reports, logging, token files, defaults.
- `bridgeWithHostRewrite` and the dial of the local target before the bridge: they need an HTTP parser
  and a network.
- Bearer tokens in `authenticateConnect`: single comparisons before the modelled steps.
