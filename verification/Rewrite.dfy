/** Response rewriting for stripped prefixes (`internal/server/proxy_rewrite.go`): redirects
    and cookie paths get back the public prefix that the request path lost. */
module Rewrite {
  import opened GoStrings
  import opened Paths
  import opened Config
  import opened Registry
  import opened Router

  function PrependPublicPath(publicPrefix: string, p: string): string {
    var prefix := NormalizePathPrefix(publicPrefix);
    if prefix == "" then p
    else
      var cleaned := Clean(p);
      if cleaned == "/" then prefix
      else if cleaned == prefix || HasPrefix(cleaned, prefix + "/") then cleaned
      else prefix + cleaned
  }

  /** The prefixes of stripped routes for which rewriting is meant. */
  predicate PublicPrefix(prefix: string) {
    NormalRooted(prefix) && prefix != "/"
  }

  // ---- Prepending and stripping

  /** Whatever rooted path the backend names, the result is a normal path under the prefix. */
  lemma PrependLandsUnderPrefix(prefix: string, p: string)
    requires PublicPrefix(prefix) && Rooted(p)
    ensures NormalRooted(PrependPublicPath(prefix, p))
    ensures Under(prefix, PrependPublicPath(prefix, p))
  {
    NormalizeFixed(prefix);
    CleanIdempotent(p);
    var cleaned := Clean(p);
    if cleaned != "/" {
      CleanConcat(prefix, cleaned);
    }
  }

  lemma PrependIdempotent(prefix: string, p: string)
    requires PublicPrefix(prefix) && Rooted(p)
    ensures PrependPublicPath(prefix, PrependPublicPath(prefix, p)) == PrependPublicPath(prefix, p)
  {
    PrependLandsUnderPrefix(prefix, p);
    NormalizeFixed(prefix);
  }

  /** Only what a path cleans to matters, and without a prefix nothing is done. */
  lemma PrependOfClean(prefix: string, p: string)
    ensures PrependPublicPath("", p) == p
    ensures NormalizePathPrefix(prefix) != "" ==> PrependPublicPath(prefix, p) == PrependPublicPath(prefix, Clean(p))
    ensures PublicPrefix(prefix) && Under(prefix, Clean(p)) ==> PrependPublicPath(prefix, p) == Clean(p)
  {
    CleanIdempotent(p);
    if PublicPrefix(prefix) {
      NormalizeFixed(prefix);
      NormalDoesNotEndInSlash(prefix);
    }
  }

  /** Stripping undoes prepending exactly on the paths that were not under the prefix. */
  lemma StripAfterPrepend(prefix: string, p: string)
    requires PublicPrefix(prefix) && Rooted(p)
    ensures StripPathPrefix(PrependPublicPath(prefix, p), prefix).1
    ensures StripPathPrefix(PrependPublicPath(prefix, p), prefix).0 == Clean(p) <==> !Under(prefix, Clean(p))
  {
    NormalizeFixed(prefix);
    CleanIdempotent(p);
    PrependLandsUnderPrefix(prefix, p);
    var cleaned := Clean(p);
    if Under(prefix, cleaned) {
      assert |StripPathPrefix(cleaned, prefix).0| < |cleaned|;
    } else if cleaned != "/" {
      assert (prefix + cleaned)[|prefix|..] == cleaned;
    }
  }

  /** Prepending undoes stripping exactly when the stripped path is not under the prefix again. */
  lemma PrependAfterStrip(prefix: string, q: string)
    requires PublicPrefix(prefix) && NormalRooted(q) && Under(prefix, q)
    ensures var d := StripPathPrefix(q, prefix).0;
      NormalRooted(d) && (PrependPublicPath(prefix, d) == q <==> !Under(prefix, d))
  {
    NormalizeFixed(prefix);
    var d := StripPathPrefix(q, prefix).0;
    StripIsNormal(prefix, q);
    if q != prefix {
      assert q == prefix + d;
    }
  }

  lemma StripIsNormal(prefix: string, q: string)
    requires PublicPrefix(prefix) && NormalRooted(q) && Under(prefix, q)
    ensures NormalRooted(StripPathPrefix(q, prefix).0)
    ensures q != prefix ==> StripPathPrefix(q, prefix).0 != "/"
  {
    NormalizeFixed(prefix);
    NormalRootedIsRender(prefix);
    NormalRootedIsRender(q);
    UnderIsSegmentPrefix(prefix, q);
    var a, b := Segments(prefix), Segments(q);
    var c := b[|a|..];
    assert b == a + c;
    AbsConcat(a, c);
    assert forall i :: 0 <= i < |c| ==> c[i] == b[|a| + i];
    SegmentsOfRender(c);
    if q == prefix {
      SegmentsOfRender([]);
    } else {
      assert q == prefix + Abs(c);
      assert q[|prefix|..] == Abs(c);
      NormalRootedIsRender(Render(c));
      if c != [] {
        assert |Abs(c)| >= |"/" + c[0]| >= 2;
      }
    }
  }

  /** For the prefix "/" re-prefixing doubles the slash except for the root itself. */
  lemma RootPrefixDoublesSlash(p: string)
    requires Rooted(p)
    ensures PrependPublicPath("/", p) == Clean(p) <==> Clean(p) == "/"
    ensures Clean(p) != "/" ==> PrependPublicPath("/", p) == "/" + Clean(p)
  {
    SegmentsOfRender([]);
    NormalizeFixed("/");
    CleanIdempotent(p);
    CleanRooted(p);
    var segs := Segments(p);
    if segs != [] {
      assert Clean(p)[1] == segs[0][0];
      assert segs[0][0] in segs[0];
      assert ("/" + "/")[1] == '/';
    }
  }

  // ---- Redirects come back

  /** A network-path reference, "//host/p", is taken for a path: it is rewritten as if one of its
      slashes were not there (section 4.2 of RFC 3986 gives it another meaning). */
  lemma NetworkPathIsCollapsed(prefix: string, x: string)
    requires Rooted(x) && NormalizePathPrefix(prefix) != ""
    ensures PrependPublicPath(prefix, "/" + x) == PrependPublicPath(prefix, x)
  {
    DoubledSlash(x);
  }

  lemma DoubledSlash(x: string)
    requires Rooted(x)
    ensures Clean("/" + x) == Clean(x)
  {
    CleanRooted(x);
    CleanRooted("/" + x);
    var s := Split(x, '/');
    assert Split("/" + x, '/') == [""] + s by {
      assert "/" + x == "" + ['/'] + x;
      SplitAtSeparator("", x, '/');
    }
    WalkConcat(true, [""], s, []);
    assert Walk(true, [""], []) == [];
  }

  /** A rooted redirect from behind a prefix leads to a clean public path that is not a control
      path, that only the same binding's route answers, and whose prefix can be stripped. */
  lemma RedirectClosure(clients: seq<ClientBinding>, configuredControl: string, i: nat, p: string,
                        pool: TunnelPool, rs: seq<Route>, r: Route)
    requires ValidBindings(clients) && i < |clients|
    requires StableControlPath(configuredControl) && ValidateControlPath(configuredControl).Ok?
    requires NoControlConflict(ValidateControlPath(configuredControl).value, clients)
    requires !CatchAll(EntryOf(clients[i]).prefix) && Rooted(p)
    requires multiset(rs) == multiset(RoutesOf(clients, clients[i].subdomain, pool))
    ensures var prefix := EntryOf(clients[i]).prefix;
      var q := PrependPublicPath(prefix, p);
      && Clean(q) == q
      && !IsControlPath(ValidateControlPath(configuredControl).value, q)
      && (Best(rs, Clean(q), r) <==> r == RouteOf(clients[i], pool))
      && StripPathPrefix(q, prefix).1
  {
    var prefix := EntryOf(clients[i]).prefix;
    assert BindingOk(clients[i]);
    NormalizeIdempotent(clients[i].pathPrefix);
    PrependLandsUnderPrefix(prefix, p);
    var q := PrependPublicPath(prefix, p);
    ControlPathNeverCovered(configuredControl, clients, i, q);
    BindingAnswersItsPaths(clients, i, pool, rs, q, r);
    StripAfterPrepend(prefix, p);
  }

  // ---- The query of a redirect

  /** Splitting a concatenation glues the last part of the one to the first part of the other. */
  lemma {:induction false} SplitGlue(a: string, b: string, sep: char)
    ensures var u, v := Split(a, sep), Split(b, sep);
      Split(a + b, sep) == u[..|u| - 1] + [u[|u| - 1] + v[0]] + v[1..]
  {
    var u, v := Split(a, sep), Split(b, sep);
    if a == "" {
      assert a + b == b;
      assert [""][..0] == [];
      assert "" + v[0] == v[0];
    } else {
      SplitGlue(a[1..], b, sep);
      assert (a + b)[1..] == a[1..] + b;
      PushGlue(a[0], sep, Split(a[1..], sep), v);
    }
  }

  lemma PushGlue(c: char, sep: char, u: seq<string>, v: seq<string>)
    requires |u| >= 1 && |v| >= 1
    ensures var w := Push(c, sep, u);
      Push(c, sep, u[..|u| - 1] + [u[|u| - 1] + v[0]] + v[1..]) == w[..|w| - 1] + [w[|w| - 1] + v[0]] + v[1..]
  {
    var w := Push(c, sep, u);
    if c != sep && |u| == 1 {
      assert [c] + (u[0] + v[0]) == ([c] + u[0]) + v[0];
    }
  }

  /** A string after a slash is normal exactly when its segments are good. */
  lemma NormalIffPartsGood(s: string)
    requires s != ""
    ensures NormalRooted("/" + s) <==> AllGood(Split(s, '/'))
  {
    JoinSplit(s, '/');
    SplitHasNoSeparator(s, '/');
    NormalIffGoodSegments(Split(s, '/'));
  }

  lemma SplitParts(s: string)
    requires s != "" && s[0] != '/'
    ensures var w := Split(s, '/');
      w[0] != "" && w[0][0] == s[0] && '/' !in w[0] && s == w[0] + Abs(w[1..])
  {
    var w := Split(s, '/');
    JoinSplit(s, '/');
    SplitHasNoSeparator(s, '/');
    if |w| > 1 {
      AbsJoin(w[1..]);
    }
  }

  /** Location rewriting cleans the whole string.  The query of a redirect comes through byte
      for byte exactly when cleaning has nothing to do in it. */
  lemma QuerySurvives(prefix: string, x: string, q: string)
    requires PublicPrefix(prefix) && Rooted(x) && q != "" && q[0] == '?'
    ensures HasSuffix(PrependPublicPath(prefix, x + q), q) <==> NormalRooted("/" + q)
  {
    NormalIffPartsGood(q);
    PrependLandsUnderPrefix(prefix, x + q);
    if NormalRooted("/" + q) {
      CleanKeepsGoodQuery(x, q);
      SuffixSurvivesPrepend(prefix, x + q, q);
    }
    var r := PrependPublicPath(prefix, x + q);
    if HasSuffix(r, q) {
      NormalSuffixHasGoodParts(r, q);
    }
  }

  lemma SuffixSurvivesPrepend(prefix: string, p: string, q: string)
    requires PublicPrefix(prefix) && HasSuffix(Clean(p), q) && q != "" && q[0] == '?'
    ensures HasSuffix(PrependPublicPath(prefix, p), q)
  {
    NormalizeFixed(prefix);
    var cleaned := Clean(p);
    assert cleaned[|cleaned| - |q|] == '?';
    assert (prefix + cleaned)[|prefix| + |cleaned| - |q|..] == cleaned[|cleaned| - |q|..];
  }

  lemma CleanKeepsGoodQuery(x: string, q: string)
    requires Rooted(x) && q != "" && q[0] == '?' && AllGood(Split(q, '/'))
    ensures HasSuffix(Clean(x + q), q)
  {
    SegmentsWithQuery(x, q);
    CleanRooted(x + q);
  }

  lemma SegmentsWithQuery(x: string, q: string)
    requires Rooted(x) && q != "" && q[0] == '?' && AllGood(Split(q, '/'))
    ensures HasSuffix(Render(Segments(x + q)), q)
  {
    var u, w := Split(x, '/'), Split(q, '/');
    var front, last := u[..|u| - 1], u[|u| - 1];
    var st := Walk(true, front, []);
    SplitHasNoSeparator(x, '/');
    WalkNormal(true, front, []);
    SplitParts(q);
    GluedSegmentIsGood(last, w[0]);
    SegmentsBeforeQuery(x, q);
    WalkGood(st, last + w[0], w);
    RenderEndsWith(st, last, w[0], w[1..]);
  }

  lemma SegmentsBeforeQuery(x: string, q: string)
    ensures var u, w := Split(x, '/'), Split(q, '/');
      Segments(x + q) == Walk(true, [u[|u| - 1] + w[0]] + w[1..], Walk(true, u[..|u| - 1], []))
  {
    var u, w := Split(x, '/'), Split(q, '/');
    var front, rest := u[..|u| - 1], [u[|u| - 1] + w[0]] + w[1..];
    SplitGlue(x, q, '/');
    assert Split(x + q, '/') == front + rest;
    WalkConcat(true, front, rest, []);
  }

  lemma GluedSegmentIsGood(a: string, b: string)
    requires '/' !in a && '/' !in b && b != "" && b[0] == '?'
    ensures CleanSegment(a + b) && a + b != ".."
  {
    assert (a + b)[|a|] == '?';
  }

  lemma WalkGood(st: seq<string>, m: string, w: seq<string>)
    requires AllGood(st) && CleanSegment(m) && m != ".." && |w| >= 1 && AllGood(w)
    ensures Walk(true, [m] + w[1..], st) == st + ([m] + w[1..])
  {
    var rest := [m] + w[1..];
    assert forall i :: 1 <= i < |rest| ==> rest[i] == w[i];
    assert NormalStack(true, st + rest);
    WalkAppends(true, rest, st);
  }

  lemma RenderEndsWith(st: seq<string>, a: string, b: string, rest: seq<string>)
    ensures HasSuffix(Render(st + ([a + b] + rest)), b + Abs(rest))
  {
    AbsConcat(st, [a + b] + rest);
    AbsFirst(a + b, rest);
    Associate("/", a, b);
    Associate("/" + a, b, Abs(rest));
    Associate(Abs(st), "/" + a, b + Abs(rest));
    EndsWith(Abs(st) + ("/" + a), b + Abs(rest));
  }

  lemma AbsFirst(m: string, rest: seq<string>)
    ensures Abs([m] + rest) == "/" + m + Abs(rest)
  {
    assert ([m] + rest)[1..] == rest;
  }

  lemma Associate(x: string, y: string, z: string)
    ensures (x + y) + z == x + (y + z)
  {}

  lemma EndsWith(x: string, y: string)
    ensures HasSuffix(x + y, y)
  {}

  lemma NormalSuffixHasGoodParts(r: string, q: string)
    requires NormalRooted(r) && HasSuffix(r, q) && q != "" && q[0] == '?'
    ensures AllGood(Split(q, '/'))
  {
    var y := r[..|r| - |q|];
    assert r == y + q;
    assert r != "/" by { assert r[|r| - |q|] == '?'; }
    SplitGlue(y, q, '/');
    SplitParts(q);
    SplitOfNormal(r);
    TailPartsGood(Split(y, '/'), Split(q, '/'), Segments(r));
  }

  lemma TailPartsGood(u: seq<string>, w: seq<string>, segs: seq<string>)
    requires |u| >= 1 && |w| >= 1 && AllGood(segs)
    requires w[0] != "" && w[0][0] == '?' && '/' !in w[0]
    requires u[..|u| - 1] + [u[|u| - 1] + w[0]] + w[1..] == [""] + segs
    ensures AllGood(w)
  {
    var s := [""] + segs;
    assert forall i :: 1 <= i < |s| ==> s[i] == segs[i - 1];
    assert forall i :: 1 <= i < |w| ==> w[i] == s[|u| - 1 + i];
  }

  lemma SplitOfNormal(r: string)
    requires NormalRooted(r) && r != "/"
    ensures Split(r, '/') == [""] + Segments(r) && AllGood(Segments(r))
  {
    NormalRootedIsRender(r);
    var segs := Segments(r);
    AbsJoin(segs);
    SplitJoin(segs, '/');
    assert r == "" + ['/'] + Join(segs, '/');
    SplitAtSeparator("", Join(segs, '/'), '/');
  }
}
