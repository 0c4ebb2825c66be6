/** Cookie paths behind a stripped prefix (`internal/server/proxy_rewrite.go`), and what a
    browser makes of them under section 5.1.4 of RFC 6265. */
module Cookies {
  import opened GoStrings
  import opened Paths
  import opened Config
  import opened Router
  import opened Rewrite

  function RewriteCookiePath(cookiePath: string, publicPrefix: string): string {
    if NormalizePathPrefix(publicPrefix) == "" then cookiePath
    else
      var p := if cookiePath == "" then "/" else cookiePath;
      PrependPublicPath(publicPrefix, if HasPrefix(p, "/") then p else "/" + p)
  }

  /** "A request-path path-matches a given cookie-path", section 5.1.4 of RFC 6265. */
  predicate PathMatch(requestPath: string, cookiePath: string) {
    requestPath == cookiePath ||
    (HasPrefix(requestPath, cookiePath) &&
     (HasSuffix(cookiePath, "/") || (|cookiePath| < |requestPath| && requestPath[|cookiePath|] == '/')))
  }

  lemma RewrittenIsUnder(c: string, prefix: string)
    requires PublicPrefix(prefix)
    ensures NormalRooted(RewriteCookiePath(c, prefix)) && Under(prefix, RewriteCookiePath(c, prefix))
    ensures Rooted(c) ==> RewriteCookiePath(c, prefix) == PrependPublicPath(prefix, c)
  {
    NormalizeFixed(prefix);
    var p := if c == "" then "/" else c;
    PrependLandsUnderPrefix(prefix, if HasPrefix(p, "/") then p else "/" + p);
  }

  /** On a normal cookie path other than "/", path-match is the server's own Under. */
  lemma MatchOnNormal(requestPath: string, c: string)
    requires NormalRooted(c) && c != "/"
    ensures PathMatch(requestPath, c) <==> Under(c, requestPath)
  {
    NormalDoesNotEndInSlash(c);
    assert c[|c| - 1..] == [c[|c| - 1]];
    if |c| < |requestPath| {
      assert requestPath[..|c| + 1] == requestPath[..|c|] + [requestPath[|c|]];
    }
  }

  /** Whatever path a backend sets, its cookie is never sent to a path outside its prefix. */
  lemma CookieStaysUnderPrefix(c: string, prefix: string, requestPath: string)
    requires PublicPrefix(prefix) && PathMatch(requestPath, RewriteCookiePath(c, prefix))
    ensures Under(prefix, requestPath)
  {
    RewrittenIsUnder(c, prefix);
    NormalDoesNotEndInSlash(prefix);
    MatchOnNormal(requestPath, RewriteCookiePath(c, prefix));
    UnderTransitive(prefix, RewriteCookiePath(c, prefix), requestPath);
  }

  /** A cookie path without a leading slash is taken from the root, and an empty one for the root. */
  lemma RelativeCookiePath(c: string, prefix: string)
    requires PublicPrefix(prefix) && !Rooted(c)
    ensures RewriteCookiePath(c, prefix) == RewriteCookiePath("/" + c, prefix)
    ensures c == "" ==> RewriteCookiePath(c, prefix) == prefix
    ensures RewriteCookiePath(c, "") == c
  {
    NormalizeFixed(prefix);
    SegmentsOfRender([]);
    assert "/" + "" == "/";
  }

  lemma UnderCancelsPrefix(prefix: string, c: string, b: string)
    ensures Under(prefix + c, prefix + b) <==> Under(c, b)
  {
    assert prefix + c + "/" == prefix + (c + "/");
    assert (prefix + b)[|prefix|..] == b && (prefix + c)[|prefix|..] == c;
    if HasPrefix(prefix + b, prefix + c + "/") {
      assert (prefix + b)[..|prefix + c + "/"|][|prefix|..] == c + "/";
      assert b[..|c + "/"|] == c + "/";
    }
  }

  /** What the browser sends for a rewritten cookie: behind the prefix, the backend sees the
      cookie on exactly the paths that match its own path, less the prefix if it had put it
      there itself. */
  lemma RewrittenCookieMatches(c: string, prefix: string, b: string)
    requires PublicPrefix(prefix) && NormalRooted(c) && Rooted(b)
    ensures PathMatch(prefix + b, RewriteCookiePath(c, prefix)) <==>
      PathMatch(b, if Under(prefix, c) then StripPathPrefix(c, prefix).0 else c)
  {
    var own := if Under(prefix, c) then StripPathPrefix(c, prefix).0 else c;
    RewrittenFromOwn(c, prefix);
    if own == "/" {
      RootCookieMatches(prefix, b);
    } else {
      OtherCookieMatches(prefix, own, b);
    }
  }

  /** The rewritten path is the prefix and what the backend's own path adds to it. */
  lemma RewrittenFromOwn(c: string, prefix: string)
    requires PublicPrefix(prefix) && NormalRooted(c)
    ensures var own := if Under(prefix, c) then StripPathPrefix(c, prefix).0 else c;
      NormalRooted(own) && RewriteCookiePath(c, prefix) == if own == "/" then prefix else prefix + own
  {
    NormalizeFixed(prefix);
    if Under(prefix, c) {
      StripIsNormal(prefix, c);
    }
  }

  lemma RootCookieMatches(prefix: string, b: string)
    requires PublicPrefix(prefix) && Rooted(b)
    ensures PathMatch(prefix + b, prefix) && PathMatch(b, "/")
  {
    assert (prefix + b)[..|prefix|] == prefix;
    assert b[..1] == "/" && HasSuffix("/", "/");
  }

  lemma OtherCookieMatches(prefix: string, own: string, b: string)
    requires PublicPrefix(prefix) && NormalRooted(own) && own != "/" && Rooted(b)
    ensures PathMatch(prefix + b, prefix + own) <==> PathMatch(b, own)
  {
    CleanConcat(prefix, own);
    MatchOnNormal(prefix + b, prefix + own);
    MatchOnNormal(b, own);
    UnderCancelsPrefix(prefix, own, b);
  }

  /** Rewriting preserves path-match for every request path exactly when the cookie path was
      not under the prefix already. */
  lemma MatchPreservedExactly(c: string, prefix: string)
    requires PublicPrefix(prefix) && NormalRooted(c)
    ensures !Under(prefix, c) <==>
      forall b :: Rooted(b) ==> (PathMatch(prefix + b, RewriteCookiePath(c, prefix)) <==> PathMatch(b, c))
  {
    if !Under(prefix, c) {
      forall b | Rooted(b) ensures PathMatch(prefix + b, RewriteCookiePath(c, prefix)) <==> PathMatch(b, c) {
        RewrittenCookieMatches(c, prefix, b);
      }
    } else {
      var d := StripPathPrefix(c, prefix).0;
      NormalizeFixed(prefix);
      StripIsNormal(prefix, c);
      RewrittenCookieMatches(c, prefix, d);
      assert PathMatch(d, d);
      assert |d| < |c|;
      assert !PathMatch(d, c);
    }
  }

  // ---- The Set-Cookie header

  predicate IsPathAttribute(part: string) {
    var trimmed := TrimSpace(part);
    |trimmed| >= 5 && EqualFold(trimmed[..5], "path=")
  }

  function PathValue(part: string): string
    requires IsPathAttribute(part)
  {
    TrimSpace(TrimSpace(part)[5..])
  }

  function RewritePart(part: string, prefix: string): string
    requires IsPathAttribute(part)
  {
    var newPath := RewriteCookiePath(PathValue(part), prefix);
    if newPath == PathValue(part) then part else " Path=" + newPath
  }

  /** The first Path attribute; the part before the first ";" is the cookie itself. */
  ghost predicate FirstPathAttribute(parts: seq<string>, i: nat) {
    && 1 <= i < |parts| && IsPathAttribute(parts[i])
    && forall j :: 1 <= j < i ==> !IsPathAttribute(parts[j])
  }

  ghost predicate NoPathAttribute(parts: seq<string>) {
    forall j :: 1 <= j < |parts| ==> !IsPathAttribute(parts[j])
  }

  /** r is the header with its first Path attribute rewritten and everything else, order
      included, byte for byte as it was. */
  ghost predicate IsRewritten(setCookie: string, prefix: string, r: string) {
    var parts := Split(setCookie, ';');
    if NoPathAttribute(parts) then r == setCookie
    else exists i: nat :: FirstPathAttribute(parts, i) && r == Join(parts[i := RewritePart(parts[i], prefix)], ';')
  }

  method RewriteSetCookiePath(setCookie: string, publicPrefix: string) returns (r: string)
    ensures IsRewritten(setCookie, publicPrefix, r)
  {
    var split := Split(setCookie, ';');
    ghost var original := split;
    var parts := new string[|split|](i requires 0 <= i < |split| => split[i]);
    assert parts[..] == original;
    var changed := false;
    var i := 1;
    while i < parts.Length
      invariant 1 <= i && parts[..] == original
      invariant forall j :: 1 <= j < i && j < |original| ==> !IsPathAttribute(original[j])
    {
      var trimmed := TrimSpace(parts[i]);
      if |trimmed| < 5 || !EqualFold(trimmed[..5], "path=") {
        i := i + 1;
        continue;
      }
      var rawPath := TrimSpace(trimmed[5..]);
      var newPath := RewriteCookiePath(rawPath, publicPrefix);
      assert newPath == RewriteCookiePath(PathValue(original[i]), publicPrefix);
      if newPath != rawPath {
        parts[i] := " Path=" + newPath;
        changed := true;
      }
      FirstIsRewritten(setCookie, publicPrefix, original, i, parts[..]);
      break;
    }
    r := if !changed then setCookie else Join(parts[..], ';');
  }

  /** Once the first Path attribute is dealt with, the parts joined again are the answer. */
  lemma FirstIsRewritten(setCookie: string, prefix: string, parts: seq<string>, i: nat, after: seq<string>)
    requires parts == Split(setCookie, ';') && FirstPathAttribute(parts, i)
    requires after == parts[i := RewritePart(parts[i], prefix)]
    ensures IsRewritten(setCookie, prefix, Join(after, ';'))
    ensures after == parts ==> IsRewritten(setCookie, prefix, setCookie)
  {
    JoinSplit(setCookie, ';');
  }

  lemma RewrittenIsUnique(setCookie: string, prefix: string, r: string, s: string)
    requires IsRewritten(setCookie, prefix, r) && IsRewritten(setCookie, prefix, s)
    ensures r == s
  {
    var parts := Split(setCookie, ';');
    if !NoPathAttribute(parts) {
      var i: nat :| FirstPathAttribute(parts, i) && r == Join(parts[i := RewritePart(parts[i], prefix)], ';');
      var j: nat :| FirstPathAttribute(parts, j) && s == Join(parts[j := RewritePart(parts[j], prefix)], ';');
      assert i == j;
    }
  }

  /** A path that is clean and under the prefix is left alone, and no other path is. */
  lemma LeftAloneExactly(raw: string, prefix: string)
    requires PublicPrefix(prefix)
    ensures RewriteCookiePath(raw, prefix) == raw <==> NormalRooted(raw) && Under(prefix, raw)
  {
    RewrittenIsUnder(raw, prefix);
    NormalizeFixed(prefix);
    NormalDoesNotEndInSlash(prefix);
  }

  // ---- Characters

  lemma {:induction false} WalkKeepsOut(rooted: bool, segs: seq<string>, st: seq<string>, c: char)
    requires NoneContains(segs, c) && NoneContains(st, c)
    ensures NoneContains(Walk(rooted, segs, st), c)
    decreases |segs|
  {
    if segs != [] {
      WalkKeepsOut(rooted, segs[1..], Step(rooted, st, segs[0]), c);
    }
  }

  lemma {:induction false} SplitKeepsOut(s: string, sep: char, c: char)
    requires c !in s
    ensures NoneContains(Split(s, sep), c)
  {
    if s != "" {
      SplitKeepsOut(s[1..], sep, c);
    }
  }

  lemma {:induction false} JoinKeepsOut(parts: seq<string>, sep: char, c: char)
    requires NoneContains(parts, c) && c != sep
    ensures c !in Join(parts, sep)
  {
    if |parts| > 1 {
      JoinKeepsOut(parts[1..], sep, c);
    }
  }

  /** Cleaning a rooted path brings in no character but slashes. */
  lemma CleanKeepsOut(p: string, c: char)
    requires Rooted(p) && c !in p
    ensures c !in Clean(p)
  {
    SplitKeepsOut(p, '/', c);
    WalkKeepsOut(true, Split(p, '/'), [], c);
    assert c != '/';
    JoinKeepsOut(Segments(p), '/', c);
  }

  lemma RewriteKeepsOut(raw: string, prefix: string, c: char)
    requires PublicPrefix(prefix) && c !in raw && c !in prefix && c != '/'
    ensures c !in RewriteCookiePath(raw, prefix)
  {
    NormalizeFixed(prefix);
    var p := if raw == "" then "/" else raw;
    CleanKeepsOut(if HasPrefix(p, "/") then p else "/" + p, c);
  }

  lemma {:induction false} TrimKeepsOut(s: string, c: char)
    requires c !in s
    ensures c !in TrimLeft(s) && c !in TrimRight(s)
    decreases |s|
  {
    if s != "" {
      TrimKeepsOut(s[1..], c);
      TrimKeepsOut(s[..|s| - 1], c);
    }
  }

  lemma PathValueKeepsOut(part: string, c: char)
    requires IsPathAttribute(part) && c !in part
    ensures c !in PathValue(part)
  {
    TrimKeepsOut(part, c);
    TrimKeepsOut(TrimLeft(part), c);
    TrimKeepsOut(TrimSpace(part)[5..], c);
    TrimKeepsOut(TrimLeft(TrimSpace(part)[5..]), c);
  }

  /** A browser splits the rewritten header into the same parts with one of them replaced,
      exactly unless a prefix with a ";" in it was put in front. */
  lemma OnlyOnePartChanges(setCookie: string, prefix: string, i: nat)
    requires PublicPrefix(prefix) && FirstPathAttribute(Split(setCookie, ';'), i)
    ensures var parts := Split(setCookie, ';');
      var after := parts[i := RewritePart(parts[i], prefix)];
      Split(Join(after, ';'), ';') == after <==> ';' !in prefix || RewritePart(parts[i], prefix) == parts[i]
  {
    var parts := Split(setCookie, ';');
    var after := parts[i := RewritePart(parts[i], prefix)];
    SplitHasNoSeparator(setCookie, ';');
    SemicolonOnlyFromPrefix(parts[i], prefix);
    if ';' !in after[i] {
      SplitJoin(after, ';');
    }
    SplitHasNoSeparator(Join(after, ';'), ';');
  }

  lemma SemicolonOnlyFromPrefix(part: string, prefix: string)
    requires PublicPrefix(prefix) && IsPathAttribute(part) && ';' !in part
    ensures ';' !in RewritePart(part, prefix) <==> ';' !in prefix || RewritePart(part, prefix) == part
  {
    var raw := PathValue(part);
    var newPath := RewriteCookiePath(raw, prefix);
    PathValueKeepsOut(part, ';');
    RewrittenIsUnder(raw, prefix);
    if ';' !in prefix {
      RewriteKeepsOut(raw, prefix, ';');
    }
    assert prefix <= newPath;
    assert ';' in prefix ==> ';' in newPath;
    assert ';' in newPath ==> ';' in " Path=" + newPath;
  }

  // ---- Rewriting twice

  ghost predicate SpaceFree(s: string) {
    forall k :: 0 <= k < |s| ==> !IsSpace(s[k])
  }

  /** The path in the rewritten header needs no second rewriting: it was clean and under the
      prefix from the start, or it is so once the spaces at its end are trimmed. */
  predicate Settles(raw: string, prefix: string) {
    var trimmed := TrimSpace(RewriteCookiePath(raw, prefix));
    (NormalRooted(raw) && Under(prefix, raw)) || (NormalRooted(trimmed) && Under(prefix, trimmed))
  }

  /** Rewriting a second time changes nothing exactly when the path settles, for a prefix without
      whitespace and ";". */
  lemma RewriteIdempotentExactly(setCookie: string, prefix: string, i: nat, r: string, s: string)
    requires PublicPrefix(prefix) && ';' !in prefix && SpaceFree(prefix)
    requires FirstPathAttribute(Split(setCookie, ';'), i)
    requires IsRewritten(setCookie, prefix, r) && IsRewritten(r, prefix, s)
    ensures s == r <==> Settles(PathValue(Split(setCookie, ';')[i]), prefix)
  {
    var parts := Split(setCookie, ';');
    var after := parts[i := RewritePart(parts[i], prefix)];
    FirstIsRewritten(setCookie, prefix, parts, i, after);
    RewrittenIsUnique(setCookie, prefix, r, Join(after, ';'));
    OnlyOnePartChanges(setCookie, prefix, i);
    RewrittenPart(parts[i], prefix);
    SecondRewriting(r, prefix, after, i, s);
  }

  lemma SecondRewriting(r: string, prefix: string, after: seq<string>, i: nat, s: string)
    requires Split(r, ';') == after && r == Join(after, ';') && FirstPathAttribute(after, i)
    requires IsRewritten(r, prefix, s)
    ensures s == r <==> RewritePart(after[i], prefix) == after[i]
  {
    var again := after[i := RewritePart(after[i], prefix)];
    FirstIsRewritten(r, prefix, after, i, again);
    RewrittenIsUnique(r, prefix, s, Join(again, ';'));
    JoinDiffers(after, i, RewritePart(after[i], prefix), ';');
  }

  /** In particular rewriting is idempotent on paths without whitespace. */
  lemma RewriteIdempotent(setCookie: string, prefix: string, r: string, s: string)
    requires PublicPrefix(prefix) && ';' !in prefix && SpaceFree(prefix)
    requires forall i: nat :: FirstPathAttribute(Split(setCookie, ';'), i) ==>
      SpaceFree(PathValue(Split(setCookie, ';')[i]))
    requires IsRewritten(setCookie, prefix, r) && IsRewritten(r, prefix, s)
    ensures s == r
  {
    var parts := Split(setCookie, ';');
    if !NoPathAttribute(parts) {
      var i: nat :| FirstPathAttribute(parts, i);
      RewriteIdempotentExactly(setCookie, prefix, i, r, s);
      SpaceFreeSettles(PathValue(parts[i]), prefix);
    }
  }

  lemma SpaceFreeSettles(raw: string, prefix: string)
    requires PublicPrefix(prefix) && SpaceFree(prefix) && SpaceFree(raw)
    ensures Settles(raw, prefix)
  {
    var newPath := RewriteCookiePath(raw, prefix);
    RewrittenIsUnder(raw, prefix);
    forall k | 0 <= k < |newPath| ensures !IsSpace(newPath[k]) {
      if IsSpace(newPath[k]) { RewriteKeepsOut(raw, prefix, newPath[k]); }
    }
    TrimSpaceFixed(newPath);
  }

  lemma {:induction false} JoinDiffers(parts: seq<string>, i: nat, part: string, sep: char)
    requires i < |parts|
    ensures Join(parts[i := part], sep) == Join(parts, sep) <==> part == parts[i]
  {
    var changed := parts[i := part];
    if |parts| > 1 {
      if i == 0 {
        assert changed[1..] == parts[1..];
        CancelEnd(part, parts[0], [sep] + Join(parts[1..], sep));
        Associate(part, [sep], Join(parts[1..], sep));
        Associate(parts[0], [sep], Join(parts[1..], sep));
      } else {
        assert changed[1..] == parts[1..][i - 1 := part];
        JoinDiffers(parts[1..], i - 1, part, sep);
        CancelFront(parts[0] + [sep], Join(parts[1..][i - 1 := part], sep), Join(parts[1..], sep));
      }
    }
  }

  lemma CancelEnd(x: string, y: string, z: string)
    ensures x + z == y + z <==> x == y
  {
    if x + z == y + z {
      assert |x| == |y|;
      assert (x + z)[..|x|] == x && (y + z)[..|y|] == y;
    }
  }

  lemma CancelFront(x: string, y: string, z: string)
    ensures x + y == x + z <==> y == z
  {
    assert (x + y)[|x|..] == y && (x + z)[|x|..] == z;
  }

  /** What the rewriting makes of the part that the first rewriting wrote. */
  lemma RewrittenPart(part: string, prefix: string)
    requires PublicPrefix(prefix) && SpaceFree(prefix) && IsPathAttribute(part)
    ensures var p := RewritePart(part, prefix);
      IsPathAttribute(p) && (RewritePart(p, prefix) == p <==> Settles(PathValue(part), prefix))
  {
    var raw := PathValue(part);
    var newPath := RewriteCookiePath(raw, prefix);
    LeftAloneExactly(raw, prefix);
    if newPath != raw {
      RewrittenIsUnder(raw, prefix);
      TrimPathAttribute(newPath);
      LeftAloneExactly(TrimSpace(newPath), prefix);
      NeverRestoresSpaces(newPath, prefix);
      CancelFront(" Path=", RewriteCookiePath(TrimSpace(newPath), prefix), newPath);
    }
  }

  /** A written part is read back with the spaces at the end of its path trimmed. */
  lemma TrimPathAttribute(value: string)
    requires Rooted(value)
    ensures IsPathAttribute(" Path=" + value) && PathValue(" Path=" + value) == TrimSpace(value)
    ensures TrimSpace(value) == TrimRight(value) && Rooted(TrimRight(value))
  {
    TrimRightIsTrimmed(value);
    TrimSpaceFixed(TrimRight(value));
    TrimWrittenPart(value);
    PathValueOf("Path=", TrimRight(value), " Path=" + value);
  }

  lemma TrimWrittenPart(value: string)
    requires Rooted(value)
    ensures TrimSpace(" Path=" + value) == "Path=" + TrimRight(value)
  {
    var s, t := " Path=" + value, "Path=" + value;
    assert s[1..] == t;
    assert TrimLeft(s) == TrimLeft(t) == t;
    TrimRightOf("Path=", value);
  }

  lemma PathValueOf(name: string, value: string, part: string)
    requires name == "Path=" && TrimSpace(part) == name + value && TrimSpace(value) == value
    ensures IsPathAttribute(part) && PathValue(part) == value
  {
    assert (name + value)[..5] == name && (name + value)[5..] == value;
    assert ToLower("Path=") == ToLower("path=");
  }

  lemma {:induction false} TrimRightOf(front: string, value: string)
    requires Rooted(value)
    ensures TrimRight(front + value) == front + TrimRight(value)
    decreases |value|
  {
    var n := |value| - 1;
    assert (front + value)[|front + value| - 1] == value[n];
    if IsSpace(value[n]) {
      assert (front + value)[..|front + value| - 1] == front + value[..n];
      TrimRightOf(front, value[..n]);
    }
  }

  lemma {:induction false} TrimRightIsTrimmed(value: string)
    requires Rooted(value)
    ensures var u := TrimRight(value);
      Rooted(u) && !IsSpace(u[|u| - 1]) && Spaces(u) <= Spaces(value) && (u != value ==> Spaces(u) < Spaces(value))
    decreases |value|
  {
    var n := |value| - 1;
    if IsSpace(value[n]) {
      TrimRightIsTrimmed(value[..n]);
      assert value == value[..n] + [value[n]];
      SpacesConcat(value[..n], [value[n]]);
    }
  }

  // ---- Counting whitespace: rewriting adds none but the prefix's own

  function Spaces(s: string): nat {
    if s == "" then 0 else (if IsSpace(s[0]) then 1 else 0) + Spaces(s[1..])
  }

  function AllSpaces(parts: seq<string>): nat {
    if parts == [] then 0 else Spaces(parts[0]) + AllSpaces(parts[1..])
  }

  lemma {:induction false} SpacesConcat(a: string, b: string)
    ensures Spaces(a + b) == Spaces(a) + Spaces(b)
  {
    if a == "" {
      assert a + b == b;
    } else {
      SpacesConcat(a[1..], b);
      assert (a + b)[1..] == a[1..] + b;
    }
  }

  lemma {:induction false} AllSpacesConcat(a: seq<string>, b: seq<string>)
    ensures AllSpaces(a + b) == AllSpaces(a) + AllSpaces(b)
  {
    if a == [] {
      assert a + b == b;
    } else {
      AllSpacesConcat(a[1..], b);
      assert (a + b)[1..] == a[1..] + b;
    }
  }

  lemma {:induction false} SpacesOfSplit(s: string)
    ensures AllSpaces(Split(s, '/')) == Spaces(s)
  {
    if s != "" {
      SpacesOfSplit(s[1..]);
      var rest := Split(s[1..], '/');
      if s[0] == '/' {
        assert ([""] + rest)[1..] == rest;
      } else {
        var first := [s[0]] + rest[0];
        assert ([first] + rest[1..])[1..] == rest[1..];
        assert first[1..] == rest[0];
      }
    }
  }

  lemma StepAddsNoSpace(rooted: bool, st: seq<string>, seg: string)
    ensures AllSpaces(Step(rooted, st, seg)) <= AllSpaces(st) + Spaces(seg)
  {
    AllSpacesConcat(st, [seg]);
    assert [seg][1..] == [];
    if st != [] {
      assert st == st[..|st| - 1] + [st[|st| - 1]];
      AllSpacesConcat(st[..|st| - 1], [st[|st| - 1]]);
    }
  }

  lemma {:induction false} WalkAddsNoSpace(rooted: bool, segs: seq<string>, st: seq<string>)
    ensures AllSpaces(Walk(rooted, segs, st)) <= AllSpaces(st) + AllSpaces(segs)
    decreases |segs|
  {
    if segs != [] {
      StepAddsNoSpace(rooted, st, segs[0]);
      WalkAddsNoSpace(rooted, segs[1..], Step(rooted, st, segs[0]));
    }
  }

  lemma {:induction false} SpacesOfAbs(segs: seq<string>)
    ensures Spaces(Abs(segs)) == AllSpaces(segs)
  {
    if segs != [] {
      SpacesOfAbs(segs[1..]);
      SpacesConcat("/" + segs[0], Abs(segs[1..]));
      assert ("/" + segs[0])[1..] == segs[0];
    }
  }

  lemma CleanAddsNoSpace(p: string)
    requires Rooted(p)
    ensures Spaces(Clean(p)) <= Spaces(p)
  {
    SpacesOfSplit(p);
    WalkAddsNoSpace(true, Split(p, '/'), []);
    SpacesOfAbs(Segments(p));
    CleanRooted(p);
  }

  lemma {:induction false} SpaceFreeHasNone(s: string)
    requires SpaceFree(s)
    ensures Spaces(s) == 0
  {
    if s != "" {
      SpaceFreeHasNone(s[1..]);
    }
  }

  /** Rewriting a trimmed path does not bring the trimmed spaces back. */
  lemma NeverRestoresSpaces(newPath: string, prefix: string)
    requires PublicPrefix(prefix) && SpaceFree(prefix) && Rooted(newPath)
    ensures RewriteCookiePath(TrimRight(newPath), prefix) == newPath ==> TrimRight(newPath) == newPath
  {
    var t := TrimRight(newPath);
    TrimRightIsTrimmed(newPath);
    RewrittenIsUnder(t, prefix);
    NormalizeFixed(prefix);
    CleanAddsNoSpace(t);
    SpaceFreeHasNone(prefix);
    SpacesConcat(prefix, Clean(t));
  }
}
