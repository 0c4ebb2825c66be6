/** The header pass over a proxied response (`internal/server/proxy_rewrite.go`). */
module Headers {
  import opened GoStrings
  import opened Paths
  import opened Config
  import opened Router
  import opened Rewrite
  import opened Cookies

  /** What parsing a redirect that is not a rooted path yields; URL syntax is net/url's. */
  datatype ParsedUrl = BadUrl | Url(path: string)

  class UrlSyntax {
    const parse: string -> ParsedUrl
    const withPath: (string, string) -> string

    constructor (parse: string -> ParsedUrl, withPath: (string, string) -> string)
      ensures this.parse == parse && this.withPath == withPath
    {
      this.parse, this.withPath := parse, withPath;
    }
  }

  function RewriteLocation(loc: string, publicPrefix: string, urls: UrlSyntax): string {
    if HasPrefix(loc, "/") then PrependPublicPath(publicPrefix, loc)
    else
      match urls.parse(loc)
      case BadUrl => loc
      case Url(path) =>
        if path == "" || !HasPrefix(path, "/") then loc
        else
          var newPath := PrependPublicPath(publicPrefix, path);
          if newPath == path then loc else urls.withPath(loc, newPath)
  }

  class ResponseHeaders {
    var location: seq<string>
    var setCookie: seq<string>

    constructor (location: seq<string>, setCookie: seq<string>)
      ensures this.location == location && this.setCookie == setCookie
    {
      this.location, this.setCookie := location, setCookie;
    }

    /** Only the first Location counts and replaces all of them; every Set-Cookie is rewritten
        on its own and keeps its place. */
    method RewritePublicPrefix(publicPrefix: string, urls: UrlSyntax)
      modifies this
      ensures NormalizePathPrefix(publicPrefix) == "" ==> location == old(location) && setCookie == old(setCookie)
      ensures NormalizePathPrefix(publicPrefix) != "" ==>
        && Redirected(old(location), NormalizePathPrefix(publicPrefix), urls, location)
        && CookiesRewritten(old(setCookie), NormalizePathPrefix(publicPrefix), setCookie)
    {
      var prefix := NormalizePathPrefix(publicPrefix);
      if prefix == "" {
        return;
      }
      RewriteLocations(prefix, urls);
      RewriteCookies(prefix);
    }

    method RewriteLocations(prefix: string, urls: UrlSyntax)
      modifies `location
      ensures Redirected(old(location), prefix, urls, location)
    {
      ghost var before := location;
      var loc := if location == [] then "" else location[0];
      if loc != "" {
        var rewritten := RewriteLocation(loc, prefix, urls);
        if rewritten != loc {
          location := [rewritten];
        }
      }
      RedirectGoesBack(before, prefix, urls, location);
    }

    method RewriteCookies(prefix: string)
      modifies `setCookie
      ensures CookiesRewritten(old(setCookie), prefix, setCookie)
    {
      var cookies := setCookie;
      if |cookies| == 0 {
        return;
      }
      var rewritten := [];
      for k := 0 to |cookies|
        invariant CookiesRewritten(cookies[..k], prefix, rewritten)
      {
        var c := RewriteSetCookiePath(cookies[k], prefix);
        OneMoreCookie(cookies, k, prefix, rewritten, c);
        rewritten := rewritten + [c];
      }
      assert cookies[..|cookies|] == cookies;
      setCookie := rewritten;
    }
  }

  /** A redirect to a rooted path becomes a clean path under the public prefix, which leads where
      the backend meant: stripped again it is the backend's own path, unless that had the prefix.
      Any other redirect keeps its value unless it is a URL with a rooted path, and no Location
      appears or disappears while there is none or an empty one. */
  ghost predicate Redirected(before: seq<string>, prefix: string, urls: UrlSyntax, after: seq<string>) {
    && (before == [] || before[0] == "" ==> after == before)
    && (before != [] && before[0] != "" ==> ReplacesFirst(before, RewriteLocation(before[0], prefix, urls), after))
    && (before != [] && Rooted(before[0]) && PublicPrefix(prefix) ==>
          after != [] && RedirectsInto(prefix, before[0], after[0]))
    && (before != [] && before[0] != "" && !Rooted(before[0]) && PublicPrefix(prefix) ==>
          AbsoluteRedirect(prefix, before[0], urls, after, before))
  }

  /** A header with this as its only value, or the old header if this was its first value already. */
  predicate ReplacesFirst(before: seq<string>, value: string, after: seq<string>)
    requires before != []
  {
    if value == before[0] then after == before else after == [value]
  }

  ghost predicate RedirectsInto(prefix: string, path: string, location: string) {
    && NormalRooted(location) && Under(prefix, location)
    && (StripPathPrefix(location, prefix).0 == Clean(path) <==> !Under(prefix, Clean(path)))
  }

  /** A URL with a rooted path that is not clean and under the prefix yet gets one that is, with
      everything else as the URL had it; every other value stays. */
  ghost predicate AbsoluteRedirect(prefix: string, loc: string, urls: UrlSyntax,
                                   after: seq<string>, before: seq<string>) {
    match urls.parse(loc)
    case BadUrl => after == before
    case Url(path) =>
      if !Rooted(path) || (NormalRooted(path) && Under(prefix, path)) then after == before
      else
        exists moved ::
          && RedirectsInto(prefix, path, moved)
          && (if urls.withPath(loc, moved) == loc then after == before else after == [urls.withPath(loc, moved)])
  }

  lemma RedirectGoesBack(before: seq<string>, prefix: string, urls: UrlSyntax, after: seq<string>)
    requires before == [] || before[0] == "" ==> after == before
    requires before != [] && before[0] != "" ==>
      ReplacesFirst(before, RewriteLocation(before[0], prefix, urls), after)
    ensures Redirected(before, prefix, urls, after)
  {
    if before != [] && before[0] != "" && PublicPrefix(prefix) {
      NormalizeFixed(prefix);
      if Rooted(before[0]) {
        PrependLandsUnderPrefix(prefix, before[0]);
        StripAfterPrepend(prefix, before[0]);
      } else {
        AbsoluteGoesBack(before[0], prefix, urls);
      }
    }
  }

  lemma AbsoluteGoesBack(loc: string, prefix: string, urls: UrlSyntax)
    requires PublicPrefix(prefix) && loc != "" && !Rooted(loc)
    ensures match urls.parse(loc)
      case BadUrl => RewriteLocation(loc, prefix, urls) == loc
      case Url(path) =>
        if !Rooted(path) || (NormalRooted(path) && Under(prefix, path)) then RewriteLocation(loc, prefix, urls) == loc
        else RedirectsInto(prefix, path, PrependPublicPath(prefix, path))
             && RewriteLocation(loc, prefix, urls) == urls.withPath(loc, PrependPublicPath(prefix, path))
  {
    if urls.parse(loc).Url? && Rooted(urls.parse(loc).path) {
      var path := urls.parse(loc).path;
      NormalizeFixed(prefix);
      PrependLandsUnderPrefix(prefix, path);
      StripAfterPrepend(prefix, path);
      LeftAloneExactly(path, prefix);
      RewrittenIsUnder(path, prefix);
    }
  }

  lemma OneMoreCookie(cookies: seq<string>, k: nat, prefix: string, rewritten: seq<string>, c: string)
    requires k < |cookies| && CookiesRewritten(cookies[..k], prefix, rewritten) && IsRewritten(cookies[k], prefix, c)
    ensures CookiesRewritten(cookies[..k + 1], prefix, rewritten + [c])
  {
    forall i | 0 <= i < k ensures IsRewritten(cookies[..k + 1][i], prefix, (rewritten + [c])[i]) {
      assert cookies[..k][i] == cookies[i];
    }
  }

  ghost predicate CookiesRewritten(before: seq<string>, prefix: string, after: seq<string>) {
    |after| == |before| && forall i :: 0 <= i < |before| ==> IsRewritten(before[i], prefix, after[i])
  }
}
