/** Host keys (`internal/router/host.go`): which subdomain of the root domain a request is
    for, and for which hosts certificates may be issued. */
module Host {
  import opened GoStrings

  // ---- net.SplitHostPort

  /** The first position of c, or the length of s. */
  function FirstIndex(s: string, c: char): (i: nat)
    ensures i <= |s| && c !in s[..i] && (i < |s| ==> s[i] == c)
  {
    if s == "" || s[0] == c then 0
    else
      var i := 1 + FirstIndex(s[1..], c);
      assert s[..i] == [s[0]] + s[1..][..i - 1];
      i
  }

  /** One more than the last position of c, or 0. */
  function LastIndexEnd(s: string, c: char): (i: nat)
    ensures i <= |s| && c !in s[i..] && (i > 0 ==> s[i - 1] == c)
  {
    if s == "" then 0
    else if s[|s| - 1] == c then |s|
    else
      var i := LastIndexEnd(s[..|s| - 1], c);
      assert s[i..] == s[..|s| - 1][i..] + [s[|s| - 1]];
      i
  }

  /** The host of "host:port" or "[host]:port"; None stands for any of the errors. */
  function SplitHostPort(hostport: string): Option<string> {
    var colon := LastIndexEnd(hostport, ':');
    if colon == 0 then None
    else if hostport[0] == '[' then
      var end := FirstIndex(hostport, ']');
      if end + 1 != colon - 1 then None
      else if '[' in hostport[1..] || ']' in hostport[end + 1..] then None
      else Some(hostport[1..end])
    else
      var host := hostport[..colon - 1];
      if ':' in host || '[' in hostport || ']' in hostport then None else Some(host)
  }

  function StripPort(host: string): string {
    match SplitHostPort(host)
    case Some(h) => h
    case None => host
  }

  // ---- Host keys

  datatype HostError = RootMismatch | NestedSubdomain

  datatype KeyResult = Key(key: string) | NoKey(error: HostError)

  function HostKey(host: string, rootDomain: string): KeyResult {
    var root, h := ToLower(TrimSpace(rootDomain)), ToLower(StripPort(host));
    if h == root then Key("@")
    else if !HasSuffix(h, "." + root) then NoKey(RootMismatch)
    else
      var sub := TrimSuffix(h, "." + root);
      if sub == "" then Key("@")
      else if '.' in sub then NoKey(NestedSubdomain)
      else Key(sub)
  }

  function FQDN(hostKey: string, rootDomain: string): string {
    if hostKey == "@" then rootDomain else hostKey + "." + rootDomain
  }

  /** The keys that name a host: the apex, or one label. */
  predicate NamesHost(k: string) {
    k == "@" || (k != "" && '.' !in k)
  }

  /** HostKey is the inverse of FQDN on the normalised host, with two exceptions: a bare leading
      dot and a literal "@" label are taken for the apex. */
  lemma HostKeyExactly(host: string, rootDomain: string, k: string)
    ensures var root, h := ToLower(TrimSpace(rootDomain)), ToLower(StripPort(host));
      HostKey(host, rootDomain) == Key(k) <==>
        (NamesHost(k) && h == FQDN(k, root)) || (k == "@" && (h == "." + root || h == "@." + root))
  {
    var root, h := ToLower(TrimSpace(rootDomain)), ToLower(StripPort(host));
    EndsIn(h, k, root);
    EndsIn(h, "@", root);
    EndsIn(h, "", root);
    assert "" + "." + root == "." + root;
  }

  lemma EndsIn(h: string, k: string, root: string)
    ensures HasSuffix(h, "." + root) && TrimSuffix(h, "." + root) == k <==> h == k + "." + root
  {
    var suffix := "." + root;
    assert k + "." + root == k + suffix;
    if HasSuffix(h, suffix) {
      assert h == TrimSuffix(h, suffix) + suffix;
    }
    assert (k + suffix)[|k|..] == suffix && (k + suffix)[..|k|] == k;
  }

  /** A key names a tunnel that public requests can reach exactly when it is the apex or one
      lower-case label. */
  lemma HostKeyInvertsFQDN(k: string, root: string)
    requires ToLower(TrimSpace(root)) == root && ':' !in root && ':' !in k
    ensures HostKey(FQDN(k, root), root) == Key(k) <==> NamesHost(k) && ToLower(k) == k
  {
    var h := FQDN(k, root);
    assert ':' !in h;
    assert StripPort(h) == h;
    HostKeyExactly(h, root, k);
    LowerOfFQDN(k, root);
    AppendCancels(ToLower(k), k, "." + root);
  }

  lemma AppendCancels(a: string, b: string, s: string)
    requires |a| == |b|
    ensures a + s == b + s <==> a == b
  {
    assert (a + s)[..|a|] == a && (b + s)[..|b|] == b;
  }

  lemma LowerOfFQDN(k: string, root: string)
    requires ToLower(root) == root
    ensures ToLower(FQDN(k, root)) == if k == "@" then root else ToLower(k) + ("." + root)
    ensures FQDN(k, root) == if k == "@" then root else k + ("." + root)
  {
    assert k + "." + root == k + ("." + root);
    LowerConcat(k, "." + root);
    LowerConcat(".", root);
    assert ToLower(".") == ".";
  }

  lemma LowerConcat(a: string, b: string)
    ensures ToLower(a + b) == ToLower(a) + ToLower(b)
  {
    var l, m := ToLower(a + b), ToLower(a) + ToLower(b);
    assert forall i :: 0 <= i < |l| ==> l[i] == m[i];
  }

  predicate Plain(s: string) {
    ':' !in s && '[' !in s && ']' !in s
  }

  /** A port on the request's Host header does not matter. */
  lemma PortDoesNotMatter(host: string, port: string, rootDomain: string)
    requires Plain(host) && Plain(port)
    ensures HostKey(host + ":" + port, rootDomain) == HostKey(host, rootDomain)
  {
    var s := host + ":" + port;
    assert s == host + [':'] + port;
    LastIndexIs(host, ':', port);
    assert s[..|host|] == host;
    assert '[' !in s && ']' !in s;
    assert s[0] in s;
  }

  /** What counts as host and port: one colon between two parts without colon or brackets, or between
      a part in brackets and one without colon or brackets. */
  predicate HostAndPort(s: string, h: string, port: string) {
    Plain(port) && ((Plain(h) && s == h + ":" + port) || ('[' !in h && ']' !in h && s == "[" + h + "]:" + port))
  }

  /** Nor does the case of its letters. */
  lemma CaseDoesNotMatter(a: string, c: char, b: string, rootDomain: string)
    requires 'A' <= c <= 'Z'
    ensures HostKey(a + [c] + b, rootDomain) == HostKey(a + [c - 'A' + 'a'] + b, rootDomain)
  {
    var s, t := a + [c] + b, a + [c - 'A' + 'a'] + b;
    assert forall i :: 0 <= i < |s| ==> LowerChar(s[i]) == LowerChar(t[i]);
    SameButCase(s, t);
  }

  predicate SameLetters(s: string, t: string) {
    |s| == |t| && forall i :: 0 <= i < |s| ==> LowerChar(s[i]) == LowerChar(t[i])
  }

  predicate Delimiter(c: char) {
    c == ':' || c == '[' || c == ']'
  }

  lemma SameMembers(s: string, t: string, c: char)
    requires SameLetters(s, t) && Delimiter(c)
    ensures c in s <==> c in t
  {
    if c in s {
      var i :| 0 <= i < |s| && s[i] == c;
      assert t[i] == c;
    }
    if c in t {
      var i :| 0 <= i < |t| && t[i] == c;
      assert s[i] == c;
    }
  }

  lemma {:induction false} FirstIsFirst(s: string, c: char, k: nat)
    requires k < |s| && s[k] == c
    ensures FirstIndex(s, c) <= k
  {
    if s[0] != c {
      FirstIsFirst(s[1..], c, k - 1);
    }
  }

  lemma SamePlain(s: string, t: string)
    requires SameLetters(s, t)
    ensures Plain(s) <==> Plain(t)
    ensures '[' in s <==> '[' in t
    ensures ']' in s <==> ']' in t
  {
    SameMembers(s, t, ':');
    SameMembers(s, t, '[');
    SameMembers(s, t, ']');
  }

  lemma SplitsAlike(s: string, t: string)
    requires SameLetters(s, t) && SplitHostPort(s).Some?
    ensures SplitHostPort(t).Some? && SameLetters(SplitHostPort(s).value, SplitHostPort(t).value)
  {
    var h := SplitHostPort(s).value;
    SplitsInto(s, h);
    var port :| HostAndPort(s, h, port);
    if Plain(h) && s == h + ":" + port {
      PlainAlike(s, t, h, port);
    } else {
      BracketsAlike(s, t, h, port);
    }
  }

  lemma PlainAlike(s: string, t: string, h: string, port: string)
    requires SameLetters(s, t) && Plain(h) && Plain(port) && s == h + ":" + port
    ensures SplitHostPort(t) == Some(t[..|h|]) && SameLetters(h, t[..|h|])
  {
    var i, q := t[..|h|], t[|h| + 1..];
    assert s[|h|] == ':' && s[..|h|] == h && s[|h| + 1..] == port;
    assert t == i + ":" + q;
    SamePlain(h, i);
    SamePlain(port, q);
    SplitHostPortExactly(t, i);
  }

  lemma BracketParts(s: string, h: string, port: string)
    ensures s == "[" + h + "]:" + port <==>
      && |s| == |h| + |port| + 3 && s[0] == '[' && s[1..|h| + 1] == h
      && s[|h| + 1] == ']' && s[|h| + 2] == ':' && s[|h| + 3..] == port
  {
    var t := "[" + h + "]:" + port;
    assert t[0] == '[' && t[1..|h| + 1] == h && t[|h| + 1] == ']' && t[|h| + 2] == ':' && t[|h| + 3..] == port;
    if |s| == |t| {
      assert s == [s[0]] + s[1..|h| + 1] + [s[|h| + 1]] + [s[|h| + 2]] + s[|h| + 3..];
      assert t == [t[0]] + t[1..|h| + 1] + [t[|h| + 1]] + [t[|h| + 2]] + t[|h| + 3..];
    }
  }

  lemma BracketsAlike(s: string, t: string, h: string, port: string)
    requires SameLetters(s, t) && '[' !in h && ']' !in h && Plain(port) && s == "[" + h + "]:" + port
    ensures SplitHostPort(t) == Some(t[1..|h| + 1]) && SameLetters(h, t[1..|h| + 1])
  {
    var i, q := t[1..|h| + 1], t[|h| + 3..];
    BracketParts(s, h, port);
    BracketParts(t, i, q);
    SamePlain(h, i);
    SamePlain(port, q);
    assert HostAndPort(t, i, q);
    SplitHostPortExactly(t, i);
  }

  lemma SameButCase(s: string, t: string)
    requires SameLetters(s, t)
    ensures ToLower(StripPort(s)) == ToLower(StripPort(t))
  {
    if SplitHostPort(s).Some? {
      SplitsAlike(s, t);
    }
    if SplitHostPort(t).Some? {
      SplitsAlike(t, s);
    }
    var h, i := StripPort(s), StripPort(t);
    assert SameLetters(h, i);
  }

  /** net.SplitHostPort accepts exactly that. */
  lemma SplitHostPortExactly(s: string, h: string)
    ensures SplitHostPort(s) == Some(h) <==>
      exists port :: HostAndPort(s, h, port)
  {
    if SplitHostPort(s) == Some(h) {
      SplitsInto(s, h);
    }
    forall port | Plain(port) && Plain(h) && s == h + ":" + port ensures SplitHostPort(s) == Some(h) {
      assert s == h + [':'] + port;
      LastIndexIs(h, ':', port);
      assert s[..|h|] == h && s[0] in s;
    }
    forall port | Plain(port) && '[' !in h && ']' !in h && s == "[" + h + "]:" + port
      ensures SplitHostPort(s) == Some(h)
    {
      InBrackets(s, h, port);
    }
  }

  lemma SplitsInto(s: string, h: string)
    requires SplitHostPort(s) == Some(h)
    ensures exists port :: HostAndPort(s, h, port)
  {
    var colon := LastIndexEnd(s, ':');
    var port := s[colon..];
    if s[0] == '[' {
      var end := FirstIndex(s, ']');
      assert h == s[1..end] && s == "[" + h + "]:" + port;
      assert forall c :: c in h ==> c in s[1..] && c in s[..end];
      assert forall c :: c in port ==> c in s[1..] && c in s[end + 1..];
      assert '[' !in h && ']' !in h && Plain(port);
      assert HostAndPort(s, h, port);
    } else {
      assert h == s[..colon - 1] && s == h + ":" + port;
      assert forall c :: c in h || c in port ==> c in s;
      assert Plain(h) && Plain(port);
      assert HostAndPort(s, h, port);
    }
  }

  lemma InBrackets(s: string, h: string, port: string)
    requires Plain(port) && '[' !in h && ']' !in h && s == "[" + h + "]:" + port
    ensures SplitHostPort(s) == Some(h)
  {
    BracketParts(s, h, port);
    ClosingBracket(s, h);
    LastColon(s, port);
    assert '[' !in s[1..] by { assert s[1..] == h + "]:" + port; }
    assert s[|h| + 2..] == ":" + port;
  }

  lemma ClosingBracket(s: string, h: string)
    requires ']' !in h && |s| > |h| + 1 && s[0] == '[' && s[1..|h| + 1] == h && s[|h| + 1] == ']'
    ensures FirstIndex(s, ']') == |h| + 1
  {
    FirstIsFirst(s, ']', |h| + 1);
    assert forall i :: 0 < i < |h| + 1 ==> s[i] == h[i - 1];
  }

  lemma LastColon(s: string, port: string)
    requires ':' !in port && |s| > |port| && s[|s| - |port| - 1] == ':' && s[|s| - |port|..] == port
    ensures LastIndexEnd(s, ':') == |s| - |port|
  {
    var front := s[..|s| - |port| - 1];
    assert s == front + [':'] + port;
    LastIndexIs(front, ':', port);
  }

  lemma {:induction false} LastIndexIs(a: string, c: char, b: string)
    requires c !in b
    ensures LastIndexEnd(a + [c] + b, c) == |a| + 1
  {
    var s := a + [c] + b;
    if b != "" {
      assert s[..|s| - 1] == a + [c] + b[..|b| - 1];
      assert s[|s| - 1] == b[|b| - 1];
      LastIndexIs(a, c, b[..|b| - 1]);
    }
  }

  // ---- Certificates

  /** The host policy for certificate issuance, for the host keys the registry lists. */
  function AllowedHosts(subdomains: seq<string>, rootDomain: string, hostname: string): bool {
    var host, root := StripPort(ToLower(hostname)), ToLower(rootDomain);
    match HostKey(host, root)
    case NoKey(_) => false
    case Key(key) => AllowedByList(subdomains, key, host, root)
  }

  function AllowedByList(subdomains: seq<string>, key: string, host: string, root: string): bool {
    if subdomains == [] then false
    else if subdomains[0] != key then AllowedByList(subdomains[1..], key, host, root)
    else if key == "@" then host == root
    else host == subdomains[0] + "." + root
  }

  lemma {:induction false} AllowedByListExactly(subdomains: seq<string>, key: string, host: string, root: string)
    ensures AllowedByList(subdomains, key, host, root) <==> key in subdomains && host == FQDN(key, root)
  {
    if subdomains != [] {
      AllowedByListExactly(subdomains[1..], key, host, root);
    }
  }

  lemma AllowedIsRoundTrip(subdomains: seq<string>, rootDomain: string, hostname: string)
    ensures var host, root := StripPort(ToLower(hostname)), ToLower(rootDomain);
      AllowedHosts(subdomains, rootDomain, hostname) <==>
        exists k :: k in subdomains && HostKey(host, root) == Key(k) && host == FQDN(k, root)
  {
    var host, root := StripPort(ToLower(hostname)), ToLower(rootDomain);
    if HostKey(host, root).Key? {
      AllowedByListExactly(subdomains, HostKey(host, root).key, host, root);
    }
  }

  /** Certificates are issued for exactly the full names of the registered keys that name a host:
      whatever the keys and the root domain are, and for none at all if spaces surround the root.
      The port is taken off the host twice, so a name with another port in it gets none either. */
  lemma AllowedHostsExactly(subdomains: seq<string>, rootDomain: string, hostname: string)
    ensures var host, root := StripPort(ToLower(hostname)), ToLower(rootDomain);
      AllowedHosts(subdomains, rootDomain, hostname) <==>
        && TrimSpace(root) == root && StripPort(host) == host
        && exists k :: k in subdomains && NamesHost(k) && host == FQDN(k, root)
  {
    var host, root := StripPort(ToLower(hostname)), ToLower(rootDomain);
    AllowedIsRoundTrip(subdomains, rootDomain, hostname);
    LowerStaysLower(rootDomain);
    LowerStaysLower(hostname);
    StripPortKeepsLower(ToLower(hostname));
    forall k | k in subdomains && host == FQDN(k, root)
      ensures HostKey(host, root) == Key(k) <==> NamesHost(k) && TrimSpace(root) == root && StripPort(host) == host
    {
      KeyOfOwnName(host, root, k);
    }
  }

  lemma LowerStaysLower(s: string)
    ensures ToLower(ToLower(s)) == ToLower(s)
  {}

  lemma StripPortKeepsLower(s: string)
    requires ToLower(s) == s
    ensures ToLower(StripPort(s)) == StripPort(s)
  {
    var h := StripPort(s);
    if SplitHostPort(s).Some? {
      var at := if s[0] == '[' then 1 else 0;
      assert forall i :: 0 <= i < |h| ==> h[i] == s[i + at] && LowerChar(s[i + at]) == s[i + at];
    }
  }

  /** A full name in lower case has its key exactly when the root is trimmed and the name has no
      port in it. */
  lemma KeyOfOwnName(host: string, root: string, k: string)
    requires ToLower(host) == host && ToLower(root) == root && host == FQDN(k, root)
    ensures HostKey(host, root) == Key(k) <==> NamesHost(k) && TrimSpace(root) == root && StripPort(host) == host
  {
    var trimmed, h := TrimSpace(root), StripPort(host);
    TrimSpaceShape(root);
    PartsStayLower(root, trimmed);
    StripPortKeepsLower(host);
    HostKeyExactly(host, root, k);
    if trimmed != root {
      if h == host {
        NoPortNoKey(root, trimmed);
      } else {
        PortNoKey(host, root, trimmed, k);
      }
    }
  }

  // ---- Trimming

  lemma {:induction false} TrimLeftShape(s: string)
    ensures |TrimLeft(s)| <= |s| && TrimLeft(s) == s[|s| - |TrimLeft(s)|..]
    ensures TrimLeft(s) != "" ==> !IsSpace(TrimLeft(s)[0])
    ensures TrimLeft(s) != s ==> IsSpace(s[0])
    decreases |s|
  {
    if s != "" && IsSpace(s[0]) {
      TrimLeftShape(s[1..]);
    }
  }

  lemma {:induction false} TrimRightShape(s: string)
    ensures TrimRight(s) <= s
    ensures TrimRight(s) != "" ==> !IsSpace(TrimRight(s)[|TrimRight(s)| - 1])
    ensures forall i :: |TrimRight(s)| <= i < |s| ==> IsSpace(s[i])
    decreases |s|
  {
    if s != "" && IsSpace(s[|s| - 1]) {
      TrimRightShape(s[..|s| - 1]);
    }
  }

  /** What TrimSpace leaves has no space at its ends; if the string does not begin with one, all
      that is cut off is spaces at its end. */
  lemma TrimSpaceShape(s: string)
    ensures var t := TrimSpace(s);
      && |t| <= |s| && (|t| == |s| ==> t == s) && (t != "" ==> !IsSpace(t[0]) && !IsSpace(t[|t| - 1]))
      && (s != "" && !IsSpace(s[0]) ==> t <= s && forall i :: |t| <= i < |s| ==> IsSpace(s[i]))
      && (t == "" && s != "" ==> IsSpace(s[0]))
      && forall c :: c in t ==> c in s
  {
    TrimLeftShape(s);
    TrimRightShape(TrimLeft(s));
  }

  lemma PartsStayLower(s: string, t: string)
    requires ToLower(s) == s && forall c :: c in t ==> c in s
    ensures ToLower(t) == t
  {
    forall c | c in t ensures LowerChar(c) == c {
      var i :| 0 <= i < |s| && s[i] == c;
      assert ToLower(s)[i] == LowerChar(s[i]);
    }
  }

  /** A root with spaces around it is not its trimmed form with a label in front. */
  lemma NoPortNoKey(root: string, trimmed: string)
    requires trimmed == TrimSpace(root) && trimmed != root
    ensures |trimmed| < |root| && root != "." + trimmed && root != "@." + trimmed
  {
    TrimSpaceShape(root);
  }

  /** Nor does taking off a port make it so. */
  lemma PortNoKey(host: string, root: string, trimmed: string, k: string)
    requires trimmed == TrimSpace(root) && trimmed != root && host == FQDN(k, root) && StripPort(host) != host
    ensures StripPort(host) != FQDN(k, trimmed)
    ensures k == "@" ==> StripPort(host) != "." + trimmed && StripPort(host) != "@." + trimmed
  {
    TrimSpaceShape(root);
    PortShape(host);
    if host[0] == '[' {
      assert k != "@" && k != "" ==> FQDN(k, trimmed)[0] == '[';
    } else if k == "@" {
      ColonAfterTrim(root, trimmed, StripPort(host));
    } else {
      BehindLabel(k + ".", root, trimmed, StripPort(host));
    }
  }

  lemma BehindLabel(front: string, root: string, trimmed: string, h: string)
    requires trimmed == TrimSpace(root) && h <= front + root && |h| < |front + root| && (front + root)[|h|] == ':'
    ensures h != front + trimmed
  {
    var rest := if |h| >= |front| then h[|front|..] else "";
    if |h| >= |front| {
      assert rest <= root by { assert (front + root)[..|h|][|front|..] == rest; }
      ColonAfterTrim(root, trimmed, rest);
      assert (front + trimmed)[|front|..] == trimmed;
    }
  }

  lemma PortShape(host: string)
    requires StripPort(host) != host
    ensures host != "" && if host[0] == '[' then '[' !in StripPort(host)
      else StripPort(host) <= host && |StripPort(host)| < |host| && host[|StripPort(host)|] == ':'
  {}

  /** A colon does not follow what is left of a string after trimming. */
  lemma ColonAfterTrim(s: string, t: string, h: string)
    requires t == TrimSpace(s) && h <= s && |h| < |s| && s[|h|] == ':'
    ensures h != t && h != "." + t && h != "@." + t
  {
    TrimSpaceShape(s);
  }
}
