/** Go's `path.Clean`, which every prefix comparison of the server goes through, as a
    walk over the slash-separated segments with a stack, and the normal form it reaches. */
module Paths {
  import opened GoStrings

  predicate Rooted(p: string) {
    HasPrefix(p, "/")
  }

  /** What one segment does to the stack: empty and "." segments vanish, ".." removes the
      segment before it, and only a relative path keeps a ".." that has nothing to remove. */
  function Step(rooted: bool, stack: seq<string>, seg: string): seq<string> {
    if seg == "" || seg == "." then stack
    else if seg == ".." then
      if stack != [] && stack[|stack| - 1] != ".." then stack[..|stack| - 1]
      else if rooted then stack
      else stack + [seg]
    else stack + [seg]
  }

  function Walk(rooted: bool, segs: seq<string>, stack: seq<string>): seq<string>
    decreases |segs|
  {
    if segs == [] then stack else Walk(rooted, segs[1..], Step(rooted, stack, segs[0]))
  }

  function Clean(p: string): string {
    if p == "" then "."
    else
      var stack := Walk(Rooted(p), Split(p, '/'), []);
      if Rooted(p) then "/" + Join(stack, '/')
      else if stack == [] then "." else Join(stack, '/')
  }

  // ---- Normal forms

  predicate CleanSegment(seg: string) {
    seg != "" && seg != "." && '/' !in seg
  }

  /** Stacks the walk can leave behind: ".." stands only at the front of a relative path. */
  ghost predicate NormalStack(rooted: bool, st: seq<string>) {
    forall i :: 0 <= i < |st| ==>
      && CleanSegment(st[i])
      && (st[i] == ".." ==> !rooted && forall j :: 0 <= j < i ==> st[j] == "..")
  }

  ghost predicate AllGood(segs: seq<string>) {
    NormalStack(true, segs)
  }

  /** "/a/b" for ["a", "b"]; the empty string for []. */
  function Abs(segs: seq<string>): string {
    if segs == [] then "" else "/" + segs[0] + Abs(segs[1..])
  }

  function Render(segs: seq<string>): string {
    if segs == [] then "/" else Abs(segs)
  }

  /** The segments that remain of a rooted path. */
  function Segments(p: string): seq<string> {
    Walk(true, Split(p, '/'), [])
  }

  predicate NormalRooted(p: string) {
    Rooted(p) && Clean(p) == p
  }

  lemma {:induction false} WalkNormal(rooted: bool, segs: seq<string>, st: seq<string>)
    requires NormalStack(rooted, st) && NoneContains(segs, '/')
    ensures NormalStack(rooted, Walk(rooted, segs, st))
    decreases |segs|
  {
    if segs != [] {
      var next := Step(rooted, st, segs[0]);
      StepNormal(rooted, st, segs[0]);
      WalkNormal(rooted, segs[1..], next);
    }
  }

  lemma StepNormal(rooted: bool, st: seq<string>, seg: string)
    requires NormalStack(rooted, st) && '/' !in seg
    ensures NormalStack(rooted, Step(rooted, st, seg))
  {
    if seg == ".." && !rooted && st != [] && st[|st| - 1] == ".." {
      assert forall j :: 0 <= j < |st| ==> st[j] == "..";
    }
  }

  lemma {:induction false} WalkAppends(rooted: bool, segs: seq<string>, st: seq<string>)
    requires NormalStack(rooted, st + segs)
    ensures Walk(rooted, segs, st) == st + segs
    decreases |segs|
  {
    if segs == [] {
      assert st + segs == st;
    } else {
      assert (st + segs)[|st|] == segs[0];
      assert st != [] ==> (st + segs)[|st| - 1] == st[|st| - 1];
      assert Step(rooted, st, segs[0]) == st + [segs[0]];
      assert st + [segs[0]] + segs[1..] == st + segs;
      WalkAppends(rooted, segs[1..], st + [segs[0]]);
    }
  }

  lemma {:induction false} WalkConcat(rooted: bool, a: seq<string>, b: seq<string>, st: seq<string>)
    ensures Walk(rooted, a + b, st) == Walk(rooted, b, Walk(rooted, a, st))
    decreases |a|
  {
    if a == [] {
      assert a + b == b;
    } else {
      assert (a + b)[1..] == a[1..] + b;
      WalkConcat(rooted, a[1..], b, Step(rooted, st, a[0]));
    }
  }

  lemma {:induction false} AbsJoin(segs: seq<string>)
    requires segs != []
    ensures Abs(segs) == "/" + Join(segs, '/')
  {
    if |segs| > 1 {
      AbsJoin(segs[1..]);
    } else {
      assert segs[1..] == [];
    }
  }

  lemma {:induction false} AbsConcat(a: seq<string>, b: seq<string>)
    ensures Abs(a + b) == Abs(a) + Abs(b)
  {
    if a == [] {
      assert a + b == b;
    } else {
      assert (a + b)[1..] == a[1..] + b;
      AbsConcat(a[1..], b);
    }
  }

  /** The segments of a rooted path are good and `Clean` renders them. */
  lemma CleanRooted(p: string)
    requires Rooted(p)
    ensures AllGood(Segments(p))
    ensures Clean(p) == Render(Segments(p))
  {
    SplitHasNoSeparator(p, '/');
    WalkNormal(true, Split(p, '/'), []);
    if Segments(p) != [] {
      AbsJoin(Segments(p));
    }
  }

  lemma SegmentsOfRender(segs: seq<string>)
    requires AllGood(segs)
    ensures Segments(Render(segs)) == segs
    ensures NormalRooted(Render(segs))
  {
    var p := Render(segs);
    if segs == [] {
      SplitAtSeparator("", "", '/');
      assert p == "" + ['/'] + "";
      assert Split(p, '/') == ["", ""];
      assert ["", ""][1..] == [""] && [""][1..] == [];
      assert Walk(true, Split(p, '/'), []) == [];
    } else {
      AbsJoin(segs);
      SplitJoin(segs, '/');
      assert p == "" + ['/'] + Join(segs, '/');
      SplitAtSeparator("", Join(segs, '/'), '/');
      assert Split(p, '/') == [""] + segs;
      assert ([""] + segs)[1..] == segs;
      assert [] + segs == segs;
      WalkAppends(true, segs, []);
    }
    CleanRooted(p);
  }

  /** Clean is idempotent on every string, rooted or relative. */
  lemma CleanIdempotent(p: string)
    ensures Clean(Clean(p)) == Clean(p)
    ensures Rooted(Clean(p)) == Rooted(p)
  {
    if Rooted(p) {
      CleanRooted(p);
      SegmentsOfRender(Segments(p));
    } else {
      SplitHasNoSeparator(p, '/');
      var st := Walk(false, Split(p, '/'), []);
      WalkNormal(false, Split(p, '/'), []);
      if p == "" || st == [] {
        SplitWithoutSeparator(".", '/');
        assert ["."][1..] == [];
      } else {
        SplitJoin(st, '/');
        WalkAppends(false, st, []);
        assert [] + st == st;
        assert Join(st, '/')[0] == st[0][0] != '/';
      }
    }
  }

  /** A rooted path is a fixed point of Clean exactly when it is rendered from good segments. */
  lemma NormalRootedIsRender(p: string)
    requires NormalRooted(p)
    ensures AllGood(Segments(p)) && p == Render(Segments(p))
  {
    CleanRooted(p);
  }

  /** Normal forms compose: a normal prefix in front of a normal path is normal. */
  lemma CleanConcat(prefix: string, p: string)
    requires NormalRooted(prefix) && prefix != "/"
    requires NormalRooted(p) && p != "/"
    ensures NormalRooted(prefix + p)
    ensures Segments(prefix + p) == Segments(prefix) + Segments(p)
  {
    NormalRootedIsRender(prefix);
    NormalRootedIsRender(p);
    var a, b := Segments(prefix), Segments(p);
    AbsConcat(a, b);
    assert NormalStack(true, a + b);
    SegmentsOfRender(a + b);
  }

  // ---- One path under another

  /** The test used all over the server: equal, or continued after a slash. */
  predicate Under(prefix: string, p: string) {
    p == prefix || HasPrefix(p, prefix + "/")
  }

  lemma NormalDoesNotEndInSlash(p: string)
    requires NormalRooted(p) && p != "/"
    ensures |p| >= 2 && p[|p| - 1] != '/'
  {
    NormalRootedIsRender(p);
    var segs := Segments(p);
    AbsConcat(segs[..|segs| - 1], segs[|segs| - 1..]);
    assert segs == segs[..|segs| - 1] + segs[|segs| - 1..];
    var last := segs[|segs| - 1];
    assert segs[|segs| - 1..] == [last] && [last][1..] == [];
    assert Abs([last]) == "/" + last;
    assert CleanSegment(last);
  }

  /** Paths that have one path under them both are themselves comparable. */
  lemma UnderComparable(a: string, b: string, q: string)
    requires Under(a, q) && Under(b, q)
    ensures Under(a, b) || Under(b, a)
  {
    var s := q + "/";
    assert a + "/" <= s && b + "/" <= s;
    if |a| <= |b| {
      PrefixesComparable(s, a + "/", b + "/");
      UnderBySlash(a, b);
    } else {
      PrefixesComparable(s, b + "/", a + "/");
      UnderBySlash(b, a);
    }
  }

  lemma UnderBySlash(a: string, b: string)
    ensures Under(a, b) <==> a + "/" <= b + "/"
  {
    if a + "/" <= b + "/" {
      if |a| == |b| {
        assert a == (b + "/")[..|a|] == b;
      } else {
        assert (b + "/")[..|a| + 1] == b[..|a| + 1];
      }
    }
    if Under(a, b) && a != b {
      assert b <= b + "/";
    }
  }

  lemma UnderTransitive(a: string, b: string, c: string)
    requires Under(a, b) && Under(b, c)
    ensures Under(a, c)
  {
    UnderBySlash(a, b);
    UnderBySlash(b, c);
    UnderBySlash(a, c);
  }

  /** On normal paths the character test is the test a reader has in mind: the segments of
      the one are the first segments of the other. */
  lemma UnderIsSegmentPrefix(a: string, b: string)
    requires NormalRooted(a) && a != "/" && NormalRooted(b)
    ensures Under(a, b) <==> Segments(a) <= Segments(b)
  {
    NormalRootedIsRender(a);
    NormalRootedIsRender(b);
    var s, t := Segments(a), Segments(b);
    if s <= t {
      assert t == s + t[|s|..];
      AbsConcat(s, t[|s|..]);
    }
    if Under(a, b) {
      UnderBySlash(a, b);
      NormalDoesNotEndInSlash(a);
      AbsPrefix(s, t);
    }
  }

  lemma {:induction false} AbsPrefix(s: seq<string>, t: seq<string>)
    requires AllGood(s) && AllGood(t)
    requires Abs(s) + "/" <= Abs(t) + "/"
    ensures s <= t
    decreases |s|
  {
    if s != [] {
      var x, y := "/" + s[0], "/" + t[0];
      var l, r := Abs(s[1..]) + "/", Abs(t[1..]) + "/";
      assert l[0] == '/' && r[0] == '/';
      assert Abs(s) + "/" == x + l && Abs(t) + "/" == y + r;
      SegmentDelimited(s[0], l, t[0], r);
      assert x + l <= x + r;
      assert l == (x + l)[|x|..] && r == (x + r)[|x|..];
      assert l <= r;
      assert forall i :: 0 <= i < |s[1..]| ==> s[1..][i] == s[i + 1];
      assert forall i :: 0 <= i < |t[1..]| ==> t[1..][i] == t[i + 1];
      AbsPrefix(s[1..], t[1..]);
      assert s == [s[0]] + s[1..] && t == [t[0]] + t[1..];
    }
  }

  lemma SegmentDelimited(a: string, l: string, b: string, r: string)
    requires '/' !in a && '/' !in b
    requires l != "" && l[0] == '/' && r != "" && r[0] == '/'
    requires "/" + a + l <= "/" + b + r
    ensures a == b
  {
    var u, v := "/" + a + l, "/" + b + r;
    assert forall i :: 0 <= i < |u| ==> u[i] == v[i];
    assert forall i :: 0 <= i < |a| ==> a[i] == u[i + 1];
    assert forall i :: 0 <= i < |b| ==> b[i] == v[i + 1];
    assert u[|a| + 1] == l[0] && v[|b| + 1] == r[0];
  }
}
