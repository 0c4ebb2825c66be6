/** The rules by which Go documents `path.Clean`: applied wherever they match, with the normal forms
    that they end in, they determine it. */
module CleanRules {
  import opened GoStrings
  import opened Paths

  /** What may follow a segment: nothing, or a slash and more. */
  predicate Continues(b: string) {
    b == "" || Rooted(b)
  }

  function Tail(b: string): seq<string>
    requires Continues(b)
  {
    if b == "" then [] else Split(b[1..], '/')
  }

  lemma SplitTail(a: string, b: string)
    requires Continues(b)
    ensures Split(a + b, '/') == Split(a, '/') + Tail(b)
  {
    if b == "" {
      assert a + b == a;
    } else {
      assert a + b == a + ['/'] + b[1..];
      SplitAtSeparator(a, b[1..], '/');
    }
  }

  lemma SplitInserted(a: string, m: string, b: string)
    requires Continues(b)
    ensures Split(a + "/" + m + b, '/') == Split(a, '/') + Split(m, '/') + Tail(b)
  {
    assert a + "/" + m == a + ['/'] + m;
    SplitAtSeparator(a, m, '/');
    SplitTail(a + "/" + m, b);
  }

  /** What is left of a path when something is taken out of it: of a rooted one the root stays. */
  function Left(s: string): string {
    if s == "" then "/" else s
  }

  /** The stack after a, when something with a slash in front follows. */
  function StackOf(a: string): seq<string> {
    Walk(AtRoot(a), Split(a, '/'), [])
  }

  predicate AtRoot(a: string) {
    a == "" || Rooted(a)
  }

  /** What stands behind a slash can go if it leaves the stack as it was. */
  lemma Reduces(a: string, m: string, b: string)
    requires Continues(b) && Walk(AtRoot(a), Split(m, '/'), StackOf(a)) == StackOf(a)
    ensures Clean(a + "/" + m + b) == Clean(Left(a + b))
  {
    StackInserted(a, m, b);
    StackTail(a, b);
    if a + b == "" {
      SegmentsOfRender([]);
      OneStep(true, "", []);
    } else {
      assert AtRoot(a) == Rooted(a + b);
    }
  }

  lemma StackInserted(a: string, m: string, b: string)
    requires Continues(b) && Walk(AtRoot(a), Split(m, '/'), StackOf(a)) == StackOf(a)
    ensures Walk(AtRoot(a), Split(a + "/" + m + b, '/'), []) == Walk(AtRoot(a), Tail(b), StackOf(a))
  {
    var u, w := Split(a, '/'), Split(m, '/');
    SplitInserted(a, m, b);
    WalkConcat(AtRoot(a), u + w, Tail(b), []);
    WalkConcat(AtRoot(a), u, w, []);
  }

  lemma StackTail(a: string, b: string)
    requires Continues(b)
    ensures Walk(AtRoot(a), Split(a + b, '/'), []) == Walk(AtRoot(a), Tail(b), StackOf(a))
  {
    SplitTail(a, b);
    WalkConcat(AtRoot(a), Split(a, '/'), Tail(b), []);
  }

  lemma OneStep(rooted: bool, seg: string, st: seq<string>)
    ensures Walk(rooted, [seg], st) == Step(rooted, st, seg)
  {
    assert [seg][1..] == [];
  }

  lemma UpUndoes(rooted: bool, x: string, st: seq<string>)
    requires CleanSegment(x) && x != ".."
    ensures Walk(rooted, [x, ".."], st) == st
  {
    assert [x, ".."] == [x] + [".."];
    WalkConcat(rooted, [x], [".."], st);
    OneStep(rooted, x, st);
    OneStep(rooted, "..", st + [x]);
  }

  lemma SplitUp(x: string)
    requires '/' !in x
    ensures Split(x + "/..", '/') == [x, ".."]
  {
    assert x + "/.." == x + ['/'] + "..";
    SplitAtSeparator(x, "..", '/');
    SplitWithoutSeparator(x, '/');
    SplitWithoutSeparator("..", '/');
  }

  /** Rule 1: several slashes count as one, and one at the end as none. */
  lemma SlashesCollapse(a: string, b: string)
    requires Continues(b)
    ensures Clean(a + "/" + b) == Clean(Left(a + b))
  {
    OneStep(AtRoot(a), "", StackOf(a));
    Reduces(a, "", b);
    assert a + "/" + "" + b == a + "/" + b;
  }

  /** Rule 2: a "." segment goes. */
  lemma DotGoes(a: string, b: string)
    requires Continues(b)
    ensures Clean(a + "/." + b) == Clean(Left(a + b))
  {
    SplitWithoutSeparator(".", '/');
    OneStep(AtRoot(a), ".", StackOf(a));
    Reduces(a, ".", b);
    assert a + "/" + "." + b == a + "/." + b;
  }

  /** Rule 3: a ".." segment goes together with the segment before it. */
  lemma UpGoes(a: string, x: string, b: string)
    requires Continues(b) && CleanSegment(x) && x != ".."
    ensures Clean(a + "/" + x + "/.." + b) == Clean(Left(a + b))
  {
    SplitUp(x);
    UpUndoes(AtRoot(a), x, StackOf(a));
    Reduces(a, x + "/..", b);
    assert a + "/" + (x + "/..") + b == a + "/" + x + "/.." + b;
  }

  /** Rule 4: a ".." segment at the root goes. */
  lemma UpAtRootGoes(b: string)
    requires Continues(b)
    ensures Clean("/.." + b) == Clean(Left(b))
  {
    SplitWithoutSeparator("..", '/');
    OneStep(true, "", []);
    OneStep(true, "..", []);
    Reduces("", "..", b);
    assert "" + "/" + ".." + b == "/.." + b && "" + b == b;
  }

  // ---- Rules at the front of a relative path

  lemma Leading(m: string, r: string)
    requires m != "" && !Rooted(m) && r != "" && !Rooted(r)
    requires Walk(false, Split(m, '/'), []) == []
    ensures Clean(m + "/" + r) == Clean(r)
  {
    assert m + "/" + r == m + ['/'] + r;
    SplitAtSeparator(m, r, '/');
    WalkConcat(false, Split(m, '/'), Split(r, '/'), []);
  }

  lemma LeadingDotGoes(r: string)
    requires r != "" && !Rooted(r)
    ensures Clean("./" + r) == Clean(r)
  {
    SplitWithoutSeparator(".", '/');
    OneStep(false, ".", []);
    Leading(".", r);
    assert "." + "/" + r == "./" + r;
  }

  lemma LeadingUpGoes(x: string, r: string)
    requires CleanSegment(x) && x != ".." && r != "" && !Rooted(r)
    ensures Clean(x + "/../" + r) == Clean(r) && Clean(x + "/..") == "."
  {
    SplitUp(x);
    UpUndoes(false, x, []);
    Leading(x + "/..", r);
    assert (x + "/..") + "/" + r == x + "/../" + r;
  }

  // ---- What cannot be reduced

  /** The normal forms: "/" and "/a/b" with good segments, "." for nothing, and relative paths that
      climb at the front only. */
  lemma NormalFormsStay(segs: seq<string>, relative: seq<string>)
    requires AllGood(segs) && NormalStack(false, relative)
    ensures Clean(Render(segs)) == Render(segs)
    ensures relative != [] ==> Clean(Join(relative, '/')) == Join(relative, '/')
    ensures Clean("") == Clean(".") == "."
  {
    SegmentsOfRender(segs);
    SplitWithoutSeparator(".", '/');
    OneStep(false, ".", []);
    if relative != [] {
      SplitJoin(relative, '/');
      assert [] + relative == relative;
      WalkAppends(false, relative, []);
      assert Join(relative, '/')[0] == relative[0][0];
    }
  }

  // ---- The rules determine it

  predicate Rule1(f: string -> string, a: string, b: string) {
    f(a + "/" + b) == f(Left(a + b))
  }

  predicate Rule2(f: string -> string, a: string, b: string) {
    f(a + "/." + b) == f(Left(a + b))
  }

  predicate Rule3(f: string -> string, a: string, x: string, b: string) {
    f(a + "/" + x + "/.." + b) == f(Left(a + b))
  }

  predicate Rule4(f: string -> string, b: string) {
    f("/.." + b) == f(Left(b))
  }

  predicate Keeps(f: string -> string, segs: seq<string>) {
    f(Render(segs)) == Render(segs)
  }

  /** A function on rooted paths that follows the four rules and leaves the normal forms alone. */
  ghost predicate Follows(f: string -> string) {
    && (forall a, b :: Continues(a) && Continues(b) ==> Rule1(f, a, b))
    && (forall a, b :: Continues(a) && Continues(b) ==> Rule2(f, a, b))
    && (forall a, x, b :: Continues(a) && Continues(b) && CleanSegment(x) && x != ".." ==> Rule3(f, a, x, b))
    && (forall b :: Continues(b) ==> Rule4(f, b))
    && (forall segs :: AllGood(segs) ==> Keeps(f, segs))
  }

  lemma CleanFollows()
    ensures Follows(Clean)
  {
    forall a, b | Continues(a) && Continues(b) ensures Rule1(Clean, a, b) && Rule2(Clean, a, b) {
      SlashesCollapse(a, b);
      DotGoes(a, b);
    }
    forall a, x, b | Continues(a) && Continues(b) && CleanSegment(x) && x != ".." ensures Rule3(Clean, a, x, b) {
      UpGoes(a, x, b);
    }
    forall b | Continues(b) ensures Rule4(Clean, b) {
      UpAtRootGoes(b);
    }
    forall segs | AllGood(segs) ensures Keeps(Clean, segs) {
      SegmentsOfRender(segs);
    }
  }

  lemma AbsContinues(segs: seq<string>)
    ensures Continues(Abs(segs)) && (segs == [] <==> Abs(segs) == "")
  {
    if segs != [] {
      assert Abs(segs)[0] == '/';
    }
  }

  /** Whatever follows the rules takes any segments behind good ones to what the walk leaves. */
  lemma {:induction false} FollowsWalk(f: string -> string, st: seq<string>, rest: seq<string>)
    requires Follows(f) && AllGood(st) && NoneContains(rest, '/')
    ensures f(Left(Abs(st) + Abs(rest))) == Render(Walk(true, rest, st))
    decreases |rest|
  {
    AbsContinues(st);
    AbsContinues(rest);
    if rest == [] {
      assert Abs(st) + Abs(rest) == Abs(st);
      assert Keeps(f, st);
    } else {
      FollowsStep(f, st, rest[0], rest[1..]);
      assert Abs(st) + Abs(rest) != "";
      StepNormal(true, st, rest[0]);
      FollowsWalk(f, Step(true, st, rest[0]), rest[1..]);
    }
  }

  lemma FollowsStep(f: string -> string, st: seq<string>, seg: string, rest: seq<string>)
    requires Follows(f) && AllGood(st) && '/' !in seg
    ensures f(Abs(st) + ("/" + seg + Abs(rest))) == f(Left(Abs(Step(true, st, seg)) + Abs(rest)))
  {
    var a, b := Abs(st), Abs(rest);
    AbsContinues(st);
    AbsContinues(rest);
    if seg == "" {
      SlashStep(f, a, b);
    } else if seg == "." {
      DotStep(f, a, b);
    } else if seg == ".." {
      UpStep(f, st, b);
    } else {
      GoodStep(st, seg, b);
    }
  }

  lemma SlashStep(f: string -> string, a: string, b: string)
    requires Follows(f) && Continues(a) && Continues(b)
    ensures f(a + ("/" + "" + b)) == f(Left(a + b))
  {
    assert Rule1(f, a, b);
    assert a + ("/" + "" + b) == a + "/" + b;
  }

  lemma DotStep(f: string -> string, a: string, b: string)
    requires Follows(f) && Continues(a) && Continues(b)
    ensures f(a + ("/" + "." + b)) == f(Left(a + b))
  {
    assert Rule2(f, a, b);
    assert a + ("/" + "." + b) == a + "/." + b;
  }

  lemma GoodStep(st: seq<string>, seg: string, b: string)
    ensures Abs(st) + ("/" + seg + b) == Left(Abs(st + [seg]) + b)
  {
    AbsConcat(st, [seg]);
    assert [seg][1..] == [];
    assert Abs([seg]) == "/" + seg;
    assert Abs(st) + ("/" + seg + b) == (Abs(st) + ("/" + seg)) + b;
    assert |Abs(st + [seg]) + b| > 0;
  }

  lemma UpStep(f: string -> string, st: seq<string>, b: string)
    requires Follows(f) && AllGood(st) && Continues(b)
    ensures f(Abs(st) + ("/" + ".." + b)) == f(Left(Abs(Step(true, st, "..")) + b))
  {
    if st == [] {
      assert Rule4(f, b);
      assert Abs(st) + ("/" + ".." + b) == "/.." + b;
      assert Abs(st) + b == b;
    } else {
      var front, x := st[..|st| - 1], st[|st| - 1];
      LastSegment(front, x, b);
      AbsContinues(front);
      assert st == front + [x];
      assert Rule3(f, Abs(front), x, b);
    }
  }

  lemma LastSegment(front: seq<string>, x: string, b: string)
    ensures Abs(front + [x]) + ("/" + ".." + b) == Abs(front) + "/" + x + "/.." + b
  {
    AbsConcat(front, [x]);
    assert [x][1..] == [];
  }

  /** There is one function on rooted paths that follows the rules, and it is path.Clean. */
  lemma RulesDetermine(f: string -> string, p: string)
    requires Follows(f) && Rooted(p)
    ensures f(p) == Clean(p)
  {
    var parts := Split(p[1..], '/');
    assert p == "" + ['/'] + p[1..];
    SplitAtSeparator("", p[1..], '/');
    SplitHasNoSeparator(p[1..], '/');
    JoinSplit(p[1..], '/');
    AbsJoin(parts);
    assert p == "/" + Join(parts, '/') == Left(Abs([]) + Abs(parts));
    FollowsWalk(f, [], parts);
    WalkConcat(true, [""], parts, []);
    OneStep(true, "", []);
    CleanRooted(p);
  }
}
