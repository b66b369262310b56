/** Allow- and denylist patterns over component paths. */
module PathPattern {
  import opened Text

  predicate MatchPattern(component: string, pattern: string) {
    if HasSuffix(pattern, "*") then HasPrefix(component, pattern[..|pattern| - 1])
    else component == pattern || HasPrefix(component, pattern + "/")
  }

  predicate MatchesAny(component: string, patterns: seq<string>) {
    exists i :: 0 <= i < |patterns| && MatchPattern(component, patterns[i])
  }

  /** The "/"-segments of a path. */
  function Segments(path: string): seq<string> {
    Split(path, '/')
  }

  ghost predicate LeadsPath(p: seq<string>, c: seq<string>) {
    |p| <= |c| && c[..|p|] == p
  }

  lemma SegmentsExtend(path: string, rest: string)
    ensures Segments(path + "/" + rest) == Segments(path) + Segments(rest)
  {
    var a, b := Segments(path), Segments(rest);
    JoinSplit(path, '/');
    JoinSplit(rest, '/');
    JoinAppend(a, b, '/');
    SplitWithout(path, '/');
    SplitWithout(rest, '/');
    SplitJoin(a + b, '/');
    assert path + "/" + rest == path + ['/'] + rest;
  }

  /** A pattern without a glob matches exactly the paths its segments lead. */
  lemma MatchesByLeadingSegments(component: string, pattern: string)
    requires !HasSuffix(pattern, "*")
    ensures MatchPattern(component, pattern) <==> LeadsPath(Segments(pattern), Segments(component))
  {
    var p, c := Segments(pattern), Segments(component);
    JoinSplit(pattern, '/');
    JoinSplit(component, '/');
    if HasPrefix(component, pattern + "/") {
      var rest := component[|pattern| + 1..];
      assert component == pattern + "/" + rest;
      SegmentsExtend(pattern, rest);
    }
    if LeadsPath(p, c) {
      if |p| == |c| {
        assert c == p;
      } else {
        assert c == p + c[|p|..];
        JoinAppend(p, c[|p|..], '/');
        assert component == pattern + ['/'] + Join(c[|p|..], ['/']);
        assert component[..|pattern| + 1] == pattern + "/";
      }
    }
  }

  lemma PathsTransitive(a: string, b: string, c: string)
    requires !HasSuffix(b, "*") && !HasSuffix(c, "*")
    requires MatchPattern(a, b) && MatchPattern(b, c)
    ensures MatchPattern(a, c)
  {
    MatchesByLeadingSegments(a, b);
    MatchesByLeadingSegments(b, c);
    MatchesByLeadingSegments(a, c);
    var sa, sb, sc := Segments(a), Segments(b), Segments(c);
    assert sa[..|sc|] == sa[..|sb|][..|sc|];
  }

  lemma PrefixesChain(a: string, b: string, c: string)
    requires HasPrefix(a, b) && HasPrefix(b, c)
    ensures HasPrefix(a, c)
  {
    assert a[..|c|] == a[..|b|][..|c|];
  }

  /** What a pattern matches begins with the pattern, up to its star. */
  lemma MatchBegins(component: string, pattern: string)
    requires MatchPattern(component, pattern)
    ensures HasPrefix(component, if HasSuffix(pattern, "*") then pattern[..|pattern| - 1] else pattern)
  {
    if !HasSuffix(pattern, "*") && component != pattern {
      assert component[..|pattern|] == component[..|pattern| + 1][..|pattern|];
    }
  }

  lemma EndsWithStar(s: string)
    ensures HasSuffix(s, "*") <==> s != "" && s[|s| - 1] == '*'
  {
    assert s != "" ==> s[|s| - 1..][0] == s[|s| - 1];
  }

  /** A text with a star behind it begins with a shorter one only if that is the text without the star's. */
  lemma StarlessPrefix(b: string, p: string)
    requires HasSuffix(b, "*") && HasPrefix(b, p) && p != b
    ensures HasPrefix(b[..|b| - 1], p)
  {
    assert b[..|b| - 1][..|p|] == b[..|p|];
  }

  /**
   Matching is transitive for all patterns but one: a glob taken as a component matches itself with
   another star behind it, and what it matches does so too only if it begins with the glob itself.
   */
  lemma MatchTransitiveExactly(a: string, b: string, c: string)
    requires MatchPattern(a, b) && MatchPattern(b, c)
    ensures MatchPattern(a, c) <==> !(HasSuffix(b, "*") && c == b + "*") || HasPrefix(a, b)
  {
    EndsWithStar(b);
    EndsWithStar(c);
    if HasSuffix(b, "*") && c == b + "*" {
      assert c[..|c| - 1] == b;
    } else if !HasSuffix(b, "*") {
      if HasSuffix(c, "*") {
        MatchBegins(a, b);
        PrefixesChain(a, b, c[..|c| - 1]);
      } else {
        PathsTransitive(a, b, c);
      }
    } else {
      GlobTransitive(a, b, c);
    }
  }

  lemma GlobTransitive(a: string, b: string, c: string)
    requires HasSuffix(b, "*") && c != b + "*" && MatchPattern(a, b) && MatchPattern(b, c)
    ensures MatchPattern(a, c)
  {
    EndsWithStar(b);
    EndsWithStar(c);
    var stub := b[..|b| - 1];
    if HasSuffix(c, "*") {
      var p := c[..|c| - 1];
      assert c == p + "*";
      StarlessPrefix(b, p);
      PrefixesChain(a, stub, p);
    } else {
      assert b != c;
      assert (c + "/")[|c|] == '/' && b[..|c| + 1][|c|] == b[|c|];
      StarlessPrefix(b, c + "/");
      PrefixesChain(a, stub, c + "/");
    }
  }

  /** "xy" matches "x*" and that matches "x**", but "xy" does not. */
  lemma StarsDoNotChain()
    ensures MatchPattern("xy", "x*") && MatchPattern("x*", "x**") && !MatchPattern("xy", "x**")
  {
    EndsWithStar("x*");
    EndsWithStar("x**");
    assert "x*"[..1] == "x" && "xy"[..1] == "x" && "x**"[..2] == "x*" && "x*"[..2] == "x*";
    MatchTransitiveExactly("xy", "x*", "x**");
    assert "xy"[..2][1] == 'y';
  }

  /** Whatever lies below a matching component matches too, globs included. */
  lemma MatchDownwardClosed(component: string, below: string, pattern: string)
    requires MatchPattern(component, pattern)
    ensures MatchPattern(component + "/" + below, pattern)
  {
    var longer := component + "/" + below;
    if HasSuffix(pattern, "*") {
      assert longer[..|pattern| - 1] == component[..|pattern| - 1];
    } else if component == pattern {
      assert longer[..|pattern| + 1] == pattern + "/";
    } else {
      assert longer[..|pattern| + 1] == component[..|pattern| + 1];
    }
  }

  /** `p` leads `c`, where of its last segment only the beginning need agree. */
  ghost predicate LeadsStub(p: seq<string>, c: seq<string>)
    requires p != []
  {
    var n := |p| - 1;
    n < |c| && c[..n] == p[..n] && HasPrefix(c[n], p[n])
  }

  lemma PrefixTail(c: string, p: string)
    requires c != "" && p != ""
    ensures HasPrefix(c, p) <==> c[0] == p[0] && HasPrefix(c[1..], p[1..])
  {
    if HasPrefix(c, p) {
      assert c[..|p|][0] == p[0] && c[..|p|][1..] == p[1..];
      assert c[1..][..|p| - 1] == c[..|p|][1..];
    }
    if c[0] == p[0] && HasPrefix(c[1..], p[1..]) {
      assert c[..|p|] == [c[0]] + c[1..][..|p| - 1];
      assert p == [p[0]] + p[1..];
    }
  }

  lemma LeadsStubBehind(p: seq<string>, c: seq<string>)
    requires p != [] && c != []
    ensures LeadsStub([""] + p, [""] + c) <==> LeadsStub(p, c)
  {
    var n := |p| - 1;
    if n < |c| {
      assert ([""] + c)[..n + 1] == [""] + c[..n] && ([""] + p)[..n + 1] == [""] + p[..n];
      if [""] + c[..n] == [""] + p[..n] {
        assert ([""] + c[..n])[1..] == ([""] + p[..n])[1..];
      }
    }
  }

  lemma LeadsStubLonger(x: char, p: seq<string>, c: seq<string>)
    requires p != [] && c != []
    ensures LeadsStub([[x] + p[0]] + p[1..], [[x] + c[0]] + c[1..]) <==> LeadsStub(p, c)
  {
    var n := |p| - 1;
    var p', c' := [[x] + p[0]] + p[1..], [[x] + c[0]] + c[1..];
    if n == 0 {
      PrefixTail([x] + c[0], [x] + p[0]);
      assert ([x] + c[0])[1..] == c[0] && ([x] + p[0])[1..] == p[0];
    } else if n < |c| {
      assert c'[n] == c[n] && p'[n] == p[n];
      SameHeads(x, p[..n], c[..n]);
      assert p'[..n] == [[x] + p[..n][0]] + p[..n][1..] && c'[..n] == [[x] + c[..n][0]] + c[..n][1..];
    }
  }

  lemma SameHeads(x: char, p: seq<string>, c: seq<string>)
    requires p != [] && c != []
    ensures [[x] + p[0]] + p[1..] == [[x] + c[0]] + c[1..] <==> p == c
  {
    var p', c' := [[x] + p[0]] + p[1..], [[x] + c[0]] + c[1..];
    if p' == c' {
      assert p[0] == p'[0][1..] && c[0] == c'[0][1..];
      assert p[1..] == p'[1..] && c[1..] == c'[1..];
      assert p == [p[0]] + p[1..] && c == [c[0]] + c[1..];
    }
  }

  lemma {:induction false} PrefixBySegments(c: string, p: string)
    ensures HasPrefix(c, p) <==> LeadsStub(Segments(p), Segments(c))
  {
    if p != "" && c != "" {
      PrefixTail(c, p);
      if p[0] == c[0] {
        PrefixBySegments(c[1..], p[1..]);
        if p[0] == '/' {
          LeadsStubBehind(Segments(p[1..]), Segments(c[1..]));
        } else {
          LeadsStubLonger(p[0], Segments(p[1..]), Segments(c[1..]));
        }
      } else {
        FirstsDiffer(c, p);
      }
    }
  }

  lemma StubFirst(p: seq<string>, c: seq<string>)
    requires p != [] && LeadsStub(p, c)
    ensures |p| > 1 ==> c[0] == p[0]
    ensures p[0] != "" ==> c[0] != "" && c[0][0] == p[0][0]
  {
    if |p| > 1 {
      assert c[..|p| - 1][0] == p[..|p| - 1][0];
    } else {
      assert c[0][..|p[0]|] == p[0];
    }
  }

  lemma FirstsDiffer(c: string, p: string)
    requires p != "" && c != "" && p[0] != c[0]
    ensures !LeadsStub(Segments(p), Segments(c))
  {
    var ps, cs := Segments(p), Segments(c);
    assert p[0] != '/' ==> ps[0] != "" && ps[0][0] == p[0];
    assert c[0] != '/' ==> cs[0] != "" && cs[0][0] == c[0];
    assert p[0] == '/' ==> ps[0] == "" && |ps| >= 2;
    assert c[0] == '/' ==> cs[0] == "";
    if LeadsStub(ps, cs) {
      StubFirst(ps, cs);
    }
  }

  /** A glob matches exactly the paths that its segments lead, the last of them up to its star. */
  lemma GlobMatchesByStub(component: string, pattern: string)
    requires HasSuffix(pattern, "*")
    ensures MatchPattern(component, pattern) <==> LeadsStub(Segments(pattern[..|pattern| - 1]), Segments(component))
  {
    PrefixBySegments(component, pattern[..|pattern| - 1]);
  }

  /** A directory with a star behind its slash matches exactly what lies below the directory. */
  lemma GlobMatchesBelow(component: string, dir: string)
    ensures MatchPattern(component, dir + "/*") <==> LeadsPath(Segments(dir), Segments(component)) && |Segments(dir)| < |Segments(component)|
  {
    var pattern, d, c := dir + "/*", Segments(dir), Segments(component);
    assert pattern[|pattern| - 1..] == "*" && pattern[..|pattern| - 1] == dir + "/" + "";
    GlobMatchesByStub(component, pattern);
    SegmentsExtend(dir, "");
    assert Segments("") == [""];
    assert (d + [""])[..|d|] == d;
  }

  datatype Config = Config(allowlist: seq<string>, denylist: seq<string>)

  /** Denied components stay out; of the others those of the manifest or the allowlist come in. */
  predicate ShouldInclude(component: string, manifest: set<string>, cfg: Config) {
    if MatchesAny(component, cfg.denylist) then false
    else component in manifest || MatchesAny(component, cfg.allowlist)
  }

  /** Denying a component denies all below it, even where the manifest or the allowlist names it. */
  lemma DenialIsInherited(component: string, below: string, manifest: set<string>, cfg: Config)
    requires MatchesAny(component, cfg.denylist)
    ensures !ShouldInclude(component + "/" + below, manifest, cfg)
  {
    var i :| 0 <= i < |cfg.denylist| && MatchPattern(component, cfg.denylist[i]);
    MatchDownwardClosed(component, below, cfg.denylist[i]);
  }

  /** What a pattern covers, by the segments of the component. */
  ghost predicate Covers(pattern: string, c: seq<string>) {
    if HasSuffix(pattern, "*") then LeadsStub(Segments(pattern[..|pattern| - 1]), c) else LeadsPath(Segments(pattern), c)
  }

  ghost predicate CoveredBy(patterns: seq<string>, c: seq<string>) {
    exists i :: 0 <= i < |patterns| && Covers(patterns[i], c)
  }

  lemma MatchesByCover(component: string, pattern: string)
    ensures MatchPattern(component, pattern) <==> Covers(pattern, Segments(component))
  {
    if HasSuffix(pattern, "*") {
      GlobMatchesByStub(component, pattern);
    } else {
      MatchesByLeadingSegments(component, pattern);
    }
  }

  lemma MatchesAnyByCover(component: string, patterns: seq<string>)
    ensures MatchesAny(component, patterns) <==> CoveredBy(patterns, Segments(component))
  {
    forall i | 0 <= i < |patterns|
      ensures MatchPattern(component, patterns[i]) <==> Covers(patterns[i], Segments(component))
    {
      MatchesByCover(component, patterns[i]);
    }
  }

  /** A component is included exactly when no denied pattern covers it and it is in the manifest or an allowed one covers it. */
  lemma IncludedBySegments(component: string, manifest: set<string>, cfg: Config)
    ensures ShouldInclude(component, manifest, cfg) <==>
            !CoveredBy(cfg.denylist, Segments(component))
            && (component in manifest || CoveredBy(cfg.allowlist, Segments(component)))
  {
    MatchesAnyByCover(component, cfg.denylist);
    MatchesAnyByCover(component, cfg.allowlist);
  }
}
