/**
 The marker comments of the changelog scaffold, where they can occur, and replacing them.
 */
module Markers {
  import opened Options
  import opened Text

  /** What all markers begin with; the character behind it tells them apart. */
  const LEAD := "<!-- upstream-"

  const START := LEAD + "start -->"
  const END := LEAD + "end -->"
  const VERSION := LEAD + "version -->"
  const VERSIONS := LEAD + "collector-versions -->"
  const BREAKING := LEAD + "breaking-changes -->"
  const OTHER := LEAD + "other-changes -->"

  ghost predicate IsMarker(m: string) {
    && |m| > |LEAD| && (forall k :: 0 <= k < |LEAD| ==> m[k] == LEAD[k]) && m[|m| - 1] == '>'
    && (forall k :: 0 < k < |m| ==> m[k] != '<')
    && (forall k :: 0 <= k < |m| ==> m[k] != '\n')
  }

  ghost predicate MarkersApart(m: string, t: string) {
    m == t || (|m| > |LEAD| && |t| > |LEAD| && m[|LEAD|] != t[|LEAD|])
  }

  lemma LeadsMarker(w: string)
    requires w != "" && w[|w| - 1] == '>' && '\n' !in w && '<' !in w
    ensures IsMarker(LEAD + w) && (LEAD + w)[|LEAD|] == w[0]
  {
    var m := LEAD + w;
    assert forall k :: 0 < k < |LEAD| ==> LEAD[k] != '<';
    assert '\n' !in LEAD;
    assert forall k :: |LEAD| <= k < |m| ==> m[k] == w[k - |LEAD|] && m[k] in w;
  }

  /** The markers as they stand in the changelog's template. */
  lemma MarkersSpelled()
    ensures START == "<!-- upstream-start -->" && END == "<!-- upstream-end -->" && VERSION == "<!-- upstream-version -->"
    ensures VERSIONS == "<!-- upstream-collector-versions -->" && BREAKING == "<!-- upstream-breaking-changes -->"
    ensures OTHER == "<!-- upstream-other-changes -->"
  {
    BoundariesSpelled();
    VersionsSpelled();
    ChangesSpelled();
  }

  lemma BoundariesSpelled()
    ensures START == "<!-- upstream-start -->" && END == "<!-- upstream-end -->"
  {
  }

  lemma VersionsSpelled()
    ensures VERSION == "<!-- upstream-version -->" && VERSIONS == "<!-- upstream-collector-versions -->"
  {
  }

  lemma ChangesSpelled()
    ensures BREAKING == "<!-- upstream-breaking-changes -->" && OTHER == "<!-- upstream-other-changes -->"
  {
  }

  lemma StartIsMarker()
    ensures |START| == 23 && IsMarker(START) && START[|LEAD|] == 's'
  {
    LeadsMarker("start -->");
  }

  lemma EndIsMarker()
    ensures |END| == 21 && IsMarker(END) && END[|LEAD|] == 'e'
  {
    LeadsMarker("end -->");
  }

  lemma VersionIsMarker()
    ensures |VERSION| == 25 && IsMarker(VERSION) && VERSION[|LEAD|] == 'v'
  {
    LeadsMarker("version -->");
  }

  lemma VersionsIsMarker()
    ensures |VERSIONS| == 36 && IsMarker(VERSIONS) && VERSIONS[|LEAD|] == 'c'
  {
    LeadsMarker("collector-versions -->");
  }

  lemma BreakingIsMarker()
    ensures |BREAKING| == 34 && IsMarker(BREAKING) && BREAKING[|LEAD|] == 'b'
  {
    LeadsMarker("breaking-changes -->");
  }

  lemma OtherIsMarker()
    ensures |OTHER| == 31 && IsMarker(OTHER) && OTHER[|LEAD|] == 'o'
  {
    LeadsMarker("other-changes -->");
  }

  lemma MarkersAreMarkers()
    ensures IsMarker(START) && IsMarker(END) && IsMarker(VERSION) && IsMarker(VERSIONS) && IsMarker(BREAKING) && IsMarker(OTHER)
    ensures START[|LEAD|] == 's' && END[|LEAD|] == 'e' && VERSION[|LEAD|] == 'v'
    ensures VERSIONS[|LEAD|] == 'c' && BREAKING[|LEAD|] == 'b' && OTHER[|LEAD|] == 'o'
  {
    StartIsMarker();
    EndIsMarker();
    VersionIsMarker();
    VersionsIsMarker();
    BreakingIsMarker();
    OtherIsMarker();
  }

  // ---------------------------------------------------------------- where a marker can occur

  lemma OccurrenceChars(s: string, m: string, i: nat)
    requires OccursAt(s, m, i)
    ensures forall k :: 0 <= k < |m| ==> s[i + k] == m[k]
  {
    forall k | 0 <= k < |m|
      ensures s[i + k] == m[k]
    {
      assert s[i..i + |m|][k] == s[i + k];
    }
  }

  lemma OccursByChars(s: string, m: string, i: nat)
    requires i + |m| <= |s| && forall k :: 0 <= k < |m| ==> s[i + k] == m[k]
    ensures OccursAt(s, m, i)
  {
  }

  /** Next to a marker an occurrence of a marker lies wholly before it, at it, or wholly behind it. */
  lemma OccursBeside(x: string, t: string, y: string, m: string, i: nat)
    requires IsMarker(t) && IsMarker(m) && OccursAt(x + t + y, m, i)
    ensures || OccursAt(x, m, i)
            || (i == |x| && (MarkersApart(m, t) ==> m == t))
            || (i >= |x| + |t| && OccursAt(y, m, i - |x| - |t|))
  {
    var s := x + t + y;
    OccurrenceChars(s, m, i);
    assert forall k :: 0 <= k < |t| ==> s[|x| + k] == t[k];
    assert s[|x|] == t[0] == LEAD[0] == '<' && s[i] == m[0] == '<';
    if i + |m| <= |x| {
      OccursByChars(x, m, i);
    } else if i < |x| {
      assert false;
    } else if i == |x| {
    } else if i < |x| + |t| {
      assert false;
    } else {
      OccursByChars(y, m, i - |x| - |t|);
    }
  }

  lemma NotBeside(p: string, t: string, w: string, m: string)
    requires IsMarker(m) && IsMarker(t) && m != t && MarkersApart(m, t) && !Contains(p, m) && !Contains(w, m)
    ensures !Contains(p + t + w, m)
  {
    forall i | 0 <= i <= |p + t + w|
      ensures !OccursAt(p + t + w, m, i)
    {
      if OccursAt(p + t + w, m, i) {
        OccursBeside(p, t, w, m, i);
      }
    }
  }

  // ---------------------------------------------------------------- texts that quote no marker

  /** No marker spans a seam with nothing on one side, a line break, or a marker's beginning behind it. */
  predicate Seam(a: string, b: string) {
    a == "" || b == "" || a[|a| - 1] == '\n' || b[0] == '\n' || b[0] == '<'
  }

  lemma FreeAppend(a: string, b: string, m: string)
    requires IsMarker(m) && Seam(a, b) && !Contains(a, m) && !Contains(b, m)
    ensures !Contains(a + b, m)
  {
    var s := a + b;
    assert a != "" ==> s[|a| - 1] == a[|a| - 1];
    assert b != "" ==> s[|a|] == b[0];
    forall i | 0 <= i <= |s|
      ensures !OccursAt(s, m, i)
    {
      if OccursAt(s, m, i) {
        OccurrenceSpan(s, m, i);
        if i + |m| <= |a| {
          OccursByChars(a, m, i);
        } else if |a| <= i {
          OccursByChars(b, m, i - |a|);
        }
      }
    }
  }

  lemma OccurrenceSpan(s: string, m: string, i: nat)
    requires OccursAt(s, m, i)
    ensures forall n :: i <= n < i + |m| ==> s[n] == m[n - i]
  {
    OccurrenceChars(s, m, i);
    assert forall n :: i <= n < i + |m| ==> s[n] == s[i + (n - i)];
  }

  lemma FreePart(s: string, i: nat, j: nat, m: string)
    requires i <= j <= |s| && !Contains(s, m)
    ensures !Contains(s[i..j], m)
  {
    forall k | 0 <= k <= j - i
      ensures !OccursAt(s[i..j], m, k)
    {
      if OccursAt(s[i..j], m, k) {
        SliceOfSlice(s, i, j, k, k + |m|);
        assert OccursAt(s, m, i + k);
      }
    }
  }

  lemma Between(u: string, m: string, v: string)
    ensures Contains(u + m + v, m)
  {
    assert OccursAt(u + m + v, m, |u|);
  }

  lemma OnlyBetween(x: string, m: string, y: string)
    requires IsMarker(m) && !Contains(x, m) && !Contains(y, m)
    ensures OnlyAt(x + m + y, m, |x|)
  {
    var s := x + m + y;
    forall i | 0 <= i <= |s|
      ensures OccursAt(s, m, i) <==> i == |x|
    {
      if OccursAt(s, m, i) {
        OccursBeside(x, m, y, m, i);
        assert i + |m| <= |s|;
      }
      if i == |x| {
        assert s[i..i + |m|] == m;
      }
    }
  }

  // ---------------------------------------------------------------- replacing

  /** strings.ReplaceAll for a non-empty `was`. */
  function ReplaceAll(s: string, was: string, now: string): string
    requires was != ""
  {
    match Index(s, was)
    case None => s
    case Some(i) => s[..i] + now + ReplaceAll(s[i + |was|..], was, now)
  }

  lemma {:induction false} FirstAt(s: string, m: string, n: nat, i: nat)
    requires i <= n <= |s| && OccursAt(s, m, n) && forall j :: i <= j < n ==> !OccursAt(s, m, j)
    ensures IndexFrom(s, m, i) == Some(n)
  {
  }

  ghost predicate OnlyAt(s: string, m: string, n: nat) {
    forall i :: 0 <= i <= |s| ==> (OccursAt(s, m, i) <==> i == n)
  }

  lemma SliceOfSlice(s: string, i: nat, j: nat, a: nat, b: nat)
    requires i <= j <= |s| && a <= b <= j - i
    ensures s[i..j][a..b] == s[i + a..i + b]
  {
    var x, y := s[i..j][a..b], s[i + a..i + b];
    assert forall k :: 0 <= k < b - a ==> x[k] == s[i + a + k] == y[k];
  }

  lemma PartOccurs(s: string, w: string, i: nat, a: nat, b: nat)
    requires OccursAt(s, w, i) && a <= b <= |w|
    ensures OccursAt(s, w[a..b], i + a)
  {
    SliceOfSlice(s, i, i + |w|, a, b);
  }

  lemma WrappedOccurrence(s: string, pre: string, m: string, post: string, i: nat)
    requires OccursAt(s, pre + m + post, i)
    ensures OccursAt(s, pre, i) && OccursAt(s, m, i + |pre|) && OccursAt(s, post, i + |pre| + |m|)
  {
    var w := pre + m + post;
    PartOccurs(s, w, i, 0, |pre|);
    PartOccurs(s, w, i, |pre|, |pre| + |m|);
    PartOccurs(s, w, i, |pre| + |m|, |w|);
    assert w[..|pre|] == pre && w[|pre|..|pre| + |m|] == m && w[|pre| + |m|..] == post;
  }

  lemma OccursFurther(s: string, w: string, n: nat, i: nat)
    requires n <= |s| && OccursAt(s[n..], w, i)
    ensures OccursAt(s, w, n + i)
  {
    assert s[n + i..n + i + |w|] == s[n..][i..i + |w|];
  }

  lemma NotFurther(s: string, w: string, n: nat)
    requires w != "" && n + |w| <= |s| && OnlyAt(s, w, n)
    ensures !Contains(s[n + |w|..], w)
  {
    var rest := s[n + |w|..];
    forall i | 0 <= i <= |rest|
      ensures !OccursAt(rest, w, i)
    {
      if OccursAt(rest, w, i) {
        OccursFurther(s, w, n + |w|, i);
      }
    }
  }

  lemma {:induction false} ReplaceNone(s: string, w: string, now: string)
    requires w != "" && !Contains(s, w)
    ensures ReplaceAll(s, w, now) == s
  {
  }

  lemma {:induction false} ReplaceFirst(s: string, w: string, n: nat, now: string)
    requires w != "" && n + |w| <= |s| && Index(s, w) == Some(n)
    ensures ReplaceAll(s, w, now) == s[..n] + now + ReplaceAll(s[n + |w|..], w, now)
  {
  }

  lemma {:induction false} ReplaceOnce(s: string, w: string, n: nat, now: string)
    requires w != "" && n + |w| <= |s| && OnlyAt(s, w, n)
    ensures ReplaceAll(s, w, now) == s[..n] + now + s[n + |w|..]
  {
    FirstAt(s, w, n, 0);
    NotFurther(s, w, n);
    ReplaceFirst(s, w, n, now);
    ReplaceNone(s[n + |w|..], w, now);
  }

  /** The marker with what must surround it occurs only around the only marker. */
  lemma WrappedOnly(x: string, m: string, y: string, pre: string, post: string, i: nat)
    requires OnlyAt(x + m + y, m, |x|) && OccursAt(x + m + y, pre + m + post, i)
    ensures HasSuffix(x, pre) && HasPrefix(y, post) && i == |x| - |pre|
  {
    var s := x + m + y;
    WrappedOccurrence(s, pre, m, post, i);
    assert i + |pre| == |x|;
    assert x[|x| - |pre|..] == s[i..i + |pre|];
    assert y[..|post|] == s[|x| + |m|..|x| + |m| + |post|];
  }

  lemma WrappedThere(x: string, m: string, y: string, pre: string, post: string)
    requires HasSuffix(x, pre) && HasPrefix(y, post)
    ensures OccursAt(x + m + y, pre + m + post, |x| - |pre|)
    ensures (x + m + y)[..|x| - |pre|] == x[..|x| - |pre|]
    ensures (x + m + y)[|x| - |pre| + |pre + m + post|..] == y[|post|..]
  {
    var s, w, n := x + m + y, pre + m + post, |x| - |pre|;
    assert s[n..n + |w|] == x[n..] + m + y[..|post|];
  }

  /** Replacing the only occurrence of a marker, or the marker with what must surround it. */
  lemma {:induction false} ReplaceOnly(x: string, m: string, y: string, pre: string, post: string, now: string)
    requires m != "" && OnlyAt(x + m + y, m, |x|)
    ensures ReplaceAll(x + m + y, pre + m + post, now) ==
            if HasSuffix(x, pre) && HasPrefix(y, post) then x[..|x| - |pre|] + now + y[|post|..] else x + m + y
  {
    var s, w := x + m + y, pre + m + post;
    if HasSuffix(x, pre) && HasPrefix(y, post) {
      WrappedThere(x, m, y, pre, post);
      forall i | 0 <= i <= |s| && OccursAt(s, w, i)
        ensures i == |x| - |pre|
      {
        WrappedOnly(x, m, y, pre, post, i);
      }
      ReplaceOnce(s, w, |x| - |pre|, now);
    } else {
      forall i | 0 <= i <= |s|
        ensures !OccursAt(s, w, i)
      {
        if OccursAt(s, w, i) {
          WrappedOnly(x, m, y, pre, post, i);
        }
      }
      ReplaceNone(s, w, now);
    }
  }

  /** Replacing a marker that neither its front nor its back quotes. */
  lemma {:induction false} ReplaceMark(x: string, m: string, y: string, pre: string, post: string, now: string)
    requires IsMarker(m) && !Contains(x, m) && !Contains(y, m)
    ensures ReplaceAll(x + m + y, pre + m + post, now) ==
            if HasSuffix(x, pre) && HasPrefix(y, post) then x[..|x| - |pre|] + now + y[|post|..] else x + m + y
  {
    OnlyBetween(x, m, y);
    ReplaceOnly(x, m, y, pre, post, now);
  }

  // ---------------------------------------------------------------- what replacing leaves alone

  /** How much longer a text gets, one occurrence at a time. */
  lemma {:induction false} ReplacedLength(s: string, was: string, now: string)
    requires was != ""
    ensures |now| >= |was| ==> |ReplaceAll(s, was, now)| >= |s|
    ensures |now| <= |was| ==> |ReplaceAll(s, was, now)| <= |s|
    decreases |s|
  {
    match Index(s, was)
    case None =>
    case Some(i) =>
      ReplaceFirst(s, was, i, now);
      ReplacedLength(s[i + |was|..], was, now);
  }

  /** A text is left alone exactly when it does not quote what is replaced, or that is replaced by itself. */
  lemma {:induction false} ReplaceChangesNothingExactly(s: string, was: string, now: string)
    requires was != ""
    ensures ReplaceAll(s, was, now) == s <==> !Contains(s, was) || now == was
    decreases |s|
  {
    match Index(s, was)
    case None => ReplaceNone(s, was, now);
    case Some(i) =>
      var rest := s[i + |was|..];
      ReplaceFirst(s, was, i, now);
      ReplaceChangesNothingExactly(rest, was, now);
      ReplacedLength(rest, was, now);
      assert Contains(s, was);
      ReplacedHere(s, i, was, now, ReplaceAll(rest, was, now));
  }

  lemma ReplacedHere(s: string, i: nat, was: string, now: string, rest: string)
    requires OccursAt(s, was, i)
    requires |now| > |was| ==> |rest| >= |s| - i - |was|
    requires |now| < |was| ==> |rest| <= |s| - i - |was|
    ensures now != was ==> s[..i] + now + rest != s
    ensures now == was && rest == s[i + |was|..] ==> s[..i] + now + rest == s
  {
    if |now| == |was| {
      assert (s[..i] + now + rest)[i..i + |was|] == now;
    }
  }

  /** A marker behind a text without it is found there. */
  lemma FoundBehind(x: string, m: string, y: string)
    requires IsMarker(m) && !Contains(x, m)
    ensures Index(x + m + y, m) == Some(|x|)
  {
    var s := x + m + y;
    assert s[|x|..|x| + |m|] == m;
    forall i | 0 <= i < |x|
      ensures !OccursAt(s, m, i)
    {
      if OccursAt(s, m, i) {
        OccursBeside(x, m, y, m, i);
      }
    }
    FirstAt(s, m, |x|, 0);
  }

  lemma ReplacedSome(s: string, was: string, now: string)
    requires was != "" && Contains(s, was)
    ensures |now| >= |was| ==> |ReplaceAll(s, was, now)| >= |s| + (|now| - |was|)
    ensures |now| <= |was| ==> |ReplaceAll(s, was, now)| <= |s| - (|was| - |now|)
  {
    var i := Index(s, was).value;
    ReplaceFirst(s, was, i, now);
    ReplacedLength(s[i + |was|..], was, now);
  }

  /** The first occurrence in front of a marker lies wholly there, and the marker is left to replace. */
  lemma FirstInFront(x: string, m: string, y: string) returns (i: nat)
    requires IsMarker(m) && Contains(x, m)
    ensures Index(x + m + y, m) == Some(i) && OccursAt(x, m, i)
    ensures (x + m + y)[i + |m|..] == x[i + |m|..] + m + y && Contains((x + m + y)[i + |m|..], m)
  {
    var s := x + m + y;
    var k :| 0 <= k <= |x| && OccursAt(x, m, k);
    assert s[k..k + |m|] == x[k..k + |m|];
    assert OccursAt(s, m, k);
    i := Index(s, m).value;
    OccursBeside(x, m, y, m, i);
    RestBehind(x, m, y, i + |m|);
  }

  lemma RestBehind(x: string, m: string, y: string, n: nat)
    requires n <= |x|
    ensures (x + m + y)[n..] == x[n..] + m + y && Contains((x + m + y)[n..], m)
  {
    Between(x[n..], m, y);
  }

  lemma QuotedInFront(x: string, m: string, y: string, now: string)
    requires IsMarker(m) && Contains(x, m) && now != m
    ensures ReplaceAll(x + m + y, m, now) != x + now + y
  {
    var s := x + m + y;
    var i := FirstInFront(x, m, y);
    ReplaceFirst(s, m, i, now);
    ReplacedSome(s[i + |m|..], m, now);
    DiffersAt(s[..i], now, ReplaceAll(s[i + |m|..], m, now), x, m, y, i);
  }

  lemma DiffersAt(front: string, now: string, rest: string, x: string, m: string, y: string, i: nat)
    requires OccursAt(x, m, i) && now != m && |front| == i
    requires |now| > |m| ==> |rest| > |x| + |y| - i
    requires |now| < |m| ==> |rest| < |x| + |y| - i
    ensures front + now + rest != x + now + y
  {
    if |now| == |m| {
      assert (front + now + rest)[i..i + |m|] == now;
      assert (x + now + y)[i..i + |m|] == x[i..i + |m|];
    }
  }

  lemma QuotedBehind(x: string, m: string, y: string, now: string)
    requires IsMarker(m) && !Contains(x, m) && Contains(y, m) && now != m
    ensures ReplaceAll(x + m + y, m, now) != x + now + y
  {
    var s := x + m + y;
    FoundBehind(x, m, y);
    ReplaceFirst(s, m, |x|, now);
    assert s[..|x|] == x && s[|x| + |m|..] == y;
    ReplaceChangesNothingExactly(y, m, now);
    TailsDiffer(x + now, ReplaceAll(y, m, now), y);
  }

  lemma TailsDiffer(front: string, a: string, b: string)
    ensures a != b ==> front + a != front + b
  {
    assert (front + a)[|front|..] == a && (front + b)[|front|..] == b;
  }

  /** Replacing a marker replaces that one place exactly when nothing around it quotes it, or nothing changes at all. */
  lemma ReplacesOneExactly(x: string, m: string, y: string, now: string)
    requires IsMarker(m)
    ensures ReplaceAll(x + m + y, m, now) == x + now + y <==> (!Contains(x, m) && !Contains(y, m)) || now == m
  {
    if now == m {
      ReplaceChangesNothingExactly(x + m + y, m, now);
    } else if Contains(x, m) {
      QuotedInFront(x, m, y, now);
    } else if Contains(y, m) {
      QuotedBehind(x, m, y, now);
    } else {
      ReplaceMark(x, m, y, "", "", now);
      assert "" + m + "" == m && x[..|x| - |""|] == x && y[|""|..] == y;
    }
  }
}
