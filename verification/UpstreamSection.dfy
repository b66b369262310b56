/** Removing the upstream section from the changelog scaffold. */
module UpstreamSection {
  import opened Options
  import opened Sequences
  import opened Text
  import opened Markers

  predicate Blank(c: char) {
    c == ' ' || c == '\t' || c == '\n'
  }

  function RemoveUpstreamSection(s: string): string {
    match (Index(s, START), Index(s, END))
    case (Some(start), Some(end)) =>
      TrimRight(s[..start], Blank) + "\n\n" + TrimLeft(s[end + |END|..], Blank)
    case _ => s
  }

  ghost predicate MarkerFree(s: string) {
    !Contains(s, START) && !Contains(s, END)
  }

  lemma ContainsSuffix(s: string, m: string, n: nat, i: nat)
    requires n <= i && OccursAt(s, m, i)
    ensures Contains(s[n..], m)
  {
    assert s[n..][i - n..i - n + |m|] == s[i..i + |m|];
    assert OccursAt(s[n..], m, i - n);
  }

  lemma OccurrenceShift(a: string, b: string, m: string, i: nat)
    requires OccursAt(b, m, i)
    ensures OccursAt(a + b, m, |a| + i)
  {
    assert (a + b)[|a| + i..|a| + i + |m|] == b[i..i + |m|];
  }

  lemma OccurrenceInPrefix(a: string, b: string, m: string, i: nat)
    requires OccursAt(a, m, i)
    ensures OccursAt(a + b, m, i)
  {
    assert (a + b)[i..i + |m|] == a[i..i + |m|];
  }

  /** Trimming takes no marker away and brings none. */
  lemma TrimRightKeepsMarkers(s: string, m: string)
    requires IsMarker(m)
    ensures Contains(TrimRight(s, Blank), m) <==> Contains(s, m)
  {
    var t := TrimRight(s, Blank);
    TrimRightMeaning(s, Blank);
    assert s == t + s[|t|..];
    if Contains(t, m) {
      var i :| 0 <= i <= |t| && OccursAt(t, m, i);
      OccurrenceInPrefix(t, s[|t|..], m, i);
    }
    if Contains(s, m) {
      var i :| 0 <= i <= |s| && OccursAt(s, m, i);
      assert s[i + |m| - 1] == m[|m| - 1];
      assert t[i..i + |m|] == s[i..i + |m|];
      assert OccursAt(t, m, i);
    }
  }

  lemma TrimLeftKeepsMarkers(s: string, m: string)
    requires IsMarker(m)
    ensures Contains(TrimLeft(s, Blank), m) <==> Contains(s, m)
  {
    var t := TrimLeft(s, Blank);
    TrimLeftMeaning(s, Blank);
    DropBlanksKeepsMarkers(s, m, |s| - |t|);
  }

  lemma DropBlanksKeepsMarkers(s: string, m: string, n: nat)
    requires IsMarker(m) && n <= |s| && forall i :: 0 <= i < n ==> Blank(s[i])
    ensures Contains(s[n..], m) <==> Contains(s, m)
  {
    if Contains(s[n..], m) {
      var i :| 0 <= i <= |s| - n && OccursAt(s[n..], m, i);
      assert s == s[..n] + s[n..];
      OccurrenceShift(s[..n], s[n..], m, i);
    }
    if Contains(s, m) {
      var i :| 0 <= i <= |s| && OccursAt(s, m, i);
      assert s[i] == s[i..i + |m|][0] == m[0];
      ContainsSuffix(s, m, n, i);
    }
  }

  lemma StaysOnLine(s: string, m: string, i: nat, n: nat)
    requires IsMarker(m) && OccursAt(s, m, i) && n < |s| && s[n] == '\n'
    ensures !(i <= n < i + |m|)
  {
    assert i <= n < i + |m| ==> m[n - i] != '\n';
    OccurrenceChars(s, m, i);
  }

  /** No marker forms across the blank line between two texts. */
  lemma NoMarkerAcrossSeam(a: string, b: string, m: string)
    requires IsMarker(m)
    ensures Contains(a + "\n\n" + b, m) <==> Contains(a, m) || Contains(b, m)
  {
    var s := a + "\n\n" + b;
    if Contains(a, m) {
      var i :| 0 <= i <= |a| && OccursAt(a, m, i);
      OccurrenceInPrefix(a, "\n\n" + b, m, i);
      assert s == a + ("\n\n" + b);
    }
    if Contains(b, m) {
      var i :| 0 <= i <= |b| && OccursAt(b, m, i);
      OccurrenceShift(a + "\n\n", b, m, i);
    }
    if Contains(s, m) {
      var i :| 0 <= i <= |s| && OccursAt(s, m, i);
      StaysOnLine(s, m, i, |a|);
      StaysOnLine(s, m, i, |a| + 1);
      OccurrenceChars(s, m, i);
      if i + |m| <= |a| {
        OccursByChars(a, m, i);
      } else {
        OccursByChars(b, m, i - |a| - 2);
      }
    }
  }

  /** A text in front of the first occurrence of a marker holds none of it. */
  lemma BeforeFirst(s: string, m: string, n: nat)
    requires m != "" && n <= |s| && (Index(s, m).Some? ==> n <= Index(s, m).value)
    ensures !Contains(s[..n], m)
  {
    forall i | 0 <= i <= n
      ensures !OccursAt(s[..n], m, i)
    {
      if i + |m| <= n {
        assert s[..n][i..i + |m|] == s[i..i + |m|];
        assert !OccursAt(s, m, i);
      }
    }
  }

  lemma ContainsByIndex(s: string, m: string)
    ensures Contains(s, m) <==> Index(s, m).Some?
  {
  }

  /** Two markers do not overlap: an end marker before a start marker lies wholly before it. */
  lemma MarkersDisjoint(s: string, i: nat, j: nat)
    requires OccursAt(s, START, i) && OccursAt(s, END, j)
    ensures j < i ==> j + |END| <= i
    ensures i != j
  {
    MarkersAreMarkers();
    OccurrenceChars(s, START, i);
    OccurrenceChars(s, END, j);
    assert s[i] == START[0] == LEAD[0] == '<';
    assert s[i + |LEAD|] != s[j + |LEAD|];
    forall k | j < k < j + |END|
      ensures s[k] != '<'
    {
      assert s[j + (k - j)] == END[k - j];
    }
  }

  /** What removal leaves of a text with both markers. */
  lemma MarkersLeft(s: string, m: string)
    requires IsMarker(m) && Index(s, START).Some? && Index(s, END).Some?
    ensures Contains(RemoveUpstreamSection(s), m) <==>
            Contains(s[..Index(s, START).value], m) || Contains(s[Index(s, END).value + |END|..], m)
  {
    var a, b := s[..Index(s, START).value], s[Index(s, END).value + |END|..];
    NoMarkerAcrossSeam(TrimRight(a, Blank), TrimLeft(b, Blank), m);
    TrimRightKeepsMarkers(a, m);
    TrimLeftKeepsMarkers(b, m);
  }

  /** The first start marker stands before the first end marker, behind which no marker follows. */
  ghost predicate WellBracketed(s: string) {
    var start, end := Index(s, START), Index(s, END);
    start.Some? && end.Some? && start.value < end.value && MarkerFree(s[end.value + |END|..])
  }

  /** Removal leaves no marker exactly when there is none or the section is well bracketed. */
  lemma RemovalIsMarkerFreeExactly(s: string)
    ensures MarkerFree(RemoveUpstreamSection(s)) <==> MarkerFree(s) || WellBracketed(s)
  {
    MarkersAreMarkers();
    ContainsByIndex(s, START);
    ContainsByIndex(s, END);
    var start, end := Index(s, START), Index(s, END);
    if start.Some? && end.Some? {
      MarkersLeft(s, START);
      MarkersLeft(s, END);
      MarkersDisjoint(s, start.value, end.value);
      BeforeFirst(s, START, start.value);
      if start.value < end.value {
        BeforeFirst(s, END, start.value);
      } else {
        ContainsSuffix(s, START, end.value + |END|, start.value);
      }
    }
  }

  lemma NoEndAroundStart(before: string, section: string)
    requires MarkerFree(before) && MarkerFree(section)
    ensures !Contains(before + START + section, END)
  {
    MarkersAreMarkers();
    var s := before + START + section;
    forall i | 0 <= i <= |s|
      ensures !OccursAt(s, END, i)
    {
      if OccursAt(s, END, i) {
        OccursBeside(before, START, section, END, i);
      }
    }
  }

  /**
   A text with one start marker, then one end marker: what stays is what stood in front, one
   blank line, and what stood behind, with the blanks between trimmed.
   */
  lemma RemovesTheSection(before: string, section: string, after: string)
    requires MarkerFree(before) && MarkerFree(section) && MarkerFree(after)
    ensures RemoveUpstreamSection(before + START + section + END + after)
            == TrimRight(before, Blank) + "\n\n" + TrimLeft(after, Blank)
    ensures MarkerFree(RemoveUpstreamSection(before + START + section + END + after))
  {
    var s := before + START + section + END + after;
    var end := |before| + |START| + |section|;
    MarkersAreMarkers();
    assert s == before + START + (section + END + after) && s == (before + START + section) + END + after;
    FoundBehind(before, START, section + END + after);
    NoEndAroundStart(before, section);
    FoundBehind(before + START + section, END, after);
    assert s[..|before|] == before;
    assert s[end + |END|..] == after;
    RemovalIsMarkerFreeExactly(s);
  }

  /** Spaces, tabs and line breaks next to the section go with it; the texts around it are set apart by one blank line. */
  lemma OneBlankLineStays(before: string, a: string, section: string, b: string, after: string)
    requires MarkerFree(before + a) && MarkerFree(section) && MarkerFree(b + after)
    requires AllIn(a, " \t\n") && (before == "" || before[|before| - 1] !in " \t\n")
    requires AllIn(b, " \t\n") && (after == "" || after[0] !in " \t\n")
    ensures RemoveUpstreamSection((before + a) + "<!-- upstream-start -->" + section + "<!-- upstream-end -->" + (b + after))
            == before + "\n\n" + after
  {
    assert START == "<!-- upstream-start -->" && END == "<!-- upstream-end -->";
    assert forall c :: Blank(c) <==> c in " \t\n";
    RemovesTheSection(before + a, section, b + after);
    TrimsBack(before, a, Blank);
    TrimsFront(b, after, Blank);
  }

  // ---------------------------------------------------------------- markers in reverse

  lemma {:induction false} TrimRightBehind(p: string, w: string)
    requires p != "" && !Blank(p[|p| - 1])
    ensures TrimRight(p + w, Blank) == p + TrimRight(w, Blank)
  {
    if w == "" {
      assert p + w == p;
    } else if Blank(w[|w| - 1]) {
      TrimRightBehind(p, w[..|w| - 1]);
      assert (p + w)[..|p + w| - 1] == p + w[..|w| - 1];
    }
  }

  lemma {:induction false} TrimLeftBefore(w: string, q: string)
    requires q != "" && !Blank(q[0])
    ensures TrimLeft(w + q, Blank) == TrimLeft(w, Blank) + q
  {
    if w == "" {
      assert w + q == q;
    } else if Blank(w[0]) {
      TrimLeftBefore(w[1..], q);
      assert (w + q)[1..] == w[1..] + q;
    }
  }

  function Doubled(w: string): string {
    TrimRight(w, Blank) + "\n\n" + TrimLeft(w, Blank)
  }

  /** No start marker in front of an end marker, and none behind it in `w`. */
  ghost predicate LeadsToReversed(p: string, w: string) {
    MarkerFree(p) && !Contains(w, START)
  }

  lemma ReversedFound(p: string, w: string, q: string)
    requires LeadsToReversed(p, w)
    ensures Index(p + END + w + START + q, END) == Some(|p|)
    ensures Index(p + END + w + START + q, START) == Some(|p + END + w|)
  {
    MarkersAreMarkers();
    Regroup4(p, END, w, START, q);
    FoundBehind(p, END, w + START + q);
    NotBeside(p, END, w, START);
    FoundBehind(p + END + w, START, q);
  }

  lemma Regroup4(a: string, b: string, c: string, d: string, e: string)
    ensures a + b + c + d + e == a + b + (c + d + e)
  {
  }

  lemma EndsNonblank(p: string)
    ensures p + END != "" && !Blank((p + END)[|p + END| - 1])
  {
    EndIsMarker();
    assert (p + END)[|p + END| - 1] == END[|END| - 1];
  }

  lemma BeginsNonblank(q: string)
    ensures START + q != "" && !Blank((START + q)[0])
  {
    StartIsMarker();
    assert (START + q)[0] == START[0];
  }

  lemma CutReversed(p: string, w: string, q: string)
    ensures var s := p + END + w + START + q;
      s[..|p + END + w|] == p + END + w && s[|p| + |END|..] == w + (START + q)
  {
  }

  /** An end marker in front of the first start marker: both stay, and the text between them is there twice. */
  lemma ReversedMarkersDouble(p: string, w: string, q: string)
    requires LeadsToReversed(p, w)
    ensures RemoveUpstreamSection(p + END + w + START + q) == p + END + Doubled(w) + START + q
  {
    ReversedFound(p, w, q);
    CutReversed(p, w, q);
    EndsNonblank(p);
    BeginsNonblank(q);
    TrimRightBehind(p + END, w);
    TrimLeftBefore(w, START + q);
    DoubledBetween(p + END, w, START, q);
  }

  lemma DoubledBetween(x: string, w: string, m: string, q: string)
    ensures x + TrimRight(w, Blank) + "\n\n" + (TrimLeft(w, Blank) + (m + q)) == x + Doubled(w) + m + q
  {
  }

  lemma DoubledLeads(p: string, w: string)
    requires LeadsToReversed(p, w)
    ensures LeadsToReversed(p, Doubled(w))
  {
    StartIsMarker();
    TrimRightKeepsMarkers(w, START);
    TrimLeftKeepsMarkers(w, START);
    NoMarkerAcrossSeam(TrimRight(w, Blank), TrimLeft(w, Blank), START);
  }

  // ---------------------------------------------------------------- removing twice

  predicate AllBlank(s: string) {
    forall i :: 0 <= i < |s| ==> Blank(s[i])
  }

  lemma {:induction false} BlankTrimmed(w: string)
    requires AllBlank(w)
    ensures TrimRight(w, Blank) == "" && TrimLeft(w, Blank) == ""
  {
    if w != "" {
      BlankTrimmed(w[1..]);
      BlankTrimmed(w[..|w| - 1]);
    }
  }

  /** A blank text is trimmed to nothing, and of any other something is kept on both sides. */
  lemma DoubledLength(w: string)
    ensures AllBlank(w) <==> Doubled(w) == "\n\n"
    ensures Doubled(w) == w <==> w == "\n\n"
  {
    if AllBlank(w) {
      BlankTrimmed(w);
    } else {
      TrimRightMeaning(w, Blank);
      TrimLeftMeaning(w, Blank);
      var i :| 0 <= i < |w| && !Blank(w[i]);
      assert i < |TrimRight(w, Blank)| && |w| - |TrimLeft(w, Blank)| <= i;
    }
  }

  /** The text between the first end marker and the first start marker, when they stand in this order. */
  function BetweenReversed(s: string): Option<string> {
    match (Index(s, START), Index(s, END))
    case (Some(start), Some(end)) => if end + |END| <= start then Some(s[end + |END|..start]) else None
    case _ => None
  }

  /** A marker is missing, or the first two stand in reverse with one blank line between. */
  predicate Settled(s: string) {
    Index(s, START).None? || Index(s, END).None? || BetweenReversed(s) == Some("\n\n")
  }

  lemma ReversedBetween(p: string, w: string, q: string)
    requires LeadsToReversed(p, w)
    ensures BetweenReversed(p + END + w + START + q) == Some(w)
  {
    ReversedFound(p, w, q);
    var s := p + END + w + START + q;
    assert s[|p| + |END|..|p + END + w|] == w;
  }

  /** A text whose first markers stand in reverse, taken apart. */
  lemma ReversedParts(s: string) returns (p: string, w: string, q: string)
    requires BetweenReversed(s).Some?
    ensures LeadsToReversed(p, w) && s == p + END + w + START + q && BetweenReversed(s) == Some(w)
  {
    var start, end := Index(s, START).value, Index(s, END).value;
    MarkersAreMarkers();
    p, w, q := s[..end], s[end + |END|..start], s[start + |START|..];
    CutAtTwo(s, END, end, START, start);
    PartsLead(s, start, end);
  }

  lemma PartsLead(s: string, start: nat, end: nat)
    requires Index(s, START) == Some(start) && Index(s, END) == Some(end) && end + |END| <= start <= |s|
    ensures LeadsToReversed(s[..end], s[end + |END|..start])
  {
    StartIsMarker();
    EndIsMarker();
    BeforeFirst(s, END, end);
    BeforeFirst(s, START, end);
    BeforeFirst(s, START, start);
    PartContains(s, end + |END|, start, START);
  }

  lemma CutAtTwo(s: string, m: string, i: nat, t: string, j: nat)
    requires OccursAt(s, m, i) && OccursAt(s, t, j) && i + |m| <= j
    ensures s == s[..i] + m + s[i + |m|..j] + t + s[j + |t|..]
  {
    assert s[..j] == s[..i] + m + s[i + |m|..j];
    assert s == s[..j] + t + s[j + |t|..];
  }

  lemma PartContains(s: string, n: nat, k: nat, m: string)
    requires n <= k <= |s|
    ensures Contains(s[n..k], m) ==> Contains(s[..k], m)
  {
    if i :| 0 <= i <= k - n && OccursAt(s[n..k], m, i) {
      assert s[..k] == s[..n] + s[n..k];
      OccurrenceShift(s[..n], s[n..k], m, i);
    }
  }

  lemma SameBetween(x: string, v: string, w: string, y: string)
    requires x + v + y == x + w + y
    ensures v == w
  {
    assert |v| == |w|;
    assert (x + v + y)[|x|..|x| + |v|] == v && (x + w + y)[|x|..|x| + |w|] == w;
  }

  lemma ReversedLeftAlone(p: string, w: string, q: string)
    requires LeadsToReversed(p, w)
    ensures var s := p + END + w + START + q;
      RemoveUpstreamSection(s) == s <==> w == "\n\n"
  {
    ReversedMarkersDouble(p, w, q);
    DoubledLength(w);
    if p + END + Doubled(w) + START + q == p + END + w + START + q {
      AppendAssociates(p + END + Doubled(w), START, q);
      AppendAssociates(p + END + w, START, q);
      SameBetween(p + END, Doubled(w), w, START + q);
    }
  }

  lemma InOrderShrinks(s: string)
    requires Index(s, START).Some? && Index(s, END).Some? && Index(s, START).value < Index(s, END).value
    ensures |RemoveUpstreamSection(s)| < |s|
  {
    var start, end := Index(s, START).value, Index(s, END).value;
    StartIsMarker();
    EndIsMarker();
    TrimRightMeaning(s[..start], Blank);
    TrimLeftMeaning(s[end + |END|..], Blank);
  }

  /** Exactly the settled texts are left alone. */
  lemma LeavesAloneExactly(s: string)
    ensures RemoveUpstreamSection(s) == s <==> Settled(s)
  {
    if Index(s, START).Some? && Index(s, END).Some? {
      MarkersDisjoint(s, Index(s, START).value, Index(s, END).value);
      if BetweenReversed(s).Some? {
        var p, w, q := ReversedParts(s);
        ReversedLeftAlone(p, w, q);
      } else {
        InOrderShrinks(s);
      }
    }
  }

  // ---------------------------------------------------------------- what stands behind a front without markers

  ghost predicate NoneBegins(p: string, t: string, m: string) {
    forall i :: 0 <= i < |p| ==> !OccursAt(p + t, m, i)
  }

  lemma OccursBehind(p: string, t: string, m: string, i: nat)
    ensures OccursAt(p + t, m, |p| + i) <==> OccursAt(t, m, i)
  {
    if i + |m| <= |t| {
      assert (p + t)[|p| + i..|p| + i + |m|] == t[i..i + |m|];
    }
  }

  lemma IndexBehind(p: string, t: string, m: string)
    requires NoneBegins(p, t, m)
    ensures Index(p + t, m).Some? <==> Index(t, m).Some?
    ensures Index(t, m).Some? ==> Index(p + t, m) == Some(|p| + Index(t, m).value)
  {
    match Index(p + t, m)
    case None =>
      if Index(t, m).Some? {
        OccursBehind(p, t, m, Index(t, m).value);
      }
    case Some(n) =>
      assert n >= |p|;
      OccursBehind(p, t, m, n - |p|);
      if Index(t, m).Some? && Index(t, m).value < n - |p| {
        OccursBehind(p, t, m, Index(t, m).value);
      }
  }

  /** A front in which no marker begins does not matter. */
  lemma SettledBehind(p: string, t: string)
    requires NoneBegins(p, t, START) && NoneBegins(p, t, END)
    ensures Settled(p + t) <==> Settled(t)
  {
    IndexBehind(p, t, START);
    IndexBehind(p, t, END);
    if Index(t, START).Some? && Index(t, END).Some? {
      SliceBehind(p, t, Index(t, END).value + |END|, Index(t, START).value);
    }
  }

  lemma SliceBehind(p: string, t: string, i: nat, j: nat)
    requires i <= |t| && j <= |t|
    ensures i <= j ==> (p + t)[|p| + i..|p| + j] == t[i..j]
  {
  }

  lemma BlanksBeginNone(p: string, t: string, m: string)
    requires AllBlank(p) && IsMarker(m)
    ensures NoneBegins(p, t, m)
  {
    assert !Blank(m[0]) && forall i :: 0 <= i < |p| ==> (p + t)[i] == p[i];
    forall i | 0 <= i < |p|
      ensures !OccursAt(p + t, m, i)
    {
      if OccursAt(p + t, m, i) {
        OccurrenceChars(p + t, m, i);
      }
    }
  }

  lemma SeamBeginsNone(a: string, t: string, m: string)
    requires IsMarker(m) && !Contains(a, m)
    ensures NoneBegins(a + "\n\n", t, m)
  {
    var s := a + "\n\n" + t;
    forall i | 0 <= i < |a + "\n\n"|
      ensures !OccursAt(s, m, i)
    {
      if OccursAt(s, m, i) {
        StaysOnLine(s, m, i, |a|);
        StaysOnLine(s, m, i, |a| + 1);
        OccurrenceChars(s, m, i);
        OccursByChars(a, m, i);
      }
    }
  }

  lemma SettledTrimmed(t: string)
    ensures Settled(TrimLeft(t, Blank)) <==> Settled(t)
  {
    var p := LeadingBlanks(t);
    StartIsMarker();
    EndIsMarker();
    BlanksBeginNone(p, TrimLeft(t, Blank), START);
    BlanksBeginNone(p, TrimLeft(t, Blank), END);
    SettledBehind(p, TrimLeft(t, Blank));
  }

  lemma LeadingBlanks(t: string) returns (p: string)
    ensures t == p + TrimLeft(t, Blank) && AllBlank(p)
  {
    TrimLeftMeaning(t, Blank);
    p := t[..|t| - |TrimLeft(t, Blank)|];
  }

  lemma SettledBehindSeam(a: string, t: string)
    requires MarkerFree(a)
    ensures Settled(a + "\n\n" + t) <==> Settled(t)
  {
    StartIsMarker();
    EndIsMarker();
    SeamBeginsNone(a, t, START);
    SeamBeginsNone(a, t, END);
    SettledBehind(a + "\n\n", t);
  }

  /**
   One removal is enough: with the markers reversed, when only blanks stand between them; with the
   section in order, when what stands behind it is settled.
   */
  predicate OnceIsEnough(s: string) {
    match BetweenReversed(s)
    case Some(w) => AllBlank(w)
    case None => Index(s, START).None? || Index(s, END).None? || Settled(s[Index(s, END).value + |END|..])
  }

  lemma InOrderSettles(s: string)
    requires Index(s, START).Some? && Index(s, END).Some? && Index(s, START).value < Index(s, END).value
    ensures Settled(RemoveUpstreamSection(s)) <==> Settled(s[Index(s, END).value + |END|..])
  {
    var start := Index(s, START).value;
    var a, b := s[..start], s[Index(s, END).value + |END|..];
    StartIsMarker();
    EndIsMarker();
    BeforeFirst(s, START, start);
    BeforeFirst(s, END, start);
    TrimRightKeepsMarkers(a, START);
    TrimRightKeepsMarkers(a, END);
    SettledBehindSeam(TrimRight(a, Blank), TrimLeft(b, Blank));
    SettledTrimmed(b);
  }

  lemma ReversedSettles(s: string)
    requires BetweenReversed(s).Some?
    ensures Settled(RemoveUpstreamSection(s)) <==> AllBlank(BetweenReversed(s).value)
  {
    var p, w, q := ReversedParts(s);
    ReversedMarkersDouble(p, w, q);
    DoubledLeads(p, w);
    ReversedFound(p, Doubled(w), q);
    ReversedBetween(p, Doubled(w), q);
    DoubledLength(w);
  }

  /** Removing twice is removing once exactly when once is enough. */
  lemma RemovalIdempotentExactly(s: string)
    ensures RemoveUpstreamSection(RemoveUpstreamSection(s)) == RemoveUpstreamSection(s) <==> OnceIsEnough(s)
  {
    LeavesAloneExactly(RemoveUpstreamSection(s));
    if Index(s, START).Some? && Index(s, END).Some? {
      MarkersDisjoint(s, Index(s, START).value, Index(s, END).value);
      if BetweenReversed(s).Some? {
        ReversedSettles(s);
      } else {
        InOrderSettles(s);
      }
    }
  }
}
