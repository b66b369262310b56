/** Filling the changelog scaffold: its placeholders, and then its two boundary markers. */
module Scaffold {
  import opened Sequences
  import opened Text
  import opened Markers
  import opened UpstreamRender
  import opened UpstreamSection

  function FillOrRemove(s: string, placeholder: string, content: string): string
    requires placeholder != ""
  {
    if content == "" then ReplaceAll(s, "\n\n" + placeholder + "\n", "\n") else ReplaceAll(s, placeholder, content)
  }

  function FillContents(s: string, c: UpstreamContent): string {
    var s1 := ReplaceAll(s, VERSION, c.versionIntro);
    var s2 := FillOrRemove(s1, VERSIONS, c.collectorVersions);
    var s3 := FillOrRemove(s2, BREAKING, c.breakingChanges);
    FillOrRemove(s3, OTHER, c.otherChanges)
  }

  function DropBoundaries(s: string): string {
    ReplaceAll(ReplaceAll(s, START + "\n", ""), "\n\n" + END, "\n")
  }

  /** The fill branch of FillUpstreamPlaceholders, on the text of the file. */
  function FillPlaceholders(s: string, c: UpstreamContent): string {
    DropBoundaries(FillContents(s, c))
  }

  /** FillUpstreamPlaceholders between its read and its write. */
  function FillUpstreamPlaceholders(s: string, c: UpstreamContent): string {
    if c.versionIntro == "" then RemoveUpstreamSection(s) else FillPlaceholders(s, c)
  }

  // ---------------------------------------------------------------- the scaffold

  /** The plain texts around the six markers of a scaffold. */
  datatype Parts = Parts(before: string, intro: string, afterVersion: string, afterVersions: string,
                         afterBreaking: string, afterOther: string, after: string)

  function Closing(p: Parts): string {
    END + p.after
  }

  function FromOther(p: Parts): string {
    OTHER + p.afterOther + Closing(p)
  }

  function FromBreaking(p: Parts): string {
    BREAKING + p.afterBreaking + FromOther(p)
  }

  function FromVersions(p: Parts): string {
    VERSIONS + p.afterVersions + FromBreaking(p)
  }

  function ScaffoldText(p: Parts): string {
    p.before + START + p.intro + VERSION + (p.afterVersion + FromVersions(p))
  }

  ghost predicate Silent(t: string) {
    && !Contains(t, START) && !Contains(t, END) && !Contains(t, VERSION)
    && !Contains(t, VERSIONS) && !Contains(t, BREAKING) && !Contains(t, OTHER)
  }

  /** The scaffold has each of its markers once. */
  ghost predicate SilentParts(p: Parts) {
    && Silent(p.before) && Silent(p.intro) && Silent(p.afterVersion) && Silent(p.afterVersions)
    && Silent(p.afterBreaking) && Silent(p.afterOther) && Silent(p.after)
  }

  // ---------------------------------------------------------------- what filling makes of it

  predicate EndsBlank(s: string) {
    HasSuffix(s, "\n\n")
  }

  /**
   Two texts with a placeholder between, filled: without content the placeholder goes with one of
   the blank lines around it, or stays if they are not there.
   */
  function Put(left: string, m: string, right: string, content: string): string {
    if content != "" then left + content + right
    else if EndsBlank(left) && HasPrefix(right, "\n") then left[..|left| - 1] + right[1..]
    else left + m + right
  }

  function Mid0(p: Parts, c: UpstreamContent): string {
    p.intro + c.versionIntro + p.afterVersion
  }

  function Mid1(p: Parts, c: UpstreamContent): string {
    Put(Mid0(p, c), VERSIONS, p.afterVersions, c.collectorVersions)
  }

  function Mid2(p: Parts, c: UpstreamContent): string {
    Put(Mid1(p, c), BREAKING, p.afterBreaking, c.breakingChanges)
  }

  /** All that stands between the boundary markers in the end. */
  function Middle(p: Parts, c: UpstreamContent): string {
    Put(Mid2(p, c), OTHER, p.afterOther, c.otherChanges)
  }

  /** What is filled in so far never quotes the marker that is replaced next. */
  ghost predicate Fillable(p: Parts, c: UpstreamContent) {
    SilentParts(p) && !Contains(Mid0(p, c), VERSIONS) && !Contains(Mid1(p, c), BREAKING) && !Contains(Mid2(p, c), OTHER)
  }

  // ---------------------------------------------------------------- one placeholder

  lemma BlankBehind(head: string, mid: string)
    requires head != "" && head[|head| - 1] == '>'
    ensures EndsBlank(head + mid) <==> EndsBlank(mid)
    ensures EndsBlank(mid) ==> (head + mid)[..|head + mid| - 1] == head + mid[..|mid| - 1]
  {
    var s := head + mid;
    if |mid| >= 2 {
      assert s[|s| - 2..] == mid[|mid| - 2..];
    } else if |s| >= 2 {
      assert s[|head| - 1] == '>';
      assert s[|s| - 2..][0] == s[|s| - 2] && s[|s| - 2..][1] == s[|s| - 1];
    }
  }

  lemma BreakBefore(right: string, rest: string)
    requires rest != "" && rest[0] == '<'
    ensures HasPrefix(right + rest, "\n") <==> HasPrefix(right, "\n")
    ensures HasPrefix(right, "\n") ==> (right + rest)[1..] == right[1..] + rest
  {
    var s := right + rest;
    assert s[..1][0] == s[0];
    if right != "" {
      assert s[..1] == right[..1];
    }
  }

  lemma NothingAround(x: string, m: string, y: string)
    ensures "" + m + "" == m && HasSuffix(x, "") && HasPrefix(y, "") && x[..|x| - |""|] == x && y[|""|..] == y
  {
  }

  lemma ReplacesAlone(x: string, m: string, y: string, content: string)
    requires IsMarker(m) && !Contains(x, m) && !Contains(y, m)
    ensures ReplaceAll(x + m + y, m, content) == x + content + y
  {
    NothingAround(x, m, y);
    ReplaceMark(x, m, y, "", "", content);
  }

  lemma RemovesLine(x: string, m: string, y: string)
    requires IsMarker(m) && !Contains(x, m) && !Contains(y, m)
    ensures ReplaceAll(x + m + y, "\n\n" + m + "\n", "\n") ==
            if EndsBlank(x) && HasPrefix(y, "\n") then x[..|x| - 1] + y[1..] else x + m + y
  {
    ReplaceMark(x, m, y, "\n\n", "\n", "\n");
    if EndsBlank(x) {
      OneBreakLeft(x);
    }
  }

  lemma OneBreakLeft(x: string)
    requires EndsBlank(x)
    ensures x[..|x| - |"\n\n"|] + "\n" == x[..|x| - 1] && x[..|x| - 1][|x| - 2] == '\n'
  {
    assert x[|x| - 2..][0] == x[|x| - 2];
  }

  /** One placeholder, whatever stands around it. */
  lemma FillsPlaceholder(x: string, m: string, y: string, content: string)
    requires IsMarker(m) && !Contains(x, m) && !Contains(y, m)
    ensures FillOrRemove(x + m + y, m, content) == Put(x, m, y, content)
  {
    if content == "" {
      RemovesLine(x, m, y);
    } else {
      ReplacesAlone(x, m, y, content);
    }
  }

  lemma PutBetween(head: string, left: string, m: string, right: string, rest: string, content: string)
    requires head != "" && head[|head| - 1] == '>' && rest != "" && rest[0] == '<'
    ensures Put(head + left, m, right + rest, content) == head + Put(left, m, right, content) + rest
  {
    BlankBehind(head, left);
    BreakBefore(right, rest);
    if content != "" {
      Regrouped(head, left, content, right, rest);
    } else if EndsBlank(left) && HasPrefix(right, "\n") {
      Regrouped(head, left[..|left| - 1], "", right[1..], rest);
      assert left[..|left| - 1] + "" == left[..|left| - 1];
    } else {
      Regrouped(head, left, m, right, rest);
    }
  }

  lemma Regrouped(a: string, b: string, c: string, d: string, e: string)
    ensures (a + b) + c + (d + e) == a + (b + c + d) + e
    ensures c == "" ==> (a + b) + (d + e) == a + (b + d) + e
  {
  }

  // ---------------------------------------------------------------- all of them

  /** A marker and what follows it, up to the next marker. */
  lemma TailFree(t: string, x: string, rest: string, m: string)
    requires IsMarker(t) && IsMarker(m) && t[|LEAD|] != m[|LEAD|] && rest != "" && rest[0] == '<'
    requires !Contains(x, m) && !Contains(rest, m)
    ensures !Contains(t + x + rest, m) && t + x + rest != "" && (t + x + rest)[0] == '<'
  {
    FreeAppend(x, rest, m);
    NotBeside("", t, x + rest, m);
    assert "" + t + (x + rest) == t + x + rest;
  }

  lemma ClosingFree(p: Parts, m: string)
    requires IsMarker(m) && m[|LEAD|] != 'e' && !Contains(p.after, m)
    ensures !Contains(Closing(p), m) && Closing(p)[0] == '<'
  {
    EndIsMarker();
    NotBeside("", END, p.after, m);
    assert "" + END + p.after == Closing(p);
  }

  lemma TailsFree(p: Parts)
    requires SilentParts(p)
    ensures !Contains(Closing(p), OTHER) && !Contains(FromOther(p), BREAKING)
    ensures !Contains(FromBreaking(p), VERSIONS) && !Contains(FromVersions(p), VERSION)
    ensures Closing(p)[0] == '<' && FromOther(p) != "" && FromOther(p)[0] == '<'
    ensures FromBreaking(p) != "" && FromBreaking(p)[0] == '<' && FromVersions(p) != "" && FromVersions(p)[0] == '<'
  {
    MarkersAreMarkers();
    ClosingFree(p, OTHER);
    FromOtherFree(p, BREAKING);
    FromBreakingFree(p, VERSIONS);
    FromBreakingFree(p, VERSION);
    TailFree(VERSIONS, p.afterVersions, FromBreaking(p), VERSION);
  }

  lemma FromOtherFree(p: Parts, m: string)
    requires IsMarker(m) && m[|LEAD|] != 'e' && m[|LEAD|] != 'o' && !Contains(p.after, m) && !Contains(p.afterOther, m)
    ensures !Contains(FromOther(p), m) && FromOther(p) != "" && FromOther(p)[0] == '<'
  {
    OtherIsMarker();
    ClosingFree(p, m);
    TailFree(OTHER, p.afterOther, Closing(p), m);
  }

  lemma FromBreakingFree(p: Parts, m: string)
    requires IsMarker(m) && m[|LEAD|] != 'e' && m[|LEAD|] != 'o' && m[|LEAD|] != 'b'
    requires !Contains(p.after, m) && !Contains(p.afterOther, m) && !Contains(p.afterBreaking, m)
    ensures !Contains(FromBreaking(p), m) && FromBreaking(p) != "" && FromBreaking(p)[0] == '<'
  {
    BreakingIsMarker();
    FromOtherFree(p, m);
    TailFree(BREAKING, p.afterBreaking, FromOther(p), m);
  }

  lemma FillStep(before: string, left: string, m: string, right: string, rest: string, content: string)
    requires IsMarker(m) && m[|LEAD|] != 's' && rest != "" && rest[0] == '<'
    requires !Contains(before, m) && !Contains(left, m) && !Contains(right, m) && !Contains(rest, m)
    ensures FillOrRemove(before + START + left + (m + right + rest), m, content) == before + START + Put(left, m, right, content) + rest
  {
    StartIsMarker();
    NotBeside(before, START, left, m);
    FreeAppend(right, rest, m);
    FillsPlaceholder(before + START + left, m, right + rest, content);
    EndsWithMark(before);
    PutBetween(before + START, left, m, right, rest, content);
    Associated(before + START + left, m, right, rest);
  }

  lemma EndsWithMark(before: string)
    ensures before + START != "" && (before + START)[|before + START| - 1] == '>'
  {
    StartIsMarker();
    assert (before + START)[|before + START| - 1] == START[|START| - 1];
  }

  lemma Associated(a: string, b: string, c: string, d: string)
    ensures a + b + (c + d) == a + (b + c + d) == a + b + c + d
  {
  }

  lemma VersionFilled(p: Parts, c: UpstreamContent)
    requires SilentParts(p)
    ensures ReplaceAll(ScaffoldText(p), VERSION, c.versionIntro) == p.before + START + Mid0(p, c) + FromVersions(p)
  {
    VersionIsMarker();
    StartIsMarker();
    TailsFree(p);
    NotBeside(p.before, START, p.intro, VERSION);
    FreeAppend(p.afterVersion, FromVersions(p), VERSION);
    ReplacesAlone(p.before + START + p.intro, VERSION, p.afterVersion + FromVersions(p), c.versionIntro);
    Regrouped(p.before + START, p.intro, c.versionIntro, p.afterVersion, FromVersions(p));
  }

  /** Filling puts every content in its place, whatever blanks are around the placeholders. */
  lemma ContentsFilled(p: Parts, c: UpstreamContent)
    requires Fillable(p, c)
    ensures FillContents(ScaffoldText(p), c) == p.before + START + Middle(p, c) + Closing(p)
  {
    VersionsIsMarker();
    BreakingIsMarker();
    OtherIsMarker();
    TailsFree(p);
    VersionFilled(p, c);
    FillStep(p.before, Mid0(p, c), VERSIONS, p.afterVersions, FromBreaking(p), c.collectorVersions);
    FillStep(p.before, Mid1(p, c), BREAKING, p.afterBreaking, FromOther(p), c.breakingChanges);
    FillStep(p.before, Mid2(p, c), OTHER, p.afterOther, Closing(p), c.otherChanges);
  }

  // ---------------------------------------------------------------- the boundary markers

  /** The text in front of the end marker once the start marker has been dealt with. */
  function Opened(before: string, mid: string): string {
    if HasPrefix(mid, "\n") then before + mid[1..] else before + START + mid
  }

  function Closed(u: string, after: string): string {
    if EndsBlank(u) then u[..|u| - 1] + after else u + END + after
  }

  /** Neither boundary marker is quoted, nor formed where the start marker goes. */
  ghost predicate Bounded(before: string, mid: string, after: string) {
    && MarkerFree(before) && MarkerFree(mid) && MarkerFree(after)
    && (HasPrefix(mid, "\n") ==> MarkerFree(before + mid[1..]))
  }

  lemma StartReplaced(before: string, mid: string, after: string)
    requires Bounded(before, mid, after)
    ensures ReplaceAll(before + START + (mid + (END + after)), START + "\n", "") == Opened(before, mid) + END + after
  {
    StartIsMarker();
    EndIsMarker();
    NotBeside(mid, END, after, START);
    AppendAssociates(mid, END, after);
    ReplaceMark(before, START, mid + (END + after), "", "\n", "");
    WithoutText(before, START);
    BreakBefore(mid, END + after);
    if HasPrefix(mid, "\n") {
      Associated(before, mid[1..], END, after);
      NothingBetween(before, mid[1..] + (END + after));
      AppendAssociates(mid[1..], END, after);
    } else {
      AppendAssociates(mid, END, after);
      Associated(before + START, mid, END, after);
    }
  }

  lemma NothingBetween(a: string, b: string)
    ensures a + "" + b == a + b
  {
  }

  lemma WithoutText(before: string, m: string)
    ensures "" + m + "\n" == m + "\n" && HasSuffix(before, "") && before[..|before| - |""|] == before
  {
  }

  lemma EndReplaced(u: string, after: string)
    requires !Contains(u, END) && !Contains(after, END)
    ensures ReplaceAll(u + END + after, "\n\n" + END, "\n") == Closed(u, after)
  {
    EndIsMarker();
    ReplaceMark(u, END, after, "\n\n", "", "\n");
    NothingBehind(after, END);
    if EndsBlank(u) {
      OneBreakLeft(u);
    }
  }

  lemma NothingBehind(after: string, m: string)
    ensures "\n\n" + m + "" == "\n\n" + m && HasPrefix(after, "") && after[|""|..] == after
  {
  }

  lemma OpenedFree(before: string, mid: string, after: string)
    requires Bounded(before, mid, after)
    ensures !Contains(Opened(before, mid), END)
    ensures Contains(Opened(before, mid), START) <==> !HasPrefix(mid, "\n")
  {
    StartIsMarker();
    EndIsMarker();
    NotBeside(before, START, mid, END);
    Between(before, START, mid);
  }

  lemma ClosedEnd(u: string, after: string)
    requires !Contains(u, END) && !Contains(after, END)
    ensures Contains(Closed(u, after), END) <==> !EndsBlank(u)
  {
    EndIsMarker();
    if EndsBlank(u) {
      OneBreakLeft(u);
      FreePart(u, 0, |u| - 1, END);
      FreeAppend(u[..|u| - 1], after, END);
    } else {
      Between(u, END, after);
    }
  }

  lemma ClosedWithoutStart(u: string, after: string)
    requires !Contains(u, START) && !Contains(after, START)
    ensures !Contains(Closed(u, after), START)
  {
    StartIsMarker();
    EndIsMarker();
    if EndsBlank(u) {
      OneBreakLeft(u);
      FreePart(u, 0, |u| - 1, START);
      FreeAppend(u[..|u| - 1], after, START);
    } else {
      NotBeside(u, END, after, START);
    }
  }

  lemma ClosedWithStart(before: string, mid: string, after: string)
    ensures Contains(Closed(before + START + mid, after), START)
  {
    EndsWithMark(before);
    BlankBehind(before + START, mid);
    if EndsBlank(mid) {
      Between(before, START, mid[..|mid| - 1] + after);
      AppendAssociates(before + START, mid[..|mid| - 1], after);
    } else {
      Between(before, START, mid + END + after);
      Associated(before + START, mid, END, after);
    }
  }

  /** The start marker goes exactly when a line break follows it, the end marker exactly when a blank line then precedes it. */
  lemma BoundariesGoExactly(before: string, mid: string, after: string)
    requires Bounded(before, mid, after)
    ensures var r := DropBoundaries(before + START + mid + (END + after));
      && r == Closed(Opened(before, mid), after)
      && (Contains(r, START) <==> !HasPrefix(mid, "\n"))
      && (Contains(r, END) <==> !EndsBlank(Opened(before, mid)))
  {
    AppendAssociates(before + START, mid, END + after);
    StartReplaced(before, mid, after);
    OpenedFree(before, mid, after);
    EndReplaced(Opened(before, mid), after);
    ClosedEnd(Opened(before, mid), after);
    if HasPrefix(mid, "\n") {
      ClosedWithoutStart(Opened(before, mid), after);
    } else {
      ClosedWithStart(before, mid, after);
    }
  }

  /** ... and so for the whole scaffold, wherever its placeholders stand. */
  lemma BoundariesOfScaffoldGoExactly(p: Parts, c: UpstreamContent)
    requires Fillable(p, c) && Bounded(p.before, Middle(p, c), p.after)
    ensures var r := FillPlaceholders(ScaffoldText(p), c);
      && r == Closed(Opened(p.before, Middle(p, c)), p.after)
      && (Contains(r, START) <==> !HasPrefix(Middle(p, c), "\n"))
      && (Contains(r, END) <==> !EndsBlank(Opened(p.before, Middle(p, c))))
  {
    ContentsFilled(p, c);
    BoundariesGoExactly(p.before, Middle(p, c), p.after);
  }

  // ---------------------------------------------------------------- a scaffold in place

  /** Placeholders stand on lines of their own, blank lines around them, and the start marker ends its line. */
  predicate InPlace(p: Parts) {
    && HasPrefix(p.intro, "\n") && EndsBlank(p.afterVersion)
    && HasPrefix(p.afterVersions, "\n") && EndsBlank(p.afterVersions)
    && HasPrefix(p.afterBreaking, "\n") && EndsBlank(p.afterBreaking)
    && HasPrefix(p.afterOther, "\n") && EndsBlank(p.afterOther)
  }

  /** A placeholder's content between its neighbours; without content one of the blank lines goes too. */
  function Inserted(left: string, content: string, right: string): (r: string)
    requires |left| >= 2 && |right| >= 2
    ensures |r| >= 2
  {
    if content == "" then left[..|left| - 1] + right[1..] else left + content + right
  }

  function Body1(p: Parts, c: UpstreamContent): (r: string)
    requires InPlace(p)
    ensures |r| >= 2
  {
    Inserted(p.afterVersion, c.collectorVersions, p.afterVersions)
  }

  function Body2(p: Parts, c: UpstreamContent): (r: string)
    requires InPlace(p)
    ensures |r| >= 2
  {
    Inserted(Body1(p, c), c.breakingChanges, p.afterBreaking)
  }

  /** The part behind the version, up to the end marker. */
  function Body(p: Parts, c: UpstreamContent): (r: string)
    requires InPlace(p)
    ensures |r| >= 2
  {
    Inserted(Body2(p, c), c.otherChanges, p.afterOther)
  }

  /** What filling is to make of a scaffold. */
  function Filled(p: Parts, c: UpstreamContent): string
    requires InPlace(p)
  {
    var body := Body(p, c);
    p.before + p.intro[1..] + c.versionIntro + body[..|body| - 1] + p.after
  }

  ghost predicate SilentContent(c: UpstreamContent) {
    Silent(c.collectorVersions) && Silent(c.breakingChanges) && Silent(c.otherChanges)
  }

  /** The contents quote no marker, and none is formed where the version is filled in and the start marker goes. */
  ghost predicate Fits(p: Parts, c: UpstreamContent) {
    && InPlace(p) && SilentParts(p) && SilentContent(c)
    && Silent(p.before + (p.intro[1..] + c.versionIntro + p.afterVersion))
  }

  lemma EndsBlankBehind(x: string, s: string)
    requires EndsBlank(s)
    ensures EndsBlank(x + s)
  {
    assert (x + s)[|x + s| - 2..] == s[|s| - 2..];
  }

  lemma InsertedIsBlank(left: string, content: string, right: string)
    requires EndsBlank(left) && HasPrefix(right, "\n") && EndsBlank(right)
    ensures EndsBlank(Inserted(left, content, right))
  {
    OneBreakLeft(left);
    if content == "" {
      var r := left[..|left| - 1] + right[1..];
      assert right[|right| - 2..][0] == right[|right| - 2] && right[|right| - 2..][1] == right[|right| - 1];
      assert r[|r| - 1] == '\n' && r[|r| - 2] == '\n';
      assert r[|r| - 2..] == "\n\n";
    } else {
      EndsBlankBehind(left + content, right);
    }
  }

  lemma PutInPlace(x: string, left: string, m: string, right: string, content: string)
    requires EndsBlank(left) && HasPrefix(right, "\n") && |right| >= 2
    ensures Put(x + left, m, right, content) == x + Inserted(left, content, right)
  {
    EndsBlankBehind(x, left);
    if content == "" {
      assert (x + left)[..|x + left| - 1] == x + left[..|left| - 1];
      AppendAssociates(x, left[..|left| - 1], right[1..]);
    } else {
      Associated(x, left, content, right);
    }
  }

  lemma InsertedFree(x: string, left: string, content: string, right: string, m: string)
    requires IsMarker(m) && EndsBlank(left) && HasPrefix(right, "\n") && |right| >= 2
    requires !Contains(x + left, m) && !Contains(content, m) && !Contains(right, m)
    ensures !Contains(x + Inserted(left, content, right), m)
  {
    PutInPlace(x, left, m, right, content);
    EndsBlankBehind(x, left);
    OneBreakLeft(x + left);
    if content == "" {
      FreePart(x + left, 0, |x + left| - 1, m);
      FreePart(right, 1, |right|, m);
      assert right[1..|right|] == right[1..];
      FreeAppend((x + left)[..|x + left| - 1], right[1..], m);
    } else {
      assert (x + left)[|x + left| - 1] == '\n' by {
        assert (x + left)[|x + left| - 2..][1] == (x + left)[|x + left| - 1];
      }
      FreeAppend(x + left, content, m);
      assert right[0] == right[..1][0];
      FreeAppend(x + left + content, right, m);
    }
  }

  lemma BodyIsBlank(p: Parts, c: UpstreamContent)
    requires InPlace(p)
    ensures EndsBlank(Body1(p, c)) && EndsBlank(Body2(p, c)) && EndsBlank(Body(p, c))
  {
    InsertedIsBlank(p.afterVersion, c.collectorVersions, p.afterVersions);
    InsertedIsBlank(Body1(p, c), c.breakingChanges, p.afterBreaking);
    InsertedIsBlank(Body2(p, c), c.otherChanges, p.afterOther);
  }

  lemma BodyFree(x: string, p: Parts, c: UpstreamContent, m: string)
    requires InPlace(p) && IsMarker(m) && !Contains(x + p.afterVersion, m)
    requires !Contains(c.collectorVersions, m) && !Contains(c.breakingChanges, m) && !Contains(c.otherChanges, m)
    requires !Contains(p.afterVersions, m) && !Contains(p.afterBreaking, m) && !Contains(p.afterOther, m)
    ensures !Contains(x + Body1(p, c), m) && !Contains(x + Body2(p, c), m) && !Contains(x + Body(p, c), m)
  {
    BodyIsBlank(p, c);
    InsertedFree(x, p.afterVersion, c.collectorVersions, p.afterVersions, m);
    InsertedFree(x, Body1(p, c), c.breakingChanges, p.afterBreaking, m);
    InsertedFree(x, Body2(p, c), c.otherChanges, p.afterOther, m);
  }

  lemma MidsInPlace(p: Parts, c: UpstreamContent)
    requires InPlace(p)
    ensures var x := p.intro + c.versionIntro;
      && Mid1(p, c) == x + Body1(p, c) && Mid2(p, c) == x + Body2(p, c) && Middle(p, c) == x + Body(p, c)
  {
    var x := p.intro + c.versionIntro;
    BodyIsBlank(p, c);
    PutInPlace(x, p.afterVersion, VERSIONS, p.afterVersions, c.collectorVersions);
    PutInPlace(x, Body1(p, c), BREAKING, p.afterBreaking, c.breakingChanges);
    PutInPlace(x, Body2(p, c), OTHER, p.afterOther, c.otherChanges);
  }

  lemma BehindBreak(p: Parts, c: UpstreamContent, b: string)
    requires HasPrefix(p.intro, "\n")
    ensures var mid := p.intro + c.versionIntro + b;
      HasPrefix(mid, "\n") && mid == "\n" + mid[1..] && mid[1..] == p.intro[1..] + c.versionIntro + b
  {
    var mid := p.intro + c.versionIntro + b;
    assert mid[..1] == p.intro[..1];
  }

  /** What is free of a marker in front of the start marker's place and behind it, is so behind it alone. */
  lemma FreeBehind(p: Parts, c: UpstreamContent, m: string)
    requires Fits(p, c) && IsMarker(m) && !Contains(p.before + (p.intro[1..] + c.versionIntro + p.afterVersion), m)
    ensures !Contains(Mid0(p, c), m)
  {
    var s := p.before + (p.intro[1..] + c.versionIntro + p.afterVersion);
    BehindBreak(p, c, p.afterVersion);
    FreePart(s, |p.before|, |s|, m);
    assert s[|p.before|..|s|] == Mid0(p, c)[1..];
    assert !Contains("\n", m);
    FreeAppend("\n", Mid0(p, c)[1..], m);
  }

  lemma FillableInPlace(p: Parts, c: UpstreamContent)
    requires Fits(p, c)
    ensures Fillable(p, c)
  {
    MarkersAreMarkers();
    FreeBehind(p, c, VERSIONS);
    FreeBehind(p, c, BREAKING);
    FreeBehind(p, c, OTHER);
    MidsInPlace(p, c);
    BodyFree(p.intro + c.versionIntro, p, c, BREAKING);
    BodyFree(p.intro + c.versionIntro, p, c, OTHER);
  }

  /** The text in front of the end marker when all is filled in. */
  function FilledFront(p: Parts, c: UpstreamContent): string
    requires InPlace(p)
  {
    p.before + (p.intro[1..] + c.versionIntro + Body(p, c))
  }

  lemma FilledFrontFree(p: Parts, c: UpstreamContent, m: string)
    requires Fits(p, c) && IsMarker(m) && !Contains(p.before + (p.intro[1..] + c.versionIntro + p.afterVersion), m)
    requires !Contains(c.collectorVersions, m) && !Contains(c.breakingChanges, m) && !Contains(c.otherChanges, m)
    requires !Contains(p.afterVersions, m) && !Contains(p.afterBreaking, m) && !Contains(p.afterOther, m)
    ensures !Contains(FilledFront(p, c), m) && !Contains(Middle(p, c), m)
  {
    var x := p.before + (p.intro[1..] + c.versionIntro);
    AppendAssociates(p.before, p.intro[1..] + c.versionIntro, p.afterVersion);
    AppendAssociates(p.before, p.intro[1..] + c.versionIntro, Body(p, c));
    BodyFree(x, p, c, m);
    FreeBehind(p, c, m);
    BodyFree(p.intro + c.versionIntro, p, c, m);
    MidsInPlace(p, c);
  }

  lemma BoundedInPlace(p: Parts, c: UpstreamContent)
    requires Fits(p, c)
    ensures Bounded(p.before, Middle(p, c), p.after)
    ensures HasPrefix(Middle(p, c), "\n") && Opened(p.before, Middle(p, c)) == FilledFront(p, c)
  {
    MarkersAreMarkers();
    FilledFrontFree(p, c, START);
    FilledFrontFree(p, c, END);
    MidsInPlace(p, c);
    BehindBreak(p, c, Body(p, c));
  }

  lemma ClosedInPlace(p: Parts, c: UpstreamContent)
    requires InPlace(p)
    ensures EndsBlank(FilledFront(p, c)) && Closed(FilledFront(p, c), p.after) == Filled(p, c)
  {
    var x, body := p.before + p.intro[1..] + c.versionIntro, Body(p, c);
    BodyIsBlank(p, c);
    assert FilledFront(p, c) == x + body;
    EndsBlankBehind(x, body);
    assert (x + body)[..|x + body| - 1] == x + body[..|body| - 1];
  }

  lemma FilledFree(p: Parts, c: UpstreamContent, m: string)
    requires InPlace(p) && IsMarker(m) && !Contains(FilledFront(p, c), m) && !Contains(p.after, m)
    ensures !Contains(Filled(p, c), m)
  {
    var u := FilledFront(p, c);
    ClosedInPlace(p, c);
    OneBreakLeft(u);
    FreePart(u, 0, |u| - 1, m);
    FreeAppend(u[..|u| - 1], p.after, m);
  }

  lemma FilledIsSilent(p: Parts, c: UpstreamContent)
    requires Fits(p, c)
    ensures Silent(Filled(p, c))
  {
    MarkersAreMarkers();
    FilledFrontFree(p, c, START);
    FilledFrontFree(p, c, END);
    FilledFrontFree(p, c, VERSION);
    FilledFrontFree(p, c, VERSIONS);
    FilledFrontFree(p, c, BREAKING);
    FilledFrontFree(p, c, OTHER);
    FilledFree(p, c, START);
    FilledFree(p, c, END);
    FilledFree(p, c, VERSION);
    FilledFree(p, c, VERSIONS);
    FilledFree(p, c, BREAKING);
    FilledFree(p, c, OTHER);
  }

  /**
   Filling a scaffold puts every content in its place, changes nothing else but the line breaks
   next to an empty placeholder and to the boundary markers, and leaves no marker behind.
   */
  lemma FillsTheScaffold(p: Parts, c: UpstreamContent)
    requires Fits(p, c)
    ensures FillPlaceholders(ScaffoldText(p), c) == Filled(p, c)
    ensures Silent(Filled(p, c))
  {
    FillableInPlace(p, c);
    BoundedInPlace(p, c);
    BoundariesOfScaffoldGoExactly(p, c);
    ClosedInPlace(p, c);
    FilledIsSilent(p, c);
  }

  // ---------------------------------------------------------------- where it fails

  /** A content takes the placeholder's place and no other exactly when nothing around it, filled in before, quotes it, or the content is the placeholder. */
  lemma FillsOneExactly(x: string, m: string, y: string, content: string)
    requires IsMarker(m) && content != ""
    ensures FillOrRemove(x + m + y, m, content) == Put(x, m, y, content) <==> (!Contains(x, m) && !Contains(y, m)) || content == m
  {
    ReplacesOneExactly(x, m, y, content);
  }

  /** A content that quotes a placeholder filled later is filled too. */
  lemma QuotedMarkerIsFilled(x: string, m: string, y: string, z: string, later: string)
    requires IsMarker(m) && later != "" && !Contains(x, m) && !Contains(y, m) && !Contains(z, m)
    ensures FillOrRemove(x + m + (y + m + z), m, later) == x + later + (y + later + z)
  {
    var s := x + m + (y + m + z);
    FoundBehind(x, m, y + m + z);
    ReplaceFirst(s, m, |x|, later);
    assert s[|x| + |m|..] == y + m + z && s[..|x|] == x;
    ReplacesAlone(y, m, z, later);
  }

  lemma OccurrenceBegins(t: string, m: string, i: nat)
    requires OccursAt(t, m, i) && m != ""
    ensures m[0] in t
  {
    OccurrenceSpan(t, m, i);
    assert t[i] in t;
  }

  lemma TaglessIsFree(t: string, m: string)
    requires IsMarker(m) && '<' !in t
    ensures !Contains(t, m)
  {
    assert m[0] == LEAD[0] == '<';
    if i :| 0 <= i <= |t| && OccursAt(t, m, i) {
      OccurrenceBegins(t, m, i);
    }
  }

  lemma TaglessIsSilent(t: string)
    requires '<' !in t
    ensures Silent(t)
  {
    MarkersAreMarkers();
    TaglessIsFree(t, START);
    TaglessIsFree(t, END);
    TaglessIsFree(t, VERSION);
    TaglessIsFree(t, VERSIONS);
    TaglessIsFree(t, BREAKING);
    TaglessIsFree(t, OTHER);
  }

  lemma PutTagless(left: string, m: string, right: string, content: string)
    requires content != "" && '<' !in left && '<' !in content && '<' !in right
    ensures var r := Put(left, m, right, content);
      '<' !in r && (left != "" ==> r != "" && r[0] == left[0]) && (right != "" ==> r != "" && r[|r| - 1] == right[|right| - 1])
  {
  }

  /** A section whose text begins on the line of the start marker and ends on that of the end marker. */
  const INLINE := Parts("", " ", "\n\n", "\n\n", "\n\n", "\n.", "")

  lemma InlineMids(c: UpstreamContent)
    requires '<' !in c.versionIntro && '<' !in c.collectorVersions && '<' !in c.breakingChanges && '<' !in c.otherChanges
    requires c.collectorVersions != "" && c.breakingChanges != "" && c.otherChanges != ""
    ensures '<' !in Mid0(INLINE, c) && '<' !in Mid1(INLINE, c) && '<' !in Mid2(INLINE, c) && '<' !in Middle(INLINE, c)
    ensures var mid := Middle(INLINE, c); mid != "" && mid[0] == ' ' && mid[|mid| - 1] == '.'
  {
    PutTagless(Mid0(INLINE, c), VERSIONS, "\n\n", c.collectorVersions);
    PutTagless(Mid1(INLINE, c), BREAKING, "\n\n", c.breakingChanges);
    PutTagless(Mid2(INLINE, c), OTHER, "\n.", c.otherChanges);
  }

  /** Such a section keeps both boundary markers. */
  lemma BoundariesStay(c: UpstreamContent)
    requires '<' !in c.versionIntro && '<' !in c.collectorVersions && '<' !in c.breakingChanges && '<' !in c.otherChanges
    requires c.collectorVersions != "" && c.breakingChanges != "" && c.otherChanges != ""
    ensures var r := FillPlaceholders(ScaffoldText(INLINE), c);
      Contains(r, START) && Contains(r, END)
  {
    var mid := Middle(INLINE, c);
    InlineMids(c);
    TaglessIsSilent("");
    TaglessIsSilent(" ");
    TaglessIsSilent("\n\n");
    TaglessIsSilent("\n.");
    TaglessIsSilent(Mid0(INLINE, c));
    TaglessIsSilent(Mid1(INLINE, c));
    TaglessIsSilent(Mid2(INLINE, c));
    TaglessIsSilent(mid);
    NotBreaking(mid);
    BoundariesOfScaffoldGoExactly(INLINE, c);
    EndsWithMark("");
    BlankBehind("" + START, mid);
  }

  lemma NotBreaking(s: string)
    requires s != "" && s[0] == ' ' && s[|s| - 1] == '.'
    ensures !HasPrefix(s, "\n") && !EndsBlank(s)
  {
    assert s[..1][0] == s[0];
    assert |s| >= 2 ==> s[|s| - 2..][1] == s[|s| - 1];
  }
}
