/** The section as the changelog's template lays it out, filled and removed. */
module ReleaseTemplate {
  import opened Sequences
  import opened Text
  import opened Markers
  import opened ChangelogEntries
  import opened UpstreamRender
  import opened UpstreamSection
  import opened Scaffold
  import opened ChangelogRun
  import UpstreamTexts

  const VERSION_LINE := "This release includes version "
  const BEHIND_VERSION := " of the upstream Collector components.\n\n"
    + "The individual upstream Collector " + "changelogs can be found here:\n\n"
  const HIGHLIGHTS := "<details>\n<summary>" + "Highlights from the " + "upstream Collector changelog" + "</summary>\n\n"
  const BEHIND_HIGHLIGHTS := "\n\n---\n\n</details>\n"

  /** The template between what stands before and behind it. */
  function Template(before: string, after: string): string {
    before + "<!-- upstream-start -->" + ("\n" + VERSION_LINE) + "<!-- upstream-version -->" + (BEHIND_VERSION + TemplateEnd(after))
  }

  function TemplateEnd(after: string): string {
    "<!-- upstream-collector-versions -->" + "\n\n"
    + ("<!-- upstream-breaking-changes -->" + ("\n\n" + HIGHLIGHTS)
       + ("<!-- upstream-other-changes -->" + (BEHIND_HIGHLIGHTS + "\n") + ("<!-- upstream-end -->" + after)))
  }

  /** What is to come of it. */
  function Released(before: string, c: UpstreamContent, after: string): string {
    before + VERSION_LINE + c.versionIntro + (BEHIND_VERSION + c.collectorVersions + SetApart(c) + HIGHLIGHTS + c.otherChanges + BEHIND_HIGHLIGHTS) + after
  }

  /** The breaking changes between their blank lines. */
  function SetApart(c: UpstreamContent): string {
    if c.breakingChanges == "" then "\n\n" else "\n\n" + c.breakingChanges + "\n\n"
  }

  function PartsOf(before: string, after: string): Parts {
    Parts(before, "\n" + VERSION_LINE, BEHIND_VERSION, "\n\n", "\n\n" + HIGHLIGHTS, BEHIND_HIGHLIGHTS + "\n", after)
  }

  /** No comment begins in the text. */
  predicate NoComment(s: string) {
    forall k :: 0 <= k < |s| - 1 ==> !(s[k] == '<' && s[k + 1] == '!')
  }

  lemma NoCommentIsFree(s: string, m: string)
    requires NoComment(s) && IsMarker(m)
    ensures !Contains(s, m)
  {
    assert m[0] == LEAD[0] == '<' && m[1] == LEAD[1] == '!';
    if i :| 0 <= i <= |s| && OccursAt(s, m, i) {
      OccurrenceSpan(s, m, i);
      assert s[i] == m[0] && s[i + 1] == m[1];
    }
  }

  lemma NoCommentIsSilent(s: string)
    requires NoComment(s)
    ensures Silent(s)
  {
    MarkersAreMarkers();
    NoCommentIsFree(s, START);
    NoCommentIsFree(s, END);
    NoCommentIsFree(s, VERSION);
    NoCommentIsFree(s, VERSIONS);
    NoCommentIsFree(s, BREAKING);
    NoCommentIsFree(s, OTHER);
  }

  lemma NoCommentAppend(a: string, b: string)
    requires NoComment(a) && NoComment(b) && (b == "" || b[0] != '!')
    ensures NoComment(a + b)
  {
  }

  lemma LinesHaveNoTag()
    ensures '<' !in VERSION_LINE && '<' !in BEHIND_VERSION
  {
  }

  lemma HighlightsHaveNoComment()
    ensures NoComment(HIGHLIGHTS)
  {
  }

  lemma EndHasNoComment()
    ensures NoComment(BEHIND_HIGHLIGHTS)
  {
  }

  lemma PiecesAreSilent(before: string, after: string)
    requires Silent(before) && Silent(after)
    ensures SilentParts(PartsOf(before, after))
  {
    LinesHaveNoTag();
    HighlightsHaveNoComment();
    EndHasNoComment();
    NoCommentAppend("\n\n", HIGHLIGHTS);
    NoCommentAppend(BEHIND_HIGHLIGHTS, "\n");
    TaglessIsSilent("\n" + VERSION_LINE);
    TaglessIsSilent(BEHIND_VERSION);
    TaglessIsSilent("\n\n");
    NoCommentIsSilent("\n\n" + HIGHLIGHTS);
    NoCommentIsSilent(BEHIND_HIGHLIGHTS + "\n");
  }

  /** The text in front ends a line, if there is any. */
  predicate EndsLine(s: string) {
    s == "" || s[|s| - 1] == '\n'
  }

  lemma FrontIsSilent(before: string, line: string)
    requires Silent(before) && EndsLine(before) && '<' !in line
    ensures Silent(before + line)
  {
    TaglessIsSilent(line);
    MarkersAreMarkers();
    FreeAppend(before, line, START);
    FreeAppend(before, line, END);
    FreeAppend(before, line, VERSION);
    FreeAppend(before, line, VERSIONS);
    FreeAppend(before, line, BREAKING);
    FreeAppend(before, line, OTHER);
  }

  lemma TemplateIsInPlace(before: string, after: string)
    ensures InPlace(PartsOf(before, after))
  {
  }

  lemma TemplateFits(before: string, c: UpstreamContent, after: string)
    requires Silent(before) && EndsLine(before) && Silent(after) && SilentContent(c) && '<' !in c.versionIntro
    ensures Fits(PartsOf(before, after), c)
  {
    var p := PartsOf(before, after);
    PiecesAreSilent(before, after);
    TemplateIsInPlace(before, after);
    LinesHaveNoTag();
    assert p.intro[1..] == VERSION_LINE;
    FrontIsSilent(before, VERSION_LINE + c.versionIntro + BEHIND_VERSION);
  }

  lemma TemplateIsScaffold(before: string, after: string)
    ensures ScaffoldText(PartsOf(before, after)) == Template(before, after)
  {
    MarkersSpelled();
  }

  lemma ReleasedIsFilled(before: string, c: UpstreamContent, after: string)
    requires c.collectorVersions != "" && c.otherChanges != "" && InPlace(PartsOf(before, after))
    ensures Filled(PartsOf(before, after), c) == Released(before, c, after)
  {
    var p := PartsOf(before, after);
    BreakingInserted(BEHIND_VERSION + c.collectorVersions, c, HIGHLIGHTS);
    LineDropped(Body2(p, c) + c.otherChanges, BEHIND_HIGHLIGHTS);
    assert p.intro[1..] == VERSION_LINE;
  }

  lemma BreakingInserted(s: string, c: UpstreamContent, h: string)
    ensures |s + "\n\n"| >= 2 && |"\n\n" + h| >= 2
    ensures Inserted(s + "\n\n", c.breakingChanges, "\n\n" + h) == s + SetApart(c) + h
  {
    if c.breakingChanges == "" {
      assert (s + "\n\n")[..|s + "\n\n"| - 1] == s + "\n" && ("\n\n" + h)[1..] == "\n" + h;
    }
  }

  lemma LineDropped(s: string, t: string)
    ensures (s + (t + "\n"))[..|s + (t + "\n")| - 1] == s + t
  {
  }

  /** The template filled: every line of it stays, with the contents in their places and the markers gone. */
  lemma TemplateFilled(before: string, c: UpstreamContent, after: string)
    requires Silent(before) && EndsLine(before) && Silent(after) && SilentContent(c)
    requires '<' !in c.versionIntro && c.collectorVersions != "" && c.otherChanges != ""
    ensures FillPlaceholders(Template(before, after), c) == Released(before, c, after) && Silent(Released(before, c, after))
  {
    TemplateFits(before, c, after);
    TemplateIsScaffold(before, after);
    ReleasedIsFilled(before, c, after);
    FillsTheScaffold(PartsOf(before, after), c);
  }

  // ---------------------------------------------------------------- with generated content

  lemma {:induction false} IntroHasNo(vs: seq<string>, c: char)
    requires Without(vs, c) && c !in ", and "
    ensures c !in JoinVersions(vs)
  {
    if |vs| > 2 {
      var front := vs[..|vs| - 1];
      Semver.JoinAvoids(front, ", ", c);
      assert c !in Join(front, ", ") && c !in vs[|vs| - 1];
    }
  }

  lemma {:induction false} GeneratedIntroHasNoTag(fc: FilteredChangelog)
    requires Generated(fc) != ZERO
    ensures '<' !in Generated(fc).versionIntro
  {
    AnnouncedHaveNo(fc, '<');
    VersionsHaveNoTag(Announced(fc));
  }

  lemma {:induction false} VersionsHaveNoTag(vs: seq<string>)
    requires Without(vs, '<')
    ensures '<' !in JoinVersions(vs)
  {
    assert '<' !in ", and ";
    IntroHasNo(vs, '<');
  }

  lemma GeneratedLinksAreThere(fc: FilteredChangelog)
    requires Generated(fc) != ZERO
    ensures Generated(fc).collectorVersions != ""
  {
    UpstreamTexts.VersionsWritten(fc);
    var core, contrib := Or(fc.coreRepoUrl, CORE_URL), Or(fc.contribRepoUrl, CONTRIB_URL);
    var blocks := UpstreamTexts.Blocks(core, contrib, Announced(fc));
    UpstreamTexts.BlockEnds(core, contrib, Announced(fc)[|blocks| - 1]);
    UpstreamTexts.JoinEnds(blocks, "\n\n");
  }

  /** The text begins with a header, if there is any. */
  predicate HeaderFirst(s: string) {
    s == "" || s[0] == '#'
  }

  lemma SectionAdded(sb: string, header: string, es: seq<Entry>)
    requires HeaderFirst(sb) && header != "" && header[0] == '#'
    ensures HeaderFirst(AddSection(sb, header, es))
  {
    var s := Spaced(sb, Section(header, es));
    assert Section(header, es)[0] == '#';
    assert s[0] == if sb == "" then Section(header, es)[0] else sb[0];
  }

  lemma GeneratedHighlightsAreThere(fc: FilteredChangelog)
    requires Generated(fc) != ZERO
    ensures Generated(fc).otherChanges != ""
  {
    var s1 := AddSection("", DEPRECATIONS_HEADER, fc.deprecations);
    SectionAdded("", DEPRECATIONS_HEADER, fc.deprecations);
    var s2 := AddSection(s1, COMPONENTS_HEADER, fc.newComponents);
    SectionAdded(s1, COMPONENTS_HEADER, fc.newComponents);
    var s3 := AddSection(s2, ENHANCEMENTS_HEADER, fc.enhancements);
    SectionAdded(s2, ENHANCEMENTS_HEADER, fc.enhancements);
    SectionAdded(s3, BUG_FIXES_HEADER, fc.bugFixes);
    UpstreamTexts.TrimsBreaks(OtherSections(fc));
  }

  /**
   A run with URLs on a changelog made from the template writes the released text, its markers
   gone, as long as no fetched note or URL quotes one.
   */
  lemma RunFillsTheTemplate(fetch: Fetch, urls: seq<string>, s: Settings, before: string, after: string)
    requires urls != [] && RunResult(fetch, urls, s, Template(before, after)).Rewritten?
    requires Silent(before) && EndsLine(before) && Silent(after) && SilentContent(ContentOf(FetchAll(fetch, urls).value, s))
    ensures var text := RunResult(fetch, urls, s, Template(before, after)).text;
      text == Released(before, ContentOf(FetchAll(fetch, urls).value, s), after) && Silent(text)
  {
    var fc := FilterResult(FetchAll(fetch, urls).value, s.manifest, s.config).(distVersion := Versions.CanonicalVersion(s.distVersion));
    RunWithUrlsFills(fetch, urls, s, Template(before, after));
    assert Generated(fc) == ContentOf(FetchAll(fetch, urls).value, s);
    GeneratedIntroHasNoTag(fc);
    GeneratedLinksAreThere(fc);
    GeneratedHighlightsAreThere(fc);
    TemplateFilled(before, Generated(fc), after);
  }


  // ---------------------------------------------------------------- removed

  /** What stands between the boundary markers. */
  function Bracketed(p: Parts): string {
    p.intro + VERSION + BehindVersion(p)
  }

  function BehindVersion(p: Parts): string {
    p.afterVersion + VERSIONS + BehindVersions(p)
  }

  function BehindVersions(p: Parts): string {
    p.afterVersions + BREAKING + (p.afterBreaking + OTHER + p.afterOther)
  }

  lemma BracketedIsMarkerFree(p: Parts, m: string)
    requires SilentParts(p) && (m == START || m == END)
    ensures !Contains(Bracketed(p), m)
  {
    MarkersAreMarkers();
    NotBeside(p.afterBreaking, OTHER, p.afterOther, m);
    NotBeside(p.afterVersions, BREAKING, p.afterBreaking + OTHER + p.afterOther, m);
    NotBeside(p.afterVersion, VERSIONS, BehindVersions(p), m);
    NotBeside(p.intro, VERSION, BehindVersion(p), m);
  }

  lemma Peel(x: string, m: string, y: string, f: string, t: string, e: string)
    requires y + f == t + e
    ensures x + (m + y + f) == (x + m + t) + e
  {
    AppendAssociates(m, y, f);
    AppendAssociates(m, t, e);
    AppendAssociates(x, m + t, e);
    AppendAssociates(x, m, t);
  }

  lemma ScaffoldAround(p: Parts)
    ensures ScaffoldText(p) == p.before + START + Bracketed(p) + END + p.after
  {
    var e := Closing(p);
    Peel(p.afterBreaking, OTHER, p.afterOther, e, p.afterOther, e);
    Peel(p.afterVersions, BREAKING, p.afterBreaking, FromOther(p), p.afterBreaking + OTHER + p.afterOther, e);
    Peel(p.afterVersion, VERSIONS, p.afterVersions, FromBreaking(p), BehindVersions(p), e);
    var head := p.before + START;
    AppendAssociates(head, p.intro + VERSION, BehindVersion(p) + e);
    AppendAssociates(head, p.intro, VERSION);
    AppendAssociates(p.intro + VERSION, BehindVersion(p), e);
    AppendAssociates(head, Bracketed(p), e);
    AppendAssociates(head + Bracketed(p), END, p.after);
  }

  /** Without URLs the template's section goes and one blank line stays. */
  lemma RunRemovesTheTemplate(fetch: Fetch, s: Settings, before: string, a: string, b: string, after: string)
    requires !s.dryRun && Silent(before + a) && Silent(b + after)
    requires AllIn(a, " \t\n") && (before == "" || before[|before| - 1] !in " \t\n")
    requires AllIn(b, " \t\n") && (after == "" || after[0] !in " \t\n")
    ensures RunResult(fetch, [], s, Template(before + a, b + after)) == Rewritten(before + "\n\n" + after)
  {
    var p := PartsOf(before + a, b + after);
    TemplateIsScaffold(before + a, b + after);
    PiecesAreSilent(before + a, b + after);
    BracketedIsMarkerFree(p, START);
    BracketedIsMarkerFree(p, END);
    ScaffoldAround(p);
    MarkersSpelled();
    OneBlankLineStays(before, a, Bracketed(p), b, after);
  }
}
