/** Rendering the filtered changelog into the pieces that replace the placeholders. */
module UpstreamRender {
  import opened Sequences
  import opened Text
  import opened Grouping
  import Semver
  import opened Versions
  import opened ChangelogEntries

  datatype UpstreamContent =
    UpstreamContent(versionIntro: string, collectorVersions: string, breakingChanges: string, otherChanges: string)

  const ZERO := UpstreamContent("", "", "", "")

  const CORE_URL := "https://github.com/open-telemetry/opentelemetry-collector"
  const CONTRIB_URL := "https://github.com/open-telemetry/opentelemetry-collector-contrib"
  const NO_HIGHLIGHTS := "No upstream highlights for this release."

  const BREAKING_HEADER := "### \U{1F6D1} Breaking changes \U{1F6D1}\n\n"
  const DEPRECATIONS_HEADER := "### \U{26A0}\U{FE0F} Deprecations \U{26A0}\U{FE0F}\n\n"
  const COMPONENTS_HEADER := "### \U{1F680} New components \U{1F680}\n\n"
  const ENHANCEMENTS_HEADER := "### \U{1F4A1} Enhancements \U{1F4A1}\n\n"
  const BUG_FIXES_HEADER := "### \U{1F9F0} Bug fixes \U{1F9F0}\n\n"

  predicate LineBreak(c: char) {
    c == '\n'
  }

  // ---------------------------------------------------------------- one entry

  function IntText(n: int): string {
    if n < 0 then "-" + Decimal(-n) else Decimal(n)
  }

  function IssueLink(url: string, n: int): string {
    "[#" + IntText(n) + "](" + url + "/issues/" + IntText(n) + ")"
  }

  function IssueLinks(issues: seq<int>, url: string): string {
    Join(seq(|issues|, i requires 0 <= i < |issues| => IssueLink(url, issues[i])), ", ")
  }

  function SubtextLine(line: string): string {
    if line == "" then "\n" else "  " + line + "\n"
  }

  function HeadlineWith(e: Entry, links: string): string {
    if links != "" then "- `" + e.component + "`: " + e.note + " (" + links + ")\n"
    else "- `" + e.component + "`: " + e.note + "\n"
  }

  function Headline(e: Entry): string {
    HeadlineWith(e, IssueLinks(e.issues, e.repoUrl))
  }

  function SubtextText(subtext: string): string {
    if subtext != "" then ConcatMap(SubtextLine, Split(subtext, '\n')) else ""
  }

  function EntryText(e: Entry): string {
    Headline(e) + SubtextText(e.subtext)
  }

  method BuildIssueLinks(issues: seq<int>, repoUrl: string) returns (links: string)
    ensures links == IssueLinks(issues, repoUrl)
  {
    if |issues| == 0 {
      return "";
    }
    var parts: seq<string> := [];
    for i := 0 to |issues|
      invariant |parts| == i && forall j :: 0 <= j < i ==> parts[j] == IssueLink(repoUrl, issues[j])
    {
      parts := parts + ["[#" + IntText(issues[i]) + "](" + repoUrl + "/issues/" + IntText(issues[i]) + ")"];
    }
    assert parts == seq(|issues|, i requires 0 <= i < |issues| => IssueLink(repoUrl, issues[i]));
    links := Join(parts, ", ");
  }

  method WriteSubtext(sb: string, lines: seq<string>) returns (r: string)
    ensures r == sb + ConcatMap(SubtextLine, lines)
  {
    r := sb;
    for i := 0 to |lines|
      invariant r == sb + ConcatMap(SubtextLine, lines[..i])
    {
      var line := lines[i];
      ConcatMapTurn(SubtextLine, lines, i);
      AppendAssociates(sb, ConcatMap(SubtextLine, lines[..i]), SubtextLine(line));
      if line == "" {
        r := r + "\n";
      } else {
        r := r + ("  " + line + "\n");
      }
    }
    assert lines[..|lines|] == lines;
  }

  method WriteEntry(sb: string, e: Entry) returns (r: string)
    ensures r == sb + EntryText(e)
  {
    var links := BuildIssueLinks(e.issues, e.repoUrl);
    if links != "" {
      r := sb + ("- `" + e.component + "`: " + e.note + " (" + links + ")\n");
    } else {
      r := sb + ("- `" + e.component + "`: " + e.note + "\n");
    }
    AppendAssociates(sb, Headline(e), SubtextText(e.subtext));
    if e.subtext != "" {
      r := WriteSubtext(r, Split(e.subtext, '\n'));
    }
  }

  // ---------------------------------------------------------------- one section

  function EntriesText(es: seq<Entry>): string {
    ConcatMap(EntryText, es)
  }

  lemma KeepTextTurn<T>(f: T -> string, p: T -> bool, xs: seq<T>, i: nat)
    requires i < |xs|
    ensures ConcatMap(f, Keep(p, xs[..i + 1])) == ConcatMap(f, Keep(p, xs[..i])) + if p(xs[i]) then f(xs[i]) else ""
  {
    KeepTurn(p, xs, i);
    ConcatMapExtend(f, Keep(p, xs[..i]), xs[i]);
  }

  /** One turn of the outer loop of writeEntries. */
  method WriteEntriesOf(sb: string, entries: seq<Entry>, source: Source) returns (r: string)
    ensures r == sb + EntriesText(Keep(FromSource(source), entries))
  {
    r := sb;
    for i := 0 to |entries|
      invariant r == sb + ConcatMap(EntryText, Keep(FromSource(source), entries[..i]))
    {
      var e := entries[i];
      KeepTextTurn(EntryText, FromSource(source), entries, i);
      ghost var done := ConcatMap(EntryText, Keep(FromSource(source), entries[..i]));
      if e.source != source {
        continue;
      }
      AppendAssociates(sb, done, EntryText(e));
      r := WriteEntry(r, e);
    }
    assert entries[..|entries|] == entries;
  }

  method WriteEntries(sb: string, entries: seq<Entry>) returns (r: string)
    ensures r == sb + EntriesText(Written(entries))
  {
    ghost var core, contrib := Keep(FromSource(Core), entries), Keep(FromSource(Contrib), entries);
    ConcatMapAppend(EntryText, core, contrib);
    AppendAssociates(sb, EntriesText(core), EntriesText(contrib));
    r := WriteEntriesOf(sb, entries, Core);
    r := WriteEntriesOf(r, entries, Contrib);
  }

  function Section(header: string, entries: seq<Entry>): string {
    header + EntriesText(Written(entries))
  }

  /** The text with a section behind it, a line break between the two. */
  function Spaced(sb: string, section: string): string {
    sb + (if sb == "" then "" else "\n") + section
  }

  function AddSection(sb: string, header: string, entries: seq<Entry>): string {
    if entries == [] then sb else Spaced(sb, Section(header, entries))
  }

  function OtherSections(fc: FilteredChangelog): string {
    var s1 := AddSection("", DEPRECATIONS_HEADER, fc.deprecations);
    var s2 := AddSection(s1, COMPONENTS_HEADER, fc.newComponents);
    var s3 := AddSection(s2, ENHANCEMENTS_HEADER, fc.enhancements);
    AddSection(s3, BUG_FIXES_HEADER, fc.bugFixes)
  }

  method WriteSection(sb: string, header: string, entries: seq<Entry>, hasOther: bool) returns (r: string, hasOther': bool)
    requires hasOther <==> sb != ""
    requires header != ""
    ensures r == AddSection(sb, header, entries) && (hasOther' <==> r != "")
  {
    r, hasOther' := sb, hasOther;
    if |entries| > 0 {
      if hasOther {
        r := r + "\n";
      }
      AppendAssociates(r, header, EntriesText(Written(entries)));
      r := WriteEntries(r + header, entries);
      hasOther' := true;
    }
  }

  // ---------------------------------------------------------------- the versions

  function VersionLinks(core: string, contrib: string, v: string): string {
    v + ":\n\n" + ("- <" + core + "/releases/tag/" + v + ">\n") + ("- <" + contrib + "/releases/tag/" + v + ">\n\n")
  }

  function LinksTo(core: string, contrib: string): string -> string {
    (v: string) => VersionLinks(core, contrib, v)
  }

  function AllVersionLinks(core: string, contrib: string, vs: seq<string>): string {
    ConcatMap(LinksTo(core, contrib), vs)
  }

  function JoinVersions(vs: seq<string>): string {
    if |vs| == 0 then ""
    else if |vs| == 1 then vs[0]
    else if |vs| == 2 then vs[0] + " and " + vs[1]
    else Join(vs[..|vs| - 1], ", ") + ", and " + vs[|vs| - 1]
  }

  // ---------------------------------------------------------------- all of it

  ghost function Announced(fc: FilteredChangelog): seq<string> {
    ReleaseVersions(SortedUniqueVersions(fc.upstreamVersions))
  }

  function Or(url: string, fallback: string): string {
    if url == "" then fallback else url
  }

  /** The content for the versions `vs`. */
  function ContentFor(fc: FilteredChangelog, vs: seq<string>): UpstreamContent {
    UpstreamContent(
      JoinVersions(vs),
      TrimRight(AllVersionLinks(Or(fc.coreRepoUrl, CORE_URL), Or(fc.contribRepoUrl, CONTRIB_URL), vs), LineBreak),
      TrimRight(AddSection("", BREAKING_HEADER, fc.breaking), LineBreak),
      if OtherSections(fc) == "" then NO_HIGHLIGHTS else TrimRight(OtherSections(fc), LineBreak))
  }

  ghost function Generated(fc: FilteredChangelog): UpstreamContent {
    if Announced(fc) == [] then ZERO else ContentFor(fc, Announced(fc))
  }

  method WriteVersionLinks(core: string, contrib: string, vs: seq<string>) returns (sb: string)
    ensures sb == AllVersionLinks(core, contrib, vs)
  {
    sb := "";
    for i := 0 to |vs|
      invariant sb == ConcatMap(LinksTo(core, contrib), vs[..i])
    {
      ConcatMapTurn(LinksTo(core, contrib), vs, i);
      var v := vs[i];
      sb := sb + (v + ":\n\n" + ("- <" + core + "/releases/tag/" + v + ">\n") + ("- <" + contrib + "/releases/tag/" + v + ">\n\n"));
    }
    assert vs[..|vs|] == vs;
  }

  method WriteOtherSections(fc: FilteredChangelog) returns (sb: string, hasOther: bool)
    ensures sb == OtherSections(fc) && (hasOther <==> sb != "")
  {
    sb, hasOther := WriteSection("", DEPRECATIONS_HEADER, fc.deprecations, false);
    sb, hasOther := WriteSection(sb, COMPONENTS_HEADER, fc.newComponents, hasOther);
    sb, hasOther := WriteSection(sb, ENHANCEMENTS_HEADER, fc.enhancements, hasOther);
    sb, hasOther := WriteSection(sb, BUG_FIXES_HEADER, fc.bugFixes, hasOther);
  }

  method WriteBreaking(fc: FilteredChangelog) returns (sb: string)
    ensures sb == AddSection("", BREAKING_HEADER, fc.breaking)
  {
    sb := "";
    if |fc.breaking| > 0 {
      sb := WriteEntries(sb + BREAKING_HEADER, fc.breaking);
      assert "" + BREAKING_HEADER == BREAKING_HEADER;
    }
  }

  method OrderedVersions(fc: FilteredChangelog) returns (vs: seq<string>)
    ensures vs == Announced(fc)
  {
    var sorted := BuildSortedUniqueVersions(fc.upstreamVersions);
    vs := FilterCollectorReleaseVersions(sorted);
  }

  method GenerateUpstreamContent(fc: FilteredChangelog) returns (content: UpstreamContent)
    ensures content == Generated(fc)
  {
    var orderedVersions := OrderedVersions(fc);
    if |orderedVersions| == 0 {
      return ZERO;
    }
    var coreURL, contribURL := fc.coreRepoUrl, fc.contribRepoUrl;
    if coreURL == "" {
      coreURL := CORE_URL;
    }
    if contribURL == "" {
      contribURL := CONTRIB_URL;
    }
    var links := WriteVersionLinks(coreURL, contribURL, orderedVersions);
    var breaking := WriteBreaking(fc);
    var other, hasOther := WriteOtherSections(fc);
    content := UpstreamContent(JoinVersions(orderedVersions), TrimRight(links, LineBreak), TrimRight(breaking, LineBreak),
                               if hasOther then TrimRight(other, LineBreak) else NO_HIGHLIGHTS);
  }

  /**
   The content is zero exactly when the highest upstream version is empty, and exactly then its
   version intro is empty too.
   */
  lemma ZeroExactlyWithoutVersions(fc: FilteredChangelog)
    ensures Generated(fc) == ZERO <==> Highest(fc.upstreamVersions) == ""
    ensures Generated(fc).versionIntro == "" <==> Highest(fc.upstreamVersions) == ""
  {
    AnnouncedVersions(fc.upstreamVersions);
    var vs := Announced(fc);
    if vs != [] {
      assert vs[0] in vs && vs[|vs| - 1] in vs;
      ValidVersionsCanonical(fc.upstreamVersions);
    }
  }

  // ---------------------------------------------------------------- the version intro

  function WithComma(v: string): string {
    v + ","
  }

  /** The words of an intro: one version; two with "and" between; more with commas, and "and" before the last. */
  function IntroWords(vs: seq<string>): seq<string> {
    if |vs| <= 1 then vs
    else if |vs| == 2 then [vs[0], "and", vs[1]]
    else KeepMapped(WithComma, Always, vs[..|vs| - 1]) + ["and", vs[|vs| - 1]]
  }

  lemma {:induction false} CommaWords(vs: seq<string>, tail: string)
    requires vs != []
    ensures Join(vs, ", ") + ", " + tail == Join(KeepMapped(WithComma, Always, vs) + [tail], " ")
  {
    var front, v := vs[..|vs| - 1], vs[|vs| - 1];
    var words := KeepMapped(WithComma, Always, vs);
    assert words == KeepMapped(WithComma, Always, front) + [v + ","];
    JoinPair(v + ",", tail, " ");
    if front == [] {
      assert words + [tail] == [v + ",", tail];
      assert Join(vs, ", ") == v;
    } else {
      CommaWords(front, v + "," + " " + tail);
      JoinLast(front, v, ", ");
      assert vs == front + [v];
      JoinMergeLast(KeepMapped(WithComma, Always, front), v + ",", tail, " ");
      assert words + [tail] == KeepMapped(WithComma, Always, front) + [v + ",", tail];
      assert Join(front, ", ") + ", " + v + ", " + tail == Join(front, ", ") + ", " + (v + "," + " " + tail);
    }
  }

  lemma JoinPair(a: string, b: string, sep: string)
    ensures Join([a, b], sep) == a + sep + b
  {
    assert [a, b][1..] == [b];
  }

  lemma {:induction false} JoinLast(parts: seq<string>, x: string, sep: string)
    requires parts != []
    ensures Join(parts + [x], sep) == Join(parts, sep) + sep + x
  {
    assert (parts + [x])[1..] == parts[1..] + [x];
    if |parts| > 1 {
      JoinLast(parts[1..], x, sep);
      assert parts[0] + sep + (Join(parts[1..], sep) + sep + x) == parts[0] + sep + Join(parts[1..], sep) + sep + x;
    }
  }

  /** Joining the last two parts first makes no difference. */
  lemma {:induction false} JoinMergeLast(parts: seq<string>, x: string, y: string, sep: string)
    ensures Join(parts + [x, y], sep) == Join(parts + [x + sep + y], sep)
  {
    JoinPair(x, y, sep);
    if parts == [] {
      assert parts + [x, y] == [x, y] && parts + [x + sep + y] == [x + sep + y];
    } else {
      JoinMergeLast(parts[1..], x, y, sep);
      assert (parts + [x, y])[1..] == parts[1..] + [x, y];
      assert (parts + [x + sep + y])[1..] == parts[1..] + [x + sep + y];
    }
  }

  lemma IntroIsItsWords(vs: seq<string>)
    requires vs != []
    ensures JoinVersions(vs) == Join(IntroWords(vs), " ")
  {
    if |vs| == 2 {
      JoinMergeLast([vs[0]], "and", vs[1], " ");
      assert [vs[0]] + ["and", vs[1]] == [vs[0], "and", vs[1]];
      JoinPair(vs[0], "and" + " " + vs[1], " ");
      assert [vs[0]] + ["and" + " " + vs[1]] == [vs[0], "and" + " " + vs[1]];
    } else if |vs| > 2 {
      var front, last := vs[..|vs| - 1], vs[|vs| - 1];
      CommaWords(front, "and" + " " + last);
      JoinMergeLast(KeepMapped(WithComma, Always, front), "and", last, " ");
    }
  }

  /** Cut at its spaces, the intro gives its words back: the versions in order, none lost or repeated. */
  lemma IntroReadsBack(vs: seq<string>)
    requires vs != [] && Without(vs, ' ')
    ensures Split(JoinVersions(vs), ' ') == IntroWords(vs)
  {
    IntroIsItsWords(vs);
    var words := IntroWords(vs);
    forall i | 0 <= i < |words|
      ensures ' ' !in words[i]
    {
      if |vs| > 2 {
        var front := vs[..|vs| - 1];
        if words[i] in KeepMapped(WithComma, Always, front) {
          KeepMappedMembers(WithComma, Always, front, words[i]);
          var j :| 0 <= j < |front| && WithComma(front[j]) == words[i];
          assert ' ' !in vs[j];
        }
      }
    }
    assert " " == [' '];
    SplitJoin(words, ' ');
  }

  /** The announced versions are words. */
  lemma AnnouncedHaveNo(fc: FilteredChangelog, c: char)
    requires !Semver.IdentChar(c) && c != '.'
    ensures Without(Announced(fc), c)
  {
    var vs := Announced(fc);
    AnnouncedVersions(fc.upstreamVersions);
    ValidVersionsCanonical(fc.upstreamVersions);
    forall i | 0 <= i < |vs|
      ensures c !in vs[i]
    {
      assert vs[i] in vs;
      CanonicalHasNo(vs[i], c);
    }
  }

  /** The intro of generated content reads back as the versions announced. */
  lemma IntroNamesTheVersions(fc: FilteredChangelog)
    requires Generated(fc) != ZERO
    ensures Announced(fc) != [] && Split(Generated(fc).versionIntro, ' ') == IntroWords(Announced(fc))
  {
    AnnouncedHaveNo(fc, ' ');
    IntroReadsBack(Announced(fc));
  }

  // ---------------------------------------------------------------- each entry in the text

  /** Trimming line breaks at the end of a text leaves the text of an entry in it but for its own. */
  lemma TrimKeeps(before: string, x: string, after: string)
    requires TrimRight(x, LineBreak) != ""
    ensures Contains(TrimRight(before + x + after, LineBreak), TrimRight(x, LineBreak))
  {
    var s := before + x + after;
    var t, r := TrimRight(x, LineBreak), TrimRight(s, LineBreak);
    TrimRightMeaning(x, LineBreak);
    TrimRightMeaning(s, LineBreak);
    var n := |before| + |t|;
    assert s[n - 1] == x[|t| - 1] == t[|t| - 1];
    assert |r| >= n;
    assert r[|before|..n] == s[|before|..n] == t;
    assert OccursAt(r, t, |before|);
  }

  lemma EntryTextStarts(e: Entry)
    ensures TrimRight(EntryText(e), LineBreak) != ""
  {
    var s := EntryText(e);
    assert Headline(e)[0] == '-' && s[0] == '-';
    TrimRightMeaning(s, LineBreak);
  }

  /** `x` is a part of `s`. */
  ghost predicate Holding(s: string, x: string) {
    exists before, after :: s == before + x + after
  }

  lemma HoldingMore(a: string, s: string, b: string, x: string)
    requires Holding(s, x)
    ensures Holding(a + s + b, x)
  {
    var before, after :| s == before + x + after;
    assert a + s + b == (a + before) + x + (after + b);
  }

  lemma SectionHolds(header: string, bucket: seq<Entry>, e: Entry)
    requires e in Written(bucket)
    ensures Holding(Section(header, bucket), EntryText(e))
  {
    var before, after := ConcatMapHolds(EntryText, Written(bucket), e);
    assert Holding(EntriesText(Written(bucket)), EntryText(e));
    HoldingMore(header, EntriesText(Written(bucket)), "", EntryText(e));
    assert header + EntriesText(Written(bucket)) + "" == Section(header, bucket);
  }

  lemma SpacedHolds(sb: string, section: string, x: string)
    requires Holding(sb, x) || Holding(section, x)
    ensures Holding(Spaced(sb, section), x)
  {
    var gap := if sb == "" then "" else "\n";
    if Holding(sb, x) {
      HoldingMore("", sb, gap + section, x);
      assert "" + sb + (gap + section) == Spaced(sb, section);
    } else {
      HoldingMore(sb + gap, section, "", x);
      assert (sb + gap) + section + "" == Spaced(sb, section);
    }
  }

  lemma AddedSectionHolds(sb: string, header: string, bucket: seq<Entry>, x: string)
    requires Holding(sb, x) || (bucket != [] && Holding(Section(header, bucket), x))
    ensures Holding(AddSection(sb, header, bucket), x)
  {
    if bucket != [] {
      SpacedHolds(sb, Section(header, bucket), x);
    }
  }

  lemma OtherSectionsHold(fc: FilteredChangelog, e: Entry)
    requires e in Written(fc.deprecations) || e in Written(fc.newComponents) || e in Written(fc.enhancements) || e in Written(fc.bugFixes)
    ensures Holding(OtherSections(fc), EntryText(e))
  {
    var s1 := AddSection("", DEPRECATIONS_HEADER, fc.deprecations);
    var s2 := AddSection(s1, COMPONENTS_HEADER, fc.newComponents);
    var s3 := AddSection(s2, ENHANCEMENTS_HEADER, fc.enhancements);
    var x := EntryText(e);
    if e in Written(fc.deprecations) {
      SectionHolds(DEPRECATIONS_HEADER, fc.deprecations, e);
      AddedSectionHolds("", DEPRECATIONS_HEADER, fc.deprecations, x);
    }
    if e in Written(fc.newComponents) {
      SectionHolds(COMPONENTS_HEADER, fc.newComponents, e);
    }
    if Holding(s1, x) || e in Written(fc.newComponents) {
      AddedSectionHolds(s1, COMPONENTS_HEADER, fc.newComponents, x);
    }
    if e in Written(fc.enhancements) {
      SectionHolds(ENHANCEMENTS_HEADER, fc.enhancements, e);
    }
    if Holding(s2, x) || e in Written(fc.enhancements) {
      AddedSectionHolds(s2, ENHANCEMENTS_HEADER, fc.enhancements, x);
    }
    if e in Written(fc.bugFixes) {
      SectionHolds(BUG_FIXES_HEADER, fc.bugFixes, e);
    }
    AddedSectionHolds(s3, BUG_FIXES_HEADER, fc.bugFixes, x);
  }

  lemma TrimmedHolds(s: string, e: Entry)
    requires Holding(s, EntryText(e))
    ensures Contains(TrimRight(s, LineBreak), TrimRight(EntryText(e), LineBreak))
  {
    var before, after :| s == before + EntryText(e) + after;
    EntryTextStarts(e);
    TrimKeeps(before, EntryText(e), after);
  }

  /** The text of every entry to be rendered stands in the generated content, breaking changes apart from the others. */
  lemma EntriesAppear(fc: FilteredChangelog, e: Entry)
    requires Generated(fc) != ZERO && e in Rendered(fc)
    ensures var x := TrimRight(EntryText(e), LineBreak);
      if e in Written(fc.breaking) then Contains(Generated(fc).breakingChanges, x) else Contains(Generated(fc).otherChanges, x)
  {
    if e in Written(fc.breaking) {
      SectionHolds(BREAKING_HEADER, fc.breaking, e);
      AddedSectionHolds("", BREAKING_HEADER, fc.breaking, EntryText(e));
      TrimmedHolds(AddSection("", BREAKING_HEADER, fc.breaking), e);
    } else {
      OtherSectionsHold(fc, e);
      TrimmedHolds(OtherSections(fc), e);
      assert Headline(e) != "";
      assert OtherSections(fc) != "";
    }
  }
}
