/** The generated texts piece by piece: what is written for an entry, for a version and for a section. */
module UpstreamTexts {
  import opened Options
  import opened Sequences
  import opened Text
  import opened Grouping
  import opened ChangelogEntries
  import opened UpstreamRender

  // ---------------------------------------------------------------- pieces with a separator behind each

  function Images<S>(g: S -> string, xs: seq<S>): (r: seq<string>)
    ensures |r| == |xs|
  {
    seq(|xs|, i requires 0 <= i < |xs| => g(xs[i]))
  }

  lemma {:induction false} ConcatJoins<S>(f: S -> string, g: S -> string, sep: string, xs: seq<S>)
    requires xs != [] && forall i :: 0 <= i < |xs| ==> f(xs[i]) == g(xs[i]) + sep
    ensures ConcatMap(f, xs) == Join(Images(g, xs), sep) + sep
  {
    var front, x := xs[..|xs| - 1], xs[|xs| - 1];
    assert xs == front + [x];
    ConcatMapExtend(f, front, x);
    assert Images(g, xs) == Images(g, front) + [g(x)];
    if front == [] {
      assert Images(g, xs) == [g(x)] && ConcatMap(f, front) == "";
    } else {
      ConcatJoins(f, g, sep, front);
      JoinLast(Images(g, front), g(x), sep);
      OneMore(Join(Images(g, front), sep), sep, g(x));
    }
  }

  lemma OneMore(a: string, sep: string, b: string)
    ensures a + sep + (b + sep) == a + sep + b + sep
  {
  }

  // ---------------------------------------------------------------- an entry

  ghost predicate IsLink(s: string, url: string, n: int) {
    var number := if n < 0 then "-" + Decimal(-n) else Decimal(n);
    s == "[#" + number + "](" + url + "/issues/" + number + ")"
  }

  /** Nothing without issues, and else their links in order, in parentheses behind a space. */
  ghost predicate AreLinks(s: string, issues: seq<int>, url: string) {
    if issues == [] then s == ""
    else exists parts :: LinkParts(parts, issues, url) && s == " (" + Join(parts, ", ") + ")"
  }

  ghost predicate LinkParts(parts: seq<string>, issues: seq<int>, url: string) {
    |parts| == |issues| && forall i :: 0 <= i < |parts| ==> IsLink(parts[i], url, issues[i])
  }

  /** The lines of the subtext, indented where there is something on them, each with its line break. */
  ghost predicate AreLines(s: string, subtext: string) {
    if subtext == "" then s == ""
    else exists lines :: Indented(lines, Split(subtext, '\n')) && s == Join(lines, "\n") + "\n"
  }

  ghost predicate Indented(lines: seq<string>, plain: seq<string>) {
    |lines| == |plain| && forall i :: 0 <= i < |lines| ==> lines[i] == if plain[i] == "" then "" else "  " + plain[i]
  }

  /** The text of an entry, spelled out. */
  ghost predicate IsEntry(s: string, e: Entry) {
    exists links, lines ::
      AreLinks(links, e.issues, e.repoUrl) && AreLines(lines, e.subtext)
      && s == "- `" + e.component + "`: " + e.note + links + "\n" + lines
  }

  lemma LinksSpelled(issues: seq<int>, url: string)
    requires issues != []
    ensures IssueLinks(issues, url) != "" && AreLinks(" (" + IssueLinks(issues, url) + ")", issues, url)
  {
    var parts := seq(|issues|, i requires 0 <= i < |issues| => IssueLink(url, issues[i]));
    assert LinkParts(parts, issues, url);
    assert parts[0] == IssueLink(url, issues[0]) && parts[0] != "";
  }

  function LineOf(line: string): string {
    if line == "" then "" else "  " + line
  }

  lemma SubtextSpelled(subtext: string)
    ensures AreLines(SubtextText(subtext), subtext)
  {
    if subtext != "" {
      var plain := Split(subtext, '\n');
      ConcatJoins(SubtextLine, LineOf, "\n", plain);
      assert Indented(Images(LineOf, plain), plain);
    }
  }

  lemma EntrySpelled(e: Entry) returns (links: string, lines: string)
    ensures AreLinks(links, e.issues, e.repoUrl) && AreLines(lines, e.subtext)
    ensures EntryText(e) == "- `" + e.component + "`: " + e.note + links + "\n" + lines
    ensures IsEntry(EntryText(e), e)
  {
    lines := SubtextText(e.subtext);
    SubtextSpelled(e.subtext);
    if e.issues == [] {
      links := "";
      assert IssueLinks(e.issues, e.repoUrl) == "";
      assert e.note + "" + "\n" == e.note + "\n";
    } else {
      links := " (" + IssueLinks(e.issues, e.repoUrl) + ")";
      LinksSpelled(e.issues, e.repoUrl);
      EntryWithLinks(e, IssueLinks(e.issues, e.repoUrl), lines);
    }
  }

  lemma EntryWithLinks(e: Entry, links: string, lines: string)
    requires links != ""
    ensures HeadlineWith(e, links) + lines == "- `" + e.component + "`: " + e.note + (" (" + links + ")") + "\n" + lines
  {
  }

  /**
   An entry reads back: cut at its backticks, the text gives the component; behind a colon stand
   the note and the links of the issues, and then the lines of the subtext.
   */
  lemma EntryReadsBack(e: Entry) returns (links: string, lines: string)
    requires '`' !in e.component
    ensures AreLinks(links, e.issues, e.repoUrl) && AreLines(lines, e.subtext)
    ensures var rest := ": " + e.note + links + "\n" + lines;
      Cut(EntryText(e), '`') == Some(("- ", e.component + "`" + rest)) && Cut(e.component + "`" + rest, '`') == Some((e.component, rest))
  {
    links, lines := EntrySpelled(e);
    var rest := ": " + e.note + links + "\n" + lines;
    BacktickParts(e.component, e.note, links, lines);
    CutAt("- ", e.component + "`" + rest, '`');
    assert e.component + "`" + rest == e.component + ['`'] + rest;
    CutAt(e.component, rest, '`');
  }

  lemma BacktickParts(component: string, note: string, links: string, lines: string)
    ensures "- `" + component + "`: " + note + links + "\n" + lines
            == "- " + ['`'] + (component + "`" + (": " + note + links + "\n" + lines))
  {
    assert "- `" == "- " + ['`'] && "`: " == "`" + ": ";
    var tail := note + links + "\n" + lines;
    assert ": " + note + links + "\n" + lines == ": " + tail;
    assert "- `" + component + "`: " + note + links + "\n" + lines == "- `" + component + "`: " + tail;
  }

  /** Without their indent the lines behind an entry's first are the lines of its subtext. */
  lemma LinesReadBack(s: string, subtext: string)
    requires AreLines(s, subtext) && subtext != ""
    ensures var read, plain := Split(s, '\n'), Split(subtext, '\n');
      && |read| == |plain| + 1 && read[|plain|] == ""
      && forall i :: 0 <= i < |plain| ==> read[i] == if plain[i] == "" then "" else "  " + plain[i]
  {
    var plain := Split(subtext, '\n');
    var lines :| Indented(lines, plain) && s == Join(lines, "\n") + "\n";
    SplitWithout(subtext, '\n');
    forall i | 0 <= i < |lines + [""]|
      ensures '\n' !in (lines + [""])[i]
    {
    }
    JoinLast(lines, "", "\n");
    assert "\n" == ['\n'] && Join(lines, "\n") + "\n" + "" == s;
    SplitJoin(lines + [""], '\n');
  }

  /** Cut at its spaces the list of links gives each link in order, a comma behind all but the last. */
  lemma LinksReadBack(parts: seq<string>, issues: seq<int>, url: string)
    requires issues != [] && LinkParts(parts, issues, url) && ' ' !in url
    ensures var words := Split(Join(parts, ", "), ' ');
      && |words| == |issues|
      && (forall i :: 0 <= i < |issues| - 1 ==> words[i] == parts[i] + ",")
      && words[|issues| - 1] == parts[|issues| - 1]
  {
    var n := |parts| - 1;
    var front, last := parts[..n], parts[n];
    var words := seq(|parts|, i requires 0 <= i < |parts| => if i < n then parts[i] + "," else parts[i]);
    forall i | 0 <= i < |parts|
      ensures ' ' !in words[i]
    {
      LinkHasNoSpace(parts[i], url, issues[i]);
    }
    assert " " == [' '];
    SplitJoin(words, ' ');
    LinkWords(parts, words);
  }

  lemma LinkHasNoSpace(s: string, url: string, n: int)
    requires IsLink(s, url, n) && ' ' !in url
    ensures ' ' !in s
  {
    var number := if n < 0 then "-" + Decimal(-n) else Decimal(n);
    DecimalRoundTrip(if n < 0 then -n else n);
    var d := Decimal(if n < 0 then -n else n);
    assert forall k :: 0 <= k < |d| ==> IsDigit(d[k]);
    assert ' ' !in d && ' ' !in number;
  }

  lemma {:induction false} LinkWords(parts: seq<string>, words: seq<string>)
    requires parts != [] && |words| == |parts|
    requires forall i :: 0 <= i < |parts| ==> words[i] == if i < |parts| - 1 then parts[i] + "," else parts[i]
    ensures Join(parts, ", ") == Join(words, " ")
  {
    if |parts| > 1 {
      LinkWords(parts[1..], words[1..]);
      assert parts[0] + ", " == parts[0] + "," + " ";
    }
  }

  // ---------------------------------------------------------------- a version

  /** What is written for a version: its release in either repository, core first. */
  function Block(core: string, contrib: string, v: string): string {
    v + ":\n\n- <" + core + "/releases/tag/" + v + ">\n- <" + contrib + "/releases/tag/" + v + ">"
  }

  function Blocks(core: string, contrib: string, vs: seq<string>): seq<string> {
    seq(|vs|, i requires 0 <= i < |vs| => Block(core, contrib, vs[i]))
  }

  lemma BlockWritten(core: string, contrib: string, v: string)
    ensures VersionLinks(core, contrib, v) == Block(core, contrib, v) + "\n\n"
  {
    var head, a, b := v + ":\n\n", core + "/releases/tag/" + v, contrib + "/releases/tag/" + v;
    BlockParts(head, a, b);
    assert v + ":\n\n- <" == head + "- <";
    assert VersionLinks(core, contrib, v) == head + ("- <" + a + ">\n") + ("- <" + b + ">\n\n");
    assert Block(core, contrib, v) == head + "- <" + a + ">\n- <" + b + ">";
  }

  lemma BlockParts(head: string, a: string, b: string)
    ensures head + ("- <" + a + ">\n") + ("- <" + b + ">\n\n") == head + "- <" + a + ">\n- <" + b + ">" + "\n\n"
  {
  }

  lemma BlocksWritten(core: string, contrib: string, vs: seq<string>)
    requires vs != []
    ensures AllVersionLinks(core, contrib, vs) == Join(Blocks(core, contrib, vs), "\n\n") + "\n\n"
  {
    var g := (v: string) => Block(core, contrib, v);
    forall i | 0 <= i < |vs|
      ensures LinksTo(core, contrib)(vs[i]) == g(vs[i]) + "\n\n"
    {
      BlockWritten(core, contrib, vs[i]);
    }
    ConcatJoins(LinksTo(core, contrib), g, "\n\n", vs);
    assert Images(g, vs) == Blocks(core, contrib, vs);
  }

  /** `t` is `s` without the line breaks at its end. */
  ghost predicate Trimmed(s: string, t: string) {
    && |t| <= |s| && s[..|t|] == t && (t == "" || t[|t| - 1] != '\n')
    && forall i :: |t| <= i < |s| ==> s[i] == '\n'
  }

  lemma TrimsBreaks(s: string)
    ensures Trimmed(s, TrimRight(s, LineBreak))
  {
    TrimRightMeaning(s, LineBreak);
  }

  lemma TrimmedOnce(s: string, t: string, t': string)
    requires Trimmed(s, t) && Trimmed(s, t')
    ensures t == t'
  {
    assert t != "" ==> s[|t| - 1] == t[|t| - 1];
    assert t' != "" ==> s[|t'| - 1] == t'[|t'| - 1];
  }

  lemma {:induction false} JoinEnds(parts: seq<string>, sep: string)
    requires parts != [] && parts[|parts| - 1] != ""
    ensures var s, last := Join(parts, sep), parts[|parts| - 1];
      s != "" && s[|s| - 1] == last[|last| - 1]
  {
    if |parts| > 1 {
      JoinEnds(parts[1..], sep);
    }
  }

  /** The links: for each announced version, in order, its two releases, with the given repositories or else the well-known ones. */
  lemma VersionsWritten(fc: FilteredChangelog)
    requires Generated(fc) != ZERO
    ensures Announced(fc) != []
    ensures var core := if fc.coreRepoUrl != "" then fc.coreRepoUrl else "https://github.com/open-telemetry/opentelemetry-collector";
      var contrib := if fc.contribRepoUrl != "" then fc.contribRepoUrl else "https://github.com/open-telemetry/opentelemetry-collector-contrib";
      Generated(fc).collectorVersions == Join(Blocks(core, contrib, Announced(fc)), "\n\n")
  {
    var core := if fc.coreRepoUrl != "" then fc.coreRepoUrl else "https://github.com/open-telemetry/opentelemetry-collector";
    var contrib := if fc.contribRepoUrl != "" then fc.contribRepoUrl else "https://github.com/open-telemetry/opentelemetry-collector-contrib";
    BlocksTrimmed(core, contrib, Announced(fc));
  }

  lemma BlocksTrimmed(core: string, contrib: string, vs: seq<string>)
    requires vs != []
    ensures TrimRight(AllVersionLinks(core, contrib, vs), LineBreak) == Join(Blocks(core, contrib, vs), "\n\n")
  {
    var text := Join(Blocks(core, contrib, vs), "\n\n");
    BlocksWritten(core, contrib, vs);
    BlockEnds(core, contrib, vs[|vs| - 1]);
    JoinEnds(Blocks(core, contrib, vs), "\n\n");
    TrimsTwo(text);
  }

  lemma BlockEnds(core: string, contrib: string, v: string)
    ensures var s := Block(core, contrib, v);
      s != "" && s[|s| - 1] == '>'
  {
  }

  lemma TrimsTwo(text: string)
    requires text != "" && text[|text| - 1] != '\n'
    ensures TrimRight(text + "\n\n", LineBreak) == text
  {
    assert Trimmed(text + "\n\n", text);
    TrimsBreaks(text + "\n\n");
    TrimmedOnce(text + "\n\n", text, TrimRight(text + "\n\n", LineBreak));
  }

  /** The repository of a source is the first that an entry of the source names, if any does. */
  lemma {:induction false} FirstUrlExactly(source: Source, entries: seq<Entry>) returns (i: nat)
    ensures i <= |entries| && forall k :: 0 <= k < i ==> !(entries[k].source == source && entries[k].repoUrl != "")
    ensures if i < |entries| then entries[i].source == source && entries[i].repoUrl != "" && FirstUrl(source, entries) == entries[i].repoUrl
            else FirstUrl(source, entries) == ""
  {
    if entries == [] {
      i := 0;
    } else {
      var n := |entries| - 1;
      i := FirstUrlExactly(source, entries[..n]);
      assert forall k :: 0 <= k < n ==> entries[..n][k] == entries[k];
      if i == n && !(entries[n].source == source && entries[n].repoUrl != "") {
        i := n + 1;
      }
    }
  }

  // ---------------------------------------------------------------- the sections

  ghost predicate AreEntries(texts: seq<string>, es: seq<Entry>) {
    |texts| == |es| && forall i :: 0 <= i < |es| ==> IsEntry(texts[i], es[i])
  }

  /** A header and, behind it, the texts of the entries. */
  ghost predicate IsSection(s: string, header: string, es: seq<Entry>) {
    exists texts :: AreEntries(texts, es) && s == header + Join(texts, "")
  }

  function EntryTexts(es: seq<Entry>): (r: seq<string>)
    ensures |r| == |es|
  {
    Images(EntryText, es)
  }

  lemma EntriesAreSpelled(es: seq<Entry>)
    ensures AreEntries(EntryTexts(es), es)
  {
    forall i | 0 <= i < |es|
      ensures IsEntry(EntryTexts(es)[i], es[i])
    {
      var links, lines := EntrySpelled(es[i]);
    }
  }

  lemma EntriesJoined(es: seq<Entry>)
    ensures EntriesText(es) == Join(EntryTexts(es), "")
  {
    if es != [] {
      ConcatJoins(EntryText, EntryText, "", es);
      AppendNothing(Join(EntryTexts(es), ""));
    }
  }

  lemma SectionSpelled(header: string, bucket: seq<Entry>)
    ensures IsSection(Section(header, bucket), header, Written(bucket))
  {
    EntriesAreSpelled(Written(bucket));
    EntriesJoined(Written(bucket));
  }

  /** Headers with their buckets. */
  type Part = (string, seq<Entry>)

  function Filled(parts: seq<Part>): seq<Part> {
    if parts == [] then [] else (if parts[0].1 == [] then [] else [parts[0]]) + Filled(parts[1..])
  }

  /** The texts are the sections of the parts, in order. */
  ghost predicate AreSections(texts: seq<string>, parts: seq<Part>) {
    |texts| == |parts| && forall i :: 0 <= i < |parts| ==> IsSection(texts[i], parts[i].0, Written(parts[i].1))
  }

  /** The other sections in the source's order, with their headers. */
  function OtherParts(fc: FilteredChangelog): seq<Part> {
    [("### \U{26A0}\U{FE0F} Deprecations \U{26A0}\U{FE0F}\n\n", fc.deprecations),
     ("### \U{1F680} New components \U{1F680}\n\n", fc.newComponents),
     ("### \U{1F4A1} Enhancements \U{1F4A1}\n\n", fc.enhancements),
     ("### \U{1F9F0} Bug fixes \U{1F9F0}\n\n", fc.bugFixes)]
  }

  function Added(sb: string, parts: seq<Part>): string
    decreases |parts|
  {
    if parts == [] then sb else Added(AddSection(sb, parts[0].0, parts[0].1), parts[1..])
  }

  function TextsOf(parts: seq<Part>): seq<string> {
    if parts == [] then [] else [Section(parts[0].0, parts[0].1)] + TextsOf(parts[1..])
  }

  lemma {:induction false} TextsAreSections(parts: seq<Part>)
    ensures AreSections(TextsOf(parts), parts)
  {
    if parts != [] {
      SectionSpelled(parts[0].0, parts[0].1);
      TextsAreSections(parts[1..]);
      assert forall i :: 0 < i < |parts| ==> parts[i] == parts[1..][i - 1];
    }
  }

  /** Adding section by section joins the filled ones with line breaks. */
  lemma {:induction false} AddedJoins(done: seq<string>, parts: seq<Part>)
    requires (Join(done, "\n") == "" <==> done == []) && forall i :: 0 <= i < |parts| ==> parts[i].0 != ""
    ensures Added(Join(done, "\n"), parts) == Join(done + TextsOf(Filled(parts)), "\n")
    decreases |parts|
  {
    if parts == [] {
      assert done + [] == done;
    } else {
      var p, sb := parts[0], Join(done, "\n");
      if p.1 == [] {
        AddedJoins(done, parts[1..]);
        assert Filled(parts) == Filled(parts[1..]);
      } else {
        var more := done + [Section(p.0, p.1)];
        AddJoins(done, p);
        AddedJoins(more, parts[1..]);
        assert TextsOf(Filled(parts)) == [Section(p.0, p.1)] + TextsOf(Filled(parts[1..])) by {
          assert Filled(parts) == [p] + Filled(parts[1..]);
        }
        AppendAssociates(done, [Section(p.0, p.1)], TextsOf(Filled(parts[1..])));
      }
    }
  }

  lemma AddJoins(done: seq<string>, p: Part)
    requires (Join(done, "\n") == "" <==> done == []) && p.0 != "" && p.1 != []
    ensures AddSection(Join(done, "\n"), p.0, p.1) == Join(done + [Section(p.0, p.1)], "\n")
    ensures Join(done + [Section(p.0, p.1)], "\n") != ""
  {
    if done == [] {
      assert done + [Section(p.0, p.1)] == [Section(p.0, p.1)];
    } else {
      JoinLast(done, Section(p.0, p.1), "\n");
    }
  }

  lemma OtherAdded(fc: FilteredChangelog)
    ensures OtherSections(fc) == Added("", OtherParts(fc))
  {
    var ps := OtherParts(fc);
    var s1 := AddSection("", DEPRECATIONS_HEADER, fc.deprecations);
    var s2 := AddSection(s1, COMPONENTS_HEADER, fc.newComponents);
    var s3 := AddSection(s2, ENHANCEMENTS_HEADER, fc.enhancements);
    assert Added("", ps) == Added(s1, ps[1..]);
    assert ps[1..][0] == ps[1] && ps[1..][1..] == ps[2..];
    assert Added(s1, ps[1..]) == Added(s2, ps[2..]);
    assert ps[2..][0] == ps[2] && ps[2..][1..] == ps[3..];
    assert Added(s2, ps[2..]) == Added(s3, ps[3..]);
    assert ps[3..][0] == ps[3] && ps[3..][1..] == [];
  }

  /** The other changes: the filled sections in order, a line break between each two; or a note that there are none. */
  lemma OtherChangesWritten(fc: FilteredChangelog) returns (texts: seq<string>)
    requires Generated(fc) != ZERO
    ensures AreSections(texts, Filled(OtherParts(fc)))
    ensures if texts == [] then Generated(fc).otherChanges == "No upstream highlights for this release."
            else Trimmed(Join(texts, "\n"), Generated(fc).otherChanges)
  {
    texts := TextsOf(Filled(OtherParts(fc)));
    TextsAreSections(Filled(OtherParts(fc)));
    OtherJoined(fc);
    TrimsBreaks(OtherSections(fc));
  }

  lemma OtherJoined(fc: FilteredChangelog)
    ensures var texts := TextsOf(Filled(OtherParts(fc)));
      OtherSections(fc) == Join(texts, "\n") && (OtherSections(fc) == "" <==> texts == [])
  {
    var texts := TextsOf(Filled(OtherParts(fc)));
    OtherAdded(fc);
    AddedJoins([], OtherParts(fc));
    assert [] + texts == texts;
    FilledTexts(OtherParts(fc));
  }

  lemma {:induction false} FilledTexts(parts: seq<Part>)
    requires forall i :: 0 <= i < |parts| ==> parts[i].0 != ""
    ensures TextsOf(Filled(parts)) != [] ==> Join(TextsOf(Filled(parts)), "\n") != ""
  {
    if parts != [] {
      FilledTexts(parts[1..]);
    }
  }

  /** The breaking changes: their section, or nothing. */
  lemma BreakingWritten(fc: FilteredChangelog) returns (text: string)
    requires Generated(fc) != ZERO
    ensures if fc.breaking == [] then Generated(fc).breakingChanges == ""
            else IsSection(text, "### \U{1F6D1} Breaking changes \U{1F6D1}\n\n", Written(fc.breaking)) && Trimmed(text, Generated(fc).breakingChanges)
  {
    text := Section(BREAKING_HEADER, fc.breaking);
    SectionSpelled(BREAKING_HEADER, fc.breaking);
    TrimsBreaks(text);
    assert "" + "" + text == text;
  }

  /** A bucket's entries are written core first, each source in its order. */
  lemma WrittenExactly(bucket: seq<Entry>) returns (core: seq<nat>, contrib: seq<nat>)
    ensures var w := Written(bucket);
      && |w| == |core| + |contrib|
      && Picks((e: Entry) => e.source == Core, bucket, core, w[..|core|])
      && Picks((e: Entry) => e.source == Contrib, bucket, contrib, w[|core|..])
  {
    core := KeepPicks((e: Entry) => e.source == Core, bucket);
    contrib := KeepPicks((e: Entry) => e.source == Contrib, bucket);
    SameKeep(FromSource(Core), (e: Entry) => e.source == Core, bucket);
    SameKeep(FromSource(Contrib), (e: Entry) => e.source == Contrib, bucket);
  }

  lemma {:induction false} SameKeep(p: Entry -> bool, q: Entry -> bool, xs: seq<Entry>)
    requires forall e :: p(e) == q(e)
    ensures Keep(p, xs) == Keep(q, xs)
  {
    if xs != [] {
      SameKeep(p, q, xs[..|xs| - 1]);
    }
  }
}
