/**
 The run of the changelog generator from its pull-request URLs on.  What GitHub, the manifest and
 the configuration file say is given: `fetch` answers for a pull request with its entries or fails.
 */
module ChangelogRun {
  import opened Options
  import opened PathPattern
  import opened PrUrl
  import opened Versions
  import opened ChangelogEntries
  import opened UpstreamRender
  import opened UpstreamSection
  import Markers
  import Scaffold
  import Text
  import Grouping

  type Fetch = PrRef -> Option<seq<Entry>>

  datatype Settings = Settings(manifest: set<string>, distVersion: string, config: Config, dryRun: bool)

  /** What the run reads before it fetches: each may fail, and the manifest is read by the index of component names. */
  datatype Sources = Sources(index: Option<map<string, string>>,
                             manifest: map<string, string> -> Option<(set<string>, string)>,
                             config: Option<Config>)

  datatype Outcome =
    | NoIndex                           // the component index cannot be fetched
    | NoManifest
    | NoConfig
    | FetchFailed                       // a URL is malformed or its entries cannot be fetched
    | NoValidVersions                   // the guard's error
    | Announcement                      // dry run without URLs: only a message is printed
    | Printed(content: UpstreamContent) // dry run
    | Rewritten(text: string)           // the changelog's new text

  datatype Preparation = Ready(settings: Settings) | Failed(failure: Outcome)

  function FetchUrl(fetch: Fetch, url: string): Option<seq<Entry>> {
    match ParsePrUrl(url)
    case Ok(pr) => fetch(pr)
    case _ => None
  }

  /** The entries of all pull requests in order, unless one of them cannot be had. */
  function FetchAll(fetch: Fetch, urls: seq<string>): Option<seq<Entry>> {
    if urls == [] then Some([])
    else
      var all, last := FetchAll(fetch, urls[..|urls| - 1]), FetchUrl(fetch, urls[|urls| - 1]);
      if all.Some? && last.Some? then Some(all.value + last.value) else None
  }

  ghost function ContentOf(entries: seq<Entry>, s: Settings): UpstreamContent {
    Generated(FilterResult(entries, s.manifest, s.config).(distVersion := CanonicalVersion(s.distVersion)))
  }

  ghost function RunResult(fetch: Fetch, urls: seq<string>, s: Settings, changelog: string): Outcome {
    if urls == [] then
      if s.dryRun then Announcement else Rewritten(Scaffold.FillUpstreamPlaceholders(changelog, ZERO))
    else
      match FetchAll(fetch, urls)
      case None => FetchFailed
      case Some(entries) =>
        if Highest(FilterResult(entries, s.manifest, s.config).upstreamVersions) == "" then NoValidVersions
        else if s.dryRun then Printed(ContentOf(entries, s))
        else Rewritten(Scaffold.FillUpstreamPlaceholders(changelog, ContentOf(entries, s)))
  }

  /** The settings of a run with URLs, or what keeps it from having them. */
  function Prepared(src: Sources, dryRun: bool): Preparation {
    match src.index
    case None => Failed(NoIndex)
    case Some(index) =>
      match src.manifest(index)
      case None => Failed(NoManifest)
      case Some((components, version)) =>
        match src.config
        case None => Failed(NoConfig)
        case Some(cfg) => Ready(Settings(components, version, cfg, dryRun))
  }

  /** The whole run; without URLs nothing is read but the changelog. */
  ghost function RunOutcome(src: Sources, fetch: Fetch, urls: seq<string>, dryRun: bool, changelog: string): Outcome {
    if urls == [] then RunResult(fetch, [], Settings({}, "", Config([], []), dryRun), changelog)
    else
      match Prepared(src, dryRun)
      case Failed(failure) => failure
      case Ready(s) => RunResult(fetch, urls, s, changelog)
  }

  lemma FetchAllTurn(fetch: Fetch, urls: seq<string>, i: nat)
    requires i < |urls|
    ensures FetchAll(fetch, urls[..i + 1]) ==
            if FetchAll(fetch, urls[..i]).Some? && FetchUrl(fetch, urls[i]).Some?
            then Some(FetchAll(fetch, urls[..i]).value + FetchUrl(fetch, urls[i]).value) else None
  {
    assert urls[..i + 1][..i] == urls[..i];
  }

  lemma {:induction false} FailureStays(fetch: Fetch, urls: seq<string>, n: nat)
    requires n <= |urls| && FetchAll(fetch, urls[..n]) == None
    ensures FetchAll(fetch, urls) == None
  {
    if n < |urls| {
      var front := urls[..|urls| - 1];
      assert front[..n] == urls[..n];
      FailureStays(fetch, front, n);
    } else {
      assert urls[..n] == urls;
    }
  }

  /** The loop over the pull requests. */
  method FetchEntries(fetch: Fetch, urls: seq<string>) returns (all: Option<seq<Entry>>)
    ensures all == FetchAll(fetch, urls)
  {
    var allEntries: seq<Entry> := [];
    for i := 0 to |urls|
      invariant FetchAll(fetch, urls[..i]) == Some(allEntries)
    {
      FetchAllTurn(fetch, urls, i);
      var entries := FetchUrl(fetch, urls[i]);
      if entries.None? {
        FailureStays(fetch, urls, i + 1);
        return None;
      }
      allEntries := allEntries + entries.value;
    }
    assert urls[..|urls|] == urls;
    return Some(allEntries);
  }

  method Run(src: Sources, fetch: Fetch, prUrls: seq<string>, dryRun: bool, changelog: string) returns (r: Outcome)
    ensures r == RunOutcome(src, fetch, prUrls, dryRun, changelog)
    ensures r.Rewritten? <==> !dryRun && ComesThrough(src, fetch, prUrls)
    ensures !dryRun && ComesThrough(src, fetch, prUrls) ==> r == Rewritten(TextOf(src, fetch, prUrls, changelog))
    ensures !ComesThrough(src, fetch, prUrls) ==> r == Failure(src, fetch, prUrls)
  {
    RunRewritesExactly(src, fetch, prUrls, dryRun, changelog);
    if |prUrls| == 0 {
      if dryRun {
        return Announcement;
      }
      return Rewritten(Scaffold.FillUpstreamPlaceholders(changelog, ZERO));
    }
    if src.index.None? {
      return NoIndex;
    }
    var manifest := src.manifest(src.index.value);
    if manifest.None? {
      return NoManifest;
    }
    if src.config.None? {
      return NoConfig;
    }
    r := RunFetching(fetch, prUrls, Settings(manifest.value.0, manifest.value.1, src.config.value, dryRun), changelog);
  }

  /** The run from its fetch loop on. */
  method RunFetching(fetch: Fetch, prUrls: seq<string>, s: Settings, changelog: string) returns (r: Outcome)
    requires prUrls != []
    ensures r == RunResult(fetch, prUrls, s, changelog)
  {
    var allEntries := FetchEntries(fetch, prUrls);
    if allEntries.None? {
      return FetchFailed;
    }
    var fc := FilterEntries(allEntries.value, s.manifest, s.config);
    fc := fc.(distVersion := CanonicalVersion(s.distVersion));
    var highest := HighestVersion(fc.upstreamVersions);
    if highest == "" {
      return NoValidVersions;
    }
    var content := GenerateUpstreamContent(fc);
    if s.dryRun {
      return Printed(content);
    }
    return Rewritten(Scaffold.FillUpstreamPlaceholders(changelog, content));
  }

  // ---------------------------------------------------------------- what a run does

  /** Some entry brings a valid upstream version. */
  ghost predicate SomeValidVersion(entries: seq<Entry>) {
    exists i :: 0 <= i < |entries| && HasValidForm(entries[i].upstreamVersion)
  }

  lemma SomeVersionOf(entries: seq<Entry>, p: string -> bool)
    ensures (exists v :: v in Grouping.FirstPerKey(Itself, VersionsOf(entries)) && p(v))
            <==> exists i :: 0 <= i < |entries| && p(entries[i].upstreamVersion)
  {
    var all := VersionsOf(entries);
    VersionsOfAt(entries);
    forall v
      ensures v in Grouping.FirstPerKey(Itself, all) <==> v in all
    {
      FirstPerKeyMembers(all, v);
    }
    if v :| v in all && p(v) {
      var i :| 0 <= i < |all| && all[i] == v;
      assert p(entries[i].upstreamVersion);
    }
    if i :| 0 <= i < |entries| && p(entries[i].upstreamVersion) {
      assert all[i] in all;
    }
  }

  lemma HighestOfEntries(entries: seq<Entry>, s: Settings)
    ensures Highest(FilterResult(entries, s.manifest, s.config).upstreamVersions) == "" <==> !SomeValidVersion(entries)
  {
    SomeHighest(Grouping.FirstPerKey(Itself, VersionsOf(entries)));
    SomeVersionOf(entries, HasValidForm);
  }

  /** With URLs whose entries can be had, the run fails exactly when no entry, included or not, brings a valid version. */
  lemma {:induction false} GuardFailsExactly(fetch: Fetch, urls: seq<string>, s: Settings, changelog: string)
    requires urls != [] && FetchAll(fetch, urls).Some?
    ensures RunResult(fetch, urls, s, changelog) == NoValidVersions <==> !SomeValidVersion(FetchAll(fetch, urls).value)
  {
    HighestOfEntries(FetchAll(fetch, urls).value, s);
  }

  /** A run with URLs never takes the removal branch; what it writes is the filled text. */
  lemma {:induction false} RunWithUrlsFills(fetch: Fetch, urls: seq<string>, s: Settings, changelog: string)
    requires urls != [] && RunResult(fetch, urls, s, changelog).Rewritten?
    ensures var content := ContentOf(FetchAll(fetch, urls).value, s);
      && content.versionIntro != ""
      && RunResult(fetch, urls, s, changelog).text == Scaffold.FillPlaceholders(changelog, content)
  {
    var fc := FilterResult(FetchAll(fetch, urls).value, s.manifest, s.config);
    ZeroExactlyWithoutVersions(fc.(distVersion := CanonicalVersion(s.distVersion)));
  }

  /** On a scaffold a run with URLs writes every piece in its place and leaves none of the six markers. */
  lemma RunFillsTheScaffold(fetch: Fetch, urls: seq<string>, s: Settings, p: Scaffold.Parts)
    requires urls != [] && RunResult(fetch, urls, s, Scaffold.ScaffoldText(p)).Rewritten?
    requires Scaffold.Fits(p, ContentOf(FetchAll(fetch, urls).value, s))
    ensures var r := RunResult(fetch, urls, s, Scaffold.ScaffoldText(p));
      r.text == Scaffold.Filled(p, ContentOf(FetchAll(fetch, urls).value, s)) && Scaffold.Silent(r.text)
  {
    var content := ContentOf(FetchAll(fetch, urls).value, s);
    RunWithUrlsFills(fetch, urls, s, Scaffold.ScaffoldText(p));
    Scaffold.FillsTheScaffold(p, content);
  }

  /** A run without URLs removes the section of a changelog that has one, and nothing else. */
  lemma RunWithoutUrlsRemoves(fetch: Fetch, s: Settings, before: string, section: string, after: string)
    requires !s.dryRun && MarkerFree(before) && MarkerFree(section) && MarkerFree(after)
    ensures RunResult(fetch, [], s, before + Markers.START + section + Markers.END + after)
            == Rewritten(Text.TrimRight(before, Blank) + "\n\n" + Text.TrimLeft(after, Blank))
  {
    RemovesTheSection(before, section, after);
  }

  /** In the content a run prints or writes, the text of every included entry with a known source and type stands. */
  lemma IncludedEntriesAppear(entries: seq<Entry>, s: Settings, e: Entry)
    requires SomeValidVersion(entries) && e in entries && ShouldInclude(e.component, s.manifest, s.config) && Renderable(e)
    ensures var content, x := ContentOf(entries, s), Text.TrimRight(EntryText(e), LineBreak);
      Text.Contains(content.breakingChanges, x) || Text.Contains(content.otherChanges, x)
  {
    var fc := FilterResult(entries, s.manifest, s.config);
    var fc' := fc.(distVersion := CanonicalVersion(s.distVersion));
    RenderedExactly(entries, s.manifest, s.config, e);
    assert multiset(entries)[e] > 0;
    assert e in multiset(Rendered(fc));
    assert Rendered(fc') == Rendered(fc);
    HighestOfEntries(entries, s);
    ZeroExactlyWithoutVersions(fc');
    EntriesAppear(fc', e);
  }

  // ---------------------------------------------------------------- the whole run

  /** The URL has the form of a pull request's, and the number fits. */
  ghost predicate IsPr(url: string, pr: PrRef) {
    pr.number <= MAX_INT && exists digits :: Describes(Text.TrimSpace(url), pr.owner, pr.repo, digits) && Text.NatOf(digits) == pr.number
  }

  ghost predicate Answered(fetch: Fetch, url: string, es: seq<Entry>) {
    exists pr :: IsPr(url, pr) && fetch(pr) == Some(es)
  }

  lemma IsPrExactly(url: string, pr: PrRef)
    ensures ParsePrUrl(url) == Ok(pr) <==> IsPr(url, pr)
  {
    AcceptsExactly(url, pr.owner, pr.repo, pr.number);
  }

  lemma FetchUrlExactly(fetch: Fetch, url: string, es: seq<Entry>)
    ensures FetchUrl(fetch, url) == Some(es) <==> Answered(fetch, url, es)
  {
    if FetchUrl(fetch, url) == Some(es) {
      IsPrExactly(url, ParsePrUrl(url).pr);
    }
    if pr :| IsPr(url, pr) && fetch(pr) == Some(es) {
      IsPrExactly(url, pr);
    }
  }

  ghost predicate HasAnswer(fetch: Fetch, url: string) {
    exists es :: Answered(fetch, url, es)
  }

  ghost predicate HasValidAnswer(fetch: Fetch, url: string) {
    exists es :: Answered(fetch, url, es) && SomeValidVersion(es)
  }

  lemma AnswerExactly(fetch: Fetch, url: string)
    ensures HasAnswer(fetch, url) <==> FetchUrl(fetch, url).Some?
    ensures HasValidAnswer(fetch, url) <==> FetchUrl(fetch, url).Some? && SomeValidVersion(FetchUrl(fetch, url).value)
  {
    forall es
      ensures FetchUrl(fetch, url) == Some(es) <==> Answered(fetch, url, es)
    {
      FetchUrlExactly(fetch, url, es);
    }
    if FetchUrl(fetch, url).Some? {
      assert Answered(fetch, url, FetchUrl(fetch, url).value);
    }
  }

  ghost predicate AllAnswered(fetch: Fetch, urls: seq<string>) {
    forall i :: 0 <= i < |urls| ==> HasAnswer(fetch, urls[i])
  }

  /** Some pull request has an entry, included or not, of a valid version. */
  ghost predicate SomeAnswerValid(fetch: Fetch, urls: seq<string>) {
    exists i :: 0 <= i < |urls| && HasValidAnswer(fetch, urls[i])
  }

  lemma SomeValidAppend(x: seq<Entry>, y: seq<Entry>)
    ensures SomeValidVersion(x + y) <==> SomeValidVersion(x) || SomeValidVersion(y)
  {
    var z := x + y;
    if i :| 0 <= i < |x| && HasValidForm(x[i].upstreamVersion) {
      assert z[i] == x[i];
    }
    if i :| 0 <= i < |y| && HasValidForm(y[i].upstreamVersion) {
      assert z[|x| + i] == y[i];
    }
    if i :| 0 <= i < |z| && HasValidForm(z[i].upstreamVersion) {
      assert if i < |x| then z[i] == x[i] else z[i] == y[i - |x|];
    }
  }

  lemma {:induction false} FetchAllExactly(fetch: Fetch, urls: seq<string>)
    ensures FetchAll(fetch, urls).Some? <==> AllAnswered(fetch, urls)
    ensures FetchAll(fetch, urls).Some? ==> (SomeValidVersion(FetchAll(fetch, urls).value) <==> SomeAnswerValid(fetch, urls))
  {
    if urls != [] {
      var n := |urls| - 1;
      FetchAllExactly(fetch, urls[..n]);
      AnswerExactly(fetch, urls[n]);
      AnsweredExtend(fetch, urls, n);
      if FetchAll(fetch, urls).Some? {
        SomeValidAppend(FetchAll(fetch, urls[..n]).value, FetchUrl(fetch, urls[n]).value);
      }
    }
  }

  lemma AnsweredExtend(fetch: Fetch, urls: seq<string>, n: nat)
    requires n == |urls| - 1
    ensures AllAnswered(fetch, urls) <==> AllAnswered(fetch, urls[..n]) && HasAnswer(fetch, urls[n])
    ensures SomeAnswerValid(fetch, urls) <==> SomeAnswerValid(fetch, urls[..n]) || HasValidAnswer(fetch, urls[n])
  {
    AllExtend(u => HasAnswer(fetch, u), urls, n);
    SomeExtend(u => HasValidAnswer(fetch, u), urls, n);
  }

  lemma AllExtend(p: string -> bool, xs: seq<string>, n: nat)
    requires n == |xs| - 1
    ensures (forall i :: 0 <= i < |xs| ==> p(xs[i])) <==> (forall i :: 0 <= i < n ==> p(xs[..n][i])) && p(xs[n])
  {
    assert forall i :: 0 <= i < n ==> xs[..n][i] == xs[i];
  }

  lemma SomeExtend(p: string -> bool, xs: seq<string>, n: nat)
    requires n == |xs| - 1
    ensures (exists i :: 0 <= i < |xs| && p(xs[i])) <==> (exists i :: 0 <= i < n && p(xs[..n][i])) || p(xs[n])
  {
    assert forall i :: 0 <= i < n ==> xs[..n][i] == xs[i];
    if i :| 0 <= i < |xs| && p(xs[i]) {
      assert i < n ==> p(xs[..n][i]);
    }
  }

  predicate Readable(src: Sources) {
    src.index.Some? && src.manifest(src.index.value).Some? && src.config.Some?
  }

  /** What the run has read, when it could. */
  function SettingsOf(src: Sources, dryRun: bool): Settings
    requires Readable(src)
  {
    var manifest := src.manifest(src.index.value).value;
    Settings(manifest.0, manifest.1, src.config.value, dryRun)
  }

  /** No URLs; or everything readable, every URL a pull request's that answers, and a valid version among the answers. */
  ghost predicate ComesThrough(src: Sources, fetch: Fetch, urls: seq<string>) {
    urls == [] || (Readable(src) && AllAnswered(fetch, urls) && SomeAnswerValid(fetch, urls))
  }

  /** The first of the sources that cannot be read. */
  function Unreadable(src: Sources): Outcome
    requires !Readable(src)
  {
    if src.index.None? then NoIndex else if src.manifest(src.index.value).None? then NoManifest else NoConfig
  }

  /** How a run with URLs that does not come through fails, first things first. */
  ghost function Failure(src: Sources, fetch: Fetch, urls: seq<string>): Outcome {
    if !Readable(src) then Unreadable(src) else if !AllAnswered(fetch, urls) then FetchFailed else NoValidVersions
  }

  /** The text a run that comes through writes. */
  ghost function TextOf(src: Sources, fetch: Fetch, urls: seq<string>, changelog: string): string
    requires ComesThrough(src, fetch, urls)
  {
    if urls == [] then RemoveUpstreamSection(changelog)
    else
      FetchAllExactly(fetch, urls);
      Scaffold.FillPlaceholders(changelog, ContentOf(FetchAll(fetch, urls).value, SettingsOf(src, false)))
  }

  lemma {:induction false} RunWithUrls(src: Sources, fetch: Fetch, urls: seq<string>, dryRun: bool, changelog: string)
    requires urls != [] && Readable(src)
    ensures RunOutcome(src, fetch, urls, dryRun, changelog) == RunResult(fetch, urls, SettingsOf(src, dryRun), changelog)
  {
  }

  lemma {:induction false} ResultExactly(fetch: Fetch, urls: seq<string>, s: Settings, changelog: string)
    requires urls != []
    ensures var r := RunResult(fetch, urls, s, changelog);
      && (!AllAnswered(fetch, urls) ==> r == FetchFailed)
      && (AllAnswered(fetch, urls) && !SomeAnswerValid(fetch, urls) ==> r == NoValidVersions)
      && (AllAnswered(fetch, urls) && SomeAnswerValid(fetch, urls) ==>
            FetchAll(fetch, urls).Some? &&
            var content := ContentOf(FetchAll(fetch, urls).value, s);
            r == if s.dryRun then Printed(content) else Rewritten(Scaffold.FillPlaceholders(changelog, content)))
  {
    FetchAllExactly(fetch, urls);
    if FetchAll(fetch, urls).Some? {
      GuardFailsExactly(fetch, urls, s, changelog);
      if RunResult(fetch, urls, s, changelog).Rewritten? {
        RunWithUrlsFills(fetch, urls, s, changelog);
      }
    }
  }

  lemma {:induction false} NoUrlsEnd(src: Sources, fetch: Fetch, dryRun: bool, changelog: string)
    ensures RunOutcome(src, fetch, [], dryRun, changelog) ==
            if dryRun then Announcement else Rewritten(RemoveUpstreamSection(changelog))
  {
  }

  /** With something unreadable the run is over before it fetches. */
  lemma {:induction false} UnreadableEnd(src: Sources, fetch: Fetch, urls: seq<string>, dryRun: bool, changelog: string)
    requires urls != [] && !Readable(src)
    ensures RunOutcome(src, fetch, urls, dryRun, changelog) == Unreadable(src)
    ensures !Unreadable(src).Rewritten?
  {
  }

  lemma {:induction false} LateEnd(src: Sources, fetch: Fetch, urls: seq<string>, dryRun: bool, changelog: string)
    requires urls != [] && Readable(src)
    ensures var r := RunOutcome(src, fetch, urls, dryRun, changelog);
      if !ComesThrough(src, fetch, urls) then r == Failure(src, fetch, urls)
      else if dryRun then r.Printed? else r == Rewritten(TextOf(src, fetch, urls, changelog))
  {
    RunWithUrls(src, fetch, urls, dryRun, changelog);
    ResultExactly(fetch, urls, SettingsOf(src, dryRun), changelog);
    if ComesThrough(src, fetch, urls) && !dryRun {
      assert SettingsOf(src, dryRun) == SettingsOf(src, false);
    }
  }

  /**
   A run rewrites the changelog exactly when it is no dry run and comes through, and then with the
   upstream section removed, if it has no URLs, or else with the scaffold filled.
   */
  lemma {:induction false} RunRewritesExactly(src: Sources, fetch: Fetch, urls: seq<string>, dryRun: bool, changelog: string)
    ensures RunOutcome(src, fetch, urls, dryRun, changelog).Rewritten? <==> !dryRun && ComesThrough(src, fetch, urls)
    ensures !dryRun && ComesThrough(src, fetch, urls) ==>
              RunOutcome(src, fetch, urls, dryRun, changelog) == Rewritten(TextOf(src, fetch, urls, changelog))
    ensures !ComesThrough(src, fetch, urls) ==> RunOutcome(src, fetch, urls, dryRun, changelog) == Failure(src, fetch, urls)
  {
    if urls == [] {
      NoUrlsEnd(src, fetch, dryRun, changelog);
    } else if !Readable(src) {
      UnreadableEnd(src, fetch, urls, dryRun, changelog);
    } else {
      LateEnd(src, fetch, urls, dryRun, changelog);
    }
  }
}
