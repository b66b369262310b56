/** Filtering the upstream changelog entries into the five buckets of a release. */
module ChangelogEntries {
  import opened Sequences
  import opened Grouping
  import opened PathPattern
  import opened Versions

  datatype ChangeType = Breaking | Deprecation | NewComponent | Enhancement | BugFix | UnknownType(name: string)
  datatype Source = Core | Contrib | UnknownSource(name: string)

  datatype Entry = Entry(component: string, note: string, issues: seq<int>, subtext: string, changeType: ChangeType,
                         source: Source, upstreamVersion: string, repoUrl: string)

  datatype FilteredChangelog =
    FilteredChangelog(distVersion: string, upstreamVersions: seq<string>, coreRepoUrl: string, contribRepoUrl: string,
                      breaking: seq<Entry>, deprecations: seq<Entry>, newComponents: seq<Entry>,
                      enhancements: seq<Entry>, bugFixes: seq<Entry>)

  function InBucket(ct: ChangeType, manifest: set<string>, cfg: Config): Entry -> bool {
    (e: Entry) => ShouldInclude(e.component, manifest, cfg) && e.changeType == ct
  }

  function UpstreamVersion(e: Entry): string {
    e.upstreamVersion
  }

  predicate Always(v: string) {
    true
  }

  function VersionsOf(entries: seq<Entry>): seq<string> {
    KeepMapped(UpstreamVersion, Always, entries)
  }

  /** The first repository URL an entry from `source` brings. */
  function FirstUrl(source: Source, entries: seq<Entry>): string {
    if entries == [] then ""
    else
      var url, e := FirstUrl(source, entries[..|entries| - 1]), entries[|entries| - 1];
      if url != "" then url else if e.source == source then e.repoUrl else ""
  }

  ghost function FilterResult(entries: seq<Entry>, manifest: set<string>, cfg: Config): FilteredChangelog {
    FilteredChangelog("", FirstPerKey(Itself, VersionsOf(entries)), FirstUrl(Core, entries), FirstUrl(Contrib, entries),
                      Keep(InBucket(Breaking, manifest, cfg), entries), Keep(InBucket(Deprecation, manifest, cfg), entries),
                      Keep(InBucket(NewComponent, manifest, cfg), entries), Keep(InBucket(Enhancement, manifest, cfg), entries),
                      Keep(InBucket(BugFix, manifest, cfg), entries))
  }

  lemma KeepTurn<T>(p: T -> bool, xs: seq<T>, i: nat)
    requires i < |xs|
    ensures Keep(p, xs[..i + 1]) == if p(xs[i]) then Keep(p, xs[..i]) + [xs[i]] else Keep(p, xs[..i])
  {
    assert xs[..i + 1] == xs[..i] + [xs[i]];
    KeepExtend(p, xs[..i], xs[i]);
  }

  lemma FirstUrlTurn(source: Source, entries: seq<Entry>, i: nat)
    requires i < |entries|
    ensures FirstUrl(source, entries[..i + 1]) ==
            if FirstUrl(source, entries[..i]) == "" && entries[i].source == source then entries[i].repoUrl
            else FirstUrl(source, entries[..i])
  {
    assert entries[..i + 1][..i] == entries[..i];
  }

  /** The loop over the entries, without the sorting into buckets. */
  method TrackVersionsAndUrls(fc: FilteredChangelog, seen: set<string>, ghost entries: seq<Entry>, ghost i: nat, e: Entry)
    returns (r: FilteredChangelog, seen': set<string>)
    requires i < |entries| && e == entries[i]
    requires fc.upstreamVersions == FirstPerKey(Itself, VersionsOf(entries[..i])) && Seen(seen, VersionsOf(entries[..i]))
    requires fc.coreRepoUrl == FirstUrl(Core, entries[..i]) && fc.contribRepoUrl == FirstUrl(Contrib, entries[..i])
    ensures Seen(seen', VersionsOf(entries[..i + 1]))
    ensures r == fc.(upstreamVersions := FirstPerKey(Itself, VersionsOf(entries[..i + 1])),
                     coreRepoUrl := FirstUrl(Core, entries[..i + 1]), contribRepoUrl := FirstUrl(Contrib, entries[..i + 1]))
  {
    r, seen' := fc, seen;
    KeepMappedTurn(UpstreamVersion, Always, entries, i);
    UniqueTurn(VersionsOf(entries[..i]), e.upstreamVersion, seen);
    if e.upstreamVersion !in seen {
      seen' := seen + {e.upstreamVersion};
      r := r.(upstreamVersions := r.upstreamVersions + [e.upstreamVersion]);
    } else {
      assert seen + {e.upstreamVersion} == seen;
    }
    FirstUrlTurn(Core, entries, i);
    FirstUrlTurn(Contrib, entries, i);
    if e.source == Core && r.coreRepoUrl == "" {
      r := r.(coreRepoUrl := e.repoUrl);
    }
    if e.source == Contrib && r.contribRepoUrl == "" {
      r := r.(contribRepoUrl := e.repoUrl);
    }
  }

  /** The bucket of a known change type. */
  function BucketOf(fc: FilteredChangelog, ct: ChangeType): seq<Entry> {
    match ct
    case Breaking => fc.breaking
    case Deprecation => fc.deprecations
    case NewComponent => fc.newComponents
    case Enhancement => fc.enhancements
    case BugFix => fc.bugFixes
    case UnknownType(_) => []
  }

  ghost predicate SameButBuckets(x: FilteredChangelog, y: FilteredChangelog) {
    && x.distVersion == y.distVersion && x.upstreamVersions == y.upstreamVersions
    && x.coreRepoUrl == y.coreRepoUrl && x.contribRepoUrl == y.contribRepoUrl
  }

  /** The switch over the change type: the entry joins the bucket of its type, and no other bucket changes. */
  method AddToBucket(fc: FilteredChangelog, e: Entry) returns (r: FilteredChangelog)
    ensures SameButBuckets(r, fc)
    ensures forall ct: ChangeType :: !ct.UnknownType? ==>
              BucketOf(r, ct) == if ct == e.changeType then BucketOf(fc, ct) + [e] else BucketOf(fc, ct)
  {
    match e.changeType
    case Breaking => r := fc.(breaking := fc.breaking + [e]);
    case Deprecation => r := fc.(deprecations := fc.deprecations + [e]);
    case NewComponent => r := fc.(newComponents := fc.newComponents + [e]);
    case Enhancement => r := fc.(enhancements := fc.enhancements + [e]);
    case BugFix => r := fc.(bugFixes := fc.bugFixes + [e]);
    case UnknownType(_) => r := fc;
  }

  lemma BucketsTurn(entries: seq<Entry>, manifest: set<string>, cfg: Config, i: nat, ct: ChangeType)
    requires i < |entries|
    ensures var was, now := Keep(InBucket(ct, manifest, cfg), entries[..i]), Keep(InBucket(ct, manifest, cfg), entries[..i + 1]);
      now == if ShouldInclude(entries[i].component, manifest, cfg) && entries[i].changeType == ct then was + [entries[i]] else was
  {
    KeepTurn(InBucket(ct, manifest, cfg), entries, i);
  }

  /** The entry's turn is over but for its bucket. */
  ghost predicate Tracked(fc: FilteredChangelog, entries: seq<Entry>, manifest: set<string>, cfg: Config, i: nat)
    requires i < |entries|
  {
    SameButBuckets(fc, FilterResult(entries[..i + 1], manifest, cfg))
    && forall ct: ChangeType :: !ct.UnknownType? ==> BucketOf(fc, ct) == Keep(InBucket(ct, manifest, cfg), entries[..i])
  }

  ghost predicate Bucketed(fc: FilteredChangelog, r: FilteredChangelog, e: Entry, included: bool) {
    SameButBuckets(r, fc)
    && forall ct: ChangeType :: !ct.UnknownType? ==>
         BucketOf(r, ct) == if included && ct == e.changeType then BucketOf(fc, ct) + [e] else BucketOf(fc, ct)
  }

  lemma BucketDone(fc: FilteredChangelog, r: FilteredChangelog, entries: seq<Entry>, manifest: set<string>, cfg: Config, i: nat, ct: ChangeType)
    requires i < |entries| && Tracked(fc, entries, manifest, cfg, i) && !ct.UnknownType?
    requires Bucketed(fc, r, entries[i], ShouldInclude(entries[i].component, manifest, cfg))
    ensures BucketOf(r, ct) == Keep(InBucket(ct, manifest, cfg), entries[..i + 1])
  {
    BucketsTurn(entries, manifest, cfg, i, ct);
  }

  lemma TurnDone(fc: FilteredChangelog, r: FilteredChangelog, entries: seq<Entry>, manifest: set<string>, cfg: Config, i: nat)
    requires i < |entries| && Tracked(fc, entries, manifest, cfg, i)
    requires Bucketed(fc, r, entries[i], ShouldInclude(entries[i].component, manifest, cfg))
    ensures r == FilterResult(entries[..i + 1], manifest, cfg)
  {
    BucketDone(fc, r, entries, manifest, cfg, i, Breaking);
    BucketDone(fc, r, entries, manifest, cfg, i, Deprecation);
    BucketDone(fc, r, entries, manifest, cfg, i, NewComponent);
    BucketDone(fc, r, entries, manifest, cfg, i, Enhancement);
    BucketDone(fc, r, entries, manifest, cfg, i, BugFix);
  }

  method FilterEntries(entries: seq<Entry>, components: set<string>, cfg: Config) returns (fc: FilteredChangelog)
    ensures fc == FilterResult(entries, components, cfg)
  {
    fc := FilteredChangelog("", [], "", "", [], [], [], [], []);
    var seenVersions: set<string> := {};
    for i := 0 to |entries|
      invariant fc == FilterResult(entries[..i], components, cfg)
      invariant Seen(seenVersions, VersionsOf(entries[..i]))
    {
      var e := entries[i];
      fc, seenVersions := TrackVersionsAndUrls(fc, seenVersions, entries, i, e);
      ghost var tracked := fc;
      if ShouldInclude(e.component, components, cfg) {
        fc := AddToBucket(fc, e);
      }
      TurnDone(tracked, fc, entries, components, cfg, i);
    }
    assert entries[..|entries|] == entries;
  }

  // ---------------------------------------------------------------- what is written, in which order

  function FromSource(source: Source): Entry -> bool {
    (e: Entry) => e.source == source
  }

  /** The entries of a bucket in the order they are written: core, then contrib. */
  function Written(bucket: seq<Entry>): seq<Entry> {
    Keep(FromSource(Core), bucket) + Keep(FromSource(Contrib), bucket)
  }

  /** All entries written for a release, section by section. */
  function Rendered(fc: FilteredChangelog): seq<Entry> {
    Written(fc.breaking) + Written(fc.deprecations) + Written(fc.newComponents) + Written(fc.enhancements) + Written(fc.bugFixes)
  }

  lemma {:induction false} KeepMultiset<T>(p: T -> bool, xs: seq<T>, x: T)
    ensures multiset(Keep(p, xs))[x] == if p(x) then multiset(xs)[x] else 0
  {
    if xs != [] {
      KeepMultiset(p, xs[..|xs| - 1], x);
      assert xs == xs[..|xs| - 1] + [xs[|xs| - 1]];
    }
  }

  predicate Renderable(e: Entry) {
    !e.source.UnknownSource? && !e.changeType.UnknownType?
  }

  lemma WrittenMultiset(ct: ChangeType, entries: seq<Entry>, manifest: set<string>, cfg: Config, e: Entry)
    ensures multiset(Written(Keep(InBucket(ct, manifest, cfg), entries)))[e] ==
            if ShouldInclude(e.component, manifest, cfg) && e.changeType == ct && !e.source.UnknownSource? then multiset(entries)[e] else 0
  {
    var bucket := Keep(InBucket(ct, manifest, cfg), entries);
    KeepMultiset(InBucket(ct, manifest, cfg), entries, e);
    KeepMultiset(FromSource(Core), bucket, e);
    KeepMultiset(FromSource(Contrib), bucket, e);
  }

  /**
   Every entry is rendered as often as it was fetched when it is included and has a known source
   and change type, and never otherwise.
   */
  lemma RenderedExactly(entries: seq<Entry>, manifest: set<string>, cfg: Config, e: Entry)
    ensures multiset(Rendered(FilterResult(entries, manifest, cfg)))[e] ==
            if ShouldInclude(e.component, manifest, cfg) && Renderable(e) then multiset(entries)[e] else 0
  {
    WrittenMultiset(Breaking, entries, manifest, cfg, e);
    WrittenMultiset(Deprecation, entries, manifest, cfg, e);
    WrittenMultiset(NewComponent, entries, manifest, cfg, e);
    WrittenMultiset(Enhancement, entries, manifest, cfg, e);
    WrittenMultiset(BugFix, entries, manifest, cfg, e);
  }

  ghost predicate Ascending(at: seq<nat>) {
    forall a, b :: 0 <= a < b < |at| ==> at[a] < at[b]
  }

  /** `at` are the places in `xs` of what satisfies `p`, in order, and `ys` is what stands there. */
  ghost predicate Picks<T>(p: T -> bool, xs: seq<T>, at: seq<nat>, ys: seq<T>) {
    && |at| == |ys| && Ascending(at)
    && (forall a :: 0 <= a < |at| ==> at[a] < |xs| && ys[a] == xs[at[a]] && p(ys[a]))
    && (forall i :: 0 <= i < |xs| && p(xs[i]) ==> i in at)
  }

  lemma AscendingAppend(at: seq<nat>, n: nat)
    requires Ascending(at) && forall a :: 0 <= a < |at| ==> at[a] < n
    ensures Ascending(at + [n])
    ensures forall i :: i in at + [n] <==> i in at || i == n
  {
  }

  lemma PicksMore<T>(p: T -> bool, xs: seq<T>, x: T, at: seq<nat>, ys: seq<T>)
    requires Picks(p, xs, at, ys) && p(x)
    ensures Picks(p, xs + [x], at + [|xs|], ys + [x])
  {
    AscendingAppend(at, |xs|);
    assert forall i :: 0 <= i < |xs| ==> (xs + [x])[i] == xs[i];
  }

  lemma PicksNoMore<T>(p: T -> bool, xs: seq<T>, x: T, at: seq<nat>, ys: seq<T>)
    requires Picks(p, xs, at, ys) && !p(x)
    ensures Picks(p, xs + [x], at, ys)
  {
    assert forall i :: 0 <= i < |xs| ==> (xs + [x])[i] == xs[i];
  }

  lemma {:induction false} KeepPicks<T>(p: T -> bool, xs: seq<T>) returns (at: seq<nat>)
    ensures Picks(p, xs, at, Keep(p, xs))
  {
    if xs == [] {
      at := [];
    } else {
      var front, x := xs[..|xs| - 1], xs[|xs| - 1];
      at := KeepPicks(p, front);
      assert xs == front + [x];
      KeepExtend(p, front, x);
      if p(x) {
        PicksMore(p, front, x, at, Keep(p, front));
        at := at + [|front|];
      } else {
        PicksNoMore(p, front, x, at, Keep(p, front));
      }
    }
  }

  lemma {:induction false} KeepKeep<T>(p: T -> bool, q: T -> bool, both: T -> bool, xs: seq<T>)
    requires forall x :: both(x) <==> p(x) && q(x)
    ensures Keep(p, Keep(q, xs)) == Keep(both, xs)
  {
    if xs != [] {
      var front, x := xs[..|xs| - 1], xs[|xs| - 1];
      KeepKeep(p, q, both, front);
      if q(x) {
        KeepExtend(p, Keep(q, front), x);
      } else {
        assert Keep(q, xs) == Keep(q, front);
      }
    }
  }

  function InSection(ct: ChangeType, source: Source, manifest: set<string>, cfg: Config): Entry -> bool {
    (e: Entry) => e.source == source && ShouldInclude(e.component, manifest, cfg) && e.changeType == ct
  }

  /**
   A section writes the included core entries of its type in the order they were fetched, and
   then the contrib entries in theirs: `core` and `contrib` are their places in the input.
   */
  lemma SectionOrder(ct: ChangeType, entries: seq<Entry>, manifest: set<string>, cfg: Config) returns (core: seq<nat>, contrib: seq<nat>)
    ensures var w := Written(Keep(InBucket(ct, manifest, cfg), entries));
      && |w| == |core| + |contrib|
      && Picks(InSection(ct, Core, manifest, cfg), entries, core, w[..|core|])
      && Picks(InSection(ct, Contrib, manifest, cfg), entries, contrib, w[|core|..])
  {
    KeepKeep(FromSource(Core), InBucket(ct, manifest, cfg), InSection(ct, Core, manifest, cfg), entries);
    KeepKeep(FromSource(Contrib), InBucket(ct, manifest, cfg), InSection(ct, Contrib, manifest, cfg), entries);
    core := KeepPicks(InSection(ct, Core, manifest, cfg), entries);
    contrib := KeepPicks(InSection(ct, Contrib, manifest, cfg), entries);
  }

  // ---------------------------------------------------------------- the versions covered

  ghost predicate FirstOf<T>(xs: seq<T>, i: nat)
    requires i < |xs|
  {
    forall j :: 0 <= j < i ==> xs[j] != xs[i]
  }

  lemma FirstOfExtend(xs: seq<string>, x: string, i: nat)
    requires i <= |xs|
    ensures FirstOf(xs + [x], i) <==> if i < |xs| then FirstOf(xs, i) else x !in xs
  {
    assert forall j :: 0 <= j < |xs| ==> (xs + [x])[j] == xs[j];
  }

  /** `at` are the places in `xs` of first occurrences, in order, and `ys` is what stands there. */
  ghost predicate Firsts(xs: seq<string>, at: seq<nat>, ys: seq<string>) {
    && |at| == |ys| && Ascending(at)
    && (forall a :: 0 <= a < |at| ==> at[a] < |xs| && ys[a] == xs[at[a]])
    && (forall i :: 0 <= i < |xs| ==> (i in at <==> FirstOf(xs, i)))
  }

  lemma FirstsMore(xs: seq<string>, x: string, at: seq<nat>, ys: seq<string>)
    requires Firsts(xs, at, ys) && x !in xs
    ensures Firsts(xs + [x], at + [|xs|], ys + [x])
  {
    AscendingAppend(at, |xs|);
    forall i | 0 <= i < |xs + [x]|
      ensures i in at + [|xs|] <==> FirstOf(xs + [x], i)
    {
      FirstOfExtend(xs, x, i);
    }
  }

  lemma FirstsNoMore(xs: seq<string>, x: string, at: seq<nat>, ys: seq<string>)
    requires Firsts(xs, at, ys) && x in xs
    ensures Firsts(xs + [x], at, ys)
  {
    assert |xs| !in at;
    forall i | 0 <= i < |xs + [x]|
      ensures i in at <==> FirstOf(xs + [x], i)
    {
      FirstOfExtend(xs, x, i);
    }
  }

  lemma {:induction false} FirstPlaces(xs: seq<string>) returns (at: seq<nat>)
    ensures Firsts(xs, at, FirstPerKey(Itself, xs))
  {
    if xs == [] {
      at := [];
    } else {
      var front, x := xs[..|xs| - 1], xs[|xs| - 1];
      var ys := FirstPerKey(Itself, front);
      at := FirstPlaces(front);
      FirstPerKeyMembers(front, x);
      assert xs == front + [x];
      FirstPerKeyExtend(Itself, front, x);
      if x in front {
        FirstsNoMore(front, x, at, ys);
      } else {
        FirstsMore(front, x, at, ys);
        at := at + [|front|];
      }
    }
  }

  lemma {:induction false} VersionsOfAt(entries: seq<Entry>)
    ensures |VersionsOf(entries)| == |entries|
    ensures forall i :: 0 <= i < |entries| ==> VersionsOf(entries)[i] == entries[i].upstreamVersion
  {
    if entries != [] {
      VersionsOfAt(entries[..|entries| - 1]);
    }
  }

  /** The versions are those of all entries, included or not, each once, in the order they first occur. */
  lemma UpstreamVersionsMeaning(entries: seq<Entry>, manifest: set<string>, cfg: Config) returns (at: seq<nat>)
    ensures var vs := FilterResult(entries, manifest, cfg).upstreamVersions;
      && |at| == |vs| && Ascending(at)
      && (forall a :: 0 <= a < |at| ==> at[a] < |entries| && vs[a] == entries[at[a]].upstreamVersion)
      && (forall i :: 0 <= i < |entries| ==>
            (i in at <==> forall j :: 0 <= j < i ==> entries[j].upstreamVersion != entries[i].upstreamVersion))
  {
    var all := VersionsOf(entries);
    VersionsOfAt(entries);
    at := FirstPlaces(all);
    forall i | 0 <= i < |entries|
      ensures i in at <==> forall j :: 0 <= j < i ==> entries[j].upstreamVersion != entries[i].upstreamVersion
    {
      assert FirstOf(all, i) <==> forall j :: 0 <= j < i ==> entries[j].upstreamVersion != entries[i].upstreamVersion;
    }
  }
}
