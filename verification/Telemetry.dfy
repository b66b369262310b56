/**
 What DeduplicateResources computes, pass by pass, and what it means: on every path of resource
 key, scope name, metric name and datapoint key the first datapoint in traversal order survives.
 */
module Telemetry {
  import opened Options
  import opened AttrsKey
  import opened Grouping

  datatype MetricType = Empty | Gauge | Sum | Summary | Histogram | ExponentialHistogram

  datatype DataPoint = DataPoint(attrs: Attrs, value: int)
  datatype MetricHead = MetricHead(name: string, description: string, typ: MetricType)
  datatype ScopeHead = ScopeHead(name: string, version: string)
  datatype ResourceHead = ResourceHead(attrs: Attrs, schemaUrl: string)

  type Metric = Box<MetricHead, DataPoint>
  type Scope = Box<ScopeHead, Metric>
  type Resource = Box<ResourceHead, Scope>

  function ResourceKey(h: ResourceHead): string { CanonicalAttrsKey(h.attrs) }
  function ScopeName(h: ScopeHead): string { h.name }
  function MetricName(h: MetricHead): string { h.name }
  function PointKey(p: DataPoint): string { CanonicalAttrsKey(p.attrs) }

  /** A metric without a type has no place for datapoints. */
  ghost predicate WellFormedMetrics(ms: seq<Metric>) {
    forall i :: 0 <= i < |ms| && ms[i].head.typ.Empty? ==> ms[i].kids == []
  }

  // ---------------------------------------------------------------- the third pass: metrics by name

  /** The type of the first metric named `name`. */
  function LeadType(ms: seq<Metric>, name: string): Option<MetricType> {
    if ms == [] then None
    else
      var lead, m := LeadType(ms[..|ms| - 1], name), ms[|ms| - 1];
      if lead.Some? then lead else if m.head.name == name then Some(m.head.typ) else None
  }

  lemma LeadTypeExtend(ms: seq<Metric>, m: Metric, name: string)
    ensures LeadType(ms + [m], name) ==
            if LeadType(ms, name).Some? then LeadType(ms, name) else if m.head.name == name then Some(m.head.typ) else None
  {
    assert (ms + [m])[..|ms|] == ms;
  }

  lemma {:induction false} LeadTypePersists(ms: seq<Metric>, name: string, n: nat)
    requires n <= |ms| && LeadType(ms[..n], name).Some?
    ensures LeadType(ms, name) == LeadType(ms[..n], name)
  {
    if n < |ms| {
      var front := ms[..|ms| - 1];
      assert front[..n] == ms[..n];
      LeadTypePersists(front, name, n);
    } else {
      assert ms[..n] == ms;
    }
  }

  lemma {:induction false} LeadTypeKnown(ms: seq<Metric>, name: string)
    ensures LeadType(ms, name).Some? <==> HasKey(MetricName, ms, name)
  {
    if ms != [] {
      var front, m := ms[..|ms| - 1], ms[|ms| - 1];
      LeadTypeKnown(front, name);
      assert ms == front + [m];
      HasKeyExtend(MetricName, front, m, name);
    }
  }

  lemma LeadTypeOfFirst(ms: seq<Metric>, i: nat)
    requires i < |ms| && IsFirst(MetricName, ms, i)
    ensures LeadType(ms, ms[i].head.name) == Some(ms[i].head.typ)
  {
    var name := ms[i].head.name;
    FirstIsNew(MetricName, ms, i);
    LeadTypeKnown(ms[..i], name);
    assert ms[..i + 1] == ms[..i] + [ms[i]];
    LeadTypeExtend(ms[..i], ms[i], name);
    LeadTypePersists(ms, name, i + 1);
  }

  lemma LeadTypeFirst(ms: seq<Metric>, name: string)
    ensures LeadType(ms, name).Some? <==> HasKey(MetricName, ms, name)
    ensures forall i :: 0 <= i < |ms| && IsFirst(MetricName, ms, i) && ms[i].head.name == name ==> LeadType(ms, name) == Some(ms[i].head.typ)
  {
    LeadTypeKnown(ms, name);
    forall i | 0 <= i < |ms| && IsFirst(MetricName, ms, i) && ms[i].head.name == name
      ensures LeadType(ms, name) == Some(ms[i].head.typ)
    {
      LeadTypeOfFirst(ms, i);
    }
  }

  /** Typed lead metrics take the datapoints of their namesakes; an Empty lead takes nothing. */
  ghost function MetricMergedAt(ms: seq<Metric>, i: nat): Metric
    requires i < |ms|
  {
    if LeadType(ms, ms[i].head.name) == Some(Empty) then ms[i] else MergedAt(MetricName, ms, i)
  }

  ghost function MetricsMerged(ms: seq<Metric>): seq<Metric> {
    seq(|ms|, i requires 0 <= i < |ms| => MetricMergedAt(ms, i))
  }

  /** RemoveIf drops typed metrics without datapoints and never a metric of type Empty. */
  predicate Survives(m: Metric) {
    m.head.typ.Empty? || m.kids != []
  }

  ghost function MergeByName(ms: seq<Metric>): seq<Metric> {
    Keep(Survives, MetricsMerged(ms))
  }

  /** Every metric has the type of the first metric of its name, unless that one is Empty. */
  ghost predicate TypesAgree(ms: seq<Metric>) {
    forall i :: 0 <= i < |ms| ==>
      var lead := LeadType(ms, ms[i].head.name);
      lead == Some(Empty) || lead == Some(ms[i].head.typ)
  }

  lemma MetricMergedHead(ms: seq<Metric>, i: nat)
    requires i < |ms| && WellFormedMetrics(ms) && TypesAgree(ms)
    ensures MetricMergedAt(ms, i).head == ms[i].head
    ensures !Survives(MetricMergedAt(ms, i)) ==> MetricMergedAt(ms, i).kids == []
  {
  }

  /** Merging by name moves no datapoint to another name and keeps their order. */
  lemma GatherMergeByName(ms: seq<Metric>, name: string)
    requires WellFormedMetrics(ms) && TypesAgree(ms)
    ensures Gather(MetricName, MergeByName(ms), name) == Gather(MetricName, ms, name)
  {
    var merged := MetricsMerged(ms);
    GatherKeep(MetricName, Survives, merged, name);
    if LeadType(ms, name) == Some(Empty) {
      GatherAgree(MetricName, merged, ms, name);
    } else {
      GatherAgree(MetricName, merged, MergedAll(MetricName, ms), name);
      GatherKeep(MetricName, HasKids, MergedAll(MetricName, ms), name);
      GatherGrouped(MetricName, ms, name);
    }
  }

  /** Two metrics of a name whose lead is Empty both survive the pass. */
  ghost predicate NameRepeats(ms: seq<Metric>, name: string) {
    LeadType(ms, name) == Some(Empty) && TwoKept(MetricName, Survives, ms, name)
  }

  /** A name is unique after the pass exactly when it does not repeat under an Empty lead. */
  lemma MergeByNameUnique(ms: seq<Metric>, name: string)
    requires WellFormedMetrics(ms) && TypesAgree(ms)
    ensures UniqueKey(MetricName, MergeByName(ms), name) <==> !NameRepeats(ms, name)
  {
    var merged := MetricsMerged(ms);
    KeepUnique(MetricName, Survives, merged, name);
    if LeadType(ms, name) == Some(Empty) {
      if i, j :| 0 <= i < j < |ms| && Survives(ms[i]) && Survives(ms[j]) && MetricName(ms[i].head) == name && MetricName(ms[j].head) == name {
        assert merged[i] == ms[i] && merged[j] == ms[j];
      }
      if i, j :| 0 <= i < j < |merged| && Survives(merged[i]) && Survives(merged[j]) && MetricName(merged[i].head) == name && MetricName(merged[j].head) == name {
        assert merged[i] == ms[i] && merged[j] == ms[j];
      }
    } else {
      forall i, j | 0 <= i < j < |merged| && MetricName(merged[i].head) == name && MetricName(merged[j].head) == name
        ensures !Survives(merged[j])
      {
        assert ms[i].head.name == ms[j].head.name;
        assert !IsFirst(MetricName, ms, j);
      }
    }
  }

  // ---------------------------------------------------------------- the fourth pass: datapoints by key

  /** deduplicateDatapoints on one metric's slice. */
  ghost function DedupPoints(ps: seq<DataPoint>): seq<DataPoint> { FirstPerKey(PointKey, ps) }

  // ---------------------------------------------------------------- all passes

  ghost function GroupScopes(ss: seq<Scope>): seq<Scope> { Grouped(ScopeName, ss) }
  ghost function MergeScopeMetrics(ss: seq<Scope>): seq<Scope> { MapKids(ss, MergeByName) }
  ghost function DedupMetricPoints(ms: seq<Metric>): seq<Metric> { MapKids(ms, DedupPoints) }
  ghost function DedupScopePoints(ss: seq<Scope>): seq<Scope> { MapKids(ss, DedupMetricPoints) }

  ghost function ScopePass(rs: seq<Resource>): seq<Resource> { MapKids(rs, GroupScopes) }
  ghost function MetricPass(rs: seq<Resource>): seq<Resource> { MapKids(rs, MergeScopeMetrics) }
  ghost function PointPass(rs: seq<Resource>): seq<Resource> { MapKids(rs, DedupScopePoints) }

  ghost function Deduplicated(rs: seq<Resource>): seq<Resource> {
    PointPass(MetricPass(ScopePass(Grouped(ResourceKey, rs))))
  }

  /** The metrics under a resource key and a scope name, in traversal order. */
  function MetricsAt(rs: seq<Resource>, rk: string, sn: string): seq<Metric> {
    Gather(ScopeName, Gather(ResourceKey, rs, rk), sn)
  }

  /** The datapoints on a path, in traversal order. */
  function PointsAt(ms: seq<Metric>, mn: string, dk: string): seq<DataPoint> {
    WithKey(PointKey, Gather(MetricName, ms, mn), dk)
  }

  ghost function MetricsOut(ms: seq<Metric>): seq<Metric> { DedupMetricPoints(MergeByName(ms)) }

  ghost predicate WellFormed(rs: seq<Resource>) {
    forall r, s :: r in rs && s in r.kids ==> WellFormedMetrics(s.kids)
  }

  lemma WellFormedAt(rs: seq<Resource>, rk: string, sn: string)
    requires WellFormed(rs)
    ensures WellFormedMetrics(MetricsAt(rs, rk, sn))
  {
    var ss, ms := Gather(ResourceKey, rs, rk), MetricsAt(rs, rk, sn);
    forall i | 0 <= i < |ms| && ms[i].head.typ.Empty?
      ensures ms[i].kids == []
    {
      var a := GatherMembers(ScopeName, ss, sn, ms[i]);
      assert ss[a] in ss;
      var b := GatherMembers(ResourceKey, rs, rk, ss[a]);
      assert rs[b] in rs && WellFormedMetrics(ss[a].kids);
    }
  }

  /** No two metrics that meet under one name have different types, unless the first is Empty. */
  ghost predicate NoTypeClash(rs: seq<Resource>) {
    forall rk, sn :: TypesAgree(MetricsAt(rs, rk, sn))
  }

  lemma ScopesOut(rs: seq<Resource>, rk: string)
    ensures Gather(ResourceKey, ScopePass(Grouped(ResourceKey, rs)), rk) == GroupScopes(Gather(ResourceKey, rs, rk))
    ensures UniqueKey(ResourceKey, ScopePass(Grouped(ResourceKey, rs)), rk)
  {
    var g := Grouped(ResourceKey, rs);
    GatherGrouped(ResourceKey, rs, rk);
    GroupedDistinct(ResourceKey, rs);
    DistinctIsUnique(ResourceKey, g);
    GatherMapKids(ResourceKey, g, GroupScopes, rk);
    MapKidsKeys(ResourceKey, g, GroupScopes, rk);
  }

  /** The scopes of one resource after all passes depend on its scopes before them alone. */
  lemma ResourceOut(rs: seq<Resource>, rk: string)
    ensures UniqueKey(ResourceKey, Deduplicated(rs), rk)
    ensures Gather(ResourceKey, Deduplicated(rs), rk) == DedupScopePoints(MergeScopeMetrics(GroupScopes(Gather(ResourceKey, rs, rk))))
  {
    var s2 := ScopePass(Grouped(ResourceKey, rs));
    ScopesOut(rs, rk);
    GatherMapKids(ResourceKey, s2, MergeScopeMetrics, rk);
    MapKidsKeys(ResourceKey, s2, MergeScopeMetrics, rk);
    GatherMapKids(ResourceKey, MetricPass(s2), DedupScopePoints, rk);
    MapKidsKeys(ResourceKey, MetricPass(s2), DedupScopePoints, rk);
  }

  lemma ScopeOut(ss: seq<Scope>, sn: string)
    ensures UniqueKey(ScopeName, DedupScopePoints(MergeScopeMetrics(GroupScopes(ss))), sn)
    ensures Gather(ScopeName, DedupScopePoints(MergeScopeMetrics(GroupScopes(ss))), sn) == MetricsOut(Gather(ScopeName, ss, sn))
  {
    var g := GroupScopes(ss);
    GatherGrouped(ScopeName, ss, sn);
    GroupedDistinct(ScopeName, ss);
    DistinctIsUnique(ScopeName, g);
    GatherMapKids(ScopeName, g, MergeByName, sn);
    MapKidsKeys(ScopeName, g, MergeByName, sn);
    GatherMapKids(ScopeName, MergeScopeMetrics(g), DedupMetricPoints, sn);
    MapKidsKeys(ScopeName, MergeScopeMetrics(g), DedupMetricPoints, sn);
  }

  /** The metrics of one scope after all passes depend on its metrics before them alone. */
  lemma MetricsAtOut(rs: seq<Resource>, rk: string, sn: string)
    ensures MetricsAt(Deduplicated(rs), rk, sn) == MetricsOut(MetricsAt(rs, rk, sn))
  {
    ResourceOut(rs, rk);
    ScopeOut(Gather(ResourceKey, rs, rk), sn);
  }

  /** What survives on a path under an Empty lead: the first datapoint of each metric there. */
  ghost function FirstOfEach(ms: seq<Metric>, mn: string, dk: string): seq<DataPoint> {
    if ms == [] then []
    else
      var m := ms[|ms| - 1];
      FirstOfEach(ms[..|ms| - 1], mn, dk) + if m.head.name == mn then Take1(WithKey(PointKey, m.kids, dk)) else []
  }

  lemma {:induction false} PointsOfEach(ms: seq<Metric>, mn: string, dk: string)
    ensures PointsAt(DedupMetricPoints(ms), mn, dk) == FirstOfEach(ms, mn, dk)
  {
    if ms != [] {
      var front, m := ms[..|ms| - 1], ms[|ms| - 1];
      var m' := Box(m.head, DedupPoints(m.kids));
      PointsOfEach(front, mn, dk);
      assert DedupMetricPoints(ms) == DedupMetricPoints(front) + [m'];
      GatherExtend(MetricName, DedupMetricPoints(front), m', mn);
      var mine := if m.head.name == mn then m'.kids else [];
      WithKeyAppend(PointKey, Gather(MetricName, DedupMetricPoints(front), mn), mine, dk);
      FirstPerKeyTakes1(PointKey, m.kids, dk);
      assert WithKey(PointKey, [], dk) == [];
    }
  }

  lemma {:induction false} FirstOfEachKeep(ms: seq<Metric>, mn: string, dk: string)
    requires WellFormedMetrics(ms)
    ensures FirstOfEach(Keep(Survives, ms), mn, dk) == FirstOfEach(ms, mn, dk)
  {
    if ms != [] {
      var front, m := ms[..|ms| - 1], ms[|ms| - 1];
      FirstOfEachKeep(front, mn, dk);
      assert (Keep(Survives, front) + [m])[..|Keep(Survives, front)|] == Keep(Survives, front);
      if !Survives(m) {
        assert Keep(Survives, ms) == Keep(Survives, front);
      }
    }
  }

  lemma {:induction false} FirstOfEachAgree(ms: seq<Metric>, ns: seq<Metric>, mn: string, dk: string)
    requires |ms| == |ns|
    requires forall i :: 0 <= i < |ms| ==> ms[i].head == ns[i].head && (ms[i].head.name == mn ==> ms[i] == ns[i])
    ensures FirstOfEach(ms, mn, dk) == FirstOfEach(ns, mn, dk)
  {
    if ms != [] {
      FirstOfEachAgree(ms[..|ms| - 1], ns[..|ns| - 1], mn, dk);
    }
  }

  lemma MetricsMergedWellFormed(ms: seq<Metric>)
    requires WellFormedMetrics(ms) && TypesAgree(ms)
    ensures WellFormedMetrics(MetricsMerged(ms))
  {
    forall i | 0 <= i < |ms| && MetricsMerged(ms)[i].head.typ.Empty?
      ensures MetricsMerged(ms)[i].kids == []
    {
      MetricMergedHead(ms, i);
      assert LeadType(ms, ms[i].head.name) == Some(Empty);
    }
  }

  /** The survivors of a path within one scope, exactly. */
  lemma SurvivorsInScope(ms: seq<Metric>, mn: string, dk: string)
    requires WellFormedMetrics(ms) && TypesAgree(ms)
    ensures PointsAt(MetricsOut(ms), mn, dk) ==
            if LeadType(ms, mn) == Some(Empty) then FirstOfEach(ms, mn, dk) else Take1(PointsAt(ms, mn, dk))
  {
    var merged := MergeByName(ms);
    if LeadType(ms, mn) == Some(Empty) {
      PointsOfEach(merged, mn, dk);
      MetricsMergedWellFormed(ms);
      FirstOfEachKeep(MetricsMerged(ms), mn, dk);
      FirstOfEachAgree(MetricsMerged(ms), ms, mn, dk);
    } else {
      MergeByNameUnique(ms, mn);
      GatherMergeByName(ms, mn);
      GatherMapKids(MetricName, merged, DedupPoints, mn);
      FirstPerKeyTakes1(PointKey, Gather(MetricName, ms, mn), dk);
    }
  }

  /**
   On every path the survivor is the first datapoint of the input in traversal order, and every
   path of the input survives; only under an Empty lead does each metric keep its own.
   */
  lemma SurvivorsOnPath(rs: seq<Resource>, rk: string, sn: string, mn: string, dk: string)
    requires WellFormed(rs) && NoTypeClash(rs)
    ensures var ms := MetricsAt(rs, rk, sn);
      PointsAt(MetricsAt(Deduplicated(rs), rk, sn), mn, dk) ==
      if LeadType(ms, mn) == Some(Empty) then FirstOfEach(ms, mn, dk) else Take1(PointsAt(ms, mn, dk))
  {
    WellFormedAt(rs, rk, sn);
    MetricsAtOut(rs, rk, sn);
    SurvivorsInScope(MetricsAt(rs, rk, sn), mn, dk);
  }
}
