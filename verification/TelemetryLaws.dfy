/**
 The promises of DeduplicateResources, and exactly when they hold: one survivor to a path,
 distinct keys at every level, and idempotence.
 */
module TelemetryLaws {
  import opened Options
  import opened Sequences
  import opened AttrsKey
  import opened Grouping
  import opened Telemetry

  // ---------------------------------------------------------------- one survivor to a path

  ghost predicate MetricHolds(m: Metric, mn: string, dk: string) {
    m.head.name == mn && Holds(PointKey, m.kids, dk)
  }

  /** Two metrics named `mn` both have a datapoint keyed `dk`. */
  ghost predicate TwoHold(ms: seq<Metric>, mn: string, dk: string) {
    exists i, j :: 0 <= i < j < |ms| && MetricHolds(ms[i], mn, dk) && MetricHolds(ms[j], mn, dk)
  }

  ghost predicate SomeHolds(ms: seq<Metric>, mn: string, dk: string) {
    exists i :: 0 <= i < |ms| && MetricHolds(ms[i], mn, dk)
  }

  lemma SomeHoldsExtend(front: seq<Metric>, m: Metric, mn: string, dk: string)
    ensures SomeHolds(front + [m], mn, dk) <==> SomeHolds(front, mn, dk) || MetricHolds(m, mn, dk)
  {
    var ms := front + [m];
    if i :| 0 <= i < |front| && MetricHolds(front[i], mn, dk) {
      assert MetricHolds(ms[i], mn, dk);
    } else if MetricHolds(m, mn, dk) {
      assert MetricHolds(ms[|front|], mn, dk);
    }
  }

  lemma TwoHoldExtend(front: seq<Metric>, m: Metric, mn: string, dk: string)
    ensures TwoHold(front + [m], mn, dk) <==> TwoHold(front, mn, dk) || (SomeHolds(front, mn, dk) && MetricHolds(m, mn, dk))
  {
    var ms := front + [m];
    if i, j :| 0 <= i < j < |front| && MetricHolds(front[i], mn, dk) && MetricHolds(front[j], mn, dk) {
      assert MetricHolds(ms[i], mn, dk) && MetricHolds(ms[j], mn, dk);
    } else if MetricHolds(m, mn, dk) {
      if i :| 0 <= i < |front| && MetricHolds(front[i], mn, dk) {
        assert MetricHolds(ms[i], mn, dk) && MetricHolds(ms[|front|], mn, dk);
      }
    }
  }

  lemma FirstOfEachExtend(front: seq<Metric>, m: Metric, mn: string, dk: string)
    ensures FirstOfEach(front + [m], mn, dk) ==
            FirstOfEach(front, mn, dk) + if m.head.name == mn then Take1(WithKey(PointKey, m.kids, dk)) else []
  {
    assert (front + [m])[..|front|] == front;
  }

  lemma PointsAtExtend(front: seq<Metric>, m: Metric, mn: string, dk: string)
    ensures PointsAt(front + [m], mn, dk) ==
            PointsAt(front, mn, dk) + if m.head.name == mn then WithKey(PointKey, m.kids, dk) else []
  {
    GatherExtend(MetricName, front, m, mn);
    WithKeyAppend(PointKey, Gather(MetricName, front, mn), if m.head.name == mn then m.kids else [], dk);
    assert WithKey(PointKey, [], dk) == [];
  }

  lemma {:induction false} FirstOfEachMeaning(ms: seq<Metric>, mn: string, dk: string)
    ensures FirstOfEach(ms, mn, dk) != [] <==> SomeHolds(ms, mn, dk)
    ensures PointsAt(ms, mn, dk) != [] <==> SomeHolds(ms, mn, dk)
    ensures !TwoHold(ms, mn, dk) ==> FirstOfEach(ms, mn, dk) == Take1(PointsAt(ms, mn, dk))
    ensures TwoHold(ms, mn, dk) ==> |FirstOfEach(ms, mn, dk)| >= 2
  {
    if ms != [] {
      var front, m := ms[..|ms| - 1], ms[|ms| - 1];
      FirstOfEachMeaning(front, mn, dk);
      assert ms == front + [m];
      SomeHoldsExtend(front, m, mn, dk);
      TwoHoldExtend(front, m, mn, dk);
      FirstOfEachExtend(front, m, mn, dk);
      PointsAtExtend(front, m, mn, dk);
      HoldsWithKey(PointKey, m.kids, dk);
    }
  }

  /**
   A path keeps exactly the first datapoint of the input, unless the first metric of its name is
   Empty and two metrics of that name hold its datapoint key; and then it keeps several.
   */
  lemma OneSurvivorExactly(rs: seq<Resource>, rk: string, sn: string, mn: string, dk: string)
    requires WellFormed(rs) && NoTypeClash(rs)
    ensures var ms, left := MetricsAt(rs, rk, sn), PointsAt(MetricsAt(Deduplicated(rs), rk, sn), mn, dk);
      && (left == Take1(PointsAt(ms, mn, dk)) <==> !(LeadType(ms, mn) == Some(Empty) && TwoHold(ms, mn, dk)))
      && (|left| <= 1 <==> left == Take1(PointsAt(ms, mn, dk)))
      && (left == [] <==> PointsAt(ms, mn, dk) == [])
  {
    SurvivorsOnPath(rs, rk, sn, mn, dk);
    FirstOfEachMeaning(MetricsAt(rs, rk, sn), mn, dk);
  }

  // ---------------------------------------------------------------- distinct keys

  ghost predicate DistinctPoints(ps: seq<DataPoint>) {
    forall k :: |WithKey(PointKey, ps, k)| <= 1
  }

  ghost predicate NamesDistinct(rs: seq<Resource>) {
    forall r, s :: r in rs && s in r.kids ==> DistinctKeys(MetricName, s.kids)
  }

  /** Resource keys, scope names within a resource and datapoint keys within a metric are distinct, always. */
  lemma KeysDistinctOut(rs: seq<Resource>)
    ensures var out := Deduplicated(rs);
      && DistinctKeys(ResourceKey, out)
      && (forall r :: r in out ==> DistinctKeys(ScopeName, r.kids))
      && (forall r, s, m :: r in out && s in r.kids && m in s.kids ==> DistinctPoints(m.kids))
  {
    var out := Deduplicated(rs);
    forall k
      ensures UniqueKey(ResourceKey, out, k)
    {
      ResourceOut(rs, k);
    }
    DistinctIsUnique(ResourceKey, out);
    forall r | r in out
      ensures DistinctKeys(ScopeName, r.kids)
    {
      ScopesDistinctOut(rs, r);
    }
    forall r, s, m | r in out && s in r.kids && m in s.kids
      ensures DistinctPoints(m.kids)
    {
      PointsDistinctOut(rs, r, s, m);
    }
  }

  /** A resource of the result is what the passes make of the scopes gathered for its key. */
  lemma ResourceIsOut(rs: seq<Resource>, r: Resource)
    requires r in Deduplicated(rs)
    ensures r.kids == DedupScopePoints(MergeScopeMetrics(GroupScopes(Gather(ResourceKey, rs, ResourceKey(r.head)))))
  {
    var out := Deduplicated(rs);
    var i :| 0 <= i < |out| && out[i] == r;
    ResourceOut(rs, ResourceKey(r.head));
    GatherOne(ResourceKey, out, i);
  }

  lemma ScopesDistinctOut(rs: seq<Resource>, r: Resource)
    requires r in Deduplicated(rs)
    ensures DistinctKeys(ScopeName, r.kids)
  {
    ResourceIsOut(rs, r);
    forall sn
      ensures UniqueKey(ScopeName, r.kids, sn)
    {
      ScopeOut(Gather(ResourceKey, rs, ResourceKey(r.head)), sn);
    }
    DistinctIsUnique(ScopeName, r.kids);
  }

  /** A scope of the result is what the passes make of the metrics gathered for its path. */
  lemma ScopeIsOut(rs: seq<Resource>, r: Resource, s: Scope)
    requires r in Deduplicated(rs) && s in r.kids
    ensures s.kids == MetricsOut(MetricsAt(rs, ResourceKey(r.head), ScopeName(s.head)))
  {
    ResourceIsOut(rs, r);
    var i :| 0 <= i < |r.kids| && r.kids[i] == s;
    ScopeOut(Gather(ResourceKey, rs, ResourceKey(r.head)), ScopeName(s.head));
    GatherOne(ScopeName, r.kids, i);
  }

  lemma PointsDistinctOut(rs: seq<Resource>, r: Resource, s: Scope, m: Metric)
    requires r in Deduplicated(rs) && s in r.kids && m in s.kids
    ensures DistinctPoints(m.kids)
  {
    ScopeIsOut(rs, r, s);
    var merged := MergeByName(MetricsAt(rs, ResourceKey(r.head), ScopeName(s.head)));
    var i :| 0 <= i < |s.kids| && s.kids[i] == m;
    assert s.kids == MapKids(merged, DedupPoints);
    assert m.kids == DedupPoints(merged[i].kids);
    forall k
      ensures |WithKey(PointKey, m.kids, k)| <= 1
    {
      FirstPerKeyTakes1(PointKey, merged[i].kids, k);
    }
  }

  /** A path of resource key and scope name that keeps a metric is a scope of the result. */
  lemma PathIsScope(rs: seq<Resource>, rk: string, sn: string) returns (r: Resource, s: Scope)
    requires MetricsOut(MetricsAt(rs, rk, sn)) != []
    ensures r in Deduplicated(rs) && s in r.kids && s.kids == MetricsOut(MetricsAt(rs, rk, sn))
  {
    var out := Deduplicated(rs);
    MetricsAtOut(rs, rk, sn);
    var ms := MetricsAt(out, rk, sn);
    var a := GatherMembers(ScopeName, Gather(ResourceKey, out, rk), sn, ms[0]);
    s := Gather(ResourceKey, out, rk)[a];
    var b := GatherMembers(ResourceKey, out, rk, s);
    r := out[b];
    ScopeIsOut(rs, r, s);
  }

  /** Metric names within a scope are distinct exactly when no name repeats under an Empty lead. */
  lemma NamesDistinctExactly(rs: seq<Resource>)
    requires WellFormed(rs) && NoTypeClash(rs)
    ensures NamesDistinct(Deduplicated(rs)) <==> forall rk, sn, mn :: !NameRepeats(MetricsAt(rs, rk, sn), mn)
  {
    var out := Deduplicated(rs);
    forall rk, sn, mn
      ensures UniqueKey(MetricName, MetricsOut(MetricsAt(rs, rk, sn)), mn) <==> !NameRepeats(MetricsAt(rs, rk, sn), mn)
    {
      var ms := MetricsAt(rs, rk, sn);
      WellFormedAt(rs, rk, sn);
      assert TypesAgree(ms);
      MergeByNameUnique(ms, mn);
      MapKidsKeys(MetricName, MergeByName(ms), DedupPoints, mn);
    }
    if NamesDistinct(out) {
      forall rk, sn, mn
        ensures !NameRepeats(MetricsAt(rs, rk, sn), mn)
      {
        if MetricsOut(MetricsAt(rs, rk, sn)) != [] {
          var r, s := PathIsScope(rs, rk, sn);
          assert DistinctKeys(MetricName, s.kids);
          DistinctIsUnique(MetricName, s.kids);
        }
        assert UniqueKey(MetricName, MetricsOut(MetricsAt(rs, rk, sn)), mn);
      }
    }
    if forall rk, sn, mn :: !NameRepeats(MetricsAt(rs, rk, sn), mn) {
      forall r, s | r in out && s in r.kids
        ensures DistinctKeys(MetricName, s.kids)
      {
        ScopeIsOut(rs, r, s);
        var rk, sn := ResourceKey(r.head), ScopeName(s.head);
        forall mn
          ensures UniqueKey(MetricName, s.kids, mn)
        {
          assert !NameRepeats(MetricsAt(rs, rk, sn), mn);
        }
        DistinctIsUnique(MetricName, s.kids);
      }
    }
  }

  // ---------------------------------------------------------------- where the promises fail

  /** Three metrics named "m", the first of type Empty, the others with the same datapoint. */
  function EmptyLedMetrics(p: DataPoint): seq<Metric> {
    [Box(MetricHead("m", "", Empty), []), Box(MetricHead("m", "", Gauge), [p]), Box(MetricHead("m", "", Gauge), [p])]
  }

  function InOneScope(h: ResourceHead, ms: seq<Metric>): seq<Resource> {
    [Box(h, [Box(ScopeHead("s", ""), ms)])]
  }

  lemma SingleGather<H, C>(key: H -> string, x: Box<H, C>)
    ensures Gather(key, [x], key(x.head)) == x.kids
  {
    GatherExtend(key, [], x, key(x.head));
    assert [] + [x] == [x];
  }

  lemma InOneScopePaths(h: ResourceHead, ms: seq<Metric>, rk: string, sn: string)
    ensures MetricsAt(InOneScope(h, ms), rk, sn) == if rk == ResourceKey(h) && sn == "s" then ms else []
  {
    var r := InOneScope(h, ms)[0];
    GatherExtend(ResourceKey, [], r, rk);
    GatherExtend(ScopeName, [], r.kids[0], sn);
    assert [] + [r] == InOneScope(h, ms) && [] + [r.kids[0]] == r.kids;
  }

  lemma EmptyLedMetricsRepeat(p: DataPoint)
    ensures var ms := EmptyLedMetrics(p);
      WellFormedMetrics(ms) && TypesAgree(ms) && LeadType(ms, "m") == Some(Empty)
      && TwoHold(ms, "m", PointKey(p)) && NameRepeats(ms, "m")
  {
    var ms := EmptyLedMetrics(p);
    LeadTypeFirst(ms, "m");
    assert IsFirst(MetricName, ms, 0);
    assert ms[1].kids[0] == p && ms[2].kids[0] == p;
    assert MetricHolds(ms[1], "m", PointKey(p)) && MetricHolds(ms[2], "m", PointKey(p));
    assert Survives(ms[0]) && Survives(ms[1]) && MetricName(ms[0].head) == "m" && MetricName(ms[1].head) == "m";
  }

  lemma InOneScopeFits(h: ResourceHead, ms: seq<Metric>)
    requires WellFormedMetrics(ms) && TypesAgree(ms)
    ensures WellFormed(InOneScope(h, ms)) && NoTypeClash(InOneScope(h, ms))
  {
    forall rk, sn
      ensures TypesAgree(MetricsAt(InOneScope(h, ms), rk, sn))
    {
      InOneScopePaths(h, ms, rk, sn);
    }
  }

  /** Under an Empty lead the same datapoint survives twice and the name stays repeated. */
  lemma EmptyLeadKeepsRepeats(h: ResourceHead, p: DataPoint)
    ensures var rs := InOneScope(h, EmptyLedMetrics(p));
      && WellFormed(rs) && NoTypeClash(rs) && !NamesDistinct(Deduplicated(rs))
      && |PointsAt(MetricsAt(Deduplicated(rs), ResourceKey(h), "s"), "m", PointKey(p))| > 1
  {
    var ms := EmptyLedMetrics(p);
    var rs := InOneScope(h, ms);
    EmptyLedMetricsRepeat(p);
    InOneScopeFits(h, ms);
    InOneScopePaths(h, ms, ResourceKey(h), "s");
    assert NameRepeats(MetricsAt(rs, ResourceKey(h), "s"), "m");
    NamesDistinctExactly(rs);
    OneSurvivorExactly(rs, ResourceKey(h), "s", "m", PointKey(p));
  }

  /** Two metrics of one name and different types: the source panics, wherever else they agree. */
  lemma ClashingTypesClash(h: ResourceHead, x: Metric, y: Metric)
    requires x.head.name == y.head.name && !x.head.typ.Empty? && x.head.typ != y.head.typ
    ensures !NoTypeClash(InOneScope(h, [x, y]))
  {
    InOneScopePaths(h, [x, y], ResourceKey(h), "s");
    PairDisagrees(x, y);
    assert !TypesAgree(MetricsAt(InOneScope(h, [x, y]), ResourceKey(h), "s"));
  }

  lemma PairDisagrees(x: Metric, y: Metric)
    requires x.head.name == y.head.name && !x.head.typ.Empty? && x.head.typ != y.head.typ
    ensures !TypesAgree([x, y])
  {
    var ms := [x, y];
    LeadTypeOfFirst(ms, 0);
    assert ms[1] == y;
  }

  /** A gauge and a sum under one name are such an input. */
  lemma GaugeAndSumClash(h: ResourceHead, p: DataPoint, q: DataPoint)
    ensures var rs := InOneScope(h, [Box(MetricHead("m", "", Gauge), [p]), Box(MetricHead("m", "", Sum), [q])]);
      WellFormed(rs) && !NoTypeClash(rs)
  {
    ClashingTypesClash(h, Box(MetricHead("m", "", Gauge), [p]), Box(MetricHead("m", "", Sum), [q]));
  }

  // ---------------------------------------------------------------- what a shared key costs

  /** Every resource of the result has the attributes of the first resource of its key. */
  lemma HeadIsFirst(rs: seq<Resource>, r: Resource) returns (i: nat)
    requires r in Deduplicated(rs)
    ensures i < |rs| && IsFirst(ResourceKey, rs, i) && r.head == rs[i].head
  {
    var g, merged := Grouped(ResourceKey, rs), MergedAll(ResourceKey, rs);
    var a :| 0 <= a < |Deduplicated(rs)| && Deduplicated(rs)[a] == r;
    assert g[a].head == r.head && g[a] in g;
    KeepMembers(HasKids, merged, g[a]);
    i :| 0 <= i < |merged| && merged[i] == g[a];
  }

  /** Resources that share a key are one in the result, under the attributes of the first: those of the others are gone. */
  lemma SharedKeyKeepsFirstAttributes(rs: seq<Resource>, i: nat, r: Resource)
    requires i < |rs| && IsFirst(ResourceKey, rs, i) && r in Deduplicated(rs) && ResourceKey(r.head) == ResourceKey(rs[i].head)
    ensures r.head == rs[i].head
  {
    var j := HeadIsFirst(rs, r);
    assert !(i < j) && !(j < i);
  }

  lemma PairGrouped(x: Resource, y: Resource)
    requires ResourceKey(x.head) == ResourceKey(y.head)
    ensures Grouped(ResourceKey, [x, y]) == if x.kids + y.kids == [] then [] else [Box(x.head, x.kids + y.kids)]
  {
    PairMerged(x, y);
    KeepTwo(HasKids, Box(x.head, x.kids + y.kids), Box(y.head, []));
  }

  lemma KeepTwo<T>(p: T -> bool, x: T, y: T)
    ensures Keep(p, [x, y]) == (if p(x) then [x] else []) + (if p(y) then [y] else [])
  {
    KeepExtend(p, [], x);
    KeepExtend(p, [x], y);
    assert [] + [x] == [x] && [x] + [y] == [x, y];
  }

  lemma PairMerged(x: Resource, y: Resource)
    requires ResourceKey(x.head) == ResourceKey(y.head)
    ensures MergedAll(ResourceKey, [x, y]) == [Box(x.head, x.kids + y.kids), Box(y.head, [])]
  {
    var rs := [x, y];
    GatherExtend(ResourceKey, [x], y, ResourceKey(x.head));
    SingleGather(ResourceKey, x);
    assert [x] + [y] == rs;
    assert IsFirst(ResourceKey, rs, 0) && !IsFirst(ResourceKey, rs, 1);
  }

  /** Two resources of one key are one in the result, with the first one's attributes over the scopes of both, unless neither has any. */
  lemma PairDeduplicated(x: Resource, y: Resource)
    requires ResourceKey(x.head) == ResourceKey(y.head)
    ensures Deduplicated([x, y]) ==
            if x.kids + y.kids == [] then []
            else [Box(x.head, DedupScopePoints(MergeScopeMetrics(GroupScopes(x.kids + y.kids))))]
  {
    PairGrouped(x, y);
    if x.kids + y.kids != [] {
      var g := [Box(x.head, x.kids + y.kids)];
      assert ScopePass(g) == [Box(x.head, GroupScopes(x.kids + y.kids))];
      assert MetricPass(ScopePass(g)) == [Box(x.head, MergeScopeMetrics(GroupScopes(x.kids + y.kids)))];
    }
  }

  /** Resources of different attributes are merged so when a map of attributes and another share a key. */
  lemma DifferentResourcesMerge(ss: seq<Scope>, ts: seq<Scope>)
    ensures var a, b := [("a", "1,b=2")], [("a", "1"), ("b", "2")];
      && !SameEntries(a, b)
      && Deduplicated([Box(ResourceHead(a, ""), ss), Box(ResourceHead(b, ""), ts)]) ==
         if ss + ts == [] then [] else [Box(ResourceHead(a, ""), DedupScopePoints(MergeScopeMetrics(GroupScopes(ss + ts))))]
  {
    var a, b := [("a", "1,b=2")], [("a", "1"), ("b", "2")];
    KeyCollides();
    PairDeduplicated(Box(ResourceHead(a, ""), ss), Box(ResourceHead(b, ""), ts));
  }

  /** No other attributes are merged with a resource's exactly when these are none, or one entry without a sign. */
  lemma MergedWithOthersExactly(h: ResourceHead, s: Scope)
    requires NoRepeats(KeysOf(h.attrs))
    ensures (exists b: Attrs :: NoRepeats(KeysOf(b)) && !SameEntries(h.attrs, b)
               && |Deduplicated([Box(h, [s]), Box(ResourceHead(b, h.schemaUrl), [s])])| == 1)
            <==> !(h.attrs == [] || (|h.attrs| == 1 && '=' !in h.attrs[0].0 && '=' !in h.attrs[0].1))
  {
    KeyIsItsOwnExactly(h.attrs);
    forall b: Attrs
      ensures |Deduplicated([Box(h, [s]), Box(ResourceHead(b, h.schemaUrl), [s])])| == 1 <==> CanonicalAttrsKey(b) == CanonicalAttrsKey(h.attrs)
    {
      PairMergesExactly(Box(h, [s]), Box(ResourceHead(b, h.schemaUrl), [s]));
    }
  }

  lemma GatherOfTwo(x: Resource, y: Resource)
    requires ResourceKey(x.head) != ResourceKey(y.head)
    ensures Gather(ResourceKey, [x, y], ResourceKey(x.head)) == x.kids && Gather(ResourceKey, [x, y], ResourceKey(y.head)) == y.kids
  {
    GatherExtend(ResourceKey, [x], y, ResourceKey(x.head));
    GatherExtend(ResourceKey, [x], y, ResourceKey(y.head));
    SingleGather(ResourceKey, x);
    GatherExtend(ResourceKey, [], x, ResourceKey(y.head));
    assert [x] + [y] == [x, y] && [] + [x] == [x];
  }

  lemma PairApart(x: Resource, y: Resource)
    requires ResourceKey(x.head) != ResourceKey(y.head) && x.kids != [] && y.kids != []
    ensures Grouped(ResourceKey, [x, y]) == [x, y]
  {
    var rs := [x, y];
    GatherOfTwo(x, y);
    assert IsFirst(ResourceKey, rs, 0) && IsFirst(ResourceKey, rs, 1);
    assert MergedAll(ResourceKey, rs) == [x, y];
    KeepTwo(HasKids, x, y);
  }

  /** Two resources with scopes become one exactly when their keys are equal. */
  lemma PairMergesExactly(x: Resource, y: Resource)
    requires x.kids != [] && y.kids != []
    ensures |Deduplicated([x, y])| == 1 <==> CanonicalAttrsKey(x.head.attrs) == CanonicalAttrsKey(y.head.attrs)
  {
    if ResourceKey(x.head) == ResourceKey(y.head) {
      PairDeduplicated(x, y);
    } else {
      PairApart(x, y);
    }
  }
}
