/** Calling DeduplicateResources a second time, and exactly when that changes nothing. */
module TelemetryIdempotence {
  import opened Options
  import opened Grouping
  import opened Telemetry
  import opened TelemetryLaws

  /**
   Every resource key with a scope has a scope with a metric, and every scope path with a metric
   has one that is of type Empty or holds a datapoint.
   */
  ghost predicate NoShells(rs: seq<Resource>) {
    && (forall rk :: Gather(ResourceKey, rs, rk) != [] ==> SomeFilled(Gather(ResourceKey, rs, rk)))
    && (forall rk, sn :: MetricsAt(rs, rk, sn) != [] ==> SomeSurvives(MetricsAt(rs, rk, sn)))
  }

  ghost predicate SomeFilled(ss: seq<Scope>) {
    exists i :: 0 <= i < |ss| && HasKids(ss[i])
  }

  ghost predicate SomeSurvives(ms: seq<Metric>) {
    exists i :: 0 <= i < |ms| && Survives(ms[i])
  }

  /** No resource is without scopes and no scope without metrics. */
  ghost predicate Filled(rs: seq<Resource>) {
    && (forall r :: r in rs ==> r.kids != [])
    && (forall r, s :: r in rs && s in r.kids ==> s.kids != [])
  }

  // ---------------------------------------------------------------- the lead of a name in the result

  lemma {:induction false} LeadTypeHeads(ms: seq<Metric>, ns: seq<Metric>, name: string)
    requires |ms| == |ns| && forall i :: 0 <= i < |ms| ==> ms[i].head == ns[i].head
    ensures LeadType(ms, name) == LeadType(ns, name)
  {
    if ms != [] {
      LeadTypeHeads(ms[..|ms| - 1], ns[..|ns| - 1], name);
    }
  }

  /** An Empty lead is never removed, so it still leads. */
  lemma {:induction false} EmptyLeadKept(ms: seq<Metric>, name: string)
    requires LeadType(ms, name) == Some(Empty)
    ensures LeadType(Keep(Survives, ms), name) == Some(Empty)
  {
    var front, m := ms[..|ms| - 1], ms[|ms| - 1];
    var kept := Keep(Survives, front);
    assert (kept + [m])[..|kept|] == kept && kept + [] == kept;
    if LeadType(front, name) == Some(Empty) {
      EmptyLeadKept(front, name);
    } else {
      LeadTypeFirst(front, name);
      LeadTypeFirst(kept, name);
      forall i | 0 <= i < |kept|
        ensures MetricName(kept[i].head) != name
      {
        KeepMembers(Survives, front, kept[i]);
        var j :| 0 <= j < |front| && front[j] == kept[i];
      }
    }
  }

  lemma EmptyLeadOut(ms: seq<Metric>, name: string)
    requires WellFormedMetrics(ms) && TypesAgree(ms)
    ensures LeadType(ms, name) == Some(Empty) ==> LeadType(MetricsOut(ms), name) == Some(Empty)
  {
    forall i | 0 <= i < |ms|
      ensures MetricsMerged(ms)[i].head == ms[i].head
    {
      MetricMergedHead(ms, i);
    }
    LeadTypeHeads(MetricsMerged(ms), ms, name);
    LeadTypeHeads(MetricsOut(ms), MergeByName(ms), name);
    if LeadType(ms, name) == Some(Empty) {
      EmptyLeadKept(MetricsMerged(ms), name);
    }
  }

  /** In the result of one scope a name is led by an Empty metric or is unique. */
  lemma UniqueOrEmptyLed(ms: seq<Metric>, name: string)
    requires WellFormedMetrics(ms) && TypesAgree(ms)
    ensures LeadType(MetricsOut(ms), name) == Some(Empty) || UniqueKey(MetricName, MetricsOut(ms), name)
  {
    EmptyLeadOut(ms, name);
    MergeByNameUnique(ms, name);
    MapKidsKeys(MetricName, MergeByName(ms), DedupPoints, name);
  }

  lemma UniqueIsFirst(ms: seq<Metric>, i: nat)
    requires i < |ms| && UniqueKey(MetricName, ms, ms[i].head.name)
    ensures IsFirst(MetricName, ms, i) && LeadType(ms, ms[i].head.name) == Some(ms[i].head.typ)
    ensures MergedAt(MetricName, ms, i) == ms[i]
  {
    GatherOne(MetricName, ms, i);
    assert IsFirst(MetricName, ms, i);
    LeadTypeFirst(ms, ms[i].head.name);
  }

  /** The result raises no type clash, so a second call goes through. */
  lemma NoTypeClashOut(rs: seq<Resource>)
    requires WellFormed(rs) && NoTypeClash(rs)
    ensures NoTypeClash(Deduplicated(rs))
  {
    forall rk, sn
      ensures TypesAgree(MetricsAt(Deduplicated(rs), rk, sn))
    {
      WellFormedAt(rs, rk, sn);
      MetricsAtOut(rs, rk, sn);
      MetricsOutAgree(MetricsAt(rs, rk, sn));
    }
  }

  lemma MetricsOutAgree(ms: seq<Metric>)
    requires WellFormedMetrics(ms) && TypesAgree(ms)
    ensures TypesAgree(MetricsOut(ms))
  {
    var out := MetricsOut(ms);
    forall i | 0 <= i < |out|
      ensures var lead := LeadType(out, out[i].head.name); lead == Some(Empty) || lead == Some(out[i].head.typ)
    {
      UniqueOrEmptyLed(ms, out[i].head.name);
      if UniqueKey(MetricName, out, out[i].head.name) {
        UniqueIsFirst(out, i);
      }
    }
  }

  // ---------------------------------------------------------------- the passes on their own result

  lemma MergeByNameFixpoint(ms: seq<Metric>)
    requires WellFormedMetrics(ms) && TypesAgree(ms)
    ensures MergeByName(MetricsOut(ms)) == MetricsOut(ms)
  {
    var out, merged := MetricsOut(ms), MergeByName(ms);
    forall i | 0 <= i < |out|
      ensures MetricMergedAt(out, i) == out[i] && Survives(out[i])
    {
      KeepMembers(Survives, MetricsMerged(ms), merged[i]);
      FirstPerKeyEmpty(PointKey, merged[i].kids);
      assert out[i] == Box(merged[i].head, DedupPoints(merged[i].kids));
      UniqueOrEmptyLed(ms, out[i].head.name);
      if UniqueKey(MetricName, out, out[i].head.name) {
        UniqueIsFirst(out, i);
      }
    }
    assert MetricsMerged(out) == out;
    KeepAll(Survives, out);
  }

  lemma DedupPointsFixpoint(ms: seq<Metric>)
    ensures DedupMetricPoints(DedupMetricPoints(ms)) == DedupMetricPoints(ms)
  {
    forall i | 0 <= i < |ms|
      ensures DedupPoints(DedupPoints(ms[i].kids)) == DedupPoints(ms[i].kids)
    {
      FirstPerKeyIdempotent(PointKey, ms[i].kids);
    }
  }

  lemma LastPassesFixpoint(rs: seq<Resource>, r: Resource)
    requires WellFormed(rs) && NoTypeClash(rs) && r in Deduplicated(rs)
    ensures MergeScopeMetrics(r.kids) == r.kids && DedupScopePoints(r.kids) == r.kids
  {
    forall i | 0 <= i < |r.kids|
      ensures MergeByName(r.kids[i].kids) == r.kids[i].kids
      ensures DedupMetricPoints(r.kids[i].kids) == r.kids[i].kids
    {
      var s := r.kids[i];
      var ms := MetricsAt(rs, ResourceKey(r.head), ScopeName(s.head));
      ScopeIsOut(rs, r, s);
      WellFormedAt(rs, ResourceKey(r.head), ScopeName(s.head));
      MergeByNameFixpoint(ms);
      DedupPointsFixpoint(MergeByName(ms));
    }
    MapKidsSame(r.kids, MergeByName);
    MapKidsSame(r.kids, DedupMetricPoints);
  }

  /** All passes leave the scopes of one resource as they are. */
  ghost predicate ResourceStable(r: Resource) {
    GroupScopes(r.kids) == r.kids && MergeScopeMetrics(r.kids) == r.kids && DedupScopePoints(r.kids) == r.kids
  }

  lemma StableIsFixpoint(rs: seq<Resource>)
    requires Grouped(ResourceKey, rs) == rs
    requires forall i :: 0 <= i < |rs| ==> ResourceStable(rs[i])
    ensures Deduplicated(rs) == rs
  {
    assert forall i :: 0 <= i < |rs| ==> ResourceStable(rs[i]) && GroupScopes(rs[i].kids) == rs[i].kids;
    MapKidsSame(rs, GroupScopes);
    MapKidsSame(rs, MergeScopeMetrics);
    MapKidsSame(rs, DedupScopePoints);
  }

  lemma FilledResourceStable(rs: seq<Resource>, r: Resource)
    requires WellFormed(rs) && NoTypeClash(rs) && Filled(Deduplicated(rs)) && r in Deduplicated(rs)
    ensures ResourceStable(r)
  {
    ScopesDistinctOut(rs, r);
    GroupedFixpoint(ScopeName, r.kids);
    LastPassesFixpoint(rs, r);
  }

  lemma FilledIsFixpoint(rs: seq<Resource>)
    requires WellFormed(rs) && NoTypeClash(rs) && Filled(Deduplicated(rs))
    ensures Deduplicated(Deduplicated(rs)) == Deduplicated(rs)
  {
    var out := Deduplicated(rs);
    KeysDistinctOut(rs);
    GroupedFixpoint(ResourceKey, out);
    forall i | 0 <= i < |out|
      ensures ResourceStable(out[i])
    {
      FilledResourceStable(rs, out[i]);
    }
    StableIsFixpoint(out);
  }

  lemma FixpointScopesFilled(ss: seq<Scope>)
    requires DistinctKeys(ScopeName, ss) && DedupScopePoints(MergeScopeMetrics(GroupScopes(ss))) == ss
    ensures forall s :: s in ss ==> s.kids != []
  {
    GroupedSameSize(ScopeName, ss);
  }

  lemma FixpointResource(rs: seq<Resource>, i: nat)
    requires Deduplicated(rs) == rs && Grouped(ResourceKey, rs) == rs && i < |rs|
    ensures DedupScopePoints(MergeScopeMetrics(GroupScopes(rs[i].kids))) == rs[i].kids
  {
    assert ScopePass(rs)[i].kids == GroupScopes(rs[i].kids);
    assert MetricPass(ScopePass(rs))[i].kids == MergeScopeMetrics(GroupScopes(rs[i].kids));
  }

  lemma FixpointFilled(rs: seq<Resource>)
    requires Deduplicated(rs) == rs && DistinctKeys(ResourceKey, rs)
    requires forall r :: r in rs ==> DistinctKeys(ScopeName, r.kids)
    ensures Filled(rs)
  {
    assert |Grouped(ResourceKey, rs)| == |Deduplicated(rs)|;
    GroupedSameSize(ResourceKey, rs);
    GroupedFixpoint(ResourceKey, rs);
    forall i | 0 <= i < |rs|
      ensures rs[i].kids != [] && forall s :: s in rs[i].kids ==> s.kids != []
    {
      assert HasKids(rs[i]) && rs[i] in rs;
      FixpointResource(rs, i);
      FixpointScopesFilled(rs[i].kids);
    }
  }

  // ---------------------------------------------------------------- the condition on the input

  lemma MergeByNameEmpty(ms: seq<Metric>)
    requires WellFormedMetrics(ms) && TypesAgree(ms)
    ensures MergeByName(ms) != [] <==> SomeSurvives(ms)
  {
    if i :| 0 <= i < |ms| && Survives(ms[i]) {
      var name := ms[i].head.name;
      if LeadType(ms, name) == Some(Empty) {
        assert MetricsMerged(ms)[i] == ms[i];
        KeepMembers(Survives, MetricsMerged(ms), ms[i]);
      } else {
        GatherMergeByName(ms, name);
        GatherIncludes(MetricName, ms, i);
      }
    }
    if MergeByName(ms) != [] {
      var m := MergeByName(ms)[0];
      KeepMembers(Survives, MetricsMerged(ms), m);
      var i :| 0 <= i < |ms| && MetricsMerged(ms)[i] == m;
      MetricMergedHead(ms, i);
      if m.kids != [] && m != ms[i] {
        var j := GatherMembers(MetricName, ms, ms[i].head.name, m.kids[0]);
        assert Survives(ms[j]);
      } else {
        assert Survives(ms[i]);
      }
    }
  }

  lemma ResourceKept(rs: seq<Resource>, rk: string)
    ensures HasKey(ResourceKey, Deduplicated(rs), rk) <==> Gather(ResourceKey, rs, rk) != []
  {
    var g := Grouped(ResourceKey, rs);
    GroupedHasKey(ResourceKey, rs, rk);
    MapKidsKeys(ResourceKey, g, GroupScopes, rk);
    MapKidsKeys(ResourceKey, ScopePass(g), MergeScopeMetrics, rk);
    MapKidsKeys(ResourceKey, MetricPass(ScopePass(g)), DedupScopePoints, rk);
  }

  lemma ScopeKept(ss: seq<Scope>, sn: string)
    ensures HasKey(ScopeName, DedupScopePoints(MergeScopeMetrics(GroupScopes(ss))), sn) <==> Gather(ScopeName, ss, sn) != []
  {
    var g := GroupScopes(ss);
    GroupedHasKey(ScopeName, ss, sn);
    MapKidsKeys(ScopeName, g, MergeByName, sn);
    MapKidsKeys(ScopeName, MergeScopeMetrics(g), DedupMetricPoints, sn);
  }

  lemma NoShellsFills(rs: seq<Resource>)
    requires WellFormed(rs) && NoTypeClash(rs) && NoShells(rs)
    ensures Filled(Deduplicated(rs))
  {
    var out := Deduplicated(rs);
    forall r | r in out
      ensures r.kids != [] && forall s :: s in r.kids ==> s.kids != []
    {
      var rk := ResourceKey(r.head);
      var ss := Gather(ResourceKey, rs, rk);
      var i :| 0 <= i < |out| && out[i] == r;
      assert HasKey(ResourceKey, out, rk);
      ResourceKept(rs, rk);
      ResourceIsOut(rs, r);
      GroupedEmpty(ScopeName, ss);
      forall s | s in r.kids
        ensures s.kids != []
      {
        var sn := ScopeName(s.head);
        var j :| 0 <= j < |r.kids| && r.kids[j] == s;
        assert HasKey(ScopeName, r.kids, sn);
        ScopeKept(ss, sn);
        ScopeIsOut(rs, r, s);
        WellFormedAt(rs, rk, sn);
        MergeByNameEmpty(MetricsAt(rs, rk, sn));
      }
    }
  }

  lemma FilledPath(rs: seq<Resource>, rk: string, sn: string)
    requires WellFormed(rs) && NoTypeClash(rs) && Filled(Deduplicated(rs))
    requires Gather(ResourceKey, rs, rk) != []
    ensures SomeFilled(Gather(ResourceKey, rs, rk))
    ensures MetricsAt(rs, rk, sn) != [] ==> SomeSurvives(MetricsAt(rs, rk, sn))
  {
    var out, ss, ms := Deduplicated(rs), Gather(ResourceKey, rs, rk), MetricsAt(rs, rk, sn);
    ResourceKept(rs, rk);
    var i :| 0 <= i < |out| && ResourceKey(out[i].head) == rk;
    var r := out[i];
    assert r in out;
    ResourceIsOut(rs, r);
    GroupedEmpty(ScopeName, ss);
    if ms != [] {
      ScopeKept(ss, sn);
      var j :| 0 <= j < |r.kids| && ScopeName(r.kids[j].head) == sn;
      assert r.kids[j] in r.kids;
      ScopeIsOut(rs, r, r.kids[j]);
      WellFormedAt(rs, rk, sn);
      MergeByNameEmpty(ms);
    }
  }

  lemma FilledHasNoShells(rs: seq<Resource>)
    requires WellFormed(rs) && NoTypeClash(rs) && Filled(Deduplicated(rs))
    ensures NoShells(rs)
  {
    forall rk | Gather(ResourceKey, rs, rk) != []
      ensures SomeFilled(Gather(ResourceKey, rs, rk))
    {
      FilledPath(rs, rk, "");
    }
    forall rk, sn | MetricsAt(rs, rk, sn) != []
      ensures SomeSurvives(MetricsAt(rs, rk, sn))
    {
      FilledPath(rs, rk, sn);
    }
  }

  /** A second call goes through and changes nothing, exactly when the input has no empty shells. */
  lemma SecondCallChangesNothingExactly(rs: seq<Resource>)
    requires WellFormed(rs) && NoTypeClash(rs)
    ensures NoTypeClash(Deduplicated(rs))
    ensures Deduplicated(Deduplicated(rs)) == Deduplicated(rs) <==> NoShells(rs)
  {
    NoTypeClashOut(rs);
    if NoShells(rs) {
      NoShellsFills(rs);
      FilledIsFixpoint(rs);
    }
    if Deduplicated(Deduplicated(rs)) == Deduplicated(rs) {
      KeysDistinctOut(rs);
      FixpointFilled(Deduplicated(rs));
      FilledHasNoShells(rs);
    }
  }

  /** A resource whose only scope has no metrics: a second call removes what the first leaves. */
  lemma EmptyShellChangesAgain()
    ensures var rs := [Box(ResourceHead([], ""), [Box(ScopeHead("s", ""), [])])];
      WellFormed(rs) && NoTypeClash(rs) && Deduplicated(Deduplicated(rs)) != Deduplicated(rs)
  {
    var s: Scope := Box(ScopeHead("s", ""), []);
    var r: Resource := Box(ResourceHead([], ""), [s]);
    var rs := [r];
    forall rk, sn
      ensures MetricsAt(rs, rk, sn) == []
    {
      GatherExtend(ResourceKey, [], r, rk);
      GatherExtend(ScopeName, [], s, sn);
      assert [] + [r] == rs && [] + [s] == [s];
    }
    assert NoTypeClash(rs) by {
      forall rk, sn
        ensures TypesAgree(MetricsAt(rs, rk, sn))
      {
        assert TypesAgree([]);
      }
    }
    SingleGather(ResourceKey, r);
    assert !SomeFilled([s]);
    SecondCallChangesNothingExactly(rs);
  }
}
