/**
 The de-duplication passes as they run: loops over a mutable payload that fill first-index
 maps, move children between containers and remove what was emptied.
 */
module TelemetryMetrics {
  import opened Options
  import opened Grouping
  import opened Telemetry

  // ---------------------------------------------------------------- first-index maps

  /** `seen` maps each key of `xs` to the index of its first box. */
  ghost predicate FirstIndex<H, C>(key: H -> string, xs: seq<Box<H, C>>, seen: map<string, nat>) {
    && (forall k :: k in seen ==> seen[k] < |xs| && key(xs[seen[k]].head) == k && IsFirst(key, xs, seen[k]))
    && (forall i :: 0 <= i < |xs| ==> key(xs[i].head) in seen)
  }

  lemma FirstIndexKnown<H, C>(key: H -> string, xs: seq<Box<H, C>>, seen: map<string, nat>, x: Box<H, C>)
    requires FirstIndex(key, xs, seen) && key(x.head) in seen
    ensures FirstIndex(key, xs + [x], seen)
  {
    forall k | k in seen
      ensures IsFirst(key, xs + [x], seen[k])
    {
      IsFirstExtend(key, xs, x, seen[k]);
    }
  }

  lemma FirstIndexNew<H, C>(key: H -> string, xs: seq<Box<H, C>>, seen: map<string, nat>, x: Box<H, C>)
    requires FirstIndex(key, xs, seen) && key(x.head) !in seen
    ensures FirstIndex(key, xs + [x], seen[key(x.head) := |xs|]) && !HasKey(key, xs, key(x.head))
  {
    forall k | k in seen
      ensures IsFirst(key, xs + [x], seen[k])
    {
      IsFirstExtend(key, xs, x, seen[k]);
    }
  }

  /** Give the children of box `i` to box `f`, as MoveAndAppendTo does. */
  function MoveKids<H, C>(xs: seq<Box<H, C>>, i: nat, f: nat): (r: seq<Box<H, C>>)
    requires f < |xs| && i < |xs|
    ensures |r| == |xs|
  {
    xs[f := xs[f].(kids := xs[f].kids + xs[i].kids)][i := xs[i].(kids := [])]
  }

  /** What the merge loop has done after `i` boxes. */
  ghost function MergedSoFar<H, C>(key: H -> string, xs: seq<Box<H, C>>, i: nat): seq<Box<H, C>>
    requires i <= |xs|
  {
    MergedAll(key, xs[..i]) + xs[i..]
  }

  lemma MergeTurn<H, C>(key: H -> string, xs: seq<Box<H, C>>, i: nat, seen: map<string, nat>)
    requires i < |xs| && FirstIndex(key, xs[..i], seen)
    ensures MergedSoFar(key, xs, i)[i] == xs[i]
    ensures var k := key(xs[i].head);
      if k in seen then
        && FirstIndex(key, xs[..i + 1], seen) && seen[k] < i
        && MergedSoFar(key, xs, i + 1) == MoveKids(MergedSoFar(key, xs, i), i, seen[k])
      else
        && FirstIndex(key, xs[..i + 1], seen[k := i])
        && MergedSoFar(key, xs, i + 1) == MergedSoFar(key, xs, i)
  {
    var x, front := xs[i], xs[..i];
    assert xs[..i + 1] == front + [x] && xs[i..] == [x] + xs[i + 1..];
    if key(x.head) in seen {
      FirstIndexKnown(key, front, seen, x);
      MergedAllKnown(key, front, x, seen[key(x.head)]);
    } else {
      FirstIndexNew(key, front, seen, x);
      MergedAllNew(key, front, x);
    }
  }

  /** `ys` is `xs` after a loop has replaced the children of the first `i` boxes by `f` of them. */
  ghost predicate Mapped<H, C>(xs: seq<Box<H, C>>, f: seq<C> -> seq<C>, i: nat, ys: seq<Box<H, C>>) {
    && |ys| == |xs|
    && (forall j :: 0 <= j < |xs| ==> ys[j] == if j < i then Box(xs[j].head, f(xs[j].kids)) else xs[j])
  }

  lemma MapTurn<H, C>(xs: seq<Box<H, C>>, f: seq<C> -> seq<C>, i: nat, ys: seq<Box<H, C>>)
    requires i < |xs| && Mapped(xs, f, i, ys)
    ensures ys[i] == xs[i] && Mapped(xs, f, i + 1, ys[i := ys[i].(kids := f(ys[i].kids))])
  {
  }

  lemma MapDone<H, C>(xs: seq<Box<H, C>>, f: seq<C> -> seq<C>, ys: seq<Box<H, C>>)
    requires Mapped(xs, f, |xs|, ys)
    ensures ys == MapKids(xs, f)
  {
  }

  // ---------------------------------------------------------------- deduplicateScopes, one resource

  method MergeScopes(scopes: seq<Scope>) returns (sms: seq<Scope>)
    ensures sms == GroupScopes(scopes)
  {
    var seen: map<string, nat> := map[];
    sms := scopes;
    for i := 0 to |sms|
      invariant |sms| == |scopes| && FirstIndex(ScopeName, scopes[..i], seen)
      invariant sms == MergedSoFar(ScopeName, scopes, i)
    {
      MergeTurn(ScopeName, scopes, i, seen);
      var name := sms[i].head.name;
      if name in seen {
        sms := MoveKids(sms, i, seen[name]);
      } else {
        seen := seen[name := i];
      }
    }
    assert scopes[..|scopes|] == scopes;
    assert sms == MergedAll(ScopeName, scopes);
    sms := Keep(HasKids, sms);
  }

  // ---------------------------------------------------------------- deduplicateMetricsByName, one scope

  lemma MetricsMergedFront(ms: seq<Metric>, m: Metric, i: nat)
    requires i < |ms|
    ensures MetricMergedAt(ms + [m], i) ==
            if LeadType(ms, ms[i].head.name) == Some(Empty) then ms[i] else MergedAt(MetricName, ms + [m], i)
  {
    LeadTypeExtend(ms, m, ms[i].head.name);
    LeadTypeFirst(ms, ms[i].head.name);
    assert MetricName(ms[i].head) == ms[i].head.name;
  }

  lemma MetricsMergedNew(ms: seq<Metric>, m: Metric)
    requires !HasKey(MetricName, ms, m.head.name)
    ensures MetricsMerged(ms + [m]) == MetricsMerged(ms) + [m]
  {
    var n, all := |ms|, ms + [m];
    forall i | 0 <= i < n
      ensures MetricMergedAt(all, i) == MetricMergedAt(ms, i)
    {
      MetricsMergedFront(ms, m, i);
      MergedAtExtend(MetricName, ms, m, i);
      assert MetricName(ms[i].head) != m.head.name;
    }
    MergedAllNew(MetricName, ms, m);
    assert MergedAll(MetricName, all)[n] == m;
    assert all[n] == m && MetricMergedAt(all, n) == m;
    LongerByOne(MetricsMerged(ms), MetricsMerged(all), m);
  }

  lemma LongerByOne<T>(was: seq<T>, now: seq<T>, last: T)
    requires |now| == |was| + 1 && now[|was|] == last
    requires forall i :: 0 <= i < |was| ==> now[i] == was[i]
    ensures now == was + [last]
  {
  }

  lemma MetricsMergedEmptyLed(ms: seq<Metric>, m: Metric)
    requires LeadType(ms, m.head.name) == Some(Empty)
    ensures MetricsMerged(ms + [m]) == MetricsMerged(ms) + [m]
  {
    LeadTypeExtend(ms, m, m.head.name);
    forall i | 0 <= i < |ms|
      ensures MetricMergedAt(ms + [m], i) == MetricMergedAt(ms, i)
    {
      MetricsMergedFront(ms, m, i);
      MergedAtExtend(MetricName, ms, m, i);
    }
  }

  lemma MetricsMergedTypedAt(ms: seq<Metric>, m: Metric, f: nat, i: nat)
    requires f < |ms| && i < |ms| && IsFirst(MetricName, ms, f) && ms[f].head.name == m.head.name
    requires LeadType(ms, m.head.name) != Some(Empty)
    ensures MetricMergedAt(ms + [m], i) == var x := MetricMergedAt(ms, i); if i == f then x.(kids := x.kids + m.kids) else x
  {
    MetricsMergedFront(ms, m, i);
    MergedAtExtend(MetricName, ms, m, i);
    if IsFirst(MetricName, ms, i) && ms[i].head.name == m.head.name {
      FirstIsOnly(MetricName, ms, f, i);
    }
  }

  lemma MetricsMergedTyped(ms: seq<Metric>, m: Metric, f: nat)
    requires f < |ms| && IsFirst(MetricName, ms, f) && ms[f].head.name == m.head.name
    requires LeadType(ms, m.head.name) != Some(Empty)
    ensures var out := MetricsMerged(ms);
      MetricsMerged(ms + [m]) == out[f := out[f].(kids := out[f].kids + m.kids)] + [m.(kids := [])]
  {
    var n, all := |ms|, ms + [m];
    var out, now := MetricsMerged(ms), MetricsMerged(all);
    forall i | 0 <= i < n
      ensures now[i] == if i == f then out[f].(kids := out[f].kids + m.kids) else out[i]
    {
      MetricsMergedTypedAt(ms, m, f, i);
    }
    LeadTypeExtend(ms, m, m.head.name);
    LeadTypeOfFirst(ms, f);
    assert all[f] == ms[f] && all[n] == m;
    assert !IsFirst(MetricName, all, n);
    ChangedAndLonger(out, now, f, out[f].(kids := out[f].kids + m.kids), m.(kids := []));
  }

  lemma ChangedAndLonger<T>(was: seq<T>, now: seq<T>, f: nat, x: T, last: T)
    requires |now| == |was| + 1 && f < |was| && now[|was|] == last
    requires forall i :: 0 <= i < |was| ==> now[i] == if i == f then x else was[i]
    ensures now == was[f := x] + [last]
  {
  }

  lemma TypesAgreeExtend(ms: seq<Metric>, m: Metric)
    ensures TypesAgree(ms + [m]) <==>
            TypesAgree(ms) && var lead := LeadType(ms, m.head.name); lead == None || lead == Some(Empty) || lead == Some(m.head.typ)
  {
    var all := ms + [m];
    forall i | 0 <= i < |ms|
      ensures LeadType(all, all[i].head.name) == LeadType(ms, ms[i].head.name)
    {
      LeadTypeExtend(ms, m, ms[i].head.name);
      LeadTypeFirst(ms, ms[i].head.name);
      assert MetricName(ms[i].head) == ms[i].head.name;
    }
    LeadTypeExtend(ms, m, m.head.name);
    assert all[|ms|] == m;
    assert forall i :: 0 <= i < |ms| ==> all[i] == ms[i];
  }

  lemma {:induction false} ClashStays(ms: seq<Metric>, n: nat)
    requires n <= |ms| && !TypesAgree(ms[..n])
    ensures !TypesAgree(ms)
  {
    if n < |ms| {
      var front := ms[..|ms| - 1];
      assert front[..n] == ms[..n];
      ClashStays(front, n);
      TypesAgreeExtend(front, ms[|ms| - 1]);
      assert ms == front + [ms[|ms| - 1]];
    } else {
      assert ms[..n] == ms;
    }
  }

  ghost function MetricsSoFar(ms: seq<Metric>, i: nat): seq<Metric>
    requires i <= |ms|
  {
    MetricsMerged(ms[..i]) + ms[i..]
  }

  lemma MetricTurnNew(ms: seq<Metric>, i: nat, seen: map<string, nat>)
    requires i < |ms| && FirstIndex(MetricName, ms[..i], seen) && ms[i].head.name !in seen
    ensures MetricsSoFar(ms, i)[i] == ms[i] && MetricsSoFar(ms, i + 1) == MetricsSoFar(ms, i)
    ensures FirstIndex(MetricName, ms[..i + 1], seen[ms[i].head.name := i])
    ensures TypesAgree(ms[..i + 1]) <==> TypesAgree(ms[..i])
  {
    var m, front, rest := ms[i], ms[..i], ms[i + 1..];
    assert ms[..i + 1] == front + [m] && ms[i..] == [m] + rest;
    FirstIndexNew(MetricName, front, seen, m);
    MetricsMergedNew(front, m);
    assert (MetricsMerged(front) + [m]) + rest == MetricsMerged(front) + ([m] + rest);
    TypesAgreeExtend(front, m);
    LeadTypeKnown(front, m.head.name);
  }

  lemma MetricTurnKnown(ms: seq<Metric>, i: nat, seen: map<string, nat>)
    requires i < |ms| && FirstIndex(MetricName, ms[..i], seen) && ms[i].head.name in seen
    ensures var f, now := seen[ms[i].head.name], MetricsSoFar(ms, i);
      && f < i && now[i] == ms[i] && now[f].head.typ == ms[f].head.typ
      && FirstIndex(MetricName, ms[..i + 1], seen)
      && (TypesAgree(ms[..i + 1]) <==> TypesAgree(ms[..i]) && (ms[f].head.typ.Empty? || ms[i].head.typ == ms[f].head.typ))
  {
    var m, front, f := ms[i], ms[..i], seen[ms[i].head.name];
    assert ms[..i + 1] == front + [m];
    assert front[f] == ms[f];
    FirstIndexKnown(MetricName, front, seen, m);
    LeadTypeOfFirst(front, f);
    TypesAgreeExtend(front, m);
  }

  lemma MetricTurnMoves(ms: seq<Metric>, i: nat, seen: map<string, nat>)
    requires i < |ms| && FirstIndex(MetricName, ms[..i], seen) && ms[i].head.name in seen
    ensures var f, now := seen[ms[i].head.name], MetricsSoFar(ms, i);
      MetricsSoFar(ms, i + 1) == (if ms[f].head.typ.Empty? then now else MoveKids(now, i, f))
  {
    var m, front, f, rest := ms[i], ms[..i], seen[ms[i].head.name], ms[i + 1..];
    assert ms[..i + 1] == front + [m] && ms[i..] == [m] + rest;
    assert front[f] == ms[f];
    LeadTypeOfFirst(front, f);
    var out := MetricsMerged(front);
    if ms[f].head.typ.Empty? {
      MetricsMergedEmptyLed(front, m);
      assert (out + [m]) + rest == out + ([m] + rest);
    } else {
      MetricsMergedTyped(front, m, f);
      MoveKidsSplit(out, m, rest, f);
    }
  }

  lemma MoveKidsSplit<H, C>(out: seq<Box<H, C>>, m: Box<H, C>, rest: seq<Box<H, C>>, f: nat)
    requires f < |out|
    ensures MoveKids(out + ([m] + rest), |out|, f) == out[f := out[f].(kids := out[f].kids + m.kids)] + [m.(kids := [])] + rest
  {
  }

  /**
   mergeMetricDataPoints(ms[f], ms[i]): move the datapoints of the second to the first, by the
   type of the first.  Asking the second for the data of another type than its own panics, which
   `ok == false` stands for.
   */
  method MergeMetricDataPoints(ms: seq<Metric>, i: nat, f: nat) returns (ok: bool, r: seq<Metric>)
    requires f < i < |ms|
    ensures ok <==> ms[f].head.typ.Empty? || ms[i].head.typ == ms[f].head.typ
    ensures ok ==> r == if ms[f].head.typ.Empty? then ms else MoveKids(ms, i, f)
  {
    match ms[f].head.typ
    case Empty => return true, ms;
    case _ =>
      if ms[i].head.typ != ms[f].head.typ {
        return false, ms;
      }
      return true, MoveKids(ms, i, f);
  }

  method MergeMetrics(metrics: seq<Metric>) returns (ok: bool, ms: seq<Metric>)
    ensures ok <==> TypesAgree(metrics)
    ensures ok ==> ms == MergeByName(metrics)
  {
    var seen: map<string, nat> := map[];
    ms := metrics;
    for i := 0 to |ms|
      invariant |ms| == |metrics| && FirstIndex(MetricName, metrics[..i], seen)
      invariant ms == MetricsSoFar(metrics, i) && TypesAgree(metrics[..i])
    {
      var name := ms[i].head.name;
      assert ms[i] == metrics[i];
      if name in seen {
        MetricTurnKnown(metrics, i, seen);
        MetricTurnMoves(metrics, i, seen);
        var f := seen[name];
        ok, ms := MergeMetricDataPoints(ms, i, f);
        if !ok {
          ClashStays(metrics, i + 1);
          return;
        }
      } else {
        MetricTurnNew(metrics, i, seen);
        seen := seen[name := i];
      }
    }
    assert metrics[..|metrics|] == metrics;
    assert ms == MetricsMerged(metrics);
    ok, ms := true, Keep(Survives, ms);
  }

  // ---------------------------------------------------------------- deduplicateDatapoints, one metric

  ghost predicate KeysSeen(seen: set<string>, points: seq<DataPoint>) {
    forall k :: k in seen <==> Holds(PointKey, points, k)
  }

  lemma PointTurn(seen: set<string>, points: seq<DataPoint>, i: nat)
    requires i < |points| && KeysSeen(seen, points[..i])
    ensures KeysSeen(seen + {PointKey(points[i])}, points[..i + 1])
    ensures FirstPerKey(PointKey, points[..i + 1])
            == FirstPerKey(PointKey, points[..i]) + if PointKey(points[i]) in seen then [] else [points[i]]
    ensures PointKey(points[i]) in seen ==> seen + {PointKey(points[i])} == seen
  {
    assert points[..i + 1] == points[..i] + [points[i]];
    FirstPerKeyExtend(PointKey, points[..i], points[i]);
    KeysExtend(seen, points[..i], points[i]);
  }

  lemma KeysExtend(seen: set<string>, points: seq<DataPoint>, x: DataPoint)
    requires KeysSeen(seen, points)
    ensures KeysSeen(seen + {PointKey(x)}, points + [x])
  {
    forall k
      ensures k in seen + {PointKey(x)} <==> Holds(PointKey, points + [x], k)
    {
      HoldsExtend(PointKey, points, x, k);
    }
  }

  /** RemoveIf with the closure over `seen`. */
  method RemoveSeenPoints(points: seq<DataPoint>) returns (kept: seq<DataPoint>)
    ensures kept == DedupPoints(points)
  {
    var seen: set<string> := {};
    kept := [];
    for i := 0 to |points|
      invariant kept == FirstPerKey(PointKey, points[..i])
      invariant KeysSeen(seen, points[..i])
    {
      var key := PointKey(points[i]);
      PointTurn(seen, points, i);
      if key !in seen {
        seen := seen + {key};
        kept := kept + [points[i]];
      }
    }
    assert points[..|points|] == points;
  }

  method DedupPointsOfMetrics(metrics: seq<Metric>) returns (ms: seq<Metric>)
    requires WellFormedMetrics(metrics)
    ensures ms == DedupMetricPoints(metrics)
  {
    ms := metrics;
    for i := 0 to |ms|
      invariant |ms| == |metrics| && Mapped(metrics, DedupPoints, i, ms)
    {
      MapTurn(metrics, DedupPoints, i, ms);
      if ms[i].head.typ.Empty? {
        FirstPerKeyEmpty(PointKey, metrics[i].kids);
        assert metrics[i].kids == [];
      } else {
        var kept := RemoveSeenPoints(ms[i].kids);
        ms := ms[i := ms[i].(kids := kept)];
      }
    }
    MapDone(metrics, DedupPoints, ms);
  }

  // ---------------------------------------------------------------- the loops over scopes

  ghost predicate ScopesAgree(ss: seq<Scope>) {
    forall i :: 0 <= i < |ss| ==> TypesAgree(ss[i].kids)
  }

  ghost predicate ScopesWellFormed(ss: seq<Scope>) {
    forall i :: 0 <= i < |ss| ==> WellFormedMetrics(ss[i].kids)
  }

  method MergeMetricsOfScopes(scopes: seq<Scope>) returns (ok: bool, ss: seq<Scope>)
    ensures ok <==> ScopesAgree(scopes)
    ensures ok ==> ss == MergeScopeMetrics(scopes)
  {
    ss := scopes;
    for i := 0 to |ss|
      invariant |ss| == |scopes| && Mapped(scopes, MergeByName, i, ss)
      invariant forall j :: 0 <= j < i ==> TypesAgree(scopes[j].kids)
    {
      MapTurn(scopes, MergeByName, i, ss);
      var merged;
      ok, merged := MergeMetrics(ss[i].kids);
      if !ok {
        assert !TypesAgree(scopes[i].kids);
        return;
      }
      ss := ss[i := ss[i].(kids := merged)];
    }
    MapDone(scopes, MergeByName, ss);
    ok := true;
  }

  method DedupPointsOfScopes(scopes: seq<Scope>) returns (ss: seq<Scope>)
    requires ScopesWellFormed(scopes)
    ensures ss == DedupScopePoints(scopes)
  {
    ss := scopes;
    for i := 0 to |ss|
      invariant |ss| == |scopes| && Mapped(scopes, DedupMetricPoints, i, ss)
    {
      MapTurn(scopes, DedupMetricPoints, i, ss);
      var ms := DedupPointsOfMetrics(ss[i].kids);
      ss := ss[i := ss[i].(kids := ms)];
    }
    MapDone(scopes, DedupMetricPoints, ss);
  }

  // ---------------------------------------------------------------- between the passes

  lemma {:induction false} MergeByNameWellFormed(ms: seq<Metric>)
    requires WellFormedMetrics(ms) && TypesAgree(ms)
    ensures WellFormedMetrics(MergeByName(ms))
  {
    MetricsMergedWellFormed(ms);
    var out := MergeByName(ms);
    forall i | 0 <= i < |out| && out[i].head.typ.Empty?
      ensures out[i].kids == []
    {
      KeepMembers(Survives, MetricsMerged(ms), out[i]);
    }
  }

  /** The metrics of a scope after the second pass are those of its path in the input. */
  lemma ScopeOfSecondPass(rs: seq<Resource>, i: nat, j: nat)
    requires i < |ScopePass(Grouped(ResourceKey, rs))| && j < |ScopePass(Grouped(ResourceKey, rs))[i].kids|
    ensures var r := ScopePass(Grouped(ResourceKey, rs))[i];
      r.kids[j].kids == MetricsAt(rs, ResourceKey(r.head), ScopeName(r.kids[j].head))
  {
    var s2 := ScopePass(Grouped(ResourceKey, rs));
    var r := s2[i];
    var ss := Gather(ResourceKey, rs, ResourceKey(r.head));
    ScopesOut(rs, ResourceKey(r.head));
    GatherOne(ResourceKey, s2, i);
    assert r.kids == GroupScopes(ss);
    GroupedDistinct(ScopeName, ss);
    DistinctIsUnique(ScopeName, GroupScopes(ss));
    GatherOne(ScopeName, r.kids, j);
    GatherGrouped(ScopeName, ss, ScopeName(r.kids[j].head));
  }

  /** A path with metrics is a scope after the second pass. */
  lemma PathInSecondPass(rs: seq<Resource>, rk: string, sn: string) returns (i: nat, j: nat)
    requires MetricsAt(rs, rk, sn) != []
    ensures var s2 := ScopePass(Grouped(ResourceKey, rs));
      i < |s2| && j < |s2[i].kids| && s2[i].kids[j].kids == MetricsAt(rs, rk, sn)
  {
    var s2 := ScopePass(Grouped(ResourceKey, rs));
    var ss := Gather(ResourceKey, rs, rk);
    ScopesOut(rs, rk);
    GatherGrouped(ScopeName, ss, sn);
    var a := GatherMembers(ScopeName, GroupScopes(ss), sn, MetricsAt(rs, rk, sn)[0]);
    i := GatherMembers(ResourceKey, s2, rk, GroupScopes(ss)[a]);
    j :| 0 <= j < |s2[i].kids| && s2[i].kids[j] == GroupScopes(ss)[a];
    ScopeOfSecondPass(rs, i, j);
  }

  ghost predicate ResourcesAgree(rs: seq<Resource>) {
    forall i :: 0 <= i < |rs| ==> ScopesAgree(rs[i].kids)
  }

  lemma AgreeExtend(rs: seq<Resource>, i: nat)
    requires i < |rs|
    ensures ResourcesAgree(rs[..i + 1]) <==> ResourcesAgree(rs[..i]) && ScopesAgree(rs[i].kids)
    ensures ResourcesAgree(rs) ==> ScopesAgree(rs[i].kids)
  {
    assert forall j :: 0 <= j < i ==> rs[..i][j] == rs[j];
    assert forall j :: 0 <= j < i + 1 ==> rs[..i + 1][j] == rs[j];
  }

  ghost predicate ResourcesWellFormed(rs: seq<Resource>) {
    forall i :: 0 <= i < |rs| ==> ScopesWellFormed(rs[i].kids)
  }

  /** The third pass meets a clash exactly when the input has one. */
  lemma ClashIsOfInput(rs: seq<Resource>)
    ensures ResourcesAgree(ScopePass(Grouped(ResourceKey, rs))) <==> NoTypeClash(rs)
  {
    var s2 := ScopePass(Grouped(ResourceKey, rs));
    if NoTypeClash(rs) {
      forall i, j | 0 <= i < |s2| && 0 <= j < |s2[i].kids|
        ensures TypesAgree(s2[i].kids[j].kids)
      {
        ScopeOfSecondPass(rs, i, j);
      }
    }
    if ResourcesAgree(s2) {
      forall rk, sn
        ensures TypesAgree(MetricsAt(rs, rk, sn))
      {
        if MetricsAt(rs, rk, sn) != [] {
          var i, j := PathInSecondPass(rs, rk, sn);
          assert ScopesAgree(s2[i].kids);
        }
      }
    }
  }

  lemma ThirdPassWellFormed(rs: seq<Resource>)
    requires WellFormed(rs) && NoTypeClash(rs)
    ensures ResourcesWellFormed(MetricPass(ScopePass(Grouped(ResourceKey, rs))))
  {
    var s2 := ScopePass(Grouped(ResourceKey, rs));
    var s3 := MetricPass(s2);
    forall i, j | 0 <= i < |s3| && 0 <= j < |s3[i].kids|
      ensures WellFormedMetrics(s3[i].kids[j].kids)
    {
      assert s3[i].kids == MergeScopeMetrics(s2[i].kids);
      assert s3[i].kids[j].kids == MergeByName(s2[i].kids[j].kids);
      ScopeOfSecondPass(rs, i, j);
      WellFormedAt(rs, ResourceKey(s2[i].head), ScopeName(s2[i].kids[j].head));
      MergeByNameWellFormed(s2[i].kids[j].kids);
    }
  }

  // ---------------------------------------------------------------- the payload

  class Metrics {
    var resources: seq<Resource>

    constructor (resources: seq<Resource>)
      ensures this.resources == resources
    {
      this.resources := resources;
    }

    /** The first loop of DeduplicateResources and its RemoveIf. */
    method MergeDuplicateResources()
      modifies this
      ensures resources == Grouped(ResourceKey, old(resources))
    {
      var seen: map<string, nat> := map[];
      ghost var was := resources;
      for i := 0 to |resources|
        invariant |resources| == |was| && FirstIndex(ResourceKey, was[..i], seen)
        invariant resources == MergedSoFar(ResourceKey, was, i)
      {
        MergeTurn(ResourceKey, was, i, seen);
        var key := ResourceKey(resources[i].head);
        if key in seen {
          resources := MoveKids(resources, i, seen[key]);
        } else {
          seen := seen[key := i];
        }
      }
      assert was[..|was|] == was;
      assert resources == MergedAll(ResourceKey, was);
      resources := Keep(HasKids, resources);
    }

    method DeduplicateScopes()
      modifies this
      ensures resources == ScopePass(old(resources))
    {
      ghost var was := resources;
      for i := 0 to |resources|
        invariant |resources| == |was| && Mapped(was, GroupScopes, i, resources)
      {
        MapTurn(was, GroupScopes, i, resources);
        var ss := MergeScopes(resources[i].kids);
        resources := resources[i := resources[i].(kids := ss)];
      }
      MapDone(was, GroupScopes, resources);
    }

    method DeduplicateMetricsByName() returns (ok: bool)
      modifies this
      ensures ok <==> ResourcesAgree(old(resources))
      ensures ok ==> resources == MetricPass(old(resources))
    {
      ghost var was := resources;
      for i := 0 to |resources|
        invariant |resources| == |was| && Mapped(was, MergeScopeMetrics, i, resources)
        invariant ResourcesAgree(was[..i])
      {
        MapTurn(was, MergeScopeMetrics, i, resources);
        AgreeExtend(was, i);
        var ss;
        ok, ss := MergeMetricsOfScopes(resources[i].kids);
        if !ok {
          return;
        }
        resources := resources[i := resources[i].(kids := ss)];
      }
      assert was[..|was|] == was;
      MapDone(was, MergeScopeMetrics, resources);
      ok := true;
    }

    method DeduplicateDatapoints()
      requires ResourcesWellFormed(resources)
      modifies this
      ensures resources == PointPass(old(resources))
    {
      ghost var was := resources;
      for i := 0 to |resources|
        invariant |resources| == |was| && Mapped(was, DedupScopePoints, i, resources)
      {
        MapTurn(was, DedupScopePoints, i, resources);
        var ss := DedupPointsOfScopes(resources[i].kids);
        resources := resources[i := resources[i].(kids := ss)];
      }
      MapDone(was, DedupScopePoints, resources);
    }

    /** `ok` is false when the source would panic on metrics of different types under one name. */
    method DeduplicateResources() returns (ok: bool)
      requires WellFormed(resources)
      modifies this
      ensures ok <==> NoTypeClash(old(resources))
      ensures ok ==> resources == Deduplicated(old(resources))
    {
      ghost var was := resources;
      MergeDuplicateResources();
      DeduplicateScopes();
      ClashIsOfInput(was);
      ok := DeduplicateMetricsByName();
      if !ok {
        return;
      }
      ThirdPassWellFormed(was);
      DeduplicateDatapoints();
    }

    /** The quadratic merge, by the hash of the attributes, into a payload of its own. */
    method MergeResources(hash: ResourceHead -> string) returns (merged: Metrics)
      ensures fresh(merged) && merged.resources == MergedFirsts(hash, resources)
    {
      merged := new Metrics([]);
      for i := 0 to |resources|
        invariant merged.resources == MergedFirsts(hash, resources[..i])
      {
        var r := resources[i];
        assert resources[..i + 1] == resources[..i] + [r];
        var found := false;
        var j := 0;
        while j < |merged.resources|
          invariant j <= |merged.resources| && !found
          invariant merged.resources == MergedFirsts(hash, resources[..i])
          invariant forall a :: 0 <= a < j ==> hash(merged.resources[a].head) != hash(r.head)
        {
          var e := merged.resources[j];
          if hash(e.head) == hash(r.head) {
            MergedFirstsKnown(hash, resources[..i], r, j);
            merged.resources := merged.resources[j := e.(kids := e.kids + r.kids)];
            found := true;
            break;
          }
          j := j + 1;
        }
        if !found {
          MergedFirstsNew(hash, resources[..i], r);
          merged.resources := merged.resources + [r];
        }
      }
      assert resources[..|resources|] == resources;
    }
  }

  /**
   MergeResources and the first pass of DeduplicateResources agree once resources without scopes
   are dropped, when hash and canonical key tell the same resources apart.
   */
  lemma MergeResourcesAgrees(hash: ResourceHead -> string, rs: seq<Resource>)
    requires KeysAgree(ResourceKey, hash, rs)
    ensures Keep(HasKids, MergedFirsts(hash, rs)) == Grouped(ResourceKey, rs)
  {
    FirstsAreGrouped(ResourceKey, hash, rs);
  }
}
