/**
 What the passes tell apart, on payloads themselves: resources and datapoints by their attributes,
 scopes and metrics by their names.
 */
module TelemetryPayloads {
  import opened Options
  import opened Sequences
  import opened AttrsKey
  import opened Grouping
  import opened Telemetry
  import opened TelemetryLaws

  // ---------------------------------------------------------------- datapoints by attributes

  /** No datapoint before the `i`-th has the same canonical attributes. */
  ghost predicate FirstOfAttrs(ps: seq<DataPoint>, i: nat)
    requires i < |ps|
  {
    forall j :: 0 <= j < i ==> CanonicalAttrsKey(ps[j].attrs) != CanonicalAttrsKey(ps[i].attrs)
  }

  /** `out` are the datapoints of `ps` at the places `at`, in order: those first of their attributes. */
  ghost predicate KeepsFirsts(ps: seq<DataPoint>, at: seq<nat>, out: seq<DataPoint>) {
    && |at| == |out| && (forall a, b :: 0 <= a < b < |at| ==> at[a] < at[b])
    && (forall a :: 0 <= a < |at| ==> at[a] < |ps| && out[a] == ps[at[a]])
    && (forall i :: 0 <= i < |ps| ==> (i in at <==> FirstOfAttrs(ps, i)))
  }

  lemma FirstOfAttrsExtend(ps: seq<DataPoint>, p: DataPoint, i: nat)
    requires i <= |ps|
    ensures FirstOfAttrs(ps + [p], i) <==>
            if i < |ps| then FirstOfAttrs(ps, i) else forall j :: 0 <= j < |ps| ==> CanonicalAttrsKey(ps[j].attrs) != CanonicalAttrsKey(p.attrs)
  {
    assert forall j :: 0 <= j < |ps| ==> (ps + [p])[j] == ps[j];
  }

  lemma KeepsOneMore(ps: seq<DataPoint>, at: seq<nat>, out: seq<DataPoint>, p: DataPoint)
    requires KeepsFirsts(ps, at, out)
    ensures if FirstOfAttrs(ps + [p], |ps|) then KeepsFirsts(ps + [p], at + [|ps|], out + [p]) else KeepsFirsts(ps + [p], at, out)
  {
    var all := ps + [p];
    var at' := if FirstOfAttrs(all, |ps|) then at + [|ps|] else at;
    forall i | 0 <= i < |all|
      ensures i in at' <==> FirstOfAttrs(all, i)
    {
      FirstOfAttrsExtend(ps, p, i);
    }
  }

  lemma HeldByAttrs(ps: seq<DataPoint>, p: DataPoint)
    ensures Holds(PointKey, ps, PointKey(p)) <==> !FirstOfAttrs(ps + [p], |ps|)
  {
    FirstOfAttrsExtend(ps, p, |ps|);
    HoldsWithKey(PointKey, ps, PointKey(p));
  }

  /** The datapoint pass keeps, in order, each datapoint that is the first of its attributes. */
  lemma {:induction false} DedupPointsExactly(ps: seq<DataPoint>) returns (at: seq<nat>)
    ensures KeepsFirsts(ps, at, DedupPoints(ps))
  {
    if ps == [] {
      at := [];
    } else {
      var front, p := ps[..|ps| - 1], ps[|ps| - 1];
      at := DedupPointsExactly(front);
      assert ps == front + [p];
      FirstPerKeyExtend(PointKey, front, p);
      HeldByAttrs(front, p);
      KeepsOneMore(front, at, DedupPoints(front), p);
      if FirstOfAttrs(ps, |front|) {
        at := at + [|front|];
      } else {
        assert DedupPoints(front) + [] == DedupPoints(front);
      }
    }
  }

  /**
   In any payload without clash, under a name whose first metric has a type, exactly the datapoints
   survive that are the first of their attributes among all of that name, in traversal order.
   */
  lemma SurvivorsByAttributes(rs: seq<Resource>, rk: string, sn: string, mn: string) returns (at: seq<nat>)
    requires WellFormed(rs) && NoTypeClash(rs) && LeadType(MetricsAt(rs, rk, sn), mn) != Some(Empty)
    ensures KeepsFirsts(Gather(MetricName, MetricsAt(rs, rk, sn), mn), at, Gather(MetricName, MetricsAt(Deduplicated(rs), rk, sn), mn))
  {
    var ms := MetricsAt(rs, rk, sn);
    WellFormedAt(rs, rk, sn);
    MetricsAtOut(rs, rk, sn);
    assert TypesAgree(ms);
    MergeByNameUnique(ms, mn);
    GatherMergeByName(ms, mn);
    GatherMapKids(MetricName, MergeByName(ms), DedupPoints, mn);
    at := DedupPointsExactly(Gather(MetricName, ms, mn));
  }

  // ---------------------------------------------------------------- two of a kind

  lemma GatherOfPair<H, C>(key: H -> string, x: Box<H, C>, y: Box<H, C>)
    ensures Gather(key, [x, y], key(x.head)) == x.kids + if key(y.head) == key(x.head) then y.kids else []
    ensures Gather(key, [x, y], key(y.head)) == (if key(x.head) == key(y.head) then x.kids else []) + y.kids
  {
    GatherExtend(key, [], x, key(x.head));
    GatherExtend(key, [], x, key(y.head));
    GatherExtend(key, [x], y, key(x.head));
    GatherExtend(key, [x], y, key(y.head));
    assert [] + [x] == [x] && [x] + [y] == [x, y];
  }

  /** Two filled containers become one exactly when their keys are equal. */
  lemma PairOfBoxes<H, C>(key: H -> string, x: Box<H, C>, y: Box<H, C>)
    requires x.kids != [] && y.kids != []
    ensures Grouped(key, [x, y]) == if key(x.head) == key(y.head) then [Box(x.head, x.kids + y.kids)] else [x, y]
  {
    var xs := [x, y];
    GatherOfPair(key, x, y);
    assert IsFirst(key, xs, 0) && (IsFirst(key, xs, 1) <==> key(x.head) != key(y.head));
    if key(x.head) == key(y.head) {
      var first, second := Box(x.head, x.kids + y.kids), Box(y.head, []);
      assert MergedAll(key, xs) == [first, second];
      KeepTwo(HasKids, first, second);
    } else {
      assert [] + y.kids == y.kids && x.kids + [] == x.kids;
      assert MergedAll(key, xs) == [x, y];
      KeepTwo(HasKids, x, y);
    }
  }

  /** Two scopes of a resource, with metrics in both, become one exactly when their names are equal, whatever their versions. */
  lemma ScopesMergeExactly(x: Scope, y: Scope)
    requires x.kids != [] && y.kids != []
    ensures GroupScopes([x, y]) == if x.head.name == y.head.name then [Box(x.head, x.kids + y.kids)] else [x, y]
  {
    PairOfBoxes(ScopeName, x, y);
  }

  /** Two metrics of one type, with datapoints in both, become one exactly when their names are equal, whatever their descriptions. */
  lemma MetricsMergeExactly(x: Metric, y: Metric)
    requires x.kids != [] && y.kids != [] && !x.head.typ.Empty? && x.head.typ == y.head.typ
    ensures MergeByName([x, y]) == if x.head.name == y.head.name then [Box(x.head, x.kids + y.kids)] else [x, y]
  {
    var ms := [x, y];
    PairOfBoxes(MetricName, x, y);
    LeadTypeOfFirst(ms, 0);
    LeadOfSecond(x, y);
    forall i | 0 <= i < 2
      ensures MetricMergedAt(ms, i) == MergedAt(MetricName, ms, i)
    {
      assert LeadType(ms, ms[i].head.name) == Some(x.head.typ);
    }
    assert MetricsMerged(ms) == MergedAll(MetricName, ms);
    SameKept(MergedAll(MetricName, ms));
  }

  lemma LeadOfSecond(x: Metric, y: Metric)
    ensures LeadType([x, y], y.head.name) == Some(if x.head.name == y.head.name then x.head.typ else y.head.typ)
  {
    LeadTypeExtend([], x, y.head.name);
    LeadTypeExtend([x], y, y.head.name);
    assert [] + [x] == [x] && [x] + [y] == [x, y];
  }

  /** Among typed metrics those survive that hold datapoints. */
  lemma {:induction false} SameKept(ms: seq<Metric>)
    requires forall i :: 0 <= i < |ms| ==> !ms[i].head.typ.Empty?
    ensures Keep(Survives, ms) == Keep(HasKids, ms)
  {
    if ms != [] {
      SameKept(ms[..|ms| - 1]);
    }
  }

  /** Two datapoints of one typed metric both stay exactly when their canonical attributes differ; else the first does. */
  lemma PointsMergeExactly(h: ResourceHead, m: MetricHead, p: DataPoint, q: DataPoint)
    requires !m.typ.Empty?
    ensures Deduplicated(InOneScope(h, [Box(m, [p, q])]))
            == InOneScope(h, [Box(m, if CanonicalAttrsKey(p.attrs) != CanonicalAttrsKey(q.attrs) then [p, q] else [p])])
  {
    var x: Metric := Box(m, [p, q]);
    var s: Scope := Box(ScopeHead("s", ""), [x]);
    var r: Resource := Box(h, [s]);
    OneBox(ResourceKey, r);
    OneBox(ScopeName, s);
    OneMetric(x);
    TwoPoints(p, q);
    assert GroupScopes([s]) == [s] && ScopePass([r]) == [r];
    assert MergeScopeMetrics([s]) == [s] && MetricPass([r]) == [r];
    var out := DedupPoints([p, q]);
    assert DedupMetricPoints([x]) == [Box(m, out)];
    assert DedupScopePoints([s]) == [Box(s.head, [Box(m, out)])];
  }

  lemma OneBox<H, C>(key: H -> string, x: Box<H, C>)
    requires x.kids != []
    ensures Grouped(key, [x]) == [x]
  {
    SingleGather(key, x);
    assert IsFirst(key, [x], 0);
    assert MergedAll(key, [x]) == [x];
    KeepExtend(HasKids, [], x);
    assert [] + [x] == [x];
  }

  lemma OneMetric(x: Metric)
    requires x.kids != [] && !x.head.typ.Empty?
    ensures MergeByName([x]) == [x]
  {
    OneBox(MetricName, x);
    LeadTypeOfFirst([x], 0);
    assert MetricsMerged([x]) == MergedAll(MetricName, [x]);
    SameKept(MergedAll(MetricName, [x]));
  }

  lemma TwoPoints(p: DataPoint, q: DataPoint)
    ensures DedupPoints([p, q]) == if CanonicalAttrsKey(p.attrs) != CanonicalAttrsKey(q.attrs) then [p, q] else [p]
  {
    FirstPerKeyExtend(PointKey, [], p);
    FirstPerKeyExtend(PointKey, [p], q);
    assert [] + [p] == [p] && [p] + [q] == [p, q];
    HeldByAttrs([], p);
    HeldByAttrs([p], q);
    assert ([p] + [q])[1] == q && ([p] + [q])[0] == p;
    assert FirstOfAttrs([p] + [q], 1) <==> CanonicalAttrsKey(p.attrs) != CanonicalAttrsKey(q.attrs);
  }

  /** For attributes without separators that is exactly when their entries differ. */
  lemma PlainPointsMergeExactly(h: ResourceHead, m: MetricHead, p: DataPoint, q: DataPoint)
    requires !m.typ.Empty? && NoRepeats(KeysOf(p.attrs)) && NoRepeats(KeysOf(q.attrs)) && Plain(p.attrs) && Plain(q.attrs)
    ensures Deduplicated(InOneScope(h, [Box(m, [p, q])]))
            == InOneScope(h, [Box(m, if SameEntries(p.attrs, q.attrs) then [p] else [p, q])])
  {
    KeySeparatesPlain(p.attrs, q.attrs);
    PointsMergeExactly(h, m, p, q);
  }
}
