/**
 Merging overlays among themselves first.  Applying `o1` and then `o2` is applying their merge,
 exactly unless `o1` replaces a mapping of the base by something else that `o2` makes a mapping
 again without bringing back all that the base had there.
 */
module YamlOverlays {
  import opened Sequences
  import opened YamlTree
  import opened YamlLaws

  // ---------------------------------------------------------------- a base that adds nothing

  /** All the base has, the overlay has too, in the same places. */
  ghost predicate Swallowed(b: Tree, o: Tree)
    decreases b
  {
    b.Mapping? && o.Mapping? ==>
      && b.head == Unanchored(o.head) && |b.pairs| <= |o.pairs|
      && forall i :: 0 <= i < |b.pairs| ==>
           b.pairs[i].key == Clone(o.pairs[i].key) && Swallowed(b.pairs[i].val, o.pairs[i].val)
  }

  lemma {:induction false} AddedAppend(bp: seq<Pair>, x: seq<Pair>, y: seq<Pair>)
    ensures Added(bp, x + y) == Added(bp, x) + Added(bp, y)
  {
    if y == [] {
      assert x + y == x;
    } else {
      var front, p := y[..|y| - 1], y[|y| - 1];
      AddedAppend(bp, x, front);
      assert x + y == (x + front) + [p];
      AddedTurn(bp, x + front, p);
    }
  }

  lemma {:induction false} AddedAll(bp: seq<Pair>, op: seq<Pair>)
    requires forall i :: 0 <= i < |op| ==> KeyOf(op[i]) !in Keys(bp)
    ensures Added(bp, op) == ClonePairs(op)
  {
    if op != [] {
      AddedAll(bp, op[..|op| - 1]);
    }
  }

  lemma {:induction false} AddedNone(bp: seq<Pair>, op: seq<Pair>)
    requires forall i :: 0 <= i < |op| ==> KeyOf(op[i]) in Keys(bp)
    ensures Added(bp, op) == []
  {
    if op != [] {
      AddedNone(bp, op[..|op| - 1]);
    }
  }

  /** The first keys of `op` are those of `bp`. */
  ghost predicate KeysLead(bp: seq<Pair>, op: seq<Pair>) {
    |bp| <= |op| && forall i :: 0 <= i < |bp| ==> KeyOf(bp[i]) == KeyOf(op[i])
  }

  lemma LedKeyKnown(bp: seq<Pair>, op: seq<Pair>, i: nat)
    requires KeysLead(bp, op) && NoRepeats(Keys(op)) && i < |op|
    ensures KeyOf(op[i]) in Keys(bp) <==> i < |bp|
  {
    assert Keys(op)[i] == KeyOf(op[i]);
    if i < |bp| {
      assert Keys(bp)[i] == KeyOf(op[i]);
    } else {
      forall j | 0 <= j < |bp|
        ensures Keys(bp)[j] != KeyOf(op[i])
      {
        assert Keys(op)[j] == KeyOf(op[j]);
      }
    }
  }

  /** Where the base's keys lead the overlay's, the overlay adds the rest of its pairs. */
  lemma AddedAfterPrefix(bp: seq<Pair>, op: seq<Pair>)
    requires KeysLead(bp, op) && NoRepeats(Keys(op))
    ensures Added(bp, op) == ClonePairs(op[|bp|..])
  {
    var n := |bp|;
    forall i | 0 <= i < |op|
      ensures KeyOf(op[i]) in Keys(bp) <==> i < n
    {
      LedKeyKnown(bp, op, i);
    }
    assert op == op[..n] + op[n..];
    AddedAppend(bp, op[..n], op[n..]);
    AddedNone(bp, op[..n]);
    AddedAll(bp, op[n..]);
  }

  lemma UpdatedByFind(b: Pair, op: seq<Pair>)
    ensures Updated(b, op) == match Find(op, KeyOf(b)) case None => b case Some(t) => Pair(b.key, Merge(b.val, t))
  {
    var i := IndexOf(op, KeyOf(b));
    if i < |op| {
      assert Updated(b, op) == MergePair(b, op[i]);
    }
  }

  lemma UpdatedAt(b: Pair, op: seq<Pair>, i: nat)
    requires i < |op| && NoRepeats(Keys(op)) && KeyOf(b) == KeyOf(op[i])
    ensures Updated(b, op) == Pair(b.key, Merge(b.val, op[i].val))
  {
    IndexOfDistinct(op, i);
    UpdatedByFind(b, op);
  }

  lemma UpdatedKey(b: Pair, op: seq<Pair>)
    ensures Updated(b, op).key == b.key
  {
  }

  /** Merging gives the overlay alone exactly when the base is swallowed. */
  lemma {:induction false} SwallowedExactly(b: Tree, o: Tree)
    requires Distinct(b) && Distinct(o)
    ensures Merge(b, o) == Clone(o) <==> Swallowed(b, o)
    decreases b
  {
    if b.Mapping? && o.Mapping? {
      var bp, op := b.pairs, o.pairs;
      CloneMapping(o.head, op);
      MergeIsDeepMerge(bp, op);
      if Swallowed(b, o) {
        SwallowedMerge(b, o);
      }
      if Merge(b, o) == Clone(o) {
        var m := DeepMerged(bp, op);
        assert m == ClonePairs(op);
        forall i | 0 <= i < |bp|
          ensures bp[i].key == Clone(op[i].key) && Swallowed(bp[i].val, op[i].val)
        {
          assert m[i] == Updated(bp[i], op) == ClonePair(op[i]);
          UpdatedKey(bp[i], op);
          KeyOfClone(op[i].key);
          UpdatedAt(bp[i], op, i);
          SwallowedExactly(bp[i].val, op[i].val);
        }
      }
    }
  }

  lemma {:induction false} SwallowedMerge(b: Tree, o: Tree)
    requires Distinct(b) && Distinct(o) && b.Mapping? && o.Mapping? && Swallowed(b, o)
    ensures Merge(b, o) == Clone(o)
    decreases b, 0
  {
    var bp, op := b.pairs, o.pairs;
    CloneMapping(o.head, op);
    MergeIsDeepMerge(bp, op);
    forall i | 0 <= i < |bp|
      ensures KeyOf(bp[i]) == KeyOf(op[i]) && Updated(bp[i], op) == ClonePair(op[i])
    {
      KeyOfClone(op[i].key);
      UpdatedAt(bp[i], op, i);
      if bp[i].val.Mapping? && op[i].val.Mapping? {
        SwallowedMerge(bp[i].val, op[i].val);
      }
    }
    AddedAfterPrefix(bp, op);
    ClonedInTwo(UpdatedAll(bp, op), op);
  }

  lemma ClonedInTwo(front: seq<Pair>, op: seq<Pair>)
    requires |front| <= |op| && forall i :: 0 <= i < |front| ==> front[i] == ClonePair(op[i])
    ensures front + ClonePairs(op[|front|..]) == ClonePairs(op)
  {
  }

  // ---------------------------------------------------------------- two overlays

  /** Where `o1` tears a mapping down that `o2` builds again, the base had nothing of its own. */
  ghost predicate Associates(b: Tree, o1: Tree, o2: Tree)
    decreases b
  {
    b.Mapping? && o2.Mapping? ==>
      if o1.Mapping? then
        forall i :: 0 <= i < |b.pairs| ==> PairAssociates(b.pairs[i], o1.pairs, o2.pairs)
      else Swallowed(b, o2)
  }

  ghost predicate PairAssociates(p: Pair, p1: seq<Pair>, p2: seq<Pair>)
    decreases p
  {
    var x, y := Find(p1, KeyOf(p)), Find(p2, KeyOf(p));
    x.Some? && y.Some? ==> Associates(p.val, x.value, y.value)
  }

  lemma {:induction false} UpdatedAdded(bp: seq<Pair>, p1: seq<Pair>, p2: seq<Pair>)
    ensures UpdatedAll(Added(bp, p1), p2) == Added(bp, UpdatedAll(p1, p2))
  {
    if p1 != [] {
      var front, p := p1[..|p1| - 1], p1[|p1| - 1];
      UpdatedAdded(bp, front, p2);
      UpdatedKey(p, p2);
      KeyOfClone(p.key);
      assert p1 == front + [p];
      assert UpdatedAll(p1, p2) == UpdatedAll(front, p2) + [Updated(p, p2)];
      AddedTurn(bp, UpdatedAll(front, p2), Updated(p, p2));
      UpdatedByFind(p, p2);
      UpdatedByFind(ClonePair(p), p2);
      if Find(p2, KeyOf(p)).Some? {
        CloneOfMerge(p.val, Find(p2, KeyOf(p)).value);
      }
      assert Updated(ClonePair(p), p2) == ClonePair(Updated(p, p2));
      if KeyOf(p) in Keys(bp) {
        assert Added(bp, p1) == Added(bp, front);
      } else {
        assert UpdatedAll(Added(bp, front) + [ClonePair(p)], p2) == UpdatedAll(Added(bp, front), p2) + [Updated(ClonePair(p), p2)];
      }
    }
  }

  lemma {:induction false} AddedKeySet(bp: seq<Pair>, op: seq<Pair>, k: string)
    ensures k in Keys(Added(bp, op)) <==> k in Keys(op) && k !in Keys(bp)
  {
    if op != [] {
      var front, p := op[..|op| - 1], op[|op| - 1];
      AddedKeySet(bp, front, k);
      KeyOfClone(p.key);
      assert op == front + [p];
      assert Keys(op) == Keys(front) + [KeyOf(p)];
      AddedTurn(bp, front, p);
      assert Keys(Added(bp, op)) == Keys(Added(bp, front)) + if KeyOf(p) in Keys(bp) then [] else [KeyOf(p)];
    }
  }

  lemma DeepMergedKeySet(bp: seq<Pair>, p1: seq<Pair>, k: string)
    ensures k in Keys(DeepMerged(bp, p1)) <==> k in Keys(bp) || k in Keys(p1)
  {
    AddedKeySet(bp, p1, k);
    assert Keys(UpdatedAll(bp, p1)) == Keys(bp);
    assert Keys(DeepMerged(bp, p1)) == Keys(UpdatedAll(bp, p1)) + Keys(Added(bp, p1));
  }

  lemma {:induction false} AddedTwice(bp: seq<Pair>, p1: seq<Pair>, p2: seq<Pair>)
    ensures Added(DeepMerged(bp, p1), p2) == Added(bp, Added(p1, p2))
  {
    if p2 != [] {
      var front, p := p2[..|p2| - 1], p2[|p2| - 1];
      AddedTwice(bp, p1, front);
      DeepMergedKeySet(bp, p1, KeyOf(p));
      KeyOfClone(p.key);
      CloneIdempotent(p.key);
      CloneIdempotent(p.val);
      AddedTurn(bp, Added(p1, front), ClonePair(p));
      if KeyOf(p) in Keys(p1) {
        assert Added(p1, p2) == Added(p1, front);
      }
    }
  }

  /** Both orders add the same pairs behind the base's. */
  lemma SameTail(bp: seq<Pair>, p1: seq<Pair>, p2: seq<Pair>)
    ensures UpdatedAll(Added(bp, p1), p2) + Added(DeepMerged(bp, p1), p2) == Added(bp, DeepMerged(p1, p2))
  {
    UpdatedAdded(bp, p1, p2);
    AddedTwice(bp, p1, p2);
    AddedAppend(bp, UpdatedAll(p1, p2), Added(p1, p2));
  }

  lemma UpdatedAllAppend(x: seq<Pair>, y: seq<Pair>, op: seq<Pair>)
    ensures UpdatedAll(x + y, op) == UpdatedAll(x, op) + UpdatedAll(y, op)
  {
  }

  lemma SamePrefix<T>(x: seq<T>, y: seq<T>, t: seq<T>)
    requires |x| == |y|
    ensures x + t == y + t <==> forall i :: 0 <= i < |x| ==> x[i] == y[i]
  {
    assert (x + t)[..|x|] == x && (y + t)[..|y|] == y;
  }

  lemma DistinctAt(ps: seq<Pair>, k: string)
    requires DistinctPairs(ps) && Find(ps, k).Some?
    ensures Distinct(Find(ps, k).value)
  {
  }

  /** One base pair through both orders. */
  lemma {:induction false} PairAssociative(b: Pair, p1: seq<Pair>, p2: seq<Pair>)
    requires Distinct(b.val) && DistinctPairs(p1) && DistinctPairs(p2)
    ensures Updated(Updated(b, p1), p2) == Updated(b, MergePairs(p1, p2)) <==> PairAssociates(b, p1, p2)
    decreases b
  {
    var k := KeyOf(b);
    var x, y := Find(p1, k), Find(p2, k);
    UpdatedByFind(b, p1);
    UpdatedByFind(Updated(b, p1), p2);
    UpdatedByFind(b, MergePairs(p1, p2));
    FindInMerge(p1, p2, k);
    if y.Some? {
      MergeOfClone(b.val, y.value);
      if x.Some? {
        DistinctAt(p1, k);
        DistinctAt(p2, k);
        MergeAssociativeExactly(b.val, x.value, y.value);
      }
    }
  }

  lemma LeftOrder(bp: seq<Pair>, p1: seq<Pair>, p2: seq<Pair>)
    requires DistinctPairs(bp) && DistinctPairs(p1) && DistinctPairs(p2)
    ensures MergePairs(MergePairs(bp, p1), p2) == UpdatedAll(UpdatedAll(bp, p1), p2) + Added(bp, DeepMerged(p1, p2))
  {
    var m1, was, added := MergePairs(bp, p1), UpdatedAll(bp, p1), Added(bp, p1);
    MergePairsDistinct(bp, p1);
    MergeIsDeepMerge(bp, p1);
    MergeIsDeepMerge(m1, p2);
    UpdatedAllAppend(was, added, p2);
    SameTail(bp, p1, p2);
    AppendAssociates(UpdatedAll(was, p2), UpdatedAll(added, p2), Added(m1, p2));
  }

  lemma RightOrder(bp: seq<Pair>, p1: seq<Pair>, p2: seq<Pair>)
    requires DistinctPairs(bp) && DistinctPairs(p1) && DistinctPairs(p2)
    ensures MergePairs(bp, MergePairs(p1, p2)) == UpdatedAll(bp, MergePairs(p1, p2)) + Added(bp, DeepMerged(p1, p2))
  {
    MergePairsDistinct(p1, p2);
    MergeIsDeepMerge(p1, p2);
    MergeIsDeepMerge(bp, MergePairs(p1, p2));
  }

  lemma {:induction false} PairsAssociative(bp: seq<Pair>, p1: seq<Pair>, p2: seq<Pair>)
    requires DistinctPairs(bp) && DistinctPairs(p1) && DistinctPairs(p2)
    ensures MergePairs(MergePairs(bp, p1), p2) == MergePairs(bp, MergePairs(p1, p2))
            <==> forall i :: 0 <= i < |bp| ==> PairAssociates(bp[i], p1, p2)
    decreases bp
  {
    LeftOrder(bp, p1, p2);
    RightOrder(bp, p1, p2);
    var l, r := UpdatedAll(UpdatedAll(bp, p1), p2), UpdatedAll(bp, MergePairs(p1, p2));
    SamePrefix(l, r, Added(bp, DeepMerged(p1, p2)));
    forall i | 0 <= i < |bp|
      ensures l[i] == r[i] <==> PairAssociates(bp[i], p1, p2)
    {
      PairAssociative(bp[i], p1, p2);
    }
  }

  /** Applying two overlays in turn is applying their merge, exactly when they associate. */
  lemma {:induction false} MergeAssociativeExactly(b: Tree, o1: Tree, o2: Tree)
    requires Distinct(b) && Distinct(o1) && Distinct(o2)
    ensures Merge(Merge(b, o1), o2) == Merge(b, Merge(o1, o2)) <==> Associates(b, o1, o2)
    decreases b
  {
    MergeOfClone(b, o2);
    if !b.Mapping? {
      CloneOfMerge(o1, o2);
    } else if !o2.Mapping? {
      CloneIdempotent(o2);
    } else if !o1.Mapping? {
      SwallowedExactly(b, o2);
    } else {
      PairsAssociative(b.pairs, o1.pairs, o2.pairs);
    }
  }

  // ---------------------------------------------------------------- a list of overlays

  /** No path is a mapping in the base and in `o2` but something else in `o1`. */
  ghost predicate NeverTornDown(b: Tree, o1: Tree, o2: Tree)
    decreases b
  {
    b.Mapping? && o2.Mapping? ==>
      o1.Mapping? && forall i :: 0 <= i < |b.pairs| ==> PairNeverTornDown(b.pairs[i], o1.pairs, o2.pairs)
  }

  ghost predicate PairNeverTornDown(p: Pair, p1: seq<Pair>, p2: seq<Pair>)
    decreases p
  {
    var x, y := Find(p1, KeyOf(p)), Find(p2, KeyOf(p));
    x.Some? && y.Some? ==> NeverTornDown(p.val, x.value, y.value)
  }

  lemma {:induction false} NeverTornDownAssociates(b: Tree, o1: Tree, o2: Tree)
    requires NeverTornDown(b, o1, o2)
    ensures Associates(b, o1, o2)
    decreases b
  {
    if b.Mapping? && o2.Mapping? {
      forall i | 0 <= i < |b.pairs|
        ensures PairAssociates(b.pairs[i], o1.pairs, o2.pairs)
      {
        var p := b.pairs[i];
        assert PairNeverTornDown(p, o1.pairs, o2.pairs);
        var x, y := Find(o1.pairs, KeyOf(p)), Find(o2.pairs, KeyOf(p));
        if x.Some? && y.Some? {
          NeverTornDownAssociates(p.val, x.value, y.value);
        }
      }
    }
  }

  /** A mapping, a scalar in its place, a mapping again: the orders differ. */
  lemma TornDownMappingDiffers(h: Head, k: Tree, v: Tree)
    requires Distinct(k) && Distinct(v)
    ensures var b, o1, o2 := Mapping(h, [Pair(k, v)]), Other(ScalarNode, h, []), Mapping(h, []);
      Merge(Merge(b, o1), o2) != Merge(b, Merge(o1, o2))
  {
    var b, o1, o2 := Mapping(h, [Pair(k, v)]), Other(ScalarNode, h, []), Mapping(h, []);
    assert !Swallowed(b, o2);
    MergeAssociativeExactly(b, o1, o2);
  }

  lemma {:induction false} MergeDistinct(b: Tree, o: Tree)
    requires Distinct(b) && Distinct(o)
    ensures Distinct(Merge(b, o))
    decreases o
  {
    if b.Mapping? && o.Mapping? {
      MergePairsAllDistinct(b.pairs, o.pairs);
    } else {
      CloneDistinct(o);
    }
  }

  lemma {:induction false} MergePairsAllDistinct(bp: seq<Pair>, op: seq<Pair>)
    requires DistinctPairs(bp) && DistinctPairs(op)
    ensures DistinctPairs(MergePairs(bp, op))
    decreases op
  {
    MergePairsDistinct(bp, op);
    if op != [] {
      var front := op[..|op| - 1];
      FrontNoRepeats(op);
      MergePairsAllDistinct(bp, front);
      PutDistinct(MergePairs(bp, front), op[|op| - 1]);
    }
  }

  lemma {:induction false} PutDistinct(m: seq<Pair>, p: Pair)
    requires DistinctPairs(m) && Distinct(p.key) && Distinct(p.val)
    ensures forall i :: 0 <= i < |Put(m, p)| ==> Distinct(Put(m, p)[i].key) && Distinct(Put(m, p)[i].val)
    decreases p
  {
    var i := IndexOf(m, KeyOf(p));
    if i < |m| {
      MergeDistinct(m[i].val, p.val);
      assert MergePair(m[i], p) == Pair(m[i].key, Merge(m[i].val, p.val));
    } else {
      CloneDistinct(p.key);
      CloneDistinct(p.val);
    }
  }

  lemma {:induction false} CloneDistinct(t: Tree)
    requires Distinct(t)
    ensures Distinct(Clone(t))
    decreases t
  {
    match t
    case Mapping(h, ps) =>
      CloneMapping(h, ps);
      forall i | 0 <= i < |ps|
        ensures Distinct(Clone(ps[i].key)) && Distinct(Clone(ps[i].val)) && KeyOf(ClonePair(ps[i])) == KeyOf(ps[i])
      {
        CloneDistinct(ps[i].key);
        CloneDistinct(ps[i].val);
        KeyOfClone(ps[i].key);
      }
      assert Keys(ClonePairs(ps)) == Keys(ps);
    case Other(_, _, ts) =>
      forall i | 0 <= i < |ts|
        ensures Distinct(Clone(ts[i]))
      {
        CloneDistinct(ts[i]);
      }
  }

  /** One overlay as GetCollectorConfig applies it: in place, with the merge's result dropped. */
  function Apply(b: Tree, o: Tree): Tree {
    if b.Mapping? && o.Mapping? then Merge(b, o) else b
  }

  /** The overlays applied to the base in order. */
  function Applied(b: Tree, os: seq<Tree>): Tree {
    if os == [] then b else Apply(Applied(b, os[..|os| - 1]), os[|os| - 1])
  }

  function MappingsOf(os: seq<Tree>): seq<Tree> {
    if os == [] then []
    else MappingsOf(os[..|os| - 1]) + if os[|os| - 1].Mapping? then [os[|os| - 1]] else []
  }

  /** Overlays that are not mappings at the root might as well not be there. */
  lemma {:induction false} OnlyMappingsApply(b: Tree, os: seq<Tree>)
    ensures Applied(b, os) == Applied(b, MappingsOf(os))
  {
    if os != [] {
      var front, o := os[..|os| - 1], os[|os| - 1];
      OnlyMappingsApply(b, front);
      if o.Mapping? {
        assert (MappingsOf(front) + [o])[..|MappingsOf(front)|] == MappingsOf(front);
      } else {
        assert MappingsOf(os) == MappingsOf(front);
      }
    }
  }

  /** The overlays merged among themselves in order. */
  function Combined(os: seq<Tree>): Tree
    requires os != []
  {
    if |os| == 1 then os[0] else Merge(Combined(os[..|os| - 1]), os[|os| - 1])
  }

  lemma {:induction false} CombinedDistinct(os: seq<Tree>)
    requires os != [] && forall i :: 0 <= i < |os| ==> Distinct(os[i])
    ensures Distinct(Combined(os))
  {
    if |os| > 1 {
      CombinedDistinct(os[..|os| - 1]);
      MergeDistinct(Combined(os[..|os| - 1]), os[|os| - 1]);
    }
  }

  /** A list of mapping overlays of which none tears down what a later one builds is one overlay. */
  lemma {:induction false} OverlaysCombine(b: Tree, os: seq<Tree>)
    requires os != [] && Distinct(b) && b.Mapping? && forall i :: 0 <= i < |os| ==> Distinct(os[i]) && os[i].Mapping?
    requires forall n :: 0 < n < |os| ==> NeverTornDown(b, Combined(os[..n]), os[n])
    ensures Applied(b, os) == Merge(b, Combined(os))
  {
    var n := |os| - 1;
    if n > 0 {
      var front := os[..n];
      forall i | 0 < i < |front|
        ensures NeverTornDown(b, Combined(front[..i]), front[i])
      {
        assert front[..i] == os[..i];
      }
      OverlaysCombine(b, front);
      CombinedDistinct(front);
      NeverTornDownAssociates(b, Combined(front), os[n]);
      MergeAssociativeExactly(b, Combined(front), os[n]);
    } else {
      assert os[..0] == [];
    }
  }
}
