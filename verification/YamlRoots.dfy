/**
 The overlay loop drops what mergeNodes returns, so an overlay can replace the base only in
 place.  This says exactly when a list of overlays has the effect of merging them in turn.
 */
module YamlRoots {
  import opened Options
  import opened Sequences
  import opened YamlTree
  import opened YamlLaws
  import opened YamlOverlays

  /** The overlays merged into the base in turn. */
  function Folded(b: Tree, os: seq<Tree>): Tree {
    if os == [] then b else Merge(Folded(b, os[..|os| - 1]), os[|os| - 1])
  }

  /** The overlays merged in turn into a clone of the first. */
  function Alone(os: seq<Tree>): Tree
    requires os != []
  {
    Folded(Clone(os[0]), os[1..])
  }

  ghost predicate AllDistinct(os: seq<Tree>) {
    forall i :: 0 <= i < |os| ==> Distinct(os[i])
  }

  ghost predicate AllMappings(os: seq<Tree>) {
    forall i :: 0 <= i < |os| ==> os[i].Mapping?
  }

  lemma FoldedAppend(b: Tree, os: seq<Tree>, o: Tree)
    ensures Folded(b, os + [o]) == Merge(Folded(b, os), o)
  {
    assert (os + [o])[..|os|] == os;
  }

  lemma AloneAppend(os: seq<Tree>, o: Tree)
    ensures Alone(os + [o]) == if os == [] then Clone(o) else Merge(Alone(os), o)
  {
    if os == [] {
      assert (os + [o])[1..] == [];
    } else {
      assert (os + [o])[1..] == os[1..] + [o];
      FoldedAppend(Clone(os[0]), os[1..], o);
    }
  }

  // ---------------------------------------------------------------- lists of pairs

  function FoldedPairs(bp: seq<Pair>, os: seq<Tree>): seq<Pair>
    requires AllMappings(os)
  {
    if os == [] then bp else MergePairs(FoldedPairs(bp, os[..|os| - 1]), os[|os| - 1].pairs)
  }

  /** The values the overlays have for `k`, in order. */
  function Values(os: seq<Tree>, k: string): seq<Tree>
    requires AllMappings(os)
  {
    if os == [] then []
    else
      Values(os[..|os| - 1], k) + match Find(os[|os| - 1].pairs, k) case None => [] case Some(v) => [v]
  }

  lemma {:induction false} FoldedMapping(b: Tree, os: seq<Tree>)
    requires b.Mapping? && AllMappings(os)
    ensures Folded(b, os) == b.(pairs := FoldedPairs(b.pairs, os))
  {
    if os != [] {
      FoldedMapping(b, os[..|os| - 1]);
    }
  }

  lemma MergeIntoNothing(op: seq<Pair>)
    requires NoRepeats(Keys(op))
    ensures MergePairs([], op) == ClonePairs(op)
  {
    assert Keys([]) == [];
    MergeIsDeepMerge([], op);
    AddedAll([], op);
    assert UpdatedAll([], op) == [];
  }

  lemma {:induction false} AloneMapping(os: seq<Tree>)
    requires os != [] && AllMappings(os) && AllDistinct(os)
    ensures Alone(os) == Mapping(Unanchored(os[0].head), FoldedPairs([], os))
  {
    var front, o := os[..|os| - 1], os[|os| - 1];
    assert os == front + [o];
    AloneAppend(front, o);
    if front == [] {
      CloneMapping(o.head, o.pairs);
      MergeIntoNothing(o.pairs);
    } else {
      AloneMapping(front);
    }
  }

  lemma {:induction false} FoldedNoRepeats(bp: seq<Pair>, os: seq<Tree>)
    requires AllMappings(os) && NoRepeats(Keys(bp))
    ensures NoRepeats(Keys(FoldedPairs(bp, os)))
  {
    if os != [] {
      FoldedNoRepeats(bp, os[..|os| - 1]);
      MergePairsDistinct(FoldedPairs(bp, os[..|os| - 1]), os[|os| - 1].pairs);
    }
  }

  /** What a key holds after the overlays: the base's value, if any, under the overlays' values for it. */
  function Held(v: Option<Tree>, vs: seq<Tree>): Option<Tree> {
    match v
    case Some(b) => Some(Folded(b, vs))
    case None => if vs == [] then None else Some(Alone(vs))
  }

  lemma HeldAppend(v: Option<Tree>, vs: seq<Tree>, o: Tree)
    ensures Held(v, vs + [o]) == match Held(v, vs) case None => Some(Clone(o)) case Some(t) => Some(Merge(t, o))
  {
    if v.Some? {
      FoldedAppend(v.value, vs, o);
    } else {
      AloneAppend(vs, o);
    }
  }

  lemma {:induction false} FindFolded(bp: seq<Pair>, os: seq<Tree>, k: string)
    requires AllMappings(os) && AllDistinct(os) && NoRepeats(Keys(bp))
    ensures Find(FoldedPairs(bp, os), k) == Held(Find(bp, k), Values(os, k))
  {
    if os != [] {
      var front, o := os[..|os| - 1], os[|os| - 1];
      FindFolded(bp, front, k);
      FoldedNoRepeats(bp, front);
      FindInMerge(FoldedPairs(bp, front), o.pairs, k);
      if Find(o.pairs, k).Some? {
        HeldAppend(Find(bp, k), Values(front, k), Find(o.pairs, k).value);
      } else {
        assert Values(front, k) + [] == Values(front, k);
      }
    }
  }

  // ---------------------------------------------------------------- key nodes

  function Nodes(ps: seq<Pair>): (r: seq<Tree>)
    ensures |r| == |ps|
  {
    seq(|ps|, i requires 0 <= i < |ps| => ps[i].key)
  }

  /** Those of the key nodes whose keys are not among `ks`. */
  function Without(ns: seq<Tree>, ks: seq<string>): seq<Tree> {
    if ns == [] then []
    else Without(ns[..|ns| - 1], ks) + if ns[|ns| - 1].head.value in ks then [] else [ns[|ns| - 1]]
  }

  lemma {:induction false} WithoutAppend(x: seq<Tree>, y: seq<Tree>, ks: seq<string>)
    ensures Without(x + y, ks) == Without(x, ks) + Without(y, ks)
  {
    if y == [] {
      assert x + y == x;
    } else {
      var front, n := y[..|y| - 1], y[|y| - 1];
      WithoutAppend(x, front, ks);
      assert (x + y)[..|x + y| - 1] == x + front && (x + y)[|x + y| - 1] == n;
      AppendAssociates(Without(x, ks), Without(front, ks), if n.head.value in ks then [] else [n]);
    }
  }

  lemma WithoutOne(n: Tree, ks: seq<string>)
    ensures Without([n], ks) == if n.head.value in ks then [] else [n]
  {
    assert [n][..0] == [];
  }

  lemma {:induction false} WithoutKnown(ns: seq<Tree>, ks: seq<string>)
    requires forall i :: 0 <= i < |ns| ==> ns[i].head.value in ks
    ensures Without(ns, ks) == []
  {
    if ns != [] {
      WithoutKnown(ns[..|ns| - 1], ks);
    }
  }

  lemma {:induction false} WithoutStrange(ns: seq<Tree>, ks: seq<string>)
    requires forall i :: 0 <= i < |ns| ==> ns[i].head.value !in ks
    ensures Without(ns, ks) == ns
  {
    if ns != [] {
      WithoutStrange(ns[..|ns| - 1], ks);
    }
  }

  lemma NodesAppend(x: seq<Pair>, y: seq<Pair>)
    ensures Nodes(x + y) == Nodes(x) + Nodes(y)
  {
  }

  /** What two bases get added, when one has the keys of the other and `ks` besides. */
  lemma {:induction false} AddedWithout(l: seq<Pair>, r: seq<Pair>, op: seq<Pair>, ks: seq<string>)
    requires forall k :: k in Keys(l) <==> k in ks || k in Keys(r)
    ensures Nodes(Added(l, op)) == Without(Nodes(Added(r, op)), ks)
  {
    if op != [] {
      var front, p := op[..|op| - 1], op[|op| - 1];
      AddedWithout(l, r, front, ks);
      NodesMaybe(Added(l, front), p, KeyOf(p) in Keys(l));
      NodesMaybe(Added(r, front), p, KeyOf(p) in Keys(r));
      KeyOfClone(p.key);
      WithoutMaybe(Nodes(Added(r, front)), Clone(p.key), KeyOf(p) in Keys(r), ks);
    }
  }

  lemma NodesMaybe(added: seq<Pair>, p: Pair, known: bool)
    ensures Nodes(added + if known then [] else [ClonePair(p)]) == if known then Nodes(added) else Nodes(added) + [Clone(p.key)]
  {
    if known {
      assert added + [] == added;
    } else {
      NodesAppend(added, [ClonePair(p)]);
      assert Nodes([ClonePair(p)]) == [Clone(p.key)];
    }
  }

  lemma WithoutMaybe(ns: seq<Tree>, n: Tree, known: bool, ks: seq<string>)
    ensures Without(if known then ns else ns + [n], ks) ==
            if known || n.head.value in ks then Without(ns, ks) else Without(ns, ks) + [n]
  {
    WithoutAppend(ns, [n], ks);
    WithoutOne(n, ks);
    assert Without(ns, ks) + [] == Without(ns, ks);
  }

  lemma NodesMerged(l: seq<Pair>, op: seq<Pair>)
    requires NoRepeats(Keys(l)) && NoRepeats(Keys(op))
    ensures Nodes(MergePairs(l, op)) == Nodes(l) + Nodes(Added(l, op))
  {
    MergeIsDeepMerge(l, op);
    NodesAppend(UpdatedAll(l, op), Added(l, op));
    forall i | 0 <= i < |l|
      ensures UpdatedAll(l, op)[i].key == l[i].key
    {
      UpdatedKey(l[i], op);
    }
    assert Nodes(UpdatedAll(l, op)) == Nodes(l);
  }

  lemma {:induction false} FoldedKeys(bp: seq<Pair>, os: seq<Tree>, k: string)
    requires AllMappings(os)
    ensures k in Keys(FoldedPairs(bp, os)) <==> k in Keys(bp) || k in Keys(FoldedPairs([], os))
  {
    if os == [] {
      assert Keys([]) == [];
    } else {
      var front, o := os[..|os| - 1], os[|os| - 1];
      FoldedKeys(bp, front, k);
      MergePairsKeys(FoldedPairs(bp, front), o.pairs);
      MergePairsKeys(FoldedPairs([], front), o.pairs);
      AddNewMembers(Keys(FoldedPairs(bp, front)), Keys(o.pairs), k);
      AddNewMembers(Keys(FoldedPairs([], front)), Keys(o.pairs), k);
    }
  }

  /** The key nodes are the base's and then the overlays' own that the base has not. */
  lemma {:induction false} NodesFolded(bp: seq<Pair>, os: seq<Tree>)
    requires AllMappings(os) && AllDistinct(os) && NoRepeats(Keys(bp))
    ensures Nodes(FoldedPairs(bp, os)) == Nodes(bp) + Without(Nodes(FoldedPairs([], os)), Keys(bp))
  {
    if os != [] {
      var front, o := os[..|os| - 1], os[|os| - 1];
      var l, r := FoldedPairs(bp, front), FoldedPairs([], front);
      NodesFolded(bp, front);
      FoldedNoRepeats(bp, front);
      assert Keys([]) == [];
      FoldedNoRepeats([], front);
      forall k
        ensures k in Keys(l) <==> k in Keys(bp) || k in Keys(r)
      {
        FoldedKeys(bp, front, k);
      }
      NodesTurn(bp, l, r, o.pairs);
    }
  }

  lemma NodesTurn(bp: seq<Pair>, l: seq<Pair>, r: seq<Pair>, op: seq<Pair>)
    requires NoRepeats(Keys(l)) && NoRepeats(Keys(r)) && NoRepeats(Keys(op))
    requires forall k :: k in Keys(l) <==> k in Keys(bp) || k in Keys(r)
    requires Nodes(l) == Nodes(bp) + Without(Nodes(r), Keys(bp))
    ensures Nodes(MergePairs(l, op)) == Nodes(bp) + Without(Nodes(MergePairs(r, op)), Keys(bp))
  {
    var added := Nodes(Added(r, op));
    NodesMerged(l, op);
    NodesMerged(r, op);
    AddedWithout(l, r, op, Keys(bp));
    WithoutAppend(Nodes(r), added, Keys(bp));
    AppendAssociates(Nodes(bp), Without(Nodes(r), Keys(bp)), Without(added, Keys(bp)));
  }

  /** The key nodes of `bp` are the first of `r`. */
  ghost predicate NodesLead(bp: seq<Pair>, r: seq<Pair>) {
    |bp| <= |r| && forall i :: 0 <= i < |bp| ==> bp[i].key == r[i].key
  }

  lemma LeadingKeys(bp: seq<Pair>, r: seq<Pair>, i: nat)
    requires NodesLead(bp, r) && NoRepeats(Keys(r)) && i < |r|
    ensures Nodes(r)[i].head.value in Keys(bp) <==> i < |bp|
  {
    assert Nodes(r)[i].head.value == Keys(r)[i];
    if i < |bp| {
      assert Keys(bp)[i] == Keys(r)[i];
    } else {
      forall j | 0 <= j < |bp|
        ensures Keys(bp)[j] != Keys(r)[i]
      {
        assert Keys(bp)[j] == Keys(r)[j];
      }
    }
  }

  lemma LeadingNodes(bp: seq<Pair>, r: seq<Pair>)
    requires NodesLead(bp, r) && NoRepeats(Keys(r))
    ensures Nodes(bp) + Without(Nodes(r), Keys(bp)) == Nodes(r)
  {
    forall i | 0 <= i < |r|
      ensures Nodes(r)[i].head.value in Keys(bp) <==> i < |bp|
    {
      LeadingKeys(bp, r, i);
    }
    assert Nodes(r) == Nodes(bp) + Nodes(r)[|bp|..];
    WithoutFirst(Nodes(bp), Nodes(r)[|bp|..], Keys(bp));
  }

  lemma WithoutFirst(x: seq<Tree>, y: seq<Tree>, ks: seq<string>)
    requires forall i :: 0 <= i < |x| ==> x[i].head.value in ks
    requires forall i :: 0 <= i < |y| ==> y[i].head.value !in ks
    ensures x + Without(x + y, ks) == x + y
  {
    WithoutAppend(x, y, ks);
    WithoutKnown(x, ks);
    WithoutStrange(y, ks);
    assert [] + y == y;
  }

  lemma FindAt(ps: seq<Pair>, i: nat)
    requires i < |ps| && NoRepeats(Keys(ps))
    ensures Find(ps, KeyOf(ps[i])) == Some(ps[i].val)
  {
    IndexOfDistinct(ps, i);
  }

  lemma SamePairs(l: seq<Pair>, r: seq<Pair>)
    requires NoRepeats(Keys(l)) && NoRepeats(Keys(r)) && Nodes(l) == Nodes(r)
    requires forall i :: 0 <= i < |l| ==> Find(l, KeyOf(l[i])) == Find(r, KeyOf(l[i]))
    ensures l == r
  {
    assert |l| == |Nodes(l)| == |r|;
    forall i | 0 <= i < |l|
      ensures l[i] == r[i]
    {
      assert l[i].key == Nodes(l)[i] == Nodes(r)[i] == r[i].key;
      FindAt(l, i);
      FindAt(r, i);
    }
  }

  // ---------------------------------------------------------------- a base of which nothing is left

  /** All the base has is in the overlays too, its key nodes first, or is replaced by a later one. */
  ghost predicate LeavesNothing(b: Tree, os: seq<Tree>)
    decreases b
  {
    os != [] &&
    (b.Mapping? && AllMappings(os) ==>
       && b.head == Unanchored(os[0].head) && NodesLead(b.pairs, FoldedPairs([], os))
       && forall i :: 0 <= i < |b.pairs| ==> LeavesNothing(b.pairs[i].val, Values(os, KeyOf(b.pairs[i]))))
  }

  /** A tree that is not a mapping, or one behind it, leaves nothing of what came before. */
  lemma {:induction false} TornDown(b: Tree, os: seq<Tree>)
    requires os != [] && !(b.Mapping? && AllMappings(os))
    ensures Folded(b, os) == Alone(os)
  {
    var front, o := os[..|os| - 1], os[|os| - 1];
    assert os == front + [o];
    FoldedAppend(b, front, o);
    AloneAppend(front, o);
    if front != [] && !(b.Mapping? && AllMappings(front)) {
      TornDown(b, front);
    } else {
      assert !b.Mapping? || !o.Mapping?;
    }
  }

  lemma {:induction false} DistinctValues(os: seq<Tree>, k: string)
    requires AllMappings(os) && AllDistinct(os)
    ensures AllDistinct(Values(os, k))
  {
    if os != [] {
      DistinctValues(os[..|os| - 1], k);
    }
  }

  /** The overlays leave nothing of the base exactly when all the base has is in them or replaced. */
  lemma {:induction false} LeavesNothingExactly(b: Tree, os: seq<Tree>)
    requires os != [] && Distinct(b) && AllDistinct(os)
    ensures Folded(b, os) == Alone(os) <==> LeavesNothing(b, os)
    decreases b
  {
    if b.Mapping? && AllMappings(os) {
      var l, r := FoldedPairs(b.pairs, os), FoldedPairs([], os);
      FoldedMapping(b, os);
      AloneMapping(os);
      FoldsAgreeExactly(b.pairs, os);
      forall i | 0 <= i < |b.pairs| && Values(os, KeyOf(b.pairs[i])) != []
        ensures Folded(b.pairs[i].val, Values(os, KeyOf(b.pairs[i]))) == Alone(Values(os, KeyOf(b.pairs[i])))
                <==> LeavesNothing(b.pairs[i].val, Values(os, KeyOf(b.pairs[i])))
      {
        DistinctValues(os, KeyOf(b.pairs[i]));
        LeavesNothingExactly(b.pairs[i].val, Values(os, KeyOf(b.pairs[i])));
      }
    } else {
      TornDown(b, os);
    }
  }

  /** The value of base pair `p` does not show under the overlays. */
  ghost predicate Covered(p: Pair, os: seq<Tree>)
    requires AllMappings(os)
  {
    var vs := Values(os, KeyOf(p));
    vs != [] && Folded(p.val, vs) == Alone(vs)
  }

  lemma CoveredExactly(bp: seq<Pair>, os: seq<Tree>, i: nat)
    requires AllMappings(os) && AllDistinct(os) && NoRepeats(Keys(bp)) && i < |bp|
    ensures Find(FoldedPairs(bp, os), KeyOf(bp[i])) == Find(FoldedPairs([], os), KeyOf(bp[i])) <==> Covered(bp[i], os)
  {
    var k := KeyOf(bp[i]);
    assert Keys([]) == [];
    FindAt(bp, i);
    FindFolded(bp, os, k);
    FindFolded([], os, k);
  }

  lemma UncoveredSame(bp: seq<Pair>, os: seq<Tree>, k: string)
    requires AllMappings(os) && AllDistinct(os) && NoRepeats(Keys(bp)) && k !in Keys(bp)
    ensures Find(FoldedPairs(bp, os), k) == Find(FoldedPairs([], os), k)
  {
    assert Keys([]) == [];
    IndexOfKeys(bp, k);
    FindFolded(bp, os, k);
    FindFolded([], os, k);
  }

  lemma FoldsAgreeExactly(bp: seq<Pair>, os: seq<Tree>)
    requires AllMappings(os) && AllDistinct(os) && NoRepeats(Keys(bp))
    ensures FoldedPairs(bp, os) == FoldedPairs([], os) <==>
            NodesLead(bp, FoldedPairs([], os)) && forall i :: 0 <= i < |bp| ==> Covered(bp[i], os)
  {
    var l, r := FoldedPairs(bp, os), FoldedPairs([], os);
    NodesFolded(bp, os);
    if l == r {
      forall i | 0 <= i < |bp|
        ensures bp[i].key == r[i].key && Covered(bp[i], os)
      {
        assert Nodes(l)[i] == Nodes(bp)[i] == l[i].key;
        CoveredExactly(bp, os, i);
      }
    }
    if NodesLead(bp, r) && forall i :: 0 <= i < |bp| ==> Covered(bp[i], os) {
      CoveredFoldsAgree(bp, os);
    }
  }

  lemma CoveredFoldsAgree(bp: seq<Pair>, os: seq<Tree>)
    requires AllMappings(os) && AllDistinct(os) && NoRepeats(Keys(bp))
    requires NodesLead(bp, FoldedPairs([], os)) && forall i :: 0 <= i < |bp| ==> Covered(bp[i], os)
    ensures FoldedPairs(bp, os) == FoldedPairs([], os)
  {
    var l, r := FoldedPairs(bp, os), FoldedPairs([], os);
    assert Keys([]) == [];
    NodesFolded(bp, os);
    FoldedNoRepeats(bp, os);
    FoldedNoRepeats([], os);
    LeadingNodes(bp, r);
    forall a | 0 <= a < |l|
      ensures Find(l, KeyOf(l[a])) == Find(r, KeyOf(l[a]))
    {
      var k := KeyOf(l[a]);
      if k in Keys(bp) {
        var i :| 0 <= i < |bp| && Keys(bp)[i] == k;
        CoveredExactly(bp, os, i);
      } else {
        UncoveredSame(bp, os, k);
      }
    }
    SamePairs(l, r);
  }

  // ---------------------------------------------------------------- the loop over the overlays

  /** The mappings that no other tree follows. */
  function LastMappings(os: seq<Tree>): (r: seq<Tree>)
    ensures |r| <= |os| && r == os[|os| - |r|..] && AllMappings(r)
    ensures |r| < |os| ==> !os[|os| - |r| - 1].Mapping?
  {
    if os == [] || !os[|os| - 1].Mapping? then [] else LastMappings(os[..|os| - 1]) + [os[|os| - 1]]
  }

  /** The overlays before the last that is not a mapping. */
  function BeforeTearing(os: seq<Tree>): seq<Tree>
    requires !AllMappings(os)
  {
    assert LastMappings(os) == os ==> AllMappings(os);
    os[..|os| - |LastMappings(os)| - 1]
  }

  /**
   All overlays are mappings, as the base is; or mappings follow the last other one and leave
   nothing of what the loop had until then; or the base is what the last overlay would replace it by.
   */
  ghost predicate LosesNoOverlay(b: Tree, os: seq<Tree>) {
    if os == [] then true
    else if !b.Mapping? then b == Clone(os[|os| - 1])
    else AllMappings(os) || LeavesNothing(Applied(b, BeforeTearing(os)), LastMappings(os))
  }

  lemma {:induction false} AppliedToOther(b: Tree, os: seq<Tree>)
    requires !b.Mapping?
    ensures Applied(b, os) == b
  {
    if os != [] {
      AppliedToOther(b, os[..|os| - 1]);
    }
  }

  lemma {:induction false} FoldedKind(b: Tree, os: seq<Tree>)
    requires os != []
    ensures !os[|os| - 1].Mapping? ==> Folded(b, os) == Clone(os[|os| - 1])
    ensures os[|os| - 1].Mapping? ==> Folded(b, os).Mapping?
  {
  }

  lemma {:induction false} AppliedToMapping(b: Tree, os: seq<Tree>)
    requires b.Mapping? && Distinct(b) && AllDistinct(os)
    ensures Applied(b, os).Mapping? && Distinct(Applied(b, os))
  {
    if os != [] {
      AppliedToMapping(b, os[..|os| - 1]);
      if os[|os| - 1].Mapping? {
        MergeDistinct(Applied(b, os[..|os| - 1]), os[|os| - 1]);
      }
    }
  }

  /** Mapping overlays are all merged. */
  lemma {:induction false} MappingsApply(b: Tree, os: seq<Tree>, x: seq<Tree>)
    requires b.Mapping? && AllMappings(os)
    ensures Applied(b, x + os) == Folded(Applied(b, x), os)
  {
    if os == [] {
      assert x + os == x;
    } else {
      var front := os[..|os| - 1];
      assert (x + os)[..|x + os| - 1] == x + front;
      MappingsApply(b, front, x);
      AppliedMapping(b, x + front);
    }
  }

  lemma {:induction false} AppliedMapping(b: Tree, os: seq<Tree>)
    requires b.Mapping?
    ensures Applied(b, os).Mapping?
  {
    if os != [] {
      AppliedMapping(b, os[..|os| - 1]);
    }
  }

  lemma {:induction false} FoldedSplit(b: Tree, x: seq<Tree>, y: seq<Tree>)
    ensures Folded(b, x + y) == Folded(Folded(b, x), y)
  {
    if y == [] {
      assert x + y == x;
    } else {
      FoldedSplit(b, x, y[..|y| - 1]);
      assert (x + y)[..|x + y| - 1] == x + y[..|y| - 1];
    }
  }

  /** Behind a tree that is not a mapping, only the mappings that follow it count. */
  lemma FoldedBehind(b: Tree, x: seq<Tree>, o: Tree, y: seq<Tree>)
    requires !o.Mapping? && y != []
    ensures Folded(b, x + [o] + y) == Alone(y)
  {
    FoldedSplit(b, x + [o], y);
    FoldedAppend(b, x, o);
    TornDown(Clone(o), y);
  }

  lemma AppliedBehind(b: Tree, x: seq<Tree>, o: Tree, y: seq<Tree>)
    requires b.Mapping? && !o.Mapping? && AllMappings(y)
    ensures Applied(b, x + [o] + y) == Folded(Applied(b, x), y)
  {
    MappingsApply(b, y, x + [o]);
    assert (x + [o])[..|x|] == x;
  }

  /** The loop has the effect of merging the overlays in turn exactly when no overlay is lost. */
  lemma AppliedIsFoldedExactly(b: Tree, os: seq<Tree>)
    requires Distinct(b) && AllDistinct(os)
    ensures Applied(b, os) == Folded(b, os) <==> LosesNoOverlay(b, os)
  {
    if os == [] {
    } else if !b.Mapping? {
      AppliedToOther(b, os);
      FoldedKind(b, os);
    } else if AllMappings(os) {
      MappingsApply(b, os, []);
      assert [] + os == os;
    } else {
      var o := CutAtTearing(os);
      AppliedPastTearing(b, BeforeTearing(os), o, LastMappings(os));
    }
  }

  lemma CutAtTearing(os: seq<Tree>) returns (o: Tree)
    requires !AllMappings(os)
    ensures !o.Mapping? && os == BeforeTearing(os) + [o] + LastMappings(os)
  {
    o := os[|BeforeTearing(os)|];
  }

  lemma AppliedPastTearing(b: Tree, x: seq<Tree>, o: Tree, y: seq<Tree>)
    requires Distinct(b) && AllDistinct(x) && AllDistinct(y) && b.Mapping? && !o.Mapping? && AllMappings(y)
    ensures Applied(b, x + [o] + y) == Folded(b, x + [o] + y) <==> LeavesNothing(Applied(b, x), y)
  {
    AppliedToMapping(b, x);
    AppliedBehind(b, x, o, y);
    if y == [] {
      assert x + [o] + y == x + [o];
      FoldedAppend(b, x, o);
    } else {
      FoldedBehind(b, x, o, y);
      LeavesNothingExactly(Applied(b, x), y);
    }
  }

  /** For one overlay: it wins exactly when both are mappings, or when there is nothing to win. */
  lemma RootOverlayAppliesExactly(b: Tree, o: Tree)
    ensures Apply(b, o) == Merge(b, o) <==> (b.Mapping? && o.Mapping?) || b == Clone(o)
  {
  }

  /** A scalar is lost on a mapping, and a mapping on a scalar. */
  lemma RootOverlayLost(h: Head, ps: seq<Pair>, s: Head)
    ensures var m, o := Mapping(h, ps), Other(ScalarNode, s, []);
      Applied(m, [o]) == m != Folded(m, [o]) && Applied(o, [m]) == o != Folded(o, [m])
  {
    var m, o := Mapping(h, ps), Other(ScalarNode, s, []);
    assert [m][..0] == [] && [o][..0] == [];
  }
}
