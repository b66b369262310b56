/**
 The laws of the overlay merge: it is the declarative deep merge, re-applying an overlay changes
 nothing, and overlays can be merged among themselves first exactly when none of them tears a
 mapping down that a later one builds up again.
 */
module YamlLaws {
  import opened Options
  import opened Sequences
  import opened YamlTree

  // ---------------------------------------------------------------- deep merge, key by key

  /** What happens to one base pair. */
  function Updated(p: Pair, op: seq<Pair>): Pair {
    var i := IndexOf(op, KeyOf(p));
    if i < |op| then MergePair(p, op[i]) else p
  }

  /** Clones of the overlay pairs whose key the base has not, in order. */
  function Added(bp: seq<Pair>, op: seq<Pair>): seq<Pair> {
    if op == [] then []
    else
      var p := op[|op| - 1];
      Added(bp, op[..|op| - 1]) + if KeyOf(p) in Keys(bp) then [] else [ClonePair(p)]
  }

  function UpdatedAll(bp: seq<Pair>, op: seq<Pair>): (r: seq<Pair>)
    ensures |r| == |bp|
  {
    seq(|bp|, i requires 0 <= i < |bp| => Updated(bp[i], op))
  }

  function DeepMerged(bp: seq<Pair>, op: seq<Pair>): seq<Pair> {
    UpdatedAll(bp, op) + Added(bp, op)
  }

  lemma FrontNoRepeats(ps: seq<Pair>)
    requires ps != [] && NoRepeats(Keys(ps))
    ensures NoRepeats(Keys(ps[..|ps| - 1])) && KeyOf(ps[|ps| - 1]) !in Keys(ps[..|ps| - 1])
  {
    var front := ps[..|ps| - 1];
    assert Keys(front) == Keys(ps)[..|ps| - 1];
    assert KeyOf(ps[|ps| - 1]) == Keys(ps)[|ps| - 1];
  }

  lemma IndexOfFront(ps: seq<Pair>, k: string)
    requires ps != [] && KeyOf(ps[|ps| - 1]) != k
    ensures var i := IndexOf(ps[..|ps| - 1], k); IndexOf(ps, k) == if i < |ps| - 1 then i else |ps|
  {
  }

  lemma IndexOfDistinct(ps: seq<Pair>, i: nat)
    requires i < |ps| && NoRepeats(Keys(ps))
    ensures IndexOf(ps, KeyOf(ps[i])) == i
  {
    var j := IndexOf(ps, KeyOf(ps[i]));
    assert Keys(ps)[i] == KeyOf(ps[i]);
    assert j < |ps| ==> Keys(ps)[j] == KeyOf(ps[j]);
  }

  lemma {:induction false} AddedKeys(bp: seq<Pair>, op: seq<Pair>, i: nat)
    requires i < |Added(bp, op)|
    ensures KeyOf(Added(bp, op)[i]) in Keys(op) && KeyOf(Added(bp, op)[i]) !in Keys(bp)
  {
    var front, p := op[..|op| - 1], op[|op| - 1];
    assert Keys(op) == Keys(front) + [KeyOf(p)];
    KeyOfClone(p.key);
    if i < |Added(bp, front)| {
      AddedKeys(bp, front, i);
    }
  }

  /** With distinct keys on each side the merge is the declarative deep merge. */
  lemma {:induction false} MergeIsDeepMerge(bp: seq<Pair>, op: seq<Pair>)
    requires NoRepeats(Keys(bp)) && NoRepeats(Keys(op))
    ensures MergePairs(bp, op) == DeepMerged(bp, op)
  {
    if op == [] {
      assert DeepMerged(bp, op) == bp;
    } else {
      var front, p := op[..|op| - 1], op[|op| - 1];
      FrontNoRepeats(op);
      MergeIsDeepMerge(bp, front);
      DeepMergeTurn(bp, front, p);
      assert op == front + [p];
    }
  }

  lemma UpdatedTurn(b: Pair, front: seq<Pair>, p: Pair)
    requires KeyOf(p) !in Keys(front)
    ensures Updated(b, front + [p]) == if KeyOf(b) == KeyOf(p) then MergePair(b, p) else Updated(b, front)
    ensures KeyOf(b) == KeyOf(p) ==> Updated(b, front) == b
  {
    var op := front + [p];
    assert op[..|front|] == front;
    if KeyOf(b) == KeyOf(p) {
      IndexOfKeys(front, KeyOf(p));
    } else {
      IndexOfFront(op, KeyOf(b));
    }
  }

  lemma DeepMergeIndex(bp: seq<Pair>, front: seq<Pair>, k: string)
    requires k !in Keys(front)
    ensures IndexOf(DeepMerged(bp, front), k) == if k in Keys(bp) then IndexOf(bp, k) else |DeepMerged(bp, front)|
  {
    var m, i := DeepMerged(bp, front), IndexOf(bp, k);
    forall a | 0 <= a < |m|
      ensures a < |bp| ==> KeyOf(m[a]) == KeyOf(bp[a])
      ensures |bp| <= a ==> KeyOf(m[a]) != k
    {
      if |bp| <= a {
        AddedKeys(bp, front, a - |bp|);
      }
    }
    IndexOfKeys(bp, k);
    var j := IndexOf(m, k);
    assert i < |bp| ==> KeyOf(m[i]) == k;
  }

  lemma DeepMergeShared(bp: seq<Pair>, front: seq<Pair>, p: Pair, i: nat)
    requires NoRepeats(Keys(bp)) && KeyOf(p) !in Keys(front) && i < |bp|
    ensures var u := Updated(bp[i], front);
      Updated(bp[i], front + [p]) == if i == IndexOf(bp, KeyOf(p)) then MergePair(u, p) else u
  {
    UpdatedTurn(bp[i], front, p);
    if KeyOf(bp[i]) == KeyOf(p) {
      IndexOfDistinct(bp, i);
    }
  }

  lemma UpdatedAllTurn(bp: seq<Pair>, front: seq<Pair>, p: Pair)
    requires NoRepeats(Keys(bp)) && KeyOf(p) !in Keys(front)
    ensures var was, j := UpdatedAll(bp, front), IndexOf(bp, KeyOf(p));
      UpdatedAll(bp, front + [p]) == if j < |bp| then was[j := MergePair(was[j], p)] else was
  {
    var was, now, j := UpdatedAll(bp, front), UpdatedAll(bp, front + [p]), IndexOf(bp, KeyOf(p));
    forall i | 0 <= i < |bp|
      ensures i != j ==> now[i] == was[i]
      ensures i == j ==> now[i] == MergePair(was[i], p)
    {
      DeepMergeShared(bp, front, p, i);
    }
    ChangedAt(was, now, j);
  }

  lemma ChangedAt<T>(was: seq<T>, now: seq<T>, j: nat)
    requires |was| == |now| && forall i :: 0 <= i < |was| && i != j ==> now[i] == was[i]
    ensures now == if j < |was| then was[j := now[j]] else was
  {
  }

  lemma UpdateLeft<T>(a: seq<T>, b: seq<T>, j: nat, x: T)
    requires j < |a|
    ensures (a + b)[j := x] == a[j := x] + b && (a + b)[j] == a[j]
  {
  }

  lemma PutKnown(was: seq<Pair>, added: seq<Pair>, p: Pair)
    requires IndexOf(was + added, KeyOf(p)) < |was|
    ensures var j := IndexOf(was + added, KeyOf(p));
      Put(was + added, p) == was[j := MergePair(was[j], p)] + added
  {
    var j := IndexOf(was + added, KeyOf(p));
    UpdateLeft(was, added, j, MergePair(was[j], p));
  }

  lemma DeepMergeTurn(bp: seq<Pair>, front: seq<Pair>, p: Pair)
    requires NoRepeats(Keys(bp)) && KeyOf(p) !in Keys(front)
    ensures Put(DeepMerged(bp, front), p) == DeepMerged(bp, front + [p])
  {
    var was, added := UpdatedAll(bp, front), Added(bp, front);
    DeepMergeIndex(bp, front, KeyOf(p));
    IndexOfKeys(bp, KeyOf(p));
    AddedTurn(bp, front, p);
    UpdatedAllTurn(bp, front, p);
    if KeyOf(p) in Keys(bp) {
      PutKnown(was, added, p);
      AppendNothing(added);
    } else {
      PutNew(was + added, p);
      AppendAssociates(was, added, [ClonePair(p)]);
    }
  }

  lemma PutNew(ps: seq<Pair>, p: Pair)
    requires IndexOf(ps, KeyOf(p)) == |ps|
    ensures Put(ps, p) == ps + [ClonePair(p)]
  {
  }

  lemma AddedTurn(bp: seq<Pair>, front: seq<Pair>, p: Pair)
    ensures Added(bp, front + [p]) == Added(bp, front) + if KeyOf(p) in Keys(bp) then [] else [ClonePair(p)]
  {
    assert (front + [p])[..|front|] == front;
  }

  // ---------------------------------------------------------------- lookups in a result

  function Find(ps: seq<Pair>, k: string): Option<Tree> {
    var i := IndexOf(ps, k);
    if i < |ps| then Some(ps[i].val) else None
  }

  lemma FindAdded(bp: seq<Pair>, op: seq<Pair>, i: nat)
    requires NoRepeats(Keys(op)) && i < |Added(bp, op)|
    ensures var p, j := Added(bp, op)[i], IndexOf(op, KeyOf(Added(bp, op)[i]));
      j < |op| && p == ClonePair(op[j])
  {
    var front, q := op[..|op| - 1], op[|op| - 1];
    FrontNoRepeats(op);
    KeyOfClone(q.key);
    if i < |Added(bp, front)| {
      FindAdded(bp, front, i);
      AddedKeys(bp, front, i);
      IndexOfFront(op, KeyOf(Added(bp, op)[i]));
    } else {
      IndexOfDistinct(op, |op| - 1);
    }
  }

  lemma DeepMergedKeys(bp: seq<Pair>, op: seq<Pair>, i: nat)
    requires i < |bp|
    ensures KeyOf(DeepMerged(bp, op)[i]) == KeyOf(bp[i])
  {
  }

  lemma {:induction false} AddedIncludes(bp: seq<Pair>, op: seq<Pair>, j: nat) returns (i: nat)
    requires j < |op| && KeyOf(op[j]) !in Keys(bp)
    ensures i < |Added(bp, op)| && KeyOf(Added(bp, op)[i]) == KeyOf(op[j])
  {
    var front := op[..|op| - 1];
    KeyOfClone(op[j].key);
    if j == |op| - 1 {
      i := |Added(bp, front)|;
    } else {
      i := AddedIncludes(bp, front, j);
    }
  }

  lemma FindShared(bp: seq<Pair>, op: seq<Pair>, k: string)
    requires NoRepeats(Keys(bp)) && NoRepeats(Keys(op)) && IndexOf(bp, k) < |bp|
    ensures var i, j := IndexOf(bp, k), IndexOf(op, k);
      Find(MergePairs(bp, op), k) == Some(if j < |op| then Merge(bp[i].val, op[j].val) else bp[i].val)
  {
    var m, i, j := MergePairs(bp, op), IndexOf(bp, k), IndexOf(op, k);
    MergeIsDeepMerge(bp, op);
    MergePairsDistinct(bp, op);
    DeepMergedKeys(bp, op, i);
    IndexOfDistinct(m, i);
    assert m[i] == Updated(bp[i], op);
    if j < |op| {
      assert m[i] == MergePair(bp[i], op[j]);
    }
  }

  lemma FindNew(bp: seq<Pair>, op: seq<Pair>, k: string)
    requires NoRepeats(Keys(bp)) && NoRepeats(Keys(op)) && IndexOf(bp, k) == |bp| && IndexOf(op, k) < |op|
    ensures Find(MergePairs(bp, op), k) == Some(Clone(op[IndexOf(op, k)].val))
  {
    var m, j := MergePairs(bp, op), IndexOf(op, k);
    IndexOfKeys(bp, k);
    var a := AddedIncludes(bp, op, j);
    FindAdded(bp, op, a);
    MergedAdded(bp, op, a);
    IndexOfDistinct(m, |bp| + a);
  }

  lemma MergedAdded(bp: seq<Pair>, op: seq<Pair>, a: nat)
    requires NoRepeats(Keys(bp)) && NoRepeats(Keys(op)) && a < |Added(bp, op)|
    ensures NoRepeats(Keys(MergePairs(bp, op)))
    ensures |bp| + a < |MergePairs(bp, op)| && MergePairs(bp, op)[|bp| + a] == Added(bp, op)[a]
  {
    MergeIsDeepMerge(bp, op);
    MergePairsDistinct(bp, op);
  }

  lemma FindNeither(bp: seq<Pair>, op: seq<Pair>, k: string)
    requires IndexOf(bp, k) == |bp| && IndexOf(op, k) == |op|
    ensures Find(MergePairs(bp, op), k) == None
  {
    MergePairsKeys(bp, op);
    IndexOfKeys(bp, k);
    IndexOfKeys(op, k);
    AddNewMembers(Keys(bp), Keys(op), k);
    IndexOfKeys(MergePairs(bp, op), k);
  }

  lemma {:induction false} AddNewMembers(known: seq<string>, ks: seq<string>, k: string)
    ensures k in AddNew(known, ks) <==> k in known || k in ks
  {
    if ks != [] {
      AddNewMembers(known, ks[..|ks| - 1], k);
      assert ks == ks[..|ks| - 1] + [ks[|ks| - 1]];
    }
  }

  /**
   Looking a key up in a merge: base-only keys are untouched, shared keys are merged, overlay-only
   keys are cloned, and no other key appears.
   */
  lemma FindInMerge(bp: seq<Pair>, op: seq<Pair>, k: string)
    requires NoRepeats(Keys(bp)) && NoRepeats(Keys(op))
    ensures Find(MergePairs(bp, op), k) ==
            match (Find(bp, k), Find(op, k))
            case (None, None) => None
            case (Some(b), None) => Some(b)
            case (None, Some(o)) => Some(Clone(o))
            case (Some(b), Some(o)) => Some(Merge(b, o))
  {
    if IndexOf(bp, k) < |bp| {
      FindShared(bp, op, k);
    } else if IndexOf(op, k) < |op| {
      FindNew(bp, op, k);
    } else {
      FindNeither(bp, op, k);
    }
  }

  // ---------------------------------------------------------------- re-applying an overlay

  /** Merging `op[i]` once more would not change what `m` has for its key. */
  ghost predicate Holds(m: seq<Pair>, p: Pair)
  {
    var i := IndexOf(m, KeyOf(p));
    i < |m| && Merge(m[i].val, p.val) == m[i].val
  }

  lemma IndexOfSameKeys(x: seq<Pair>, y: seq<Pair>, k: string)
    requires |x| <= |y| && forall i :: 0 <= i < |x| ==> KeyOf(x[i]) == KeyOf(y[i])
    requires forall i :: |x| <= i < |y| ==> KeyOf(y[i]) != k
    ensures IndexOf(y, k) == if IndexOf(x, k) < |x| then IndexOf(x, k) else |y|
  {
    var i, j := IndexOf(x, k), IndexOf(y, k);
    assert i < |x| ==> KeyOf(y[i]) == k;
    assert j < |x| ==> KeyOf(x[j]) == k;
  }

  lemma PutAt(m: seq<Pair>, p: Pair, i: nat)
    requires i < |m|
    ensures i < |Put(m, p)| && KeyOf(Put(m, p)[i]) == KeyOf(m[i])
    ensures KeyOf(m[i]) != KeyOf(p) ==> Put(m, p)[i] == m[i]
  {
  }

  lemma IndexOfPut(m: seq<Pair>, p: Pair, k: string)
    requires k != KeyOf(p)
    ensures Find(Put(m, p), k) == Find(m, k)
  {
    forall i | 0 <= i < |m|
      ensures KeyOf(m[i]) == KeyOf(Put(m, p)[i])
    {
      PutAt(m, p, i);
    }
    KeyOfClone(p.key);
    IndexOfSameKeys(m, Put(m, p), k);
    var i := IndexOf(m, k);
    if i < |m| {
      PutAt(m, p, i);
    }
  }

  /** With distinct keys in the overlay, re-applying it changes nothing. */
  lemma {:induction false} MergeIdempotent(b: Tree, o: Tree)
    requires Distinct(o)
    ensures Merge(Merge(b, o), o) == Merge(b, o)
    decreases o, 2
  {
    if o.Mapping? && b.Mapping? {
      ReapplyPairs(b.pairs, o.pairs);
    } else if o.Mapping? {
      MergeIntoClone(o);
    }
  }

  lemma {:induction false} MergeIntoClone(o: Tree)
    requires Distinct(o)
    ensures Merge(Clone(o), o) == Clone(o)
    decreases o, 1
  {
    if o.Mapping? {
      CloneMapping(o.head, o.pairs);
      forall i | 0 <= i < |o.pairs|
        ensures Holds(ClonePairs(o.pairs), o.pairs[i])
      {
        IndexOfClone(o.pairs, KeyOf(o.pairs[i]));
        IndexOfDistinct(o.pairs, i);
        MergeIntoClone(o.pairs[i].val);
      }
      HoldingChangesNothing(ClonePairs(o.pairs), o.pairs);
    }
  }

  lemma {:induction false} HoldingChangesNothing(m: seq<Pair>, op: seq<Pair>)
    requires forall i :: 0 <= i < |op| ==> Holds(m, op[i])
    ensures MergePairs(m, op) == m
  {
    if op != [] {
      HoldingChangesNothing(m, op[..|op| - 1]);
      var p := op[|op| - 1];
      assert Holds(m, p);
      var i := IndexOf(m, KeyOf(p));
      assert MergePair(m[i], p) == m[i];
    }
  }

  lemma {:induction false} ReapplyPairs(bp: seq<Pair>, op: seq<Pair>)
    requires DistinctPairs(op)
    ensures MergePairs(MergePairs(bp, op), op) == MergePairs(bp, op)
    decreases op, 1
  {
    forall i | 0 <= i < |op|
      ensures Holds(MergePairs(bp, op), op[i])
    {
      MergedHolds(bp, op, |op|, i);
      assert op[..|op|] == op;
    }
    HoldingChangesNothing(MergePairs(bp, op), op);
  }

  lemma {:induction false} MergedHolds(bp: seq<Pair>, op: seq<Pair>, n: nat, i: nat)
    requires DistinctPairs(op) && i < n <= |op|
    ensures Holds(MergePairs(bp, op[..n]), op[i])
    decreases op, 0, n
  {
    var front, m, p := op[..n - 1], MergePairs(bp, op[..n - 1]), op[n - 1];
    assert op[..n][..n - 1] == front;
    if i < n - 1 {
      MergedHolds(bp, op, n - 1, i);
      assert Keys(op)[i] != Keys(op)[n - 1];
      IndexOfPut(m, p, KeyOf(op[i]));
    } else {
      PutHolds(m, op[n - 1]);
    }
  }

  lemma PutIndex(m: seq<Pair>, p: Pair)
    ensures IndexOf(Put(m, p), KeyOf(p)) == IndexOf(m, KeyOf(p))
  {
    var m', i := Put(m, p), IndexOf(m, KeyOf(p));
    forall a | 0 <= a < |m|
      ensures KeyOf(m'[a]) == KeyOf(m[a])
    {
      PutAt(m, p, a);
    }
    KeyOfClone(p.key);
    var j := IndexOf(m', KeyOf(p));
    assert KeyOf(m'[i]) == KeyOf(p);
    assert j < |m| ==> KeyOf(m[j]) == KeyOf(p);
  }

  lemma {:induction false} PutHolds(m: seq<Pair>, p: Pair)
    requires Distinct(p.val)
    ensures Holds(Put(m, p), p)
    decreases p
  {
    PutIndex(m, p);
    var j := IndexOf(m, KeyOf(p));
    if j < |m| {
      MergeIdempotent(m[j].val, p.val);
    } else {
      MergeIntoClone(p.val);
    }
  }
}
