/**
 Grouping of keyed containers, the shape all levels of a telemetry payload share: a list of
 boxes, each with a head that determines its key and an ordered list of children.
 */
module Grouping {
  datatype Box<H, C> = Box(head: H, kids: seq<C>)

  /** The children of all boxes keyed `k`, in traversal order. */
  function Gather<H, C>(key: H -> string, xs: seq<Box<H, C>>, k: string): seq<C> {
    if xs == [] then []
    else
      var x := xs[|xs| - 1];
      Gather(key, xs[..|xs| - 1], k) + if key(x.head) == k then x.kids else []
  }

  /** The elements satisfying `p`, in order. */
  function Keep<T>(p: T -> bool, xs: seq<T>): seq<T> {
    if xs == [] then []
    else
      var x := xs[|xs| - 1];
      Keep(p, xs[..|xs| - 1]) + if p(x) then [x] else []
  }

  ghost predicate IsFirst<H, C>(key: H -> string, xs: seq<Box<H, C>>, i: nat)
    requires i < |xs|
  {
    forall j :: 0 <= j < i ==> key(xs[j].head) != key(xs[i].head)
  }

  ghost predicate DistinctKeys<H, C>(key: H -> string, xs: seq<Box<H, C>>) {
    forall i, j :: 0 <= i < j < |xs| ==> key(xs[i].head) != key(xs[j].head)
  }

  /** At most one box is keyed `k`. */
  ghost predicate UniqueKey<H, C>(key: H -> string, xs: seq<Box<H, C>>, k: string) {
    forall i, j :: 0 <= i < j < |xs| && key(xs[i].head) == k ==> key(xs[j].head) != k
  }

  ghost predicate HasKey<H, C>(key: H -> string, xs: seq<Box<H, C>>, k: string) {
    exists i :: 0 <= i < |xs| && key(xs[i].head) == k
  }

  /** The first box of a key holds the children of all its boxes, the others hold none. */
  ghost function MergedAt<H, C>(key: H -> string, xs: seq<Box<H, C>>, i: nat): Box<H, C>
    requires i < |xs|
  {
    xs[i].(kids := if IsFirst(key, xs, i) then Gather(key, xs, key(xs[i].head)) else [])
  }

  ghost function MergedAll<H, C>(key: H -> string, xs: seq<Box<H, C>>): seq<Box<H, C>> {
    seq(|xs|, i requires 0 <= i < |xs| => MergedAt(key, xs, i))
  }

  predicate HasKids<H, C>(x: Box<H, C>) {
    x.kids != []
  }

  /** Boxes merged by key into the first box of each key; boxes left without children are gone. */
  ghost function Grouped<H, C>(key: H -> string, xs: seq<Box<H, C>>): seq<Box<H, C>> {
    Keep(HasKids, MergedAll(key, xs))
  }

  /** Each box with its children replaced by `f` of them. */
  function MapKids<H, C, D>(xs: seq<Box<H, C>>, f: seq<C> -> seq<D>): (r: seq<Box<H, D>>)
    ensures |r| == |xs|
  {
    seq(|xs|, i requires 0 <= i < |xs| => Box(xs[i].head, f(xs[i].kids)))
  }

  // ---------------------------------------------------------------- Keep

  lemma {:induction false} KeepMembers<T>(p: T -> bool, xs: seq<T>, x: T)
    ensures x in Keep(p, xs) <==> x in xs && p(x)
  {
    if xs != [] {
      KeepMembers(p, xs[..|xs| - 1], x);
      assert xs == xs[..|xs| - 1] + [xs[|xs| - 1]];
    }
  }

  lemma KeepExtend<T>(p: T -> bool, xs: seq<T>, x: T)
    ensures Keep(p, xs + [x]) == Keep(p, xs) + if p(x) then [x] else []
  {
    assert (xs + [x])[..|xs|] == xs;
  }

  lemma {:induction false} KeepAll<T>(p: T -> bool, xs: seq<T>)
    requires forall i :: 0 <= i < |xs| ==> p(xs[i])
    ensures Keep(p, xs) == xs
  {
    if xs != [] {
      KeepAll(p, xs[..|xs| - 1]);
      assert xs == xs[..|xs| - 1] + [xs[|xs| - 1]];
    }
  }

  lemma {:induction false} KeepShrinks<T>(p: T -> bool, xs: seq<T>)
    ensures |Keep(p, xs)| <= |xs|
    ensures |Keep(p, xs)| == |xs| ==> forall i :: 0 <= i < |xs| ==> p(xs[i])
  {
    if xs != [] {
      KeepShrinks(p, xs[..|xs| - 1]);
    }
  }

  /** Two boxes of `xs` keyed `k` both satisfy `p`. */
  ghost predicate TwoKept<H, C>(key: H -> string, p: Box<H, C> -> bool, xs: seq<Box<H, C>>, k: string) {
    exists i, j :: 0 <= i < j < |xs| && p(xs[i]) && p(xs[j]) && key(xs[i].head) == k && key(xs[j].head) == k
  }

  lemma UniqueKeyExtend<H, C>(key: H -> string, xs: seq<Box<H, C>>, x: Box<H, C>, k: string)
    ensures UniqueKey(key, xs + [x], k) <==> UniqueKey(key, xs, k) && !(key(x.head) == k && HasKey(key, xs, k))
  {
    var all := xs + [x];
    assert forall i :: 0 <= i < |xs| ==> all[i] == xs[i];
    if UniqueKey(key, all, k) && HasKey(key, xs, k) {
      var i :| 0 <= i < |xs| && key(xs[i].head) == k;
      assert key(all[i].head) == k && all[|xs|] == x;
    }
  }

  /** A kept box has the key. */
  ghost predicate OneKept<H, C>(key: H -> string, p: Box<H, C> -> bool, xs: seq<Box<H, C>>, k: string) {
    exists i :: 0 <= i < |xs| && p(xs[i]) && key(xs[i].head) == k
  }

  lemma HasKeyKept<H, C>(key: H -> string, p: Box<H, C> -> bool, xs: seq<Box<H, C>>, k: string)
    ensures HasKey(key, Keep(p, xs), k) <==> OneKept(key, p, xs, k)
  {
    var kept := Keep(p, xs);
    if a :| 0 <= a < |kept| && key(kept[a].head) == k {
      KeepMembers(p, xs, kept[a]);
      var i :| 0 <= i < |xs| && xs[i] == kept[a];
      assert p(xs[i]) && key(xs[i].head) == k;
    }
    if i :| 0 <= i < |xs| && p(xs[i]) && key(xs[i].head) == k {
      KeepMembers(p, xs, xs[i]);
      var a :| 0 <= a < |kept| && kept[a] == xs[i];
    }
  }

  lemma TwoKeptExtend<H, C>(key: H -> string, p: Box<H, C> -> bool, xs: seq<Box<H, C>>, x: Box<H, C>, k: string)
    ensures TwoKept(key, p, xs + [x], k) <==> TwoKept(key, p, xs, k) || (p(x) && key(x.head) == k && OneKept(key, p, xs, k))
  {
    var all := xs + [x];
    assert forall i :: 0 <= i < |xs| ==> all[i] == xs[i];
    assert all[|xs|] == x;
    if TwoKept(key, p, xs, k) {
      var i, j :| 0 <= i < j < |xs| && p(xs[i]) && p(xs[j]) && key(xs[i].head) == k && key(xs[j].head) == k;
      assert p(all[i]) && p(all[j]) && key(all[i].head) == k && key(all[j].head) == k;
    }
    if p(x) && key(x.head) == k && OneKept(key, p, xs, k) {
      var i :| 0 <= i < |xs| && p(xs[i]) && key(xs[i].head) == k;
      assert p(all[i]) && key(all[i].head) == k && p(all[|xs|]) && key(all[|xs|].head) == k;
    }
  }

  lemma {:induction false} KeepUnique<H, C>(key: H -> string, p: Box<H, C> -> bool, xs: seq<Box<H, C>>, k: string)
    ensures UniqueKey(key, Keep(p, xs), k) <==> !TwoKept(key, p, xs, k)
  {
    if xs != [] {
      var front, x := xs[..|xs| - 1], xs[|xs| - 1];
      KeepUnique(key, p, front, k);
      assert xs == front + [x];
      TwoKeptExtend(key, p, front, x, k);
      HasKeyKept(key, p, front, k);
      UniqueKeyExtend(key, Keep(p, front), x, k);
      assert Keep(p, front) + [] == Keep(p, front);
    }
  }

  lemma DistinctIsUnique<H, C>(key: H -> string, xs: seq<Box<H, C>>)
    ensures DistinctKeys(key, xs) <==> forall k :: UniqueKey(key, xs, k)
  {
    if forall k :: UniqueKey(key, xs, k) {
      forall i, j | 0 <= i < j < |xs|
        ensures key(xs[i].head) != key(xs[j].head)
      {
        assert UniqueKey(key, xs, key(xs[i].head));
      }
    }
  }

  // ---------------------------------------------------------------- Gather

  lemma GatherExtend<H, C>(key: H -> string, xs: seq<Box<H, C>>, x: Box<H, C>, k: string)
    ensures Gather(key, xs + [x], k) == Gather(key, xs, k) + if key(x.head) == k then x.kids else []
  {
    assert (xs + [x])[..|xs|] == xs;
  }

  lemma {:induction false} GatherMembers<H, C>(key: H -> string, xs: seq<Box<H, C>>, k: string, c: C) returns (i: nat)
    requires c in Gather(key, xs, k)
    ensures i < |xs| && key(xs[i].head) == k && c in xs[i].kids
  {
    var n := |xs| - 1;
    if key(xs[n].head) == k && c in xs[n].kids {
      i := n;
    } else {
      i := GatherMembers(key, xs[..n], k, c);
    }
  }

  lemma {:induction false} GatherNone<H, C>(key: H -> string, xs: seq<Box<H, C>>, k: string)
    requires !HasKey(key, xs, k)
    ensures Gather(key, xs, k) == []
  {
    if xs != [] {
      var n := |xs| - 1;
      assert key(xs[n].head) != k;
      forall i | 0 <= i < n
        ensures key(xs[..n][i].head) != k
      {
        assert xs[..n][i] == xs[i];
      }
      GatherNone(key, xs[..n], k);
    }
  }

  /** Where a key is unique, gathering finds the one box. */
  lemma {:induction false} GatherOne<H, C>(key: H -> string, xs: seq<Box<H, C>>, i: nat)
    requires i < |xs| && UniqueKey(key, xs, key(xs[i].head))
    ensures Gather(key, xs, key(xs[i].head)) == xs[i].kids
  {
    var n := |xs| - 1;
    if i == n {
      GatherNone(key, xs[..n], key(xs[n].head));
    } else {
      assert xs[..n][i] == xs[i];
      GatherOne(key, xs[..n], i);
    }
  }

  /** Only the boxes keyed `k` matter to what is gathered for `k`. */
  lemma {:induction false} GatherAgree<H, C>(key: H -> string, xs: seq<Box<H, C>>, ys: seq<Box<H, C>>, k: string)
    requires |xs| == |ys|
    requires forall i :: 0 <= i < |xs| ==> xs[i].head == ys[i].head && (key(xs[i].head) == k ==> xs[i] == ys[i])
    ensures Gather(key, xs, k) == Gather(key, ys, k)
  {
    if xs != [] {
      GatherAgree(key, xs[..|xs| - 1], ys[..|ys| - 1], k);
    }
  }

  /** Dropping boxes without children changes nothing that is gathered. */
  lemma {:induction false} GatherKeep<H, C>(key: H -> string, p: Box<H, C> -> bool, xs: seq<Box<H, C>>, k: string)
    requires forall i :: 0 <= i < |xs| && !p(xs[i]) ==> xs[i].kids == []
    ensures Gather(key, Keep(p, xs), k) == Gather(key, xs, k)
  {
    if xs != [] {
      var front, x := xs[..|xs| - 1], xs[|xs| - 1];
      GatherKeep(key, p, front, k);
      if p(x) {
        GatherExtend(key, Keep(p, front), x, k);
      } else {
        assert Keep(p, xs) == Keep(p, front);
      }
    }
  }

  lemma HasKeyExtend<H, C>(key: H -> string, xs: seq<Box<H, C>>, x: Box<H, C>, k: string)
    ensures HasKey(key, xs + [x], k) <==> HasKey(key, xs, k) || key(x.head) == k
  {
    var ys := xs + [x];
    assert ys[|xs|] == x;
    if HasKey(key, xs, k) {
      var i :| 0 <= i < |xs| && key(xs[i].head) == k;
      assert key(ys[i].head) == k;
    }
  }

  lemma FirstIsNew<H, C>(key: H -> string, xs: seq<Box<H, C>>, i: nat)
    requires i < |xs|
    ensures IsFirst(key, xs, i) <==> !HasKey(key, xs[..i], key(xs[i].head))
  {
    var front := xs[..i];
    assert forall j :: 0 <= j < i ==> front[j] == xs[j];
  }

  ghost predicate HasKeyBelow<H, C>(key: H -> string, xs: seq<Box<H, C>>, k: string, n: nat)
    requires n <= |xs|
  {
    exists i :: 0 <= i < n && key(xs[i].head) == k
  }

  /** `ys` are the first boxes of the merge of `xs`. */
  ghost predicate MergedFront<H, C>(key: H -> string, xs: seq<Box<H, C>>, ys: seq<Box<H, C>>) {
    |ys| <= |xs| && forall i :: 0 <= i < |ys| ==> ys[i] == MergedAt(key, xs, i)
  }

  lemma {:induction false} GatherMergedFront<H, C>(key: H -> string, xs: seq<Box<H, C>>, k: string, ys: seq<Box<H, C>>)
    requires MergedFront(key, xs, ys)
    ensures Gather(key, ys, k) == if HasKeyBelow(key, xs, k, |ys|) then Gather(key, xs, k) else []
  {
    if ys != [] {
      var n := |ys| - 1;
      var before := Gather(key, ys[..n], k);
      GatherMergedFront(key, xs, k, ys[..n]);
      assert ys[n] == MergedAt(key, xs, n);
      if key(xs[n].head) != k {
        assert HasKeyBelow(key, xs, k, n + 1) <==> HasKeyBelow(key, xs, k, n);
        assert Gather(key, ys, k) == before;
      } else if HasKeyBelow(key, xs, k, n) {
        assert !IsFirst(key, xs, n);
        assert Gather(key, ys, k) == before;
      } else {
        assert IsFirst(key, xs, n);
        assert Gather(key, ys, k) == ys[n].kids;
      }
    }
  }

  /** Grouping loses no child, changes no order and moves none to another key. */
  lemma {:induction false} GatherGrouped<H, C>(key: H -> string, xs: seq<Box<H, C>>, k: string)
    ensures Gather(key, Grouped(key, xs), k) == Gather(key, xs, k)
  {
    var ys := MergedAll(key, xs);
    GatherKeep(key, HasKids, ys, k);
    GatherMergedFront(key, xs, k, ys);
    if !HasKey(key, xs, k) {
      GatherNone(key, xs, k);
    }
  }

  /** After grouping, keys are distinct and no box is without children. */
  lemma {:induction false} GroupedDistinct<H, C>(key: H -> string, xs: seq<Box<H, C>>)
    ensures DistinctKeys(key, Grouped(key, xs))
    ensures forall i :: 0 <= i < |Grouped(key, xs)| ==> HasKids(Grouped(key, xs)[i])
  {
    var ys := MergedAll(key, xs);
    forall i, j | 0 <= i < j < |ys| && HasKids(ys[i]) && HasKids(ys[j])
      ensures key(ys[i].head) != key(ys[j].head)
    {
      assert IsFirst(key, xs, j);
    }
    forall k
      ensures UniqueKey(key, Grouped(key, xs), k)
    {
      KeepUnique(key, HasKids, ys, k);
    }
    DistinctIsUnique(key, Grouped(key, xs));
    forall i | 0 <= i < |Grouped(key, xs)|
      ensures HasKids(Grouped(key, xs)[i])
    {
      KeepMembers(HasKids, ys, Grouped(key, xs)[i]);
    }
  }

  /** Distinct boxes that all have children are already grouped. */
  lemma {:induction false} GroupedFixpoint<H, C>(key: H -> string, xs: seq<Box<H, C>>)
    requires DistinctKeys(key, xs) && forall i :: 0 <= i < |xs| ==> HasKids(xs[i])
    ensures Grouped(key, xs) == xs
  {
    forall i | 0 <= i < |xs|
      ensures MergedAt(key, xs, i) == xs[i]
    {
      GatherOne(key, xs, i);
    }
    assert MergedAll(key, xs) == xs;
    KeepAll(HasKids, xs);
  }

  /** Where keys are distinct, grouping drops no box only if every box has children. */
  lemma GroupedSameSize<H, C>(key: H -> string, xs: seq<Box<H, C>>)
    requires DistinctKeys(key, xs) && |Grouped(key, xs)| == |xs|
    ensures forall i :: 0 <= i < |xs| ==> HasKids(xs[i])
  {
    KeepShrinks(HasKids, MergedAll(key, xs));
    forall i | 0 <= i < |xs|
      ensures HasKids(xs[i])
    {
      assert HasKids(MergedAll(key, xs)[i]);
      GatherOne(key, xs, i);
    }
  }

  /** Grouping leaves nothing exactly when no box has children. */
  lemma GroupedEmpty<H, C>(key: H -> string, xs: seq<Box<H, C>>)
    ensures Grouped(key, xs) == [] <==> forall i :: 0 <= i < |xs| ==> !HasKids(xs[i])
  {
    if Grouped(key, xs) != [] {
      var k := key(Grouped(key, xs)[0].head);
      assert HasKey(key, Grouped(key, xs), k);
      GroupedHasKey(key, xs, k);
      var i := GatherMembers(key, xs, k, Gather(key, xs, k)[0]);
      assert HasKids(xs[i]);
    } else {
      forall i | 0 <= i < |xs|
        ensures !HasKids(xs[i])
      {
        GroupedHasKey(key, xs, key(xs[i].head));
        GatherIncludes(key, xs, i);
      }
    }
  }

  lemma {:induction false} GatherIncludes<H, C>(key: H -> string, xs: seq<Box<H, C>>, i: nat)
    requires i < |xs|
    ensures |xs[i].kids| <= |Gather(key, xs, key(xs[i].head))|
  {
    if i < |xs| - 1 {
      GatherIncludes(key, xs[..|xs| - 1], i);
    }
  }

  lemma MapKidsSame<H, C>(xs: seq<Box<H, C>>, f: seq<C> -> seq<C>)
    requires forall i :: 0 <= i < |xs| ==> f(xs[i].kids) == xs[i].kids
    ensures MapKids(xs, f) == xs
  {
  }

  /** A key survives grouping exactly when some box of it has children. */
  lemma GroupedHasKey<H, C>(key: H -> string, xs: seq<Box<H, C>>, k: string)
    ensures HasKey(key, Grouped(key, xs), k) <==> Gather(key, xs, k) != []
  {
    var g := Grouped(key, xs);
    GatherGrouped(key, xs, k);
    GroupedDistinct(key, xs);
    if HasKey(key, g, k) {
      var i :| 0 <= i < |g| && key(g[i].head) == k;
      GatherOne(key, g, i);
    } else {
      GatherNone(key, g, k);
    }
  }

  lemma MapKidsKeys<H, C, D>(key: H -> string, xs: seq<Box<H, C>>, f: seq<C> -> seq<D>, k: string)
    ensures HasKey(key, MapKids(xs, f), k) <==> HasKey(key, xs, k)
    ensures UniqueKey(key, MapKids(xs, f), k) <==> UniqueKey(key, xs, k)
    ensures DistinctKeys(key, MapKids(xs, f)) <==> DistinctKeys(key, xs)
  {
    var ys := MapKids(xs, f);
    forall i | 0 <= i < |xs|
      ensures ys[i].head == xs[i].head
    {
    }
    if HasKey(key, xs, k) {
      var i :| 0 <= i < |xs| && key(xs[i].head) == k;
      assert key(ys[i].head) == k;
    }
    if HasKey(key, ys, k) {
      var i :| 0 <= i < |ys| && key(ys[i].head) == k;
      assert key(xs[i].head) == k;
    }
  }

  /** Working on the children of each box is working on what is gathered, where the key is unique. */
  lemma GatherMapKids<H, C, D>(key: H -> string, xs: seq<Box<H, C>>, f: seq<C> -> seq<D>, k: string)
    requires UniqueKey(key, xs, k) && f([]) == []
    ensures Gather(key, MapKids(xs, f), k) == f(Gather(key, xs, k))
  {
    var ys := MapKids(xs, f);
    MapKidsKeys(key, xs, f, k);
    if HasKey(key, xs, k) {
      var i :| 0 <= i < |xs| && key(xs[i].head) == k;
      GatherOne(key, xs, i);
      GatherOne(key, ys, i);
    } else {
      GatherNone(key, xs, k);
      GatherNone(key, ys, k);
    }
  }

  // ---------------------------------------------------------------- one more box

  lemma IsFirstExtend<H, C>(key: H -> string, xs: seq<Box<H, C>>, x: Box<H, C>, i: nat)
    requires i < |xs|
    ensures IsFirst(key, xs + [x], i) == IsFirst(key, xs, i)
  {
    var ys := xs + [x];
    assert forall j :: 0 <= j <= i ==> ys[j] == xs[j];
  }

  lemma FirstIsOnly<H, C>(key: H -> string, xs: seq<Box<H, C>>, f: nat, i: nat)
    requires f < |xs| && i < |xs| && IsFirst(key, xs, f) && IsFirst(key, xs, i) && key(xs[f].head) == key(xs[i].head)
    ensures f == i
  {
  }

  lemma MergedAtExtend<H, C>(key: H -> string, xs: seq<Box<H, C>>, x: Box<H, C>, i: nat)
    requires i < |xs|
    ensures MergedAt(key, xs + [x], i) ==
            var m := MergedAt(key, xs, i);
            if IsFirst(key, xs, i) && key(xs[i].head) == key(x.head) then m.(kids := m.kids + x.kids) else m
  {
    IsFirstExtend(key, xs, x, i);
    GatherExtend(key, xs, x, key(xs[i].head));
  }

  /** A box with a new key is appended as it is. */
  lemma MergedAllNew<H, C>(key: H -> string, xs: seq<Box<H, C>>, x: Box<H, C>)
    requires !HasKey(key, xs, key(x.head))
    ensures MergedAll(key, xs + [x]) == MergedAll(key, xs) + [x]
  {
    forall i | 0 <= i < |xs|
      ensures MergedAt(key, xs + [x], i) == MergedAt(key, xs, i)
    {
      MergedAtExtend(key, xs, x, i);
    }
    GatherNone(key, xs, key(x.head));
    GatherExtend(key, xs, x, key(x.head));
    assert IsFirst(key, xs + [x], |xs|);
    assert MergedAt(key, xs + [x], |xs|) == x;
  }

  /** A box with a known key gives its children to the first box of that key. */
  lemma MergedAllKnown<H, C>(key: H -> string, xs: seq<Box<H, C>>, x: Box<H, C>, f: nat)
    requires f < |xs| && IsFirst(key, xs, f) && key(xs[f].head) == key(x.head)
    ensures var ms := MergedAll(key, xs);
      MergedAll(key, xs + [x]) == ms[f := ms[f].(kids := ms[f].kids + x.kids)] + [x.(kids := [])]
  {
    forall i | 0 <= i < |xs|
      ensures MergedAt(key, xs + [x], i) == var m := MergedAt(key, xs, i); if i == f then m.(kids := m.kids + x.kids) else m
    {
      MergedAtExtend(key, xs, x, i);
      if IsFirst(key, xs, i) && key(xs[i].head) == key(x.head) {
        FirstIsOnly(key, xs, f, i);
      }
    }
    assert (xs + [x])[f] == xs[f];
    assert !IsFirst(key, xs + [x], |xs|);
  }

  // ---------------------------------------------------------------- only the first boxes

  /** The merged first boxes among the first `n`, in order. */
  ghost function FirstsUpTo<H, C>(key: H -> string, xs: seq<Box<H, C>>, n: nat): seq<Box<H, C>>
    requires n <= |xs|
  {
    if n == 0 then [] else FirstsUpTo(key, xs, n - 1) + if IsFirst(key, xs, n - 1) then [MergedAt(key, xs, n - 1)] else []
  }

  /** One box to a key, holding the children of all boxes of that key. */
  ghost function MergedFirsts<H, C>(key: H -> string, xs: seq<Box<H, C>>): seq<Box<H, C>> {
    FirstsUpTo(key, xs, |xs|)
  }

  lemma FirstsStep<H, C>(key: H -> string, xs: seq<Box<H, C>>, n: nat)
    requires n < |xs|
    ensures FirstsUpTo(key, xs, n + 1) ==
            if IsFirst(key, xs, n) then FirstsUpTo(key, xs, n) + [MergedAt(key, xs, n)] else FirstsUpTo(key, xs, n)
  {
  }

  lemma {:induction false} FirstsKeepKids<H, C>(key: H -> string, xs: seq<Box<H, C>>, ys: seq<Box<H, C>>)
    requires MergedFront(key, xs, ys)
    ensures Keep(HasKids, FirstsUpTo(key, xs, |ys|)) == Keep(HasKids, ys)
  {
    if ys != [] {
      var n := |ys| - 1;
      var front, y, fs := ys[..n], ys[n], FirstsUpTo(key, xs, n);
      FirstsKeepKids(key, xs, front);
      assert y == MergedAt(key, xs, n) && ys == front + [y];
      KeepExtend(HasKids, front, y);
      KeepExtend(HasKids, fs, y);
      FirstsStep(key, xs, n);
      if !IsFirst(key, xs, n) {
        assert !HasKids(y);
      }
    }
  }

  lemma FirstsMember<H, C>(key: H -> string, xs: seq<Box<H, C>>, n: nat, y: Box<H, C>) returns (i: nat)
    requires n <= |xs| && y in FirstsUpTo(key, xs, n)
    ensures i < n && IsFirst(key, xs, i) && y == MergedAt(key, xs, i)
  {
    if y in FirstsUpTo(key, xs, n - 1) {
      i := FirstsMember(key, xs, n - 1, y);
    } else {
      i := n - 1;
    }
  }

  lemma {:induction false} FirstsHaveKey<H, C>(key: H -> string, xs: seq<Box<H, C>>, n: nat, k: string)
    requires n <= |xs|
    ensures HasKey(key, FirstsUpTo(key, xs, n), k) <==> HasKey(key, xs[..n], k)
  {
    if n > 0 {
      FirstsHaveKey(key, xs, n - 1, k);
      assert xs[..n] == xs[..n - 1] + [xs[n - 1]];
      HasKeyExtend(key, xs[..n - 1], xs[n - 1], k);
      FirstIsNew(key, xs, n - 1);
      var fs := FirstsUpTo(key, xs, n - 1);
      if IsFirst(key, xs, n - 1) {
        HasKeyExtend(key, fs, MergedAt(key, xs, n - 1), k);
      } else {
        assert FirstsUpTo(key, xs, n) == fs;
      }
    }
  }

  lemma DistinctAppend<H, C>(key: H -> string, xs: seq<Box<H, C>>, x: Box<H, C>)
    requires DistinctKeys(key, xs) && !HasKey(key, xs, key(x.head))
    ensures DistinctKeys(key, xs + [x])
  {
  }

  lemma {:induction false} FirstsDistinct<H, C>(key: H -> string, xs: seq<Box<H, C>>, n: nat)
    requires n <= |xs|
    ensures DistinctKeys(key, FirstsUpTo(key, xs, n))
  {
    if n > 0 {
      FirstsDistinct(key, xs, n - 1);
      FirstsStep(key, xs, n - 1);
      if IsFirst(key, xs, n - 1) {
        FirstIsNew(key, xs, n - 1);
        FirstsHaveKey(key, xs, n - 1, key(xs[n - 1].head));
        DistinctAppend(key, FirstsUpTo(key, xs, n - 1), MergedAt(key, xs, n - 1));
      }
    }
  }

  function Absorb<H, C>(key: H -> string, y: Box<H, C>, x: Box<H, C>): Box<H, C> {
    if key(y.head) == key(x.head) then y.(kids := y.kids + x.kids) else y
  }

  /** `gs` is `fs` after `x` has been absorbed. */
  ghost predicate AfterAbsorbing<H, C>(key: H -> string, fs: seq<Box<H, C>>, gs: seq<Box<H, C>>, x: Box<H, C>) {
    |gs| == |fs| && forall a :: 0 <= a < |fs| ==> gs[a] == Absorb(key, fs[a], x)
  }

  lemma AfterAbsorbingAppend<H, C>(key: H -> string, fs: seq<Box<H, C>>, gs: seq<Box<H, C>>, x: Box<H, C>, f: Box<H, C>)
    requires AfterAbsorbing(key, fs, gs, x)
    ensures AfterAbsorbing(key, fs + [f], gs + [Absorb(key, f, x)], x)
  {
  }

  lemma FirstsStepExtended<H, C>(key: H -> string, xs: seq<Box<H, C>>, x: Box<H, C>, n: nat)
    requires n < |xs|
    ensures FirstsUpTo(key, xs + [x], n + 1) ==
            FirstsUpTo(key, xs + [x], n) + if IsFirst(key, xs, n) then [Absorb(key, MergedAt(key, xs, n), x)] else []
  {
    IsFirstExtend(key, xs, x, n);
    MergedAtExtend(key, xs, x, n);
  }

  lemma {:induction false} FirstsExtend<H, C>(key: H -> string, xs: seq<Box<H, C>>, x: Box<H, C>, n: nat)
    requires n <= |xs|
    ensures AfterAbsorbing(key, FirstsUpTo(key, xs, n), FirstsUpTo(key, xs + [x], n), x)
  {
    if n > 0 {
      var fs, gs := FirstsUpTo(key, xs, n - 1), FirstsUpTo(key, xs + [x], n - 1);
      FirstsExtend(key, xs, x, n - 1);
      FirstsStep(key, xs, n - 1);
      FirstsStepExtended(key, xs, x, n - 1);
      AfterAbsorbingMaybe(key, fs, gs, x, MergedAt(key, xs, n - 1), IsFirst(key, xs, n - 1));
    }
  }

  lemma AfterAbsorbingMaybe<H, C>(key: H -> string, fs: seq<Box<H, C>>, gs: seq<Box<H, C>>, x: Box<H, C>, f: Box<H, C>, more: bool)
    requires AfterAbsorbing(key, fs, gs, x)
    ensures AfterAbsorbing(key, if more then fs + [f] else fs, if more then gs + [Absorb(key, f, x)] else gs, x)
    ensures gs + [] == gs
  {
    AfterAbsorbingAppend(key, fs, gs, x, f);
  }

  /** A box with a new key becomes a box of its own. */
  lemma MergedFirstsNew<H, C>(key: H -> string, xs: seq<Box<H, C>>, x: Box<H, C>)
    requires !HasKey(key, MergedFirsts(key, xs), key(x.head))
    ensures MergedFirsts(key, xs + [x]) == MergedFirsts(key, xs) + [x]
  {
    FirstsExtend(key, xs, x, |xs|);
    assert xs[..|xs|] == xs;
    FirstsHaveKey(key, xs, |xs|, key(x.head));
    MergedAllNew(key, xs, x);
    assert MergedAt(key, xs + [x], |xs|) == MergedAll(key, xs + [x])[|xs|];
    assert IsFirst(key, xs + [x], |xs|);
    assert FirstsUpTo(key, xs + [x], |xs|) == MergedFirsts(key, xs);
  }

  /** A box with a known key gives its children to the box of that key. */
  lemma MergedFirstsKnown<H, C>(key: H -> string, xs: seq<Box<H, C>>, x: Box<H, C>, a: nat)
    requires a < |MergedFirsts(key, xs)| && key(MergedFirsts(key, xs)[a].head) == key(x.head)
    ensures var fs := MergedFirsts(key, xs);
      MergedFirsts(key, xs + [x]) == fs[a := fs[a].(kids := fs[a].kids + x.kids)]
  {
    var fs, gs := MergedFirsts(key, xs), FirstsUpTo(key, xs + [x], |xs|);
    FirstsExtend(key, xs, x, |xs|);
    FirstsDistinct(key, xs, |xs|);
    assert gs == fs[a := fs[a].(kids := fs[a].kids + x.kids)];
    var i := FirstsMember(key, xs, |xs|, fs[a]);
    assert (xs + [x])[i] == xs[i];
    assert !IsFirst(key, xs + [x], |xs|);
  }

  /** The two keys tell the same boxes of `xs` apart. */
  ghost predicate KeysAgree<H, C>(key: H -> string, hash: H -> string, xs: seq<Box<H, C>>) {
    forall i, j :: 0 <= i < |xs| && 0 <= j < |xs| ==>
      (key(xs[i].head) == key(xs[j].head) <==> hash(xs[i].head) == hash(xs[j].head))
  }

  lemma {:induction false} GatherKeysAgree<H, C>(key: H -> string, hash: H -> string, xs: seq<Box<H, C>>, i: nat, n: nat)
    requires KeysAgree(key, hash, xs) && i < |xs| && n <= |xs|
    ensures Gather(key, xs[..n], key(xs[i].head)) == Gather(hash, xs[..n], hash(xs[i].head))
  {
    if n > 0 {
      GatherKeysAgree(key, hash, xs, i, n - 1);
      assert xs[..n][..n - 1] == xs[..n - 1];
    }
  }

  /**
   Dropping the boxes without children from the one-box-per-key merge gives the grouping, even
   when it was made under another key that tells the same boxes apart.
   */
  lemma FirstsAreGrouped<H, C>(key: H -> string, hash: H -> string, xs: seq<Box<H, C>>)
    requires KeysAgree(key, hash, xs)
    ensures Keep(HasKids, MergedFirsts(hash, xs)) == Grouped(key, xs)
  {
    forall i | 0 <= i < |xs|
      ensures MergedAt(hash, xs, i) == MergedAt(key, xs, i)
    {
      GatherKeysAgree(key, hash, xs, i, |xs|);
      assert xs[..|xs|] == xs;
      assert IsFirst(hash, xs, i) == IsFirst(key, xs, i);
    }
    assert MergedAll(hash, xs) == MergedAll(key, xs);
    FirstsKeepKids(hash, xs, MergedAll(hash, xs));
  }

  // ---------------------------------------------------------------- first element of each key

  ghost predicate Holds<T>(key: T -> string, xs: seq<T>, k: string) {
    exists i :: 0 <= i < |xs| && key(xs[i]) == k
  }

  /** The elements whose key no earlier element has. */
  ghost function FirstPerKey<T>(key: T -> string, xs: seq<T>): seq<T> {
    if xs == [] then []
    else
      var front, x := xs[..|xs| - 1], xs[|xs| - 1];
      FirstPerKey(key, front) + if Holds(key, front, key(x)) then [] else [x]
  }

  /** The elements keyed `k`, in order. */
  function WithKey<T>(key: T -> string, xs: seq<T>, k: string): seq<T> {
    if xs == [] then []
    else WithKey(key, xs[..|xs| - 1], k) + if key(xs[|xs| - 1]) == k then [xs[|xs| - 1]] else []
  }

  function Take1<T>(xs: seq<T>): seq<T> {
    if xs == [] then [] else [xs[0]]
  }

  lemma HoldsExtend<T>(key: T -> string, xs: seq<T>, x: T, k: string)
    ensures Holds(key, xs + [x], k) <==> Holds(key, xs, k) || key(x) == k
  {
    var ys := xs + [x];
    assert ys[|xs|] == x;
    if Holds(key, xs, k) {
      var i :| 0 <= i < |xs| && key(xs[i]) == k;
      assert key(ys[i]) == k;
    }
  }

  lemma FirstPerKeyExtend<T>(key: T -> string, xs: seq<T>, x: T)
    ensures FirstPerKey(key, xs + [x]) == FirstPerKey(key, xs) + if Holds(key, xs, key(x)) then [] else [x]
  {
    assert (xs + [x])[..|xs|] == xs;
  }

  lemma WithKeyExtend<T>(key: T -> string, xs: seq<T>, x: T, k: string)
    ensures WithKey(key, xs + [x], k) == WithKey(key, xs, k) + if key(x) == k then [x] else []
  {
    assert (xs + [x])[..|xs|] == xs;
  }

  lemma {:induction false} WithKeyAppend<T>(key: T -> string, a: seq<T>, b: seq<T>, k: string)
    ensures WithKey(key, a + b, k) == WithKey(key, a, k) + WithKey(key, b, k)
  {
    if b == [] {
      assert a + b == a;
    } else {
      var front, x := b[..|b| - 1], b[|b| - 1];
      WithKeyAppend(key, a, front, k);
      WithKeyExtend(key, a + front, x, k);
      assert a + b == a + front + [x];
    }
  }

  lemma {:induction false} HoldsWithKey<T>(key: T -> string, xs: seq<T>, k: string)
    ensures Holds(key, xs, k) <==> WithKey(key, xs, k) != []
  {
    if xs != [] {
      var front, x := xs[..|xs| - 1], xs[|xs| - 1];
      HoldsWithKey(key, front, k);
      HoldsExtend(key, front, x, k);
      assert xs == front + [x];
    }
  }

  /** Of each key exactly the first element stays. */
  lemma {:induction false} FirstPerKeyTakes1<T>(key: T -> string, xs: seq<T>, k: string)
    ensures WithKey(key, FirstPerKey(key, xs), k) == Take1(WithKey(key, xs, k))
  {
    if xs != [] {
      var front, x := xs[..|xs| - 1], xs[|xs| - 1];
      FirstPerKeyTakes1(key, front, k);
      HoldsWithKey(key, front, key(x));
      if Holds(key, front, key(x)) {
        assert FirstPerKey(key, xs) == FirstPerKey(key, front);
      } else {
        WithKeyExtend(key, FirstPerKey(key, front), x, k);
      }
    }
  }

  lemma {:induction false} FirstPerKeyFixpoint<T>(key: T -> string, xs: seq<T>)
    requires forall k :: |WithKey(key, xs, k)| <= 1
    ensures FirstPerKey(key, xs) == xs
  {
    if xs != [] {
      var front, x := xs[..|xs| - 1], xs[|xs| - 1];
      forall k
        ensures |WithKey(key, front, k)| <= 1
      {
        assert |WithKey(key, xs, k)| <= 1;
      }
      FirstPerKeyFixpoint(key, front);
      HoldsWithKey(key, front, key(x));
      assert |WithKey(key, xs, key(x))| <= 1;
      assert xs == front + [x];
    }
  }

  lemma FirstPerKeyIdempotent<T>(key: T -> string, xs: seq<T>)
    ensures FirstPerKey(key, FirstPerKey(key, xs)) == FirstPerKey(key, xs)
  {
    forall k
      ensures |WithKey(key, FirstPerKey(key, xs), k)| <= 1
    {
      FirstPerKeyTakes1(key, xs, k);
    }
    FirstPerKeyFixpoint(key, FirstPerKey(key, xs));
  }

  lemma FirstPerKeyEmpty<T>(key: T -> string, xs: seq<T>)
    ensures FirstPerKey(key, xs) == [] <==> xs == []
  {
    if xs != [] {
      var k := key(xs[0]);
      assert Holds(key, xs, k);
      HoldsWithKey(key, xs, k);
      FirstPerKeyTakes1(key, xs, k);
    }
  }
}
