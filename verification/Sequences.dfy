/** Sequences without repeats, and sorting under a total order. */
module Sequences {
  ghost predicate NoRepeats<T>(xs: seq<T>) {
    forall i, j :: 0 <= i < j < |xs| ==> xs[i] != xs[j]
  }

  ghost predicate TotalOrder<T(!new)>(leq: (T, T) -> bool) {
    && (forall a, b :: leq(a, b) || leq(b, a))
    && (forall a, b :: leq(a, b) && leq(b, a) ==> a == b)
    && (forall a, b, c :: leq(a, b) && leq(b, c) ==> leq(a, c))
  }

  ghost predicate Sorted<T>(leq: (T, T) -> bool, xs: seq<T>) {
    forall i, j :: 0 <= i < j < |xs| ==> leq(xs[i], xs[j])
  }

  function Insert<T>(leq: (T, T) -> bool, x: T, xs: seq<T>): seq<T> {
    if xs == [] then [x]
    else if leq(x, xs[0]) then [x] + xs
    else [xs[0]] + Insert(leq, x, xs[1..])
  }

  /** What a library sort leaves in the slice. */
  function Sort<T>(leq: (T, T) -> bool, xs: seq<T>): seq<T> {
    if xs == [] then [] else Insert(leq, xs[0], Sort(leq, xs[1..]))
  }

  lemma SortedBehind<T(!new)>(leq: (T, T) -> bool, x: T, xs: seq<T>)
    requires Sorted(leq, xs) && forall j :: 0 <= j < |xs| ==> leq(x, xs[j])
    ensures Sorted(leq, [x] + xs)
  {
  }

  lemma SortedHead<T(!new)>(leq: (T, T) -> bool, x: T, xs: seq<T>)
    requires TotalOrder(leq) && Sorted(leq, xs) && xs != [] && leq(x, xs[0])
    ensures Sorted(leq, [x] + xs)
  {
    forall j | 0 <= j < |xs|
      ensures leq(x, xs[j])
    {
      assert j > 0 ==> leq(xs[0], xs[j]);
    }
    SortedBehind(leq, x, xs);
  }

  lemma {:induction false} InsertMultiset<T>(leq: (T, T) -> bool, x: T, xs: seq<T>)
    ensures multiset(Insert(leq, x, xs)) == multiset(xs) + multiset{x}
  {
    if xs != [] {
      InsertMultiset(leq, x, xs[1..]);
      assert xs == [xs[0]] + xs[1..];
    }
  }

  lemma {:induction false} InsertSorted<T(!new)>(leq: (T, T) -> bool, x: T, xs: seq<T>)
    requires TotalOrder(leq) && Sorted(leq, xs)
    ensures Sorted(leq, Insert(leq, x, xs)) && multiset(Insert(leq, x, xs)) == multiset(xs) + multiset{x}
  {
    InsertMultiset(leq, x, xs);
    if xs == [] {
    } else if leq(x, xs[0]) {
      SortedHead(leq, x, xs);
    } else {
      var rest := Insert(leq, x, xs[1..]);
      InsertSorted(leq, x, xs[1..]);
      forall j | 0 <= j < |rest|
        ensures leq(xs[0], rest[j])
      {
        assert rest[j] in multiset(rest);
        assert rest[j] in xs[1..] || rest[j] == x;
      }
      SortedBehind(leq, xs[0], rest);
    }
  }

  lemma {:induction false} SortSorts<T(!new)>(leq: (T, T) -> bool, xs: seq<T>)
    requires TotalOrder(leq)
    ensures Sorted(leq, Sort(leq, xs)) && multiset(Sort(leq, xs)) == multiset(xs)
  {
    if xs != [] {
      SortSorts(leq, xs[1..]);
      InsertSorted(leq, xs[0], Sort(leq, xs[1..]));
      assert xs == [xs[0]] + xs[1..];
    }
  }

  lemma SameMembers<T>(a: seq<T>, b: seq<T>, x: T)
    requires multiset(a) == multiset(b)
    ensures x in a <==> x in b
  {
    assert x in a <==> x in multiset(a);
    assert x in b <==> x in multiset(b);
  }

  lemma SameLength<T>(a: seq<T>, b: seq<T>)
    requires multiset(a) == multiset(b)
    ensures |a| == |b|
  {
    assert |multiset(a)| == |a| && |multiset(b)| == |b|;
  }

  lemma {:induction false} NoRepeatsMultiset<T>(xs: seq<T>, x: T)
    ensures NoRepeats(xs) ==> multiset(xs)[x] == if x in xs then 1 else 0
    ensures x in xs ==> multiset(xs)[x] >= 1
  {
    if xs != [] {
      NoRepeatsMultiset(xs[1..], x);
      assert xs == [xs[0]] + xs[1..];
      assert NoRepeats(xs) ==> forall i :: 0 < i < |xs| ==> xs[i] != xs[0];
    }
  }

  lemma TwiceInMultiset<T>(xs: seq<T>, i: nat, j: nat)
    requires i < j < |xs| && xs[i] == xs[j]
    ensures multiset(xs)[xs[i]] >= 2
  {
    assert xs == xs[..j] + xs[j..];
    NoRepeatsMultiset(xs[..j], xs[i]);
    NoRepeatsMultiset(xs[j..], xs[i]);
    assert xs[..j][i] == xs[i] && xs[j..][0] == xs[i];
  }

  /** A rearrangement of a sequence without repeats has no repeats. */
  lemma NoRepeatsRearranged<T>(a: seq<T>, b: seq<T>)
    requires multiset(a) == multiset(b) && NoRepeats(a)
    ensures NoRepeats(b)
  {
    forall i, j | 0 <= i < j < |b|
      ensures b[i] != b[j]
    {
      if b[i] == b[j] {
        TwiceInMultiset(b, i, j);
        NoRepeatsMultiset(a, b[i]);
      }
    }
  }

  lemma HeadIsLeast<T(!new)>(leq: (T, T) -> bool, a: seq<T>, b: seq<T>)
    requires TotalOrder(leq) && a != [] && b != [] && Sorted(leq, a) && multiset(a) == multiset(b)
    ensures leq(a[0], b[0])
  {
    assert b[0] in multiset(a);
    assert leq(a[0], a[0]);
  }

  lemma TailMultiset<T>(a: seq<T>)
    requires a != []
    ensures a == [a[0]] + a[1..] && multiset(a[1..]) == multiset(a) - multiset{a[0]}
  {
    assert a == [a[0]] + a[1..];
  }

  /** There is one sorted arrangement. */
  lemma {:induction false} SortedUnique<T(!new)>(leq: (T, T) -> bool, a: seq<T>, b: seq<T>)
    requires TotalOrder(leq) && Sorted(leq, a) && Sorted(leq, b) && multiset(a) == multiset(b)
    ensures a == b
  {
    SameLength(a, b);
    if a != [] {
      HeadIsLeast(leq, a, b);
      HeadIsLeast(leq, b, a);
      TailMultiset(a);
      TailMultiset(b);
      SortedUnique(leq, a[1..], b[1..]);
    }
  }

  lemma AppendAssociates<T>(x: seq<T>, y: seq<T>, z: seq<T>)
    ensures (x + y) + z == x + (y + z)
  {
  }

  lemma AppendNothing<T>(x: seq<T>)
    ensures x + [] == x
  {
  }

  // ---------------------------------------------------------------- filtering images

  /** The images of the elements under `f` that satisfy `p`, in order. */
  function KeepMapped<S, T>(f: S -> T, p: T -> bool, xs: seq<S>): seq<T> {
    if xs == [] then []
    else
      var y := f(xs[|xs| - 1]);
      KeepMapped(f, p, xs[..|xs| - 1]) + if p(y) then [y] else []
  }

  lemma KeepMappedTurn<S, T>(f: S -> T, p: T -> bool, xs: seq<S>, i: nat)
    requires i < |xs|
    ensures KeepMapped(f, p, xs[..i + 1]) == KeepMapped(f, p, xs[..i]) + if p(f(xs[i])) then [f(xs[i])] else []
  {
    assert xs[..i + 1][..i] == xs[..i];
  }

  lemma {:induction false} KeepMappedMembers<S, T>(f: S -> T, p: T -> bool, xs: seq<S>, y: T)
    ensures y in KeepMapped(f, p, xs) <==> p(y) && exists i :: 0 <= i < |xs| && f(xs[i]) == y
  {
    if xs != [] {
      var n := |xs| - 1;
      KeepMappedMembers(f, p, xs[..n], y);
      if i :| 0 <= i < n && f(xs[..n][i]) == y {
        assert f(xs[i]) == y;
      }
      assert forall i :: 0 <= i < n ==> xs[..n][i] == xs[i];
    }
  }

  lemma KeepMappedNonempty<S, T>(f: S -> T, p: T -> bool, xs: seq<S>)
    ensures KeepMapped(f, p, xs) != [] <==> exists x :: x in xs && p(f(x))
  {
    var ys := KeepMapped(f, p, xs);
    if ys != [] {
      assert ys[0] in ys;
      KeepMappedMembers(f, p, xs, ys[0]);
      var i :| 0 <= i < |xs| && f(xs[i]) == ys[0];
      assert xs[i] in xs;
    }
    if x :| x in xs && p(f(x)) {
      KeepMappedMembers(f, p, xs, f(x));
    }
  }

  lemma KeepMappedBoth<T>(f: T -> T, p: T -> bool, x: T, y: T)
    requires f(x) == x && f(y) == y && p(x) && p(y)
    ensures KeepMapped(f, p, [x, y]) == [x, y]
  {
    KeepMappedTurn(f, p, [x, y], 0);
    KeepMappedTurn(f, p, [x, y], 1);
    assert [x, y][..0] == [] && [x, y][..2] == [x, y];
  }

  ghost predicate Follows<T>(before: (T, T) -> bool, xs: seq<T>) {
    forall i, j :: 0 <= i < j < |xs| ==> before(xs[i], xs[j])
  }

  lemma LastOfFollowing<T>(before: (T, T) -> bool, xs: seq<T>, x: T)
    requires Follows(before, xs) && x in xs
    ensures x == xs[|xs| - 1] || before(x, xs[|xs| - 1])
  {
    var i :| 0 <= i < |xs| && xs[i] == x;
    assert i < |xs| - 1 ==> before(xs[i], xs[|xs| - 1]);
  }

  /** What holds between any two elements in order holds between those kept. */
  lemma {:induction false} KeepMappedFollows<T>(f: T -> T, p: T -> bool, before: (T, T) -> bool, xs: seq<T>)
    requires Follows(before, xs) && forall i :: 0 <= i < |xs| ==> f(xs[i]) == xs[i]
    ensures Follows(before, KeepMapped(f, p, xs))
  {
    if xs != [] {
      var front, last := xs[..|xs| - 1], xs[|xs| - 1];
      var kept := KeepMapped(f, p, front);
      KeepMappedFollows(f, p, before, front);
      forall i | 0 <= i < |kept|
        ensures before(kept[i], last)
      {
        KeepMappedMembers(f, p, front, kept[i]);
        var j :| 0 <= j < |front| && f(front[j]) == kept[i];
        assert xs[j] == kept[i];
      }
    }
  }

  // ---------------------------------------------------------------- concatenating images

  /** The images of the elements under `f`, one behind the other. */
  function ConcatMap<S, T>(f: S -> seq<T>, xs: seq<S>): seq<T> {
    if xs == [] then [] else ConcatMap(f, xs[..|xs| - 1]) + f(xs[|xs| - 1])
  }

  lemma ConcatMapTurn<S, T>(f: S -> seq<T>, xs: seq<S>, i: nat)
    requires i < |xs|
    ensures ConcatMap(f, xs[..i + 1]) == ConcatMap(f, xs[..i]) + f(xs[i])
  {
    assert xs[..i + 1][..i] == xs[..i];
  }

  lemma ConcatMapExtend<S, T>(f: S -> seq<T>, xs: seq<S>, x: S)
    ensures ConcatMap(f, xs + [x]) == ConcatMap(f, xs) + f(x)
  {
    assert (xs + [x])[..|xs|] == xs;
  }

  lemma {:induction false} ConcatMapAppend<S, T>(f: S -> seq<T>, a: seq<S>, b: seq<S>)
    ensures ConcatMap(f, a + b) == ConcatMap(f, a) + ConcatMap(f, b)
  {
    if b == [] {
      assert a + b == a;
    } else {
      var front, x := b[..|b| - 1], b[|b| - 1];
      ConcatMapAppend(f, a, front);
      ConcatMapExtend(f, a + front, x);
      assert a + b == (a + front) + [x];
      AppendAssociates(ConcatMap(f, a), ConcatMap(f, front), f(x));
    }
  }

  /** Each image is a part of the concatenation. */
  lemma {:induction false} ConcatMapHolds<S, T>(f: S -> seq<T>, xs: seq<S>, x: S) returns (before: seq<T>, after: seq<T>)
    requires x in xs
    ensures ConcatMap(f, xs) == before + f(x) + after
  {
    var front, last := xs[..|xs| - 1], xs[|xs| - 1];
    if x == last {
      before, after := ConcatMap(f, front), [];
    } else {
      assert xs == front + [last];
      before, after := ConcatMapHolds(f, front, x);
      AppendAssociates(before + f(x), after, f(last));
      after := after + f(last);
    }
  }
}
