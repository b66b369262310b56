/**
 Overlay merge on YAML trees.  A mapping node is a list of key and value nodes in order; every
 other node (scalar, sequence, document) carries its children as they are.
 */
module YamlTree {
  import opened Sequences

  /** The fields of a node that a clone copies; a clone's anchor is cleared. */
  datatype Head = Head(value: string, tag: string, style: int, anchor: string)

  datatype Kind = DocumentNode | SequenceNode | ScalarNode

  datatype Tree =
    | Mapping(head: Head, pairs: seq<Pair>)
    | Other(kind: Kind, head: Head, items: seq<Tree>)

  datatype Pair = Pair(key: Tree, val: Tree)

  function KeyOf(p: Pair): string {
    p.key.head.value
  }

  function Unanchored(h: Head): Head {
    h.(anchor := "")
  }

  function Clone(t: Tree): Tree
    decreases t
  {
    match t
    case Mapping(h, ps) => Mapping(Unanchored(h), seq(|ps|, i requires 0 <= i < |ps| => Pair(Clone(ps[i].key), Clone(ps[i].val))))
    case Other(k, h, ts) => Other(k, Unanchored(h), seq(|ts|, i requires 0 <= i < |ts| => Clone(ts[i])))
  }

  function ClonePair(p: Pair): Pair {
    Pair(Clone(p.key), Clone(p.val))
  }

  function ClonePairs(ps: seq<Pair>): (r: seq<Pair>)
    ensures |r| == |ps|
  {
    seq(|ps|, i requires 0 <= i < |ps| => ClonePair(ps[i]))
  }

  /** The position of the first pair with key `k`, or the number of pairs. */
  function IndexOf(ps: seq<Pair>, k: string): (i: nat)
    ensures i <= |ps|
    ensures i < |ps| ==> KeyOf(ps[i]) == k
    ensures forall j :: 0 <= j < i ==> KeyOf(ps[j]) != k
  {
    if ps == [] then 0
    else
      var i := IndexOf(ps[..|ps| - 1], k);
      if i < |ps| - 1 then i else if KeyOf(ps[|ps| - 1]) == k then |ps| - 1 else |ps|
  }

  function Merge(b: Tree, o: Tree): Tree
    decreases o
  {
    if b.Mapping? && o.Mapping? then b.(pairs := MergePairs(b.pairs, o.pairs)) else Clone(o)
  }

  function MergePairs(bp: seq<Pair>, op: seq<Pair>): seq<Pair>
    decreases op
  {
    if op == [] then bp else Put(MergePairs(bp, op[..|op| - 1]), op[|op| - 1])
  }

  /** One overlay pair: merged into the first pair of its key, or cloned to the end. */
  function Put(bp: seq<Pair>, p: Pair): seq<Pair>
    decreases p, 1
  {
    var i := IndexOf(bp, KeyOf(p));
    if i < |bp| then bp[i := MergePair(bp[i], p)] else bp + [ClonePair(p)]
  }

  /** The base keeps its key node. */
  function MergePair(b: Pair, o: Pair): (r: Pair)
    ensures r.key == b.key
    decreases o, 0
  {
    Pair(b.key, Merge(b.val, o.val))
  }

  // ---------------------------------------------------------------- keys

  function Keys(ps: seq<Pair>): (r: seq<string>)
    ensures |r| == |ps|
  {
    seq(|ps|, i requires 0 <= i < |ps| => KeyOf(ps[i]))
  }

  /** `known` and then the elements of `ks` not seen before, in order of first occurrence. */
  function AddNew(known: seq<string>, ks: seq<string>): seq<string> {
    if ks == [] then known
    else
      var r, k := AddNew(known, ks[..|ks| - 1]), ks[|ks| - 1];
      if k in r then r else r + [k]
  }

  lemma KeyOfClone(t: Tree)
    ensures Clone(t).head.value == t.head.value
  {
  }

  lemma IndexOfKeys(ps: seq<Pair>, k: string)
    ensures IndexOf(ps, k) < |ps| <==> k in Keys(ps)
  {
    assert IndexOf(ps, k) < |ps| ==> Keys(ps)[IndexOf(ps, k)] == k;
    if k in Keys(ps) {
      var i :| 0 <= i < |ps| && Keys(ps)[i] == k;
      assert KeyOf(ps[i]) == k;
    }
  }

  /** Result keys are the base's in their order and then the overlay's new ones in theirs. */
  lemma {:induction false} MergePairsKeys(bp: seq<Pair>, op: seq<Pair>)
    ensures Keys(MergePairs(bp, op)) == AddNew(Keys(bp), Keys(op))
  {
    if op != [] {
      var front, p := op[..|op| - 1], op[|op| - 1];
      var m := MergePairs(bp, front);
      MergePairsKeys(bp, front);
      assert Keys(op)[..|op| - 1] == Keys(front);
      IndexOfKeys(m, KeyOf(p));
      KeyOfClone(p.key);
      assert Keys(Put(m, p)) == if KeyOf(p) in Keys(m) then Keys(m) else Keys(m) + [KeyOf(p)];
    } else {
      assert Keys(op) == [];
    }
  }

  lemma {:induction false} AddNewNoRepeats(known: seq<string>, ks: seq<string>)
    requires NoRepeats(known)
    ensures NoRepeats(AddNew(known, ks))
  {
    if ks != [] {
      AddNewNoRepeats(known, ks[..|ks| - 1]);
    }
  }

  /** Distinct base keys stay distinct, whatever the overlay repeats. */
  lemma MergePairsDistinct(bp: seq<Pair>, op: seq<Pair>)
    requires NoRepeats(Keys(bp))
    ensures NoRepeats(Keys(MergePairs(bp, op)))
  {
    MergePairsKeys(bp, op);
    AddNewNoRepeats(Keys(bp), Keys(op));
  }

  /** No mapping of the tree repeats a key. */
  ghost predicate Distinct(t: Tree)
    decreases t
  {
    match t
    case Mapping(_, ps) =>
      && NoRepeats(Keys(ps))
      && (forall i :: 0 <= i < |ps| ==> Distinct(ps[i].key) && Distinct(ps[i].val))
    case Other(_, _, ts) => forall i :: 0 <= i < |ts| ==> Distinct(ts[i])
  }

  ghost predicate DistinctPairs(ps: seq<Pair>) {
    NoRepeats(Keys(ps)) && forall i :: 0 <= i < |ps| ==> Distinct(ps[i].key) && Distinct(ps[i].val)
  }

  // ---------------------------------------------------------------- clones

  /** The same value, tag and style, and no anchor. */
  ghost predicate HeadCopied(c: Head, h: Head) {
    c.value == h.value && c.tag == h.tag && c.style == h.style && c.anchor == ""
  }

  /** Node by node: the same kind, the head copied, as many children, and each of them copied. */
  ghost predicate Copies(c: Tree, t: Tree)
    decreases t
  {
    match t
    case Mapping(h, ps) =>
      && c.Mapping? && HeadCopied(c.head, h) && |c.pairs| == |ps|
      && forall i :: 0 <= i < |ps| ==> Copies(c.pairs[i].key, ps[i].key) && Copies(c.pairs[i].val, ps[i].val)
    case Other(k, h, ts) =>
      && c.Other? && c.kind == k && HeadCopied(c.head, h) && |c.items| == |ts|
      && forall i :: 0 <= i < |ts| ==> Copies(c.items[i], ts[i])
  }

  /** The clone copies the tree node by node. */
  lemma {:induction false} CloneCopies(t: Tree)
    ensures Copies(Clone(t), t)
    decreases t
  {
    match t
    case Mapping(_, ps) =>
      forall i | 0 <= i < |ps|
        ensures Copies(Clone(ps[i].key), ps[i].key) && Copies(Clone(ps[i].val), ps[i].val)
      {
        CloneCopies(ps[i].key);
        CloneCopies(ps[i].val);
      }
    case Other(_, _, ts) =>
      forall i | 0 <= i < |ts|
        ensures Copies(Clone(ts[i]), ts[i])
      {
        CloneCopies(ts[i]);
      }
  }

  /** ... and nothing else does. */
  lemma {:induction false} CopiesExactly(c: Tree, t: Tree)
    ensures Copies(c, t) <==> c == Clone(t)
    decreases t
  {
    CloneCopies(t);
    if Copies(c, t) {
      match t
      case Mapping(h, ps) =>
        forall i | 0 <= i < |ps|
          ensures c.pairs[i] == ClonePair(ps[i])
        {
          CopiesExactly(c.pairs[i].key, ps[i].key);
          CopiesExactly(c.pairs[i].val, ps[i].val);
        }
        assert c.pairs == ClonePairs(ps);
      case Other(k, h, ts) =>
        forall i | 0 <= i < |ts|
          ensures c.items[i] == Clone(ts[i])
        {
          CopiesExactly(c.items[i], ts[i]);
        }
        assert c.items == Clone(t).items;
    }
  }

  lemma {:induction false} CloneIdempotent(t: Tree)
    ensures Clone(Clone(t)) == Clone(t)
    decreases t
  {
    match t
    case Mapping(_, ps) =>
      forall i | 0 <= i < |ps|
        ensures Clone(Clone(ps[i].key)) == Clone(ps[i].key) && Clone(Clone(ps[i].val)) == Clone(ps[i].val)
      {
        CloneIdempotent(ps[i].key);
        CloneIdempotent(ps[i].val);
      }
    case Other(_, _, ts) =>
      forall i | 0 <= i < |ts|
        ensures Clone(Clone(ts[i])) == Clone(ts[i])
      {
        CloneIdempotent(ts[i]);
      }
  }

  lemma CloneMapping(h: Head, ps: seq<Pair>)
    ensures Clone(Mapping(h, ps)) == Mapping(Unanchored(h), ClonePairs(ps))
  {
  }

  lemma IndexOfClone(ps: seq<Pair>, k: string)
    ensures IndexOf(ClonePairs(ps), k) == IndexOf(ps, k)
  {
    var i, j := IndexOf(ps, k), IndexOf(ClonePairs(ps), k);
    forall a | 0 <= a < |ps|
      ensures KeyOf(ClonePairs(ps)[a]) == KeyOf(ps[a])
    {
      KeyOfClone(ps[a].key);
    }
    assert i < |ps| ==> KeyOf(ClonePairs(ps)[i]) == k;
    assert j < |ps| ==> KeyOf(ps[j]) == k;
  }

  /** Cloning a merge is merging into the clone. */
  lemma {:induction false} CloneOfMerge(b: Tree, o: Tree)
    ensures Clone(Merge(b, o)) == Merge(Clone(b), o)
    decreases o
  {
    CloneIdempotent(o);
    if b.Mapping? && o.Mapping? {
      ClonePairsOfMerge(b.pairs, o.pairs);
      CloneMapping(b.head, b.pairs);
      CloneMapping(b.head, MergePairs(b.pairs, o.pairs));
    }
  }

  lemma {:induction false} ClonePairsOfMerge(bp: seq<Pair>, op: seq<Pair>)
    ensures ClonePairs(MergePairs(bp, op)) == MergePairs(ClonePairs(bp), op)
    decreases op
  {
    if op != [] {
      ClonePairsOfMerge(bp, op[..|op| - 1]);
      CloneOfPut(MergePairs(bp, op[..|op| - 1]), op[|op| - 1]);
    }
  }

  lemma {:induction false} CloneOfPut(ps: seq<Pair>, p: Pair)
    ensures ClonePairs(Put(ps, p)) == Put(ClonePairs(ps), p)
    decreases p
  {
    var i := IndexOf(ps, KeyOf(p));
    IndexOfClone(ps, KeyOf(p));
    if i < |ps| {
      CloneOfMerge(ps[i].val, p.val);
    } else {
      CloneIdempotent(p.key);
      CloneIdempotent(p.val);
    }
  }

  /** Anchors in an overlay do not matter. */
  lemma {:induction false} MergeOfClone(b: Tree, o: Tree)
    ensures Merge(b, Clone(o)) == Merge(b, o)
    decreases o
  {
    CloneIdempotent(o);
    if b.Mapping? && o.Mapping? {
      MergePairsOfClone(b.pairs, o.pairs);
      CloneMapping(o.head, o.pairs);
    }
  }

  lemma {:induction false} MergePairsOfClone(bp: seq<Pair>, op: seq<Pair>)
    ensures MergePairs(bp, ClonePairs(op)) == MergePairs(bp, op)
    decreases op
  {
    if op != [] {
      var front, p := op[..|op| - 1], op[|op| - 1];
      MergePairsOfClone(bp, front);
      assert ClonePairs(op)[..|op| - 1] == ClonePairs(front);
      PutOfClone(MergePairs(bp, front), op[|op| - 1]);
    }
  }

  lemma {:induction false} PutOfClone(ps: seq<Pair>, p: Pair)
    ensures Put(ps, ClonePair(p)) == Put(ps, p)
    decreases p
  {
    KeyOfClone(p.key);
    CloneIdempotent(p.key);
    CloneIdempotent(p.val);
    var i := IndexOf(ps, KeyOf(p));
    if i < |ps| {
      MergeOfClone(ps[i].val, p.val);
    }
  }
}
