/**
 mergeNodes and cloneNode on node objects.  A valid node is the root of a tree: `repr` holds its
 nodes, the children's are pairwise disjoint, and `tree` is the value the nodes spell.
 */
module YamlNodes {
  import opened YamlTree
  import opened YamlOverlays

  datatype NodeKind = MappingNode | PlainNode(kind: Kind)

  class YamlNode {
    var kind: NodeKind
    var head: Head
    var content: seq<YamlNode>
    ghost var repr: set<YamlNode>
    ghost var tree: Tree

    ghost predicate Valid()
      reads this, repr
      decreases repr, 0
    {
      this in repr && Forest(content, repr - {this}) && Spells(kind, head, content, tree)
    }

    constructor (kind: NodeKind, head: Head, content: seq<YamlNode>, ghost kids: set<YamlNode>, ghost tree: Tree)
      requires Forest(content, kids) && Spells(kind, head, content, tree)
      ensures Valid() && this.tree == tree && repr == kids + {this}
    {
      this.kind, this.head, this.content, this.tree := kind, head, content, tree;
      this.repr := kids + {this};
      new;
      assert repr - {this} == kids;
    }

    /** Assign to `Content`. */
    method SetContent(content: seq<YamlNode>, ghost kids: set<YamlNode>, ghost tree: Tree)
      requires this !in kids && Forest(content, kids) && Spells(kind, head, content, tree)
      modifies this`content, this`repr, this`tree
      ensures Valid() && this.content == content && this.tree == tree && repr == kids + {this}
    {
      this.content, this.repr, this.tree := content, kids + {this}, tree;
      assert repr - {this} == kids;
    }
  }

  /** Roots of disjoint trees within `all`. */
  ghost predicate Forest(ns: seq<YamlNode>, all: set<YamlNode>)
    reads all
    decreases all, 1
  {
    && (forall i :: 0 <= i < |ns| ==> ns[i] in all && ns[i].repr <= all && ns[i].Valid())
    && (forall i, j :: 0 <= i < j < |ns| ==> ns[i].repr !! ns[j].repr)
  }

  /** The nodes below a head spell the tree; a mapping has its keys at even and its values at odd places. */
  ghost predicate Spells(kind: NodeKind, head: Head, content: seq<YamlNode>, tree: Tree)
    reads content
  {
    match kind
    case MappingNode =>
      && tree.Mapping? && tree.head == head && |content| == 2 * |tree.pairs|
      && (forall i :: 0 <= i < |tree.pairs| ==> tree.pairs[i] == Pair(content[2 * i].tree, content[2 * i + 1].tree))
    case PlainNode(k) =>
      && tree.Other? && tree.kind == k && tree.head == head && |content| == |tree.items|
      && (forall i :: 0 <= i < |content| ==> tree.items[i] == content[i].tree)
  }

  lemma KeysAreValues(n: YamlNode)
    requires n.Valid() && n.kind.MappingNode?
    ensures forall i :: 0 <= i < |n.tree.pairs| ==> n.content[2 * i].head.value == KeyOf(n.tree.pairs[i])
  {
    forall i | 0 <= i < |n.tree.pairs|
      ensures n.content[2 * i].head.value == KeyOf(n.tree.pairs[i])
    {
      assert n.content[2 * i].Valid();
    }
  }

  lemma ForestAppend(ns: seq<YamlNode>, all: set<YamlNode>, n: YamlNode)
    requires Forest(ns, all) && n.Valid() && n.repr !! all
    ensures Forest(ns + [n], all + n.repr)
  {
  }

  lemma SpellsAppend(head: Head, content: seq<YamlNode>, tree: Tree, k: YamlNode, v: YamlNode)
    requires Spells(MappingNode, head, content, tree)
    ensures Spells(MappingNode, head, content + [k, v], Mapping(head, tree.pairs + [Pair(k.tree, v.tree)]))
  {
    var n, more := |tree.pairs|, content + [k, v];
    assert forall i :: 0 <= i < n ==> more[2 * i] == content[2 * i] && more[2 * i + 1] == content[2 * i + 1];
    assert more[2 * n] == k && more[2 * n + 1] == v;
  }

  lemma ForestReplace(ns: seq<YamlNode>, all: set<YamlNode>, at: nat, n: YamlNode)
    requires at < |ns| && n.Valid()
    requires forall j :: 0 <= j < |ns| && j != at ==>
               ns[j] in all && ns[j].repr <= all && ns[j].Valid() && ns[j].repr !! n.repr
    requires forall i, j :: 0 <= i < j < |ns| && i != at && j != at ==> ns[i].repr !! ns[j].repr
    ensures Forest(ns[at := n], all + n.repr)
  {
  }

  /** A deep copy of fresh nodes with the anchors cleared. */
  method CloneNode(n: YamlNode) returns (clone: YamlNode)
    requires n.Valid()
    ensures clone.Valid() && fresh(clone.repr) && clone.tree == Clone(n.tree)
    ensures Copies(clone.tree, n.tree)
    decreases n.repr
  {
    CloneCopies(n.tree);
    var content: seq<YamlNode> := [];
    ghost var kids: set<YamlNode> := {};
    for i := 0 to |n.content|
      invariant |content| == i && Forest(content, kids) && fresh(kids)
      invariant forall j :: 0 <= j < i ==> content[j].tree == Clone(n.content[j].tree)
    {
      var child := CloneNode(n.content[i]);
      kids := kids + child.repr;
      content := content + [child];
    }
    clone := new YamlNode(n.kind, n.head.(anchor := ""), content, kids, Clone(n.tree));
  }

  /** `base.Content[at] = mergeNodes(base.Content[at], over)`, where `at` is the value of pair `i`. */
  method MergeChild(base: YamlNode, at: nat, ghost i: nat, over: YamlNode)
    requires base.Valid() && base.kind.MappingNode? && i < |base.tree.pairs| && at == 2 * i + 1
    requires over.Valid() && base.repr !! over.repr
    modifies base.repr
    ensures base.Valid() && base.kind == old(base.kind) && base.head == old(base.head)
    ensures base.tree == Mapping(base.head, old(base.tree.pairs)[i := Pair(old(base.tree.pairs)[i].key, Merge(old(base.tree.pairs)[i].val, over.tree))])
    ensures old(base.repr) <= base.repr && fresh(base.repr - old(base.repr))
    decreases over.repr, 2
  {
    ghost var kids, pairs, ns := base.repr - {base}, base.tree.pairs, base.content;
    var child := base.content[at];
    ghost var below := child.repr;
    assert forall j :: 0 <= j < |ns| && j != at ==> ns[j] in kids && ns[j].repr <= kids && ns[j].Valid() && ns[j].repr !! below;
    label before:
    var merged := MergeNodes(child, over);
    forall j | 0 <= j < |ns| && j != at
      ensures ns[j] in kids && ns[j].repr <= kids && ns[j].Valid() && ns[j].repr !! merged.repr
      ensures ns[j].tree == old@before(ns[j].tree) && ns[j].repr == old@before(ns[j].repr)
    {
      assert old@before(ns[j].repr !! below && ns[j].Valid());
      assert old@before(ns[j] in ns[j].repr);
      assert unchanged@before(ns[j]);
    }
    PutChild(base, at, i, merged, kids, pairs);
  }

  /** Assign to one value of a mapping, whose other children are where they were. */
  method PutChild(base: YamlNode, at: nat, ghost i: nat, child: YamlNode, ghost kids: set<YamlNode>, ghost pairs: seq<Pair>)
    requires base.kind.MappingNode? && at < |base.content| && i < |pairs| && at == 2 * i + 1 && |base.content| == 2 * |pairs|
    requires child.Valid() && base !in child.repr && base !in kids
    requires forall j :: 0 <= j < |base.content| && j != at ==>
               base.content[j] in kids && base.content[j].repr <= kids && base.content[j].Valid() && base.content[j].repr !! child.repr
    requires forall j, k :: 0 <= j < k < |base.content| && j != at && k != at ==> base.content[j].repr !! base.content[k].repr
    requires forall j :: 0 <= j < |pairs| ==> pairs[j].key == base.content[2 * j].tree && (j != i ==> pairs[j].val == base.content[2 * j + 1].tree)
    modifies base
    ensures base.Valid() && base.kind == old(base.kind) && base.head == old(base.head)
    ensures base.tree == Mapping(base.head, pairs[i := Pair(pairs[i].key, child.tree)]) && base.repr == kids + child.repr + {base}
  {
    ForestReplace(base.content, kids, at, child);
    base.SetContent(base.content[at := child], kids + child.repr, Mapping(base.head, pairs[i := Pair(pairs[i].key, child.tree)]));
  }

  /** Append clones of an overlay key and its value. */
  method AppendClones(base: YamlNode, key: YamlNode, val: YamlNode)
    requires base.Valid() && base.kind.MappingNode? && key.Valid() && val.Valid()
    requires base !in key.repr && base !in val.repr
    modifies base
    ensures base.Valid() && base.kind == old(base.kind) && base.head == old(base.head)
    ensures base.tree == Mapping(base.head, old(base.tree.pairs) + [ClonePair(Pair(key.tree, val.tree))])
    ensures old(base.repr) <= base.repr && fresh(base.repr - old(base.repr))
  {
    ghost var kids := base.repr - {base};
    var k := CloneNode(key);
    var v := CloneNode(val);
    ForestAppend(base.content, kids, k);
    ForestAppend(base.content + [k], kids + k.repr, v);
    assert base.content + [k] + [v] == base.content + [k, v];
    SpellsAppend(base.head, base.content, base.tree, k, v);
    base.SetContent(base.content + [k, v], kids + k.repr + v.repr,
                    Mapping(base.head, base.tree.pairs + [Pair(k.tree, v.tree)]));
  }

  /** One turn of the overlay loop: search the base's keys, then merge or append. */
  method MergePairInto(base: YamlNode, key: YamlNode, val: YamlNode)
    requires base.Valid() && base.kind.MappingNode? && key.Valid() && val.Valid()
    requires base.repr !! val.repr && base.repr !! key.repr
    modifies base.repr
    ensures base.Valid() && base.kind == old(base.kind) && base.head == old(base.head)
    ensures base.tree == Mapping(base.head, Put(old(base.tree.pairs), Pair(key.tree, val.tree)))
    ensures old(base.repr) <= base.repr && fresh(base.repr - old(base.repr))
    decreases val.repr, 3
  {
    ghost var pairs, n := base.tree.pairs, 0;
    KeysAreValues(base);
    var overlayKey := key.head.value;
    var bi := 0;
    while bi + 1 < |base.content|
      invariant bi == 2 * n && n <= |pairs|
      invariant forall j :: 0 <= j < n ==> KeyOf(pairs[j]) != overlayKey
    {
      if base.content[bi].head.value == overlayKey {
        assert n == IndexOf(pairs, overlayKey);
        MergeChild(base, bi + 1, n, val);
        return;
      }
      bi, n := bi + 2, n + 1;
    }
    AppendClones(base, key, val);
  }

  /** The overlay loop over two mappings. */
  method MergeMappings(base: YamlNode, overlay: YamlNode)
    requires base.Valid() && overlay.Valid() && base.repr !! overlay.repr
    requires base.kind.MappingNode? && overlay.kind.MappingNode?
    modifies base.repr
    ensures base.Valid() && base.tree == Merge(old(base.tree), overlay.tree)
    ensures fresh(base.repr - old(base.repr))
    decreases overlay.repr, 0
  {
    ghost var bp, op, n := base.tree.pairs, overlay.tree.pairs, 0;
    var oi := 0;
    while oi + 1 < |overlay.content|
      invariant oi == 2 * n && n <= |op|
      invariant base.Valid() && base.kind.MappingNode? && base.head == old(base.head)
      invariant base.tree == Mapping(base.head, MergePairs(bp, op[..n]))
      invariant old(base.repr) <= base.repr && fresh(base.repr - old(base.repr)) && base.repr !! overlay.repr
      invariant overlay.Valid()
    {
      MergePairInto(base, overlay.content[oi], overlay.content[oi + 1]);
      MergePairsStep(bp, op, n);
      oi, n := oi + 2, n + 1;
    }
    assert op[..|op|] == op;
  }

  lemma MergePairsStep(bp: seq<Pair>, op: seq<Pair>, n: nat)
    requires n < |op|
    ensures MergePairs(bp, op[..n + 1]) == Put(MergePairs(bp, op[..n]), op[n])
  {
    assert op[..n + 1][..n] == op[..n];
  }

  /**
   Deep-merge `overlay` into `base`.  The overlay is untouched, the result is a tree that spells
   the merge, and its nodes are nodes of `base` or fresh: none is shared with the overlay.
   */
  method MergeNodes(base: YamlNode, overlay: YamlNode) returns (r: YamlNode)
    requires base.Valid() && overlay.Valid() && base.repr !! overlay.repr
    modifies base.repr
    ensures r.Valid() && r.tree == Merge(old(base.tree), old(overlay.tree))
    ensures fresh(r.repr - old(base.repr)) && r.repr !! overlay.repr
    ensures base.Valid() && fresh(base.repr - old(base.repr))
    ensures if old(base.kind).MappingNode? && overlay.kind.MappingNode? then r == base
            else fresh(r.repr) && base.tree == old(base.tree) && Copies(r.tree, old(overlay.tree))
    ensures overlay.Valid() && overlay.tree == old(overlay.tree) && overlay.repr == old(overlay.repr)
    decreases overlay.repr, 1
  {
    if base.kind.MappingNode? && overlay.kind.MappingNode? {
      MergeMappings(base, overlay);
      return base;
    }
    r := CloneNode(overlay);
  }

  /** The trees of a list of nodes. */
  ghost function TreesOf(ns: seq<YamlNode>): seq<Tree>
    reads ns
  {
    seq(|ns|, i requires 0 <= i < |ns| reads ns => ns[i].tree)
  }

  /** The overlay loop of GetCollectorConfig over parsed documents: each result is dropped. */
  method ApplyOverlays(base: YamlNode, overlays: seq<YamlNode>)
    requires base.Valid()
    requires forall i :: 0 <= i < |overlays| ==> overlays[i].Valid() && base.repr !! overlays[i].repr
    modifies base.repr
    ensures base.Valid() && base.tree == Applied(old(base.tree), old(TreesOf(overlays)))
    ensures fresh(base.repr - old(base.repr))
  {
    ghost var trees := TreesOf(overlays);
    for i := 0 to |overlays|
      invariant base.Valid() && base.tree == Applied(old(base.tree), trees[..i])
      invariant fresh(base.repr - old(base.repr))
      invariant forall j :: 0 <= j < |overlays| ==> overlays[j].Valid() && base.repr !! overlays[j].repr && trees[j] == overlays[j].tree
    {
      assert trees[..i + 1][..i] == trees[..i];
      var result := MergeNodes(base, overlays[i]);
    }
    assert trees[..|trees|] == trees;
  }
}
