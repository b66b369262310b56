/**
 The canonical key of an attribute map: its entries rendered as "k=v," in key order.  An
 attribute map is the list of its entries, with values as their string form.
 */
module AttrsKey {
  import opened Sequences
  import opened Text

  type Attrs = seq<(string, string)>

  function KeysOf(attrs: Attrs): seq<string> {
    seq(|attrs|, i requires 0 <= i < |attrs| => attrs[i].0)
  }

  /** The value of the first entry for `k`, as a lookup by key finds it. */
  function Get(attrs: Attrs, k: string): string {
    if attrs == [] then "" else if attrs[0].0 == k then attrs[0].1 else Get(attrs[1..], k)
  }

  function Entry(k: string, attrs: Attrs): string {
    k + "=" + Get(attrs, k) + ","
  }

  function Render(ks: seq<string>, attrs: Attrs): string {
    if ks == [] then ""
    else Render(ks[..|ks| - 1], attrs) + Entry(ks[|ks| - 1], attrs)
  }

  function CanonicalAttrsKey(attrs: Attrs): string {
    Render(Sort(Leq, KeysOf(attrs)), attrs)
  }

  /** The key as its two loops build it. */
  method BuildCanonicalAttrsKey(attrs: Attrs) returns (key: string)
    ensures key == CanonicalAttrsKey(attrs)
  {
    var keys: seq<string> := [];
    for i := 0 to |attrs|
      invariant keys == KeysOf(attrs)[..i]
    {
      keys := keys + [attrs[i].0];
    }
    assert keys == KeysOf(attrs);
    keys := Sort(Leq, keys);
    key := "";
    for i := 0 to |keys|
      invariant keys == Sort(Leq, KeysOf(attrs)) && key == Render(keys[..i], attrs)
    {
      assert keys[..i + 1][..i] == keys[..i];
      key := key + Entry(keys[i], attrs);
    }
    assert keys[..|keys|] == keys;
  }

  // ---------------------------------------------------------------- what the key tells apart

  ghost predicate SameEntries(a: Attrs, b: Attrs) {
    forall e :: e in a <==> e in b
  }

  lemma {:induction false} GetEntry(attrs: Attrs, i: nat)
    requires i < |attrs| && NoRepeats(KeysOf(attrs))
    ensures Get(attrs, attrs[i].0) == attrs[i].1
  {
    if i > 0 {
      assert KeysOf(attrs)[0] != KeysOf(attrs)[i];
      var tail := attrs[1..];
      forall x, y | 0 <= x < y < |tail|
        ensures KeysOf(tail)[x] != KeysOf(tail)[y]
      {
        assert KeysOf(attrs)[x + 1] != KeysOf(attrs)[y + 1];
      }
      GetEntry(tail, i - 1);
    }
  }

  lemma {:induction false} RenderAgree(ks: seq<string>, a: Attrs, b: Attrs)
    requires forall k :: k in ks ==> Get(a, k) == Get(b, k)
    ensures Render(ks, a) == Render(ks, b)
  {
    if ks != [] {
      RenderAgree(ks[..|ks| - 1], a, b);
    }
  }

  lemma KeysOfMembers(attrs: Attrs, k: string)
    ensures k in KeysOf(attrs) <==> exists i :: 0 <= i < |attrs| && attrs[i].0 == k
  {
    if k in KeysOf(attrs) {
      var i :| 0 <= i < |KeysOf(attrs)| && KeysOf(attrs)[i] == k;
      assert attrs[i].0 == k;
    }
    if i :| 0 <= i < |attrs| && attrs[i].0 == k {
      assert KeysOf(attrs)[i] == k;
    }
  }

  /** Maps with the same entries have the same key, whatever the order they store them in. */
  lemma KeyIgnoresOrder(a: Attrs, b: Attrs)
    requires NoRepeats(KeysOf(a)) && NoRepeats(KeysOf(b)) && SameEntries(a, b)
    ensures CanonicalAttrsKey(a) == CanonicalAttrsKey(b)
  {
    var ka, kb := KeysOf(a), KeysOf(b);
    forall k
      ensures k in ka <==> k in kb
      ensures k in ka ==> Get(a, k) == Get(b, k)
    {
      KeysOfMembers(a, k);
      KeysOfMembers(b, k);
      if i :| 0 <= i < |a| && a[i].0 == k {
        assert a[i] in b;
        var j :| 0 <= j < |b| && b[j] == a[i];
        GetEntry(a, i);
        GetEntry(b, j);
      }
      if j :| 0 <= j < |b| && b[j].0 == k {
        assert b[j] in a;
        var i :| 0 <= i < |a| && a[i] == b[j];
        assert a[i].0 == k;
      }
    }
    forall k
      ensures multiset(ka)[k] == multiset(kb)[k]
    {
      NoRepeatsMultiset(ka, k);
      NoRepeatsMultiset(kb, k);
    }
    assert multiset(ka) == multiset(kb);
    LeqIsTotalOrder();
    SortSorts(Leq, ka);
    SortSorts(Leq, kb);
    SortedUnique(Leq, Sort(Leq, ka), Sort(Leq, kb));
    forall k | k in Sort(Leq, ka)
      ensures Get(a, k) == Get(b, k)
    {
      assert k in multiset(Sort(Leq, ka));
      assert k in multiset(ka);
    }
    RenderAgree(Sort(Leq, ka), a, b);
  }

  /** No key holds a '=' and no value a ','. */
  ghost predicate Plain(attrs: Attrs) {
    forall i :: 0 <= i < |attrs| ==> '=' !in attrs[i].0 && ',' !in attrs[i].1
  }

  lemma {:induction false} RenderFront(ks: seq<string>, attrs: Attrs)
    requires ks != []
    ensures Render(ks, attrs) == Entry(ks[0], attrs) + Render(ks[1..], attrs)
  {
    var n := |ks| - 1;
    if n > 0 {
      RenderFront(ks[..n], attrs);
      assert ks[1..][..n - 1] == ks[..n][1..];
      AppendAssociates(Entry(ks[0], attrs), Render(ks[..n][1..], attrs), Entry(ks[n], attrs));
    } else {
      assert ks[..0] == [] && ks[1..] == [];
    }
  }

  lemma CutEntry(k: string, v: string, rest: string, k': string, v': string, rest': string)
    requires '=' !in k && '=' !in k' && ',' !in v && ',' !in v'
    requires (k + "=" + v + ",") + rest == (k' + "=" + v' + ",") + rest'
    ensures k == k' && v == v' && rest == rest'
  {
    assert (k + "=" + v + ",") + rest == k + ['='] + (v + [','] + rest);
    assert (k' + "=" + v' + ",") + rest' == k' + ['='] + (v' + [','] + rest');
    CutUnique(k, v + [','] + rest, k', v' + [','] + rest', '=');
    CutUnique(v, rest, v', rest', ',');
  }

  lemma {:induction false} RenderInjective(ka: seq<string>, a: Attrs, kb: seq<string>, b: Attrs)
    requires Render(ka, a) == Render(kb, b)
    requires forall k :: k in ka ==> '=' !in k && ',' !in Get(a, k)
    requires forall k :: k in kb ==> '=' !in k && ',' !in Get(b, k)
    ensures ka == kb && forall k :: k in ka ==> Get(a, k) == Get(b, k)
  {
    if ka != [] {
      RenderFront(ka, a);
    }
    if kb != [] {
      RenderFront(kb, b);
    }
    if ka != [] && kb != [] {
      CutEntry(ka[0], Get(a, ka[0]), Render(ka[1..], a), kb[0], Get(b, kb[0]), Render(kb[1..], b));
      RenderInjective(ka[1..], a, kb[1..], b);
      assert ka == [ka[0]] + ka[1..] && kb == [kb[0]] + kb[1..];
    }
  }

  lemma SortMember(attrs: Attrs, k: string)
    ensures k in Sort(Leq, KeysOf(attrs)) <==> k in KeysOf(attrs)
  {
    LeqIsTotalOrder();
    SortSorts(Leq, KeysOf(attrs));
    assert k in Sort(Leq, KeysOf(attrs)) <==> k in multiset(Sort(Leq, KeysOf(attrs)));
    assert k in KeysOf(attrs) <==> k in multiset(KeysOf(attrs));
  }

  lemma PlainSorted(attrs: Attrs, k: string)
    requires Plain(attrs) && NoRepeats(KeysOf(attrs)) && k in Sort(Leq, KeysOf(attrs))
    ensures '=' !in k && ',' !in Get(attrs, k)
  {
    SortMember(attrs, k);
    KeysOfMembers(attrs, k);
    var i :| 0 <= i < |attrs| && attrs[i].0 == k;
    GetEntry(attrs, i);
  }

  lemma EntriesIncluded(a: Attrs, b: Attrs, e: (string, string))
    requires NoRepeats(KeysOf(a)) && NoRepeats(KeysOf(b)) && e in a
    requires Sort(Leq, KeysOf(a)) == Sort(Leq, KeysOf(b))
    requires forall k :: k in Sort(Leq, KeysOf(a)) ==> Get(a, k) == Get(b, k)
    ensures e in b
  {
    var i :| 0 <= i < |a| && a[i] == e;
    KeysOfMembers(a, e.0);
    KeysOfMembers(b, e.0);
    SortMember(a, e.0);
    SortMember(b, e.0);
    var j :| 0 <= j < |b| && b[j].0 == e.0;
    GetEntry(a, i);
    GetEntry(b, j);
    assert b[j] == e;
  }

  /** On plain maps the key identifies the attributes: equal keys mean equal entries. */
  lemma KeySeparatesPlain(a: Attrs, b: Attrs)
    requires NoRepeats(KeysOf(a)) && NoRepeats(KeysOf(b)) && Plain(a) && Plain(b)
    ensures CanonicalAttrsKey(a) == CanonicalAttrsKey(b) <==> SameEntries(a, b)
  {
    if SameEntries(a, b) {
      KeyIgnoresOrder(a, b);
    }
    if CanonicalAttrsKey(a) == CanonicalAttrsKey(b) {
      forall k | k in Sort(Leq, KeysOf(a)) {
        PlainSorted(a, k);
      }
      forall k | k in Sort(Leq, KeysOf(b)) {
        PlainSorted(b, k);
      }
      RenderInjective(Sort(Leq, KeysOf(a)), a, Sort(Leq, KeysOf(b)), b);
      forall e
        ensures e in a <==> e in b
      {
        if e in a {
          EntriesIncluded(a, b, e);
        }
        if e in b {
          EntriesIncluded(b, a, e);
        }
      }
    }
  }

  /** A value with separators in it makes different attributes share a key. */
  lemma KeyCollides()
    ensures var a, b := [("a", "1,b=2")], [("a", "1"), ("b", "2")];
      CanonicalAttrsKey(a) == CanonicalAttrsKey(b) && !SameEntries(a, b)
  {
    var a, b := [("a", "1,b=2")], [("a", "1"), ("b", "2")];
    assert KeysOf(a) == ["a"] && KeysOf(b) == ["a", "b"];
    assert Sort(Leq, ["b"]) == ["b"];
    assert ["a", "b"][1..] == ["b"];
    assert Leq("a", "b");
    assert Sort(Leq, ["a", "b"]) == ["a", "b"];
    assert Sort(Leq, ["a"]) == ["a"];
    RenderFront(["a"], a);
    RenderFront(["a", "b"], b);
    RenderFront(["b"], b);
    assert b[1..][0] == ("b", "2");
    assert Get(b, "b") == "2" && Get(b, "a") == "1";
    assert Render(["a"], a) == "a=1,b=2,";
    assert Render(["a", "b"], b) == "a=1,b=2,";
    assert ("b", "2") in b && ("b", "2") !in a;
  }

  // ---------------------------------------------------------------- whose key is nobody else's

  /** No map of other entries has the key of this one. */
  ghost predicate KeyIsItsOwn(attrs: Attrs) {
    forall b: Attrs :: NoRepeats(KeysOf(b)) && CanonicalAttrsKey(b) == CanonicalAttrsKey(attrs) ==> SameEntries(attrs, b)
  }

  lemma {:induction false} SortLength(xs: seq<string>)
    ensures |Sort(Leq, xs)| == |xs|
  {
    LeqIsTotalOrder();
    SortSorts(Leq, xs);
    assert |multiset(Sort(Leq, xs))| == |multiset(xs)|;
  }

  function EntryText(k: string, v: string): string {
    k + "=" + v + ","
  }

  lemma SingleKey(k: string, v: string)
    ensures NoRepeats(KeysOf([(k, v)])) && CanonicalAttrsKey([(k, v)]) == EntryText(k, v)
  {
    var attrs := [(k, v)];
    assert KeysOf(attrs) == [k];
    assert Sort(Leq, [k]) == [k];
    RenderFront([k], attrs);
    assert Render([k], attrs) == Entry(k, attrs) + "";
  }

  lemma RenderEnds(ks: seq<string>, attrs: Attrs)
    requires ks != []
    ensures var r := Render(ks, attrs); r != "" && r == r[..|r| - 1] + ","
    ensures exists i :: 0 <= i < |Render(ks, attrs)| && Render(ks, attrs)[i] == '='
  {
    var r, front, k := Render(ks, attrs), Render(ks[..|ks| - 1], attrs), ks[|ks| - 1];
    var e := Entry(k, attrs);
    assert r == front + e;
    assert e[|k|] == '=' && e[|e| - 1] == ',';
    assert r[|front| + |k|] == '=' && r[|r| - 1] == ',';
  }

  /** With two entries or more, the text behind the first entry's key and sign can be one value. */
  lemma SeveralShareKey(attrs: Attrs)
    requires NoRepeats(KeysOf(attrs)) && |attrs| >= 2
    ensures !KeyIsItsOwn(attrs)
  {
    var ks := Sort(Leq, KeysOf(attrs));
    SortLength(KeysOf(attrs));
    var k, v, rest := ks[0], Get(attrs, ks[0]), Render(ks[1..], attrs);
    RenderFront(ks, attrs);
    RenderEnds(ks[1..], attrs);
    var w := v + "," + rest[..|rest| - 1];
    SingleKey(k, w);
    OneValue(k, v, rest);
    SeveralAreNotOne(attrs, (k, w));
  }

  lemma OneValue(k: string, v: string, rest: string)
    requires rest != "" && rest == rest[..|rest| - 1] + ","
    ensures EntryText(k, v) + rest == EntryText(k, v + "," + rest[..|rest| - 1])
  {
    var r := rest[..|rest| - 1];
    assert EntryText(k, v) + (r + ",") == k + "=" + (v + "," + r) + ",";
  }

  lemma SeveralAreNotOne(attrs: Attrs, e: (string, string))
    requires NoRepeats(KeysOf(attrs)) && |attrs| >= 2
    ensures !SameEntries(attrs, [e])
  {
    assert attrs[0] in attrs && attrs[1] in attrs;
    assert KeysOf(attrs)[0] != KeysOf(attrs)[1];
  }

  /** An entry with a sign in its key or value can be cut there instead. */
  lemma SignSharesKey(k: string, v: string, x: string, y: string)
    requires k == x + "=" + y || v == x + "=" + y
    ensures !KeyIsItsOwn([(k, v)])
  {
    var b := if k == x + "=" + y then (x, y + "=" + v) else (k + "=" + x, y);
    SingleKey(k, v);
    SingleKey(b.0, b.1);
    assert EntryText(b.0, b.1) == EntryText(k, v);
    assert |b.0| != |k|;
    assert b in [b] && b !in [(k, v)];
  }

  lemma NothingSharesEmptyKey()
    ensures KeyIsItsOwn([])
  {
    assert CanonicalAttrsKey([]) == "";
    forall b: Attrs | NoRepeats(KeysOf(b)) && CanonicalAttrsKey(b) == ""
      ensures SameEntries([], b)
    {
      if b != [] {
        SortLength(KeysOf(b));
        RenderEnds(Sort(Leq, KeysOf(b)), b);
      }
    }
  }

  /** A text with one sign comes from one entry only. */
  lemma PlainEntryIsOne(k: string, v: string, ks: seq<string>, b: Attrs)
    requires '=' !in k && '=' !in v && ks != [] && Render(ks, b) == EntryText(k, v)
    ensures ks == [k] && Get(b, k) == v
  {
    var t := EntryText(k, v);
    var e, rest := Entry(ks[0], b), Render(ks[1..], b);
    RenderFront(ks, b);
    assert t == e + rest;
    OneSign(k, v);
    assert t[|ks[0]|] == e[|ks[0]|] == '=';
    if |ks| > 1 {
      RenderEnds(ks[1..], b);
      SignBehind(e, rest);
    } else {
      assert ks[1..] == [] && rest == "" && e == t;
      SameEntryText(k, v, ks[0], Get(b, ks[0]));
    }
  }

  lemma SameEntryText(k: string, v: string, k': string, v': string)
    requires |k| == |k'| && EntryText(k, v) == EntryText(k', v')
    ensures k == k' && v == v'
  {
    var t, t' := EntryText(k, v), EntryText(k', v');
    assert t[..|k|] == k && t'[..|k|] == k';
    assert t[|k| + 1..|t| - 1] == v && t'[|k| + 1..|t| - 1] == v';
  }

  lemma SignBehind(e: string, rest: string)
    requires exists i :: 0 <= i < |rest| && rest[i] == '='
    ensures exists n :: |e| <= n < |e + rest| && (e + rest)[n] == '='
  {
    var i :| 0 <= i < |rest| && rest[i] == '=';
    assert (e + rest)[|e| + i] == '=';
  }

  lemma OneSign(k: string, v: string)
    requires '=' !in k && '=' !in v
    ensures forall i :: 0 <= i < |EntryText(k, v)| && EntryText(k, v)[i] == '=' ==> i == |k|
  {
    var t := EntryText(k, v);
    assert forall i :: 0 <= i < |k| ==> t[i] == k[i] && k[i] in k;
    assert forall i :: |k| < i < |t| - 1 ==> t[i] == v[i - |k| - 1] && v[i - |k| - 1] in v;
    assert t[|t| - 1] == ',';
  }

  lemma PlainEntryOwnsKey(k: string, v: string)
    requires '=' !in k && '=' !in v
    ensures KeyIsItsOwn([(k, v)])
  {
    SingleKey(k, v);
    forall b: Attrs | NoRepeats(KeysOf(b)) && CanonicalAttrsKey(b) == CanonicalAttrsKey([(k, v)])
      ensures SameEntries([(k, v)], b)
    {
      var ks := Sort(Leq, KeysOf(b));
      SortLength(KeysOf(b));
      assert b == [] ==> Render(ks, b) == "";
      PlainEntryIsOne(k, v, ks, b);
      SortMember(b, k);
      KeysOfMembers(b, k);
      assert |b| == 1 && b[0].0 == k && b[0] == (k, Get(b, k));
    }
  }

  /** A map of several entries, or with a sign in its one entry, can always be taken for another; no other map can. */
  lemma KeyIsItsOwnExactly(attrs: Attrs)
    requires NoRepeats(KeysOf(attrs))
    ensures KeyIsItsOwn(attrs) <==> attrs == [] || (|attrs| == 1 && '=' !in attrs[0].0 && '=' !in attrs[0].1)
  {
    if attrs == [] {
      NothingSharesEmptyKey();
    } else if |attrs| >= 2 {
      SeveralShareKey(attrs);
    } else {
      var (k, v) := attrs[0];
      assert attrs == [(k, v)];
      if '=' in k {
        var x, y := CutAtSign(k);
        SignSharesKey(k, v, x, y);
      } else if '=' in v {
        var x, y := CutAtSign(v);
        SignSharesKey(k, v, x, y);
      } else {
        PlainEntryOwnsKey(k, v);
      }
    }
  }

  lemma CutAtSign(s: string) returns (x: string, y: string)
    requires '=' in s
    ensures s == x + "=" + y
  {
    var i :| 0 <= i < |s| && s[i] == '=';
    x, y := s[..i], s[i + 1..];
  }
}
