/** The upstream versions of a release: canonical forms, the highest, and the sorted list. */
module Versions {
  import opened Options
  import opened Sequences
  import opened Text
  import opened Grouping
  import opened Semver

  /** A version text trimmed, and with the "v" it may lack. */
  function Prefixed(v: string): string {
    var t := TrimSpace(v);
    if HasPrefix(t, "v") then t else "v" + t
  }

  function CanonicalVersion(v: string): string {
    var c := Canonical(Prefixed(v));
    if c == "" then TrimSpace(Prefixed(v)) else c
  }

  lemma CoreEnds(v: Version)
    ensures CoreText(v) != "" && IdentChar(CoreText(v)[|CoreText(v)| - 1])
  {
    DecimalIsNumeral(v.patch);
    Join3(Decimal(v.major), Decimal(v.minor), Decimal(v.patch));
    var s, n := CoreText(v), Decimal(v.patch);
    assert s[|s| - 1] == n[|n| - 1] && IsDigit(n[|n| - 1]);
  }

  /** No version's text ends with a space. */
  lemma EndsTight(front: string, last: string)
    requires last != "" && IdentChar(last[|last| - 1])
    ensures var s := "v" + front + last;
      HasPrefix(s, "v") && TrimSpace(s) == s
  {
    var s := "v" + front + last;
    assert s[0] == 'v' && s[..1] == "v";
    assert s[|s| - 1] == last[|last| - 1];
    TrimSpaceFixpoint(s);
  }

  lemma FormatShape(v: Version)
    requires WellFormed(v)
    ensures Format(v) != "" && HasPrefix(Format(v), "v") && TrimSpace(Format(v)) == Format(v)
  {
    if v.pre == [] {
      CoreEnds(v);
      EndsTight("", CoreText(v));
      assert "v" + "" + CoreText(v) == Format(v);
    } else {
      PreTextEnds(v.pre);
      EndsTight(CoreText(v) + "-", PreText(v.pre));
      AppendAssociates("v", CoreText(v) + "-", PreText(v.pre));
    }
  }

  lemma {:induction false} PreTextEnds(pre: seq<Ident>)
    requires pre != [] && WellFormed(Version(0, 0, 0, pre))
    ensures PreText(pre) != "" && IdentChar(PreText(pre)[|PreText(pre)| - 1])
  {
    IdentRoundTrip(pre[0]);
    if |pre| > 1 {
      PreTextEnds(pre[1..]);
      assert IdentTexts(pre)[1..] == IdentTexts(pre[1..]);
    }
  }

  /**
   canonicalVersion gives a valid version exactly for the texts that are valid once trimmed and
   prefixed, and then the canonical text of that version; it changes its own results no further.
   */
  lemma CanonicalVersionMeaning(v: string)
    ensures IsValid(CanonicalVersion(v)) <==> IsValid(Prefixed(v))
    ensures IsValid(Prefixed(v)) ==> Parse(CanonicalVersion(v)) == Parse(Prefixed(v)) && CanonicalVersion(v) == Canonical(CanonicalVersion(v))
    ensures CanonicalVersion(CanonicalVersion(v)) == CanonicalVersion(v)
  {
    var p := Prefixed(v);
    PrefixedFixpoint(v);
    if IsValid(p) {
      ParsedIsWellFormed(p);
      FormatShape(Parse(p).value);
      CanonicalIsStable(p);
      assert Prefixed(CanonicalVersion(v)) == CanonicalVersion(v);
    } else {
      assert CanonicalVersion(v) == p;
    }
  }

  lemma PrefixedFixpoint(v: string)
    ensures TrimSpace(Prefixed(v)) == Prefixed(v) && Prefixed(Prefixed(v)) == Prefixed(v)
  {
    var t, p := TrimSpace(v), Prefixed(v);
    TrimSpaceEnds(v);
    if HasPrefix(t, "v") {
      assert t[..1][0] == t[0];
    } else {
      assert p == "v" + t && p[0] == 'v' && p[..1] == "v";
      assert p[|p| - 1] == if t == "" then 'v' else t[|t| - 1];
    }
    TrimSpaceFixpoint(p);
  }

  // ---------------------------------------------------------------- valid versions of a list

  /** The canonical forms of the valid versions of a list, in order. */
  function ValidVersions(vs: seq<string>): seq<string> {
    KeepMapped(CanonicalVersion, IsValid, vs)
  }

  ghost predicate AllCanonical(vs: seq<string>) {
    forall i :: 0 <= i < |vs| ==> IsValid(vs[i]) && CanonicalVersion(vs[i]) == vs[i] && Canonical(vs[i]) == vs[i]
  }

  lemma ValidVersionsCanonical(vs: seq<string>)
    ensures AllCanonical(ValidVersions(vs))
  {
    var valid := ValidVersions(vs);
    forall i | 0 <= i < |valid|
      ensures IsValid(valid[i]) && CanonicalVersion(valid[i]) == valid[i] && Canonical(valid[i]) == valid[i]
    {
      KeepMappedMembers(CanonicalVersion, IsValid, vs, valid[i]);
      var j :| 0 <= j < |vs| && CanonicalVersion(vs[j]) == valid[i];
      CanonicalVersionMeaning(vs[j]);
    }
  }

  /** Canonical texts that are level are the same text. */
  lemma CanonicalLevel(a: string, b: string)
    requires IsValid(a) && IsValid(b) && Canonical(a) == a && Canonical(b) == b
    ensures Compare(a, b) == 0 <==> a == b
    ensures SortsBefore(a, b) <==> Compare(a, b) <= 0
  {
    CmpSign(Parse(a).value, Parse(b).value);
    CanonicalIdentifies(a, b);
    LeqTotal(a, a);
  }

  // ---------------------------------------------------------------- the sorted list

  function Itself(s: string): string {
    s
  }

  ghost function SortedUniqueVersions(vs: seq<string>): seq<string> {
    Sort(SortsBefore, FirstPerKey(Itself, ValidVersions(vs)))
  }

  lemma {:induction false} FirstPerKeyMembers(xs: seq<string>, x: string)
    ensures x in FirstPerKey(Itself, xs) <==> x in xs
    ensures x in xs <==> Holds(Itself, xs, x)
  {
    if xs != [] {
      var front, last := xs[..|xs| - 1], xs[|xs| - 1];
      FirstPerKeyMembers(front, x);
      assert xs == front + [last];
      HoldsExtend(Itself, front, last, x);
      FirstPerKeyMembers(front, last);
    }
  }

  lemma {:induction false} FirstPerKeyNoRepeats(xs: seq<string>)
    ensures NoRepeats(FirstPerKey(Itself, xs))
  {
    if xs != [] {
      var front, last := xs[..|xs| - 1], xs[|xs| - 1];
      FirstPerKeyNoRepeats(front);
      FirstPerKeyMembers(front, last);
    }
  }

  /** Every version stands above all before it, in particular none stands twice. */
  ghost predicate StrictlyIncreasing(vs: seq<string>) {
    Follows(Below, vs)
  }

  /** The list holds exactly the valid versions, in canonical form, strictly increasing. */
  lemma SortedUniqueMeaning(vs: seq<string>)
    ensures var r := SortedUniqueVersions(vs);
      && (forall x :: x in r <==> x in ValidVersions(vs))
      && AllCanonical(r) && StrictlyIncreasing(r)
  {
    var valid := ValidVersions(vs);
    var uniq, r := FirstPerKey(Itself, valid), SortedUniqueVersions(vs);
    SortsBeforeIsTotalOrder();
    SortSorts(SortsBefore, uniq);
    FirstPerKeyNoRepeats(valid);
    NoRepeatsRearranged(uniq, r);
    forall x
      ensures x in r <==> x in valid
    {
      SameMembers(uniq, r, x);
      FirstPerKeyMembers(valid, x);
    }
    ValidVersionsCanonical(vs);
    forall i | 0 <= i < |r|
      ensures IsValid(r[i]) && CanonicalVersion(r[i]) == r[i] && Canonical(r[i]) == r[i]
    {
      assert r[i] in valid;
    }
    forall i, j | 0 <= i < j < |r|
      ensures Below(r[i], r[j])
    {
      CanonicalLevel(r[i], r[j]);
    }
  }

  ghost predicate Seen(seen: set<string>, xs: seq<string>) {
    forall k :: k in seen <==> Holds(Itself, xs, k)
  }

  lemma UniqueTurn(xs: seq<string>, x: string, seen: set<string>)
    requires Seen(seen, xs)
    ensures Seen(seen + {x}, xs + [x])
    ensures FirstPerKey(Itself, xs + [x]) == FirstPerKey(Itself, xs) + if x in seen then [] else [x]
  {
    FirstPerKeyExtend(Itself, xs, x);
    forall k {
      HoldsExtend(Itself, xs, x, k);
    }
  }

  lemma UniqueStep(f: string -> string, p: string -> bool, vs: seq<string>, i: nat, seen: set<string>)
    requires i < |vs| && Seen(seen, KeepMapped(f, p, vs[..i]))
    ensures var v, was, now := f(vs[i]), KeepMapped(f, p, vs[..i]), KeepMapped(f, p, vs[..i + 1]);
      if p(v) && v !in seen then
        Seen(seen + {v}, now) && FirstPerKey(Itself, now) == FirstPerKey(Itself, was) + [v]
      else Seen(seen, now) && FirstPerKey(Itself, now) == FirstPerKey(Itself, was)
  {
    var v := f(vs[i]);
    var was := KeepMapped(f, p, vs[..i]);
    KeepMappedTurn(f, p, vs, i);
    assert was + [] == was && FirstPerKey(Itself, was) + [] == FirstPerKey(Itself, was);
    UniqueTurn(was, v, seen);
    assert v in seen ==> seen + {v} == seen;
  }

  /** The loop of sortedUniqueVersions. */
  method CollectUniqueVersions(versions: seq<string>) returns (uniq: seq<string>)
    ensures uniq == FirstPerKey(Itself, ValidVersions(versions))
  {
    var seen: set<string> := {};
    uniq := [];
    for i := 0 to |versions|
      invariant uniq == FirstPerKey(Itself, ValidVersions(versions[..i]))
      invariant Seen(seen, ValidVersions(versions[..i]))
    {
      UniqueStep(CanonicalVersion, IsValid, versions, i, seen);
      var vc := CanonicalVersion(versions[i]);
      if !IsValid(vc) || vc in seen {
        continue;
      }
      seen := seen + {vc};
      uniq := uniq + [vc];
    }
    assert versions[..|versions|] == versions;
  }

  method BuildSortedUniqueVersions(versions: seq<string>) returns (uniq: seq<string>)
    ensures uniq == SortedUniqueVersions(versions)
  {
    uniq := CollectUniqueVersions(versions);
    uniq := Sort(SortsBefore, uniq);
  }

  lemma FormatHasNo(v: Version, c: char)
    requires WellFormed(v) && !IdentChar(c) && c != '.'
    ensures c !in Format(v)
  {
    var parts := [Decimal(v.major), Decimal(v.minor), Decimal(v.patch)];
    forall i | 0 <= i < |parts|
      ensures c !in parts[i]
    {
      DecimalIsNumeral(v.major);
      DecimalIsNumeral(v.minor);
      DecimalIsNumeral(v.patch);
      DigitsOnly(parts[i], c);
    }
    JoinAvoids(parts, ".", c);
    var texts := IdentTexts(v.pre);
    forall i | 0 <= i < |texts|
      ensures c !in texts[i]
    {
      IdentRoundTrip(v.pre[i]);
    }
    JoinAvoids(texts, ".", c);
  }

  lemma CanonicalHasNo(s: string, c: char)
    requires IsValid(s) && Canonical(s) == s && !IdentChar(c) && c != '.'
    ensures c !in s
  {
    ParsedIsWellFormed(s);
    FormatHasNo(Parse(s).value, c);
  }

  // ---------------------------------------------------------------- the highest

  /** `best` is the highest valid version of the list, or "" where there is none. */
  ghost predicate IsHighest(vs: seq<string>, best: string) {
    if ValidVersions(vs) == [] then best == ""
    else best in ValidVersions(vs) && forall v :: v in ValidVersions(vs) ==> Compare(v, best) <= 0
  }

  ghost function Highest(vs: seq<string>): string {
    var r := SortedUniqueVersions(vs);
    if r == [] then "" else r[|r| - 1]
  }

  lemma NoneOrSome(vs: seq<string>)
    ensures ValidVersions(vs) == [] <==> SortedUniqueVersions(vs) == []
  {
    var valid, r := ValidVersions(vs), SortedUniqueVersions(vs);
    SortedUniqueMeaning(vs);
    assert valid != [] ==> valid[0] in r;
    assert r != [] ==> r[0] in valid;
  }

  lemma SelfLevel(vs: seq<string>, v: string)
    requires v in ValidVersions(vs)
    ensures Compare(v, v) <= 0
  {
    HighestIsCanonical(vs, v);
    CanonicalLevel(v, v);
  }

  lemma SortedHolds(vs: seq<string>, v: string)
    requires v in ValidVersions(vs)
    ensures v in SortedUniqueVersions(vs) && Follows(Below, SortedUniqueVersions(vs))
  {
    SortedUniqueMeaning(vs);
  }

  lemma NoneIsHigher(vs: seq<string>, v: string)
    requires v in ValidVersions(vs)
    ensures Compare(v, Highest(vs)) <= 0
  {
    SortedHolds(vs, v);
    LastOfFollowing(Below, SortedUniqueVersions(vs), v);
    if !Below(v, Highest(vs)) {
      SelfLevel(vs, v);
    }
  }

  lemma LastIsHighest(vs: seq<string>)
    ensures IsHighest(vs, Highest(vs))
  {
    NoneOrSome(vs);
    if ValidVersions(vs) != [] {
      SortedUniqueMeaning(vs);
      forall v | v in ValidVersions(vs)
        ensures Compare(v, Highest(vs)) <= 0
      {
        NoneIsHigher(vs, v);
      }
    }
  }

  lemma HighestIsCanonical(vs: seq<string>, v: string)
    requires v in ValidVersions(vs)
    ensures IsValid(v) && Canonical(v) == v
  {
    ValidVersionsCanonical(vs);
  }

  /** The highest version is the last of the sorted list, and there is no other. */
  lemma HighestIsLast(vs: seq<string>, best: string)
    ensures IsHighest(vs, best) <==> best == Highest(vs)
    ensures Highest(vs) == "" <==> ValidVersions(vs) == []
  {
    LastIsHighest(vs);
    NoneOrSome(vs);
    if ValidVersions(vs) != [] {
      HighestIsCanonical(vs, Highest(vs));
      if IsHighest(vs, best) {
        HighestIsCanonical(vs, best);
        HighestLevel(best, Highest(vs));
      }
    }
  }

  lemma HighestLevel(a: string, b: string)
    requires IsValid(a) && IsValid(b) && Canonical(a) == a && Canonical(b) == b
    requires Compare(a, b) <= 0 && Compare(b, a) <= 0
    ensures a == b
  {
    CmpSign(Parse(a).value, Parse(b).value);
    CanonicalLevel(a, b);
  }

  method HighestVersion(versions: seq<string>) returns (best: string)
    ensures IsHighest(versions, best) && best == Highest(versions)
  {
    best := "";
    for i := 0 to |versions|
      invariant IsHighest(versions[..i], best)
    {
      var vc := CanonicalVersion(versions[i]);
      KeepMappedTurn(CanonicalVersion, IsValid, versions, i);
      if !IsValid(vc) {
        continue;
      }
      ghost var was := best;
      ValidVersionsCanonical(versions[..i]);
      HighestTurn(ValidVersions(versions[..i]), best, vc);
      if best == "" || Compare(vc, best) > 0 {
        best := vc;
      }
    }
    assert versions[..|versions|] == versions;
    HighestIsLast(versions, best);
  }

  lemma HighestTurn(valid: seq<string>, best: string, vc: string)
    requires IsValid(vc) && AllCanonical(valid)
    requires if valid == [] then best == "" else best in valid && forall v :: v in valid ==> Compare(v, best) <= 0
    ensures var next := if best == "" || Compare(vc, best) > 0 then vc else best;
      next in valid + [vc] && forall v :: v in valid + [vc] ==> Compare(v, next) <= 0
  {
    var x := Parse(vc).value;
    CmpSign(x, x);
    if valid != [] {
      assert IsValid(best) && best != "";
      var y := Parse(best).value;
      CmpSign(x, y);
      forall v | v in valid
        ensures Compare(vc, best) > 0 ==> Compare(v, vc) <= 0
      {
        CmpTransitiveText(v, best, vc);
      }
    }
  }

  lemma CmpTransitiveText(a: string, b: string, c: string)
    requires IsValid(b) && IsValid(c) && Compare(a, b) <= 0
    ensures Compare(c, b) > 0 ==> Compare(a, c) <= 0
  {
    CmpSign(Parse(b).value, Parse(c).value);
    if IsValid(a) && Compare(c, b) > 0 {
      CmpTransitive(Parse(a).value, Parse(b).value, Parse(c).value);
    }
  }

  // ---------------------------------------------------------------- the collector's release versions

  predicate IsV0(v: string) {
    IsValid(v) && Major(v) == "v0"
  }

  function V0Versions(vs: seq<string>): seq<string> {
    KeepMapped(CanonicalVersion, IsV0, vs)
  }

  /** The v0 versions of a list, or all of it where it has none. */
  function ReleaseVersions(vs: seq<string>): seq<string> {
    if V0Versions(vs) != [] then V0Versions(vs) else vs
  }

  method FilterCollectorReleaseVersions(versions: seq<string>) returns (r: seq<string>)
    ensures r == ReleaseVersions(versions)
  {
    var collector: seq<string> := [];
    for i := 0 to |versions|
      invariant collector == V0Versions(versions[..i])
    {
      var vc := CanonicalVersion(versions[i]);
      KeepMappedTurn(CanonicalVersion, IsV0, versions, i);
      if IsValid(vc) && Major(vc) == "v0" {
        collector := collector + [vc];
      }
    }
    assert versions[..|versions|] == versions;
    if |collector| > 0 {
      return collector;
    }
    return versions;
  }

  lemma V0Members(vs: seq<string>, x: string)
    requires AllCanonical(vs)
    ensures x in V0Versions(vs) <==> x in vs && IsV0(x)
  {
    KeepMappedMembers(CanonicalVersion, IsV0, vs, x);
    assert forall i :: 0 <= i < |vs| ==> CanonicalVersion(vs[i]) == vs[i];
    if x in vs {
      var i :| 0 <= i < |vs| && vs[i] == x;
      assert CanonicalVersion(vs[i]) == x;
    }
  }

  predicate Below(a: string, b: string) {
    Compare(a, b) < 0
  }

  /**
   The versions a changelog announces: strictly increasing, all v0 if any is, none lost among
   those, and none at all exactly when the highest version is empty.
   */
  lemma AnnouncedVersions(vs: seq<string>)
    ensures var r := ReleaseVersions(SortedUniqueVersions(vs));
      && StrictlyIncreasing(r)
      && (r == [] <==> Highest(vs) == "")
      && (forall x :: x in r <==> x in ValidVersions(vs) && (IsV0(x) || forall y :: y in ValidVersions(vs) ==> !IsV0(y)))
  {
    var all := SortedUniqueVersions(vs);
    var r := ReleaseVersions(all);
    SortedUniqueMeaning(vs);
    HighestIsLast(vs, "");
    KeepMappedFollows(CanonicalVersion, IsV0, Below, all);
    assert ValidVersions(vs) == [] <==> all == [] by {
      assert ValidVersions(vs) != [] ==> ValidVersions(vs)[0] in all;
      assert all != [] ==> all[0] in ValidVersions(vs);
    }
    forall x
      ensures x in V0Versions(all) <==> x in all && IsV0(x)
    {
      V0Members(all, x);
    }
    if V0Versions(all) != [] {
      var y := V0Versions(all)[0];
      assert y in V0Versions(all);
    }
    assert V0Versions(all) == [] ==> forall y :: y in all ==> y !in V0Versions(all);
  }

  /** The highest version of all is announced exactly when it is v0 or nothing is. */
  lemma HighestAnnouncedExactly(vs: seq<string>)
    requires Highest(vs) != ""
    ensures Highest(vs) in ReleaseVersions(SortedUniqueVersions(vs)) <==>
            IsV0(Highest(vs)) || forall y :: y in ValidVersions(vs) ==> !IsV0(y)
  {
    HighestIsLast(vs, Highest(vs));
    AnnouncedVersions(vs);
  }

  lemma FormatIsCanonical(v: Version)
    requires WellFormed(v)
    ensures Parse(Format(v)) == Some(v) && CanonicalVersion(Format(v)) == Format(v)
    ensures IsV0(Format(v)) <==> v.major == 0
  {
    FormatParses(v);
    FormatShape(v);
    assert ("v" + Decimal(v.major))[1..] == Decimal(v.major) && "v0"[1..] == Decimal(0);
    DecimalRoundTrip(v.major);
  }

  lemma TwoVersions(a: Version, b: Version)
    requires WellFormed(a) && WellFormed(b)
    ensures ValidVersions([Format(a), Format(b)]) == [Format(a), Format(b)]
  {
    FormatIsCanonical(a);
    FormatIsCanonical(b);
    KeepMappedBoth(CanonicalVersion, IsValid, Format(a), Format(b));
  }

  lemma SomeHighest(vs: seq<string>)
    ensures Highest(vs) != "" <==> exists v :: v in vs && HasValidForm(v)
  {
    HighestIsLast(vs, "");
    KeepMappedNonempty(CanonicalVersion, IsValid, vs);
  }

  ghost predicate HasValidForm(v: string) {
    IsValid(CanonicalVersion(v))
  }

  lemma HigherOfTwo(vs: seq<string>, lo: string, hi: string)
    requires ValidVersions(vs) == [lo, hi] && Compare(lo, hi) <= 0 && Compare(hi, hi) <= 0
    ensures Highest(vs) == hi
  {
    assert lo in ValidVersions(vs) && hi in ValidVersions(vs);
    HighestIsLast(vs, hi);
  }

  lemma CompareFormats(a: Version, b: Version)
    requires WellFormed(a) && WellFormed(b)
    ensures Compare(Format(a), Format(b)) == Cmp(a, b)
  {
    FormatParses(a);
    FormatParses(b);
  }

  /** With a stable release beside a v0 release, the changelog does not announce the highest version. */
  lemma HighestMayBeHidden(a: Version, b: Version)
    requires WellFormed(a) && WellFormed(b) && a.major == 0 < b.major
    ensures var vs := [Format(a), Format(b)];
      Highest(vs) == Format(b) && Format(b) !in ReleaseVersions(SortedUniqueVersions(vs))
  {
    var vs := [Format(a), Format(b)];
    TwoVersions(a, b);
    FormatIsCanonical(a);
    FormatIsCanonical(b);
    CmpSign(b, b);
    CompareFormats(a, b);
    CompareFormats(b, b);
    HigherOfTwo(vs, Format(a), Format(b));
    FormatShape(b);
    assert Format(a) in ValidVersions(vs);
    HighestAnnouncedExactly(vs);
  }
}
