/**
 Versions against the wording of Semantic Versioning 2.0.0: which texts are versions and of what
 numbers (sections 2, 9 and 10), and which of two is the lower (section 11), by places alone.
 */
module Precedence {
  import opened Options
  import opened Sequences
  import opened Text
  import opened Semver
  import opened Versions

  // ---------------------------------------------------------------- which is the lower

  /** `a` ends before `b` does or has the earlier character at the first place that differs. */
  ghost predicate EarlierText(a: string, b: string) {
    exists k :: 0 <= k <= |a| && k < |b| && a[..k] == b[..k] && (k == |a| || a[k] < b[k])
  }

  /** The smaller of two numbers, a number beside a text, the earlier of two texts. */
  ghost predicate LowerIdent(a: Ident, b: Ident) {
    || (a.Num? && b.Num? && a.n < b.n)
    || (a.Num? && b.Alpha?)
    || (a.Alpha? && b.Alpha? && EarlierText(a.s, b.s))
  }

  /** `a` is lower at the first place that differs, or a shorter beginning of `b`. */
  ghost predicate LowerIdents(a: seq<Ident>, b: seq<Ident>) {
    exists k :: 0 <= k <= |a| && k < |b| && a[..k] == b[..k] && (k == |a| || LowerIdent(a[k], b[k]))
  }

  ghost predicate SameNumbers(a: Version, b: Version) {
    a.major == b.major && a.minor == b.minor && a.patch == b.patch
  }

  ghost predicate LowerNumbers(a: Version, b: Version) {
    || a.major < b.major
    || (a.major == b.major && a.minor < b.minor)
    || (a.major == b.major && a.minor == b.minor && a.patch < b.patch)
  }

  /** Section 11: the numbers decide; with the same numbers a pre-release is below its release, and identifiers decide. */
  ghost predicate Precedes(a: Version, b: Version) {
    || LowerNumbers(a, b)
    || (SameNumbers(a, b) && a.pre != [] && (b.pre == [] || LowerIdents(a.pre, b.pre)))
  }

  lemma SlicesBehind<T>(a: seq<T>, b: seq<T>, k: nat)
    requires 0 < k <= |a| && k <= |b|
    ensures a[..k] == b[..k] <==> a[0] == b[0] && a[1..][..k - 1] == b[1..][..k - 1]
  {
    assert a[..k] == [a[0]] + a[1..][..k - 1];
    assert b[..k] == [b[0]] + b[1..][..k - 1];
  }

  lemma EarlierBehind(a: string, b: string)
    requires a != "" && b != ""
    ensures EarlierText(a, b) <==> a[0] < b[0] || (a[0] == b[0] && EarlierText(a[1..], b[1..]))
  {
    if k :| 0 <= k <= |a| && k < |b| && a[..k] == b[..k] && (k == |a| || a[k] < b[k]) {
      if k > 0 {
        SlicesBehind(a, b, k);
        assert k - 1 == |a[1..]| || a[1..][k - 1] < b[1..][k - 1];
      }
    }
    if a[0] < b[0] {
      assert a[..0] == b[..0];
    } else if a[0] == b[0] && EarlierText(a[1..], b[1..]) {
      var k :| 0 <= k <= |a[1..]| && k < |b[1..]| && a[1..][..k] == b[1..][..k] && (k == |a[1..]| || a[1..][k] < b[1..][k]);
      SlicesBehind(a, b, k + 1);
      assert k + 1 == |a| || a[k + 1] < b[k + 1];
    }
  }

  lemma {:induction false} LeqExactly(a: string, b: string)
    ensures Leq(a, b) <==> a == b || EarlierText(a, b)
  {
    if a == "" {
      assert b != "" ==> a[..0] == b[..0];
    } else if b != "" {
      LeqExactly(a[1..], b[1..]);
      EarlierBehind(a, b);
      assert a == [a[0]] + a[1..] && b == [b[0]] + b[1..];
    }
  }

  lemma CmpIdentExactly(a: Ident, b: Ident)
    ensures CmpIdent(a, b) < 0 <==> a != b && LowerIdent(a, b)
    ensures LowerIdent(a, b) ==> a != b
  {
    if a.Alpha? && b.Alpha? {
      LeqExactly(a.s, b.s);
      NotEarlierThanItself(a.s);
    }
  }

  lemma NotEarlierThanItself(a: string)
    ensures !EarlierText(a, a)
  {
  }

  lemma LowerBehind(a: seq<Ident>, b: seq<Ident>)
    requires a != [] && b != []
    ensures LowerIdents(a, b) <==> LowerIdent(a[0], b[0]) || (a[0] == b[0] && LowerIdents(a[1..], b[1..]))
  {
    if k :| 0 <= k <= |a| && k < |b| && a[..k] == b[..k] && (k == |a| || LowerIdent(a[k], b[k])) {
      if k > 0 {
        SlicesBehind(a, b, k);
        assert k - 1 == |a[1..]| || LowerIdent(a[1..][k - 1], b[1..][k - 1]);
      }
    }
    if LowerIdent(a[0], b[0]) {
      assert a[..0] == b[..0];
    } else if a[0] == b[0] && LowerIdents(a[1..], b[1..]) {
      var k :| 0 <= k <= |a[1..]| && k < |b[1..]| && a[1..][..k] == b[1..][..k] && (k == |a[1..]| || LowerIdent(a[1..][k], b[1..][k]));
      SlicesBehind(a, b, k + 1);
      assert k + 1 == |a| || LowerIdent(a[k + 1], b[k + 1]);
    }
  }

  lemma {:induction false} CmpIdentsExactly(a: seq<Ident>, b: seq<Ident>)
    ensures CmpIdents(a, b) < 0 <==> LowerIdents(a, b)
  {
    if a == [] {
      assert b != [] ==> a[..0] == b[..0];
    } else if b != [] {
      CmpIdentExactly(a[0], b[0]);
      LowerBehind(a, b);
      CmpIdentsExactly(a[1..], b[1..]);
    }
  }

  lemma NoListLower(a: seq<Ident>)
    ensures !LowerIdents(a, a)
  {
    CmpIdentsSign(a, a);
    CmpIdentsExactly(a, a);
  }

  /** Of two versions' texts the first compares lower exactly when it precedes the second as the standard says. */
  lemma PrecedenceExactly(a: Version, b: Version)
    requires WellFormed(a) && WellFormed(b)
    ensures Compare(Format(a), Format(b)) < 0 <==> Precedes(a, b)
  {
    CompareFormats(a, b);
    CmpIdentsExactly(a.pre, b.pre);
    NoListLower(a.pre);
  }

  lemma ComparedByPrecedence(a: string, b: string)
    requires IsValid(a) && IsValid(b)
    ensures Compare(a, b) < 0 <==> Precedes(Parse(a).value, Parse(b).value)
    ensures Compare(a, b) <= 0 <==> Parse(a) == Parse(b) || Precedes(Parse(a).value, Parse(b).value)
  {
    var x, y := Parse(a).value, Parse(b).value;
    ParsedIsWellFormed(a);
    ParsedIsWellFormed(b);
    PrecedenceExactly(x, y);
    CompareFormats(x, y);
    CmpSign(x, y);
  }

  /** The same of any two texts: one that is no version is below every version. */
  lemma ComparedExactly(a: string, b: string)
    ensures Compare(a, b) < 0 <==> IsValid(b) && (!IsValid(a) || Precedes(Parse(a).value, Parse(b).value))
  {
    if IsValid(a) && IsValid(b) {
      ComparedByPrecedence(a, b);
    }
  }

  /** The announced order: each version of the sorted list precedes those behind it. */
  lemma SortedByPrecedence(vs: seq<string>, i: nat, j: nat)
    requires i < j < |SortedUniqueVersions(vs)|
    ensures var r := SortedUniqueVersions(vs);
      IsValid(r[i]) && IsValid(r[j]) && Precedes(Parse(r[i]).value, Parse(r[j]).value)
  {
    SortedUniqueMeaning(vs);
    assert Below(SortedUniqueVersions(vs)[i], SortedUniqueVersions(vs)[j]);
    ComparedByPrecedence(SortedUniqueVersions(vs)[i], SortedUniqueVersions(vs)[j]);
  }

  /** The version that a text of the list stands for, once trimmed and prefixed. */
  ghost predicate StandsFor(vs: seq<string>, x: Version) {
    exists v :: v in vs && Parse(Prefixed(v)) == Some(x)
  }

  lemma StandsForValid(vs: seq<string>, x: Version)
    ensures StandsFor(vs, x) <==> exists c :: c in ValidVersions(vs) && Parse(c) == Some(x)
  {
    if v :| v in vs && Parse(Prefixed(v)) == Some(x) {
      CanonicalVersionMeaning(v);
      KeepMappedMembers(CanonicalVersion, IsValid, vs, CanonicalVersion(v));
      assert CanonicalVersion(v) in ValidVersions(vs);
    }
    if c :| c in ValidVersions(vs) && Parse(c) == Some(x) {
      KeepMappedMembers(CanonicalVersion, IsValid, vs, c);
      var i :| 0 <= i < |vs| && CanonicalVersion(vs[i]) == c;
      CanonicalVersionMeaning(vs[i]);
    }
  }

  /** The highest version is one the list stands for, and precedes none of them; there is none exactly when the list stands for none. */
  lemma HighestIsLastInPrecedence(vs: seq<string>)
    ensures Highest(vs) == "" <==> !exists x :: StandsFor(vs, x)
    ensures Highest(vs) != "" ==>
              && IsValid(Highest(vs)) && StandsFor(vs, Parse(Highest(vs)).value)
              && forall x :: StandsFor(vs, x) ==> x == Parse(Highest(vs)).value || Precedes(x, Parse(Highest(vs)).value)
  {
    var best := Highest(vs);
    HighestIsLast(vs, best);
    forall x
      ensures StandsFor(vs, x) <==> exists c :: c in ValidVersions(vs) && Parse(c) == Some(x)
    {
      StandsForValid(vs, x);
    }
    if best != "" {
      HighestIsCanonical(vs, best);
      forall x | StandsFor(vs, x)
        ensures x == Parse(best).value || Precedes(x, Parse(best).value)
      {
        var c :| c in ValidVersions(vs) && Parse(c) == Some(x);
        ComparedByPrecedence(c, best);
      }
    } else {
      assert ValidVersions(vs) == [];
    }
    if ValidVersions(vs) != [] {
      var c := ValidVersions(vs)[0];
      HighestIsCanonical(vs, c);
      assert c in ValidVersions(vs) && Parse(c) == Some(Parse(c).value);
    }
  }

  /** No version of the list has higher numbers than the highest. */
  lemma HighestNumbers(vs: seq<string>, x: Version)
    requires StandsFor(vs, x)
    ensures IsValid(Highest(vs)) && !LowerNumbers(Parse(Highest(vs)).value, x)
  {
    HighestIsLastInPrecedence(vs);
    NumbersOfLower(x, Parse(Highest(vs)).value);
  }

  lemma NumbersOfLower(x: Version, y: Version)
    requires x == y || Precedes(x, y)
    ensures !LowerNumbers(y, x)
  {
  }

  // ---------------------------------------------------------------- which texts are versions, and of what numbers

  /** The dot-separated parts of a version's text. */
  datatype Spelling = Spelling(numbers: seq<string>, pre: seq<string>, build: seq<string>)

  function SpelledOut(sp: Spelling): string {
    "v" + Join(sp.numbers, ".")
    + (if sp.pre == [] then "" else "-" + Join(sp.pre, "."))
    + (if sp.build == [] then "" else "+" + Join(sp.build, "."))
  }

  predicate Digits(s: string) {
    s != "" && forall i :: 0 <= i < |s| ==> '0' <= s[i] <= '9'
  }

  predicate NoLeadingZero(s: string) {
    s == "0" || (s != "" && s[0] != '0')
  }

  predicate Letter(c: char) {
    '0' <= c <= '9' || 'a' <= c <= 'z' || 'A' <= c <= 'Z' || c == '-'
  }

  predicate Letters(s: string) {
    s != "" && forall i :: 0 <= i < |s| ==> Letter(s[i])
  }

  /** Sections 2, 9 and 10; numbers may be left out where nothing follows them. */
  predicate Allowed(sp: Spelling) {
    && 1 <= |sp.numbers| <= 3 && (sp.pre != [] || sp.build != [] ==> |sp.numbers| == 3)
    && (forall i :: 0 <= i < |sp.numbers| ==> Digits(sp.numbers[i]) && NoLeadingZero(sp.numbers[i]))
    && (forall i :: 0 <= i < |sp.pre| ==> Letters(sp.pre[i]) && (Digits(sp.pre[i]) ==> NoLeadingZero(sp.pre[i])))
    && (forall i :: 0 <= i < |sp.build| ==> Letters(sp.build[i]))
  }

  /** The numbers are those spelled, with 0 for those left out, and the identifiers too, as numbers where they are digits. */
  predicate Means(sp: Spelling, v: Version)
    requires Allowed(sp)
  {
    && v.major == NatOf(sp.numbers[0])
    && v.minor == (if |sp.numbers| > 1 then NatOf(sp.numbers[1]) else 0)
    && v.patch == (if |sp.numbers| > 2 then NatOf(sp.numbers[2]) else 0)
    && |v.pre| == |sp.pre|
    && forall i :: 0 <= i < |sp.pre| ==> v.pre[i] == if Digits(sp.pre[i]) then Num(NatOf(sp.pre[i])) else Alpha(sp.pre[i])
  }

  lemma PartsAre(s: string)
    ensures IsNumeral(s) <==> Digits(s) && NoLeadingZero(s)
    ensures BuildIdent(s) <==> Letters(s)
    ensures PreIdent(s) <==> Letters(s) && (Digits(s) ==> NoLeadingZero(s))
    ensures Letters(s) ==> (AllDigits(s) <==> Digits(s))
  {
    if s != "" && s[0] == '0' && |s| == 1 {
      assert s == "0";
    }
  }

  lemma PartsAvoid(parts: seq<string>, c: char)
    requires !Letter(c) && c != '.' && forall i :: 0 <= i < |parts| ==> Letters(parts[i])
    ensures c !in Join(parts, ".")
  {
    forall i | 0 <= i < |parts|
      ensures c !in parts[i]
    {
    }
    JoinAvoids(parts, ".", c);
  }

  lemma DigitsAvoid(parts: seq<string>, c: char)
    requires !IsDigit(c) && c != '.' && forall i :: 0 <= i < |parts| ==> Digits(parts[i])
    ensures c !in Join(parts, ".")
  {
    forall i | 0 <= i < |parts|
      ensures c !in parts[i]
    {
    }
    JoinAvoids(parts, ".", c);
  }

  lemma SplitParts(parts: seq<string>)
    requires parts != [] && forall i :: 0 <= i < |parts| ==> '.' !in parts[i]
    ensures Split(Join(parts, "."), '.') == parts
  {
    assert "." == ['.'];
    SplitJoin(parts, '.');
  }

  /** An allowed spelling, taken apart as it is read. */
  lemma CoreSpelled(sp: Spelling, pre: seq<Ident>)
    requires Allowed(sp)
    ensures '-' !in Join(sp.numbers, ".") && '+' !in Join(sp.numbers, ".")
    ensures ParseCore(Join(sp.numbers, "."), true, pre)
            == Some(Version(NatOf(sp.numbers[0]), if |sp.numbers| > 1 then NatOf(sp.numbers[1]) else 0,
                            if |sp.numbers| > 2 then NatOf(sp.numbers[2]) else 0, pre))
    ensures |sp.numbers| == 3 ==> ParseCore(Join(sp.numbers, "."), false, pre) == ParseCore(Join(sp.numbers, "."), true, pre)
  {
    DigitsAvoid(sp.numbers, '-');
    DigitsAvoid(sp.numbers, '+');
    forall i | 0 <= i < |sp.numbers|
      ensures IsNumeral(sp.numbers[i]) && '.' !in sp.numbers[i]
    {
      PartsAre(sp.numbers[i]);
    }
    SplitParts(sp.numbers);
  }

  lemma PreSpelled(sp: Spelling)
    requires Allowed(sp) && sp.pre != []
    ensures '+' !in Join(sp.pre, ".") && Split(Join(sp.pre, "."), '.') == sp.pre && All(PreIdent, sp.pre)
  {
    PartsAvoid(sp.pre, '+');
    forall i | 0 <= i < |sp.pre|
      ensures PreIdent(sp.pre[i]) && '.' !in sp.pre[i]
    {
      PartsAre(sp.pre[i]);
    }
    SplitParts(sp.pre);
  }

  lemma BuildSpelled(sp: Spelling)
    requires Allowed(sp) && sp.build != []
    ensures Split(Join(sp.build, "."), '.') == sp.build && All(BuildIdent, sp.build)
  {
    forall i | 0 <= i < |sp.build|
      ensures BuildIdent(sp.build[i]) && '.' !in sp.build[i]
    {
      PartsAre(sp.build[i]);
    }
    SplitParts(sp.build);
  }

  function Unbuilt(sp: Spelling): string {
    Join(sp.numbers, ".") + (if sp.pre == [] then "" else "-" + Join(sp.pre, "."))
  }

  lemma UnbuiltSpelled(sp: Spelling, v: Version, short: bool)
    requires Allowed(sp) && Means(sp, v) && (short || |sp.numbers| == 3)
    ensures '+' !in Unbuilt(sp) && ParseUnbuilt(Unbuilt(sp), short) == Some(v)
  {
    var core := Join(sp.numbers, ".");
    CoreSpelled(sp, v.pre);
    if sp.pre == [] {
      assert v.pre == [] && Unbuilt(sp) == core;
      CutNone(core, '-');
    } else {
      PreSpelled(sp);
      assert Unbuilt(sp) == core + ['-'] + Join(sp.pre, ".");
      CutAt(core, Join(sp.pre, "."), '-');
      forall i | 0 <= i < |sp.pre|
        ensures IdentOf(sp.pre[i]) == v.pre[i]
      {
        PartsAre(sp.pre[i]);
      }
      assert Idents(sp.pre) == v.pre;
    }
  }

  lemma SpelledParses(sp: Spelling, v: Version)
    requires Allowed(sp) && Means(sp, v)
    ensures Parse(SpelledOut(sp)) == Some(v)
  {
    var u, build := Unbuilt(sp), Join(sp.build, ".");
    SpelledShape(sp);
    if sp.build == [] {
      UnbuiltSpelled(sp, v, true);
      CutNone(u, '+');
      ParseBehindV(u);
    } else {
      UnbuiltSpelled(sp, v, false);
      BuildSpelled(sp);
      CutAt(u, build, '+');
      ParseBehindV(u + ['+'] + build);
    }
  }

  lemma SpelledShape(sp: Spelling)
    ensures SpelledOut(sp) == "v" + if sp.build == [] then Unbuilt(sp) else Unbuilt(sp) + ['+'] + Join(sp.build, ".")
  {
  }

  lemma ParseBehindV(u: string)
    ensures Parse("v" + u) == match Cut(u, '+')
                              case None => ParseUnbuilt(u, true)
                              case Some((s, build)) => if All(BuildIdent, Split(build, '.')) then ParseUnbuilt(s, false) else None
  {
    assert ("v" + u)[1..] == u;
  }

  lemma CoreTaken(core: string, short: bool, pre: seq<Ident>)
    requires ParseCore(core, short, pre).Some?
    ensures var parts, v := Split(core, '.'), ParseCore(core, short, pre).value;
      && core == Join(parts, ".") && 1 <= |parts| <= 3 && (!short ==> |parts| == 3)
      && (forall i :: 0 <= i < |parts| ==> Digits(parts[i]) && NoLeadingZero(parts[i]))
      && v == Version(NatOf(parts[0]), if |parts| > 1 then NatOf(parts[1]) else 0, if |parts| > 2 then NatOf(parts[2]) else 0, pre)
  {
    var parts := Split(core, '.');
    JoinSplit(core, '.');
    assert "." == ['.'];
    forall i | 0 <= i < |parts|
      ensures Digits(parts[i]) && NoLeadingZero(parts[i])
    {
      PartsAre(parts[i]);
    }
  }

  lemma IdentsTaken(pre: string)
    requires All(PreIdent, Split(pre, '.'))
    ensures var parts := Split(pre, '.');
      && parts != [] && pre == Join(parts, ".")
      && (forall i :: 0 <= i < |parts| ==> Letters(parts[i]) && (Digits(parts[i]) ==> NoLeadingZero(parts[i])))
      && (forall i :: 0 <= i < |parts| ==> Idents(parts)[i] == if Digits(parts[i]) then Num(NatOf(parts[i])) else Alpha(parts[i]))
  {
    var parts := Split(pre, '.');
    JoinSplit(pre, '.');
    assert "." == ['.'];
    forall i | 0 <= i < |parts|
      ensures Letters(parts[i]) && (Digits(parts[i]) ==> NoLeadingZero(parts[i]))
      ensures IdentOf(parts[i]) == if Digits(parts[i]) then Num(NatOf(parts[i])) else Alpha(parts[i])
    {
      PartsAre(parts[i]);
    }
  }

  lemma UnbuiltTaken(u: string, short: bool) returns (sp: Spelling)
    requires ParseUnbuilt(u, short).Some?
    ensures sp.build == [] && Allowed(sp) && Means(sp, ParseUnbuilt(u, short).value) && Unbuilt(sp) == u
    ensures !short ==> |sp.numbers| == 3
  {
    match Cut(u, '-')
    case None =>
      CoreTaken(u, short, []);
      sp := Spelling(Split(u, '.'), [], []);
    case Some((core, pre)) =>
      CoreTaken(core, false, Idents(Split(pre, '.')));
      IdentsTaken(pre);
      sp := Spelling(Split(core, '.'), Split(pre, '.'), []);
      assert u == core + ("-" + pre);
  }

  lemma ParsedIsSpelled(s: string) returns (sp: Spelling)
    requires IsValid(s)
    ensures Allowed(sp) && Means(sp, Parse(s).value) && s == SpelledOut(sp)
  {
    var rest := s[1..];
    assert s == "v" + rest;
    ParseBehindV(rest);
    match Cut(rest, '+')
    case None =>
      sp := UnbuiltTaken(rest, true);
      SpelledShape(sp);
    case Some((u, build)) =>
      sp := UnbuiltTaken(u, false);
      BuildTaken(build);
      sp := sp.(build := Split(build, '.'));
      SpelledShape(sp);
  }

  lemma BuildTaken(build: string)
    requires All(BuildIdent, Split(build, '.'))
    ensures build == Join(Split(build, '.'), ".") && forall i :: 0 <= i < |Split(build, '.')| ==> Letters(Split(build, '.')[i])
  {
    var parts := Split(build, '.');
    JoinSplit(build, '.');
    assert "." == ['.'];
    forall i | 0 <= i < |parts|
      ensures Letters(parts[i])
    {
      PartsAre(parts[i]);
    }
  }

  /** A text is a version exactly when it is an allowed spelling, and then the one of the numbers spelled. */
  lemma ParsesExactly(s: string, v: Version)
    ensures Parse(s) == Some(v) <==> exists sp :: Allowed(sp) && Means(sp, v) && s == SpelledOut(sp)
  {
    if Parse(s) == Some(v) {
      var sp := ParsedIsSpelled(s);
    }
    if sp :| Allowed(sp) && Means(sp, v) && s == SpelledOut(sp) {
      SpelledParses(sp, v);
    }
  }

  /** The spelling of a canonical text, number by number and identifier by identifier. */
  lemma FormatSpelled(v: Version)
    requires WellFormed(v)
    ensures Format(v) == "v" + Decimal(v.major) + "." + Decimal(v.minor) + "." + Decimal(v.patch)
                         + if v.pre == [] then "" else "-" + Join(IdentTexts(v.pre), ".")
    ensures forall i :: 0 <= i < |v.pre| ==> IdentTexts(v.pre)[i] == if v.pre[i].Num? then Decimal(v.pre[i].n) else v.pre[i].s
  {
    Join3(Decimal(v.major), Decimal(v.minor), Decimal(v.patch));
  }

  /** Numbers are read and written in base ten, the highest place first. */
  lemma BaseTen()
    ensures NatOf("145") == 145 && Decimal(145) == "145" && NatOf("10") == 10 && Decimal(10) == "10"
  {
    assert NatOf("1") == 1 && "14"[..1] == "1" && "145"[..2] == "14" && "10"[..1] == "1";
    assert NatOf("14") == 14;
    assert Decimal(1) == "1" && Decimal(14) == "14";
  }
}
