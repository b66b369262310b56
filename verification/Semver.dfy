/**
 Semantic versions as golang.org/x/mod/semver reads them: the grammar of Semantic Versioning
 2.0.0 behind a "v", with "vX" and "vX.Y" as shorthands, canonical form, and precedence as
 section 11 of that standard defines it.
 */
module Semver {
  import opened Options
  import opened Sequences
  import opened Text

  datatype Ident = Num(n: nat) | Alpha(s: string)

  /** Build metadata (section 10) takes no part in precedence and is not kept. */
  datatype Version = Version(major: nat, minor: nat, patch: nat, pre: seq<Ident>)

  // ---------------------------------------------------------------- reading and writing

  predicate IdentChar(c: char) {
    'A' <= c <= 'Z' || 'a' <= c <= 'z' || IsDigit(c) || c == '-'
  }

  predicate BuildIdent(s: string) {
    s != "" && forall i :: 0 <= i < |s| ==> IdentChar(s[i])
  }

  predicate PreIdent(s: string) {
    BuildIdent(s) && (AllDigits(s) ==> IsNumeral(s))
  }

  predicate All(p: string -> bool, parts: seq<string>) {
    forall i :: 0 <= i < |parts| ==> p(parts[i])
  }

  function IdentOf(s: string): Ident {
    if AllDigits(s) then Num(NatOf(s)) else Alpha(s)
  }

  function IdentText(i: Ident): string {
    match i
    case Num(n) => Decimal(n)
    case Alpha(s) => s
  }

  function Idents(parts: seq<string>): seq<Ident> {
    seq(|parts|, i requires 0 <= i < |parts| => IdentOf(parts[i]))
  }

  function IdentTexts(pre: seq<Ident>): (r: seq<string>)
    ensures |r| == |pre|
  {
    seq(|pre|, i requires 0 <= i < |pre| => IdentText(pre[i]))
  }

  function Part(parts: seq<string>, i: nat): nat
    requires All(IsNumeral, parts)
  {
    if i < |parts| then NatOf(parts[i]) else 0
  }

  /** The numbers; only a version without pre-release and build may leave some out. */
  function ParseCore(core: string, short: bool, pre: seq<Ident>): Option<Version> {
    var parts := Split(core, '.');
    if All(IsNumeral, parts) && (|parts| == 3 || (short && |parts| < 3))
    then Some(Version(Part(parts, 0), Part(parts, 1), Part(parts, 2), pre))
    else None
  }

  function ParseUnbuilt(s: string, short: bool): Option<Version> {
    match Cut(s, '-')
    case None => ParseCore(s, short, [])
    case Some((core, pre)) =>
      if All(PreIdent, Split(pre, '.')) then ParseCore(core, false, Idents(Split(pre, '.'))) else None
  }

  function Parse(v: string): Option<Version> {
    if v == "" || v[0] != 'v' then None
    else
      match Cut(v[1..], '+')
      case None => ParseUnbuilt(v[1..], true)
      case Some((s, build)) => if All(BuildIdent, Split(build, '.')) then ParseUnbuilt(s, false) else None
  }

  function CoreText(v: Version): string {
    Join([Decimal(v.major), Decimal(v.minor), Decimal(v.patch)], ".")
  }

  function PreText(pre: seq<Ident>): string {
    Join(IdentTexts(pre), ".")
  }

  function Format(v: Version): string {
    "v" + if v.pre == [] then CoreText(v) else CoreText(v) + "-" + PreText(v.pre)
  }

  predicate IsValid(v: string) {
    Parse(v).Some?
  }

  function Canonical(v: string): string {
    match Parse(v)
    case None => ""
    case Some(p) => Format(p)
  }

  /** semver.Major, of valid versions. */
  function Major(v: string): string {
    match Parse(v)
    case None => ""
    case Some(p) => "v" + Decimal(p.major)
  }

  /** The versions there are texts for. */
  ghost predicate WellFormed(v: Version) {
    forall i :: 0 <= i < |v.pre| ==> v.pre[i].Alpha? ==> PreIdent(v.pre[i].s) && !AllDigits(v.pre[i].s)
  }

  // ---------------------------------------------------------------- round trip

  lemma {:induction false} JoinAvoids(parts: seq<string>, sep: string, c: char)
    requires Without(parts, c) && c !in sep
    ensures c !in Join(parts, sep)
  {
    if |parts| > 1 {
      assert c !in parts[0];
      JoinAvoids(parts[1..], sep, c);
    }
  }

  lemma DecimalIsNumeral(n: nat)
    ensures IsNumeral(Decimal(n)) && NatOf(Decimal(n)) == n
  {
    DecimalRoundTrip(n);
    if n == 0 {
      assert Decimal(0) == "0";
    }
  }

  lemma DigitsOnly(s: string, c: char)
    requires AllDigits(s) && !IsDigit(c)
    ensures c !in s
  {
  }

  lemma IdentRoundTrip(i: Ident)
    requires i.Alpha? ==> PreIdent(i.s) && !AllDigits(i.s)
    ensures PreIdent(IdentText(i)) && IdentOf(IdentText(i)) == i
    ensures '.' !in IdentText(i) && '+' !in IdentText(i)
  {
    if i.Num? {
      DecimalIsNumeral(i.n);
      var s := Decimal(i.n);
      assert forall k :: 0 <= k < |s| ==> IsDigit(s[k]);
      DigitsOnly(s, '.');
      DigitsOnly(s, '+');
    }
  }

  lemma PreRoundTrip(v: Version)
    requires WellFormed(v) && v.pre != []
    ensures '+' !in PreText(v.pre)
    ensures All(PreIdent, Split(PreText(v.pre), '.')) && Idents(Split(PreText(v.pre), '.')) == v.pre
  {
    var texts := IdentTexts(v.pre);
    forall i | 0 <= i < |texts|
      ensures PreIdent(texts[i]) && IdentOf(texts[i]) == v.pre[i] && '.' !in texts[i] && '+' !in texts[i]
    {
      IdentRoundTrip(v.pre[i]);
    }
    JoinAvoids(texts, ".", '+');
    assert "." == ['.'];
    SplitJoin(texts, '.');
  }

  lemma CoreRoundTrip(v: Version, short: bool)
    ensures '+' !in CoreText(v) && '-' !in CoreText(v)
    ensures ParseCore(CoreText(v), short, v.pre) == Some(v)
  {
    var parts := [Decimal(v.major), Decimal(v.minor), Decimal(v.patch)];
    DecimalIsNumeral(v.major);
    DecimalIsNumeral(v.minor);
    DecimalIsNumeral(v.patch);
    forall i | 0 <= i < 3
      ensures IsNumeral(parts[i]) && '.' !in parts[i] && '+' !in parts[i] && '-' !in parts[i]
    {
      DigitsOnly(parts[i], '.');
      DigitsOnly(parts[i], '+');
      DigitsOnly(parts[i], '-');
    }
    JoinAvoids(parts, ".", '+');
    JoinAvoids(parts, ".", '-');
    assert "." == ['.'];
    SplitJoin(parts, '.');
  }

  lemma UnbuiltRoundTrip(v: Version)
    requires WellFormed(v)
    ensures ParseUnbuilt(Format(v)[1..], true) == Some(v) && '+' !in Format(v)[1..]
  {
    CoreRoundTrip(v, v.pre == []);
    if v.pre != [] {
      PreRoundTrip(v);
      assert Format(v)[1..] == CoreText(v) + ['-'] + PreText(v.pre);
      CutAt(CoreText(v), PreText(v.pre), '-');
    } else {
      assert Format(v)[1..] == CoreText(v);
      CutNone(CoreText(v), '-');
    }
  }

  lemma CutNone(s: string, c: char)
    requires c !in s
    ensures Cut(s, c) == None
  {
  }

  /** A version's text reads back as the version. */
  lemma FormatParses(v: Version)
    requires WellFormed(v)
    ensures Parse(Format(v)) == Some(v)
  {
    UnbuiltRoundTrip(v);
    CutNone(Format(v)[1..], '+');
  }

  /** What is read is well formed. */
  lemma ParsedIsWellFormed(s: string)
    requires IsValid(s)
    ensures WellFormed(Parse(s).value)
  {
    match Cut(s[1..], '+')
    case None => UnbuiltIsWellFormed(s[1..], true);
    case Some((x, build)) => UnbuiltIsWellFormed(x, false);
  }

  lemma UnbuiltIsWellFormed(s: string, short: bool)
    requires ParseUnbuilt(s, short).Some?
    ensures WellFormed(ParseUnbuilt(s, short).value)
  {
  }

  /** The canonical form is valid, means the same version and is its own canonical form. */
  lemma CanonicalIsStable(s: string)
    requires IsValid(s)
    ensures Parse(Canonical(s)) == Parse(s) && Canonical(Canonical(s)) == Canonical(s)
  {
    ParsedIsWellFormed(s);
    FormatParses(Parse(s).value);
  }

  /** Two texts have the same canonical form exactly when they are the same version. */
  lemma CanonicalIdentifies(s: string, t: string)
    requires IsValid(s) && IsValid(t)
    ensures Canonical(s) == Canonical(t) <==> Parse(s) == Parse(t)
  {
    CanonicalIsStable(s);
    CanonicalIsStable(t);
  }

  // ---------------------------------------------------------------- canonical form as text

  lemma NumeralText(s: string)
    requires IsNumeral(s)
    ensures Decimal(NatOf(s)) == s
  {
    DecimalIsNumeral(NatOf(s));
    NumeralsInjective(Decimal(NatOf(s)), s);
  }

  lemma PreKeepsText(pre: string)
    requires All(PreIdent, Split(pre, '.'))
    ensures Idents(Split(pre, '.')) != [] && PreText(Idents(Split(pre, '.'))) == pre
  {
    var parts := Split(pre, '.');
    forall i | 0 <= i < |parts|
      ensures IdentText(IdentOf(parts[i])) == parts[i]
    {
      if AllDigits(parts[i]) {
        NumeralText(parts[i]);
      }
    }
    assert IdentTexts(Idents(parts)) == parts;
    JoinSplit(pre, '.');
    assert "." == ['.'];
  }

  lemma CoreKeepsText(core: string, short: bool, pre: seq<Ident>)
    requires ParseCore(core, short, pre).Some?
    ensures var n := |Split(core, '.')|;
      CoreText(ParseCore(core, short, pre).value) == core + (if n == 1 then ".0.0" else if n == 2 then ".0" else "")
  {
    var parts := Split(core, '.');
    var texts := seq(|parts|, i requires 0 <= i < |parts| => Decimal(NatOf(parts[i])));
    forall i | 0 <= i < |parts|
      ensures texts[i] == parts[i]
    {
      NumeralText(parts[i]);
    }
    assert texts == parts;
    JoinSplit(core, '.');
    assert "." == ['.'];
    assert Decimal(0) == "0";
    Join3(Decimal(Part(parts, 0)), Decimal(Part(parts, 1)), Decimal(Part(parts, 2)));
    if |parts| == 3 {
      assert parts == [parts[0], parts[1], parts[2]];
      Join3(parts[0], parts[1], parts[2]);
    } else if |parts| == 2 {
      assert parts == [parts[0], parts[1]] && parts[1..] == [parts[1]];
    }
  }

  lemma Join3(a: string, b: string, c: string)
    ensures Join([a, b, c], ".") == a + "." + b + "." + c
  {
    assert [a, b, c][1..] == [b, c] && [b, c][1..] == [c];
    assert Join([b, c], ".") == b + "." + c;
    assert a + "." + (b + "." + c) == a + "." + b + "." + c;
  }

  /** What the missing numbers of a shorthand are read as. */
  function Padding(numbers: nat): string {
    if numbers == 1 then ".0.0" else if numbers == 2 then ".0" else ""
  }

  lemma WithPreKeepsText(core: string, pre: string)
    requires All(PreIdent, Split(pre, '.')) && ParseCore(core, false, Idents(Split(pre, '.'))).Some?
    ensures Format(ParseCore(core, false, Idents(Split(pre, '.'))).value) == "v" + (core + ['-'] + pre)
    ensures |Split(core + ['-'] + pre, '.')| >= 3
  {
    PreKeepsText(pre);
    CoreKeepsText(core, false, Idents(Split(pre, '.')));
    assert core + "" == core && "-" == ['-'];
    SplitLonger(core, ['-'] + pre, '.');
    AppendAssociates(core, ['-'], pre);
  }

  lemma UnbuiltKeepsText(s: string, short: bool)
    requires ParseUnbuilt(s, short).Some?
    ensures Format(ParseUnbuilt(s, short).value) == "v" + s + Padding(|Split(s, '.')|)
    ensures !short ==> |Split(s, '.')| >= 3
  {
    match Cut(s, '-')
    case None =>
      CoreKeepsText(s, short, []);
      AppendAssociates("v", s, Padding(|Split(s, '.')|));
    case Some((core, pre)) =>
      WithPreKeepsText(core, pre);
      assert "v" + s + "" == "v" + s;
  }

  /** Text behind a text does not make it fall into fewer pieces. */
  lemma {:induction false} SplitLonger(x: string, y: string, c: char)
    ensures |Split(x + y, c)| >= |Split(x, c)|
  {
    if x != "" {
      SplitLonger(x[1..], y, c);
      assert (x + y)[1..] == x[1..] + y;
    }
  }

  lemma SplitBehindV(s: string)
    requires s != "" && s[0] == 'v'
    ensures |Split(s, '.')| == |Split(s[1..], '.')|
  {
  }

  /** The canonical form is the text itself without its build metadata, or with a shorthand's missing numbers added. */
  lemma CanonicalText(s: string)
    requires IsValid(s)
    ensures match Cut(s, '+')
            case Some((version, _)) => Canonical(s) == version
            case None => Canonical(s) == s + Padding(|Split(s, '.')|)
  {
    SplitBehindV(s);
    CutBehind(s, '+');
    match Cut(s[1..], '+')
    case None => UnbuiltKeepsText(s[1..], true);
    case Some((x, build)) => UnbuiltKeepsText(x, false);
  }

  /** Cutting behind the first character. */
  lemma CutBehind(s: string, c: char)
    requires s != "" && s[0] != c
    ensures s == [s[0]] + s[1..]
    ensures match Cut(s[1..], c)
            case None => Cut(s, c) == None
            case Some((x, y)) => Cut(s, c) == Some(([s[0]] + x, y)) && [s[0]] + x + "" == [s[0]] + x
  {
    match Cut(s[1..], c)
    case None => CutNone(s, c);
    case Some((x, y)) =>
      assert s == ([s[0]] + x) + [c] + y;
      CutAt([s[0]] + x, y, c);
  }

  // ---------------------------------------------------------------- precedence

  function CmpNat(a: nat, b: nat): int {
    if a == b then 0 else if a < b then -1 else 1
  }

  function CmpText(a: string, b: string): int {
    if a == b then 0 else if Leq(a, b) then -1 else 1
  }

  /** Section 11.4.1 to 11.4.3: numbers by value, below any other identifier; those in ASCII order. */
  function CmpIdent(a: Ident, b: Ident): int {
    match (a, b)
    case (Num(x), Num(y)) => CmpNat(x, y)
    case (Num(_), Alpha(_)) => -1
    case (Alpha(_), Num(_)) => 1
    case (Alpha(x), Alpha(y)) => CmpText(x, y)
  }

  /** Section 11.4.4: the first difference decides, and else the longer list is higher. */
  function CmpIdents(a: seq<Ident>, b: seq<Ident>): int {
    if a == [] && b == [] then 0
    else if a == [] then -1
    else if b == [] then 1
    else if a[0] != b[0] then CmpIdent(a[0], b[0])
    else CmpIdents(a[1..], b[1..])
  }

  /** Section 11.3: a pre-release is below its release. */
  function CmpPre(a: seq<Ident>, b: seq<Ident>): int {
    if a == b then 0 else if a == [] then 1 else if b == [] then -1 else CmpIdents(a, b)
  }

  function Cmp(a: Version, b: Version): int {
    if a.major != b.major then CmpNat(a.major, b.major)
    else if a.minor != b.minor then CmpNat(a.minor, b.minor)
    else if a.patch != b.patch then CmpNat(a.patch, b.patch)
    else CmpPre(a.pre, b.pre)
  }

  lemma CmpIdentSign(a: Ident, b: Ident)
    ensures CmpIdent(a, b) == -CmpIdent(b, a) && (CmpIdent(a, b) == 0 <==> a == b) && -1 <= CmpIdent(a, b) <= 1
  {
    if a.Alpha? && b.Alpha? {
      LeqTotal(a.s, b.s);
      if Leq(a.s, b.s) && Leq(b.s, a.s) {
        LeqAntisymmetric(a.s, b.s);
      }
    }
  }

  lemma CmpIdentTransitive(a: Ident, b: Ident, c: Ident)
    requires CmpIdent(a, b) <= 0 && CmpIdent(b, c) <= 0
    ensures CmpIdent(a, c) <= 0
  {
    if a.Alpha? && b.Alpha? && c.Alpha? {
      LeqTotal(a.s, a.s);
      LeqTotal(b.s, b.s);
      LeqTransitive(a.s, b.s, c.s);
    }
  }

  lemma {:induction false} CmpIdentsSign(a: seq<Ident>, b: seq<Ident>)
    ensures CmpIdents(a, b) == -CmpIdents(b, a) && (CmpIdents(a, b) == 0 <==> a == b) && -1 <= CmpIdents(a, b) <= 1
  {
    if a != [] && b != [] {
      CmpIdentSign(a[0], b[0]);
      CmpIdentsSign(a[1..], b[1..]);
      assert a == [a[0]] + a[1..] && b == [b[0]] + b[1..];
    }
  }

  lemma {:induction false} CmpIdentsTransitive(a: seq<Ident>, b: seq<Ident>, c: seq<Ident>)
    requires CmpIdents(a, b) <= 0 && CmpIdents(b, c) <= 0
    ensures CmpIdents(a, c) <= 0
  {
    if a != [] && b != [] && c != [] {
      if a[0] == b[0] == c[0] {
        CmpIdentsTransitive(a[1..], b[1..], c[1..]);
      } else {
        CmpIdentSign(a[0], b[0]);
        CmpIdentSign(b[0], c[0]);
        CmpIdentSign(a[0], c[0]);
        CmpIdentTransitive(a[0], b[0], c[0]);
      }
    }
  }

  /** Precedence is antisymmetric, and only a version itself is level with it. */
  lemma CmpSign(a: Version, b: Version)
    ensures Cmp(a, b) == -Cmp(b, a) && (Cmp(a, b) == 0 <==> a == b) && -1 <= Cmp(a, b) <= 1
  {
    CmpIdentsSign(a.pre, b.pre);
  }

  lemma CmpTransitive(a: Version, b: Version, c: Version)
    requires Cmp(a, b) <= 0 && Cmp(b, c) <= 0
    ensures Cmp(a, c) <= 0
  {
    if a.major == b.major == c.major && a.minor == b.minor == c.minor && a.patch == b.patch == c.patch {
      CmpIdentsSign(a.pre, b.pre);
      CmpIdentsSign(b.pre, c.pre);
      if a.pre != [] && b.pre != [] && c.pre != [] {
        CmpIdentsTransitive(a.pre, b.pre, c.pre);
      }
    }
  }

  ghost predicate VersionLeq(a: Version, b: Version) {
    Cmp(a, b) <= 0
  }

  /** Precedence is a total order of versions. */
  lemma PrecedenceIsTotalOrder()
    ensures TotalOrder(VersionLeq)
  {
    forall a, b
      ensures VersionLeq(a, b) || VersionLeq(b, a)
      ensures VersionLeq(a, b) && VersionLeq(b, a) ==> a == b
    {
      CmpSign(a, b);
    }
    forall a, b, c | VersionLeq(a, b) && VersionLeq(b, c)
      ensures VersionLeq(a, c)
    {
      CmpTransitive(a, b, c);
    }
  }

  /** semver.Compare: an invalid version is below every valid one and level with any invalid one. */
  function Compare(a: string, b: string): int {
    match (Parse(a), Parse(b))
    case (None, None) => 0
    case (None, Some(_)) => -1
    case (Some(_), None) => 1
    case (Some(x), Some(y)) => Cmp(x, y)
  }

  /** The order semver.Sort sorts by: Compare, and the texts themselves where it is level. */
  predicate SortsBefore(a: string, b: string) {
    Compare(a, b) < 0 || (Compare(a, b) == 0 && Leq(a, b))
  }

  lemma SortsBeforeTotal(a: string, b: string)
    ensures SortsBefore(a, b) || SortsBefore(b, a)
    ensures SortsBefore(a, b) && SortsBefore(b, a) ==> a == b
  {
    LeqTotal(a, b);
    if Leq(a, b) && Leq(b, a) {
      LeqAntisymmetric(a, b);
    }
    if IsValid(a) && IsValid(b) {
      CmpSign(Parse(a).value, Parse(b).value);
    }
  }

  lemma SortsBeforeTransitive(a: string, b: string, c: string)
    requires SortsBefore(a, b) && SortsBefore(b, c)
    ensures SortsBefore(a, c)
  {
    if Leq(a, b) && Leq(b, c) {
      LeqTransitive(a, b, c);
    }
    if IsValid(a) && IsValid(b) && IsValid(c) {
      var x, y, z := Parse(a).value, Parse(b).value, Parse(c).value;
      CmpTransitive(x, y, z);
      CmpSign(x, y);
      CmpSign(y, z);
      CmpSign(x, z);
    }
  }

  lemma SortsBeforeIsTotalOrder()
    ensures TotalOrder(SortsBefore)
  {
    forall a, b
      ensures SortsBefore(a, b) || SortsBefore(b, a)
      ensures SortsBefore(a, b) && SortsBefore(b, a) ==> a == b
    {
      SortsBeforeTotal(a, b);
    }
    forall a, b, c | SortsBefore(a, b) && SortsBefore(b, c)
      ensures SortsBefore(a, c)
    {
      SortsBeforeTransitive(a, b, c);
    }
  }
}
