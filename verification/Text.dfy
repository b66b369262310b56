/** The string operations the changelog generator relies on, with the laws its proofs use. */
module Text {
  import opened Options
  import opened Sequences

  // ---------------------------------------------------------------- order

  /** Lexicographic order of strings. */
  predicate Leq(a: string, b: string) {
    a == "" || (b != "" && (a[0] < b[0] || (a[0] == b[0] && Leq(a[1..], b[1..]))))
  }

  lemma {:induction false} LeqTotal(a: string, b: string)
    ensures Leq(a, b) || Leq(b, a)
  {
    if a != "" && b != "" {
      LeqTotal(a[1..], b[1..]);
    }
  }

  lemma {:induction false} LeqAntisymmetric(a: string, b: string)
    requires Leq(a, b) && Leq(b, a)
    ensures a == b
  {
    if a != "" {
      LeqAntisymmetric(a[1..], b[1..]);
      assert a == [a[0]] + a[1..] && b == [b[0]] + b[1..];
    }
  }

  lemma {:induction false} LeqTransitive(a: string, b: string, c: string)
    requires Leq(a, b) && Leq(b, c)
    ensures Leq(a, c)
  {
    if a != "" && a[0] == b[0] == c[0] {
      LeqTransitive(a[1..], b[1..], c[1..]);
    }
  }

  lemma LeqIsTotalOrder()
    ensures TotalOrder(Leq)
  {
    forall a, b
      ensures Leq(a, b) || Leq(b, a)
    {
      LeqTotal(a, b);
    }
    forall a, b | Leq(a, b) && Leq(b, a)
      ensures a == b
    {
      LeqAntisymmetric(a, b);
    }
    forall a, b, c | Leq(a, b) && Leq(b, c)
      ensures Leq(a, c)
    {
      LeqTransitive(a, b, c);
    }
  }

  // ---------------------------------------------------------------- splitting and joining

  /** The pieces of `s` between occurrences of `c`; always at least one. */
  function Split(s: string, c: char): (r: seq<string>)
    ensures |r| >= 1
  {
    if s == "" then [""]
    else
      var rest := Split(s[1..], c);
      if s[0] == c then [""] + rest else [[s[0]] + rest[0]] + rest[1..]
  }

  function Join(parts: seq<string>, sep: string): string {
    if parts == [] then ""
    else if |parts| == 1 then parts[0]
    else parts[0] + sep + Join(parts[1..], sep)
  }

  ghost predicate Without(parts: seq<string>, c: char) {
    forall i :: 0 <= i < |parts| ==> c !in parts[i]
  }

  lemma {:induction false} SplitWithout(s: string, c: char)
    ensures Without(Split(s, c), c)
  {
    if s != "" {
      var rest := Split(s[1..], c);
      SplitWithout(s[1..], c);
      assert c !in rest[0];
      var r := Split(s, c);
      forall i | 0 <= i < |r|
        ensures c !in r[i]
      {
        assert s[0] == c && i > 0 ==> r[i] == rest[i - 1];
        assert s[0] != c && i > 0 ==> r[i] == rest[i];
      }
    }
  }

  lemma {:induction false} JoinSplit(s: string, c: char)
    ensures Join(Split(s, c), [c]) == s
  {
    if s != "" {
      var rest := Split(s[1..], c);
      JoinSplit(s[1..], c);
      var r := Split(s, c);
      if s[0] == c {
        assert r[1..] == rest;
        assert Join(r, [c]) == "" + [c] + s[1..];
      } else {
        assert r[1..] == rest[1..];
        if |rest| == 1 {
          assert Join(rest, [c]) == rest[0];
        } else {
          assert Join(rest, [c]) == rest[0] + [c] + Join(rest[1..], [c]);
          assert Join(r, [c]) == ([s[0]] + rest[0]) + [c] + Join(rest[1..], [c]);
        }
      }
    }
  }

  /** A piece without `c` in front of a `c` is the first piece. */
  lemma {:induction false} SplitFirst(x: string, rest: string, c: char)
    requires c !in x
    ensures Split(x + [c] + rest, c) == [x] + Split(rest, c)
  {
    var s := x + [c] + rest;
    if x == "" {
      assert s[0] == c && s[1..] == rest;
    } else {
      SplitFirst(x[1..], rest, c);
      assert s[1..] == x[1..] + [c] + rest;
      assert [x[0]] + x[1..] == x;
    }
  }

  lemma {:induction false} SplitSingle(x: string, c: char)
    requires c !in x
    ensures Split(x, c) == [x]
  {
    if x != "" {
      SplitSingle(x[1..], c);
      assert [x[0]] + x[1..] == x;
    }
  }

  lemma {:induction false} SplitJoin(parts: seq<string>, c: char)
    requires parts != [] && Without(parts, c)
    ensures Split(Join(parts, [c]), c) == parts
  {
    if |parts| == 1 {
      SplitSingle(parts[0], c);
    } else {
      SplitJoin(parts[1..], c);
      SplitFirst(parts[0], Join(parts[1..], [c]), c);
      assert parts == [parts[0]] + parts[1..];
    }
  }

  lemma {:induction false} JoinAppend(a: seq<string>, b: seq<string>, c: char)
    requires a != [] && b != []
    ensures Join(a + b, [c]) == Join(a, [c]) + [c] + Join(b, [c])
  {
    if |a| == 1 {
      assert (a + b)[1..] == b;
    } else {
      JoinAppend(a[1..], b, c);
      assert (a + b)[1..] == a[1..] + b;
      var tail := Join(a[1..], [c]);
      assert a[0] + [c] + (tail + [c] + Join(b, [c])) == (a[0] + [c] + tail) + [c] + Join(b, [c]);
    }
  }

  // ---------------------------------------------------------------- trimming

  /** What unicode.IsSpace accepts. */
  predicate IsSpace(c: char) {
    || '\t' <= c <= '\r' || c == ' ' || c == '\U{85}' || c == '\U{A0}' || c == '\U{1680}'
    || '\U{2000}' <= c <= '\U{200A}' || c == '\U{2028}' || c == '\U{2029}' || c == '\U{202F}'
    || c == '\U{205F}' || c == '\U{3000}'
  }

  function TrimLeft(s: string, cut: char -> bool): string {
    if s == "" || !cut(s[0]) then s else TrimLeft(s[1..], cut)
  }

  function TrimRight(s: string, cut: char -> bool): string {
    if s == "" || !cut(s[|s| - 1]) then s else TrimRight(s[..|s| - 1], cut)
  }

  function TrimSpace(s: string): string {
    TrimRight(TrimLeft(s, IsSpace), IsSpace)
  }

  lemma {:induction false} TrimLeftMeaning(s: string, cut: char -> bool)
    ensures var t := TrimLeft(s, cut);
      && |t| <= |s| && t == s[|s| - |t|..] && (t == "" || !cut(t[0]))
      && forall i :: 0 <= i < |s| - |t| ==> cut(s[i])
  {
    if s != "" && cut(s[0]) {
      var r, t := s[1..], TrimLeft(s[1..], cut);
      TrimLeftMeaning(r, cut);
      assert r[|r| - |t|..] == s[|s| - |t|..];
      assert forall i :: 0 < i < |s| ==> s[i] == r[i - 1];
    }
  }

  lemma {:induction false} TrimRightMeaning(s: string, cut: char -> bool)
    ensures var t := TrimRight(s, cut);
      && |t| <= |s| && t == s[..|t|] && (t == "" || !cut(t[|t| - 1]))
      && forall i :: |t| <= i < |s| ==> cut(s[i])
  {
    if s != "" && cut(s[|s| - 1]) {
      TrimRightMeaning(s[..|s| - 1], cut);
    }
  }

  /** A trimmed string neither begins nor ends with a space. */
  lemma TrimSpaceEnds(s: string)
    ensures var t := TrimSpace(s);
      t == "" || (!IsSpace(t[0]) && !IsSpace(t[|t| - 1]))
  {
    TrimLeftMeaning(s, IsSpace);
    TrimRightMeaning(TrimLeft(s, IsSpace), IsSpace);
  }

  lemma TrimSpaceFixpoint(s: string)
    requires s == "" || (!IsSpace(s[0]) && !IsSpace(s[|s| - 1]))
    ensures TrimSpace(s) == s
  {
  }

  lemma {:induction false} TrimsFront(w: string, s: string, cut: char -> bool)
    requires (forall i :: 0 <= i < |w| ==> cut(w[i])) && (s == "" || !cut(s[0]))
    ensures TrimLeft(w + s, cut) == s
  {
    if w == "" {
      assert w + s == s;
    } else {
      assert (w + s)[0] == w[0] && (w + s)[1..] == w[1..] + s;
      TrimsFront(w[1..], s, cut);
    }
  }

  lemma {:induction false} TrimsBack(s: string, w: string, cut: char -> bool)
    requires (forall i :: 0 <= i < |w| ==> cut(w[i])) && (s == "" || !cut(s[|s| - 1]))
    ensures TrimRight(s + w, cut) == s
  {
    if w == "" {
      assert s + w == s;
    } else {
      var n := |w| - 1;
      assert (s + w)[|s + w| - 1] == w[n] && (s + w)[..|s + w| - 1] == s + w[..n];
      TrimsBack(s, w[..n], cut);
    }
  }

  /** The characters of Unicode's property White_Space. */
  const WHITE_SPACE := "\t\n\U{B}\U{C}\r \U{85}\U{A0}\U{1680}\U{2000}\U{2001}\U{2002}\U{2003}\U{2004}\U{2005}\U{2006}\U{2007}\U{2008}\U{2009}\U{200A}\U{2028}\U{2029}\U{202F}\U{205F}\U{3000}"

  lemma SpaceExactly(c: char)
    ensures IsSpace(c) <==> c in WHITE_SPACE
  {
    var ws := WHITE_SPACE;
    assert |ws| == 25 && ws[..6] == "\t\n\U{B}\U{C}\r " && ws[6..9] == "\U{85}\U{A0}\U{1680}";
    assert forall i :: 0 <= i < 5 ==> ws[i] == (9 + i) as char;
    assert forall i :: 9 <= i < 20 ==> ws[i] == (0x2000 + i - 9) as char;
    if '\t' <= c <= '\r' {
      assert ws[c as int - 9] == c;
    } else if '\U{2000}' <= c <= '\U{200A}' {
      assert ws[c as int - 0x2000 + 9] == c;
    }
  }

  ghost predicate AllIn(s: string, chars: string) {
    forall i :: 0 <= i < |s| ==> s[i] in chars
  }

  /** The space around a text goes, and nothing else. */
  lemma SurroundingSpaceGoes(a: string, s: string, b: string)
    requires AllIn(a, WHITE_SPACE) && AllIn(b, WHITE_SPACE)
    requires s != "" && s[0] !in WHITE_SPACE && s[|s| - 1] !in WHITE_SPACE
    ensures TrimSpace(a + s + b) == s
  {
    forall i | 0 <= i < |a|
      ensures IsSpace(a[i])
    {
      SpaceExactly(a[i]);
    }
    forall i | 0 <= i < |b|
      ensures IsSpace(b[i])
    {
      SpaceExactly(b[i]);
    }
    SpaceExactly(s[0]);
    SpaceExactly(s[|s| - 1]);
    assert a + s + b == a + (s + b) && (s + b)[0] == s[0];
    TrimsFront(a, s + b, IsSpace);
    TrimsBack(s, b, IsSpace);
  }

  // ---------------------------------------------------------------- prefixes and searching

  predicate HasPrefix(s: string, p: string) {
    |p| <= |s| && s[..|p|] == p
  }

  predicate HasSuffix(s: string, p: string) {
    |p| <= |s| && s[|s| - |p|..] == p
  }

  predicate OccursAt(s: string, m: string, i: nat) {
    i + |m| <= |s| && s[i..i + |m|] == m
  }

  predicate Contains(s: string, m: string) {
    exists i :: 0 <= i <= |s| && OccursAt(s, m, i)
  }

  /** The position of the first occurrence of `m` from `i` on, as strings.Index finds it. */
  function IndexFrom(s: string, m: string, i: nat): (r: Option<nat>)
    requires i <= |s|
    ensures r.Some? ==> i <= r.value && OccursAt(s, m, r.value) && forall j :: i <= j < r.value ==> !OccursAt(s, m, j)
    ensures r.None? ==> forall j :: i <= j <= |s| ==> !OccursAt(s, m, j)
    decreases |s| - i
  {
    if OccursAt(s, m, i) then Some(i) else if i == |s| then None else IndexFrom(s, m, i + 1)
  }

  function Index(s: string, m: string): Option<nat> {
    IndexFrom(s, m, 0)
  }

  /** The text in front of the first `c`, and the text behind it. */
  function Cut(s: string, c: char): (r: Option<(string, string)>)
    ensures r.Some? ==> c !in r.value.0 && s == r.value.0 + [c] + r.value.1
    ensures r.None? ==> c !in s
  {
    match Index(s, [c])
    case Some(i) =>
      assert forall j :: 0 <= j < i ==> OccursAt(s, [c], j) || s[j] != c;
      assert s[i..i + 1] == [c];
      Some((s[..i], s[i + 1..]))
    case None =>
      assert forall j :: 0 <= j < |s| ==> OccursAt(s, [c], j) || s[j] != c;
      None
  }

  lemma CutAt(x: string, y: string, c: char)
    requires c !in x
    ensures Cut(x + [c] + y, c) == Some((x, y))
  {
    var s := x + [c] + y;
    var r := Cut(s, c);
    assert s[|x|] == c;
    assert c in s;
    CutUnique(x, y, r.value.0, r.value.1, c);
  }

  /** Two texts cut at their first `c` have equal halves. */
  lemma CutUnique(x: string, y: string, x': string, y': string, c: char)
    requires c !in x && c !in x' && x + [c] + y == x' + [c] + y'
    ensures x == x' && y == y'
  {
    var s := x + [c] + y;
    assert s[|x|] == c && s[|x'|] == c;
    assert forall i :: 0 <= i < |x| ==> s[i] == x[i];
    assert forall i :: 0 <= i < |x'| ==> s[i] == x'[i];
    assert x == s[..|x|] && x' == s[..|x'|];
    assert y == s[|x| + 1..] && y' == s[|x'| + 1..];
  }

  // ---------------------------------------------------------------- decimal numbers

  predicate IsDigit(c: char) {
    '0' <= c <= '9'
  }

  predicate AllDigits(s: string) {
    forall i :: 0 <= i < |s| ==> IsDigit(s[i])
  }

  /** The number a string of digits spells. */
  function NatOf(s: string): nat
    requires AllDigits(s)
  {
    if s == "" then 0 else 10 * NatOf(s[..|s| - 1]) + (s[|s| - 1] as nat - '0' as nat)
  }

  function DigitChar(d: nat): char
    requires d < 10
  {
    ('0' as nat + d) as char
  }

  function Decimal(n: nat): string {
    if n < 10 then [DigitChar(n)] else Decimal(n / 10) + [DigitChar(n % 10)]
  }

  lemma {:induction false} DecimalRoundTrip(n: nat)
    ensures Decimal(n) != "" && AllDigits(Decimal(n)) && NatOf(Decimal(n)) == n
    ensures Decimal(n)[0] == '0' ==> n == 0
  {
    if n >= 10 {
      DecimalRoundTrip(n / 10);
      var front := Decimal(n / 10);
      assert Decimal(n)[..|front|] == front;
      assert Decimal(n)[0] == front[0];
    } else {
      assert Decimal(n)[..0] == "";
    }
  }

  /** Digits without superfluous leading zeros. */
  predicate IsNumeral(s: string) {
    s != "" && AllDigits(s) && (s[0] == '0' ==> |s| == 1)
  }

  lemma {:induction false} NatOfPositive(s: string)
    requires s != "" && AllDigits(s) && s[0] != '0'
    ensures NatOf(s) > 0
  {
    if |s| > 1 {
      NatOfPositive(s[..|s| - 1]);
    }
  }

  /** Two numerals spell the same number only if they are the same. */
  lemma {:induction false} NumeralsInjective(s: string, t: string)
    requires IsNumeral(s) && IsNumeral(t) && NatOf(s) == NatOf(t)
    ensures s == t
  {
    var s', t' := s[..|s| - 1], t[..|t| - 1];
    assert NatOf(s) == 10 * NatOf(s') + (s[|s| - 1] as nat - '0' as nat);
    assert NatOf(t) == 10 * NatOf(t') + (t[|t| - 1] as nat - '0' as nat);
    assert IsDigit(s[|s| - 1]) && IsDigit(t[|t| - 1]);
    assert NatOf(s') == NatOf(t') && s[|s| - 1] == t[|t| - 1];
    if s' != "" {
      NatOfPositive(s');
    }
    if t' != "" {
      NatOfPositive(t');
    }
    if s' != "" && t' != "" {
      NumeralsInjective(s', t');
    }
    assert s == s' + [s[|s| - 1]] && t == t' + [t[|t| - 1]];
  }
}
