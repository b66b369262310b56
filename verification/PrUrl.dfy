/** The pull-request URL parser: a recogniser for its anchored regular expression. */
module PrUrl {
  import opened Options
  import opened Sequences
  import opened Text

  const HOST := "https://github.com/"
  const PULL := "pull/"
  const MAX_INT: nat := 0x7FFF_FFFF_FFFF_FFFF

  datatype PrRef = PrRef(owner: string, repo: string, number: nat)
  datatype Parsed = Ok(pr: PrRef) | InvalidUrl | InvalidNumber

  /** The digits of `s` when it is digits with at most one '/' behind them. */
  function NumberPart(s: string): (r: Option<string>)
    ensures r.Some? ==> r.value != "" && AllDigits(r.value) && (s == r.value || s == r.value + "/")
  {
    var d := if HasSuffix(s, "/") then s[..|s| - 1] else s;
    if d != "" && AllDigits(d) then Some(d) else None
  }

  function ParseNumber(owner: string, repo: string, s: string): Parsed {
    match NumberPart(s)
    case None => InvalidUrl
    case Some(d) => if NatOf(d) <= MAX_INT then Ok(PrRef(owner, repo, NatOf(d))) else InvalidNumber
  }

  function ParseRepo(owner: string, s: string): Parsed {
    match Cut(s, '/')
    case None => InvalidUrl
    case Some((repo, rest)) =>
      if repo == "" || !HasPrefix(rest, PULL) then InvalidUrl else ParseNumber(owner, repo, rest[|PULL|..])
  }

  function ParseOwner(s: string): Parsed {
    match Cut(s, '/')
    case None => InvalidUrl
    case Some((owner, rest)) => if owner == "" then InvalidUrl else ParseRepo(owner, rest)
  }

  /** The parser after the surrounding space is gone. */
  function ParseTrimmed(s: string): Parsed {
    if HasPrefix(s, HOST) then ParseOwner(s[|HOST|..]) else InvalidUrl
  }

  function ParsePrUrl(raw: string): Parsed {
    ParseTrimmed(TrimSpace(raw))
  }

  function UrlText(owner: string, repo: string, digits: string): string {
    HOST + owner + "/" + repo + "/" + PULL + digits
  }

  /** The canonical URL of a pull request. */
  function PrintPrUrl(pr: PrRef): string {
    UrlText(pr.owner, pr.repo, Decimal(pr.number))
  }

  /** `s` has the form the regular expression describes. */
  ghost predicate Describes(s: string, owner: string, repo: string, digits: string) {
    && owner != "" && '/' !in owner && repo != "" && '/' !in repo
    && digits != "" && AllDigits(digits)
    && (s == UrlText(owner, repo, digits) || s == UrlText(owner, repo, digits) + "/")
  }

  lemma NumberAt(digits: string, slash: bool)
    requires digits != "" && AllDigits(digits)
    ensures NumberPart(if slash then digits + "/" else digits) == Some(digits)
  {
    var s := if slash then digits + "/" else digits;
    if slash {
      assert s[|s| - 1..] == "/" && s[..|s| - 1] == digits;
    } else {
      assert IsDigit(s[|s| - 1]);
      assert s[|s| - 1..][0] == s[|s| - 1];
    }
  }

  lemma PrefixSplits(h: string, t: string)
    ensures HasPrefix(h + t, h) && (h + t)[|h|..] == t
  {
  }

  lemma PrefixJoins(s: string, h: string)
    requires HasPrefix(s, h)
    ensures s == h + s[|h|..]
  {
  }

  lemma UrlShape(h: string, o: string, r: string, p: string, n: string)
    ensures h + o + "/" + r + "/" + p + n == h + (o + ['/'] + (r + ['/'] + (p + n)))
  {
    assert "/" == ['/'];
    AppendAssociates(h, o, "/");
    AppendAssociates(h, o + ['/'], r);
    AppendAssociates(o, ['/'], r);
    assert h + o + "/" + r + "/" + p + n == h + (o + ['/'] + (r + ['/'] + (p + n)));
  }

  function Result(owner: string, repo: string, digits: string): Parsed
    requires AllDigits(digits)
  {
    if NatOf(digits) <= MAX_INT then Ok(PrRef(owner, repo, NatOf(digits))) else InvalidNumber
  }

  /** A text of the described form is parsed into its parts. */
  lemma ParsesDescribed(s: string, owner: string, repo: string, digits: string)
    requires Describes(s, owner, repo, digits)
    ensures ParseTrimmed(s) == Result(owner, repo, digits)
  {
    var slash := s != UrlText(owner, repo, digits);
    var number := if slash then digits + "/" else digits;
    assert s == HOST + owner + "/" + repo + "/" + PULL + number;
    UrlShape(HOST, owner, repo, PULL, number);
    ParsesParts(owner, repo, digits, number);
    PrefixSplits(HOST, owner + ['/'] + (repo + ['/'] + (PULL + number)));
  }

  lemma ParsesParts(owner: string, repo: string, digits: string, number: string)
    requires owner != "" && '/' !in owner && repo != "" && '/' !in repo
    requires digits != "" && AllDigits(digits) && (number == digits || number == digits + "/")
    ensures ParseOwner(owner + ['/'] + (repo + ['/'] + (PULL + number))) == Result(owner, repo, digits)
  {
    CutAt(owner, repo + ['/'] + (PULL + number), '/');
    CutAt(repo, PULL + number, '/');
    PrefixSplits(PULL, number);
    NumberAt(digits, number != digits);
  }

  /** What is parsed has the described form. */
  lemma ParsedIsDescribed(s: string) returns (owner: string, repo: string, digits: string)
    requires !ParseTrimmed(s).InvalidUrl?
    ensures Describes(s, owner, repo, digits)
  {
    var afterHost := s[|HOST|..];
    PrefixJoins(s, HOST);
    owner := Cut(afterHost, '/').value.0;
    var afterOwner := Cut(afterHost, '/').value.1;
    repo := Cut(afterOwner, '/').value.0;
    var afterRepo := Cut(afterOwner, '/').value.1;
    PrefixJoins(afterRepo, PULL);
    var number := afterRepo[|PULL|..];
    digits := NumberPart(number).value;
    UrlShape(HOST, owner, repo, PULL, number);
    assert s == HOST + owner + "/" + repo + "/" + PULL + number;
    if number != digits {
      AppendAssociates(HOST + owner + "/" + repo + "/" + PULL, digits, "/");
    }
  }

  /** Exactly the described texts with a number that fits are accepted, each with its own parts. */
  lemma AcceptsExactly(raw: string, owner: string, repo: string, number: nat)
    ensures ParsePrUrl(raw) == Ok(PrRef(owner, repo, number)) <==>
            number <= MAX_INT && exists digits :: Describes(TrimSpace(raw), owner, repo, digits) && NatOf(digits) == number
  {
    var s := TrimSpace(raw);
    if ParseTrimmed(s) == Ok(PrRef(owner, repo, number)) {
      var o, r, d := ParsedIsDescribed(s);
      ParsesDescribed(s, o, r, d);
      assert Describes(s, owner, repo, d) && NatOf(d) == number;
    }
    if digits :| Describes(s, owner, repo, digits) && NatOf(digits) == number {
      ParsesDescribed(s, owner, repo, digits);
    }
  }

  /** A URL written out, in any white space: its parts are taken, unless its number does not fit 64 bits. */
  lemma SpelledUrlParses(a: string, owner: string, repo: string, digits: string, slash: bool, b: string)
    requires AllIn(a, WHITE_SPACE) && AllIn(b, WHITE_SPACE)
    requires owner != "" && '/' !in owner && repo != "" && '/' !in repo && digits != "" && AllDigits(digits)
    ensures var url := "https://github.com/" + owner + "/" + repo + "/pull/" + digits + if slash then "/" else "";
      ParsePrUrl(a + url + b) ==
        if NatOf(digits) < 0x8000_0000_0000_0000 then Ok(PrRef(owner, repo, NatOf(digits))) else InvalidNumber
  {
    var plain := UrlText(owner, repo, digits);
    var url := plain + if slash then "/" else "";
    UrlSpelled(owner, repo, digits);
    assert plain + "" == plain;
    assert Describes(url, owner, repo, digits);
    var middle := owner + "/" + repo + "/pull/";
    assert plain == "https://github.com/" + middle + digits;
    EndsAre("https://github.com/", middle, digits);
    assert IsDigit(digits[|digits| - 1]);
    SpaceExactly(url[0]);
    SpaceExactly(url[|url| - 1]);
    SurroundingSpaceGoes(a, url, b);
    ParsesDescribed(url, owner, repo, digits);
  }

  lemma UrlSpelled(owner: string, repo: string, digits: string)
    ensures UrlText(owner, repo, digits) == "https://github.com/" + owner + "/" + repo + "/pull/" + digits
  {
    assert "/pull/" == "/" + "pull/";
    AppendAssociates("https://github.com/" + owner + "/" + repo, "/", "pull/");
  }

  /** Nothing else is accepted: a text that is not a URL of this form in white space is invalid. */
  lemma OtherUrlsAreInvalid(raw: string) returns (owner: string, repo: string, digits: string)
    requires !ParsePrUrl(raw).InvalidUrl?
    ensures owner != "" && '/' !in owner && repo != "" && '/' !in repo && digits != "" && AllDigits(digits)
    ensures var url := "https://github.com/" + owner + "/" + repo + "/pull/" + digits;
      TrimSpace(raw) == url || TrimSpace(raw) == url + "/"
    ensures ParsePrUrl(raw).InvalidNumber? <==> NatOf(digits) >= 0x8000_0000_0000_0000
  {
    owner, repo, digits := ParsedIsDescribed(TrimSpace(raw));
    UrlSpelled(owner, repo, digits);
    ParsesDescribed(TrimSpace(raw), owner, repo, digits);
  }

  /** Every accepted URL round-trips: printing its parts gives a URL with the same parts. */
  lemma ParsePrintRoundTrip(raw: string)
    requires ParsePrUrl(raw).Ok?
    ensures var pr := ParsePrUrl(raw).pr;
      && pr.owner != "" && '/' !in pr.owner && pr.repo != "" && '/' !in pr.repo
      && ParsePrUrl(PrintPrUrl(pr)) == Ok(pr)
  {
    var pr := ParsePrUrl(raw).pr;
    var o, r, d := ParsedIsDescribed(TrimSpace(raw));
    ParsesDescribed(TrimSpace(raw), o, r, d);
    DecimalRoundTrip(pr.number);
    CanonicalIsTrimmed(pr);
    ParsesDescribed(PrintPrUrl(pr), pr.owner, pr.repo, Decimal(pr.number));
  }

  lemma EndsAre(h: string, t: string, d: string)
    requires h != "" && d != ""
    ensures var s := h + t + d; s[0] == h[0] && s[|s| - 1] == d[|d| - 1]
  {
  }

  /** A canonical URL begins with a letter and ends with a digit. */
  lemma CanonicalIsTrimmed(pr: PrRef)
    ensures TrimSpace(PrintPrUrl(pr)) == PrintPrUrl(pr)
  {
    var d := Decimal(pr.number);
    DecimalRoundTrip(pr.number);
    var middle := pr.owner + "/" + pr.repo + "/" + PULL;
    assert PrintPrUrl(pr) == HOST + middle + d;
    EndsAre(HOST, middle, d);
    assert HOST[0] == 'h' && IsDigit(d[|d| - 1]);
    TrimSpaceFixpoint(PrintPrUrl(pr));
  }
}
