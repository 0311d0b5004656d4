/** Nightly version strings (scripts/ppa-nightly.py) and their order under section 5.6.12 of the
    Debian Policy Manual. Text is ASCII. */
module Versions {
  import opened Sequences

  predicate IsDigit(c: char) { '0' <= c <= '9' }

  predicate NotDigit(c: char) { !IsDigit(c) }

  predicate IsHex(c: char) { IsDigit(c) || 'a' <= c <= 'f' }

  ghost predicate All(s: string, p: char -> bool) {
    forall i :: 0 <= i < |s| ==> p(s[i])
  }

  // ---------- decimal numbers ----------

  function DigitOf(n: nat): char
    requires n < 10
  {
    '0' + n as char
  }

  /** Decimal formatting, as in an f-string. */
  function Digits(n: nat): (s: string) {
    if n < 10 then [DigitOf(n)] else Digits(n / 10) + [DigitOf(n % 10)]
  }

  function DigitValue(c: char): int { c as int - '0' as int }

  function Value(s: string): int {
    if s == "" then 0 else 10 * Value(s[..|s| - 1]) + DigitValue(s[|s| - 1])
  }

  lemma {:induction false} ValueOfDigits(n: nat)
    ensures All(Digits(n), IsDigit) && Digits(n) != "" && Value(Digits(n)) == n
  {
    if n >= 10 {
      ValueOfDigits(n / 10);
      assert Digits(n)[..|Digits(n)| - 1] == Digits(n / 10);
    } else {
      assert Digits(n)[..0] == "";
    }
  }

  // ---------- scanning ----------

  /** The length of the longest prefix whose characters satisfy `p`. */
  function Span(s: string, p: char -> bool): (n: nat)
    ensures n <= |s|
    ensures forall i :: 0 <= i < n ==> p(s[i])
    ensures n < |s| ==> !p(s[n])
  {
    if s == "" || !p(s[0]) then 0 else 1 + Span(s[1..], p)
  }

  lemma {:induction false} SpanIs(a: string, b: string, p: char -> bool)
    requires All(a, p) && (b == "" || !p(b[0]))
    ensures Span(a + b, p) == |a|
    ensures (a + b)[..|a|] == a && (a + b)[|a|..] == b
  {
    if a == "" {
      assert a + b == b;
    } else {
      assert (a + b)[1..] == a[1..] + b;
      SpanIs(a[1..], b, p);
    }
  }

  /** Where a run of `p` characters ends in a separator, the split is unique. */
  lemma {:induction false} SplitRun(a: string, b: string, a': string, b': string, p: char -> bool)
    requires All(a, p) && All(a', p)
    requires b == "" || !p(b[0])
    requires b' == "" || !p(b'[0])
    requires a + b == a' + b'
    ensures a == a' && b == b'
  {
    SpanIs(a, b, p);
    SpanIs(a', b', p);
  }

  // ---------- version strings ----------

  /** The groups of a release-tag describe, e.g. v0.15.0-139-g3c162b83. */
  datatype Describe = Describe(major: string, minor: string, patch: string, commits: string, hash: string) {
    ghost predicate WellFormed() {
      && major != "" && All(major, IsDigit) && minor != "" && All(minor, IsDigit)
      && patch != "" && All(patch, IsDigit) && commits != "" && All(commits, IsDigit)
      && hash != "" && All(hash, IsHex)
    }

    function Tag(): string { major + ("." + (minor + ("." + patch))) }

    function Text(): string {
      "v" + (major + ("." + (minor + ("." + (patch + ("-" + (commits + ("-g" + hash))))))))
    }

    /** The nightly upstream version. */
    function Upstream(): string {
      major + ("." + (minor + ("." + (patch + ("+git" + (commits + (".g" + hash)))))))
    }
  }

  /** A digit group and what follows its separator. */
  function DigitGroup(s: string, separator: string): (r: Option<(string, string)>)
    ensures r.Some? ==> r.value.0 != "" && All(r.value.0, IsDigit)
                        && s == r.value.0 + (separator + r.value.1)
  {
    var n := Span(s, IsDigit);
    if n > 0 && separator <= s[n..] then
      assert s == s[..n] + (separator + s[n..][|separator|..]);
      Some((s[..n], s[n..][|separator|..]))
    else None
  }

  lemma {:induction false} DigitGroupFinds(d: string, separator: string, rest: string)
    requires d != "" && All(d, IsDigit) && separator != "" && NotDigit(separator[0])
    ensures DigitGroup(d + (separator + rest), separator) == Some((d, rest))
  {
    SpanIs(d, separator + rest, IsDigit);
    assert (separator + rest)[|separator|..] == rest;
  }

  function TwoGroups(s: string, sep: string, sep': string): (r: Option<(string, string, string)>)
    ensures r.Some? ==>
      && r.value.0 != "" && All(r.value.0, IsDigit) && r.value.1 != "" && All(r.value.1, IsDigit)
      && s == r.value.0 + (sep + (r.value.1 + (sep' + r.value.2)))
  {
    match DigitGroup(s, sep)
    case None => None
    case Some((a, s1)) =>
      match DigitGroup(s1, sep')
      case None => None
      case Some((b, s2)) => Some((a, b, s2))
  }

  lemma {:induction false} TwoGroupsFinds(a: string, sep: string, b: string, sep': string, rest: string)
    requires a != "" && All(a, IsDigit) && sep != "" && NotDigit(sep[0])
    requires b != "" && All(b, IsDigit) && sep' != "" && NotDigit(sep'[0])
    ensures TwoGroups(a + (sep + (b + (sep' + rest))), sep, sep') == Some((a, b, rest))
  {
    DigitGroupFinds(a, sep, b + (sep' + rest));
    DigitGroupFinds(b, sep', rest);
  }

  function PatchAndCommits(major: string, minor: string, s: string): (r: Option<Describe>)
    ensures r.Some? ==> r.value.major == major && r.value.minor == minor
                        && s == r.value.patch + ("-" + (r.value.commits + ("-g" + r.value.hash)))
    ensures r.Some? && major != "" && All(major, IsDigit) && minor != "" && All(minor, IsDigit) ==>
              r.value.WellFormed()
  {
    match TwoGroups(s, "-", "-g")
    case None => None
    case Some((patch, commits, hash)) =>
      if hash != "" && Span(hash, IsHex) == |hash| then Some(Describe(major, minor, patch, commits, hash))
      else None
  }

  /** The regular expression v(\d+\.\d+\.\d+)-(\d+)-g([0-9a-f]+), matched in full. */
  function ParseDescribe(s: string): (r: Option<Describe>)
    ensures r.Some? ==> r.value.WellFormed() && s == r.value.Text()
  {
    if s == "" || s[0] != 'v' then None
    else
      assert s == "v" + s[1..];
      match TwoGroups(s[1..], ".", ".")
      case None => None
      case Some((major, minor, rest)) => PatchAndCommits(major, minor, rest)
  }

  lemma {:induction false} ParseIsComplete(d: Describe)
    requires d.WellFormed()
    ensures ParseDescribe(d.Text()) == Some(d)
  {
    var rest := d.patch + ("-" + (d.commits + ("-g" + d.hash)));
    assert d.Text()[1..] == d.major + ("." + (d.minor + ("." + rest)));
    TwoGroupsFinds(d.major, ".", d.minor, ".", rest);
    TwoGroupsFinds(d.patch, "-", d.commits, "-g", d.hash);
    SpanIs(d.hash, "", IsHex);
    assert d.hash + "" == d.hash;
  }

  /** The parser accepts exactly the well-formed describe strings, and the groups are unique. */
  lemma {:induction false} ParseIsExact(s: string, d: Describe)
    ensures ParseDescribe(s) == Some(d) <==> d.WellFormed() && s == d.Text()
  {
    if d.WellFormed() {
      ParseIsComplete(d);
    }
  }

  /** `nightly_version`; None is its ValueError. */
  function NightlyVersion(describe: string): Option<string> {
    match ParseDescribe(describe)
    case None => None
    case Some(d) => Some(d.Upstream())
  }

  const SERIES := "resolute"

  function Revision(pparev: nat): string { "0ppa" + (Digits(pparev) + ("~" + (SERIES + "1"))) }

  /** `debian_version`. */
  function DebianVersion(upstream: string, pparev: nat): string {
    upstream + ("-" + Revision(pparev))
  }

  const EXAMPLE := Describe("0", "15", "0", "139", "3c162b83")

  lemma {:induction false} ExampleText()
    ensures EXAMPLE.Text() == "v0.15.0-139-g3c162b83"
  {
  }

  lemma {:induction false} ExampleUpstream()
    ensures EXAMPLE.Upstream() == "0.15.0+git139.g3c162b83"
  {
  }

  lemma {:induction false} ExampleUpload(u: string)
    ensures DebianVersion(u, 1) == u + "-0ppa1~resolute1"
  {
    assert Revision(1) == "0ppa1~resolute1";
  }

  /** The documented example: the upstream version, and its first upload. */
  lemma {:induction false} DocumentedExample()
    ensures NightlyVersion("v0.15.0-139-g3c162b83") == Some("0.15.0+git139.g3c162b83")
    ensures DebianVersion("0.15.0+git139.g3c162b83", 1) == "0.15.0+git139.g3c162b83" + "-0ppa1~resolute1"
  {
    ExampleText();
    ExampleUpstream();
    ParseIsComplete(EXAMPLE);
    ExampleUpload("0.15.0+git139.g3c162b83");
  }

  /** What the pattern allows in each group. */
  lemma {:induction false} WellFormedMeans(d: Describe)
    ensures d.WellFormed() <==>
      && (forall part :: part in [d.major, d.minor, d.patch, d.commits] ==>
            part != "" && forall k :: 0 <= k < |part| ==> '0' <= part[k] <= '9')
      && d.hash != "" && (forall k :: 0 <= k < |d.hash| ==> '0' <= d.hash[k] <= '9' || 'a' <= d.hash[k] <= 'f')
  {
    var parts := [d.major, d.minor, d.patch, d.commits];
    assert parts[0] == d.major && parts[1] == d.minor && parts[2] == d.patch && parts[3] == d.commits;
  }

  // ---------- the formatting is injective ----------

  predicate NotDash(c: char) { c != '-' }

  lemma {:induction false} RevisionHasNoDash(pparev: nat)
    ensures All(Revision(pparev), NotDash)
  {
    ValueOfDigits(pparev);
  }

  /** The last dash separates upstream version and revision. */
  lemma {:induction false} LastDash(a: string, b: string, a': string, b': string)
    requires All(b, NotDash) && All(b', NotDash)
    requires a + ("-" + b) == a' + ("-" + b')
    ensures a == a' && b == b'
  {
    var s := a + ("-" + b);
    assert s[|a|] == '-' && s[|a'|] == '-';
    assert a == s[..|a|] && a' == s[..|a'|];
    assert b == s[|a| + 1..] && b' == s[|a'| + 1..];
  }

  lemma {:induction false} RevisionInjective(r: nat, r': nat)
    requires Revision(r) == Revision(r')
    ensures r == r'
  {
    var d, d' := Digits(r), Digits(r');
    ValueOfDigits(r);
    ValueOfDigits(r');
    var tail := "~" + (SERIES + "1");
    assert Revision(r)[4..] == d + tail && Revision(r')[4..] == d' + tail;
    SplitRun(d, tail, d', tail, IsDigit);
  }

  /** Upstream version and revision are both recoverable from the Debian version. */
  lemma {:induction false} DebianVersionInjective(u: string, r: nat, u': string, r': nat)
    requires DebianVersion(u, r) == DebianVersion(u', r')
    ensures u == u' && r == r'
  {
    RevisionHasNoDash(r);
    RevisionHasNoDash(r');
    LastDash(u, Revision(r), u', Revision(r'));
    RevisionInjective(r, r');
  }

  lemma {:induction false} DropLiteral(x: string, a: string, b: string)
    requires x + a == x + b
    ensures a == b
  {
    assert a == (x + a)[|x|..];
    assert b == (x + b)[|x|..];
  }

  lemma {:induction false} UpstreamInjective(d: Describe, d': Describe)
    requires d.WellFormed() && d'.WellFormed() && d.Upstream() == d'.Upstream()
    ensures d == d'
  {
    var t4, t4' := d.commits + (".g" + d.hash), d'.commits + (".g" + d'.hash);
    var t3, t3' := d.patch + ("+git" + t4), d'.patch + ("+git" + t4');
    var t2, t2' := d.minor + ("." + t3), d'.minor + ("." + t3');
    SplitRun(d.major, "." + t2, d'.major, "." + t2', IsDigit);
    DropLiteral(".", t2, t2');
    SplitRun(d.minor, "." + t3, d'.minor, "." + t3', IsDigit);
    DropLiteral(".", t3, t3');
    SplitRun(d.patch, "+git" + t4, d'.patch, "+git" + t4', IsDigit);
    DropLiteral("+git", t4, t4');
    SplitRun(d.commits, ".g" + d.hash, d'.commits, ".g" + d'.hash, IsDigit);
    DropLiteral(".g", d.hash, d'.hash);
  }

  /** The describe string and the revision are both recoverable from an upload's version. */
  lemma {:induction false} DescribeRecoverable(s: string, r: nat, s': string, r': nat)
    requires NightlyVersion(s).Some? && NightlyVersion(s').Some?
    requires DebianVersion(NightlyVersion(s).value, r) == DebianVersion(NightlyVersion(s').value, r')
    ensures s == s' && r == r'
  {
    DebianVersionInjective(NightlyVersion(s).value, r, NightlyVersion(s').value, r');
    UpstreamInjective(ParseDescribe(s).value, ParseDescribe(s').value);
  }

  // ---------- the Debian order ----------

  predicate IsLetter(c: char) { 'a' <= c <= 'z' || 'A' <= c <= 'Z' }

  /** A tilde sorts before the end of the part, letters before the other characters. */
  function Weight(s: string): int {
    if s == "" then 0
    else if s[0] == '~' then -1
    else if IsLetter(s[0]) then s[0] as int
    else s[0] as int + 256
  }

  function Sign(a: int, b: int): int { if a < b then -1 else if a > b then 1 else 0 }

  function Rest(s: string): string { if s == "" then "" else s[1..] }

  /** Comparison of two non-digit parts. */
  function LexCompare(a: string, b: string): (c: int)
    decreases |a| + |b|
  {
    if a == "" && b == "" then 0
    else if Weight(a) != Weight(b) then Sign(Weight(a), Weight(b))
    else LexCompare(Rest(a), Rest(b))
  }

  /** The leading non-digits. */
  function Lead(s: string): string { s[..Span(s, NotDigit)] }

  /** The number after them, 0 when there is none. */
  function Number(s: string): int {
    var r := s[Span(s, NotDigit)..];
    Value(r[..Span(r, IsDigit)])
  }

  function Tail(s: string): (t: string)
    ensures |t| <= |s| && (s != "" ==> |t| < |s|)
  {
    var r := s[Span(s, NotDigit)..];
    r[Span(r, IsDigit)..]
  }

  lemma {:induction false} Parts(sep: string, d: string, x: string)
    requires All(sep, NotDigit) && d != "" && All(d, IsDigit) && (x == "" || NotDigit(x[0]))
    ensures Lead(sep + (d + x)) == sep && Number(sep + (d + x)) == Value(d) && Tail(sep + (d + x)) == x
  {
    SpanIs(sep, d + x, NotDigit);
    SpanIs(d, x, IsDigit);
  }

  /** Alternate non-digit and digit parts, the digits compared as numbers. */
  function PartCompare(a: string, b: string): (c: int)
    decreases |a| + |b|
  {
    if a == "" && b == "" then 0
    else if LexCompare(Lead(a), Lead(b)) != 0 then LexCompare(Lead(a), Lead(b))
    else if Number(a) != Number(b) then Sign(Number(a), Number(b))
    else PartCompare(Tail(a), Tail(b))
  }

  /** The position of the last dash, -1 when there is none. */
  function LastDashIndex(v: string): (i: int)
    ensures -1 <= i < |v|
  {
    if v == "" then -1
    else if v[|v| - 1] == '-' then |v| - 1
    else LastDashIndex(v[..|v| - 1])
  }

  /** Upstream version and revision. */
  function SplitVersion(v: string): (string, string) {
    var i := LastDashIndex(v);
    if i < 0 then (v, "") else (v[..i], v[i + 1..])
  }

  /** Upstream versions decide, then revisions. */
  function VersionCompare(v: string, w: string): int {
    var (u, r) := SplitVersion(v);
    var (u', r') := SplitVersion(w);
    var c := PartCompare(u, u');
    if c != 0 then c else PartCompare(r, r')
  }

  /** The order of section 5.6.12 on single characters: a tilde before the end, the end before anything
      else, letters before the rest, and within each kind by code. */
  lemma {:induction false} CharacterOrder(c: char, d: char)
    requires c != d && !IsDigit(c) && !IsDigit(d)
    ensures LexCompare("~", "") == -1 && (c != '~' ==> LexCompare("", [c]) == -1)
    ensures d == '~' ==> LexCompare([d], [c]) == -1
    ensures c != '~' && d != '~' && IsLetter(c) && !IsLetter(d) ==> LexCompare([c], [d]) == -1
    ensures c != '~' && d != '~' && (IsLetter(c) <==> IsLetter(d)) && c < d ==> LexCompare([c], [d]) == -1
  {
  }

  lemma {:induction false} SplitFinds(u: string, r: string)
    requires All(r, NotDash)
    ensures SplitVersion(u + ("-" + r)) == (u, r)
  {
    var s := u + ("-" + r);
    DashFound(u, r);
    assert s[..|u|] == u && s[|u| + 1..] == r;
  }

  lemma {:induction false} DashFound(u: string, r: string)
    requires All(r, NotDash)
    ensures LastDashIndex(u + ("-" + r)) == |u|
    decreases |r|
  {
    if r != "" {
      var s := u + ("-" + r);
      assert s[..|s| - 1] == u + ("-" + r[..|r| - 1]);
      DashFound(u, r[..|r| - 1]);
    }
  }

  lemma {:induction false} CompareUploads(u: string, r: nat, u': string, r': nat)
    ensures VersionCompare(DebianVersion(u, r), DebianVersion(u', r'))
         == if PartCompare(u, u') != 0 then PartCompare(u, u') else PartCompare(Revision(r), Revision(r'))
  {
    RevisionHasNoDash(r);
    RevisionHasNoDash(r');
    SplitFinds(u, Revision(r));
    SplitFinds(u', Revision(r'));
  }

  lemma {:induction false} LexReflexive(a: string)
    ensures LexCompare(a, a) == 0
  {
    if a != "" {
      LexReflexive(a[1..]);
    }
  }

  lemma {:induction false} PartReflexive(a: string)
    ensures PartCompare(a, a) == 0
    decreases |a|
  {
    if a != "" {
      LexReflexive(Lead(a));
      PartReflexive(Tail(a));
    }
  }

  /** Swapping the operands negates the comparison. */
  lemma {:induction false} LexAntisymmetric(a: string, b: string)
    ensures LexCompare(a, b) == -LexCompare(b, a)
    decreases |a| + |b|
  {
    if !(a == "" && b == "") && Weight(a) == Weight(b) {
      LexAntisymmetric(Rest(a), Rest(b));
    }
  }

  lemma {:induction false} PartAntisymmetric(a: string, b: string)
    ensures PartCompare(a, b) == -PartCompare(b, a)
    decreases |a| + |b|
  {
    if !(a == "" && b == "") {
      LexAntisymmetric(Lead(a), Lead(b));
      PartAntisymmetric(Tail(a), Tail(b));
    }
  }

  /** Equal leading groups cancel; the first differing number decides. */
  lemma {:induction false} CompareNumber(sep: string, d: string, d': string, x: string, x': string)
    requires All(sep, NotDigit) && d != "" && d' != "" && All(d, IsDigit) && All(d', IsDigit)
    requires x == "" || NotDigit(x[0])
    requires x' == "" || NotDigit(x'[0])
    ensures PartCompare(sep + (d + x), sep + (d' + x'))
         == if Value(d) != Value(d') then Sign(Value(d), Value(d')) else PartCompare(x, x')
  {
    Parts(sep, d, x);
    Parts(sep, d', x');
    LexReflexive(sep);
  }

  /** Two versions of one tag differ in what follows it. */
  lemma {:induction false} CompareTag(d: Describe, x: string, x': string)
    requires d.WellFormed()
    requires x == "" || NotDigit(x[0])
    requires x' == "" || NotDigit(x'[0])
    ensures PartCompare(d.Tag() + x, d.Tag() + x') == PartCompare(x, x')
  {
    var t, t' := "." + (d.patch + x), "." + (d.patch + x');
    var s, s' := "." + (d.minor + t), "." + (d.minor + t');
    assert d.Tag() + x == "" + (d.major + s) && d.Tag() + x' == "" + (d.major + s');
    CompareNumber("", d.major, d.major, s, s');
    CompareNumber(".", d.minor, d.minor, t, t');
    CompareNumber(".", d.patch, d.patch, x, x');
  }

  lemma {:induction false} UpstreamIsTagged(d: Describe)
    ensures d.Upstream() == d.Tag() + ("+git" + (d.commits + (".g" + d.hash)))
  {
  }

  lemma {:induction false} SuffixesCompare(commits: string, hash: string, commits': string, hash': string)
    requires commits != "" && All(commits, IsDigit) && commits' != "" && All(commits', IsDigit)
    requires Value(commits) < Value(commits')
    ensures PartCompare("+git" + (commits + (".g" + hash)), "+git" + (commits' + (".g" + hash'))) == -1
  {
    CompareNumber("+git", commits, commits', ".g" + hash, ".g" + hash');
  }

  lemma {:induction false} CommitsDecide(d: Describe, d': Describe)
    requires d.WellFormed() && d'.WellFormed() && d.Tag() == d'.Tag()
    requires Value(d.commits) < Value(d'.commits)
    ensures PartCompare(d.Upstream(), d'.Upstream()) == -1
  {
    UpstreamIsTagged(d);
    UpstreamIsTagged(d');
    SuffixesCompare(d.commits, d.hash, d'.commits, d'.hash);
    CompareTag(d, "+git" + (d.commits + (".g" + d.hash)), "+git" + (d'.commits + (".g" + d'.hash)));
  }

  /** For one tag, versions rise with the commit count, whatever the commits and revisions. */
  lemma {:induction false} MoreCommitsIsNewer(d: Describe, d': Describe, r: nat, r': nat)
    requires d.WellFormed() && d'.WellFormed() && d.Tag() == d'.Tag()
    requires Value(d.commits) < Value(d'.commits)
    ensures VersionCompare(DebianVersion(d.Upstream(), r), DebianVersion(d'.Upstream(), r')) == -1
  {
    CommitsDecide(d, d');
    CompareUploads(d.Upstream(), r, d'.Upstream(), r');
  }

  lemma {:induction false} RevisionsAscend(r: nat, r': nat)
    ensures PartCompare(Revision(r), Revision(r')) == Sign(r, r')
  {
    var tail := "~" + (SERIES + "1");
    var y, y' := "ppa" + (Digits(r) + tail), "ppa" + (Digits(r') + tail);
    assert Revision(r) == "" + ("0" + y) && Revision(r') == "" + ("0" + y');
    CompareNumber("", "0", "0", y, y');
    PpaPartsAscend(r, r', tail);
  }

  lemma {:induction false} PpaPartsAscend(r: nat, r': nat, tail: string)
    requires tail != "" && NotDigit(tail[0])
    ensures PartCompare("ppa" + (Digits(r) + tail), "ppa" + (Digits(r') + tail)) == Sign(r, r')
  {
    ValueOfDigits(r);
    ValueOfDigits(r');
    NumbersDecide("ppa", Digits(r), Digits(r'), tail);
  }

  lemma {:induction false} NumbersDecide(sep: string, d: string, d': string, tail: string)
    requires All(sep, NotDigit) && d != "" && d' != "" && All(d, IsDigit) && All(d', IsDigit)
    requires tail != "" && NotDigit(tail[0])
    ensures PartCompare(sep + (d + tail), sep + (d' + tail)) == Sign(Value(d), Value(d'))
  {
    PartReflexive(tail);
    CompareNumber(sep, d, d', tail, tail);
  }

  /** For one upstream version, versions rise with the revision. */
  lemma {:induction false} LaterRevisionIsNewer(u: string, r: nat, r': nat)
    requires r < r'
    ensures VersionCompare(DebianVersion(u, r), DebianVersion(u, r')) == -1
  {
    CompareUploads(u, r, u, r');
    PartReflexive(u);
    RevisionsAscend(r, r');
  }

  lemma {:induction false} EndIsBelowPlus(commits: string, hash: string)
    requires commits != "" && All(commits, IsDigit)
    ensures PartCompare("", "+git" + (commits + (".g" + hash))) == -1
  {
    Parts("+git", commits, ".g" + hash);
    assert Lead("") == "";
    assert Weight("+git") == '+' as int + 256;
    assert LexCompare("", "+git") == -1;
  }

  lemma {:induction false} SuffixDecides(d: Describe)
    requires d.WellFormed()
    ensures PartCompare(d.Tag(), d.Upstream()) == -1
  {
    UpstreamIsTagged(d);
    assert d.Tag() + "" == d.Tag();
    CompareTag(d, "", "+git" + (d.commits + (".g" + d.hash)));
    EndIsBelowPlus(d.commits, d.hash);
  }

  /** A nightly sorts above its own tag's release. */
  lemma {:induction false} NightlyIsAboveRelease(d: Describe, r: nat, r': nat)
    requires d.WellFormed()
    ensures VersionCompare(DebianVersion(d.Tag(), r), DebianVersion(d.Upstream(), r')) == -1
  {
    SuffixDecides(d);
    CompareUploads(d.Tag(), r, d.Upstream(), r');
  }

  lemma {:induction false} PatchDecides(d: Describe, next: Describe)
    requires d.WellFormed() && next.WellFormed()
    requires d.major == next.major && d.minor == next.minor && Value(d.patch) < Value(next.patch)
    ensures PartCompare(d.Upstream(), next.Tag()) == -1
  {
    var x := "+git" + (d.commits + (".g" + d.hash));
    var t, t' := "." + (d.patch + x), "." + (next.patch + "");
    var s, s' := "." + (d.minor + t), "." + (d.minor + t');
    assert d.Upstream() == "" + (d.major + s) && next.Tag() == "" + (d.major + s');
    CompareNumber("", d.major, d.major, s, s');
    CompareNumber(".", d.minor, d.minor, t, t');
    CompareNumber(".", d.patch, next.patch, x, "");
  }

  /** A nightly sorts below every later patch release of its line. */
  lemma {:induction false} NightlyIsBelowNextPatch(d: Describe, next: Describe, r: nat, r': nat)
    requires d.WellFormed() && next.WellFormed()
    requires d.major == next.major && d.minor == next.minor && Value(d.patch) < Value(next.patch)
    ensures VersionCompare(DebianVersion(d.Upstream(), r), DebianVersion(next.Tag(), r')) == -1
  {
    PatchDecides(d, next);
    CompareUploads(d.Upstream(), r, next.Tag(), r');
  }

  // ---------- main moving on ----------

  /** A later describe: the first of major, minor, patch and commit count to differ is larger. */
  predicate Later(d: Describe, d': Describe) {
    if Value(d.major) != Value(d'.major) then Value(d.major) < Value(d'.major)
    else if Value(d.minor) != Value(d'.minor) then Value(d.minor) < Value(d'.minor)
    else if Value(d.patch) != Value(d'.patch) then Value(d.patch) < Value(d'.patch)
    else Value(d.commits) < Value(d'.commits)
  }

  function FromCommits(d: Describe): string { "+git" + (d.commits + (".g" + d.hash)) }

  function FromPatch(d: Describe): string { "." + (d.patch + FromCommits(d)) }

  function FromMinor(d: Describe): string { "." + (d.minor + FromPatch(d)) }

  lemma {:induction false} CompareFromPatch(d: Describe, d': Describe)
    requires d.WellFormed() && d'.WellFormed()
    requires Value(d.patch) < Value(d'.patch)
          || (Value(d.patch) == Value(d'.patch) && Value(d.commits) < Value(d'.commits))
    ensures PartCompare(FromPatch(d), FromPatch(d')) == -1
  {
    CompareNumber(".", d.patch, d'.patch, FromCommits(d), FromCommits(d'));
    CompareNumber("+git", d.commits, d'.commits, ".g" + d.hash, ".g" + d'.hash);
  }

  lemma {:induction false} CompareFromMinor(d: Describe, d': Describe)
    requires d.WellFormed() && d'.WellFormed()
    requires Value(d.minor) < Value(d'.minor)
          || (Value(d.minor) == Value(d'.minor) && PartCompare(FromPatch(d), FromPatch(d')) == -1)
    ensures PartCompare(FromMinor(d), FromMinor(d')) == -1
  {
    CompareNumber(".", d.minor, d'.minor, FromPatch(d), FromPatch(d'));
  }

  lemma {:induction false} CompareFromMajor(d: Describe, d': Describe)
    requires d.WellFormed() && d'.WellFormed()
    requires Value(d.major) < Value(d'.major)
          || (Value(d.major) == Value(d'.major) && PartCompare(FromMinor(d), FromMinor(d')) == -1)
    ensures PartCompare(d.Upstream(), d'.Upstream()) == -1
  {
    assert d.Upstream() == "" + (d.major + FromMinor(d)) && d'.Upstream() == "" + (d'.major + FromMinor(d'));
    CompareNumber("", d.major, d'.major, FromMinor(d), FromMinor(d'));
  }

  lemma {:induction false} UpstreamsAscend(d: Describe, d': Describe)
    requires d.WellFormed() && d'.WellFormed() && Later(d, d')
    ensures PartCompare(d.Upstream(), d'.Upstream()) == -1
  {
    if Value(d.major) == Value(d'.major) {
      if Value(d.minor) == Value(d'.minor) {
        CompareFromPatch(d, d');
      }
      CompareFromMinor(d, d');
    }
    CompareFromMajor(d, d');
  }

  /** A later describe gives a newer version, whatever the tags, commits and revisions. */
  lemma {:induction false} LaterIsNewer(d: Describe, d': Describe, r: nat, r': nat)
    requires d.WellFormed() && d'.WellFormed() && Later(d, d')
    ensures VersionCompare(DebianVersion(d.Upstream(), r), DebianVersion(d'.Upstream(), r')) == -1
  {
    UpstreamsAscend(d, d');
    CompareUploads(d.Upstream(), r, d'.Upstream(), r');
  }
}
