/** Package URLs as scripts/release_sbom.py reads them. Text is its UTF-8 bytes; decoded qualifier
    values are taken to be valid UTF-8. */
module Purl {
  import opened Bytes
  import opened Sequences

  const SPACE: byte := 32
  const HASH: byte := 35
  const PERCENT: byte := 37
  const AMPERSAND: byte := 38
  const PLUS: byte := 43
  const COLON: byte := 58
  const EQUALS: byte := 61
  const QUESTION: byte := 63

  /** "pkg:" */
  const PKG: Text := [112, 107, 103, 58]

  /** "download_url" */
  const DOWNLOAD_URL: Text := [100, 111, 119, 110, 108, 111, 97, 100, 95, 117, 114, 108]

  // ---------- percent encoding ----------

  predicate DigitByte(b: byte) { 48 <= b <= 57 }

  predicate LetterByte(b: byte) { 65 <= b <= 90 || 97 <= b <= 122 }

  /** The bytes quote_plus leaves alone: letters, digits and "_.-~". */
  predicate Unreserved(b: byte) {
    LetterByte(b) || DigitByte(b) || b == 95 || b == 46 || b == 45 || b == 126
  }

  function HexDigit(n: int): byte
    requires 0 <= n < 16
  {
    if n < 10 then (48 + n) as byte else (55 + n) as byte
  }

  /** The value of a hexadecimal digit in either case, -1 for other bytes. */
  function HexValue(b: byte): int {
    if DigitByte(b) then b as int - 48
    else if 65 <= b <= 70 then b as int - 55
    else if 97 <= b <= 102 then b as int - 87
    else -1
  }

  function QuoteByte(b: byte): (r: Text) {
    if Unreserved(b) then [b]
    else if b == SPACE then [PLUS]
    else [PERCENT, HexDigit(b as int / 16), HexDigit(b as int % 16)]
  }

  /** `quote_plus`. */
  function Quote(s: Text): (r: Text) {
    if s == [] then [] else QuoteByte(s[0]) + Quote(s[1..])
  }

  /** `unquote`: a percent sign without two hexadecimal digits stays. */
  function Unquote(s: Text): (r: Text) {
    if s == [] then []
    else if |s| >= 3 && s[0] == PERCENT && HexValue(s[1]) >= 0 && HexValue(s[2]) >= 0 then
      [(16 * HexValue(s[1]) + HexValue(s[2])) as byte] + Unquote(s[3..])
    else [s[0]] + Unquote(s[1..])
  }

  function PlusToSpace(s: Text): (r: Text)
    ensures |r| == |s|
  {
    seq(|s|, i requires 0 <= i < |s| => if s[i] == PLUS then SPACE else s[i])
  }

  /** How a qualifier's name and value are decoded. */
  function Decode(s: Text): Text { Unquote(PlusToSpace(s)) }

  lemma {:induction false} PlainText(s: Text)
    requires PERCENT !in s
    ensures Unquote(s) == s
  {
    if s != [] {
      PlainText(s[1..]);
      assert s == [s[0]] + s[1..];
    }
  }

  const LOWER: Text := [48, 49, 50, 51, 52, 53, 54, 55, 56, 57, 97, 98, 99, 100, 101, 102]
  const UPPER: Text := [48, 49, 50, 51, 52, 53, 54, 55, 56, 57, 65, 66, 67, 68, 69, 70]

  /** A hexadecimal digit is read in either case and written in upper case. */
  lemma {:induction false} HexMeans(b: byte, v: int)
    requires 0 <= v < 16
    ensures HexValue(b) == v <==> b == LOWER[v] || b == UPPER[v]
    ensures HexDigit(v) == UPPER[v]
  {
  }

  /** An escape decodes to its byte. */
  lemma {:induction false} EscapeDecodes(h: byte, l: byte, rest: Text, hi: int, lo: int)
    requires 0 <= hi < 16 && 0 <= lo < 16
    requires (h == LOWER[hi] || h == UPPER[hi]) && (l == LOWER[lo] || l == UPPER[lo])
    ensures Unquote([PERCENT, h, l] + rest) == [(16 * hi + lo) as byte] + Unquote(rest)
  {
    HexMeans(h, hi);
    HexMeans(l, lo);
    assert ([PERCENT, h, l] + rest)[3..] == rest;
  }

  /** A percent sign that starts no escape stays. */
  lemma {:induction false} PercentStays(s: Text)
    requires s != [] && s[0] == PERCENT && (|s| < 3 || s[1] !in LOWER + UPPER || s[2] !in LOWER + UPPER)
    ensures Unquote(s) == [PERCENT] + Unquote(s[1..])
  {
    if |s| >= 3 {
      NotHex(s[1]);
      NotHex(s[2]);
    }
  }

  lemma {:induction false} NotHex(b: byte)
    ensures HexValue(b) < 0 <==> b !in LOWER + UPPER
  {
    if HexValue(b) >= 0 {
      HexMeans(b, HexValue(b));
      assert (LOWER + UPPER)[HexValue(b)] == LOWER[HexValue(b)];
      assert (LOWER + UPPER)[HexValue(b) + 16] == UPPER[HexValue(b)];
    } else {
      forall k | 0 <= k < 32 ensures (LOWER + UPPER)[k] != b {
        HexMeans(b, if k < 16 then k else k - 16);
      }
    }
  }

  /** What `quote_plus` writes for a byte: letters, digits and "_.-~" as they are, a space as a plus
      sign, anything else as an escape. */
  lemma {:induction false} QuoteMeans(b: byte)
    ensures var plain := 65 <= b <= 90 || 97 <= b <= 122 || 48 <= b <= 57 || b in [95, 46, 45, 126];
      Quote([b]) == if plain then [b] else if b == 32 then [43]
                    else [37, UPPER[b as int / 16], UPPER[b as int % 16]]
  {
    assert [b][1..] == [] && Quote([b]) == QuoteByte(b) + [];
    HexMeans(b, b as int / 16);
    HexMeans(b, b as int % 16);
  }

  lemma {:induction false} DecodeByte(b: byte, rest: Text)
    ensures Decode(QuoteByte(b) + rest) == [b] + Decode(rest)
  {
    var q := QuoteByte(b);
    assert PlusToSpace(q + rest) == PlusToSpace(q) + PlusToSpace(rest);
    if Unreserved(b) || b == SPACE {
      assert PlusToSpace(q) == [b];
      assert ([b] + PlusToSpace(rest))[1..] == PlusToSpace(rest);
    } else {
      assert PlusToSpace(q) == q;
      assert (q + PlusToSpace(rest))[3..] == PlusToSpace(rest);
      assert HexValue(HexDigit(b as int / 16)) == b as int / 16;
      assert HexValue(HexDigit(b as int % 16)) == b as int % 16;
    }
  }

  /** Decoding undoes quoting. */
  lemma {:induction false} DecodeQuote(s: Text)
    ensures Decode(Quote(s)) == s
  {
    if s == [] {
      assert PlusToSpace([]) == [];
    } else {
      DecodeByte(s[0], Quote(s[1..]));
      DecodeQuote(s[1..]);
    }
  }

  lemma {:induction false} QuoteIsSafe(s: Text)
    ensures HASH !in Quote(s) && AMPERSAND !in Quote(s) && EQUALS !in Quote(s)
  {
    if s != [] {
      QuoteIsSafe(s[1..]);
    }
  }

  // ---------- partition and split ----------

  /** Python's `partition`: before the first separator, whether there is one, after it. */
  function Partition(s: Text, sep: byte): (r: (Text, bool, Text))
    ensures sep !in r.0
    ensures r.1 <==> sep in s
    ensures s == r.0 + (if r.1 then [sep] + r.2 else []) && (!r.1 ==> r.2 == [])
  {
    if s == [] then ([], false, [])
    else if s[0] == sep then ([], true, s[1..])
    else
      var (a, found, b) := Partition(s[1..], sep);
      assert s == [s[0]] + s[1..];
      ([s[0]] + a, found, b)
  }

  lemma {:induction false} PartitionFinds(a: Text, sep: byte, b: Text)
    requires sep !in a
    ensures Partition(a + [sep] + b, sep) == (a, true, b)
  {
    if a == [] {
      assert a + [sep] + b == [sep] + b;
    } else {
      assert a == [a[0]] + a[1..];
      assert (a + [sep] + b)[1..] == a[1..] + [sep] + b;
      PartitionFinds(a[1..], sep, b);
    }
  }

  lemma {:induction false} PartitionMisses(a: Text, sep: byte)
    requires sep !in a
    ensures Partition(a, sep) == (a, false, [])
  {
    if a != [] {
      assert a == [a[0]] + a[1..];
      PartitionMisses(a[1..], sep);
    }
  }

  // ---------- queries ----------

  type Qualifier = (Text, Text)

  function ParseField(f: Text): Qualifier {
    var (name, _, value) := Partition(f, EQUALS);
    (Decode(name), Decode(value))
  }

  /** `parse_qsl` with blank values kept: fields between ampersands, empty fields skipped. */
  function ParseQuery(q: Text): (r: seq<Qualifier>)
    decreases |q|
  {
    var (field, more, rest) := Partition(q, AMPERSAND);
    (if field == [] then [] else [ParseField(field)]) + if more then ParseQuery(rest) else []
  }

  /** A field is split at its first equals sign; without one its value is blank. */
  lemma {:induction false} FieldMeans(name: Text, value: Text)
    requires EQUALS !in name
    ensures ParseField(name + [EQUALS] + value) == (Decode(name), Decode(value))
    ensures ParseField(name) == (Decode(name), [])
  {
    PartitionFinds(name, EQUALS, value);
    PartitionMisses(name, EQUALS);
  }

  function OneField(field: Text): seq<Qualifier> { if field == [] then [] else [ParseField(field)] }

  /** A query without ampersands is one field, or none when it is empty. */
  lemma {:induction false} FirstField(field: Text, rest: Text)
    requires AMPERSAND !in field
    ensures ParseQuery(field) == OneField(field)
    ensures ParseQuery(field + [AMPERSAND] + rest) == OneField(field) + ParseQuery(rest)
  {
    PartitionMisses(field, AMPERSAND);
    PartitionFinds(field, AMPERSAND, rest);
  }

  function JoinFields(fields: seq<Text>): Text {
    if fields == [] then []
    else if |fields| == 1 then fields[0]
    else fields[0] + [AMPERSAND] + JoinFields(fields[1..])
  }

  function ParseEach(fields: seq<Text>): seq<Qualifier> {
    if fields == [] then [] else OneField(fields[0]) + ParseEach(fields[1..])
  }

  /** A query is read field by field between the ampersands; empty fields count for nothing. */
  lemma {:induction false} QueryMeans(fields: seq<Text>)
    requires forall f :: f in fields ==> AMPERSAND !in f
    ensures ParseQuery(JoinFields(fields)) == ParseEach(fields)
  {
    if fields == [] {
      FirstField([], []);
    } else {
      assert fields == [fields[0]] + fields[1..];
      FirstField(fields[0], JoinFields(fields[1..]));
      QueryMeans(fields[1..]);
    }
  }

  function EncodeField(q: Qualifier): Text { Quote(q.0) + [EQUALS] + Quote(q.1) }

  /** `urlencode`. */
  function EncodeQuery(qs: seq<Qualifier>): (r: Text) {
    if qs == [] then []
    else if |qs| == 1 then EncodeField(qs[0])
    else EncodeField(qs[0]) + [AMPERSAND] + EncodeQuery(qs[1..])
  }

  lemma {:induction false} FieldRoundTrip(q: Qualifier)
    ensures ParseField(EncodeField(q)) == q && EncodeField(q) != []
    ensures HASH !in EncodeField(q) && AMPERSAND !in EncodeField(q)
  {
    QuoteIsSafe(q.0);
    QuoteIsSafe(q.1);
    PartitionFinds(Quote(q.0), EQUALS, Quote(q.1));
    DecodeQuote(q.0);
    DecodeQuote(q.1);
  }

  lemma {:induction false} ParseFirst(q: Qualifier, rest: Text)
    ensures ParseQuery(EncodeField(q)) == [q]
    ensures ParseQuery(EncodeField(q) + [AMPERSAND] + rest) == [q] + ParseQuery(rest)
  {
    FieldRoundTrip(q);
    PartitionMisses(EncodeField(q), AMPERSAND);
    PartitionFinds(EncodeField(q), AMPERSAND, rest);
  }

  /** Parsing undoes encoding, for every list of qualifiers. */
  lemma {:induction false} QueryRoundTrip(qs: seq<Qualifier>)
    ensures ParseQuery(EncodeQuery(qs)) == qs
  {
    if |qs| == 1 {
      ParseFirst(qs[0], []);
    } else if qs != [] {
      ParseFirst(qs[0], EncodeQuery(qs[1..]));
      QueryRoundTrip(qs[1..]);
    }
  }

  lemma {:induction false} QueryHasNoHash(qs: seq<Qualifier>)
    ensures HASH !in EncodeQuery(qs)
  {
    if qs != [] {
      FieldRoundTrip(qs[0]);
      QueryHasNoHash(qs[1..]);
    }
  }

  // ---------- local references ----------

  /** "file:" at position `i`, in any case. */
  predicate FileAt(s: Text, i: int) {
    0 <= i && i + 5 <= |s|
    && s[i] in {70, 102} && s[i + 1] in {73, 105} && s[i + 2] in {76, 108} && s[i + 3] in {69, 101}
    && s[i + 4] == COLON
  }

  predicate SchemeByte(b: byte) { LetterByte(b) || DigitByte(b) || b == PLUS || b == 46 || b == 45 }

  /** Position `i` does not continue a word. */
  predicate AtStart(s: Text, i: int)
    requires 0 <= i <= |s|
  {
    i == 0 || !(SchemeByte(s[i - 1]) || s[i - 1] == 95)
  }

  /** A scheme ending in "+" at `i`, with "file:" right after it at `j`. */
  predicate SchemeAt(s: Text, i: int, j: int) {
    && 0 <= i && i + 2 <= j <= |s| && LetterByte(s[i]) && s[j - 1] == PLUS && FileAt(s, j)
    && forall k :: i < k < j ==> SchemeByte(s[k])
  }

  /** `local_reference`: a file: URL, or one behind a scheme such as path+file:, in the decoded text. */
  predicate Local(text: Text) {
    var s := Unquote(text);
    exists i :: 0 <= i < |s| && AtStart(s, i) && (FileAt(s, i) || exists j :: i < j <= |s| && SchemeAt(s, i, j))
  }

  function Lower(b: byte): byte { if 65 <= b <= 90 then b + 32 else b }

  /** "file:" in any case. */
  predicate IsFileWord(name: Text) {
    |name| == 5 && forall k :: 0 <= k < 5 ==> Lower(name[k]) == [102, 105, 108, 101, 58][k]
  }

  /** Nothing, or a letter, then letters, digits, "+", "." and "-", then a plus sign. */
  predicate IsScheme(scheme: Text) {
    scheme == [] || (|scheme| >= 2 && (65 <= scheme[0] <= 90 || 97 <= scheme[0] <= 122) && scheme[|scheme| - 1] == 43
                     && forall k :: 0 < k < |scheme| ==> WordByte(scheme[k]))
  }

  /** A letter, a digit, "+", "." or "-". */
  predicate WordByte(b: byte) {
    65 <= b <= 90 || 97 <= b <= 122 || 48 <= b <= 57 || b in [43, 46, 45]
  }

  /** The text ends in no letter, digit, "_", "+", "." or "-". */
  predicate EndsWord(pre: Text) {
    pre == [] || !(WordByte(pre[|pre| - 1]) || pre[|pre| - 1] == 95)
  }

  ghost predicate HasFileUrl(s: Text, pre: Text, scheme: Text, name: Text, post: Text) {
    s == pre + scheme + name + post && EndsWord(pre) && IsScheme(scheme) && IsFileWord(name)
  }

  lemma {:induction false} FileWordAt(s: Text, i: int)
    requires 0 <= i && i + 5 <= |s|
    ensures FileAt(s, i) <==> IsFileWord(s[i..i + 5])
  {
    var name, file := s[i..i + 5], [102, 105, 108, 101, 58];
    assert name[0] == s[i] && name[1] == s[i + 1] && name[2] == s[i + 2] && name[3] == s[i + 3] && name[4] == s[i + 4];
    if FileAt(s, i) {
      forall k | 0 <= k < 5 ensures Lower(name[k]) == file[k] {
      }
    }
    if IsFileWord(name) {
      assert Lower(name[0]) == 102 && Lower(name[1]) == 105 && Lower(name[2]) == 108;
      assert Lower(name[3]) == 101 && Lower(name[4]) == 58;
    }
  }

  lemma {:induction false} FileUrlIsLocal(text: Text, pre: Text, scheme: Text, name: Text, post: Text)
    requires HasFileUrl(Unquote(text), pre, scheme, name, post)
    ensures Local(text)
  {
    var s, i, j := Unquote(text), |pre|, |pre| + |scheme|;
    assert s[j..j + 5] == name;
    FileWordAt(s, j);
    assert AtStart(s, i);
    if scheme != [] {
      assert forall k :: 0 <= k < |scheme| ==> s[i + k] == scheme[k];
      forall k | i < k < j ensures SchemeByte(s[k]) {
        assert s[k] == scheme[k - i];
      }
      assert SchemeAt(s, i, j);
    }
  }

  lemma {:induction false} LocalHasFileUrl(text: Text) returns (pre: Text, scheme: Text, name: Text, post: Text)
    requires Local(text)
    ensures HasFileUrl(Unquote(text), pre, scheme, name, post)
  {
    var s := Unquote(text);
    var i :| 0 <= i < |s| && AtStart(s, i) && (FileAt(s, i) || exists j :: i < j <= |s| && SchemeAt(s, i, j));
    var j := i;
    if !FileAt(s, i) {
      j :| i < j <= |s| && SchemeAt(s, i, j);
    }
    SliceFileUrl(s, i, j);
    pre, scheme, name, post := s[..i], s[i..j], s[j..j + 5], s[j + 5..];
  }

  lemma {:induction false} SliceScheme(s: Text, i: int, j: int)
    requires SchemeAt(s, i, j)
    ensures IsScheme(s[i..j])
  {
    var scheme := s[i..j];
    assert scheme[0] == s[i] && scheme[|scheme| - 1] == s[j - 1];
    assert forall k :: 0 < k < |scheme| ==> scheme[k] == s[i + k];
  }

  lemma {:induction false} SliceFileUrl(s: Text, i: int, j: int)
    requires 0 <= i <= j && FileAt(s, j) && AtStart(s, i) && (i == j || SchemeAt(s, i, j))
    ensures HasFileUrl(s, s[..i], s[i..j], s[j..j + 5], s[j + 5..])
  {
    FileWordAt(s, j);
    if i < j {
      SliceScheme(s, i, j);
    }
    assert i > 0 ==> s[..i][i - 1] == s[i - 1];
    assert s == s[..i] + s[i..j] + s[j..j + 5] + s[j + 5..];
  }

  ghost predicate MentionsFileUrl(s: Text) {
    exists pre: Text, scheme: Text, name: Text, post: Text :: HasFileUrl(s, pre, scheme, name, post)
  }

  /** A text is local exactly when, decoded, it has "file:" in any case, alone or behind a scheme such
      as "path+", at the start of a word. */
  lemma {:induction false} LocalMeans(text: Text)
    ensures Local(text) <==> MentionsFileUrl(Unquote(text))
  {
    if Local(text) {
      var pre, scheme, name, post := LocalHasFileUrl(text);
      assert HasFileUrl(Unquote(text), pre, scheme, name, post);
    }
    if MentionsFileUrl(Unquote(text)) {
      var pre: Text, scheme: Text, name: Text, post: Text :| HasFileUrl(Unquote(text), pre, scheme, name, post);
      FileUrlIsLocal(text, pre, scheme, name, post);
    }
  }

  // ---------- clean_purl ----------

  function Keeps(): Qualifier -> bool { (q: Qualifier) => !(q.0 == DOWNLOAD_URL && Local(q.1)) }

  /** Everything before the query and the fragment. */
  function Base(v: Text): Text { Partition(Partition(v, HASH).0, QUESTION).0 }

  function Qualifiers(v: Text): seq<Qualifier> { ParseQuery(Partition(Partition(v, HASH).0, QUESTION).2) }

  /** The fragment with its hash sign. */
  function Fragment(v: Text): Text {
    var (_, found, f) := Partition(v, HASH);
    if found then [HASH] + f else []
  }

  /** How a package URL is taken apart: the fragment from the first hash sign on, and before it the
      query from the first question mark on. */
  lemma {:induction false} UrlParts(base: Text, query: Text, fragment: Text)
    requires HASH !in base && QUESTION !in base && HASH !in query && (fragment == [] || fragment[0] == HASH)
    ensures var v := base + [QUESTION] + query + fragment;
            Base(v) == base && Qualifiers(v) == ParseQuery(query) && Fragment(v) == fragment
    ensures var v := base + fragment; Base(v) == base && Qualifiers(v) == [] && Fragment(v) == fragment
  {
    SplitFragment(base + [QUESTION] + query, fragment);
    SplitFragment(base, fragment);
    PartitionFinds(base, QUESTION, query);
    PartitionMisses(base, QUESTION);
    FirstField([], []);
  }

  function Assemble(base: Text, qs: seq<Qualifier>, fragment: Text): Text {
    Head(base, qs) + fragment
  }

  /** `clean_purl`; None is its ValueError. */
  function Clean(v: Text): Option<Text> {
    if !(PKG <= v) then None
    else
      var retained := Filter(Qualifiers(v), Keeps());
      if retained == Qualifiers(v) then Some(v)
      else Some(Assemble(Base(v), retained, Fragment(v)))
  }

  lemma {:induction false} HeadHasNoHash(v: Text)
    ensures HASH !in Base(v) && QUESTION !in Base(v)
  {
    var head := Partition(v, HASH).0;
    var (base, found, query) := Partition(head, QUESTION);
    assert forall b :: b in base ==> b in head;
  }

  lemma {:induction false} SplitFragment(head: Text, fragment: Text)
    requires HASH !in head
    requires fragment == [] || fragment[0] == HASH
    ensures Partition(head + fragment, HASH).0 == head && Fragment(head + fragment) == fragment
  {
    if fragment == [] {
      assert head + fragment == head;
      PartitionMisses(head, HASH);
    } else {
      assert head + fragment == head + [HASH] + fragment[1..];
      PartitionFinds(head, HASH, fragment[1..]);
    }
  }

  function Head(base: Text, qs: seq<Qualifier>): Text {
    base + if qs == [] then [] else [QUESTION] + EncodeQuery(qs)
  }

  lemma {:induction false} SplitHead(base: Text, qs: seq<Qualifier>)
    requires QUESTION !in base
    ensures var (b, _, q) := Partition(Head(base, qs), QUESTION); b == base && ParseQuery(q) == qs
  {
    if qs == [] {
      assert Head(base, qs) == base;
      PartitionMisses(base, QUESTION);
    } else {
      assert Head(base, qs) == base + [QUESTION] + EncodeQuery(qs);
      PartitionFinds(base, QUESTION, EncodeQuery(qs));
      QueryRoundTrip(qs);
    }
  }

  /** Assembling and taking apart again gives the same parts. */
  lemma {:induction false} PartsOfAssembled(base: Text, qs: seq<Qualifier>, fragment: Text)
    requires HASH !in base && QUESTION !in base
    requires fragment == [] || fragment[0] == HASH
    ensures var w := Assemble(base, qs, fragment);
            Base(w) == base && Qualifiers(w) == qs && Fragment(w) == fragment
  {
    QueryHasNoHash(qs);
    SplitFragment(Head(base, qs), fragment);
    SplitHead(base, qs);
  }

  lemma {:induction false} PkgIsInBase(v: Text)
    requires PKG <= v
    ensures PKG <= Base(v)
  {
    var (head, found, rest) := Partition(v, HASH);
    KeepsPrefix(v, HASH);
    KeepsPrefix(head, QUESTION);
  }

  lemma {:induction false} KeepsPrefix(v: Text, sep: byte)
    requires PKG <= v && (sep == HASH || sep == QUESTION)
    ensures PKG <= Partition(v, sep).0
  {
    var (a, found, b) := Partition(v, sep);
    assert found ==> v[|a|] == sep;
  }

  /** A package URL with no download URL into the local file system stays as it is. */
  lemma {:induction false} CleanLeavesRemote(v: Text)
    requires PKG <= v && forall q :: q in Qualifiers(v) ==> !(q.0 == DOWNLOAD_URL && Local(q.1))
    ensures Clean(v) == Some(v)
  {
    FilterAll(Qualifiers(v), Keeps());
  }

  /** Otherwise the remaining qualifiers are written out again after the base, and before the fragment;
      the question mark goes with the last of them. */
  lemma {:induction false} CleanRewrites(v: Text)
    requires PKG <= v && exists q :: q in Qualifiers(v) && q.0 == DOWNLOAD_URL && Local(q.1)
    ensures var kept := Filter(Qualifiers(v), (q: Qualifier) => q.0 != DOWNLOAD_URL || !Local(q.1));
      && (forall q :: q in kept <==> q in Qualifiers(v) && !(q.0 == DOWNLOAD_URL && Local(q.1)))
      && Clean(v) == Some(Base(v) + (if kept == [] then [] else [QUESTION] + EncodeQuery(kept)) + Fragment(v))
  {
    var keep := (q: Qualifier) => q.0 != DOWNLOAD_URL || !Local(q.1);
    FilterMembers(Qualifiers(v), keep);
    FilterSame(Qualifiers(v), keep, Keeps());
    var q :| q in Qualifiers(v) && q.0 == DOWNLOAD_URL && Local(q.1);
    assert q !in Filter(Qualifiers(v), keep);
  }

  /** Cleaning keeps base and fragment, drops exactly the download URLs that point into a local file
      system, and cleaning again changes nothing. */
  lemma {:induction false} CleanMeans(v: Text)
    requires PKG <= v
    ensures Clean(v).Some?
    ensures var w := Clean(v).value;
      && Base(w) == Base(v) && Fragment(w) == Fragment(v)
      && Qualifiers(w) == Filter(Qualifiers(v), (q: Qualifier) => q.0 != DOWNLOAD_URL || !Local(q.1))
      && PKG <= w && Clean(w) == Some(w)
  {
    FilterSame(Qualifiers(v), (q: Qualifier) => q.0 != DOWNLOAD_URL || !Local(q.1), Keeps());
    var retained := Filter(Qualifiers(v), Keeps());
    FilterTwice(Qualifiers(v), Keeps());
    if retained != Qualifiers(v) {
      HeadHasNoHash(v);
      PartsOfAssembled(Base(v), retained, Fragment(v));
      PkgIsInBase(v);
    }
  }

  lemma {:induction false} FilterTwice<T>(s: seq<T>, p: T -> bool)
    ensures Filter(Filter(s, p), p) == Filter(s, p)
  {
    if s != [] {
      FilterTwice(s[1..], p);
      var f := Filter(s[1..], p);
      if p(s[0]) {
        assert ([s[0]] + f)[1..] == f;
      } else {
        assert Filter(s, p) == f;
      }
    }
  }
}
