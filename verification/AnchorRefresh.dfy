/** The manifest refresh of scripts/update-tpm-ek-anchors.py; a failed one is None. */
module AnchorRefresh {
  import opened Sequences
  import opened AnchorChains
  import opened Strings

  // ---------- the order of the manifest ----------

  /** Ascending `sort_key`: vendor, roots first, subject, digest. */
  predicate KeyLeq(a: Entry, b: Entry) {
    if a.vendor != b.vendor then LexLeq(a.vendor, b.vendor)
    else if a.role != b.role then a.role == Root
    else if a.subject != b.subject then LexLeq(a.subject, b.subject)
    else LexLeq(a.sha, b.sha)
  }

  lemma {:induction false} KeyTotal(a: Entry, b: Entry)
    ensures KeyLeq(a, b) || KeyLeq(b, a)
    ensures KeyLeq(a, b) && KeyLeq(b, a) ==> a.sha == b.sha
  {
    LexTotal(a.vendor, b.vendor);
    LexTotal(a.subject, b.subject);
    LexTotal(a.sha, b.sha);
  }

  lemma {:induction false} KeyTransitive(a: Entry, b: Entry, c: Entry)
    requires KeyLeq(a, b) && KeyLeq(b, c)
    ensures KeyLeq(a, c)
  {
    LexTotal(a.vendor, b.vendor);
    LexTotal(b.vendor, c.vendor);
    LexTotal(a.subject, b.subject);
    LexTotal(b.subject, c.subject);
    if a.vendor != b.vendor && b.vendor != c.vendor {
      LexTransitive(a.vendor, b.vendor, c.vendor);
      LexTotal(a.vendor, c.vendor);
    } else if a.vendor == b.vendor == c.vendor && a.role == b.role == c.role {
      if a.subject != b.subject && b.subject != c.subject {
        LexTransitive(a.subject, b.subject, c.subject);
      } else if a.subject == b.subject == c.subject {
        LexTransitive(a.sha, b.sha, c.sha);
      }
    }
  }

  lemma {:induction false} KeyIsPreorder()
    ensures TotalPreorder(KeyLeq)
  {
    forall a, b ensures KeyLeq(a, b) || KeyLeq(b, a) {
      KeyTotal(a, b);
    }
    forall a, b, c | KeyLeq(a, b) && KeyLeq(b, c) ensures KeyLeq(a, c) {
      KeyTransitive(a, b, c);
    }
  }

  // ---------- the manifest and its environment ----------

  /** A manifest item: complete, or just added with --add. */
  datatype Item = Added(vendor: string, url: string) | Listed(entry: Entry)

  function UrlOf(i: Item): string { if i.Added? then i.url else i.entry.url }

  function VendorOf(i: Item): string { if i.Added? then i.vendor else i.entry.vendor }

  predicate IsLive(i: Item) { i.Added? || !i.entry.retained }

  /** What each URL serves (None: no answer), the directory of certificate files (file names to
      digests), and what is known about certificates: which digests are those of one certificate, their
      descriptions, the slugs of their names, and openssl's verdicts. */
  datatype Env = Env(download: string -> Option<string>, dir: map<string, string>, certificate: string -> bool,
                     subject: string -> string, facts: string -> Facts, slug: string -> string, pki: Pki)

  predicate Https(url: string) { "https://" <= url }

  /** `download`: only a certificate from an HTTPS URL is accepted. */
  function Fetch(env: Env, url: string): Option<string> {
    match env.download(url)
    case None => None
    case Some(sha) => if Https(url) && env.certificate(sha) then Some(sha) else None
  }

  /** `read_shipped`: the entry's file holds the entry's bytes. */
  predicate Holds(dir: map<string, string>, e: Entry) { e.file in dir && dir[e.file] == e.sha }

  /** The directory after the files of a manifest are written in order. */
  function Directory(entries: seq<Entry>): map<string, string> {
    if entries == [] then map[]
    else
      var n := |entries| - 1;
      Directory(entries[..n])[entries[n].file := entries[n].sha]
  }

  /** `role_of`. */
  function RoleOf(pki: Pki, sha: string): Role {
    if pki.subjectHash(sha) == pki.issuerHash(sha) && pki.selfSigned(sha) then Root else Intermediate
  }

  /** `file_name`: the vendor, the slug of the certificate's name, the first 8 digits of the digest. */
  function FileName(env: Env, vendor: string, sha: string): string {
    vendor + "/" + env.slug(env.subject(sha)) + "-" + (if |sha| >= 8 then sha[..8] else sha) + ".der"
  }

  /** `entry_for`. */
  function EntryFor(env: Env, vendor: string, url: string, sha: string, retrieved: string, retained: bool): Entry {
    Entry(vendor, url, sha, retrieved, RoleOf(env.pki, sha), env.subject(sha), env.facts(sha),
          FileName(env, vendor, sha), retained)
  }

  /** What the second loop of `refresh` makes of a listed entry. */
  function Kept(env: Env, e: Entry): Entry { EntryFor(env, e.vendor, e.url, e.sha, e.retrieved, true) }

  function LiveUrls(items: seq<Item>): seq<string> {
    if items == [] then []
    else
      var n := |items| - 1;
      var urls := LiveUrls(items[..n]);
      if IsLive(items[n]) && UrlOf(items[n]) !in urls then urls + [UrlOf(items[n])] else urls
  }

  function Vendors(items: seq<Item>): map<string, string> {
    if items == [] then map[]
    else
      var n := |items| - 1;
      Vendors(items[..n])[UrlOf(items[n]) := VendorOf(items[n])]
  }

  /** When each listed digest was first downloaded. */
  function Known(items: seq<Item>): map<string, string> {
    if items == [] then map[]
    else
      var n := |items| - 1;
      var known := Known(items[..n]);
      if items[n].Listed? then known[items[n].entry.sha := items[n].entry.retrieved] else known
  }

  /** The recorded date of first download; a missing or blank one becomes today. */
  function FirstSeen(known: map<string, string>, sha: string, today: string): string {
    if sha in known && known[sha] != "" then known[sha] else today
  }

  predicate HasSha(certs: seq<Entry>, sha: string) {
    exists i :: 0 <= i < |certs| && certs[i].sha == sha
  }

  // ---------- refresh ----------

  /** The first loop: one certificate per live URL; the same bytes under two URLs are refused. */
  function Download(urls: seq<string>, vendors: map<string, string>, known: map<string, string>,
                    env: Env, today: string): Option<seq<Entry>>
    requires forall u :: u in urls ==> u in vendors
  {
    if urls == [] then Some([])
    else
      var n := |urls| - 1;
      var url := urls[n];
      match Download(urls[..n], vendors, known, env, today)
      case None => None
      case Some(certs) =>
        match Fetch(env, url)
        case None => None
        case Some(sha) =>
          if HasSha(certs, sha) then None
          else
            Some(certs + [EntryFor(env, vendors[url], url, sha, FirstSeen(known, sha, today), false)])
  }

  /** One listed certificate: kept as it is when already collected, else read and retained. */
  function KeepOne(certs: seq<Entry>, item: Item, env: Env): Option<seq<Entry>> {
    if item.Added? || HasSha(certs, item.entry.sha) then Some(certs)
    else if !Holds(env.dir, item.entry) then None
    else Some(certs + [Kept(env, item.entry)])
  }

  /** The second loop: certificates no longer served are read from the directory and retained. */
  function Retain(items: seq<Item>, live: seq<Entry>, env: Env): Option<seq<Entry>> {
    if items == [] then Some(live)
    else
      match Retain(items[..|items| - 1], live, env)
      case None => None
      case Some(certs) => KeepOne(certs, items[|items| - 1], env)
  }

  lemma {:induction false} LiveUrlsMeans(items: seq<Item>)
    ensures forall u :: u in LiveUrls(items) <==>
              exists i :: 0 <= i < |items| && IsLive(items[i]) && UrlOf(items[i]) == u
    ensures forall i, j :: 0 <= i < j < |LiveUrls(items)| ==> LiveUrls(items)[i] != LiveUrls(items)[j]
  {
    if items != [] {
      var n := |items| - 1;
      LiveUrlsMeans(items[..n]);
      forall u
        ensures u in LiveUrls(items) <==> exists i :: 0 <= i < |items| && IsLive(items[i]) && UrlOf(items[i]) == u
      {
        if i :| 0 <= i < |items| && IsLive(items[i]) && UrlOf(items[i]) == u {
          assert i < n ==> items[..n][i] == items[i];
        }
      }
    }
  }

  lemma {:induction false} VendorsHas(items: seq<Item>, i: nat)
    requires i < |items|
    ensures UrlOf(items[i]) in Vendors(items)
  {
    var n := |items| - 1;
    if i < n {
      VendorsHas(items[..n], i);
    }
  }

  lemma {:induction false} VendorFrom(items: seq<Item>, u: string) returns (i: nat)
    requires u in Vendors(items)
    ensures i < |items| && UrlOf(items[i]) == u && VendorOf(items[i]) == Vendors(items)[u]
  {
    var n := |items| - 1;
    if UrlOf(items[n]) == u {
      i := n;
    } else {
      i := VendorFrom(items[..n], u);
    }
  }

  lemma {:induction false} KnownHas(items: seq<Item>, i: nat)
    requires i < |items| && items[i].Listed?
    ensures items[i].entry.sha in Known(items)
  {
    var n := |items| - 1;
    if i < n {
      KnownHas(items[..n], i);
    }
  }

  lemma {:induction false} KnownFrom(items: seq<Item>, s: string) returns (i: nat)
    requires s in Known(items)
    ensures i < |items| && items[i].Listed? && items[i].entry.sha == s && items[i].entry.retrieved == Known(items)[s]
  {
    var n := |items| - 1;
    if items[n].Listed? && items[n].entry.sha == s {
      i := n;
    } else {
      i := KnownFrom(items[..n], s);
    }
  }

  lemma {:induction false} LiveUrlsHaveVendors(items: seq<Item>)
    ensures forall u :: u in LiveUrls(items) ==> u in Vendors(items)
  {
    LiveUrlsMeans(items);
    forall u | u in LiveUrls(items) ensures u in Vendors(items) {
      var i :| 0 <= i < |items| && IsLive(items[i]) && UrlOf(items[i]) == u;
      VendorsHas(items, i);
    }
  }

  /** What `refresh` writes, before sorting. */
  function Gather(items: seq<Item>, env: Env, today: string): Option<seq<Entry>> {
    LiveUrlsHaveVendors(items);
    match Download(LiveUrls(items), Vendors(items), Known(items), env, today)
    case None => None
    case Some(live) => Retain(items, live, env)
  }

  /** `refresh`. */
  ghost function Refresh(items: seq<Item>, env: Env, today: string): Option<seq<Entry>> {
    match Gather(items, env, today)
    case None => None
    case Some(certs) =>
      var entries := SortBy(certs, KeyLeq);
      if Verified(env.pki, entries) then Some(entries) else None
  }

  /** The first loop of `refresh`. */
  method DownloadAll(urls: seq<string>, vendors: map<string, string>, known: map<string, string>,
                     env: Env, today: string)
    returns (r: Option<seq<Entry>>)
    requires forall u :: u in urls ==> u in vendors
    ensures r == Download(urls, vendors, known, env, today)
  {
    var certificates: seq<Entry> := [];
    for n := 0 to |urls|
      invariant Download(urls[..n], vendors, known, env, today) == Some(certificates)
    {
      assert urls[..n + 1][..n] == urls[..n];
      var sha := Fetch(env, urls[n]);
      if sha.None? || HasSha(certificates, sha.value) {
        DownloadFails(urls, n + 1, vendors, known, env, today);
        return None;
      }
      var retrieved := FirstSeen(known, sha.value, today);
      certificates := certificates + [EntryFor(env, vendors[urls[n]], urls[n], sha.value, retrieved, false)];
    }
    assert urls[..|urls|] == urls;
    r := Some(certificates);
  }

  /** The second loop of `refresh`. */
  method RetainAll(items: seq<Item>, live: seq<Entry>, env: Env) returns (r: Option<seq<Entry>>)
    ensures r == Retain(items, live, env)
  {
    var certificates := live;
    for n := 0 to |items|
      invariant Retain(items[..n], live, env) == Some(certificates)
    {
      assert items[..n + 1][..n] == items[..n];
      if items[n].Listed? && !HasSha(certificates, items[n].entry.sha) {
        var e := items[n].entry;
        if !Holds(env.dir, e) {
          RetainFails(items, n + 1, live, env);
          return None;
        }
        certificates := certificates + [Kept(env, e)];
      }
    }
    assert items[..|items|] == items;
    r := Some(certificates);
  }

  /** `refresh`. */
  method RefreshManifest(items: seq<Item>, env: Env, today: string) returns (r: Option<seq<Entry>>)
    ensures r == Refresh(items, env, today)
  {
    LiveUrlsHaveVendors(items);
    var live := DownloadAll(LiveUrls(items), Vendors(items), Known(items), env, today);
    if live.None? {
      return None;
    }
    var certificates := RetainAll(items, live.value, env);
    if certificates.None? {
      return None;
    }
    var entries := SortBy(certificates.value, KeyLeq);
    var ok := VerifySet(env.pki, entries);
    r := if ok then Some(entries) else None;
  }

  lemma {:induction false} DownloadFails(urls: seq<string>, n: nat, vendors: map<string, string>,
                                         known: map<string, string>, env: Env, today: string)
    requires n <= |urls| && forall u :: u in urls ==> u in vendors
    requires Download(urls[..n], vendors, known, env, today).None?
    ensures Download(urls, vendors, known, env, today).None?
  {
    if n == |urls| {
      assert urls[..n] == urls;
    } else {
      var k := |urls| - 1;
      assert urls[..k][..n] == urls[..n];
      DownloadFails(urls[..k], n, vendors, known, env, today);
    }
  }

  lemma {:induction false} RetainFails(items: seq<Item>, n: nat, live: seq<Entry>, env: Env)
    requires n <= |items| && Retain(items[..n], live, env).None?
    ensures Retain(items, live, env).None?
  {
    if n == |items| {
      assert items[..n] == items;
    } else {
      var k := |items| - 1;
      assert items[..k][..n] == items[..n];
      RetainFails(items[..k], n, live, env);
    }
  }

  // ---------- what a successful refresh guarantees ----------

  ghost predicate DistinctShas(certs: seq<Entry>) {
    forall i, j :: 0 <= i < j < |certs| ==> certs[i].sha != certs[j].sha
  }

  lemma {:induction false} DownloadMeans(urls: seq<string>, vendors: map<string, string>,
                                         known: map<string, string>, env: Env, today: string)
    requires forall u :: u in urls ==> u in vendors
    requires Download(urls, vendors, known, env, today).Some?
    ensures var certs := Download(urls, vendors, known, env, today).value;
      && |certs| == |urls| && DistinctShas(certs)
      && forall i :: 0 <= i < |urls| ==>
           && Fetch(env, urls[i]) == Some(certs[i].sha)
           && certs[i] == EntryFor(env, vendors[urls[i]], urls[i], certs[i].sha,
                                   FirstSeen(known, certs[i].sha, today), false)
  {
    if urls != [] {
      DownloadMeans(urls[..|urls| - 1], vendors, known, env, today);
    }
  }

  /** The item is the first to list its digest. */
  ghost predicate FirstListing(items: seq<Item>, i: int) {
    && 0 <= i < |items| && items[i].Listed?
    && forall j :: 0 <= j < i && items[j].Listed? ==> items[j].entry.sha != items[i].entry.sha
  }

  /** The item is the last to list its digest. */
  ghost predicate LastListing(items: seq<Item>, i: int) {
    && 0 <= i < |items| && items[i].Listed?
    && forall j :: i < j < |items| && items[j].Listed? ==> items[j].entry.sha != items[i].entry.sha
  }

  lemma {:induction false} FirstIsUnique(items: seq<Item>, i: int, j: int)
    requires FirstListing(items, i) && FirstListing(items, j) && items[i].entry.sha == items[j].entry.sha
    ensures i == j
  {
  }

  /** An entry that the second loop made from the first listing of its digest, out of its file. */
  ghost predicate KeptFrom(items: seq<Item>, env: Env, e: Entry) {
    exists i :: FirstListing(items, i) && Holds(env.dir, items[i].entry) && e == Kept(env, items[i].entry)
  }

  lemma {:induction false} KeptFromMore(items: seq<Item>, n: nat, env: Env, e: Entry)
    requires n <= |items| && KeptFrom(items[..n], env, e)
    ensures KeptFrom(items, env, e)
  {
    var i :| FirstListing(items[..n], i) && Holds(env.dir, items[..n][i].entry) && e == Kept(env, items[..n][i].entry);
    assert forall j :: 0 <= j < n ==> items[..n][j] == items[j];
    assert FirstListing(items, i);
  }

  lemma {:induction false} RetainMeans(items: seq<Item>, live: seq<Entry>, env: Env)
    requires DistinctShas(live) && Retain(items, live, env).Some?
    ensures var certs := Retain(items, live, env).value;
      && live <= certs && DistinctShas(certs)
      && (forall i :: 0 <= i < |items| && items[i].Listed? ==> HasSha(certs, items[i].entry.sha))
      && (forall k :: |live| <= k < |certs| ==> KeptFrom(items, env, certs[k]))
  {
    if items != [] {
      var n := |items| - 1;
      RetainMeans(items[..n], live, env);
      var before, certs := Retain(items[..n], live, env).value, Retain(items, live, env).value;
      forall i | 0 <= i < n && items[i].Listed? ensures HasSha(before, items[i].entry.sha) {
        assert items[..n][i] == items[i];
      }
      forall i | 0 <= i < |items| && items[i].Listed? ensures HasSha(certs, items[i].entry.sha) {
        if i < n {
          var k :| 0 <= k < |before| && before[k].sha == items[i].entry.sha;
          assert certs[k].sha == items[i].entry.sha;
        } else if |certs| > |before| {
          assert certs[|before|].sha == items[n].entry.sha;
        }
      }
      forall k | |live| <= k < |certs| ensures KeptFrom(items, env, certs[k]) {
        if k < |before| {
          KeptFromMore(items, n, env, before[k]);
        } else {
          assert FirstListing(items, n);
        }
      }
    }
  }

  lemma {:induction false} InsertKeepsDistinct(x: Entry, s: seq<Entry>)
    requires DistinctShas(s) && !HasSha(s, x.sha)
    ensures DistinctShas(InsertBy(x, s, KeyLeq))
    ensures forall sha :: HasSha(InsertBy(x, s, KeyLeq), sha) <==> sha == x.sha || HasSha(s, sha)
  {
    var r := InsertBy(x, s, KeyLeq);
    if s == [] || KeyLeq(x, s[0]) {
      assert forall i :: 0 < i < |r| ==> r[i] == s[i - 1];
      forall sha | HasSha(s, sha) ensures HasSha(r, sha) {
        var i :| 0 <= i < |s| && s[i].sha == sha;
        assert r[i + 1].sha == sha;
      }
      assert r[0].sha == x.sha;
    } else {
      var t := InsertBy(x, s[1..], KeyLeq);
      assert !HasSha(s[1..], x.sha) && !HasSha(s[1..], s[0].sha);
      InsertKeepsDistinct(x, s[1..]);
      assert forall i :: 0 < i < |r| ==> r[i] == t[i - 1];
      assert !HasSha(t, s[0].sha);
      ShaOfCons(s[0], t);
      ShaOfCons(s[0], s[1..]);
      assert s == [s[0]] + s[1..];
    }
  }

  lemma {:induction false} ShaOfCons(x: Entry, s: seq<Entry>)
    ensures forall sha :: HasSha([x] + s, sha) <==> sha == x.sha || HasSha(s, sha)
  {
    var r := [x] + s;
    assert r[0].sha == x.sha;
    forall sha | HasSha(s, sha) ensures HasSha(r, sha) {
      var i :| 0 <= i < |s| && s[i].sha == sha;
      assert r[i + 1].sha == sha;
    }
  }

  lemma {:induction false} SortKeepsDistinct(s: seq<Entry>)
    requires DistinctShas(s)
    ensures DistinctShas(SortBy(s, KeyLeq))
    ensures forall sha :: HasSha(SortBy(s, KeyLeq), sha) <==> HasSha(s, sha)
  {
    if s != [] {
      SortKeepsDistinct(s[1..]);
      assert !HasSha(s[1..], s[0].sha);
      InsertKeepsDistinct(s[0], SortBy(s[1..], KeyLeq));
      ShaOfCons(s[0], s[1..]);
      assert s == [s[0]] + s[1..];
    }
  }

  /** The digest is served by a URL that is live in the manifest. */
  ghost predicate Served(items: seq<Item>, env: Env, sha: string) {
    exists u :: u in LiveUrls(items) && Fetch(env, u) == Some(sha)
  }

  /** How an entry of the result came about. */
  ghost predicate Explained(items: seq<Item>, env: Env, today: string, e: Entry) {
    if e.retained then KeptFrom(items, env, e) && !Served(items, env, e.sha)
    else
      && e.url in LiveUrls(items) && Fetch(env, e.url) == Some(e.sha)
      && e.url in Vendors(items)
      && e == EntryFor(env, Vendors(items)[e.url], e.url, e.sha,
                       FirstSeen(Known(items), e.sha, today), false)
  }

  lemma {:induction false} LiveExplained(items: seq<Item>, env: Env, today: string, live: seq<Entry>, k: nat)
    requires forall u :: u in LiveUrls(items) ==> u in Vendors(items)
    requires Download(LiveUrls(items), Vendors(items), Known(items), env, today) == Some(live) && k < |live|
    ensures Explained(items, env, today, live[k])
  {
    DownloadMeans(LiveUrls(items), Vendors(items), Known(items), env, today);
    assert LiveUrls(items)[k] in LiveUrls(items);
  }

  lemma {:induction false} LaterIsNotServed(items: seq<Item>, env: Env, today: string, live: seq<Entry>,
                                            certs: seq<Entry>, k: nat)
    requires forall u :: u in LiveUrls(items) ==> u in Vendors(items)
    requires Download(LiveUrls(items), Vendors(items), Known(items), env, today) == Some(live)
    requires live <= certs && DistinctShas(certs) && |live| <= k < |certs|
    ensures !Served(items, env, certs[k].sha)
  {
    var urls := LiveUrls(items);
    DownloadMeans(urls, Vendors(items), Known(items), env, today);
    forall u | u in urls ensures Fetch(env, u) != Some(certs[k].sha) {
      var j :| 0 <= j < |urls| && urls[j] == u;
      assert certs[j] == live[j];
    }
  }

  lemma {:induction false} GatherMeans(items: seq<Item>, env: Env, today: string)
    requires Gather(items, env, today).Some?
    ensures var certs := Gather(items, env, today).value;
      && DistinctShas(certs)
      && (forall i :: 0 <= i < |items| && items[i].Listed? ==> HasSha(certs, items[i].entry.sha))
      && (forall e :: e in certs ==> Explained(items, env, today, e))
      && (forall u :: u in LiveUrls(items) ==> exists e :: e in certs && !e.retained && e.url == u)
  {
    LiveUrlsHaveVendors(items);
    var urls := LiveUrls(items);
    var live := Download(urls, Vendors(items), Known(items), env, today).value;
    var certs := Gather(items, env, today).value;
    DownloadMeans(urls, Vendors(items), Known(items), env, today);
    RetainMeans(items, live, env);
    forall k | 0 <= k < |certs| ensures Explained(items, env, today, certs[k]) {
      if k < |live| {
        assert certs[k] == live[k];
        LiveExplained(items, env, today, live, k);
      } else {
        assert KeptFrom(items, env, certs[k]);
        LaterIsNotServed(items, env, today, live, certs, k);
      }
    }
    forall u | u in urls ensures exists e :: e in certs && !e.retained && e.url == u {
      var j :| 0 <= j < |urls| && urls[j] == u;
      assert certs[j] == live[j] && certs[j] in certs;
    }
  }

  function Relist(entries: seq<Entry>): (r: seq<Item>)
    ensures |r| == |entries| && forall i :: 0 <= i < |r| ==> r[i] == Listed(entries[i])
  {
    seq(|entries|, i requires 0 <= i < |entries| => Listed(entries[i]))
  }

  /** A successful refresh loses no certificate; every entry is explained by a current download or by
      an earlier listing; each live URL has an entry; the list is in order, without duplicates, and
      verified. */
  lemma {:induction false} RefreshMeans(items: seq<Item>, env: Env, today: string)
    requires Refresh(items, env, today).Some?
    ensures var written := Refresh(items, env, today).value;
      && DistinctShas(written) && SortedBy(written, KeyLeq) && Verified(env.pki, written)
      && (forall i :: 0 <= i < |items| && items[i].Listed? ==> HasSha(written, items[i].entry.sha))
      && (forall e :: e in written ==> Explained(items, env, today, e))
      && (forall u :: u in LiveUrls(items) ==> exists e :: e in written && !e.retained && e.url == u)
  {
    var certs := Gather(items, env, today).value;
    GatherMeans(items, env, today);
    KeyIsPreorder();
    SortSorts(certs, KeyLeq);
    SortMembers(certs, KeyLeq);
    SortKeepsDistinct(certs);
  }

  /** An entry is retained exactly when no live URL serves its bytes any more, and each live URL has
      exactly one entry that is not retained. */
  lemma {:induction false} RetainedMeans(items: seq<Item>, env: Env, today: string)
    requires Refresh(items, env, today).Some?
    ensures var written := Refresh(items, env, today).value;
      && (forall e :: e in written ==> (e.retained <==> !Served(items, env, e.sha)))
      && (forall u :: u in LiveUrls(items) ==>
            exists i :: 0 <= i < |written| && !written[i].retained && written[i].url == u)
      && (forall i, j :: 0 <= i < j < |written| && !written[i].retained && !written[j].retained ==>
            written[i].url != written[j].url)
  {
    RefreshMeans(items, env, today);
    var written := Refresh(items, env, today).value;
    forall e | e in written ensures e.retained <==> !Served(items, env, e.sha) {
      assert Explained(items, env, today, e);
    }
    forall u | u in LiveUrls(items)
      ensures exists i :: 0 <= i < |written| && !written[i].retained && written[i].url == u
    {
      var e :| e in written && !e.retained && e.url == u;
      var i :| 0 <= i < |written| && written[i] == e;
    }
    forall i, j | 0 <= i < j < |written| && !written[i].retained && !written[j].retained
      ensures written[i].url != written[j].url
    {
      assert Explained(items, env, today, written[i]) && Explained(items, env, today, written[j]);
    }
  }

  lemma {:induction false} SameSha(entries: seq<Entry>, a: Entry, b: Entry)
    requires DistinctShas(entries) && a in entries && b in entries && a.sha == b.sha
    ensures a == b
  {
  }

  /** The result holds exactly the entries that the input explains. */
  lemma {:induction false} WrittenMeans(items: seq<Item>, env: Env, today: string, e: Entry)
    requires Refresh(items, env, today).Some?
    ensures e in Refresh(items, env, today).value <==> Explained(items, env, today, e)
  {
    RefreshMeans(items, env, today);
    var written := Refresh(items, env, today).value;
    if Explained(items, env, today, e) {
      if e.retained {
        var i :| FirstListing(items, i) && Holds(env.dir, items[i].entry) && e == Kept(env, items[i].entry);
        var k :| 0 <= k < |written| && written[k].sha == e.sha;
        assert written[k] in written && Explained(items, env, today, written[k]);
        var j :| FirstListing(items, j) && Holds(env.dir, items[j].entry) && written[k] == Kept(env, items[j].entry);
        FirstIsUnique(items, i, j);
      } else {
        var f :| f in written && !f.retained && f.url == e.url;
        assert Explained(items, env, today, f);
      }
    }
  }

  /** The order of the result: vendors ascend; within a vendor the roots come first; within vendor and
      role subjects ascend; and within a subject digests strictly ascend. */
  lemma {:induction false} WrittenOrder(items: seq<Item>, env: Env, today: string, i: nat, j: nat)
    requires Refresh(items, env, today).Some? && i < j < |Refresh(items, env, today).value|
    ensures var a, b := Refresh(items, env, today).value[i], Refresh(items, env, today).value[j];
      && LexLeq(a.vendor, b.vendor)
      && (a.vendor == b.vendor && b.role == Root ==> a.role == Root)
      && (a.vendor == b.vendor && a.role == b.role ==> LexLeq(a.subject, b.subject))
      && (a.vendor == b.vendor && a.role == b.role && a.subject == b.subject ==> LexLess(a.sha, b.sha))
  {
    RefreshMeans(items, env, today);
    var written := Refresh(items, env, today).value;
    assert KeyLeq(written[i], written[j]);
    LexTotal(written[i].vendor, written[i].vendor);
    LexTotal(written[i].subject, written[i].subject);
  }

  ghost predicate LastWithUrl(items: seq<Item>, i: int, u: string) {
    0 <= i < |items| && UrlOf(items[i]) == u && forall j :: i < j < |items| ==> UrlOf(items[j]) != u
  }

  lemma {:induction false} VendorLast(items: seq<Item>, i: nat, u: string)
    requires LastWithUrl(items, i, u)
    ensures u in Vendors(items) && Vendors(items)[u] == VendorOf(items[i])
  {
    var n := |items| - 1;
    if i < n {
      VendorLast(items[..n], i, u);
    }
  }

  lemma {:induction false} FileNameMeans(env: Env, vendor: string, sha: string)
    ensures (vendor + "/") <= FileName(env, vendor, sha)
    ensures |sha| >= 8 ==>
      FileName(env, vendor, sha) == vendor + "/" + env.slug(env.subject(sha)) + "-" + sha[..8] + ".der"
  {
    var slug, digits := env.slug(env.subject(sha)), if |sha| >= 8 then sha[..8] else sha;
    assert FileName(env, vendor, sha) == (vendor + "/") + (slug + "-" + digits + ".der");
  }

  lemma {:induction false} ExplainedIsMade(items: seq<Item>, env: Env, today: string, e: Entry)
    requires Explained(items, env, today, e)
    ensures e == EntryFor(env, e.vendor, e.url, e.sha, e.retrieved, e.retained)
    ensures !e.retained ==>
      Fetch(env, e.url) == Some(e.sha) && e.url in Vendors(items) && e.vendor == Vendors(items)[e.url]
  {
  }

  /** What is written about a certificate: a root is issued to its own name and signed by itself; the
      file lies in the vendor's directory and is named after the certificate and its digest. */
  lemma {:induction false} WrittenEntry(items: seq<Item>, env: Env, today: string, e: Entry)
    requires Refresh(items, env, today).Some? && e in Refresh(items, env, today).value
    ensures e.role == Root <==> env.pki.subjectHash(e.sha) == env.pki.issuerHash(e.sha) && env.pki.selfSigned(e.sha)
    ensures e.subject == env.subject(e.sha) && e.facts == env.facts(e.sha)
    ensures (e.vendor + "/") <= e.file
    ensures |e.sha| >= 8 ==> e.file == e.vendor + "/" + env.slug(e.subject) + "-" + e.sha[..8] + ".der"
  {
    WrittenMeans(items, env, today, e);
    ExplainedIsMade(items, env, today, e);
    FileNameMeans(env, e.vendor, e.sha);
  }

  /** A live entry was fetched over HTTPS, and has the vendor of the last item with its URL. */
  lemma {:induction false} LiveEntry(items: seq<Item>, env: Env, today: string, e: Entry)
    requires Refresh(items, env, today).Some? && e in Refresh(items, env, today).value && !e.retained
    ensures "https://" <= e.url && env.certificate(e.sha) && env.download(e.url) == Some(e.sha)
    ensures forall i :: LastWithUrl(items, i, e.url) ==> e.vendor == VendorOf(items[i])
  {
    WrittenMeans(items, env, today, e);
    ExplainedIsMade(items, env, today, e);
    forall i | LastWithUrl(items, i, e.url) ensures e.vendor == VendorOf(items[i]) {
      VendorLast(items, i, e.url);
    }
  }

  /** The live URLs of the result are those of the input. */
  lemma {:induction false} LiveUrlsKept(items: seq<Item>, env: Env, today: string, u: string)
    requires Refresh(items, env, today).Some?
    ensures u in LiveUrls(Relist(Refresh(items, env, today).value)) <==> u in LiveUrls(items)
  {
    RefreshMeans(items, env, today);
    var written := Refresh(items, env, today).value;
    var next := Relist(written);
    LiveUrlsMeans(next);
    if u in LiveUrls(next) {
      var i :| 0 <= i < |next| && IsLive(next[i]) && UrlOf(next[i]) == u;
      assert Explained(items, env, today, written[i]);
    }
    if u in LiveUrls(items) {
      var e :| e in written && !e.retained && e.url == u;
      var i :| 0 <= i < |written| && written[i] == e;
      assert IsLive(next[i]) && UrlOf(next[i]) == u;
    }
  }

  lemma {:induction false} KnownLast(items: seq<Item>, i: nat)
    requires LastListing(items, i)
    ensures items[i].entry.sha in Known(items) && Known(items)[items[i].entry.sha] == items[i].entry.retrieved
  {
    var n := |items| - 1;
    if i < n {
      KnownLast(items[..n], i);
    }
  }

  /** The date a digest was first downloaded never changes; a blank one is filled in once. Where a
      digest is listed twice, a retained entry takes the first date and a live one the last. */
  lemma {:induction false} DateKept(items: seq<Item>, env: Env, today: string, i: nat, e: Entry)
    requires Refresh(items, env, today).Some? && e in Refresh(items, env, today).value
    requires if e.retained then FirstListing(items, i) else LastListing(items, i)
    requires items[i].entry.sha == e.sha
    ensures e.retrieved
         == if !e.retained && items[i].entry.retrieved == "" then today else items[i].entry.retrieved
  {
    WrittenMeans(items, env, today, e);
    if e.retained {
      var k :| FirstListing(items, k) && Holds(env.dir, items[k].entry) && e == Kept(env, items[k].entry);
      FirstIsUnique(items, i, k);
    } else {
      KnownLast(items, i);
    }
  }

  // ---------- histories of refreshes ----------

  /** The command line's additions: a URL the manifest already mentions is not added again. */
  function AddAll(items: seq<Item>, adds: seq<(string, string)>): seq<Item> {
    if adds == [] then items
    else
      var n := |adds| - 1;
      var now := AddAll(items, adds[..n]);
      if exists i :: 0 <= i < |now| && UrlOf(now[i]) == adds[n].1 then now
      else now + [Added(adds[n].0, adds[n].1)]
  }

  /** The manifest and the directory, between two runs. */
  datatype World = World(items: seq<Item>, dir: map<string, string>)

  /** One run of the script. The directory it reads is the world's. */
  datatype Round = Round(adds: seq<(string, string)>, env: Env, today: string)

  function Input(w: World, r: Round): seq<Item> { AddAll(w.items, r.adds) }

  function Seen(w: World, r: Round): Env { r.env.(dir := w.dir) }

  /** What a run leaves; a failed one writes nothing. */
  ghost function Next(w: World, r: Round): World {
    match Refresh(Input(w, r), Seen(w, r), r.today)
    case None => w
    case Some(written) => World(Relist(written), Directory(written))
  }

  ghost function After(w: World, rounds: seq<Round>): World {
    if rounds == [] then w else Next(After(w, rounds[..|rounds| - 1]), rounds[|rounds| - 1])
  }

  ghost predicate Lists(items: seq<Item>, sha: string) {
    exists i :: 0 <= i < |items| && items[i].Listed? && items[i].entry.sha == sha
  }

  lemma {:induction false} AddKeeps(items: seq<Item>, adds: seq<(string, string)>)
    ensures items <= AddAll(items, adds)
    ensures forall i :: |items| <= i < |AddAll(items, adds)| ==> AddAll(items, adds)[i].Added?
  {
    if adds != [] {
      AddKeeps(items, adds[..|adds| - 1]);
    }
  }

  /** Nothing listed and nothing live in `a` is missing in `b`. */
  ghost predicate Grows(a: seq<Item>, b: seq<Item>) {
    && (forall sha :: Lists(a, sha) ==> Lists(b, sha))
    && (forall u :: u in LiveUrls(a) ==> u in LiveUrls(b))
  }

  lemma {:induction false} RoundKeepsShas(w: World, r: Round, sha: string)
    requires Refresh(Input(w, r), Seen(w, r), r.today).Some? && Lists(w.items, sha)
    ensures Lists(Next(w, r).items, sha)
  {
    var all := Input(w, r);
    AddKeeps(w.items, r.adds);
    RefreshMeans(all, Seen(w, r), r.today);
    var written := Refresh(all, Seen(w, r), r.today).value;
    var i :| 0 <= i < |w.items| && w.items[i].Listed? && w.items[i].entry.sha == sha;
    assert all[i] == w.items[i];
    var k :| 0 <= k < |written| && written[k].sha == sha;
    assert Relist(written)[k].Listed? && Relist(written)[k].entry.sha == sha;
  }

  lemma {:induction false} RoundKeepsUrls(w: World, r: Round, u: string)
    requires Refresh(Input(w, r), Seen(w, r), r.today).Some? && u in LiveUrls(w.items)
    ensures u in LiveUrls(Next(w, r).items)
  {
    var all := Input(w, r);
    AddKeeps(w.items, r.adds);
    LiveUrlsMeans(w.items);
    LiveUrlsMeans(all);
    var i :| 0 <= i < |w.items| && IsLive(w.items[i]) && UrlOf(w.items[i]) == u;
    assert all[i] == w.items[i];
    LiveUrlsKept(all, Seen(w, r), r.today, u);
  }

  /** One round never drops a digest or a live URL. */
  lemma {:induction false} NextGrows(w: World, r: Round)
    ensures Grows(w.items, Next(w, r).items)
  {
    if Refresh(Input(w, r), Seen(w, r), r.today).Some? {
      forall sha | Lists(w.items, sha) ensures Lists(Next(w, r).items, sha) {
        RoundKeepsShas(w, r, sha);
      }
      forall u | u in LiveUrls(w.items) ensures u in LiveUrls(Next(w, r).items) {
        RoundKeepsUrls(w, r, u);
      }
    }
  }

  lemma {:induction false} GrowsTransitive(a: seq<Item>, b: seq<Item>, c: seq<Item>)
    requires Grows(a, b) && Grows(b, c)
    ensures Grows(a, c)
  {
  }

  lemma {:induction false} LastRoundGrows(w: World, rounds: seq<Round>)
    requires rounds != []
    ensures Grows(After(w, rounds[..|rounds| - 1]).items, After(w, rounds).items)
  {
    NextGrows(After(w, rounds[..|rounds| - 1]), rounds[|rounds| - 1]);
  }

  /** Over any series of refreshes, successful or not, the set of listed digests and the set of live
      URLs only grow. */
  lemma {:induction false} NothingIsEverLost(w: World, rounds: seq<Round>, k: nat)
    requires k <= |rounds|
    ensures Grows(After(w, rounds[..k]).items, After(w, rounds).items)
  {
    if k == |rounds| {
      assert rounds[..k] == rounds;
    } else {
      var n := |rounds| - 1;
      assert rounds[..n][..k] == rounds[..k];
      NothingIsEverLost(w, rounds[..n], k);
      LastRoundGrows(w, rounds);
      GrowsTransitive(After(w, rounds[..k]).items, After(w, rounds[..n]).items, After(w, rounds).items);
    }
  }

  ghost predicate Mentions(items: seq<Item>, u: string) {
    exists i :: 0 <= i < |items| && UrlOf(items[i]) == u
  }

  lemma {:induction false} MentionsSnoc(items: seq<Item>, x: Item, u: string)
    ensures Mentions(items + [x], u) <==> Mentions(items, u) || UrlOf(x) == u
    ensures u in LiveUrls(items + [x]) <==> u in LiveUrls(items) || (IsLive(x) && UrlOf(x) == u)
  {
    var all := items + [x];
    assert all[..|items|] == items && all[|items|] == x;
    if Mentions(items, u) {
      var i :| 0 <= i < |items| && UrlOf(items[i]) == u;
      assert UrlOf(all[i]) == u;
    }
  }

  ghost predicate Asks(adds: seq<(string, string)>, u: string) {
    exists k :: 0 <= k < |adds| && adds[k].1 == u
  }

  lemma {:induction false} AsksSnoc(adds: seq<(string, string)>, u: string)
    requires adds != []
    ensures Asks(adds, u) <==> Asks(adds[..|adds| - 1], u) || adds[|adds| - 1].1 == u
  {
    var n := |adds| - 1;
    if k :| 0 <= k < |adds| && adds[k].1 == u {
      assert k < n ==> adds[..n][k].1 == u;
    }
  }

  /** What --add does to the live URLs, exactly: a URL becomes live unless the manifest mentions it
      already, also when every mention is retained. */
  lemma {:induction false} AddedUrls(items: seq<Item>, adds: seq<(string, string)>, u: string)
    ensures u in LiveUrls(AddAll(items, adds)) <==> u in LiveUrls(items) || (!Mentions(items, u) && Asks(adds, u))
    ensures Mentions(AddAll(items, adds), u) <==> Mentions(items, u) || Asks(adds, u)
  {
    if adds != [] {
      var n := |adds| - 1;
      AddedUrls(items, adds[..n], u);
      AsksSnoc(adds, u);
      var before := AddAll(items, adds[..n]);
      if Mentions(before, adds[n].1) {
        LiveIsMentioned(items, u);
      } else {
        MentionsSnoc(before, Added(adds[n].0, adds[n].1), u);
        LiveIsMentioned(before, u);
      }
    }
  }

  /** Each item that --add appends has the vendor and URL of one of its arguments, the first to ask for
      that URL. */
  lemma {:induction false} AddedItems(items: seq<Item>, adds: seq<(string, string)>, i: nat)
    requires |items| <= i < |AddAll(items, adds)|
    ensures exists k :: 0 <= k < |adds| && AddAll(items, adds)[i] == Added(adds[k].0, adds[k].1)
              && forall j :: 0 <= j < k ==> adds[j].1 != adds[k].1
  {
    var n := |adds| - 1;
    if adds != [] {
      var before := AddAll(items, adds[..n]);
      assert forall k :: 0 <= k < n ==> adds[..n][k] == adds[k];
      if i < |before| {
        AddedItems(items, adds[..n], i);
        var k :| 0 <= k < n && before[i] == Added(adds[..n][k].0, adds[..n][k].1)
                   && forall j :: 0 <= j < k ==> adds[..n][j].1 != adds[..n][k].1;
        assert AddAll(items, adds)[i] == Added(adds[k].0, adds[k].1);
      } else {
        AddedUrls(items, adds[..n], adds[n].1);
        assert !Mentions(before, adds[n].1) && !Asks(adds[..n], adds[n].1);
        forall j | 0 <= j < n ensures adds[j].1 != adds[n].1 {
          assert adds[..n][j] == adds[j];
        }
        assert AddAll(items, adds)[i] == Added(adds[n].0, adds[n].1);
      }
    }
  }

  /** Adding a URL that is mentioned on a retained entry alone leaves it dead. */
  lemma {:induction false} AddOfRetainedIsIgnored(e: Entry, vendor: string)
    requires e.retained
    ensures e.url !in LiveUrls(AddAll([Listed(e)], [(vendor, e.url)]))
  {
    AddedUrls([Listed(e)], [(vendor, e.url)], e.url);
    LiveUrlsMeans([Listed(e)]);
    assert UrlOf([Listed(e)][0]) == e.url;
  }

  lemma {:induction false} LiveIsMentioned(items: seq<Item>, u: string)
    ensures u in LiveUrls(items) ==> Mentions(items, u)
  {
    LiveUrlsMeans(items);
  }
}
