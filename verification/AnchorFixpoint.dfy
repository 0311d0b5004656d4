/** Refreshing the anchor manifest again (scripts/update-tpm-ek-anchors.py). A refresh reads the date of
    a digest and the vendor of a URL back from the list that the refresh before it wrote, and retained
    certificates back from the files. So when the vendors' servers answer as they did, and each URL has
    one vendor, the list reproduces itself, unless the file of a retained certificate was overwritten:
    then the second refresh fails. */
module AnchorFixpoint {
  import opened Sequences
  import opened AnchorChains
  import opened AnchorRefresh
  import opened AnchorFiles
  import opened Strings

  ghost predicate OneVendorPerUrl(items: seq<Item>) {
    forall i, j :: 0 <= i < |items| && 0 <= j < |items| && UrlOf(items[i]) == UrlOf(items[j]) ==>
      VendorOf(items[i]) == VendorOf(items[j])
  }

  lemma {:induction false} VendorKept(items: seq<Item>, env: Env, today: string, e: Entry) returns (i: nat)
    requires Explained(items, env, today, e)
    ensures i < |items| && UrlOf(items[i]) == e.url && VendorOf(items[i]) == e.vendor
  {
    if e.retained {
      i :| FirstListing(items, i) && Holds(env.dir, items[i].entry) && e == Kept(env, items[i].entry);
    } else {
      i := VendorFrom(items, e.url);
    }
  }

  /** A list that a refresh would reproduce out of intact files: live entries are what their URLs still
      give, and the list itself knows each entry's vendor and date. */
  ghost predicate Stable(written: seq<Entry>, env: Env) {
    && DistinctShas(written)
    && (forall i, j :: 0 <= i < j < |written| && !written[i].retained && !written[j].retained ==>
          written[i].url != written[j].url)
    && (forall e :: e in written ==> StableEntry(Relist(written), env, e))
  }

  ghost predicate StableEntry(next: seq<Item>, env: Env, e: Entry) {
    && e == EntryFor(env, e.vendor, e.url, e.sha, e.retrieved, e.retained)
    && (!e.retained ==> Fetch(env, e.url) == Some(e.sha))
    && e.url in Vendors(next) && Vendors(next)[e.url] == e.vendor
    && e.sha in Known(next) && Known(next)[e.sha] == e.retrieved
    && (!e.retained ==> e.retrieved != "")
  }

  lemma {:induction false} WrittenVendor(items: seq<Item>, env: Env, today: string, written: seq<Entry>, k: nat)
    requires OneVendorPerUrl(items) && k < |written|
    requires forall e :: e in written ==> Explained(items, env, today, e)
    ensures var next := Relist(written);
            written[k].url in Vendors(next) && Vendors(next)[written[k].url] == written[k].vendor
  {
    var next := Relist(written);
    VendorsHas(next, k);
    var j := VendorFrom(next, written[k].url);
    assert written[k] in written && written[j] in written;
    var a := VendorKept(items, env, today, written[k]);
    var b := VendorKept(items, env, today, written[j]);
    assert VendorOf(items[a]) == VendorOf(items[b]);
  }

  lemma {:induction false} WrittenDate(written: seq<Entry>, k: nat)
    requires DistinctShas(written) && k < |written|
    ensures var next := Relist(written);
            written[k].sha in Known(next) && Known(next)[written[k].sha] == written[k].retrieved
  {
    var next := Relist(written);
    KnownHas(next, k);
    var i := KnownFrom(next, written[k].sha);
    SameSha(written, written[k], written[i]);
  }

  lemma {:induction false} WrittenEntryIsStable(items: seq<Item>, env: Env, today: string, written: seq<Entry>, k: nat)
    requires OneVendorPerUrl(items) && today != "" && DistinctShas(written) && k < |written|
    requires forall e :: e in written ==> Explained(items, env, today, e)
    ensures StableEntry(Relist(written), env, written[k])
  {
    assert written[k] in written;
    assert Explained(items, env, today, written[k]);
    WrittenVendor(items, env, today, written, k);
    WrittenDate(written, k);
  }

  lemma {:induction false} WrittenIsStable(items: seq<Item>, env: Env, today: string)
    requires Refresh(items, env, today).Some? && OneVendorPerUrl(items) && today != ""
    ensures Stable(Refresh(items, env, today).value, env)
  {
    RefreshMeans(items, env, today);
    RetainedMeans(items, env, today);
    var written := Refresh(items, env, today).value;
    forall k | 0 <= k < |written| ensures StableEntry(Relist(written), env, written[k]) {
      WrittenEntryIsStable(items, env, today, written, k);
    }
  }

  ghost predicate LiveIn(entries: seq<Entry>, u: string) {
    exists e :: e in entries && !e.retained && e.url == u
  }

  /** What downloading an entry's URL again takes. */
  ghost predicate Repeats(vendors: map<string, string>, known: map<string, string>, env: Env, e: Entry) {
    && e == EntryFor(env, e.vendor, e.url, e.sha, e.retrieved, false) && Fetch(env, e.url) == Some(e.sha)
    && e.url in vendors && vendors[e.url] == e.vendor
    && e.sha in known && known[e.sha] == e.retrieved && e.retrieved != ""
  }

  lemma {:induction false} DownloadOne(vendors: map<string, string>, known: map<string, string>, env: Env,
                                       later: string, urls: seq<string>, e: Entry, certs: seq<Entry>)
    requires Repeats(vendors, known, env, e) && forall u :: u in urls ==> u in vendors
    requires Download(urls, vendors, known, env, later) == Some(certs) && !HasSha(certs, e.sha)
    ensures Download(urls + [e.url], vendors, known, env, later) == Some(certs + [e])
  {
    assert (urls + [e.url])[..|urls|] == urls;
  }

  lemma {:induction false} NotYetThere(written: seq<Entry>, certs: seq<Entry>, e: Entry)
    requires DistinctShas(written) && e in written && e !in certs
    requires forall k :: 0 <= k < |certs| ==> certs[k] in written
    ensures !HasSha(certs, e.sha)
  {
    forall k | 0 <= k < |certs| ensures certs[k].sha != e.sha {
      if certs[k].sha == e.sha {
        SameSha(written, certs[k], e);
      }
    }
  }

  /** The entries of `written` that the live URLs give, in the order of the URLs. */
  ghost predicate Gives(r: Option<seq<Entry>>, urls: seq<string>, written: seq<Entry>) {
    && r.Some? && |r.value| == |urls|
    && forall i :: 0 <= i < |urls| ==> r.value[i] in written && !r.value[i].retained && r.value[i].url == urls[i]
  }

  lemma {:induction false} DownloadAgain(written: seq<Entry>, vendors: map<string, string>,
                                         known: map<string, string>, env: Env, later: string, urls: seq<string>)
    requires DistinctShas(written) && forall e :: e in written && !e.retained ==> Repeats(vendors, known, env, e)
    requires forall u :: u in urls ==> u in vendors && LiveIn(written, u)
    requires forall i, j :: 0 <= i < j < |urls| ==> urls[i] != urls[j]
    ensures Gives(Download(urls, vendors, known, env, later), urls, written)
  {
    if urls != [] {
      var n := |urls| - 1;
      DownloadAgain(written, vendors, known, env, later, urls[..n]);
      var certs := Download(urls[..n], vendors, known, env, later).value;
      assert urls[n] in urls && urls == urls[..n] + [urls[n]];
      var e :| e in written && !e.retained && e.url == urls[n];
      NotYetThere(written, certs, e);
      DownloadOne(vendors, known, env, later, urls[..n], e, certs);
    }
  }

  ghost predicate Between(live: seq<Entry>, certs: Option<seq<Entry>>, written: seq<Entry>) {
    certs.Some? && live <= certs.value && forall e :: e in certs.value ==> e in written
  }

  lemma {:induction false} RetainStep(items: seq<Item>, item: Item, live: seq<Entry>, env: Env)
    requires Retain(items, live, env).Some?
    ensures Retain(items + [item], live, env) == KeepOne(Retain(items, live, env).value, item, env)
  {
    assert (items + [item])[..|items|] == items;
  }

  lemma {:induction false} KeepStable(written: seq<Entry>, env: Env, live: seq<Entry>, certs: seq<Entry>, e: Entry)
    requires e in written && StableEntry(Relist(written), env, e)
    requires Between(live, Some(certs), written) && (if e.retained then Holds(env.dir, e) else e in live)
    ensures Between(live, KeepOne(certs, Listed(e), env), written)
  {
    if !e.retained {
      var k :| 0 <= k < |live| && live[k] == e;
      assert certs[k].sha == e.sha;
    }
  }

  lemma {:induction false} RetainAgain(written: seq<Entry>, env: Env, live: seq<Entry>, n: nat)
    requires Stable(written, env) && n <= |written|
    requires forall e :: e in live ==> e in written
    requires forall e :: e in written ==> if e.retained then Holds(env.dir, e) else e in live
    ensures Between(live, Retain(Relist(written)[..n], live, env), written)
  {
    var next := Relist(written);
    if n > 0 {
      RetainAgain(written, env, live, n - 1);
      assert next[..n] == next[..n - 1] + [Listed(written[n - 1])];
      RetainStep(next[..n - 1], Listed(written[n - 1]), live, env);
      KeepStable(written, env, live, Retain(next[..n - 1], live, env).value, written[n - 1]);
    }
  }

  lemma {:induction false} SameHead(a: seq<Entry>, b: seq<Entry>)
    requires SortedBy(a, KeyLeq) && SortedBy(b, KeyLeq) && DistinctShas(a)
    requires a != [] && b != [] && a[0] in b && b[0] in a
    ensures a[0] == b[0]
  {
    var i :| 0 <= i < |b| && b[i] == a[0];
    var j :| 0 <= j < |a| && a[j] == b[0];
    KeyTotal(a[0], b[0]);
  }

  /** Two sorted lists of the same entries are the same list. */
  lemma {:induction false} SortedEntriesAgree(a: seq<Entry>, b: seq<Entry>)
    requires SortedBy(a, KeyLeq) && SortedBy(b, KeyLeq) && DistinctShas(a) && DistinctShas(b)
    requires |a| == |b| && forall e :: e in a <==> e in b
    ensures a == b
  {
    if a != [] {
      assert a[0] in a && b[0] in b;
      SameHead(a, b);
      forall e ensures e in a[1..] <==> e in b[1..] {
        TailMembers(a, e);
        TailMembers(b, e);
      }
      SortedEntriesAgree(a[1..], b[1..]);
      assert a == [a[0]] + a[1..] && b == [b[0]] + b[1..];
    }
  }

  lemma {:induction false} SameSize(a: seq<Entry>, b: seq<Entry>)
    requires DistinctShas(a) && DistinctShas(b) && forall e :: e in a <==> e in b
    ensures |a| == |b|
  {
    DistinctSize(a);
    DistinctSize(b);
    assert (set e | e in a) == (set e | e in b);
  }

  lemma {:induction false} TailMembers(s: seq<Entry>, e: Entry)
    requires s != [] && DistinctShas(s)
    ensures e in s[1..] <==> e in s && e != s[0]
  {
    if e in s && e != s[0] {
      var i :| 0 <= i < |s| && s[i] == e;
      assert s[1..][i - 1] == e;
    }
    if e in s[1..] {
      var i :| 0 <= i < |s[1..]| && s[1..][i] == e;
      assert s[i + 1] == e;
    }
  }

  /** The files of the retained entries are intact. */
  ghost predicate RetainedHeld(written: seq<Entry>, env: Env) {
    forall e :: e in written && e.retained ==> Holds(env.dir, e)
  }

  lemma {:induction false} GatherWithin(written: seq<Entry>, env: Env, later: string)
    requires Stable(written, env) && RetainedHeld(written, env)
    ensures var r := Gather(Relist(written), env, later); r.Some? && forall e :: e in r.value ==> e in written
  {
    var next := Relist(written);
    var live := LiveAgain(written, env, later);
    RetainAgain(written, env, live, |written|);
    assert next[..|written|] == next;
  }

  lemma {:induction false} GatherHasAll(written: seq<Entry>, env: Env, later: string, e: Entry)
    requires Gather(Relist(written), env, later).Some? && e in written
    ensures HasSha(Gather(Relist(written), env, later).value, e.sha)
  {
    var next := Relist(written);
    GatherMeans(next, env, later);
    var k :| 0 <= k < |written| && written[k] == e;
    assert next[k].Listed? && next[k].entry.sha == e.sha;
  }

  lemma {:induction false} SameCertificate(written: seq<Entry>, certs: seq<Entry>, e: Entry)
    requires DistinctShas(written) && e in written && HasSha(certs, e.sha) && forall x :: x in certs ==> x in written
    ensures e in certs
  {
    var c :| 0 <= c < |certs| && certs[c].sha == e.sha;
    assert certs[c] in certs;
    SameSha(written, certs[c], e);
  }

  lemma {:induction false} GatherAgain(written: seq<Entry>, env: Env, later: string)
    requires Stable(written, env) && RetainedHeld(written, env)
    ensures var r := Gather(Relist(written), env, later);
            r.Some? && DistinctShas(r.value) && forall e :: e in r.value <==> e in written
  {
    GatherWithin(written, env, later);
    GatherIsDistinct(Relist(written), env, later);
    var certs := Gather(Relist(written), env, later).value;
    forall e | e in written ensures e in certs {
      GatherHasAll(written, env, later, e);
      SameCertificate(written, certs, e);
    }
  }

  lemma {:induction false} GatherIsDistinct(items: seq<Item>, env: Env, today: string)
    requires Gather(items, env, today).Some?
    ensures DistinctShas(Gather(items, env, today).value)
  {
    GatherMeans(items, env, today);
  }

  lemma {:induction false} LiveIsNotRetained(written: seq<Entry>, env: Env, u: string, e: Entry)
    requires Stable(written, env) && e in written && e.retained && u in LiveUrls(Relist(written))
    ensures Fetch(env, u) != Some(e.sha)
  {
    var next := Relist(written);
    LiveUrlsMeans(next);
    var i :| 0 <= i < |next| && IsLive(next[i]) && UrlOf(next[i]) == u;
    assert written[i] in written && StableEntry(next, env, written[i]);
    if written[i].sha == e.sha {
      SameSha(written, written[i], e);
    }
  }

  /** A second refresh that gets through its loops found every retained file intact. */
  lemma {:induction false} GatheredIsHeld(written: seq<Entry>, env: Env, later: string, e: Entry)
    requires Stable(written, env) && Gather(Relist(written), env, later).Some?
    requires e in written && e.retained
    ensures Holds(env.dir, e)
  {
    var next := Relist(written);
    GatherMeans(next, env, later);
    var certs := Gather(next, env, later).value;
    var k :| 0 <= k < |written| && written[k] == e;
    assert next[k].Listed? && next[k].entry.sha == e.sha;
    var c :| 0 <= c < |certs| && certs[c].sha == e.sha;
    assert certs[c] in certs && Explained(next, env, later, certs[c]);
    if !certs[c].retained {
      LiveIsNotRetained(written, env, certs[c].url, e);
    } else {
      var j :| FirstListing(next, j) && Holds(env.dir, next[j].entry) && certs[c] == Kept(env, next[j].entry);
      assert written[j] in written;
      SameSha(written, written[j], e);
    }
  }

  /** A stable, ordered and verified list is written again exactly when the retained files are intact;
      otherwise the refresh fails. */
  lemma {:induction false} StableAgain(written: seq<Entry>, env: Env, later: string)
    requires Stable(written, env) && SortedBy(written, KeyLeq) && Verified(env.pki, written)
    ensures Refresh(Relist(written), env, later) == if RetainedHeld(written, env) then Some(written) else None
  {
    if RetainedHeld(written, env) {
      GatherAgain(written, env, later);
      SortGives(Gather(Relist(written), env, later).value, written);
    } else {
      var e :| e in written && e.retained && !Holds(env.dir, e);
      if Gather(Relist(written), env, later).Some? {
        GatheredIsHeld(written, env, later, e);
      }
    }
  }

  /** In the input's terms: no retained certificate shares its file name with one that is written later. */
  ghost predicate NoRetainedOverwritten(items: seq<Item>, env: Env, today: string) {
    forall e, e' ::
      (&& Explained(items, env, today, e) && Explained(items, env, today, e')
       && e.retained && e.sha != e'.sha && e.file == e'.file)
      ==> KeyLeq(e', e)
  }

  lemma {:induction false} HeldInOrder(written: seq<Entry>, e: Entry)
    requires DistinctShas(written) && SortedBy(written, KeyLeq) && e in written
    ensures Holds(Directory(written), e) <==>
            forall e' :: e' in written && e.sha != e'.sha && e.file == e'.file ==> KeyLeq(e', e)
  {
    var i :| 0 <= i < |written| && written[i] == e;
    HeldMeans(written, i);
    forall j | 0 <= j < |written| && written[j].sha != e.sha ensures KeyLeq(written[j], e) <==> j < i {
      KeyTotal(written[j], e);
      assert j < i ==> KeyLeq(written[j], e);
      assert i < j ==> KeyLeq(e, written[j]);
    }
    if Holds(Directory(written), e) {
      forall e' | e' in written && e.sha != e'.sha && e.file == e'.file ensures KeyLeq(e', e) {
        var j :| 0 <= j < |written| && written[j] == e';
      }
    } else {
      var j :| i < j < |written| && written[j].file == e.file;
      assert written[j] in written && !KeyLeq(written[j], e);
    }
  }

  lemma {:induction false} OverwrittenMeans(items: seq<Item>, env: Env, today: string)
    requires Refresh(items, env, today).Some?
    ensures var written := Refresh(items, env, today).value;
            NoRetainedOverwritten(items, env, today) <==> RetainedHeld(written, env.(dir := Directory(written)))
  {
    var written := Refresh(items, env, today).value;
    RefreshMeans(items, env, today);
    forall e ensures e in written <==> Explained(items, env, today, e) {
      WrittenMeans(items, env, today, e);
    }
    forall e | e in written
      ensures Holds(Directory(written), e) <==>
              forall e' :: e' in written && e.sha != e'.sha && e.file == e'.file ==> KeyLeq(e', e)
    {
      HeldInOrder(written, e);
    }
  }

  lemma {:induction false} StableElsewhere(written: seq<Entry>, env: Env, dir: map<string, string>)
    requires Stable(written, env)
    ensures Stable(written, env.(dir := dir))
  {
    forall e | e in written ensures StableEntry(Relist(written), env.(dir := dir), e) {
      assert StableEntry(Relist(written), env, e);
    }
  }

  /** When the vendors serve the same certificates, refreshing again, on any later day and out of the
      directory just written, writes the same manifest if no retained certificate was overwritten,
      and fails if one was. */
  lemma {:induction false} RefreshAgain(items: seq<Item>, env: Env, today: string, later: string)
    requires Refresh(items, env, today).Some? && OneVendorPerUrl(items) && today != ""
    ensures var written := Refresh(items, env, today).value;
      Refresh(Relist(written), env.(dir := Directory(written)), later)
      == if NoRetainedOverwritten(items, env, today) then Some(written) else None
  {
    var written := Refresh(items, env, today).value;
    RefreshMeans(items, env, today);
    WrittenIsStable(items, env, today);
    StableElsewhere(written, env, Directory(written));
    StableAgain(written, env.(dir := Directory(written)), later);
    OverwrittenMeans(items, env, today);
  }

  /** In particular it is idempotent when no two digests that it keeps get the same file name. */
  lemma {:induction false} RefreshIsIdempotent(items: seq<Item>, env: Env, today: string, later: string)
    requires Refresh(items, env, today).Some? && OneVendorPerUrl(items) && today != "" && NamesDiffer(items, env)
    ensures var written := Refresh(items, env, today).value;
            Refresh(Relist(written), env.(dir := Directory(written)), later) == Some(written)
  {
    var written := Refresh(items, env, today).value;
    RefreshAgain(items, env, today, later);
    OverwrittenMeans(items, env, today);
    DistinctFilesMeans(items, env, today);
    RefreshMeans(items, env, today);
    AllHeldExactlyWhen(written);
    forall e | e in written ensures Holds(Directory(written), e) {
      var i :| 0 <= i < |written| && written[i] == e;
    }
  }

  /** A retained certificate, readable, and a URL of its vendor that serves another self-signed one of
      the same name, whose digest agrees in the first 8 digits and sorts after it. */
  ghost predicate Overwrites(env: Env, e: Entry, u: string, s: string) {
    && e.retained && Holds(env.dir, e) && u != e.url && Fetch(env, u) == Some(s)
    && s != e.sha && LexLeq(e.sha, s) && |s| >= 8 && |e.sha| >= 8 && s[..8] == e.sha[..8]
    && env.subject(s) == env.subject(e.sha) && RoleOf(env.pki, s) == Root && RoleOf(env.pki, e.sha) == Root
  }

  lemma {:induction false} OverwritingInput(env: Env, e: Entry, u: string)
    requires e.retained && u != e.url
    ensures var items := [Listed(e), Added(e.vendor, u)];
      && LiveUrls(items) == [u] && Vendors(items) == map[e.url := e.vendor, u := e.vendor]
      && Known(items) == map[e.sha := e.retrieved] && OneVendorPerUrl(items) && FirstListing(items, 0)
  {
    var items, first := [Listed(e), Added(e.vendor, u)], [Listed(e)];
    assert items[..1] == first && first[..0] == [];
    assert LiveUrls([]) == [] && Vendors([]) == map[] && Known([]) == map[];
    assert LiveUrls(first) == [] && Vendors(first) == map[][e.url := e.vendor];
    assert Known(first) == map[][e.sha := e.retrieved];
  }

  lemma {:induction false} OverwritingGather(env: Env, e: Entry, u: string, s: string, today: string)
    requires Overwrites(env, e, u, s)
    ensures Gather([Listed(e), Added(e.vendor, u)], env, today)
         == Some([EntryFor(env, e.vendor, u, s, today, false), Kept(env, e)])
  {
    var items, first := [Listed(e), Added(e.vendor, u)], [Listed(e)];
    OverwritingInput(env, e, u);
    LiveUrlsHaveVendors(items);
    var vendors, known := map[e.url := e.vendor, u := e.vendor], map[e.sha := e.retrieved];
    var live := [EntryFor(env, e.vendor, u, s, today, false)];
    assert [u][..0] == [] && Download([], vendors, known, env, today) == Some([]);
    assert !HasSha([], s) && FirstSeen(known, s, today) == today;
    assert Download([u], vendors, known, env, today) == Some([] + live);
    assert [] + live == live;
    assert items[..1] == first && first[..0] == [] && Retain([], live, env) == Some(live);
    assert !HasSha(live, e.sha);
    assert Retain(first, live, env) == KeepOne(live, Listed(e), env) == Some(live + [Kept(env, e)]);
    assert Retain(items, live, env) == Some(live + [Kept(env, e)]);
    assert live + [Kept(env, e)] == [live[0], Kept(env, e)];
  }

  lemma {:induction false} OverwritingSucceeds(env: Env, e: Entry, u: string, s: string, today: string)
    requires Overwrites(env, e, u, s)
    ensures var items := [Listed(e), Added(e.vendor, u)];
      && Refresh(items, env, today).Some?
      && Kept(env, e) in Refresh(items, env, today).value
      && EntryFor(env, e.vendor, u, s, today, false) in Refresh(items, env, today).value
  {
    var kept, newer := Kept(env, e), EntryFor(env, e.vendor, u, s, today, false);
    OverwritingGather(env, e, u, s, today);
    KeyIsPreorder();
    SortMembers([newer, kept], KeyLeq);
    var written := SortBy([newer, kept], KeyLeq);
    forall x | x in written ensures x.role == Root && env.pki.selfSigned(x.sha) {
      assert x in [newer, kept];
      assert x == newer || x == kept;
    }
    assert Verified(env.pki, written);
    assert [newer, kept][0] in written && [newer, kept][1] in written;
  }

  /** Then the first refresh succeeds and destroys the retained certificate's file, and every later
      refresh out of that directory fails although the vendors serve the same. */
  lemma {:induction false} OverwritingBreaksRefresh(env: Env, e: Entry, u: string, s: string,
                                                    today: string, later: string)
    requires Overwrites(env, e, u, s) && today != ""
    ensures var items := [Listed(e), Added(e.vendor, u)];
      && Refresh(items, env, today).Some?
      && var written := Refresh(items, env, today).value;
      Refresh(Relist(written), env.(dir := Directory(written)), later).None?
  {
    var items := [Listed(e), Added(e.vendor, u)];
    var kept, newer := Kept(env, e), EntryFor(env, e.vendor, u, s, today, false);
    OverwritingInput(env, e, u);
    OverwritingSucceeds(env, e, u, s, today);
    WrittenMeans(items, env, today, kept);
    WrittenMeans(items, env, today, newer);
    KeyTotal(kept, newer);
    assert KeyLeq(kept, newer) && !KeyLeq(newer, kept);
    assert !NoRetainedOverwritten(items, env, today);
    RefreshAgain(items, env, today, later);
  }

  lemma {:induction false} SortGives(certs: seq<Entry>, written: seq<Entry>)
    requires DistinctShas(certs) && DistinctShas(written) && SortedBy(written, KeyLeq)
    requires forall e :: e in certs <==> e in written
    ensures SortBy(certs, KeyLeq) == written
  {
    KeyIsPreorder();
    SortSorts(certs, KeyLeq);
    SortMembers(certs, KeyLeq);
    SortKeepsDistinct(certs);
    SameSize(SortBy(certs, KeyLeq), written);
    SortedEntriesAgree(SortBy(certs, KeyLeq), written);
  }

  lemma {:induction false} LiveAgain(written: seq<Entry>, env: Env, later: string) returns (live: seq<Entry>)
    requires Stable(written, env)
    ensures var next := Relist(written);
      && (forall u :: u in LiveUrls(next) ==> u in Vendors(next))
      && Download(LiveUrls(next), Vendors(next), Known(next), env, later) == Some(live)
      && (forall e :: e in live ==> e in written)
      && (forall e :: e in written && !e.retained ==> e in live)
  {
    var next := Relist(written);
    var urls := LiveUrls(next);
    LiveUrlsHaveVendors(next);
    LiveUrlsMeans(next);
    forall u | u in urls ensures LiveIn(written, u) {
      var i :| 0 <= i < |next| && IsLive(next[i]) && UrlOf(next[i]) == u;
      assert written[i] in written;
    }
    forall e | e in written && !e.retained ensures Repeats(Vendors(next), Known(next), env, e) {
      assert StableEntry(next, env, e);
    }
    DownloadAgain(written, Vendors(next), Known(next), env, later, urls);
    live := Download(urls, Vendors(next), Known(next), env, later).value;
    forall e | e in written && !e.retained ensures e in live {
      var i :| 0 <= i < |written| && written[i] == e;
      assert IsLive(next[i]) && UrlOf(next[i]) == e.url;
      LiveEntryIs(written, live, urls, e);
    }
  }

  lemma {:induction false} LiveEntryIs(written: seq<Entry>, live: seq<Entry>, urls: seq<string>, e: Entry)
    requires forall i, j :: 0 <= i < j < |written| && !written[i].retained && !written[j].retained ==>
               written[i].url != written[j].url
    requires |live| == |urls| && e in written && !e.retained && e.url in urls
    requires forall i :: 0 <= i < |urls| ==> live[i] in written && !live[i].retained && live[i].url == urls[i]
    ensures e in live
  {
    var k :| 0 <= k < |urls| && urls[k] == e.url;
    var i :| 0 <= i < |written| && written[i] == e;
    var j :| 0 <= j < |written| && written[j] == live[k];
    assert i == j;
  }

  /** The command line never gives a URL a second vendor, and a refresh does not either: manifests
      with one vendor per URL stay so, over any series of refreshes. */
  lemma {:induction false} OneVendorIsKept(w: World, rounds: seq<Round>)
    requires OneVendorPerUrl(w.items)
    ensures OneVendorPerUrl(After(w, rounds).items)
  {
    if rounds != [] {
      var n := |rounds| - 1;
      OneVendorIsKept(w, rounds[..n]);
      var now, r := After(w, rounds[..n]), rounds[n];
      AddKeepsOneVendor(now.items, r.adds);
      if Refresh(Input(now, r), Seen(now, r), r.today).Some? {
        RefreshKeepsOneVendor(Input(now, r), Seen(now, r), r.today);
      }
    }
  }

  lemma {:induction false} RefreshKeepsOneVendor(items: seq<Item>, env: Env, today: string)
    requires OneVendorPerUrl(items) && Refresh(items, env, today).Some?
    ensures OneVendorPerUrl(Relist(Refresh(items, env, today).value))
  {
    RefreshMeans(items, env, today);
    var written := Refresh(items, env, today).value;
    var next := Relist(written);
    forall i, j | 0 <= i < |next| && 0 <= j < |next| && UrlOf(next[i]) == UrlOf(next[j])
      ensures VendorOf(next[i]) == VendorOf(next[j])
    {
      assert written[i] in written && written[j] in written;
      var a := VendorKept(items, env, today, written[i]);
      var b := VendorKept(items, env, today, written[j]);
      assert VendorOf(items[a]) == VendorOf(items[b]);
    }
  }

  lemma {:induction false} AddKeepsOneVendor(items: seq<Item>, adds: seq<(string, string)>)
    requires OneVendorPerUrl(items)
    ensures OneVendorPerUrl(AddAll(items, adds))
  {
    if adds != [] {
      AddKeepsOneVendor(items, adds[..|adds| - 1]);
    }
  }
}
