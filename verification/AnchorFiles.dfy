/** The certificate files of scripts/update-tpm-ek-anchors.py: writing them, and `check`. */
module AnchorFiles {
  import opened Sequences
  import opened AnchorChains
  import opened AnchorRefresh

  // ---------- the directory ----------

  /** The loop at the end of `refresh`, after the old files are removed. */
  method WriteFiles(entries: seq<Entry>) returns (dir: map<string, string>)
    ensures dir == Directory(entries)
  {
    dir := map[];
    for n := 0 to |entries|
      invariant dir == Directory(entries[..n])
    {
      assert entries[..n + 1][..n] == entries[..n];
      dir := dir[entries[n].file := entries[n].sha];
    }
    assert entries[..|entries|] == entries;
  }

  ghost predicate DistinctFiles(entries: seq<Entry>) {
    forall i, j :: 0 <= i < j < |entries| ==> entries[i].file != entries[j].file
  }

  /** A certificate is on disk exactly when no later one has the same file name. */
  lemma {:induction false} HeldMeans(entries: seq<Entry>, i: nat)
    requires DistinctShas(entries) && i < |entries|
    ensures Holds(Directory(entries), entries[i]) <==>
            forall j :: i < j < |entries| ==> entries[j].file != entries[i].file
  {
    var n := |entries| - 1;
    var init := entries[..n];
    if i < n {
      HeldMeans(init, i);
      assert (forall j :: i < j < |entries| ==> entries[j].file != entries[i].file) <==>
             entries[n].file != entries[i].file && forall j :: i < j < n ==> init[j].file != init[i].file by {
        assert forall j :: 0 <= j < n ==> init[j] == entries[j];
      }
    }
  }

  lemma {:induction false} DirectoryFrom(entries: seq<Entry>, f: string) returns (i: nat)
    requires f in Directory(entries)
    ensures i < |entries| && entries[i].file == f
  {
    var n := |entries| - 1;
    if entries[n].file == f {
      i := n;
    } else {
      i := DirectoryFrom(entries[..n], f);
    }
  }

  /** Every certificate of a manifest is on disk exactly when no two have the same file name. */
  lemma {:induction false} AllHeldExactlyWhen(entries: seq<Entry>)
    requires DistinctShas(entries)
    ensures (forall i :: 0 <= i < |entries| ==> Holds(Directory(entries), entries[i])) <==> DistinctFiles(entries)
  {
    forall i | 0 <= i < |entries|
      ensures Holds(Directory(entries), entries[i]) <==>
              forall j :: i < j < |entries| ==> entries[j].file != entries[i].file
    {
      HeldMeans(entries, i);
    }
  }

  // ---------- file names, from the input of a refresh ----------

  /** A refresh keeps the digest under the vendor: a live URL of the vendor serves it, or none serves
      it and the first item to list it names the vendor. */
  ghost predicate Keeps(items: seq<Item>, env: Env, vendor: string, sha: string) {
    || (exists u :: u in LiveUrls(items) && Fetch(env, u) == Some(sha)
                      && u in Vendors(items) && Vendors(items)[u] == vendor)
    || (!Served(items, env, sha)
        && exists i :: FirstListing(items, i) && items[i].entry.sha == sha && items[i].entry.vendor == vendor)
  }

  /** No two digests that a refresh keeps get the same file name. */
  ghost predicate NamesDiffer(items: seq<Item>, env: Env) {
    forall v, s, v', s' :: Keeps(items, env, v, s) && Keeps(items, env, v', s') && s != s' ==>
      FileName(env, v, s) != FileName(env, v', s')
  }

  lemma {:induction false} WrittenIsKept(items: seq<Item>, env: Env, today: string, e: Entry)
    requires Refresh(items, env, today).Some? && e in Refresh(items, env, today).value
    ensures Keeps(items, env, e.vendor, e.sha) && e.file == FileName(env, e.vendor, e.sha)
  {
    WrittenMeans(items, env, today, e);
  }

  lemma {:induction false} KeptIsWritten(items: seq<Item>, env: Env, today: string, vendor: string, sha: string)
    returns (e: Entry)
    requires Refresh(items, env, today).Some? && Keeps(items, env, vendor, sha)
    ensures e in Refresh(items, env, today).value && e.vendor == vendor && e.sha == sha
  {
    RefreshMeans(items, env, today);
    var written := Refresh(items, env, today).value;
    if u :| u in LiveUrls(items) && Fetch(env, u) == Some(sha) && u in Vendors(items) && Vendors(items)[u] == vendor {
      e :| e in written && !e.retained && e.url == u;
      assert Explained(items, env, today, e);
    } else {
      var i :| FirstListing(items, i) && items[i].entry.sha == sha && items[i].entry.vendor == vendor;
      var k :| 0 <= k < |written| && written[k].sha == sha;
      e := written[k];
      assert e in written && Explained(items, env, today, e);
      var j :| FirstListing(items, j) && Holds(env.dir, items[j].entry) && e == Kept(env, items[j].entry);
      FirstIsUnique(items, i, j);
    }
  }

  /** The files of the result have different names exactly when the kept digests do. */
  lemma {:induction false} DistinctFilesMeans(items: seq<Item>, env: Env, today: string)
    requires Refresh(items, env, today).Some?
    ensures DistinctFiles(Refresh(items, env, today).value) <==> NamesDiffer(items, env)
  {
    RefreshMeans(items, env, today);
    var written := Refresh(items, env, today).value;
    if NamesDiffer(items, env) {
      forall i, j | 0 <= i < j < |written| ensures written[i].file != written[j].file {
        WrittenIsKept(items, env, today, written[i]);
        WrittenIsKept(items, env, today, written[j]);
      }
    }
    if DistinctFiles(written) {
      forall v, s, v', s' | Keeps(items, env, v, s) && Keeps(items, env, v', s') && s != s'
        ensures FileName(env, v, s) != FileName(env, v', s')
      {
        var e := KeptIsWritten(items, env, today, v, s);
        var e' := KeptIsWritten(items, env, today, v', s');
        DifferentFiles(written, e, e');
        WrittenIsKept(items, env, today, e);
        WrittenIsKept(items, env, today, e');
      }
    }
  }

  lemma {:induction false} DifferentFiles(entries: seq<Entry>, e: Entry, e': Entry)
    requires DistinctFiles(entries) && e in entries && e' in entries && e != e'
    ensures e.file != e'.file
  {
  }

  // ---------- the offline check ----------

  /** What `check` asks of one entry. */
  predicate EntryChecks(env: Env, dir: map<string, string>, e: Entry) {
    && Https(e.url) && e.file == FileName(env, e.vendor, e.sha) && Holds(dir, e) && env.certificate(e.sha)
    && e.subject == env.subject(e.sha) && e.facts == env.facts(e.sha) && e.role == RoleOf(env.pki, e.sha)
  }

  /** What `check` asks of the manifest and the directory. */
  ghost predicate Checks(env: Env, dir: map<string, string>, entries: seq<Entry>) {
    && (forall i :: 0 <= i < |entries| ==> EntryChecks(env, dir, entries[i]))
    && DistinctShas(entries)
    && (forall i, j :: 0 <= i < j < |entries| && !entries[i].retained && !entries[j].retained ==>
          entries[i].url != entries[j].url)
    && (forall f :: f in dir ==> exists i :: 0 <= i < |entries| && entries[i].file == f)
    && SortBy(entries, KeyLeq) == entries
    && Verified(env.pki, entries)
  }

  /** One round of the loop of `check`. */
  method CheckEntry(env: Env, dir: map<string, string>, e: Entry) returns (ok: bool)
    ensures ok <==> EntryChecks(env, dir, e)
  {
    if !("https://" <= e.url) || e.file != FileName(env, e.vendor, e.sha) {
      return false;
    }
    if e.file !in dir || dir[e.file] != e.sha || !env.certificate(e.sha) {
      return false;
    }
    if e.subject != env.subject(e.sha) || e.facts != env.facts(e.sha) {
      return false;
    }
    ok := e.role == RoleOf(env.pki, e.sha);
  }

  /** The loop of `check` over the entries. */
  method CheckEntries(env: Env, dir: map<string, string>, entries: seq<Entry>) returns (ok: bool)
    ensures ok <==> forall i :: 0 <= i < |entries| ==> EntryChecks(env, dir, entries[i])
  {
    for n := 0 to |entries|
      invariant forall i :: 0 <= i < n ==> EntryChecks(env, dir, entries[i])
    {
      ok := CheckEntry(env, dir, entries[n]);
      if !ok {
        return;
      }
    }
    ok := true;
  }

  /** No certificate is listed twice. */
  method NoDigestTwice(entries: seq<Entry>) returns (ok: bool)
    ensures ok <==> DistinctShas(entries)
  {
    var shas: set<string> := {};
    for n := 0 to |entries|
      invariant forall s :: s in shas <==> exists i :: 0 <= i < n && entries[i].sha == s
      invariant forall i, j :: 0 <= i < j < n ==> entries[i].sha != entries[j].sha
    {
      if entries[n].sha in shas {
        return false;
      }
      shas := shas + {entries[n].sha};
    }
    ok := true;
  }

  ghost predicate LiveUrlsDiffer(entries: seq<Entry>) {
    forall i, j :: 0 <= i < j < |entries| && !entries[i].retained && !entries[j].retained ==>
      entries[i].url != entries[j].url
  }

  /** No URL is live twice. */
  method NoLiveUrlTwice(entries: seq<Entry>) returns (ok: bool)
    ensures ok <==> LiveUrlsDiffer(entries)
  {
    var live: set<string> := {};
    for n := 0 to |entries|
      invariant forall u :: u in live <==> exists i :: 0 <= i < n && !entries[i].retained && entries[i].url == u
      invariant forall i, j :: 0 <= i < j < n && !entries[i].retained && !entries[j].retained ==>
                  entries[i].url != entries[j].url
    {
      if !entries[n].retained {
        if entries[n].url in live {
          return false;
        }
        live := live + {entries[n].url};
      }
    }
    ok := true;
  }

  /** Every file of the directory belongs to an entry. */
  method NoExtraFiles(dir: map<string, string>, entries: seq<Entry>) returns (ok: bool)
    ensures ok <==> forall f :: f in dir ==> exists i :: 0 <= i < |entries| && entries[i].file == f
  {
    var listed: set<string> := {};
    for n := 0 to |entries|
      invariant forall f :: f in listed <==> exists i :: 0 <= i < n && entries[i].file == f
    {
      listed := listed + {entries[n].file};
    }
    ok := dir.Keys <= listed;
  }

  /** `check`. */
  method CheckManifest(env: Env, dir: map<string, string>, entries: seq<Entry>) returns (ok: bool)
    ensures ok <==> Checks(env, dir, entries)
  {
    var each := CheckEntries(env, dir, entries);
    var once := NoDigestTwice(entries);
    var live := NoLiveUrlTwice(entries);
    if !each || !once || !live {
      return false;
    }
    ok := NoExtraFiles(dir, entries);
    if !ok || SortBy(entries, KeyLeq) != entries {
      return false;
    }
    ok := VerifySet(env.pki, entries);
  }

  /** What `refresh` does not test again: listed certificates that no URL serves any more have an HTTPS
      URL and the bytes of one certificate. */
  ghost predicate ListingsSound(items: seq<Item>, env: Env) {
    forall i :: FirstListing(items, i) && !Served(items, env, items[i].entry.sha) ==>
      Https(items[i].entry.url) && env.certificate(items[i].entry.sha)
  }

  lemma {:induction false} WrittenFields(items: seq<Item>, env: Env, today: string, e: Entry)
    requires Refresh(items, env, today).Some? && e in Refresh(items, env, today).value
    ensures forall dir :: EntryChecks(env, dir, e) <==> Holds(dir, e) && Https(e.url) && env.certificate(e.sha)
    ensures !e.retained || ListingsSound(items, env) ==> Https(e.url) && env.certificate(e.sha)
  {
    WrittenMeans(items, env, today, e);
  }

  lemma {:induction false} SoundIfWritten(items: seq<Item>, env: Env, today: string)
    requires Refresh(items, env, today).Some?
    requires forall e :: e in Refresh(items, env, today).value ==> Https(e.url) && env.certificate(e.sha)
    ensures ListingsSound(items, env)
  {
    RefreshMeans(items, env, today);
    var written := Refresh(items, env, today).value;
    forall i | FirstListing(items, i) && !Served(items, env, items[i].entry.sha)
      ensures Https(items[i].entry.url) && env.certificate(items[i].entry.sha)
    {
      var k :| 0 <= k < |written| && written[k].sha == items[i].entry.sha;
      assert written[k] in written && Explained(items, env, today, written[k]);
      var j :| FirstListing(items, j) && Holds(env.dir, items[j].entry) && written[k] == Kept(env, items[j].entry);
      FirstIsUnique(items, i, j);
    }
  }

  /** What a successful refresh leaves passes `check` exactly when no two digests that it keeps get the
      same file name, and the listed certificates that no URL serves any more are sound. */
  lemma {:induction false} RefreshChecksExactlyWhen(items: seq<Item>, env: Env, today: string)
    requires Refresh(items, env, today).Some?
    ensures var written := Refresh(items, env, today).value;
            Checks(env, Directory(written), written) <==> NamesDiffer(items, env) && ListingsSound(items, env)
  {
    var written := Refresh(items, env, today).value;
    DistinctFilesMeans(items, env, today);
    ListPartChecks(items, env, today);
    var dir := Directory(written);
    forall i | 0 <= i < |written|
      ensures EntryChecks(env, dir, written[i]) <==>
              Holds(dir, written[i]) && Https(written[i].url) && env.certificate(written[i].sha)
      ensures ListingsSound(items, env) ==> Https(written[i].url) && env.certificate(written[i].sha)
    {
      WrittenFields(items, env, today, written[i]);
    }
    if forall i :: 0 <= i < |written| ==> EntryChecks(env, dir, written[i]) {
      SoundIfWritten(items, env, today);
    }
  }

  /** The conditions on the whole list hold of every result. */
  lemma {:induction false} ListPartChecks(items: seq<Item>, env: Env, today: string)
    requires Refresh(items, env, today).Some?
    ensures var written := Refresh(items, env, today).value;
      var dir := Directory(written);
      && (Checks(env, dir, written) <==> forall i :: 0 <= i < |written| ==> EntryChecks(env, dir, written[i]))
      && ((forall i :: 0 <= i < |written| ==> Holds(dir, written[i])) <==> DistinctFiles(written))
  {
    RefreshMeans(items, env, today);
    RetainedMeans(items, env, today);
    var written := Refresh(items, env, today).value;
    SortedIsFixed(written, KeyLeq);
    AllHeldExactlyWhen(written);
    forall f | f in Directory(written) ensures exists i :: 0 <= i < |written| && written[i].file == f {
      var i := DirectoryFrom(written, f);
    }
  }

  // ---------- two certificates with one file name ----------

  /** Two URLs of a vendor serve different self-signed certificates with the same name, whose digests
      agree in the first 8 digits. */
  ghost predicate Collide(env: Env, u: string, u': string, s: string, s': string) {
    && u != u' && s != s' && Fetch(env, u) == Some(s) && Fetch(env, u') == Some(s')
    && |s| >= 8 && |s'| >= 8 && s[..8] == s'[..8] && env.subject(s) == env.subject(s')
    && RoleOf(env.pki, s) == Root && RoleOf(env.pki, s') == Root
  }

  lemma {:induction false} TwoItems(vendor: string, u: string, u': string)
    requires u != u'
    ensures var items := [Added(vendor, u), Added(vendor, u')];
      LiveUrls(items) == [u, u'] && Vendors(items) == map[u := vendor, u' := vendor] && Known(items) == map[]
  {
    var items := [Added(vendor, u), Added(vendor, u')];
    assert items[..1] == [Added(vendor, u)] && [Added(vendor, u)][..0] == [];
    assert LiveUrls([Added(vendor, u)]) == [u] && Vendors([Added(vendor, u)]) == map[u := vendor];
    assert Known([Added(vendor, u)]) == map[];
  }

  lemma {:induction false} OneMore(urls: seq<string>, u: string, vendors: map<string, string>, env: Env, today: string,
                                   certs: seq<Entry>, s: string)
    requires u in vendors && (forall x :: x in urls ==> x in vendors) && Fetch(env, u) == Some(s)
    requires Download(urls, vendors, map[], env, today) == Some(certs) && !HasSha(certs, s)
    ensures forall x :: x in urls + [u] ==> x in vendors
    ensures Download(urls + [u], vendors, map[], env, today)
         == Some(certs + [EntryFor(env, vendors[u], u, s, today, false)])
  {
    assert (urls + [u])[..|urls|] == urls;
  }

  lemma {:induction false} TwoDownloads(env: Env, vendors: map<string, string>, u: string, u': string,
                                        s: string, s': string, today: string)
    requires u in vendors && u' in vendors && s != s' && Fetch(env, u) == Some(s) && Fetch(env, u') == Some(s')
    ensures Download([u, u'], vendors, map[], env, today)
         == Some([EntryFor(env, vendors[u], u, s, today, false), EntryFor(env, vendors[u'], u', s', today, false)])
  {
    var e, e' := EntryFor(env, vendors[u], u, s, today, false), EntryFor(env, vendors[u'], u', s', today, false);
    OneMore([], u, vendors, env, today, [], s);
    assert [] + [u] == [u] && [] + [e] == [e];
    OneMore([u], u', vendors, env, today, [e], s');
    assert [u] + [u'] == [u, u'] && [e] + [e'] == [e, e'];
  }

  lemma {:induction false} NothingToRetain(vendor: string, u: string, u': string, live: seq<Entry>, env: Env)
    ensures Retain([Added(vendor, u), Added(vendor, u')], live, env) == Some(live)
  {
    var items := [Added(vendor, u), Added(vendor, u')];
    assert items[..1] == [Added(vendor, u)] && [Added(vendor, u)][..0] == [];
    assert Retain([Added(vendor, u)], live, env) == Some(live);
  }

  lemma {:induction false} CollidingGather(env: Env, vendor: string, u: string, u': string,
                                           s: string, s': string, today: string)
    requires Collide(env, u, u', s, s')
    ensures Gather([Added(vendor, u), Added(vendor, u')], env, today)
         == Some([EntryFor(env, vendor, u, s, today, false), EntryFor(env, vendor, u', s', today, false)])
  {
    TwoItems(vendor, u, u');
    LiveUrlsHaveVendors([Added(vendor, u), Added(vendor, u')]);
    TwoDownloads(env, map[u := vendor, u' := vendor], u, u', s, s', today);
    NothingToRetain(vendor, u, u',
      [EntryFor(env, vendor, u, s, today, false), EntryFor(env, vendor, u', s', today, false)], env);
  }

  /** Then the refresh succeeds, one certificate overwrites the other on disk, and `check` fails. */
  lemma {:induction false} CollisionLosesBytes(env: Env, vendor: string, u: string, u': string,
                                               s: string, s': string, today: string)
    requires Collide(env, u, u', s, s')
    ensures var items := [Added(vendor, u), Added(vendor, u')];
      && Refresh(items, env, today).Some?
      && var written := Refresh(items, env, today).value;
      && (exists e :: e in written && !Holds(Directory(written), e))
      && !Checks(env, Directory(written), written)
  {
    var items := [Added(vendor, u), Added(vendor, u')];
    var e, e' := EntryFor(env, vendor, u, s, today, false), EntryFor(env, vendor, u', s', today, false);
    CollidingGather(env, vendor, u, u', s, s', today);
    KeyIsPreorder();
    SortMembers([e, e'], KeyLeq);
    var written := SortBy([e, e'], KeyLeq);
    forall x | x in written ensures x.role == Root && env.pki.selfSigned(x.sha) {
      assert x in [e, e'];
      assert x == e || x == e';
    }
    assert Verified(env.pki, written);
    assert [e, e'][0] in written && [e, e'][1] in written;
    assert e.file == e'.file && e.sha != e'.sha;
    assert !Holds(Directory(written), e) || !Holds(Directory(written), e');
    assert !DistinctFiles(written) by {
      var i :| 0 <= i < |written| && written[i] == e;
      var j :| 0 <= j < |written| && written[j] == e';
      assert i != j && written[i].file == written[j].file;
    }
    RefreshChecksExactlyWhen(items, env, today);
  }
}
