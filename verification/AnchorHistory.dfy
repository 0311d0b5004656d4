/** Series of refreshes with the directory they leave to each other (scripts/update-tpm-ek-anchors.py). */
module AnchorHistory {
  import opened Sequences
  import opened AnchorChains
  import opened AnchorRefresh
  import opened AnchorFiles

  /** What is true of the certificates themselves does not change between runs. */
  ghost predicate SameCertificates(a: Env, b: Env) {
    a.certificate == b.certificate && a.subject == b.subject && a.facts == b.facts && a.slug == b.slug && a.pki == b.pki
  }

  /** `check` succeeds. */
  ghost predicate Passes(env: Env, w: World) {
    exists entries :: w.items == Relist(entries) && Checks(env, w.dir, entries)
  }

  lemma {:induction false} SameChecks(a: Env, b: Env, dir: map<string, string>, entries: seq<Entry>)
    requires SameCertificates(a, b)
    ensures Checks(a, dir, entries) <==> Checks(b, dir, entries)
  {
    assert forall i :: 0 <= i < |entries| ==> (EntryChecks(a, dir, entries[i]) <==> EntryChecks(b, dir, entries[i]));
  }

  /** Whatever a passing manifest lists can be read, was served over HTTPS and is a certificate. */
  lemma {:induction false} ListedIsSound(env: Env, w: World, adds: seq<(string, string)>, i: nat)
    requires Passes(env, w) && i < |AddAll(w.items, adds)| && AddAll(w.items, adds)[i].Listed?
    ensures var e := AddAll(w.items, adds)[i].entry;
            Holds(w.dir, e) && Https(e.url) && env.certificate(e.sha)
  {
    var entries :| w.items == Relist(entries) && Checks(env, w.dir, entries);
    AddKeeps(w.items, adds);
    assert AddAll(w.items, adds)[i] == Listed(entries[i]);
    assert EntryChecks(env, w.dir, entries[i]);
  }

  lemma {:induction false} RetainSucceeds(items: seq<Item>, live: seq<Entry>, env: Env)
    requires forall i :: 0 <= i < |items| && items[i].Listed? ==> Holds(env.dir, items[i].entry)
    ensures Retain(items, live, env).Some?
  {
    if items != [] {
      var n := |items| - 1;
      assert forall i :: 0 <= i < n ==> items[..n][i] == items[i];
      RetainSucceeds(items[..n], live, env);
    }
  }

  /** Whatever the downloads gave, the loop that reads the shipped files succeeds. */
  ghost predicate FilesReadable(w: World, r: Round) {
    forall live :: Retain(Input(w, r), live, Seen(w, r)).Some?
  }

  /** From a passing world a run fails only in a download or in the chain check, never for a file. */
  lemma {:induction false} FilesNeverFail(env: Env, w: World, r: Round)
    requires Passes(env, w)
    ensures FilesReadable(w, r)
  {
    forall live ensures Retain(Input(w, r), live, Seen(w, r)).Some? {
      forall i | 0 <= i < |Input(w, r)| && Input(w, r)[i].Listed? ensures Holds(w.dir, Input(w, r)[i].entry) {
        ListedIsSound(env, w, r.adds, i);
      }
      RetainSucceeds(Input(w, r), live, Seen(w, r));
    }
  }

  lemma {:induction false} RelistInjective(a: seq<Entry>, b: seq<Entry>)
    requires Relist(a) == Relist(b)
    ensures a == b
  {
    forall i | 0 <= i < |a| ensures a[i] == b[i] {
      assert Relist(a)[i] == Listed(a[i]) && Relist(b)[i] == Listed(b[i]);
    }
  }

  /** From a passing world a successful run leaves a passing one exactly when no two digests that it
      keeps get the same file name. */
  lemma {:induction false} RoundPassesExactlyWhen(env: Env, w: World, r: Round)
    requires Passes(env, w) && SameCertificates(r.env, env)
    requires Refresh(Input(w, r), Seen(w, r), r.today).Some?
    ensures Passes(env, Next(w, r)) <==> NamesDiffer(Input(w, r), Seen(w, r))
  {
    var items, seen := Input(w, r), Seen(w, r);
    var written := Refresh(items, seen, r.today).value;
    forall i | FirstListing(items, i) ensures Https(items[i].entry.url) && seen.certificate(items[i].entry.sha) {
      ListedIsSound(env, w, r.adds, i);
    }
    RefreshChecksExactlyWhen(items, seen, r.today);
    SameChecks(seen, env, Directory(written), written);
    if Passes(env, Next(w, r)) {
      var entries :| Relist(written) == Relist(entries) && Checks(env, Directory(written), entries);
      RelistInjective(written, entries);
    }
  }

  /** Every run of the series sees the same certificates and keeps digests of different file names. */
  ghost predicate Orderly(env: Env, w: World, rounds: seq<Round>) {
    forall k :: 0 <= k < |rounds| ==>
      && SameCertificates(rounds[k].env, env)
      && var now := After(w, rounds[..k]); NamesDiffer(Input(now, rounds[k]), Seen(now, rounds[k]))
  }

  lemma {:induction false} OrderlyPrefix(env: Env, w: World, rounds: seq<Round>, n: nat)
    requires Orderly(env, w, rounds) && n <= |rounds|
    ensures Orderly(env, w, rounds[..n])
  {
    forall k | 0 <= k < n
      ensures SameCertificates(rounds[..n][k].env, env)
      ensures var now := After(w, rounds[..n][..k]);
              NamesDiffer(Input(now, rounds[..n][k]), Seen(now, rounds[..n][k]))
    {
      assert rounds[..n][..k] == rounds[..k];
    }
  }

  lemma {:induction false} RoundPasses(env: Env, w: World, r: Round)
    requires Passes(env, w) && SameCertificates(r.env, env) && NamesDiffer(Input(w, r), Seen(w, r))
    ensures Passes(env, Next(w, r))
  {
    if Refresh(Input(w, r), Seen(w, r), r.today).Some? {
      RoundPassesExactlyWhen(env, w, r);
    }
  }

  lemma {:induction false} AllRoundsPass(env: Env, w: World, rounds: seq<Round>)
    requires Passes(env, w) && Orderly(env, w, rounds)
    ensures Passes(env, After(w, rounds))
  {
    if rounds != [] {
      var n := |rounds| - 1;
      OrderlyPrefix(env, w, rounds, n);
      AllRoundsPass(env, w, rounds[..n]);
      RoundPasses(env, After(w, rounds[..n]), rounds[n]);
    }
  }

  /** From a world that passes `check`, over any series of runs in which no two kept digests get the
      same file name, whatever is served, added or refused: `check` passes after every run, and no run
      fails because a certificate's file is missing or wrong. */
  lemma {:induction false} ChecksForever(env: Env, w: World, rounds: seq<Round>, k: nat)
    requires Passes(env, w) && Orderly(env, w, rounds) && k <= |rounds|
    ensures Passes(env, After(w, rounds[..k]))
    ensures k < |rounds| ==> FilesReadable(After(w, rounds[..k]), rounds[k])
  {
    OrderlyPrefix(env, w, rounds, k);
    AllRoundsPass(env, w, rounds[..k]);
    if k < |rounds| {
      FilesNeverFail(env, After(w, rounds[..k]), rounds[k]);
    }
  }
}
