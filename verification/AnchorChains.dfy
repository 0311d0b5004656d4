/** The chain check of scripts/update-tpm-ek-anchors.py: a worklist search over issuer links. */
module AnchorChains {
  import opened Sequences

  datatype Role = Root | Intermediate

  /** What `describe` reads from a certificate besides its subject. */
  datatype Facts = Facts(issuer: string, notBefore: string, notAfter: string)

  /** A manifest entry. */
  datatype Entry = Entry(vendor: string, url: string, sha: string, retrieved: string, role: Role,
                         subject: string, facts: Facts, file: string, retained: bool)

  /** What openssl says about certificates, keyed by their SHA-256 digests: name hashes and signature
      checks, uninterpreted. */
  datatype Pki = Pki(subjectHash: string -> string, issuerHash: string -> string,
                     signedBy: (string, string) -> bool, selfSigned: string -> bool)

  /** `parent` is another certificate with the issuer's name whose key verifies `child`. */
  predicate Issues(pki: Pki, parent: string, child: string) {
    parent != child && pki.subjectHash(parent) == pki.issuerHash(child) && pki.signedBy(child, parent)
  }

  /** A walk along issuer links through listed entries. */
  ghost predicate IsWalk(pki: Pki, entries: seq<Entry>, w: seq<Entry>) {
    && w != []
    && (forall i :: 0 < i < |w| ==> w[i] in entries && Issues(pki, w[i].sha, w[i - 1].sha))
  }

  /** A finite chain of issuer links from the entry to a listed root. */
  ghost predicate ChainsToRoot(pki: Pki, entries: seq<Entry>, e: Entry) {
    exists w: seq<Entry> :: IsWalk(pki, entries, w) && |w| > 1 && w[0] == e && w[|w| - 1].role == Root
  }

  ghost predicate Verified(pki: Pki, entries: seq<Entry>) {
    forall e :: e in entries ==>
      if e.role == Root then pki.selfSigned(e.sha) else ChainsToRoot(pki, entries, e)
  }

  /** The entries whose subject has the given name hash. */
  function Candidates(bySubject: map<string, seq<Entry>>, name: string): seq<Entry> {
    if name in bySubject then bySubject[name] else []
  }

  ghost predicate Indexed(pki: Pki, entries: seq<Entry>, bySubject: map<string, seq<Entry>>) {
    forall name: string, e: Entry ::
      e in Candidates(bySubject, name) <==> e in entries && pki.subjectHash(e.sha) == name
  }

  lemma {:induction false} IndexOne(pki: Pki, entries: seq<Entry>, bySubject: map<string, seq<Entry>>, x: Entry)
    requires Indexed(pki, entries, bySubject)
    ensures var name := pki.subjectHash(x.sha);
            Indexed(pki, entries + [x], bySubject[name := Candidates(bySubject, name) + [x]])
  {
    var name := pki.subjectHash(x.sha);
    var after := bySubject[name := Candidates(bySubject, name) + [x]];
    forall other: string, e: Entry
      ensures e in Candidates(after, other) <==> e in entries + [x] && pki.subjectHash(e.sha) == other
    {
      assert e in Candidates(bySubject, other) <==> e in entries && pki.subjectHash(e.sha) == other;
    }
  }

  /** `by_subject.setdefault(...).append(entry)`. */
  method IndexBySubject(pki: Pki, entries: seq<Entry>) returns (bySubject: map<string, seq<Entry>>)
    ensures Indexed(pki, entries, bySubject)
  {
    bySubject := map[];
    for n := 0 to |entries|
      invariant Indexed(pki, entries[..n], bySubject)
    {
      IndexOne(pki, entries[..n], bySubject, entries[n]);
      assert entries[..n + 1] == entries[..n] + [entries[n]];
      var name := pki.subjectHash(entries[n].sha);
      bySubject := bySubject[name := Candidates(bySubject, name) + [entries[n]]];
    }
    assert entries[..|entries|] == entries;
  }

  // ---------- the search ----------

  ghost predicate InFrontier(frontier: seq<Entry>, sha: string) {
    exists i :: 0 <= i < |frontier| && frontier[i].sha == sha
  }

  /** Issuers of `child` among `parents` are no roots and are known or still to be visited. */
  ghost predicate Expanded(pki: Pki, parents: seq<Entry>, child: string, seen: set<string>, frontier: seq<Entry>) {
    forall p :: p in parents && Issues(pki, p.sha, child) ==>
      p.role != Root && (p.sha in seen || InFrontier(frontier, p.sha))
  }

  ghost function Shas(entries: seq<Entry>): set<string> { set e | e in entries :: e.sha }

  lemma {:induction false} ExtendWalk(pki: Pki, entries: seq<Entry>, w: seq<Entry>, p: Entry)
    requires IsWalk(pki, entries, w) && p in entries && Issues(pki, p.sha, w[|w| - 1].sha)
    ensures IsWalk(pki, entries, w + [p])
  {
  }

  /** With nothing left to visit and no root issuer among the visited, no chain can exist. */
  lemma {:induction false} ClosedHasNoRoot(pki: Pki, entries: seq<Entry>, seen: set<string>, w: seq<Entry>, i: nat)
    requires forall s :: s in seen ==> Expanded(pki, entries, s, seen, [])
    requires IsWalk(pki, entries, w) && i < |w| && w[0].sha in seen
    ensures w[i].sha in seen && (i > 0 ==> w[i].role != Root)
  {
    if i > 0 {
      ClosedHasNoRoot(pki, entries, seen, w, i - 1);
      assert Expanded(pki, entries, w[i - 1].sha, seen, []);
    }
  }

  lemma {:induction false} ClosedMeansUnchained(pki: Pki, entries: seq<Entry>, seen: set<string>, e: Entry)
    requires forall s :: s in seen ==> Expanded(pki, entries, s, seen, [])
    requires e.sha in seen
    ensures !ChainsToRoot(pki, entries, e)
  {
    forall w: seq<Entry> | IsWalk(pki, entries, w) && |w| > 1 && w[0] == e ensures w[|w| - 1].role != Root {
      ClosedHasNoRoot(pki, entries, seen, w, |w| - 1);
    }
  }

  /** The inner loop: visit the issuers of one certificate. `walk` leads to `child`. */
  method Expand(pki: Pki, entries: seq<Entry>, bySubject: map<string, seq<Entry>>, child: Entry,
                frontier: seq<Entry>, ghost walks: seq<seq<Entry>>, ghost walk: seq<Entry>)
    returns (reached: bool, more: seq<Entry>, ghost moreWalks: seq<seq<Entry>>, ghost chain: seq<Entry>)
    requires Indexed(pki, entries, bySubject)
    requires IsWalk(pki, entries, walk) && walk[|walk| - 1] == child
    requires Leads(pki, entries, walk[0], frontier, walks)
    ensures reached ==> IsWalk(pki, entries, chain) && |chain| > 1
    ensures reached ==> chain[0] == walk[0] && chain[|chain| - 1].role == Root
    ensures !reached ==> frontier <= more && Leads(pki, entries, walk[0], more, moreWalks)
    ensures !reached ==> Expanded(pki, entries, child.sha, {}, more)
    ensures forall e :: e in more ==> e in frontier || e in entries
  {
    var parents := Candidates(bySubject, pki.issuerHash(child.sha));
    reached, more, moreWalks, chain := false, frontier, walks, [];
    for n := 0 to |parents|
      invariant frontier <= more && Leads(pki, entries, walk[0], more, moreWalks)
      invariant forall i :: 0 <= i < n && Issues(pki, parents[i].sha, child.sha) ==>
                  parents[i].role != Root && InFrontier(more, parents[i].sha)
      invariant forall e :: e in more ==> e in frontier || e in entries
    {
      var p := parents[n];
      assert p in entries;
      if p.sha != child.sha && pki.signedBy(child.sha, p.sha) {
        ExtendWalk(pki, entries, walk, p);
        if p.role == Root {
          chain := walk + [p];
          return true, more, moreWalks, chain;
        }
        ghost var before := more;
        more, moreWalks := more + [p], moreWalks + [walk + [p]];
        assert more[|before|].sha == p.sha;
        forall i | 0 <= i < n && Issues(pki, parents[i].sha, child.sha) ensures InFrontier(more, parents[i].sha) {
          var k :| 0 <= k < |before| && before[k].sha == parents[i].sha;
          assert more[k].sha == parents[i].sha;
        }
      }
    }
  }

  /** Every frontier entry is reached by its walk from `start`. */
  ghost predicate Leads(pki: Pki, entries: seq<Entry>, start: Entry, frontier: seq<Entry>, walks: seq<seq<Entry>>) {
    |walks| == |frontier| && forall i :: 0 <= i < |frontier| ==>
      IsWalk(pki, entries, walks[i]) && walks[i][0] == start && walks[i][|walks[i]| - 1] == frontier[i]
  }

  /** Everything visited is expanded. */
  ghost predicate Closed(pki: Pki, entries: seq<Entry>, seen: set<string>, frontier: seq<Entry>) {
    forall s :: s in seen ==> Expanded(pki, entries, s, seen, frontier)
  }

  /** Dropping a visited entry from the frontier loses nothing. */
  lemma {:induction false} PopSeen(pki: Pki, entries: seq<Entry>, seen: set<string>, frontier: seq<Entry>)
    requires frontier != [] && frontier[|frontier| - 1].sha in seen && Closed(pki, entries, seen, frontier)
    ensures Closed(pki, entries, seen, frontier[..|frontier| - 1])
  {
    var rest := frontier[..|frontier| - 1];
    forall s, p | s in seen && p in entries && Issues(pki, p.sha, s)
      ensures p.role != Root && (p.sha in seen || InFrontier(rest, p.sha))
    {
      assert Expanded(pki, entries, s, seen, frontier);
      if p.sha !in seen {
        var i :| 0 <= i < |frontier| && frontier[i].sha == p.sha;
        assert rest[i].sha == p.sha;
      }
    }
  }

  /** Visiting a new certificate keeps the visited set expanded. */
  lemma {:induction false} VisitNew(pki: Pki, entries: seq<Entry>, seen: set<string>, frontier: seq<Entry>,
                                    more: seq<Entry>)
    requires frontier != [] && Closed(pki, entries, seen, frontier)
    requires frontier[..|frontier| - 1] <= more
    requires Expanded(pki, entries, frontier[|frontier| - 1].sha, {}, more)
    ensures Closed(pki, entries, seen + {frontier[|frontier| - 1].sha}, more)
  {
    var child := frontier[|frontier| - 1].sha;
    forall s, p | s in seen + {child} && p in entries && Issues(pki, p.sha, s)
      ensures p.role != Root && (p.sha in seen + {child} || InFrontier(more, p.sha))
    {
      if s == child {
        assert Expanded(pki, entries, child, {}, more);
      } else {
        assert Expanded(pki, entries, s, seen, frontier);
        if p.sha !in seen + {child} {
          var i :| 0 <= i < |frontier| && frontier[i].sha == p.sha;
          assert more[i] == frontier[..|frontier| - 1][i];
        }
      }
    }
  }

  /** What the worklist keeps. */
  ghost predicate Searching(pki: Pki, entries: seq<Entry>, entry: Entry, seen: set<string>,
                            frontier: seq<Entry>, walks: seq<seq<Entry>>) {
    && seen <= Shas(entries) && (forall e :: e in frontier ==> e in entries)
    && Leads(pki, entries, entry, frontier, walks)
    && Closed(pki, entries, seen, frontier)
    && (entry.sha in seen || InFrontier(frontier, entry.sha))
  }

  lemma {:induction false} SearchStarts(pki: Pki, entries: seq<Entry>, entry: Entry)
    requires entry in entries
    ensures Searching(pki, entries, entry, {}, [entry], [[entry]])
  {
    assert [entry][0].sha == entry.sha;
  }

  lemma {:induction false} PopKeepsSearching(pki: Pki, entries: seq<Entry>, entry: Entry, seen: set<string>,
                                             frontier: seq<Entry>, walks: seq<seq<Entry>>)
    requires Searching(pki, entries, entry, seen, frontier, walks)
    requires frontier != [] && frontier[|frontier| - 1].sha in seen
    ensures Searching(pki, entries, entry, seen, frontier[..|frontier| - 1], walks[..|frontier| - 1])
  {
    PopSeen(pki, entries, seen, frontier);
    StillReachable(frontier, frontier[..|frontier| - 1], seen, entry.sha);
    assert seen + {frontier[|frontier| - 1].sha} == seen;
  }

  lemma {:induction false} VisitKeepsSearching(pki: Pki, entries: seq<Entry>, entry: Entry, seen: set<string>,
                                               frontier: seq<Entry>, walks: seq<seq<Entry>>,
                                               more: seq<Entry>, moreWalks: seq<seq<Entry>>)
    requires Searching(pki, entries, entry, seen, frontier, walks) && frontier != []
    requires frontier[..|frontier| - 1] <= more && Leads(pki, entries, entry, more, moreWalks)
    requires Expanded(pki, entries, frontier[|frontier| - 1].sha, {}, more)
    requires forall e :: e in more ==> e in frontier[..|frontier| - 1] || e in entries
    ensures Searching(pki, entries, entry, seen + {frontier[|frontier| - 1].sha}, more, moreWalks)
  {
    VisitNew(pki, entries, seen, frontier, more);
    StillReachable(frontier, more, seen, entry.sha);
    assert frontier[|frontier| - 1] in entries;
  }

  /** The worklist for one intermediate: it finds a root exactly when a chain to one exists. */
  method Search(pki: Pki, entries: seq<Entry>, bySubject: map<string, seq<Entry>>, entry: Entry)
    returns (reached: bool)
    requires entry in entries
    requires Indexed(pki, entries, bySubject)
    ensures reached <==> ChainsToRoot(pki, entries, entry)
  {
    var seen: set<string> := {};
    var frontier := [entry];
    ghost var walks := [[entry]];
    SearchStarts(pki, entries, entry);
    while frontier != []
      invariant Searching(pki, entries, entry, seen, frontier, walks)
      decreases |Shas(entries) - seen|, |frontier|
    {
      var last := |frontier| - 1;
      var child := frontier[last];
      if child.sha in seen {
        PopKeepsSearching(pki, entries, entry, seen, frontier, walks);
        frontier, walks := frontier[..last], walks[..last];
      } else {
        ghost var rest := walks[..last];
        var found, more, moreWalks, chain :=
          Expand(pki, entries, bySubject, child, frontier[..last], rest, walks[last]);
        if found {
          return true;
        }
        VisitKeepsSearching(pki, entries, entry, seen, frontier, walks, more, moreWalks);
        Progress(entries, frontier, seen);
        seen := seen + {child.sha};
        frontier, walks := more, moreWalks;
      }
    }
    ClosedMeansUnchained(pki, entries, seen, entry);
    reached := false;
  }

  lemma {:induction false} Progress(entries: seq<Entry>, frontier: seq<Entry>, seen: set<string>)
    requires frontier != [] && frontier[|frontier| - 1].sha !in seen
    requires forall e :: e in frontier ==> e in entries
    ensures |Shas(entries) - (seen + {frontier[|frontier| - 1].sha})| < |Shas(entries) - seen|
  {
    var child := frontier[|frontier| - 1];
    assert child in entries;
    SmallerSet(Shas(entries) - (seen + {child.sha}), Shas(entries) - seen, child.sha);
  }

  lemma {:induction false} SmallerSet(a: set<string>, b: set<string>, x: string)
    requires a <= b && x in b && x !in a
    ensures |a| < |b|
  {
    SubsetSize(a, b - {x});
  }

  lemma {:induction false} StillReachable(frontier: seq<Entry>, more: seq<Entry>, seen: set<string>, sha: string)
    requires frontier != [] && frontier[..|frontier| - 1] <= more
    requires sha in seen || InFrontier(frontier, sha)
    ensures sha in seen + {frontier[|frontier| - 1].sha} || InFrontier(more, sha)
  {
    if sha !in seen && sha != frontier[|frontier| - 1].sha {
      var i :| 0 <= i < |frontier| && frontier[i].sha == sha;
      assert more[i] == frontier[..|frontier| - 1][i];
    }
  }

  /** `verify_set`: it succeeds exactly when every root is self-signed and every other entry has a
      finite chain of issuer links to a listed root. */
  method VerifySet(pki: Pki, entries: seq<Entry>) returns (ok: bool)
    ensures ok <==> Verified(pki, entries)
  {
    var bySubject := IndexBySubject(pki, entries);
    for n := 0 to |entries|
      invariant forall i :: 0 <= i < n ==>
        if entries[i].role == Root then pki.selfSigned(entries[i].sha)
        else ChainsToRoot(pki, entries, entries[i])
    {
      var e := entries[n];
      if e.role == Root {
        if !pki.selfSigned(e.sha) {
          return false;
        }
      } else {
        var reached := Search(pki, entries, bySubject, e);
        if !reached {
          return false;
        }
      }
    }
    ok := true;
  }
}
