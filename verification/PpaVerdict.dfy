/** The publication verdict of scripts/verify-ppa-publish.py. What Launchpad answered is the input. */
module PpaVerdict {
  import opened Sequences

  /** Launchpad's build states; any other text is Unrecognised. */
  datatype BuildState =
    | NeedsBuilding | CurrentlyBuilding | UploadingBuild | GatheringBuildOutput
    | SuccessfullyBuilt
    | FailedToBuild | FailedToUpload | ChrootProblem | DependencyWait
    | CancellingBuild | CancelledBuild | BuildForSupersededSource
    | Unrecognised(text: string)

  datatype Build = Build(arch: string, state: BuildState)

  datatype BinaryStatus = StillPending | Published | Superseded | Deleted | Obsolete | OtherStatus(text: string)

  datatype Binary = Binary(sourceVersion: string, status: BinaryStatus)

  datatype Verdict = Installable | Waiting | Broken

  predicate IsPendingState(s: BuildState) {
    s.NeedsBuilding? || s.CurrentlyBuilding? || s.UploadingBuild? || s.GatheringBuildOutput?
  }

  predicate IsFailedState(s: BuildState) {
    || s.FailedToBuild? || s.FailedToUpload? || s.ChrootProblem? || s.DependencyWait?
    || s.CancellingBuild? || s.CancelledBuild? || s.BuildForSupersededSource?
  }

  function IsBad(): Build -> bool { (b: Build) => IsFailedState(b.state) }

  function IsWaiting(): Build -> bool { (b: Build) => IsPendingState(b.state) }

  function IsUnknown(): Build -> bool {
    (b: Build) => !IsPendingState(b.state) && b.state != SuccessfullyBuilt
  }

  /** `classify`: `bins` is None while the binaries have not been fetched. */
  function Classify(pub: bool, bs: seq<Build>, bins: Option<seq<Binary>>): Verdict {
    if !pub then Waiting
    else if bs == [] then Waiting
    else if Filter(bs, IsBad()) != [] then Broken
    else if Filter(bs, IsUnknown()) != [] then Waiting
    else if Filter(bs, IsWaiting()) != [] then Waiting
    else if bins.None? || bins.value == [] then Waiting
    else Installable
  }

  ghost predicate AllBuilt(bs: seq<Build>) {
    bs != [] && forall b :: b in bs ==> b.state == SuccessfullyBuilt
  }

  /** The two definite verdicts, each with its exact meaning. */
  lemma {:induction false} ClassifyMeans(pub: bool, bs: seq<Build>, bins: Option<seq<Binary>>)
    ensures Classify(pub, bs, bins) == Installable <==>
            pub && AllBuilt(bs) && bins.Some? && bins.value != []
    ensures Classify(pub, bs, bins) == Broken <==>
            pub && exists b :: b in bs && IsFailedState(b.state)
  {
    FilterMembers(bs, IsBad());
    FilterMembers(bs, IsUnknown());
    FilterMembers(bs, IsWaiting());
    forall p: Build -> bool | p == IsBad() || p == IsUnknown() || p == IsWaiting()
      ensures Filter(bs, p) != [] <==> exists b :: b in bs && p(b)
    {
      FilterNonEmpty(bs, p);
    }
    assert (exists b :: b in bs && IsBad()(b)) <==> exists b :: b in bs && IsFailedState(b.state);
  }

  /** Launchpad's twelve build states, each on its own: four wait, one is success, seven are failures;
      and a state outside the vocabulary waits. */
  lemma {:induction false} VerdictOfState(arch: string, text: string, bins: seq<Binary>)
    requires bins != []
    ensures forall s :: s in [NeedsBuilding, CurrentlyBuilding, UploadingBuild, GatheringBuildOutput,
                              Unrecognised(text)]
              ==> Classify(true, [Build(arch, s)], Some(bins)) == Waiting
    ensures forall s :: s in [FailedToBuild, FailedToUpload, ChrootProblem, DependencyWait,
                              CancellingBuild, CancelledBuild, BuildForSupersededSource]
              ==> Classify(true, [Build(arch, s)], Some(bins)) == Broken
    ensures Classify(true, [Build(arch, SuccessfullyBuilt)], Some(bins)) == Installable
  {
    forall s: BuildState
      ensures Classify(true, [Build(arch, s)], Some(bins)) ==
              if IsFailedState(s) then Broken else if s == SuccessfullyBuilt then Installable else Waiting
    {
      ClassifyMeans(true, [Build(arch, s)], Some(bins));
      assert [Build(arch, s)][0] in [Build(arch, s)];
    }
  }

  /** The verdict does not depend on the order in which Launchpad lists the builds. */
  lemma {:induction false} ClassifyIgnoresOrder(pub: bool, bs: seq<Build>, bs': seq<Build>,
                                                bins: Option<seq<Binary>>)
    requires multiset(bs) == multiset(bs')
    ensures Classify(pub, bs, bins) == Classify(pub, bs', bins)
  {
    ClassifyMeans(pub, bs, bins);
    ClassifyMeans(pub, bs', bins);
    forall b ensures b in bs <==> b in bs' {
      assert b in bs <==> b in multiset(bs);
      assert b in bs' <==> b in multiset(bs');
    }
    assert |multiset(bs)| == |bs| && |multiset(bs')| == |bs'|;
    assert bs == [] <==> bs' == [];
  }

  /** One failed build is never masked by others. */
  lemma {:induction false} FailureIsNeverMasked(bs: seq<Build>, more: seq<Build>, bins: Option<seq<Binary>>)
    requires Classify(true, bs, bins) == Broken
    ensures forall bins' :: Classify(true, bs + more, bins') == Broken
    ensures forall bins' :: Classify(true, more + bs, bins') == Broken
  {
    ClassifyMeans(true, bs, bins);
    var b :| b in bs && IsFailedState(b.state);
    assert b in bs + more && b in more + bs;
    forall bins' ensures Classify(true, bs + more, bins') == Broken && Classify(true, more + bs, bins') == Broken {
      ClassifyMeans(true, bs + more, bins');
      ClassifyMeans(true, more + bs, bins');
    }
  }

  // ---------- the binaries ----------

  function ReachedUsers(debver: string): Binary -> bool {
    (b: Binary) => b.sourceVersion == debver && b.status != StillPending
  }

  function BinariesForSource(entries: seq<Binary>, debver: string): seq<Binary> {
    Filter(entries, ReachedUsers(debver))
  }

  function Flatten(pages: seq<seq<Binary>>): seq<Binary> {
    if pages == [] then [] else Flatten(pages[..|pages| - 1]) + pages[|pages| - 1]
  }

  /** `published_binaries`: the first page, then every page it links to. */
  method PublishedBinaries(first: seq<Binary>, rest: seq<seq<Binary>>, debver: string)
    returns (bins: seq<Binary>)
    ensures bins == BinariesForSource(first + Flatten(rest), debver)
  {
    var entries := first;
    var next := 0;
    while next < |rest|
      invariant 0 <= next <= |rest|
      invariant entries == first + Flatten(rest[..next])
    {
      assert rest[..next + 1][..next] == rest[..next];
      entries := entries + rest[next];
      next := next + 1;
    }
    assert rest[..|rest|] == rest;
    bins := BinariesForSource(entries, debver);
  }

  lemma {:induction false} FlattenMembers(pages: seq<seq<Binary>>, b: Binary)
    ensures b in Flatten(pages) <==> exists i :: 0 <= i < |pages| && b in pages[i]
  {
    if pages != [] {
      var n := |pages| - 1;
      FlattenMembers(pages[..n], b);
      if i :| 0 <= i < |pages| && b in pages[i] {
        if i < n {
          assert b in pages[..n][i];
        }
      }
    }
  }

  // ---------- one status query ----------

  /** What Launchpad answers during one `status` call: the source publication is asked for twice. */
  datatype Answers = Answers(listed: bool, published: bool, builds: seq<Build>, pages: seq<seq<Binary>>)

  /** `check`: the binaries are only fetched once every build has succeeded. */
  function Check(a: Answers, debver: string): Verdict {
    var bs := if a.published then a.builds else [];
    var allBuilt := bs != [] && Count(bs, IsBuilt()) == |bs|;
    var bins := if allBuilt then Some(BinariesForSource(Flatten(a.pages), debver)) else None;
    Classify(a.published, bs, bins)
  }

  function IsBuilt(): Build -> bool { (b: Build) => b.state == SuccessfullyBuilt }

  /** Not fetching the binaries early never changes the verdict. */
  lemma {:induction false} EarlyBinariesAreIrrelevant(pub: bool, bs: seq<Build>, bins: Option<seq<Binary>>)
    requires !AllBuilt(bs)
    ensures Classify(pub, bs, bins) == Classify(pub, bs, None)
  {
    ClassifyMeans(pub, bs, bins);
    ClassifyMeans(pub, bs, None);
  }

  datatype Status = StatusOk | StatusPending | StatusFailed | StatusAbsent

  /** The `status` function of the nightly uploader. */
  function StatusOf(a: Answers, debver: string): Status {
    if !a.listed then StatusAbsent
    else match Check(a, debver)
      case Installable => StatusOk
      case Broken => StatusFailed
      case Waiting => StatusPending
  }

  /** What has to be on Launchpad for a version to count as published. */
  ghost predicate Evidence(a: Answers, debver: string) {
    && a.listed && a.published && AllBuilt(a.builds)
    && exists i, b :: 0 <= i < |a.pages| && b in a.pages[i]
         && b.sourceVersion == debver && b.status != StillPending
  }

  /** "ok" is reported exactly on that evidence, "failed" exactly on a failed build. */
  lemma {:induction false} StatusMeans(a: Answers, debver: string)
    ensures StatusOf(a, debver) == StatusOk <==> Evidence(a, debver)
    ensures StatusOf(a, debver) == StatusFailed <==>
            a.listed && a.published && exists b :: b in a.builds && IsFailedState(b.state)
    ensures StatusOf(a, debver) == StatusAbsent <==> !a.listed
  {
    var bs := if a.published then a.builds else [];
    CountFull(bs, IsBuilt());
    var entries := Flatten(a.pages);
    var found := BinariesForSource(entries, debver);
    FilterNonEmpty(entries, ReachedUsers(debver));
    forall b ensures b in entries <==> exists i :: 0 <= i < |a.pages| && b in a.pages[i] {
      FlattenMembers(a.pages, b);
    }
    assert found != [] <==> exists b :: b in entries && b.sourceVersion == debver && b.status != StillPending by {
      assert forall b :: ReachedUsers(debver)(b) <==> b.sourceVersion == debver && b.status != StillPending;
    }
    assert AllBuilt(bs) <==> bs != [] && Count(bs, IsBuilt()) == |bs| by {
      assert forall b :: IsBuilt()(b) <==> b.state == SuccessfullyBuilt;
    }
    ClassifyMeans(a.published, bs, if AllBuilt(bs) then Some(found) else None);
  }
}
