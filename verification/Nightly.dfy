/** The nightly PPA upload protocol of scripts/ppa-nightly.py. */
module Nightly {
  import opened Sequences
  import opened PpaVerdict
  import opened Versions

  const MAX_PPAREV := 5

  const REJECTED_AFTER := 86400.0

  datatype PendingUpload = PendingUpload(upstream: string, pparev: nat, uploadedAt: real)

  datatype FailedUpload = FailedUpload(upstream: string, pparev: nat)

  /** The state file. */
  datatype State = State(published: Option<string>, pending: Option<PendingUpload>, failed: Option<FailedUpload>)

  const EMPTY := State(None, None, None)

  datatype Action = Nothing | Wait | Publish(upstream: string) | Upload(upstream: string, pparev: nat)

  // ---------- the decision ----------

  predicate PendingFor(s: State, u: string) { s.pending.Some? && s.pending.value.upstream == u }

  predicate FailedFor(s: State, u: string) { s.failed.Some? && s.failed.value.upstream == u }

  function Retry(u: string, rev: nat): Action {
    if rev >= MAX_PPAREV then Wait else Upload(u, rev + 1)
  }

  /** `decide`; None when it needs Launchpad and Launchpad cannot be reached. */
  function Decide(s: State, u: string, now: real, answer: Option<Answers>): Option<Action> {
    if s.published == Some(u) then Some(Nothing)
    else if PendingFor(s, u) then
      var rev := s.pending.value.pparev;
      if answer.None? then None
      else match StatusOf(answer.value, DebianVersion(u, rev))
        case StatusOk => Some(Publish(u))
        case StatusPending => Some(Wait)
        case StatusFailed => Some(Retry(u, rev))
        case StatusAbsent =>
          if now - s.pending.value.uploadedAt > REJECTED_AFTER then Some(Retry(u, rev)) else Some(Wait)
    else if FailedFor(s, u) then Some(Retry(u, s.failed.value.pparev))
    else Some(Upload(u, 1))
  }

  function AfterUpload(s: State, u: string, rev: nat, now: real): State {
    State(s.published, Some(PendingUpload(u, rev, now)), None)
  }

  function AfterFailure(s: State, u: string, rev: nat): State {
    State(s.published, None, Some(FailedUpload(u, rev)))
  }

  function AfterPublish(s: State, u: string): State { State(Some(u), None, None) }

  // ---------- one run ----------

  // A run is a function of the recorded state and of what the environment does: the version derived
  // from main, the clock, Launchpad's answers, whether the build and dput succeed. A run that is killed
  // outside the window between dput and the state save leaves the same record as one of these runs.

  /** What happens between the decision to upload and the end of the run. */
  datatype Attempt =
    | BuildBroke                                  // the build or the signature failed
    | NotUploaded(time: real)                     // the container failed before dput
    | DputBroke(time: real)                       // dput ran and failed
    | Uploaded(time: real, polls: seq<Option<Answers>>)

  /** A timer run or a dry run, unless another run holds the lock. */
  datatype Mode = Timer | DryRun | LockHeld

  datatype Input = Input(upstream: string, now: real, answer: Option<Answers>, attempt: Attempt, mode: Mode)

  /** A version handed to dput. */
  datatype Push = Push(upstream: string, pparev: nat)

  /** The states a run saves, in order, what it pushes, and its exit code. */
  datatype Outcome = Outcome(saves: seq<State>, push: Option<Push>, exitCode: nat)

  function Final(s: State, saves: seq<State>): State {
    if saves == [] then s else saves[|saves| - 1]
  }

  /** `attempt_upload`: what to record, and whether to poll. */
  function Record(s: State, u: string, rev: nat, a: Attempt): Option<State> {
    match a
    case BuildBroke => None
    case NotUploaded(_) => None
    case DputBroke(time) => Some(AfterUpload(s, u, rev, time))
    case Uploaded(time, _) => Some(AfterUpload(s, u, rev, time))
  }

  /** The polling loop: the first definite answer ends it. */
  function Poll(s: State, u: string, rev: nat, polls: seq<Option<Answers>>): (seq<State>, nat) {
    if polls == [] then ([], 0)
    else if polls[0].None? then ([], 2)
    else match StatusOf(polls[0].value, DebianVersion(u, rev))
      case StatusOk => ([AfterPublish(s, u)], 0)
      case StatusFailed => ([AfterFailure(s, u, rev)], 1)
      case _ => Poll(s, u, rev, polls[1..])
  }

  /** The state an upload starts from: a refused pending revision is recorded as failed first. */
  function BeforeUpload(s: State, u: string): State {
    if PendingFor(s, u) then AfterFailure(s, u, s.pending.value.pparev) else s
  }

  /** The upload half of `main`. */
  function RunUpload(s: State, u: string, rev: nat, a: Attempt): Outcome {
    var s1 := BeforeUpload(s, u);
    var first := if PendingFor(s, u) then [s1] else [];
    match Record(s1, u, rev, a)
    case None => Outcome(first, None, 1)
    case Some(s2) =>
      if a.DputBroke? then Outcome(first + [s2], Some(Push(u, rev)), 1)
      else
        var (more, code) := Poll(s2, u, rev, if a.Uploaded? then a.polls else []);
        Outcome(first + [s2] + more, Some(Push(u, rev)), code)
  }

  /** `main`: one timer run, or a dry run, which saves and pushes nothing, or neither while another
      run holds the lock. */
  function Run(s: State, i: Input): Outcome {
    if i.mode.LockHeld? then Outcome([], None, 1)
    else if i.mode.DryRun? then Outcome([], None, if i.attempt.BuildBroke? then 1 else 0)
    else match Decide(s, i.upstream, i.now, i.answer)
      case None => Outcome([], None, 2)
      case Some(Nothing) => Outcome([], None, 0)
      case Some(Wait) => Outcome([], None, 0)
      case Some(Publish(u)) => Outcome([AfterPublish(s, u)], None, 0)
      case Some(Upload(u, rev)) => RunUpload(s, u, rev, i.attempt)
  }

  /** The program with its state file; `saves` and `pushes` log what left the process. */
  class Uploader {
    var state: State
    var saves: seq<State>
    var pushes: seq<Push>

    constructor ()
      ensures state == EMPTY && saves == [] && pushes == []
    {
      state, saves, pushes := EMPTY, [], [];
    }

    method Save(s: State)
      modifies this
      ensures state == s && saves == old(saves) + [s] && pushes == old(pushes)
    {
      state, saves := s, saves + [s];
    }

    /** `main`, imperatively. */
    method RunOnce(i: Input) returns (exitCode: nat)
      modifies this
      ensures var o := Run(old(state), i);
        && exitCode == o.exitCode
        && saves == old(saves) + o.saves
        && state == Final(old(state), o.saves)
        && pushes == old(pushes) + if o.push.Some? then [o.push.value] else []
    {
      if i.mode.LockHeld? {
        return 1;
      }
      if i.mode.DryRun? {
        return if i.attempt.BuildBroke? then 1 else 0;
      }
      var action := Decide(state, i.upstream, i.now, i.answer);
      if action.None? {
        return 2;
      }
      match action.value {
        case Nothing => return 0;
        case Wait => return 0;
        case Publish(u) =>
          Save(AfterPublish(state, u));
          return 0;
        case Upload(u, rev) =>
          if PendingFor(state, u) {
            Save(AfterFailure(state, u, state.pending.value.pparev));
          }
          var recorded := Record(state, u, rev, i.attempt);
          if recorded.None? {
            return 1;
          }
          pushes := pushes + [Push(u, rev)];
          Save(recorded.value);
          if i.attempt.DputBroke? {
            return 1;
          }
          exitCode := PollLaunchpad(u, rev, if i.attempt.Uploaded? then i.attempt.polls else []);
      }
    }

    method PollLaunchpad(u: string, rev: nat, polls: seq<Option<Answers>>) returns (exitCode: nat)
      modifies this
      ensures var (more, code) := Poll(old(state), u, rev, polls);
        exitCode == code && saves == old(saves) + more
        && state == Final(old(state), more) && pushes == old(pushes)
    {
      var n := 0;
      while n < |polls|
        invariant 0 <= n <= |polls|
        invariant state == old(state) && saves == old(saves) && pushes == old(pushes)
        invariant Poll(state, u, rev, polls) == Poll(state, u, rev, polls[n..])
      {
        assert polls[n..][1..] == polls[n + 1..];
        if polls[n].None? {
          return 2;
        }
        var seen := StatusOf(polls[n].value, DebianVersion(u, rev));
        if seen == StatusOk {
          Save(AfterPublish(state, u));
          return 0;
        }
        if seen == StatusFailed {
          Save(AfterFailure(state, u, rev));
          return 1;
        }
        n := n + 1;
      }
      exitCode := 0;
    }
  }

  // ---------- what each answer leads to ----------

  /** Launchpad shows a failed build of the published source. */
  ghost predicate BuildFailed(a: Answers) {
    a.listed && a.published && exists b :: b in a.builds && IsFailedState(b.state)
  }

  /** The first `k` polls are answered and leave it open. */
  ghost predicate Undecided(polls: seq<Option<Answers>>, k: nat, debver: string) {
    k <= |polls| && forall j :: 0 <= j < k ==>
      polls[j].Some? && !Evidence(polls[j].value, debver) && !BuildFailed(polls[j].value)
  }

  /** The first poll that is not open decides: evidence publishes, a failed build records the failure,
      silence leaves the upload pending with exit code 2, and so does running out of polls with 0. */
  lemma {:induction false} PollMeans(s: State, u: string, rev: nat, polls: seq<Option<Answers>>, k: nat)
    requires Undecided(polls, k, DebianVersion(u, rev))
    ensures k == |polls| ==> Poll(s, u, rev, polls) == ([], 0)
    ensures k < |polls| && polls[k].None? ==> Poll(s, u, rev, polls) == ([], 2)
    ensures k < |polls| && polls[k].Some? && Evidence(polls[k].value, DebianVersion(u, rev)) ==>
              Poll(s, u, rev, polls) == ([State(Some(u), None, None)], 0)
    ensures k < |polls| && polls[k].Some? && BuildFailed(polls[k].value) ==>
              Poll(s, u, rev, polls) == ([State(s.published, None, Some(FailedUpload(u, rev)))], 1)
  {
    if polls != [] && polls[0].Some? {
      StatusMeans(polls[0].value, DebianVersion(u, rev));
    }
    if k > 0 {
      assert forall j :: 0 <= j < k - 1 ==> polls[1..][j] == polls[j + 1];
      PollMeans(s, u, rev, polls[1..], k - 1);
    }
  }

  /** An upload of `rev` from record `s`, after the saves `first`: nothing is recorded before dput, and
      after it the version is pending since that moment, whatever dput said. */
  ghost predicate Uploads(o: Outcome, s: State, first: seq<State>, u: string, rev: nat, a: Attempt) {
    match a
    case BuildBroke => o == Outcome(first, None, 1)
    case NotUploaded(_) => o == Outcome(first, None, 1)
    case DputBroke(time) =>
      o == Outcome(first + [State(s.published, Some(PendingUpload(u, rev, time)), None)], Some(Push(u, rev)), 1)
    case Uploaded(time, polls) =>
      var pending := State(s.published, Some(PendingUpload(u, rev, time)), None);
      var (more, code) := Poll(pending, u, rev, polls);
      o == Outcome(first + [pending] + more, Some(Push(u, rev)), code)
  }

  /** A timer run while a revision of the derived version is pending: evidence publishes it; a failed
      build, or no source publication a day after the upload, is recorded and retried with the next
      revision up to the fifth; any other answer changes nothing. */
  lemma {:induction false} PendingRunMeans(s: State, i: Input, a: Answers)
    requires i.mode.Timer? && PendingFor(s, i.upstream) && s.published != Some(i.upstream) && i.answer == Some(a)
    ensures var u, rev := i.upstream, s.pending.value.pparev;
      var refused := BuildFailed(a) || (!a.listed && i.now - s.pending.value.uploadedAt > 86400.0);
      && (Evidence(a, DebianVersion(u, rev)) ==> Run(s, i) == Outcome([State(Some(u), None, None)], None, 0))
      && (refused && rev < 5 ==>
            Uploads(Run(s, i), s, [State(s.published, None, Some(FailedUpload(u, rev)))], u, rev + 1, i.attempt))
      && (!Evidence(a, DebianVersion(u, rev)) && !(refused && rev < 5) ==> Run(s, i) == Outcome([], None, 0))
  {
    StatusMeans(a, DebianVersion(i.upstream, s.pending.value.pparev));
  }

  /** Every other run: a published version is left alone; a failed one is retried up to the fifth
      revision; a version the record does not know is uploaded at revision 1; and without Launchpad a
      pending one is left with exit code 2. Dry runs and runs that find the lock held touch nothing. */
  lemma {:induction false} OtherRunMeans(s: State, i: Input)
    ensures i.mode.LockHeld? ==> Run(s, i) == Outcome([], None, 1)
    ensures i.mode.DryRun? ==> Run(s, i) == Outcome([], None, if i.attempt.BuildBroke? then 1 else 0)
    ensures i.mode.Timer? && s.published == Some(i.upstream) ==> Run(s, i) == Outcome([], None, 0)
    ensures i.mode.Timer? && s.published != Some(i.upstream) && PendingFor(s, i.upstream) && i.answer.None? ==>
              Run(s, i) == Outcome([], None, 2)
    ensures i.mode.Timer? && s.published != Some(i.upstream) && !PendingFor(s, i.upstream) ==>
      if FailedFor(s, i.upstream) then
        var rev := s.failed.value.pparev;
        if rev < 5 then Uploads(Run(s, i), s, [], i.upstream, rev + 1, i.attempt) else Run(s, i) == Outcome([], None, 0)
      else Uploads(Run(s, i), s, [], i.upstream, 1, i.attempt)
  {
    assert forall x: State :: [] + [x] == [x];
  }

  // ---------- histories ----------

  /** The recorded state and everything ever handed to dput. */
  datatype World = World(state: State, pushes: seq<Push>)

  function Step(w: World, i: Input): World {
    var o := Run(w.state, i);
    World(Final(w.state, o.saves), w.pushes + if o.push.Some? then [o.push.value] else [])
  }

  function Exec(inputs: seq<Input>): World {
    if inputs == [] then World(EMPTY, []) else Step(Exec(inputs[..|inputs| - 1]), inputs[|inputs| - 1])
  }

  /** The versions main was at when the timer ran. */
  ghost function Derived(inputs: seq<Input>): set<string> {
    set i | 0 <= i < |inputs| && inputs[i].mode.Timer? :: inputs[i].upstream
  }

  /** The version of the last timer run. */
  ghost function Current(inputs: seq<Input>): Option<string> {
    if inputs == [] then None
    else
      var last := inputs[|inputs| - 1];
      if !last.mode.Timer? then Current(inputs[..|inputs| - 1]) else Some(last.upstream)
  }

  /** The assumption on main: a derived version never returns once main has left it. */
  ghost predicate NeverReturns(inputs: seq<Input>) {
    forall i, j, k ::
      (&& 0 <= i < j < k < |inputs|
       && inputs[i].mode.Timer? && inputs[j].mode.Timer? && inputs[k].mode.Timer?
       && inputs[i].upstream == inputs[k].upstream)
      ==> inputs[j].upstream == inputs[i].upstream
  }

  /** The revisions pushed for one version, in order. */
  function Revisions(pushes: seq<Push>, u: string): seq<nat> {
    if pushes == [] then []
    else
      var last := pushes[|pushes| - 1];
      Revisions(pushes[..|pushes| - 1], u) + if last.upstream == u then [last.pparev] else []
  }

  /** 1, 2, ..., k. */
  ghost predicate CountsUp(revs: seq<nat>) {
    forall i :: 0 <= i < |revs| ==> revs[i] == i + 1
  }

  /** The recorded state knows of `u`. */
  predicate Tracked(s: State, u: string) {
    s.published == Some(u) || PendingFor(s, u) || FailedFor(s, u)
  }

  ghost predicate Invariant(w: World, inputs: seq<Input>) {
    var s := w.state;
    && (s.pending.None? || s.failed.None?)
    && (forall u :: CountsUp(Revisions(w.pushes, u)) && |Revisions(w.pushes, u)| <= MAX_PPAREV)
    && (s.pending.Some? ==> s.pending.value.pparev == |Revisions(w.pushes, s.pending.value.upstream)| >= 1)
    && (s.failed.Some? ==> s.failed.value.pparev == |Revisions(w.pushes, s.failed.value.upstream)| >= 1)
    && (forall u :: Tracked(s, u) || Revisions(w.pushes, u) != [] ==> u in Derived(inputs))
    && (forall u :: Some(u) == Current(inputs) && Revisions(w.pushes, u) != [] ==> Tracked(s, u))
  }

  lemma {:induction false} DerivedGrows(inputs: seq<Input>, i: Input)
    ensures Derived(inputs + [i]) == Derived(inputs) + (if !i.mode.Timer? then {} else {i.upstream})
  {
    var all := inputs + [i];
    forall u | u in Derived(inputs) ensures u in Derived(all) {
      var k :| 0 <= k < |inputs| && inputs[k].mode.Timer? && inputs[k].upstream == u;
      assert all[k] == inputs[k];
    }
    if i.mode.Timer? {
      assert all[|inputs|].upstream == i.upstream;
    }
  }

  lemma {:induction false} CurrentIsDerived(inputs: seq<Input>)
    ensures Current(inputs).Some? ==>
      exists k :: 0 <= k < |inputs| && inputs[k].mode.Timer? && Current(inputs) == Some(inputs[k].upstream)
        && forall j :: k < j < |inputs| ==> !inputs[j].mode.Timer?
  {
    if inputs != [] {
      var n := |inputs| - 1;
      if !inputs[n].mode.Timer? {
        CurrentIsDerived(inputs[..n]);
      } else {
        assert Current(inputs) == Some(inputs[n].upstream);
      }
    }
  }

  /** A version that is not the current one is a new one. */
  lemma {:induction false} ChangeIsFresh(inputs: seq<Input>, i: Input)
    requires NeverReturns(inputs + [i]) && i.mode.Timer? && Current(inputs) != Some(i.upstream)
    ensures i.upstream !in Derived(inputs)
  {
    var all := inputs + [i];
    CurrentIsDerived(inputs);
    forall k | 0 <= k < |inputs| && inputs[k].mode.Timer? ensures inputs[k].upstream != i.upstream {
      SomeTimerRun(inputs, k);
      var c :| 0 <= c < |inputs| && inputs[c].mode.Timer? && Current(inputs) == Some(inputs[c].upstream)
                 && forall j :: c < j < |inputs| ==> !inputs[j].mode.Timer?;
      assert all[k] == inputs[k] && all[c] == inputs[c] && all[|inputs|] == i;
    }
  }

  lemma {:induction false} SomeTimerRun(inputs: seq<Input>, k: nat)
    requires k < |inputs| && inputs[k].mode.Timer?
    ensures Current(inputs).Some?
  {
    var n := |inputs| - 1;
    if !inputs[n].mode.Timer? {
      SomeTimerRun(inputs[..n], k);
    }
  }

  // ---------- what one run does to the record ----------

  /** After a run that pushed, the version is tracked and the record matches the pushed revision. */
  lemma {:induction false} PollOutcome(s: State, u: string, rev: nat, polls: seq<Option<Answers>>)
    requires PendingFor(s, u) && s.pending.value.pparev == rev && s.failed.None?
    ensures var (more, _) := Poll(s, u, rev, polls);
      && |more| <= 1
      && (more != [] ==> more[0] == AfterPublish(s, u) || more[0] == AfterFailure(s, u, rev))
      && (more != [] && more[0] == AfterPublish(s, u) ==>
            exists a :: Some(a) in polls && Evidence(a, DebianVersion(u, rev)))
  {
    if polls != [] && polls[0].Some? {
      assert polls[0] in polls;
      StatusMeans(polls[0].value, DebianVersion(u, rev));
      if StatusOf(polls[0].value, DebianVersion(u, rev)) != StatusOk {
        PollOutcome(s, u, rev, polls[1..]);
        assert forall p :: p in polls[1..] ==> p in polls;
      }
    }
  }

  /** The last revision the record knows for `u`, 0 when it knows none. */
  function Known(s: State, u: string): nat {
    if PendingFor(s, u) then s.pending.value.pparev
    else if FailedFor(s, u) then s.failed.value.pparev
    else 0
  }

  /** The record has exactly one entry, `u` at revision `rev`, beside an older publication. */
  predicate RecordsAt(s: State, before: State, u: string, rev: nat) {
    || s == State(Some(u), None, None)
    || (s.published == before.published
        && ((s.pending.None? && s.failed == Some(FailedUpload(u, rev)))
            || (s.failed.None? && PendingFor(s, u) && s.pending.value.pparev == rev)))
  }

  /** A run pushes at most the next revision of the derived version, never a published one, and the
      record then holds that revision; without a push the record keeps its revision. */
  lemma {:induction false} RunShape(s: State, i: Input)
    requires i.mode.Timer? && (s.pending.None? || s.failed.None?)
    ensures var o := Run(s, i);
      var f := Final(s, o.saves);
      && (o.push.Some? ==>
            && s.published != Some(i.upstream)
            && o.push.value == Push(i.upstream, Known(s, i.upstream) + 1)
            && o.push.value.pparev <= MAX_PPAREV
            && RecordsAt(f, s, i.upstream, o.push.value.pparev))
      && (o.push.None? && f != s ==>
            PendingFor(s, i.upstream) && RecordsAt(f, s, i.upstream, s.pending.value.pparev))
  {
    var u := i.upstream;
    var d := Decide(s, u, i.now, i.answer);
    if d.Some? && d.value.Upload? {
      var rev := d.value.pparev;
      var s2 := Record(BeforeUpload(s, u), u, rev, i.attempt);
      if s2.Some? && i.attempt.Uploaded? {
        PollOutcome(s2.value, u, rev, i.attempt.polls);
      }
    }
  }

  lemma {:induction false} RevisionsOfPush(pushes: seq<Push>, p: Push, u: string)
    ensures Revisions(pushes + [p], u) == Revisions(pushes, u) + if p.upstream == u then [p.pparev] else []
  {
    assert (pushes + [p])[..|pushes|] == pushes;
  }

  /** The record of the derived version agrees with what was pushed for it. */
  lemma {:induction false} KnownIsPushed(w: World, inputs: seq<Input>, i: Input)
    requires Invariant(w, inputs) && NeverReturns(inputs + [i]) && i.mode.Timer?
    requires w.state.published != Some(i.upstream)
    ensures Known(w.state, i.upstream) == |Revisions(w.pushes, i.upstream)|
  {
    if Current(inputs) != Some(i.upstream) {
      ChangeIsFresh(inputs, i);
      assert !Tracked(w.state, i.upstream);
    }
  }

  lemma {:induction false} CurrentOfRun(inputs: seq<Input>, i: Input)
    ensures Current(inputs + [i]) == if !i.mode.Timer? then Current(inputs) else Some(i.upstream)
  {
    assert (inputs + [i])[..|inputs|] == inputs;
  }

  lemma {:induction false} PushKeepsInvariant(w: World, inputs: seq<Input>, i: Input, f: State, p: Push)
    requires Invariant(w, inputs) && i.mode.Timer?
    requires p == Push(i.upstream, |Revisions(w.pushes, i.upstream)| + 1) && p.pparev <= MAX_PPAREV
    requires RecordsAt(f, w.state, i.upstream, p.pparev)
    ensures Invariant(World(f, w.pushes + [p]), inputs + [i])
  {
    DerivedGrows(inputs, i);
    CurrentOfRun(inputs, i);
    forall u ensures Revisions(w.pushes + [p], u)
                  == Revisions(w.pushes, u) + if p.upstream == u then [p.pparev] else [] {
      RevisionsOfPush(w.pushes, p, u);
    }
    forall u | Tracked(f, u) ensures u in Derived(inputs + [i]) {
      assert u == i.upstream || Tracked(w.state, u);
    }
  }

  lemma {:induction false} QuietKeepsInvariant(w: World, inputs: seq<Input>, i: Input, f: State)
    requires Invariant(w, inputs) && i.mode.Timer?
    requires f == w.state
      || (PendingFor(w.state, i.upstream) && RecordsAt(f, w.state, i.upstream, w.state.pending.value.pparev))
    requires Revisions(w.pushes, i.upstream) != [] ==> Tracked(w.state, i.upstream)
    ensures Invariant(World(f, w.pushes), inputs + [i])
  {
    DerivedGrows(inputs, i);
    CurrentOfRun(inputs, i);
    forall u | Tracked(f, u) ensures u in Derived(inputs + [i]) {
      assert u == i.upstream || Tracked(w.state, u);
    }
  }

  lemma {:induction false} StepKeepsInvariant(w: World, inputs: seq<Input>, i: Input)
    requires Invariant(w, inputs) && NeverReturns(inputs + [i])
    ensures Invariant(Step(w, i), inputs + [i])
  {
    if !i.mode.Timer? {
      DerivedGrows(inputs, i);
      CurrentOfRun(inputs, i);
      assert w.pushes + [] == w.pushes;
    } else {
      RunShape(w.state, i);
      var o := Run(w.state, i);
      if o.push.Some? {
        KnownIsPushed(w, inputs, i);
        PushKeepsInvariant(w, inputs, i, Final(w.state, o.saves), o.push.value);
      } else {
        if Current(inputs) != Some(i.upstream) {
          ChangeIsFresh(inputs, i);
        }
        assert w.pushes + [] == w.pushes;
        QuietKeepsInvariant(w, inputs, i, Final(w.state, o.saves));
      }
    }
  }

  /** The invariant holds after every history of runs. */
  lemma {:induction false} InvariantHolds(inputs: seq<Input>)
    requires NeverReturns(inputs)
    ensures Invariant(Exec(inputs), inputs)
  {
    if inputs != [] {
      var n := |inputs| - 1;
      assert inputs == inputs[..n] + [inputs[n]];
      InvariantHolds(inputs[..n]);
      StepKeepsInvariant(Exec(inputs[..n]), inputs[..n], inputs[n]);
    }
  }

  // ---------- safety: no version is handed to dput twice ----------

  lemma {:induction false} RevisionListed(pushes: seq<Push>, i: nat)
    requires i < |pushes|
    ensures pushes[i].pparev in Revisions(pushes, pushes[i].upstream)
  {
    var n := |pushes| - 1;
    if i < n {
      RevisionListed(pushes[..n], i);
    }
  }

  lemma {:induction false} CountingUpIsDistinct(pushes: seq<Push>)
    requires forall u :: CountsUp(Revisions(pushes, u))
    ensures forall i, j :: 0 <= i < j < |pushes| ==> pushes[i] != pushes[j]
  {
    if pushes != [] {
      var n := |pushes| - 1;
      var init, last := pushes[..n], pushes[n];
      forall u ensures CountsUp(Revisions(init, u)) {
        assert CountsUp(Revisions(pushes, u));
        assert forall k :: 0 <= k < |Revisions(init, u)| ==> Revisions(pushes, u)[k] == Revisions(init, u)[k];
      }
      CountingUpIsDistinct(init);
      var revs := Revisions(init, last.upstream);
      assert Revisions(pushes, last.upstream) == revs + [last.pparev];
      assert CountsUp(Revisions(pushes, last.upstream));
      assert Revisions(pushes, last.upstream)[|revs|] == last.pparev;
      assert last.pparev == |revs| + 1;
      forall i | 0 <= i < n ensures pushes[i] != last {
        RevisionListed(init, i);
        assert init[i] == pushes[i];
        if pushes[i].upstream == last.upstream {
          assert pushes[i].pparev in revs;
        }
      }
    }
  }

  /** Over every history of timer and dry runs in which main never returns to a version it left: no
      Debian version is handed to dput twice, and the revisions pushed for one derived version are
      1, 2, ..., k in order with k at most MAX_PPAREV. */
  lemma {:induction false} NoVersionTwice(inputs: seq<Input>)
    requires NeverReturns(inputs)
    ensures var pushes := Exec(inputs).pushes;
      && (forall i, j :: 0 <= i < j < |pushes| ==>
            DebianVersion(pushes[i].upstream, pushes[i].pparev) != DebianVersion(pushes[j].upstream, pushes[j].pparev))
      && (forall u :: CountsUp(Revisions(pushes, u)) && |Revisions(pushes, u)| <= MAX_PPAREV)
  {
    InvariantHolds(inputs);
    var pushes := Exec(inputs).pushes;
    CountingUpIsDistinct(pushes);
    forall i, j | 0 <= i < j < |pushes|
      ensures DebianVersion(pushes[i].upstream, pushes[i].pparev) != DebianVersion(pushes[j].upstream, pushes[j].pparev)
    {
      if DebianVersion(pushes[i].upstream, pushes[i].pparev) == DebianVersion(pushes[j].upstream, pushes[j].pparev) {
        DebianVersionInjective(pushes[i].upstream, pushes[i].pparev, pushes[j].upstream, pushes[j].pparev);
      }
    }
  }

  /** The assumption on main is needed: returning to a version pushes its first revision again. */
  lemma {:induction false} ReturningPushesTwice(a: string, b: string)
    requires a != b
    ensures var run := (u: string) => Input(u, 0.0, None, DputBroke(0.0), Timer);
            Exec([run(a), run(b), run(a)]).pushes == [Push(a, 1), Push(b, 1), Push(a, 1)]
  {
    var run := (u: string) => Input(u, 0.0, None, DputBroke(0.0), Timer);
    var all := [run(a), run(b), run(a)];
    assert all[..2] == [run(a), run(b)] && all[..2][..1] == [run(a)] && all[..2][..1][..0] == [];
    var w1 := Step(World(EMPTY, []), run(a));
    assert w1 == World(State(None, Some(PendingUpload(a, 1, 0.0)), None), [Push(a, 1)]);
    var w2 := Step(w1, run(b));
    assert w2 == World(State(None, Some(PendingUpload(b, 1, 0.0)), None), [Push(a, 1), Push(b, 1)]);
    assert Exec(all[..2][..1]) == w1;
    assert Exec(all[..2]) == w2;
  }

  // ---------- safety: published means published ----------

  /** Launchpad's answers during a run. */
  ghost predicate Heard(i: Input, a: Answers) {
    i.answer == Some(a) || (i.attempt.Uploaded? && Some(a) in i.attempt.polls)
  }

  lemma {:induction false} PublishingNeedsEvidence(s: State, i: Input, k: nat)
    requires i.mode.Timer? && (s.pending.None? || s.failed.None?)
    requires k < |Run(s, i).saves| && Run(s, i).saves[k].published != s.published
    ensures Run(s, i).saves[k].published == Some(i.upstream)
    ensures var rev := if Run(s, i).push.Some? then Run(s, i).push.value.pparev else Known(s, i.upstream);
            exists a :: Heard(i, a) && Evidence(a, DebianVersion(i.upstream, rev))
  {
    var u := i.upstream;
    var d := Decide(s, u, i.now, i.answer).value;
    if d.Publish? {
      StatusMeans(i.answer.value, DebianVersion(u, s.pending.value.pparev));
      assert Heard(i, i.answer.value);
    } else {
      var rev := d.pparev;
      var s2 := Record(BeforeUpload(s, u), u, rev, i.attempt).value;
      assert i.attempt.Uploaded?;
      PollOutcome(s2, u, rev, i.attempt.polls);
      var a :| Some(a) in i.attempt.polls && Evidence(a, DebianVersion(u, rev));
      assert Heard(i, a);
    }
  }

  /** After a run that records a publication, the revision it is about is the last one pushed. */
  lemma {:induction false} LastPushed(w: World, inputs: seq<Input>, i: Input)
    requires Invariant(w, inputs) && NeverReturns(inputs + [i]) && i.mode.Timer?
    requires Run(w.state, i).push.None? ==> PendingFor(w.state, i.upstream)
    ensures var o := Run(w.state, i);
      |Revisions(Step(w, i).pushes, i.upstream)|
      == (if o.push.Some? then o.push.value.pparev else Known(w.state, i.upstream)) >= 1
  {
    RunShape(w.state, i);
    var o := Run(w.state, i);
    if o.push.Some? {
      KnownIsPushed(w, inputs, i);
      RevisionsOfPush(w.pushes, o.push.value, i.upstream);
    } else {
      assert w.pushes + [] == w.pushes;
    }
  }

  lemma {:induction false} PublishingIsPending(s: State, i: Input, k: nat)
    requires i.mode.Timer? && k < |Run(s, i).saves| && Run(s, i).push.None?
    ensures PendingFor(s, i.upstream)
  {
  }

  /** Whenever a run of any history records a version as published, Launchpad has just shown the
      evidence for exactly the last revision ever pushed of that version. */
  lemma {:induction false} PublishedIsProven(inputs: seq<Input>, i: Input, k: nat)
    requires NeverReturns(inputs + [i])
    requires k < |Run(Exec(inputs).state, i).saves|
    requires Run(Exec(inputs).state, i).saves[k].published != Exec(inputs).state.published
    ensures Run(Exec(inputs).state, i).saves[k].published == Some(i.upstream)
    ensures var last := |Revisions(Step(Exec(inputs), i).pushes, i.upstream)|;
            last >= 1 && exists a :: Heard(i, a) && Evidence(a, DebianVersion(i.upstream, last))
  {
    var w := Exec(inputs);
    PrefixNeverReturns(inputs, i);
    InvariantHolds(inputs);
    PublishingNeedsEvidence(w.state, i, k);
    if Run(w.state, i).push.None? {
      PublishingIsPending(w.state, i, k);
    }
    LastPushed(w, inputs, i);
  }

  lemma {:induction false} PrefixNeverReturns(inputs: seq<Input>, i: Input)
    requires NeverReturns(inputs + [i])
    ensures NeverReturns(inputs)
  {
    var all := inputs + [i];
    assert forall k :: 0 <= k < |inputs| ==> all[k] == inputs[k];
  }

  // ---------- progress: the record of one version settles ----------

  ghost predicate Sane(s: State) {
    && (s.pending.None? || s.failed.None?)
    && (s.pending.Some? ==> 1 <= s.pending.value.pparev <= MAX_PPAREV)
    && (s.failed.Some? ==> 1 <= s.failed.value.pparev <= MAX_PPAREV)
  }

  /** How far the record of `u` has come: pending and failed alternate, published ends it. */
  function Rank(s: State, u: string): int {
    if s.published == Some(u) then 2 * MAX_PPAREV
    else if PendingFor(s, u) then 2 * s.pending.value.pparev - 1
    else if FailedFor(s, u) then 2 * s.failed.value.pparev
    else 0
  }

  lemma {:induction false} PollClimbs(s: State, u: string, rev: nat, time: real, polls: seq<Option<Answers>>)
    requires s.published != Some(u) && 1 <= rev <= MAX_PPAREV
    ensures var s2 := AfterUpload(s, u, rev, time);
      var (more, _) := Poll(s2, u, rev, polls);
      var f := Final(s2, more);
      Sane(f) && 2 * rev - 1 + |more| <= Rank(f, u) <= 2 * MAX_PPAREV
  {
    PollOutcome(AfterUpload(s, u, rev, time), u, rev, polls);
  }

  lemma {:induction false} UploadClimbs(s: State, u: string, rev: nat, a: Attempt)
    requires Sane(s) && s.published != Some(u) && rev == Known(s, u) + 1 && rev <= MAX_PPAREV
    ensures var o := RunUpload(s, u, rev, a);
      var f := Final(s, o.saves);
      Sane(f) && |o.saves| <= Rank(f, u) - Rank(s, u) && Rank(f, u) <= 2 * MAX_PPAREV
  {
    var s1 := BeforeUpload(s, u);
    var first := if PendingFor(s, u) then [s1] else [];
    assert Sane(s1) && Rank(s1, u) == 2 * (rev - 1) == Rank(s, u) + |first|;
    if a.Uploaded? {
      PollClimbs(s1, u, rev, a.time, a.polls);
      var s2 := AfterUpload(s1, u, rev, a.time);
      var (more, _) := Poll(s2, u, rev, a.polls);
      assert Final(s, first + [s2] + more) == Final(s2, more);
    } else if a.DputBroke? {
      assert Final(s, first + [AfterUpload(s1, u, rev, a.time)]) == AfterUpload(s1, u, rev, a.time);
    }
  }

  /** Every save of a run lifts the rank. */
  lemma {:induction false} RunClimbs(s: State, i: Input)
    requires Sane(s) && i.mode.Timer?
    ensures var o := Run(s, i);
      var f := Final(s, o.saves);
      Sane(f) && |o.saves| <= Rank(f, i.upstream) - Rank(s, i.upstream) && Rank(f, i.upstream) <= 2 * MAX_PPAREV
  {
    var d := Decide(s, i.upstream, i.now, i.answer);
    if d.Some? && d.value.Upload? {
      UploadClimbs(s, i.upstream, d.value.pparev, i.attempt);
    }
  }

  /** How often the state file is written over a series of runs. */
  function SaveCount(s: State, inputs: seq<Input>): nat
    decreases |inputs|
  {
    if inputs == [] then 0
    else
      var o := Run(s, inputs[0]);
      |o.saves| + SaveCount(Final(s, o.saves), inputs[1..])
  }

  /** While main stays at one version, the state is written at most 2 * MAX_PPAREV times, however
      many runs there are. */
  lemma {:induction false} SavesAreBounded(s: State, inputs: seq<Input>, u: string)
    requires Sane(s) && forall k :: 0 <= k < |inputs| && inputs[k].mode.Timer? ==> inputs[k].upstream == u
    ensures SaveCount(s, inputs) <= 2 * MAX_PPAREV - Rank(s, u)
    decreases |inputs|
  {
    if inputs != [] {
      var o := Run(s, inputs[0]);
      if inputs[0].mode.Timer? {
        RunClimbs(s, inputs[0]);
      }
      SavesAreBounded(Final(s, o.saves), inputs[1..], u);
    }
  }

  const BROKEN_BUILD := Answers(true, true, [Build("amd64", FailedToBuild)], [])

  function FailingRuns(u: string, n: nat): seq<Input> {
    if n == 0 then []
    else [Input(u, 0.0, None, Uploaded(0.0, [Some(BROKEN_BUILD)]), Timer)] + FailingRuns(u, n - 1)
  }

  function FailedAt(u: string, r: nat): State {
    if r == 0 then EMPTY else State(None, None, Some(FailedUpload(u, r)))
  }

  lemma {:induction false} FailingRunSaves(u: string, r: nat)
    requires r < MAX_PPAREV
    ensures Run(FailedAt(u, r), FailingRuns(u, 1)[0]).saves
         == [State(None, Some(PendingUpload(u, r + 1, 0.0)), None), FailedAt(u, r + 1)]
  {
    assert BROKEN_BUILD.builds[0] in BROKEN_BUILD.builds;
    StatusMeans(BROKEN_BUILD, DebianVersion(u, r + 1));
    var s2 := State(None, Some(PendingUpload(u, r + 1, 0.0)), None);
    assert Poll(s2, u, r + 1, [Some(BROKEN_BUILD)]) == ([FailedAt(u, r + 1)], 1);
  }

  /** The bound is exact: runs whose builds keep failing write the state twice each. */
  lemma {:induction false} BoundIsReached(u: string, r: nat)
    requires r <= MAX_PPAREV
    ensures SaveCount(FailedAt(u, r), FailingRuns(u, MAX_PPAREV - r)) == 2 * MAX_PPAREV - Rank(FailedAt(u, r), u)
    decreases MAX_PPAREV - r
  {
    if r < MAX_PPAREV {
      var runs := FailingRuns(u, MAX_PPAREV - r);
      FailingRunSaves(u, r);
      assert runs[0] == FailingRuns(u, 1)[0];
      assert runs[1..] == FailingRuns(u, MAX_PPAREV - (r + 1));
      BoundIsReached(u, r + 1);
    }
  }

  /** At the top of the rank nothing happens any more until main moves. */
  lemma {:induction false} SettledStaysSettled(s: State, i: Input)
    requires Sane(s) && i.mode.Timer? && Rank(s, i.upstream) == 2 * MAX_PPAREV
    ensures Run(s, i) == Outcome([], None, 0)
  {
  }

  /** From any reachable record a version never derived before starts at revision 1. */
  lemma {:induction false} FreshVersionStartsAtOne(inputs: seq<Input>, u: string, now: real, answer: Option<Answers>)
    requires NeverReturns(inputs) && u !in Derived(inputs)
    ensures Decide(Exec(inputs).state, u, now, answer) == Some(Upload(u, 1))
    ensures Rank(Exec(inputs).state, u) == 0
  {
    InvariantHolds(inputs);
    assert !Tracked(Exec(inputs).state, u);
  }

  /** Every reachable record is sane, so the bounds above apply to it. */
  lemma {:induction false} ReachableIsSane(inputs: seq<Input>)
    requires NeverReturns(inputs)
    ensures Sane(Exec(inputs).state)
  {
    InvariantHolds(inputs);
  }

  // ---------- exit codes ----------

  /** The documentation says that exit code 1 leaves the state unchanged. It does exactly for a held
      lock, for a dry run, and when the failure came before dput and no refused revision had to be
      recorded first. */
  lemma {:induction false} ExitOneMeans(s: State, i: Input)
    requires Run(s, i).exitCode == 1
    ensures Final(s, Run(s, i).saves) == s <==>
            !i.mode.Timer? || ((i.attempt.BuildBroke? || i.attempt.NotUploaded?) && !PendingFor(s, i.upstream))
  {
    var u := i.upstream;
    var d := Decide(s, u, i.now, i.answer);
    if d.Some? && d.value.Upload? && i.attempt.Uploaded? {
      var s2 := Record(BeforeUpload(s, u), u, d.value.pparev, i.attempt).value;
      PollOutcome(s2, u, d.value.pparev, i.attempt.polls);
    }
  }

  /** Dput failing is such an exit that does change the state. */
  lemma {:induction false} ExitOneCanChangeState(u: string)
    ensures var i := Input(u, 0.0, None, DputBroke(0.0), Timer);
            Run(EMPTY, i).exitCode == 1 && Final(EMPTY, Run(EMPTY, i).saves) != EMPTY
  {
    var i := Input(u, 0.0, None, DputBroke(0.0), Timer);
    assert Run(EMPTY, i).saves == [State(None, Some(PendingUpload(u, 1, 0.0)), None)];
  }
}
