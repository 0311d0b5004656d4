/** What an apt client sees of the nightly uploads (scripts/ppa-nightly.py): each is an upgrade. */
module NightlyOrder {
  import opened Versions
  import opened Nightly

  /** `u'` is derived from a later commit or tag than `u`. */
  ghost predicate MovesOn(u: string, u': string) {
    exists d: Describe, d': Describe ::
      d.WellFormed() && d'.WellFormed() && d.Upstream() == u && d'.Upstream() == u' && Later(d, d')
  }

  /** Main only moves on: from one timer run to a later one it stays or gains commits or a higher tag. */
  ghost predicate Advances(inputs: seq<Input>) {
    forall i, j :: 0 <= i < j < |inputs| && inputs[i].mode.Timer? && inputs[j].mode.Timer? ==>
      inputs[i].upstream == inputs[j].upstream || MovesOn(inputs[i].upstream, inputs[j].upstream)
  }

  lemma {:induction false} MovesOnIsOneWay(u: string, u': string)
    requires MovesOn(u, u')
    ensures !MovesOn(u', u)
  {
    var d: Describe, d': Describe :|
      d.WellFormed() && d'.WellFormed() && d.Upstream() == u && d'.Upstream() == u' && Later(d, d');
    forall e: Describe, e': Describe | e.WellFormed() && e'.WellFormed() && e.Upstream() == u' && e'.Upstream() == u
      ensures !Later(e, e')
    {
      UpstreamInjective(d, e');
      UpstreamInjective(d', e);
    }
  }

  /** Such a main never returns to a version it left. */
  lemma {:induction false} AdvancingNeverReturns(inputs: seq<Input>)
    requires Advances(inputs)
    ensures NeverReturns(inputs)
  {
    forall i, j, k |
      && 0 <= i < j < k < |inputs|
      && inputs[i].mode.Timer? && inputs[j].mode.Timer? && inputs[k].mode.Timer?
      && inputs[i].upstream == inputs[k].upstream
      ensures inputs[j].upstream == inputs[i].upstream
    {
      if MovesOn(inputs[i].upstream, inputs[j].upstream) {
        MovesOnIsOneWay(inputs[i].upstream, inputs[j].upstream);
      }
    }
  }

  /** `q` is a newer Debian version than `p`. */
  predicate Newer(q: Push, p: Push) {
    VersionCompare(DebianVersion(p.upstream, p.pparev), DebianVersion(q.upstream, q.pparev)) == -1
  }

  ghost predicate Ascending(pushes: seq<Push>) {
    forall i, j :: 0 <= i < j < |pushes| ==> Newer(pushes[j], pushes[i])
  }

  lemma {:induction false} PrefixAdvances(inputs: seq<Input>, i: Input)
    requires Advances(inputs + [i])
    ensures Advances(inputs)
    ensures i.mode.Timer? ==> forall u :: u in Derived(inputs) ==> u == i.upstream || MovesOn(u, i.upstream)
  {
    var all := inputs + [i];
    assert forall k :: 0 <= k < |inputs| ==> all[k] == inputs[k];
    assert all[|inputs|] == i;
  }

  lemma {:induction false} MovedOnIsNewer(p: Push, q: Push)
    requires MovesOn(p.upstream, q.upstream)
    ensures Newer(q, p)
  {
    var d: Describe, d': Describe :|
      d.WellFormed() && d'.WellFormed() && d.Upstream() == p.upstream && d'.Upstream() == q.upstream && Later(d, d');
    LaterIsNewer(d, d', p.pparev, q.pparev);
  }

  /** What a run pushes is newer than everything pushed before. */
  lemma {:induction false} NextPushIsNewer(w: World, inputs: seq<Input>, i: Input, k: nat)
    requires Invariant(w, inputs) && NeverReturns(inputs + [i]) && i.mode.Timer?
    requires forall u :: u in Derived(inputs) ==> u == i.upstream || MovesOn(u, i.upstream)
    requires Run(w.state, i).push.Some? && k < |w.pushes|
    ensures Newer(Run(w.state, i).push.value, w.pushes[k])
  {
    RunShape(w.state, i);
    KnownIsPushed(w, inputs, i);
    var p, q := w.pushes[k], Run(w.state, i).push.value;
    RevisionListed(w.pushes, k);
    if p.upstream == i.upstream {
      var revs := Revisions(w.pushes, p.upstream);
      assert CountsUp(revs);
      var j :| 0 <= j < |revs| && revs[j] == p.pparev;
      LaterRevisionIsNewer(p.upstream, p.pparev, q.pparev);
    } else {
      assert p.upstream in Derived(inputs);
      MovedOnIsNewer(p, q);
    }
  }

  lemma {:induction false} AppendAscending(pushes: seq<Push>, q: Push)
    requires Ascending(pushes) && forall k :: 0 <= k < |pushes| ==> Newer(q, pushes[k])
    ensures Ascending(pushes + [q])
  {
  }

  /** Over every history in which main only moves on, each Debian version handed to dput sorts strictly
      after every earlier one, so every upload that is published is an upgrade. */
  lemma {:induction false} PushesAscend(inputs: seq<Input>)
    requires Advances(inputs)
    ensures Ascending(Exec(inputs).pushes)
  {
    if inputs != [] {
      var n := |inputs| - 1;
      var init, i := inputs[..n], inputs[n];
      assert inputs == init + [i];
      PrefixAdvances(init, i);
      PushesAscend(init);
      AdvancingNeverReturns(inputs);
      AdvancingNeverReturns(init);
      InvariantHolds(init);
      var w := Exec(init);
      var push := Run(w.state, i).push;
      if push.Some? {
        forall k | 0 <= k < |w.pushes| ensures Newer(push.value, w.pushes[k]) {
          NextPushIsNewer(w, init, i, k);
        }
        AppendAscending(w.pushes, push.value);
      } else {
        assert w.pushes + [] == w.pushes;
      }
    }
  }
}
