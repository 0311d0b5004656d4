/** Metrics of benchmarks/verification_metrics.py and bench_recog_suite.py. */
module Metrics {
  import opened Reals
  import opened Sequences

  // Every result here says that a finite computation on the observed scores is optimal over all real
  // thresholds. A raised ValueError is None.

  predicate Descending(a: real, b: real) { a >= b }

  predicate Less(a: real, b: real) { a < b }

  function Above(t: real): real -> bool { s => s > t }

  function AtLeast(t: real): real -> bool { s => s >= t }

  /** The fraction of the scores that satisfy `p`. */
  function Rate<T>(scores: seq<T>, p: T -> bool): real
    requires scores != []
  {
    Count(scores, p) as real / |scores| as real
  }

  lemma {:induction false} RateWeaken<T>(s: seq<T>, p: T -> bool, q: T -> bool)
    requires s != []
    requires forall x :: x in s && p(x) ==> q(x)
    ensures Rate(s, p) <= Rate(s, q)
  {
    CountWeaken(s, p, q);
    DivOrder(Count(s, p) as real, Count(s, q) as real, |s| as real);
  }

  lemma {:induction false} RateBounds<T>(s: seq<T>, p: T -> bool)
    requires s != []
    ensures 0.0 <= Rate(s, p) <= 1.0
    ensures Rate(s, p) == 0.0 <==> forall x :: x in s ==> !p(x)
    ensures Rate(s, p) == 1.0 <==> forall x :: x in s ==> p(x)
  {
    CountZero(s, p);
    CountFull(s, p);
    RatioBounds(Count(s, p) as real, |s| as real);
  }

  lemma {:induction false} RateAtMost<T>(s: seq<T>, p: T -> bool, bound: real)
    requires s != []
    ensures Rate(s, p) <= bound <==> Count(s, p) as real <= bound * |s| as real
  {
    RatioAtMost(Count(s, p) as real, |s| as real, bound);
  }

  lemma {:induction false} RateIsShare<T>(s: seq<T>, p: T -> bool, positions: set<int>)
    requires s != [] && forall i :: i in positions <==> 0 <= i < |s| && p(s[i])
    ensures Rate(s, p) * |s| as real == |positions| as real
  {
    CountIsSize(s, p, positions);
    Quotient(Count(s, p) as real, |s| as real);
  }

  /** What the rates count: above is strict, the FAR of `eer` is not, and its FRR is below. */
  lemma {:induction false} AboveMeans(scores: seq<real>, t: real)
    requires scores != []
    ensures Rate(scores, Above(t)) * |scores| as real == |(set i | 0 <= i < |scores| && scores[i] > t)| as real
  {
    RateIsShare(scores, Above(t), set i | 0 <= i < |scores| && scores[i] > t);
  }

  lemma {:induction false} FarMeans(scores: seq<real>, t: real)
    requires scores != []
    ensures Far(scores, t) * |scores| as real == |(set i | 0 <= i < |scores| && scores[i] >= t)| as real
  {
    RateIsShare(scores, AtLeast(t), set i | 0 <= i < |scores| && scores[i] >= t);
  }

  lemma {:induction false} FrrMeans(scores: seq<real>, t: real)
    requires scores != []
    ensures Frr(scores, t) * |scores| as real == |(set i | 0 <= i < |scores| && scores[i] < t)| as real
  {
    RateIsShare(scores, Below(t), set i | 0 <= i < |scores| && scores[i] < t);
  }

  // ---------- FAR thresholds ----------

  /** How many of `n` impostors a false accept rate of `far` admits. */
  function Admitted(n: nat, far: real): (k: nat)
    requires n > 0 && 0.0 <= far <= 1.0
    ensures k <= n && k as real <= far * n as real < k as real + 1.0
    ensures far < 1.0 ==> k < n
    ensures far == 1.0 ==> k == n
  {
    CancelFactor(0.0, far, n as real);
    CancelFactor(far, 1.0, n as real);
    CancelFactor(1.0, far, n as real);
    (far * n as real).Floor
  }

  lemma {:induction false} AdmittedGrows(n: nat, far: real, far': real)
    requires n > 0 && 0.0 <= far <= far' <= 1.0
    ensures Admitted(n, far) <= Admitted(n, far')
  {
    CancelFactor(far, far', n as real);
  }

  /** `_far_threshold`: the k-th largest impostor score, k = floor(far * n) + 1. */
  function FarThreshold(impostor: seq<real>, far: real): (r: Option<real>)
    ensures r.Some? <==> impostor != [] && 0.0 <= far <= 1.0
  {
    if impostor == [] || !(0.0 <= far <= 1.0) then None
    else
      var desc := SortBy(impostor, Descending);
      SortMembers(impostor, Descending);
      var k := Admitted(|desc|, far) + 1;
      if k > |desc| then Some(desc[|desc| - 1] - 1.0) else Some(desc[k - 1])
  }

  lemma {:induction false} AtMostAbove(desc: seq<real>, i: nat, t: real)
    requires SortedBy(desc, Descending) && i < |desc| && t >= desc[i]
    ensures Count(desc, Above(t)) <= i
  {
    forall x | x in desc[i..] ensures !Above(t)(x) {
      var k :| i <= k < |desc| && desc[k] == x;
      assert k > i ==> Descending(desc[i], desc[k]);
    }
    CountZero(desc[i..], Above(t));
    CountAppend(desc[..i], desc[i..], Above(t));
    assert desc == desc[..i] + desc[i..];
  }

  lemma {:induction false} AtLeastAbove(desc: seq<real>, i: nat, t: real)
    requires SortedBy(desc, Descending) && i < |desc| && t < desc[i]
    ensures Count(desc, Above(t)) >= i + 1
  {
    forall x | x in desc[..i + 1] ensures Above(t)(x) {
      var k :| 0 <= k <= i && desc[k] == x;
      assert k < i ==> Descending(desc[k], desc[i]);
    }
    CountFull(desc[..i + 1], Above(t));
    CountAppend(desc[..i + 1], desc[i + 1..], Above(t));
    assert desc == desc[..i + 1] + desc[i + 1..];
  }

  /** In a descending list, at most i scores exceed the one at position i, and more than i exceed
      anything smaller. */
  lemma {:induction false} CountAboveRank(desc: seq<real>, i: nat, t: real)
    requires SortedBy(desc, Descending) && i < |desc|
    ensures t >= desc[i] ==> Count(desc, Above(t)) <= i
    ensures t < desc[i] ==> Count(desc, Above(t)) >= i + 1
  {
    if t >= desc[i] {
      AtMostAbove(desc, i, t);
    } else {
      AtLeastAbove(desc, i, t);
    }
  }

  /** The threshold admits exactly the allowed number of impostors. */
  lemma {:induction false} ThresholdAdmits(impostor: seq<real>, far: real, t: real)
    requires impostor != [] && 0.0 <= far < 1.0
    ensures Count(impostor, Above(t)) <= Admitted(|impostor|, far) <==> t >= FarThreshold(impostor, far).value
  {
    var desc := SortBy(impostor, Descending);
    SortMembers(impostor, Descending);
    SortSorts(impostor, Descending);
    CountAboveRank(desc, Admitted(|desc|, far), t);
    CountPermutation(desc, impostor, Above(t));
  }

  lemma {:induction false} AtMostAdmitted(c: nat, n: nat, far: real)
    requires n > 0 && 0.0 <= far <= 1.0
    ensures c as real <= far * n as real <==> c <= Admitted(n, far)
  {
  }

  /** Below a FAR of 1 the threshold is the least real number whose realized FAR stays within it. */
  lemma {:induction false} FarThresholdIsLeast(impostor: seq<real>, far: real, t: real)
    requires impostor != [] && 0.0 <= far < 1.0
    ensures Rate(impostor, Above(t)) <= far <==> t >= FarThreshold(impostor, far).value
  {
    ThresholdAdmits(impostor, far, t);
    RateAtMost(impostor, Above(t), far);
    AtMostAdmitted(Count(impostor, Above(t)), |impostor|, far);
  }

  lemma {:induction false} FarThresholdFalls(impostor: seq<real>, far: real, far': real)
    requires impostor != [] && 0.0 <= far <= far' <= 1.0
    ensures FarThreshold(impostor, far').value <= FarThreshold(impostor, far).value
  {
    var desc := SortBy(impostor, Descending);
    SortMembers(impostor, Descending);
    SortSorts(impostor, Descending);
    var n := |desc|;
    var k, k' := Admitted(n, far), Admitted(n, far');
    assert k <= k' by { AdmittedGrows(n, far, far'); }
    assert k < n - 1 ==> Descending(desc[k], desc[n - 1]);
    assert k < k' < n ==> Descending(desc[k], desc[k']);
  }

  /** `tar_at_far`: the genuine fraction strictly above the impostor quantile. */
  function TarAtFar(genuine: seq<real>, impostor: seq<real>, far: real): (r: Option<real>)
    ensures r.Some? <==> genuine != [] && impostor != [] && 0.0 <= far <= 1.0
  {
    if genuine == [] then None
    else match FarThreshold(impostor, far)
      case None => None
      case Some(t) => Some(Rate(genuine, Above(t)))
  }

  lemma {:induction false} TarFalls(genuine: seq<real>, t: real, t': real)
    requires genuine != [] && t <= t'
    ensures Rate(genuine, Above(t')) <= Rate(genuine, Above(t))
  {
    RateWeaken(genuine, Above(t'), Above(t));
  }

  /** No threshold within the FAR bound accepts more genuine scores. */
  lemma {:induction false} TarAtFarIsBest(genuine: seq<real>, impostor: seq<real>, far: real, t: real)
    requires genuine != [] && impostor != [] && 0.0 <= far < 1.0
    requires Rate(impostor, Above(t)) <= far
    ensures Rate(genuine, Above(t)) <= TarAtFar(genuine, impostor, far).value
    ensures Rate(impostor, Above(FarThreshold(impostor, far).value)) <= far
  {
    FarThresholdIsLeast(impostor, far, t);
    FarThresholdIsLeast(impostor, far, FarThreshold(impostor, far).value);
    TarFalls(genuine, FarThreshold(impostor, far).value, t);
  }

  lemma {:induction false} TarAtFarIsMonotone(genuine: seq<real>, impostor: seq<real>, far: real, far': real)
    requires genuine != [] && impostor != [] && 0.0 <= far <= far' <= 1.0
    ensures TarAtFar(genuine, impostor, far).value <= TarAtFar(genuine, impostor, far').value
  {
    FarThresholdFalls(impostor, far, far');
    TarFalls(genuine, FarThreshold(impostor, far').value, FarThreshold(impostor, far).value);
  }

  /** At a FAR of 1 the threshold is one below the smallest impostor score. */
  lemma {:induction false} FullFarThreshold(impostor: seq<real>, g: real)
    requires impostor != []
    ensures g > FarThreshold(impostor, 1.0).value <==> exists i :: i in impostor && g > i - 1.0
  {
    var desc := SortBy(impostor, Descending);
    SortMembers(impostor, Descending);
    SortSorts(impostor, Descending);
    var low := desc[|desc| - 1];
    assert low in impostor;
    if i :| i in impostor && g > i - 1.0 {
      var k :| 0 <= k < |desc| && desc[k] == i;
      assert k < |desc| - 1 ==> Descending(desc[k], low);
    }
  }

  /** At a FAR of exactly 1 every threshold is within the bound, but the code stops one unit below
      the smallest impostor score: it is optimal exactly when no genuine score lies that far down. */
  lemma {:induction false} TarAtFullFar(genuine: seq<real>, impostor: seq<real>)
    requires genuine != [] && impostor != []
    ensures (forall t :: Rate(impostor, Above(t)) <= 1.0 ==>
                Rate(genuine, Above(t)) <= TarAtFar(genuine, impostor, 1.0).value)
       <==> forall g :: g in genuine ==> exists i :: i in impostor && g > i - 1.0
  {
    var t := FarThreshold(impostor, 1.0).value;
    forall g ensures Above(t)(g) <==> exists i :: i in impostor && g > i - 1.0 {
      FullFarThreshold(impostor, g);
    }
    RateBounds(genuine, Above(t));
    var least := Floor(genuine);
    RateBounds(genuine, Above(least));
    forall t ensures Rate(genuine, Above(t)) <= 1.0 && Rate(impostor, Above(t)) <= 1.0 {
      RateBounds(genuine, Above(t));
      RateBounds(impostor, Above(t));
    }
  }

  /** A number below every score. */
  ghost function Floor(s: seq<real>): (low: real)
    ensures forall x :: x in s ==> low < x
  {
    if s == [] then 0.0
    else
      assert s == [s[0]] + s[1..];
      var rest := Floor(s[1..]);
      if s[0] - 1.0 < rest then s[0] - 1.0 else rest
  }

  /** The optimality does fail at FAR 1 within the range of cosine scores: a lone genuine score of
      -0.9 is refused beside a lone impostor at 0.5, where the threshold -1 would accept it. */
  lemma {:induction false} FullFarCanMiss()
    ensures TarAtFar([-0.9], [0.5], 1.0) == Some(0.0)
    ensures Rate([-0.9], Above(-1.0)) == 1.0 && Rate([0.5], Above(-1.0)) <= 1.0
  {
    var desc := SortBy([0.5], Descending);
    assert desc == [0.5] by {
      assert [0.5][1..] == [];
      assert SortBy([0.5][1..], Descending) == [];
    }
    assert FarThreshold([0.5], 1.0) == Some(-0.5);
    assert Count([-0.9], Above(-0.5)) == 0;
  }

  datatype FarRow = FarRow(far: real, threshold: real, tar: real)

  /** `far_threshold_table`. */
  method FarThresholdTable(genuine: seq<real>, impostor: seq<real>, fars: seq<real>)
    returns (r: Option<seq<FarRow>>)
    ensures r.Some? <==> genuine != [] && forall f :: f in fars ==> FarThreshold(impostor, f).Some?
    ensures r.Some? ==> |r.value| == |fars| && forall i :: 0 <= i < |fars| ==>
              && FarThreshold(impostor, fars[i]) == Some(r.value[i].threshold)
              && TarAtFar(genuine, impostor, fars[i]) == Some(r.value[i].tar)
              && r.value[i].far == fars[i]
  {
    if genuine == [] {
      return None;
    }
    var rows: seq<FarRow> := [];
    for n := 0 to |fars|
      invariant |rows| == n
      invariant forall i :: 0 <= i < n ==>
                  && FarThreshold(impostor, fars[i]) == Some(rows[i].threshold)
                  && TarAtFar(genuine, impostor, fars[i]) == Some(rows[i].tar)
                  && rows[i].far == fars[i]
    {
      var t := FarThreshold(impostor, fars[n]);
      if t.None? {
        assert fars[n] in fars;
        return None;
      }
      rows := rows + [FarRow(fars[n], t.value, Rate(genuine, Above(t.value)))];
    }
    r := Some(rows);
  }

  // ---------- equal error rate ----------

  function Far(impostor: seq<real>, t: real): real
    requires impostor != []
  {
    Rate(impostor, AtLeast(t))
  }

  function Frr(genuine: seq<real>, t: real): real
    requires genuine != []
  {
    Rate(genuine, Below(t))
  }

  function Gap(genuine: seq<real>, impostor: seq<real>, t: real): real
    requires genuine != [] && impostor != []
  {
    var d := Far(impostor, t) - Frr(genuine, t);
    if d < 0.0 then -d else d
  }

  /** The gap at `t` is the smallest over all real thresholds. */
  ghost predicate Balanced(genuine: seq<real>, impostor: seq<real>, t: real)
    requires genuine != [] && impostor != []
  {
    forall t' :: Gap(genuine, impostor, t) <= Gap(genuine, impostor, t')
  }

  /** `v` is the mean error at the lowest balanced threshold. */
  ghost predicate IsEer(genuine: seq<real>, impostor: seq<real>, v: real)
    requires genuine != [] && impostor != []
  {
    exists t :: Balanced(genuine, impostor, t)
      && v == MeanError(genuine, impostor, t)
      && forall t' :: Balanced(genuine, impostor, t') ==>
            Far(impostor, t') <= Far(impostor, t) && Frr(genuine, t') >= Frr(genuine, t)
  }

  /** One below the lowest score, the midpoints, one above the highest. */
  function EerCandidates(union: seq<real>): (c: seq<real>)
    requires union != []
    ensures |c| == |union| + 1
  {
    seq(|union| + 1, i requires 0 <= i <= |union| =>
      if i == 0 then union[0] - 1.0
      else if i == |union| then union[|union| - 1] + 1.0
      else (union[i - 1] + union[i]) / 2.0)
  }

  /** Every real threshold splits the scores as one of the candidates does. */
  lemma {:induction false} CandidateFor(union: seq<real>, t: real) returns (i: nat)
    requires union != [] && StrictlySorted(union, Less)
    ensures i <= |union|
    ensures forall s :: s in union ==> (s >= t <==> s >= EerCandidates(union)[i])
  {
    i := 0;
    while i < |union| && union[i] < t
      invariant i <= |union|
      invariant forall k :: 0 <= k < i ==> union[k] < t
    {
      i := i + 1;
    }
    SplitAt(union, i);
    forall k | 0 <= k < |union| ensures union[k] >= t <==> k >= i {
      assert k > i ==> Less(union[i], union[k]);
    }
  }

  lemma {:induction false} SplitAt(union: seq<real>, i: nat)
    requires union != [] && StrictlySorted(union, Less) && i <= |union|
    ensures forall k :: 0 <= k < |union| ==> (union[k] >= EerCandidates(union)[i] <==> k >= i)
  {
    var c := EerCandidates(union)[i];
    assert 0 < i < |union| ==> Less(union[i - 1], union[i]);
    assert i > 0 ==> union[i - 1] < c;
    assert i < |union| ==> c <= union[i];
    forall k | 0 <= k < |union| ensures union[k] >= c <==> k >= i {
      assert k < i - 1 ==> Less(union[k], union[i - 1]);
      assert k > i ==> Less(union[i], union[k]);
    }
  }

  lemma {:induction false} SameSplitSameErrors(genuine: seq<real>, impostor: seq<real>, t: real, c: real)
    requires genuine != [] && impostor != []
    requires forall s :: s in genuine || s in impostor ==> (s >= t <==> s >= c)
    ensures Far(impostor, t) == Far(impostor, c) && Frr(genuine, t) == Frr(genuine, c)
  {
    RateWeaken(impostor, AtLeast(t), AtLeast(c));
    RateWeaken(impostor, AtLeast(c), AtLeast(t));
    RateWeaken(genuine, Below(t), Below(c));
    RateWeaken(genuine, Below(c), Below(t));
  }

  lemma {:induction false} ErrorsMonotone(genuine: seq<real>, impostor: seq<real>, t: real, t': real)
    requires genuine != [] && impostor != [] && t <= t'
    ensures Far(impostor, t') <= Far(impostor, t) && Frr(genuine, t) <= Frr(genuine, t')
  {
    RateWeaken(impostor, AtLeast(t'), AtLeast(t));
    RateWeaken(genuine, Below(t), Below(t'));
  }

  lemma {:induction false} CandidatesAscend(union: seq<real>, i: nat, j: nat)
    requires union != [] && StrictlySorted(union, Less) && i <= j <= |union|
    ensures EerCandidates(union)[i] <= EerCandidates(union)[j]
  {
    var c := EerCandidates(union);
    if i < j {
      assert c[i] <= union[i] by { SplitAt(union, i); }
      assert union[i] <= c[j] by { SplitAt(union, j); assert union[i] < c[j]; }
    }
  }

  /** No candidate has a smaller gap than the one at `best`, and the earlier ones have larger gaps. */
  ghost predicate FirstLeastGap(genuine: seq<real>, impostor: seq<real>, candidates: seq<real>, best: nat)
    requires genuine != [] && impostor != []
  {
    && best < |candidates|
    && (forall i :: 0 <= i < |candidates| ==>
          Gap(genuine, impostor, candidates[best]) <= Gap(genuine, impostor, candidates[i]))
    && (forall i :: 0 <= i < best ==>
          Gap(genuine, impostor, candidates[best]) < Gap(genuine, impostor, candidates[i]))
  }

  /** What `eer` reports for a threshold. */
  function MeanError(genuine: seq<real>, impostor: seq<real>, t: real): real
    requires genuine != [] && impostor != []
  {
    (Far(impostor, t) + Frr(genuine, t)) / 2.0
  }

  /** The first candidate with the smallest gap is optimal among all reals. */
  lemma {:induction false} FirstBestIsEer(genuine: seq<real>, impostor: seq<real>, union: seq<real>, best: nat)
    requires genuine != [] && impostor != []
    requires union != [] && StrictlySorted(union, Less)
    requires forall s :: s in union <==> s in genuine || s in impostor
    requires FirstLeastGap(genuine, impostor, EerCandidates(union), best)
    ensures IsEer(genuine, impostor, MeanError(genuine, impostor, EerCandidates(union)[best]))
  {
    var c := EerCandidates(union);
    var t := c[best];
    forall t' ensures Gap(genuine, impostor, t) <= Gap(genuine, impostor, t') {
      var i := CandidateFor(union, t');
      SameSplitSameErrors(genuine, impostor, t', c[i]);
    }
    assert Balanced(genuine, impostor, t);
    forall t' | Balanced(genuine, impostor, t')
      ensures Far(impostor, t') <= Far(impostor, t) && Frr(genuine, t') >= Frr(genuine, t)
    {
      var i := CandidateFor(union, t');
      SameSplitSameErrors(genuine, impostor, t', c[i]);
      assert Gap(genuine, impostor, t') <= Gap(genuine, impostor, t);
      assert i >= best;
      CandidatesAscend(union, best, i);
      ErrorsMonotone(genuine, impostor, t, c[i]);
    }
  }

  /** The loop of `eer`: the first candidate whose gap no other undercuts. */
  method BestCandidate(genuine: seq<real>, impostor: seq<real>, candidates: seq<real>)
    returns (bestEer: real)
    requires genuine != [] && impostor != [] && candidates != []
    ensures exists best: nat :: FirstLeastGap(genuine, impostor, candidates, best)
              && bestEer == MeanError(genuine, impostor, candidates[best])
  {
    var bestGap: Option<real> := None;
    ghost var best := 0;
    bestEer := 0.0;
    for n := 0 to |candidates|
      invariant n == 0 <==> bestGap.None?
      invariant n > 0 ==>
        && 0 <= best < n && bestGap.value == Gap(genuine, impostor, candidates[best])
        && bestEer == MeanError(genuine, impostor, candidates[best])
        && (forall i :: 0 <= i < n ==> bestGap.value <= Gap(genuine, impostor, candidates[i]))
        && (forall i :: 0 <= i < best ==> bestGap.value < Gap(genuine, impostor, candidates[i]))
    {
      var far := Far(impostor, candidates[n]);
      var frr := Frr(genuine, candidates[n]);
      var gap := if far - frr < 0.0 then frr - far else far - frr;
      assert gap == Gap(genuine, impostor, candidates[n]);
      if bestGap.None? || gap < bestGap.value {
        bestGap := Some(gap);
        bestEer, best := (far + frr) / 2.0, n;
      }
    }
    assert FirstLeastGap(genuine, impostor, candidates, best);
  }

  /** `eer`. */
  method Eer(genuine: seq<real>, impostor: seq<real>) returns (r: Option<real>)
    ensures r.None? <==> genuine == [] || impostor == []
    ensures r.Some? ==> IsEer(genuine, impostor, r.value)
  {
    if genuine == [] || impostor == [] {
      return None;
    }
    var union := SortedSet(genuine + impostor, Less);
    SortedSetSorts(genuine + impostor, Less);
    assert (genuine + impostor)[0] in union;
    var candidates := EerCandidates(union);
    var bestEer := BestCandidate(genuine, impostor, candidates);
    ghost var best: nat :| FirstLeastGap(genuine, impostor, candidates, best)
                             && bestEer == MeanError(genuine, impostor, candidates[best]);
    FirstBestIsEer(genuine, impostor, union, best);
    r := Some(bestEer);
  }

  lemma {:induction false} EerBounds(genuine: seq<real>, impostor: seq<real>, v: real)
    requires genuine != [] && impostor != [] && IsEer(genuine, impostor, v)
    ensures 0.0 <= v <= 1.0
  {
    var t :| v == (Far(impostor, t) + Frr(genuine, t)) / 2.0;
    RateBounds(impostor, AtLeast(t));
    RateBounds(genuine, Below(t));
  }

  /** The value is determined by the scores. */
  lemma {:induction false} EerIsUnique(genuine: seq<real>, impostor: seq<real>, v: real, v': real)
    requires genuine != [] && impostor != []
    requires IsEer(genuine, impostor, v) && IsEer(genuine, impostor, v')
    ensures v == v'
  {
  }

  /** The equal error rate is 0 exactly when every genuine score exceeds every impostor score. */
  lemma {:induction false} EerZero(genuine: seq<real>, impostor: seq<real>, v: real)
    requires genuine != [] && impostor != [] && IsEer(genuine, impostor, v)
    ensures v == 0.0 <==> forall g, i :: g in genuine && i in impostor ==> g > i
  {
    var t :| Balanced(genuine, impostor, t) && v == (Far(impostor, t) + Frr(genuine, t)) / 2.0;
    RateBounds(impostor, AtLeast(t));
    RateBounds(genuine, Below(t));
    if v == 0.0 {
      forall g, i | g in genuine && i in impostor ensures g > i {
        assert !Below(t)(g) && !AtLeast(t)(i);
      }
    }
    if forall g, i :: g in genuine && i in impostor ==> g > i {
      var least := Least(genuine);
      assert Far(impostor, least) == 0.0 by { RateBounds(impostor, AtLeast(least)); }
      assert Frr(genuine, least) == 0.0 by { RateBounds(genuine, Below(least)); }
      assert Gap(genuine, impostor, t) <= Gap(genuine, impostor, least);
      assert Far(impostor, t) == Frr(genuine, t);
    }
  }

  ghost function Least(s: seq<real>): (low: real)
    requires s != []
    ensures low in s && forall x :: x in s ==> low <= x
  {
    assert s == [s[0]] + s[1..];
    if |s| == 1 then s[0]
    else var rest := Least(s[1..]); if s[0] <= rest then s[0] else rest
  }

  /** Identical score lists have an equal error rate of one half. */
  lemma {:induction false} EerOfIdentical(scores: seq<real>, v: real)
    requires scores != [] && IsEer(scores, scores, v)
    ensures v == 0.5
  {
    var t :| v == (Far(scores, t) + Frr(scores, t)) / 2.0;
    RatesComplement(scores, t);
  }

  lemma {:induction false} RatesComplement(s: seq<real>, t: real)
    requires s != []
    ensures Far(s, t) + Frr(s, t) == 1.0
  {
    CountComplement(s, t);
    Shares(Count(s, AtLeast(t)) as real, Count(s, Below(t)) as real, |s| as real);
  }

  lemma {:induction false} CountComplement(s: seq<real>, t: real)
    ensures Count(s, AtLeast(t)) + Count(s, Below(t)) == |s|
  {
    if s != [] {
      CountComplement(s[1..], t);
    }
  }

  // ---------- fold accuracy ----------

  function Correct(t: real): ((real, int)) -> bool {
    (p: (real, int)) => (p.0 > t) == (p.1 == 1)
  }

  /** `fold_accuracy` of a non-empty fold. */
  function FoldAccuracy(pairs: seq<(real, int)>, t: real): real
    requires pairs != []
  {
    Rate(pairs, Correct(t))
  }

  function Scores(pairs: seq<(real, int)>): (r: seq<real>)
    ensures |r| == |pairs| && forall i :: 0 <= i < |pairs| ==> r[i] == pairs[i].0
  {
    seq(|pairs|, i requires 0 <= i < |pairs| => pairs[i].0)
  }

  /** `best` is the accuracy of some threshold, and no real threshold has a higher one. */
  ghost predicate IsBestAccuracy(pairs: seq<(real, int)>, best: real)
    requires pairs != []
  {
    && (exists t :: best == FoldAccuracy(pairs, t))
    && (forall t :: FoldAccuracy(pairs, t) <= best)
  }

  /** The observed scores and one value below them are enough: any threshold classifies the fold
      as the largest observed score not above it. */
  lemma {:induction false} ThresholdFor(pairs: seq<(real, int)>, observed: seq<real>, t: real) returns (c: real)
    requires pairs != [] && observed != [] && StrictlySorted(observed, Less)
    requires forall s :: s in observed <==> s in Scores(pairs)
    ensures c == observed[0] - 1.0 || c in observed
    ensures FoldAccuracy(pairs, t) == FoldAccuracy(pairs, c)
  {
    var i := 0;
    while i < |observed| && observed[i] <= t
      invariant i <= |observed|
      invariant forall k :: 0 <= k < i ==> observed[k] <= t
    {
      i := i + 1;
    }
    c := if i == 0 then observed[0] - 1.0 else observed[i - 1];
    forall k | 0 <= k < |observed| ensures observed[k] > t <==> observed[k] > c {
      assert k > i ==> Less(observed[i], observed[k]);
      assert k > 0 ==> Less(observed[0], observed[k]);
      assert k < i - 1 ==> Less(observed[k], observed[i - 1]);
      assert i > 0 && k > i - 1 ==> Less(observed[i - 1], observed[k]);
    }
    forall p | p in pairs ensures Correct(t)(p) == Correct(c)(p) {
      var k :| 0 <= k < |pairs| && pairs[k] == p;
      assert Scores(pairs)[k] in observed;
    }
    RateWeaken(pairs, Correct(t), Correct(c));
    RateWeaken(pairs, Correct(c), Correct(t));
  }

  /** Accuracy counts the pairs that score above the threshold exactly when they are genuine. */
  lemma {:induction false} AccuracyMeans(pairs: seq<(real, int)>, t: real)
    requires pairs != []
    ensures FoldAccuracy(pairs, t) * |pairs| as real
         == |(set i | 0 <= i < |pairs| && (pairs[i].0 > t <==> pairs[i].1 == 1))| as real
  {
    RateIsShare(pairs, Correct(t), set i | 0 <= i < |pairs| && (pairs[i].0 > t <==> pairs[i].1 == 1));
  }

  /** The genuine pairs are those that score above the threshold. */
  ghost predicate Separates(pairs: seq<(real, int)>, t: real) {
    forall p :: p in pairs ==> (p.1 == 1 <==> p.0 > t)
  }

  /** A fold reports 1 exactly when some threshold separates its genuine pairs from the others. */
  lemma {:induction false} PerfectFold(pairs: seq<(real, int)>)
    requires pairs != []
    ensures IsBestAccuracy(pairs, 1.0) <==> exists t :: Separates(pairs, t)
  {
    forall t ensures FoldAccuracy(pairs, t) <= 1.0 && (FoldAccuracy(pairs, t) == 1.0 <==> Separates(pairs, t)) {
      RateBounds(pairs, Correct(t));
    }
    if t :| Separates(pairs, t) {
      assert FoldAccuracy(pairs, t) == 1.0;
    }
    if t :| 1.0 == FoldAccuracy(pairs, t) {
      assert Separates(pairs, t);
    }
  }

  function Genuine(): ((real, int)) -> bool { (p: (real, int)) => p.1 == 1 }

  function Impostor(): ((real, int)) -> bool { (p: (real, int)) => p.1 != 1 }

  /** A fold reports at least the share of its larger class, and so at least one half: accepting all
      pairs reaches the share of the genuine ones, refusing all the rest. */
  lemma {:induction false} BestBeatsMajority(pairs: seq<(real, int)>, best: real)
    requires pairs != [] && IsBestAccuracy(pairs, best)
    ensures best >= Rate(pairs, Genuine()) && best >= Rate(pairs, Impostor()) && best >= 0.5
  {
    var low, high := Bounds(pairs);
    RateWeaken(pairs, Genuine(), Correct(low));
    RateWeaken(pairs, Impostor(), Correct(high));
    assert FoldAccuracy(pairs, low) <= best && FoldAccuracy(pairs, high) <= best;
    SharesAddUp(pairs);
  }

  lemma {:induction false} Bounds(pairs: seq<(real, int)>) returns (low: real, high: real)
    ensures forall p :: p in pairs ==> low < p.0 <= high
  {
    low, high := 0.0, 0.0;
    if pairs != [] {
      var l, h := Bounds(pairs[1..]);
      assert pairs == [pairs[0]] + pairs[1..];
      low := if pairs[0].0 <= l then pairs[0].0 - 1.0 else l;
      high := if pairs[0].0 > h then pairs[0].0 else h;
    }
  }

  lemma {:induction false} SharesAddUp(pairs: seq<(real, int)>)
    requires pairs != []
    ensures Rate(pairs, Genuine()) + Rate(pairs, Impostor()) == 1.0
  {
    ClassesAddUp(pairs);
    Shares(Count(pairs, Genuine()) as real, Count(pairs, Impostor()) as real, |pairs| as real);
  }

  lemma {:induction false} ClassesAddUp(pairs: seq<(real, int)>)
    ensures Count(pairs, Genuine()) + Count(pairs, Impostor()) == |pairs|
  {
    if pairs != [] {
      ClassesAddUp(pairs[1..]);
    }
  }

  /** One fold of `ten_fold`. */
  method BestFoldAccuracy(pairs: seq<(real, int)>) returns (best: real)
    requires pairs != []
    ensures IsBestAccuracy(pairs, best)
  {
    var candidates := SortedSet(Scores(pairs), Less);
    SortedSetSorts(Scores(pairs), Less);
    assert Scores(pairs)[0] in candidates;
    best := FoldAccuracy(pairs, candidates[0] - 1.0);
    ghost var at := candidates[0] - 1.0;
    for n := 0 to |candidates|
      invariant best == FoldAccuracy(pairs, at)
      invariant FoldAccuracy(pairs, candidates[0] - 1.0) <= best
      invariant forall i :: 0 <= i < n ==> FoldAccuracy(pairs, candidates[i]) <= best
    {
      var acc := FoldAccuracy(pairs, candidates[n]);
      if acc > best {
        best, at := acc, candidates[n];
      }
    }
    forall t ensures FoldAccuracy(pairs, t) <= best {
      var c := ThresholdFor(pairs, candidates, t);
    }
  }

  // ---------- ten-fold accuracy ----------

  predicate LessInt(a: int, b: int) { a < b }

  /** The pairs of one fold, in input order. */
  function FoldPairs(scores: seq<real>, labels: seq<int>, folds: seq<int>, f: int): seq<(real, int)>
    requires |scores| == |labels| == |folds|
  {
    if scores == [] then []
    else
      var n := |scores| - 1;
      FoldPairs(scores[..n], labels[..n], folds[..n], f)
      + (if folds[n] == f then [(scores[n], labels[n])] else [])
  }

  lemma {:induction false} FoldPairsStep(scores: seq<real>, labels: seq<int>, folds: seq<int>, n: nat, f: int)
    requires |scores| == |labels| == |folds| && n < |scores|
    ensures FoldPairs(scores[..n + 1], labels[..n + 1], folds[..n + 1], f)
         == FoldPairs(scores[..n], labels[..n], folds[..n], f)
            + (if folds[n] == f then [(scores[n], labels[n])] else [])
  {
    assert scores[..n + 1][..n] == scores[..n];
    assert labels[..n + 1][..n] == labels[..n];
    assert folds[..n + 1][..n] == folds[..n];
  }

  lemma {:induction false} FoldPairsNonEmpty(scores: seq<real>, labels: seq<int>, folds: seq<int>, f: int)
    requires |scores| == |labels| == |folds|
    ensures FoldPairs(scores, labels, folds, f) != [] <==> f in folds
  {
    if scores != [] {
      var n := |scores| - 1;
      assert folds == folds[..n] + [folds[n]];
      FoldPairsNonEmpty(scores[..n], labels[..n], folds[..n], f);
    }
  }

  function Group(byFold: map<int, seq<(real, int)>>, f: int): seq<(real, int)> {
    if f in byFold then byFold[f] else []
  }

  ghost predicate Grouped(byFold: map<int, seq<(real, int)>>, scores: seq<real>, labels: seq<int>, folds: seq<int>)
    requires |scores| == |labels| == |folds|
  {
    forall f :: Group(byFold, f) == FoldPairs(scores, labels, folds, f) && (f in byFold ==> byFold[f] != [])
  }

  lemma {:induction false} GroupOne(byFold: map<int, seq<(real, int)>>, scores: seq<real>, labels: seq<int>,
                                    folds: seq<int>, n: nat)
    requires |scores| == |labels| == |folds| && n < |scores|
    requires Grouped(byFold, scores[..n], labels[..n], folds[..n])
    ensures Grouped(byFold[folds[n] := Group(byFold, folds[n]) + [(scores[n], labels[n])]],
                    scores[..n + 1], labels[..n + 1], folds[..n + 1])
  {
    var after := byFold[folds[n] := Group(byFold, folds[n]) + [(scores[n], labels[n])]];
    forall f ensures Group(after, f) == FoldPairs(scores[..n + 1], labels[..n + 1], folds[..n + 1], f)
                     && (f in after ==> after[f] != []) {
      FoldPairsStep(scores, labels, folds, n, f);
      assert Group(byFold, f) == FoldPairs(scores[..n], labels[..n], folds[..n], f);
    }
  }

  /** Grouping, `by_fold.setdefault(fold, []).append(...)`. */
  method GroupByFold(scores: seq<real>, labels: seq<int>, folds: seq<int>)
    returns (byFold: map<int, seq<(real, int)>>)
    requires |scores| == |labels| == |folds|
    ensures forall f :: f in folds ==>
              f in byFold && byFold[f] != [] && byFold[f] == FoldPairs(scores, labels, folds, f)
  {
    byFold := map[];
    for n := 0 to |scores|
      invariant Grouped(byFold, scores[..n], labels[..n], folds[..n])
    {
      GroupOne(byFold, scores, labels, folds, n);
      byFold := byFold[folds[n] := Group(byFold, folds[n]) + [(scores[n], labels[n])]];
    }
    assert scores[..|scores|] == scores && labels[..|scores|] == labels && folds[..|scores|] == folds;
    forall f | f in folds
      ensures f in byFold && byFold[f] != [] && byFold[f] == FoldPairs(scores, labels, folds, f)
    {
      FoldPairsNonEmpty(scores, labels, folds, f);
      assert Group(byFold, f) == FoldPairs(scores, labels, folds, f);
    }
  }

  function Sum(s: seq<real>): real {
    if s == [] then 0.0 else s[0] + Sum(s[1..])
  }

  /** The laws that determine a sum. */
  lemma {:induction false} SumLaws(s: seq<real>, t: seq<real>, x: real)
    ensures Sum([]) == 0.0 && Sum([x]) == x && Sum(s + t) == Sum(s) + Sum(t)
  {
    assert [x][1..] == [];
    if s == [] {
      assert s + t == t;
    } else {
      assert (s + t)[1..] == s[1..] + t;
      SumLaws(s[1..], t, x);
    }
  }

  function Deviations(s: seq<real>, mean: real): (r: seq<real>)
    ensures |r| == |s| && forall i :: 0 <= i < |s| ==> r[i] == s[i] - mean
  {
    seq(|s|, i requires 0 <= i < |s| => s[i] - mean)
  }

  lemma {:induction false} SumOfDeviations(s: seq<real>, c: real)
    ensures Sum(Deviations(s, c)) == Sum(s) - c * |s| as real
  {
    if s != [] {
      SumOfDeviations(s[1..], c);
      assert Deviations(s, c)[1..] == Deviations(s[1..], c);
    }
  }

  /** The reported mean is the value around which the folds balance. */
  lemma {:induction false} MeanIsCentre(per: seq<real>, mean: real)
    requires per != []
    ensures mean == Sum(per) / |per| as real <==> Sum(Deviations(per, mean)) == 0.0
  {
    SumOfDeviations(per, mean);
    QuotientIs(Sum(per), |per| as real, mean);
  }

  lemma {:induction false} QuotientIs(x: real, n: real, q: real)
    requires n > 0.0
    ensures q == x / n <==> x - q * n == 0.0
  {
    assert x / n * n == x;
    if x - q * n == 0.0 {
      assert (q - x / n) * n == 0.0;
    }
  }

  lemma {:induction false} SumBounds(s: seq<real>)
    requires forall i :: 0 <= i < |s| ==> 0.0 <= s[i] <= 1.0
    ensures 0.0 <= Sum(s) <= |s| as real
  {
    if s != [] {
      SumBounds(s[1..]);
    }
  }

  datatype TenFoldResult = TenFoldResult(mean: real, variance: real, perFold: seq<real>)

  /** `ten_fold`, with the variance in place of its square root. */
  method TenFold(scores: seq<real>, labels: seq<int>, folds: seq<int>)
    returns (r: Option<TenFoldResult>)
    ensures r.Some? <==> |scores| == |labels| == |folds| && scores != []
    ensures r.Some? ==>
      var ids := SortedSet(folds, LessInt);
      var per := r.value.perFold;
      && |per| == |ids| > 0
      && (forall i :: 0 <= i < |ids| ==>
            var pairs := FoldPairs(scores, labels, folds, ids[i]);
            pairs != [] && IsBestAccuracy(pairs, per[i]))
      && r.value.mean == Sum(per) / |per| as real
      && 0.0 <= r.value.mean <= 1.0
      && r.value.variance == Sum(SquaredDeviations(per, r.value.mean)) / |per| as real
  {
    if !(|scores| == |labels| == |folds|) || scores == [] {
      return None;
    }
    var byFold := GroupByFold(scores, labels, folds);
    var ids := SortedSet(folds, LessInt);
    SortedSetSorts(folds, LessInt);
    assert folds[0] in ids;
    var perFold: seq<real> := [];
    for n := 0 to |ids|
      invariant |perFold| == n
      invariant forall i :: 0 <= i < n ==>
        var pairs := FoldPairs(scores, labels, folds, ids[i]);
        pairs != [] && IsBestAccuracy(pairs, perFold[i]) && 0.0 <= perFold[i] <= 1.0
    {
      assert ids[n] in folds;
      var best := BestFoldAccuracy(byFold[ids[n]]);
      BestAccuracyBounds(byFold[ids[n]], best);
      perFold := perFold + [best];
    }
    var mean := Sum(perFold) / |perFold| as real;
    SumBounds(perFold);
    RatioBounds(Sum(perFold), |perFold| as real);
    r := Some(TenFoldResult(mean, Sum(SquaredDeviations(perFold, mean)) / |perFold| as real, perFold));
  }

  lemma {:induction false} BestAccuracyBounds(pairs: seq<(real, int)>, best: real)
    requires pairs != [] && IsBestAccuracy(pairs, best)
    ensures 0.0 <= best <= 1.0
  {
    var t :| best == FoldAccuracy(pairs, t);
    RateBounds(pairs, Correct(t));
  }

  function SquaredDeviations(s: seq<real>, mean: real): (r: seq<real>)
    ensures |r| == |s| && forall i :: 0 <= i < |s| ==> r[i] == Deviations(s, mean)[i] * Deviations(s, mean)[i]
  {
    seq(|s|, i requires 0 <= i < |s| => (s[i] - mean) * (s[i] - mean))
  }

  // ---------- grant calibration ----------

  datatype GrantRow = GrantRow(threshold: real, far: real, tar: real)

  function GrantRowAt(genuine: seq<real>, impostor: seq<real>, t: real): GrantRow
    requires genuine != [] && impostor != []
  {
    GrantRow(t, Rate(impostor, Above(t)), Rate(genuine, Above(t)))
  }

  /** The key (tar, -threshold) of `a` is larger than that of `b`. */
  predicate Better(a: GrantRow, b: GrantRow) {
    a.tar > b.tar || (a.tar == b.tar && -a.threshold > -b.threshold)
  }

  /** Python's `max` over the rows within the FAR cap. */
  method BestRow(table: seq<GrantRow>, cap: real) returns (best: Option<GrantRow>)
    ensures best.None? <==> forall row :: row in table ==> row.far > cap
    ensures best.Some? ==> best.value in table && best.value.far <= cap
    ensures best.Some? ==>
              forall row :: row in table && row.far <= cap ==> !Better(row, best.value)
  {
    best := None;
    for n := 0 to |table|
      invariant best.None? <==> forall row :: row in table[..n] ==> row.far > cap
      invariant best.Some? ==> best.value in table && best.value.far <= cap
      invariant best.Some? ==>
        forall row :: row in table[..n] && row.far <= cap ==> !Better(row, best.value)
    {
      assert table[..n + 1] == table[..n] + [table[n]];
      if table[n].far <= cap && (best.None? || Better(table[n], best.value)) {
        best := Some(table[n]);
      }
    }
    assert table[..|table|] == table;
  }

  datatype Calibration = Calibration(grant: Option<GrantRow>, table: seq<GrantRow>)

  /** `grant_calibration`: choosing the best TAR, then the lowest threshold, is choosing the lowest
      candidate threshold that meets the FAR cap; no grant means that none does. None is the
      division by zero that a row over an empty list raises. */
  method GrantCalibration(genuine: seq<real>, impostor: seq<real>, thresholds: seq<real>, cap: real)
    returns (r: Option<Calibration>)
    ensures r.None? <==> thresholds != [] && (genuine == [] || impostor == [])
    ensures thresholds == [] ==> r == Some(Calibration(None, []))
    ensures r.Some? && thresholds != [] ==>
      var grant := r.value.grant;
      && |r.value.table| == |thresholds|
      && (forall i :: 0 <= i < |thresholds| ==>
            var t := thresholds[i];
            r.value.table[i] == GrantRow(t, Rate(impostor, Above(t)), Rate(genuine, Above(t))))
      && (grant.None? <==> forall t :: t in thresholds ==> Rate(impostor, Above(t)) > cap)
      && (grant.Some? ==>
            && grant.value in r.value.table
            && grant.value.threshold in thresholds && grant.value.far <= cap
            && forall t :: t in thresholds && Rate(impostor, Above(t)) <= cap ==>
                 grant.value.threshold <= t)
  {
    if thresholds == [] {
      return Some(Calibration(None, []));
    }
    if genuine == [] || impostor == [] {
      return None;
    }
    var table := [];
    for n := 0 to |thresholds|
      invariant |table| == n
      invariant forall i :: 0 <= i < n ==> table[i] == GrantRowAt(genuine, impostor, thresholds[i])
    {
      table := table + [GrantRowAt(genuine, impostor, thresholds[n])];
    }
    var grant := BestRow(table, cap);
    LowestWithinCap(genuine, impostor, thresholds, table, cap, grant);
    r := Some(Calibration(grant, table));
  }

  lemma {:induction false} TarOfLower(genuine: seq<real>, impostor: seq<real>, t: real, t': real)
    requires genuine != [] && impostor != []
    ensures t < t' ==> GrantRowAt(genuine, impostor, t').tar <= GrantRowAt(genuine, impostor, t).tar
  {
    if t < t' {
      TarFalls(genuine, t, t');
    }
  }

  lemma {:induction false} LowerUnlessBetter(a: GrantRow, b: GrantRow)
    requires !Better(a, b) && (a.threshold < b.threshold ==> b.tar <= a.tar)
    ensures b.threshold <= a.threshold
  {
  }

  lemma {:induction false} LowestWithinCap(genuine: seq<real>, impostor: seq<real>, thresholds: seq<real>,
                        table: seq<GrantRow>, cap: real, grant: Option<GrantRow>)
    requires genuine != [] && impostor != [] && |table| == |thresholds|
    requires forall i :: 0 <= i < |thresholds| ==>
               table[i] == GrantRowAt(genuine, impostor, thresholds[i])
    requires grant.None? <==> forall row :: row in table ==> row.far > cap
    requires grant.Some? ==> grant.value in table && grant.value.far <= cap
    requires grant.Some? ==>
               forall row :: row in table && row.far <= cap ==> !Better(row, grant.value)
    ensures grant.None? <==> forall t :: t in thresholds ==> Rate(impostor, Above(t)) > cap
    ensures grant.Some? ==>
      && grant.value == GrantRowAt(genuine, impostor, grant.value.threshold)
      && grant.value.threshold in thresholds
      && forall t :: t in thresholds && Rate(impostor, Above(t)) <= cap ==>
           grant.value.threshold <= t
  {
    forall i | 0 <= i < |thresholds| ensures table[i] in table && thresholds[i] in thresholds {
    }
    if grant.Some? {
      var k :| 0 <= k < |table| && table[k] == grant.value;
      forall t | t in thresholds && Rate(impostor, Above(t)) <= cap
        ensures grant.value.threshold <= t
      {
        var i :| 0 <= i < |thresholds| && thresholds[i] == t;
        assert table[i] in table;
        TarOfLower(genuine, impostor, t, grant.value.threshold);
        LowerUnlessBetter(table[i], grant.value);
      }
    }
  }
}
