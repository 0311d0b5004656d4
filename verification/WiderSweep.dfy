/** The threshold sweep of benchmarks/bench_detection_wider.py: match once, then cut the ranked
    list at each threshold. */
module WiderSweep {
  import opened Reals
  import opened Sequences
  import opened WiderMatch
  import opened WiderAp

  function ScoreAtLeast(thr: real): Pred -> bool { (p: Pred) => p.score >= thr }

  function PairAtLeast(thr: real): Scored -> bool { (p: Scored) => p.score >= thr }

  /** The image as a detector run at score threshold `thr` would have reported it. */
  function CutImage(im: Image, thr: real): Image {
    Image(Filter(im.preds, ScoreAtLeast(thr)), im.gt)
  }

  function CutImages(images: seq<Image>, thr: real): (r: seq<Image>)
    ensures |r| == |images| && forall i :: 0 <= i < |r| ==> r[i] == CutImage(images[i], thr)
  {
    seq(|images|, i requires 0 <= i < |images| => CutImage(images[i], thr))
  }

  // ---------- cutting after matching is exact ----------

  lemma {:induction false} RankedCut(preds: seq<Pred>, thr: real)
    ensures |Ranked(preds)| == |preds|
    ensures Ranked(Filter(preds, ScoreAtLeast(thr)))
         == Ranked(preds)[..Count(Ranked(preds), ScoreAtLeast(thr))]
    ensures forall i :: 0 <= i < |preds| ==>
              (Ranked(preds)[i].score >= thr <==> i < Count(Ranked(preds), ScoreAtLeast(thr)))
  {
    RankedLength(preds);
    SortSorts(preds, HigherScore);
    FilterSort(preds, HigherScore, ScoreAtLeast(thr));
    var order := Ranked(preds);
    forall i, j | 0 <= i < j < |order| && ScoreAtLeast(thr)(order[j]) ensures ScoreAtLeast(thr)(order[i]) {
      assert HigherScore(order[i], order[j]);
    }
    FilterCutsPrefix(order, ScoreAtLeast(thr));
  }

  lemma {:induction false} CutImageExact(im: Image, thr: real)
    ensures Filter(ImageScored(im), PairAtLeast(thr)) == ImageScored(CutImage(im, thr))
  {
    var order := Ranked(im.preds);
    var n := Count(order, ScoreAtLeast(thr));
    RankedCut(im.preds, thr);
    var a := Assign(order, im.gt, {}, IOU_THR);
    AssignPrefix(order[..n], order[n..], im.gt, {}, IOU_THR);
    assert order == order[..n] + order[n..];
    assert ImageScored(CutImage(im, thr)) == Zip(order[..n], Flags(a[..n]));
    var s := ImageScored(im);
    assert s == Zip(order, Flags(a));
    FilterCutsPrefix(s, PairAtLeast(thr));
    CutLength(s, PairAtLeast(thr), n);
  }

  lemma {:induction false} CutLength<T>(s: seq<T>, p: T -> bool, n: nat)
    requires n <= |s|
    requires forall i :: 0 <= i < |s| ==> (p(s[i]) <==> i < n)
    ensures Count(s, p) == n
  {
    assert s == s[..n] + s[n..];
    CountAppend(s[..n], s[n..], p);
    CountFull(s[..n], p);
    CountZero(s[n..], p);
  }

  lemma {:induction false} CutStep(images: seq<Image>, thr: real)
    requires images != []
    ensures var n := |images| - 1;
            CutImages(images, thr)[..n] == CutImages(images[..n], thr)
            && CutImages(images, thr)[n] == CutImage(images[n], thr)
  {
  }

  lemma {:induction false} CutKeepsBoxes(images: seq<Image>, thr: real)
    ensures TotalValid(CutImages(images, thr)) == TotalValid(images)
  {
    if images != [] {
      CutStep(images, thr);
      CutKeepsBoxes(images[..|images| - 1], thr);
    }
  }

  lemma {:induction false} CutAllExact(images: seq<Image>, thr: real)
    ensures Filter(AllScored(images), PairAtLeast(thr)) == AllScored(CutImages(images, thr))
  {
    if images != [] {
      var n := |images| - 1;
      var s, last := AllScored(images[..n]), ImageScored(images[n]);
      assert AllScored(images) == s + last;
      FilterAppend(s, last, PairAtLeast(thr));
      CutImageExact(images[n], thr);
      CutAllExact(images[..n], thr);
      CutStep(images, thr);
    }
  }

  /** Cutting the globally ranked list at `thr` gives the list that detecting at `thr`, matching and
      ranking would have given. */
  lemma {:induction false} SweepIsExact(images: seq<Image>, thr: real)
    ensures Filter(RankedPairs(AllScored(images)), PairAtLeast(thr))
         == RankedPairs(AllScored(CutImages(images, thr)))
  {
    CutAllExact(images, thr);
    FilterSort(AllScored(images), HigherPair, PairAtLeast(thr));
  }

  // ---------- recall at a false-positive budget ----------

  /** The fraction of the boxes found in the first `n` ranks. */
  function RecallAt(flags: seq<bool>, n: nat, nGt: nat): real
    requires n <= |flags| && nGt > 0
  {
    Hits(flags[..n]) as real / nGt as real
  }

  predicate WithinBudget(flags: seq<bool>, n: nat, images: nat, fppi: real)
    requires n <= |flags| && images > 0
  {
    (n - Hits(flags[..n])) as real / images as real <= fppi
  }

  /** `r` is the best recall of any non-empty prefix within the budget, 0 when there is none. */
  ghost predicate IsBudgetRecall(flags: seq<bool>, nGt: nat, images: nat, fppi: real, r: real)
    requires images > 0
  {
    if nGt == 0 then r == 0.0
    else
      && (forall n :: 0 < n <= |flags| && WithinBudget(flags, n, images, fppi) ==>
            RecallAt(flags, n, nGt) <= r)
      && (if exists n :: 0 < n <= |flags| && WithinBudget(flags, n, images, fppi)
          then exists n :: 0 < n <= |flags| && WithinBudget(flags, n, images, fppi)
                           && r == RecallAt(flags, n, nGt)
          else r == 0.0)
  }

  lemma {:induction false} HitsMonotone(flags: seq<bool>, m: nat, n: nat)
    requires m <= n <= |flags|
    ensures Hits(flags[..m]) <= Hits(flags[..n]) <= Hits(flags[..m]) + (n - m)
    decreases n - m
  {
    if m < n {
      HitsStep(flags, n - 1);
      HitsMonotone(flags, m, n - 1);
    }
  }

  lemma {:induction false} RecallMonotone(flags: seq<bool>, m: nat, n: nat, nGt: nat)
    requires m <= n <= |flags| && nGt > 0
    ensures RecallAt(flags, m, nGt) <= RecallAt(flags, n, nGt)
  {
    HitsMonotone(flags, m, n);
    DivOrder(Hits(flags[..m]) as real, Hits(flags[..n]) as real, nGt as real);
  }

  /** The accumulation loop of `run_sweep`. */
  method BudgetRecall(flags: seq<bool>, nGt: nat, images: nat, fppi: real) returns (recall: real)
    requires images > 0
    ensures IsBudgetRecall(flags, nGt, images, fppi, recall)
  {
    recall := 0.0;
    var cumTp, cumFp := 0, 0;
    ghost var last := 0;
    for n := 0 to |flags|
      invariant cumTp == Hits(flags[..n]) && cumTp + cumFp == n
      invariant last <= n
      invariant nGt == 0 || last == 0 ==> recall == 0.0
      invariant last > 0 ==> WithinBudget(flags, last, images, fppi)
      invariant nGt > 0 && last > 0 ==> recall == RecallAt(flags, last, nGt)
      invariant nGt > 0 ==> forall m :: last < m <= n ==> !WithinBudget(flags, m, images, fppi)
    {
      HitsStep(flags, n);
      if flags[n] {
        cumTp := cumTp + 1;
      } else {
        cumFp := cumFp + 1;
      }
      if nGt > 0 && cumFp as real / images as real <= fppi {
        recall := cumTp as real / nGt as real;
        last := n + 1;
      }
    }
    if nGt > 0 {
      forall m | 0 < m <= |flags| && WithinBudget(flags, m, images, fppi)
        ensures RecallAt(flags, m, nGt) <= recall
      {
        RecallMonotone(flags, m, last, nGt);
      }
    }
  }

  // ---------- the sweep ----------

  datatype Row = Row(threshold: real, ap: real, recall: real)

  function CutFlags(images: seq<Image>, thr: real): seq<bool> {
    FlagsOf(RankedPairs(AllScored(CutImages(images, thr))))
  }

  /** The FPPI budget: false positives per image at the operating point. */
  method OperatingFppi(images: seq<Image>, opScore: real) returns (fppi: real)
    requires images != []
    ensures fppi == EvaluationOf(CutImages(images, opScore)).fp as real / |images| as real
  {
    var pairs := RankedPairs(AllScored(images));
    SweepIsExact(images, opScore);
    var cut := Filter(pairs, PairAtLeast(opScore));
    RankedPairsHits(AllScored(CutImages(images, opScore)));
    FlagsCount(cut);
    SortMembers(AllScored(CutImages(images, opScore)), HigherPair);
    fppi := (|cut| - Count(cut, TruePositive())) as real / |images| as real;
  }

  /** The pairs of one input size: each image's predictions sorted, matched, collected and ranked. */
  method MatchAll(images: seq<Image>) returns (pairs: seq<Scored>)
    ensures pairs == RankedPairs(AllScored(images))
  {
    pairs := [];
    for n := 0 to |images|
      invariant pairs == AllScored(images[..n])
    {
      StepImages(images, n);
      var preds := Ranked(images[n].preds);
      RankedTwice(images[n].preds);
      var s, _, _ := ScoreImage(preds, images[n].gt);
      SortedFirst(images[n]);
      pairs := pairs + s;
    }
    assert images[..|images|] == images;
    pairs := RankedPairs(pairs);
  }

  lemma {:induction false} RankedTwice(preds: seq<Pred>)
    ensures Ranked(Ranked(preds)) == Ranked(preds)
  {
    SortSorts(preds, HigherScore);
    SortedIsFixed(Ranked(preds), HigherScore);
  }

  /** Sorting an image's predictions before matching them changes nothing. */
  lemma {:induction false} SortedFirst(im: Image)
    ensures ImageScored(Image(Ranked(im.preds), im.gt)) == ImageScored(im)
  {
    RankedTwice(im.preds);
  }

  /** What a row of the sweep reports: the AP that `evaluate` gives for the predictions at or above the
      threshold, and the best recall within the false-positive budget. */
  ghost predicate RowMeans(images: seq<Image>, thr: real, fppi: real, row: Row)
    requires images != []
  {
    && row.threshold == thr
    && row.ap == EvaluationOf(CutImages(images, thr)).ap
    && IsBudgetRecall(CutFlags(images, thr), TotalValid(images), |images|, fppi, row.recall)
  }

  /** One row: cut the ranked pairs at the threshold. */
  method SweepRow(images: seq<Image>, pairs: seq<Scored>, thr: real, fppi: real) returns (row: Row)
    requires images != [] && pairs == RankedPairs(AllScored(images))
    ensures RowMeans(images, thr, fppi, row)
  {
    var filt := Filter(pairs, PairAtLeast(thr));
    SweepIsExact(images, thr);
    CutKeepsBoxes(images, thr);
    var ap := VocAp(filt, TotalValid(images));
    SortSorts(AllScored(CutImages(images, thr)), HigherPair);
    SortedIsFixed(filt, HigherPair);
    var recall := BudgetRecall(FlagsOf(filt), TotalValid(images), |images|, fppi);
    row := Row(thr, ap, recall);
  }

  /** One input size of `run_sweep`: the pairs are computed once, then cut at every threshold. */
  method SweepInput(images: seq<Image>, thresholds: seq<real>, fppi: real) returns (rows: seq<Row>)
    requires images != []
    ensures |rows| == |thresholds|
    ensures forall i :: 0 <= i < |rows| ==> RowMeans(images, thresholds[i], fppi, rows[i])
  {
    var pairs := MatchAll(images);
    rows := [];
    for i := 0 to |thresholds|
      invariant |rows| == i
      invariant forall k :: 0 <= k < i ==> RowMeans(images, thresholds[k], fppi, rows[k])
    {
      var row := SweepRow(images, pairs, thresholds[i], fppi);
      rows := rows + [row];
    }
  }

  // ---------- consequences: lower thresholds never look worse ----------

  lemma {:induction false} PairsFall(pairs: seq<Scored>, t: real, i: nat, j: nat)
    requires SortedBy(pairs, HigherPair) && i < j < |pairs| && PairAtLeast(t)(pairs[j])
    ensures PairAtLeast(t)(pairs[i])
  {
    assert HigherPair(pairs[i], pairs[j]);
  }

  lemma {:induction false} CutIsPrefix(pairs: seq<Scored>, t: real)
    requires SortedBy(pairs, HigherPair)
    ensures Filter(pairs, PairAtLeast(t)) == pairs[..Count(pairs, PairAtLeast(t))]
  {
    forall i, j | 0 <= i < j < |pairs| && PairAtLeast(t)(pairs[j]) ensures PairAtLeast(t)(pairs[i]) {
      PairsFall(pairs, t, i, j);
    }
    FilterCutsPrefix(pairs, PairAtLeast(t));
  }

  lemma {:induction false} FlagsOfPrefix(pairs: seq<Scored>, m: nat, n: nat)
    requires m <= n <= |pairs|
    ensures FlagsOf(pairs[..m]) == FlagsOf(pairs[..n])[..m]
  {
  }

  /** A higher threshold cuts a prefix of the list a lower one cuts. */
  lemma {:induction false} CutsNest(images: seq<Image>, thr: real, thr': real)
    requires thr <= thr'
    ensures |CutFlags(images, thr')| <= |CutFlags(images, thr)|
    ensures CutFlags(images, thr') == CutFlags(images, thr)[..|CutFlags(images, thr')|]
  {
    var pairs := RankedPairs(AllScored(images));
    SortSorts(AllScored(images), HigherPair);
    SweepIsExact(images, thr);
    SweepIsExact(images, thr');
    CutIsPrefix(pairs, thr);
    CutIsPrefix(pairs, thr');
    CountWeaken(pairs, PairAtLeast(thr'), PairAtLeast(thr));
    FlagsOfPrefix(pairs, Count(pairs, PairAtLeast(thr')), Count(pairs, PairAtLeast(thr)));
  }

  lemma {:induction false} SweepApFalls(images: seq<Image>, thr: real, thr': real)
    requires thr <= thr'
    ensures EvaluationOf(CutImages(images, thr')).ap <= EvaluationOf(CutImages(images, thr)).ap
  {
    CutsNest(images, thr, thr');
    CutKeepsBoxes(images, thr);
    CutKeepsBoxes(images, thr');
    var a, whole := CutFlags(images, thr'), CutFlags(images, thr);
    assert whole == a + whole[|a|..];
    ApGrows(a, whole[|a|..], TotalValid(images));
  }

  lemma {:induction false} SweepRecallFalls(images: seq<Image>, fppi: real, thr: real, thr': real, r: real, r': real)
    requires images != [] && thr <= thr'
    requires IsBudgetRecall(CutFlags(images, thr), TotalValid(images), |images|, fppi, r)
    requires IsBudgetRecall(CutFlags(images, thr'), TotalValid(images), |images|, fppi, r')
    ensures r' <= r
  {
    CutsNest(images, thr, thr');
    var a, whole := CutFlags(images, thr'), CutFlags(images, thr);
    var nGt := TotalValid(images);
    if nGt > 0 {
      if n :| 0 < n <= |a| && WithinBudget(a, n, |images|, fppi) && r' == RecallAt(a, n, nGt) {
        assert a[..n] == whole[..n];
        assert WithinBudget(whole, n, |images|, fppi) && RecallAt(whole, n, nGt) == r';
      } else if n :| 0 < n <= |whole| && WithinBudget(whole, n, |images|, fppi) && r == RecallAt(whole, n, nGt) {
        RatioNonNegative(Hits(whole[..n]) as real, nGt as real);
      }
    }
  }

  lemma {:induction false} RatioNonNegative(a: real, n: real)
    requires a >= 0.0 && n > 0.0
    ensures a / n >= 0.0
  {
    DivOrder(0.0, a, n);
  }

  /** The budget that a list uses up itself is best spent on the whole list. */
  lemma {:induction false} WholeListIsBest(flags: seq<bool>, nGt: nat, images: nat, r: real)
    requires images > 0 && nGt > 0
    requires IsBudgetRecall(flags, nGt, images, (|flags| - Hits(flags)) as real / images as real, r)
    ensures r == Hits(flags) as real / nGt as real
  {
    var n, fppi := |flags|, (|flags| - Hits(flags)) as real / images as real;
    assert flags[..n] == flags;
    if n > 0 {
      assert WithinBudget(flags, n, images, fppi);
      var m :| 0 < m <= n && WithinBudget(flags, m, images, fppi) && r == RecallAt(flags, m, nGt);
      RecallMonotone(flags, m, n, nGt);
    }
  }

  /** At the operating point's own threshold the budget is met exactly by the whole list, and an empty
      list has recall 0. */
  lemma {:induction false} OperatingPointRecall(images: seq<Image>, opScore: real, r: real)
    requires images != [] && TotalValid(images) > 0
    requires IsBudgetRecall(CutFlags(images, opScore), TotalValid(images), |images|,
               EvaluationOf(CutImages(images, opScore)).fp as real / |images| as real, r)
    ensures r == EvaluationOf(CutImages(images, opScore)).tp as real / TotalValid(images) as real
  {
    var cut := CutImages(images, opScore);
    RankedPairsHits(AllScored(cut));
    SortMembers(AllScored(cut), HigherPair);
    WholeListIsBest(CutFlags(images, opScore), TotalValid(images), |images|, r);
  }
}
