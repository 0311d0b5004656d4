/** Average precision and the WIDER FACE evaluation loops of benchmarks/wider_ap.py. */
module WiderAp {
  import opened Reals
  import opened Sequences
  import opened Strings
  import opened WiderMatch

  /** A prediction's score with its true-positive flag. */
  datatype Scored = Scored(score: real, tp: bool)

  predicate HigherPair(a: Scored, b: Scored) { a.score >= b.score }

  function TruePositive(): Scored -> bool { (p: Scored) => p.tp }

  /** The flags of the list sorted by falling score. */
  function RankedPairs(scored: seq<Scored>): seq<Scored> { SortBy(scored, HigherPair) }

  function FlagsOf(scored: seq<Scored>): (f: seq<bool>)
    ensures |f| == |scored| && forall i :: 0 <= i < |f| ==> f[i] == scored[i].tp
  {
    seq(|scored|, i requires 0 <= i < |scored| => scored[i].tp)
  }

  // ---------- the meaning of average precision ----------

  function Hits(flags: seq<bool>): nat { Count(flags, IsTrue()) }

  /** The precision when the list is cut after rank `i`. */
  function Precision(flags: seq<bool>, i: nat): real
    requires i < |flags|
  {
    Hits(flags[..i + 1]) as real / (i + 1) as real
  }

  /** The largest precision at rank `i` or below. */
  function BestPrecision(flags: seq<bool>, i: nat): real
    requires i <= |flags|
    decreases |flags| - i
  {
    if i == |flags| then 0.0 else Max(Precision(flags, i), BestPrecision(flags, i + 1))
  }

  /** The sum, over the true positives at rank `i` or below, of the best precision from there on. */
  function PrecisionSum(flags: seq<bool>, i: nat): real
    requires i <= |flags|
    decreases |flags| - i
  {
    if i == |flags| then 0.0
    else (if flags[i] then BestPrecision(flags, i) else 0.0) + PrecisionSum(flags, i + 1)
  }

  /** All-point interpolated average precision. */
  function Ap(flags: seq<bool>, totalGt: int): real {
    if totalGt <= 0 then 0.0 else PrecisionSum(flags, 0) / totalGt as real
  }

  lemma {:induction false} BestPrecisionIsMax(flags: seq<bool>, i: nat)
    requires i < |flags|
    ensures forall j :: i <= j < |flags| ==> Precision(flags, j) <= BestPrecision(flags, i)
    ensures exists j :: i <= j < |flags| && Precision(flags, j) == BestPrecision(flags, i)
    decreases |flags| - i
  {
    PrecisionBounds(flags, i);
    if i + 1 < |flags| {
      BestPrecisionIsMax(flags, i + 1);
    }
    if Precision(flags, i) >= BestPrecision(flags, i + 1) {
      assert Precision(flags, i) == BestPrecision(flags, i);
    } else {
      var j :| i + 1 <= j < |flags| && Precision(flags, j) == BestPrecision(flags, i + 1);
      assert Precision(flags, j) == BestPrecision(flags, i);
    }
  }

  /** Precision is a fraction, and 1 exactly while no false positive has been met. */
  lemma {:induction false} PrecisionBounds(flags: seq<bool>, i: nat)
    requires i < |flags|
    ensures 0.0 <= Precision(flags, i) <= 1.0
    ensures Precision(flags, i) == 1.0 <==> forall k :: 0 <= k <= i ==> flags[k]
  {
    var top := flags[..i + 1];
    RatioBounds(Hits(top) as real, (i + 1) as real);
    CountFull(top, IsTrue());
    if forall b :: b in top ==> IsTrue()(b) {
      forall k | 0 <= k <= i ensures flags[k] {
        assert top[k] in top;
      }
    }
  }

  /** No false positive ranks above a true positive. */
  ghost predicate Clean(flags: seq<bool>) {
    forall i, j :: 0 <= i < j < |flags| && flags[j] ==> flags[i]
  }

  lemma {:induction false} BestPrecisionBounds(flags: seq<bool>, i: nat)
    requires i < |flags|
    ensures 0.0 <= BestPrecision(flags, i) <= 1.0
    ensures BestPrecision(flags, i) == 1.0 <==> forall k :: 0 <= k <= i ==> flags[k]
  {
    BestPrecisionIsMax(flags, i);
    var j :| i <= j < |flags| && Precision(flags, j) == BestPrecision(flags, i);
    PrecisionBounds(flags, j);
    PrecisionBounds(flags, i);
  }

  lemma {:induction false} HitsSplit(flags: seq<bool>, i: nat)
    requires i < |flags|
    ensures Hits(flags[i..]) == (if flags[i] then 1 else 0) + Hits(flags[i + 1..])
  {
    assert flags[i..][1..] == flags[i + 1..];
  }

  /** Each true positive contributes at most 1, and exactly 1 when nothing false ranks above it. */
  lemma {:induction false} PrecisionSumBounds(flags: seq<bool>, i: nat)
    requires i <= |flags|
    ensures 0.0 <= PrecisionSum(flags, i) <= Hits(flags[i..]) as real
    ensures PrecisionSum(flags, i) == Hits(flags[i..]) as real <==>
            forall j, k :: i <= j < |flags| && 0 <= k < j && flags[j] ==> flags[k]
    decreases |flags| - i
  {
    if i < |flags| {
      PrecisionSumBounds(flags, i + 1);
      BestPrecisionBounds(flags, i);
      HitsSplit(flags, i);
    }
  }

  /** With no more true positives than ground truth, AP is a fraction; it is 1 exactly when every
      box is found and no false positive ranks above a true one. */
  lemma {:induction false} ApLaws(flags: seq<bool>, totalGt: nat)
    requires Hits(flags) <= totalGt
    ensures 0.0 <= Ap(flags, totalGt) <= 1.0
    ensures Ap(flags, totalGt) == 1.0 <==> totalGt > 0 && Hits(flags) == totalGt && Clean(flags)
  {
    PrecisionSumBounds(flags, 0);
    assert flags[0..] == flags;
    if totalGt > 0 {
      RatioBounds(PrecisionSum(flags, 0), totalGt as real);
    }
  }

  // ---------- monotonicity: more predictions at the end never lower AP ----------

  lemma {:induction false} PrecisionOfPrefix(a: seq<bool>, b: seq<bool>, i: nat)
    requires i < |a|
    ensures Precision(a + b, i) == Precision(a, i)
  {
    assert (a + b)[..i + 1] == a[..i + 1];
  }

  lemma {:induction false} BestPrecisionGrows(a: seq<bool>, b: seq<bool>, i: nat)
    requires i <= |a|
    ensures BestPrecision(a, i) <= BestPrecision(a + b, i)
    decreases |a| - i
  {
    if i < |a| {
      PrecisionOfPrefix(a, b, i);
      BestPrecisionGrows(a, b, i + 1);
    } else if b != [] {
      BestPrecisionBounds(a + b, i);
    }
  }

  lemma {:induction false} PrecisionSumGrows(a: seq<bool>, b: seq<bool>, i: nat)
    requires i <= |a|
    ensures PrecisionSum(a, i) <= PrecisionSum(a + b, i)
    decreases |a| - i
  {
    if i < |a| {
      BestPrecisionGrows(a, b, i);
      PrecisionSumGrows(a, b, i + 1);
    } else {
      PrecisionSumBounds(a + b, i);
    }
  }

  lemma {:induction false} ApGrows(a: seq<bool>, b: seq<bool>, totalGt: int)
    ensures Ap(a, totalGt) <= Ap(a + b, totalGt)
  {
    PrecisionSumGrows(a, b, 0);
    if totalGt > 0 {
      DivOrder(PrecisionSum(a, 0), PrecisionSum(a + b, 0), totalGt as real);
    }
  }

  // ---------- voc_ap ----------

  lemma {:induction false} HitsStep(flags: seq<bool>, i: nat)
    requires i < |flags|
    ensures Hits(flags[..i + 1]) == Hits(flags[..i]) + if flags[i] then 1 else 0
  {
    assert flags[..i + 1] == flags[..i] + [flags[i]];
    CountAppend(flags[..i], [flags[i]], IsTrue());
  }

  /** The cumulative loop: recall and precision after every rank. */
  method RecallPrecision(flags: seq<bool>, totalGt: int) returns (rec: seq<real>, prec: seq<real>)
    requires totalGt > 0
    ensures |rec| == |prec| == |flags|
    ensures forall i :: 0 <= i < |flags| ==>
              rec[i] == Hits(flags[..i + 1]) as real / totalGt as real && prec[i] == Precision(flags, i)
  {
    var tpCum, fpCum := 0, 0;
    rec, prec := [], [];
    for n := 0 to |flags|
      invariant |rec| == |prec| == n
      invariant tpCum == Hits(flags[..n]) && tpCum + fpCum == n
      invariant forall i :: 0 <= i < n ==>
        rec[i] == Hits(flags[..i + 1]) as real / totalGt as real && prec[i] == Precision(flags, i)
    {
      HitsStep(flags, n);
      if flags[n] {
        tpCum := tpCum + 1;
      } else {
        fpCum := fpCum + 1;
      }
      rec := rec + [tpCum as real / totalGt as real];
      prec := prec + [tpCum as real / (tpCum + fpCum) as real];
    }
  }

  /** The backward loop, in place: the precision envelope. `mpre` holds 0, the precisions, 0. */
  method Envelope(mpre: array<real>, ghost flags: seq<bool>)
    requires mpre.Length == |flags| + 2 && mpre[0] == 0.0 && mpre[|flags| + 1] == 0.0
    requires forall i :: 0 <= i < |flags| ==> mpre[i + 1] == Precision(flags, i)
    modifies mpre
    ensures forall i :: 0 <= i <= |flags| ==> mpre[i + 1] == BestPrecision(flags, i)
  {
    var j := mpre.Length - 1;
    while j > 0
      invariant 0 <= j < mpre.Length
      invariant forall i :: 0 <= i <= |flags| && i + 1 >= j ==> mpre[i + 1] == BestPrecision(flags, i)
      invariant forall i :: 0 <= i < |flags| && i + 1 < j ==> mpre[i + 1] == Precision(flags, i)
    {
      mpre[j - 1] := Max(mpre[j - 1], mpre[j]);
      j := j - 1;
    }
  }

  function Recall(flags: seq<bool>, i: nat, totalGt: int): real
    requires totalGt > 0 && i <= |flags|
  {
    Hits(flags[..i]) as real / totalGt as real
  }

  /** The part of the AP that is still to be added from rank `i` on. */
  function Rest(flags: seq<bool>, i: nat, totalGt: int): real
    requires totalGt > 0 && i <= |flags|
  {
    PrecisionSum(flags, i) / totalGt as real
  }

  /** One rectangle of the sum: the recall gained at rank `i` times the envelope there. */
  lemma {:induction false} RecallStep(flags: seq<bool>, totalGt: int, i: nat)
    requires totalGt > 0 && i < |flags|
    ensures Recall(flags, i + 1, totalGt) != Recall(flags, i, totalGt) <==> flags[i]
    ensures (Recall(flags, i + 1, totalGt) - Recall(flags, i, totalGt)) * BestPrecision(flags, i)
            == Rest(flags, i, totalGt) - Rest(flags, i + 1, totalGt)
  {
    HitsStep(flags, i);
    Rectangle(Hits(flags[..i]) as real, Hits(flags[..i + 1]) as real, BestPrecision(flags, i),
              PrecisionSum(flags, i), PrecisionSum(flags, i + 1), totalGt as real, flags[i]);
  }

  lemma {:induction false} Rectangle(h: real, h': real, b: real, sum: real, rest: real, n: real, hit: bool)
    requires n > 0.0
    requires h' == h + if hit then 1.0 else 0.0
    requires sum == rest + if hit then b else 0.0
    ensures h' / n != h / n <==> hit
    ensures (h' / n - h / n) * b == sum / n - rest / n
  {
    DivOrder(h, h', n);
    if hit {
      DivAdd(h, 1.0, n);
      DivAdd(rest, b, n);
      Scale(b, n);
    }
  }

  lemma {:induction false} Scale(b: real, n: real)
    requires n > 0.0
    ensures (1.0 / n) * b == b / n
  {
    var x, y := (1.0 / n) * b, b / n;
    assert x * n == (1.0 / n) * n * b == b && y * n == b;
    CancelFactor(x, y, n);
    CancelFactor(y, x, n);
  }

  function Slice(mrec: seq<real>, mpre: seq<real>, j: nat): real
    requires 0 < j < |mrec| == |mpre|
  {
    (mrec[j] - mrec[j - 1]) * mpre[j]
  }

  /** The final loop: rectangles where recall changes. `rest` is what remains before each step. */
  method AreaUnder(mrec: seq<real>, mpre: seq<real>, ghost rest: seq<real>) returns (ap: real)
    requires |mrec| == |mpre| == |rest| > 0
    requires forall j :: 0 < j < |mrec| ==> rest[j - 1] - rest[j] == Slice(mrec, mpre, j)
    ensures ap == rest[0] - rest[|rest| - 1]
  {
    ap := 0.0;
    for j := 1 to |mrec|
      invariant ap == rest[0] - rest[j - 1]
    {
      assert rest[j - 1] - rest[j] == Slice(mrec, mpre, j);
      if mrec[j] != mrec[j - 1] {
        ap := ap + Slice(mrec, mpre, j);
      }
    }
  }

  lemma {:induction false} RectanglesFit(flags: seq<bool>, totalGt: int, mrec: seq<real>, mpre: seq<real>, j: nat)
    requires totalGt > 0 && |mrec| == |mpre| == |flags| + 2 && 0 < j < |mrec|
    requires forall i :: 0 <= i <= |flags| ==> mrec[i] == Recall(flags, i, totalGt)
    requires forall i :: 0 <= i <= |flags| ==> mpre[i + 1] == BestPrecision(flags, i)
    ensures Slice(mrec, mpre, j) ==
            if j <= |flags| then Rest(flags, j - 1, totalGt) - Rest(flags, j, totalGt) else 0.0
  {
    assert mpre[(j - 1) + 1] == BestPrecision(flags, j - 1);
    if j <= |flags| {
      RecallStep(flags, totalGt, j - 1);
    } else {
      assert mpre[j] == 0.0;
    }
  }

  /** What remains before each step of the sum, ending in 0. */
  ghost function Remainders(flags: seq<bool>, totalGt: int): (r: seq<real>)
    requires totalGt > 0
    ensures |r| == |flags| + 2 && r[0] == Ap(flags, totalGt) && r[|flags| + 1] == 0.0
    ensures forall j :: 0 <= j <= |flags| ==> r[j] == Rest(flags, j, totalGt)
  {
    seq(|flags| + 2, j requires 0 <= j < |flags| + 2 => if j <= |flags| then Rest(flags, j, totalGt) else 0.0)
  }

  lemma {:induction false} SlicesFit(flags: seq<bool>, totalGt: int, mrec: seq<real>, mpre: seq<real>)
    requires totalGt > 0 && |mrec| == |mpre| == |flags| + 2
    requires forall i :: 0 <= i <= |flags| ==> mrec[i] == Recall(flags, i, totalGt)
    requires forall i :: 0 <= i <= |flags| ==> mpre[i + 1] == BestPrecision(flags, i)
    ensures var rest := Remainders(flags, totalGt);
            forall j :: 0 < j < |mrec| ==> rest[j - 1] - rest[j] == Slice(mrec, mpre, j)
  {
    var rest := Remainders(flags, totalGt);
    assert rest[|flags|] == 0.0;
    forall j | 0 < j < |mrec| ensures rest[j - 1] - rest[j] == Slice(mrec, mpre, j) {
      RectanglesFit(flags, totalGt, mrec, mpre, j);
    }
  }

  /** The recalls and the envelope, as `voc_ap` builds them in lists. */
  method RecallAndEnvelope(flags: seq<bool>, totalGt: int) returns (mrec: seq<real>, mpre: seq<real>)
    requires totalGt > 0
    ensures |mrec| == |mpre| == |flags| + 2
    ensures forall i :: 0 <= i <= |flags| ==> mrec[i] == Recall(flags, i, totalGt)
    ensures forall i :: 0 <= i <= |flags| ==> mpre[i + 1] == BestPrecision(flags, i)
  {
    var rec, prec := RecallPrecision(flags, totalGt);
    mrec := [0.0] + rec + [1.0];
    assert flags[..0] == [];
    var padded := [0.0] + prec + [0.0];
    var a := new real[|padded|](i requires 0 <= i < |padded| => padded[i]);
    Envelope(a, flags);
    mpre := a[..];
  }

  /** `voc_ap` of a list of scored flags. */
  method VocAp(scored: seq<Scored>, totalGt: int) returns (ap: real)
    ensures ap == Ap(FlagsOf(RankedPairs(scored)), totalGt)
  {
    if totalGt <= 0 {
      return 0.0;
    }
    var flags := FlagsOf(RankedPairs(scored));
    var mrec, mpre := RecallAndEnvelope(flags, totalGt);
    SlicesFit(flags, totalGt, mrec, mpre);
    ap := AreaUnder(mrec, mpre, Remainders(flags, totalGt));
  }

  // ---------- evaluation over images ----------

  datatype Image = Image(preds: seq<Pred>, gt: seq<Truth>)

  datatype Evaluation = Evaluation(ap: real, tp: nat, fp: nat, nGt: nat)

  const IOU_THR := 0.5

  /** Each ranked score of an image with its flag. */
  function Zip(order: seq<Pred>, flags: seq<bool>): (r: seq<Scored>)
    requires |order| == |flags|
    ensures |r| == |order|
    ensures forall i :: 0 <= i < |r| ==> r[i] == Scored(order[i].score, flags[i])
  {
    seq(|order|, i requires 0 <= i < |order| && |order| == |flags| => Scored(order[i].score, flags[i]))
  }

  function ImageScored(im: Image): (r: seq<Scored>)
    ensures |r| == |im.preds|
  {
    RankedLength(im.preds);
    Zip(Ranked(im.preds), MatchFlags(im.preds, im.gt, IOU_THR))
  }

  function AllScored(images: seq<Image>): seq<Scored> {
    if images == [] then []
    else AllScored(images[..|images| - 1]) + ImageScored(images[|images| - 1])
  }

  function TotalValid(images: seq<Image>): nat {
    if images == [] then 0
    else TotalValid(images[..|images| - 1]) + Count(images[|images| - 1].gt, Valid())
  }

  function TotalPreds(images: seq<Image>): nat {
    if images == [] then 0
    else TotalPreds(images[..|images| - 1]) + |images[|images| - 1].preds|
  }

  function EvaluationOf(images: seq<Image>): Evaluation {
    var scored := AllScored(images);
    var tp := Count(scored, TruePositive());
    var nGt := TotalValid(images);
    Evaluation(Ap(FlagsOf(RankedPairs(scored)), nGt), tp, |scored| - tp, nGt)
  }

  lemma {:induction false} FlagsCount(scored: seq<Scored>)
    ensures Count(scored, TruePositive()) == Hits(FlagsOf(scored))
  {
    if scored != [] {
      FlagsCount(scored[1..]);
      assert FlagsOf(scored)[1..] == FlagsOf(scored[1..]);
    }
  }

  lemma {:induction false} ImageHits(im: Image)
    ensures Count(ImageScored(im), TruePositive()) == Hits(MatchFlags(im.preds, im.gt, 0.5))
    ensures Count(ImageScored(im), TruePositive()) <= Count(im.gt, Valid())
  {
    FlagsCount(ImageScored(im));
    assert FlagsOf(ImageScored(im)) == MatchFlags(im.preds, im.gt, IOU_THR);
    TruePositivesBounded(im.preds, im.gt, IOU_THR);
  }

  lemma {:induction false} TotalsBounded(images: seq<Image>)
    ensures |AllScored(images)| == TotalPreds(images)
    ensures Count(AllScored(images), TruePositive()) <= TotalValid(images)
  {
    if images != [] {
      var n := |images| - 1;
      TotalsBounded(images[..n]);
      CountAppend(AllScored(images[..n]), ImageScored(images[n]), TruePositive());
      ImageHits(images[n]);
    }
  }

  lemma {:induction false} RankedPairsHits(scored: seq<Scored>)
    ensures Hits(FlagsOf(RankedPairs(scored))) == Count(scored, TruePositive())
  {
    SortSorts(scored, HigherPair);
    CountPermutation(scored, RankedPairs(scored), TruePositive());
    FlagsCount(RankedPairs(scored));
  }

  /** Every prediction is a true or a false positive, true positives never outnumber the valid
      boxes, AP is a fraction, and it is 1 exactly for a complete and clean ranking. */
  lemma {:induction false} EvaluationLaws(images: seq<Image>)
    ensures var e := EvaluationOf(images);
      && e.tp + e.fp == TotalPreds(images)
      && e.tp <= e.nGt == TotalValid(images)
      && 0.0 <= e.ap <= 1.0
      && (e.ap == 1.0 <==>
            e.nGt > 0 && e.tp == e.nGt && Clean(FlagsOf(RankedPairs(AllScored(images)))))
  {
    TotalsBounded(images);
    RankedPairsHits(AllScored(images));
    ApLaws(FlagsOf(RankedPairs(AllScored(images))), TotalValid(images));
  }

  /** The loop body shared by `evaluate` and `evaluate_tier`. */
  method ScoreImage(preds: seq<Pred>, gt: seq<Truth>) returns (scored: seq<Scored>, tp: nat, fp: nat)
    ensures scored == ImageScored(Image(preds, gt))
    ensures tp == Count(scored, TruePositive()) && tp + fp == |scored|
  {
    var order := Ranked(preds);
    RankedLength(preds);
    var flags := Match(preds, gt, IOU_THR);
    scored := [];
    for j := 0 to |order|
      invariant scored == Zip(order[..j], flags[..j])
    {
      scored := scored + [Scored(order[j].score, flags[j])];
    }
    assert order[..|order|] == order && flags[..|order|] == flags;
    ImageHits(Image(preds, gt));
    tp, fp := 0, 0;
    for j := 0 to |flags|
      invariant tp == Hits(flags[..j]) && tp + fp == j
    {
      HitsStep(flags, j);
      if flags[j] {
        tp := tp + 1;
      } else {
        fp := fp + 1;
      }
    }
    assert flags[..|flags|] == flags;
  }

  /** The images in the order visited; a missing key has no predictions or no boxes. */
  function ImagesOf(keys: seq<string>, preds: map<string, seq<Pred>>, gt: map<string, seq<Truth>>): (r: seq<Image>)
    ensures |r| == |keys|
  {
    seq(|keys|, i requires 0 <= i < |keys| =>
      Image(if keys[i] in preds then preds[keys[i]] else [], if keys[i] in gt then gt[keys[i]] else []))
  }

  /** Adding one image to the totals. */
  lemma {:induction false} StepImages(images: seq<Image>, n: nat)
    requires n < |images|
    ensures AllScored(images[..n + 1]) == AllScored(images[..n]) + ImageScored(images[n])
    ensures TotalValid(images[..n + 1]) == TotalValid(images[..n]) + Count(images[n].gt, Valid())
  {
    assert images[..n + 1][..n] == images[..n] && images[..n + 1][n] == images[n];
  }

  /** The end of both evaluators: rank the collected pairs and compute their AP. */
  method Summarize(scored: seq<Scored>, tp: nat, fp: nat, nGt: nat, ghost images: seq<Image>)
    returns (e: Evaluation)
    requires scored == AllScored(images) && nGt == TotalValid(images)
    requires tp == Count(scored, TruePositive()) && tp + fp == |scored|
    ensures e == EvaluationOf(images)
  {
    var ranked := RankedPairs(scored);
    var ap := VocAp(ranked, nGt);
    SortSorts(scored, HigherPair);
    SortedIsFixed(ranked, HigherPair);
    e := Evaluation(ap, tp, fp, nGt);
  }

  /** The images of the two dictionaries, in ascending order of the keys of either. */
  ghost function ImagesByKey(preds: map<string, seq<Pred>>, gt: map<string, seq<Truth>>): seq<Image> {
    ImagesOf(SortedKeys(preds.Keys + gt.Keys), preds, gt)
  }

  /** `evaluate`. */
  method Evaluate(predsByImage: map<string, seq<Pred>>, gtByImage: map<string, seq<Truth>>)
    returns (e: Evaluation)
    ensures e == EvaluationOf(ImagesByKey(predsByImage, gtByImage))
  {
    var keys := SortKeys(predsByImage.Keys + gtByImage.Keys);
    SortedIsUnique(keys, SortedKeys(predsByImage.Keys + gtByImage.Keys));
    e := EvaluateKeys(keys, predsByImage, gtByImage);
  }

  /** The loop of `evaluate` over its keys. */
  method EvaluateKeys(keys: seq<string>, predsByImage: map<string, seq<Pred>>, gtByImage: map<string, seq<Truth>>)
    returns (e: Evaluation)
    ensures e == EvaluationOf(ImagesOf(keys, predsByImage, gtByImage))
  {
    ghost var images := ImagesOf(keys, predsByImage, gtByImage);
    var tp, fp, nGt := 0, 0, 0;
    var scored: seq<Scored> := [];
    for n := 0 to |keys|
      invariant scored == AllScored(images[..n]) && nGt == TotalValid(images[..n])
      invariant tp == Count(scored, TruePositive()) && tp + fp == |scored|
    {
      StepImages(images, n);
      var preds := if keys[n] in predsByImage then predsByImage[keys[n]] else [];
      var gt := if keys[n] in gtByImage then gtByImage[keys[n]] else [];
      var s, t, f := ScoreImage(preds, gt);
      CountAppend(scored, s, TruePositive());
      scored, tp, fp, nGt := scored + s, tp + t, fp + f, nGt + Count(gt, Valid());
    }
    assert images[..|keys|] == images;
    e := Summarize(scored, tp, fp, nGt, images);
  }
}
