/** Difficulty tiers of the WIDER FACE evaluation (benchmarks/wider_ap.py). */
module WiderTier {
  import opened Sequences
  import opened Strings
  import opened WiderMatch
  import opened WiderAp

  /** Boxes outside the height cut are not counted, and predictions that overlap them best are
      discarded. A box's identity is its position in the image's list. */
  datatype Tier = Tier(minH: real, strict: bool)

  predicate TallEnough(g: Truth, tier: Tier) {
    var h := g.box.y2 - g.box.y1;
    if tier.strict then h > tier.minH else h >= tier.minH
  }

  function InTier(tier: Tier): Truth -> bool { (g: Truth) => !g.invalid && TallEnough(g, tier) }

  /** The valid box a prediction overlaps best, -1 when it overlaps none. */
  function BestOverlap(p: Pred, gt: seq<Truth>): (k: int)
    ensures -1 <= k < |gt|
  {
    Choose(p, gt, {}, 0.0)
  }

  function Survives(gt: seq<Truth>, tier: Tier): Pred -> bool {
    (p: Pred) => var k := BestOverlap(p, gt); k == -1 || InTier(tier)(gt[k])
  }

  function TierImage(im: Image, tier: Tier): Image {
    Image(Filter(im.preds, Survives(im.gt, tier)), Filter(im.gt, InTier(tier)))
  }

  function TierImages(images: seq<Image>, tier: Tier): (r: seq<Image>)
    ensures |r| == |images| && forall i :: 0 <= i < |r| ==> r[i] == TierImage(images[i], tier)
  {
    seq(|images|, i requires 0 <= i < |images| => TierImage(images[i], tier))
  }

  /** Box `k` is the first valid box of the prediction's largest overlap, which is positive. */
  ghost predicate OverlapsBest(p: Pred, gt: seq<Truth>, k: int) {
    && 0 <= k < |gt| && !gt[k].invalid && Iou(p.box, gt[k].box) > 0.0
    && (forall i :: 0 <= i < |gt| && !gt[i].invalid ==>
          Iou(p.box, gt[i].box) <= Iou(p.box, gt[k].box))
    && (forall i :: 0 <= i < k && !gt[i].invalid ==>
          Iou(p.box, gt[i].box) < Iou(p.box, gt[k].box))
  }

  lemma {:induction false} BestOverlapMeans(p: Pred, gt: seq<Truth>, k: int)
    requires k >= 0
    ensures BestOverlap(p, gt) == k <==> OverlapsBest(p, gt, k)
  {
    ScanIsFirstBest(p, gt, {}, 0.0, |gt|);
    var b := BestOverlap(p, gt);
    if OverlapsBest(p, gt, k) {
      assert Eligible(p, gt[k], 0.0);
    } else if b == k {
      forall i | 0 <= i < |gt| && !gt[i].invalid
        ensures Iou(p.box, gt[i].box) <= Iou(p.box, gt[k].box)
        ensures i < k ==> Iou(p.box, gt[i].box) < Iou(p.box, gt[k].box)
      {
        assert Eligible(p, gt[i], 0.0) || Iou(p.box, gt[i].box) <= 0.0;
      }
    }
  }

  /** A prediction is dropped exactly when the box it overlaps best lies outside the tier. */
  lemma {:induction false} DroppedMeans(p: Pred, gt: seq<Truth>, tier: Tier)
    ensures !Survives(gt, tier)(p) <==> exists k :: OverlapsBest(p, gt, k) && !TallEnough(gt[k], tier)
  {
    SurvivesMeans(p, gt, tier);
    if b :| b == BestOverlap(p, gt) && b >= 0 && !TallEnough(gt[b], tier) {
      BestOverlapMeans(p, gt, b);
    } else if k :| OverlapsBest(p, gt, k) && !TallEnough(gt[k], tier) {
      BestOverlapMeans(p, gt, k);
    }
  }

  /** The boxes that count: the valid ones whose height passes the cut. */
  lemma {:induction false} TierBoxes(im: Image, tier: Tier)
    ensures var counted := set k | 0 <= k < |im.gt| && !im.gt[k].invalid
                && (if tier.strict then im.gt[k].box.y2 - im.gt[k].box.y1 > tier.minH
                    else im.gt[k].box.y2 - im.gt[k].box.y1 >= tier.minH);
      |counted| == Count(TierImage(im, tier).gt, Valid()) == |TierImage(im, tier).gt|
  {
    var counted := set k | 0 <= k < |im.gt| && !im.gt[k].invalid
                && (if tier.strict then im.gt[k].box.y2 - im.gt[k].box.y1 > tier.minH
                    else im.gt[k].box.y2 - im.gt[k].box.y1 >= tier.minH);
    CountIsSize(im.gt, InTier(tier), counted);
    CountIsFilterLength(im.gt, InTier(tier));
    FilterMembers(im.gt, InTier(tier));
    CountFull(Filter(im.gt, InTier(tier)), Valid());
  }

  lemma {:induction false} SurvivesMeans(p: Pred, gt: seq<Truth>, tier: Tier)
    ensures Survives(gt, tier)(p) <==>
            BestOverlap(p, gt) == -1 || TallEnough(gt[BestOverlap(p, gt)], tier)
  {
    BestIsValid(p, gt);
    var k := BestOverlap(p, gt);
    assert Survives(gt, tier)(p) == (k == -1 || InTier(tier)(gt[k]));
  }

  /** The best-overlap scan of `_discard_off_tier`. */
  method FindBestOverlap(p: Pred, gt: seq<Truth>) returns (best: int)
    ensures best == BestOverlap(p, gt)
  {
    var bestIou := 0.0;
    best := -1;
    for k := 0 to |gt|
      invariant (best, bestIou) == Scan(p, gt, {}, 0.0, k)
    {
      if !gt[k].invalid {
        var v := Iou(p.box, gt[k].box);
        if v > bestIou {
          bestIou := v;
          best := k;
        }
      }
    }
  }

  /** `_discard_off_tier`. */
  method DiscardOffTier(preds: seq<Pred>, gt: seq<Truth>, tierIds: set<int>, ghost tier: Tier)
    returns (surviving: seq<Pred>)
    requires forall k :: 0 <= k < |gt| ==> (k in tierIds <==> InTier(tier)(gt[k]))
    ensures surviving == Filter(preds, Survives(gt, tier))
  {
    surviving := [];
    for n := 0 to |preds|
      invariant surviving == Filter(preds[..n], Survives(gt, tier))
    {
      var best := FindBestOverlap(preds[n], gt);
      assert preds[..n + 1] == preds[..n] + [preds[n]];
      FilterAppend(preds[..n], [preds[n]], Survives(gt, tier));
      assert [preds[n]][1..] == [];
      assert Survives(gt, tier)(preds[n]) <==> best == -1 || best in tierIds;
      if best == -1 || best in tierIds {
        surviving := surviving + [preds[n]];
      }
    }
    assert preds[..|preds|] == preds;
  }

  /** The loop body of `evaluate_tier`. */
  method ScoreTierImage(preds: seq<Pred>, gt: seq<Truth>, tier: Tier)
    returns (scored: seq<Scored>, tp: nat, fp: nat, nGt: nat)
    ensures scored == ImageScored(TierImage(Image(preds, gt), tier))
    ensures tp == Count(scored, TruePositive()) && tp + fp == |scored|
    ensures nGt == Count(TierImage(Image(preds, gt), tier).gt, Valid())
  {
    var tierGt := Filter(gt, InTier(tier));
    var tierIds := set k | 0 <= k < |gt| && InTier(tier)(gt[k]);
    var surviving := DiscardOffTier(preds, gt, tierIds, tier);
    scored, tp, fp := ScoreImage(surviving, tierGt);
    nGt := |tierGt|;
    FilterMembers(gt, InTier(tier));
    CountFull(tierGt, Valid());
  }

  /** `evaluate_tier`: exactly the evaluation of the surviving predictions against the tier boxes. */
  method EvaluateTier(predsByImage: map<string, seq<Pred>>, gtByImage: map<string, seq<Truth>>, tier: Tier)
    returns (e: Evaluation)
    ensures e == EvaluationOf(TierImages(ImagesByKey(predsByImage, gtByImage), tier))
  {
    var keys := SortKeys(predsByImage.Keys + gtByImage.Keys);
    SortedIsUnique(keys, SortedKeys(predsByImage.Keys + gtByImage.Keys));
    e := EvaluateTierKeys(keys, predsByImage, gtByImage, tier);
  }

  /** The loop of `evaluate_tier` over its keys. */
  method EvaluateTierKeys(keys: seq<string>, predsByImage: map<string, seq<Pred>>,
                          gtByImage: map<string, seq<Truth>>, tier: Tier)
    returns (e: Evaluation)
    ensures e == EvaluationOf(TierImages(ImagesOf(keys, predsByImage, gtByImage), tier))
  {
    ghost var images := TierImages(ImagesOf(keys, predsByImage, gtByImage), tier);
    var tp, fp, nGt := 0, 0, 0;
    var scored: seq<Scored> := [];
    for n := 0 to |keys|
      invariant scored == AllScored(images[..n]) && nGt == TotalValid(images[..n])
      invariant tp == Count(scored, TruePositive()) && tp + fp == |scored|
    {
      StepImages(images, n);
      var preds := if keys[n] in predsByImage then predsByImage[keys[n]] else [];
      var gt := if keys[n] in gtByImage then gtByImage[keys[n]] else [];
      var s, t, f, g := ScoreTierImage(preds, gt, tier);
      CountAppend(scored, s, TruePositive());
      scored, tp, fp, nGt := scored + s, tp + t, fp + f, nGt + g;
    }
    assert images[..|keys|] == images;
    e := Summarize(scored, tp, fp, nGt, images);
  }

  // ---------- a tier that admits every valid box changes nothing ----------

  ghost predicate AdmitsAll(im: Image, tier: Tier) {
    forall g :: g in im.gt && !g.invalid ==> TallEnough(g, tier)
  }

  lemma {:induction false} BestIsValid(p: Pred, gt: seq<Truth>)
    ensures var k := BestOverlap(p, gt); k == -1 || (gt[k] in gt && !gt[k].invalid)
  {
    ScanIsFirstBest(p, gt, {}, 0.0, |gt|);
  }

  lemma {:induction false} FullTierKeepsPreds(im: Image, tier: Tier)
    requires AdmitsAll(im, tier)
    ensures TierImage(im, tier).preds == im.preds
  {
    forall p ensures Survives(im.gt, tier)(p) {
      SurvivesMeans(p, im.gt, tier);
      BestIsValid(p, im.gt);
    }
    FilterAll(im.preds, Survives(im.gt, tier));
  }

  lemma {:induction false} FullTierKeepsBoxes(im: Image, tier: Tier)
    requires AdmitsAll(im, tier)
    ensures TierImage(im, tier).gt == Filter(im.gt, Valid())
    ensures Count(TierImage(im, tier).gt, Valid()) == Count(im.gt, Valid())
  {
    FilterSame(im.gt, InTier(tier), Valid());
    FilterMembers(im.gt, Valid());
    CountFull(Filter(im.gt, Valid()), Valid());
    CountIsFilterLength(im.gt, Valid());
  }

  lemma {:induction false} FullTierImage(im: Image, tier: Tier)
    requires AdmitsAll(im, tier)
    ensures ImageScored(TierImage(im, tier)) == ImageScored(im)
    ensures Count(TierImage(im, tier).gt, Valid()) == Count(im.gt, Valid())
  {
    FullTierKeepsPreds(im, tier);
    FullTierKeepsBoxes(im, tier);
    MatchIgnoresInvalid(im.preds, im.gt, IOU_THR);
  }

  lemma {:induction false} TierStep(images: seq<Image>, tier: Tier)
    requires images != []
    ensures var n := |images| - 1;
      && AllScored(TierImages(images, tier))
         == AllScored(TierImages(images[..n], tier)) + ImageScored(TierImage(images[n], tier))
      && TotalValid(TierImages(images, tier))
         == TotalValid(TierImages(images[..n], tier)) + Count(TierImage(images[n], tier).gt, Valid())
  {
    assert TierImages(images, tier)[..|images| - 1] == TierImages(images[..|images| - 1], tier);
  }

  lemma {:induction false} FullTierTotals(images: seq<Image>, tier: Tier)
    requires forall im :: im in images ==> AdmitsAll(im, tier)
    ensures AllScored(TierImages(images, tier)) == AllScored(images)
    ensures TotalValid(TierImages(images, tier)) == TotalValid(images)
  {
    if images != [] {
      var n := |images| - 1;
      TierStep(images, tier);
      FullTierTotals(images[..n], tier);
      assert images[n] in images;
      FullTierImage(images[n], tier);
    }
  }

  /** When the height cut admits every valid box, `evaluate_tier` and `evaluate` agree. */
  lemma {:induction false} FullTier(images: seq<Image>, tier: Tier)
    requires forall im :: im in images ==> AdmitsAll(im, tier)
    ensures EvaluationOf(TierImages(images, tier)) == EvaluationOf(images)
  {
    FullTierTotals(images, tier);
  }

  /** In every tier, each surviving prediction is counted once, and AP is a fraction. */
  lemma {:induction false} TierLaws(images: seq<Image>, tier: Tier)
    ensures var e := EvaluationOf(TierImages(images, tier));
      && e.tp + e.fp == TotalPreds(TierImages(images, tier)) <= TotalPreds(images)
      && e.tp <= e.nGt <= TotalValid(images)
      && 0.0 <= e.ap <= 1.0
  {
    EvaluationLaws(TierImages(images, tier));
    TierShrinks(images, tier);
  }

  lemma {:induction false} TierShrinks(images: seq<Image>, tier: Tier)
    ensures TotalPreds(TierImages(images, tier)) <= TotalPreds(images)
    ensures TotalValid(TierImages(images, tier)) <= TotalValid(images)
  {
    if images != [] {
      var n := |images| - 1;
      assert TierImages(images, tier)[..n] == TierImages(images[..n], tier);
      TierShrinks(images[..n], tier);
      var im := images[n];
      CountIsFilterLength(im.preds, Survives(im.gt, tier));
      CountIsFilterLength(im.gt, InTier(tier));
      CountWeaken(im.gt, InTier(tier), Valid());
      assert Count(Filter(im.gt, InTier(tier)), Valid()) <= Count(im.gt, InTier(tier));
    }
  }
}
