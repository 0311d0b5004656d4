/** Greedy matching of detections to ground-truth faces, from benchmarks/wider_ap.py. Coordinates,
    scores and overlaps are reals. */
module WiderMatch {
  import opened Reals
  import opened Sequences

  datatype Box = Box(x1: real, y1: real, x2: real, y2: real)

  /** A ground-truth box; an invalid one is an ignore region. */
  datatype Truth = Truth(box: Box, invalid: bool)

  datatype Pred = Pred(score: real, box: Box)

  // ---------- overlap ----------

  function Max(a: real, b: real): real { if a >= b then a else b }

  function Min(a: real, b: real): real { if a <= b then a else b }

  function Area(b: Box): real { Max(0.0, b.x2 - b.x1) * Max(0.0, b.y2 - b.y1) }

  function Intersection(a: Box, b: Box): real {
    Max(0.0, Min(a.x2, b.x2) - Max(a.x1, b.x1)) * Max(0.0, Min(a.y2, b.y2) - Max(a.y1, b.y1))
  }

  /** Intersection over union, 0 without area. */
  function Fraction(inter: real, areaA: real, areaB: real): real {
    var union := areaA + areaB - inter;
    if union <= 0.0 then 0.0 else inter / union
  }

  /** `iou`. */
  function Iou(a: Box, b: Box): real { Fraction(Intersection(a, b), Area(a), Area(b)) }

  lemma {:induction false} ProductMonotone(w: real, h: real, w': real, h': real)
    requires 0.0 <= w <= w' && 0.0 <= h <= h'
    ensures 0.0 <= w * h <= w' * h'
  {
    assert (w' - w) * h >= 0.0 && w' * (h' - h) >= 0.0;
  }

  lemma {:induction false} IntersectionFits(a: Box, b: Box)
    ensures 0.0 <= Intersection(a, b) <= Area(a)
  {
    ProductMonotone(Max(0.0, Min(a.x2, b.x2) - Max(a.x1, b.x1)),
                    Max(0.0, Min(a.y2, b.y2) - Max(a.y1, b.y1)),
                    Max(0.0, a.x2 - a.x1), Max(0.0, a.y2 - a.y1));
  }

  lemma {:induction false} IouIsSymmetric(a: Box, b: Box)
    ensures Intersection(a, b) == Intersection(b, a) && Iou(a, b) == Iou(b, a)
  {
    assert Min(a.x2, b.x2) == Min(b.x2, a.x2) && Max(a.x1, b.x1) == Max(b.x1, a.x1);
    assert Min(a.y2, b.y2) == Min(b.y2, a.y2) && Max(a.y1, b.y1) == Max(b.y1, a.y1);
  }

  lemma {:induction false} FractionLaws(inter: real, areaA: real, areaB: real)
    requires 0.0 <= inter <= areaA && inter <= areaB && areaA + areaB - inter > 0.0
    ensures 0.0 <= inter / (areaA + areaB - inter) <= 1.0
    ensures inter / (areaA + areaB - inter) == 0.0 <==> inter == 0.0
  {
    RatioBounds(inter, areaA + areaB - inter);
  }

  /** The overlap is a symmetric fraction, positive exactly when the boxes share area. */
  lemma {:induction false} IouLaws(a: Box, b: Box)
    ensures Iou(a, b) == Iou(b, a)
    ensures 0.0 <= Iou(a, b) <= 1.0
    ensures Iou(a, b) > 0.0 <==> Intersection(a, b) > 0.0
  {
    IouIsSymmetric(a, b);
    IntersectionFits(a, b);
    IntersectionFits(b, a);
    if Area(a) + Area(b) - Intersection(a, b) > 0.0 {
      FractionLaws(Intersection(a, b), Area(a), Area(b));
    }
  }

  /** The point lies within the box, off its border. */
  predicate Inside(b: Box, x: real, y: real) { b.x1 < x < b.x2 && b.y1 < y < b.y2 }

  /** The part two boxes have in common. */
  function Meet(a: Box, b: Box): Box {
    Box(Max(a.x1, b.x1), Max(a.y1, b.y1), Min(a.x2, b.x2), Min(a.y2, b.y2))
  }

  lemma {:induction false} MeetIsCommon(a: Box, b: Box)
    ensures forall x, y :: Inside(Meet(a, b), x, y) <==> Inside(a, x, y) && Inside(b, x, y)
    ensures Intersection(a, b) == Area(Meet(a, b))
  {
  }

  /** A box has area exactly when it has a point inside, and then it is width times height. */
  lemma {:induction false} AreaMeans(b: Box)
    ensures Area(b) >= 0.0 && (Area(b) > 0.0 <==> exists x, y :: Inside(b, x, y))
    ensures Area(b) > 0.0 ==> Area(b) == (b.x2 - b.x1) * (b.y2 - b.y1)
  {
    ProductMonotone(0.0, 0.0, Max(0.0, b.x2 - b.x1), Max(0.0, b.y2 - b.y1));
    if b.x1 < b.x2 && b.y1 < b.y2 {
      assert Inside(b, (b.x1 + b.x2) / 2.0, (b.y1 + b.y2) / 2.0);
      PositiveProduct(b.x2 - b.x1, b.y2 - b.y1);
    }
  }

  lemma {:induction false} PositiveProduct(w: real, h: real)
    requires w > 0.0 && h > 0.0
    ensures w * h > 0.0
  {
  }

  /** Two boxes overlap exactly when they have a point in common. */
  lemma {:induction false} OverlapMeans(a: Box, b: Box)
    ensures Iou(a, b) > 0.0 <==> exists x, y :: Inside(a, x, y) && Inside(b, x, y)
  {
    IouLaws(a, b);
    MeetIsCommon(a, b);
    AreaMeans(Meet(a, b));
    if x, y :| Inside(a, x, y) && Inside(b, x, y) {
      assert Inside(Meet(a, b), x, y);
    }
    if x, y :| Inside(Meet(a, b), x, y) {
      assert Inside(a, x, y) && Inside(b, x, y);
    }
  }

  /** The overlap is the common area as a fraction of the joint area. */
  lemma {:induction false} IouMeans(a: Box, b: Box)
    ensures Iou(a, b) * (Area(a) + Area(b) - Area(Meet(a, b))) == Area(Meet(a, b))
  {
    IouTimesUnion(a, b);
    assert Intersection(a, b) == Area(Meet(a, b)) by { MeetIsCommon(a, b); }
  }

  lemma {:induction false} IouTimesUnion(a: Box, b: Box)
    ensures Iou(a, b) * (Area(a) + Area(b) - Intersection(a, b)) == Intersection(a, b)
  {
    assert 0.0 <= Intersection(a, b) <= Area(a) by { IntersectionFits(a, b); }
    assert Intersection(a, b) <= Area(b) by {
      IntersectionFits(b, a);
      IouIsSymmetric(a, b);
    }
    FractionOf(Intersection(a, b), Area(a), Area(b));
  }

  lemma {:induction false} FractionOf(inter: real, areaA: real, areaB: real)
    requires 0.0 <= inter <= areaA && inter <= areaB
    ensures Fraction(inter, areaA, areaB) * (areaA + areaB - inter) == inter
  {
    var union := areaA + areaB - inter;
    if union > 0.0 {
      Quotient(inter, union);
    }
  }

  // ---------- the assignment one prediction gets ----------

  /** A true positive needs a valid box at the threshold; an overlap of 0 never counts. */
  predicate Eligible(p: Pred, g: Truth, thr: real) {
    !g.invalid && Iou(p.box, g.box) >= thr && Iou(p.box, g.box) > 0.0
  }

  /** The scan of the first `n` boxes: the best free eligible box and its overlap, -1 for none. */
  function Scan(p: Pred, gt: seq<Truth>, taken: set<int>, thr: real, n: nat): (r: (int, real))
    requires n <= |gt|
    ensures -1 <= r.0 < n && r.1 >= 0.0
  {
    if n == 0 then (-1, 0.0)
    else
      var (k, best) := Scan(p, gt, taken, thr, n - 1);
      var g := gt[n - 1];
      if n - 1 in taken || g.invalid then (k, best)
      else
        var v := Iou(p.box, g.box);
        if v >= thr && v > best then (n - 1, v) else (k, best)
  }

  function Choose(p: Pred, gt: seq<Truth>, taken: set<int>, thr: real): (k: int)
    ensures -1 <= k < |gt|
  {
    Scan(p, gt, taken, thr, |gt|).0
  }

  /** `k` is the first box of largest overlap among the free eligible ones; -1 means there is none. */
  ghost predicate IsFirstBest(p: Pred, gt: seq<Truth>, taken: set<int>, thr: real, n: nat, k: int)
    requires n <= |gt|
  {
    if k == -1 then
      forall i :: 0 <= i < n && i !in taken ==> !Eligible(p, gt[i], thr)
    else
      && 0 <= k < n && k !in taken && Eligible(p, gt[k], thr)
      && (forall i :: 0 <= i < n && i !in taken && Eligible(p, gt[i], thr) ==>
            Iou(p.box, gt[i].box) <= Iou(p.box, gt[k].box))
      && (forall i :: 0 <= i < k && i !in taken && Eligible(p, gt[i], thr) ==>
            Iou(p.box, gt[i].box) < Iou(p.box, gt[k].box))
  }

  lemma {:induction false} ScanIsFirstBest(p: Pred, gt: seq<Truth>, taken: set<int>, thr: real, n: nat)
    requires n <= |gt|
    ensures var (k, best) := Scan(p, gt, taken, thr, n);
            IsFirstBest(p, gt, taken, thr, n, k)
            && best == if k == -1 then 0.0 else Iou(p.box, gt[k].box)
  {
    if n > 0 {
      ScanIsFirstBest(p, gt, taken, thr, n - 1);
    }
  }

  // ---------- the greedy assignment ----------

  function Claim(taken: set<int>, k: int): set<int> {
    if k >= 0 then taken + {k} else taken
  }

  /** The box each prediction is assigned, in order, -1 for none. */
  function Assign(preds: seq<Pred>, gt: seq<Truth>, taken: set<int>, thr: real): (a: seq<int>)
    ensures |a| == |preds|
  {
    if preds == [] then []
    else
      var k := Choose(preds[0], gt, taken, thr);
      [k] + Assign(preds[1..], gt, Claim(taken, k), thr)
  }

  function Flags(a: seq<int>): (f: seq<bool>)
    ensures |f| == |a| && forall i :: 0 <= i < |a| ==> f[i] == (a[i] >= 0)
  {
    seq(|a|, i requires 0 <= i < |a| => a[i] >= 0)
  }

  lemma {:induction false} FlagsCons(k: int, rest: seq<int>)
    ensures Flags([k] + rest) == [k >= 0] + Flags(rest)
  {
  }

  lemma {:induction false} FlagsSnoc(a: seq<int>, k: int)
    ensures Flags(a + [k]) == Flags(a) + [k >= 0]
  {
  }

  predicate HigherScore(a: Pred, b: Pred) { a.score >= b.score }

  /** Predictions in the order the matcher visits them: by falling score, ties in input order. */
  function Ranked(preds: seq<Pred>): seq<Pred> { SortBy(preds, HigherScore) }

  lemma {:induction false} RankedLength(preds: seq<Pred>)
    ensures |Ranked(preds)| == |preds|
  {
    SortMembers(preds, HigherScore);
  }

  /** What `_match` returns: one flag per prediction, in ranked order. */
  function MatchFlags(preds: seq<Pred>, gt: seq<Truth>, thr: real): (f: seq<bool>)
    ensures |f| == |preds|
  {
    RankedLength(preds);
    Flags(Assign(Ranked(preds), gt, {}, thr))
  }

  /** One step of the assignment. */
  lemma {:induction false} AssignStep(order: seq<Pred>, j: nat, gt: seq<Truth>, taken: set<int>, thr: real)
    requires j < |order|
    ensures Assign(order[j..], gt, taken, thr)
         == [Choose(order[j], gt, taken, thr)]
            + Assign(order[j + 1..], gt, Claim(taken, Choose(order[j], gt, taken, thr)), thr)
  {
    assert order[j..][0] == order[j] && order[j..][1..] == order[j + 1..];
  }

  /** `_match`. */
  method Match(preds: seq<Pred>, gt: seq<Truth>, thr: real) returns (flags: seq<bool>)
    ensures flags == MatchFlags(preds, gt, thr)
  {
    var order := Ranked(preds);
    var matched := new bool[|gt|](_ => false);
    ghost var taken: set<int> := {};
    ghost var a: seq<int> := [];
    ghost var whole := Assign(order, gt, {}, thr);
    flags := [];
    assert order[0..] == order;
    for j := 0 to |order|
      invariant forall k :: 0 <= k < |gt| ==> (matched[k] <==> k in taken)
      invariant flags == Flags(a)
      invariant a + Assign(order[j..], gt, taken, thr) == whole
    {
      var bestK := BestFree(order[j], gt, matched, thr, taken);
      AssignStep(order, j, gt, taken, thr);
      FlagsSnoc(a, bestK);
      Associate(a, [bestK], Assign(order[j + 1..], gt, Claim(taken, bestK), thr));
      a := a + [bestK];
      taken := Claim(taken, bestK);
      if bestK >= 0 {
        matched[bestK] := true;
        flags := flags + [true];
      } else {
        flags := flags + [false];
      }
    }
    assert a == whole;
  }

  /** The inner loop of `_match`. */
  method BestFree(p: Pred, gt: seq<Truth>, matched: array<bool>, thr: real, ghost taken: set<int>)
    returns (bestK: int)
    requires matched.Length == |gt|
    requires forall k :: 0 <= k < |gt| ==> (matched[k] <==> k in taken)
    ensures bestK == Choose(p, gt, taken, thr)
  {
    var bestIou := 0.0;
    bestK := -1;
    for k := 0 to |gt|
      invariant (bestK, bestIou) == Scan(p, gt, taken, thr, k)
    {
      if !matched[k] && !gt[k].invalid {
        var v := Iou(p.box, gt[k].box);
        if v >= thr && v > bestIou {
          bestIou := v;
          bestK := k;
        }
      }
    }
  }

  // ---------- properties of the assignment ----------

  /** Every assigned box is free, eligible and assigned once. */
  lemma {:induction false} AssignSound(preds: seq<Pred>, gt: seq<Truth>, taken: set<int>, thr: real)
    ensures var a := Assign(preds, gt, taken, thr);
      && (forall i :: 0 <= i < |a| && a[i] != -1 ==>
            0 <= a[i] < |gt| && a[i] !in taken && Eligible(preds[i], gt[a[i]], thr))
      && (forall i, j :: 0 <= i < j < |a| && a[i] != -1 ==> a[i] != a[j])
  {
    if preds != [] {
      var k := Choose(preds[0], gt, taken, thr);
      ScanIsFirstBest(preds[0], gt, taken, thr, |gt|);
      AssignSound(preds[1..], gt, Claim(taken, k), thr);
    }
  }

  /** Box `k` was gone before prediction `i` had its turn. */
  ghost predicate Gone(a: seq<int>, taken: set<int>, i: nat, k: int) {
    k in taken || exists j :: 0 <= j < i < |a| && a[j] == k
  }

  /** A prediction only misses an eligible box, or settles for less, when the box was gone. */
  lemma {:induction false} AssignGreedy(preds: seq<Pred>, gt: seq<Truth>, taken: set<int>, thr: real,
                                        i: nat, k: int)
    requires i < |preds| && 0 <= k < |gt| && Eligible(preds[i], gt[k], thr)
    requires var a := Assign(preds, gt, taken, thr);
      a[i] != -1 ==>
        && 0 <= a[i] < |gt|
        && (Iou(preds[i].box, gt[k].box) > Iou(preds[i].box, gt[a[i]].box)
            || (Iou(preds[i].box, gt[k].box) == Iou(preds[i].box, gt[a[i]].box) && k < a[i]))
    ensures Gone(Assign(preds, gt, taken, thr), taken, i, k)
  {
    var a := Assign(preds, gt, taken, thr);
    if i == 0 {
      ScanIsFirstBest(preds[0], gt, taken, thr, |gt|);
    } else {
      var c := Choose(preds[0], gt, taken, thr);
      var rest := Assign(preds[1..], gt, Claim(taken, c), thr);
      AssignGreedy(preds[1..], gt, Claim(taken, c), thr, i - 1, k);
      if k !in taken && k != c {
        var j :| 0 <= j < i - 1 && rest[j] == k;
        assert a[j + 1] == k;
      } else if k !in taken {
        assert a[0] == k;
      }
    }
  }

  /** The matcher's decisions depend only on the predictions ranked before: it is prefix-stable. */
  lemma {:induction false} AssignPrefix(p: seq<Pred>, q: seq<Pred>, gt: seq<Truth>, taken: set<int>, thr: real)
    ensures Assign(p + q, gt, taken, thr)[..|p|] == Assign(p, gt, taken, thr)
  {
    if p != [] {
      var k := Choose(p[0], gt, taken, thr);
      assert (p + q)[1..] == p[1..] + q;
      AssignPrefix(p[1..], q, gt, Claim(taken, k), thr);
    }
  }

  // ---------- cardinalities ----------

  function Valid(): Truth -> bool { (g: Truth) => !g.invalid }

  ghost function Assigned(a: seq<int>): set<int> { set i | 0 <= i < |a| && a[i] >= 0 :: a[i] }

  ghost function HitRanks(a: seq<int>): set<int> { set i | 0 <= i < |a| && a[i] >= 0 }

  function IsTrue(): bool -> bool { b => b }

  lemma {:induction false} HitRanksStep(a: seq<int>, k: int)
    ensures HitRanks(a + [k]) == HitRanks(a) + (if k >= 0 then {|a|} else {}) && |a| !in HitRanks(a)
  {
    assert (a + [k])[|a|] == k && (a + [k])[..|a|] == a;
  }

  lemma {:induction false} HitRanksCount(a: seq<int>)
    ensures |HitRanks(a)| == Count(Flags(a), IsTrue())
  {
    if a != [] {
      var n := |a| - 1;
      var init, k := a[..n], a[n];
      assert a == init + [k];
      HitRanksCount(init);
      HitRanksStep(init, k);
      FlagsSnoc(init, k);
      CountAppend(Flags(init), [k >= 0], IsTrue());
    }
  }

  lemma {:induction false} ImageCount(a: seq<int>, s: set<int>)
    requires forall i :: i in s ==> 0 <= i < |a|
    requires forall i, j :: i in s && j in s && a[i] == a[j] ==> i == j
    ensures |(set i | i in s :: a[i])| == |s|
  {
    if s != {} {
      var x := Pick(s);
      ImageCount(a, s - {x});
      var rest := set i | i in s - {x} :: a[i];
      assert (set i | i in s :: a[i]) == rest + {a[x]};
      assert a[x] !in rest;
    }
  }

  lemma {:induction false} AssignedCount(a: seq<int>)
    requires forall i, j :: 0 <= i < j < |a| && a[i] != -1 ==> a[i] != a[j]
    ensures |Assigned(a)| == |HitRanks(a)|
  {
    ImageCount(a, HitRanks(a));
    assert Assigned(a) == set i | i in HitRanks(a) :: a[i];
  }

  lemma {:induction false} ValidIndices(gt: seq<Truth>)
    ensures |(set k | 0 <= k < |gt| && !gt[k].invalid)| == Count(gt, Valid())
  {
    if gt != [] {
      var n := |gt| - 1;
      ValidIndices(gt[..n]);
      CountAppend(gt[..n], [gt[n]], Valid());
      assert gt == gt[..n] + [gt[n]];
      assert (set k | 0 <= k < |gt| && !gt[k].invalid)
          == (set k | 0 <= k < n && !gt[..n][k].invalid) + if gt[n].invalid then {} else {n};
    }
  }

  /** There are at most as many true positives as valid boxes. */
  lemma {:induction false} TruePositivesBounded(preds: seq<Pred>, gt: seq<Truth>, thr: real)
    ensures Count(MatchFlags(preds, gt, thr), IsTrue()) <= Count(gt, Valid())
  {
    var a := Assign(Ranked(preds), gt, {}, thr);
    AssignSound(Ranked(preds), gt, {}, thr);
    HitRanksCount(a);
    AssignedCount(a);
    ValidIndices(gt);
    SubsetSize(Assigned(a), set k | 0 <= k < |gt| && !gt[k].invalid);
  }

  // ---------- how far greedy is from optimal ----------

  /** A one-to-one matching of predictions to boxes at the threshold. */
  ghost predicate IsMatching(m: set<(int, int)>, preds: seq<Pred>, gt: seq<Truth>, thr: real) {
    && (forall e :: e in m ==>
          0 <= e.0 < |preds| && 0 <= e.1 < |gt| && Eligible(preds[e.0], gt[e.1], thr))
    && (forall e, f :: e in m && f in m && (e.0 == f.0 || e.1 == f.1) ==> e == f)
  }

  lemma {:induction false} FirstsFit(m: set<(int, int)>, s: set<int>)
    requires forall e :: e in m ==> e.0 in s
    requires forall e, f :: e in m && f in m && e.0 == f.0 ==> e == f
    ensures |m| <= |s|
  {
    if m != {} {
      var e :| e in m;
      FirstsFit(m - {e}, s - {e.0});
    }
  }

  lemma {:induction false} SecondsFit(m: set<(int, int)>, s: set<int>)
    requires forall e :: e in m ==> e.1 in s
    requires forall e, f :: e in m && f in m && e.1 == f.1 ==> e == f
    ensures |m| <= |s|
  {
    if m != {} {
      var e :| e in m;
      SecondsFit(m - {e}, s - {e.1});
    }
  }

  /** The pairs of a matching whose prediction greedy leaves unmatched use boxes greedy assigned. */
  lemma {:induction false} MissedPairsFit(order: seq<Pred>, gt: seq<Truth>, thr: real, m: set<(int, int)>)
    requires IsMatching(m, order, gt, thr)
    requires forall e :: e in m ==> Assign(order, gt, {}, thr)[e.0] == -1
    ensures |m| <= |Assigned(Assign(order, gt, {}, thr))|
  {
    var a := Assign(order, gt, {}, thr);
    forall e | e in m ensures e.1 in Assigned(a) {
      AssignGreedy(order, gt, {}, thr, e.0, e.1);
      var j :| 0 <= j < e.0 && a[j] == e.1;
    }
    SecondsFit(m, Assigned(a));
  }

  lemma {:induction false} RankedHalfOptimal(preds: seq<Pred>, gt: seq<Truth>, thr: real, m: set<(int, int)>)
    requires IsMatching(m, Ranked(preds), gt, thr)
    ensures |m| <= 2 * Count(MatchFlags(preds, gt, thr), IsTrue())
  {
    var a := Assign(Ranked(preds), gt, {}, thr);
    var hit := set e | e in m && a[e.0] >= 0;
    var missed := m - hit;
    assert |m| == |hit| + |missed| by { assert m == hit + missed; }
    assert |hit| <= |HitRanks(a)| by { FirstsFit(hit, HitRanks(a)); }
    assert |missed| <= |Assigned(a)| by {
      AssignSound(Ranked(preds), gt, {}, thr);
      MissedPairsFit(Ranked(preds), gt, thr, missed);
    }
    assert |Assigned(a)| == |HitRanks(a)| by {
      AssignSound(Ranked(preds), gt, {}, thr);
      AssignedCount(a);
    }
    HitRanksCount(a);
  }

  lemma {:induction false} MovedSize(m: set<(int, int)>, f: seq<int>)
    requires forall e :: e in m ==> 0 <= e.0 < |f|
    requires forall i, j :: 0 <= i < j < |f| ==> f[i] != f[j]
    ensures |(set e | e in m :: (f[e.0], e.1))| == |m|
  {
    if m != {} {
      var x := Pick(m);
      MovedSize(m - {x}, f);
      var rest := set e | e in m - {x} :: (f[e.0], e.1);
      assert (set e | e in m :: (f[e.0], e.1)) == rest + {(f[x.0], x.1)};
      assert (f[x.0], x.1) !in rest;
    }
  }

  /** A matching of one arrangement of the predictions is a matching of any other. */
  lemma {:induction false} MoveMatching(m: set<(int, int)>, p: seq<Pred>, q: seq<Pred>, gt: seq<Truth>, thr: real)
    returns (moved: set<(int, int)>)
    requires multiset(p) == multiset(q) && IsMatching(m, p, gt, thr)
    ensures IsMatching(moved, q, gt, thr) && |moved| == |m|
  {
    var f := Reindex(p, q);
    MovedSize(m, f);
    moved := set e | e in m :: (f[e.0], e.1);
  }

  /** No one-to-one matching of the predictions has more than twice as many pairs as greedy has true
      positives. */
  lemma {:induction false} GreedyIsHalfOptimal(preds: seq<Pred>, gt: seq<Truth>, thr: real, m: set<(int, int)>)
    requires IsMatching(m, preds, gt, thr)
    ensures |m| <= 2 * Count(MatchFlags(preds, gt, thr), IsTrue())
  {
    SortSorts(preds, HigherScore);
    var moved := MoveMatching(m, preds, Ranked(preds), gt, thr);
    RankedHalfOptimal(preds, gt, thr, moved);
  }

  /** Greedy's true positives are themselves such a matching. */
  lemma {:induction false} GreedyIsMatching(preds: seq<Pred>, gt: seq<Truth>, thr: real)
    ensures exists m :: IsMatching(m, preds, gt, thr) && |m| == Count(MatchFlags(preds, gt, thr), IsTrue())
  {
    RankedIsMatching(preds, gt, thr);
    SortSorts(preds, HigherScore);
    var a := Assign(Ranked(preds), gt, {}, thr);
    var m := MoveMatching(set i | i in HitRanks(a) :: (i, a[i]), Ranked(preds), preds, gt, thr);
  }

  lemma {:induction false} RankedIsMatching(preds: seq<Pred>, gt: seq<Truth>, thr: real)
    ensures var a := Assign(Ranked(preds), gt, {}, thr);
            var m := set i | i in HitRanks(a) :: (i, a[i]);
            IsMatching(m, Ranked(preds), gt, thr)
            && |m| == Count(MatchFlags(preds, gt, thr), IsTrue())
  {
    var a := Assign(Ranked(preds), gt, {}, thr);
    AssignSound(Ranked(preds), gt, {}, thr);
    HitRanksCount(a);
    PairsCount(a, HitRanks(a));
  }

  lemma {:induction false} PairsCount(a: seq<int>, s: set<int>)
    requires forall i :: i in s ==> 0 <= i < |a|
    ensures |(set i | i in s :: (i, a[i]))| == |s|
  {
    if s != {} {
      var x := Pick(s);
      PairsCount(a, s - {x});
      var rest := set i | i in s - {x} :: (i, a[i]);
      assert (set i | i in s :: (i, a[i])) == rest + {(x, a[x])};
      assert (x, a[x]) !in rest;
    }
  }

  const LEFT := Box(0.0, 0.0, 1.0, 1.0)
  const RIGHT := Box(1.0, 0.0, 2.0, 1.0)
  const BOTH := Box(0.0, 0.0, 2.0, 1.0)

  /** The overlap of two boxes of unit height that meet over a width of `w`. */
  lemma {:induction false} UnitHeightIou(a: Box, b: Box, w: real)
    requires a.y1 == b.y1 == 0.0 && a.y2 == b.y2 == 1.0 && a.x1 < a.x2 && b.x1 < b.x2
    requires w == Max(0.0, Min(a.x2, b.x2) - Max(a.x1, b.x1))
    ensures Iou(a, b) == w / (a.x2 - a.x1 + b.x2 - b.x1 - w)
  {
    assert Intersection(a, b) == w * 1.0;
    assert Area(a) == (a.x2 - a.x1) * 1.0 && Area(b) == (b.x2 - b.x1) * 1.0;
  }

  lemma {:induction false} HalfOverlaps()
    ensures Iou(BOTH, LEFT) == 0.5 && Iou(BOTH, RIGHT) == 0.5
    ensures Iou(LEFT, LEFT) == 1.0 && Iou(LEFT, RIGHT) == 0.0
  {
    UnitHeightIou(BOTH, LEFT, 1.0);
    UnitHeightIou(BOTH, RIGHT, 1.0);
    UnitHeightIou(LEFT, LEFT, 1.0);
    UnitHeightIou(LEFT, RIGHT, 0.0);
  }

  const TIGHT_PREDS := [Pred(2.0, BOTH), Pred(1.0, LEFT)]
  const TIGHT_GT := [Truth(LEFT, false), Truth(RIGHT, false)]

  lemma {:induction false} TightAssign()
    ensures Assign(TIGHT_PREDS, TIGHT_GT, {}, 0.5) == [0, -1]
  {
    HalfOverlaps();
    var p, q, gt := TIGHT_PREDS[0], TIGHT_PREDS[1], TIGHT_GT;
    assert Scan(p, gt, {}, 0.5, 1) == (0, 0.5);
    assert Choose(p, gt, {}, 0.5) == 0;
    assert Scan(q, gt, {0}, 0.5, 1) == (-1, 0.0);
    assert Choose(q, gt, {0}, 0.5) == -1;
    assert TIGHT_PREDS[1..] == [q] && [q][1..] == [];
    assert Assign([q], gt, {0}, 0.5) == [-1];
    assert Claim({}, 0) == {0};
  }

  lemma {:induction false} TightMatching()
    ensures IsMatching({(0, 1), (1, 0)}, TIGHT_PREDS, TIGHT_GT, 0.5)
  {
    HalfOverlaps();
    assert Eligible(TIGHT_PREDS[0], TIGHT_GT[1], 0.5);
    assert Eligible(TIGHT_PREDS[1], TIGHT_GT[0], 0.5);
  }

  /** At the evaluator's threshold the factor two is reached: one wide prediction takes the only box
      of a second one and leaves another box unmatched. */
  lemma {:induction false} HalfIsTight()
    ensures Count(MatchFlags(TIGHT_PREDS, TIGHT_GT, 0.5), IsTrue()) == 1
    ensures IsMatching({(0, 1), (1, 0)}, TIGHT_PREDS, TIGHT_GT, 0.5) && |{(0, 1), (1, 0)}| == 2
  {
    TightMatching();
    TightFlags();
    TightCount([true, false]);
  }

  lemma {:induction false} TightFlags()
    ensures MatchFlags(TIGHT_PREDS, TIGHT_GT, 0.5) == [true, false]
  {
    TightAssign();
    assert Ranked(TIGHT_PREDS) == TIGHT_PREDS by {
      SortedIsFixed(TIGHT_PREDS, HigherScore);
    }
  }

  lemma {:induction false} TightCount(flags: seq<bool>)
    requires flags == [true, false]
    ensures Count(flags, IsTrue()) == 1
  {
    assert flags[1..] == [false] && flags[1..][1..] == [];
  }

  // ---------- ignore regions do not influence the matching ----------

  /** Where box `k` stands once the invalid boxes are deleted. */
  function Position(gt: seq<Truth>, k: nat): nat
    requires k <= |gt|
  {
    Count(gt[..k], Valid())
  }

  lemma {:induction false} PositionLaws(gt: seq<Truth>, k: nat)
    requires k < |gt|
    ensures Position(gt, k + 1) == Position(gt, k) + if gt[k].invalid then 0 else 1
    ensures !gt[k].invalid ==>
              Position(gt, k) < |Filter(gt, Valid())| && Filter(gt, Valid())[Position(gt, k)] == gt[k]
  {
    assert gt[..k + 1] == gt[..k] + [gt[k]];
    CountAppend(gt[..k], [gt[k]], Valid());
    assert gt == gt[..k] + ([gt[k]] + gt[k + 1..]);
    FilterAppend(gt[..k], [gt[k]] + gt[k + 1..], Valid());
    CountIsFilterLength(gt[..k], Valid());
    assert ([gt[k]] + gt[k + 1..])[1..] == gt[k + 1..];
  }

  lemma {:induction false} PositionMonotone(gt: seq<Truth>, j: nat, k: nat)
    requires j <= k <= |gt|
    ensures Position(gt, j) <= Position(gt, k)
    ensures j < k && !gt[j].invalid ==> Position(gt, j) < Position(gt, k)
    decreases k - j
  {
    if j < k {
      PositionLaws(gt, j);
      PositionMonotone(gt, j + 1, k);
    }
  }

  /** The boxes taken in the full list and in the cleaned list correspond. */
  ghost predicate InSync(gt: seq<Truth>, taken: set<int>, taken': set<int>) {
    forall k :: 0 <= k < |gt| && !gt[k].invalid ==> (k in taken <==> Position(gt, k) in taken')
  }

  lemma {:induction false} ScanOne(p: Pred, gt: seq<Truth>, taken: set<int>, thr: real, i: nat)
    requires i < |gt| && !gt[i].invalid
    ensures var (k, best) := Scan(p, gt, taken, thr, i);
            var v := Iou(p.box, gt[i].box);
            Scan(p, gt, taken, thr, i + 1) == if i !in taken && v >= thr && v > best then (i, v) else (k, best)
  {
  }

  lemma {:induction false} ScanWithoutInvalid(p: Pred, gt: seq<Truth>, taken: set<int>, taken': set<int>,
                                              thr: real, n: nat)
    requires n <= |gt| && InSync(gt, taken, taken')
    ensures Position(gt, n) <= |Filter(gt, Valid())|
    ensures var (k, best) := Scan(p, gt, taken, thr, n);
            var (k', best') := Scan(p, Filter(gt, Valid()), taken', thr, Position(gt, n));
            best == best' && (if k == -1 then k' == -1 else !gt[k].invalid && k' == Position(gt, k))
  {
    if n > 0 {
      var i, valid := n - 1, Filter(gt, Valid());
      PositionLaws(gt, i);
      ScanWithoutInvalid(p, gt, taken, taken', thr, i);
      if !gt[i].invalid {
        ScanOne(p, gt, taken, thr, i);
        ScanOne(p, valid, taken', thr, Position(gt, i));
      }
    } else {
      assert gt[..0] == [];
    }
  }

  lemma {:induction false} ClaimInSync(gt: seq<Truth>, taken: set<int>, taken': set<int>, k: int)
    requires InSync(gt, taken, taken') && 0 <= k < |gt| && !gt[k].invalid
    ensures InSync(gt, taken + {k}, taken' + {Position(gt, k)})
  {
    forall j | 0 <= j < |gt| && !gt[j].invalid
      ensures j in taken + {k} <==> Position(gt, j) in taken' + {Position(gt, k)}
    {
      if j < k {
        PositionMonotone(gt, j, k);
      } else if k < j {
        PositionMonotone(gt, k, j);
      }
    }
  }

  lemma {:induction false} ChooseWithoutInvalid(p: Pred, gt: seq<Truth>, taken: set<int>, taken': set<int>, thr: real)
    requires InSync(gt, taken, taken')
    ensures var k, k' := Choose(p, gt, taken, thr), Choose(p, Filter(gt, Valid()), taken', thr);
            (k >= 0 <==> k' >= 0) && InSync(gt, Claim(taken, k), Claim(taken', k'))
  {
    assert gt[..|gt|] == gt;
    CountIsFilterLength(gt, Valid());
    ScanWithoutInvalid(p, gt, taken, taken', thr, |gt|);
    var k := Choose(p, gt, taken, thr);
    if k >= 0 {
      ClaimInSync(gt, taken, taken', k);
    }
  }

  lemma {:induction false} AssignWithoutInvalid(preds: seq<Pred>, gt: seq<Truth>, taken: set<int>,
                                                taken': set<int>, thr: real)
    requires InSync(gt, taken, taken')
    ensures Flags(Assign(preds, gt, taken, thr)) == Flags(Assign(preds, Filter(gt, Valid()), taken', thr))
  {
    if preds != [] {
      var clean := Filter(gt, Valid());
      ChooseWithoutInvalid(preds[0], gt, taken, taken', thr);
      var k, k' := Choose(preds[0], gt, taken, thr), Choose(preds[0], clean, taken', thr);
      AssignWithoutInvalid(preds[1..], gt, Claim(taken, k), Claim(taken', k'), thr);
      var rest := Assign(preds[1..], gt, Claim(taken, k), thr);
      var rest' := Assign(preds[1..], clean, Claim(taken', k'), thr);
      FlagsCons(k, rest);
      FlagsCons(k', rest');
    }
  }

  /** Deleting the ignore regions first leaves every flag as it was. */
  lemma {:induction false} MatchIgnoresInvalid(preds: seq<Pred>, gt: seq<Truth>, thr: real)
    ensures MatchFlags(preds, gt, thr) == MatchFlags(preds, Filter(gt, Valid()), thr)
  {
    AssignWithoutInvalid(Ranked(preds), gt, {}, {}, thr);
  }
}
