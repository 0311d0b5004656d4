/** The rank-based ROC AUC of benchmarks/pad_score.py. Scores are reals. */
module RocAuc {
  import opened Reals
  import opened Sequences

  predicate Ascending(a: real, b: real) { a <= b }

  function EqualTo(t: real): real -> bool { s => s == t }

  // ---------- the meaning: every (attack, genuine) pair is compared once ----------

  /** What one comparison is worth: a tie counts half. */
  function Win(a: real, g: real): real {
    if a > g then 1.0 else if a == g then 0.5 else 0.0
  }

  function WinsOver(a: real, genuine: seq<real>): real {
    if genuine == [] then 0.0 else Win(a, genuine[0]) + WinsOver(a, genuine[1..])
  }

  function PairWins(attack: seq<real>, genuine: seq<real>): real {
    if attack == [] then 0.0 else WinsOver(attack[0], genuine) + PairWins(attack[1..], genuine)
  }

  function PerPair(wins: real, n: nat, m: nat): real
    requires n > 0 && m > 0
  {
    assert n as real * m as real > 0.0;
    wins / (n as real * m as real)
  }

  /** The share of (attack, genuine) pairs in which the attack scores higher, ties counting half. */
  function Auc(attack: seq<real>, genuine: seq<real>): real
    requires attack != [] && genuine != []
  {
    PerPair(PairWins(attack, genuine), |attack|, |genuine|)
  }

  lemma {:induction false} WinsOverCounts(a: real, g: seq<real>)
    ensures WinsOver(a, g) == Count(g, Below(a)) as real + Count(g, EqualTo(a)) as real / 2.0
  {
    if g != [] {
      WinsOverCounts(a, g[1..]);
    }
  }

  // ---------- wins as sets of pairs ----------

  /** The pairs in which the attack scores above the genuine sample. */
  ghost function Above(attack: seq<real>, genuine: seq<real>): (r: set<(int, int)>)
    ensures forall e :: e in r <==> 0 <= e.0 < |attack| && 0 <= e.1 < |genuine| && attack[e.0] > genuine[e.1]
  {
    set i, j | 0 <= i < |attack| && 0 <= j < |genuine| && attack[i] > genuine[j] :: (i, j)
  }

  ghost function Tied(attack: seq<real>, genuine: seq<real>): (r: set<(int, int)>)
    ensures forall e :: e in r <==> 0 <= e.0 < |attack| && 0 <= e.1 < |genuine| && attack[e.0] == genuine[e.1]
  {
    set i, j | 0 <= i < |attack| && 0 <= j < |genuine| && attack[i] == genuine[j] :: (i, j)
  }

  lemma {:induction false} AddRow(before: set<(int, int)>, after: set<(int, int)>, n: int, row: set<int>)
    requires forall e :: e in before ==> e.0 < n
    requires forall e :: e in after <==> e in before || (e.0 == n && e.1 in row)
    ensures |after| == |before| + |row|
  {
    if row == {} {
      assert after == before;
    } else {
      var j := Pick(row);
      AddRow(before, after - {(n, j)}, n, row - {j});
    }
  }

  lemma {:induction false} PairWinsSnoc(a: seq<real>, x: real, g: seq<real>)
    ensures PairWins(a + [x], g) == PairWins(a, g) + WinsOver(x, g)
  {
    if a == [] {
      assert [] + [x] == [x] && [x][1..] == [];
    } else {
      assert (a + [x])[1..] == a[1..] + [x];
      PairWinsSnoc(a[1..], x, g);
    }
  }

  lemma {:induction false} AboveRow(a: seq<real>, x: real, g: seq<real>)
    ensures |Above(a + [x], g)| == |Above(a, g)| + Count(g, Below(x))
  {
    var row := set j | 0 <= j < |g| && x > g[j];
    CountIsSize(g, Below(x), row);
    AddRow(Above(a, g), Above(a + [x], g), |a|, row);
  }

  lemma {:induction false} TiedRow(a: seq<real>, x: real, g: seq<real>)
    ensures |Tied(a + [x], g)| == |Tied(a, g)| + Count(g, EqualTo(x))
  {
    var row := set j | 0 <= j < |g| && x == g[j];
    CountIsSize(g, EqualTo(x), row);
    AddRow(Tied(a, g), Tied(a + [x], g), |a|, row);
  }

  /** The wins are the pairs in which the attack scores higher, plus half of the tied pairs. */
  lemma {:induction false} PairWinsMeans(attack: seq<real>, genuine: seq<real>)
    ensures PairWins(attack, genuine) == |Above(attack, genuine)| as real + |Tied(attack, genuine)| as real / 2.0
  {
    if attack == [] {
      assert Above(attack, genuine) == {} && Tied(attack, genuine) == {};
    } else {
      var n := |attack| - 1;
      var a, x := attack[..n], attack[n];
      assert attack == a + [x];
      PairWinsMeans(a, genuine);
      PairWinsSnoc(a, x, genuine);
      WinsOverCounts(x, genuine);
      AboveRow(a, x, genuine);
      TiedRow(a, x, genuine);
    }
  }

  lemma {:induction false} WinsOverAppend(a: real, g: seq<real>, h: seq<real>)
    ensures WinsOver(a, g + h) == WinsOver(a, g) + WinsOver(a, h)
  {
    if g == [] {
      assert g + h == h;
    } else {
      assert (g + h)[1..] == g[1..] + h;
      WinsOverAppend(a, g[1..], h);
    }
  }

  lemma {:induction false} PairWinsAppend(a: seq<real>, g: seq<real>, h: seq<real>)
    ensures PairWins(a, g + h) == PairWins(a, g) + PairWins(a, h)
  {
    if a != [] {
      WinsOverAppend(a[0], g, h);
      PairWinsAppend(a[1..], g, h);
    }
  }

  lemma {:induction false} OneAgainstAll(x: real, g: seq<real>)
    ensures WinsOver(x, g) + PairWins(g, [x]) == |g| as real
  {
    if g != [] {
      OneAgainstAll(x, g[1..]);
      assert [x][1..] == [];
      assert WinsOver(g[0], [x]) == Win(g[0], x);
    }
  }

  /** Each pair's two comparisons add up to one. */
  lemma {:induction false} PairWinsComplement(a: seq<real>, g: seq<real>)
    ensures PairWins(a, g) + PairWins(g, a) == |a| as real * |g| as real
  {
    if a == [] {
      PairWinsNothing(g);
    } else {
      PairWinsComplement(a[1..], g);
      PairWinsAppend(g, [a[0]], a[1..]);
      assert a == [a[0]] + a[1..];
      OneAgainstAll(a[0], g);
      assert |a| as real * |g| as real == |a[1..]| as real * |g| as real + |g| as real;
    }
  }

  lemma {:induction false} PairWinsNothing(g: seq<real>)
    ensures PairWins(g, []) == 0.0
  {
    if g != [] {
      PairWinsNothing(g[1..]);
    }
  }

  lemma {:induction false} PairWinsNonNegative(a: seq<real>, g: seq<real>)
    ensures PairWins(a, g) >= 0.0
  {
    if a != [] {
      WinsOverCounts(a[0], g);
      PairWinsNonNegative(a[1..], g);
    }
  }

  // ---------- average ranks ----------

  /** The 1-based average rank of `v` in the pooled scores: half-way along its run of ties. */
  function AverageRank(pool: seq<real>, v: real): real {
    Count(pool, Below(v)) as real + (Count(pool, EqualTo(v)) as real + 1.0) / 2.0
  }

  function RankSum(attack: seq<real>, pool: seq<real>): real {
    if attack == [] then 0.0 else AverageRank(pool, attack[0]) + RankSum(attack[1..], pool)
  }

  lemma {:induction false} RankSumIsPairWins(attack: seq<real>, pool: seq<real>)
    ensures RankSum(attack, pool) == PairWins(attack, pool) + |attack| as real / 2.0
  {
    if attack != [] {
      RankSumIsPairWins(attack[1..], pool);
      WinsOverCounts(attack[0], pool);
    }
  }

  /** Subtracting the smallest possible rank sum leaves exactly the wins over the genuine scores. */
  lemma {:induction false} RankSumExcess(attack: seq<real>, genuine: seq<real>)
    ensures RankSum(attack, attack + genuine) - |attack| as real * (|attack| as real + 1.0) / 2.0
         == PairWins(attack, genuine)
  {
    RankSumIsPairWins(attack, attack + genuine);
    PairWinsAppend(attack, attack, genuine);
    PairWinsComplement(attack, attack);
  }

  lemma {:induction false} RanksIgnoreOrder(v: real, pool: seq<real>, sorted: seq<real>)
    requires multiset(pool) == multiset(sorted)
    ensures AverageRank(pool, v) == AverageRank(sorted, v)
  {
    CountPermutation(pool, sorted, Below(v));
    CountPermutation(pool, sorted, EqualTo(v));
  }

  lemma {:induction false} CountThree(low: seq<real>, run: seq<real>, high: seq<real>, p: real -> bool)
    ensures Count(low + (run + high), p) == Count(low, p) + Count(run, p) + Count(high, p)
  {
    CountAppend(low, run + high, p);
    CountAppend(run, high, p);
  }

  lemma {:induction false} RankBetween(low: seq<real>, run: seq<real>, high: seq<real>, v: real)
    requires forall x :: x in low ==> x < v
    requires forall x :: x in run ==> x == v
    requires forall x :: x in high ==> x > v
    ensures AverageRank(low + (run + high), v) == |low| as real + (|run| as real + 1.0) / 2.0
  {
    CountThree(low, run, high, Below(v));
    CountFull(low, Below(v));
    CountZero(run, Below(v));
    CountZero(high, Below(v));
    CountThree(low, run, high, EqualTo(v));
    CountZero(low, EqualTo(v));
    CountFull(run, EqualTo(v));
    CountZero(high, EqualTo(v));
  }

  lemma {:induction false} BelowRun(c: seq<real>, i: nat, x: real)
    requires SortedBy(c, Ascending) && 0 < i < |c| && c[i - 1] < c[i] && x in c[..i]
    ensures x < c[i]
  {
    var k :| 0 <= k < i && c[k] == x;
    assert k < i - 1 ==> Ascending(c[k], c[i - 1]);
  }

  lemma {:induction false} AboveRun(c: seq<real>, j: nat, v: real, x: real)
    requires SortedBy(c, Ascending) && j < |c| && v < c[j] && x in c[j..]
    ensures x > v
  {
    var k :| j <= k < |c| && c[k] == x;
    assert k > j ==> Ascending(c[j], c[k]);
  }

  /** A maximal run of ties at positions i..j has average rank (i + j) / 2 + 1. */
  lemma {:induction false} TieRunRank(c: seq<real>, i: nat, j: nat)
    requires SortedBy(c, Ascending) && i <= j < |c|
    requires forall k :: i <= k <= j ==> c[k] == c[i]
    requires i > 0 ==> c[i - 1] < c[i]
    requires j + 1 < |c| ==> c[i] < c[j + 1]
    ensures AverageRank(c, c[i]) == (i + j) as real / 2.0 + 1.0
  {
    var low, run, high, v := c[..i], c[i..j + 1], c[j + 1..], c[i];
    forall x | x in low ensures x < v {
      BelowRun(c, i, x);
    }
    forall x | x in high ensures x > v {
      AboveRun(c, j + 1, v, x);
    }
    assert c == low + (run + high);
    RankBetween(low, run, high, v);
  }

  // ---------- the algorithm ----------

  /** The inner loop: the end of the run of ties that starts at `i`. */
  method EndOfRun(combined: seq<real>, i: nat) returns (j: nat)
    requires SortedBy(combined, Ascending) && i < |combined|
    ensures i <= j < |combined|
    ensures forall k :: i <= k <= j ==> combined[k] == combined[i]
    ensures j + 1 < |combined| ==> combined[i] < combined[j + 1]
  {
    j := i;
    while j + 1 < |combined| && combined[j + 1] == combined[i]
      invariant i <= j < |combined|
      invariant forall k :: i <= k <= j ==> combined[k] == combined[i]
    {
      j := j + 1;
    }
    assert j + 1 < |combined| ==> Ascending(combined[i], combined[j + 1]);
  }

  /** The outer loop: every pooled score with its average rank. */
  method AverageRanks(combined: seq<real>) returns (ranks: map<real, real>)
    requires SortedBy(combined, Ascending)
    ensures forall k :: 0 <= k < |combined| ==>
              combined[k] in ranks && ranks[combined[k]] == AverageRank(combined, combined[k])
  {
    ranks := map[];
    var i := 0;
    while i < |combined|
      invariant 0 <= i <= |combined|
      invariant 0 < i < |combined| ==> combined[i - 1] < combined[i]
      invariant forall k :: 0 <= k < i ==>
                  combined[k] in ranks && ranks[combined[k]] == AverageRank(combined, combined[k])
    {
      var j := EndOfRun(combined, i);
      TieRunRank(combined, i, j);
      ranks := ranks[combined[i] := (i + j) as real / 2.0 + 1.0];
      i := j + 1;
    }
  }

  method AverageRanksOf(ghost pool: seq<real>, combined: seq<real>) returns (ranks: map<real, real>)
    requires combined == SortBy(pool, Ascending)
    ensures forall v :: v in pool ==> v in ranks && ranks[v] == AverageRank(pool, v)
  {
    SortSorts(pool, Ascending);
    ranks := AverageRanks(combined);
    SortMembers(pool, Ascending);
    forall v | v in pool ensures v in ranks && ranks[v] == AverageRank(pool, v) {
      RanksIgnoreOrder(v, pool, combined);
      var k :| 0 <= k < |combined| && combined[k] == v;
    }
  }

  method SumOfRanks(attack: seq<real>, ranks: map<real, real>, ghost pool: seq<real>)
    returns (rankSum: real)
    requires forall k :: 0 <= k < |attack| ==>
               attack[k] in ranks && ranks[attack[k]] == AverageRank(pool, attack[k])
    ensures rankSum == RankSum(attack, pool)
  {
    rankSum := 0.0;
    var i := |attack|;
    while i > 0
      invariant 0 <= i <= |attack|
      invariant rankSum == RankSum(attack[i..], pool)
    {
      i := i - 1;
      assert attack[i..][1..] == attack[i + 1..];
      rankSum := ranks[attack[i]] + rankSum;
    }
    assert attack[0..] == attack;
  }

  /** `roc_auc`; None is its ValueError. */
  method RocAuc(attack: seq<real>, genuine: seq<real>) returns (auc: Option<real>)
    ensures auc.None? <==> attack == [] || genuine == []
    ensures auc.Some? ==> auc.value == Auc(attack, genuine)
  {
    var nAttack, nGenuine := |attack|, |genuine|;
    if nAttack == 0 || nGenuine == 0 {
      return None;
    }
    ghost var pool := attack + genuine;
    var combined := SortBy(attack + genuine, Ascending);
    var ranks := AverageRanksOf(pool, combined);
    assert forall k :: 0 <= k < |attack| ==> pool[k] == attack[k];
    var rankSum := SumOfRanks(attack, ranks, pool);
    var u := rankSum - nAttack as real * (nAttack as real + 1.0) / 2.0;
    assert u == PairWins(attack, genuine) by { RankSumExcess(attack, genuine); }
    auc := Some(PerPair(u, nAttack, nGenuine));
  }

  // ---------- laws of the result ----------

  /** The AUC is a probability, and exchanging the two classes complements it. */
  lemma {:induction false} AucLaws(attack: seq<real>, genuine: seq<real>)
    requires attack != [] && genuine != []
    ensures 0.0 <= Auc(attack, genuine) <= 1.0
    ensures Auc(genuine, attack) == 1.0 - Auc(attack, genuine)
  {
    var n := |attack| as real * |genuine| as real;
    var w, w' := PairWins(attack, genuine), PairWins(genuine, attack);
    PairWinsNonNegative(attack, genuine);
    PairWinsNonNegative(genuine, attack);
    PairWinsComplement(attack, genuine);
    assert n == |genuine| as real * |attack| as real;
    Shares(w, w', n);
  }

  /** An AUC of 1 means perfect separation: every attack above every genuine score. */
  lemma {:induction false} AucIsOne(attack: seq<real>, genuine: seq<real>)
    requires attack != [] && genuine != []
    ensures Auc(attack, genuine) == 1.0 <==>
            forall a, g :: a in attack && g in genuine ==> a > g
  {
    PairWinsNonNegative(genuine, attack);
    PairWinsComplement(attack, genuine);
    PairWinsNonNegative(attack, genuine);
    Shares(PairWins(attack, genuine), PairWins(genuine, attack), |attack| as real * |genuine| as real);
    NoWins(genuine, attack);
    assert (forall g :: g in genuine ==> BelowAll(g, attack)) <==>
           forall a, g :: a in attack && g in genuine ==> a > g;
  }

  ghost predicate BelowAll(x: real, s: seq<real>) {
    forall y :: y in s ==> x < y
  }

  lemma {:induction false} NoWins(a: seq<real>, g: seq<real>)
    ensures PairWins(a, g) == 0.0 <==> forall x :: x in a ==> BelowAll(x, g)
  {
    if a != [] {
      NoWins(a[1..], g);
      PairWinsNonNegative(a[1..], g);
      WinsOverCounts(a[0], g);
      CountZero(g, Below(a[0]));
      CountZero(g, EqualTo(a[0]));
      assert a == [a[0]] + a[1..];
      assert WinsOver(a[0], g) == 0.0 <==>
             Count(g, Below(a[0])) == 0 && Count(g, EqualTo(a[0])) == 0;
      assert WinsOver(a[0], g) == 0.0 <==> BelowAll(a[0], g);
    }
  }
}
