/** Filtering, counting and stable sorting of sequences: the Python list operations that the
    modelled code is written with. */
module Sequences {

  datatype Option<+T> = None | Some(value: T)

  // ---------- filter and count ----------

  function Filter<T>(s: seq<T>, p: T -> bool): (r: seq<T>) {
    if s == [] then [] else (if p(s[0]) then [s[0]] else []) + Filter(s[1..], p)
  }

  function Count<T>(s: seq<T>, p: T -> bool): (n: nat)
    ensures n <= |s|
  {
    if s == [] then 0 else (if p(s[0]) then 1 else 0) + Count(s[1..], p)
  }

  lemma {:induction false} FilterAppend<T>(a: seq<T>, b: seq<T>, p: T -> bool)
    ensures Filter(a + b, p) == Filter(a, p) + Filter(b, p)
  {
    if a == [] {
      assert a + b == b;
    } else {
      assert (a + b)[0] == a[0] && (a + b)[1..] == a[1..] + b;
      FilterAppend(a[1..], b, p);
      var first := if p(a[0]) then [a[0]] else [];
      Associate(first, Filter(a[1..], p), Filter(b, p));
    }
  }

  lemma {:induction false} Associate<T>(a: seq<T>, b: seq<T>, c: seq<T>)
    ensures a + (b + c) == (a + b) + c
  {
  }

  lemma {:induction false} FilterMembers<T>(s: seq<T>, p: T -> bool)
    ensures forall x :: x in Filter(s, p) ==> x in s && p(x)
    ensures forall x :: x in s && p(x) ==> x in Filter(s, p)
  {
    if s != [] {
      FilterMembers(s[1..], p);
      assert s == [s[0]] + s[1..];
    }
  }

  lemma {:induction false} FilterNonEmpty<T>(s: seq<T>, p: T -> bool)
    ensures Filter(s, p) != [] <==> exists x :: x in s && p(x)
  {
    if s != [] {
      assert s == [s[0]] + s[1..];
      FilterNonEmpty(s[1..], p);
    }
  }

  lemma {:induction false} FilterAll<T>(s: seq<T>, p: T -> bool)
    requires forall x :: x in s ==> p(x)
    ensures Filter(s, p) == s
  {
    if s != [] {
      FilterAll(s[1..], p);
    }
  }

  lemma {:induction false} FilterSame<T>(s: seq<T>, p: T -> bool, q: T -> bool)
    requires forall x :: x in s ==> p(x) == q(x)
    ensures Filter(s, p) == Filter(s, q)
  {
    if s != [] {
      FilterSame(s[1..], p, q);
    }
  }

  /** When `p` can only turn from true to false along the list, filtering cuts a prefix. */
  lemma {:induction false} FilterCutsPrefix<T>(s: seq<T>, p: T -> bool)
    requires forall i, j :: 0 <= i < j < |s| && p(s[j]) ==> p(s[i])
    ensures Filter(s, p) == s[..Count(s, p)]
    ensures forall i :: 0 <= i < |s| ==> (p(s[i]) <==> i < Count(s, p))
  {
    if s != [] {
      FilterCutsPrefix(s[1..], p);
      if p(s[0]) {
        assert s[..Count(s, p)] == [s[0]] + s[1..][..Count(s[1..], p)];
        forall i | 0 < i < |s| ensures p(s[i]) <==> i < Count(s, p) {
          assert s[i] == s[1..][i - 1];
        }
      } else {
        CountZero(s[1..], p);
        assert Filter(s, p) == [];
      }
    }
  }

  lemma {:induction false} CountIsFilterLength<T>(s: seq<T>, p: T -> bool)
    ensures Count(s, p) == |Filter(s, p)|
  {
    if s != [] {
      CountIsFilterLength(s[1..], p);
    }
  }

  lemma {:induction false} CountAppend<T>(a: seq<T>, b: seq<T>, p: T -> bool)
    ensures Count(a + b, p) == Count(a, p) + Count(b, p)
  {
    if a == [] {
      assert a + b == b;
    } else {
      assert (a + b)[1..] == a[1..] + b;
      CountAppend(a[1..], b, p);
    }
  }

  /** A count is the number of positions. */
  lemma {:induction false} CountIsSize<T>(s: seq<T>, p: T -> bool, positions: set<int>)
    requires forall i :: i in positions <==> 0 <= i < |s| && p(s[i])
    ensures |positions| == Count(s, p)
  {
    if s == [] {
      assert forall i :: i in positions ==> 0 <= i < |s|;
      assert positions == {};
    } else {
      var n := |s| - 1;
      CountIsSize(s[..n], p, positions - {n});
      CountAppend(s[..n], [s[n]], p);
      assert s == s[..n] + [s[n]];
    }
  }

  lemma {:induction false} CountWeaken<T>(s: seq<T>, p: T -> bool, q: T -> bool)
    requires forall x :: x in s && p(x) ==> q(x)
    ensures Count(s, p) <= Count(s, q)
  {
    if s != [] {
      CountWeaken(s[1..], p, q);
    }
  }

  lemma {:induction false} CountZero<T>(s: seq<T>, p: T -> bool)
    ensures Count(s, p) == 0 <==> forall x :: x in s ==> !p(x)
  {
    if s != [] {
      assert s == [s[0]] + s[1..];
      CountZero(s[1..], p);
    }
  }

  lemma {:induction false} CountFull<T>(s: seq<T>, p: T -> bool)
    ensures Count(s, p) == |s| <==> forall x :: x in s ==> p(x)
  {
    if s != [] {
      assert s == [s[0]] + s[1..];
      CountFull(s[1..], p);
    }
  }

  lemma {:induction false} CountAt<T>(s: seq<T>, i: nat, p: T -> bool)
    requires i < |s|
    ensures Count(s, p) == Count(s[..i], p) + (if p(s[i]) then 1 else 0) + Count(s[i + 1..], p)
  {
    assert s == s[..i] + ([s[i]] + s[i + 1..]);
    CountAppend(s[..i], [s[i]] + s[i + 1..], p);
  }

  lemma {:induction false} RemoveAt<T>(s: seq<T>, i: nat)
    requires i < |s|
    ensures multiset(s[..i] + s[i + 1..]) == multiset(s) - multiset{s[i]}
  {
    assert s == s[..i] + [s[i]] + s[i + 1..];
  }

  lemma {:induction false} CountWithout<T>(s: seq<T>, i: nat, p: T -> bool)
    requires i < |s|
    ensures Count(s, p) == Count(s[..i] + s[i + 1..], p) + if p(s[i]) then 1 else 0
  {
    CountAt(s, i, p);
    CountAppend(s[..i], s[i + 1..], p);
  }

  lemma {:induction false} RemoveSame<T>(a: seq<T>, b: seq<T>) returns (i: nat)
    requires a != [] && multiset(a) == multiset(b)
    ensures i < |b| && b[i] == a[0] && multiset(a[1..]) == multiset(b[..i] + b[i + 1..])
  {
    assert a[0] in multiset(b);
    i :| 0 <= i < |b| && b[i] == a[0];
    RemoveAt(b, i);
    assert multiset(a[1..]) == multiset(a) - multiset{a[0]} by {
      assert a == [a[0]] + a[1..];
    }
  }

  /** A count does not depend on the order of the list. */
  lemma {:induction false} CountPermutation<T>(a: seq<T>, b: seq<T>, p: T -> bool)
    requires multiset(a) == multiset(b)
    ensures Count(a, p) == Count(b, p)
  {
    if a == [] {
      assert |b| == |multiset(b)| == 0;
    } else {
      var i := RemoveSame(a, b);
      CountPermutation(a[1..], b[..i] + b[i + 1..], p);
      CountWithout(b, i, p);
    }
  }

  /** Where each element of `a` stands in a rearrangement of it. */
  lemma {:induction false} Reindex<T>(a: seq<T>, b: seq<T>) returns (f: seq<int>)
    requires multiset(a) == multiset(b)
    ensures |f| == |a| == |b|
    ensures forall i :: 0 <= i < |f| ==> 0 <= f[i] < |b| && b[f[i]] == a[i]
    ensures forall i, j :: 0 <= i < j < |f| ==> f[i] != f[j]
  {
    if a == [] {
      assert |b| == |multiset(b)| == 0;
      f := [];
    } else {
      var k := RemoveSame(a, b);
      var rest := Reindex(a[1..], b[..k] + b[k + 1..]);
      f := [k] + seq(|rest|, i requires 0 <= i < |rest| => if rest[i] < k then rest[i] else rest[i] + 1);
    }
  }

  // ---------- finite sets ----------

  lemma {:induction false} Pick<T>(s: set<T>) returns (x: T)
    requires s != {}
    ensures x in s
  {
    x :| x in s;
  }

  lemma {:induction false} SubsetSize<T>(a: set<T>, b: set<T>)
    requires a <= b
    ensures |a| <= |b|
  {
    if a != {} {
      var x :| x in a;
      SubsetSize(a - {x}, b - {x});
    }
  }

  /** A list without repetitions has as many elements as the set of its elements. */
  lemma {:induction false} DistinctSize<T>(s: seq<T>)
    requires forall i, j :: 0 <= i < j < |s| ==> s[i] != s[j]
    ensures |(set x | x in s)| == |s|
  {
    if s != [] {
      DistinctSize(s[1..]);
      var rest := set x | x in s[1..];
      assert s == [s[0]] + s[1..];
      assert (set x | x in s) == {s[0]} + rest;
      assert s[0] !in rest;
    }
  }

  // ---------- stable sorting ----------

  ghost predicate TotalPreorder<T(!new)>(leq: (T, T) -> bool) {
    && (forall a, b :: leq(a, b) || leq(b, a))
    && (forall a, b, c :: leq(a, b) && leq(b, c) ==> leq(a, c))
  }

  ghost predicate SortedBy<T>(s: seq<T>, leq: (T, T) -> bool) {
    forall i, j :: 0 <= i < j < |s| ==> leq(s[i], s[j])
  }

  /** `x` goes before the first element it may precede. */
  function InsertBy<T>(x: T, s: seq<T>, leq: (T, T) -> bool): (r: seq<T>) {
    if s == [] || leq(x, s[0]) then [x] + s else [s[0]] + InsertBy(x, s[1..], leq)
  }

  /** Python's `sorted`: ascending in `leq`, equivalent elements in their input order. */
  function SortBy<T>(s: seq<T>, leq: (T, T) -> bool): (r: seq<T>) {
    if s == [] then [] else InsertBy(s[0], SortBy(s[1..], leq), leq)
  }

  lemma {:induction false} InsertSorts<T(!new)>(x: T, s: seq<T>, leq: (T, T) -> bool)
    requires TotalPreorder(leq) && SortedBy(s, leq)
    ensures SortedBy(InsertBy(x, s, leq), leq)
    ensures multiset(InsertBy(x, s, leq)) == multiset(s) + multiset{x}
  {
    if s == [] {
    } else if leq(x, s[0]) {
      var r := InsertBy(x, s, leq);
      forall i, j | 0 <= i < j < |r| ensures leq(r[i], r[j]) {
        assert j > 1 ==> leq(s[0], s[j - 1]);
      }
    } else {
      InsertSorts(x, s[1..], leq);
      var t := InsertBy(x, s[1..], leq);
      assert s == [s[0]] + s[1..];
      forall y | y in t ensures leq(s[0], y) {
        assert y in multiset(t);
        assert y == x || y in s[1..];
      }
    }
  }

  lemma {:induction false} SortSorts<T(!new)>(s: seq<T>, leq: (T, T) -> bool)
    requires TotalPreorder(leq)
    ensures SortedBy(SortBy(s, leq), leq)
    ensures multiset(SortBy(s, leq)) == multiset(s)
  {
    if s != [] {
      SortSorts(s[1..], leq);
      InsertSorts(s[0], SortBy(s[1..], leq), leq);
      assert s == [s[0]] + s[1..];
    }
  }

  lemma {:induction false} SortMembers<T(!new)>(s: seq<T>, leq: (T, T) -> bool)
    requires TotalPreorder(leq)
    ensures |SortBy(s, leq)| == |s|
    ensures forall x :: x in SortBy(s, leq) <==> x in s
  {
    SortSorts(s, leq);
    assert |multiset(SortBy(s, leq))| == |multiset(s)|;
    forall x ensures x in SortBy(s, leq) <==> x in s {
      assert x in SortBy(s, leq) <==> x in multiset(SortBy(s, leq));
      assert x in s <==> x in multiset(s);
    }
  }

  lemma {:induction false} SortedIsFixed<T>(s: seq<T>, leq: (T, T) -> bool)
    requires SortedBy(s, leq)
    ensures SortBy(s, leq) == s
  {
    if s != [] {
      SortedIsFixed(s[1..], leq);
      assert s == [s[0]] + s[1..];
      assert |s| > 1 ==> leq(s[0], s[1]);
    }
  }

  lemma {:induction false} FilterInsert<T(!new)>(x: T, s: seq<T>, leq: (T, T) -> bool, p: T -> bool)
    requires TotalPreorder(leq) && SortedBy(s, leq)
    ensures Filter(InsertBy(x, s, leq), p)
         == if p(x) then InsertBy(x, Filter(s, p), leq) else Filter(s, p)
  {
    if s == [] || leq(x, s[0]) {
      assert ([x] + s)[1..] == s;
      var f := Filter(s, p);
      FilterMembers(s, p);
      if f != [] {
        assert f[0] in s;
        assert leq(x, f[0]);
      }
    } else {
      FilterInsert(x, s[1..], leq, p);
      var r := InsertBy(x, s[1..], leq);
      assert ([s[0]] + r)[1..] == r;
      if p(s[0]) {
        var f := Filter(s[1..], p);
        assert ([s[0]] + f)[1..] == f;
        assert Filter(s, p) == [s[0]] + f;
      } else {
        assert Filter(s, p) == Filter(s[1..], p);
      }
    }
  }

  /** Filtering before sorting or after it gives the same list: with `leq`-equivalence classes for
      `p` this is stability. */
  lemma {:induction false} FilterSort<T(!new)>(s: seq<T>, leq: (T, T) -> bool, p: T -> bool)
    requires TotalPreorder(leq)
    ensures Filter(SortBy(s, leq), p) == SortBy(Filter(s, p), leq)
  {
    if s != [] {
      var f := Filter(s[1..], p);
      FilterSort(s[1..], leq, p);
      assert SortedBy(SortBy(s[1..], leq), leq) by { SortSorts(s[1..], leq); }
      FilterInsert(s[0], SortBy(s[1..], leq), leq, p);
      if p(s[0]) {
        assert ([s[0]] + f)[1..] == f;
        assert Filter(s, p) == [s[0]] + f;
      } else {
        assert Filter(s, p) == f;
      }
    }
  }

  /** The elements equivalent to `x` keep their input order. */
  lemma {:induction false} SortIsStable<T(!new)>(s: seq<T>, leq: (T, T) -> bool, x: T)
    requires TotalPreorder(leq)
    ensures var same := (y: T) => leq(x, y) && leq(y, x);
            Filter(SortBy(s, leq), same) == Filter(s, same)
  {
    var same := (y: T) => leq(x, y) && leq(y, x);
    FilterSort(s, leq, same);
    FilterMembers(s, same);
    var f := Filter(s, same);
    forall i, j | 0 <= i < j < |f| ensures leq(f[i], f[j]) {
      assert f[i] in f && f[j] in f;
    }
    SortedIsFixed(f, leq);
  }

  // ---------- sorted(set(...)) ----------

  ghost predicate StrictTotalOrder<T(!new)>(lt: (T, T) -> bool) {
    && (forall a :: !lt(a, a))
    && (forall a, b :: a == b || lt(a, b) || lt(b, a))
    && (forall a, b, c :: lt(a, b) && lt(b, c) ==> lt(a, c))
  }

  ghost predicate StrictlySorted<T>(s: seq<T>, lt: (T, T) -> bool) {
    forall i, j :: 0 <= i < j < |s| ==> lt(s[i], s[j])
  }

  function InsertDistinct<T(==)>(x: T, s: seq<T>, lt: (T, T) -> bool): (r: seq<T>) {
    if s == [] || lt(x, s[0]) then [x] + s
    else if x == s[0] then s
    else [s[0]] + InsertDistinct(x, s[1..], lt)
  }

  /** Python's `sorted(set(s))`. */
  function SortedSet<T(==)>(s: seq<T>, lt: (T, T) -> bool): (r: seq<T>) {
    if s == [] then [] else InsertDistinct(s[0], SortedSet(s[1..], lt), lt)
  }

  lemma {:induction false} InsertDistinctSorts<T(!new)>(x: T, s: seq<T>, lt: (T, T) -> bool)
    requires StrictTotalOrder(lt) && StrictlySorted(s, lt)
    ensures StrictlySorted(InsertDistinct(x, s, lt), lt)
    ensures forall y :: y in InsertDistinct(x, s, lt) <==> y == x || y in s
  {
    if s == [] {
    } else if lt(x, s[0]) {
      var r := InsertDistinct(x, s, lt);
      forall i, j | 0 <= i < j < |r| ensures lt(r[i], r[j]) {
        assert j > 1 ==> lt(s[0], s[j - 1]);
      }
    } else if x != s[0] {
      InsertDistinctSorts(x, s[1..], lt);
      assert s == [s[0]] + s[1..];
      var t := InsertDistinct(x, s[1..], lt);
      forall y | y in t ensures lt(s[0], y) {
        assert y == x || y in s[1..];
      }
    }
  }

  lemma {:induction false} SortedSetSorts<T(!new)>(s: seq<T>, lt: (T, T) -> bool)
    requires StrictTotalOrder(lt)
    ensures StrictlySorted(SortedSet(s, lt), lt)
    ensures forall y :: y in SortedSet(s, lt) <==> y in s
  {
    if s != [] {
      SortedSetSorts(s[1..], lt);
      InsertDistinctSorts(s[0], SortedSet(s[1..], lt), lt);
      assert s == [s[0]] + s[1..];
    }
  }
}
