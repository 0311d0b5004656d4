/** Python's order of strings, by code points, and `sorted` of a set of them. */
module Strings {
  import opened Sequences

  predicate LexLeq(a: string, b: string) {
    if a == "" then true
    else if b == "" then false
    else if a[0] != b[0] then a[0] < b[0]
    else LexLeq(a[1..], b[1..])
  }

  lemma {:induction false} LexTotal(a: string, b: string)
    ensures LexLeq(a, b) || LexLeq(b, a)
    ensures LexLeq(a, b) && LexLeq(b, a) ==> a == b
  {
    if a != "" && b != "" && a[0] == b[0] {
      LexTotal(a[1..], b[1..]);
    }
  }

  lemma {:induction false} LexTransitive(a: string, b: string, c: string)
    requires LexLeq(a, b) && LexLeq(b, c)
    ensures LexLeq(a, c)
  {
    if a != "" && b != "" && c != "" && a[0] == b[0] == c[0] {
      LexTransitive(a[1..], b[1..], c[1..]);
    }
  }

  /** The order is decided at the first difference, and a prefix comes first. */
  lemma {:induction false} LexMeans(a: string, b: string, k: nat)
    requires k <= |a| && k <= |b| && a[..k] == b[..k]
    ensures k == |a| ==> LexLeq(a, b)
    ensures k == |b| < |a| ==> !LexLeq(a, b)
    ensures k < |a| && k < |b| && a[k] != b[k] ==> (LexLeq(a, b) <==> a[k] < b[k])
  {
    if k > 0 {
      assert a[0] == a[..k][0] && b[0] == b[..k][0];
      assert a[1..][..k - 1] == a[..k][1..] && b[1..][..k - 1] == b[..k][1..];
      LexMeans(a[1..], b[1..], k - 1);
    }
  }

  predicate LexLess(a: string, b: string) { a != b && LexLeq(a, b) }

  lemma {:induction false} LexLessIsOrder()
    ensures StrictTotalOrder(LexLess)
  {
    forall a: string, b: string ensures a == b || LexLess(a, b) || LexLess(b, a) {
      LexTotal(a, b);
    }
    forall a: string, b: string, c: string | LexLess(a, b) && LexLess(b, c) ensures LexLess(a, c) {
      LexTransitive(a, b, c);
      LexTotal(a, b);
    }
  }

  /** `keys` lists the set in ascending order, each element once. */
  ghost predicate ListsInOrder(keys: seq<string>, s: set<string>) {
    StrictlySorted(keys, LexLess) && forall k :: k in keys <==> k in s
  }

  /** The loop that inserts one element after the other, in any order of picking them. */
  method SortKeys(s: set<string>) returns (keys: seq<string>)
    ensures ListsInOrder(keys, s)
  {
    keys := [];
    var rest := s;
    LexLessIsOrder();
    while rest != {}
      invariant rest <= s && ListsInOrder(keys, s - rest)
    {
      var k :| k in rest;
      InsertDistinctSorts(k, keys, LexLess);
      keys := InsertDistinct(k, keys, LexLess);
      rest := rest - {k};
    }
  }

  lemma {:induction false} SortedExists(s: set<string>)
    ensures exists keys :: ListsInOrder(keys, s)
  {
    if s == {} {
      assert ListsInOrder([], s);
    } else {
      var k := Pick(s);
      SortedExists(s - {k});
      var rest :| ListsInOrder(rest, s - {k});
      LexLessIsOrder();
      InsertDistinctSorts(k, rest, LexLess);
      assert ListsInOrder(InsertDistinct(k, rest, LexLess), s);
    }
  }

  lemma {:induction false} FirstIsLeast(a: seq<string>, b: seq<string>)
    requires StrictlySorted(a, LexLess) && a != [] && b != [] && b[0] in a
    ensures LexLeq(a[0], b[0])
  {
    var i :| 0 <= i < |a| && a[i] == b[0];
    LexTotal(a[0], a[0]);
    assert i > 0 ==> LexLess(a[0], a[i]);
  }

  lemma {:induction false} TailOf(a: seq<string>, k: string)
    requires StrictlySorted(a, LexLess) && a != []
    ensures k in a[1..] <==> k in a && k != a[0]
  {
    assert a == [a[0]] + a[1..];
    if k in a[1..] {
      var i :| 0 <= i < |a[1..]| && a[1..][i] == k;
      assert LexLess(a[0], a[i + 1]);
    }
  }

  /** The order is unique. */
  lemma {:induction false} SortedIsUnique(a: seq<string>, b: seq<string>)
    requires StrictlySorted(a, LexLess) && StrictlySorted(b, LexLess) && forall k :: k in a <==> k in b
    ensures a == b
  {
    assert (a != [] ==> a[0] in a) && (b != [] ==> b[0] in b);
    if a != [] && b != [] {
      FirstIsLeast(a, b);
      FirstIsLeast(b, a);
      LexTotal(a[0], b[0]);
      forall k ensures k in a[1..] <==> k in b[1..] {
        TailOf(a, k);
        TailOf(b, k);
      }
      SortedIsUnique(a[1..], b[1..]);
      assert a == [a[0]] + a[1..] && b == [b[0]] + b[1..];
    }
  }

  /** The elements in ascending order. */
  ghost function SortedKeys(s: set<string>): (keys: seq<string>)
    ensures ListsInOrder(keys, s)
  {
    SortedExists(s);
    var keys :| ListsInOrder(keys, s);
    keys
  }
}
