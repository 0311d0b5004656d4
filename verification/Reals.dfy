/** Division of reals by a positive number. */
module Reals {
  /** Lies below `t`. */
  function Below(t: real): real -> bool { s => s < t }


  lemma {:induction false} Quotient(x: real, y: real)
    requires y > 0.0
    ensures x / y * y == x
  {
  }

  lemma {:induction false} CancelFactor(a: real, b: real, n: real)
    requires n > 0.0
    ensures a * n <= b * n <==> a <= b
  {
    if a <= b {
      assert (b - a) * n >= 0.0;
    } else {
      assert (a - b) * n > 0.0;
    }
  }

  /** Dividing by a positive number keeps the order. */
  lemma {:induction false} DivOrder(a: real, b: real, n: real)
    requires n > 0.0
    ensures a / n <= b / n <==> a <= b
    ensures a / n == b / n <==> a == b
  {
    assert (a / n) * n == a && (b / n) * n == b;
    CancelFactor(a / n, b / n, n);
    CancelFactor(b / n, a / n, n);
  }

  lemma {:induction false} DivAdd(a: real, b: real, n: real)
    requires n > 0.0
    ensures a / n + b / n == (a + b) / n
  {
    var x, y, z := a / n, b / n, (a + b) / n;
    assert x * n == a && y * n == b && z * n == a + b;
    assert (x + y) * n == z * n;
    CancelFactor(x + y, z, n);
    CancelFactor(z, x + y, n);
  }

  /** Two complementary parts of a positive whole. */
  lemma {:induction false} Shares(w: real, w': real, n: real)
    requires w >= 0.0 && w' >= 0.0 && w + w' == n && n > 0.0
    ensures 0.0 <= w / n <= 1.0 && w' / n == 1.0 - w / n
    ensures w / n == 1.0 <==> w' == 0.0
  {
    DivAdd(w, w', n);
    DivOrder(0.0, w, n);
    DivOrder(w, n, n);
    assert n / n == 1.0;
  }

  lemma {:induction false} RatioAtMost(c: real, n: real, bound: real)
    requires n > 0.0
    ensures c / n <= bound <==> c <= bound * n
  {
    assert (c / n) * n == c;
    CancelFactor(c / n, bound, n);
  }

  lemma {:induction false} RatioBounds(c: real, n: real)
    requires 0.0 <= c <= n && n > 0.0
    ensures 0.0 <= c / n <= 1.0
    ensures c / n == 0.0 <==> c == 0.0
    ensures c / n == 1.0 <==> c == n
  {
    Shares(c, n - c, n);
    Shares(n - c, c, n);
  }
}
