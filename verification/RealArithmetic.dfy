/** The few facts about real division the proofs need, each proved on its own. */
module RealArithmetic {

  lemma FractionSum(a: real, b: real, n: real)
    requires n != 0.0
    ensures a / n + b / n == (a + b) / n
  {
    var p, q := a / n, b / n;
    assert (p + q) * n == p * n + q * n;
    Unique(p + q, a + b, n);
  }

  lemma Unique(q: real, a: real, n: real)
    requires n != 0.0 && q * n == a
    ensures q == a / n
  {
    var r := a / n;
    assert r * n == a;
    assert (q - r) * n == 0.0;
  }

  lemma OneMinus(k: real, n: real)
    requires n != 0.0
    ensures 1.0 - k / n == (n - k) / n
  {
    FractionSum(n - k, k, n);
    Unique(1.0, n, n);
  }

  lemma FractionOrder(a: real, b: real, n: real)
    requires n > 0.0 && a <= b
    ensures a / n <= b / n
  {
    FractionSum(a, b - a, n);
    assert (b - a) / n >= 0.0;
  }

  /** Growing the denominator of a non-negative fraction shrinks it. */
  lemma Shrink(a: real, b: real, c: real)
    requires a >= 0.0 && 0.0 < b <= c
    ensures a / c <= a / b
  {
    var q := a / b;
    assert q * c >= q * b;
    FractionOrder(a, q * c, c);
    Unique(q, q * c, c);
  }

  lemma CancelLe(c: real, x: real, y: real)
    requires c > 0.0 && x * c <= y * c
    ensures x <= y
  {
    assert (y - x) * c >= 0.0;
  }

  /** n times x by repeated addition, so that inductive proofs stay linear. */
  ghost function Times(n: nat, x: real): real {
    if n == 0 then 0.0 else Times(n - 1, x) + x
  }

  lemma {:induction false} TimesIsProduct(n: nat, x: real)
    ensures Times(n, x) == n as real * x
  {
    if n > 0 {
      TimesIsProduct(n - 1, x);
      assert n as real * x == (n - 1) as real * x + x;
    }
  }

  lemma {:induction false} TimesSum(n: nat, x: real, y: real)
    ensures Times(n, x + y) == Times(n, x) + Times(n, y)
  {
    if n > 0 {
      TimesSum(n - 1, x, y);
    }
  }

  /** The number of unordered pairs of n things. */
  ghost function PairCount(n: nat): nat {
    if n == 0 then 0 else PairCount(n - 1) + (n - 1)
  }

  lemma {:induction false} PairCountClosed(n: nat)
    ensures 2 * PairCount(n) == n * (n - 1)
  {
    if n > 0 {
      PairCountClosed(n - 1);
      assert n * (n - 1) == (n - 1) * (n - 2) + 2 * (n - 1);
    }
  }
}
