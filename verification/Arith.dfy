/** Facts about products and quotients that the solver does not find by itself. */
module Arith {

  lemma MulMono(a: int, b: int, d: int)
    requires a <= b && d >= 0
    ensures a * d <= b * d
  {
  }

  lemma DivIs(x: int, n: int, q: int, r: int)
    requires n >= 1 && x == n * q + r && 0 <= r < n
    ensures x / n == q
  {
    var p := x / n;
    assert x == n * p + x % n;
    if p < q {
      MulMono(p + 1, q, n);
    } else if p > q {
      MulMono(q + 1, p, n);
    }
  }

  lemma DivMono(a: int, b: int, n: int)
    requires a <= b && n >= 1
    ensures a / n <= b / n
  {
    var p, q := a / n, b / n;
    assert a == n * p + a % n && b == n * q + b % n;
    if p > q {
      MulMono(q + 1, p, n);
    }
  }

  lemma DivStep(a: int, n: int)
    requires n >= 1
    ensures (a + n) / n == a / n + 1
  {
    DivIs(a + n, n, a / n + 1, a % n);
  }

  /** A larger divisor gives a smaller quotient. */
  lemma DivAntitone(a: int, m: int, n: int)
    requires 0 <= a && 1 <= m <= n
    ensures a / n <= a / m
  {
    var p, q := a / n, a / m;
    assert a == n * p + a % n && a == m * q + a % m;
    if p > q {
      MulMono(q + 1, p, n);
      MulMono(m, n, q + 1);
    }
  }

  lemma {:induction false} SubsetCardinality<T>(a: set<T>, b: set<T>)
    requires a <= b
    ensures |a| <= |b|
  {
    if a != {} {
      var x :| x in a;
      SubsetCardinality(a - {x}, b - {x});
    }
  }
}
