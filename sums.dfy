/** Running sums over real sequences, as the accumulator loops of the
    correlation metrics compute them, and the Cauchy–Schwarz inequality that
    bounds a correlation to [-1, 1].

    Products are written with Mul. The lemmas hand their facts on as sums
    and differences of Mul terms, and the algebra that needs the definition
    of Mul is done in step lemmas over plain reals. */
module Sums {

  /** a * b. */
  function Mul(a: real, b: real): real {
    a * b
  }

  /** A Mul term is the product it names. */
  lemma MulIsProduct(a: real, b: real)
    ensures Mul(a, b) == a * b
  {
  }

  /** x[0] + ... + x[n-1], added left to right. */
  function Sum(x: seq<real>, n: nat): real
    requires n <= |x|
  {
    if n == 0 then 0.0 else Sum(x, n - 1) + x[n - 1]
  }

  /** x[0]*y[0] + ... + x[n-1]*y[n-1], added left to right. */
  function Dot(x: seq<real>, y: seq<real>, n: nat): real
    requires n <= |x| && n <= |y|
  {
    if n == 0 then 0.0 else Dot(x, y, n - 1) + Mul(x[n - 1], y[n - 1])
  }

  /** The sequence c*x[i] - d: x scaled by c and shifted by d. */
  function Affine(x: seq<real>, c: real, d: real): (r: seq<real>)
    ensures |r| == |x|
  {
    seq(|x|, i requires 0 <= i < |x| => Mul(c, x[i]) - d)
  }

  lemma MulCommutes(a: real, b: real)
    ensures Mul(a, b) == Mul(b, a)
  {
  }

  /** d*d is non-negative, 0 only for d = 0, and at most 1 for |d| <= 1. */
  lemma SquareProperties(d: real)
    ensures 0.0 <= Mul(d, d)
    ensures Mul(d, d) == 0.0 <==> d == 0.0
    ensures -1.0 <= d <= 1.0 ==> Mul(d, d) <= 1.0
  {
    var e := if d < 0.0 then -d else d;
    assert Mul(d, d) == Mul(e, e) by {
      if d < 0.0 {
        assert d * d == (-d) * (-d);
      }
    }
    if d != 0.0 {
      PositiveProduct(e, e);
    }
    if e <= 1.0 {
      NonNegativeProduct(e, 1.0 - e);
      assert Mul(e, e) + Mul(e, 1.0 - e) == e;
    }
  }

  lemma PositiveProduct(a: real, b: real)
    requires 0.0 < a && 0.0 < b
    ensures 0.0 < Mul(a, b)
  {
  }

  lemma NonNegativeProduct(a: real, b: real)
    requires 0.0 <= a && 0.0 <= b
    ensures 0.0 <= Mul(a, b)
  {
  }

  lemma {:induction false} DotSymmetric(x: seq<real>, y: seq<real>, n: nat)
    requires n <= |x| && n <= |y|
    ensures Dot(x, y, n) == Dot(y, x, n)
  {
    if n > 0 {
      DotSymmetric(x, y, n - 1);
      MulCommutes(x[n - 1], y[n - 1]);
    }
  }

  /** A sum of squares is never negative. */
  lemma {:induction false} DotSelfNonNegative(x: seq<real>, n: nat)
    requires n <= |x|
    ensures 0.0 <= Dot(x, x, n)
  {
    if n > 0 {
      DotSelfNonNegative(x, n - 1);
      SquareProperties(x[n - 1]);
    }
  }

  /** b*x[i] - a*y[i]. */
  function Combination(x: seq<real>, y: seq<real>, i: nat, a: real, b: real): real
    requires i < |x| && i < |y|
  {
    Mul(b, x[i]) - Mul(a, y[i])
  }

  /** Sum over i < n of (b*x[i] - a*y[i])^2; it is a sum of squares. */
  function CrossSquares(x: seq<real>, y: seq<real>, n: nat, a: real, b: real): (r: real)
    requires n <= |x| && n <= |y|
    ensures 0.0 <= r
  {
    if n == 0 then 0.0
    else
      var t := Combination(x, y, n - 1, a, b);
      SquareProperties(t);
      CrossSquares(x, y, n - 1, a, b) + Mul(t, t)
  }

  /** b^2*A - 2ab*C + a^2*B: what the sum of (b*x[i] - a*y[i])^2 expands to,
      for A = x.x, B = y.y and C = x.y. */
  function Quad(A: real, B: real, C: real, a: real, b: real): real {
    Mul(Mul(b, b), A) - 2.0 * Mul(Mul(a, b), C) + Mul(Mul(a, a), B)
  }

  /** Expanding the squares of CrossSquares. */
  lemma {:induction false} CrossSquaresExpand(x: seq<real>, y: seq<real>, n: nat, a: real, b: real)
    requires n <= |x| && n <= |y|
    ensures CrossSquares(x, y, n, a, b) == Quad(Dot(x, x, n), Dot(y, y, n), Dot(x, y, n), a, b)
  {
    if n > 0 {
      CrossSquaresExpand(x, y, n - 1, a, b);
      CombinationSquare(x, y, n - 1, a, b);
      QuadAdditive(Dot(x, x, n - 1), Dot(y, y, n - 1), Dot(x, y, n - 1),
                   Mul(x[n - 1], x[n - 1]), Mul(y[n - 1], y[n - 1]), Mul(x[n - 1], y[n - 1]),
                   a, b, Dot(x, x, n), Dot(y, y, n), Dot(x, y, n));
    }
  }

  /** One square of CrossSquares, expanded. */
  lemma CombinationSquare(x: seq<real>, y: seq<real>, i: nat, a: real, b: real)
    requires i < |x| && i < |y|
    ensures var t := Combination(x, y, i, a, b);
            Mul(t, t) == Quad(Mul(x[i], x[i]), Mul(y[i], y[i]), Mul(x[i], y[i]), a, b)
  {
    SquareOfDifference(x[i], y[i], a, b);
  }

  lemma SquareOfDifference(p: real, q: real, a: real, b: real)
    ensures Mul(Mul(b, p) - Mul(a, q), Mul(b, p) - Mul(a, q)) == Quad(Mul(p, p), Mul(q, q), Mul(p, q), a, b)
  {
    var x, y := b * p, a * q;
    assert (x - y) * (x - y) == x * x - 2.0 * (x * y) + y * y;
    assert x * x == (b * b) * (p * p);
    assert x * y == (a * b) * (p * q);
    assert y * y == (a * a) * (q * q);
  }

  /** Quad is additive in its first three arguments. */
  lemma QuadAdditive(A: real, B: real, C: real, P: real, Q: real, R: real, a: real, b: real,
                     A': real, B': real, C': real)
    requires A' == A + P && B' == B + Q && C' == C + R
    ensures Quad(A', B', C', a, b) == Quad(A, B, C, a, b) + Quad(P, Q, R, a, b)
  {
    calc {
      Quad(A', B', C', a, b);
    ==
      (b * b) * (A + P) - 2.0 * ((a * b) * (C + R)) + (a * a) * (B + Q);
    ==
      ((b * b) * A - 2.0 * ((a * b) * C) + (a * a) * B) + ((b * b) * P - 2.0 * ((a * b) * R) + (a * a) * Q);
    ==
      Quad(A, B, C, a, b) + Quad(P, Q, R, a, b);
    }
  }

  /** The Cauchy–Schwarz inequality: (x.y)^2 <= (x.x)(y.y). */
  lemma {:induction false} CauchySchwarz(x: seq<real>, y: seq<real>, n: nat)
    requires n <= |x| && n <= |y|
    ensures Mul(Dot(x, y, n), Dot(x, y, n)) <= Mul(Dot(x, x, n), Dot(y, y, n))
  {
    if n > 0 {
      CauchySchwarz(x, y, n - 1);
      CrossSquaresExpand(x, y, n - 1, x[n - 1], y[n - 1]);
      CauchySchwarzStep(Dot(x, x, n - 1), Dot(y, y, n - 1), Dot(x, y, n - 1), x[n - 1], y[n - 1],
                        Dot(x, x, n), Dot(y, y, n), Dot(x, y, n));
    }
  }

  /** One step of CauchySchwarz: the inequality for n - 1 elements and the
      expanded square with a = x[n-1], b = y[n-1] give it for n elements. */
  lemma CauchySchwarzStep(A: real, B: real, C: real, p: real, q: real, A': real, B': real, C': real)
    requires Mul(C, C) <= Mul(A, B) && 0.0 <= Quad(A, B, C, p, q)
    requires A' == A + Mul(p, p) && B' == B + Mul(q, q) && C' == C + Mul(p, q)
    ensures Mul(C', C') <= Mul(A', B')
  {
    assert 2.0 * ((p * q) * C) <= (q * q) * A + (p * p) * B;
    calc {
      Mul(C', C');
    ==
      (C + p * q) * (C + p * q);
    ==
      C * C + 2.0 * ((p * q) * C) + (p * p) * (q * q);
    <=
      A * B + ((q * q) * A + (p * p) * B) + (p * p) * (q * q);
    ==
      (A + p * p) * (B + q * q);
    ==
      Mul(A', B');
    }
  }

  /** The sum of an affine image of x. */
  lemma {:induction false} SumAffine(x: seq<real>, n: nat, c: real, d: real)
    requires n <= |x|
    ensures Sum(Affine(x, c, d), n) == Mul(c, Sum(x, n)) - Mul(n as real, d)
  {
    if n > 0 {
      var u := Affine(x, c, d);
      assert u[n - 1] == Mul(c, x[n - 1]) - d;
      SumAffine(x, n - 1, c, d);
      LinearStep(Sum(u, n - 1), Sum(x, n - 1), x[n - 1], c, d, (n - 1) as real, Sum(u, n), Sum(x, n), n as real);
    }
  }

  /** One step of SumAffine. */
  lemma LinearStep(U: real, S: real, p: real, c: real, d: real, m: real, U': real, S': real, m': real)
    requires U == Mul(c, S) - Mul(m, d) && U' == U + (Mul(c, p) - d) && S' == S + p && m' == m + 1.0
    ensures U' == Mul(c, S') - Mul(m', d)
  {
    calc {
      U';
    ==
      c * S - m * d + (c * p - d);
    ==
      c * (S + p) - (m + 1.0) * d;
    ==
      Mul(c, S') - Mul(m', d);
    }
  }

  /** The dot product with an affine image of x in the first place. */
  lemma {:induction false} DotAffineLeft(x: seq<real>, v: seq<real>, n: nat, c: real, d: real)
    requires n <= |x| && n <= |v|
    ensures Dot(Affine(x, c, d), v, n) == Mul(c, Dot(x, v, n)) - Mul(d, Sum(v, n))
  {
    if n > 0 {
      var u := Affine(x, c, d);
      assert u[n - 1] == Mul(c, x[n - 1]) - d;
      DotAffineLeft(x, v, n - 1, c, d);
      BilinearStep(Dot(u, v, n - 1), Dot(x, v, n - 1), Sum(v, n - 1), x[n - 1], v[n - 1], u[n - 1], c, d,
                   Dot(u, v, n), Dot(x, v, n), Sum(v, n));
    }
  }

  /** The dot product with an affine image of y in the second place. */
  lemma {:induction false} DotAffineRight(x: seq<real>, y: seq<real>, n: nat, c: real, e: real)
    requires n <= |x| && n <= |y|
    ensures Dot(x, Affine(y, c, e), n) == Mul(c, Dot(x, y, n)) - Mul(e, Sum(x, n))
  {
    DotSymmetric(x, Affine(y, c, e), n);
    DotAffineLeft(y, x, n, c, e);
    DotSymmetric(y, x, n);
  }

  /** One step of DotAffineLeft: r = c*p - d is the new element of the affine
      image and q the new element of the other sequence. */
  lemma BilinearStep(D: real, E: real, S: real, p: real, q: real, r: real, c: real, d: real,
                     D': real, E': real, S': real)
    requires D == Mul(c, E) - Mul(d, S) && r == Mul(c, p) - d
    requires D' == D + Mul(r, q) && E' == E + Mul(p, q) && S' == S + q
    ensures D' == Mul(c, E') - Mul(d, S')
  {
    calc {
      D';
    ==
      c * E - d * S + (c * p - d) * q;
    ==
      c * (E + p * q) - d * (S + q);
    ==
      Mul(c, E') - Mul(d, S');
    }
  }
}
