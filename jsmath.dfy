/** The JavaScript number primitives the metrics rely on, over exact
    integers and reals: Math.round, Math.abs, Math.min, the store into a
    Uint8ClampedArray, and Math.sqrt as a law its callers supply. */
module JsMath {
  import opened Types

  /** Math.round: the nearest integer, a half rounding up, i.e. floor(x + 1/2). */
  function Round(x: real): (n: int)
    ensures x - 0.5 < n as real <= x + 0.5
  {
    (x + 0.5).Floor
  }

  /** Storing an integer into a Uint8ClampedArray clamps it to 0..255. */
  function ClampByte(x: int): (b: Byte)
    ensures 0 <= x <= 255 ==> b == x
    ensures x < 0 ==> b == 0
    ensures 255 < x ==> b == 255
  {
    if x < 0 then 0 else if 255 < x then 255 else x
  }

  function Abs(x: int): nat {
    if x < 0 then -x else x
  }

  function AbsReal(x: real): real {
    if x < 0.0 then -x else x
  }

  function Min(x: int, y: int): int {
    if x <= y then x else y
  }

  function Max(x: int, y: int): int {
    if x <= y then y else x
  }

  /** A JavaScript number over exact reals: a finite value, NaN or an infinity. */
  datatype JsNumber = Finite(value: real) | NaN | Infinity(negative: bool)

  /** JavaScript's num / den: 0/0 is NaN and a non-zero number over 0 is an
      infinity of its sign. */
  function Divide(num: real, den: real): (r: JsNumber)
    ensures r.Finite? <==> den != 0.0
    ensures r.NaN? <==> den == 0.0 && num == 0.0
    ensures r.Infinity? ==> (r.negative <==> num < 0.0)
  {
    if den != 0.0 then Finite(num / den)
    else if num == 0.0 then NaN
    else Infinity(num < 0.0)
  }

  /** The law of Math.sqrt on exact reals: for every x >= 0 the result is the
      non-negative square root of x. Dafny's reals have no square root of
      their own, so every member that uses Math.sqrt takes it as a parameter
      that satisfies this law. */
  ghost predicate IsSqrt(sqrt: real -> real) {
    forall x: real :: 0.0 <= x ==> 0.0 <= sqrt(x) && sqrt(x) * sqrt(x) == x
  }

  /** A mean whose sum lies in [0, k*n] lies in [0, k]. */
  lemma MeanBound(s: int, n: int, k: int)
    requires 0 < n && 0 <= s <= k * n
    ensures 0.0 <= s as real / n as real <= k as real
  {
    calc {
      s as real / n as real;
    <=
      (k * n) as real / n as real;
    ==
      k as real;
    }
  }

  /** Squaring is strictly increasing on the non-negative reals. */
  lemma SquareStrictlyIncreasing(x: real, y: real)
    requires 0.0 <= x < y
    ensures x * x < y * y
  {
    calc {
      x * x;
    <= x * y;
    < y * y;
    }
  }

  /** Two non-negative reals with the same square are equal: the square root is unique. */
  lemma SquareRootUnique(a: real, b: real)
    requires 0.0 <= a && 0.0 <= b
    requires a * a == b * b
    ensures a == b
  {
    if a < b {
      SquareStrictlyIncreasing(a, b);
    } else if b < a {
      SquareStrictlyIncreasing(b, a);
    }
  }

  /** Math.sqrt(x) is 0 exactly when x is 0. */
  lemma SqrtZeroIff(sqrt: real -> real, x: real)
    requires IsSqrt(sqrt)
    requires 0.0 <= x
    ensures sqrt(x) == 0.0 <==> x == 0.0
  {
    var s := sqrt(x);
    assert 0.0 <= s && s * s == x;
    if x == 0.0 {
      SquareRootUnique(s, 0.0);
    }
  }
}
