/** The floating-point vocabulary the toolkit relies on, over exact reals. */
module Numeric {

  /** `std::sqrt`: an arbitrary fixed function, nothing is known about it. */
  const SqrtFn: real -> real

  /** `std::log2`: an arbitrary fixed function, nothing is known about it. */
  const Log2Fn: real -> real

  function Sqrt(x: real): real { SqrtFn(x) }

  function Log2(x: real): real { Log2Fn(x) }

  /** `std::numeric_limits<double>::max()`. */
  const FpMax: real := 1.7976931348623157e308

  /** `std::numeric_limits<double>::min()`: the smallest positive normal double. */
  const FpMinPositive: real := 2.2250738585072014e-308

  function Square(x: real): real { x * x }

  lemma SquareNonNegative(x: real)
    ensures Square(x) >= 0.0
  {
    if x < 0.0 {
      assert Square(x) == (-x) * (-x);
    }
  }

  lemma SquareZero(x: real)
    ensures Square(x) == 0.0 <==> x == 0.0
  {
    if x != 0.0 {
      var y := 1.0 / x;
      assert x * y == 1.0;
      assert Square(x) * Square(y) == 1.0;
    }
  }

  /** A product is zero exactly when a factor is. */
  lemma ProductZero(x: real, y: real)
    ensures x * y == 0.0 <==> x == 0.0 || y == 0.0
  {
    if x != 0.0 && y != 0.0 {
      var u := 1.0 / x;
      var v := 1.0 / y;
      assert x * u == 1.0 && y * v == 1.0;
      assert (x * y) * (u * v) == 1.0;
    }
  }

  lemma MulPositive(x: real, y: real)
    requires x > 0.0 && y > 0.0
    ensures x * y > 0.0
  {
  }
}
