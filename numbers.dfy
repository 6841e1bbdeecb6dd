/**
 * The arithmetic helpers the source takes from Python: `round(x, 1)`, `round(x, 2)`,
 * `int(x)`, `max` and `min`, all over exact reals.
 */
module Numbers {

  function Max(a: real, b: real): real { if a >= b then a else b }
  function Min(a: real, b: real): real { if a <= b then a else b }

  /**
   * `round(x, n)` with `scale == 10^n`: the nearest multiple of `1/scale`, ties
   * rounded up. Python rounds ties to even on the binary value; see README.
   */
  function RoundScaled(x: real, scale: real): (r: real)
    requires scale > 0.0
    ensures x - 0.5 / scale < r <= x + 0.5 / scale
  {
    var y := x * scale + 0.5;
    var f := y.Floor as real;
    assert y - 1.0 < f <= y;
    DivBounds(f, y, scale);
    f / scale
  }

  lemma DivBounds(f: real, y: real, scale: real)
    requires scale > 0.0 && y - 1.0 < f <= y
    ensures (y - 1.0) / scale < f / scale <= y / scale
  {
  }

  /** `round(x, 1)`. */
  function Round1(x: real): (r: real)
    ensures -0.05 < r - x <= 0.05
  {
    RoundScaled(x, 10.0)
  }

  /** `round(x, 2)`. */
  function Round2(x: real): (r: real)
    ensures -0.005 < r - x <= 0.005
  {
    RoundScaled(x, 100.0)
  }

  /** Rounding never moves two values past each other. */
  lemma Round1Monotonic(x: real, y: real)
    requires x <= y
    ensures Round1(x) <= Round1(y)
  {
    var fx := (x * 10.0 + 0.5).Floor;
    var fy := (y * 10.0 + 0.5).Floor;
    assert fx <= fy;
    assert Round1(x) == fx as real / 10.0;
    assert Round1(y) == fy as real / 10.0;
  }

  /** A non-negative value rounds to a non-negative one. */
  lemma Round1NonNegative(x: real)
    requires x >= 0.0
    ensures Round1(x) >= 0.0
  {
    var f := (x * 10.0 + 0.5).Floor;
    assert f >= 0;
    assert Round1(x) == f as real / 10.0;
  }

  /** `int(x)`: truncation toward zero. */
  function Trunc(x: real): (r: int)
    ensures x >= 0.0 ==> 0 <= r && r as real <= x < r as real + 1.0
    ensures x < 0.0 ==> r <= 0 && r as real - 1.0 < x <= r as real
  {
    if x >= 0.0 then x.Floor else -((-x).Floor)
  }
}
