/** Python's `round(x, 6)`, on exact reals: nearest multiple of a millionth, ties to even. */
module Rounding {

  function HalfEven(t: real): int {
    var f := t.Floor;
    var d := t - (f as real);
    if d < 0.5 || (d == 0.5 && f % 2 == 0) then f else f + 1
  }

  function Round6(x: real): real {
    (HalfEven(x * 1000000.0) as real) / 1000000.0
  }

  /** The nearest whole number, and of two equally near the even one. */
  lemma HalfEvenMeans(t: real, k: int)
    ensures HalfEven(t) == k <==> -0.5 <= t - (k as real) <= 0.5 && (t - (k as real) == 0.5 || t - (k as real) == -0.5 ==> k % 2 == 0)
  {
    var f := t.Floor;
    assert f as real <= t < (f as real) + 1.0;
    assert -0.5 <= t - (k as real) <= 0.5 ==> k == f || k == f + 1;
  }

  lemma HalfEvenMonotone(t: real, u: real)
    requires t <= u
    ensures HalfEven(t) <= HalfEven(u)
  {
    assert t.Floor <= u.Floor;
    if t.Floor < u.Floor {
      assert HalfEven(t) <= t.Floor + 1 <= u.Floor <= HalfEven(u);
    }
  }

  lemma Round6Monotone(x: real, y: real)
    requires x <= y
    ensures Round6(x) <= Round6(y)
  {
    HalfEvenMonotone(x * 1000000.0, y * 1000000.0);
  }

  lemma Round6Near(x: real)
    ensures -0.0000005 <= Round6(x) - x <= 0.0000005
  {
    var t := x * 1000000.0;
    var f := t.Floor;
    assert f as real <= t < (f as real) + 1.0;
    var h := HalfEven(t);
    assert h == f || h as real == (f as real) + 1.0;
    assert -0.5 <= (h as real) - t <= 0.5;
  }

  /** A value already on the grid is left alone; 0 and 1 are on the grid. */
  lemma Round6Grid(k: int)
    ensures Round6((k as real) / 1000000.0) == (k as real) / 1000000.0
  {
    var t := ((k as real) / 1000000.0) * 1000000.0;
    assert t == k as real;
    assert t.Floor == k;
  }

  lemma Round6Unit(x: real)
    requires 0.0 <= x <= 1.0
    ensures 0.0 <= Round6(x) <= 1.0
  {
    Round6Grid(0);
    Round6Grid(1000000);
    Round6Monotone(0.0, x);
    Round6Monotone(x, 1.0);
  }
}
