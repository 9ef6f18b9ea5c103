/** Products of reals behind a name, so that proofs can hide the multiplication and reason with
    the few laws below; and multiples by a count, which stay linear. */
module RealProducts {

  function Times(a: real, b: real): real {
    a * b
  }

  lemma TimesDistributes(a: real, b: real, c: real)
    ensures Times(a, b + c) == Times(a, b) + Times(a, c)
    ensures Times(b + c, a) == Times(b, a) + Times(c, a)
    ensures Times(a, b - c) == Times(a, b) - Times(a, c)
  {
  }

  lemma TimesCommutes(a: real, b: real)
    ensures Times(a, b) == Times(b, a)
  {
  }

  lemma TimesNegates(a: real, b: real)
    ensures Times(-a, b) == -Times(a, b) == Times(a, -b)
  {
  }

  lemma TimesZero(a: real)
    ensures Times(0.0, a) == 0.0 == Times(a, 0.0)
  {
  }

  lemma TimesPositive(a: real, b: real)
    requires a > 0.0 && b > 0.0
    ensures Times(a, b) > 0.0
  {
  }

  lemma TimesNonNegative(a: real, b: real)
    requires a >= 0.0 && b >= 0.0
    ensures Times(a, b) >= 0.0
  {
    if a == 0.0 { TimesZero(b); }
    else if b == 0.0 { TimesZero(a); }
    else { TimesPositive(a, b); }
  }

  function Square(x: real): real {
    Times(x, x)
  }

  lemma SquareSign(x: real)
    ensures Square(x) >= 0.0 && (Square(x) == 0.0 ==> x == 0.0)
  {
    hide Times;
    TimesZero(x);
    if x > 0.0 { TimesPositive(x, x); }
    if x < 0.0 { TimesPositive(-x, -x); TimesNegates(x, x); TimesNegates(x, -x); }
  }

  lemma SquareOfSum(x: real, y: real)
    ensures Square(x + y) == Square(x) + 2.0 * Times(x, y) + Square(y)
    ensures Square(x - y) == Square(x) - 2.0 * Times(x, y) + Square(y)
  {
    hide Times;
    TimesDistributes(x + y, x, y);
    TimesDistributes(x, x, y);
    TimesDistributes(y, x, y);
    TimesCommutes(x, y);
    TimesDistributes(x - y, x, y);
    TimesDistributes(x, x, -y);
    TimesDistributes(y, x, -y);
    TimesNegates(y, x);
    TimesNegates(y, y);
    TimesNegates(x, y);
  }

  /** `x` added up `n` times. */
  function Multiple(x: real, n: nat): real {
    if n == 0 then 0.0 else x + Multiple(x, n - 1)
  }

  lemma {:induction false} MultipleIsProduct(x: real, n: nat)
    ensures Multiple(x, n) == x * (n as real)
  {
    if n == 0 {
    } else {
      MultipleIsProduct(x, n - 1);
      assert n as real == (n - 1) as real + 1.0;
      assert x * ((n - 1) as real + 1.0) == x * ((n - 1) as real) + x;
    }
  }

  lemma {:induction false} MultipleSplits(x: real, n: nat, m: nat)
    ensures Multiple(x, n + m) == Multiple(x, n) + Multiple(x, m)
  {
    if n == 0 {
    } else {
      MultipleSplits(x, n - 1, m);
    }
  }

  lemma {:induction false} MultipleAdds(x: real, y: real, n: nat)
    ensures Multiple(x + y, n) == Multiple(x, n) + Multiple(y, n)
    ensures Multiple(x - y, n) == Multiple(x, n) - Multiple(y, n)
  {
    if n == 0 {
    } else {
      MultipleAdds(x, y, n - 1);
    }
  }

  lemma {:induction false} MultipleSign(x: real, n: nat)
    ensures x >= 0.0 ==> Multiple(x, n) >= 0.0
    ensures n > 0 ==> (x > 0.0 <==> Multiple(x, n) > 0.0)
  {
    if n == 0 {
    } else {
      MultipleSign(x, n - 1);
    }
  }

  // ---- the arithmetic of pooling ----------------------------------------------------------------------

  lemma MidpointTerm(e: real, a: real, b: real)
    ensures 4.0 * Square(e - (a + b) / 2.0) + Square(a - b) == 2.0 * Square(e - a) + 2.0 * Square(e - b)
  {
    hide Square;
    var x, y := (e - a) / 2.0, (e - b) / 2.0;
    assert e - (a + b) / 2.0 == x + y;
    assert a - b == (y + y) - (x + x) && e - a == x + x && e - b == y + y;
    SquareOfSum(x, y);
    SquareOfSum(x, x);
    SquareOfSum(y, y);
    SquareOfSum(y + y, x + x);
    TimesTwice(x, y);
  }

  lemma TimesTwice(x: real, y: real)
    ensures Times(y + y, x + x) == 4.0 * Times(x, y)
    ensures Times(x, x) == Square(x) && Times(y, y) == Square(y)
  {
  }

  function PooledMean(a: real, n: nat, b: real, m: nat): real
    requires n > 0 && m > 0
  {
    (a * (n as real) + b * (m as real)) / (n as real + m as real)
  }

  lemma PooledBetween(a: real, n: nat, b: real, m: nat)
    requires n > 0 && m > 0 && a > b
    ensures b < PooledMean(a, n, b, m) < a
    ensures Multiple(a - PooledMean(a, n, b, m), n) == Multiple(PooledMean(a, n, b, m) - b, m)
  {
    var v := PooledMean(a, n, b, m);
    PooledBalance(a, n, b, m);
    hide PooledMean;
    MultipleAdds(a, v, n);
    MultipleAdds(v, b, m);
    MultipleSign(a - v, n);
    MultipleSign(v - b, m);
  }

  lemma PooledBalance(a: real, n: nat, b: real, m: nat)
    requires n > 0 && m > 0
    ensures var v := PooledMean(a, n, b, m);
            Multiple(v, n) + Multiple(v, m) == Multiple(a, n) + Multiple(b, m)
  {
    var v := PooledMean(a, n, b, m);
    assert v * (n as real + m as real) == a * (n as real) + b * (m as real);
    assert v * (n as real + m as real) == v * (n as real) + v * (m as real);
    hide PooledMean;
    MultipleIsProduct(v, n);
    MultipleIsProduct(v, m);
    MultipleIsProduct(a, n);
    MultipleIsProduct(b, m);
  }

  lemma CarryStep(carry: real, floor: real, d: real, v: real, h: real)
    requires carry >= 0.0 && floor <= h
    ensures Times(carry, v - floor) + Times(d, v - h) >= Times(carry + d, v - h)
  {
    hide Times;
    TimesNonNegative(carry, h - floor);
    TimesDistributes(carry, v - h, h - floor);
    TimesDistributes(v - h, carry, d);
    assert v - floor == (v - h) + (h - floor);
  }
}
