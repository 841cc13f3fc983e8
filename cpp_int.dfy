/** Integer division and remainder as C++ computes them on `int`: the quotient
    is truncated toward zero and the remainder takes the sign of the dividend.
    Dafny's own `/` and `%` are Euclidean, so every C++ `/` and `%` of the scan
    widget goes through these two functions. */
module CppInt {

  function Abs(x: int): (r: int) ensures r >= 0 { if x < 0 then -x else x }

  function Min(a: int, b: int): (m: int) { if a <= b then a else b }

  function Max(a: int, b: int): (m: int) { if a >= b then a else b }

  /** `a / b` in C++: the quotient of the magnitudes, with the sign of the
      exact quotient, so that `b * q` never exceeds `a` in magnitude. */
  function Div(a: int, b: int): (q: int)
    requires b != 0
    ensures a >= 0 && b > 0 ==> q == a / b
    ensures Abs(b * q) <= Abs(a) < Abs(b * q) + Abs(b)
    ensures q != 0 ==> (q > 0 <==> (a > 0) == (b > 0))
  {
    var m := Abs(a) / Abs(b);
    var q := if (a >= 0) == (b > 0) then m else -m;
    MagnitudeQuotient(Abs(a), Abs(b));
    ProductMagnitude(b, q);
    assert Abs(q) == m;
    assert Abs(b * q) == Abs(b) * m;
    q
  }

  /** `a % b` in C++: what is left of `a` after `b * Div(a, b)`; it has the
      sign of `a` and is smaller than `b` in magnitude. */
  function Rem(a: int, b: int): (r: int)
    requires b != 0
    ensures a == b * Div(a, b) + r
    ensures a >= 0 ==> 0 <= r < Abs(b)
    ensures a <= 0 ==> -Abs(b) < r <= 0
    ensures a >= 0 && b > 0 ==> r == a % b
  {
    var q := Div(a, b);
    var r := a - b * q;
    assert a >= 0 && b > 0 ==> a == b * (a / b) + a % b;
    SameSignRemainder(a, b, q);
    r
  }

  lemma MagnitudeQuotient(x: int, y: int)
    requires x >= 0 && y > 0
    ensures y * (x / y) <= x < y * (x / y) + y
  {
    assert x == (x / y) * y + x % y;
  }

  /** The product `b * q` of a truncated quotient has the sign of `a`. */
  lemma SameSignRemainder(a: int, b: int, q: int)
    requires b != 0
    requires Abs(b * q) <= Abs(a) < Abs(b * q) + Abs(b)
    requires q != 0 ==> (q > 0 <==> (a > 0) == (b > 0))
    ensures a >= 0 ==> 0 <= a - b * q < Abs(b)
    ensures a <= 0 ==> -Abs(b) < a - b * q <= 0
  {
    if q == 0 {
    } else if q > 0 {
      if b > 0 { assert b * q > 0; } else { assert b * q < 0; }
    } else {
      if b > 0 { assert b * q < 0; } else { assert b * q > 0; }
    }
  }

  lemma ProductMagnitude(b: int, m: int)
    ensures Abs(b * m) == Abs(b) * Abs(m)
  {
    if b < 0 && m < 0 {
      assert b * m == Abs(b) * Abs(m);
    } else if b < 0 {
      assert b * m == -(Abs(b) * m);
    } else if m < 0 {
      assert b * m == -(b * Abs(m));
    }
  }
}
