/** Comparing fractions without dividing. */
module Fractions {

  lemma FractionOrder(a: real, c: real, b: real, d: real)
    requires c > 0.0 && d > 0.0
    ensures a / c < b / d <==> a * d < b * c
  {
    var u, v := a / c, b / d;
    assert a * d == u * (c * d);
    assert b * c == v * (c * d);
    assert c * d > 0.0;
    if u < v {
      assert u * (c * d) < v * (c * d);
    } else {
      assert v * (c * d) <= u * (c * d);
    }
  }
}
