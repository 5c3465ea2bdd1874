/** Order facts about real multiplication and division by a positive factor. */
module Arith {

  lemma ScaleBelow(k: real, a: real, b: real)
    requires k > 0.0 && a <= b
    ensures a * k <= b * k
  {
    assert b * k - a * k == (b - a) * k;
  }

  lemma ScaleStrictlyBelow(k: real, a: real, b: real)
    requires k > 0.0 && a < b
    ensures a * k < b * k
  {
    assert b * k - a * k == (b - a) * k;
  }

  lemma DivideBelow(a: real, b: real, c: real)
    requires c > 0.0 && a <= b
    ensures a / c <= b / c
  {
    assert a / c == a * (1.0 / c) && b / c == b * (1.0 / c);
    ScaleBelow(1.0 / c, a, b);
  }
}
