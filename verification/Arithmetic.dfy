/** Division facts the codecs and the calendar share. */
module Arithmetic {
  lemma MulSmall(m: int, d: int)
    requires -m < m * d < m
    ensures d == 0
  {
    assert d >= 1 ==> m * d >= m;
    assert d <= -1 ==> m * d <= -m;
  }

  /** A quotient and remainder are what division yields. */
  lemma DivModUnique(v: int, m: int, k: int, r: int)
    requires v == m * k + r && 0 <= r < m
    ensures v / m == k && v % m == r
  {
    var q := v / m;
    assert v == m * q + v % m;
    assert m * (q - k) == m * q - m * k;
    MulSmall(m, q - k);
  }

  /** Dividing twice is dividing by the product. */
  lemma DivDiv(v: int, a: int, b: int)
    requires a > 0 && b > 0
    ensures v / (a * b) == v / a / b && v % (a * b) == v % a + a * (v / a % b)
  {
    var q := v / a;
    assert v == a * q + v % a && q == b * (q / b) + q % b;
    assert a * (b * (q / b) + q % b) == a * b * (q / b) + a * (q % b);
    assert a * (q % b) <= a * (b - 1) by { MulMono(a, q % b, b - 1); }
    assert a * (q % b) >= 0 by { MulMono(a, 0, q % b); }
    assert a * (b - 1) == a * b - a;
    DivModUnique(v, a * b, q / b, a * (q % b) + v % a);
  }

  lemma MulMono(a: int, b: int, c: int)
    requires a >= 0 && b <= c
    ensures a * b <= a * c
  {
  }
}
