/** Facts about Dafny's integer `/` and `%` for a positive divisor, which
    round down and leave a remainder in `[0, p)` as Python's do. */
module Arith {

  /** A quotient and remainder in range are the quotient and remainder. */
  lemma DivModUnique(m: int, p: int, q: int, r: int)
    requires p > 0 && 0 <= r < p && m == q * p + r
    ensures m / p == q && m % p == r
  {
    var d := q - m / p;
    assert d * p == m % p - r;
  }

  /** Hours, minutes within the hour and seconds within the minute put a
      whole number of seconds back together. */
  lemma HourMinuteSecond(w: int)
    ensures 0 <= (w % 3600) / 60 < 60
    ensures (w % 3600) % 60 == w % 60
    ensures (w / 3600) * 3600 + ((w % 3600) / 60) * 60 + w % 60 == w
  {
    var a, r := w / 3600, w % 3600;
    var m, s := r / 60, r % 60;
    assert r == m * 60 + s;
    assert w == (a * 60 + m) * 60 + s;
    DivModUnique(w, 60, a * 60 + m, s);
  }
}
