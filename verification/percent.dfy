/** `Math.round` of a quotient, computed exactly on integers: the accuracy figure
    shared by the exam result and the progress ledger, and the elapsed seconds of
    an exam. */
module Percent {

  /** The nearest integer to n/d, halves rounded up as `Math.round` does. */
  function RoundedQuotient(n: int, d: int): (r: int)
    requires d > 0
    ensures 2 * d * r - d <= 2 * n < 2 * d * r + d
  {
    DivBounds(2 * n + d, 2 * d);
    (2 * n + d) / (2 * d)
  }

  /** `total > 0 ? Math.round(part / total * 100) : 0`. */
  function RoundedPercent(part: int, whole: int): (r: int)
    ensures whole <= 0 ==> r == 0
    ensures whole > 0 ==> 2 * whole * r - whole <= 200 * part < 2 * whole * r + whole
    ensures whole > 0 && 0 <= part <= whole ==> 0 <= r <= 100
  {
    if whole > 0 then
      var r := RoundedQuotient(100 * part, whole);
      PercentRange(part, whole, r);
      r
    else 0
  }

  /** Every part of a non-empty whole scores 100. */
  lemma FullPercent(n: int)
    requires n > 0
    ensures RoundedPercent(n, n) == 100
  {
    var r := RoundedPercent(n, n);
    if r < 100 {
      MulMono(2 * n, r, 99);
      assert false;
    }
  }

  /** No part scores 0, whatever the whole. */
  lemma NoPercent(n: int)
    ensures RoundedPercent(0, n) == 0
  {
    if n > 0 {
      var r := RoundedPercent(0, n);
      if r > 0 {
        MulMono(2 * n, 1, r);
        assert false;
      }
    }
  }

  lemma DivBounds(n: int, d: int)
    requires d > 0
    ensures d * (n / d) <= n < d * (n / d) + d
  {
  }

  lemma PercentRange(part: int, whole: int, r: int)
    requires whole > 0
    requires 2 * whole * r - whole <= 200 * part < 2 * whole * r + whole
    ensures 0 <= part <= whole ==> 0 <= r <= 100
  {
    if part < 0 || part > whole {
      return;
    }
    if r > 100 {
      MulMono(2 * whole, 101, r);
      assert false;
    }
    if r < 0 {
      MulMono(2 * whole, r, -1);
      assert false;
    }
  }

  lemma MulMono(d: int, x: int, y: int)
    requires d >= 0 && x <= y
    ensures d * x <= d * y
  {
  }
}
