/** Rounding to two decimals as the services do it: halves go up. */
module Rounding {

  function RoundHalfUp(x: real): int {
    (x + 0.5).Floor
  }

  function Round2(x: real): real {
    RoundHalfUp(x * 100.0) as real / 100.0
  }

  /** A whole number of hundredths. */
  predicate InCents(x: real) {
    (x * 100.0).Floor as real == x * 100.0
  }

  lemma RoundingIsNear(x: real)
    ensures x - 0.005 < Round2(x) <= x + 0.005
    ensures InCents(Round2(x))
  {
    assert Round2(x) * 100.0 == RoundHalfUp(x * 100.0) as real;
  }

  /** Whole hundredths within half a hundredth of an amount, halves going up: there is one such number. */
  predicate RoundedTo(x: real, cents: real) {
    InCents(cents) && x - 0.005 < cents <= x + 0.005
  }

  lemma RoundedExactly(x: real, cents: real)
    ensures cents == Round2(x) <==> RoundedTo(x, cents)
  {
    RoundingIsNear(x);
    if RoundedTo(x, cents) {
      var n := (cents * 100.0).Floor;
      assert x * 100.0 - 0.5 < n as real <= x * 100.0 + 0.5;
    }
  }

  lemma CentsStay(x: real)
    requires InCents(x)
    ensures Round2(x) == x
  {
    assert RoundHalfUp(x * 100.0) == (x * 100.0).Floor;
  }

  lemma RoundingIsMonotone(x: real, y: real)
    requires x <= y
    ensures Round2(x) <= Round2(y)
  {
    assert RoundHalfUp(x * 100.0) <= RoundHalfUp(y * 100.0);
  }

  /** The next whole number of hundredths. */
  function UpToCents(x: real): real {
    -(-x * 100.0).Floor as real / 100.0
  }

  /** Rounding reaches x from half a hundredth below the next whole one on. */
  lemma RoundedReachesExactly(stock: real, x: real)
    ensures Round2(stock) >= x <==> stock >= UpToCents(x) - 0.005
  {
    var up := -(-x * 100.0).Floor;
    assert up as real - 1.0 < x * 100.0 <= up as real;
    assert RoundHalfUp(stock * 100.0) >= up <==> stock * 100.0 + 0.5 >= up as real;
    assert RoundHalfUp(stock * 100.0) as real >= x * 100.0 <==> RoundHalfUp(stock * 100.0) >= up;
  }

  lemma CentsAdd(x: real, y: real)
    requires InCents(x) && InCents(y)
    ensures InCents(x + y) && InCents(x - y)
  {
    var i, j := (x * 100.0).Floor, (y * 100.0).Floor;
    WholeCents(x + y, i + j);
    WholeCents(x - y, i - j);
  }

  lemma WholeCents(x: real, n: int)
    requires x * 100.0 == n as real
    ensures InCents(x)
  {
  }
}
