/** Arithmetic that several modules need. */
module Arithmetic {

  function Min(a: int, b: int): (m: int)
    ensures m <= a && m <= b && (m == a || m == b)
  {
    if a <= b then a else b
  }

  function Max(a: int, b: int): int {
    if a <= b then b else a
  }

  function Pow2(n: nat): (p: int)
    ensures p > 0
  {
    if n == 0 then 1 else 2 * Pow2(n - 1)
  }

  /** A multiple of p that is not zero is at least p away from zero. */
  lemma MultipleGrows(k: int, p: int)
    requires p > 0
    ensures k >= 1 ==> k * p >= p
    ensures k <= -1 ==> k * p <= -p
  {
    if k >= 1 {
      assert (k - 1) * p >= 0;
    } else if k <= -1 {
      assert (-1 - k) * p >= 0;
    }
  }

  /** Quotient and remainder are unique. */
  lemma DivMod(x: nat, divisor: nat, q: nat, r: nat)
    requires divisor > 0 && r < divisor && x == q * divisor + r
    ensures x / divisor == q && x % divisor == r
  {
    var d := x / divisor - q;
    assert x == (x / divisor) * divisor + x % divisor;
    assert d * divisor == r - x % divisor by {
      assert (x / divisor - q) * divisor == (x / divisor) * divisor - q * divisor;
    }
    MultipleGrows(d, divisor);
  }

  lemma RemainderIsSmall(n: nat, p: nat)
    requires p > 0
    ensures 0 <= n % p <= n
  {
    var q := n / p;
    assert n == q * p + n % p;
    assert q * p >= 0;
  }
}
