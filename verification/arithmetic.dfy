/** Unsigned 32-bit arithmetic, and the few facts about quotients the proofs need. */
module Arithmetic {

  const UINT32_SPAN: nat := 0x1_0000_0000

  /** A value as a `uint32_t` holds it. */
  function Wrap32(n: nat): (r: nat)
    ensures r < UINT32_SPAN
    ensures n < UINT32_SPAN ==> r == n
  {
    n % 0x1_0000_0000
  }

  lemma MultipleOf(t: nat, d: int)
    requires t > 0
    ensures d > 0 ==> t * d >= t
    ensures d < 0 ==> t * d <= 0 - t
  {
  }

  /** Quotient and remainder are unique. */
  lemma QuotientIs(w: nat, t: nat, q: nat, r: nat)
    requires t > 0 && w == t * q + r && r < t
    ensures w / t == q && w % t == r
  {
    var d := w / t - q;
    assert t * d == t * (w / t) - t * q == r - w % t;
    MultipleOf(t, d);
  }
}
