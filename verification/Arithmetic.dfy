/** Rounded division, stated by the inequalities the proofs use. */
module Arithmetic {

  /** Division rounded down. */
  function FloorDiv(a: nat, d: nat): (q: nat)
    requires d > 0
    ensures q * d <= a < q * d + d
  {
    DivBounds(a, d);
    a / d
  }

  /** Division rounded up. */
  function CeilDiv(a: nat, d: nat): (q: nat)
    requires d > 0
    ensures a <= q * d < a + d
  {
    FloorDiv(a + d - 1, d)
  }

  /** The floor of a basis-point share. */
  function FloorShare(amount: nat, bps: nat): (share: nat)
    ensures share * 10_000 <= amount * bps < share * 10_000 + 10_000
  {
    FloorDiv(amount * bps, 10_000)
  }

  /** The ceiling of a basis-point share. */
  function CeilShare(amount: nat, bps: nat): (share: nat)
    ensures amount * bps <= share * 10_000 < amount * bps + 10_000
  {
    CeilDiv(amount * bps, 10_000)
  }

  lemma DivBounds(a: nat, d: nat)
    requires d > 0
    ensures 0 <= a / d
    ensures a / d * d <= a < a / d * d + d
  {
    assert a == a / d * d + a % d;
  }

  /** The two bounds determine the quotient. */
  lemma FloorDivUnique(a: nat, d: nat, q: nat)
    requires d > 0 && q * d <= a < q * d + d
    ensures FloorDiv(a, d) == q
  {
    var r := FloorDiv(a, d);
    assert (r + 1) * d == r * d + d && (q + 1) * d == q * d + d;
    MulCancelStrict(r, q + 1, d);
    MulCancelStrict(q, r + 1, d);
  }

  lemma MulMonotone(a: int, b: int, c: int)
    requires a <= b && 0 <= c
    ensures a * c <= b * c
  {
    assert 0 <= (b - a) * c;
    assert (b - a) * c == b * c - a * c;
  }

  /** A product with a factor above it bounds the other factor. */
  lemma MulCancel(a: int, b: int, c: int)
    requires 0 < c && a * c <= b * c
    ensures a <= b
  {
    assert (b + 1) * c == b * c + c;
    if b + 1 <= a {
      MulMonotone(b + 1, a, c);
    }
  }

  lemma MulCancelStrict(a: int, b: int, c: int)
    requires 0 < c && a * c < b * c
    ensures a < b
  {
    if b <= a {
      MulMonotone(b, a, c);
    }
  }
}
