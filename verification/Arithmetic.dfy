/** The sizes of machine words, and products and quotients of integers. */
module Arithmetic {
  const W: nat := 0x1_0000_0000
  const U64: nat := 0x1_0000_0000_0000_0000

  lemma OrderedProducts(a: int, b: int, p: nat)
    requires a <= b
    ensures a * p <= b * p
  {
  }

  lemma DivBounds(a: nat, u: nat)
    requires u > 0
    ensures a / u * u + a % u == a
  {
  }

  lemma QuotientIs(a: nat, u: nat, q: nat, r: nat)
    requires r < u && a == q * u + r
    ensures a / u == q && a % u == r
  {
    DivBounds(a, u);
    if q < a / u {
      OrderedProducts(q + 1, a / u, u);
    } else if q > a / u {
      OrderedProducts(a / u + 1, q, u);
    }
  }
}
