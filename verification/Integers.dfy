// Products and quotients of integers, for the index arithmetic of the sampler and the chunkers.
module Integers {

  /** Multiplication under a name, as in module Reals. */
  function Prod(x: int, y: int): int {
    x * y
  }

  lemma ProdDistributes(x: int, y: int, d: int)
    ensures Prod(x + y, d) == Prod(x, d) + Prod(y, d) && Prod(x - y, d) == Prod(x, d) - Prod(y, d)
  {
  }

  lemma ProdCommutes(x: int, y: int)
    ensures Prod(x, y) == Prod(y, x)
  {
  }

  lemma ProdUnit(d: int)
    ensures Prod(1, d) == d && Prod(0, d) == 0 && Prod(2, d) == 2 * d
  {
  }

  lemma ProdPositive(x: int, d: int)
    requires x >= 1 && d >= 1
    ensures Prod(x, d) >= d && Prod(x, d) >= x
  {
  }

  /** Multiplying by a positive number reflects and keeps the order. */
  lemma ProdCompare(x: int, y: int, d: int)
    requires d > 0
    ensures Prod(x, d) < Prod(y, d) <==> x < y
    ensures Prod(x, d) <= Prod(y, d) <==> x <= y
  {
    ProdDistributes(x, y, d);
    ProdDistributes(y, x, d);
    if x < y { ProdPositive(y - x, d); }
    if x > y { ProdPositive(x - y, d); }
  }

  lemma ProdNonNegative(x: int, y: int)
    requires x >= 0 && y >= 0
    ensures Prod(x, y) >= 0
  {
  }

  lemma DivBounds(x: nat, d: nat)
    requires d > 0
    ensures Prod(x / d, d) <= x < Prod(x / d, d) + d
  {
    assert x == Prod(x / d, d) + x % d;
  }

  lemma DivUnique(x: nat, d: nat, q: int)
    requires d > 0 && Prod(q, d) <= x < Prod(q, d) + d
    ensures x / d == q
  {
    hide Prod;
    DivBounds(x, d);
    var p := x / d;
    ProdDistributes(p, 1, d);
    ProdDistributes(q, 1, d);
    ProdUnit(d);
    ProdCompare(p, q + 1, d);
    ProdCompare(q, p + 1, d);
  }
}
