// Real multiplication, its algebra and its order.
module Reals {

  /** Multiplication under a name: products of equal factors are then equal by congruence,
      and the solver treats a product as one quantity in linear reasoning. */
  function Times(x: real, y: real): real {
    x * y
  }

  function Square(x: real): real {
    Times(x, x)
  }

  function Min(x: real, y: real): real {
    if x <= y then x else y
  }

  function Max(x: real, y: real): real {
    if x >= y then x else y
  }

  function Abs(x: real): real {
    if x >= 0.0 then x else -x
  }

  lemma Distribute(x: real, y: real, z: real)
    ensures Times(x + y, z) == Times(x, z) + Times(y, z) && Times(x - y, z) == Times(x, z) - Times(y, z)
    ensures Times(z, x + y) == Times(z, x) + Times(z, y) && Times(z, x - y) == Times(z, x) - Times(z, y)
  {
  }

  lemma Commute(x: real, y: real)
    ensures Times(x, y) == Times(y, x)
  {
  }

  lemma OneTimes(x: real)
    ensures Times(1.0, x) == x && Times(x, 1.0) == x
  {
  }

  lemma ZeroTimes(x: real)
    ensures Times(0.0, x) == 0.0 && Times(x, 0.0) == 0.0
  {
  }

  lemma TwoTimes(x: real)
    ensures Times(2.0, x) == x + x
  {
  }

  lemma Associate(x: real, y: real, z: real)
    ensures Times(Times(x, y), z) == Times(x, Times(y, z))
  {
  }

  lemma Monotone(a: real, b: real, c: real)
    requires a <= b && c >= 0.0
    ensures Times(a, c) <= Times(b, c) && Times(c, a) <= Times(c, b)
  {
  }

  lemma StrictlyMonotone(a: real, b: real, c: real)
    requires a < b && c > 0.0
    ensures Times(a, c) < Times(b, c) && Times(c, a) < Times(c, b)
  {
  }

  lemma NonNegative(x: real, y: real)
    requires x >= 0.0 && y >= 0.0
    ensures Times(x, y) >= 0.0
  {
  }

  lemma Positive(x: real, y: real)
    requires x > 0.0 && y > 0.0
    ensures Times(x, y) > 0.0
  {
  }

  /** A product with a positive factor has the sign of the other factor. */
  lemma SignOfFactor(x: real, y: real)
    requires x > 0.0
    ensures Times(x, y) >= 0.0 <==> y >= 0.0
    ensures Times(x, y) == 0.0 <==> y == 0.0
  {
    if y > 0.0 { Positive(x, y); }
    if y < 0.0 { Positive(x, -y); Negate(x, y); }
  }

  lemma Negate(x: real, y: real)
    ensures Times(x, -y) == -Times(x, y) && Times(-x, y) == -Times(x, y)
  {
  }

  lemma SquareSign(x: real)
    ensures Square(x) >= 0.0
    ensures Square(x) == 0.0 <==> x == 0.0
  {
    if x > 0.0 {
      Positive(x, x);
    } else if x < 0.0 {
      Positive(-x, -x);
      Negate(x, x);
      Negate(-x, x);
    }
  }

  lemma SquareOfSum(x: real, y: real)
    ensures Square(x + y) == Square(x) + 2.0 * Times(x, y) + Square(y)
    ensures Square(x - y) == Square(x) - 2.0 * Times(x, y) + Square(y)
  {
  }

  lemma SquareOfProduct(x: real, y: real)
    ensures Square(Times(x, y)) == Times(Square(x), Square(y))
  {
    Associate(x, y, Times(x, y));
    Associate(y, x, y);
    Commute(y, x);
    Associate(x, y, y);
    Associate(x, x, Square(y));
  }

  lemma SquareMonotone(a: real, b: real)
    requires 0.0 <= a <= b
    ensures Square(a) <= Square(b)
  {
    Monotone(a, b, a);
    Monotone(a, b, b);
    Commute(a, b);
  }

  lemma SquareStrictlyMonotone(a: real, b: real)
    requires 0.0 <= a < b
    ensures Square(a) < Square(b)
  {
    Monotone(a, b, a);
    StrictlyMonotone(a, b, b);
    Commute(a, b);
  }

  lemma RootMonotone(a: real, b: real)
    requires b >= 0.0 && Square(a) <= Square(b)
    ensures -b <= a <= b
  {
    if a > b { SquareStrictlyMonotone(b, a); }
    if -a > b { SquareStrictlyMonotone(b, -a); Negate(a, a); Negate(-a, a); }
  }

  lemma RootUnique(a: real, b: real)
    requires a >= 0.0 && b >= 0.0 && Square(a) == Square(b)
    ensures a == b
  {
    RootMonotone(a, b);
    RootMonotone(b, a);
  }

  lemma Divide(x: real, d: real)
    requires d != 0.0
    ensures Times(x / d, d) == x && Times(d, x / d) == x
  {
  }

  lemma DivideNonNegative(x: real, d: real)
    requires x >= 0.0 && d > 0.0
    ensures x / d >= 0.0
    ensures x / d == 0.0 <==> x == 0.0
  {
    Divide(x, d);
    SignOfFactor(d, x / d);
  }

  /** Comparing a quotient is comparing a product. */
  lemma DivideBound(x: real, d: real, b: real)
    requires d > 0.0
    ensures x / d <= b <==> x <= Times(b, d)
    ensures x / d >= b <==> x >= Times(b, d)
  {
    Divide(x, d);
    if x / d < b { StrictlyMonotone(x / d, b, d); }
    if x / d > b { StrictlyMonotone(b, x / d, d); }
  }

  /** The quotient is the only solution of r·d = x. */
  lemma DivideUnique(x: real, d: real, r: real)
    requires d != 0.0 && Times(r, d) == x
    ensures r == x / d
  {
  }

  /** If t² ≤ p·q with p ≤ a² and q ≤ b², then t ≤ a·b. */
  lemma ProductBound(t: real, p: real, q: real, a: real, b: real)
    requires a >= 0.0 && b >= 0.0 && 0.0 <= p <= Square(a) && 0.0 <= q <= Square(b)
    requires Square(t) <= Times(p, q)
    ensures t <= Times(a, b)
  {
    Monotone(p, Square(a), q);
    Monotone(q, Square(b), Square(a));
    SquareOfProduct(a, b);
    NonNegative(a, b);
    RootMonotone(t, Times(a, b));
  }

  // ----- square roots -----

  /** The source's `sqrt`, as a parameter: any function with this property. */
  ghost predicate IsSqrt(s: real -> real) {
    forall x: real {:trigger s(x)} :: x >= 0.0 ==> s(x) >= 0.0 && Square(s(x)) == x
  }

  // ----- rounding -----

  /** `(x).floor() as usize`: the cast saturates at zero. */
  function FloorToNat(x: real): nat {
    if x.Floor < 0 then 0 else x.Floor
  }

  /** `(x).ceil() as usize`. */
  function CeilToNat(x: real): nat {
    var c := if x.Floor as real == x then x.Floor else x.Floor + 1;
    if c < 0 then 0 else c
  }

  lemma CeilToNatIsLeast(x: real, k: nat)
    ensures CeilToNat(x) <= k <==> x <= k as real
  {
  }
}
