/**
  Seat arithmetic of the round table. Philosophers sit at positions 0 .. n-1
  and position n-1 sits next to position 0, so both neighbours of a position
  are computed modulo n (`test` in Monitor.java). For the non-negative
  operands used here Java's `%` and Dafny's `%` agree; the one place where
  Java's 32-bit `int` makes a difference is modelled separately at the end.
 */
module Neighbours {

  /** The philosopher on the right of position p: the next seat, wrapping at the end. */
  function RightOf(p: nat, n: nat): (r: nat)
    requires p < n
    ensures r < n
    ensures p + 1 < n ==> r == p + 1
    ensures p + 1 == n ==> r == 0
  {
    (p + 1) % n
  }

  /** The philosopher on the left of position p: the previous seat, wrapping at the start. */
  function LeftOf(p: nat, n: nat): (r: nat)
    requires p < n
    ensures r < n
    ensures 0 < p ==> r == p - 1
    ensures p == 0 ==> r == n - 1
  {
    (p + (n - 1)) % n
  }

  /** Each position is the left neighbour of its right neighbour and the right neighbour of its left one. */
  lemma NeighbourInverse(p: nat, n: nat)
    requires p < n
    ensures LeftOf(RightOf(p, n), n) == p
    ensures RightOf(LeftOf(p, n), n) == p
  {
  }

  /** With two or more seats nobody is their own neighbour; with three or more the two neighbours differ. */
  lemma NeighboursDistinct(p: nat, n: nat)
    requires p < n
    ensures RightOf(p, n) == p <==> n == 1
    ensures LeftOf(p, n) == p <==> n == 1
    ensures LeftOf(p, n) == RightOf(p, n) <==> n <= 2
  {
  }

  // ---------------------------------------------------------------------
  // The left index as Java evaluates it: `(p + (n - 1)) % n` on 32-bit ints
  // ---------------------------------------------------------------------

  const IntMin: int := -0x8000_0000
  const IntMax: int := 0x7FFF_FFFF

  /** Two's-complement wrap-around of a Java `int` result. */
  function Wrap32(x: int): (r: int)
    ensures IntMin <= r <= IntMax
    ensures (r - x) % 0x1_0000_0000 == 0
    ensures IntMin <= x <= IntMax ==> r == x
  {
    (x - IntMin) % 0x1_0000_0000 + IntMin
  }

  /** Java's `/` on `int`: the quotient truncates toward zero. */
  function JavaDiv(a: int, b: int): (q: int)
    requires b > 0
    ensures 0 <= a ==> 0 <= q * b <= a && a / b == q
    ensures a <= 0 ==> a <= q * b <= 0
    ensures a < 0 ==> q * b < a + b
  {
    if a >= 0 then
      QuotientBounds(a, b);
      a / b
    else
      QuotientBounds(-a, b);
      assert -((-a) / b) * b == -(((-a) / b) * b);
      -((-a) / b)
  }

  /** Euclidean division of a non-negative dividend leaves less than one divisor. */
  lemma QuotientBounds(x: int, b: int)
    requires 0 <= x && 0 < b
    ensures 0 <= (x / b) * b <= x < (x / b) * b + b
  {
    assert x == (x / b) * b + x % b;
  }

  /**
    Java's `%`: what is left of a after taking JavaDiv(a, b) times b, so the
    remainder takes the sign of the dividend.
   */
  function JavaRem(a: int, b: int): (r: int)
    requires b > 0
    ensures a == JavaDiv(a, b) * b + r
    ensures -b < r < b
    ensures a >= 0 ==> r >= 0 && r == a % b
    ensures a < 0 ==> r <= 0
  {
    if a >= 0 then
      assert a == (a / b) * b + a % b;
      a % b
    else
      assert -a == ((-a) / b) * b + (-a) % b;
      -((-a) % b)
  }

  /** The left index exactly as `test` computes it, for any seat count a Java `int` can hold. */
  function LeftOfAsWritten(p: nat, n: nat): (r: int)
    requires p < n <= IntMax
    ensures -(n as int) < r < n
  {
    JavaRem(Wrap32(p + Wrap32(n - 1)), n)
  }

  /** Up to 2^30 seats the sum `p + (n - 1)` fits in an `int` and the Java expression is the intended neighbour. */
  lemma LeftOfAsWrittenAgrees(p: nat, n: nat)
    requires p < n <= 0x4000_0000
    ensures LeftOfAsWritten(p, n) == LeftOf(p, n)
  {
    assert Wrap32(n - 1) == n - 1;
    assert Wrap32(p + (n - 1)) == p + (n - 1);
  }

  /** With 2^30 + 2 seats the sum overflows for the last seat, and the Java expression yields a negative index. */
  lemma LeftOfAsWrittenOverflows()
    ensures LeftOfAsWritten(0x4000_0001, 0x4000_0002) == -0x3FFF_FFFC
    ensures LeftOf(0x4000_0001, 0x4000_0002) == 0x4000_0000
  {
    assert Wrap32(0x4000_0001) == 0x4000_0001;
    assert Wrap32(0x4000_0001 + 0x4000_0001) == -0x7FFF_FFFE;
    assert JavaRem(-0x7FFF_FFFE, 0x4000_0002) == -0x3FFF_FFFC;
  }

  /**
    Not every overflow gives a negative index: with 1500000000 seats the sum
    for seat 1294967297 wraps to exactly -n, so `%` yields seat 0 rather than
    the left neighbour, while the seat before it gets index -1.
   */
  lemma LeftOfAsWrittenWrongSeat()
    ensures LeftOfAsWritten(1294967297, 1500000000) == 0
    ensures LeftOf(1294967297, 1500000000) == 1294967296
    ensures LeftOfAsWritten(1294967296, 1500000000) == -1
  {
    assert Wrap32(1499999999) == 1499999999;
    assert Wrap32(1294967297 + 1499999999) == -1500000000;
    assert Wrap32(1294967296 + 1499999999) == -1500000001;
    assert JavaRem(-1500000000, 1500000000) == 0;
    assert JavaRem(-1500000001, 1500000000) == -1;
  }
}
