/** Ceiling division, shared by the supply summary and the table pager. */
module Arith {

  /** The smallest whole number of `b`-sized units covering `a` (`Math.ceil(a / b)`). */
  function CeilDiv(a: int, b: int): (r: int)
    requires b > 0
    ensures r * b >= a && (r - 1) * b < a
    ensures a >= 0 ==> r >= 0
  {
    var q := (a + b - 1) / b;
    CeilDivBounds(a, b, q, (a + b - 1) % b);
    q
  }

  lemma CeilDivBounds(a: int, b: int, q: int, m: int)
    requires b > 0 && q == (a + b - 1) / b && m == (a + b - 1) % b
    ensures q * b >= a && (q - 1) * b < a
  {
    assert a + b - 1 == q * b + m && 0 <= m < b;
    assert (q - 1) * b == q * b - b;
  }

  /** A product with a positive factor is positive only if the other is. */
  lemma PositiveFactor(x: int, b: int)
    requires b > 0 && x * b > 0
    ensures x > 0
  {
  }

  /** `CeilDiv` is monotone in the amount covered. */
  lemma CeilDivMonotone(a1: int, a2: int, b: int)
    requires b > 0 && a1 <= a2
    ensures CeilDiv(a1, b) <= CeilDiv(a2, b)
  {
    var c1, c2 := CeilDiv(a1, b), CeilDiv(a2, b);
    assert (c2 - c1 + 1) * b == c2 * b - (c1 - 1) * b;
    PositiveFactor(c2 - c1 + 1, b);
  }

  /** `CeilDiv` is the unique value with its two bounds. */
  lemma CeilDivUnique(a: int, b: int, r: int)
    requires b > 0 && r * b >= a && (r - 1) * b < a
    ensures CeilDiv(a, b) == r
  {
    var c := CeilDiv(a, b);
    assert (c - r + 1) * b == c * b - (r - 1) * b;
    PositiveFactor(c - r + 1, b);
    assert (r - c + 1) * b == r * b - (c - 1) * b;
    PositiveFactor(r - c + 1, b);
  }

  /** A whole number of units needs exactly that many. */
  lemma CeilDivExact(k: int, b: int)
    requires b > 0
    ensures CeilDiv(k * b, b) == k
  {
    assert (k - 1) * b == k * b - b;
    CeilDivUnique(k * b, b, k);
  }
}
