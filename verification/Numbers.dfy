/** Bytes, and facts of integer arithmetic that the models share. */
module Numbers {

  type Byte = n: int | 0 <= n < 256

  const TWO32 := 0x1_0000_0000

  function Pow2(n: nat): (r: nat)
    ensures r > 0
  {
    if n == 0 then 1 else 2 * Pow2(n - 1)
  }

  lemma Distribute(n: int, x: int, y: int)
    ensures n * (x - y) == n * x - n * y
  {
  }

  lemma SmallMultiple(n: int, d: int)
    requires n > 0 && -n < n * d < n
    ensures d == 0
  {
  }

  lemma DivisionIsUnique(n: int, q: int, r: int)
    requires n > 0 && 0 <= r < n
    ensures (n * q + r) / n == q && (n * q + r) % n == r
  {
    var x := n * q + r;
    Distribute(n, x / n, q);
    SmallMultiple(n, x / n - q);
  }

  lemma ModAdd(t: nat, x: int, m: int)
    requires t > 0
    ensures (x % t + m) % t == (x + m) % t
  {
    var y := x % t + m;
    assert t * (x / t + y / t) == t * (x / t) + t * (y / t);
    DivisionIsUnique(t, x / t + y / t, y % t);
  }

  lemma ProductIsPositive(x: int, y: int)
    requires x > 0 && y > 0
    ensures x * y > 0
  {
  }

  lemma Commute(x: int, y: int)
    ensures x * y == y * x
  {
  }

  lemma Associate(x: int, y: int, z: int)
    ensures x * y * z == x * (y * z)
  {
  }

  lemma PositiveFactor(d: int, y: int)
    requires d > 0 && d * y > 0
    ensures y > 0
  {
  }

  lemma AtLeastOne(y: int, d: int)
    requires y > 0 && d >= 0
    ensures y * d >= d
  {
  }

  lemma AtLeastTwice(d: int, y: int)
    requires d >= 2 && y >= 0
    ensures d * y >= 2 * y
  {
  }

  lemma FactorsOfOne(x: int, y: int)
    requires x > 0 && y > 0 && x * y < 2
    ensures x == 1 && y == 1
  {
    if x > 1 { AtLeastTwice(x, y); }
    if y > 1 { AtLeastTwice(y, x); }
  }

  lemma DivisionBounds(x: int, d: int)
    requires d > 0
    ensures d * (x / d) <= x < d * (x / d) + d && x == d * (x / d) + x % d && 0 <= x % d < d
    ensures x >= 0 ==> x / d >= 0
  {
    if x >= 0 { NotNegative(d, x / d); }
  }

  lemma NotNegative(d: int, y: int)
    requires d > 0 && d * y > -d
    ensures y >= 0
  {
  }

  /** A quotient is below n if the dividend is below n times the divisor. */
  lemma QuotientBelow(x: int, n: int, d: int)
    requires d > 0 && x < n * d
    ensures x / d < n
  {
    DivisionBounds(x, d);
    Distribute(d, n, x / d);
    PositiveFactor(d, n - x / d);
  }

  /** A number in mixed radix is below the number of its values. */
  lemma Below(n: int, d: int, q: int, r: int)
    requires q < n && r < d && d >= 0
    ensures q * d + r < n * d
  {
    AtLeastOne(n - q, d);
    Distribute(d, n, q);
  }

  lemma MultipleBelow(x: int, d: int, n: int)
    requires d > 0 && n <= x / d
    ensures n * d <= x
  {
    DivisionBounds(x, d);
    Distribute(d, x / d, n);
    if n < x / d { AtLeastOne(x / d - n, d); }
  }

  /** A quotient is positive exactly if the dividend has room for the divisor. */
  lemma FullCylinder(x: nat, d: int)
    requires d > 0
    ensures x / d > 0 <==> x >= d
  {
    DivisionBounds(x, d);
    if x < d { DivisionIsUnique(d, 0, x); }
  }
}
