/** Greatest common factor, least common multiple and reduction of fractions, on integers of either sign. */
module Fractions {

  function Abs(x: int): nat {
    if x < 0 then -x else x
  }

  /** Division and remainder round towards minus infinity; the remainder has the sign of the divisor. */
  function FloorDiv(a: int, b: int): int
    requires b != 0
  {
    if b > 0 then a / b else (-a) / (-b)
  }

  function FloorMod(a: int, b: int): int
    requires b != 0
  {
    a - b * FloorDiv(a, b)
  }

  lemma FloorModRange(a: int, b: int)
    requires b != 0
    ensures if b > 0 then 0 <= FloorMod(a, b) < b else b < FloorMod(a, b) <= 0
  {
    if b < 0 {
      var q := (-a) / (-b);
      assert (-a) == q * (-b) + (-a) % (-b);
      assert FloorMod(a, b) == -((-a) % (-b)) by {
        assert b * q == -(q * (-b));
      }
    }
  }

  ghost predicate Divides(d: int, x: int) {
    exists k :: x == d * k
  }

  /** d is a greatest common divisor in the order of divisibility; 0 only for the pair (0, 0). */
  ghost predicate IsGcd(a: int, b: int, d: int) {
    d >= 0 && Divides(d, a) && Divides(d, b) && Combines(a, b, d)
  }

  ghost predicate Combines(a: int, b: int, d: int) {
    exists x, y :: d == a * x + b * y
  }

  // ---------- divisibility ----------

  lemma DividesBy(d: int, x: int, k: int)
    requires x == d * k
    ensures Divides(d, x)
  {
  }

  lemma DividesSum(d: int, x: int, y: int, q: int)
    requires Divides(d, x) && Divides(d, y)
    ensures Divides(d, x + y * q)
  {
    var k :| x == d * k;
    var m :| y == d * m;
    DividesBy(d, x + y * q, k + m * q);
  }

  lemma DividesLinear(c: int, a: int, b: int, x: int, y: int)
    requires Divides(c, a) && Divides(c, b)
    ensures Divides(c, a * x + b * y)
  {
    var k :| a == c * k;
    var m :| b == c * m;
    assert (c * k) * x == c * (k * x) && (c * m) * y == c * (m * y);
    assert c * (k * x) + c * (m * y) == c * (k * x + m * y);
    DividesBy(c, a * x + b * y, k * x + m * y);
  }

  lemma DividesBound(d: int, x: int)
    requires Divides(d, x) && x != 0
    ensures Abs(d) <= Abs(x)
  {
    var k :| x == d * k;
    AtLeastOnce(Abs(k), Abs(d));
  }

  lemma AtLeastOnce(q: int, d: int)
    requires q != 0 && d >= 0
    ensures q > 0 ==> q * d >= d
    ensures q < 0 ==> q * d <= -d
  {
  }

  /** In plain terms: every common divisor divides it, so it is the greatest one. */
  lemma GcdIsGreatest(a: int, b: int, d: int, c: int)
    requires IsGcd(a, b, d) && Divides(c, a) && Divides(c, b)
    ensures Divides(c, d)
    ensures d > 0 ==> c <= d
    ensures d == 0 <==> a == 0 && b == 0
  {
    var x, y :| d == a * x + b * y;
    DividesLinear(c, a, b, x, y);
    if d > 0 {
      DividesBound(c, d);
    }
    var k :| a == d * k;
    var m :| b == d * m;
  }

  lemma GcdUnique(a: int, b: int, d: int, e: int)
    requires IsGcd(a, b, d) && IsGcd(a, b, e)
    ensures d == e
  {
    GcdIsGreatest(a, b, d, e);
    GcdIsGreatest(a, b, e, d);
  }

  // ---------- gcf ----------

  ghost predicate SameDivisors(a: int, b: int, r: int, s: int) {
    && Combines(a, b, r) && Combines(a, b, s)
    && (forall d :: Divides(d, r) && Divides(d, s) ==> Divides(d, a) && Divides(d, b))
  }

  lemma SelfDivisors(a: int, b: int)
    ensures SameDivisors(a, b, a, b) && SameDivisors(a, b, b, a)
  {
    assert a == a * 1 + b * 0 && b == a * 0 + b * 1;
  }

  lemma CombineMore(a: int, b: int, r: int, s: int, q: int)
    requires Combines(a, b, r) && Combines(a, b, s)
    ensures Combines(a, b, r - s * q)
  {
    var x, y :| r == a * x + b * y;
    var u, v :| s == a * u + b * v;
    assert (a * u) * q == a * (u * q) && (b * v) * q == b * (v * q);
    assert (a * u + b * v) * q == (a * u) * q + (b * v) * q;
    assert a * x - a * (u * q) == a * (x - u * q) && b * y - b * (v * q) == b * (y - v * q);
    assert r - s * q == a * (x - u * q) + b * (y - v * q);
  }

  /** One step of the Euclidean algorithm keeps the common divisors. */
  lemma EuclidStep(a: int, b: int, r: int, s: int)
    requires s != 0 && SameDivisors(a, b, r, s)
    ensures SameDivisors(a, b, s, FloorMod(r, s))
  {
    var q := FloorDiv(r, s);
    CombineMore(a, b, r, s, q);
    forall d | Divides(d, s) && Divides(d, FloorMod(r, s))
      ensures Divides(d, r)
    {
      DividesSum(d, FloorMod(r, s), s, q);
      assert FloorMod(r, s) + s * q == r;
    }
  }

  lemma EuclidEnd(a: int, b: int, r: int)
    requires SameDivisors(a, b, r, 0)
    ensures IsGcd(a, b, Abs(r))
  {
    var d := Abs(r);
    assert Divides(d, 0) by { DividesBy(d, 0, 0); }
    assert Divides(d, r) by { DividesBy(d, r, if r < 0 then -1 else 1); }
    assert Divides(r, r) && Divides(r, 0) by { DividesBy(r, r, 1); DividesBy(r, 0, 0); }
    DividesAbs(r, a);
    DividesAbs(r, b);
    var x, y :| r == a * x + b * y;
    if r < 0 {
      assert -r == a * (-x) + b * (-y);
    }
  }

  lemma DividesAbs(r: int, x: int)
    requires Divides(r, x)
    ensures Divides(Abs(r), x)
  {
    var k :| x == r * k;
    if r < 0 {
      assert x == (-r) * (-k);
      DividesBy(-r, x, -k);
    }
  }

  method Gcf(a: int, b: int) returns (r: int)
    ensures IsGcd(a, b, r)
  {
    var result, remainder := if a >= b then a else b, if a >= b then b else a;
    SelfDivisors(a, b);
    while remainder != 0
      invariant SameDivisors(a, b, result, remainder)
      decreases Abs(remainder)
    {
      FloorModRange(result, remainder);
      EuclidStep(a, b, result, remainder);
      var newRemainder := FloorMod(result, remainder);
      result := remainder;
      remainder := newRemainder;
    }
    EuclidEnd(a, b, result);
    r := Abs(result);
  }

  // ---------- lcm ----------

  lemma ExactDivision(x: int, d: int)
    requires d > 0 && Divides(d, x)
    ensures FloorDiv(x, d) * d == x
  {
    var k :| x == d * k;
    assert x / d == k by { assert x == k * d; QuotientIs(x, d, k); }
  }

  lemma QuotientIs(x: int, d: int, k: int)
    requires d > 0 && x == k * d
    ensures x / d == k
  {
    assert x == (x / d) * d + x % d;
    assert (k - x / d) * d == x % d;
    if k != x / d {
      AtLeastOnce(k - x / d, d);
    }
  }

  /** A common multiple of both that divides every common multiple. */
  ghost predicate IsLcm(a: int, b: int, m: int) {
    && Divides(a, m) && Divides(b, m)
    && forall n :: Divides(a, n) && Divides(b, n) ==> Divides(m, n)
  }

  /** The least common multiple, up to sign: its product with the greatest common factor is the product of the two. */
  method Lcm(a: int, b: int) returns (result: int)
    ensures forall g :: IsGcd(a, b, g) ==> g * result == a * b
    ensures IsLcm(a, b, result)
  {
    var denom := Gcf(a, b);
    forall g | IsGcd(a, b, g) ensures g == denom { GcdUnique(a, b, denom, g); }
    if denom == 0 {
      result := 0;
      GcdIsGreatest(a, b, denom, 1) by { DividesBy(1, a, a); DividesBy(1, b, b); }
    } else {
      ExactDivision(b, denom);
      result := a * FloorDiv(b, denom);
      LcmIsLeast(a, b, denom, FloorDiv(b, denom));
    }
  }

  lemma LcmIsLeast(a: int, b: int, d: int, c: int)
    requires IsGcd(a, b, d) && d > 0 && c * d == b
    ensures d * (a * c) == a * b && IsLcm(a, b, a * c)
  {
    assert d * (a * c) == a * (c * d);
    var k :| a == d * k;
    assert a * c == b * k by { assert (d * k) * c == (c * d) * k; }
    DividesBy(a, a * c, c);
    DividesBy(b, a * c, k);
    forall n | Divides(a, n) && Divides(b, n)
      ensures Divides(a * c, n)
    {
      MultipleOfLcm(a, b, d, c, n);
    }
  }

  lemma MultipleOfLcm(a: int, b: int, d: int, c: int, n: int)
    requires IsGcd(a, b, d) && d > 0 && c * d == b && Divides(a, n) && Divides(b, n)
    ensures Divides(a * c, n)
  {
    var x, y :| d == a * x + b * y;
    var i :| n == a * i;
    var j :| n == b * j;
    var q := j * x + i * y;
    assert n * d == (a * b) * q;
    assert (a * b) * q == ((a * c) * q) * d by { Regroup(a, c, d, q); }
    CancelFactor(n, (a * c) * q, d);
    DividesBy(a * c, n, q);
  }

  lemma Regroup(a: int, c: int, d: int, q: int)
    ensures (a * (c * d)) * q == ((a * c) * q) * d
  {
    assert a * (c * d) == (a * c) * d;
    assert ((a * c) * d) * q == ((a * c) * q) * d;
  }

  lemma CancelFactor(x: int, y: int, d: int)
    requires d > 0 && x * d == y * d
    ensures x == y
  {
    assert (x - y) * d == 0;
  }

  // ---------- reduce_fraction ----------

  datatype Reduced = Fraction(num: int, denom: int) | ZeroDivisionError

  /** Divides both parts by their greatest common factor; (0, 0) has none to divide by. */
  method ReduceFraction(numerator: int, denominator: int) returns (r: Reduced)
    ensures r.ZeroDivisionError? <==> numerator == 0 && denominator == 0
    ensures r.Fraction? ==> IsGcd(r.num, r.denom, 1) && r.num * denominator == r.denom * numerator
    ensures r.Fraction? ==> forall g :: IsGcd(numerator, denominator, g) ==>
                              r.num * g == numerator && r.denom * g == denominator
  {
    var commonFactor := Gcf(numerator, denominator);
    GcdIsGreatest(numerator, denominator, commonFactor, 1) by {
      DividesBy(1, numerator, numerator);
      DividesBy(1, denominator, denominator);
    }
    if commonFactor == 0 {
      return ZeroDivisionError;
    }
    ExactDivision(numerator, commonFactor);
    ExactDivision(denominator, commonFactor);
    r := Fraction(FloorDiv(numerator, commonFactor), FloorDiv(denominator, commonFactor));
    Coprime(numerator, denominator, commonFactor, r.num, r.denom);
    forall g | IsGcd(numerator, denominator, g)
      ensures g == commonFactor
    {
      GcdUnique(numerator, denominator, commonFactor, g);
    }
  }

  lemma Coprime(a: int, b: int, d: int, p: int, q: int)
    requires IsGcd(a, b, d) && d > 0 && p * d == a && q * d == b
    ensures IsGcd(p, q, 1) && p * b == q * a
  {
    var x, y :| d == a * x + b * y;
    assert (p * d) * x == (p * x) * d && (q * d) * y == (q * y) * d;
    assert 1 * d == (p * x + q * y) * d by { assert (p * x) * d + (q * y) * d == (p * x + q * y) * d; }
    CancelFactor(1, p * x + q * y, d);
    DividesBy(1, p, p);
    DividesBy(1, q, q);
    assert p * (q * d) == q * (p * d);
  }
}
