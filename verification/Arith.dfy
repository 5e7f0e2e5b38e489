/** Remainders, and powers of two. */
module Arith {

  lemma FarMultiple(m: int, k: int)
    requires m > 0
    ensures k >= 1 ==> m * k >= m
    ensures k <= -1 ==> m * k <= -m
  {
  }

  lemma SmallMultiple(m: int, k: int, d: int)
    requires m > 0 && m * k == d && -m < d < m
    ensures k == 0 && d == 0
  {
    FarMultiple(m, k);
  }

  /** Quotient and remainder are unique. */
  lemma DivModUnique(a: int, m: int, q: int, r: int)
    requires m > 0 && a == m * q + r && 0 <= r < m
    ensures a / m == q && a % m == r
  {
    assert a == m * (a / m) + a % m;
    assert m * (a / m - q) == r - a % m;
    SmallMultiple(m, a / m - q, r - a % m);
  }

  lemma ModShift(a: int, k: int, m: int)
    requires m > 0
    ensures (a + m * k) % m == a % m
  {
    var q := a / m;
    assert a + m * k == m * (q + k) + a % m;
    DivModUnique(a + m * k, m, q + k, a % m);
  }

  /** a and b leave the same remainder. */
  predicate Congruent(a: int, b: int, m: int)
    requires m > 0
  {
    a % m == b % m
  }

  lemma CongruentBy(a: int, b: int, k: int, m: int)
    requires m > 0 && a == b + m * k
    ensures Congruent(a, b, m)
  {
    ModShift(b, k, m);
  }

  /** The other way: a congruence is a multiple apart. */
  lemma CongruentApart(a: int, b: int, m: int) returns (k: int)
    requires m > 0 && Congruent(a, b, m)
    ensures a == b + m * k
  {
    k := a / m - b / m;
    assert a == m * (a / m) + a % m && b == m * (b / m) + b % m;
    assert m * (a / m) - m * (b / m) == m * k;
  }

  lemma CongruentMod(a: int, m: int)
    requires m > 0
    ensures Congruent(a % m, a, m)
  {
    var q := a / m;
    assert a % m == a + m * -q;
    CongruentBy(a % m, a, -q, m);
  }

  lemma CongruentAdd(a: int, b: int, c: int, d: int, m: int)
    requires m > 0 && Congruent(a, b, m) && Congruent(c, d, m)
    ensures Congruent(a + c, b + d, m) && Congruent(a - c, b - d, m)
  {
    var j := CongruentApart(a, b, m);
    var k := CongruentApart(c, d, m);
    assert m * (j + k) == m * j + m * k && m * (j - k) == m * j - m * k;
    CongruentBy(a + c, b + d, j + k, m);
    CongruentBy(a - c, b - d, j - k, m);
  }

  lemma CongruentMul(a: int, b: int, c: int, d: int, m: int)
    requires m > 0 && Congruent(a, b, m) && Congruent(c, d, m)
    ensures Congruent(a * c, b * d, m)
  {
    var j := CongruentApart(a, b, m);
    var k := CongruentApart(c, d, m);
    calc {
      a * c;
      (b + m * j) * (d + m * k);
      { Expand(b, m, j, d, k); }
      b * d + m * (b * k + j * d + m * j * k);
    }
    CongruentBy(a * c, b * d, b * k + j * d + m * j * k, m);
  }

  lemma Expand(b: int, m: int, j: int, d: int, k: int)
    ensures (b + m * j) * (d + m * k) == b * d + m * (b * k + j * d + m * j * k)
  {
    assert (b + m * j) * (d + m * k) == b * (d + m * k) + (m * j) * (d + m * k);
    assert b * (d + m * k) == b * d + m * (b * k);
    assert (m * j) * (d + m * k) == m * (j * d) + m * (m * j * k);
  }

  /** A congruence also holds modulo any divisor of the modulus. */
  lemma CongruentDivisor(a: int, b: int, m: int, d: int, e: int)
    requires d > 0 && e > 0 && m == d * e && Congruent(a, b, m)
    ensures Congruent(a, b, d)
  {
    var k := CongruentApart(a, b, m);
    assert m * k == d * (e * k);
    CongruentBy(a, b, e * k, d);
  }

  function Pow2(n: nat): (r: int)
    ensures r > 0
  {
    if n == 0 then 1 else 2 * Pow2(n - 1)
  }

  lemma {:induction false} Pow2Add(a: nat, b: nat)
    ensures Pow2(a + b) == Pow2(a) * Pow2(b)
    decreases a
  {
    if a > 0 {
      Pow2Add(a - 1, b);
      assert 2 * (Pow2(a - 1) * Pow2(b)) == (2 * Pow2(a - 1)) * Pow2(b);
    }
  }

  lemma Pow2Divides(a: nat, b: nat)
    requires a <= b
    ensures Pow2(b) == Pow2(a) * Pow2(b - a)
  {
    Pow2Add(a, b - a);
  }
}
