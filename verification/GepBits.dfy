/** Bitwise operators on natural numbers, as far as BasicAliasAnalysis uses them. */
module GepBits {
  import opened Arith
  import opened GepValues

  function BitXor(a: nat, b: nat): nat
    decreases a + b
  {
    if a == 0 then b else if b == 0 then a
    else 2 * BitXor(a / 2, b / 2) + if a % 2 != b % 2 then 1 else 0
  }

  lemma {:induction false} AndSelf(a: nat)
    ensures BitAnd(a, a) == a
    decreases a
  {
    if a != 0 {
      AndSelf(a / 2);
    }
  }

  lemma {:induction false} XorSelf(a: nat)
    ensures BitXor(a, a) == 0
    decreases a
  {
    if a != 0 {
      XorSelf(a / 2);
    }
  }

  lemma HalfEven(h: nat)
    requires h > 0
    ensures (2 * h) / 2 == h && (2 * h - 1) / 2 == h - 1 && (2 * h) % 2 == 0 && (2 * h - 1) % 2 == 1
  {
  }

  function Lowest(m: nat): nat
    requires m > 0
  {
    BitXor(m, BitAnd(m, m - 1))
  }

  /** m ^ (m & (m - 1)) is the largest power of two that divides m. */
  lemma {:induction false} LowestIs(m: nat) returns (k: nat)
    requires m > 0
    ensures Lowest(m) == Pow2(k) && m % Pow2(k) == 0 && (m / Pow2(k)) % 2 == 1
    decreases m
  {
    if m % 2 == 1 {
      k := 0;
      OddLowest(m);
      assert m / 1 == m && m % 1 == 0;
    } else {
      var h := m / 2;
      k := LowestIs(h);
      EvenLowest(h);
      DoublePower(h, k);
      k := k + 1;
    }
  }

  lemma DoublePower(h: nat, k: nat)
    requires h % Pow2(k) == 0 && (h / Pow2(k)) % 2 == 1
    ensures (2 * h) % Pow2(k + 1) == 0 && ((2 * h) / Pow2(k + 1)) % 2 == 1
  {
    var p, q := Pow2(k), h / Pow2(k);
    assert h == p * q;
    Reassoc(p, q);
    DivModUnique(2 * h, 2 * p, q, 0);
  }

  lemma Reassoc(p: int, q: int)
    ensures 2 * (p * q) == (2 * p) * q
  {
  }

  lemma OddLowest(m: nat)
    requires m % 2 == 1
    ensures Lowest(m) == 1
  {
    var h := m / 2;
    assert (m - 1) / 2 == h && (m - 1) % 2 == 0;
    AndSelf(h);
    XorSelf(h);
    if m > 1 {
      assert BitAnd(m, m - 1) == 2 * h;
      assert (2 * h) / 2 == h;
    }
  }

  lemma EvenLowest(h: nat)
    requires h > 0
    ensures Lowest(2 * h) == 2 * Lowest(h)
  {
    HalfEven(h);
    var a := BitAnd(h, h - 1);
    assert BitAnd(2 * h, 2 * h - 1) == 2 * a by {
      assert h - 1 > 0 ==> BitAnd(2 * h, 2 * h - 1) == 2 * BitAnd((2 * h) / 2, (2 * h - 1) / 2);
    }
    if a > 0 {
      assert (2 * a) / 2 == a && (2 * a) % 2 == 0;
    }
  }

  /** A power of two divides a bitwise or exactly if it divides both sides. */
  lemma {:induction false} OrDivides(a: nat, b: nat, k: nat)
    ensures BitOr(a, b) % Pow2(k) == 0 <==> a % Pow2(k) == 0 && b % Pow2(k) == 0
    decreases k
  {
    if k > 0 && a > 0 && b > 0 {
      var c := BitOr(a, b);
      OrHalves(a, b);
      HalfDivides(c, k);
      OrDivides(a / 2, b / 2, k - 1);
      HalfDivides(a, k);
      HalfDivides(b, k);
    } else {
      assert 0 % Pow2(k) == 0 by { DivModUnique(0, Pow2(k), 0, 0); }
      assert k == 0 ==> a % 1 == 0 && b % 1 == 0 && BitOr(a, b) % 1 == 0;
    }
  }

  lemma OrHalves(a: nat, b: nat)
    requires a > 0 && b > 0
    ensures BitOr(a, b) / 2 == BitOr(a / 2, b / 2) && (BitOr(a, b) % 2 == 0 <==> a % 2 == 0 && b % 2 == 0)
  {
  }

  lemma HalfDivides(a: nat, k: nat)
    requires k > 0
    ensures a % Pow2(k) == 0 <==> a % 2 == 0 && (a / 2) % Pow2(k - 1) == 0
  {
    var m := Pow2(k - 1);
    if a % Pow2(k) == 0 {
      var q := a / Pow2(k);
      assert a == (2 * m) * q;
      Reassoc(m, q);
      assert a == 2 * (m * q);
      DivModUnique(a / 2, m, q, 0);
    }
    if a % 2 == 0 && (a / 2) % m == 0 {
      var q := (a / 2) / m;
      assert a / 2 == m * q;
      Reassoc(m, q);
      DivModUnique(a, 2 * m, q, 0);
    }
  }

  /** Taking the low bits of a number. */
  lemma {:induction false} AndMask(a: nat, k: nat)
    ensures BitAnd(a, Pow2(k) - 1) == a % Pow2(k)
    decreases k
  {
    if k == 0 {
      assert a % 1 == 0;
    } else {
      var m := Pow2(k - 1);
      AndMask(a / 2, k - 1);
      assert (2 * m - 1) / 2 == m - 1 && (2 * m - 1) % 2 == 1 by { HalfEven(m); }
      LowBits(a, m);
      if a == 0 {
        DivModUnique(0, 2 * m, 0, 0);
      } else if m == 1 {
      }
    }
  }

  lemma LowBits(a: nat, m: int)
    requires m > 0
    ensures a % (2 * m) == 2 * ((a / 2) % m) + a % 2
  {
    var q, r := (a / 2) / m, (a / 2) % m;
    assert a / 2 == m * q + r;
    assert a == 2 * (m * q) + 2 * r + a % 2;
    Reassoc(m, q);
    DivModUnique(a, 2 * m, q, 2 * r + a % 2);
  }
}
