/**
 Distribution::add and Distribution::normalize: a list of weights whose total is
 kept modulo 2^64, and scaled down to 32 bits before it is used.
 */
module BfiNormalize {
  import opened Arith
  import opened BfiWeights
  import opened BfiDistribution

  const TWO32: nat := 0x1_0000_0000
  const TWO33: nat := 0x2_0000_0000
  const TWO65: nat := 0x2_0000_0000_0000_0000

  /** The number of bits of x: 64 less countLeadingZeros. */
  function BitLength(x: nat): (n: nat)
    ensures x < Pow2(n) && (n > 0 ==> Pow2(n - 1) <= x)
  {
    if x == 0 then 0 else 1 + BitLength(x / 2)
  }

  /** How far normalize shifts, one more than is needed for the total to fit 32 bits. */
  function ShiftFor(total: nat, didOverflow: bool): nat {
    if didOverflow then 33
    else if total > MAX32 then
      LongTotal(total);
      BitLength(total) - 31
    else 0
  }

  lemma LongTotal(total: nat)
    requires total > MAX32
    ensures BitLength(total) > 31
  {
    Powers();
    Pow2Grows31(BitLength(total));
  }

  lemma {:induction false} Pow2Grows31(n: nat)
    ensures n <= 31 ==> Pow2(n) <= Pow2(31)
    decreases 31 - n
  {
    if n < 31 {
      Pow2Grows31(n + 1);
    }
  }

  function ShiftRight(n: nat, shift: nat): nat {
    if shift == 0 then n else ShiftRight(n / 2, shift - 1)
  }

  /** shiftRightAndRound. */
  function ShiftRightAndRound(n: nat, shift: nat): nat {
    if shift == 0 then n else ShiftRight(n, shift) + ShiftRight(n, shift - 1) % 2
  }

  lemma {:induction false} ShiftRightIs(n: nat, shift: nat)
    ensures ShiftRight(n, shift) * Pow2(shift) <= n
    decreases shift
  {
    if shift > 0 {
      ShiftRightIs(n / 2, shift - 1);
      hide Pow2, ShiftRight;
      Twice(ShiftRight(n / 2, shift - 1), Pow2(shift - 1), n);
      assert Pow2(shift) == 2 * Pow2(shift - 1) by { Pow2Add(1, shift - 1); TwoOnce(); }
      assert ShiftRight(n, shift) == ShiftRight(n / 2, shift - 1) by { ShiftOnce(n, shift); }
    }
  }

  lemma TwoOnce()
    ensures Pow2(1) == 2
  {
  }

  lemma ShiftOnce(n: nat, shift: nat)
    requires shift > 0
    ensures ShiftRight(n, shift) == ShiftRight(n / 2, shift - 1)
  {
  }

  lemma Twice(q: nat, m: nat, n: nat)
    requires q * m <= n / 2
    ensures q * (2 * m) <= n
  {
    assert q * (2 * m) == 2 * (q * m);
  }

  function Scaled(amount: nat, shift: nat): nat {
    var q := ShiftRightAndRound(amount, shift);
    if q > 1 then q else 1
  }

  /** Rounding to the nearest, and the lower limit of 1, add no more than one unit. */
  lemma ScaledBound(amount: nat, shift: nat)
    requires shift > 0
    ensures Scaled(amount, shift) * Pow2(shift) <= amount + Pow2(shift)
  {
    hide Pow2, ShiftRight;
    ShiftRightIs(amount, shift);
    Rounded(amount, Pow2(shift), ShiftRight(amount, shift), ShiftRight(amount, shift - 1) % 2);
  }

  lemma Rounded(a: nat, m: nat, q: nat, b: nat)
    requires m > 0 && q * m <= a && b <= 1
    ensures (q + b) * m <= a + m && 1 * m <= a + m
  {
    assert (q + b) * m == q * m + b * m;
    assert b * m <= m;
  }

  function ScaleAll(ws: seq<Weight>, shift: nat): seq<Weight> {
    if ws == [] then []
    else
      var k := |ws| - 1;
      ScaleAll(ws[..k], shift) + [ws[k].(amount := Scaled(ws[k].amount, shift))]
  }

  lemma {:induction false} ScaleAllAt(ws: seq<Weight>, shift: nat)
    ensures |ScaleAll(ws, shift)| == |ws|
    ensures forall i :: 0 <= i < |ws| ==> ScaleAll(ws, shift)[i] == ws[i].(amount := Scaled(ws[i].amount, shift))
    decreases |ws|
  {
    if ws != [] {
      ScaleAllAt(ws[..|ws| - 1], shift);
    }
  }

  /** All weights together gain less than one unit each. */
  lemma {:induction false} ScaleAllBound(ws: seq<Weight>, shift: nat)
    requires shift > 0
    ensures SumAll(ScaleAll(ws, shift)) * Pow2(shift) <= SumAll(ws) + |ws| * Pow2(shift)
    decreases |ws|
  {
    if ws != [] {
      var k, m := |ws| - 1, Pow2(shift);
      ScaleAllBound(ws[..k], shift);
      ScaledBound(ws[k].amount, shift);
      var rest, w := ScaleAll(ws[..k], shift), ws[k].(amount := Scaled(ws[k].amount, shift));
      SumNext(rest, w, 0);
      hide Pow2, Scaled, SumAll, ScaleAll;
      SumBound(SumAll(rest), w.amount, SumAll(ws[..k]), ws[k].amount, k, m);
    }
  }

  lemma SumBound(a: nat, b: nat, c: nat, d: nat, k: nat, m: nat)
    requires a * m <= c + k * m && b * m <= d + m
    ensures (a + b) * m <= c + d + (k + 1) * m
  {
    assert (a + b) * m == a * m + b * m;
    assert (k + 1) * m == k * m + m;
  }

  lemma Below(a: nat, b: nat, m: nat)
    requires m > 0 && a * m < b * m
    ensures a < b
  {
    if a >= b {
      MoreTimes(b, a, m);
    }
  }

  lemma MoreTimes(a: nat, b: nat, m: nat)
    requires a <= b
    ensures a * m <= b * m
  {
  }

  /** After scaling the total fits 32 bits. */
  lemma ScaledFits(ws: seq<Weight>, total: nat, didOverflow: bool)
    requires |ws| < 0x8000_0000 && (if didOverflow then SumAll(ws) + |ws| * TWO33 < TWO65 else SumAll(ws) == total)
    requires ShiftFor(total, didOverflow) > 0
    ensures SumAll(ScaleAll(ws, ShiftFor(total, didOverflow))) <= MAX32
  {
    var s := ShiftFor(total, didOverflow);
    ScaleAllBound(ws, s);
    var t, m := SumAll(ScaleAll(ws, s)), Pow2(s);
    Powers();
    if didOverflow {
      assert m == TWO33;
      Below(t, 0x1_0000_0000, m);
    } else {
      Pow2Add(31, s);
      hide Pow2, ScaleAll, SumAll, BitLength;
      assert total < Pow2(31 + s) == 0x8000_0000 * m;
      assert (0x8000_0000 + |ws|) * m == 0x8000_0000 * m + |ws| * m;
      Below(t, 0x8000_0000 + |ws|, m);
    }
  }

  lemma Powers()
    ensures Pow2(31) == 0x8000_0000 && Pow2(33) == TWO33
  {
    assert Pow2(11) == 2048;
    Pow2Add(11, 11);
    Pow2Add(22, 11);
    assert Pow2(9) == 512;
    Pow2Add(22, 9);
  }

  class Distribution {
    var weights: seq<Weight>
    var total: nat
    var didOverflow: bool
    /** The total without wrapping around. */
    ghost var sum: nat

    /** A distribution to which weights may be added. */
    ghost predicate Open()
      reads this
    {
      && AllOk(weights) && KindsAgree(weights)
      && sum == SumAll(weights) < TWO65 && total == sum % TWO64 && (didOverflow <==> sum >= TWO64)
    }

    constructor ()
      ensures Open() && weights == [] && sum == 0
    {
      weights, total, didOverflow, sum := [], 0, false, 0;
    }

    /** Distribution::add; it should be impossible to overflow twice. */
    method Add(node: Node, amount: nat, kind: DistType)
      requires Open() && 0 < amount <= MAX64 && sum + amount < TWO65
      requires forall w :: w in weights && w.target == node ==> w.kind == kind
      modifies this
      ensures Open() && weights == old(weights) + [Weight(kind, node, amount)]
      ensures sum == old(sum) + amount
    {
      hide AllOk, KindsAgree, SumAll;
      AddWraps(sum, total, amount);
      OneMore(weights, Weight(kind, node, amount));
      var newTotal := (total + amount) % TWO64;
      var isOverflow := newTotal < total;
      assert !(didOverflow && isOverflow);
      didOverflow := didOverflow || isOverflow;
      total := newTotal;
      weights := weights + [Weight(kind, node, amount)];
      sum := sum + amount;
    }

    /** combineWeights. */
    method CombineWeights()
      requires Open()
      modifies this`weights
      ensures Combines(old(weights), weights)
    {
      if |weights| > 128 {
        weights := CombineWeightsByHashing(weights);
      } else {
        weights := CombineWeightsBySorting(weights);
      }
    }

    /**
     Distribution::normalize: distinct targets, each with a weight of at least 1 and the total of all,
     which fits 32 bits for fewer than 2^31 targets, and after an overflow exactly if the sums of all
     targets, each saturated and rounded, stay below 2^65 together.
     */
    method Normalize()
      requires Open()
      modifies this`weights, this`total
      ensures weights != [] ==> Distinct(weights) && total == SumAll(weights)
      ensures forall n {:trigger Targets(weights, n)} :: Targets(old(weights), n) <==> Targets(weights, n)
      ensures forall x, w :: x in weights && w in old(weights) && x.target == w.target ==> x.kind == w.kind
      ensures forall x :: x in weights ==> x.amount >= 1
      ensures |weights| == 1 ==> total == weights[0].amount == 1
      ensures |weights| > 1 ==>
                var shift := ShiftFor(old(total), old(didOverflow));
                forall x :: x in weights ==>
                  x.amount == if shift == 0 then SumAt(old(weights), x.target) else Scaled(Sat(SumAt(old(weights), x.target)), shift)
      ensures |weights| < 0x8000_0000 && (didOverflow ==> sum + |weights| * TWO33 < TWO65) ==>
                weights == [] || total <= MAX32
      ensures old(didOverflow) && |weights| > 1 ==> (total <= MAX32 <==> RoundedTotal(old(weights), old(weights)) < TWO65)
      ensures |weights| > 1 ==> exists unit: nat {:trigger NearAll(weights, old(weights), unit)} ::
                NearAll(weights, old(weights), unit) && (unit == 1 || 0 < unit * 0x4000_0000 <= sum)
      ensures old(weights) != [] ==> weights != []
    {
      hide NearAll;
      hide RoundedTotal;
      hide Combines, ScaleAll, SumAll, SumAt, Scaled, AllOk, KindsAgree, ShiftFor, Sat;
      ghost var ws := weights;
      if weights == [] {
        return;
      }
      SomeTarget(ws);
      if |weights| > 1 {
        CombineWeights();
      } else {
        OneCombines(ws);
      }
      ghost var r := weights;
      CombinesTotal(ws, r);
      CombinedPositive(ws, r);
      CombinedKinds(ws, r);
      if |weights| == 1 {
        total := 1;
        weights := [weights[0].(amount := 1)];
        OneScaled(ws, r, weights);
        return;
      }
      var shift := ShiftFor(total, didOverflow);
      if shift == 0 {
        NoShift(ws, r, total, didOverflow);
        NearUnscaled(ws, r);
        return;
      }
      ScaleDown(shift);
      ScaledCombines(ws, r, shift);
      NearScaled(ws, weights, shift);
      UnitFits(old(total), didOverflow, sum);
      if didOverflow {
        ShiftOverflow(old(total));
        OverflowFitsIff(ws, weights);
      }
      if |weights| < 0x8000_0000 && (didOverflow ==> sum + |weights| * TWO33 < TWO65) {
        ScaledFits(r, old(total), didOverflow);
      }
    }

    /** The loop of normalize: shift each weight, and accumulate the total again. */
    method ScaleDown(shift: nat)
      modifies this`weights, this`total
      ensures weights == ScaleAll(old(weights), shift) && total == SumAll(weights) && |weights| == |old(weights)|
    {
      hide SumAll, Pow2, Scaled, ScaleAll;
      ghost var r := weights;
      total := 0;
      var i := 0;
      ScaledPrefix(r, 0, shift);
      while i < |weights|
        invariant 0 <= i <= |weights| == |r|
        invariant weights == ScaleAll(r[..i], shift) + r[i..]
        invariant total == SumAll(ScaleAll(r[..i], shift))
      {
        ScaledPrefix(r, i, shift);
        ghost var done := ScaleAll(r[..i], shift);
        var w := weights[i].(amount := Scaled(weights[i].amount, shift));
        PutNext(done, r, i, w);
        weights := weights[i := w];
        total := total + w.amount;
        i := i + 1;
      }
      assert r[..|r|] == r;
      assert weights == ScaleAll(r, shift);
    }
  }

  lemma ShiftOverflow(total: nat)
    ensures ShiftFor(total, true) == 33
  {
  }

  lemma AddWraps(sum: nat, total: nat, amount: nat)
    requires total == sum % TWO64 && 0 < amount <= MAX64 && sum + amount < TWO65
    ensures var n := (total + amount) % TWO64;
            && n == (sum + amount) % TWO64 && !(sum >= TWO64 && n < total)
            && (sum + amount >= TWO64 <==> sum >= TWO64 || n < total)
  {
  }

  lemma OneMore(ws: seq<Weight>, w: Weight)
    requires AllOk(ws) && KindsAgree(ws) && WeightOk(w) && forall v :: v in ws && v.target == w.target ==> v.kind == w.kind
    ensures AllOk(ws + [w]) && KindsAgree(ws + [w]) && SumAll(ws + [w]) == SumAll(ws) + w.amount
  {
    SumNext(ws, w, 0);
  }

  lemma PutNext(done: seq<Weight>, r: seq<Weight>, i: nat, w: Weight)
    requires i < |r| && |done| == i
    ensures (done + r[i..])[i] == r[i] && (done + r[i..])[i := w] == done + [w] + r[i + 1..]
  {
  }

  lemma SomeTarget(ws: seq<Weight>)
    requires ws != []
    ensures Targets(ws, ws[0].target)
  {
    assert ws[0] in ws;
  }

  lemma OneCombines(ws: seq<Weight>)
    requires |ws| == 1 && AllOk(ws)
    ensures Combines(ws, ws)
  {
    SumOne(ws[0], ws[0].target);
    assert ws == [ws[0]] && WeightOk(ws[0]);
  }

  lemma CombinedPositive(ws: seq<Weight>, r: seq<Weight>)
    requires Combines(ws, r) && AllOk(ws) && ws != []
    ensures r != [] && forall x :: x in r ==> x.amount >= 1
  {
    SomeTarget(ws);
    assert Targets(r, ws[0].target);
    forall x | x in r
      ensures x.amount >= 1
    {
      assert Targets(r, x.target);
      assert Targets(ws, x.target);
      var w :| w in ws && w.target == x.target;
      SumHas(ws, w);
      assert WeightOk(w);
    }
  }

  lemma {:induction false} SumHas(ws: seq<Weight>, w: Weight)
    requires w in ws
    ensures SumAt(ws, w.target) >= w.amount
    decreases |ws|
  {
    var k := |ws| - 1;
    if w in ws[..k] {
      SumHas(ws[..k], w);
    } else {
      assert ws == ws[..k] + [ws[k]];
    }
  }

  lemma OneScaled(ws: seq<Weight>, r: seq<Weight>, one: seq<Weight>)
    requires Combines(ws, r) && |r| == 1 && one == [r[0].(amount := 1)]
    ensures SumAll(one) == 1
    ensures forall n {:trigger Targets(one, n)} :: Targets(ws, n) <==> Targets(one, n)
    ensures forall x, w :: x in one && w in ws && x.target == w.target ==> x.kind == w.kind
  {
    SumOne(one[0], 0);
    forall n
      ensures Targets(ws, n) <==> Targets(one, n)
    {
      assert Targets(ws, n) <==> Targets(r, n);
      assert r[0] in r && one[0] in one;
    }
    assert r[0] in r;
  }

  lemma CombinedKinds(ws: seq<Weight>, r: seq<Weight>)
    requires Combines(ws, r)
    ensures Distinct(r)
    ensures forall n {:trigger Targets(r, n)} :: Targets(ws, n) <==> Targets(r, n)
    ensures forall x, w :: x in r && w in ws && x.target == w.target ==> x.kind == w.kind
  {
  }

  lemma NoShift(ws: seq<Weight>, r: seq<Weight>, total: nat, didOverflow: bool)
    requires Combines(ws, r) && ShiftFor(total, didOverflow) == 0
    requires SumAll(ws) < TWO65 && total == SumAll(ws) % TWO64 && (didOverflow <==> SumAll(ws) >= TWO64)
    ensures SumAll(r) == total <= MAX32 && !didOverflow
    ensures forall x :: x in r ==> x.amount == SumAt(ws, x.target)
  {
    if total > MAX32 {
      LongTotal(total);
    }
    CombinesTotal(ws, r);
    forall x | x in r
      ensures x.amount == SumAt(ws, x.target)
    {
      SumAtMost(ws, x.target);
    }
  }

  lemma ScaledPrefix(r: seq<Weight>, i: nat, shift: nat)
    requires i <= |r|
    ensures |ScaleAll(r[..i], shift)| == i
    ensures i == 0 ==> ScaleAll(r[..i], shift) == [] && SumAll(ScaleAll(r[..i], shift)) == 0
    ensures i < |r| ==>
              var w := r[i].(amount := Scaled(r[i].amount, shift));
              && ScaleAll(r[..i + 1], shift) == ScaleAll(r[..i], shift) + [w]
              && SumAll(ScaleAll(r[..i + 1], shift)) == SumAll(ScaleAll(r[..i], shift)) + w.amount
  {
    ScaleAllAt(r[..i], shift);
    if i < |r| {
      assert r[..i + 1][..i] == r[..i];
      SumNext(ScaleAll(r[..i], shift), r[i].(amount := Scaled(r[i].amount, shift)), 0);
    }
  }

  lemma ScaledCombines(ws: seq<Weight>, r: seq<Weight>, shift: nat)
    requires Combines(ws, r)
    ensures var s := ScaleAll(r, shift);
            && Distinct(s)
            && (forall n {:trigger Targets(s, n)} :: Targets(ws, n) <==> Targets(s, n))
            && (forall x, w :: x in s && w in ws && x.target == w.target ==> x.kind == w.kind)
            && (forall x :: x in s ==> x.amount >= 1 && x.amount == Scaled(Sat(SumAt(ws, x.target)), shift))
  {
    var s := ScaleAll(r, shift);
    ScaleAllAt(r, shift);
    hide ScaleAll, ShiftRightAndRound, SumAt;
    forall n
      ensures Targets(ws, n) <==> Targets(s, n)
    {
      assert Targets(ws, n) <==> Targets(r, n);
      if x :| x in r && x.target == n {
        var i :| 0 <= i < |r| && r[i] == x;
        assert s[i] in s && s[i].target == n;
      }
      if x :| x in s && x.target == n {
        var i :| 0 <= i < |s| && s[i] == x;
        assert r[i] in r && r[i].target == n;
      }
    }
    forall x | x in s
      ensures x.amount == Scaled(Sat(SumAt(ws, x.target)), shift)
      ensures forall w :: w in ws && x.target == w.target ==> x.kind == w.kind
    {
      var i :| 0 <= i < |s| && s[i] == x;
      assert r[i] in r;
    }
  }

  // ---------- Exactly when the total fits after an overflow ----------

  /** The multiple of 2^33 that is nearest to a; halves are rounded up. */
  function Nearest(a: nat): nat { (a + TWO32) / TWO33 * TWO33 }

  /** What target n adds to the total after an overflow, in units of one: its sum, saturated and rounded, and 2^33 at least. */
  function Part(ws: seq<Weight>, n: Node): nat {
    var a := Nearest(Sat(SumAt(ws, n)));
    if a > TWO33 then a else TWO33
  }

  /** The parts of the targets of ws, each taken once, of the weights of all. */
  ghost function RoundedTotal(all: seq<Weight>, ws: seq<Weight>): nat {
    if ws == [] then 0
    else
      var k := |ws| - 1;
      RoundedTotal(all, ws[..k]) + if Targets(ws[..k], ws[k].target) then 0 else Part(all, ws[k].target)
  }

  function PartSum(all: seq<Weight>, ts: seq<Node>): nat {
    if ts == [] then 0 else PartSum(all, ts[..|ts| - 1]) + Part(all, ts[|ts| - 1])
  }

  ghost predicate Lists(ts: seq<Node>, ws: seq<Weight>) {
    && (forall i, j :: 0 <= i < j < |ts| ==> ts[i] != ts[j])
    && (forall n :: n in ts <==> Targets(ws, n))
  }

  lemma {:induction false} ShiftRightDiv(n: nat, shift: nat)
    ensures ShiftRight(n, shift) == n / Pow2(shift)
    decreases shift
  {
    if shift > 0 {
      ShiftRightDiv(n / 2, shift - 1);
      assert ShiftRight(n, shift) == ShiftRight(n / 2, shift - 1) by { ShiftOnce(n, shift); }
      HalvesDivide(n, Pow2(shift - 1));
    } else {
      assert n / 1 == n;
    }
  }

  lemma HalvesDivide(n: nat, m: nat)
    requires m > 0
    ensures n / 2 / m == n / (2 * m)
  {
    var q := n / 2 / m;
    var r := (n / 2) % m;
    assert n / 2 == m * q + r;
    assert n == (2 * m) * q + (2 * r + n % 2) by {
      assert (2 * m) * q == 2 * (m * q);
    }
    DivModUnique(n, 2 * m, q, 2 * r + n % 2);
  }

  /** Scaling by 2^33 rounds to the nearest multiple. */
  lemma ScaledNearest(a: nat)
    ensures Scaled(a, 33) * TWO33 == if Nearest(a) > TWO33 then Nearest(a) else TWO33
  {
    ShiftRightDiv(a, 33);
    ShiftRightDiv(a, 32);
    Powers();
    assert Pow2(33) == 2 * Pow2(32);
    hide Pow2, ShiftRight;
    RoundHalf(a);
  }

  /** An amount stands for a share to within half a unit, but is at least 1. */
  predicate Near(amount: nat, share: nat, unit: nat) {
    2 * share < 2 * (amount * unit) + unit && (amount == 1 || 2 * (amount * unit) <= 2 * share + unit)
  }

  /** Every amount stands for the sum of what there was for its target. */
  ghost predicate NearAll(r: seq<Weight>, ws: seq<Weight>, unit: nat) {
    forall x :: x in r ==> Near(x.amount, Sat(SumAt(ws, x.target)), unit)
  }

  lemma ScaledNear(a: nat, shift: nat)
    requires shift > 0
    ensures Near(Scaled(a, shift), a, Pow2(shift))
  {
    ShiftRightDiv(a, shift);
    ShiftRightDiv(a, shift - 1);
    assert Pow2(shift) == 2 * Pow2(shift - 1);
    hide Pow2, ShiftRight;
    HalfUp(a, Pow2(shift - 1));
  }

  lemma HalfUp(a: nat, h: nat)
    requires h > 0
    ensures var q := a / (2 * h) + (a / h) % 2; 2 * (q * (2 * h)) <= 2 * a + 2 * h && 2 * a < 2 * (q * (2 * h)) + 2 * h
  {
    var u, q := a / h, a / (2 * h);
    assert a == h * u + a % h;
    assert u == 2 * (u / 2) + u % 2;
    assert h * u == h * (2 * (u / 2)) + h * (u % 2);
    HalfOf(a, h, u / 2, u % 2, a % h);
  }

  lemma HalfOf(a: nat, h: nat, t: nat, b: nat, r: nat)
    requires h > 0 && b < 2 && r < h && a == h * (2 * t) + h * b + r
    ensures a / (2 * h) == t && 2 * ((t + b) * (2 * h)) <= 2 * a + 2 * h && 2 * a < 2 * ((t + b) * (2 * h)) + 2 * h
  {
    assert h * (2 * t) == (2 * h) * t;
    DivModUnique(a, 2 * h, t, h * b + r);
    assert (t + b) * (2 * h) == (2 * h) * t + b * (2 * h);
  }

  lemma NearScaled(ws: seq<Weight>, r: seq<Weight>, shift: nat)
    requires shift > 0 && forall x :: x in r ==> x.amount == Scaled(Sat(SumAt(ws, x.target)), shift)
    ensures NearAll(r, ws, Pow2(shift))
  {
    hide Scaled, Sat, SumAt, Near, Pow2;
    forall x | x in r ensures Near(x.amount, Sat(SumAt(ws, x.target)), Pow2(shift)) {
      ScaledNear(Sat(SumAt(ws, x.target)), shift);
    }
  }

  lemma NearUnscaled(ws: seq<Weight>, r: seq<Weight>)
    requires forall x :: x in r ==> x.amount == Sat(SumAt(ws, x.target))
    ensures NearAll(r, ws, 1)
  {
    hide Sat, SumAt;
  }

  /** The unit is small in comparison with the total. */
  lemma UnitFits(total: nat, didOverflow: bool, sum: nat)
    requires ShiftFor(total, didOverflow) > 0 && if didOverflow then sum >= TWO64 else sum == total
    ensures 0 < Pow2(ShiftFor(total, didOverflow)) * 0x4000_0000 <= sum
  {
    Powers();
    assert Pow2(31) == 2 * Pow2(30);
    var s := ShiftFor(total, didOverflow);
    Pow2Add(s, 30);
    if !didOverflow {
      assert Pow2(BitLength(total) - 1) <= total;
    }
    hide Pow2, BitLength;
  }

  lemma RoundHalf(a: nat)
    ensures a / TWO33 + (a / TWO32) % 2 == (a + TWO32) / TWO33
  {
    var h := a / TWO32;
    assert a == TWO32 * h + a % TWO32;
    assert h == 2 * (h / 2) + h % 2;
  }

  lemma TargetsNext(ws: seq<Weight>, n: Node)
    requires ws != []
    ensures var k := |ws| - 1; Targets(ws, n) <==> Targets(ws[..k], n) || ws[k].target == n
  {
    var k := |ws| - 1;
    assert ws == ws[..k] + [ws[k]];
    if Targets(ws, n) && ws[k].target != n {
      var w :| w in ws && w.target == n;
      assert w in ws[..k];
    }
    if Targets(ws[..k], n) {
      var w :| w in ws[..k] && w.target == n;
      assert w in ws;
    }
    assert ws[k] in ws;
  }

  lemma {:induction false} PartSumWithout(all: seq<Weight>, ts: seq<Node>, j: nat)
    requires j < |ts|
    ensures PartSum(all, ts) == PartSum(all, ts[..j] + ts[j + 1..]) + Part(all, ts[j])
    decreases |ts|
  {
    var k := |ts| - 1;
    hide Part;
    if j == k {
      assert ts[..j] + ts[j + 1..] == ts[..k];
    } else {
      PartSumWithout(all, ts[..k], j);
      var rest := ts[..j] + ts[j + 1..];
      assert rest[..|rest| - 1] == ts[..k][..j] + ts[..k][j + 1..];
    }
  }

  /** The rounded total does not depend on the order in which targets are taken. */
  lemma {:induction false} RoundedTotalIs(all: seq<Weight>, ws: seq<Weight>, ts: seq<Node>)
    requires Lists(ts, ws)
    ensures RoundedTotal(all, ws) == PartSum(all, ts)
    decreases |ws|
  {
    hide Part, Targets;
    if ws == [] {
      NoTargets(ws);
      assert forall i :: 0 <= i < |ts| ==> ts[i] !in ts;
    } else {
      var k := |ws| - 1;
      var t := ws[k].target;
      forall n ensures Targets(ws, n) <==> Targets(ws[..k], n) || t == n {
        TargetsNext(ws, n);
      }
      if Targets(ws[..k], t) {
        RoundedTotalIs(all, ws[..k], ts);
      } else {
        assert t in ts;
        var j :| 0 <= j < |ts| && ts[j] == t;
        PartSumWithout(all, ts, j);
        RoundedTotalIs(all, ws[..k], ts[..j] + ts[j + 1..]);
      }
    }
  }

  lemma NoTargets(ws: seq<Weight>)
    requires ws == []
    ensures forall n :: !Targets(ws, n)
  {
  }

  function TargetsOf(r: seq<Weight>): (ts: seq<Node>)
    ensures |ts| == |r| && forall i :: 0 <= i < |r| ==> ts[i] == r[i].target
  {
    seq(|r|, i requires 0 <= i < |r| => r[i].target)
  }

  lemma {:induction false} PartsAre(all: seq<Weight>, r: seq<Weight>)
    requires forall i :: 0 <= i < |r| ==> r[i].amount * TWO33 == Part(all, r[i].target)
    ensures SumAll(r) * TWO33 == PartSum(all, TargetsOf(r))
    decreases |r|
  {
    hide Part;
    if r != [] {
      var k := |r| - 1;
      PartsAre(all, r[..k]);
      assert TargetsOf(r)[..k] == TargetsOf(r[..k]);
    }
  }

  lemma ListsTargets(ws: seq<Weight>, r: seq<Weight>)
    requires Distinct(r) && forall n {:trigger Targets(r, n)} :: Targets(ws, n) <==> Targets(r, n)
    ensures Lists(TargetsOf(r), ws)
  {
    var ts := TargetsOf(r);
    forall n ensures n in ts <==> Targets(ws, n) {
      assert Targets(r, n) <==> Targets(ws, n);
      if i :| 0 <= i < |ts| && ts[i] == n {
        assert r[i] in r;
      }
      if w :| w in r && w.target == n {
        var i :| 0 <= i < |r| && r[i] == w;
        assert ts[i] == n;
      }
    }
  }

  /** After an overflow the total of the scaled weights fits 32 bits exactly if the rounded total is below 2^65. */
  lemma OverflowFitsIff(ws: seq<Weight>, r: seq<Weight>)
    requires Distinct(r) && forall n {:trigger Targets(r, n)} :: Targets(ws, n) <==> Targets(r, n)
    requires forall x :: x in r ==> x.amount == Scaled(Sat(SumAt(ws, x.target)), 33)
    ensures SumAll(r) <= MAX32 <==> RoundedTotal(ws, ws) < TWO65
  {
    forall i | 0 <= i < |r| ensures r[i].amount * TWO33 == Part(ws, r[i].target) {
      assert r[i] in r;
      ScaledNearest(Sat(SumAt(ws, r[i].target)));
      hide Scaled, SumAt, Sat, Nearest;
    }
    hide Part, Scaled, SumAt, Sat, SumAll, RoundedTotal, PartSum, Targets;
    ListsTargets(ws, r);
    RoundedTotalIs(ws, ws, TargetsOf(r));
    PartsAre(ws, r);
  }

  /** With two targets the total fails to fit exactly if both sums are within 2^32 of 2^64, or above. */
  lemma TwoTargetsFit(ws: seq<Weight>, n: Node, m: Node)
    requires n != m && forall t :: Targets(ws, t) <==> t == n || t == m
    ensures RoundedTotal(ws, ws) < TWO65 <==> !(SumAt(ws, n) >= TWO64 - TWO32 && SumAt(ws, m) >= TWO64 - TWO32)
  {
    hide Targets, RoundedTotal, SumAt;
    RoundedTotalIs(ws, ws, [n, m]);
    assert [n, m][..1] == [n] && [n][..0] == [];
    assert PartSum(ws, [n, m]) == PartSum(ws, [n]) + Part(ws, m) && PartSum(ws, [n]) == PartSum(ws, []) + Part(ws, n);
    PartIs(ws, n);
    PartIs(ws, m);
  }

  lemma PartIs(ws: seq<Weight>, n: Node)
    ensures Part(ws, n) == TWO64 || Part(ws, n) <= TWO64 - TWO33
    ensures Part(ws, n) == TWO64 <==> SumAt(ws, n) >= TWO64 - TWO32
  {
    hide SumAt;
  }

  // ---------- Where the total does not fit ----------

  lemma {:induction false} ShiftOnes(k: nat, shift: nat)
    requires shift <= k
    ensures ShiftRight(Pow2(k) - 1, shift) == Pow2(k - shift) - 1
    decreases shift
  {
    if shift > 0 {
      HalfOnes(Pow2(k - 1));
      ShiftOnes(k - 1, shift - 1);
    }
  }

  lemma HalfOnes(m: nat)
    requires m > 0
    ensures (2 * m - 1) / 2 == m - 1
  {
  }

  lemma ScaledHuge()
    ensures Scaled(MAX64, 33) == 0x8000_0000
  {
    Powers();
    Pow2Add(31, 33);
    assert Pow2(64) - 1 == MAX64;
    ShiftOnes(64, 33);
    ShiftOnes(64, 32);
    Pow2Add(1, 31);
    TwoOnce();
    hide Pow2, ShiftRight;
    assert ShiftRight(MAX64, 32) == 0xFFFF_FFFF;
  }

  lemma TwoTargets(r: seq<Weight>, amount: nat)
    requires Distinct(r) && (forall n :: Targets(r, n) <==> n == 0 || n == 1) && (forall x :: x in r ==> x.amount == amount)
    ensures |r| == 2 && SumAll(r) == 2 * amount
  {
    assert Targets(r, 0) && Targets(r, 1);
    var i :| 0 <= i < |r| && r[i].target == 0;
    var j :| 0 <= j < |r| && r[j].target == 1;
    if |r| > 2 {
      OneOf(r, 0, i, j);
      OneOf(r, 1, i, j);
      OneOf(r, 2, i, j);
    }
    assert |r| == 2;
    assert r[0] in r && r[1] in r;
    assert r == [r[0]] + [r[1]];
    SumConcat([r[0]], [r[1]], 0);
    SumOne(r[0], 0);
    SumOne(r[1], 0);
  }

  lemma OneOf(r: seq<Weight>, k: nat, i: nat, j: nat)
    requires Distinct(r) && (forall n :: Targets(r, n) <==> n == 0 || n == 1) && k < |r|
    requires i < |r| && j < |r| && r[i].target == 0 && r[j].target == 1
    ensures k == i || k == j
  {
    assert r[k] in r;
    assert Targets(r, r[k].target);
  }

  /** Two weights of 2^64 - 1 are scaled to 2^31 each, so that their total needs 33 bits. */
  method TwoHugeWeights() returns (d: Distribution)
    ensures fresh(d) && |d.weights| == 2 && d.total == 0x1_0000_0000 > MAX32
  {
    hide SumAt, Scaled, SumAll;
    d := new Distribution();
    d.Add(0, MAX64, Local);
    d.Add(1, MAX64, Local);
    ghost var ws := d.weights;
    assert ws == [Weight(Local, 0, MAX64), Weight(Local, 1, MAX64)];
    HugeSums(ws);
    d.Normalize();
    forall n
      ensures Targets(d.weights, n) <==> n == 0 || n == 1
    {
      assert Targets(ws, n) <==> Targets(d.weights, n);
    }
    ScaledHuge();
    if |d.weights| > 1 {
      forall x | x in d.weights
        ensures x.amount == 0x8000_0000
      {
        assert Targets(d.weights, x.target);
      }
    }
    MoreThanOne(d.weights);
    TwoTargets(d.weights, 0x8000_0000);
  }

  lemma MoreThanOne(r: seq<Weight>)
    requires forall n :: Targets(r, n) <==> n == 0 || n == 1
    ensures |r| > 1
  {
    assert Targets(r, 0) && Targets(r, 1);
  }

  lemma HugeSums(ws: seq<Weight>)
    requires ws == [Weight(Local, 0, MAX64), Weight(Local, 1, MAX64)]
    ensures SumAt(ws, 0) == SumAt(ws, 1) == MAX64 && SumAll(ws) == 2 * MAX64
    ensures forall n {:trigger Targets(ws, n)} :: Targets(ws, n) <==> n == 0 || n == 1
  {
    assert ws == [ws[0]] + [ws[1]];
    SumConcat([ws[0]], [ws[1]], 0);
    SumConcat([ws[0]], [ws[1]], 1);
    SumOne(ws[0], 0);
    SumOne(ws[1], 0);
    SumOne(ws[0], 1);
    SumOne(ws[1], 1);
    assert ws[0] in ws && ws[1] in ws;
  }
}
