/**
 Weights of a lib/Analysis/BlockFrequencyInfoImpl.cpp distribution, and the two
 ways to combine those that have the same target.
 */
module BfiWeights {

  const MAX64: nat := 0xFFFF_FFFF_FFFF_FFFF
  const MAX32: nat := 0xFFFF_FFFF
  const TWO64: nat := 0x1_0000_0000_0000_0000

  /** The position of a block in the reverse post-order. */
  type Node = nat

  datatype DistType = Local | Exit | Backedge

  datatype Weight = Weight(kind: DistType, target: Node, amount: nat)

  function Sat(x: nat): nat { if x > MAX64 then MAX64 else x }

  predicate WeightOk(w: Weight) { 0 < w.amount <= MAX64 }

  ghost predicate AllOk(ws: seq<Weight>) { forall w :: w in ws ==> WeightOk(w) }

  /** Edges to one target are of one kind. */
  ghost predicate KindsAgree(ws: seq<Weight>) {
    forall v, w :: v in ws && w in ws && v.target == w.target ==> v.kind == w.kind
  }

  function SumAt(ws: seq<Weight>, n: Node): nat {
    if ws == [] then 0
    else SumAt(ws[..|ws| - 1], n) + if ws[|ws| - 1].target == n then ws[|ws| - 1].amount else 0
  }

  function SumAll(ws: seq<Weight>): nat {
    if ws == [] then 0 else SumAll(ws[..|ws| - 1]) + ws[|ws| - 1].amount
  }

  ghost predicate Targets(ws: seq<Weight>, n: Node) { exists w :: w in ws && w.target == n }

  ghost predicate Distinct(r: seq<Weight>) {
    forall i, j :: 0 <= i < j < |r| ==> r[i].target != r[j].target
  }

  /** r has one weight for each target of ws, with the sum of its amounts, saturated. */
  ghost predicate Combines(ws: seq<Weight>, r: seq<Weight>) {
    && Distinct(r)
    && (forall n {:trigger Targets(ws, n)} :: Targets(ws, n) <==> Targets(r, n))
    && (forall x :: x in r ==> x.amount == Sat(SumAt(ws, x.target)))
    && (forall x, w :: x in r && w in ws && x.target == w.target ==> x.kind == w.kind)
  }

  // ---------- Sums ----------

  lemma SumNext(ws: seq<Weight>, w: Weight, n: Node)
    ensures SumAt(ws + [w], n) == SumAt(ws, n) + if w.target == n then w.amount else 0
    ensures SumAll(ws + [w]) == SumAll(ws) + w.amount
  {
    assert (ws + [w])[..|ws|] == ws;
  }

  lemma {:induction false} SumConcat(a: seq<Weight>, b: seq<Weight>, n: Node)
    ensures SumAt(a + b, n) == SumAt(a, n) + SumAt(b, n)
    ensures SumAll(a + b) == SumAll(a) + SumAll(b)
    decreases |b|
  {
    if b == [] {
      assert a + b == a;
    } else {
      var k := |b| - 1;
      assert (a + b)[..|a + b| - 1] == a + b[..k];
      SumConcat(a, b[..k], n);
    }
  }

  lemma SumOne(w: Weight, n: Node)
    ensures SumAt([w], n) == if w.target == n then w.amount else 0
    ensures SumAll([w]) == w.amount
  {
    assert [w][..0] == [];
  }

  lemma {:induction false} NoTarget(ws: seq<Weight>, n: Node)
    requires !Targets(ws, n)
    ensures SumAt(ws, n) == 0
    decreases |ws|
  {
    if ws != [] {
      var k := |ws| - 1;
      assert ws[k] in ws;
      assert forall w :: w in ws[..k] ==> w in ws;
      NoTarget(ws[..k], n);
    }
  }

  lemma SumWithout(b: seq<Weight>, j: nat, n: Node)
    requires j < |b|
    ensures var rest := b[..j] + b[j + 1..];
            && SumAt(b, n) == SumAt(rest, n) + (if b[j].target == n then b[j].amount else 0)
            && SumAll(b) == SumAll(rest) + b[j].amount
  {
    assert b == b[..j] + [b[j]] + b[j + 1..];
    SumConcat(b[..j] + [b[j]], b[j + 1..], n);
    SumConcat(b[..j], [b[j]], n);
    SumConcat(b[..j], b[j + 1..], n);
    SumOne(b[j], n);
  }

  lemma MultisetWithout(b: seq<Weight>, j: nat)
    requires j < |b|
    ensures multiset(b[..j] + b[j + 1..]) == multiset(b) - multiset{b[j]}
  {
    assert b == b[..j] + [b[j]] + b[j + 1..];
  }

  /** Sums do not depend on the order of weights. */
  lemma {:induction false} SumPermuted(a: seq<Weight>, b: seq<Weight>, n: Node)
    requires multiset(a) == multiset(b)
    ensures SumAt(a, n) == SumAt(b, n) && SumAll(a) == SumAll(b)
    decreases |a|
  {
    if a == [] {
      assert |multiset(b)| == 0;
    } else {
      var k := |a| - 1;
      assert a[k] in multiset(b);
      var j :| 0 <= j < |b| && b[j] == a[k];
      MultisetWithout(a, k);
      assert a[..k] + a[k + 1..] == a[..k];
      MultisetWithout(b, j);
      SumPermuted(a[..k], b[..j] + b[j + 1..], n);
      SumWithout(b, j, n);
    }
  }

  // ---------- Totals ----------

  /** The sums that the weights of r stand for. */
  function SumFor(ws: seq<Weight>, r: seq<Weight>): nat {
    if r == [] then 0 else SumFor(ws, r[..|r| - 1]) + SumAt(ws, r[|r| - 1].target)
  }

  lemma {:induction false} SumForNext(ws: seq<Weight>, w: Weight, r: seq<Weight>)
    requires Distinct(r)
    ensures SumFor(ws + [w], r) == SumFor(ws, r) + if Targets(r, w.target) then w.amount else 0
    decreases |r|
  {
    if r != [] {
      var k := |r| - 1;
      SumForNext(ws, w, r[..k]);
      SumNext(ws, w, r[k].target);
      TargetsLast(r, w.target);
      if r[k].target == w.target {
        NotBefore(r);
      }
    }
  }

  lemma TargetsLast(r: seq<Weight>, n: Node)
    requires r != []
    ensures Targets(r, n) <==> Targets(r[..|r| - 1], n) || r[|r| - 1].target == n
  {
    var k := |r| - 1;
    if x :| x in r && x.target == n {
      assert x in r[..k] || x == r[k];
    }
    if x :| x in r[..k] && x.target == n {
      assert x in r;
    }
    assert r[k] in r;
  }

  lemma NotBefore(r: seq<Weight>)
    requires r != [] && Distinct(r)
    ensures !Targets(r[..|r| - 1], r[|r| - 1].target)
  {
  }

  /** Targets of r together receive no more than there is, and all of it if r has every target. */
  lemma {:induction false} SumForAll(ws: seq<Weight>, r: seq<Weight>)
    requires Distinct(r)
    ensures SumFor(ws, r) <= SumAll(ws)
    ensures (forall w :: w in ws ==> Targets(r, w.target)) ==> SumFor(ws, r) == SumAll(ws)
    decreases |ws|
  {
    if ws == [] {
      NothingFor(r);
    } else {
      var k := |ws| - 1;
      SumForAll(ws[..k], r);
      assert ws == ws[..k] + [ws[k]];
      SumForNext(ws[..k], ws[k], r);
      assert forall w :: w in ws[..k] ==> w in ws;
      assert ws[k] in ws;
    }
  }

  lemma {:induction false} NothingFor(r: seq<Weight>)
    ensures SumFor([], r) == 0
  {
    if r != [] {
      NothingFor(r[..|r| - 1]);
    }
  }

  /** Combining never adds amounts, and keeps the total unless some sum was too large. */
  lemma {:induction false} CombinedTotal(ws: seq<Weight>, r: seq<Weight>)
    requires forall x :: x in r ==> x.amount == Sat(SumAt(ws, x.target))
    ensures SumAll(r) <= SumFor(ws, r)
    ensures (forall x :: x in r ==> SumAt(ws, x.target) <= MAX64) ==> SumAll(r) == SumFor(ws, r)
    decreases |r|
  {
    if r != [] {
      var k := |r| - 1;
      assert forall x :: x in r[..k] ==> x in r;
      assert r[k] in r;
      CombinedTotal(ws, r[..k]);
    }
  }

  lemma {:induction false} SumAtMost(ws: seq<Weight>, n: Node)
    ensures SumAt(ws, n) <= SumAll(ws)
    decreases |ws|
  {
    if ws != [] {
      SumAtMost(ws[..|ws| - 1], n);
    }
  }

  /** The total of combined weights: exactly that of the weights unless it needs more than 64 bits. */
  lemma CombinesTotal(ws: seq<Weight>, r: seq<Weight>)
    requires Combines(ws, r)
    ensures SumAll(r) <= SumAll(ws)
    ensures SumAll(ws) <= MAX64 ==> SumAll(r) == SumAll(ws)
  {
    forall w | w in ws
      ensures Targets(r, w.target)
    {
      assert Targets(ws, w.target);
    }
    SumForAll(ws, r);
    forall x | x in r
      ensures SumAt(ws, x.target) <= SumAll(ws)
    {
      SumAtMost(ws, x.target);
    }
    CombinedTotal(ws, r);
  }

  lemma SameWeight(ws: seq<Weight>, r: seq<Weight>, s: seq<Weight>, x: Weight)
    requires Combines(ws, r) && Combines(ws, s) && x in r
    ensures x in s
  {
    assert Targets(r, x.target) && Targets(ws, x.target) && Targets(s, x.target);
    var w :| w in ws && w.target == x.target;
    var y :| y in s && y.target == x.target;
    assert x.kind == w.kind && y.kind == w.kind;
  }

  lemma {:induction false} OnceEach(r: seq<Weight>, x: Weight)
    requires Distinct(r)
    ensures multiset(r)[x] == if x in r then 1 else 0
    decreases |r|
  {
    if r != [] {
      var k := |r| - 1;
      OnceEach(r[..k], x);
      assert r == r[..k] + [r[k]];
      assert multiset(r) == multiset(r[..k]) + multiset{r[k]};
      assert x in r <==> x in r[..k] || x == r[k];
      assert r[k] !in r[..k];
    }
  }

  /** Whatever two ways to combine give is the same list, up to order. */
  lemma WaysAgree(ws: seq<Weight>, r: seq<Weight>, s: seq<Weight>)
    requires Combines(ws, r) && Combines(ws, s)
    ensures multiset(r) == multiset(s)
  {
    forall x ensures multiset(r)[x] == multiset(s)[x] {
      OnceEach(r, x);
      OnceEach(s, x);
      if x in r {
        SameWeight(ws, r, s, x);
      }
      if x in s {
        SameWeight(ws, s, r, x);
      }
    }
  }
}
