/**
 BlockMass, and the dithering distributer that splits a mass by weight without
 losing any of it.
 */
module BfiMass {
  import opened BfiWeights
  import opened BfiNormalize

  /** operator+= and operator-= of BlockMass saturate. */
  function Plus(a: nat, b: nat): nat { Sat(a + b) }

  function Minus(a: nat, b: nat): nat { if b > a then 0 else a - b }

  /** BranchProbability(weight, total).scale(mass). */
  type Scale = (nat, nat, nat) -> nat

  /** All that is assumed of it: a part is at most the whole, and the whole is the whole. */
  ghost predicate Fair(scale: Scale) {
    forall mass, w, total :: 0 < w <= total ==>
      scale(mass, w, total) <= mass && (w == total ==> scale(mass, w, total) == mass)
  }

  /** The portions that takeMass hands out, in order. */
  function Portions(scale: Scale, ws: seq<Weight>, rem: nat, mass: nat): seq<nat> {
    if ws == [] then []
    else
      var taken := scale(mass, ws[0].amount, rem);
      [taken] + Portions(scale, ws[1..], Minus(rem, ws[0].amount), Minus(mass, taken))
  }

  lemma FirstPortion(scale: Scale, ws: seq<Weight>, mass: nat)
    requires Fair(scale) && ws != [] && forall w :: w in ws ==> w.amount >= 1
    ensures var taken := scale(mass, ws[0].amount, SumAll(ws));
            taken <= mass && Portions(scale, ws, SumAll(ws), mass) == [taken] + Portions(scale, ws[1..], SumAll(ws[1..]), mass - taken)
  {
    FirstRest(ws);
    assert ws[0] in ws;
    hide SumAll;
  }

  /** A portion is what the scaler makes of the mass and the weight that are left then. */
  lemma {:induction false} PortionsAre(scale: Scale, ws: seq<Weight>, mass: nat, k: nat)
    requires Fair(scale) && k < |ws| && forall w :: w in ws ==> w.amount >= 1
    ensures var ps := Portions(scale, ws, SumAll(ws), mass);
            k < |ps| && Sum(ps[..k]) <= mass && ps[k] == scale(mass - Sum(ps[..k]), ws[k].amount, SumAll(ws[k..]))
    decreases |ws|
  {
    FirstPortion(scale, ws, mass);
    hide Portions, SumAll, Fair;
    var ps, rest := Portions(scale, ws, SumAll(ws), mass), ws[1..];
    var taken := ps[0];
    if k == 0 {
      assert ps[..0] == [] && ws[0..] == ws;
    } else {
      assert forall w :: w in rest ==> w in ws;
      PortionsAre(scale, rest, mass - taken, k - 1);
      assert ps[1..] == Portions(scale, rest, SumAll(rest), mass - taken);
      assert ps[..k][1..] == ps[1..][..k - 1] && ws[k..] == rest[k - 1..];
    }
  }

  function Sum(ms: seq<nat>): nat {
    if ms == [] then 0 else ms[0] + Sum(ms[1..])
  }

  lemma FirstRest(ws: seq<Weight>)
    requires ws != []
    ensures SumAll(ws) == ws[0].amount + SumAll(ws[1..])
  {
    assert ws == [ws[0]] + ws[1..];
    SumConcat([ws[0]], ws[1..], 0);
    SumOne(ws[0], 0);
  }

  lemma SumAllPositive(ws: seq<Weight>)
    requires ws != [] && forall w :: w in ws ==> w.amount >= 1
    ensures SumAll(ws) >= 1
  {
    assert ws[|ws| - 1] in ws;
  }

  /** Draining a distribution hands out exactly the mass that there was. */
  lemma {:induction false} DrainsAll(scale: Scale, ws: seq<Weight>, mass: nat)
    requires Fair(scale) && ws != [] && forall w :: w in ws ==> w.amount >= 1
    ensures |Portions(scale, ws, SumAll(ws), mass)| == |ws|
    ensures Sum(Portions(scale, ws, SumAll(ws), mass)) == mass
    decreases |ws|
  {
    FirstRest(ws);
    var rest := ws[1..];
    assert ws[0] in ws;
    var taken := scale(mass, ws[0].amount, SumAll(ws));
    if rest == [] {
      assert SumAll(rest) == 0;
      assert Portions(scale, rest, 0, Minus(mass, taken)) == [];
    } else {
      SumAllPositive(rest);
      DrainsAll(scale, rest, mass - taken);
    }
  }

  class DitheringDistributer {
    var remWeight: nat
    var remMass: nat
    const scale: Scale

    /** Normalizes the distribution; its total is cut to 32 bits. */
    constructor (dist: Distribution, mass: nat, s: Scale)
      requires dist.Open()
      modifies dist`weights, dist`total
      ensures remMass == mass && scale == s
      ensures remWeight == dist.total % (MAX32 + 1)
      ensures dist.weights != [] ==> Distinct(dist.weights) && dist.total == SumAll(dist.weights)
      ensures forall n {:trigger Targets(dist.weights, n)} :: Targets(old(dist.weights), n) <==> Targets(dist.weights, n)
      ensures forall x, w :: x in dist.weights && w in old(dist.weights) && x.target == w.target ==> x.kind == w.kind
      ensures forall x :: x in dist.weights ==> x.amount >= 1
      ensures |dist.weights| < 0x8000_0000 && (dist.didOverflow ==> dist.sum + |dist.weights| * TWO33 < TWO65) ==>
                dist.weights == [] || dist.total <= MAX32
      ensures old(dist.weights) != [] ==> dist.weights != []
    {
      scale := s;
      remMass := mass;
      new;
      dist.Normalize();
      remWeight := dist.total % (MAX32 + 1);
    }

    /** takeMass; a weight is never more than what is left. */
    method TakeMass(weight: nat) returns (mass: nat)
      requires 0 < weight <= remWeight
      modifies this`remWeight, this`remMass
      ensures mass == scale(old(remMass), weight, old(remWeight))
      ensures remWeight == Minus(old(remWeight), weight) && remMass == Minus(old(remMass), mass)
    {
      mass := scale(remMass, weight, remWeight);
      remWeight := remWeight - weight;
      remMass := Minus(remMass, mass);
    }
  }
}
