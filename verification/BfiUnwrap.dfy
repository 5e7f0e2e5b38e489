/**
 unwrapLoops: the frequency of a block is its mass in its loop, times the scale
 and the mass of every loop around it. Scaled numbers are taken as reals.
 */
module BfiUnwrap {
  import opened BfiWeights
  import opened BfiLoop

  datatype Option<T> = None | Some(value: T)

  /** A loop: its parent, its headers, and its nodes, in which a header of a loop directly inside stands for that loop. */
  datatype Loop = Loop(parent: Option<nat>, headers: seq<Node>, nodes: seq<Node>, mass: nat, scale: real)

  /** The loops of a function, and the innermost loop of each block. */
  datatype Nest = Nest(loops: seq<Loop>, home: map<Node, Option<nat>>, mass: map<Node, nat>)

  /** Loops are listed outer before inner. */
  predicate OuterFirst(t: Nest) {
    && (forall l :: 0 <= l < |t.loops| ==> t.loops[l].parent.Some? ==> t.loops[l].parent.value < l)
    && (forall n :: n in t.home ==> n in t.mass && (t.home[n].Some? ==> t.home[n].value < |t.loops|))
  }

  /** getPackagedLoop, when the loops numbered up to i are unwrapped: the outermost packaged loop around l. */
  function PackagedLoop(t: Nest, l: nat, i: nat): (m: nat)
    requires OuterFirst(t) && l < |t.loops|
    ensures m < |t.loops|
  {
    match t.loops[l].parent
    case None => l
    case Some(p) => if p > i then PackagedLoop(t, p, i) else l
  }

  predicate IsBlockOf(t: Nest, n: Node, l: nat) { n in t.home && t.home[n] == Some(l) }

  /** In the nodes of loop l, n stands for loop m directly inside. */
  predicate StandsFor(t: Nest, n: Node, l: nat, m: nat)
    requires OuterFirst(t)
  {
    && n in t.home && t.home[n].Some? && t.home[n].value > l && n in t.loops[t.home[n].value].headers
    && PackagedLoop(t, t.home[n].value, l) == m && t.loops[m].parent == Some(l)
  }

  /** Nodes of a loop are its own blocks and the loops directly inside, each once. */
  ghost predicate NodesOk(t: Nest, l: nat)
    requires OuterFirst(t) && l < |t.loops|
  {
    var ns := t.loops[l].nodes;
    && (forall k :: 0 <= k < |ns| ==> IsBlockOf(t, ns[k], l) || exists m :: StandsFor(t, ns[k], l, m))
    && (forall j, k :: 0 <= j < k < |ns| ==> ns[j] != ns[k])
    && (forall j, k, m :: 0 <= j < k < |ns| && StandsFor(t, ns[j], l, m) ==> !StandsFor(t, ns[k], l, m))
    && (forall n :: IsBlockOf(t, n, l) ==> n in ns)
    && (forall m :: 0 <= m < |t.loops| && t.loops[m].parent == Some(l) ==> exists k :: 0 <= k < |ns| && StandsFor(t, ns[k], l, m))
  }

  ghost predicate NestOk(t: Nest) {
    OuterFirst(t) && forall l :: 0 <= l < |t.loops| ==> NodesOk(t, l)
  }

  /** The scale and the mass of loop l and of every loop around it, multiplied. */
  function Factor(t: Nest, l: nat): real
    requires OuterFirst(t) && l < |t.loops|
  {
    var up := match t.loops[l].parent case None => 1.0 case Some(p) => Factor(t, p);
    t.loops[l].scale * up * ToScaled(t.loops[l].mass)
  }

  /** The frequency of a block: its local mass times the factor of the loops that contain it. */
  function Frequency(t: Nest, n: Node): real
    requires OuterFirst(t) && n in t.home
  {
    ToScaled(t.mass[n]) * match t.home[n] case None => 1.0 case Some(l) => Factor(t, l)
  }

  // ---------- The product over all loops around a block ----------

  /** All loops that contain loop l, from the inside out. */
  function Chain(t: Nest, l: nat): (c: seq<nat>)
    requires OuterFirst(t) && l < |t.loops|
    ensures forall k :: 0 <= k < |c| ==> c[k] < |t.loops|
  {
    match t.loops[l].parent
    case None => [l]
    case Some(p) => [l] + Chain(t, p)
  }

  function Product(t: Nest, c: seq<nat>): real
    requires forall k :: 0 <= k < |c| ==> c[k] < |t.loops|
  {
    if c == [] then 1.0 else t.loops[c[0]].scale * ToScaled(t.loops[c[0]].mass) * Product(t, c[1..])
  }

  /** The factor is the product, over all loops that contain l, of scale times mass. */
  lemma {:induction false} FactorIsProduct(t: Nest, l: nat)
    requires OuterFirst(t) && l < |t.loops|
    ensures Factor(t, l) == Product(t, Chain(t, l))
    decreases l
  {
    hide ToScaled;
    match t.loops[l].parent
    case None =>
      assert [l][1..] == [];
    case Some(p) =>
      FactorIsProduct(t, p);
      assert ([l] + Chain(t, p))[1..] == Chain(t, p);
      Swap(t.loops[l].scale, Factor(t, p), ToScaled(t.loops[l].mass));
  }

  function Times(a: real, b: real): real { a * b }

  lemma Swap(a: real, b: real, c: real)
    ensures a * b * c == a * c * b && a * b == b * a
  {
  }

  // ---------- The method ----------

  /** A loop's scale when the loops around it have been unwrapped or not. */
  function Entered(t: Nest, l: nat, around: bool): real
    requires OuterFirst(t) && l < |t.loops|
  {
    match t.loops[l].parent
    case None => t.loops[l].scale
    case Some(p) => if around then t.loops[l].scale * Factor(t, p) else t.loops[l].scale
  }

  /** Whether loop i has passed its factor on to loop l, having gone through k of its nodes. */
  ghost predicate PassedOn(t: Nest, l: nat, i: nat, k: nat)
    requires OuterFirst(t) && l < |t.loops| && i < |t.loops| && k <= |t.loops[i].nodes|
  {
    match t.loops[l].parent
    case None => false
    case Some(p) => p < i || (p == i && exists j :: 0 <= j < k && StandsFor(t, t.loops[i].nodes[j], i, l))
  }

  /** Whether block n has its final frequency by then. */
  ghost predicate Settled(t: Nest, n: Node, i: nat, k: nat)
    requires OuterFirst(t) && n in t.home && i < |t.loops| && k <= |t.loops[i].nodes|
  {
    match t.home[n]
    case None => true
    case Some(l) => l < i || (l == i && n in t.loops[i].nodes[..k])
  }

  /** The scales between loops, when those before i have been unwrapped. */
  ghost predicate ScalesAt(t: Nest, scales: seq<real>, i: nat)
    requires OuterFirst(t) && |scales| == |t.loops|
  {
    forall l :: 0 <= l < |scales| ==>
      scales[l] == if l < i then Factor(t, l) else Entered(t, l, t.loops[l].parent.Some? && t.loops[l].parent.value < i)
  }

  ghost predicate FreqsAt(t: Nest, freqs: map<Node, real>, i: nat)
    requires OuterFirst(t)
  {
    freqs.Keys == t.home.Keys &&
    forall n :: n in t.home ==>
      freqs[n] == if t.home[n].Some? && t.home[n].value >= i then ToScaled(t.mass[n]) else Frequency(t, n)
  }

  /** The same while the nodes of loop i are gone through. */
  ghost predicate ScalesIn(t: Nest, scales: seq<real>, i: nat, k: nat)
    requires OuterFirst(t) && |scales| == |t.loops| && i < |t.loops| && k <= |t.loops[i].nodes|
  {
    forall l :: 0 <= l < |scales| ==>
      scales[l] == if l <= i then Factor(t, l) else Entered(t, l, PassedOn(t, l, i, k))
  }

  ghost predicate FreqsIn(t: Nest, freqs: map<Node, real>, i: nat, k: nat)
    requires OuterFirst(t) && i < |t.loops| && k <= |t.loops[i].nodes|
  {
    freqs.Keys == t.home.Keys &&
    forall n :: n in t.home ==> freqs[n] == if Settled(t, n, i, k) then Frequency(t, n) else ToScaled(t.mass[n])
  }

  lemma Enter(t: Nest, scales: seq<real>, s: seq<real>, freqs: map<Node, real>, i: nat)
    requires NestOk(t) && |scales| == |t.loops| && i < |t.loops| && ScalesAt(t, scales, i) && FreqsAt(t, freqs, i)
    requires s == scales[i := Times(scales[i], ToScaled(t.loops[i].mass))]
    ensures ScalesIn(t, s, i, 0) && FreqsIn(t, freqs, i, 0)
  {
    hide ToScaled, Frequency, NodesOk;
    assert t.loops[i].nodes[..0] == [];
    forall l | 0 <= l < |s|
      ensures s[l] == if l <= i then Factor(t, l) else Entered(t, l, PassedOn(t, l, i, 0))
    {
      assert l == i ==> scales[l] == Entered(t, l, t.loops[l].parent.Some?);
      assert t.loops[l].parent.None? ==> t.loops[l].scale * 1.0 == t.loops[l].scale;
    }
  }

  lemma Leave(t: Nest, scales: seq<real>, freqs: map<Node, real>, i: nat)
    requires NestOk(t) && |scales| == |t.loops| && i < |t.loops|
    requires ScalesIn(t, scales, i, |t.loops[i].nodes|) && FreqsIn(t, freqs, i, |t.loops[i].nodes|)
    ensures ScalesAt(t, scales, i + 1) && FreqsAt(t, freqs, i + 1)
  {
    var ns := t.loops[i].nodes;
    assert NodesOk(t, i);
    assert ns[..|ns|] == ns;
    hide ToScaled, Frequency, Factor, StandsFor;
    forall l | 0 <= l < |scales|
      ensures scales[l] == if l < i + 1 then Factor(t, l) else Entered(t, l, t.loops[l].parent.Some? && t.loops[l].parent.value < i + 1)
    {
      if t.loops[l].parent == Some(i) {
        assert exists k :: 0 <= k < |ns| && StandsFor(t, ns[k], i, l);
      }
    }
    forall n | n in t.home
      ensures freqs[n] == if t.home[n].Some? && t.home[n].value >= i + 1 then ToScaled(t.mass[n]) else Frequency(t, n)
    {
      if t.home[n] == Some(i) {
        assert IsBlockOf(t, n, i);
      }
    }
  }

  /** The next node is a block of the loop: no loop is passed a scale, and only this block is settled. */
  lemma BlockSettles(t: Nest, i: nat, k: nat)
    requires NestOk(t) && i < |t.loops| && k < |t.loops[i].nodes| && IsBlockOf(t, t.loops[i].nodes[k], i)
    ensures forall l :: 0 <= l < |t.loops| ==> (PassedOn(t, l, i, k + 1) <==> PassedOn(t, l, i, k))
    ensures !Settled(t, t.loops[i].nodes[k], i, k)
    ensures forall b :: b in t.home ==> (Settled(t, b, i, k + 1) <==> Settled(t, b, i, k) || b == t.loops[i].nodes[k])
  {
    var ns := t.loops[i].nodes;
    var n := ns[k];
    assert NodesOk(t, i);
    assert ns[..k + 1] == ns[..k] + [n];
    assert n !in ns[..k];
    hide NodesOk;
    forall l | 0 <= l < |t.loops|
      ensures PassedOn(t, l, i, k + 1) <==> PassedOn(t, l, i, k)
    {
      assert !StandsFor(t, n, i, l);
    }
  }

  lemma BlockFrequency(t: Nest, n: Node, i: nat)
    requires OuterFirst(t) && i < |t.loops| && IsBlockOf(t, n, i) && n in t.mass
    ensures Times(Factor(t, i), ToScaled(t.mass[n])) == Frequency(t, n)
  {
    Swap(Factor(t, i), ToScaled(t.mass[n]), 1.0);
  }

  lemma BlockStep(t: Nest, scales: seq<real>, freqs: map<Node, real>, f: map<Node, real>, i: nat, k: nat)
    requires NestOk(t) && |scales| == |t.loops| && i < |t.loops| && k < |t.loops[i].nodes| && IsBlockOf(t, t.loops[i].nodes[k], i)
    requires ScalesIn(t, scales, i, k) && FreqsIn(t, freqs, i, k)
    requires var n := t.loops[i].nodes[k]; n in freqs && f == freqs[n := Times(scales[i], freqs[n])]
    ensures ScalesIn(t, scales, i, k + 1) && FreqsIn(t, f, i, k + 1)
  {
    BlockSettles(t, i, k);
    BlockFrequency(t, t.loops[i].nodes[k], i);
    hide ToScaled, Frequency, Factor, NodesOk, PassedOn, Settled, Entered, Times;
  }

  lemma InFreqs(t: Nest, freqs: map<Node, real>, i: nat, k: nat, n: Node)
    requires OuterFirst(t) && i < |t.loops| && k <= |t.loops[i].nodes| && FreqsIn(t, freqs, i, k) && n in t.home
    ensures n in freqs
  {
  }

  /** The next node stands for a loop directly inside. */
  lemma LoopStep(t: Nest, scales: seq<real>, s: seq<real>, freqs: map<Node, real>, i: nat, k: nat, m: nat)
    requires NestOk(t) && |scales| == |t.loops| && i < |t.loops| && k < |t.loops[i].nodes| && StandsFor(t, t.loops[i].nodes[k], i, m)
    requires ScalesIn(t, scales, i, k) && FreqsIn(t, freqs, i, k)
    requires m < |t.loops| && s == scales[m := Times(scales[i], scales[m])]
    ensures ScalesIn(t, s, i, k + 1) && FreqsIn(t, freqs, i, k + 1)
  {
    var ns := t.loops[i].nodes;
    var n := ns[k];
    assert NodesOk(t, i);
    assert ns[..k + 1] == ns[..k] + [n];
    assert m > i;
    NotYet(t, i, k, m);
    Swap(Factor(t, i), t.loops[m].scale, 1.0);
    hide ToScaled, Frequency, Factor, NodesOk;
    forall l | 0 <= l < |s|
      ensures PassedOn(t, l, i, k + 1) <==> PassedOn(t, l, i, k) || l == m
    {
      assert StandsFor(t, n, i, l) <==> l == m;
    }
    forall b | b in t.home
      ensures Settled(t, b, i, k + 1) <==> Settled(t, b, i, k)
    {
    }
  }

  lemma NotYet(t: Nest, i: nat, k: nat, m: nat)
    requires NestOk(t) && i < |t.loops| && k < |t.loops[i].nodes| && StandsFor(t, t.loops[i].nodes[k], i, m)
    ensures !PassedOn(t, m, i, k)
  {
    assert NodesOk(t, i);
  }

  class BlockFrequencyInfo {
    const nest: Nest
    var freqs: map<Node, real>
    var scales: seq<real>
    var packaged: seq<bool>

    /** All loops are packaged. */
    constructor (t: Nest)
      requires NestOk(t)
      ensures nest == t && |scales| == |packaged| == |t.loops|
      ensures forall l :: 0 <= l < |t.loops| ==> scales[l] == t.loops[l].scale && packaged[l]
    {
      nest := t;
      freqs := map[];
      scales := seq(|t.loops|, l requires 0 <= l < |t.loops| => t.loops[l].scale);
      packaged := seq(|t.loops|, l => true);
    }

    /** getPackagedLoop, of a loop that is packaged. */
    method GetPackagedLoop(l: nat, ghost i: nat) returns (m: nat)
      requires OuterFirst(nest) && l < |nest.loops| == |packaged|
      requires forall k :: 0 <= k < |packaged| ==> (packaged[k] <==> k > i)
      ensures m == PackagedLoop(nest, l, i)
    {
      m := l;
      while nest.loops[m].parent.Some? && packaged[nest.loops[m].parent.value]
        invariant m < |nest.loops| && PackagedLoop(nest, m, i) == PackagedLoop(nest, l, i)
        decreases m
      {
        m := nest.loops[m].parent.value;
      }
    }

    /** unwrapLoop: scale each node of loop i, be it a block or a packaged loop. */
    method UnwrapLoop(i: nat)
      requires NestOk(nest) && i < |nest.loops| == |scales| == |packaged|
      requires ScalesAt(nest, scales, i) && FreqsAt(nest, freqs, i)
      requires forall l :: 0 <= l < |packaged| ==> (packaged[l] <==> l >= i)
      modifies this
      ensures |nest.loops| == |scales| == |packaged|
      ensures ScalesAt(nest, scales, i + 1) && FreqsAt(nest, freqs, i + 1)
      ensures forall l :: 0 <= l < |packaged| ==> (packaged[l] <==> l >= i + 1)
    {
      hide ScalesAt, FreqsAt, ScalesIn, FreqsIn, NodesOk, ToScaled, StandsFor, Times;
      var loop := nest.loops[i];
      ghost var before := scales;
      scales := scales[i := Times(scales[i], ToScaled(loop.mass))];
      Enter(nest, before, scales, freqs, i);
      packaged := packaged[i := false];
      for k := 0 to |loop.nodes|
        invariant |nest.loops| == |scales| == |packaged| && OuterFirst(nest)
        invariant ScalesIn(nest, scales, i, k) && FreqsIn(nest, freqs, i, k)
        invariant forall l :: 0 <= l < |packaged| ==> (packaged[l] <==> l > i)
      {
        var n := loop.nodes[k];
        WhatNode(nest, i, k);
        var h := nest.home[n].value;
        if n in nest.loops[h].headers && packaged[h] {
          var m := GetPackagedLoop(h, i);
          ghost var old_ := scales;
          scales := scales[m := Times(scales[i], scales[m])];
          LoopStep(nest, old_, scales, freqs, i, k, m);
        } else {
          InFreqs(nest, freqs, i, k, n);
          ghost var old_ := freqs;
          freqs := freqs[n := Times(scales[i], freqs[n])];
          BlockStep(nest, scales, old_, freqs, i, k);
        }
      }
      Leave(nest, scales, freqs, i);
    }

    /** unwrapLoops: every block gets its frequency. */
    method UnwrapLoops()
      requires NestOk(nest) && |nest.loops| == |scales| == |packaged|
      requires forall l :: 0 <= l < |nest.loops| ==> scales[l] == nest.loops[l].scale && packaged[l]
      modifies this
      ensures freqs.Keys == nest.home.Keys
      ensures forall n :: n in nest.home ==> freqs[n] == Frequency(nest, n)
    {
      freqs := map n | n in nest.home :: ToScaled(nest.mass[n]);
      AtStart(nest, scales, freqs);
      for i := 0 to |nest.loops|
        invariant |nest.loops| == |scales| == |packaged|
        invariant ScalesAt(nest, scales, i) && FreqsAt(nest, freqs, i)
        invariant forall l :: 0 <= l < |packaged| ==> (packaged[l] <==> l >= i)
      {
        UnwrapLoop(i);
      }
    }
  }

  lemma AtStart(t: Nest, scales: seq<real>, freqs: map<Node, real>)
    requires OuterFirst(t) && |scales| == |t.loops| && forall l :: 0 <= l < |t.loops| ==> scales[l] == t.loops[l].scale
    requires freqs.Keys == t.home.Keys && forall n :: n in t.home ==> freqs[n] == ToScaled(t.mass[n])
    ensures ScalesAt(t, scales, 0) && FreqsAt(t, freqs, 0)
  {
    hide ToScaled;
  }

  /** A node of loop i is one of its blocks, or stands for the packaged loop directly inside. */
  lemma WhatNode(t: Nest, i: nat, k: nat)
    requires NestOk(t) && i < |t.loops| && k < |t.loops[i].nodes|
    ensures OuterFirst(t)
    ensures var n := t.loops[i].nodes[k];
            && n in t.home && t.home[n].Some? && i <= t.home[n].value < |t.loops|
            && (if n in t.loops[t.home[n].value].headers && t.home[n].value > i
                then StandsFor(t, n, i, PackagedLoop(t, t.home[n].value, i)) else IsBlockOf(t, n, i))
  {
    assert NodesOk(t, i);
  }

  /** What a block's frequency is, in full: mass times the product over all loops that contain it of scale times mass. */
  lemma FrequencyIsProduct(t: Nest, n: Node)
    requires OuterFirst(t) && n in t.home
    ensures Frequency(t, n) ==
            ToScaled(t.mass[n]) * match t.home[n] case None => 1.0 case Some(l) => Product(t, Chain(t, l))
  {
    if t.home[n].Some? {
      FactorIsProduct(t, t.home[n].value);
    }
  }
}
