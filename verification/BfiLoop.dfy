/**
 Distributing mass in a loop: addToDist, distributeMass, computeMassInLoop and
 computeLoopScale. No mass is lost or invented on the way.
 */
module BfiLoop {
  import opened BfiWeights
  import opened BfiDistribution
  import opened BfiNormalize
  import opened BfiMass

  /** An edge to a block, with the numerator of its probability or the mass that leaves a packaged loop along it. */
  datatype Edge = Edge(succ: Node, weight: nat)

  /**
   The loop whose members are visited, if any: its headers in order, the block that stands for
   each block, and whether the loop that contains a block is this one.
   */
  datatype Context = Context(headers: seq<Node>, resolve: Node -> Node, inside: Node -> bool)

  predicate IsHeader(c: Context, n: Node) { n in c.headers }

  /** What kind of edge leads to a block that stands for itself. */
  function KindOf(c: Context, n: Node): DistType {
    if IsHeader(c, n) then Backedge else if !c.inside(n) then Exit else Local
  }

  /** An edge against the order between blocks of which the first is not a header. */
  predicate Aborts(c: Context, pred: Node, resolved: Node) {
    KindOf(c, resolved) == Local && resolved < pred && !IsHeader(c, pred)
  }

  /** The assertions of addToDist: only irreducible loops have edges against the order, out of their headers. */
  predicate Handled(c: Context, pred: Node, resolved: Node) {
    KindOf(c, resolved) == Local && resolved < pred ==> if IsHeader(c, pred) then |c.headers| > 1 else |c.headers| <= 1
  }

  function AtLeastOne(weight: nat): nat { if weight == 0 then 1 else weight }

  /** The weights that edges give, which Distribution adds up. */
  function WeightsOf(c: Context, edges: seq<Edge>): seq<Weight> {
    if edges == [] then []
    else
      var k := |edges| - 1;
      var n := c.resolve(edges[k].succ);
      WeightsOf(c, edges[..k]) + [Weight(KindOf(c, n), n, AtLeastOne(edges[k].weight))]
  }

  function EdgeSum(edges: seq<Edge>): nat {
    if edges == [] then 0 else EdgeSum(edges[..|edges| - 1]) + AtLeastOne(edges[|edges| - 1].weight)
  }

  /** Few enough edges, with weights small enough, for normalize to fit their total into 32 bits. */
  predicate Manageable(edges: seq<Edge>) {
    && |edges| < 0x8000_0000 && EdgeSum(edges) + |edges| * TWO33 < TWO65
    && forall k :: 0 <= k < |edges| ==> edges[k].weight <= MAX64
  }

  /** That is so for branch probabilities, whose numerators have 32 bits. */
  lemma {:induction false} ProbabilitiesBound(edges: seq<Edge>)
    requires forall k :: 0 <= k < |edges| ==> edges[k].weight <= MAX32
    ensures EdgeSum(edges) <= |edges| * (MAX32 + 1)
    decreases |edges|
  {
    if edges != [] {
      ProbabilitiesBound(edges[..|edges| - 1]);
    }
  }

  lemma ProbabilitiesManageable(edges: seq<Edge>)
    requires |edges| < 0x8000_0000 && forall k :: 0 <= k < |edges| ==> edges[k].weight <= MAX32
    ensures Manageable(edges)
  {
    ProbabilitiesBound(edges);
  }

  /** And for the masses that leave a packaged loop, which are parts of the full mass. */
  function WeightSum(edges: seq<Edge>): nat {
    if edges == [] then 0 else WeightSum(edges[..|edges| - 1]) + edges[|edges| - 1].weight
  }

  lemma {:induction false} ExitsBound(edges: seq<Edge>)
    ensures EdgeSum(edges) <= WeightSum(edges) + |edges|
    ensures forall k :: 0 <= k < |edges| ==> edges[k].weight <= WeightSum(edges)
    decreases |edges|
  {
    if edges != [] {
      ExitsBound(edges[..|edges| - 1]);
      assert forall k :: 0 <= k < |edges| - 1 ==> edges[k] == edges[..|edges| - 1][k];
    }
  }

  /** The exits of a packaged loop, as edges of it. */
  function ExitEdges(exits: seq<(Node, nat)>): seq<Edge> {
    if exits == [] then [] else ExitEdges(exits[..|exits| - 1]) + [Edge(exits[|exits| - 1].0, exits[|exits| - 1].1)]
  }

  lemma {:induction false} ExitEdgesSum(exits: seq<(Node, nat)>)
    ensures |ExitEdges(exits)| == |exits| && WeightSum(ExitEdges(exits)) == Leaving(exits)
    decreases |exits|
  {
    if exits != [] {
      ExitEdgesSum(exits[..|exits| - 1]);
      var e := ExitEdges(exits);
      assert e[..|e| - 1] == ExitEdges(exits[..|exits| - 1]);
    }
  }

  /** The exits of a loop of which no mass was lost leave weights that normalize can handle. */
  lemma {:induction false} ExitsManageable(back: map<Node, nat>, headers: seq<Node>, exits: seq<(Node, nat)>)
    requires |exits| < 0x8000_0000 && Over(back, headers) + Leaving(exits) == MAX64
    ensures Manageable(ExitEdges(exits))
  {
    ExitEdgesSum(exits);
    ExitsBound(ExitEdges(exits));
  }

  // ---------- addToDist ----------

  ghost predicate KindsAre(c: Context, ws: seq<Weight>) {
    forall w :: w in ws ==> w.kind == KindOf(c, w.target)
  }

  /** addToDist: false if the edge is an irreducible backedge. */
  method AddToDist(dist: Distribution, c: Context, pred: Node, e: Edge) returns (ok: bool)
    requires dist.Open() && KindsAre(c, dist.weights) && Handled(c, pred, c.resolve(e.succ))
    requires e.weight <= MAX64 && dist.sum + AtLeastOne(e.weight) < TWO65
    modifies dist
    ensures dist.Open() && KindsAre(c, dist.weights)
    ensures ok <==> !Aborts(c, pred, c.resolve(e.succ))
    ensures var n := c.resolve(e.succ); !ok <==> n !in c.headers && c.inside(n) && n < pred && pred !in c.headers
    ensures var n := c.resolve(e.succ);
            dist.weights == old(dist.weights) + if ok then [Weight(KindOf(c, n), n, AtLeastOne(e.weight))] else []
    ensures ok ==>
              var w := dist.weights[|dist.weights| - 1];
              && w.target == c.resolve(e.succ) && w.amount == (if e.weight == 0 then 1 else e.weight)
              && w.kind == if w.target in c.headers then Backedge else if c.inside(w.target) then Local else Exit
    ensures dist.sum == old(dist.sum) + if ok then AtLeastOne(e.weight) else 0
  {
    var weight := AtLeastOne(e.weight);
    var resolved := c.resolve(e.succ);
    if IsHeader(c, resolved) {
      dist.Add(resolved, weight, Backedge);
      return true;
    }
    if !c.inside(resolved) {
      dist.Add(resolved, weight, Exit);
      return true;
    }
    if resolved < pred {
      if !IsHeader(c, pred) {
        assert |c.headers| <= 1;
        return false;
      }
      assert |c.headers| > 1 && !IsHeader(c, resolved);
    }
    dist.Add(resolved, weight, Local);
    return true;
  }

  /** The first part of propagateMassToSuccessors: the edges of a block, or the exits of a packaged loop. */
  method CollectEdges(dist: Distribution, c: Context, pred: Node, edges: seq<Edge>) returns (ok: bool)
    requires dist.Open() && dist.weights == [] && dist.sum == 0 && Manageable(edges)
    requires forall k :: 0 <= k < |edges| ==> Handled(c, pred, c.resolve(edges[k].succ))
    modifies dist
    ensures dist.Open() && KindsAre(c, dist.weights)
    ensures ok <==> forall k :: 0 <= k < |edges| ==> !Aborts(c, pred, c.resolve(edges[k].succ))
    ensures ok ==> dist.weights == WeightsOf(c, edges) && dist.sum == EdgeSum(edges)
  {
    hide Aborts, Handled, KindOf;
    assert edges[..0] == [];
    for i := 0 to |edges|
      invariant dist.Open() && KindsAre(c, dist.weights)
      invariant forall k :: 0 <= k < i ==> !Aborts(c, pred, c.resolve(edges[k].succ))
      invariant dist.weights == WeightsOf(c, edges[..i]) && dist.sum == EdgeSum(edges[..i])
    {
      EdgesNext(c, edges, i);
      var more := AddToDist(dist, c, pred, edges[i]);
      if !more {
        return false;
      }
    }
    assert edges[..|edges|] == edges;
    return true;
  }

  lemma EdgesNext(c: Context, edges: seq<Edge>, i: nat)
    requires i < |edges| && Manageable(edges)
    ensures var n := c.resolve(edges[i].succ);
            WeightsOf(c, edges[..i + 1]) == WeightsOf(c, edges[..i]) + [Weight(KindOf(c, n), n, AtLeastOne(edges[i].weight))]
    ensures EdgeSum(edges[..i + 1]) == EdgeSum(edges[..i]) + AtLeastOne(edges[i].weight) < TWO65
  {
    assert edges[..i + 1][..i] == edges[..i];
    PrefixSum(edges, i + 1);
  }

  lemma {:induction false} PrefixSum(edges: seq<Edge>, i: nat)
    requires i <= |edges|
    ensures EdgeSum(edges[..i]) <= EdgeSum(edges)
    decreases |edges|
  {
    if i == |edges| {
      assert edges[..i] == edges;
    } else {
      var rest := edges[..|edges| - 1];
      assert rest[..i] == edges[..i];
      PrefixSum(rest, i);
    }
  }

  // ---------- distributeMass ----------

  /** The masses of blocks or the packages that they stand for, what flows back to headers, and what leaves. */
  datatype Ledger = Ledger(mass: map<Node, nat>, back: map<Node, nat>, exits: seq<(Node, nat)>)

  function Get(m: map<Node, nat>, n: Node): nat { if n in m then m[n] else 0 }

  function Credit(l: Ledger, w: Weight, taken: nat): Ledger {
    match w.kind
    case Local => l.(mass := l.mass[w.target := Plus(Get(l.mass, w.target), taken)])
    case Backedge => l.(back := l.back[w.target := Plus(Get(l.back, w.target), taken)])
    case Exit => l.(exits := l.exits + [(w.target, taken)])
  }

  function CreditAll(l: Ledger, ws: seq<Weight>, ms: seq<nat>): Ledger
    requires |ws| == |ms|
    decreases |ws|
  {
    if ws == [] then l else CreditAll(Credit(l, ws[0], ms[0]), ws[1..], ms[1..])
  }

  function Over(m: map<Node, nat>, ns: seq<Node>): nat {
    if ns == [] then 0 else Get(m, ns[0]) + Over(m, ns[1..])
  }

  function Leaving(exits: seq<(Node, nat)>): nat {
    if exits == [] then 0 else Leaving(exits[..|exits| - 1]) + exits[|exits| - 1].1
  }

  /** Mass of the blocks still to be visited, and mass that has come back or left. */
  function Outstanding(l: Ledger, unvisited: seq<Node>, headers: seq<Node>): nat {
    Over(l.mass, unvisited) + Over(l.back, headers) + Leaving(l.exits)
  }

  ghost predicate NoTwice(ns: seq<Node>) { forall i, j :: 0 <= i < j < |ns| ==> ns[i] != ns[j] }

  lemma {:induction false} OverPut(m: map<Node, nat>, ns: seq<Node>, n: Node, x: nat)
    requires NoTwice(ns)
    ensures Over(m[n := x], ns) == Over(m, ns) + if n in ns then x - Get(m, n) else 0
    decreases |ns|
  {
    if ns != [] {
      OverPut(m, ns[1..], n, x);
      assert forall i :: 1 <= i < |ns| ==> ns[1..][i - 1] == ns[i];
    }
  }

  lemma {:induction false} OverHas(m: map<Node, nat>, ns: seq<Node>, n: Node)
    requires n in ns
    ensures Get(m, n) <= Over(m, ns)
    decreases |ns|
  {
    if ns[0] != n {
      OverHas(m, ns[1..], n);
    }
  }

  /** Weights lead to blocks still to be visited, to headers, or out. */
  ghost predicate Ahead(ws: seq<Weight>, unvisited: seq<Node>, headers: seq<Node>) {
    forall w :: w in ws ==> (w.kind == Local ==> w.target in unvisited) && (w.kind == Backedge ==> w.target in headers)
  }

  /** One credit adds its mass to what is outstanding, as long as that is no more than the full mass. */
  lemma CreditConserves(l: Ledger, w: Weight, taken: nat, unvisited: seq<Node>, headers: seq<Node>)
    requires NoTwice(unvisited) && NoTwice(headers) && Ahead([w], unvisited, headers)
    requires Outstanding(l, unvisited, headers) + taken <= MAX64
    ensures Outstanding(Credit(l, w, taken), unvisited, headers) == Outstanding(l, unvisited, headers) + taken
  {
    assert w in [w];
    match w.kind
    case Local =>
      OverHas(l.mass, unvisited, w.target);
      OverPut(l.mass, unvisited, w.target, Plus(Get(l.mass, w.target), taken));
    case Backedge =>
      OverHas(l.back, headers, w.target);
      OverPut(l.back, headers, w.target, Plus(Get(l.back, w.target), taken));
    case Exit =>
      assert (l.exits + [(w.target, taken)])[..|l.exits|] == l.exits;
  }

  lemma {:induction false} CreditAllConserves(l: Ledger, ws: seq<Weight>, ms: seq<nat>, unvisited: seq<Node>, headers: seq<Node>)
    requires |ws| == |ms| && NoTwice(unvisited) && NoTwice(headers) && Ahead(ws, unvisited, headers)
    requires Outstanding(l, unvisited, headers) + Sum(ms) <= MAX64
    ensures Outstanding(CreditAll(l, ws, ms), unvisited, headers) == Outstanding(l, unvisited, headers) + Sum(ms)
    decreases |ws|
  {
    if ws != [] {
      hide Outstanding, NoTwice;
      assert ws[0] in ws && forall w :: w in ws[1..] ==> w in ws;
      CreditConserves(l, ws[0], ms[0], unvisited, headers);
      CreditAllConserves(Credit(l, ws[0], ms[0]), ws[1..], ms[1..], unvisited, headers);
    }
  }

  /** What has flowed back is at headers, what has left is at blocks outside, and the rest at blocks of the loop. */
  ghost predicate RightPlaces(c: Context, l: Ledger) {
    && (forall n :: n in l.back ==> n in c.headers)
    && (forall e :: e in l.exits ==> e.0 !in c.headers && !c.inside(e.0))
    && (forall n :: n in l.mass ==> n in c.headers || c.inside(n))
  }

  lemma {:induction false} CreditAllRight(c: Context, l: Ledger, ws: seq<Weight>, ms: seq<nat>)
    requires |ws| == |ms| && RightPlaces(c, l) && forall w :: w in ws ==> w.kind == KindOf(c, w.target)
    ensures RightPlaces(c, CreditAll(l, ws, ms))
    decreases |ws|
  {
    if ws != [] {
      assert ws[0] in ws && forall w :: w in ws[1..] ==> w in ws;
      CreditRight(c, l, ws[0], ms[0]);
      hide RightPlaces, Credit, KindOf;
      CreditAllRight(c, Credit(l, ws[0], ms[0]), ws[1..], ms[1..]);
    }
  }

  lemma StartRight(c: Context, n: Node)
    requires n in c.headers
    ensures RightPlaces(c, Ledger(map[n := MAX64], map[], []))
  {
  }

  lemma PlacesAre(c: Context, l: Ledger)
    requires RightPlaces(c, l)
    ensures (forall n :: n in l.back ==> n in c.headers) && forall e :: e in l.exits ==> e.0 !in c.headers && !c.inside(e.0)
  {
  }

  lemma CreditRight(c: Context, l: Ledger, w: Weight, taken: nat)
    requires RightPlaces(c, l) && w.kind == KindOf(c, w.target)
    ensures RightPlaces(c, Credit(l, w, taken))
  {
  }

  /** What no weight leads to is credited with nothing. */
  lemma {:induction false} CreditElsewhere(l: Ledger, ws: seq<Weight>, ms: seq<nat>, n: Node)
    requires |ws| == |ms| && forall w :: w in ws ==> w.target != n
    ensures var l' := CreditAll(l, ws, ms); Get(l'.mass, n) == Get(l.mass, n) && Get(l'.back, n) == Get(l.back, n)
    decreases |ws|
  {
    if ws != [] {
      assert ws[0] in ws && forall w :: w in ws[1..] ==> w in ws;
      CreditElsewhere(Credit(l, ws[0], ms[0]), ws[1..], ms[1..], n);
    }
  }

  lemma {:induction false} ExitsKept(l: Ledger, ws: seq<Weight>, ms: seq<nat>, e: (Node, nat))
    requires |ws| == |ms| && e in l.exits
    ensures e in CreditAll(l, ws, ms).exits
    decreases |ws|
  {
    if ws != [] {
      ExitsKept(Credit(l, ws[0], ms[0]), ws[1..], ms[1..], e);
    }
  }

  /** Every target is credited with the portion of its weight. */
  lemma {:induction false} CreditAt(l: Ledger, ws: seq<Weight>, ms: seq<nat>, k: nat)
    requires |ws| == |ms| && k < |ws| && forall i, j :: 0 <= i < j < |ws| ==> ws[i].target != ws[j].target
    ensures var l', n := CreditAll(l, ws, ms), ws[k].target;
            match ws[k].kind
            case Local => Get(l'.mass, n) == Sat(Get(l.mass, n) + ms[k])
            case Backedge => Get(l'.back, n) == Sat(Get(l.back, n) + ms[k])
            case Exit => (n, ms[k]) in l'.exits
    decreases |ws|
  {
    var l1, rest, n := Credit(l, ws[0], ms[0]), ws[1..], ws[k].target;
    if k == 0 {
      CreditElsewhere(l1, rest, ms[1..], n);
      if ws[0].kind == Exit {
        ExitsKept(l1, rest, ms[1..], (n, ms[0]));
      }
    } else {
      CreditAt(l1, rest, ms[1..], k - 1);
      hide CreditAll;
    }
  }

  // ---------- A loop ----------

  /** The members of a loop are numbered in order, and no member that is not a header has an edge to itself. */
  ghost predicate WellFormed(c: Context, nodes: seq<Node>, edges: map<Node, seq<Edge>>) {
    && nodes != [] && c.headers == [nodes[0]]
    && (forall i, j :: 0 <= i < j < |nodes| ==> nodes[i] < nodes[j])
    && (forall i :: 0 <= i < |nodes| ==> nodes[i] in edges && edges[nodes[i]] != [] && Manageable(edges[nodes[i]]))
    && (forall i, k :: 0 <= i < |nodes| && 0 <= k < |edges[nodes[i]]| ==>
          EdgeOk(c, nodes, nodes[i], c.resolve(edges[nodes[i]][k].succ)))
  }

  /** A local edge leads to another member of the loop. */
  ghost predicate EdgeOk(c: Context, nodes: seq<Node>, pred: Node, resolved: Node) {
    KindOf(c, resolved) == Local ==> resolved in nodes && resolved != pred
  }

  /** Full mass for ExitMass of zero, and otherwise one over the mass, as toScaled gives it. */
  function ToScaled(mass: nat): real {
    if mass == MAX64 then 1.0 else (mass + 1) as real / TWO64 as real
  }

  const INFINITE_LOOP_SCALE: real := 4096.0

  function LoopScale(exitMass: nat): real {
    if exitMass == 0 then INFINITE_LOOP_SCALE else 1.0 / ToScaled(exitMass)
  }

  /** The scale is the inverse of the share that a mass has of the full mass, of which each unit is one in 2^64. */
  lemma ScaleIs(mass: nat)
    requires mass <= MAX64
    ensures if mass == 0 then LoopScale(mass) == 4096.0 else LoopScale(mass) * ((mass + 1) as real) == TWO64 as real
  {
    if 0 < mass < MAX64 {
      Inverse((mass + 1) as real, TWO64 as real);
    }
  }

  lemma Inverse(a: real, b: real)
    requires a > 0.0 && b > 0.0
    ensures a / b > 0.0 && 1.0 / (a / b) * a == b
  {
    var q := a / b;
    assert q * b == a;
    assert q > 0.0;
    var r := 1.0 / q;
    assert r * q == 1.0;
    assert r * a == r * (q * b) == (r * q) * b == b;
  }

  class LoopData {
    const nodes: seq<Node>
    const context: Context
    const scaler: Scale
    var mass: map<Node, nat>
    var backedgeMass: map<Node, nat>
    var exits: seq<(Node, nat)>
    var scale: real

    constructor (ns: seq<Node>, c: Context, s: Scale)
      ensures nodes == ns && context == c && scaler == s
      ensures Books() == Ledger(map[], map[], [])
    {
      nodes, context, scaler := ns, c, s;
      mass, backedgeMass, exits, scale := map[], map[], [], 0.0;
    }

    ghost function Books(): Ledger
      reads this
    {
      Ledger(mass, backedgeMass, exits)
    }

    /** distributeMass: every portion is credited to its target. */
    method DistributeMass(source: Node, dist: Distribution)
      requires dist.Open() && Fair(scaler)
      requires |dist.weights| < 0x8000_0000 && dist.sum + |dist.weights| * TWO33 < TWO65
      modifies this`mass, this`backedgeMass, this`exits, dist
      ensures dist.weights == [] <==> old(dist.weights) == []
      ensures forall n {:trigger Targets(dist.weights, n)} :: Targets(old(dist.weights), n) <==> Targets(dist.weights, n)
      ensures forall x, w :: x in dist.weights && w in old(dist.weights) && x.target == w.target ==> x.kind == w.kind
      ensures |Portions(scaler, dist.weights, SumAll(dist.weights), Get(old(mass), source))| == |dist.weights|
      ensures old(dist.weights) != [] ==> Sum(Portions(scaler, dist.weights, SumAll(dist.weights), Get(old(mass), source))) == Get(old(mass), source)
      ensures Books() == CreditAll(old(Books()), dist.weights, Portions(scaler, dist.weights, SumAll(dist.weights), Get(old(mass), source)))
    {
      hide Fair, SumAll, Distinct;
      ghost var l0 := Books();
      var m := Get(mass, source);
      ghost var before := dist.weights;
      var d := new DitheringDistributer(dist, m, scaler);
      var ws := dist.weights;
      CountTargets(before, ws);
      if ws == [] {
        return;
      }
      DrainsAll(scaler, ws, m);
      HandOut(ws, d, Portions(scaler, ws, SumAll(ws), m));
    }

    /** The loop of distributeMass. */
    method HandOut(ws: seq<Weight>, d: DitheringDistributer, ghost ps: seq<nat>)
      requires d.remWeight == SumAll(ws) && ps == Portions(d.scale, ws, SumAll(ws), d.remMass) && |ps| == |ws|
      requires forall w :: w in ws ==> w.amount >= 1
      modifies this`mass, this`backedgeMass, this`exits, d
      ensures Books() == CreditAll(old(Books()), ws, ps)
    {
      hide SumAll;
      ghost var l0 := Books();
      assert ws[0..] == ws && ps[0..] == ps;
      var i := 0;
      while i < |ws|
        invariant 0 <= i <= |ws| == |ps|
        invariant d.remWeight == SumAll(ws[i..])
        invariant ps[i..] == Portions(d.scale, ws[i..], d.remWeight, d.remMass)
        invariant CreditAll(Books(), ws[i..], ps[i..]) == CreditAll(l0, ws, ps)
      {
        var w := ws[i];
        NextPortion(d.scale, ws, ps, i, d.remWeight, d.remMass, Books());
        var taken := d.TakeMass(w.amount);
        match w.kind {
          case Local => mass := mass[w.target := Plus(Get(mass, w.target), taken)];
          case Backedge => backedgeMass := backedgeMass[w.target := Plus(Get(backedgeMass, w.target), taken)];
          case Exit => exits := exits + [(w.target, taken)];
        }
        i := i + 1;
      }
      assert ws[i..] == [] && ps[i..] == [];
    }

    /** propagateMassToSuccessors. */
    method PropagateMassToSuccessors(node: Node, edges: seq<Edge>) returns (ok: bool)
      requires Fair(scaler) && Manageable(edges)
      requires forall k :: 0 <= k < |edges| ==> Handled(context, node, context.resolve(edges[k].succ))
      modifies this`mass, this`backedgeMass, this`exits
      ensures ok <==> forall k :: 0 <= k < |edges| ==> !Aborts(context, node, context.resolve(edges[k].succ))
      ensures !ok ==> Books() == old(Books())
      ensures ok && edges != [] ==> Delivers(context, edges, old(Books()), Books(), Get(old(mass), node))
    {
      hide Fair, Aborts, Handled, Manageable, SumAll, Portions, KindsAre, WeightsOf, Delivers;
      var dist := new Distribution();
      ok := CollectEdges(dist, context, node, edges);
      if !ok {
        return;
      }
      WeightsCount(context, edges);
      assert Manageable(edges);
      ManageableParts(edges);
      ghost var before := dist.weights;
      ghost var l0, m := Books(), Get(mass, node);
      DistributeMass(node, dist);
      if edges != [] {
        DeliveredIs(context, edges, l0, Books(), m, dist.weights, before, Portions(scaler, dist.weights, SumAll(dist.weights), m));
      }
    }

    /** One turn of computeMassInLoop: the mass of member i goes to later members, back to the header, or out. */
    method VisitMember(edges: map<Node, seq<Edge>>, i: nat) returns (ok: bool)
      requires Fair(scaler) && WellFormed(context, nodes, edges) && i < |nodes| && nodes[i] in edges
      requires Outstanding(Books(), nodes[i..], context.headers) == MAX64 && RightPlaces(context, Books())
      modifies this`mass, this`backedgeMass, this`exits
      ensures ok <==> forall k :: 0 <= k < |edges[nodes[i]]| ==> !Aborts(context, nodes[i], context.resolve(edges[nodes[i]][k].succ))
      ensures ok ==> Outstanding(Books(), nodes[i + 1..], context.headers) == MAX64 && RightPlaces(context, Books())
    {
      hide Fair, Aborts, Manageable, Delivers, WellFormed, Outstanding, RightPlaces;
      ghost var l := Books();
      Visit(context, nodes, edges, i);
      ok := PropagateMassToSuccessors(nodes[i], edges[nodes[i]]);
      if ok {
        DeliverConserves(context, nodes, edges, i, l, Books());
        DeliverRight(context, edges[nodes[i]], l, Books(), Get(l.mass, nodes[i]));
      }
    }

    /** computeMassInLoop, of a loop with one header: false if it has to be retried because of irreducible edges. */
    method ComputeMassInLoop(edges: map<Node, seq<Edge>>) returns (ok: bool)
      requires Fair(scaler) && WellFormed(context, nodes, edges) && Books() == Ledger(map[], map[], [])
      modifies this
      ensures ok <==> forall i, k :: 1 <= i < |nodes| && 0 <= k < |edges[nodes[i]]| ==>
                        !Aborts(context, nodes[i], context.resolve(edges[nodes[i]][k].succ))
      ensures ok ==> Get(backedgeMass, nodes[0]) + Leaving(exits) == MAX64
      ensures ok ==> (forall e :: e in exits ==> e.0 !in context.headers && !context.inside(e.0)) && forall n :: n in backedgeMass ==> n in context.headers
      ensures ok ==> if Leaving(exits) == 0 then scale == 4096.0 else scale * ((Leaving(exits) + 1) as real) == TWO64 as real
    {
      hide Fair, Aborts, Manageable, WellFormed, Outstanding, RightPlaces;
      assert nodes != [] && context.headers == [nodes[0]] by { Parts(context, nodes, edges); }
      mass := mass[nodes[0] := MAX64];
      Order(context, nodes, edges);
      assert forall j :: 0 <= j < |nodes| ==> nodes[j] in edges by { HaveEdges(context, nodes, edges); }
      FirstMass(nodes);
      StartRight(context, nodes[0]);
      ghost var headers := context.headers;
      assert nodes[0..] == nodes;
      ok := VisitMember(edges, 0);
      HeaderNeverAborts(context, nodes, edges);
      for i := 1 to |nodes|
        invariant Outstanding(Books(), nodes[i..], headers) == MAX64 && RightPlaces(context, Books())
        invariant forall j :: 0 <= j < |nodes| ==> nodes[j] in edges
        invariant forall j, k :: 1 <= j < i && 0 <= k < |edges[nodes[j]]| ==>
                    !Aborts(context, nodes[j], context.resolve(edges[nodes[j]][k].succ))
      {
        var more := VisitMember(edges, i);
        if !more {
          return false;
        }
      }
      AllVisited(Books(), nodes, headers);
      PlacesAre(context, Books());
      ComputeLoopScale();
      return true;
    }

    /** computeLoopScale: the scale times the share of the full mass that does not flow back is 1. */
    method ComputeLoopScale()
      modifies this`scale
      ensures var left := MAX64 - Over(backedgeMass, context.headers);
              if left <= 0 then scale == 4096.0 else scale * ((left + 1) as real) == TWO64 as real
    {
      hide LoopScale;
      var totalBackedgeMass := 0;
      OverPrefix(backedgeMass, context.headers, 0);
      for i := 0 to |context.headers|
        invariant totalBackedgeMass == Sat(Over(backedgeMass, context.headers[..i]))
      {
        OverPrefix(backedgeMass, context.headers, i);
        totalBackedgeMass := Plus(totalBackedgeMass, Get(backedgeMass, context.headers[i]));
      }
      assert context.headers[..|context.headers|] == context.headers;
      var exitMass := Minus(MAX64, totalBackedgeMass);
      ScaleIs(exitMass);
      scale := LoopScale(exitMass);
    }
  }

  lemma OverPrefix(m: map<Node, nat>, ns: seq<Node>, i: nat)
    requires i <= |ns|
    ensures i == 0 ==> Over(m, ns[..i]) == 0
    ensures i < |ns| ==> Over(m, ns[..i + 1]) == Over(m, ns[..i]) + Get(m, ns[i])
  {
    if i < |ns| {
      assert ns[..i + 1] == ns[..i] + [ns[i]];
      OverLast(m, ns[..i], ns[i]);
    }
  }

  lemma {:induction false} OverLast(m: map<Node, nat>, ns: seq<Node>, n: Node)
    ensures Over(m, ns + [n]) == Over(m, ns) + Get(m, n)
    decreases |ns|
  {
    if ns == [] {
      assert [] + [n] == [n] && [n][1..] == [];
    } else {
      assert (ns + [n])[1..] == ns[1..] + [n];
      OverLast(m, ns[1..], n);
    }
  }

  /** After crediting the mass of a block to the targets of its edges. */
  ghost predicate Delivers(c: Context, edges: seq<Edge>, l: Ledger, l': Ledger, m: nat) {
    exists ws: seq<Weight>, ps: seq<nat> ::
      && |ws| == |ps| && Sum(ps) == m && l' == CreditAll(l, ws, ps)
      && TargetsOf(c, edges, ws)
  }

  /** Weights lead to targets of edges, and are of their kind. */
  ghost predicate TargetsOf(c: Context, edges: seq<Edge>, ws: seq<Weight>) {
    forall w :: w in ws ==> w.kind == KindOf(c, w.target) && exists k :: 0 <= k < |edges| && c.resolve(edges[k].succ) == w.target
  }

  lemma {:induction false} WeightsOfTargets(c: Context, edges: seq<Edge>)
    ensures TargetsOf(c, edges, WeightsOf(c, edges))
    decreases |edges|
  {
    if edges != [] {
      var k := |edges| - 1;
      hide KindOf;
      WeightsOfTargets(c, edges[..k]);
      var ws := WeightsOf(c, edges);
      forall w | w in ws
        ensures w.kind == KindOf(c, w.target) && exists j :: 0 <= j < |edges| && c.resolve(edges[j].succ) == w.target
      {
        if w in WeightsOf(c, edges[..k]) {
          var j :| 0 <= j < k && c.resolve(edges[..k][j].succ) == w.target;
          assert c.resolve(edges[j].succ) == w.target;
        } else {
          assert c.resolve(edges[k].succ) == w.target;
        }
      }
    }
  }

  lemma {:induction false} WeightsCount(c: Context, edges: seq<Edge>)
    ensures |WeightsOf(c, edges)| == |edges|
    decreases |edges|
  {
    if edges != [] {
      WeightsCount(c, edges[..|edges| - 1]);
    }
  }

  lemma ManageableParts(edges: seq<Edge>)
    requires Manageable(edges)
    ensures |edges| < 0x8000_0000 && EdgeSum(edges) + |edges| * TWO33 < TWO65
  {
  }

  lemma DeliveredIs(c: Context, edges: seq<Edge>, l: Ledger, l': Ledger, m: nat, ws: seq<Weight>, before: seq<Weight>, ps: seq<nat>)
    requires before == WeightsOf(c, edges) && |ws| == |ps| && Sum(ps) == m && l' == CreditAll(l, ws, ps)
    requires forall n {:trigger Targets(ws, n)} :: Targets(before, n) <==> Targets(ws, n)
    requires forall x, w :: x in ws && w in before && x.target == w.target ==> x.kind == w.kind
    ensures Delivers(c, edges, l, l', m)
  {
    hide CreditAll, WeightsOf, KindOf;
    WeightsOfTargets(c, edges);
    forall x | x in ws
      ensures x.kind == KindOf(c, x.target) && exists k :: 0 <= k < |edges| && c.resolve(edges[k].succ) == x.target
    {
      assert Targets(ws, x.target);
      assert Targets(before, x.target);
      var w :| w in before && w.target == x.target;
    }
    assert TargetsOf(c, edges, ws);
  }

  lemma {:induction false} ManyTargets(ws: seq<Weight>)
    requires Distinct(ws)
    ensures |TargetSet(ws)| == |ws|
    decreases |ws|
  {
    if ws != [] {
      var k := |ws| - 1;
      ManyTargets(ws[..k]);
      assert ws == ws[..k] + [ws[k]];
      assert TargetSet(ws) == TargetSet(ws[..k]) + {ws[k].target};
      assert ws[k].target !in TargetSet(ws[..k]);
    }
  }

  lemma Subset(a: set<Node>, b: set<Node>)
    requires a <= b
    ensures |a| <= |b|
  {
    assert b == a + (b - a);
  }

  /** Normalizing does not make weights more. */
  lemma CountTargets(before: seq<Weight>, ws: seq<Weight>)
    requires ws != [] ==> Distinct(ws)
    requires forall n {:trigger Targets(ws, n)} :: Targets(before, n) <==> Targets(ws, n)
    ensures |ws| <= |before|
  {
    if ws != [] {
      ManyTargets(ws);
      FewTargets(before);
      forall n | n in TargetSet(ws)
        ensures n in TargetSet(before)
      {
        assert Targets(ws, n);
        assert Targets(before, n);
      }
      Subset(TargetSet(ws), TargetSet(before));
    }
  }

  lemma NextPortion(scale: Scale, ws: seq<Weight>, ps: seq<nat>, i: nat, rem: nat, m: nat, l: Ledger)
    requires i < |ws| == |ps| && rem == SumAll(ws[i..]) && ps[i..] == Portions(scale, ws[i..], rem, m)
    requires forall w :: w in ws ==> w.amount >= 1
    ensures 0 < ws[i].amount <= rem && ps[i] == scale(m, ws[i].amount, rem)
    ensures Minus(rem, ws[i].amount) == SumAll(ws[i + 1..])
    ensures ps[i + 1..] == Portions(scale, ws[i + 1..], Minus(rem, ws[i].amount), Minus(m, ps[i]))
    ensures CreditAll(l, ws[i..], ps[i..]) == CreditAll(Credit(l, ws[i], ps[i]), ws[i + 1..], ps[i + 1..])
  {
    hide Credit, Minus;
    assert ws[i..][1..] == ws[i + 1..] && ps[i..][1..] == ps[i + 1..];
    assert ws[i..][0] == ws[i] && ps[i..][0] == ps[i];
    FirstRest(ws[i..]);
    MinusIs(rem, ws[i].amount, SumAll(ws[i + 1..]));
  }

  lemma MinusIs(a: nat, b: nat, c: nat)
    requires a == b + c
    ensures Minus(a, b) == c
  {
  }

  lemma Parts(c: Context, nodes: seq<Node>, edges: map<Node, seq<Edge>>)
    requires WellFormed(c, nodes, edges)
    ensures nodes != [] && c.headers == [nodes[0]]
  {
  }

  lemma HaveEdges(c: Context, nodes: seq<Node>, edges: map<Node, seq<Edge>>)
    requires WellFormed(c, nodes, edges)
    ensures forall j :: 0 <= j < |nodes| ==> nodes[j] in edges
  {
  }

  lemma Visit(c: Context, nodes: seq<Node>, edges: map<Node, seq<Edge>>, i: nat)
    requires WellFormed(c, nodes, edges) && i < |nodes|
    ensures nodes[i] in edges && edges[nodes[i]] != [] && Manageable(edges[nodes[i]])
    ensures forall k :: 0 <= k < |edges[nodes[i]]| ==> Handled(c, nodes[i], c.resolve(edges[nodes[i]][k].succ))
  {
    hide Manageable;
    forall k | 0 <= k < |edges[nodes[i]]|
      ensures Handled(c, nodes[i], c.resolve(edges[nodes[i]][k].succ))
    {
      assert EdgeOk(c, nodes, nodes[i], c.resolve(edges[nodes[i]][k].succ));
      assert forall j :: 0 < j < |nodes| ==> nodes[0] < nodes[j];
    }
  }

  lemma HeaderNeverAborts(c: Context, nodes: seq<Node>, edges: map<Node, seq<Edge>>)
    requires WellFormed(c, nodes, edges) && nodes != [] && nodes[0] in edges
    ensures forall k :: 0 <= k < |edges[nodes[0]]| ==> !Aborts(c, nodes[0], c.resolve(edges[nodes[0]][k].succ))
  {
  }

  lemma {:induction false} OverElsewhere(ns: seq<Node>, n: Node, x: nat)
    requires n !in ns
    ensures Over(map[n := x], ns) == 0
  {
    if ns != [] {
      OverElsewhere(ns[1..], n, x);
    }
  }

  lemma FirstMass(nodes: seq<Node>)
    requires nodes != [] && forall i, j :: 0 <= i < j < |nodes| ==> nodes[i] < nodes[j]
    ensures Outstanding(Ledger(map[nodes[0] := MAX64], map[], []), nodes, [nodes[0]]) == MAX64
  {
    assert nodes[0] !in nodes[1..];
    OverElsewhere(nodes[1..], nodes[0], MAX64);
    OverSingle(map[], nodes[0]);
  }

  lemma Order(c: Context, nodes: seq<Node>, edges: map<Node, seq<Edge>>)
    requires WellFormed(c, nodes, edges)
    ensures nodes != [] && (forall i, j :: 0 <= i < j < |nodes| ==> nodes[i] < nodes[j])
  {
  }

  lemma LaterIndex(nodes: seq<Node>, i: nat, j: nat)
    requires i < |nodes| && j < |nodes| && nodes[j] > nodes[i]
    requires forall h, k :: 0 <= h < k < |nodes| ==> nodes[h] < nodes[k]
    ensures j > i
  {
  }

  lemma OverSingle(m: map<Node, nat>, n: Node)
    ensures Over(m, [n]) == Get(m, n)
  {
    assert [n][1..] == [];
  }

  /** The targets of a member's edges are later members, the header, or outside. */
  lemma TargetsAhead(c: Context, nodes: seq<Node>, edges: map<Node, seq<Edge>>, i: nat, ws: seq<Weight>)
    requires WellFormed(c, nodes, edges) && i < |nodes| && nodes[i] in edges && TargetsOf(c, edges[nodes[i]], ws)
    requires forall k :: 0 <= k < |edges[nodes[i]]| ==> !Aborts(c, nodes[i], c.resolve(edges[nodes[i]][k].succ))
    ensures Ahead(ws, nodes[i + 1..], c.headers)
  {
    hide Manageable;
    forall w | w in ws
      ensures w.kind == Local ==> w.target in nodes[i + 1..]
      ensures w.kind == Backedge ==> w.target in c.headers
    {
      var k :| 0 <= k < |edges[nodes[i]]| && c.resolve(edges[nodes[i]][k].succ) == w.target;
      assert EdgeOk(c, nodes, nodes[i], w.target);
      if w.kind == Local {
        var j :| 0 <= j < |nodes| && nodes[j] == w.target;
        if i > 0 {
          assert !IsHeader(c, nodes[i]) by { assert nodes[0] < nodes[i]; }
          assert nodes[j] > nodes[i];
          LaterIndex(nodes, i, j);
        }
        assert nodes[i + 1..][j - i - 1] == w.target;
      }
    }
  }

  lemma DeliverRight(c: Context, edges: seq<Edge>, l: Ledger, l': Ledger, m: nat)
    requires RightPlaces(c, l) && Delivers(c, edges, l, l', m)
    ensures RightPlaces(c, l')
  {
    hide RightPlaces, CreditAll, KindOf;
    var ws, ps :| |ws| == |ps| && Sum(ps) == m && l' == CreditAll(l, ws, ps) && TargetsOf(c, edges, ws);
    CreditAllRight(c, l, ws, ps);
  }

  /** Visiting a member keeps the mass of the later members, what has come back and what has left at the full mass. */
  lemma DeliverConserves(c: Context, nodes: seq<Node>, edges: map<Node, seq<Edge>>, i: nat, l: Ledger, l': Ledger)
    requires WellFormed(c, nodes, edges) && i < |nodes| && nodes[i] in edges
    requires Outstanding(l, nodes[i..], c.headers) == MAX64 && Delivers(c, edges[nodes[i]], l, l', Get(l.mass, nodes[i]))
    requires forall k :: 0 <= k < |edges[nodes[i]]| ==> !Aborts(c, nodes[i], c.resolve(edges[nodes[i]][k].succ))
    ensures Outstanding(l', nodes[i + 1..], c.headers) == MAX64
  {
    hide Aborts, TargetsOf, CreditAll;
    var ws, ps :| |ws| == |ps| && Sum(ps) == Get(l.mass, nodes[i]) && l' == CreditAll(l, ws, ps) && TargetsOf(c, edges[nodes[i]], ws);
    TargetsAhead(c, nodes, edges, i, ws);
    Order(c, nodes, edges);
    Parts(c, nodes, edges);
    hide WellFormed;
    assert nodes[i..][1..] == nodes[i + 1..];
    CreditAllConserves(l, ws, ps, nodes[i + 1..], c.headers);
  }

  lemma AllVisited(l: Ledger, nodes: seq<Node>, headers: seq<Node>)
    requires nodes != [] && headers == [nodes[0]] && Outstanding(l, nodes[|nodes|..], headers) == MAX64
    ensures Get(l.back, nodes[0]) + Leaving(l.exits) == MAX64
    ensures Over(l.back, headers) + Leaving(l.exits) == MAX64
  {
    assert nodes[|nodes|..] == [];
    OverSingle(l.back, nodes[0]);
  }
}
