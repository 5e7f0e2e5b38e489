/**
 Irreducible loops: the explicit graph of a region, and the headers that are
 found for one of its strongly connected components.
 */
module BfiIrreducible {
  import opened BfiWeights
  import opened BfiLoop

  // ---------- The graph ----------

  /** Predecessors are kept in front of successors, in one list. */
  datatype IrrNode = IrrNode(numIn: nat, edges: seq<Node>)

  predicate NodeOk(x: IrrNode) { x.numIn <= |x.edges| }

  function Preds(x: IrrNode): seq<Node>
    requires NodeOk(x)
  {
    x.edges[..x.numIn]
  }

  function Succs(x: IrrNode): seq<Node>
    requires NodeOk(x)
  {
    x.edges[x.numIn..]
  }

  /** The lists hold the arcs: those into a block and those out of it. */
  ghost predicate Holds(nodes: map<Node, IrrNode>, arcs: set<(Node, Node)>, n: Node)
    requires n in nodes
  {
    NodeOk(nodes[n]) && forall p :: (p in Preds(nodes[n]) <==> (p, n) in arcs) && (p in Succs(nodes[n]) <==> (n, p) in arcs)
  }

  ghost predicate Represents(nodes: map<Node, IrrNode>, arcs: set<(Node, Node)>) {
    forall n {:trigger Holds(nodes, arcs, n)} :: n in nodes ==> Holds(nodes, arcs, n)
  }

  function WithArc(nodes: map<Node, IrrNode>, irr: Node, succ: Node): map<Node, IrrNode>
    requires irr in nodes && succ in nodes
  {
    var mid := nodes[irr := nodes[irr].(edges := nodes[irr].edges + [succ])];
    mid[succ := IrrNode(mid[succ].numIn + 1, [irr] + mid[succ].edges)]
  }

  lemma ArcLists(x: IrrNode, p: Node, n: Node, isFrom: bool, isTo: bool)
    requires NodeOk(x)
    ensures var mid := if isFrom then x.(edges := x.edges + [n]) else x;
            var y := if isTo then IrrNode(mid.numIn + 1, [p] + mid.edges) else mid;
            && NodeOk(y)
            && Preds(y) == (if isTo then [p] else []) + Preds(x)
            && Succs(y) == Succs(x) + if isFrom then [n] else []
  {
  }

  lemma ArcAdded(nodes: map<Node, IrrNode>, arcs: set<(Node, Node)>, irr: Node, succ: Node)
    requires Represents(nodes, arcs) && irr in nodes && succ in nodes
    ensures Represents(WithArc(nodes, irr, succ), arcs + {(irr, succ)}) && WithArc(nodes, irr, succ).Keys == nodes.Keys
  {
    var ns, as_ := WithArc(nodes, irr, succ), arcs + {(irr, succ)};
    forall n | n in ns
      ensures Holds(ns, as_, n)
    {
      assert Holds(nodes, arcs, n);
      ArcLists(nodes[n], irr, succ, n == irr, n == succ);
      hide Preds, Succs;
      forall p
        ensures p in Preds(ns[n]) <==> (p, n) in as_
        ensures p in Succs(ns[n]) <==> (n, p) in as_
      {
      }
    }
  }

  class IrreducibleGraph {
    var nodes: map<Node, IrrNode>
    /** The edges added so far that are inside the region and do not lead to one of its headers. */
    ghost var arcs: set<(Node, Node)>

    ghost predicate Valid()
      reads this
    {
      Represents(nodes, arcs)
    }

    constructor (members: set<Node>)
      ensures Valid() && nodes.Keys == members && arcs == {}
    {
      nodes := map n | n in members :: IrrNode(0, []);
      arcs := {};
    }

    /** addEdge; headers are those of the loop around the region. */
    method AddEdge(irr: Node, succ: Node, headers: seq<Node>)
      requires Valid() && irr in nodes
      modifies this
      ensures Valid() && nodes.Keys == old(nodes).Keys
      ensures arcs == old(arcs) + if succ in headers || succ !in nodes then {} else {(irr, succ)}
    {
      if succ in headers {
        return;
      }
      if succ !in nodes {
        return;
      }
      ArcAdded(nodes, arcs, irr, succ);
      hide Represents;
      nodes := nodes[irr := nodes[irr].(edges := nodes[irr].edges + [succ])];
      nodes := nodes[succ := IrrNode(nodes[succ].numIn + 1, [irr] + nodes[succ].edges)];
      arcs := arcs + {(irr, succ)};
    }
  }

  // ---------- Headers ----------

  ghost predicate GraphOk(nodes: map<Node, IrrNode>, scc: set<Node>) {
    (forall n :: n in nodes ==> NodeOk(nodes[n])) && scc <= nodes.Keys
  }

  /** A block of the component that can be entered from outside it. */
  ghost predicate Entry(nodes: map<Node, IrrNode>, scc: set<Node>, n: Node)
    requires GraphOk(nodes, scc)
  {
    n in scc && exists p :: p in Preds(nodes[n]) && p !in scc
  }

  /** Another block with an edge from an equal or later block that is not an entry. */
  ghost predicate Extra(nodes: map<Node, IrrNode>, scc: set<Node>, n: Node)
    requires GraphOk(nodes, scc)
  {
    n in scc && !Entry(nodes, scc, n) && exists p :: p in Preds(nodes[n]) && p >= n && !Entry(nodes, scc, p)
  }

  ghost predicate InOrder(ns: seq<Node>) { forall i, j :: 0 <= i < j < |ns| ==> ns[i] < ns[j] }

  method SortNodes(ns: seq<Node>) returns (s: seq<Node>)
    requires NoTwice(ns)
    ensures InOrder(s) && (forall n :: n in s <==> n in ns) && |s| == |ns|
  {
    s := [];
    for i := 0 to |ns|
      invariant InOrder(s) && |s| == i && forall n :: n in s <==> n in ns[..i]
    {
      var k := |s|;
      while k > 0 && s[k - 1] > ns[i]
        invariant 0 <= k <= |s|
        invariant forall j :: k <= j < |s| ==> s[j] > ns[i]
      {
        k := k - 1;
      }
      assert ns[i] !in ns[..i];
      assert k > 0 ==> s[k - 1] in s;
      InsertInOrder(s, ns[i], k);
      InsertMembers(s, ns[i], k);
      assert ns[..i + 1] == ns[..i] + [ns[i]];
      s := s[..k] + [ns[i]] + s[k..];
    }
    assert ns[..|ns|] == ns;
  }

  lemma InsertInOrder(s: seq<Node>, n: Node, k: nat)
    requires InOrder(s) && k <= |s| && (k > 0 ==> s[k - 1] < n) && forall j :: k <= j < |s| ==> s[j] > n
    ensures InOrder(s[..k] + [n] + s[k..])
  {
    var t := s[..k] + [n] + s[k..];
    forall i, j | 0 <= i < j < |t|
      ensures t[i] < t[j]
    {
      assert i < k ==> s[i] <= s[k - 1];
    }
  }

  lemma InsertMembers(s: seq<Node>, n: Node, k: nat)
    requires k <= |s|
    ensures forall m :: m in s[..k] + [n] + s[k..] <==> m in s || m == n
  {
    assert s == s[..k] + s[k..];
  }

  /** Whether some predecessor is outside the component. */
  method HasOutsidePred(x: IrrNode, scc: set<Node>) returns (b: bool)
    requires NodeOk(x)
    ensures b <==> exists p :: p in Preds(x) && p !in scc
  {
    for i := 0 to x.numIn
      invariant forall j :: 0 <= j < i ==> Preds(x)[j] in scc
    {
      if x.edges[i] !in scc {
        assert Preds(x)[i] == x.edges[i];
        return true;
      }
    }
    return false;
  }

  /** Whether some predecessor is not before n and not an entry. */
  method HasBackPred(x: IrrNode, n: Node, entries: set<Node>) returns (b: bool)
    requires NodeOk(x)
    ensures b <==> exists p :: p in Preds(x) && p >= n && p !in entries
  {
    for i := 0 to x.numIn
      invariant forall j :: 0 <= j < i ==> Preds(x)[j] < n || Preds(x)[j] in entries
    {
      var p := x.edges[i];
      if p < n {
        continue;
      }
      if p in entries {
        continue;
      }
      assert Preds(x)[i] == p;
      return true;
    }
    return false;
  }

  /** A part of what has been gone through is in a list, each block once. */
  ghost predicate Listed(ns: seq<Node>, seen: set<Node>, chosen: iset<Node>) {
    NoTwice(ns) && forall n :: n in ns <==> n in seen && n in chosen
  }

  lemma ListMore(ns: seq<Node>, seen: set<Node>, chosen: iset<Node>, n: Node)
    requires Listed(ns, seen, chosen) && n !in seen
    ensures Listed(if n in chosen then ns + [n] else ns, seen + {n}, chosen)
  {
  }

  ghost function Entries(nodes: map<Node, IrrNode>, scc: set<Node>): iset<Node>
    requires GraphOk(nodes, scc)
  {
    iset n: Node | Entry(nodes, scc, n)
  }

  ghost function AllHeaders(nodes: map<Node, IrrNode>, scc: set<Node>): iset<Node>
    requires GraphOk(nodes, scc)
  {
    iset n: Node | Entry(nodes, scc, n) || Extra(nodes, scc, n)
  }

  /** The entries, and of the blocks seen again those that are headers. */
  ghost predicate HeadersListed(headers: seq<Node>, entries: set<Node>, seen: set<Node>, all: iset<Node>) {
    NoTwice(headers) && forall n :: n in headers <==> n in entries || (n in seen && n in all)
  }

  lemma NodeThere(nodes: map<Node, IrrNode>, scc: set<Node>, n: Node)
    requires GraphOk(nodes, scc) && n in scc
    ensures n in nodes && NodeOk(nodes[n])
    ensures (exists p :: p in Preds(nodes[n]) && p !in scc) <==> n in Entries(nodes, scc)
  {
  }

  lemma ExtraIs(nodes: map<Node, IrrNode>, scc: set<Node>, n: Node, entries: set<Node>)
    requires GraphOk(nodes, scc) && n in scc && n !in entries && forall m :: m in entries <==> m in Entries(nodes, scc)
    ensures n in nodes && NodeOk(nodes[n])
    ensures (exists p :: p in Preds(nodes[n]) && p >= n && p !in entries) <==> n in AllHeaders(nodes, scc)
  {
    assert !Entry(nodes, scc, n);
    hide Entry;
    if p :| p in Preds(nodes[n]) && p >= n && p !in entries {
      assert p in Preds(nodes[n]) && p >= n && !Entry(nodes, scc, p);
    }
  }

  lemma EntriesInScc(nodes: map<Node, IrrNode>, scc: set<Node>)
    requires GraphOk(nodes, scc)
    ensures forall n :: n in Entries(nodes, scc) ==> n in scc && n in AllHeaders(nodes, scc)
    ensures forall n :: n in AllHeaders(nodes, scc) ==> n in scc
  {
  }

  lemma TwoEntries(nodes: map<Node, IrrNode>, scc: set<Node>, headers: seq<Node>)
    requires GraphOk(nodes, scc) && (forall n :: n in Entries(nodes, scc) ==> n in headers)
    requires exists a, b :: a != b && Entry(nodes, scc, a) && Entry(nodes, scc, b)
    ensures |headers| >= 2
  {
    var a, b :| a != b && Entry(nodes, scc, a) && Entry(nodes, scc, b);
    assert a in Entries(nodes, scc) && b in Entries(nodes, scc);
  }

  lemma {:induction false} SeqSet(ns: seq<Node>)
    requires NoTwice(ns)
    ensures |Members(ns)| == |ns|
    decreases |ns|
  {
    if ns != [] {
      var k := |ns| - 1;
      SeqSet(ns[..k]);
      assert ns[k] !in ns[..k];
      assert Members(ns) == Members(ns[..k]) + {ns[k]};
      assert ns[k] !in Members(ns[..k]);
    }
  }

  ghost function Members(ns: seq<Node>): set<Node> { set n | n in ns }

  lemma Everything(ns: seq<Node>, scc: set<Node>)
    requires NoTwice(ns) && |ns| == |scc| && forall n :: n in ns ==> n in scc
    ensures forall n :: n in scc ==> n in ns
  {
    SeqSet(ns);
    var s := Members(ns);
    assert s <= scc;
    assert scc == s + (scc - s);
    forall n | n in scc
      ensures n in ns
    {
      assert n !in scc - s;
    }
  }

  /** The first loop of findIrreducibleHeaders. */
  method CollectEntries(nodes: map<Node, IrrNode>, scc: set<Node>) returns (headers: seq<Node>, entries: set<Node>)
    requires GraphOk(nodes, scc)
    ensures NoTwice(headers) && forall n :: n in headers <==> n in scc && n in Entries(nodes, scc)
    ensures forall n :: n in entries <==> n in scc && n in Entries(nodes, scc)
  {
    hide GraphOk, Entries;
    headers, entries := [], {};
    var rest := scc;
    while rest != {}
      invariant rest <= scc && Listed(headers, scc - rest, Entries(nodes, scc))
      invariant forall n :: n in entries <==> n in scc - rest && n in Entries(nodes, scc)
      decreases |rest|
    {
      var n :| n in rest;
      NodeThere(nodes, scc, n);
      var isEntry := HasOutsidePred(nodes[n], scc);
      ListMore(headers, scc - rest, Entries(nodes, scc), n);
      assert scc - rest + {n} == scc - (rest - {n});
      if isEntry {
        entries := entries + {n};
        headers := headers + [n];
      }
      rest := rest - {n};
    }
    assert scc - rest == scc;
  }

  /** The second loop: extra headers, and all others. */
  method CollectExtras(nodes: map<Node, IrrNode>, scc: set<Node>, firsts: seq<Node>, entries: set<Node>)
    returns (headers: seq<Node>, others: seq<Node>)
    requires GraphOk(nodes, scc) && NoTwice(firsts) && (forall n :: n in firsts <==> n in entries)
    requires forall n :: n in entries <==> n in Entries(nodes, scc)
    ensures NoTwice(headers) && forall n :: n in headers <==> n in AllHeaders(nodes, scc)
    ensures NoTwice(others) && forall n :: n in others <==> n in scc && n !in AllHeaders(nodes, scc)
  {
    EntriesInScc(nodes, scc);
    ghost var all := AllHeaders(nodes, scc);
    ghost var plain := iset n: Node | n !in all;
    hide GraphOk, Entries, AllHeaders;
    headers, others := firsts, [];
    var rest := scc;
    while rest != {}
      invariant rest <= scc && HeadersListed(headers, entries, scc - rest, all)
      invariant Listed(others, scc - rest, plain)
      decreases |rest|
    {
      var n :| n in rest;
      ghost var seen := scc - rest;
      ListMore(others, seen, plain, n);
      HeadersMore(headers, entries, seen, all, n);
      rest := rest - {n};
      assert seen + {n} == scc - rest;
      if n in entries {
        continue;
      }
      ExtraIs(nodes, scc, n, entries);
      var back := HasBackPred(nodes[n], n, entries);
      if back {
        headers := headers + [n];
      } else {
        others := others + [n];
      }
    }
    assert scc - rest == scc;
  }

  lemma HeadersMore(headers: seq<Node>, entries: set<Node>, seen: set<Node>, all: iset<Node>, n: Node)
    requires HeadersListed(headers, entries, seen, all) && n !in seen
    ensures HeadersListed(if n in all && n !in entries then headers + [n] else headers, entries, seen + {n}, all)
  {
  }

  // ---------- The loop that is made of a component ----------

  /** Every edge to an equal or earlier block that is not a header comes from an entry, which is a header. */
  lemma BackEdgesFromEntries(nodes: map<Node, IrrNode>, scc: set<Node>, headers: seq<Node>, p: Node, n: Node)
    requires GraphOk(nodes, scc) && n in scc && n !in headers && p in Preds(nodes[n]) && p >= n
    requires forall m :: m in headers <==> Entry(nodes, scc, m) || Extra(nodes, scc, m)
    ensures Entry(nodes, scc, p) && p in headers && p in scc
  {
    assert !Extra(nodes, scc, n) && !Entry(nodes, scc, n);
  }

  /** The loop that createIrreducibleLoop makes; none of its blocks is part of a packaged loop. */
  ghost predicate MadeOf(c: Context, headers: seq<Node>, others: seq<Node>) {
    && c.headers == headers
    && (forall n :: n in headers || n in others ==> c.resolve(n) == n && c.inside(n))
  }

  /**
   So along no edge between blocks of the new loop does addToDist abort, and what it asserts of
   edges against the order holds.
   */
  lemma NeverAborts(nodes: map<Node, IrrNode>, scc: set<Node>, headers: seq<Node>, others: seq<Node>, c: Context, p: Node, n: Node)
    requires GraphOk(nodes, scc) && p in scc && n in scc && p in Preds(nodes[n])
    requires |headers| >= 2 && (forall m :: m in headers <==> Entry(nodes, scc, m) || Extra(nodes, scc, m))
    requires (forall m :: m in others <==> m in scc && m !in headers) && MadeOf(c, headers, others)
    ensures !Aborts(c, p, c.resolve(n)) && Handled(c, p, c.resolve(n))
  {
    hide Entry, Extra;
    if n !in headers && p >= n {
      BackEdgesFromEntries(nodes, scc, headers, p, n);
    }
  }

  /** An edge that only a header may have: from outside, or against the order from a block that is only reached from inside. */
  ghost predicate NeedsHeader(nodes: map<Node, IrrNode>, scc: set<Node>, p: Node, n: Node)
    requires GraphOk(nodes, scc)
  {
    n in scc && p in Preds(nodes[n]) && (p !in scc || (p >= n && forall q :: q in Preds(nodes[p]) ==> q in scc))
  }

  lemma HeaderNeeds(nodes: map<Node, IrrNode>, scc: set<Node>, n: Node)
    requires GraphOk(nodes, scc)
    ensures Entry(nodes, scc, n) || Extra(nodes, scc, n) <==> exists p :: NeedsHeader(nodes, scc, p, n)
  {
    if p :| NeedsHeader(nodes, scc, p, n) {
      if p in scc {
        assert !Entry(nodes, scc, p);
      }
    }
    if Entry(nodes, scc, n) {
      var p :| p in Preds(nodes[n]) && p !in scc;
      assert NeedsHeader(nodes, scc, p, n);
    } else if Extra(nodes, scc, n) {
      var p :| p in Preds(nodes[n]) && p >= n && !Entry(nodes, scc, p);
      assert NeedsHeader(nodes, scc, p, n);
    }
  }

  /**
   findIrreducibleHeaders, of a component with at least two entries. A hash table is gone through,
   so the order is arbitrary. Headers are the entries and the extra ones, Others are all the rest, both in order.
   Against the order the rest is only reached from entries, so that addToDist never aborts on an edge
   between blocks of the loop that is made of them.
   */
  method FindIrreducibleHeaders(nodes: map<Node, IrrNode>, scc: set<Node>) returns (headers: seq<Node>, others: seq<Node>)
    requires GraphOk(nodes, scc)
    requires exists a, b :: a != b && Entry(nodes, scc, a) && Entry(nodes, scc, b)
    ensures InOrder(headers) && InOrder(others) && |headers| >= 2
    ensures forall n :: n in headers <==> Entry(nodes, scc, n) || Extra(nodes, scc, n)
    ensures forall n :: n in others <==> n in scc && n !in headers
    ensures forall n :: n in headers ==> n in scc && exists p :: NeedsHeader(nodes, scc, p, n)
    ensures forall p, n :: n in others ==> !NeedsHeader(nodes, scc, p, n)
    ensures forall p, n :: n in others && p in Preds(nodes[n]) && p >= n ==> p in headers && Entry(nodes, scc, p)
    ensures forall c, p, n :: MadeOf(c, headers, others) && p in scc && n in scc && p in Preds(nodes[n]) ==>
              !Aborts(c, p, c.resolve(n)) && Handled(c, p, c.resolve(n))
  {
    EntriesInScc(nodes, scc);
    assert forall n :: n in AllHeaders(nodes, scc) <==> Entry(nodes, scc, n) || Extra(nodes, scc, n);
    var entries;
    headers, entries := CollectEntries(nodes, scc);
    TwoEntries(nodes, scc, headers);
    assert forall n :: n in scc ==> n in nodes;
    forall n ensures Entry(nodes, scc, n) || Extra(nodes, scc, n) <==> exists p :: NeedsHeader(nodes, scc, p, n) {
      HeaderNeeds(nodes, scc, n);
    }
    hide GraphOk, Entry, Extra, Entries, AllHeaders, NoTwice, Aborts, Handled, MadeOf, NeedsHeader;
    if |headers| == |scc| {
      Everything(headers, scc);
      headers := SortNodes(headers);
      others := [];
    } else {
      headers, others := CollectExtras(nodes, scc, headers, entries);
      TwoEntries(nodes, scc, headers);
      headers := SortNodes(headers);
      others := SortNodes(others);
    }
    forall p, n | n in others && p in Preds(nodes[n]) && p >= n ensures p in headers && Entry(nodes, scc, p) {
      BackEdgesFromEntries(nodes, scc, headers, p, n);
    }
    forall c, p, n | MadeOf(c, headers, others) && p in scc && n in scc && p in Preds(nodes[n])
      ensures !Aborts(c, p, c.resolve(n)) && Handled(c, p, c.resolve(n))
    {
      NeverAborts(nodes, scc, headers, others, c, p, n);
    }
  }
}
