/**
 Runs in which a pointer is added again with a larger size. The sets stay the
 connected components of the alias graph for as long as the first pointer of every
 must-alias set is recorded with the largest size in it, and no longer.
 */
module AliasGrowth {
  import opened AliasGroups
  import opened AliasComponents
  import opened AliasHistory

  // ---------- A larger size for one pointer ----------

  ghost predicate Below(fs: Sizes, fs': Sizes) {
    forall q :: fs(q) <= fs'(q)
  }

  /** Only p may be larger. */
  ghost predicate GrownAt(fs: Sizes, fs': Sizes, p: Ptr) {
    fs(p) <= fs'(p) && forall q :: q != p ==> fs'(q) == fs(q)
  }

  lemma UpTo(o: Oracle, fs: Sizes, p: Ptr, n: nat)
    requires n <= fs(p)
    ensures OfRun(o, fs, Loc(p, n))
  {
  }

  /** Edges stay, and so does which of them must-alias. */
  lemma EdgeGrows(o: Oracle, fs: Sizes, fs': Sizes, q: Ptr, r: Ptr)
    requires Consistent(o, fs') && fs(q) <= fs'(q) && fs(r) <= fs'(r) && Edge(o, fs, q, r)
    ensures Edge(o, fs', q, r) && (Must(o, fs, q, r) <==> Must(o, fs', q, r))
  {
    var a, b, c, d := Loc(q, fs(q)), Loc(q, fs'(q)), Loc(r, fs(r)), Loc(r, fs'(r));
    UpTo(o, fs', q, fs(q));
    UpTo(o, fs', q, fs'(q));
    UpTo(o, fs', r, fs(r));
    UpTo(o, fs', r, fs'(r));
    IsSymmetric(o, fs');
    Same(o, b, c);
    Same(o, b, d);
    hide Consistent, OfRun, Symmetric;
    Enlarged(o, fs', a, b, c);
    Enlarged(o, fs', c, d, b);
  }

  lemma OfRunGrows(o: Oracle, fs: Sizes, fs': Sizes, l: Loc)
    requires Consistent(o, fs') && Below(fs, fs') && OfRun(o, fs, l)
    ensures OfRun(o, fs', l)
  {
    hide Consistent;
    var q :| l.size <= fs(q) && (q == l.ptr || Must(o, fs, l.ptr, q));
    if q != l.ptr {
      EdgeGrows(o, fs, fs', l.ptr, q);
    }
    assert l.size <= fs'(q);
  }

  /** What is asked of an analysis up to some sizes it meets up to smaller ones. */
  lemma ConsistentBelow(o: Oracle, fs: Sizes, fs': Sizes)
    requires Consistent(o, fs') && Below(fs, fs')
    ensures Consistent(o, fs)
  {
    forall l | OfRun(o, fs, l) ensures OfRun(o, fs', l) {
      OfRunGrows(o, fs, fs', l);
    }
    hide OfRun, Below;
  }

  lemma ConnectedGrows(o: Oracle, fs: Sizes, fs': Sizes, c: set<Ptr>)
    requires Consistent(o, fs') && Below(fs, fs') && Connected(o, fs, c)
    ensures Connected(o, fs', c)
  {
    hide Consistent, Edge;
    forall a: set<Ptr> | a < c && a != {} ensures Crosses(o, fs', a, c - a) {
      assert Crosses(o, fs, a, c - a);
      var q, r :| q in a && r in c - a && Edge(o, fs, q, r);
      EdgeGrows(o, fs, fs', q, r);
    }
  }

  lemma GrownBelow(fs: Sizes, fs': Sizes, p: Ptr)
    requires GrownAt(fs, fs', p)
    ensures Below(fs, fs')
  {
  }

  /** A connected set is as much a must-alias set as before. */
  lemma AllMustGrows(o: Oracle, fs: Sizes, fs': Sizes, c: set<Ptr>, p: Ptr)
    requires Consistent(o, fs') && GrownAt(fs, fs', p) && Connected(o, fs, c)
    ensures AllMust(o, fs, c) <==> AllMust(o, fs', c)
  {
    GrownBelow(fs, fs', p);
    ConsistentBelow(o, fs, fs');
    hide Consistent, Below, Connected, Must;
    if AllMust(o, fs, c) {
      forall q, r | q in c && r in c && q != r ensures Must(o, fs', q, r) {
        MustIsEdge(o, fs, q, r);
        EdgeGrows(o, fs, fs', q, r);
      }
    }
    if AllMust(o, fs', c) {
      forall q, r | q in c && r in c && q != r ensures Must(o, fs, q, r) {
        if q == p {
          MustFromGrown(o, fs, fs', c, p, r);
        } else if r == p {
          MustFromGrown(o, fs, fs', c, p, q);
          MustBack(o, fs, p, q);
        } else {
          SameMust(o, fs, fs', p, q, r);
        }
      }
    }
  }

  lemma MustIsEdge(o: Oracle, fs: Sizes, q: Ptr, r: Ptr)
    requires Must(o, fs, q, r)
    ensures Edge(o, fs, q, r)
  {
  }

  lemma SameMust(o: Oracle, fs: Sizes, fs': Sizes, p: Ptr, q: Ptr, r: Ptr)
    requires GrownAt(fs, fs', p) && q != p && r != p
    ensures (Must(o, fs, q, r) <==> Must(o, fs', q, r)) && (Edge(o, fs, q, r) <==> Edge(o, fs', q, r))
  {
  }

  lemma MustFromGrown(o: Oracle, fs: Sizes, fs': Sizes, c: set<Ptr>, p: Ptr, r: Ptr)
    requires Consistent(o, fs) && Consistent(o, fs') && GrownAt(fs, fs', p) && Connected(o, fs, c) && AllMust(o, fs', c)
    requires p in c && r in c && r != p
    ensures Must(o, fs, p, r)
  {
    assert {p} < c by { assert r !in {p}; }
    assert Crosses(o, fs, {p}, c - {p});
    hide Consistent, Connected, Edge, Must;
    var q, m :| q in {p} && m in c - {p} && Edge(o, fs, q, m);
    EdgeGrows(o, fs, fs', p, m);
    if m != r {
      SameMust(o, fs, fs', p, m, r);
      MustChain(o, fs, p, m, r);
    }
  }

  lemma GroupGrows(o: Oracle, fs: Sizes, fs': Sizes, g: Group, p: Ptr)
    requires Consistent(o, fs') && GrownAt(fs, fs', p) && GroupOk(o, fs, g) && Connected(o, fs, Elems(g.ptrs))
    ensures GroupOk(o, fs', g) && Connected(o, fs', Elems(g.ptrs))
  {
    GrownBelow(fs, fs', p);
    AllMustGrows(o, fs, fs', Elems(g.ptrs), p);
    ConnectedGrows(o, fs, fs', Elems(g.ptrs));
    hide Consistent, AllMust, Connected, Elems, GrownAt, Below;
  }

  /** Who stood for another pointer still does. */
  lemma StandsGrows(o: Oracle, fs: Sizes, fs': Sizes, z: map<Ptr, nat>, z': map<Ptr, nat>, q: Ptr, m: Ptr, p: Ptr)
    requires Consistent(o, fs') && GrownAt(fs, fs', p) && Stands(o, fs, z, q, m)
    requires q in z' && z'[q] == z[q] && fs'(q) <= z[q]
    ensures Stands(o, fs', z', q, m)
  {
    hide Consistent;
    if q != m {
      EdgeGrows(o, fs, fs', q, m);
    }
  }

  // ---------- Sets, labels and counts; recorded sizes ----------

  /** The sets are the connected components, labelled and counted right. */
  ghost predicate SetsRight(o: Oracle, fs: Sizes, v: View) {
    && (forall i :: i in v.groups ==> i < v.next && GroupOk(o, fs, v.groups[i]) && Connected(o, fs, Elems(v.groups[i].ptrs)))
    && Partition(v.groups, v.sizes.Keys)
    && Separate(o, fs, v.groups)
    && v.total == |MayPtrs(v.groups)| % U32
  }

  ghost predicate AllFit(o: Oracle, fs: Sizes, v: View) {
    forall i :: i in v.groups ==> RecordsFit(o, fs, v.sizes, v.groups[i])
  }

  /** The first pointer of a must-alias set has the largest of the sizes recorded in it. */
  predicate MaxFirst(z: map<Ptr, nat>, g: Group) {
    !g.may && g.ptrs != [] ==> forall q :: q in g.ptrs ==> LocOf(z, q).size <= LocOf(z, g.ptrs[0]).size
  }

  predicate AllMaxFirst(v: View) {
    forall i :: i in v.groups ==> MaxFirst(v.sizes, v.groups[i])
  }

  lemma MaxFirstIff(o: Oracle, fs: Sizes, z: map<Ptr, nat>, g: Group)
    requires RecordsFit(o, fs, z, g)
    ensures FirstLargest(fs, z, g) <==> MaxFirst(z, g)
  {
    hide Must;
    forall q | q in g.ptrs ensures exists m :: m in g.ptrs && fs(q) <= LocOf(z, q).size <= fs(m) {
      assert StandsFor(o, fs, z, q, g.ptrs);
      var m :| m in g.ptrs && Stands(o, fs, z, q, m);
    }
  }

  lemma ComponentsIff(o: Oracle, fs: Sizes, v: View)
    ensures Components(o, fs, v) <==> SetsRight(o, fs, v) && AllSized(o, fs, v.sizes, v.groups)
  {
    hide GroupOk, Connected, Partition, Separate, SizedOk, MayPtrs;
  }

  lemma SizedIff(o: Oracle, fs: Sizes, v: View)
    requires AllFit(o, fs, v)
    ensures AllSized(o, fs, v.sizes, v.groups) <==> AllMaxFirst(v)
  {
    hide RecordsFit, FirstLargest, MaxFirst;
    forall i | i in v.groups ensures SizedOk(o, fs, v.sizes, v.groups[i]) <==> MaxFirst(v.sizes, v.groups[i]) {
      MaxFirstIff(o, fs, v.sizes, v.groups[i]);
    }
  }

  // ---------- A size that no record has to follow ----------

  /** An edge that p gets by growing no larger than its record is one of who it stands for. */
  lemma EdgeOfRecord(o: Oracle, fs: Sizes, fs': Sizes, z: map<Ptr, nat>, p: Ptr, m: Ptr, r: Ptr)
    requires Consistent(o, fs') && GrownAt(fs, fs', p) && Stands(o, fs, z, p, m) && fs'(p) <= z[p] && r != p
    requires Edge(o, fs', r, p)
    ensures Edge(o, fs, r, m)
  {
    hide Consistent;
    if m != p {
      EdgeGrows(o, fs, fs', p, m);
      EdgeOfLarger(o, fs', r, p, m);
    }
  }

  lemma SmallSeparate(o: Oracle, fs: Sizes, fs': Sizes, z: map<Ptr, nat>, p: Ptr, a: seq<Ptr>, b: seq<Ptr>)
    requires Consistent(o, fs') && GrownAt(fs, fs', p) && (p in z ==> fs'(p) <= z[p])
    requires NoEdges(o, fs, a, b) && (p in b ==> p !in a && StandsFor(o, fs, z, p, b)) && (p in a ==> p !in b && StandsFor(o, fs, z, p, a))
    ensures NoEdges(o, fs', a, b)
  {
    IsSymmetric(o, fs');
    hide Consistent, Symmetric, Edge, Stands;
    forall q, r | q in a && r in b ensures !Edge(o, fs', q, r) {
      if Edge(o, fs', q, r) {
        if r == p {
          var m :| m in b && Stands(o, fs, z, p, m);
          StandsFacts(o, fs, z, p, m);
          EdgeOfRecord(o, fs, fs', z, p, m, q);
        } else if q == p {
          EdgeBack(o, fs', q, r);
          var m :| m in a && Stands(o, fs, z, p, m);
          StandsFacts(o, fs, z, p, m);
          EdgeOfRecord(o, fs, fs', z, p, m, r);
          EdgeBack(o, fs, r, m);
        } else {
          SameMust(o, fs, fs', p, q, r);
        }
      }
    }
  }

  lemma SmallFits(o: Oracle, fs: Sizes, fs': Sizes, z: map<Ptr, nat>, g: Group, p: Ptr)
    requires Consistent(o, fs') && GrownAt(fs, fs', p) && (p in z ==> fs'(p) <= z[p]) && SizedOk(o, fs, z, g)
    ensures SizedOk(o, fs', z, g)
  {
    hide Consistent, Stands, MaxFirst, FirstLargest;
    forall q | q in g.ptrs ensures StandsFor(o, fs', z, q, g.ptrs) {
      assert StandsFor(o, fs, z, q, g.ptrs);
      var m :| m in g.ptrs && Stands(o, fs, z, q, m);
      StandsFacts(o, fs, z, q, m);
      StandsGrows(o, fs, fs', z, z, q, m, p);
    }
    MaxFirstIff(o, fs, z, g);
    MaxFirstIff(o, fs', z, g);
  }

  /** A pointer that grows no larger than its record, or is not there, changes nothing. */
  lemma SmallGrows(o: Oracle, fs: Sizes, fs': Sizes, v: View, p: Ptr)
    requires Components(o, fs, v) && Consistent(o, fs') && GrownAt(fs, fs', p) && (p in v.sizes ==> fs'(p) <= v.sizes[p])
    ensures Components(o, fs', v)
  {
    hide Consistent, GrownAt, GroupOk, Connected, Edge, StandsFor, MayPtrs;
    forall i | i in v.groups
      ensures GroupOk(o, fs', v.groups[i]) && Connected(o, fs', Elems(v.groups[i].ptrs)) && SizedOk(o, fs', v.sizes, v.groups[i])
    {
      GroupGrows(o, fs, fs', v.groups[i], p);
      assert SizedOk(o, fs, v.sizes, v.groups[i]);
      SmallFits(o, fs, fs', v.sizes, v.groups[i], p);
    }
    forall i, j | i in v.groups && j in v.groups && i != j ensures NoEdges(o, fs', v.groups[i].ptrs, v.groups[j].ptrs) {
      assert NoEdges(o, fs, v.groups[i].ptrs, v.groups[j].ptrs);
      assert SizedOk(o, fs, v.sizes, v.groups[i]) && SizedOk(o, fs, v.sizes, v.groups[j]);
      hide NoEdges;
      SmallSeparate(o, fs, fs', v.sizes, p, v.groups[i].ptrs, v.groups[j].ptrs);
    }
  }

  // ---------- A size beyond the record ----------

  lemma GrownFits(o: Oracle, fs: Sizes, fs': Sizes, z: map<Ptr, nat>, g: Group, p: Ptr)
    requires Consistent(o, fs') && GrownAt(fs, fs', p) && p in z && z[p] <= fs'(p) && SizedOk(o, fs, z, g)
    ensures RecordsFit(o, fs', z[p := fs'(p)], g) && (p !in g.ptrs ==> FirstLargest(fs', z[p := fs'(p)], g))
  {
    var z' := z[p := fs'(p)];
    hide Consistent, Stands;
    forall q | q in g.ptrs ensures StandsFor(o, fs', z', q, g.ptrs) {
      assert StandsFor(o, fs, z, q, g.ptrs);
      var m :| m in g.ptrs && Stands(o, fs, z, q, m);
      StandsFacts(o, fs, z, q, m);
      if q == p {
        SelfStands(o, fs', z', p);
      } else {
        StandsGrows(o, fs, fs', z, z', q, m, p);
      }
    }
  }

  lemma SelfStands(o: Oracle, fs: Sizes, z: map<Ptr, nat>, p: Ptr)
    requires p in z && z[p] == fs(p)
    ensures Stands(o, fs, z, p, p)
  {
  }

  /** Before the sets are merged that a grown pointer aliases. */
  lemma GrownStart(o: Oracle, fs: Sizes, fs': Sizes, z: map<Ptr, nat>, s: Part, p: Ptr)
    requires AreComponents(o, fs, s.groups, z, s.total) && s.found.None? && p in z && z[p] <= fs'(p)
    requires Consistent(o, fs') && GrownAt(fs, fs', p) && Edge(o, fs', p, p)
    ensures Halfway(o, fs', z[p := fs'(p)], p, s, 0)
  {
    var z' := z[p := fs'(p)];
    hide Consistent, GroupOk, Connected, Edge, RecordsFit, FirstLargest, HasEdge, MayPtrs;
    forall i | i in s.groups
      ensures GroupOk(o, fs', s.groups[i]) && Connected(o, fs', Elems(s.groups[i].ptrs))
      ensures RecordsFit(o, fs', z', s.groups[i]) && (p !in s.groups[i].ptrs ==> FirstLargest(fs', z', s.groups[i]))
    {
      GroupGrows(o, fs, fs', s.groups[i], p);
      assert SizedOk(o, fs, z, s.groups[i]);
      GrownFits(o, fs, fs', z, s.groups[i], p);
    }
    forall i, j | i in s.groups && j in s.groups && i != j ensures NoEdgesBut(o, fs', p, s.groups[i].ptrs, s.groups[j].ptrs) {
      assert NoEdges(o, fs, s.groups[i].ptrs, s.groups[j].ptrs);
      forall q, r | q in s.groups[i].ptrs && r in s.groups[j].ptrs && q != p && r != p ensures !Edge(o, fs', q, r) {
        SameMust(o, fs, fs', p, q, r);
      }
    }
    assert z'.Keys == z.Keys;
  }

  /** Afterwards the set of the grown pointer is the one found. */
  lemma GrownFound(o: Oracle, fs: Sizes, z: map<Ptr, nat>, m: Part, p: Ptr, n: nat)
    requires Halfway(o, fs, z, p, m, n) && p in z && forall i :: i in m.groups ==> i < n
    ensures m.found.Some? && m.found.value in m.groups && p in m.groups[m.found.value].ptrs
    ensures forall i :: i in m.groups && i != m.found.value ==> p !in m.groups[i].ptrs && !HasEdge(o, fs, p, m.groups[i].ptrs)
  {
    hide GroupOk, Connected, Edge, AllSizedBut, AllOk, AllJoined, SeparateBut, MayPtrs;
    var i :| i in m.groups && p in m.groups[i].ptrs;
    assert HasEdge(o, fs, p, m.groups[i].ptrs);
  }

  lemma GrownConnected(o: Oracle, fs: Sizes, z: map<Ptr, nat>, m: Part, p: Ptr, n: nat, i: Id)
    requires Halfway(o, fs, z, p, m, n) && i in m.groups && (m.found == Some(i) ==> p in m.groups[i].ptrs)
    ensures Connected(o, fs, Elems(m.groups[i].ptrs))
  {
    hide GroupOk, Connected, HasEdge, AllSizedBut, AllOk, SeparateBut, SelfOk, Partition, Passed, MayPtrs;
    assert Joined(o, fs, p, m, i);
    if m.found == Some(i) {
      assert Elems(m.groups[i].ptrs) + {p} == Elems(m.groups[i].ptrs);
    }
  }

  lemma GrownSeparate(o: Oracle, fs: Sizes, gs: Groups, p: Ptr, f: Id)
    requires Symmetric(o) && SeparateBut(o, fs, gs, p)
    requires forall i :: i in gs && i != f ==> p !in gs[i].ptrs && !HasEdge(o, fs, p, gs[i].ptrs)
    ensures Separate(o, fs, gs)
  {
    hide Symmetric, Edge;
    forall i, j | i in gs && j in gs && i != j ensures NoEdges(o, fs, gs[i].ptrs, gs[j].ptrs) {
      assert NoEdgesBut(o, fs, p, gs[i].ptrs, gs[j].ptrs);
      forall q, r | q in gs[i].ptrs && r in gs[j].ptrs ensures !Edge(o, fs, q, r) {
        if Edge(o, fs, q, r) {
          EdgeBack(o, fs, q, r);
        }
      }
    }
  }

  lemma GrownEnd(o: Oracle, fs: Sizes, v: View, m: Part, p: Ptr, n: nat)
    requires Symmetric(o) && Halfway(o, fs, v.sizes, p, m, n) && p in v.sizes && v.groups == m.groups && v.total == m.total && v.next == n
    requires forall i :: i in m.groups ==> i < n
    ensures SetsRight(o, fs, v) && AllFit(o, fs, v)
  {
    GrownFound(o, fs, v.sizes, m, p, n);
    forall i | i in m.groups ensures Connected(o, fs, Elems(m.groups[i].ptrs)) {
      GrownConnected(o, fs, v.sizes, m, p, n, i);
    }
    GrownSeparate(o, fs, m.groups, p, m.found.value);
    hide Symmetric, Separate, SeparateBut, Partition, GroupOk, Connected, RecordsFit, FirstLargest, MayPtrs, HasEdge, SelfOk;
  }

  lemma GrowStepIs(o: Oracle, v: View, x: Loc)
    requires x.ptr in v.sizes && v.sizes[x.ptr] < x.size
    ensures var z := v.sizes[x.ptr := x.size];
            var m := MergeUpTo(o, z, x, Part(v.groups, v.total, None), v.next);
            AddStep(o, v, x) == View(m.groups, z, m.total, v.next) && z.Keys == v.sizes.Keys
  {
    hide MergeUpTo;
  }

  lemma ComponentsAre(o: Oracle, fs: Sizes, v: View)
    requires Components(o, fs, v)
    ensures AreComponents(o, fs, v.groups, v.sizes, v.total) && forall i :: i in v.groups ==> i < v.next
  {
    hide AreComponents;
  }

  /**
   A pointer that is added again with more than its record: the sets are the components again, but
   what is needed for the next addition holds exactly if first pointers have the largest sizes.
   */
  lemma GrowStep(o: Oracle, fs: Sizes, fs': Sizes, v: View, p: Ptr)
    requires Components(o, fs, v) && p in v.sizes && GrownAt(fs, fs', p) && v.sizes[p] < fs'(p)
    requires Consistent(o, fs') && Edge(o, fs', p, p)
    ensures var v' := AddStep(o, v, Loc(p, fs'(p)));
            SetsRight(o, fs', v') && AllFit(o, fs', v') && v'.sizes.Keys == v.sizes.Keys && (Components(o, fs', v') <==> AllMaxFirst(v'))
  {
    hide AreComponents, Components, Consistent, Symmetric, MergeUpTo, Halfway, SetsRight, AllFit, AllSized, AllMaxFirst, Edge, AddStep, GrownAt;
    var z', s, x := v.sizes[p := fs'(p)], Part(v.groups, v.total, None), Loc(p, fs'(p));
    var m := MergeUpTo(o, z', x, s, v.next);
    var v' := AddStep(o, v, x);
    ComponentsAre(o, fs, v);
    GrowStepIs(o, v, x);
    MergeKeys(o, z', x, s, v.next);
    assert forall i :: i in m.groups ==> i < v.next;
    IsSymmetric(o, fs');
    GrownStart(o, fs, fs', v.sizes, s, p);
    HalfwayAll(o, fs', z', p, s, v.next);
    GrownEnd(o, fs', v', m, p, v.next);
    ComponentsIff(o, fs', v');
    SizedIff(o, fs', v');
  }

  // ---------- Whole runs ----------

  /** The largest size with which p is added. */
  function Largest(xs: seq<Loc>, p: Ptr): nat {
    if xs == [] then 0
    else
      var x := xs[|xs| - 1];
      Max(Largest(xs[..|xs| - 1], p), if x.ptr == p then x.size else 0)
  }

  function LargestOf(xs: seq<Loc>): Sizes { p => Largest(xs, p) }

  /** After each addition first pointers have the largest sizes. */
  predicate AlwaysMaxFirst(o: Oracle, xs: seq<Loc>) {
    xs == [] || (AlwaysMaxFirst(o, xs[..|xs| - 1]) && AllMaxFirst(AddAll(o, xs)))
  }

  /** An access that is not empty aliases itself. */
  ghost predicate SelfAliased(o: Oracle, xs: seq<Loc>) {
    forall k :: 0 <= k < |xs| && xs[k].size > 0 ==> o.alias(xs[k], xs[k]) != NoAlias
  }

  lemma {:induction false} LargestUnseen(xs: seq<Loc>, p: Ptr)
    requires p !in PtrsOf(xs)
    ensures Largest(xs, p) == 0
  {
    if xs != [] {
      PtrsGrow(xs);
      LargestUnseen(xs[..|xs| - 1], p);
    }
  }

  lemma RecordAtLeast(o: Oracle, fs: Sizes, v: View, p: Ptr)
    requires Components(o, fs, v) && p in v.sizes
    ensures fs(p) <= v.sizes[p]
  {
    hide Connected, Separate, GroupOk, MayPtrs, Must;
    var i :| i in v.groups && p in v.groups[i].ptrs;
    assert SizedOk(o, fs, v.sizes, v.groups[i]);
    assert StandsFor(o, fs, v.sizes, p, v.groups[i].ptrs);
  }

  lemma NoGrowth(o: Oracle, v: View, x: Loc)
    requires x.ptr in v.sizes && x.size <= v.sizes[x.ptr]
    ensures AddStep(o, v, x) == v
  {
  }

  lemma FitIff(o: Oracle, fs: Sizes, v: View)
    requires Components(o, fs, v)
    ensures SetsRight(o, fs, v) && AllFit(o, fs, v) && AllMaxFirst(v)
  {
    ComponentsIff(o, fs, v);
    assert AllFit(o, fs, v) by { hide RecordsFit, FirstLargest, AllMaxFirst; }
    SizedIff(o, fs, v);
    hide AllMaxFirst, Components, SetsRight, AllSized, AllFit;
  }

  /** One more addition, of whatever size. */
  lemma AnyStep(o: Oracle, fs: Sizes, fs': Sizes, v: View, x: Loc)
    requires Components(o, fs, v) && Consistent(o, fs') && GrownAt(fs, fs', x.ptr) && fs'(x.ptr) == Max(fs(x.ptr), x.size)
    requires (x.ptr !in v.sizes ==> fs'(x.ptr) == x.size) && (x.size > 0 ==> o.alias(x, x) != NoAlias)
    ensures var v' := AddStep(o, v, x);
            SetsRight(o, fs', v') && AllFit(o, fs', v') && v'.sizes.Keys == v.sizes.Keys + {x.ptr} && (Components(o, fs', v') <==> AllMaxFirst(v'))
  {
    hide Components, Consistent, SetsRight, AllFit, AllMaxFirst, AddStep;
    var p := x.ptr;
    if p !in v.sizes {
      SmallGrows(o, fs, fs', v, p);
      AddStepComponents(o, fs', v, p);
      FitIff(o, fs', AddStep(o, v, x));
    } else {
      RecordAtLeast(o, fs, v, p);
      assert v.sizes.Keys == v.sizes.Keys + {p};
      if x.size <= v.sizes[p] {
        SmallGrows(o, fs, fs', v, p);
        NoGrowth(o, v, x);
        FitIff(o, fs', v);
      } else {
        GrowStep(o, fs, fs', v, p);
      }
    }
  }

  /**
   Runs of any additions: while first pointers have the largest sizes the sets are the components, with
   the largest size of every pointer, and so they are after the addition with which that ends.
   */
  lemma {:induction false} AnyRunComponents(o: Oracle, xs: seq<Loc>)
    requires Consistent(o, LargestOf(xs)) && SelfAliased(o, xs)
    ensures AlwaysMaxFirst(o, xs) ==> Components(o, LargestOf(xs), AddAll(o, xs))
    ensures xs != [] && AlwaysMaxFirst(o, xs[..|xs| - 1]) ==>
              SetsRight(o, LargestOf(xs), AddAll(o, xs)) && AllFit(o, LargestOf(xs), AddAll(o, xs))
    ensures AlwaysMaxFirst(o, xs) ==> AddAll(o, xs).sizes.Keys == PtrsOf(xs)
    decreases |xs|
  {
    hide Components, Consistent, AddStep, SetsRight, AllFit, AllMaxFirst;
    if xs == [] {
      NoneYet(o, LargestOf(xs));
    } else {
      var n := |xs| - 1;
      var before, x := xs[..n], xs[n];
      assert forall q :: Largest(before, q) <= Largest(xs, q);
      ConsistentBelow(o, LargestOf(before), LargestOf(xs));
      assert forall k :: 0 <= k < n ==> before[k] == xs[k];
      AnyRunComponents(o, before);
      PtrsGrow(xs);
      if AlwaysMaxFirst(o, before) {
        if x.ptr !in PtrsOf(before) {
          LargestUnseen(before, x.ptr);
        }
        AnyStep(o, LargestOf(before), LargestOf(xs), AddAll(o, before), x);
      }
    }
  }

  /** Two runs that add the same pointers, each with the same largest size, agree. */
  lemma AnyRunsAgree(o: Oracle, xs: seq<Loc>, ys: seq<Loc>)
    requires Consistent(o, LargestOf(xs)) && SelfAliased(o, xs) && SelfAliased(o, ys) && AlwaysMaxFirst(o, xs) && AlwaysMaxFirst(o, ys)
    requires PtrsOf(xs) == PtrsOf(ys) && forall p :: Largest(xs, p) == Largest(ys, p)
    ensures forall p, q :: p in PtrsOf(xs) && q in PtrsOf(xs) ==>
              && (Together(AddAll(o, xs).groups, p, q) <==> Together(AddAll(o, ys).groups, p, q))
              && (Together(AddAll(o, xs).groups, p, q) <==> Linked(o, LargestOf(xs), PtrsOf(xs), p, q))
    ensures MayPtrs(AddAll(o, xs).groups) == MayPtrs(AddAll(o, ys).groups) && AddAll(o, xs).total == AddAll(o, ys).total
  {
    var fs, gs := LargestOf(xs), LargestOf(ys);
    var v, w := AddAll(o, xs), AddAll(o, ys);
    assert forall p :: fs(p) == gs(p);
    hide Largest, LargestOf, AlwaysMaxFirst, AddAll, Consistent, Components, Together, Linked, MayPtrs, PtrsOf, SelfAliased;
    ConsistentBelow(o, gs, fs);
    AnyRunComponents(o, xs);
    AnyRunComponents(o, ys);
    SameSizes(o, gs, fs, w);
    ComponentsAre(o, fs, v);
    ComponentsAre(o, fs, w);
    hide AreComponents;
    OrderIrrelevant(o, fs, v.groups, v.sizes, v.total, w.groups, w.sizes, w.total);
    forall p, q | p in PtrsOf(xs) && q in PtrsOf(xs) ensures Together(v.groups, p, q) <==> Linked(o, fs, PtrsOf(xs), p, q) {
      TogetherIffLinked(o, fs, v.groups, v.sizes, v.total, p, q);
    }
  }

  lemma SameSizes(o: Oracle, fs: Sizes, fs': Sizes, v: View)
    requires Components(o, fs, v) && Consistent(o, fs') && forall q :: fs(q) == fs'(q)
    ensures Components(o, fs', v)
  {
    hide Components, Consistent;
    if 0 in v.sizes {
      RecordAtLeast(o, fs, v, 0);
    }
    SmallGrows(o, fs, fs', v, 0);
  }

  // ---------- Where it goes wrong ----------

  /** The first pointer keeps its size when another one of its must-alias set grows, so that bytes 4 to 7 are missed. */
  lemma GrownMissed()
    ensures Answer(StartOf, Loc(1, 8), Loc(2, 4)) == PartialAlias
    ensures AddAll(Ranges(StartOf), [Loc(0, 1), Loc(1, 1), Loc(1, 8), Loc(2, 4)]).groups ==
            map[0 := Group([0, 1], false, false, [], 2), 1 := Group([2], false, false, [], 1)]
  {
    var o := Ranges(StartOf);
    Missed1(o);
    Missed2(o);
    Missed3(o);
    Missed4(o);
    hide AddStep, AddAll, Ranges;
    FourSteps(o, Loc(0, 1), Loc(1, 1), Loc(1, 8), Loc(2, 4));
  }

  lemma FourSteps(o: Oracle, a: Loc, b: Loc, c: Loc, d: Loc)
    ensures AddAll(o, [a, b, c, d]) == AddStep(o, AddStep(o, AddStep(o, AddStep(o, NO_SETS, a), b), c), d)
  {
    hide AddStep;
    assert [a, b, c, d][..3] == [a, b, c] && [a, b, c][..2] == [a, b] && [a, b][..1] == [a];
    assert AddAll(o, [a]) == AddStep(o, NO_SETS, a);
    assert AddAll(o, [a, b]) == AddStep(o, AddAll(o, [a]), b);
    assert AddAll(o, [a, b, c]) == AddStep(o, AddAll(o, [a, b]), c);
  }

  const ONE: Groups := map[0 := Group([0], false, false, [], 1)]

  const BOTH: Groups := map[0 := Group([0, 1], false, false, [], 2)]

  lemma MergeNone(o: Oracle, z: map<Ptr, nat>, x: Loc, s: Part)
    ensures MergeUpTo(o, z, x, s, 0) == s && MergeUpTo(o, z, x, s, 1) == MergeStep(o, z, x, s, 0)
  {
    hide MergeStep;
  }

  lemma Missed1(o: Oracle)
    requires o == Ranges(StartOf)
    ensures AddStep(o, NO_SETS, Loc(0, 1)) == View(ONE, map[0 := 1], 0, 1)
  {
    var x := Loc(0, 1);
    MergeNone(o, map[], x, Part(map[], 0, None));
    hide MergeUpTo;
    assert [] + [0] == [0];
    assert Added(o, map[], NEW_GROUP, x, false) == ONE[0];
    assert AddGroups(o, map[], map[], 0, x) == ONE;
    assert AddedSizes(o, map[], NEW_GROUP, x, false) == map[0 := 1];
  }

  lemma Missed2(o: Oracle)
    requires o == Ranges(StartOf)
    ensures AddStep(o, View(ONE, map[0 := 1], 0, 1), Loc(1, 1)) == View(BOTH, map[0 := 1, 1 := 1], 0, 1)
  {
    var s := Part(ONE, 0, None);
    MergeNone(o, map[0 := 1], Loc(1, 1), s);
    assert o.alias(Loc(0, 1), Loc(1, 1)) == MustAlias;
    assert MergeStep(o, map[0 := 1], Loc(1, 1), s, 0) == s.(found := Some(0));
    hide MergeUpTo;
    assert [0] + [1] == [0, 1];
    assert Added(o, map[0 := 1], ONE[0], Loc(1, 1), false) == BOTH[0];
    assert AddGroups(o, map[0 := 1], ONE, 0, Loc(1, 1)) == BOTH;
    assert AddedSizes(o, map[0 := 1], ONE[0], Loc(1, 1), false) == map[0 := 1, 1 := 1];
  }

  lemma Missed3(o: Oracle)
    requires o == Ranges(StartOf)
    ensures AddStep(o, View(BOTH, map[0 := 1, 1 := 1], 0, 1), Loc(1, 8)) == View(BOTH, map[0 := 1, 1 := 8], 0, 1)
  {
    var s := Part(BOTH, 0, None);
    MergeNone(o, map[0 := 1, 1 := 8], Loc(1, 8), s);
    assert o.alias(Loc(0, 1), Loc(1, 8)) == MustAlias;
    assert MergeStep(o, map[0 := 1, 1 := 8], Loc(1, 8), s, 0) == s.(found := Some(0));
    hide MergeUpTo;
    assert map[0 := 1, 1 := 1][1 := 8] == map[0 := 1, 1 := 8];
  }

  lemma Missed4(o: Oracle)
    requires o == Ranges(StartOf)
    ensures AddStep(o, View(BOTH, map[0 := 1, 1 := 8], 0, 1), Loc(2, 4)).groups == BOTH[1 := Group([2], false, false, [], 1)]
  {
    var s := Part(BOTH, 0, None);
    MergeNone(o, map[0 := 1, 1 := 8], Loc(2, 4), s);
    assert o.alias(Loc(0, 1), Loc(2, 4)) == NoAlias;
    assert MergeStep(o, map[0 := 1, 1 := 8], Loc(2, 4), s, 0) == s;
    hide MergeUpTo;
    assert [] + [2] == [2];
    assert Added(o, map[0 := 1, 1 := 8], NEW_GROUP, Loc(2, 4), false) == Group([2], false, false, [], 1);
  }

  // ---------- Exactly when the next addition is right ----------

  ghost predicate AgreeOn(start: Ptr -> int, start': Ptr -> int, ptrs: set<Ptr>) {
    forall p :: p in ptrs ==> start'(p) == start(p)
  }

  lemma SameAnswers(start: Ptr -> int, start': Ptr -> int, ptrs: set<Ptr>, fs: Sizes, p: Ptr, q: Ptr)
    requires AgreeOn(start, start', ptrs) && p in ptrs && q in ptrs
    ensures Edge(Ranges(start), fs, p, q) <==> Edge(Ranges(start'), fs, p, q)
    ensures Must(Ranges(start), fs, p, q) <==> Must(Ranges(start'), fs, p, q)
  {
  }

  lemma MovedGroup(start: Ptr -> int, start': Ptr -> int, ptrs: set<Ptr>, fs: Sizes, z: map<Ptr, nat>, g: Group)
    requires AgreeOn(start, start', ptrs) && Elems(g.ptrs) <= ptrs
    requires GroupOk(Ranges(start), fs, g) && Connected(Ranges(start), fs, Elems(g.ptrs)) && SizedOk(Ranges(start), fs, z, g)
    ensures GroupOk(Ranges(start'), fs, g) && Connected(Ranges(start'), fs, Elems(g.ptrs)) && SizedOk(Ranges(start'), fs, z, g)
  {
    var o, o', c := Ranges(start), Ranges(start'), Elems(g.ptrs);
    hide Ranges, Edge, Must, AgreeOn;
    forall p, q | p in c && q in c ensures (Edge(o, fs, p, q) <==> Edge(o', fs, p, q)) && (Must(o, fs, p, q) <==> Must(o', fs, p, q)) {
      SameAnswers(start, start', ptrs, fs, p, q);
    }
    forall a: set<Ptr> | a < c && a != {} ensures Crosses(o', fs, a, c - a) {
      assert Crosses(o, fs, a, c - a);
      var p, q :| p in a && q in c - a && Edge(o, fs, p, q);
    }
    forall p | p in g.ptrs ensures StandsFor(o', fs, z, p, g.ptrs) {
      assert StandsFor(o, fs, z, p, g.ptrs);
      var q :| q in g.ptrs && Stands(o, fs, z, p, q);
      assert p in c && q in c && Stands(o', fs, z, p, q);
    }
    assert AllMust(o, fs, c) <==> AllMust(o', fs, c);
  }

  /** What lies where no pointer of the tracker is does not matter to it. */
  lemma Moved(start: Ptr -> int, start': Ptr -> int, fs: Sizes, v: View)
    requires Components(Ranges(start), fs, v) && AgreeOn(start, start', v.sizes.Keys)
    ensures Components(Ranges(start'), fs, v)
  {
    var o, o' := Ranges(start), Ranges(start');
    hide Ranges, Edge, GroupOk, Connected, SizedOk, MayPtrs, AgreeOn;
    forall i | i in v.groups
      ensures GroupOk(o', fs, v.groups[i]) && Connected(o', fs, Elems(v.groups[i].ptrs)) && SizedOk(o', fs, v.sizes, v.groups[i])
    {
      MovedGroup(start, start', v.sizes.Keys, fs, v.sizes, v.groups[i]);
    }
    forall i, j | i in v.groups && j in v.groups && i != j ensures NoEdges(o', fs, v.groups[i].ptrs, v.groups[j].ptrs) {
      assert NoEdges(o, fs, v.groups[i].ptrs, v.groups[j].ptrs);
      forall p, q | p in v.groups[i].ptrs && q in v.groups[j].ptrs ensures !Edge(o', fs, p, q) {
        SameAnswers(start, start', v.sizes.Keys, fs, p, q);
      }
    }
  }

  function Put(fs: Sizes, x: Loc): Sizes { p => if p == x.ptr then x.size else fs(p) }

  /** The addition of a pointer that is not there yet keeps the sets right, wherever it points to. */
  ghost predicate NextRight(start: Ptr -> int, fs: Sizes, v: View, start': Ptr -> int, x: Loc) {
    AgreeOn(start, start', v.sizes.Keys) && x.ptr !in v.sizes ==>
      SetsRight(Ranges(start'), Put(fs, x), AddStep(Ranges(start'), v, x))
  }

  lemma NextIsRight(start: Ptr -> int, fs: Sizes, v: View, start': Ptr -> int, x: Loc)
    requires SetsRight(Ranges(start), fs, v) && AllFit(Ranges(start), fs, v) && AllMaxFirst(v) && forall p :: p !in v.sizes ==> fs(p) == 0
    ensures NextRight(start, fs, v, start', x)
  {
    var o, o', fs' := Ranges(start), Ranges(start'), Put(fs, x);
    assert x.ptr !in v.sizes ==> GrownAt(fs, fs', x.ptr);
    hide Ranges, SetsRight, AllFit, AllMaxFirst, Components, AgreeOn, AddStep, GrownAt;
    SizedIff(o, fs, v);
    ComponentsIff(o, fs, v);
    if AgreeOn(start, start', v.sizes.Keys) && x.ptr !in v.sizes {
      Moved(start, start', fs, v);
      RangesConsistent(start', fs');
      SmallGrows(o', fs, fs', v, x.ptr);
      AddStepComponents(o', fs', v, x.ptr);
      assert Loc(x.ptr, fs'(x.ptr)) == x;
      ComponentsIff(o', fs', AddStep(o', v, x));
    }
  }

  /** A set that does not alias what is added stays as it is. */
  lemma {:induction false} Untouched(o: Oracle, z: map<Ptr, nat>, x: Loc, s: Part, i: Id, n: nat)
    requires i in s.groups && !Aliases(o, z, s.groups[i], x) && s.found != Some(i)
    ensures var m := MergeUpTo(o, z, x, s, n);
            i in m.groups && m.groups[i] == s.groups[i] && m.found != Some(i)
  {
    if n > 0 {
      Untouched(o, z, x, s, i, n - 1);
      hide Aliases, Merged, MergedTotal;
    }
  }

  lemma {:induction false} AnyBound(ptrs: set<Ptr>) returns (b: Ptr)
    ensures forall p :: p in ptrs ==> p < b
  {
    if ptrs == {} {
      b := 0;
    } else {
      var p :| p in ptrs;
      var c := AnyBound(ptrs - {p});
      b := Max(c, p + 1);
      assert forall q :: q in ptrs ==> q == p || q in ptrs - {p};
    }
  }

  /** The new pointer is in a set of its own or in one found, and the other sets are those merged. */
  lemma NewStepIs(o: Oracle, v: View, x: Loc)
    requires x.ptr !in v.sizes
    ensures var m := MergeUpTo(o, v.sizes, x, Part(v.groups, v.total, None), v.next);
            var v', i := AddStep(o, v, x), AddedTo(m, v.next);
            i in v'.groups && x.ptr in v'.groups[i].ptrs && forall k :: k in m.groups && k != i ==> k in v'.groups && v'.groups[k] == m.groups[k]
  {
    hide MergeUpTo, AddedSizes, AddedTotal;
  }

  /** A must-alias set with a pointer that is recorded with more than the first one has one that is larger. */
  lemma LargerMember(o: Oracle, fs: Sizes, v: View, i: Id) returns (m: Ptr)
    requires SetsRight(o, fs, v) && AllFit(o, fs, v) && i in v.groups && !MaxFirst(v.sizes, v.groups[i])
    ensures i < v.next
    ensures var g := v.groups[i];
            !g.may && !g.any && g.ptrs != [] && m in g.ptrs && g.ptrs[0] in v.sizes && m in v.sizes && Must(o, fs, g.ptrs[0], m) && v.sizes[g.ptrs[0]] < fs(m)
  {
    var g := v.groups[i];
    hide Connected, Must, MayPtrs, Separate;
    assert RecordsFit(o, fs, v.sizes, g) && GroupOk(o, fs, g);
    var f := g.ptrs[0];
    var q :| q in g.ptrs && LocOf(v.sizes, q).size > LocOf(v.sizes, f).size;
    assert StandsFor(o, fs, v.sizes, q, g.ptrs) && StandsFor(o, fs, v.sizes, f, g.ptrs);
    m :| m in g.ptrs && Stands(o, fs, v.sizes, q, m);
    assert f in Elems(g.ptrs) && m in Elems(g.ptrs);
  }

  /** A pointer behind what the first one is recorded with, but within the larger one, gets to another set. */
  lemma NextIsWrong(start: Ptr -> int, fs: Sizes, v: View, i: Id) returns (start': Ptr -> int, x: Loc)
    requires SetsRight(Ranges(start), fs, v) && AllFit(Ranges(start), fs, v) && i in v.groups && !MaxFirst(v.sizes, v.groups[i])
    ensures !NextRight(start, fs, v, start', x)
  {
    hide SetsRight, AllFit, MaxFirst, AddStep;
    var m := LargerMember(Ranges(start), fs, v, i);
    var c := AnyBound(v.sizes.Keys);
    var f := v.groups[i].ptrs[0];
    var n := start(f) + v.sizes[f];
    start', x := (p: Ptr) => if p == c then n else start(p), Loc(c, 1);
    BehindFirst(start, start', fs, v.sizes, v.groups[i], m, x);
    assert AgreeOn(start, start', v.sizes.Keys);
    hide Ranges, Put, Aliases, AgreeOn;
    NextApart(Ranges(start'), Put(fs, x), v, i, m, x);
  }

  lemma BehindFirst(start: Ptr -> int, start': Ptr -> int, fs: Sizes, z: map<Ptr, nat>, g: Group, m: Ptr, x: Loc)
    requires !g.may && !g.any && g.ptrs != [] && g.ptrs[0] in z && m in z && x.ptr !in z && z[g.ptrs[0]] < fs(m)
    requires Must(Ranges(start), fs, g.ptrs[0], m) && x.size == 1
    requires AgreeOn(start, start', z.Keys) && start'(x.ptr) == start(g.ptrs[0]) + z[g.ptrs[0]]
    ensures !Aliases(Ranges(start'), z, g, x) && Edge(Ranges(start'), Put(fs, x), m, x.ptr)
  {
    var f := g.ptrs[0];
    assert start(f) == start(m) && start'(f) == start(f) && start'(m) == start(f);
    assert Answer(start', LocOf(z, f), x) == NoAlias;
    assert Answer(start', Loc(m, fs(m)), x) != NoAlias;
    assert m != x.ptr;
    hide AnyAliases, AnyTouches;
  }

  /** What a set is not found to alias is put elsewhere, in spite of an edge. */
  lemma NextApart(o: Oracle, fs: Sizes, v: View, i: Id, m: Ptr, x: Loc)
    requires i in v.groups && i < v.next && m in v.groups[i].ptrs && x.ptr !in v.sizes
    requires !Aliases(o, v.sizes, v.groups[i], x) && Edge(o, fs, m, x.ptr)
    ensures !SetsRight(o, fs, AddStep(o, v, x))
  {
    hide Edge, Aliases, AddStep, MergeUpTo, SetsRight;
    var s := Part(v.groups, v.total, None);
    var p := MergeUpTo(o, v.sizes, x, s, v.next);
    Untouched(o, v.sizes, x, s, i, v.next);
    NewStepIs(o, v, x);
    WrongSets(o, fs, AddStep(o, v, x), m, x.ptr, i, AddedTo(p, v.next));
  }

  lemma WrongSets(o: Oracle, fs: Sizes, v: View, p: Ptr, q: Ptr, i: Id, j: Id)
    requires i in v.groups && j in v.groups && i != j && p in v.groups[i].ptrs && q in v.groups[j].ptrs && Edge(o, fs, p, q)
    ensures !SetsRight(o, fs, v)
  {
    hide Edge;
    assert !NoEdges(o, fs, v.groups[i].ptrs, v.groups[j].ptrs);
  }

  /**
   For ranges of bytes: as long as sets are right so far, the next pointer is put in the right set
   wherever it points to, and whatever its size, if and only if first pointers have the largest sizes.
   */
  lemma NextRightIff(start: Ptr -> int, fs: Sizes, v: View)
    requires SetsRight(Ranges(start), fs, v) && AllFit(Ranges(start), fs, v) && forall p :: p !in v.sizes ==> fs(p) == 0
    ensures (forall start', x :: NextRight(start, fs, v, start', x)) <==> AllMaxFirst(v)
  {
    if AllMaxFirst(v) {
      forall start', x ensures NextRight(start, fs, v, start', x) {
        NextIsRight(start, fs, v, start', x);
      }
    } else {
      var i :| i in v.groups && !MaxFirst(v.sizes, v.groups[i]);
      hide NextRight, SetsRight, AllFit, MaxFirst;
      var start', x := NextIsWrong(start, fs, v, i);
    }
  }
}
