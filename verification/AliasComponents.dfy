/**
 What it means for alias sets to be connected components: two pointers share a
 set exactly if a path of may-aliasing pointers joins them, so the sets, their
 labels and their count do not depend on the order in which pointers were added.
 */
module AliasComponents {
  import opened AliasGroups

  ghost predicate IsPath(o: Oracle, fs: Sizes, ptrs: set<Ptr>, path: seq<Ptr>) {
    && path != []
    && (forall k :: 0 <= k < |path| ==> path[k] in ptrs)
    && (forall k :: 0 <= k < |path| - 1 ==> Edge(o, fs, path[k], path[k + 1]))
  }

  ghost predicate Links(o: Oracle, fs: Sizes, ptrs: set<Ptr>, p: Ptr, q: Ptr, path: seq<Ptr>) {
    IsPath(o, fs, ptrs, path) && path[0] == p && path[|path| - 1] == q
  }

  ghost predicate Linked(o: Oracle, fs: Sizes, ptrs: set<Ptr>, p: Ptr, q: Ptr) {
    exists path :: Links(o, fs, ptrs, p, q, path)
  }

  ghost predicate Together(gs: Groups, p: Ptr, q: Ptr) {
    exists i :: i in gs && p in gs[i].ptrs && q in gs[i].ptrs
  }

  /** A path never leaves the group it starts in. */
  lemma {:induction false} PathStays(o: Oracle, fs: Sizes, gs: Groups, ptrs: set<Ptr>, i: Id, path: seq<Ptr>)
    requires Partition(gs, ptrs) && Separate(o, fs, gs) && IsPath(o, fs, ptrs, path)
    requires i in gs && path[0] in gs[i].ptrs
    ensures path[|path| - 1] in gs[i].ptrs
    decreases |path|
  {
    hide Edge;
    if |path| > 1 {
      var n := |path| - 2;
      var front := path[..n + 1];
      assert IsPath(o, fs, ptrs, front);
      PathStays(o, fs, gs, ptrs, i, front);
      assert Edge(o, fs, path[n], path[n + 1]);
      assert forall j :: j in gs && j != i ==> NoEdges(o, fs, gs[i].ptrs, gs[j].ptrs);
      assert exists j :: j in gs && path[n + 1] in gs[j].ptrs;
    }
  }

  lemma LinkOn(o: Oracle, fs: Sizes, ptrs: set<Ptr>, p: Ptr, q: Ptr, r: Ptr)
    requires Linked(o, fs, ptrs, p, q) && r in ptrs && Edge(o, fs, q, r)
    ensures Linked(o, fs, ptrs, p, r)
  {
    hide Edge;
    var path :| Links(o, fs, ptrs, p, q, path);
    assert Links(o, fs, ptrs, p, r, path + [r]);
  }

  /** In a connected set there is a path between any two pointers. */
  lemma ConnectedLinks(o: Oracle, fs: Sizes, ptrs: set<Ptr>, c: set<Ptr>, p: Ptr, q: Ptr)
    requires Connected(o, fs, c) && c <= ptrs && p in c && q in c
    ensures Linked(o, fs, ptrs, p, q)
  {
    hide Edge, Linked;
    var a := set r | r in c && Linked(o, fs, ptrs, p, r);
    SelfLinked(o, fs, ptrs, p);
    assert p in a && a <= c;
    if a != c {
      assert Crosses(o, fs, a, c - a);
      var x, y :| x in a && y in c - a && Edge(o, fs, x, y);
      LinkOn(o, fs, ptrs, p, x, y);
    }
  }

  lemma SelfLinked(o: Oracle, fs: Sizes, ptrs: set<Ptr>, p: Ptr)
    requires p in ptrs
    ensures Linked(o, fs, ptrs, p, p)
  {
    assert Links(o, fs, ptrs, p, p, [p]);
  }

  /** Two pointers share an alias set exactly if a path of may-aliasing pointers joins them. */
  lemma TogetherIffLinked(o: Oracle, fs: Sizes, gs: Groups, z: map<Ptr, nat>, total: int, p: Ptr, q: Ptr)
    requires AreComponents(o, fs, gs, z, total) && p in z && q in z
    ensures Together(gs, p, q) <==> Linked(o, fs, z.Keys, p, q)
  {
    hide Connected, Edge, GroupOk, AllSized, MayPtrs;
    if i :| i in gs && p in gs[i].ptrs && q in gs[i].ptrs {
      assert Elems(gs[i].ptrs) <= z.Keys;
      ConnectedLinks(o, fs, z.Keys, Elems(gs[i].ptrs), p, q);
    }
    if path :| Links(o, fs, z.Keys, p, q, path) {
      var i :| i in gs && p in gs[i].ptrs;
      PathStays(o, fs, gs, z.Keys, i, path);
      assert Together(gs, p, q);
    }
  }

  /** A set is labelled must-alias exactly if every two of its pointers must-alias. */
  lemma LabelIsExact(o: Oracle, fs: Sizes, gs: Groups, z: map<Ptr, nat>, total: int, i: Id)
    requires AreComponents(o, fs, gs, z, total) && i in gs
    ensures gs[i].may <==> exists p, q :: p in gs[i].ptrs && q in gs[i].ptrs && p != q && !Must(o, fs, p, q)
  {
    hide Connected, Must, AllSized, MayPtrs, Separate, Partition;
    assert GroupOk(o, fs, gs[i]);
    if p, q :| p in Elems(gs[i].ptrs) && q in Elems(gs[i].ptrs) && p != q && !Must(o, fs, p, q) {
      assert p in gs[i].ptrs && q in gs[i].ptrs;
    }
    if p, q :| p in gs[i].ptrs && q in gs[i].ptrs && p != q && !Must(o, fs, p, q) {
      assert p in Elems(gs[i].ptrs) && q in Elems(gs[i].ptrs);
    }
  }

  lemma MayPtrsAre(o: Oracle, fs: Sizes, gs: Groups, z: map<Ptr, nat>, total: int, p: Ptr)
    requires AreComponents(o, fs, gs, z, total) && p in z
    ensures p in MayPtrs(gs) <==>
            exists q, r :: q in z && r in z && Together(gs, p, q) && Together(gs, p, r) && q != r && !Must(o, fs, q, r)
  {
    hide Connected, Must, AllSized, Separate, GroupOk;
    var i :| i in gs && p in gs[i].ptrs;
    LabelIsExact(o, fs, gs, z, total, i);
    if p in MayPtrs(gs) {
      var q, r :| q in gs[i].ptrs && r in gs[i].ptrs && q != r && !Must(o, fs, q, r);
      assert Together(gs, p, q) && Together(gs, p, r);
    }
    if q, r :| q in z && r in z && Together(gs, p, q) && Together(gs, p, r) && q != r && !Must(o, fs, q, r) {
      assert q in gs[i].ptrs && r in gs[i].ptrs;
    }
  }

  lemma CountIs(o: Oracle, fs: Sizes, gs: Groups, z: map<Ptr, nat>, t: int)
    requires AreComponents(o, fs, gs, z, t)
    ensures t == |MayPtrs(gs)| % U32 && MayPtrs(gs) <= z.Keys
  {
    hide Connected, Separate, GroupOk, AllSized;
  }

  /** Trackers that hold the same pointers hold the same sets, labels and count, however they came about. */
  lemma OrderIrrelevant(o: Oracle, fs: Sizes, gs: Groups, y: map<Ptr, nat>, t: int, hs: Groups, z: map<Ptr, nat>, u: int)
    requires AreComponents(o, fs, gs, y, t) && AreComponents(o, fs, hs, z, u) && y.Keys == z.Keys
    ensures forall p, q :: p in z && q in z ==> (Together(gs, p, q) <==> Together(hs, p, q))
    ensures MayPtrs(gs) == MayPtrs(hs) && t == u
  {
    CountIs(o, fs, gs, y, t);
    CountIs(o, fs, hs, z, u);
    hide AreComponents, Together, Linked, Must, MayPtrs;
    forall p, q | p in z && q in z
      ensures Together(gs, p, q) <==> Together(hs, p, q)
    {
      TogetherIffLinked(o, fs, gs, y, t, p, q);
      TogetherIffLinked(o, fs, hs, z, u, p, q);
    }
    forall p | p in z
      ensures p in MayPtrs(gs) <==> p in MayPtrs(hs)
    {
      MayPtrsAre(o, fs, gs, y, t, p);
      MayPtrsAre(o, fs, hs, z, u, p);
    }
  }
}
