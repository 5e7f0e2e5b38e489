/**
 Whole runs of a tracker that only adds pointers: after any number of additions
 in any order, its sets are the connected components of the alias graph.
 */
module AliasHistory {
  import opened AliasGroups
  import opened AliasComponents

  /** What can be seen of a tracker, and the number that its next set gets. */
  datatype View = View(groups: Groups, sizes: map<Ptr, nat>, total: int, next: nat)

  const NO_SETS: View := View(map[], map[], 0, 0)

  /** AliasSetTracker::getAliasSetForPointer, as long as the tracker is not saturated. */
  function AddStep(o: Oracle, v: View, x: Loc): View {
    if x.ptr in v.sizes then
      if x.size <= v.sizes[x.ptr] then v
      else
        var z := v.sizes[x.ptr := x.size];
        var m := MergeUpTo(o, z, x, Part(v.groups, v.total, None), v.next);
        View(m.groups, z, m.total, v.next)
    else
      var m := MergeUpTo(o, v.sizes, x, Part(v.groups, v.total, None), v.next);
      var i := AddedTo(m, v.next);
      var g := GroupAt(m.groups, i);
      View(AddGroups(o, v.sizes, m.groups, i, x), AddedSizes(o, v.sizes, g, x, false),
           AddedTotal(o, v.sizes, g, x, false, m.total), if m.found.Some? then v.next else v.next + 1)
  }

  function AddAll(o: Oracle, xs: seq<Loc>): View {
    if xs == [] then NO_SETS else AddStep(o, AddAll(o, xs[..|xs| - 1]), xs[|xs| - 1])
  }

  ghost predicate Components(o: Oracle, fs: Sizes, v: View) {
    AreComponents(o, fs, v.groups, v.sizes, v.total) && forall i :: i in v.groups ==> i < v.next
  }

  ghost predicate FixedSizes(fs: Sizes, xs: seq<Loc>) {
    forall k :: 0 <= k < |xs| ==> xs[k].size == fs(xs[k].ptr)
  }

  ghost function PtrsOf(xs: seq<Loc>): set<Ptr> { set k | 0 <= k < |xs| :: xs[k].ptr }

  lemma {:induction false} MergeKeys(o: Oracle, z: map<Ptr, nat>, x: Loc, s: Part, n: nat)
    ensures MergeUpTo(o, z, x, s, n).groups.Keys <= s.groups.Keys
  {
    if n > 0 {
      MergeKeys(o, z, x, s, n - 1);
      hide Aliases, MergedTotal, Merged;
    }
  }

  /** Adding a pointer keeps the sets connected components; adding it again changes nothing. */
  lemma AddStepComponents(o: Oracle, fs: Sizes, v: View, p: Ptr)
    requires Consistent(o, fs) && Components(o, fs, v)
    ensures var v' := AddStep(o, v, Loc(p, fs(p)));
            Components(o, fs, v') && v'.sizes.Keys == v.sizes.Keys + {p} && (p in v.sizes ==> v' == v)
  {
    hide Consistent, Components, AddStep;
    if p in v.sizes {
      AlreadyIn(o, fs, v, p);
      assert v.sizes.Keys == v.sizes.Keys + {p};
    } else {
      AddNew(o, fs, v, p);
    }
  }

  lemma AddNew(o: Oracle, fs: Sizes, v: View, p: Ptr)
    requires Consistent(o, fs) && Components(o, fs, v) && p !in v.sizes
    ensures var v' := AddStep(o, v, Loc(p, fs(p)));
            Components(o, fs, v') && v'.sizes.Keys == v.sizes.Keys + {p}
  {
    hide Consistent, AreComponents, MergeUpTo, Halfway, AddedSizes, AddedTotal, Added;
    var x, s := Loc(p, fs(p)), Part(v.groups, v.total, None);
    var m := MergeUpTo(o, v.sizes, x, s, v.next);
    HalfwayStart(o, fs, v.sizes, p, s);
    HalfwayAll(o, fs, v.sizes, p, s, v.next);
    MergeKeys(o, v.sizes, x, s, v.next);
    AddedComponents(o, fs, v.sizes, p, m, v.next);
    FoundBelow(o, fs, v.sizes, p, m, v.next);
    SizesKeys(o, fs, v.sizes, m, v.next, AddedTo(m, v.next), p);
  }

  lemma AlreadyIn(o: Oracle, fs: Sizes, v: View, p: Ptr)
    requires Components(o, fs, v) && p in v.sizes
    ensures AddStep(o, v, Loc(p, fs(p))) == v
  {
    hide Connected, Separate, GroupOk, MayPtrs, Must;
    var i :| i in v.groups && p in v.groups[i].ptrs;
    assert SizedOk(o, fs, v.sizes, v.groups[i]);
    assert StandsFor(o, fs, v.sizes, p, v.groups[i].ptrs);
    assert v.sizes[p] >= fs(p);
  }

  lemma FoundBelow(o: Oracle, fs: Sizes, z: map<Ptr, nat>, p: Ptr, s: Part, n: nat)
    requires Halfway(o, fs, z, p, s, n)
    ensures s.found.Some? ==> s.found.value < n
  {
    hide AllOk, AllJoined, Partition, SeparateBut, AllSizedBut, SelfOk;
  }

  lemma NoneYet(o: Oracle, fs: Sizes)
    ensures Components(o, fs, NO_SETS)
  {
    assert MayPtrs(map[]) == {};
  }

  /** After any additions the sets are the connected components of the pointers added. */
  lemma {:induction false} AddAllComponents(o: Oracle, fs: Sizes, xs: seq<Loc>)
    requires Consistent(o, fs) && FixedSizes(fs, xs)
    ensures Components(o, fs, AddAll(o, xs)) && AddAll(o, xs).sizes.Keys == PtrsOf(xs)
    decreases |xs|
  {
    hide Components, Consistent, AddStep;
    if xs == [] {
      NoneYet(o, fs);
    } else {
      var n := |xs| - 1;
      AddAllComponents(o, fs, xs[..n]);
      AddStepComponents(o, fs, AddAll(o, xs[..n]), xs[n].ptr);
      assert xs[n] == Loc(xs[n].ptr, fs(xs[n].ptr));
      PtrsGrow(xs);
    }
  }

  lemma AddAllStep(o: Oracle, xs: seq<Loc>, n: nat)
    requires n < |xs|
    ensures AddAll(o, xs[..n + 1]) == AddStep(o, AddAll(o, xs[..n]), xs[n])
  {
    assert xs[..n + 1][..n] == xs[..n];
  }

  lemma PtrsStep(xs: seq<Loc>, n: nat)
    requires n < |xs|
    ensures PtrsOf(xs[..n + 1]) == PtrsOf(xs[..n]) + {xs[n].ptr}
  {
    assert xs[..n + 1][..n] == xs[..n];
    PtrsGrow(xs[..n + 1]);
  }

  lemma PtrsGrow(xs: seq<Loc>)
    requires xs != []
    ensures PtrsOf(xs) == PtrsOf(xs[..|xs| - 1]) + {xs[|xs| - 1].ptr}
  {
    var n := |xs| - 1;
    forall p | p in PtrsOf(xs)
      ensures p in PtrsOf(xs[..n]) + {xs[n].ptr}
    {
      var k :| 0 <= k < |xs| && xs[k].ptr == p;
      assert k < n ==> xs[..n][k] == xs[k];
    }
    forall p | p in PtrsOf(xs[..n])
      ensures p in PtrsOf(xs)
    {
      var k :| 0 <= k < n && xs[..n][k].ptr == p;
      assert xs[k].ptr == p;
    }
  }

  /**
   Two runs that add the same pointers, in whatever order and however often, end with the same
   sets, the same labels and the same count: two pointers share a set exactly if a path of
   may-aliasing pointers joins them.
   */
  lemma RunsAgree(o: Oracle, fs: Sizes, xs: seq<Loc>, ys: seq<Loc>)
    requires Consistent(o, fs) && FixedSizes(fs, xs) && FixedSizes(fs, ys) && PtrsOf(xs) == PtrsOf(ys)
    ensures forall p, q :: p in PtrsOf(xs) && q in PtrsOf(xs) ==>
              && (Together(AddAll(o, xs).groups, p, q) <==> Together(AddAll(o, ys).groups, p, q))
              && (Together(AddAll(o, xs).groups, p, q) <==> Linked(o, fs, PtrsOf(xs), p, q))
    ensures MayPtrs(AddAll(o, xs).groups) == MayPtrs(AddAll(o, ys).groups) && AddAll(o, xs).total == AddAll(o, ys).total
  {
    AddAllComponents(o, fs, xs);
    AddAllComponents(o, fs, ys);
    var v, w := AddAll(o, xs), AddAll(o, ys);
    hide AreComponents, Linked, Together, MayPtrs, AddAll, Consistent;
    OrderIrrelevant(o, fs, v.groups, v.sizes, v.total, w.groups, w.sizes, w.total);
    forall p, q | p in PtrsOf(xs) && q in PtrsOf(xs)
      ensures Together(v.groups, p, q) <==> Linked(o, fs, PtrsOf(xs), p, q)
    {
      TogetherIffLinked(o, fs, v.groups, v.sizes, v.total, p, q);
    }
  }

  /** An analysis that knows where everything is: must-alias from the same start on, and no-alias of disjoint or empty ranges. */
  function Ranges(start: Ptr -> int): Oracle {
    Oracle((a, b) => Answer(start, a, b), (_, _) => true, (_, _) => true, _ => true, _ => false)
  }

  function Answer(start: Ptr -> int, a: Loc, b: Loc): AliasResult {
    var x, y := start(a.ptr), start(b.ptr);
    if a.size == 0 || b.size == 0 then NoAlias
    else if x == y then MustAlias
    else if x + a.size <= y || y + b.size <= x then NoAlias
    else PartialAlias
  }

  lemma AnswerFacts(start: Ptr -> int, a: Loc, b: Loc, c: Loc)
    ensures Answer(start, a, b) == Answer(start, b, a)
    ensures Answer(start, a, b) == MustAlias ==> (Answer(start, a, c) == MustAlias <==> Answer(start, b, c) == MustAlias)
    ensures (a.ptr == b.ptr || Answer(start, a, b) == MustAlias) && a.size <= b.size && Answer(start, a, c) != NoAlias ==>
              Answer(start, b, c) != NoAlias && (Answer(start, a, c) == MustAlias <==> Answer(start, b, c) == MustAlias)
  {
  }

  /** It is what a run asks for, whatever the sizes. */
  lemma RangesConsistent(start: Ptr -> int, fs: Sizes)
    ensures Consistent(Ranges(start), fs)
  {
    var o := Ranges(start);
    forall a, b, c {:trigger o.alias(a, b), o.alias(a, c)}
      ensures o.alias(a, b) == o.alias(b, a)
      ensures o.alias(a, b) == MustAlias ==> (o.alias(a, c) == MustAlias <==> o.alias(b, c) == MustAlias)
      ensures (a.ptr == b.ptr || o.alias(a, b) == MustAlias) && a.size <= b.size && o.alias(a, c) != NoAlias ==>
                o.alias(b, c) != NoAlias && (o.alias(a, c) == MustAlias <==> o.alias(b, c) == MustAlias)
    {
      AnswerFacts(start, a, b, c);
    }
    hide OfRun, Ranges, Answer;
  }

  /** A path of three pointers whose neighbours alias. */
  lemma ThreeLinked(o: Oracle, fs: Sizes, ptrs: set<Ptr>, p: Ptr, q: Ptr, r: Ptr)
    requires p in ptrs && q in ptrs && r in ptrs && Edge(o, fs, p, q) && Edge(o, fs, q, r)
    ensures Linked(o, fs, ptrs, p, r)
  {
    assert Links(o, fs, ptrs, p, r, [p, q, r]);
  }

  function StartOf(p: Ptr): int { if p == 2 then 4 else 0 }

  function SizeOf(p: Ptr): nat { if p == 0 then 1 else if p == 1 then 8 else 4 }

  lemma TwoEdges()
    ensures Edge(Ranges(StartOf), SizeOf, 0, 1) && Edge(Ranges(StartOf), SizeOf, 1, 2)
  {
    assert Answer(StartOf, Loc(0, 1), Loc(1, 8)) == MustAlias && Answer(StartOf, Loc(1, 8), Loc(2, 4)) == PartialAlias;
  }

  lemma ThreePointers(xs: seq<Loc>)
    requires xs == [Loc(0, 1), Loc(1, 8), Loc(2, 4)]
    ensures FixedSizes(SizeOf, xs) && 0 in PtrsOf(xs) && 1 in PtrsOf(xs) && 2 in PtrsOf(xs)
  {
    assert xs[0].ptr == 0 && xs[1].ptr == 1 && xs[2].ptr == 2;
  }

  /**
   The size that the first pointer of a must-alias set takes is needed: bytes 4 to 7 do not alias the
   first pointer at its own size, but go to its set because of the larger access to the same place.
   */
  lemma LargestSizeMatters()
    ensures Answer(StartOf, Loc(0, 1), Loc(2, 4)) == NoAlias
    ensures Together(AddAll(Ranges(StartOf), [Loc(0, 1), Loc(1, 8), Loc(2, 4)]).groups, 0, 2)
  {
    var o, xs := Ranges(StartOf), [Loc(0, 1), Loc(1, 8), Loc(2, 4)];
    TwoEdges();
    ThreePointers(xs);
    hide AddAll, Together, Linked, Edge, Consistent, MayPtrs, PtrsOf, Ranges;
    RangesConsistent(StartOf, SizeOf);
    ThreeLinked(o, SizeOf, PtrsOf(xs), 0, 1, 2);
    RunsAgree(o, SizeOf, xs, xs);
  }

  lemma OnlyTwo(xs: seq<Loc>)
    requires xs == [Loc(0, 1), Loc(1, 1)]
    ensures PtrsOf(xs) == {0, 1}
  {
    assert xs[0].ptr == 0 && xs[1].ptr == 1;
  }

  /** Two pointers that may alias are counted as two pointers in may-alias sets. */
  lemma TwoMay(o: Oracle)
    requires forall a, b :: o.alias(a, b) == MayAlias
    ensures AddAll(o, [Loc(0, 1), Loc(1, 1)]).total == 2
  {
    var x, y := Loc(0, 1), Loc(1, 1);
    assert [x, y][..1] == [x] && [x][..0] == [];
    assert AddAll(o, [x][..0]) == NO_SETS;
    var v := AddAll(o, [x]);
    assert v == AddStep(o, NO_SETS, x);
    assert MergeUpTo(o, map[], x, Part(map[], 0, None), 0) == Part(map[], 0, None);
    assert v.groups[0] == Group([0], false, false, [], 1) && v.sizes == map[0 := 1];
    assert v == View(map[0 := Group([0], false, false, [], 1)], map[0 := 1], 0, 1);
    var s := Part(v.groups, v.total, None);
    assert MergeUpTo(o, v.sizes, y, s, 0) == s;
    assert MergeUpTo(o, v.sizes, y, s, 1) == MergeStep(o, v.sizes, y, s, 0) == s.(found := Some(0));
  }
}
