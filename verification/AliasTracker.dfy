/**
 AliasSetTracker: an incremental partition of pointers with lazy forwarding and
 reference counts. The sets and records live in maps of the tracker, so that what
 a pointer to a set is in the original is a number here.
 */
module AliasTracker {
  import opened AliasGroups
  import opened AliasRefs
  import opened AliasWalk
  import opened AliasHistory
  import opened AliasUnknown
  import opened AliasTotals

  class Tracker {
    const o: Oracle
    const threshold: nat
    var sets: map<Id, ASet>
    var recs: map<Ptr, Rec>
    var any: Option<Id>
    var next: Id
    var total: int
    ghost var root: map<Id, Id>
    ghost var held: multiset<Id>
    ghost var young: set<Id>

    ghost function St(): State
      reads this
    {
      State(sets, recs, any, root, held, young)
    }

    ghost function Seen(): View
      reads this
    {
      View(Live(sets), SizesOf(recs), total, next)
    }

    /** By how much, modulo 2^32, the count falls short of the sizes of the may-alias sets. */
    ghost function Uncounted(): int
      reads this
    {
      Missing(sets, total, next)
    }

    ghost predicate Numbered()
      reads this
    {
      (forall k :: k in sets ==> k < next) && (any.Some? ==> any.value < next) && 0 <= total < U32
    }

    /** The invariant of a tracker between operations. */
    ghost predicate Valid()
      reads this
    {
      Inv(St()) && Numbered() && Saturated(St()) && held == multiset{} && young == {}
    }

    constructor (oracle: Oracle, limit: nat)
      ensures Valid() && o == oracle && threshold == limit
      ensures sets == map[] && recs == map[] && any == None && total == 0 && next == 0
    {
      o, threshold := oracle, limit;
      sets, recs, any, next, total := map[], map[], None, 0, 0;
      root, held, young := map[], multiset{}, {};
    }

    /** AliasSet::addRef. */
    method AddRef(x: Id)
      requires Inv(St()) && x in sets
      modifies this`sets, this`held
      ensures Inv(St()) && St() == Hold(old(St()), x)
    {
      hide Inv;
      HoldKeeps(St(), x);
      sets := sets[x := sets[x].(refs := sets[x].refs + 1)];
      held := held + multiset{x};
    }

    /** AliasSet::dropRef. */
    method DropRef(x: Id)
      requires Inv(St()) && x in held && x in sets && young == {} && 0 <= total < U32
      modifies this`sets, this`total, this`root, this`held
      ensures Inv(St()) && x in old(root) && Dropped(old(St()), St(), x) && 0 <= total < U32
      ensures St() == DropAll(old(St()), x)
      ensures x in sets <==> old(sets[x].refs) > 1
      ensures LostEmpty(old(St()), St()) ==> total == old(total)
      ensures Level(old(sets), old(total), sets, total)
      decreases Rank(any, x), 1
    {
      hide Inv, Dropped, Release, DropAll, LostEmpty, Level;
      ghost var t := St();
      DropFacts(t, x);
      DropAllStep(t, x);
      if sets[x].refs > 1 {
        ReleaseKeeps(t, x);
        DroppedOne(t, x);
        ReleaseIs(t, x);
        LevelRelease(t, x, total);
        sets := sets[x := sets[x].(refs := sets[x].refs - 1)];
        held := held - multiset{x};
        assert St() == Release(t, x);
      } else {
        RemoveAliasSet(x);
      }
    }

    /** AliasSetTracker::removeAliasSet, of a set whose last reference goes. */
    method RemoveAliasSet(x: Id)
      requires Inv(St()) && x in held && x in sets && young == {} && 0 <= total < U32 && sets[x].refs == 1
      modifies this`sets, this`total, this`root, this`held
      ensures Inv(St()) && x in old(root) && Dropped(old(St()), St(), x) && 0 <= total < U32
      ensures St() == DropAll(old(St()), x) && x !in sets
      ensures LostEmpty(old(St()), St()) ==> total == old(total)
      ensures Level(old(sets), old(total), sets, total)
      decreases Rank(any, x), 0
    {
      hide Inv, Dropped, Erase, DropAll, LostEmpty, Wrapped, Rank, Level;
      ghost var t := St();
      ErasedFacts(t, x);
      var s := sets[x];
      if s.may {
        total := Wrapped(total - s.size);
      }
      sets, root, held := sets - {x}, root - {x}, Erase(t, x).held;
      ghost var m := St();
      assert m == Erase(t, x);
      ghost var n := total;
      LevelErased(t.sets, old(total), x, n);
      if s.fwd.Some? {
        DropRef(s.fwd.value);
        LevelTrans(t.sets, old(total), m.sets, n, sets, total);
        ErasedThen(t, m, St(), x, s.fwd.value);
      }
    }

    /** AliasSet::getForwardedTarget: follow Forward to the end, and shorten the way. */
    method GetForwardedTarget(x: Id) returns (d: Id)
      requires Inv(St()) && x in sets && young == {} && 0 <= total < U32
      modifies this`sets, this`total, this`root, this`held
      ensures Inv(St()) && 0 <= total < U32
      ensures Tidied(old(St()), St())
      ensures d in sets && x in sets && x in root && d == root[x] && sets[d].fwd.None?
      ensures Untouched(old(St()), St(), x)
      ensures Slim(old(sets)) ==> total == old(total)
      ensures Direct(old(St()), x) ==> St() == old(St())
      ensures Level(old(sets), old(total), sets, total)
      decreases Rank(any, x)
    {
      hide Inv, Tidied, Dropped, DropAll, Untouched, Slim, Hold, ForwardTo, LostEmpty, Level;
      ghost var t := St();
      DropFacts(t, x);
      if sets[x].fwd.None? {
        TidiedSelf(t, x);
        RootOfRoot(t, x);
        LevelSelf(sets, total);
        return x;
      }
      var f := sets[x].fwd.value;
      d := GetForwardedTarget(f);
      ghost var u := St();
      StillForwards(t, u, x, f, d);
      DirectStays(t, x, f);
      if d != f {
        AddRef(d);
        HoldFacts(u, x, d);
        ForwardToKeeps(St(), x, d);
        ghost var v := ForwardTo(St(), x, d);
        ForwardToIs(Hold(u, d), x, d, f);
        sets := sets[x := sets[x].(fwd := Some(d))];
        held := v.held;
        assert St() == v;
        LevelForwarded(u, x, d, total);
        LevelTrans(t.sets, old(total), u.sets, total, v.sets, total);
        ghost var n := total;
        DropRef(f);
        LevelTrans(t.sets, old(total), v.sets, n, sets, total);
        TidyStep(u, v, St(), x, d, f);
        TidiedTrans(t, u, St(), x);
      }
    }

    /** PointerRec::getAliasSet, of a pointer in the tracker. */
    method GetAliasSet(p: Ptr) returns (d: Id)
      requires Inv(St()) && p in recs && young == {} && 0 <= total < U32
      modifies this`sets, this`recs, this`total, this`root, this`held
      ensures Inv(St()) && 0 <= total < U32
      ensures Tidied(old(St()), St())
      ensures old(recs[p].set_) in old(root) && d == old(root)[old(recs[p].set_)]
      ensures d in sets && sets[d].fwd.None? && p in recs && recs[p].set_ == d
      ensures Saturated(old(St())) && any.Some? ==> Saturated(St())
      ensures Slim(old(sets)) ==> total == old(total)
      ensures Level(old(sets), old(total), sets, total)
    {
      hide Inv, Tidied, Dropped, DropAll, Untouched, Slim, Hold, RecordTo, LostEmpty, Saturated, Level;
      ghost var t := St();
      RecordFacts(t, p);
      SaturatedDirect(t, recs[p].set_);
      d := recs[p].set_;
      if sets[d].fwd.None? {
        TidiedSelf(t, d);
        LevelSelf(sets, total);
        return;
      }
      var f := d;
      d := GetForwardedTarget(f);
      ghost var u := St();
      MovedFacts(t, u, p, f, d);
      AddRef(d);
      ghost var h := St();
      HoldIs(u, d);
      RecordToKeeps(h, p, d);
      ghost var v := RecordTo(h, p, d);
      RecordToIs(h, p, d);
      recs := recs[p := recs[p].(set_ := d)];
      held := v.held;
      assert St() == v;
      LevelHold(u, d, total);
      LevelTrans(t.sets, old(total), u.sets, total, v.sets, total);
      ghost var n := total;
      DropRef(f);
      LevelTrans(t.sets, old(total), v.sets, n, sets, total);
      RecordStep(u, v, St(), p, d, f);
      MovedSaturated(u, v, St(), p, d, f);
      TidiedThen(t, u, St());
      AbsentSaturated(t, St());
    }

    /** The first part of AliasSet::mergeSetIn: the label. */
    method MergeLabels(x: Id, y: Id) returns (may: bool)
      requires Inv(St()) && CanMerge(St(), x, y)
      ensures may == MergedMay(o, SizesOf(recs), GroupOf(sets[x]), GroupOf(sets[y]))
    {
      MergeFacts(St(), x, y);
      hide Inv, SizesOf;
      may := sets[x].may || sets[y].may;
      if !may {
        var l, r := sets[x].ptrs[0], sets[y].ptrs[0];
        SizesAt(recs, l);
        SizesAt(recs, r);
        may := o.alias(Loc(l, recs[l].size), Loc(r, recs[r].size)) != MustAlias;
      }
    }

    /** The second part: the count of pointers in may-alias sets. */
    method MergeCounts(x: Id, y: Id, may: bool)
      requires x in sets && y in sets && 0 <= total < U32
      requires may == MergedMay(o, SizesOf(recs), GroupOf(sets[x]), GroupOf(sets[y]))
      modifies this`total
      ensures total == MergedTotal(o, SizesOf(recs), GroupOf(sets[x]), GroupOf(sets[y]), old(total)) && 0 <= total < U32
    {
      LabelTotal(o, SizesOf(recs), GroupOf(sets[x]), GroupOf(sets[y]), total);
      hide Wrapped, MergedTotal, MergedMay, SizesOf;
      if may {
        if !sets[x].may {
          total := Wrapped(total + sets[x].size);
        }
        if !sets[y].may {
          total := Wrapped(total + sets[y].size);
        }
      }
    }

    /** The third part: instructions, pointers and references. */
    static method MergeLists(intoSet: ASet, fromSet: ASet, x: Id, may: bool) returns (sx: ASet, sy: ASet)
      ensures sx == Taker(intoSet, fromSet, may, if fromSet.ptrs == [] then intoSet.size else (intoSet.size + fromSet.size) % U32)
      ensures sy == Taken(fromSet, x)
    {
      sx, sy := intoSet.(may := may), fromSet;
      if sy.unknown != [] {
        if sx.unknown == [] {
          sx := sx.(refs := sx.refs + 1);
        }
        sx := sx.(unknown := sx.unknown + sy.unknown);
        sy := sy.(unknown := []);
      }
      sy := sy.(fwd := Some(x));
      sx := sx.(refs := sx.refs + 1);
      if sy.ptrs != [] {
        sx := sx.(size := (sx.size + sy.size) % U32, ptrs := sx.ptrs + sy.ptrs);
        sy := sy.(size := 0, ptrs := []);
      }
    }

    /** AliasSet::mergeSetIn, of set y into x. */
    method MergeSetIn(x: Id, y: Id)
      requires Inv(St()) && held == multiset{} && young <= {x} && 0 <= total < U32
      requires CanMerge(St(), x, y)
      modifies this`sets, this`total, this`root, this`held, this`young
      ensures Inv(St()) && held == multiset{} && young == {} && 0 <= total < U32
      ensures Merges(old(St()), St(), x, y)
      ensures Live(sets) == Fused(o, SizesOf(recs), Live(old(sets)), x, y)
      ensures old(sets)[y].unknown == [] || old(sets)[y].ptrs != [] ==>
        total == MergedTotal(o, SizesOf(recs), GroupOf(old(sets)[x]), GroupOf(old(sets)[y]), old(total))
      ensures old(sets)[y].may || old(sets)[y].ptrs != [] ==> Level(old(sets), old(total), sets, total)
    {
      hide Inv, Merges, Absorb, Dropped, DropAll, LostEmpty, Fused, Live, SizesOf, Taker, Taken, MergedMay, MergedTotal, Level, Wrapped;
      ghost var t := St();
      var hadUnknown := sets[y].unknown != [];
      var may := MergeLabels(x, y);
      MergeCounts(x, y, may);
      var sx, sy := MergeLists(sets[x], sets[y], x, may);
      ghost var n := if sets[y].ptrs == [] then sets[x].size else (sets[x].size + sets[y].size) % U32;
      MergeProof(o, t, x, y, may, n);
      ghost var u := Absorb(t, x, y, may, n);
      sets := sets[x := sx];
      sets := sets[y := sy];
      root, held, young := u.root, u.held, u.young;
      assert St() == u;
      ghost var c, counted := total, t.sets[y].may || t.sets[y].ptrs != [];
      if counted {
        LevelMerged(o, t, x, y, may, n, old(total));
      }
      if hadUnknown {
        DropRef(y);
        if counted {
          LevelTrans(t.sets, old(total), u.sets, c, sets, total);
        }
      }
    }

    /** The first part of AliasSet::addPointer: the label, and the size of the first pointer. */
    method AddLabel(x: Id, l: Loc, known: bool) returns (may: bool)
      requires Inv(St()) && held == multiset{} && 0 <= total < U32
      requires x in sets && sets[x].fwd.None? && l.ptr !in recs
      requires MayJoin(o, SizesOf(recs), GroupOf(sets[x]), l, known)
      modifies this`recs, this`total
      ensures Inv(St()) && 0 <= total < U32
      ensures recs.Keys == old(recs).Keys && forall q :: q in recs ==> recs[q].set_ == old(recs)[q].set_
      ensures may == AddedMay(o, SizesOf(old(recs)), GroupOf(sets[x]), l, known)
      ensures SizesOf(recs)[l.ptr := l.size] == AddedSizes(o, SizesOf(old(recs)), GroupOf(sets[x]), l, known)
      ensures total == if may && !sets[x].may then (old(total) + sets[x].size) % U32 else old(total)
    {
      hide Inv, SizesOf;
      FirstFacts(St(), x);
      may := sets[x].may;
      if !may && !known && sets[x].ptrs != [] {
        var first := sets[x].ptrs[0];
        SizesAt(recs, first);
        if o.alias(Loc(first, recs[first].size), l) != MustAlias {
          may := true;
          total := (total + sets[x].size) % U32;
        } else {
          ResizeKeeps(St(), first, Max(recs[first].size, l.size));
          SizesPut(recs, first, recs[first].(size := Max(recs[first].size, l.size)));
          recs := recs[first := recs[first].(size := Max(recs[first].size, l.size))];
        }
      }
    }

    /** The last part of AliasSet::addPointer: to the end of the list, with a reference. */
    method Append(x: Id, p: Ptr, size: nat, may: bool)
      requires Inv(St()) && held == multiset{} && young <= {x} && 0 <= total < U32
      requires x in sets && sets[x].fwd.None? && p !in recs && (sets[x].may ==> may)
      modifies this`sets, this`recs, this`total, this`held, this`young
      ensures Inv(St()) && held == multiset{} && young == {} && 0 <= total < U32
      ensures Live(sets) == Live(old(sets))[x := Appended(GroupOf(old(sets)[x]), p, may)]
      ensures recs == old(recs)[p := Rec(x, size)] && OnlyGrows(old(sets), sets, x) && SameInsts(old(sets), sets, x)
      ensures total == if may then (old(total) + 1) % U32 else old(total)
      ensures sets[x].may == may && sets[x].size == (old(sets)[x].size + 1) % U32
    {
      hide Inv, Hold, Enter, Live, Appended, OnlyGrows, SameInsts;
      ghost var m := St();
      if may {
        total := (total + 1) % U32;
      }
      AddRef(x);
      HoldIs(m, x);
      AppendProof(m, x, p, size, may);
      sets := sets[x := sets[x].(ptrs := sets[x].ptrs + [p], may := may, size := (sets[x].size + 1) % U32)];
      recs := recs[p := Rec(x, size)];
      held, young := multiset{}, {};
    }

    /** AliasSet::addPointer. */
    method AddPointerTo(x: Id, p: Ptr, size: nat, known: bool)
      requires Inv(St()) && held == multiset{} && young <= {x} && 0 <= total < U32
      requires x in sets && sets[x].fwd.None? && p !in recs
      requires MayJoin(o, SizesOf(recs), GroupOf(sets[x]), Loc(p, size), known)
      modifies this`sets, this`recs, this`total, this`held, this`young
      ensures Inv(St()) && held == multiset{} && young == {} && 0 <= total < U32
      ensures Live(sets) == Live(old(sets))[x := Added(o, SizesOf(old(recs)), GroupOf(old(sets)[x]), Loc(p, size), known)]
      ensures SizesOf(recs) == AddedSizes(o, SizesOf(old(recs)), GroupOf(old(sets)[x]), Loc(p, size), known)
      ensures total == AddedTotal(o, SizesOf(old(recs)), GroupOf(old(sets)[x]), Loc(p, size), known, old(total))
      ensures recs.Keys == old(recs).Keys + {p} && recs[p] == Rec(x, size)
      ensures forall q :: q in old(recs) ==> recs[q].set_ == old(recs)[q].set_
      ensures OnlyGrows(old(sets), sets, x) && SameInsts(old(sets), sets, x)
      ensures Level(old(sets), old(total), sets, total)
    {
      hide Inv, Live, SizesOf, AddedMay, AddedSizes, MayJoin, Added, AddedTotal, Appended, OnlyGrows, SameInsts, Level;
      ghost var g, z, t0 := GroupOf(sets[x]), SizesOf(recs), total;
      var may := AddLabel(x, Loc(p, size), known);
      TotalIs(o, z, g, Loc(p, size), known, t0);
      SizesPut(recs, p, Rec(x, size));
      Append(x, p, size, may);
      AppendedIs(o, z, g, Loc(p, size), known);
      LevelGrown(old(sets), t0, sets, total, x, may);
    }

    /** AliasSet::addUnknownInst. */
    method AddUnknownTo(x: Id, i: Inst)
      requires Inv(St()) && held == multiset{} && young <= {x} && x in sets && sets[x].fwd.None?
      modifies this`sets, this`held, this`young
      ensures Inv(St()) && held == multiset{} && young == {}
      ensures Live(sets) == Live(old(sets))[x := GroupOf(old(sets)[x]).(unknown := old(sets)[x].unknown + [i], may := true)]
      ensures sets.Keys == old(sets).Keys && forall k :: k in sets && k != x ==> sets[k] == old(sets)[k]
      ensures sets[x] == old(sets)[x].(unknown := old(sets)[x].unknown + [i], may := true, refs := sets[x].refs)
    {
      hide Inv, Hold, Witness, Live;
      ghost var t := St();
      if sets[x].unknown == [] {
        AddRef(x);
        HeldFacts(t, x);
      } else {
        KnownNotYoung(t, x);
      }
      ghost var m := St();
      WitnessKeeps(m, x, i);
      LiveWitness(m, x, i);
      WitnessIs(m, x, i);
      ghost var w := Witness(m, x, i);
      sets := sets[x := sets[x].(unknown := sets[x].unknown + [i], may := true)];
      held, young := w.held, w.young;
      assert St() == w;
    }

    /** The loop of aliasesPointer over the pointers of a may-alias set. */
    method AsksPointers(ptrs: seq<Ptr>, l: Loc) returns (b: bool)
      requires forall q :: q in ptrs ==> q in recs
      ensures b <==> exists q :: q in ptrs && o.alias(l, LocOf(SizesOf(recs), q)) != NoAlias
    {
      hide SizesOf;
      for k := 0 to |ptrs|
        invariant forall j :: 0 <= j < k ==> o.alias(l, LocOf(SizesOf(recs), ptrs[j])) == NoAlias
      {
        SizesAt(recs, ptrs[k]);
        if o.alias(l, Loc(ptrs[k], recs[ptrs[k]].size)) != NoAlias {
          return true;
        }
      }
      return false;
    }

    /** And over its instructions. */
    method AsksInsts(unknown: seq<Inst>, l: Loc) returns (b: bool)
      ensures b <==> exists j :: j in unknown && o.instTouches(j, l)
    {
      for k := 0 to |unknown|
        invariant forall j :: 0 <= j < k ==> !o.instTouches(unknown[j], l)
      {
        if o.instTouches(unknown[k], l) {
          return true;
        }
      }
      return false;
    }

    /** AliasSet::aliasesPointer. */
    method AliasesPointer(x: Id, l: Loc) returns (b: bool)
      requires Inv(St()) && x in sets && sets[x].fwd.None?
      requires !sets[x].may && !sets[x].any ==> sets[x].ptrs != []
      ensures b <==> sets[x].any || !ClearOf(o, SizesOf(recs), GroupOf(sets[x]), l)
    {
      FirstFacts(St(), x);
      hide Inv, SizesOf;
      var s := sets[x];
      if s.any {
        return true;
      }
      if !s.may {
        SizesAt(recs, s.ptrs[0]);
        return o.alias(Loc(s.ptrs[0], recs[s.ptrs[0]].size), l) != NoAlias;
      }
      b := AsksPointers(s.ptrs, l);
      if !b {
        b := AsksInsts(s.unknown, l);
      }
    }

    /** The loop of aliasesUnknownInst over the instructions of a set. */
    method AsksInterfering(unknown: seq<Inst>, i: Inst) returns (b: bool)
      ensures b <==> exists j :: j in unknown && o.instsInterfere(j, i)
    {
      for k := 0 to |unknown|
        invariant forall j :: 0 <= j < k ==> !o.instsInterfere(unknown[j], i)
      {
        if o.instsInterfere(unknown[k], i) {
          return true;
        }
      }
      return false;
    }

    /** And over its pointers. */
    method AsksTouched(ptrs: seq<Ptr>, i: Inst) returns (b: bool)
      requires forall q :: q in ptrs ==> q in recs
      ensures b <==> exists q :: q in ptrs && o.instTouches(i, LocOf(SizesOf(recs), q))
    {
      hide SizesOf;
      for k := 0 to |ptrs|
        invariant forall j :: 0 <= j < k ==> !o.instTouches(i, LocOf(SizesOf(recs), ptrs[j]))
      {
        SizesAt(recs, ptrs[k]);
        if o.instTouches(i, Loc(ptrs[k], recs[ptrs[k]].size)) {
          return true;
        }
      }
      return false;
    }

    /** AliasSet::aliasesUnknownInst. */
    method AliasesUnknownInst(x: Id, i: Inst) returns (b: bool)
      requires Inv(St()) && x in sets && sets[x].fwd.None?
      ensures b <==> sets[x].any || (o.mayTouchMemory(i) && !ApartFrom(o, SizesOf(recs), GroupOf(sets[x]), i))
    {
      FirstFacts(St(), x);
      hide Inv, SizesOf;
      var s := sets[x];
      if s.any {
        return true;
      }
      if !o.mayTouchMemory(i) {
        return false;
      }
      b := AsksInterfering(s.unknown, i);
      if !b {
        b := AsksTouched(s.ptrs, i);
      }
    }

    // ---------- Operations of the tracker ----------

    /** Between operations: nothing is counted that is not stored. */
    ghost predicate Stable()
      reads this
    {
      Inv(St()) && Numbered() && held == multiset{} && young == {}
    }

    /** AliasSetTracker::mergeAliasSetsForPointer. */
    method MergeAliasSetsForPointer(l: Loc) returns (found: Option<Id>)
      requires Stable() && any == None
      modifies this`sets, this`total, this`root, this`held, this`young
      ensures Stable()
      ensures var m := MergeUpTo(o, SizesOf(recs), l, Part(Live(old(sets)), old(total), None), next);
              && Live(sets) == m.groups && found == m.found
              && (Quiet(old(sets)) ==> Quiet(sets) && total == m.total)
      ensures found.Some? ==>
        && found.value in sets && sets[found.value].fwd.None?
        && MayJoin(o, SizesOf(recs), GroupOf(sets[found.value]), l, false)
      ensures Level(old(sets), old(total), sets, total)
    {
      hide Inv, Aliases, Fused, SizesOf, Quiet, Live, Merges, MayJoin, ClearOf, Level;
      LevelSelf(sets, total);
      found := None;
      ghost var z, s0 := SizesOf(recs), Part(Live(sets), total, None);
      MergeFrom(o, z, l, s0);
      for n := 0 to next
        invariant Stable() && any == None
        invariant MergeUpTo(o, z, l, s0, n).groups == Live(sets) && MergeUpTo(o, z, l, s0, n).found == found
        invariant Quiet(old(sets)) ==> Quiet(sets) && total == MergeUpTo(o, z, l, s0, n).total
        invariant found.Some? ==> found.value < n && found.value in sets && sets[found.value].fwd.None?
        invariant found.Some? ==> MayJoin(o, z, GroupOf(sets[found.value]), l, false)
        invariant Level(old(sets), old(total), sets, total)
      {
        ghost var t, c := St(), total;
        LiveAt(sets, n);
        MergeOne(o, z, l, s0, n);
        hide MergeUpTo, MergeStep;
        if n in sets && sets[n].fwd.None? {
          LiveHasFirst(t, n, next);
          ClearIff(o, z, GroupOf(sets[n]), l);
          var hit := AliasesPointer(n, l);
          if hit {
            if found.None? {
              found := Some(n);
              FoundMayJoin(o, z, GroupOf(sets[n]), l);
            } else {
              var f := found.value;
              LiveHasFirst(t, f, next);
              LiveAt(sets, f);
              MergeQuiet(t, f, n);
              MergeSetIn(f, n);
              LevelTrans(old(sets), old(total), t.sets, c, sets, total);
              MergedQuiet(t, St(), f, n);
              MergedMayJoin(o, t, St(), f, n, l);
            }
          }
        }
      }
    }

    /** The set that a saturated tracker keeps a pointer to has not been removed. */
    ghost predicate Usable()
      reads this
    {
      any.Some? ==> any.value in sets
    }

    /** Pointer p is in set r, and in no other. */
    ghost predicate Holds(r: Id, p: Ptr)
      reads this
    {
      r in sets && sets[r].fwd.None? && p in sets[r].ptrs && forall k :: k in sets && p in sets[k].ptrs ==> k == r
    }

    /** AliasSetTracker::getAliasSetForPointer, of a saturated tracker. */
    method GetSaturated(p: Ptr, size: nat) returns (r: Id)
      requires Valid() && Usable() && any.Some?
      modifies this`sets, this`recs, this`total, this`held, this`young
      ensures Valid() && Usable()
      ensures r == any.value && Holds(r, p) && recs.Keys == old(recs).Keys + {p}
      ensures SizesOf(recs) == SizesOf(old(recs))[p := if p in old(recs) then Max(size, old(recs)[p].size) else size]
      ensures any == old(any) && r in old(sets) && sets[r].unknown == old(sets)[r].unknown
      ensures Uncounted() == old(Uncounted())
    {
      hide Inv, SizesOf, Live, Saturated, MayJoin, Added, AddedSizes, AddedTotal, Level, Missing;
      r := any.value;
      FullIs(St(), r);
      ghost var t := St();
      if p in recs {
        ResizeKeeps(St(), p, Max(size, recs[p].size));
        SizesPut(recs, p, recs[p].(size := Max(size, recs[p].size)));
        RecordFacts(t, p);
        assert root[recs[p].set_] == r;
        recs := recs[p := recs[p].(size := Max(size, recs[p].size))];
        SameSaturated(t, St());
      } else {
        FullSizes(o, SizesOf(recs), GroupOf(sets[r]), Loc(p, size));
        AddPointerTo(r, p, size, false);
        LevelAt(t.sets, old(total), sets, total, next);
        StillSaturatedAt(t, St(), r);
      }
      HeldBy(St(), p);
      FullIs(St(), r);
    }

    /** A new set at the end of the list, which takes everything if full. */
    method NewSet(full: bool) returns (r: Id)
      requires Stable() && (full ==> any == None)
      modifies this`sets, this`any, this`root, this`young, this`next
      ensures Inv(St()) && Numbered() && young == {r} && r == old(next) && next == r + 1 && r !in old(sets)
      ensures sets == old(sets)[r := if full then ANY_SET else NEW_SET] && St() == Create(old(St()), r, full)
      ensures any == if full then Some(r) else old(any)
      ensures Live(sets) == Live(old(sets))[r := if full then Group([], true, true, [], 0) else NEW_GROUP]
      ensures Uncounted() == old(Uncounted())
    {
      hide Inv, Live, Missing;
      MissingNew(sets, next, total, full);
      r := next;
      CreateKeeps(St(), r, full);
      LiveCreate(St(), r, full);
      ghost var c := Create(St(), r, full);
      sets := sets[r := if full then ANY_SET else NEW_SET];
      any := if full then Some(r) else any;
      root, young := c.root, c.young;
      next := next + 1;
      assert St() == c;
    }

    /** getAliasSetForPointer, of a pointer that is in the tracker. */
    method GetKnown(p: Ptr, size: nat) returns (r: Id)
      requires Valid() && any == None && p in recs
      modifies this`sets, this`recs, this`total, this`root, this`held, this`young, this`next, this`any
      ensures Valid() && any == None && Holds(r, p) && recs.Keys == old(recs).Keys + {p}
      ensures var v := AddStep(o, old(Seen()), Loc(p, size));
              && Live(sets) == v.groups && SizesOf(recs) == v.sizes && next == v.next
              && (Quiet(old(sets)) ==> Quiet(sets) && total == v.total)
      ensures Level(old(sets), old(total), sets, total)
    {
      hide Inv, SizesOf, Live, MergeUpTo, Quiet, Slim, Tidied, Untouched, Holds, Level;
      SizesKnown(recs, p);
      LevelSelf(sets, total);
      if size > recs[p].size {
        ResizeKeeps(St(), p, size);
        SizesPut(recs, p, recs[p].(size := size));
        recs := recs[p := recs[p].(size := size)];
        var _ := MergeAliasSetsForPointer(Loc(p, size));
      }
      ghost var u, c := St(), total;
      QuietSlim(u.sets);
      r := GetAliasSet(p);
      ghost var w, d := St(), total;
      LevelTrans(old(sets), old(total), u.sets, c, w.sets, d);
      TidiedQuiet(u, w);
      QuietSlim(w.sets);
      r := GetForwardedTarget(r);
      TidiedQuiet(w, St());
      LevelTrans(old(sets), old(total), w.sets, d, sets, total);
      HeldBy(St(), p);
      assert Holds(r, p) by { HoldsIs(r, p); }
    }

    /** The set that a new pointer goes to: the one merged from all that alias it, or a new one. */
    method PlaceFor(l: Loc) returns (r: Id)
      requires Valid() && any == None
      modifies this`sets, this`total, this`root, this`held, this`young, this`next, this`any
      ensures Inv(St()) && Numbered() && held == multiset{} && young <= {r} && any == None
      ensures r in sets && sets[r].fwd.None? && MayJoin(o, SizesOf(recs), GroupOf(sets[r]), l, false)
      ensures var m := MergeUpTo(o, SizesOf(recs), l, Part(Live(old(sets)), old(total), None), old(next));
              && r == AddedTo(m, old(next)) && next == (if m.found.Some? then old(next) else old(next) + 1)
              && Live(sets) == m.groups[r := GroupAt(m.groups, r)] && GroupOf(sets[r]) == GroupAt(m.groups, r)
              && (Quiet(old(sets)) ==> Quiet(sets) && total == m.total)
      ensures Uncounted() == old(Uncounted()) && sets.Keys <= old(sets).Keys + {old(next)}
    {
      hide Inv, SizesOf, Live, MayJoin, MergeUpTo, Quiet, Level, Missing;
      var found := MergeAliasSetsForPointer(l);
      LevelAt(old(sets), old(total), sets, total, next);
      LevelKeys(old(sets), old(total), sets, total);
      if found.Some? {
        r := found.value;
        LiveAt(sets, r);
      } else {
        LiveAt(sets, next);
        FreshQuiet(sets, next);
        r := NewSet(false);
        FreshMayJoin(o, SizesOf(recs), l);
      }
    }

    /** getAliasSetForPointer, of a new pointer. */
    method GetNew(p: Ptr, size: nat) returns (r: Id)
      requires Valid() && any == None && p !in recs
      modifies this`sets, this`recs, this`total, this`root, this`held, this`young, this`next, this`any
      ensures Valid() && any == None && Holds(r, p) && recs.Keys == old(recs).Keys + {p}
      ensures var v := AddStep(o, old(Seen()), Loc(p, size));
              && Live(sets) == v.groups && SizesOf(recs) == v.sizes && next == v.next
              && (Quiet(old(sets)) ==> Quiet(sets) && total == v.total)
      ensures Uncounted() == old(Uncounted()) && sets.Keys <= old(sets).Keys + {old(next)}
    {
      hide Inv, SizesOf, Live, MayJoin, Added, AddedSizes, AddedTotal, MergeUpTo, Quiet, Holds, OnlyGrows, SameInsts, AddStep, Level, Missing;
      SizesKnown(recs, p);
      AddStepNew(o, Seen(), Loc(p, size));
      r := PlaceFor(Loc(p, size));
      ghost var b, c := sets, total;
      AddPointerTo(r, p, size, false);
      LevelAt(b, c, sets, total, next);
      GrowsKeys(b, sets, r);
      HeldBy(St(), p);
      RootOfRoot(St(), r);
      assert Holds(r, p) by { HoldsIs(r, p); }
    }

    lemma HoldsIs(r: Id, p: Ptr)
      requires r in sets && sets[r].fwd.None? && p in sets[r].ptrs && forall k :: k in sets && p in sets[k].ptrs ==> k == r
      ensures Holds(r, p)
    {
    }

    /** AliasSetTracker::getAliasSetForPointer, of a tracker that is not saturated. */
    method GetAliasSetForPointer(p: Ptr, size: nat) returns (r: Id)
      requires Valid() && any == None
      modifies this`sets, this`recs, this`total, this`root, this`held, this`young, this`next, this`any
      ensures Valid() && any == None && Holds(r, p) && recs.Keys == old(recs).Keys + {p}
      ensures var v := AddStep(o, old(Seen()), Loc(p, size));
              && Live(sets) == v.groups && SizesOf(recs) == v.sizes && next == v.next
              && (Quiet(old(sets)) ==> Quiet(sets) && total == v.total)
      ensures Uncounted() == old(Uncounted()) && sets.Keys <= old(sets).Keys + {old(next)}
    {
      hide Inv, SizesOf, Live, Quiet, Holds, AddStep, Level, Missing;
      if p in recs {
        SizesKnown(recs, p);
        NextSame(o, Seen(), Loc(p, size));
        r := GetKnown(p, size);
        LevelAt(old(sets), old(total), sets, total, next);
        LevelKeys(old(sets), old(total), sets, total);
      } else {
        r := GetNew(p, size);
      }
    }

    /** AliasSetTracker::findAliasSetForUnknownInst. */
    method FindAliasSetForUnknownInst(i: Inst) returns (found: Option<Id>)
      requires Valid()
      modifies this`sets, this`total, this`root, this`held, this`young
      ensures Valid()
      ensures Live(sets) == MergeInstUpTo(o, SizesOf(recs), i, Found(Live(old(sets)), None), next).groups
      ensures found == MergeInstUpTo(o, SizesOf(recs), i, Found(Live(old(sets)), None), next).found
      ensures found.Some? ==> found.value in sets && sets[found.value].fwd.None?
      ensures any.None? && o.mayTouchMemory(i) ==>
                Gathered(Live(old(sets)), Live(sets), found, Met(o, SizesOf(recs), i, Live(old(sets))))
      ensures Level(old(sets), old(total), sets, total)
    {
      hide Inv, AliasesInst, Fused, SizesOf, Live, Merges, Saturated, Gathered, Met, HitInst, Unsaturated, ApartFrom, Level;
      LiveUnsaturated(St(), next);
      LevelSelf(sets, total);
      found := None;
      ghost var z, s0 := SizesOf(recs), Found(Live(sets), None);
      MergeInstFrom(o, z, i, s0);
      for n := 0 to next
        invariant Valid() && any == old(any)
        invariant MergeInstUpTo(o, z, i, s0, n) == Found(Live(sets), found)
        invariant found.Some? ==> found.value < n && found.value in sets && sets[found.value].fwd.None?
        invariant Level(old(sets), old(total), sets, total)
      {
        ghost var t, c := St(), total;
        LiveAt(sets, n);
        MergeInstOne(o, z, i, s0, n);
        hide MergeInstUpTo, MergeInstStep;
        if n in sets && sets[n].fwd.None? {
          LiveHasFirst(t, n, next);
          ApartIff(o, z, GroupOf(sets[n]), i);
          var hit := AliasesUnknownInst(n, i);
          if hit {
            if found.None? {
              found := Some(n);
            } else {
              var f := found.value;
              LiveHasFirst(t, f, next);
              LiveAt(sets, f);
              TwoLive(t, f, n);
              MergeSetIn(f, n);
              LevelTrans(old(sets), old(total), t.sets, c, sets, total);
              MergedQuiet(t, St(), f, n);
              MergedSaturated(t, St(), f, n);
            }
          }
        }
      }
      if any.None? && o.mayTouchMemory(i) {
        InstGathered(o, z, i, s0.groups, next);
      }
    }

    /** The set that an instruction goes to: the one merged from all that it meets, or a new one. */
    method PlaceForInst(i: Inst) returns (r: Id)
      requires Valid() && o.mayTouchMemory(i)
      modifies this`sets, this`any, this`total, this`root, this`held, this`young, this`next
      ensures Inv(St()) && Numbered() && Saturated(St()) && held == multiset{} && young <= {r} && any == old(any)
      ensures r in sets && sets[r].fwd.None?
      ensures var m := MergeInstUpTo(o, SizesOf(recs), i, Found(Live(old(sets)), None), old(next));
              && r == (if m.found.Some? then m.found.value else old(next))
              && Live(sets) == m.groups[r := GroupAt(m.groups, r)] && GroupOf(sets[r]) == GroupAt(m.groups, r)
      ensures Uncounted() == old(Uncounted()) && next == if r == old(next) then old(next) + 1 else old(next)
    {
      hide Inv, SizesOf, Live, MergeInstUpTo, Saturated, Gathered, Met, Level, Missing;
      ghost var gs := Live(sets);
      var found := FindAliasSetForUnknownInst(i);
      LevelAt(old(sets), old(total), sets, total, next);
      LevelKeys(old(sets), old(total), sets, total);
      ghost var t := St();
      if found.Some? {
        r := found.value;
        LiveAt(sets, r);
      } else {
        LiveAt(sets, next);
        NothingFound(o, t, i, gs, next);
        r := NewSet(false);
        NewSaturated(t, St(), St(), r);
      }
    }

    /** AliasSetTracker::addUnknown. What is in a set that was must-alias so far is not counted. */
    method AddUnknown(i: Inst) returns (ghost r: Id, ghost was: Group)
      requires Valid()
      modifies this`sets, this`any, this`total, this`root, this`held, this`young, this`next
      ensures Valid() && any == old(any)
      ensures !Recorded(o, i) ==> Seen() == old(Seen()) && Uncounted() == old(Uncounted()) && sets == old(sets)
      ensures Recorded(o, i) ==> Live(sets) == WithInst(o, SizesOf(recs), i, Live(old(sets)), old(next))
      ensures Recorded(o, i) && any.None? ==> PlacedAt(o, SizesOf(recs), i, Live(old(sets)), Live(sets), r)
      ensures Recorded(o, i) ==>
                && r in Live(sets) && Live(sets)[r] == was.(unknown := was.unknown + [i], may := true)
                && Uncounted() == (old(Uncounted()) + if was.may then 0 else was.size) % U32
                && was == GroupAt(MergeInstUpTo(o, SizesOf(recs), i, Found(Live(old(sets)), None), old(next)).groups, r)
                && next == if r == old(next) then old(next) + 1 else old(next)
    {
      hide Inv, SizesOf, Live, MergeInstUpTo, GroupAt, Saturated, PlacedAt, Unsaturated, WithInst, Missing, OnlyGrows;
      r, was := next, NEW_GROUP;
      if o.marker(i) || !o.mayTouchMemory(i) {
        return;
      }
      ghost var z, gs, n := SizesOf(recs), Live(sets), next;
      if any.None? {
        LiveUnsaturated(St(), next);
        r := InstPlaced(o, z, i, gs, next);
      }
      var x := PlaceForInst(i);
      ghost var t := St();
      LiveAt(sets, x);
      JoinedIs(o, z, i, gs, n, Live(sets), x);
      AddUnknownTo(x, i);
      WitnessGrows(t.sets, sets, x);
      StillSaturatedAt(t, St(), x);
      MissingMore(t.sets, sets, x, total, next);
      r, was := x, GroupOf(t.sets[x]);
    }

    /** mergeAllAliasSets, of a set that forwards: forward to the new set instead. */
    method ForwardToFull(n: Id, a: Id, ghost t0: State)
      requires Inv(St()) && Numbered() && Gathering(t0, St(), a, n) && n < a && n in t0.sets && n in sets && sets[n].fwd.Some?
      requires Closed(t0) && forall k :: k in t0.sets && t0.sets[k].fwd.Some? ==> t0.sets[k].fwd.value < k
      modifies this`sets, this`total, this`root, this`held
      ensures Inv(St()) && Gathering(t0, St(), a, n + 1) && 0 <= total < U32
      ensures Level(old(sets), old(total), sets, total)
    {
      hide Inv, Gathering, Create, Hold, ForwardTo, DropAll, Dropped, CanForward, Closed, Level;
      ghost var t := St();
      var f := sets[n].fwd.value;
      GatherForward(t0, t, a, n);
      GatherThere(t0, t, a, n);
      AddRef(a);
      HoldIs(t, a);
      ForwardToKeeps(St(), n, a);
      ForwardToIs(St(), n, a, f);
      ghost var v := ForwardTo(St(), n, a);
      sets := sets[n := sets[n].(fwd := Some(a))];
      held := v.held;
      assert St() == v;
      ghost var c := total;
      LevelForwarded(t, n, a, c);
      DropRef(f);
      LevelTrans(t.sets, c, v.sets, c, sets, total);
      GatherForwarded(t0, t, St(), a, n, f);
    }

    /** AliasSetTracker::mergeAllAliasSets. */
    method MergeAllAliasSets() returns (a: Id)
      requires Valid() && any == None && recs != map[]
      modifies this`sets, this`any, this`total, this`root, this`held, this`young, this`next
      ensures Valid() && any == Some(a) && a == old(next) && a in sets
      ensures forall j :: j in sets[a].unknown <==> exists k :: k in old(sets) && j in old(sets)[k].unknown
      ensures Quiet(old(sets)) ==> sets[a].unknown == []
      ensures Uncounted() == old(Uncounted())
    {
      hide Inv, Gathering, Saturated, Merges, Create, CanMerge, Closed, Live, SizesOf, Quiet, Level, Missing;
      ghost var t0 := St();
      SomeSet(t0);
      ForwardsDown(t0);
      GatherStart(t0, next);
      var collected := sets.Keys;
      a := NewSet(true);
      assert St() == Create(t0, a, true);
      ghost var s1, c1 := sets, total;
      LevelSelf(sets, total);
      for n := 0 to a
        invariant Inv(St()) && next == a + 1 && Gathering(t0, St(), a, n) && 0 <= total < U32
        invariant Level(s1, c1, sets, total)
      {
        ghost var t, c := St(), total;
        GatherNumbered(t0, t, a, n);
        if n !in collected {
          GatherNone(t0, t, a, n);
        } else {
          GatherThere(t0, t, a, n);
          if sets[n].fwd.Some? {
            ForwardToFull(n, a, t0);
          } else {
            GatherCanMerge(t0, t, a, n);
            LiveHasFirst(t, n, next);
            MergeSetIn(a, n);
            GatherMerged(t0, t, St(), a, n);
          }
          LevelTrans(s1, c1, t.sets, c, sets, total);
        }
      }
      GatheredAll(t0, St(), a);
      GatherNumbered(t0, St(), a, a);
      LevelAt(s1, c1, sets, total, next);
    }

    /** A saturated tracker has one set that does not forward, with every pointer in it. */
    ghost predicate OneSet()
      reads this
    {
      any.Some? && any.value in sets && Live(sets).Keys == {any.value} && Elems(sets[any.value].ptrs) == recs.Keys
    }

    /** Every access was to a known location. */
    ghost predicate NoInsts()
      reads this
    {
      if any.Some? then any.value in sets && sets[any.value].unknown == [] else Quiet(sets)
    }

    /** AliasSetTracker::addPointer. */
    method Add(p: Ptr, size: nat) returns (r: Id, ghost before: map<Id, ASet>)
      requires Valid() && Usable()
      modifies this
      ensures Valid() && Usable() && Holds(r, p) && recs.Keys == old(recs).Keys + {p}
      ensures any.Some? ==> OneSet() && r == any.value
      ensures old(NoInsts()) ==> NoInsts()
      ensures old(any).None? ==>
                var v := AddStep(o, old(Seen()), Loc(p, size));
                && SizesOf(recs) == v.sizes
                && (any.None? ==> Live(sets) == v.groups && next == v.next)
                && (Quiet(old(sets)) ==>
                      && (any.Some? <==> v.total > threshold)
                      && (any.None? ==> Quiet(sets) && total == v.total))
      ensures Uncounted() == old(Uncounted())
      ensures old(any).None? ==>
                var v := AddStep(o, old(Seen()), Loc(p, size));
                && Live(before) == v.groups && Below(before, v.next) && (any.None? ==> before == sets)
                && (any.Some? <==> (MaySum(before, v.next) - old(Uncounted())) % U32 > threshold)
      ensures old(any).Some? ==>
                && any == old(any)
                && SizesOf(recs) == SizesOf(old(recs))[p := if p in old(recs) then Max(size, old(recs)[p].size) else size]
    {
      hide Inv, SizesOf, Live, AddStep, Quiet, Saturated, Missing, MaySum;
      before := sets;
      if any.Some? {
        r := GetSaturated(p, size);
      } else {
        r := GetAliasSetForPointer(p, size);
        FirstFacts(St(), r);
        before := sets;
        CountIs(sets, total, next);
        if total > threshold {
          r := MergeAllAliasSets();
        }
      }
      if any.Some? {
        FullIs(St(), any.value);
        FullHasAll(St(), any.value);
        HeldBy(St(), p);
      }
    }

    /** AliasSetTracker::deleteValue. */
    method DeleteValue(p: Ptr)
      requires Valid()
      modifies this`sets, this`recs, this`total, this`root, this`held
      ensures Valid()
      ensures p !in old(recs) ==> Seen() == old(Seen())
      ensures p in old(recs) ==>
                && old(recs[p].set_) in old(root)
                && SizesOf(recs) == SizesOf(old(recs)) - {p} && recs.Keys == old(recs).Keys - {p}
                && var x := old(root)[old(recs[p].set_)];
                && Deleted(Live(old(sets)), Live(sets), x, p)
                && x in Live(old(sets))
                && (old(any) == Some(x) ==> (Usable() <==> recs != map[] || Live(old(sets))[x].unknown != []))
      ensures Uncounted() == old(Uncounted()) && sets.Keys <= old(sets).Keys && any == old(any) && next == old(next)
    {
      hide Inv, SizesOf, Live, Tidied, Saturated, Leave, DropAll, Dropped, Deleted, LostEmpty, Wrapped, Level, Missing;
      if p !in recs {
        return;
      }
      ghost var t0 := St();
      var x := GetAliasSet(p);
      ghost var t, c1 := St(), total;
      TidiedQuiet(t0, t);
      UnsaturatedIs(t);
      LiveAt(sets, x);
      Unlink(p, x);
      ghost var m, c := St(), total;
      LeaveIs(t, p, x, sets[x].size);
      SizesDel(t.recs, p);
      LevelTrans(old(sets), old(total), t.sets, c1, m.sets, c);
      DropRef(x);
      LevelTrans(old(sets), old(total), m.sets, c, sets, total);
      LevelAt(old(sets), old(total), sets, total, next);
      LevelKeys(old(sets), old(total), sets, total);
      DeleteFacts(t, m, St(), p, x, m.sets[x].size, next);
    }

    /** deleteValue up to the reference: the pointer leaves its list and the map of pointers. */
    method Unlink(p: Ptr, x: Id)
      requires Inv(St()) && CanLeave(St(), p, x) && held == multiset{} && 0 <= total < U32
      modifies this`sets, this`recs, this`total, this`held
      ensures x in sets && Inv(St()) && St() == Leave(old(St()), p, x, sets[x].size) && 0 <= total < U32
      ensures sets[x].size == if sets[x].may then Wrapped(old(sets)[x].size - 1) else old(sets)[x].size
      ensures total == if sets[x].may then Wrapped(old(total) - 1) else old(total)
      ensures Level(old(sets), old(total), sets, total) && sets[x].may == old(sets)[x].may
    {
      hide Inv, Leave, Wrapped, Level;
      ghost var t := St();
      var s := sets[x];
      if s.may {
        s := s.(size := Wrapped(s.size - 1));
        total := Wrapped(total - 1);
      }
      LeaveKeeps(t, p, x, s.size);
      LeaveIs(t, p, x, s.size);
      sets := sets[x := s.(ptrs := Without(s.ptrs, p))];
      recs := recs - {p};
      held := held + multiset{x};
      assert St() == Leave(t, p, x, s.size);
      LevelLeft(t.sets, old(total), sets, total, x);
    }

    /** AliasSetTracker::copyValue. */
    method CopyValue(from: Ptr, to: Ptr)
      requires Valid()
      modifies this`sets, this`recs, this`total, this`root, this`held, this`young
      ensures Valid()
      ensures from !in old(recs) || to in old(recs) ==> Seen() == old(Seen())
      ensures from in old(recs) && to !in old(recs) ==>
                && old(recs[from].set_) in old(root)
                && var x, l := old(root)[old(recs[from].set_)], Loc(to, old(recs[from].size));
                && x in Live(old(sets)) && Holds(x, from) && Holds(x, to)
                && Live(sets) == Live(old(sets))[x := Added(o, SizesOf(old(recs)), Live(old(sets))[x], l, true)]
                && SizesOf(recs) == AddedSizes(o, SizesOf(old(recs)), Live(old(sets))[x], l, true)
      ensures Uncounted() == old(Uncounted())
    {
      hide Inv, SizesOf, Live, Tidied, Saturated, Added, AddedSizes, AddedTotal, Level, Missing;
      if from !in recs || to in recs {
        return;
      }
      ghost var t0 := St();
      SizesKnown(recs, from);
      var x := GetAliasSet(from);
      ghost var t := St();
      TidiedQuiet(t0, t);
      UnsaturatedIs(t);
      LiveAt(sets, x);
      SizesKnown(recs, from);
      ghost var c := total;
      AddPointerTo(x, to, recs[from].size, true);
      LevelTrans(old(sets), old(total), t.sets, c, sets, total);
      LevelAt(old(sets), old(total), sets, total, next);
      StillSaturatedAt(t, St(), x);
      HeldBy(St(), from);
      HeldBy(St(), to);
      RootOfRoot(St(), x);
    }

    /** AliasSetTracker::add of a block whose instructions access xs, by a new tracker. */
    method AddBlock(xs: seq<Loc>)
      requires Valid() && sets == map[] && recs == map[] && any == None && total == 0 && next == 0
      modifies this
      ensures Valid() && Usable() && recs.Keys == PtrsOf(xs)
      ensures any.Some? <==> exists k :: 0 <= k <= |xs| && AddAll(o, xs[..k]).total > threshold
      ensures any.Some? ==> OneSet()
      ensures NoInsts() && (any.None? ==> Seen() == AddAll(o, xs))
    {
      hide Inv, SizesOf, Live, AddStep, Quiet, Saturated, AddAll, OneSet, PtrsOf;
      EmptySeen(o);
      assert xs[..0] == [];
      for n := 0 to |xs|
        invariant Valid() && Usable() && recs.Keys == PtrsOf(xs[..n])
        invariant any.Some? <==> exists k :: 0 <= k <= n && AddAll(o, xs[..k]).total > threshold
        invariant any.Some? ==> OneSet()
        invariant NoInsts() && (any.None? ==> Seen() == AddAll(o, xs[..n]))
      {
        AddAllStep(o, xs, n);
        PtrsStep(xs, n);
        var _, _ := Add(xs[n].ptr, xs[n].size);
      }
      assert xs[..|xs|] == xs;
    }
  }

  /**
   A saturated tracker must not be used once its last pointer has been deleted: the set that
   holds everything is gone, but the tracker still has a pointer to it.
   */
  method Dangling(o: Oracle) returns (t: Tracker)
    requires forall a, b :: o.alias(a, b) == MayAlias
    ensures fresh(t) && t.Valid() && !t.Usable() && t.recs == map[]
  {
    hide AddStep, Without, Live, Inv, SizesOf, Saturated, Quiet;
    t := new Tracker(o, 0);
    var xs := [Loc(0, 1), Loc(1, 1)];
    TwoMay(o);
    assert xs[..2] == xs;
    t.AddBlock(xs);
    assert t.any.Some? && AddAll(o, xs[..2]).total > t.threshold;
    OnlyTwo(xs);
    LiveAt(t.sets, t.any.value);
    t.DeleteValue(0);
    assert 1 in t.recs;
    t.DeleteValue(1);
    assert t.recs.Keys == {};
  }

  /** An analysis in which instructions touch pointer 0, and nothing else touches or aliases anything. */
  function Lonely(): Oracle { Oracle((_, _) => NoAlias, (_, l: Loc) => l.ptr == 0, (_, _) => false, _ => true, _ => false) }

  const ALONE: Group := Group([0], false, false, [], 1)

  const WITNESSED: Group := Group([0], true, false, [0], 1)

  const LEFT: Group := Group([], true, false, [0], 0)

  lemma StepAlone()
    ensures AddStep(Lonely(), View(map[], map[], 0, 0), Loc(0, 1)) == View(map[0 := ALONE], map[0 := 1], 0, 1)
    ensures Missing(map[], 0, 0) == 0 && Live(map[]) == map[] && SizesOf(map[]) == map[] && Quiet(map[])
  {
    var v := View(map[], map[], 0, 0);
    assert MergeUpTo(Lonely(), v.sizes, Loc(0, 1), Part(v.groups, 0, None), 0) == Part(map[], 0, None);
    assert NEW_GROUP.ptrs + [0] == [0];
    assert Added(Lonely(), map[], NEW_GROUP, Loc(0, 1), false) == ALONE;
    assert AddGroups(Lonely(), map[], map[], 0, Loc(0, 1)) == map[0 := ALONE];
  }

  lemma InstAlone()
    ensures MergeInstUpTo(Lonely(), map[0 := 1], 0, Found(map[0 := ALONE], None), 1) == Found(map[0 := ALONE], Some(0))
    ensures Recorded(Lonely(), 0)
    ensures WithInst(Lonely(), map[0 := 1], 0, map[0 := ALONE], 1) == map[0 := WITNESSED]
  {
    var s := Found(map[0 := ALONE], None);
    assert ALONE.ptrs[0] == 0;
    assert AliasesInst(Lonely(), map[0 := 1], ALONE, 0);
    assert MergeInstUpTo(Lonely(), map[0 := 1], 0, s, 0) == s;
    assert ALONE.unknown + [0] == [0];
    assert GroupAt(map[0 := ALONE], 0) == ALONE;
    assert map[0 := ALONE][0 := WITNESSED] == map[0 := WITNESSED];
  }

  lemma DeletedAlone(hs: Groups)
    requires exists x :: Deleted(map[0 := WITNESSED], hs, x, 0)
    ensures hs == map[0 := LEFT]
  {
    assert Without([0], 0) == [];
  }

  lemma StepAfter(total: int)
    ensures var v := AddStep(Lonely(), View(map[0 := LEFT], map[], total, 1), Loc(1, 1));
            v.groups == map[0 := LEFT, 1 := Group([1], false, false, [], 1)] && v.next == 2
  {
    var s := Part(map[0 := LEFT], total, None);
    assert MergeUpTo(Lonely(), map[], Loc(1, 1), s, 0) == s;
    assert !Aliases(Lonely(), map[], LEFT, Loc(1, 1));
    assert MergeUpTo(Lonely(), map[], Loc(1, 1), s, 1) == s;
    assert NEW_GROUP.ptrs + [1] == [1];
    assert Added(Lonely(), map[], NEW_GROUP, Loc(1, 1), false) == Group([1], false, false, [], 1);
    assert AddGroups(Lonely(), map[], map[0 := LEFT], 1, Loc(1, 1)) == map[0 := LEFT, 1 := Group([1], false, false, [], 1)];
  }

  lemma NothingToCount(before: map<Id, ASet>)
    requires Live(before) == map[0 := LEFT, 1 := Group([1], false, false, [], 1)] && Below(before, 2)
    ensures MaySum(before, 2) == 0
  {
    LiveAt(before, 0);
    LiveAt(before, 1);
    hide Live;
    assert MaySum(before, 1) == MaySum(before, 0) + Share(before, 0);
  }

  /**
   The instruction makes the set of the pointer a may-alias set without counting the pointer, which is then
   taken off the count when it is deleted.
   */
  method OneTooFew(limit: nat) returns (t: Tracker)
    requires limit < U32 - 1
    ensures fresh(t) && t.Valid() && t.o == Lonely() && t.threshold == limit && t.any == None && t.next == 1
    ensures t.recs == map[] && Live(t.sets) == map[0 := LEFT] && t.Uncounted() == 1
  {
    hide Live, Inv, SizesOf, Saturated, Quiet, Without, Deleted, AddStep, WithInst, MergeInstUpTo, PlacedAt, Missing, MaySum, Lonely;
    t := new Tracker(Lonely(), limit);
    StepAlone();
    var _, _ := t.Add(0, 1);
    assert t.any == None && Live(t.sets) == map[0 := ALONE] && t.Uncounted() == 0;
    InstAlone();
    var r, was := t.AddUnknown(0);
    assert Live(t.sets) == map[0 := WITNESSED] && r == 0 && was == ALONE;
    t.DeleteValue(0);
    DeletedAlone(Live(t.sets));
  }

  /** So the count is 2^32 - 1, and the next pointer, the only one there is, saturates the tracker. */
  method Miscounted(limit: nat) returns (t: Tracker)
    requires limit < U32 - 1
    ensures fresh(t) && t.Valid() && t.threshold == limit && t.recs.Keys == {1} && t.any.Some?
  {
    hide Live, Inv, SizesOf, Saturated, Quiet, AddStep, Missing, MaySum, Lonely;
    t := OneTooFew(limit);
    ghost var total := t.total;
    StepAfter(total);
    StepAlone();
    var _, before := t.Add(1, 1);
    NothingToCount(before);
  }
}
