/**
 What shortening forwarding chains and dropping references do to the sets of a
 lib/Analysis/AliasSetTracker.cpp tracker: nothing that can be seen from outside.
 */
module AliasWalk {
  import opened AliasGroups
  import opened AliasRefs
  import opened AliasHistory
  import opened AliasUnknown

  function GroupOf(s: ASet): Group { Group(s.ptrs, s.may, s.any, s.unknown, s.size) }

  /** The sets that do not forward. */
  function Live(sets: map<Id, ASet>): Groups {
    map k | k in sets && sets[k].fwd.None? :: GroupOf(sets[k])
  }

  function SizesOf(recs: map<Ptr, Rec>): map<Ptr, nat> {
    map p | p in recs :: recs[p].size
  }

  /** u is t after dropping a reference to x: sets that it kept alive are gone, all else is the same. */
  ghost predicate Dropped(t: State, u: State, x: Id)
    requires x in t.root
  {
    && u.recs == t.recs && u.any == t.any && u.held == t.held - multiset{x} && u.young == t.young
    && (forall k :: k in u.sets ==> k in t.sets && u.sets[k] == t.sets[k].(refs := u.sets[k].refs))
    && (forall k :: k in u.root ==> k in t.root && u.root[k] == t.root[k])
    && (forall k :: k in t.sets && k !in u.sets ==> k in t.root && t.root[k] == t.root[x])
    && (forall k :: k in t.sets && Rank(t.any, k) > Rank(t.any, x) ==> k in u.sets && u.sets[k] == t.sets[k])
  }

  /** dropRef: take one reference off x; a set left without any goes, and with it its reference to what it forwards to. */
  ghost function DropAll(t: State, x: Id): State
    requires x in t.sets
    decreases t.sets.Keys
  {
    if t.sets[x].refs > 1 then Release(t, x)
    else
      var m := Erase(t, x);
      match t.sets[x].fwd
      case None => m
      case Some(f) =>
        assert x in t.sets.Keys && m.sets.Keys == t.sets.Keys - {x};
        if f in m.sets then DropAll(m, f) else m
  }

  /** An unsigned counter. */
  function Wrapped(n: int): (r: int)
    ensures 0 <= r < U32
    ensures 0 <= n < U32 ==> r == n
  {
    n % U32
  }

  /** Sets that are gone were counted as empty. */
  ghost predicate LostEmpty(t: State, u: State) {
    forall k :: k in t.sets && k !in u.sets ==> t.sets[k].size == 0
  }

  lemma LostMore(t: State, m: State, u: State, x: Id)
    requires x in t.sets && m.sets.Keys == t.sets.Keys - {x} && x !in u.sets
    requires forall k :: k in t.sets && k != x ==> m.sets[k] == t.sets[k]
    ensures LostEmpty(t, u) ==> LostEmpty(m, u) && t.sets[x].size == 0
  {
  }

  /** u is t with shorter forwarding: the sets that do not forward are the same but for their counts. */
  ghost predicate Tidied(t: State, u: State) {
    && u.recs.Keys == t.recs.Keys && SizesOf(u.recs) == SizesOf(t.recs)
    && u.any == t.any && u.held == t.held && u.young == t.young
    && Live(u.sets) == Live(t.sets)
    && (forall k :: k in u.sets ==> k in t.sets && (u.sets[k].fwd.None? <==> t.sets[k].fwd.None?))
    && (forall k :: k in u.sets ==> u.sets[k].size == t.sets[k].size)
    && (forall k :: k in u.root ==> k in t.root && u.root[k] == t.root[k])
  }

  /** Forwarding sets are counted as empty, as they are until pointers are deleted. */
  ghost predicate Slim(sets: map<Id, ASet>) {
    forall k :: k in sets && sets[k].fwd.Some? ==> sets[k].size == 0
  }

  /** What a walk from x upwards does not reach is as it was, and x is still there. */
  ghost predicate Untouched(t: State, u: State, x: Id) {
    && x in t.sets && x in u.sets && u.sets[x] == t.sets[x].(fwd := u.sets[x].fwd, refs := u.sets[x].refs)
    && (forall k :: k in t.sets && Rank(t.any, k) > Rank(t.any, x) ==> k in u.sets && u.sets[k] == t.sets[k])
  }

  lemma TidiedSelf(t: State, x: Id)
    requires x in t.sets
    ensures Tidied(t, t) && Untouched(t, t, x)
  {
  }

  lemma {:induction false} RootRank(t: State, k: Id)
    requires Inv(t) && k in t.sets
    ensures k in t.root && t.root[k] in t.sets && Rank(t.any, t.root[k]) <= Rank(t.any, k) && t.sets[t.root[k]].fwd.None?
    decreases Rank(t.any, k)
  {
    hide Counts, Plains, Lists;
    assert Rooted(t, k);
    if t.sets[k].fwd.Some? {
      RootRank(t, t.sets[k].fwd.value);
    }
  }

  /** After the walk from f, x still forwards to f. */
  lemma StillForwards(t: State, u: State, x: Id, f: Id, d: Id)
    requires Inv(t) && Inv(u) && x in t.sets && t.sets[x].fwd == Some(f) && f != x
    requires Tidied(t, u) && Untouched(t, u, f) && f in u.root && d == u.root[f] && d in u.sets && u.sets[d].fwd.None?
    requires Rank(t.any, f) < Rank(t.any, x)
    ensures x in u.sets && u.sets[x] == t.sets[x] && x in u.root && u.root[x] == d
    ensures Rank(u.any, d) < Rank(u.any, x) && u.young == t.young && u.any == t.any
    ensures d in u.root && u.root[d] == d
    ensures Untouched(t, u, x) && f in u.sets && f in u.root && u.root[f] == d
    ensures Slim(t.sets) ==> Slim(u.sets)
  {
    RootRank(u, f);
    RootOfRoot(u, d);
    hide Counts, Plains, Lists;
    assert Rooted(u, x) by { InvParts(u); assert x in u.sets; }
  }

  lemma HoldFacts(u: State, x: Id, d: Id)
    requires d in u.sets && x in u.sets && x != d && x in u.root && d in u.root && u.root[x] == d && u.root[d] == d
    requires u.sets[x].fwd.Some? && Rank(u.any, d) < Rank(u.any, x)
    ensures CanForward(Hold(u, d), x, d) && Hold(u, d).sets[x] == u.sets[x] && Hold(u, d).sets.Keys == u.sets.Keys
  {
  }

  lemma ForwardToIs(t: State, x: Id, d: Id, f: Id)
    requires x in t.sets && t.sets[x].fwd == Some(f) && d != f
    ensures var v := ForwardTo(t, x, d);
            v == t.(sets := t.sets[x := t.sets[x].(fwd := Some(d))], held := v.held) && f in v.held
  {
  }

  /** u after taking a reference to d and letting x forward to it instead of f. */
  ghost predicate Redirected(u: State, v: State, x: Id, d: Id, f: Id) {
    && x in u.sets && d in u.sets && x != d && v.sets.Keys == u.sets.Keys
    && v.recs == u.recs && v.any == u.any && v.root == u.root && v.young == u.young && v.held == u.held + multiset{f}
    && v.sets[x] == u.sets[x].(fwd := Some(d)) && v.sets[d] == u.sets[d].(refs := v.sets[d].refs)
    && (forall k :: k in u.sets && k != x && k != d ==> v.sets[k] == u.sets[k])
  }

  lemma RedirectedIs(u: State, x: Id, d: Id, f: Id)
    requires x in u.sets && d in u.sets && x != d && u.sets[x].fwd == Some(f)
    ensures Redirected(u, ForwardTo(Hold(u, d), x, d), x, d, f)
  {
  }

  /** Everything that does not forward is still there. */
  lemma RootsSurvive(u: State, v: State, w: State, x: Id, d: Id, f: Id)
    requires Inv(u) && Closed(w) && Redirected(u, v, x, d, f) && f in v.root && Dropped(v, w, f)
    requires f in u.root && u.root[f] == d && Rank(u.any, f) < Rank(u.any, x)
    ensures x in w.sets && d in w.sets && w.sets[x] == u.sets[x].(fwd := Some(d), refs := w.sets[x].refs)
    ensures forall k :: k in u.sets && u.sets[k].fwd.None? ==> k in w.sets
    ensures w.held == u.held
  {
    hide Counts, Plains, Lists;
    assert x in w.sets;
    assert w.sets[x].fwd == Some(d);
    assert d in w.sets;
    forall k | k in u.sets && u.sets[k].fwd.None?
      ensures k in w.sets
    {
      assert Rooted(u, k);
    }
  }

  lemma TidyStep(u: State, v: State, w: State, x: Id, d: Id, f: Id)
    requires Inv(u) && Inv(w) && x in u.sets && d in u.sets && u.sets[x].fwd == Some(f) && d != f && x != d
    requires v == ForwardTo(Hold(u, d), x, d) && f in v.root && Dropped(v, w, f)
    requires x in u.root && f in u.root && u.root[f] == d && u.root[x] == d && u.sets[d].fwd.None?
    requires Rank(u.any, f) < Rank(u.any, x) && Rank(u.any, d) < Rank(u.any, x)
    ensures Tidied(u, w) && Untouched(u, w, x) && d in w.sets && x in w.root && w.root[x] == d && w.sets[d].fwd.None?
    ensures Slim(u.sets) ==> LostEmpty(v, w)
  {
    hide Inv, ForwardTo, Hold, Redirected, Dropped, Live, SizesOf, Slim, Roots, Counts, Plains, Lists, Tidied, Untouched;
    InvParts(u);
    InvParts(w);
    RedirectedIs(u, x, d, f);
    RootsSurvive(u, v, w, x, d, f);
    TidyUntouched(u, v, w, x, d, f);
    TidySlim(u, v, w, x, d, f);
    TidyRest(u, v, w, x, d, f);
    forall k | k in w.sets
      ensures SameFor(u, w, k)
    {
      TidyEach(u, v, w, x, d, f, k);
    }
    hide Closed;
    LiveSame(u, w);
    TidiedFrom(u, w);
  }

  lemma TidiedFrom(u: State, w: State)
    requires w.recs == u.recs && w.any == u.any && w.held == u.held && w.young == u.young && Live(w.sets) == Live(u.sets)
    requires forall k :: k in w.sets ==> SameFor(u, w, k)
    requires forall k :: k in w.root ==> k in u.root && w.root[k] == u.root[k]
    ensures Tidied(u, w)
  {
    hide Live, SizesOf;
    forall k | k in w.sets
      ensures k in u.sets && (w.sets[k].fwd.None? <==> u.sets[k].fwd.None?) && w.sets[k].size == u.sets[k].size
    {
      assert SameFor(u, w, k);
    }
  }

  lemma TidyUntouched(u: State, v: State, w: State, x: Id, d: Id, f: Id)
    requires Redirected(u, v, x, d, f) && f in v.root && Dropped(v, w, f)
    requires x in w.sets && w.sets[x] == u.sets[x].(fwd := Some(d), refs := w.sets[x].refs)
    requires Rank(u.any, f) < Rank(u.any, x) && Rank(u.any, d) < Rank(u.any, x)
    ensures Untouched(u, w, x)
  {
    forall k | k in u.sets && Rank(u.any, k) > Rank(u.any, x)
      ensures k in w.sets && w.sets[k] == u.sets[k]
    {
      assert k in v.sets && Rank(v.any, k) > Rank(v.any, f);
      assert v.sets[k] == u.sets[k];
    }
  }

  lemma TidySlim(u: State, v: State, w: State, x: Id, d: Id, f: Id)
    requires Redirected(u, v, x, d, f) && u.sets[x].fwd.Some?
    requires forall k :: k in u.sets && u.sets[k].fwd.None? ==> k in w.sets
    ensures Slim(u.sets) ==> LostEmpty(v, w)
  {
    if Slim(u.sets) {
      forall k | k in v.sets && k !in w.sets
        ensures v.sets[k].size == 0
      {
        assert k in u.sets && u.sets[k].fwd.Some?;
      }
    }
  }

  lemma TidyEach(u: State, v: State, w: State, x: Id, d: Id, f: Id, k: Id)
    requires Redirected(u, v, x, d, f) && f in v.root && Dropped(v, w, f) && k in w.sets && u.sets[x].fwd.Some?
    ensures SameFor(u, w, k)
  {
  }

  lemma TidyRest(u: State, v: State, w: State, x: Id, d: Id, f: Id)
    requires Redirected(u, v, x, d, f) && f in v.root && Dropped(v, w, f) && Closed(w)
    requires u.sets[d].fwd.None? && x in w.sets && d in w.sets && x in u.root && u.root[x] == d
    ensures x in w.root && w.root[x] == d && w.sets[d].fwd.None?
    ensures w.recs == u.recs && w.any == u.any && w.young == u.young
    ensures forall k :: k in w.root ==> k in u.root && w.root[k] == u.root[k]
  {
  }

  ghost predicate SameFor(u: State, w: State, k: Id)
    requires k in w.sets
  {
    && k in u.sets && w.sets[k] == u.sets[k].(fwd := w.sets[k].fwd, refs := w.sets[k].refs)
    && (w.sets[k].fwd.None? <==> u.sets[k].fwd.None?)
  }

  lemma LiveSame(u: State, w: State)
    requires forall k :: k in w.sets ==> SameFor(u, w, k)
    requires forall k :: k in u.sets && u.sets[k].fwd.None? ==> k in w.sets
    ensures Live(w.sets) == Live(u.sets)
  {
    forall k | k in Live(u.sets)
      ensures k in Live(w.sets) && Live(w.sets)[k] == Live(u.sets)[k]
    {
      assert SameFor(u, w, k);
    }
    forall k | k in Live(w.sets)
      ensures k in Live(u.sets)
    {
      assert SameFor(u, w, k);
    }
  }

  lemma TidiedTrans(t: State, u: State, w: State, x: Id)
    requires Tidied(t, u) && Tidied(u, w) && Untouched(t, u, x) && Untouched(u, w, x)
    ensures Tidied(t, w) && Untouched(t, w, x)
  {
  }

  lemma ReleaseIs(t: State, x: Id)
    requires x in t.sets
    ensures Release(t, x) == t.(sets := t.sets[x := t.sets[x].(refs := t.sets[x].refs - 1)], held := t.held - multiset{x})
  {
  }

  lemma EraseIs(t: State, x: Id)
    requires x in t.sets && t.young == {}
    ensures Erase(t, x) == t.(sets := t.sets - {x}, root := t.root - {x}, held := Erase(t, x).held)
    ensures t.sets[x].fwd.Some? ==> t.sets[x].fwd.value in Erase(t, x).held
  {
  }

  lemma DroppedOne(t: State, x: Id)
    requires x in t.sets && x in t.root
    ensures Dropped(t, Release(t, x), x) && x in Release(t, x).sets
    ensures Release(t, x).sets.Keys == t.sets.Keys
  {
  }

  lemma DroppedErased(t: State, x: Id)
    requires x in t.sets && x in t.root && t.young == {}
    ensures t.sets[x].fwd.None? ==> Dropped(t, Erase(t, x), x)
    ensures Erase(t, x).sets.Keys == t.sets.Keys - {x}
    ensures forall k :: k in t.sets && k != x ==> Erase(t, x).sets[k] == t.sets[k]
    ensures Erase(t, x).root == t.root - {x} && Erase(t, x).any == t.any
  {
  }

  lemma DroppedMore(t: State, m: State, u: State, x: Id, f: Id)
    requires x in t.sets && x in t.root && t.young == {} && m == Erase(t, x) && t.sets[x].fwd == Some(f) && f != x
    requires f in m.root && Dropped(m, u, f) && t.root.Keys == t.sets.Keys
    requires t.root[f] == t.root[x] && Rank(t.any, f) < Rank(t.any, x)
    ensures Dropped(t, u, x) && x !in u.sets
  {
  }

  lemma DropFacts(t: State, x: Id)
    requires Inv(t) && x in t.sets && t.young == {}
    ensures t.sets[x].refs >= 1 && t.root.Keys == t.sets.Keys
    ensures t.sets[x].fwd.Some? ==>
              var f := t.sets[x].fwd.value;
              f in t.sets && f != x && f in t.root && t.root[f] == t.root[x] && Rank(t.any, f) < Rank(t.any, x)
  {
    assert Counted(t, x) && Rooted(t, x);
  }

  // ---------- Records that follow forwarding ----------

  /** u after taking a reference to d and moving the record of p there from f. */
  ghost predicate Moved(u: State, v: State, p: Ptr, d: Id, f: Id) {
    && p in u.recs && u.recs[p].set_ == f && d in u.sets && v.sets.Keys == u.sets.Keys
    && v.recs == u.recs[p := u.recs[p].(set_ := d)]
    && v.any == u.any && v.root == u.root && v.young == u.young && v.held == u.held + multiset{f}
    && v.sets[d] == u.sets[d].(refs := v.sets[d].refs)
    && (forall k :: k in u.sets && k != d ==> v.sets[k] == u.sets[k])
  }

  lemma MovedIs(u: State, p: Ptr, d: Id, f: Id)
    requires p in u.recs && u.recs[p].set_ == f && d in u.sets
    ensures Moved(u, RecordTo(Hold(u, d), p, d), p, d, f)
  {
  }

  lemma MovedSurvive(u: State, v: State, w: State, p: Ptr, d: Id, f: Id)
    requires Inv(u) && Closed(w) && Moved(u, v, p, d, f) && f in v.root && Dropped(v, w, f)
    requires f in u.root && u.root[f] == d
    ensures d in w.sets && w.held == u.held
    ensures forall k :: k in u.sets && u.sets[k].fwd.None? ==> k in w.sets
  {
    hide Counts, Plains, Lists;
    assert p in w.recs && w.recs[p].set_ == d;
    forall k | k in u.sets && u.sets[k].fwd.None?
      ensures k in w.sets
    {
      assert Rooted(u, k);
    }
  }

  lemma MovedEach(u: State, v: State, w: State, p: Ptr, d: Id, f: Id, k: Id)
    requires Moved(u, v, p, d, f) && f in v.root && Dropped(v, w, f) && k in w.sets
    ensures SameFor(u, w, k)
  {
  }

  lemma MovedRest(u: State, v: State, w: State, p: Ptr, d: Id, f: Id)
    requires Moved(u, v, p, d, f) && f in v.root && Dropped(v, w, f) && Closed(w) && d in w.sets
    requires u.sets[d].fwd.None? && d in u.root && u.root[d] == d
    ensures d in w.root && w.root[d] == d && w.sets[d].fwd.None?
    ensures w.recs == v.recs && w.any == u.any && w.young == u.young && p in w.recs && w.recs[p].set_ == d
    ensures forall k :: k in w.root ==> k in u.root && w.root[k] == u.root[k]
  {
  }

  lemma MovedSizes(u: State, v: State, p: Ptr, d: Id, f: Id)
    requires Moved(u, v, p, d, f)
    ensures SizesOf(v.recs) == SizesOf(u.recs)
  {
  }

  lemma MovedSlim(u: State, v: State, w: State, p: Ptr, d: Id, f: Id)
    requires Moved(u, v, p, d, f)
    requires forall k :: k in u.sets && u.sets[k].fwd.None? ==> k in w.sets
    ensures Slim(u.sets) ==> LostEmpty(v, w)
  {
  }

  lemma RecordStep(u: State, v: State, w: State, p: Ptr, d: Id, f: Id)
    requires Inv(u) && Inv(w) && p in u.recs && u.recs[p].set_ == f && d in u.sets && u.sets[d].fwd.None?
    requires f in u.root && u.root[f] == d && d in u.root && u.root[d] == d
    requires v == RecordTo(Hold(u, d), p, d) && f in v.root && Dropped(v, w, f)
    ensures Tidied(u, w) && d in w.sets && w.sets[d].fwd.None? && d in w.root && w.root[d] == d
    ensures p in w.recs && w.recs[p].set_ == d
    ensures Slim(u.sets) ==> LostEmpty(v, w)
  {
    hide Inv, RecordTo, Hold, Moved, Dropped, Live, SizesOf, Slim, Roots, Counts, Plains, Lists, Tidied;
    InvParts(u);
    InvParts(w);
    MovedIs(u, p, d, f);
    MovedSurvive(u, v, w, p, d, f);
    MovedSlim(u, v, w, p, d, f);
    MovedRest(u, v, w, p, d, f);
    MovedSizes(u, v, p, d, f);
    forall k | k in w.sets
      ensures SameFor(u, w, k)
    {
      MovedEach(u, v, w, p, d, f, k);
    }
    hide Closed;
    LiveSame(u, w);
    TidiedMove(u, w);
  }

  lemma TidiedMove(u: State, w: State)
    requires SizesOf(w.recs) == SizesOf(u.recs)
    requires w.any == u.any && w.held == u.held && w.young == u.young && Live(w.sets) == Live(u.sets)
    requires forall k :: k in w.sets ==> SameFor(u, w, k)
    requires forall k :: k in w.root ==> k in u.root && w.root[k] == u.root[k]
    ensures Tidied(u, w)
  {
    hide Live;
    assert w.recs.Keys == SizesOf(w.recs).Keys && u.recs.Keys == SizesOf(u.recs).Keys;
    hide SizesOf;
    forall k | k in w.sets
      ensures k in u.sets && (w.sets[k].fwd.None? <==> u.sets[k].fwd.None?) && w.sets[k].size == u.sets[k].size
    {
      assert SameFor(u, w, k);
    }
  }

  lemma TidiedThen(t: State, u: State, w: State)
    requires Tidied(t, u) && Tidied(u, w)
    ensures Tidied(t, w)
    ensures Slim(t.sets) ==> Slim(w.sets)
  {
    hide Live, SizesOf;
  }

  lemma RecordFacts(t: State, p: Ptr)
    requires Inv(t) && p in t.recs
    ensures t.recs[p].set_ in t.sets && t.root.Keys == t.sets.Keys
    ensures t.sets[t.recs[p].set_].fwd.None? ==> t.root[t.recs[p].set_] == t.recs[p].set_
  {
    hide Counts, Plains, Lists;
    assert Rooted(t, t.recs[p].set_);
  }

  // ---------- What the operations do to the sets that do not forward ----------

  lemma LiveEnter(t: State, x: Id, p: Ptr, size: nat, may: bool, n: int)
    requires x in t.sets && t.sets[x].fwd.None?
    ensures Live(Enter(t, x, p, size, may, n).sets) ==
            Live(t.sets)[x := GroupOf(t.sets[x]).(ptrs := t.sets[x].ptrs + [p], may := may, size := n)]
  {
  }

  lemma SizesPut(recs: map<Ptr, Rec>, p: Ptr, r: Rec)
    ensures SizesOf(recs[p := r]) == SizesOf(recs)[p := r.size]
  {
  }

  lemma LiveWitness(t: State, x: Id, i: Inst)
    requires x in t.sets && t.sets[x].fwd.None?
    ensures Live(Witness(t, x, i).sets) ==
            Live(t.sets)[x := GroupOf(t.sets[x]).(unknown := t.sets[x].unknown + [i], may := true)]
  {
  }

  lemma LiveCreate(t: State, x: Id, full: bool)
    requires x !in t.sets
    ensures Live(Create(t, x, full).sets) == Live(t.sets)[x := if full then Group([], true, true, [], 0) else NEW_GROUP]
  {
  }

  lemma LiveAbsorb(t: State, x: Id, y: Id, may: bool, n: int)
    requires x in t.sets && y in t.sets && x != y && t.sets[x].fwd.None? && t.sets[y].fwd.None?
    ensures Live(Absorb(t, x, y, may, n).sets) ==
            (map k | k in Live(t.sets) && k != y :: Live(t.sets)[k])
            [x := Group(t.sets[x].ptrs + t.sets[y].ptrs, may, t.sets[x].any, t.sets[x].unknown + t.sets[y].unknown, n)]
  {
  }

  lemma MovedFacts(t: State, u: State, p: Ptr, f: Id, d: Id)
    requires Inv(t) && Inv(u) && u.recs == t.recs && p in t.recs && t.recs[p].set_ == f && f in t.sets && t.sets[f].fwd.Some?
    requires Tidied(t, u) && Untouched(t, u, f) && d in u.sets && u.sets[d].fwd.None? && f in u.root && d == u.root[f]
    ensures p in u.recs && u.recs[p].set_ in u.sets && u.recs[p].set_ in u.root && u.root[u.recs[p].set_] == d
    ensures f == u.recs[p].set_ && f in u.sets && d in u.root && u.root[d] == d && f in t.root && d == t.root[f]
    ensures f != d && u.young == t.young
    ensures Slim(t.sets) ==> Slim(u.sets)
  {
    RootOfRoot(u, d);
    hide Counts, Plains, Lists, Live;
  }

  lemma RecordToIs(t: State, p: Ptr, d: Id)
    requires p in t.recs && d in t.held && d != t.recs[p].set_
    ensures var v := RecordTo(t, p, d);
            v == t.(recs := t.recs[p := t.recs[p].(set_ := d)], held := v.held) && t.recs[p].set_ in v.held
  {
  }

  // ---------- Merging ----------

  /** mergeSetIn may be called: y has been in the tracker longer than x, unless x takes everything. */
  ghost predicate CanMerge(t: State, x: Id, y: Id) {
    && x in t.sets && y in t.sets && x != y && t.sets[x].fwd.None? && t.sets[y].fwd.None?
    && Rank(t.any, x) < Rank(t.any, y) && y !in t.young
    && (!t.sets[x].may && !t.sets[y].may ==> t.sets[x].ptrs != [] && t.sets[y].ptrs != [])
  }

  /** u is t with y merged into x, and y gone if nothing referred to it. */
  ghost predicate Merges(t: State, u: State, x: Id, y: Id) {
    && u.recs == t.recs && u.any == t.any && x in u.sets && u.sets[x].fwd.None? && x in t.sets && y in t.sets
    && u.sets[x].any == t.sets[x].any && (t.sets[x].may ==> u.sets[x].may)
    && u.sets[x].ptrs == t.sets[x].ptrs + t.sets[y].ptrs && u.sets[x].unknown == t.sets[x].unknown + t.sets[y].unknown
    && (forall k :: k in t.sets && k != y ==> k in u.sets)
    && (forall k :: k in u.sets ==> k in t.sets)
    && (forall k :: k in u.sets && k != x && k != y ==> u.sets[k] == t.sets[k])
    && (y in u.sets ==> u.sets[y].fwd == Some(x) && u.sets[y].unknown == [] &&
                        u.sets[y].size == if t.sets[y].ptrs == [] then t.sets[y].size else 0)
    && (y in u.sets || t.sets[y].unknown != [])
  }

  lemma MergeFacts(t: State, x: Id, y: Id)
    requires Inv(t) && CanMerge(t, x, y)
    ensures forall p :: p in t.sets[x].ptrs || p in t.sets[y].ptrs ==> p in t.recs
    ensures t.sets[x].ptrs != [] ==> t.sets[x].ptrs[0] in t.recs
    ensures t.sets[y].ptrs != [] ==> t.sets[y].ptrs[0] in t.recs
  {
    hide Counts, Plains, Roots;
    assert OnlyFiled(t, x) && OnlyFiled(t, y);
  }

  lemma SizesAt(recs: map<Ptr, Rec>, p: Ptr)
    requires p in recs
    ensures LocOf(SizesOf(recs), p) == Loc(p, recs[p].size)
  {
  }

  lemma AbsorbIs(t: State, x: Id, y: Id, may: bool, n: int)
    requires CanMerge(t, x, y) && t.young <= {x} && t.held == multiset{}
    ensures var u := Absorb(t, x, y, may, n);
            var sx, sy := t.sets[x], t.sets[y];
            && u == t.(sets := t.sets[x := Taker(sx, sy, may, n)][y := Taken(sy, x)], root := u.root, held := u.held, young := u.young)
            && u.young == {} && u.held == (if sy.unknown == [] then multiset{} else multiset{y})
  {
  }

  lemma AbsorbLive(o: Oracle, t: State, x: Id, y: Id, may: bool, n: int)
    requires x in t.sets && y in t.sets && x != y && t.sets[x].fwd.None? && t.sets[y].fwd.None?
    requires may == MergedMay(o, SizesOf(t.recs), GroupOf(t.sets[x]), GroupOf(t.sets[y]))
    requires n == if t.sets[y].ptrs == [] then t.sets[x].size else (t.sets[x].size + t.sets[y].size) % U32
    ensures x in Live(t.sets) && y in Live(t.sets)
    ensures Live(Absorb(t, x, y, may, n).sets) == Fused(o, SizesOf(t.recs), Live(t.sets), x, y)
  {
    LiveAbsorb(t, x, y, may, n);
    hide Absorb, SizesOf, MergedMay;
  }

  lemma AbsorbMerges(t: State, x: Id, y: Id, may: bool, n: int)
    requires CanMerge(t, x, y) && (t.sets[x].may ==> may)
    ensures Merges(t, Absorb(t, x, y, may, n), x, y)
  {
  }

  /** The set that y was merged into has an instruction, and y forwarding to it. */
  lemma MergedRefs(t: State, u: State, x: Id, y: Id)
    requires Inv(u) && Merges(t, u, x, y) && x != y && t.sets[y].unknown != [] && y in u.sets
    ensures u.sets[x].refs > 1
  {
    hide Closed, Roots, Plains, Lists;
    assert Counted(u, x);
    assert y in Forwarders(u.sets, x);
  }

  /** After a merge only one reference to y, for its instructions, is left over. */
  lemma DropMerged(t: State, u: State, x: Id, y: Id, may: bool, n: int)
    requires Inv(u) && CanMerge(t, x, y) && (t.sets[x].may ==> may) && u == Absorb(t, x, y, may, n)
    requires y in u.sets && t.sets[y].unknown != [] && u.held == multiset{y} && u.young == {}
    ensures var w := DropAll(u, y);
            && Merges(t, w, x, y) && Live(w.sets) == Live(u.sets) && w.held == multiset{} && w.young == {}
            && (t.sets[y].ptrs != [] ==> LostEmpty(u, w))
  {
    AbsorbMerges(t, x, y, may, n);
    MergedRefs(t, u, x, y);
    hide Absorb, Merges, Live, Inv, DropAll, Release, Erase;
    DropAllIs(t, u, x, y);
    DropMerges(t, u, x, y);
    DropLive(t, u, x, y);
    MergedSize(t, u, x, y);
  }

  lemma MergedSize(t: State, u: State, x: Id, y: Id)
    requires Merges(t, u, x, y) && y in u.sets
    ensures u.sets[y].size == if t.sets[y].ptrs == [] then t.sets[y].size else 0
  {
  }

  lemma DropAllIs(t: State, u: State, x: Id, y: Id)
    requires Merges(t, u, x, y) && x != y && y in u.sets && u.sets[x].refs > 1
    ensures DropAll(u, y) == if u.sets[y].refs > 1 then Release(u, y) else Release(Erase(u, y), x)
  {
    hide Release;
  }

  ghost function DroppedBoth(u: State, x: Id, y: Id): State
    requires x in u.sets && y in u.sets && x != y
  {
    if u.sets[y].refs > 1 then Release(u, y) else Release(Erase(u, y), x)
  }

  lemma DropMerges(t: State, u: State, x: Id, y: Id)
    requires Merges(t, u, x, y) && x != y && y in u.sets && t.sets[y].unknown != [] && u.held == multiset{y} && u.young == {}
    ensures var w := DroppedBoth(u, x, y);
            && Merges(t, w, x, y) && w.held == multiset{} && w.young == {}
            && (forall k :: k in u.sets && k !in w.sets ==> k == y)
  {
  }

  lemma DropKeeps(t: State, u: State, x: Id, y: Id)
    requires Merges(t, u, x, y) && x != y && y in u.sets
    ensures forall k :: k in u.sets && u.sets[k].fwd.None? ==> k in DroppedBoth(u, x, y).sets
  {
  }

  lemma DropLive(t: State, u: State, x: Id, y: Id)
    requires Merges(t, u, x, y) && x != y && y in u.sets
    ensures Live(DroppedBoth(u, x, y).sets) == Live(u.sets)
  {
    hide Live;
    DropKeeps(t, u, x, y);
    var w := DroppedBoth(u, x, y);
    forall k | k in w.sets
      ensures SameFor(u, w, k)
    {
    }
    hide DroppedBoth;
    LiveSame(u, w);
  }

  // ---------- Adding ----------

  /** The assertion of addPointer: what enters a must-alias set may alias its first pointer. */
  ghost predicate MayJoin(o: Oracle, z: map<Ptr, nat>, g: Group, l: Loc, known: bool) {
    g.may || known || g.ptrs == [] || o.alias(LocOf(z, g.ptrs[0]), l) != NoAlias
  }

  lemma FirstFacts(t: State, x: Id)
    requires Inv(t) && x in t.sets
    ensures forall p :: p in t.sets[x].ptrs ==> p in t.recs
    ensures t.sets[x].ptrs != [] ==> t.sets[x].ptrs[0] in t.recs
  {
    hide Counts, Plains, Roots;
    assert OnlyFiled(t, x);
  }

  lemma HeldFacts(t: State, x: Id)
    requires x in t.sets && t.held == multiset{}
    ensures var u := Hold(t, x);
            && x in u.sets && u.sets[x] == t.sets[x].(refs := t.sets[x].refs + 1) && u.held == multiset{x} && Live(u.sets) == Live(t.sets)
            && u == t.(sets := u.sets, held := u.held) && u.sets.Keys == t.sets.Keys
            && (forall k :: k in t.sets && k != x ==> u.sets[k] == t.sets[k])
  {
  }

  lemma EnterIs(t: State, x: Id, p: Ptr, size: nat, may: bool, n: int)
    requires x in t.sets && t.held == multiset{x} && t.young <= {x}
    ensures Enter(t, x, p, size, may, n) ==
            t.(sets := t.sets[x := t.sets[x].(ptrs := t.sets[x].ptrs + [p], may := may, size := n)],
               recs := t.recs[p := Rec(x, size)], held := multiset{}, young := {})
  {
  }

  lemma KnownNotYoung(t: State, x: Id)
    requires Inv(t) && x in t.sets
    ensures t.sets[x].refs >= OfUnknown(t.sets[x])
  {
    hide Closed, Roots, Plains, Lists;
    assert Counted(t, x);
  }

  lemma WitnessIs(t: State, x: Id, i: Inst)
    requires x in t.sets && t.young <= {x} && t.held == (if t.sets[x].unknown == [] then multiset{x} else multiset{})
    ensures var w := Witness(t, x, i);
            && w == t.(sets := t.sets[x := t.sets[x].(unknown := t.sets[x].unknown + [i], may := true)],
                       held := w.held, young := w.young)
            && w.held == multiset{} && w.young == {}
  {
  }

  /** mergeSetIn before its last line, and what that does if the merged set had instructions. */
  lemma MergeProof(o: Oracle, t: State, x: Id, y: Id, may: bool, n: int)
    requires Inv(t) && CanMerge(t, x, y) && t.young <= {x} && t.held == multiset{}
    requires may == MergedMay(o, SizesOf(t.recs), GroupOf(t.sets[x]), GroupOf(t.sets[y]))
    requires n == if t.sets[y].ptrs == [] then t.sets[x].size else (t.sets[x].size + t.sets[y].size) % U32
    ensures var u := Absorb(t, x, y, may, n);
            var sx, sy := t.sets[x], t.sets[y];
            && Inv(u) && u.held == (if sy.unknown == [] then multiset{} else multiset{y}) && u.young == {}
            && x in Live(t.sets) && y in Live(t.sets)
            && u == t.(sets := t.sets[x := Taker(sx, sy, may, n)][y := Taken(sy, x)], root := u.root, held := u.held, young := u.young)
            && Live(u.sets) == Fused(o, SizesOf(t.recs), Live(t.sets), x, y)
            && (sy.unknown == [] ==> Merges(t, u, x, y))
            && (sy.unknown != [] ==>
                  var w := DropAll(u, y);
                  && Merges(t, w, x, y) && Live(w.sets) == Live(u.sets) && w.held == multiset{} && w.young == {}
                  && (sy.ptrs != [] ==> LostEmpty(u, w)))
  {
    hide Inv, Merges, Absorb, DropAll, Fused, Live, SizesOf, Taker, Taken, MergedMay;
    AbsorbIs(t, x, y, may, n);
    assert CanAbsorb(t, x, y, may) by { LabelGrows(o, SizesOf(t.recs), GroupOf(t.sets[x]), GroupOf(t.sets[y])); }
    AbsorbKeeps(t, x, y, may, n);
    AbsorbLive(o, t, x, y, may, n);
    if t.sets[y].unknown == [] {
      AbsorbMerges(t, x, y, may, n);
    } else {
      DropMerged(t, Absorb(t, x, y, may, n), x, y, may, n);
    }
  }

  lemma LabelTotal(o: Oracle, z: map<Ptr, nat>, g: Group, h: Group, t0: int)
    requires 0 <= t0 < U32
    ensures var t1 := if g.may then t0 else Wrapped(t0 + g.size);
            MergedTotal(o, z, g, h, t0) ==
              if !MergedMay(o, z, g, h) then t0 else if h.may then t1 else Wrapped(t1 + h.size)
  {
    hide MergedMay;
  }

  lemma LabelGrows(o: Oracle, z: map<Ptr, nat>, g: Group, h: Group)
    ensures g.may || h.may ==> MergedMay(o, z, g, h)
  {
  }

  lemma HoldIs(t: State, x: Id)
    requires x in t.sets
    ensures var u := Hold(t, x);
            && u == t.(sets := u.sets, held := u.held) && u.sets.Keys == t.sets.Keys && x in u.held
            && u.sets[x] == t.sets[x].(refs := t.sets[x].refs + 1)
            && (forall k :: k in t.sets && k != x ==> u.sets[k] == t.sets[k])
  {
  }

  lemma TotalIs(o: Oracle, z: map<Ptr, nat>, g: Group, l: Loc, known: bool, t0: int)
    requires 0 <= t0 < U32
    ensures var may := AddedMay(o, z, g, l, known);
            var t1 := if may && !g.may then (t0 + g.size) % U32 else t0;
            AddedTotal(o, z, g, l, known, t0) == if may then (t1 + 1) % U32 else t1
    ensures g.may ==> AddedMay(o, z, g, l, known)
  {
  }

  function Appended(g: Group, p: Ptr, may: bool): Group {
    g.(ptrs := g.ptrs + [p], may := may, size := (g.size + 1) % U32)
  }

  lemma AppendedIs(o: Oracle, z: map<Ptr, nat>, g: Group, l: Loc, known: bool)
    ensures Appended(g, l.ptr, AddedMay(o, z, g, l, known)) == Added(o, z, g, l, known)
  {
    hide AddedMay;
  }

  /** Set x alone has changed, and that by a pointer or an instruction more. */
  ghost predicate OnlyGrows(sets: map<Id, ASet>, after: map<Id, ASet>, x: Id) {
    && after.Keys == sets.Keys && x in sets && sets[x].fwd.None? && after[x].fwd.None? && after[x].any == sets[x].any
    && (forall k :: k in sets && k != x ==> after[k] == sets[k])
  }

  ghost predicate SameInsts(sets: map<Id, ASet>, after: map<Id, ASet>, x: Id) {
    x in sets && x in after && after[x].unknown == sets[x].unknown
  }

  /** addPointer, once it has its reference. */
  lemma AppendProof(t: State, x: Id, p: Ptr, size: nat, may: bool)
    requires Inv(t) && x in t.sets && t.held == multiset{} && t.young <= {x} && t.sets[x].fwd.None? && p !in t.recs
    requires (t.sets[x].may ==> may) && Inv(Hold(t, x))
    ensures var h, s := Hold(t, x), t.sets[x];
            && x in h.sets
            && var s' := h.sets[x].(ptrs := h.sets[x].ptrs + [p], may := may, size := (h.sets[x].size + 1) % U32);
            var e := h.(sets := h.sets[x := s'], recs := h.recs[p := Rec(x, size)], held := multiset{}, young := {});
            && Inv(e) && Live(e.sets) == Live(t.sets)[x := Appended(GroupOf(s), p, may)]
            && OnlyGrows(t.sets, e.sets, x) && SameInsts(t.sets, e.sets, x)
  {
    hide Inv, Hold, Enter, Live;
    HeldFacts(t, x);
    var h, n := Hold(t, x), (t.sets[x].size + 1) % U32;
    EnterKeeps(h, x, p, size, may, n);
    EnterIs(h, x, p, size, may, n);
    LiveEnter(h, x, p, size, may, n);
  }

  lemma DropAllStep(t: State, x: Id)
    requires x in t.sets
    ensures t.sets[x].refs > 1 ==> DropAll(t, x) == Release(t, x)
    ensures t.sets[x].refs <= 1 && t.sets[x].fwd.None? ==> DropAll(t, x) == Erase(t, x)
    ensures t.sets[x].refs <= 1 && t.sets[x].fwd.Some? && t.sets[x].fwd.value in Erase(t, x).sets ==>
              DropAll(t, x) == DropAll(Erase(t, x), t.sets[x].fwd.value)
  {
    hide Release;
  }

  // ---------- Looking at the sets one by one ----------

  /** No instruction without a known location, and no pointer has been deleted: the counters are exact. */
  ghost predicate Quiet(sets: map<Id, ASet>) {
    forall k :: k in sets ==> sets[k].unknown == [] && (sets[k].fwd.Some? ==> sets[k].size == 0)
  }

  lemma LiveAt(sets: map<Id, ASet>, k: Id)
    ensures k in Live(sets) <==> k in sets && sets[k].fwd.None?
    ensures k in Live(sets) ==> Live(sets)[k] == GroupOf(sets[k])
  {
  }

  lemma LiveHasFirst(t: State, x: Id, next: nat)
    requires Inv(t) && t.held == multiset{} && NoYoung(t, x) && x in t.sets && t.sets[x].fwd.None?
    requires forall k :: k in t.sets ==> k < next
    ensures t.sets[x].unknown == [] ==> t.sets[x].ptrs != []
    ensures t.sets[x].unknown != [] ==> t.sets[x].may
    ensures t.sets[x].any <==> t.any == Some(x)
  {
    assert Plain(t, x);
    if t.sets[x].unknown == [] {
      NotEmpty(t, x, next);
    }
  }

  lemma MergeFrom(o: Oracle, z: map<Ptr, nat>, l: Loc, s: Part)
    ensures MergeUpTo(o, z, l, s, 0) == s
  {
  }

  lemma MergeOne(o: Oracle, z: map<Ptr, nat>, l: Loc, s: Part, n: nat)
    ensures var m, m' := MergeUpTo(o, z, l, s, n), MergeUpTo(o, z, l, s, n + 1);
            if n !in m.groups || !Aliases(o, z, m.groups[n], l) then m' == m
            else if m.found.None? || m.found.value !in m.groups then m' == m.(found := Some(n))
            else
              var f := m.found.value;
              m' == Part(Fused(o, z, m.groups, f, n), MergedTotal(o, z, m.groups[f], m.groups[n], m.total), m.found)
  {
    hide Aliases;
  }

  lemma FoundMayJoin(o: Oracle, z: map<Ptr, nat>, g: Group, l: Loc)
    requires Aliases(o, z, g, l) && !g.any
    ensures MayJoin(o, z, g, l, false)
  {
  }

  lemma MergeQuiet(t: State, x: Id, y: Id)
    requires Inv(t) && x in t.sets && y in t.sets && x != y
    ensures Quiet(t.sets) ==> t.sets[y].unknown == []
  {
  }

  lemma MergedQuiet(t: State, u: State, x: Id, y: Id)
    requires Merges(t, u, x, y) && x != y && (t.sets[y].unknown == [] ==> t.sets[y].ptrs != [])
    ensures Quiet(t.sets) ==> Quiet(u.sets)
    ensures u.recs == t.recs && u.any == t.any && x in u.sets && u.sets[x].fwd.None?
    ensures forall k :: k in u.sets ==> k in t.sets
  {
  }

  lemma MergedMayJoin(o: Oracle, t: State, u: State, x: Id, y: Id, l: Loc)
    requires Merges(t, u, x, y) && x != y && MayJoin(o, SizesOf(t.recs), GroupOf(t.sets[x]), l, false)
    requires !t.sets[x].may ==> t.sets[x].ptrs != []
    ensures MayJoin(o, SizesOf(u.recs), GroupOf(u.sets[x]), l, false)
  {
  }

  lemma ErasedFacts(t: State, x: Id)
    requires Inv(t) && x in t.held && x in t.sets && t.young == {} && t.sets[x].refs == 1
    ensures var m := Erase(t, x);
            && Inv(m) && m == t.(sets := t.sets - {x}, root := t.root - {x}, held := m.held)
            && x in t.root && x !in m.sets
            && match t.sets[x].fwd
               case None => Dropped(t, m, x) && DropAll(t, x) == m && (LostEmpty(t, m) ==> t.sets[x].size == 0)
               case Some(f) =>
                 && f in m.held && f in m.sets && f in m.root && DropAll(t, x) == DropAll(m, f)
                 && Rank(t.any, f) < Rank(t.any, x)
  {
    hide Inv, Dropped, Erase, DropAll;
    DropFacts(t, x);
    DropAllStep(t, x);
    EraseKeeps(t, x);
    DroppedErased(t, x);
    EraseIs(t, x);
  }

  lemma ErasedThen(t: State, m: State, u: State, x: Id, f: Id)
    requires Inv(t) && x in t.sets && t.young == {} && m == Erase(t, x) && t.sets[x].fwd == Some(f)
    requires f in m.root && Dropped(m, u, f)
    ensures x in t.root && Dropped(t, u, x) && x !in u.sets
    ensures LostEmpty(t, u) ==> LostEmpty(m, u) && t.sets[x].size == 0
  {
    hide Inv, Dropped, Erase, LostEmpty;
    DropFacts(t, x);
    DroppedErased(t, x);
    DroppedMore(t, m, u, x, f);
    LostMore(t, m, u, x);
  }

  // ---------- Saturation ----------

  lemma FullIs(t: State, x: Id)
    requires Inv(t) && Saturated(t) && t.any == Some(x) && x in t.sets
    ensures t.sets[x].fwd.None? && t.sets[x].any && t.sets[x].may
    ensures forall k :: k in t.sets && t.sets[k].fwd.None? ==> k == x
    ensures forall k :: k in t.sets ==> k in t.root && t.root[k] == x
    ensures x in Live(t.sets) && Live(t.sets).Keys == {x}
  {
    hide Counts, Lists;
    assert Plain(t, x);
    assert Rooted(t, x);
    RootRank(t, x);
    forall k | k in t.sets
      ensures k in t.root && t.root[k] == x
    {
      assert Rooted(t, k);
    }
  }

  lemma SameSaturated(t: State, u: State)
    requires Saturated(t) && u.any == t.any && u.sets == t.sets
    ensures Saturated(u)
  {
  }

  lemma FullSizes(o: Oracle, z: map<Ptr, nat>, g: Group, l: Loc)
    requires g.may
    ensures MayJoin(o, z, g, l, false) && AddedSizes(o, z, g, l, false) == z[l.ptr := l.size]
  {
  }

  /** A pointer with a record is in the set that the record leads to, and in no other. */
  lemma HeldBy(t: State, p: Ptr)
    requires Inv(t) && p in t.recs
    ensures t.recs[p].set_ in t.root
    ensures var r := t.root[t.recs[p].set_];
            && r in t.sets && t.sets[r].fwd.None? && p in t.sets[r].ptrs
            && forall k :: k in t.sets && p in t.sets[k].ptrs ==> k == r
  {
    hide Counts, Plains;
    assert Filed(t, p) && Rooted(t, t.recs[p].set_);
    forall k | k in t.sets && p in t.sets[k].ptrs
      ensures k == t.root[t.recs[p].set_]
    {
      assert OnlyFiled(t, k);
    }
  }

  lemma SizesKnown(recs: map<Ptr, Rec>, p: Ptr)
    ensures p in SizesOf(recs) <==> p in recs
    ensures p in recs ==> SizesOf(recs)[p] == recs[p].size
  {
  }

  lemma QuietSlim(sets: map<Id, ASet>)
    ensures Quiet(sets) ==> Slim(sets)
  {
  }

  lemma TidiedQuiet(t: State, u: State)
    requires Inv(u) && Tidied(t, u)
    ensures Quiet(t.sets) ==> Quiet(u.sets)
    ensures Live(u.sets) == Live(t.sets) && SizesOf(u.recs) == SizesOf(t.recs) && u.recs.Keys == t.recs.Keys
    ensures u.any == t.any && u.held == t.held && u.young == t.young
    ensures forall k :: k in u.sets ==> k in t.sets
    ensures forall k :: k in u.root ==> k in t.root && u.root[k] == t.root[k]
  {
    hide Closed, Roots, Counts, Lists, SizesOf;
    if Quiet(t.sets) {
      forall k | k in u.sets
        ensures u.sets[k].unknown == [] && (u.sets[k].fwd.Some? ==> u.sets[k].size == 0)
      {
        assert Plain(u, k);
        LiveAt(t.sets, k);
        LiveAt(u.sets, k);
      }
    }
  }

  lemma FreshMayJoin(o: Oracle, z: map<Ptr, nat>, l: Loc)
    ensures MayJoin(o, z, GroupOf(NEW_SET), l, false) && GroupOf(NEW_SET) == NEW_GROUP
  {
  }

  lemma GrowsKeys(sets: map<Id, ASet>, after: map<Id, ASet>, r: Id)
    requires OnlyGrows(sets, after, r) && SameInsts(sets, after, r)
    ensures Quiet(sets) ==> Quiet(after)
    ensures after.Keys == sets.Keys && r in after && after[r].fwd.None?
  {
  }

  lemma AddStepNew(o: Oracle, v: View, x: Loc)
    requires x.ptr !in v.sizes
    ensures var m := MergeUpTo(o, v.sizes, x, Part(v.groups, v.total, None), v.next);
            var i := AddedTo(m, v.next);
            var g := GroupAt(m.groups, i);
            AddStep(o, v, x) ==
              View(m.groups[i := g][i := Added(o, v.sizes, g, x, false)], AddedSizes(o, v.sizes, g, x, false),
                   AddedTotal(o, v.sizes, g, x, false, m.total), if m.found.Some? then v.next else v.next + 1)
  {
    hide MergeUpTo, Added, AddedSizes, AddedTotal;
  }

  lemma FreshQuiet(sets: map<Id, ASet>, r: Id)
    ensures Quiet(sets) ==> Quiet(sets[r := NEW_SET])
  {
  }

  /** Two sets that do not forward: the tracker is not saturated. */
  lemma TwoLive(t: State, x: Id, y: Id)
    requires Inv(t) && Saturated(t) && x in t.sets && y in t.sets && x < y && t.sets[x].fwd.None? && t.sets[y].fwd.None?
    ensures t.any.None? || (t.any.value != x && t.any.value != y && t.any.value !in t.sets)
    ensures Rank(t.any, x) < Rank(t.any, y)
  {
  }

  lemma MergedSaturated(t: State, u: State, x: Id, y: Id)
    requires Merges(t, u, x, y) && (t.any.None? || t.any.value !in t.sets)
    ensures Saturated(u)
  {
  }

  lemma StillSaturatedAt(t: State, u: State, x: Id)
    requires Saturated(t) && t.any == u.any && OnlyGrows(t.sets, u.sets, x)
    ensures Saturated(u)
  {
  }

  /** A new set is added to a saturated tracker only after it has lost the one that takes everything. */
  lemma NewSaturated(t: State, u: State, w: State, r: Id)
    requires r !in t.sets && u.sets == t.sets[r := NEW_SET] && u.any == t.any && w.any == t.any && w.sets.Keys == u.sets.Keys
    requires t.any.None? || t.any.value !in t.sets
    requires t.any != Some(r)
    ensures Saturated(w)
  {
  }

  lemma LiveUnsaturated(t: State, next: nat)
    requires Inv(t) && t.held == multiset{} && t.young == {} && forall k :: k in t.sets ==> k < next
    ensures t.any == None ==> Unsaturated(Live(t.sets), next)
  {
    if t.any == None {
      forall k | k in Live(t.sets) ensures k < next && !Live(t.sets)[k].any {
        LiveHasFirst(t, k, next);
        LiveAt(t.sets, k);
      }
    }
  }

  lemma NothingFound(o: Oracle, t: State, i: Inst, gs: Groups, next: nat)
    requires Inv(t) && Saturated(t) && (forall k :: k in t.sets ==> k < next)
    requires MergeInstUpTo(o, SizesOf(t.recs), i, Found(gs, None), next) == Found(Live(t.sets), None)
    ensures Live(t.sets) == gs && (t.any.None? || t.any.value !in t.sets)
  {
    hide SizesOf;
    NoneMerged(o, SizesOf(t.recs), i, gs, next);
    if t.any.Some? && t.any.value in t.sets {
      FullIs(t, t.any.value);
      LiveAt(t.sets, t.any.value);
      hide Live;
      assert false;
    }
  }

  // ---------- Merging everything ----------

  /** Instruction j is in one of the sets numbered below n. */
  ghost predicate InstBelow(sets: map<Id, ASet>, n: nat, j: Inst) {
    exists k :: k in sets && k < n && j in sets[k].unknown
  }

  /** mergeAllAliasSets has gone through the sets numbered below n. */
  ghost predicate Gathering(t0: State, t: State, a: Id, n: nat) {
    && t.recs == t0.recs && t.any == Some(a) && a !in t0.sets && n <= a
    && a in t.sets && t.sets[a].fwd.None? && t.sets[a].may && t.sets[a].any
    && (forall k :: k in t.sets ==> k == a || (k in t0.sets && k < a))
    && (forall k :: k in t.sets && k < n ==> t.sets[k].fwd == Some(a))
    && (forall k :: k in t0.sets && k >= n ==>
          k in t.sets && t.sets[k].fwd == t0.sets[k].fwd && t.sets[k].unknown == t0.sets[k].unknown)
    && (forall j :: j in t.sets[a].unknown <==> InstBelow(t0.sets, n, j))
    && ((exists k :: k in t0.sets && k < n) ==> t.young == {})
    && t.held == multiset{} && t.young <= {a}
  }

  lemma GatherStart(t0: State, a: Id)
    requires a !in t0.sets && (forall k :: k in t0.sets ==> k < a) && t0.held == multiset{} && t0.young == {}
    ensures Gathering(t0, Create(t0, a, true), a, 0)
  {
  }

  lemma GatherNone(t0: State, t: State, a: Id, n: nat)
    requires Gathering(t0, t, a, n) && n < a && n !in t0.sets
    ensures n !in t.sets && Gathering(t0, t, a, n + 1)
  {
  }

  lemma GatherCanMerge(t0: State, t: State, a: Id, n: nat)
    requires Gathering(t0, t, a, n) && n < a && n in t0.sets && n in t.sets && t.sets[n].fwd.None?
    ensures CanMerge(t, a, n)
  {
  }

  lemma GatherMerged(t0: State, t: State, u: State, a: Id, n: nat)
    requires Gathering(t0, t, a, n) && n < a && n in t0.sets && Merges(t, u, a, n)
    requires u.held == multiset{} && u.young == {}
    ensures Gathering(t0, u, a, n + 1)
  {
  }

  lemma GatherForward(t0: State, t: State, a: Id, n: nat)
    requires Closed(t0) && Inv(t) && Gathering(t0, t, a, n) && n < a && n in t0.sets && n in t.sets && t.sets[n].fwd.Some?
    requires forall k :: k in t0.sets && t0.sets[k].fwd.Some? ==> t0.sets[k].fwd.value < k
    ensures var f := t.sets[n].fwd.value;
            && t.young == {} && f < n && f in t.sets && f != a
            && f in t.root && CanForward(Hold(t, a), n, a)
  {
    hide Counts, Plains, Lists;
    var f := t.sets[n].fwd.value;
    assert f in t0.sets && f < n;
    assert Rooted(t, n) && Rooted(t, f) && Rooted(t, a);
  }

  lemma GatherForwarded(t0: State, t: State, w: State, a: Id, n: nat, f: Id)
    requires Inv(w) && Gathering(t0, t, a, n) && n < a && n in t0.sets && n in t.sets && t.sets[n].fwd == Some(f)
    requires f < n && f != a && t.young == {}
    requires var v := ForwardTo(Hold(t, a), n, a); f in v.root && Dropped(v, w, f)
    ensures Gathering(t0, w, a, n + 1)
  {
    var v := ForwardTo(Hold(t, a), n, a);
    RedirectedIs(t, n, a, f);
    hide ForwardTo, Hold;
    GatherLater(t0, t, v, w, a, n, f);
    GatherEarlier(t0, t, v, w, a, n, f);
    GatherRest(t0, t, v, w, a, n, f);
    GatherInsts(t0, t, a, n);
    hide Gathering, Redirected, Dropped, Inv, InstBelow;
    GatherFrom(t0, w, a, n);
  }

  lemma GatherInsts(t0: State, t: State, a: Id, n: nat)
    requires Gathering(t0, t, a, n) && n in t0.sets && n in t.sets && t.sets[n].unknown == []
    ensures forall j :: j in t.sets[a].unknown <==> InstBelow(t0.sets, n + 1, j)
  {
    forall j ensures InstBelow(t0.sets, n + 1, j) <==> InstBelow(t0.sets, n, j) {
    }
    hide InstBelow;
  }

  lemma GatherFrom(t0: State, w: State, a: Id, n: nat)
    requires w.recs == t0.recs && w.any == Some(a) && a !in t0.sets && n < a
    requires a in w.sets && w.sets[a].fwd.None? && w.sets[a].may && w.sets[a].any
    requires w.held == multiset{} && w.young == {}
    requires forall k :: k in w.sets ==> k == a || (k in t0.sets && k < a)
    requires forall k :: k in w.sets && k < n + 1 ==> w.sets[k].fwd == Some(a)
    requires forall k :: k in t0.sets && k >= n + 1 ==>
               k in w.sets && w.sets[k].fwd == t0.sets[k].fwd && w.sets[k].unknown == t0.sets[k].unknown
    requires forall j :: j in w.sets[a].unknown <==> InstBelow(t0.sets, n + 1, j)
    ensures Gathering(t0, w, a, n + 1)
  {
  }

  lemma GatherRest(t0: State, t: State, v: State, w: State, a: Id, n: nat, f: Id)
    requires Inv(w) && Gathering(t0, t, a, n) && t.young == {}
    requires Redirected(t, v, n, a, f) && f in v.root && Dropped(v, w, f) && n in w.sets && w.sets[n] == v.sets[n]
    ensures w.recs == t0.recs && w.any == Some(a) && a !in t0.sets && w.held == multiset{} && w.young == {}
    ensures a in w.sets && w.sets[a].fwd.None? && w.sets[a].may && w.sets[a].any && w.sets[a].unknown == t.sets[a].unknown
    ensures t.sets[n].unknown == []
  {
    assert w.sets[n].fwd == Some(a);
    assert Plain(w, n);
    InvParts(w);
    hide Inv, Roots, Counts, Plains, Lists;
  }

  lemma GatherLater(t0: State, t: State, v: State, w: State, a: Id, n: nat, f: Id)
    requires Gathering(t0, t, a, n) && n < a && n in t0.sets && f < n && f != a
    requires Redirected(t, v, n, a, f) && f in v.root && Dropped(v, w, f)
    ensures n in w.sets && w.sets[n] == v.sets[n]
    ensures forall k :: k in t0.sets && k >= n + 1 ==>
              k in w.sets && w.sets[k].fwd == t0.sets[k].fwd && w.sets[k].unknown == t0.sets[k].unknown
  {
    assert Rank(v.any, n) > Rank(v.any, f);
    forall k | k in t0.sets && k >= n + 1
      ensures k in w.sets && w.sets[k].fwd == t0.sets[k].fwd && w.sets[k].unknown == t0.sets[k].unknown
    {
      assert k in t.sets && k != a && k != n;
      assert Rank(v.any, k) > Rank(v.any, f);
    }
  }

  lemma GatherEarlier(t0: State, t: State, v: State, w: State, a: Id, n: nat, f: Id)
    requires Gathering(t0, t, a, n) && n < a && Redirected(t, v, n, a, f) && f in v.root && Dropped(v, w, f)
    ensures forall k :: k in w.sets && k < n + 1 ==> w.sets[k].fwd == Some(a)
    ensures forall k :: k in w.sets ==> k == a || (k in t0.sets && k < a)
  {
  }

  lemma ForwardsDown(t: State)
    requires Inv(t) && t.any == None
    ensures forall k :: k in t.sets && t.sets[k].fwd.Some? ==> t.sets[k].fwd.value < k
  {
    hide Counts, Plains, Lists;
    forall k | k in t.sets && t.sets[k].fwd.Some?
      ensures t.sets[k].fwd.value < k
    {
      assert Rooted(t, k);
    }
  }

  lemma GatheredAll(t0: State, t: State, a: Id)
    requires Gathering(t0, t, a, a) && t0.sets.Keys != {} && forall k :: k in t0.sets ==> k < a
    ensures Saturated(t) && t.young == {}
    ensures forall j :: j in t.sets[a].unknown <==> exists k :: k in t0.sets && j in t0.sets[k].unknown
    ensures Quiet(t0.sets) ==> t.sets[a].unknown == []
  {
    assert forall j :: InstBelow(t0.sets, a, j) <==> exists k :: k in t0.sets && j in t0.sets[k].unknown;
    assert t.sets[a].unknown != [] ==> t.sets[a].unknown[0] in t.sets[a].unknown;
    var k :| k in t0.sets.Keys;
    assert k in t0.sets && k < a;
  }

  /** The set that takes everything has exactly the pointers of the tracker. */
  lemma FullHasAll(t: State, a: Id)
    requires Inv(t) && Saturated(t) && t.any == Some(a) && a in t.sets
    ensures Elems(t.sets[a].ptrs) == t.recs.Keys
  {
    FullIs(t, a);
    hide Counts, Plains;
    forall p | p in t.recs
      ensures p in t.sets[a].ptrs
    {
      HeldBy(t, p);
    }
    FirstFacts(t, a);
  }

  lemma SomeSet(t: State)
    requires Inv(t) && t.recs != map[]
    ensures t.sets.Keys != {} && Closed(t)
  {
    hide Counts, Plains, Lists, Roots;
    assert t.recs.Keys != {};
    var p :| p in t.recs.Keys;
    assert t.recs[p].set_ in t.sets;
  }

  lemma GatherThere(t0: State, t: State, a: Id, n: nat)
    requires Gathering(t0, t, a, n) && n < a && n in t0.sets
    ensures n in t.sets && a in t.sets && t.held == multiset{} && t.young <= {a} && t.any == Some(a)
  {
  }

  lemma GatherNumbered(t0: State, t: State, a: Id, n: nat)
    requires Gathering(t0, t, a, n)
    ensures t.any == Some(a) && t.recs == t0.recs && t.held == multiset{} && a in t.sets
    ensures forall k :: k in t.sets ==> k < a + 1
  {
  }

  // ---------- Deleting ----------

  /** Set x forwards to a set that does not forward, if it forwards at all. */
  ghost predicate Direct(t: State, x: Id) {
    x in t.sets && match t.sets[x].fwd case None => true case Some(f) => f in t.sets && t.sets[f].fwd.None?
  }

  lemma DirectStays(t: State, x: Id, f: Id)
    requires Inv(t) && x in t.sets && t.sets[x].fwd == Some(f)
    ensures Direct(t, x) ==> Direct(t, f) && f in t.root && t.root[f] == f
  {
    if Direct(t, x) {
      RootOfRoot(t, f);
    }
    hide Inv;
  }

  lemma SaturatedDirect(t: State, x: Id)
    requires Inv(t) && x in t.sets
    ensures Saturated(t) && t.any.Some? ==> t.any.value !in t.sets || Direct(t, x)
  {
    hide Counts, Lists;
    if Saturated(t) && t.any.Some? && t.any.value in t.sets {
      FullIs(t, t.any.value);
    }
  }

  lemma MovedSaturated(u: State, v: State, w: State, p: Ptr, d: Id, f: Id)
    requires p in u.recs && u.recs[p].set_ == f && d in u.sets && v == RecordTo(Hold(u, d), p, d) && f in v.root && Dropped(v, w, f)
    ensures Saturated(u) ==> Saturated(w)
  {
  }

  lemma UnsaturatedIs(t: State)
    ensures t.any.None? ==> Saturated(t)
  {
  }

  lemma LeaveIs(t: State, p: Ptr, x: Id, n: int)
    requires x in t.sets && t.held == multiset{}
    ensures Leave(t, p, x, n) ==
            t.(sets := t.sets[x := t.sets[x].(ptrs := Without(t.sets[x].ptrs, p), size := n)],
               recs := t.recs - {p}, held := multiset{x})
  {
  }

  lemma SizesDel(recs: map<Ptr, Rec>, p: Ptr)
    ensures SizesOf(recs - {p}) == SizesOf(recs) - {p}
  {
  }

  /** Pointer p is taken out of set x, which is removed if that leaves it empty; the size of a must-alias set stays as it was. */
  ghost predicate Deleted(gs: Groups, hs: Groups, x: Id, p: Ptr) {
    && x in gs
    && (forall k :: k in gs && k != x ==> k in hs && hs[k] == gs[k])
    && (forall k :: k in hs ==> k in gs)
    && (x in hs <==> Without(gs[x].ptrs, p) != [] || gs[x].unknown != [])
    && (x in hs ==> hs[x] == gs[x].(ptrs := Without(gs[x].ptrs, p), size := if gs[x].may then Wrapped(gs[x].size - 1) else gs[x].size))
  }

  lemma AbsentSaturated(t: State, u: State)
    requires Tidied(t, u)
    ensures t.any.Some? && t.any.value !in t.sets ==> Saturated(u)
  {
    hide Live, SizesOf;
  }

  /** deleteValue after the pointer has left, and what dropping its reference does. */
  ghost predicate Deletes(t: State, m: State, u: State, p: Ptr, x: Id, n: int) {
    && Inv(t) && Inv(m) && Inv(u) && t.held == multiset{} && t.young == {}
    && p in t.recs && t.recs[p].set_ == x && x in t.sets && t.sets[x].fwd.None?
    && m == Leave(t, p, x, n) && x in m.root && Dropped(m, u, x) && x in m.sets && (x in u.sets <==> m.sets[x].refs > 1)
  }

  lemma DeletesHeld(t: State, m: State, u: State, p: Ptr, x: Id, n: int)
    requires Deletes(t, m, u, p, x, n)
    ensures u.held == multiset{} && u.young == {} && u.any == t.any && u.recs == t.recs - {p}
    ensures forall k :: k in u.sets ==> k in t.sets && (k != x ==> u.sets[k] == t.sets[k].(refs := u.sets[k].refs))
    ensures x in u.sets ==> u.sets[x] == t.sets[x].(ptrs := Without(t.sets[x].ptrs, p), size := n, refs := u.sets[x].refs)
    ensures Saturated(t) ==> Saturated(u)
  {
    hide Inv, Without;
  }

  /** The set stays exactly if it has a pointer or an instruction left. */
  lemma DeletesEmpty(t: State, m: State, u: State, p: Ptr, x: Id, n: int, next: nat)
    requires Deletes(t, m, u, p, x, n) && forall k :: k in t.sets ==> k < next
    ensures x in u.sets <==> Without(t.sets[x].ptrs, p) != [] || t.sets[x].unknown != []
  {
    hide Inv, Without, Dropped, Leave;
    DeletesHeld(t, m, u, p, x, n);
    LeaveIs(t, p, x, n);
    if x in u.sets {
      LiveHasFirst(u, x, next);
    }
    if t.sets[x].unknown != [] {
      TwoRefs(m, x);
    }
    if Without(t.sets[x].ptrs, p) != [] {
      var q := m.sets[x].ptrs[0];
      FirstFacts(m, x);
      HeldBy(u, q);
      HeldBy(m, q);
      var r := u.root[u.recs[q].set_];
      assert r in m.sets;
      var there := m.sets[r].ptrs;
    }
  }

  lemma TwoRefs(t: State, x: Id)
    requires Inv(t) && x in t.sets && t.sets[x].unknown != [] && x in t.held
    ensures t.sets[x].refs > 1
  {
    hide Closed, Roots, Plains, Lists;
    assert Counted(t, x);
  }

  lemma DeletesOthers(t: State, m: State, u: State, p: Ptr, x: Id, n: int)
    requires Deletes(t, m, u, p, x, n)
    ensures forall k :: k in t.sets && t.sets[k].fwd.None? && k != x ==> k in u.sets
  {
    hide Counts, Plains, Lists, Without;
    assert Rooted(t, x);
    forall k | k in t.sets && t.sets[k].fwd.None? && k != x
      ensures k in u.sets
    {
      assert Rooted(t, k);
    }
  }

  lemma DeletedFrom(t: State, u: State, x: Id, p: Ptr)
    requires x in t.sets && t.sets[x].fwd.None?
    requires forall k :: k in u.sets ==> k in t.sets && (k != x ==> u.sets[k] == t.sets[k].(refs := u.sets[k].refs))
    requires x in u.sets ==>
      u.sets[x] == t.sets[x].(ptrs := Without(t.sets[x].ptrs, p), size := u.sets[x].size, refs := u.sets[x].refs)
    requires forall k :: k in t.sets && t.sets[k].fwd.None? && k != x ==> k in u.sets
    requires x in u.sets <==> Without(t.sets[x].ptrs, p) != [] || t.sets[x].unknown != []
    requires x in u.sets ==> u.sets[x].size == if t.sets[x].may then Wrapped(t.sets[x].size - 1) else t.sets[x].size
    ensures Deleted(Live(t.sets), Live(u.sets), x, p)
  {
    hide Without, Wrapped;
  }

  lemma DeleteFacts(t: State, m: State, u: State, p: Ptr, x: Id, n: int, next: nat)
    requires Deletes(t, m, u, p, x, n) && forall k :: k in t.sets ==> k < next
    requires n == if t.sets[x].may then Wrapped(t.sets[x].size - 1) else t.sets[x].size
    ensures Deleted(Live(t.sets), Live(u.sets), x, p)
    ensures u.held == multiset{} && u.young == {} && u.any == t.any && u.recs == t.recs - {p}
    ensures forall k :: k in u.sets ==> k in t.sets
    ensures Saturated(t) ==> Saturated(u)
    ensures Saturated(t) && t.any == Some(x) ==> (x in u.sets <==> u.recs != map[] || Live(t.sets)[x].unknown != [])
  {
    hide Inv, Without, Saturated, Leave, Dropped, Wrapped;
    DeletesEmpty(t, m, u, p, x, n, next);
    DeletesOthers(t, m, u, p, x, n);
    DeletesHeld(t, m, u, p, x, n);
    LiveAt(t.sets, x);
    if Saturated(t) && t.any == Some(x) {
      WithoutAll(t, p, x);
    }
    hide Deletes, Live, Deleted;
    DeletedFrom(t, u, x, p);
  }

  lemma WithoutAll(t: State, p: Ptr, x: Id)
    requires Inv(t) && Saturated(t) && t.any == Some(x) && x in t.sets
    ensures Without(t.sets[x].ptrs, p) == [] <==> t.recs - {p} == map[]
  {
    FullHasAll(t, x);
    assert NoDup(t.sets[x].ptrs) by { assert Plain(t, x); }
    WithoutIs(t.sets[x].ptrs, p);
    hide Inv, Without;
    var w := Without(t.sets[x].ptrs, p);
    forall q | q in (t.recs - {p}).Keys
      ensures q in w
    {
      assert q in Elems(t.sets[x].ptrs);
    }
    if w != [] {
      assert w[0] in w;
      assert w[0] in Elems(t.sets[x].ptrs);
      assert w[0] in t.recs - {p};
    } else {
      assert (t.recs - {p}).Keys == {};
    }
  }

  lemma EmptySeen(o: Oracle)
    ensures Live(map[]) == map[] && SizesOf(map[]) == map[] && AddAll(o, []) == NO_SETS && Quiet(map[]) && PtrsOf([]) == {}
  {
  }
}
