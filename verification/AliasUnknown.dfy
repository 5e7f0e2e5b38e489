/**
 Instructions without a known location: with which sets one is merged when it is
 added, and a pointer when it is added to sets that hold instructions.
 */
module AliasUnknown {
  import opened AliasGroups
  import opened AliasHistory

  // ---------- Instructions without a known location ----------

  /** AliasSet::aliasesUnknownInst. */
  predicate AliasesInst(o: Oracle, z: map<Ptr, nat>, g: Group, i: Inst) {
    || g.any
    || (o.mayTouchMemory(i) &&
        ((exists k :: 0 <= k < |g.unknown| && o.instsInterfere(g.unknown[k], i)) ||
         (exists k :: 0 <= k < |g.ptrs| && o.instTouches(i, LocOf(z, g.ptrs[k])))))
  }

  datatype Found = Found(groups: Groups, found: Option<Id>)

  function MergeInstStep(o: Oracle, z: map<Ptr, nat>, i: Inst, s: Found, n: Id): Found {
    if n !in s.groups || !AliasesInst(o, z, s.groups[n], i) then s
    else if s.found.None? || s.found.value !in s.groups then s.(found := Some(n))
    else s.(groups := Fused(o, z, s.groups, s.found.value, n))
  }

  /** findAliasSetForUnknownInst, through the sets numbered below n. */
  function MergeInstUpTo(o: Oracle, z: map<Ptr, nat>, i: Inst, s: Found, n: nat): Found {
    if n == 0 then s else MergeInstStep(o, z, i, MergeInstUpTo(o, z, i, s, n - 1), n - 1)
  }

  lemma MergeInstFrom(o: Oracle, z: map<Ptr, nat>, i: Inst, s: Found)
    ensures MergeInstUpTo(o, z, i, s, 0) == s
  {
  }

  lemma MergeInstOne(o: Oracle, z: map<Ptr, nat>, i: Inst, s: Found, n: nat)
    ensures var m, m' := MergeInstUpTo(o, z, i, s, n), MergeInstUpTo(o, z, i, s, n + 1);
            m' == if n !in m.groups || !AliasesInst(o, z, m.groups[n], i) then m
                  else if m.found.None? || m.found.value !in m.groups then m.(found := Some(n))
                  else m.(groups := Fused(o, z, m.groups, m.found.value, n))
  {
    hide AliasesInst, Fused;
  }

  /** If no set is found none has been merged, and none interferes. */
  lemma {:induction false} NoneMerged(o: Oracle, z: map<Ptr, nat>, i: Inst, gs: Groups, n: nat)
    requires MergeInstUpTo(o, z, i, Found(gs, None), n).found == None
    ensures MergeInstUpTo(o, z, i, Found(gs, None), n).groups == gs
    ensures forall k :: k in gs && k < n ==> !AliasesInst(o, z, gs[k], i)
  {
    if n > 0 {
      hide AliasesInst, Fused;
      NoneMerged(o, z, i, gs, n - 1);
    }
  }

  /** Whether addUnknown does anything. */
  predicate Recorded(o: Oracle, i: Inst) { !o.marker(i) && o.mayTouchMemory(i) }

  /** The sets after an instruction has joined the one found, or a new one. */
  function WithInst(o: Oracle, z: map<Ptr, nat>, i: Inst, gs: Groups, next: nat): Groups {
    var m := MergeInstUpTo(o, z, i, Found(gs, None), next);
    var r := if m.found.Some? then m.found.value else next;
    var g := GroupAt(m.groups, r);
    m.groups[r := g.(unknown := g.unknown + [i], may := true)]
  }

  lemma JoinedIs(o: Oracle, z: map<Ptr, nat>, i: Inst, gs: Groups, next: nat, hs: Groups, r: Id)
    requires var m := MergeInstUpTo(o, z, i, Found(gs, None), next);
             && r == (if m.found.Some? then m.found.value else next) && hs == m.groups[r := GroupAt(m.groups, r)]
    ensures r in hs && hs[r := hs[r].(unknown := hs[r].unknown + [i], may := true)] == WithInst(o, z, i, gs, next)
  {
    hide MergeInstUpTo, GroupAt;
  }

  // ---------- Which sets are merged ----------

  /** Of the sets gs those in hit have become one, which keeps the number of one of them; the others are as they were. */
  ghost predicate Gathered(gs: Groups, hs: Groups, found: Option<Id>, hit: set<Id>) {
    && hit <= gs.Keys && (found.Some? <==> hit != {})
    && (found.Some? ==> found.value in hit)
    && hs.Keys == (gs.Keys - hit) + (if found.Some? then {found.value} else {})
    && (forall k :: k in gs && k !in hit ==> hs[k] == gs[k])
    && (found.Some? ==> HoldsAllOf(gs, hit, hs[found.value]) && forall k :: k in hit && gs[k].may ==> hs[found.value].may)
  }

  /** What g holds is what the sets in hit held. */
  ghost predicate HoldsAllOf(gs: Groups, hit: set<Id>, g: Group) {
    && (forall p :: p in g.ptrs <==> PtrIn(gs, hit, p))
    && (forall j :: j in g.unknown <==> InstIn(gs, hit, j))
  }

  ghost predicate PtrIn(gs: Groups, hit: set<Id>, p: Ptr) {
    exists k :: k in hit && k in gs && p in gs[k].ptrs
  }

  ghost predicate InstIn(gs: Groups, hit: set<Id>, j: Inst) {
    exists k :: k in hit && k in gs && j in gs[k].unknown
  }

  lemma JoinFirst(gs: Groups, hs: Groups, n: Id)
    requires Gathered(gs, hs, None, {}) && n in gs
    ensures Gathered(gs, hs, Some(n), {n}) && hs == gs
  {
    assert hs == gs;
    assert gs.Keys == (gs.Keys - {n}) + {n};
    assert HoldsAllOf(gs, {n}, gs[n]);
  }

  lemma JoinMore(o: Oracle, z: map<Ptr, nat>, gs: Groups, hs: Groups, f: Id, hit: set<Id>, n: Id)
    requires Gathered(gs, hs, Some(f), hit) && n in gs && n !in hit
    ensures f in hs && n in hs && f != n && hs[n] == gs[n]
    ensures Gathered(gs, Fused(o, z, hs, f, n), Some(f), hit + {n})
  {
    var us := Fused(o, z, hs, f, n);
    FusedMembers(o, z, hs, f, n);
    MergedIs(o, z, hs[f], hs[n]);
    hide Fused, Merged;
    var g := us[f];
    assert hs[n].may || hs[f].may ==> g.may by { MergedLabel(o, z, hs[f], hs[n]); }
    forall p ensures p in g.ptrs <==> PtrIn(gs, hit + {n}, p) {
      assert p in g.ptrs <==> p in hs[f].ptrs || p in gs[n].ptrs;
      assert PtrIn(gs, hit + {n}, p) <==> PtrIn(gs, hit, p) || p in gs[n].ptrs;
    }
    forall j ensures j in g.unknown <==> InstIn(gs, hit + {n}, j) {
      assert j in g.unknown <==> j in hs[f].unknown || j in gs[n].unknown;
      assert InstIn(gs, hit + {n}, j) <==> InstIn(gs, hit, j) || j in gs[n].unknown;
    }
  }

  ghost function HitInst(o: Oracle, z: map<Ptr, nat>, i: Inst, gs: Groups, n: nat): set<Id> {
    set k | k in gs && k < n && AliasesInst(o, z, gs[k], i)
  }

  ghost function HitPtr(o: Oracle, z: map<Ptr, nat>, x: Loc, gs: Groups, n: nat): set<Id> {
    set k | k in gs && k < n && Aliases(o, z, gs[k], x)
  }

  lemma {:induction false} InstJoins(o: Oracle, z: map<Ptr, nat>, i: Inst, gs: Groups, n: nat)
    ensures var m := MergeInstUpTo(o, z, i, Found(gs, None), n); Gathered(gs, m.groups, m.found, HitInst(o, z, i, gs, n))
  {
    if n > 0 {
      InstJoins(o, z, i, gs, n - 1);
      var m := MergeInstUpTo(o, z, i, Found(gs, None), n - 1);
      MergeInstOne(o, z, i, Found(gs, None), n - 1);
      var hit, hit' := HitInst(o, z, i, gs, n - 1), HitInst(o, z, i, gs, n);
      hide MergeInstUpTo, AliasesInst, Fused;
      if n - 1 in gs && AliasesInst(o, z, gs[n - 1], i) {
        assert hit' == hit + {n - 1};
        if m.found.None? {
          JoinFirst(gs, m.groups, n - 1);
        } else {
          JoinMore(o, z, gs, m.groups, m.found.value, hit, n - 1);
        }
      } else {
        assert hit' == hit;
      }
    } else {
      assert HitInst(o, z, i, gs, 0) == {};
    }
  }

  lemma {:induction false} PtrJoins(o: Oracle, z: map<Ptr, nat>, x: Loc, gs: Groups, total: int, n: nat)
    ensures var m := MergeUpTo(o, z, x, Part(gs, total, None), n); Gathered(gs, m.groups, m.found, HitPtr(o, z, x, gs, n))
  {
    if n > 0 {
      PtrJoins(o, z, x, gs, total, n - 1);
      var m := MergeUpTo(o, z, x, Part(gs, total, None), n - 1);
      var hit, hit' := HitPtr(o, z, x, gs, n - 1), HitPtr(o, z, x, gs, n);
      StepIs(o, z, x, m, n - 1);
      hide Aliases, Fused, MergeStep;
      if n - 1 in gs && Aliases(o, z, gs[n - 1], x) {
        assert hit' == hit + {n - 1};
        if m.found.None? {
          JoinFirst(gs, m.groups, n - 1);
        } else {
          JoinMore(o, z, gs, m.groups, m.found.value, hit, n - 1);
        }
      } else {
        assert hit' == hit;
      }
    } else {
      assert HitPtr(o, z, x, gs, 0) == {};
    }
  }

  lemma StepIs(o: Oracle, z: map<Ptr, nat>, x: Loc, m: Part, n: Id)
    ensures var m' := MergeStep(o, z, x, m, n);
            m'.groups == (if n in m.groups && Aliases(o, z, m.groups[n], x) && m.found.Some? && m.found.value in m.groups
                          then Fused(o, z, m.groups, m.found.value, n) else m.groups) &&
            m'.found == if m.found.None? && n in m.groups && Aliases(o, z, m.groups[n], x) then Some(n)
                        else if n in m.groups && Aliases(o, z, m.groups[n], x) && m.found.value !in m.groups then Some(n) else m.found
  {
    hide Aliases, Merged, MergedTotal;
  }

  // ---------- What an instruction, and a pointer, is put together with ----------

  /** Nothing in g is touched by the instruction i, and no instruction in it interferes with i. */
  ghost predicate ApartFrom(o: Oracle, z: map<Ptr, nat>, g: Group, i: Inst) {
    && (forall q :: q in g.ptrs ==> !o.instTouches(i, LocOf(z, q)))
    && (forall j :: j in g.unknown ==> !o.instsInterfere(j, i))
  }

  /** Nothing in g aliases x, and no instruction in it touches x; of a must-alias set the first pointer answers. */
  ghost predicate ClearOf(o: Oracle, z: map<Ptr, nat>, g: Group, x: Loc) {
    if g.may then
      && (forall q :: q in g.ptrs ==> o.alias(x, LocOf(z, q)) == NoAlias)
      && (forall j :: j in g.unknown ==> !o.instTouches(j, x))
    else g.ptrs == [] || o.alias(LocOf(z, g.ptrs[0]), x) == NoAlias
  }

  /** Set r holds what all sets held that are not among those left, and the sets left are as they were. */
  ghost predicate Regrouped(gs: Groups, hs: Groups, r: Id, left: set<Id>) {
    && r in hs && hs.Keys == left + {r} && r !in left && left <= gs.Keys
    && forall k :: k in left ==> hs[k] == gs[k]
  }

  lemma ApartIff(o: Oracle, z: map<Ptr, nat>, g: Group, i: Inst)
    ensures AliasesInst(o, z, g, i) <==> g.any || (o.mayTouchMemory(i) && !ApartFrom(o, z, g, i))
  {
    assert forall q :: q in g.ptrs ==> exists k :: 0 <= k < |g.ptrs| && g.ptrs[k] == q;
    assert forall j :: j in g.unknown ==> exists k :: 0 <= k < |g.unknown| && g.unknown[k] == j;
  }

  lemma ClearIff(o: Oracle, z: map<Ptr, nat>, g: Group, x: Loc)
    ensures Aliases(o, z, g, x) <==> g.any || !ClearOf(o, z, g, x)
  {
    assert forall q :: q in g.ptrs ==> exists k :: 0 <= k < |g.ptrs| && g.ptrs[k] == q;
    assert forall j :: j in g.unknown ==> exists k :: 0 <= k < |g.unknown| && g.unknown[k] == j;
  }

  ghost predicate Unsaturated(gs: Groups, next: nat) {
    forall k :: k in gs ==> k < next && !gs[k].any
  }

  /** The sets that hold something that i touches or interferes with. */
  ghost function Met(o: Oracle, z: map<Ptr, nat>, i: Inst, gs: Groups): set<Id> {
    set k | k in gs && !ApartFrom(o, z, gs[k], i)
  }

  lemma MetIs(o: Oracle, z: map<Ptr, nat>, i: Inst, gs: Groups, next: nat)
    requires Unsaturated(gs, next) && o.mayTouchMemory(i)
    ensures Met(o, z, i, gs) == HitInst(o, z, i, gs, next)
  {
    forall k | k in gs ensures ApartFrom(o, z, gs[k], i) <==> !AliasesInst(o, z, gs[k], i) {
      ApartIff(o, z, gs[k], i);
    }
    hide ApartFrom, AliasesInst;
  }

  /** Of the sets gs those that i meets have become one, with i in it, in hs; the others are as they were. */
  ghost predicate PlacedAt(o: Oracle, z: map<Ptr, nat>, i: Inst, gs: Groups, hs: Groups, r: Id) {
    var met := Met(o, z, i, gs);
    && Regrouped(gs, hs, r, gs.Keys - met) && hs[r].may
    && (forall p :: p in hs[r].ptrs <==> PtrIn(gs, met, p))
    && (forall j :: j in hs[r].unknown <==> j == i || InstIn(gs, met, j))
  }

  lemma InstGathered(o: Oracle, z: map<Ptr, nat>, i: Inst, gs: Groups, next: nat)
    requires Unsaturated(gs, next) && o.mayTouchMemory(i)
    ensures var m := MergeInstUpTo(o, z, i, Found(gs, None), next); Gathered(gs, m.groups, m.found, Met(o, z, i, gs))
  {
    InstJoins(o, z, i, gs, next);
    MetIs(o, z, i, gs, next);
    hide Gathered, Met, HitInst, Unsaturated, MergeInstUpTo;
  }

  lemma PlacedFound(o: Oracle, z: map<Ptr, nat>, i: Inst, gs: Groups, ms: Groups, f: Id)
    requires Gathered(gs, ms, Some(f), Met(o, z, i, gs))
    ensures f in ms && PlacedAt(o, z, i, gs, ms[f := ms[f].(unknown := ms[f].unknown + [i], may := true)], f)
  {
    hide Met, PtrIn, InstIn;
  }

  lemma PlacedNew(o: Oracle, z: map<Ptr, nat>, i: Inst, gs: Groups, ms: Groups, r: Id)
    requires Gathered(gs, ms, None, Met(o, z, i, gs)) && r !in gs
    ensures PlacedAt(o, z, i, gs, ms[r := NEW_GROUP.(unknown := [i], may := true)], r)
  {
    assert forall p :: !PtrIn(gs, {}, p) && !InstIn(gs, {}, p);
    hide Met, PtrIn, InstIn;
  }

  /**
   An instruction that is added ends in one set, with all that was in a set of which it touches a pointer
   or interferes with an instruction; and the other sets, of which it does neither, are as they were.
   */
  lemma InstPlaced(o: Oracle, z: map<Ptr, nat>, i: Inst, gs: Groups, next: nat) returns (r: Id)
    requires Unsaturated(gs, next) && o.mayTouchMemory(i)
    ensures PlacedAt(o, z, i, gs, WithInst(o, z, i, gs, next), r)
    ensures var m := MergeInstUpTo(o, z, i, Found(gs, None), next); r == if m.found.Some? then m.found.value else next
  {
    InstGathered(o, z, i, gs, next);
    var m := MergeInstUpTo(o, z, i, Found(gs, None), next);
    hide Met, PlacedAt, MergeInstUpTo;
    if m.found.Some? {
      r := m.found.value;
      PlacedFound(o, z, i, gs, m.groups, r);
    } else {
      r := next;
      PlacedNew(o, z, i, gs, m.groups, r);
      assert m.groups.Keys == gs.Keys;
      assert [] + [i] == [i];
    }
  }

  /** A pointer that is added likewise. */
  lemma PtrPlaced(o: Oracle, v: View, x: Loc)
    returns (r: Id)
    requires Unsaturated(v.groups, v.next) && x.ptr !in v.sizes
    ensures var hs := AddStep(o, v, x).groups;
            var left := set k | k in v.groups && ClearOf(o, v.sizes, v.groups[k], x);
            && Regrouped(v.groups, hs, r, left)
            && (forall p :: p in hs[r].ptrs <==> p == x.ptr || PtrIn(v.groups, v.groups.Keys - left, p))
            && (forall j :: j in hs[r].unknown <==> InstIn(v.groups, v.groups.Keys - left, j))
  {
    PtrJoins(o, v.sizes, x, v.groups, v.total, v.next);
    var m := MergeUpTo(o, v.sizes, x, Part(v.groups, v.total, None), v.next);
    forall k | k in v.groups ensures ClearOf(o, v.sizes, v.groups[k], x) <==> !Aliases(o, v.sizes, v.groups[k], x) {
      ClearIff(o, v.sizes, v.groups[k], x);
    }
    r := AddedTo(m, v.next);
    var hit, left := HitPtr(o, v.sizes, x, v.groups, v.next), set k | k in v.groups && ClearOf(o, v.sizes, v.groups[k], x);
    assert left == v.groups.Keys - hit && v.groups.Keys - left == hit;
    hide MergeUpTo, Aliases, ClearOf, AddedSizes, AddedTotal, AddedMay;
  }
}
