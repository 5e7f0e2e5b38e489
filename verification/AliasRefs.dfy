/**
 Reference counts and forwarding in lib/Analysis/AliasSetTracker.cpp, as values:
 the invariant of every tracker state, and the small changes that keep it.
 */
module AliasRefs {
  import opened AliasGroups

  /** An AliasSet. Sets are numbered in the order in which they enter the list of sets. */
  datatype ASet = ASet(ptrs: seq<Ptr>, fwd: Option<Id>, refs: int, may: bool, any: bool, unknown: seq<Inst>, size: int)

  /** A PointerRec that is in a set: the set it names, which may have been merged away, and its size. */
  datatype Rec = Rec(set_: Id, size: nat)

  /**
   A tracker state. root says where following Forward leads; held are references
   counted but not yet, or no longer, stored in a record or a Forward field; young
   are sets that have not been referred to yet.
   */
  datatype State = State(sets: map<Id, ASet>, recs: map<Ptr, Rec>, any: Option<Id>,
                         root: map<Id, Id>, held: multiset<Id>, young: set<Id>)

  ghost function Namers(recs: map<Ptr, Rec>, k: Id): set<Ptr> {
    set p | p in recs && recs[p].set_ == k
  }

  ghost function Forwarders(sets: map<Id, ASet>, k: Id): set<Id> {
    set i | i in sets && sets[i].fwd == Some(k)
  }

  function OfUnknown(s: ASet): nat { if s.unknown == [] then 0 else 1 }

  /** What a RefCount has to be. */
  ghost function Due(t: State, k: Id): nat
    requires k in t.sets
  {
    |Namers(t.recs, k)| + |Forwarders(t.sets, k)| + OfUnknown(t.sets[k]) + t.held[k]
  }

  function Rank(any: Option<Id>, k: Id): nat {
    if any == Some(k) then 0 else k + 1
  }

  ghost predicate Closed(t: State) {
    && (forall p :: p in t.recs ==> t.recs[p].set_ in t.sets)
    && (forall k :: k in t.sets && t.sets[k].fwd.Some? ==> t.sets[k].fwd.value in t.sets)
    && (forall k :: k in t.held ==> k in t.sets)
    && t.root.Keys == t.sets.Keys
  }

  ghost predicate Rooted(t: State, k: Id)
    requires Closed(t) && k in t.sets
  {
    && t.root[k] in t.sets && t.sets[t.root[k]].fwd.None?
    && match t.sets[k].fwd
       case None => t.root[k] == k
       case Some(f) => t.root[k] == t.root[f] && Rank(t.any, f) < Rank(t.any, k)
  }

  ghost predicate Roots(t: State)
    requires Closed(t)
  {
    forall k {:trigger Rooted(t, k)} :: k in t.sets ==> Rooted(t, k)
  }

  ghost predicate Counted(t: State, k: Id)
    requires k in t.sets
  {
    t.sets[k].refs == Due(t, k) && (k !in t.young ==> t.sets[k].refs >= 1)
  }

  ghost predicate Counts(t: State) {
    forall k {:trigger Counted(t, k)} :: k in t.sets ==> Counted(t, k)
  }

  ghost predicate Plain(t: State, k: Id)
    requires k in t.sets
  {
    var s := t.sets[k];
    && (s.fwd.Some? ==> s.ptrs == [] && s.unknown == [])
    && (s.unknown != [] ==> s.may)
    && (s.any <==> t.any == Some(k)) && (s.any ==> s.may)
    && NoDup(s.ptrs)
  }

  ghost predicate Plains(t: State) {
    forall k {:trigger Plain(t, k)} :: k in t.sets ==> Plain(t, k)
  }

  /** The record of a pointer leads to the set whose list it is in. */
  ghost predicate Filed(t: State, p: Ptr)
    requires Closed(t) && p in t.recs
  {
    var k := t.root[t.recs[p].set_];
    k in t.sets && p in t.sets[k].ptrs
  }

  ghost predicate OnlyFiled(t: State, k: Id)
    requires Closed(t) && k in t.sets
  {
    forall p :: p in t.sets[k].ptrs ==> p in t.recs && t.root[t.recs[p].set_] == k
  }

  /** A pointer is in the list of the set that its record leads to, and in no other. */
  ghost predicate Lists(t: State)
    requires Closed(t)
  {
    && (forall k {:trigger OnlyFiled(t, k)} :: k in t.sets ==> OnlyFiled(t, k))
    && (forall p {:trigger Filed(t, p)} :: p in t.recs ==> Filed(t, p))
  }

  /** The invariant. A set is there exactly as long as something refers to it. */
  ghost predicate Inv(t: State) {
    Closed(t) && Roots(t) && Counts(t) && Plains(t) && Lists(t)
  }

  /** In a saturated tracker all sets forward to the one that holds everything. */
  ghost predicate Saturated(t: State) {
    t.any.Some? && t.any.value in t.sets ==>
      forall k :: k in t.sets && k != t.any.value ==> t.sets[k].fwd == t.any
  }

  // ---------- Counting ----------

  function One(b: bool): int { if b then 1 else 0 }

  lemma NamersPut(recs: map<Ptr, Rec>, p: Ptr, r: Rec, k: Id)
    ensures |Namers(recs[p := r], k)| ==
            |Namers(recs, k)| - One(p in recs && recs[p].set_ == k) + One(r.set_ == k)
  {
    var a := Namers(recs, k) - {p};
    assert Namers(recs[p := r], k) == if r.set_ == k then a + {p} else a;
    assert Namers(recs, k) == if p in recs && recs[p].set_ == k then a + {p} else a;
  }

  lemma NamersDel(recs: map<Ptr, Rec>, p: Ptr, k: Id)
    ensures |Namers(recs - {p}, k)| == |Namers(recs, k)| - One(p in recs && recs[p].set_ == k)
  {
    var a := Namers(recs, k) - {p};
    assert Namers(recs - {p}, k) == a;
    assert Namers(recs, k) == if p in recs && recs[p].set_ == k then a + {p} else a;
  }

  lemma ForwardersPut(sets: map<Id, ASet>, i: Id, s: ASet, k: Id)
    ensures |Forwarders(sets[i := s], k)| ==
            |Forwarders(sets, k)| - One(i in sets && sets[i].fwd == Some(k)) + One(s.fwd == Some(k))
  {
    var a := Forwarders(sets, k) - {i};
    assert Forwarders(sets[i := s], k) == if s.fwd == Some(k) then a + {i} else a;
    assert Forwarders(sets, k) == if i in sets && sets[i].fwd == Some(k) then a + {i} else a;
  }

  lemma ForwardersDel(sets: map<Id, ASet>, i: Id, k: Id)
    ensures |Forwarders(sets - {i}, k)| == |Forwarders(sets, k)| - One(i in sets && sets[i].fwd == Some(k))
  {
    var a := Forwarders(sets, k) - {i};
    assert Forwarders(sets - {i}, k) == a;
    assert Forwarders(sets, k) == if i in sets && sets[i].fwd == Some(k) then a + {i} else a;
  }

  // ---------- addRef, dropRef ----------

  function Bumped(s: ASet, d: int): ASet { s.(refs := s.refs + d) }

  function Hold(t: State, x: Id): State
    requires x in t.sets
  {
    t.(sets := t.sets[x := Bumped(t.sets[x], 1)], held := t.held + multiset{x})
  }

  function Release(t: State, x: Id): State
    requires x in t.sets
  {
    t.(sets := t.sets[x := Bumped(t.sets[x], -1)], held := t.held - multiset{x})
  }

  /** Nothing but the counts has changed. */
  ghost predicate SameButCounts(t: State, u: State) {
    && u.sets.Keys == t.sets.Keys && u.recs == t.recs && u.any == t.any && u.root == t.root
    && (forall k :: k in t.sets ==> u.sets[k] == t.sets[k].(refs := u.sets[k].refs))
  }

  lemma SameStructure(t: State, u: State)
    requires Inv(t) && SameButCounts(t, u)
    requires forall k :: k in u.held ==> k in u.sets
    ensures Closed(u) && Roots(u) && Plains(u) && Lists(u)
  {
    hide Counts, Inv;
    InvParts(t);
    assert Closed(u);
    hide Closed, Roots, Plains, Lists, SameButCounts;
    forall k | k in u.sets
      ensures Rooted(u, k) && Plain(u, k) && OnlyFiled(u, k)
    {
      SameEach(t, u, k);
    }
    forall q | q in u.recs
      ensures Filed(u, q)
    {
      SameFiled(t, u, q);
    }
    StructureFrom(u);
  }

  lemma SameEach(t: State, u: State, k: Id)
    requires Closed(t) && Roots(t) && Plains(t) && Lists(t) && SameButCounts(t, u) && Closed(u) && k in u.sets
    ensures Rooted(u, k) && Plain(u, k) && OnlyFiled(u, k)
  {
    assert Rooted(t, k) && Plain(t, k) && OnlyFiled(t, k);
  }

  lemma SameFiled(t: State, u: State, q: Ptr)
    requires Closed(t) && Lists(t) && SameButCounts(t, u) && Closed(u) && q in u.recs
    ensures Filed(u, q)
  {
    assert Filed(t, q);
  }

  lemma InvParts(t: State)
    requires Inv(t)
    ensures Closed(t) && Roots(t) && Counts(t) && Plains(t) && Lists(t)
  {
  }

  lemma SameForwarders(t: State, u: State, k: Id)
    requires SameButCounts(t, u)
    ensures Forwarders(u.sets, k) == Forwarders(t.sets, k)
  {
  }

  lemma HoldKeeps(t: State, x: Id)
    requires Inv(t) && x in t.sets
    ensures Inv(Hold(t, x)) && SameButCounts(t, Hold(t, x))
  {
    hide Inv, Closed, Roots, Plains, Lists;
    InvParts(t);
    var u := Hold(t, x);
    assert forall k :: k in u.held ==> k in u.sets by { HeldIn(t); }
    SameStructure(t, u);
    forall k | k in u.sets
      ensures Counted(u, k)
    {
      assert Counted(t, k);
      HoldCount(t, x, k);
      hide Due;
    }
    InvFrom(u);
  }

  lemma HoldCount(t: State, x: Id, k: Id)
    requires x in t.sets && k in t.sets
    ensures Due(Hold(t, x), k) == Due(t, k) + One(k == x)
    ensures SameButCounts(t, Hold(t, x))
  {
    SameForwarders(t, Hold(t, x), k);
  }

  lemma HeldIn(t: State)
    requires Closed(t)
    ensures forall k :: k in t.held ==> k in t.sets
  {
  }

  lemma InvFrom(t: State)
    requires Closed(t) && Roots(t) && Counts(t) && Plains(t) && Lists(t)
    ensures Inv(t)
  {
  }

  lemma ReleaseKeeps(t: State, x: Id)
    requires Inv(t) && x in t.held && x in t.sets && (t.sets[x].refs > 1 || x in t.young)
    ensures Inv(Release(t, x)) && SameButCounts(t, Release(t, x))
  {
    hide Inv, Closed, Roots, Plains, Lists;
    InvParts(t);
    var u := Release(t, x);
    assert forall k :: k in u.held ==> k in u.sets by { HeldIn(t); }
    SameStructure(t, u);
    forall k | k in u.sets
      ensures Counted(u, k)
    {
      assert Counted(t, k);
      ReleaseCount(t, x, k);
      hide Due;
    }
    InvFrom(u);
  }

  lemma ReleaseCount(t: State, x: Id, k: Id)
    requires x in t.sets && k in t.sets && x in t.held
    ensures Due(Release(t, x), k) == Due(t, k) - One(k == x)
    ensures SameButCounts(t, Release(t, x))
  {
    SameForwarders(t, Release(t, x), k);
  }

  // ---------- Removing a set that nothing refers to ----------

  function Erase(t: State, x: Id): State
    requires x in t.sets
  {
    t.(sets := t.sets - {x}, root := t.root - {x}, young := t.young - {x},
       held := t.held - multiset{x} + (if t.sets[x].fwd.Some? then multiset{t.sets[x].fwd.value} else multiset{}))
  }

  /** A set with one reference, held by the caller, is named by no record and forwarded to by no set. */
  lemma LastRef(t: State, x: Id)
    requires Inv(t) && x in t.sets && x in t.held && t.sets[x].refs == 1
    ensures Namers(t.recs, x) == {} && Forwarders(t.sets, x) == {} && t.sets[x].unknown == [] && t.held[x] == 1
  {
    hide Closed, Roots, Plains, Lists;
    assert Counted(t, x);
  }

  lemma {:induction false} OnlyOwnRoot(t: State, x: Id, k: Id)
    requires Closed(t) && Roots(t) && x in t.sets && k in t.sets && Forwarders(t.sets, x) == {} && t.root[k] == x
    ensures k == x
    decreases Rank(t.any, k)
  {
    assert Rooted(t, k);
    if t.sets[k].fwd.Some? {
      assert t.sets[k].fwd == Some(x) ==> k in Forwarders(t.sets, x);
      OnlyOwnRoot(t, x, t.sets[k].fwd.value);
    }
  }

  lemma EraseCounts(t: State, x: Id)
    requires Inv(t) && x in t.sets && x in t.held && t.sets[x].refs == 1
    ensures Counts(Erase(t, x))
  {
    hide Roots, Plains, Lists;
    var u := Erase(t, x);
    forall k | k in u.sets
      ensures Counted(u, k)
    {
      ForwardersDel(t.sets, x, k);
      assert Counted(t, k);
    }
  }

  /** Nothing leads to x any more. */
  ghost predicate Unreferenced(t: State, x: Id)
    requires Closed(t)
  {
    && x in t.sets
    && (forall p :: p in t.recs ==> t.recs[p].set_ != x)
    && (forall k :: k in t.sets ==> t.sets[k].fwd != Some(x))
    && (forall k :: k in t.sets && k != x ==> t.root[k] != x)
  }

  lemma LastIsUnreferenced(t: State, x: Id)
    requires Inv(t) && x in t.sets && x in t.held && t.sets[x].refs == 1
    ensures Closed(t) && Unreferenced(t, x) && t.held[x] == 1
  {
    hide Counts, Plains, Lists;
    LastRef(t, x);
    assert forall p :: p in t.recs && t.recs[p].set_ == x ==> p in Namers(t.recs, x);
    assert forall k :: k in t.sets && t.sets[k].fwd == Some(x) ==> k in Forwarders(t.sets, x);
    forall k | k in t.sets && t.root[k] == x
      ensures k == x
    {
      OnlyOwnRoot(t, x, k);
    }
  }

  lemma EraseClosed(t: State, x: Id)
    requires Closed(t) && Unreferenced(t, x) && t.held[x] <= 1
    ensures Closed(Erase(t, x))
  {
  }

  lemma EraseStructure(t: State, x: Id)
    requires Inv(t) && x in t.sets && x in t.held && t.sets[x].refs == 1
    ensures Closed(Erase(t, x)) && Roots(Erase(t, x)) && Plains(Erase(t, x)) && Lists(Erase(t, x))
  {
    hide Counts, Inv;
    InvParts(t);
    LastIsUnreferenced(t, x);
    EraseClosed(t, x);
    var u := Erase(t, x);
    hide Closed;
    forall k | k in u.sets
      ensures Rooted(u, k) && Plain(u, k) && OnlyFiled(u, k)
    {
      EraseEach(t, x, k);
    }
    forall p | p in u.recs
      ensures Filed(u, p)
    {
      assert Filed(t, p);
    }
  }

  lemma EraseEach(t: State, x: Id, k: Id)
    requires Closed(t) && Roots(t) && Plains(t) && Lists(t) && Unreferenced(t, x) && k in t.sets && k != x
    requires Closed(Erase(t, x))
    ensures Rooted(Erase(t, x), k) && Plain(Erase(t, x), k) && OnlyFiled(Erase(t, x), k)
  {
    assert Rooted(t, k) && Plain(t, k) && OnlyFiled(t, k);
  }

  lemma EraseKeeps(t: State, x: Id)
    requires Inv(t) && x in t.sets && x in t.held && t.sets[x].refs == 1
    ensures Inv(Erase(t, x))
  {
    hide Inv, Closed, Roots, Counts, Plains, Lists, Erase;
    EraseStructure(t, x);
    EraseCounts(t, x);
    InvFrom(Erase(t, x));
  }

  // ---------- Moving a reference to the set it leads to ----------

  function RecordTo(t: State, p: Ptr, d: Id): State
    requires p in t.recs
  {
    t.(recs := t.recs[p := t.recs[p].(set_ := d)], held := t.held - multiset{d} + multiset{t.recs[p].set_})
  }

  lemma RecordToKeeps(t: State, p: Ptr, d: Id)
    requires Inv(t) && p in t.recs && d in t.held && d in t.sets
    requires t.recs[p].set_ in t.root && d in t.root && t.root[d] == t.root[t.recs[p].set_]
    ensures Inv(RecordTo(t, p, d))
  {
    hide Inv, Closed, Roots, Counts, Plains, Lists;
    RecordToStructure(t, p, d);
    RecordToCounts(t, p, d);
    InvFrom(RecordTo(t, p, d));
  }

  lemma RecordToStructure(t: State, p: Ptr, d: Id)
    requires Inv(t) && p in t.recs && d in t.held && d in t.sets
    requires t.recs[p].set_ in t.root && d in t.root && t.root[d] == t.root[t.recs[p].set_]
    ensures var u := RecordTo(t, p, d); Closed(u) && Roots(u) && Plains(u) && Lists(u)
  {
    hide Counts, Inv;
    InvParts(t);
    var u := RecordTo(t, p, d);
    assert Closed(u);
    assert u.sets == t.sets && u.recs.Keys == t.recs.Keys;
    hide Closed, Roots, Plains, Lists, RecordTo;
    forall k | k in u.sets
      ensures Rooted(u, k) && Plain(u, k) && OnlyFiled(u, k)
    {
      RecordToEach(t, p, d, k);
    }
    forall q | q in u.recs
      ensures Filed(u, q)
    {
      RecordToFiled(t, p, d, q);
    }
    StructureFrom(u);
  }

  lemma RecordToEach(t: State, p: Ptr, d: Id, k: Id)
    requires Closed(t) && Roots(t) && Plains(t) && Lists(t) && p in t.recs && k in t.sets && Closed(RecordTo(t, p, d))
    requires t.recs[p].set_ in t.root && d in t.root && t.root[d] == t.root[t.recs[p].set_]
    ensures var u := RecordTo(t, p, d); Rooted(u, k) && Plain(u, k) && OnlyFiled(u, k)
  {
    assert Rooted(t, k) && Plain(t, k) && OnlyFiled(t, k);
  }

  lemma RecordToFiled(t: State, p: Ptr, d: Id, q: Ptr)
    requires Closed(t) && Lists(t) && p in t.recs && q in t.recs && Closed(RecordTo(t, p, d))
    requires t.recs[p].set_ in t.root && d in t.root && t.root[d] == t.root[t.recs[p].set_]
    ensures Filed(RecordTo(t, p, d), q)
  {
    assert Filed(t, q);
  }

  lemma RecordToCounts(t: State, p: Ptr, d: Id)
    requires Inv(t) && p in t.recs && d in t.held && d in t.sets
    ensures Counts(RecordTo(t, p, d))
  {
    hide Roots, Plains, Lists;
    var u := RecordTo(t, p, d);
    forall k | k in u.sets
      ensures Counted(u, k)
    {
      NamersPut(t.recs, p, u.recs[p], k);
      assert Counted(t, k);
    }
  }

  function ForwardTo(t: State, x: Id, d: Id): State
    requires x in t.sets && t.sets[x].fwd.Some?
  {
    t.(sets := t.sets[x := t.sets[x].(fwd := Some(d))], held := t.held - multiset{d} + multiset{t.sets[x].fwd.value})
  }

  ghost predicate CanForward(t: State, x: Id, d: Id) {
    && x in t.sets && t.sets[x].fwd.Some? && d in t.held && d in t.sets
    && x in t.root && d in t.root && t.root[d] == t.root[x] && Rank(t.any, d) < Rank(t.any, x)
  }

  lemma ForwardToKeeps(t: State, x: Id, d: Id)
    requires Inv(t) && CanForward(t, x, d)
    ensures Inv(ForwardTo(t, x, d))
  {
    hide Inv, Closed, Roots, Counts, Plains, Lists;
    ForwardToStructure(t, x, d);
    ForwardToCounts(t, x, d);
    InvFrom(ForwardTo(t, x, d));
  }

  lemma ForwardToStructure(t: State, x: Id, d: Id)
    requires Inv(t) && CanForward(t, x, d)
    ensures var u := ForwardTo(t, x, d); Closed(u) && Roots(u) && Plains(u) && Lists(u)
  {
    hide Counts, Inv;
    InvParts(t);
    ForwardToClosed(t, x, d);
    var u := ForwardTo(t, x, d);
    assert u.sets.Keys == t.sets.Keys && u.recs == t.recs;
    hide Closed, Roots, Plains, Lists, CanForward, ForwardTo;
    forall k | k in u.sets
      ensures Rooted(u, k) && Plain(u, k) && OnlyFiled(u, k)
    {
      ForwardToEach(t, x, d, k);
    }
    forall q | q in u.recs
      ensures Filed(u, q)
    {
      ForwardToFiled(t, x, d, q);
    }
    StructureFrom(u);
  }

  lemma ForwardToFiled(t: State, x: Id, d: Id, q: Ptr)
    requires Closed(t) && Lists(t) && CanForward(t, x, d) && q in t.recs && Closed(ForwardTo(t, x, d))
    ensures Filed(ForwardTo(t, x, d), q)
  {
    assert Filed(t, q);
  }

  lemma ForwardToClosed(t: State, x: Id, d: Id)
    requires Closed(t) && CanForward(t, x, d)
    ensures Closed(ForwardTo(t, x, d))
  {
  }

  lemma ForwardToEach(t: State, x: Id, d: Id, k: Id)
    requires Closed(t) && Roots(t) && Plains(t) && Lists(t) && CanForward(t, x, d) && k in t.sets
    requires Closed(ForwardTo(t, x, d))
    ensures var u := ForwardTo(t, x, d); Rooted(u, k) && Plain(u, k) && OnlyFiled(u, k)
  {
    assert Rooted(t, k) && Plain(t, k) && OnlyFiled(t, k);
  }

  lemma ForwardToCounts(t: State, x: Id, d: Id)
    requires Inv(t) && CanForward(t, x, d)
    ensures Counts(ForwardTo(t, x, d))
  {
    hide Roots, Plains, Lists;
    var u := ForwardTo(t, x, d);
    forall k | k in u.sets
      ensures Counted(u, k)
    {
      ForwardersPut(t.sets, x, u.sets[x], k);
      assert Counted(t, k);
    }
  }

  // ---------- New sets, new pointers, new instructions ----------

  const NEW_SET: ASet := ASet([], None, 0, false, false, [], 0)

  /** The set that a saturated tracker puts everything in. */
  const ANY_SET: ASet := ASet([], None, 0, true, true, [], 0)

  /** A new set; it becomes the saturated one if full. */
  function Create(t: State, x: Id, full: bool): State {
    t.(sets := t.sets[x := if full then ANY_SET else NEW_SET], any := if full then Some(x) else t.any,
       root := t.root[x := x], young := t.young + {x})
  }

  lemma CreateKeeps(t: State, x: Id, full: bool)
    requires Inv(t) && x !in t.sets && (if full then t.any.None? else t.any != Some(x))
    ensures Inv(Create(t, x, full))
  {
    hide Inv, Closed, Roots, Counts, Plains, Lists;
    CreateStructure(t, x, full);
    CreateCounts(t, x, full);
    InvFrom(Create(t, x, full));
  }

  lemma CreateClosed(t: State, x: Id, full: bool)
    requires Closed(t)
    ensures Closed(Create(t, x, full))
  {
  }

  lemma CreateStructure(t: State, x: Id, full: bool)
    requires Inv(t) && x !in t.sets && (if full then t.any.None? else t.any != Some(x))
    ensures var u := Create(t, x, full); Closed(u) && Roots(u) && Plains(u) && Lists(u)
  {
    hide Counts, Inv;
    InvParts(t);
    CreateClosed(t, x, full);
    var u := Create(t, x, full);
    assert u.sets.Keys == t.sets.Keys + {x} && u.recs == t.recs;
    hide Closed, Roots, Plains, Lists, Create;
    forall k | k in u.sets
      ensures Rooted(u, k) && Plain(u, k) && OnlyFiled(u, k)
    {
      CreateEach(t, x, full, k);
    }
    forall q | q in u.recs
      ensures Filed(u, q)
    {
      CreateFiled(t, x, full, q);
    }
    StructureFrom(u);
  }

  lemma CreateFiled(t: State, x: Id, full: bool, q: Ptr)
    requires Closed(t) && Lists(t) && x !in t.sets && q in t.recs && Closed(Create(t, x, full))
    ensures Filed(Create(t, x, full), q)
  {
    assert Filed(t, q);
  }

  lemma CreateEach(t: State, x: Id, full: bool, k: Id)
    requires Closed(t) && Roots(t) && Plains(t) && Lists(t) && Closed(Create(t, x, full))
    requires x !in t.sets && (k in t.sets || k == x) && (if full then t.any.None? else t.any != Some(x))
    ensures var u := Create(t, x, full); Rooted(u, k) && Plain(u, k) && OnlyFiled(u, k)
  {
    if k in t.sets {
      assert Rooted(t, k) && Plain(t, k) && OnlyFiled(t, k);
    }
  }

  lemma CreateCounts(t: State, x: Id, full: bool)
    requires Inv(t) && x !in t.sets
    ensures Counts(Create(t, x, full))
  {
    hide Roots, Plains, Lists;
    var u := Create(t, x, full);
    assert Namers(t.recs, x) == {} && Forwarders(t.sets, x) == {};
    forall k | k in u.sets
      ensures Counted(u, k)
    {
      ForwardersPut(t.sets, x, u.sets[x], k);
      assert k in t.sets ==> Counted(t, k);
    }
  }

  /** Pointer p enters set x, which gets the label and size given; its record takes a reference that is held. */
  function Enter(t: State, x: Id, p: Ptr, size: nat, may: bool, n: int): State
    requires x in t.sets
  {
    t.(sets := t.sets[x := t.sets[x].(ptrs := t.sets[x].ptrs + [p], may := may, size := n)],
       recs := t.recs[p := Rec(x, size)], held := t.held - multiset{x}, young := t.young - {x})
  }

  ghost predicate CanEnter(t: State, x: Id, p: Ptr, may: bool) {
    x in t.sets && t.sets[x].fwd.None? && x in t.held && p !in t.recs && (t.sets[x].may ==> may)
  }

  lemma EnterKeeps(t: State, x: Id, p: Ptr, size: nat, may: bool, n: int)
    requires Inv(t) && CanEnter(t, x, p, may)
    ensures Inv(Enter(t, x, p, size, may, n))
  {
    hide Inv, Closed, Roots, Counts, Plains, Lists;
    EnterStructure(t, x, p, size, may, n);
    EnterCounts(t, x, p, size, may, n);
    InvFrom(Enter(t, x, p, size, may, n));
  }

  lemma EnterClosed(t: State, x: Id, p: Ptr, size: nat, may: bool, n: int)
    requires Closed(t) && CanEnter(t, x, p, may)
    ensures Closed(Enter(t, x, p, size, may, n))
  {
  }

  lemma EnterStructure(t: State, x: Id, p: Ptr, size: nat, may: bool, n: int)
    requires Inv(t) && CanEnter(t, x, p, may)
    ensures var u := Enter(t, x, p, size, may, n); Closed(u) && Roots(u) && Plains(u) && Lists(u)
  {
    hide Counts, Inv;
    InvParts(t);
    EnterClosed(t, x, p, size, may, n);
    hide Closed;
    var u := Enter(t, x, p, size, may, n);
    forall k | k in u.sets
      ensures Rooted(u, k) && Plain(u, k) && OnlyFiled(u, k)
    {
      EnterEach(t, x, p, size, may, n, k);
    }
    forall q | q in u.recs
      ensures Filed(u, q)
    {
      EnterFiled(t, x, p, size, may, n, q);
    }
  }

  lemma EnterFiled(t: State, x: Id, p: Ptr, size: nat, may: bool, n: int, q: Ptr)
    requires Closed(t) && Roots(t) && Lists(t) && CanEnter(t, x, p, may) && (q == p || q in t.recs)
    requires Closed(Enter(t, x, p, size, may, n))
    ensures Filed(Enter(t, x, p, size, may, n), q)
  {
    assert Rooted(t, x);
    assert q in t.recs ==> Filed(t, q);
    hide Roots, Lists;
  }

  lemma EnterEach(t: State, x: Id, p: Ptr, size: nat, may: bool, n: int, k: Id)
    requires Closed(t) && Roots(t) && Plains(t) && Lists(t) && CanEnter(t, x, p, may) && k in t.sets
    requires Closed(Enter(t, x, p, size, may, n))
    ensures var u := Enter(t, x, p, size, may, n); Rooted(u, k) && Plain(u, k) && OnlyFiled(u, k)
  {
    assert Rooted(t, k) && Plain(t, k) && OnlyFiled(t, k) && Rooted(t, x);
    assert p !in t.sets[x].ptrs by { assert OnlyFiled(t, x); }
  }

  lemma EnterCounts(t: State, x: Id, p: Ptr, size: nat, may: bool, n: int)
    requires Inv(t) && CanEnter(t, x, p, may)
    ensures Counts(Enter(t, x, p, size, may, n))
  {
    hide Roots, Plains, Lists;
    var u := Enter(t, x, p, size, may, n);
    forall k | k in u.sets
      ensures Counted(u, k)
    {
      NamersPut(t.recs, p, u.recs[p], k);
      ForwardersPut(t.sets, x, u.sets[x], k);
      assert Counted(t, k);
    }
  }

  /** Only sizes of records change. */
  lemma ResizeKeeps(t: State, p: Ptr, n: nat)
    requires Inv(t) && p in t.recs
    ensures Inv(t.(recs := t.recs[p := t.recs[p].(size := n)]))
  {
    var u := t.(recs := t.recs[p := t.recs[p].(size := n)]);
    hide Roots, Plains, Lists;
    forall k | k in u.sets
      ensures Counted(u, k)
    {
      NamersPut(t.recs, p, u.recs[p], k);
      assert Counted(t, k);
    }
    ResizeStructure(t, p, n);
  }

  lemma ResizeStructure(t: State, p: Ptr, n: nat)
    requires Inv(t) && p in t.recs
    ensures var u := t.(recs := t.recs[p := t.recs[p].(size := n)]); Closed(u) && Roots(u) && Plains(u) && Lists(u)
  {
    hide Counts;
    var u := t.(recs := t.recs[p := t.recs[p].(size := n)]);
    assert Closed(u);
    forall k | k in u.sets
      ensures Rooted(u, k) && Plain(u, k) && OnlyFiled(u, k)
    {
      assert Rooted(t, k) && Plain(t, k) && OnlyFiled(t, k);
    }
    forall q | q in u.recs
      ensures Filed(u, q)
    {
      assert Filed(t, q);
    }
  }

  /** An instruction joins set x; the first one takes a reference that is held. */
  function Witness(t: State, x: Id, i: Inst): State
    requires x in t.sets
  {
    t.(sets := t.sets[x := t.sets[x].(unknown := t.sets[x].unknown + [i], may := true)],
       held := if t.sets[x].unknown == [] then t.held - multiset{x} else t.held, young := t.young - {x})
  }

  lemma WitnessKeeps(t: State, x: Id, i: Inst)
    requires Inv(t) && x in t.sets && t.sets[x].fwd.None? && (t.sets[x].unknown == [] ==> x in t.held)
    ensures Inv(Witness(t, x, i))
  {
    hide Inv, Closed, Roots, Counts, Plains, Lists;
    WitnessStructure(t, x, i);
    WitnessCounts(t, x, i);
    InvFrom(Witness(t, x, i));
  }

  lemma WitnessStructure(t: State, x: Id, i: Inst)
    requires Inv(t) && x in t.sets && t.sets[x].fwd.None?
    ensures var u := Witness(t, x, i); Closed(u) && Roots(u) && Plains(u) && Lists(u)
  {
    hide Counts, Inv;
    InvParts(t);
    WitnessClosed(t, x, i);
    WitnessFiled(t, x, i);
    var u := Witness(t, x, i);
    assert u.sets.Keys == t.sets.Keys;
    hide Closed, Rooted, Plain, OnlyFiled, Filed, Witness;
    forall k | k in u.sets
      ensures Rooted(u, k) && Plain(u, k) && OnlyFiled(u, k)
    {
      WitnessEach(t, x, i, k);
    }
  }

  lemma WitnessClosed(t: State, x: Id, i: Inst)
    requires Closed(t) && x in t.sets
    ensures Closed(Witness(t, x, i))
  {
  }

  lemma WitnessFiled(t: State, x: Id, i: Inst)
    requires Closed(t) && Lists(t) && x in t.sets && Closed(Witness(t, x, i))
    ensures var u := Witness(t, x, i); forall q {:trigger Filed(u, q)} :: q in u.recs ==> Filed(u, q)
  {
    hide Closed;
    var u := Witness(t, x, i);
    forall q | q in u.recs
      ensures Filed(u, q)
    {
      assert Filed(t, q);
    }
  }

  lemma WitnessEach(t: State, x: Id, i: Inst, k: Id)
    requires Closed(t) && Roots(t) && Plains(t) && Lists(t) && x in t.sets && t.sets[x].fwd.None? && k in t.sets
    requires Closed(Witness(t, x, i))
    ensures var u := Witness(t, x, i); Rooted(u, k) && Plain(u, k) && OnlyFiled(u, k)
  {
    assert Rooted(t, k) && Plain(t, k) && OnlyFiled(t, k);
  }

  lemma WitnessCounts(t: State, x: Id, i: Inst)
    requires Inv(t) && x in t.sets && (t.sets[x].unknown == [] ==> x in t.held)
    ensures Counts(Witness(t, x, i))
  {
    hide Roots, Plains, Lists;
    var u := Witness(t, x, i);
    forall k | k in u.sets
      ensures Counted(u, k)
    {
      ForwardersPut(t.sets, x, u.sets[x], k);
      assert Counted(t, k);
    }
  }

  // ---------- Deleting a pointer ----------

  function Without(ptrs: seq<Ptr>, p: Ptr): seq<Ptr> {
    if ptrs == [] then [] else if ptrs[0] == p then ptrs[1..] else [ptrs[0]] + Without(ptrs[1..], p)
  }

  lemma {:induction false} WithoutIs(ptrs: seq<Ptr>, p: Ptr)
    requires NoDup(ptrs)
    ensures NoDup(Without(ptrs, p))
    ensures forall q :: q in Without(ptrs, p) <==> q in ptrs && q != p
  {
    if ptrs != [] {
      TailNoDup(ptrs);
      WithoutIs(ptrs[1..], p);
      if ptrs[0] != p {
        HeadNoDup(ptrs[0], Without(ptrs[1..], p));
      }
    }
  }

  lemma TailNoDup(ptrs: seq<Ptr>)
    requires NoDup(ptrs) && ptrs != []
    ensures NoDup(ptrs[1..]) && ptrs[0] !in ptrs[1..]
  {
  }

  lemma HeadNoDup(p: Ptr, ptrs: seq<Ptr>)
    requires NoDup(ptrs) && p !in ptrs
    ensures NoDup([p] + ptrs)
  {
  }

  /** Pointer p leaves set x, which gets the size given; its record's reference is held. */
  function Leave(t: State, p: Ptr, x: Id, n: int): State
    requires x in t.sets
  {
    t.(sets := t.sets[x := t.sets[x].(ptrs := Without(t.sets[x].ptrs, p), size := n)],
       recs := t.recs - {p}, held := t.held + multiset{x})
  }

  ghost predicate CanLeave(t: State, p: Ptr, x: Id) {
    p in t.recs && t.recs[p].set_ == x && x in t.sets && t.sets[x].fwd.None?
  }

  lemma LeaveKeeps(t: State, p: Ptr, x: Id, n: int)
    requires Inv(t) && CanLeave(t, p, x)
    ensures Inv(Leave(t, p, x, n))
  {
    hide Inv, Closed, Roots, Counts, Plains, Lists;
    LeaveStructure(t, p, x, n);
    LeaveCounts(t, p, x, n);
    InvFrom(Leave(t, p, x, n));
  }

  lemma LeaveClosed(t: State, p: Ptr, x: Id, n: int)
    requires Closed(t) && CanLeave(t, p, x)
    ensures Closed(Leave(t, p, x, n))
  {
  }

  lemma LeaveStructure(t: State, p: Ptr, x: Id, n: int)
    requires Inv(t) && CanLeave(t, p, x)
    ensures var u := Leave(t, p, x, n); Closed(u) && Roots(u) && Plains(u) && Lists(u)
  {
    hide Counts, Inv;
    InvParts(t);
    LeaveClosed(t, p, x, n);
    assert Plain(t, x) && Rooted(t, x);
    WithoutIs(t.sets[x].ptrs, p);
    hide Closed, Without;
    var u := Leave(t, p, x, n);
    forall k | k in u.sets
      ensures Rooted(u, k) && Plain(u, k) && OnlyFiled(u, k)
    {
      LeaveEach(t, p, x, n, k);
    }
    forall q | q in u.recs
      ensures Filed(u, q)
    {
      assert Filed(t, q);
    }
  }

  lemma LeaveEach(t: State, p: Ptr, x: Id, n: int, k: Id)
    requires Closed(t) && Roots(t) && Plains(t) && Lists(t) && CanLeave(t, p, x) && k in t.sets
    requires Closed(Leave(t, p, x, n))
    ensures var u := Leave(t, p, x, n); Rooted(u, k) && Plain(u, k) && OnlyFiled(u, k)
  {
    assert Rooted(t, k) && Plain(t, k) && OnlyFiled(t, k) && Plain(t, x) && Rooted(t, x);
    WithoutIs(t.sets[x].ptrs, p);
    hide Without;
    var u := Leave(t, p, x, n);
    forall q | q in u.sets[k].ptrs
      ensures q in u.recs
    {
      assert q in t.sets[k].ptrs;
    }
  }

  lemma LeaveCounts(t: State, p: Ptr, x: Id, n: int)
    requires Inv(t) && CanLeave(t, p, x)
    ensures Counts(Leave(t, p, x, n))
  {
    hide Roots, Plains, Lists;
    var u := Leave(t, p, x, n);
    forall k | k in u.sets
      ensures Counted(u, k)
    {
      NamersDel(t.recs, p, k);
      ForwardersPut(t.sets, x, u.sets[x], k);
      assert Counted(t, k);
    }
  }

  // ---------- Merging ----------

  function Taker(sx: ASet, sy: ASet, may: bool, n: int): ASet {
    var took := if sx.unknown == [] && sy.unknown != [] then 1 else 0;
    ASet(sx.ptrs + sy.ptrs, sx.fwd, sx.refs + 1 + took, may, sx.any, sx.unknown + sy.unknown, n)
  }

  function Taken(sy: ASet, x: Id): ASet {
    sy.(fwd := Some(x), ptrs := [], unknown := [], size := if sy.ptrs == [] then sy.size else 0)
  }

  /** Set y is merged into x: x gets its pointers and instructions, and y forwards to x. */
  function Absorb(t: State, x: Id, y: Id, may: bool, n: int): State
    requires x in t.sets && y in t.sets
  {
    var sx, sy := t.sets[x], t.sets[y];
    t.(sets := t.sets[x := Taker(sx, sy, may, n)][y := Taken(sy, x)],
       root := map k | k in t.root :: if t.root[k] == y then x else t.root[k],
       held := if sy.unknown == [] then t.held else t.held + multiset{y},
       young := t.young - {x})
  }

  ghost predicate CanAbsorb(t: State, x: Id, y: Id, may: bool) {
    && x in t.sets && y in t.sets && x != y && t.sets[x].fwd.None? && t.sets[y].fwd.None?
    && Rank(t.any, x) < Rank(t.any, y) && y !in t.young
    && (t.sets[x].may || t.sets[y].may ==> may)
  }

  lemma AbsorbKeeps(t: State, x: Id, y: Id, may: bool, n: int)
    requires Inv(t) && CanAbsorb(t, x, y, may)
    ensures Inv(Absorb(t, x, y, may, n))
  {
    hide Inv, Closed, Roots, Counts, Plains, Lists;
    AbsorbStructure(t, x, y, may, n);
    AbsorbCounts(t, x, y, may, n);
    InvFrom(Absorb(t, x, y, may, n));
  }

  lemma AbsorbClosed(t: State, x: Id, y: Id, may: bool, n: int)
    requires Closed(t) && CanAbsorb(t, x, y, may)
    ensures Closed(Absorb(t, x, y, may, n))
  {
  }

  lemma AbsorbStructure(t: State, x: Id, y: Id, may: bool, n: int)
    requires Inv(t) && CanAbsorb(t, x, y, may)
    ensures var u := Absorb(t, x, y, may, n); Closed(u) && Roots(u) && Plains(u) && Lists(u)
  {
    hide Counts, Inv;
    InvParts(t);
    AbsorbClosed(t, x, y, may, n);
    assert forall q :: q in t.recs ==> t.recs[q].set_ in t.sets;
    hide Closed, Roots, Plains, Lists;
    var u := Absorb(t, x, y, may, n);
    forall k | k in u.sets
      ensures Rooted(u, k) && Plain(u, k) && OnlyFiled(u, k)
    {
      AbsorbRooted(t, x, y, may, n, k);
      AbsorbPlain(t, x, y, may, n, k);
      AbsorbOnlyFiled(t, x, y, may, n, k);
    }
    forall q | q in u.recs
      ensures Filed(u, q)
    {
      AbsorbFiled(t, x, y, may, n, q);
    }
    StructureFrom(u);
  }

  lemma StructureFrom(t: State)
    requires Closed(t)
    requires forall k :: k in t.sets ==> Rooted(t, k) && Plain(t, k) && OnlyFiled(t, k)
    requires forall q :: q in t.recs ==> Filed(t, q)
    ensures Roots(t) && Plains(t) && Lists(t)
  {
  }

  lemma AbsorbRooted(t: State, x: Id, y: Id, may: bool, n: int, k: Id)
    requires Closed(t) && Roots(t) && CanAbsorb(t, x, y, may) && k in t.sets && Closed(Absorb(t, x, y, may, n))
    ensures Rooted(Absorb(t, x, y, may, n), k)
  {
    assert Rooted(t, k) && Rooted(t, x) && Rooted(t, y);
  }

  lemma AbsorbPlain(t: State, x: Id, y: Id, may: bool, n: int, k: Id)
    requires Closed(t) && Roots(t) && Plains(t) && Lists(t) && CanAbsorb(t, x, y, may) && k in t.sets
    ensures Plain(Absorb(t, x, y, may, n), k)
  {
    assert Plain(t, k) && Plain(t, x) && Plain(t, y);
    ListsApart(t, x, y);
    var xs, ys := t.sets[x].ptrs, t.sets[y].ptrs;
    assert NoDup(xs + ys) by {
      assert forall i :: 0 <= i < |xs| ==> xs[i] in xs;
      assert forall i :: 0 <= i < |ys| ==> ys[i] in ys;
    }
  }

  lemma ListsApart(t: State, x: Id, y: Id)
    requires Closed(t) && Lists(t) && x in t.sets && y in t.sets && x != y
    ensures forall p :: p in t.sets[x].ptrs ==> p !in t.sets[y].ptrs
  {
    assert OnlyFiled(t, x) && OnlyFiled(t, y);
  }

  lemma AbsorbOnlyFiled(t: State, x: Id, y: Id, may: bool, n: int, k: Id)
    requires Closed(t) && Roots(t) && Lists(t) && CanAbsorb(t, x, y, may) && k in t.sets && Closed(Absorb(t, x, y, may, n))
    ensures OnlyFiled(Absorb(t, x, y, may, n), k)
  {
    assert OnlyFiled(t, k) && OnlyFiled(t, x) && OnlyFiled(t, y);
    hide Roots, Lists;
    var u := Absorb(t, x, y, may, n);
    forall p | p in u.sets[k].ptrs
      ensures p in u.recs && u.root[u.recs[p].set_] == k
    {
      assert if k == x then p in t.sets[x].ptrs || p in t.sets[y].ptrs else k != y && p in t.sets[k].ptrs;
    }
  }

  lemma AbsorbFiled(t: State, x: Id, y: Id, may: bool, n: int, q: Ptr)
    requires Closed(t) && Roots(t) && Lists(t) && CanAbsorb(t, x, y, may) && q in t.recs && Closed(Absorb(t, x, y, may, n))
    ensures Filed(Absorb(t, x, y, may, n), q)
  {
    assert Filed(t, q);
    hide Roots, Lists;
  }

  lemma AbsorbCounts(t: State, x: Id, y: Id, may: bool, n: int)
    requires Inv(t) && CanAbsorb(t, x, y, may)
    ensures Counts(Absorb(t, x, y, may, n))
  {
    hide Roots, Plains, Lists;
    var u := Absorb(t, x, y, may, n);
    var m := t.sets[x := u.sets[x]];
    forall k | k in u.sets
      ensures Counted(u, k)
    {
      ForwardersPut(t.sets, x, u.sets[x], k);
      ForwardersPut(m, y, u.sets[y], k);
      assert Counted(t, k);
    }
  }

  // ---------- Sets without pointers ----------

  /** Nothing is held that leads to x, other than x itself. */
  ghost predicate FreeOf(t: State, x: Id) {
    forall k :: k in t.held && k in t.root && t.root[k] == x ==> k == x
  }

  /** Sets that have not been referred to yet do not forward, and x is not one of them. */
  ghost predicate NoYoung(t: State, x: Id) {
    x !in t.young && forall k :: k in t.young && k in t.sets ==> t.sets[k].fwd.None?
  }

  /** A set that leads to x has a record that leads to x, so that x has a pointer. */
  lemma {:induction false} LeadsToPointer(t: State, x: Id, k: Id, bound: nat)
    requires Inv(t) && FreeOf(t, x) && NoYoung(t, x) && k in t.sets && k != x && k in t.root && t.root[k] == x
    requires forall i :: i in t.sets ==> Rank(t.any, i) <= bound
    ensures x in t.sets && t.sets[x].ptrs != []
    decreases bound - Rank(t.any, k)
  {
    hide Roots, Plains, Lists, Closed;
    NotItsRoot(t, x, k);
    assert Counted(t, k);
    assert |Namers(t.recs, k)| + |Forwarders(t.sets, k)| >= 1;
    if p :| p in Namers(t.recs, k) {
      FiledIn(t, x, k, p);
    } else {
      assert Namers(t.recs, k) == {};
      assert Forwarders(t.sets, k) != {};
      var i :| i in Forwarders(t.sets, k);
      ForwardsLead(t, x, k, i);
      LeadsToPointer(t, x, i, bound);
    }
  }

  lemma NotItsRoot(t: State, x: Id, k: Id)
    requires Inv(t) && FreeOf(t, x) && NoYoung(t, x) && k in t.sets && k != x && k in t.root && t.root[k] == x
    ensures t.sets[k].unknown == [] && t.held[k] == 0 && k !in t.young
  {
    hide Counts, Lists;
    assert Rooted(t, k) && Plain(t, k);
  }

  lemma FiledIn(t: State, x: Id, k: Id, p: Ptr)
    requires Inv(t) && k in t.sets && k in t.root && t.root[k] == x && p in Namers(t.recs, k)
    ensures x in t.sets && t.sets[x].ptrs != []
  {
    hide Counts, Plains;
    assert Filed(t, p);
  }

  lemma ForwardsLead(t: State, x: Id, k: Id, i: Id)
    requires Inv(t) && k in t.sets && k in t.root && t.root[k] == x && i in Forwarders(t.sets, k)
    ensures i in t.sets && i in t.root && t.root[i] == x && i != x && Rank(t.any, k) < Rank(t.any, i)
  {
    hide Counts, Plains, Lists;
    assert Rooted(t, i) && Rooted(t, k);
  }

  /**
   A set that does not forward and holds no instruction has a pointer: what forwards to it
   is there only because a record leads to it. So a must-alias set always has a first pointer.
   */
  lemma NotEmpty(t: State, x: Id, bound: nat)
    requires Inv(t) && t.held == multiset{} && NoYoung(t, x) && x in t.sets
    requires t.sets[x].fwd.None? && t.sets[x].unknown == []
    requires forall i :: i in t.sets ==> Rank(t.any, i) <= bound
    ensures t.sets[x].ptrs != []
  {
    SomeReference(t, x);
    hide Inv;
    if p :| p in Namers(t.recs, x) {
      RootOfRoot(t, x);
      FiledIn(t, x, x, p);
    } else {
      assert Namers(t.recs, x) == {};
      var k :| k in Forwarders(t.sets, x);
      RootOfRoot(t, x);
      ForwardsLead(t, x, x, k);
      LeadsToPointer(t, x, k, bound);
    }
  }

  lemma SomeReference(t: State, x: Id)
    requires Inv(t) && t.held == multiset{} && x !in t.young && x in t.sets && t.sets[x].unknown == []
    ensures Namers(t.recs, x) != {} || Forwarders(t.sets, x) != {}
  {
    hide Closed, Roots, Plains, Lists;
    assert Counted(t, x);
  }

  lemma RootOfRoot(t: State, x: Id)
    requires Inv(t) && x in t.sets && t.sets[x].fwd.None?
    ensures x in t.root && t.root[x] == x
  {
    hide Counts, Plains, Lists;
    assert Rooted(t, x);
  }
}
