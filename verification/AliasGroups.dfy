/**
 The alias sets of lib/Analysis/AliasSetTracker.cpp as a partition of pointers:
 what merging sets and adding a pointer do to it, and the proof that it is the
 partition into connected components of the alias graph.
 */
module AliasGroups {

  type Ptr = nat

  type Id = nat

  type Inst = nat

  datatype Option<T> = None | Some(value: T)

  datatype AliasResult = NoAlias | MayAlias | PartialAlias | MustAlias

  datatype Loc = Loc(ptr: Ptr, size: nat)

  /** The alias analysis that a tracker asks. */
  datatype Oracle = Oracle(
    alias: (Loc, Loc) -> AliasResult,
    instTouches: (Inst, Loc) -> bool,
    instsInterfere: (Inst, Inst) -> bool,
    mayTouchMemory: Inst -> bool,
    marker: Inst -> bool)

  const U32: int := 0x1_0000_0000

  /** What a set that does not forward contains; size is its SetSize field. */
  datatype Group = Group(ptrs: seq<Ptr>, may: bool, any: bool, unknown: seq<Inst>, size: int)

  type Groups = map<Id, Group>

  function LocOf(sizes: map<Ptr, nat>, p: Ptr): Loc {
    Loc(p, if p in sizes then sizes[p] else 0)
  }

  function Elems(ptrs: seq<Ptr>): set<Ptr> { set p | p in ptrs }

  // ---------- What the operations do to groups ----------

  predicate AnyAliases(o: Oracle, sizes: map<Ptr, nat>, ptrs: seq<Ptr>, x: Loc) {
    exists k :: 0 <= k < |ptrs| && o.alias(x, LocOf(sizes, ptrs[k])) != NoAlias
  }

  predicate AnyTouches(o: Oracle, unknown: seq<Inst>, x: Loc) {
    exists k :: 0 <= k < |unknown| && o.instTouches(unknown[k], x)
  }

  /** AliasSet::aliasesPointer: a must-alias set is asked about its first pointer only. */
  predicate Aliases(o: Oracle, sizes: map<Ptr, nat>, g: Group, x: Loc) {
    if g.any then true
    else if !g.may then g.ptrs != [] && o.alias(LocOf(sizes, g.ptrs[0]), x) != NoAlias
    else AnyAliases(o, sizes, g.ptrs, x) || AnyTouches(o, g.unknown, x)
  }

  /** The label of two sets merged: must-alias only if both were and their first pointers are. */
  predicate MergedMay(o: Oracle, sizes: map<Ptr, nat>, g: Group, h: Group) {
    || g.may || h.may
    || g.ptrs == [] || h.ptrs == []
    || o.alias(LocOf(sizes, g.ptrs[0]), LocOf(sizes, h.ptrs[0])) != MustAlias
  }

  /** AliasSet::mergeSetIn, of h into g. */
  function Merged(o: Oracle, sizes: map<Ptr, nat>, g: Group, h: Group): Group {
    Group(g.ptrs + h.ptrs, MergedMay(o, sizes, g, h), g.any, g.unknown + h.unknown,
          if h.ptrs == [] then g.size else (g.size + h.size) % U32)
  }

  /** TotalMayAliasSetSize after mergeSetIn. */
  function MergedTotal(o: Oracle, sizes: map<Ptr, nat>, g: Group, h: Group, total: int): int {
    if !MergedMay(o, sizes, g, h) then total
    else (total + (if g.may then 0 else g.size) + (if h.may then 0 else h.size)) % U32
  }

  /** Groups while mergeAliasSetsForPointer goes through them, and the set it has found so far. */
  datatype Part = Part(groups: Groups, total: int, found: Option<Id>)

  function MergeStep(o: Oracle, sizes: map<Ptr, nat>, x: Loc, s: Part, i: Id): Part {
    if i !in s.groups || !Aliases(o, sizes, s.groups[i], x) then s
    else if s.found.None? || s.found.value !in s.groups then s.(found := Some(i))
    else
      var f := s.found.value;
      var g, h := s.groups[f], s.groups[i];
      Part((map k | k in s.groups && k != i :: s.groups[k])[f := Merged(o, sizes, g, h)],
           MergedTotal(o, sizes, g, h, s.total), s.found)
  }

  /** mergeAliasSetsForPointer, through the sets numbered below n. */
  function MergeUpTo(o: Oracle, sizes: map<Ptr, nat>, x: Loc, s: Part, n: nat): Part {
    if n == 0 then s else MergeStep(o, sizes, x, MergeUpTo(o, sizes, x, s, n - 1), n - 1)
  }

  /** AliasSet::addPointer, of a pointer at x that is not known to must-alias the set. */
  predicate AddedMay(o: Oracle, sizes: map<Ptr, nat>, g: Group, x: Loc, known: bool) {
    g.may || (!known && g.ptrs != [] && o.alias(LocOf(sizes, g.ptrs[0]), x) != MustAlias)
  }

  function Added(o: Oracle, sizes: map<Ptr, nat>, g: Group, x: Loc, known: bool): Group {
    g.(ptrs := g.ptrs + [x.ptr], may := AddedMay(o, sizes, g, x, known), size := (g.size + 1) % U32)
  }

  function AddedTotal(o: Oracle, sizes: map<Ptr, nat>, g: Group, x: Loc, known: bool, total: int): int {
    if !AddedMay(o, sizes, g, x, known) then total
    else (total + (if g.may then 0 else g.size) + 1) % U32
  }

  /** The first pointer of a must-alias set takes the largest size. */
  function AddedSizes(o: Oracle, sizes: map<Ptr, nat>, g: Group, x: Loc, known: bool): map<Ptr, nat> {
    var first := if g.may || known || AddedMay(o, sizes, g, x, known) || g.ptrs == [] then sizes
                 else sizes[g.ptrs[0] := Max(LocOf(sizes, g.ptrs[0]).size, x.size)];
    first[x.ptr := x.size]
  }

  function Max(a: nat, b: nat): nat { if a > b then a else b }

  // ---------- The alias graph ----------

  /** The location at which each pointer is always added. */
  type Sizes = Ptr -> nat

  ghost predicate Edge(o: Oracle, fs: Sizes, p: Ptr, q: Ptr) {
    o.alias(Loc(p, fs(p)), Loc(q, fs(q))) != NoAlias
  }

  ghost predicate Must(o: Oracle, fs: Sizes, p: Ptr, q: Ptr) {
    o.alias(Loc(p, fs(p)), Loc(q, fs(q))) == MustAlias
  }

  ghost predicate Symmetric(o: Oracle) {
    forall a, b :: o.alias(a, b) == o.alias(b, a)
  }

  /** The locations that a run may ask about: a pointer up to its size, or up to that of one that it must-aliases. */
  ghost predicate OfRun(o: Oracle, fs: Sizes, l: Loc) {
    exists q :: l.size <= fs(q) && (q == l.ptr || Must(o, fs, l.ptr, q))
  }

  /** What must-aliases one of two must-aliasing locations must-aliases the other. */
  ghost predicate MustAgree(o: Oracle, fs: Sizes) {
    forall a, b, c :: OfRun(o, fs, a) && OfRun(o, fs, b) && OfRun(o, fs, c) && o.alias(a, b) == MustAlias ==>
                        (o.alias(a, c) == MustAlias <==> o.alias(b, c) == MustAlias)
  }

  /** The larger of two must-aliasing locations aliases whatever the smaller one does. */
  ghost predicate LargerReaches(o: Oracle, fs: Sizes) {
    forall a, b, c :: OfRun(o, fs, a) && OfRun(o, fs, b) && OfRun(o, fs, c) && o.alias(a, b) == MustAlias && a.size <= b.size ==>
                        (o.alias(a, c) != NoAlias ==> o.alias(b, c) != NoAlias)
  }

  /** So does a larger access through the same pointer, and it must-aliases the same of what the smaller one aliases. */
  ghost predicate GrownReaches(o: Oracle, fs: Sizes) {
    forall a, b, c :: OfRun(o, fs, a) && OfRun(o, fs, b) && OfRun(o, fs, c) && a.ptr == b.ptr && a.size <= b.size ==>
                        (o.alias(a, c) != NoAlias ==> o.alias(b, c) != NoAlias && (o.alias(a, c) == MustAlias <==> o.alias(b, c) == MustAlias))
  }

  /**
   What a run asks of an alias analysis: must-aliasing pointers are interchangeable only as far as
   their sizes go. RangesConsistent shows that ranges of bytes are like this.
   */
  ghost predicate Consistent(o: Oracle, fs: Sizes) {
    Symmetric(o) && MustAgree(o, fs) && LargerReaches(o, fs) && GrownReaches(o, fs)
  }

  ghost predicate Crosses(o: Oracle, fs: Sizes, a: set<Ptr>, b: set<Ptr>) {
    exists p, q :: p in a && q in b && Edge(o, fs, p, q)
  }

  /** No way to split c in two without cutting an edge. */
  ghost predicate Connected(o: Oracle, fs: Sizes, c: set<Ptr>) {
    forall a: set<Ptr> :: a < c && a != {} ==> Crosses(o, fs, a, c - a)
  }

  ghost predicate AllMust(o: Oracle, fs: Sizes, c: set<Ptr>) {
    forall p, q :: p in c && q in c && p != q ==> Must(o, fs, p, q)
  }

  /** Two connected sets that share a pointer or have an edge between them are connected together. */
  lemma ConnectedUnion(o: Oracle, fs: Sizes, c: set<Ptr>, d: set<Ptr>)
    requires Symmetric(o) && Connected(o, fs, c) && Connected(o, fs, d)
    requires c * d != {} || Crosses(o, fs, c, d)
    ensures Connected(o, fs, c + d)
  {
    forall a: set<Ptr> | a < c + d && a != {}
      ensures Crosses(o, fs, a, c + d - a)
    {
      if a * c != {} && !(c <= a) {
        assert Crosses(o, fs, a * c, c - a * c);
        CrossesMore(o, fs, a * c, c - a * c, a, c + d - a);
      } else if a * d != {} && !(d <= a) {
        assert Crosses(o, fs, a * d, d - a * d);
        CrossesMore(o, fs, a * d, d - a * d, a, c + d - a);
      } else {
        WholeSides(o, fs, c, d, a);
      }
    }
  }

  /** A split that cuts neither of two sets separates them. */
  lemma WholeSides(o: Oracle, fs: Sizes, c: set<Ptr>, d: set<Ptr>, a: set<Ptr>)
    requires Symmetric(o) && (c * d != {} || Crosses(o, fs, c, d))
    requires a < c + d && a != {}
    requires (a * c == {} || c <= a) && (a * d == {} || d <= a)
    ensures Crosses(o, fs, a, c + d - a)
  {
    hide Symmetric, Edge;
    if c <= a {
      assert a * d == {};
      assert forall e :: e in c * d ==> e in a * d;
      var p, q :| p in c && q in d && Edge(o, fs, p, q);
      assert q !in a * d;
    } else {
      assert a * c == {};
      assert forall e :: e in c * d ==> e in a * c || e !in d;
      assert d <= a;
      var p, q :| p in c && q in d && Edge(o, fs, p, q);
      EdgeBack(o, fs, p, q);
      assert p !in a * c;
    }
  }

  lemma EdgeBack(o: Oracle, fs: Sizes, p: Ptr, q: Ptr)
    requires Symmetric(o) && Edge(o, fs, p, q)
    ensures Edge(o, fs, q, p)
  {
  }

  lemma CrossesMore(o: Oracle, fs: Sizes, a: set<Ptr>, b: set<Ptr>, a': set<Ptr>, b': set<Ptr>)
    requires Crosses(o, fs, a, b) && a <= a' && b <= b'
    ensures Crosses(o, fs, a', b')
  {
  }

  // ---------- The invariant of a tracker that only adds pointers ----------

  ghost predicate NoDup(ptrs: seq<Ptr>) {
    forall i, j :: 0 <= i < j < |ptrs| ==> ptrs[i] != ptrs[j]
  }

  /** Pointer p is recorded with no less than its own size, and no more than that of q, itself or one that it must-aliases. */
  ghost predicate Stands(o: Oracle, fs: Sizes, z: map<Ptr, nat>, p: Ptr, q: Ptr) {
    p in z && fs(p) <= z[p] <= fs(q) && (p == q || Must(o, fs, p, q))
  }

  ghost predicate StandsFor(o: Oracle, fs: Sizes, z: map<Ptr, nat>, p: Ptr, ptrs: seq<Ptr>) {
    exists q :: q in ptrs && Stands(o, fs, z, p, q)
  }

  ghost predicate RecordsFit(o: Oracle, fs: Sizes, z: map<Ptr, nat>, g: Group) {
    forall p {:trigger StandsFor(o, fs, z, p, g.ptrs)} :: p in g.ptrs ==> StandsFor(o, fs, z, p, g.ptrs)
  }

  /** The first pointer of a must-alias set is recorded with the largest size. */
  ghost predicate FirstLargest(fs: Sizes, z: map<Ptr, nat>, g: Group) {
    !g.may && g.ptrs != [] ==> forall q :: q in g.ptrs ==> fs(q) <= LocOf(z, g.ptrs[0]).size
  }

  ghost predicate SizedOk(o: Oracle, fs: Sizes, z: map<Ptr, nat>, g: Group) {
    RecordsFit(o, fs, z, g) && FirstLargest(fs, z, g)
  }

  ghost predicate AllSized(o: Oracle, fs: Sizes, z: map<Ptr, nat>, gs: Groups) {
    forall i :: i in gs ==> SizedOk(o, fs, z, gs[i])
  }

  ghost predicate GroupOk(o: Oracle, fs: Sizes, g: Group) {
    && !g.any && g.unknown == [] && g.ptrs != [] && NoDup(g.ptrs)
    && g.size == |g.ptrs| % U32
    && (g.may <==> !AllMust(o, fs, Elems(g.ptrs)))
  }

  /** Each pointer is in exactly one group. */
  ghost predicate Partition(gs: Groups, ptrs: set<Ptr>) {
    && (forall i, p :: i in gs && p in gs[i].ptrs ==> p in ptrs)
    && (forall p :: p in ptrs ==> exists i :: i in gs && p in gs[i].ptrs)
    && (forall i, j, p :: i in gs && j in gs && p in gs[i].ptrs && p in gs[j].ptrs ==> i == j)
  }

  ghost predicate NoEdges(o: Oracle, fs: Sizes, a: seq<Ptr>, b: seq<Ptr>) {
    forall p, q :: p in a && q in b ==> !Edge(o, fs, p, q)
  }

  ghost predicate Separate(o: Oracle, fs: Sizes, gs: Groups) {
    forall i, j :: i in gs && j in gs && i != j ==> NoEdges(o, fs, gs[i].ptrs, gs[j].ptrs)
  }

  /** The pointers in may-alias sets, which TotalMayAliasSetSize counts. */
  ghost function MayPtrs(gs: Groups): set<Ptr> {
    set i, p | i in gs && gs[i].may && p in gs[i].ptrs :: p
  }

  /** The groups are the connected components of the alias graph on the pointers z, and labelled and counted right. */
  ghost predicate AreComponents(o: Oracle, fs: Sizes, gs: Groups, z: map<Ptr, nat>, total: int) {
    && AllSized(o, fs, z, gs)
    && (forall i :: i in gs ==> GroupOk(o, fs, gs[i]) && Connected(o, fs, Elems(gs[i].ptrs)))
    && Partition(gs, z.Keys)
    && Separate(o, fs, gs)
    && total == |MayPtrs(gs)| % U32
  }

  lemma IsSymmetric(o: Oracle, fs: Sizes)
    requires Consistent(o, fs)
    ensures Symmetric(o)
  {
  }

  lemma MustSwap(o: Oracle, fs: Sizes, a: Loc, b: Loc, c: Loc)
    requires Consistent(o, fs) && OfRun(o, fs, a) && OfRun(o, fs, b) && OfRun(o, fs, c) && o.alias(a, b) == MustAlias
    ensures o.alias(a, c) == MustAlias <==> o.alias(b, c) == MustAlias
  {
    hide OfRun;
  }

  lemma Larger(o: Oracle, fs: Sizes, a: Loc, b: Loc, c: Loc)
    requires Consistent(o, fs) && OfRun(o, fs, a) && OfRun(o, fs, b) && OfRun(o, fs, c) && o.alias(a, b) == MustAlias
    requires a.size <= b.size && o.alias(a, c) != NoAlias
    ensures o.alias(b, c) != NoAlias
  {
    hide OfRun;
  }

  lemma Same(o: Oracle, a: Loc, b: Loc)
    requires Symmetric(o)
    ensures o.alias(a, b) == o.alias(b, a)
  {
  }

  lemma OwnSize(o: Oracle, fs: Sizes, p: Ptr)
    ensures OfRun(o, fs, Loc(p, fs(p)))
  {
  }

  /** A larger access through the same pointer aliases no less, and must-aliases the same of that. */
  lemma Enlarged(o: Oracle, fs: Sizes, a: Loc, b: Loc, c: Loc)
    requires Consistent(o, fs) && OfRun(o, fs, a) && OfRun(o, fs, b) && OfRun(o, fs, c)
    requires a.ptr == b.ptr && a.size <= b.size && o.alias(a, c) != NoAlias
    ensures o.alias(b, c) != NoAlias && (o.alias(a, c) == MustAlias <==> o.alias(b, c) == MustAlias)
  {
    hide OfRun, MustAgree, LargerReaches;
  }

  /** What stands for a pointer is a location of the run, and must-aliases it unless it is the same. */
  lemma StandsMust(o: Oracle, fs: Sizes, z: map<Ptr, nat>, p: Ptr, q: Ptr)
    requires Consistent(o, fs) && Stands(o, fs, z, p, q)
    ensures OfRun(o, fs, LocOf(z, p))
    ensures p != q ==> o.alias(LocOf(z, p), Loc(q, fs(q))) == MustAlias
  {
    hide Consistent;
    OwnSize(o, fs, p);
    OwnSize(o, fs, q);
    assert OfRun(o, fs, LocOf(z, p));
    if p != q {
      Enlarged(o, fs, Loc(p, fs(p)), LocOf(z, p), Loc(q, fs(q)));
    }
  }

  /** It gets the same answers, as far as it matters. */
  lemma StandsSame(o: Oracle, fs: Sizes, z: map<Ptr, nat>, p: Ptr, q: Ptr, c: Loc)
    requires Consistent(o, fs) && Stands(o, fs, z, p, q) && OfRun(o, fs, c)
    ensures o.alias(LocOf(z, p), c) != NoAlias ==> o.alias(Loc(q, fs(q)), c) != NoAlias
    ensures LocOf(z, p).size == fs(q) && o.alias(Loc(q, fs(q)), c) != NoAlias ==> o.alias(LocOf(z, p), c) != NoAlias
    ensures o.alias(Loc(p, fs(p)), c) != NoAlias ==> o.alias(LocOf(z, p), c) != NoAlias
    ensures o.alias(LocOf(z, p), c) == MustAlias <==> o.alias(Loc(q, fs(q)), c) == MustAlias
  {
    var a, b := LocOf(z, p), Loc(q, fs(q));
    StandsMust(o, fs, z, p, q);
    OwnSize(o, fs, p);
    OwnSize(o, fs, q);
    IsSymmetric(o, fs);
    Same(o, a, b);
    assert Loc(p, fs(p)).size <= a.size <= b.size && a.ptr == p && (p == q ==> a == b);
    hide Consistent, OfRun, Symmetric, Stands, LocOf;
    if o.alias(Loc(p, fs(p)), c) != NoAlias {
      Enlarged(o, fs, Loc(p, fs(p)), a, c);
    }
    if p != q {
      MustSwap(o, fs, a, b, c);
      if o.alias(a, c) != NoAlias {
        Larger(o, fs, a, b, c);
      }
      if o.alias(b, c) != NoAlias && a.size == b.size {
        Larger(o, fs, b, a, c);
      }
    }
  }

  /** What p aliases of the record of r, which stands for q. */
  lemma AskedEdge(o: Oracle, fs: Sizes, z: map<Ptr, nat>, r: Ptr, q: Ptr, p: Ptr)
    requires Consistent(o, fs) && Stands(o, fs, z, r, q)
    ensures o.alias(LocOf(z, r), Loc(p, fs(p))) == o.alias(Loc(p, fs(p)), LocOf(z, r))
    ensures o.alias(LocOf(z, r), Loc(p, fs(p))) != NoAlias ==> Edge(o, fs, p, q)
    ensures LocOf(z, r).size == fs(q) && Edge(o, fs, p, q) ==> o.alias(LocOf(z, r), Loc(p, fs(p))) != NoAlias
    ensures Edge(o, fs, p, r) ==> o.alias(LocOf(z, r), Loc(p, fs(p))) != NoAlias
  {
    OwnSize(o, fs, p);
    StandsSame(o, fs, z, r, q, Loc(p, fs(p)));
    IsSymmetric(o, fs);
    Same(o, Loc(p, fs(p)), LocOf(z, r));
    Same(o, Loc(p, fs(p)), Loc(q, fs(q)));
    Same(o, Loc(p, fs(p)), Loc(r, fs(r)));
    hide Consistent, Symmetric;
  }

  /** Of two must-aliasing pointers the larger one has the edges of the other. */
  lemma EdgeOfLarger(o: Oracle, fs: Sizes, p: Ptr, q: Ptr, m: Ptr)
    requires Consistent(o, fs) && Edge(o, fs, p, q) && (q == m || Must(o, fs, q, m)) && fs(q) <= fs(m)
    ensures Edge(o, fs, p, m)
  {
    if q != m {
      OwnSize(o, fs, p);
      OwnSize(o, fs, q);
      OwnSize(o, fs, m);
      IsSymmetric(o, fs);
      Same(o, Loc(p, fs(p)), Loc(q, fs(q)));
      Same(o, Loc(p, fs(p)), Loc(m, fs(m)));
      hide Consistent, Symmetric, OfRun;
      Larger(o, fs, Loc(q, fs(q)), Loc(m, fs(m)), Loc(p, fs(p)));
    }
  }

  ghost predicate HasEdge(o: Oracle, fs: Sizes, p: Ptr, ptrs: seq<Ptr>) {
    exists q :: q in ptrs && Edge(o, fs, p, q)
  }

  /**
   Asking a set about a pointer tells whether that has an edge to some member: a may-alias set is
   asked about all of them, and the first pointer of a must-alias set answers for its largest member.
   */
  lemma AliasesIsEdge(o: Oracle, fs: Sizes, z: map<Ptr, nat>, g: Group, p: Ptr)
    requires Consistent(o, fs) && SizedOk(o, fs, z, g) && GroupOk(o, fs, g)
    ensures Aliases(o, z, g, Loc(p, fs(p))) <==> HasEdge(o, fs, p, g.ptrs)
  {
    hide Consistent, Edge, Stands, Must;
    var x := Loc(p, fs(p));
    if g.may {
      if k :| 0 <= k < |g.ptrs| && o.alias(x, LocOf(z, g.ptrs[k])) != NoAlias {
        assert StandsFor(o, fs, z, g.ptrs[k], g.ptrs);
        var q :| q in g.ptrs && Stands(o, fs, z, g.ptrs[k], q);
        AskedEdge(o, fs, z, g.ptrs[k], q, p);
      }
      if q :| q in g.ptrs && Edge(o, fs, p, q) {
        MemberAsked(o, fs, z, g, p, q);
      }
    } else {
      FirstAnswers(o, fs, z, g, p);
    }
  }

  lemma StandsFacts(o: Oracle, fs: Sizes, z: map<Ptr, nat>, p: Ptr, q: Ptr)
    requires Stands(o, fs, z, p, q)
    ensures p in z && fs(p) <= z[p] == LocOf(z, p).size <= fs(q) && (p == q || Must(o, fs, p, q))
  {
  }

  lemma MemberAsked(o: Oracle, fs: Sizes, z: map<Ptr, nat>, g: Group, p: Ptr, q: Ptr)
    requires Consistent(o, fs) && RecordsFit(o, fs, z, g) && q in g.ptrs && Edge(o, fs, p, q)
    ensures o.alias(Loc(p, fs(p)), LocOf(z, q)) != NoAlias
  {
    hide Consistent, Edge, Stands, Must;
    assert StandsFor(o, fs, z, q, g.ptrs);
    var m :| m in g.ptrs && Stands(o, fs, z, q, m);
    AskedEdge(o, fs, z, q, m, p);
  }

  lemma FirstAnswers(o: Oracle, fs: Sizes, z: map<Ptr, nat>, g: Group, p: Ptr)
    requires Consistent(o, fs) && SizedOk(o, fs, z, g) && GroupOk(o, fs, g) && !g.may
    ensures (o.alias(LocOf(z, g.ptrs[0]), Loc(p, fs(p))) != NoAlias) <==> HasEdge(o, fs, p, g.ptrs)
  {
    hide Consistent, Edge, Stands, Must;
    var m := Largest(o, fs, z, g);
    AskedEdge(o, fs, z, g.ptrs[0], m, p);
    if q :| q in g.ptrs && Edge(o, fs, p, q) {
      assert q in Elems(g.ptrs) && m in Elems(g.ptrs);
      EdgeOfLarger(o, fs, p, q, m);
    }
  }

  /** The member whose size the first pointer of a must-alias set has. */
  lemma Largest(o: Oracle, fs: Sizes, z: map<Ptr, nat>, g: Group) returns (m: Ptr)
    requires SizedOk(o, fs, z, g) && GroupOk(o, fs, g) && !g.may
    ensures m in g.ptrs && Stands(o, fs, z, g.ptrs[0], m) && LocOf(z, g.ptrs[0]).size == fs(m) && forall q :: q in g.ptrs ==> fs(q) <= fs(m)
  {
    hide Stands, Must;
    var f := g.ptrs[0];
    assert StandsFor(o, fs, z, f, g.ptrs);
    m :| m in g.ptrs && Stands(o, fs, z, f, m);
    StandsFacts(o, fs, z, f, m);
  }

  lemma {:induction false} ElemsCount(ptrs: seq<Ptr>)
    requires NoDup(ptrs)
    ensures |Elems(ptrs)| == |ptrs|
  {
    if ptrs != [] {
      var n := |ptrs| - 1;
      ElemsCount(ptrs[..n]);
      assert Elems(ptrs) == Elems(ptrs[..n]) + {ptrs[n]};
      assert ptrs[n] !in ptrs[..n];
    }
  }

  /** Two must-alias sets whose first pointers must-alias are one must-alias set. */
  lemma MustUnion(o: Oracle, fs: Sizes, a: seq<Ptr>, b: seq<Ptr>)
    requires Consistent(o, fs) && a != [] && b != [] && forall q :: q in a ==> q !in b
    ensures AllMust(o, fs, Elems(a + b)) <==>
            AllMust(o, fs, Elems(a)) && AllMust(o, fs, Elems(b)) && Must(o, fs, a[0], b[0])
  {
    hide Consistent, Must;
    assert Elems(a + b) == Elems(a) + Elems(b);
    assert a[0] in Elems(a) && b[0] in Elems(b);
    if AllMust(o, fs, Elems(a)) && AllMust(o, fs, Elems(b)) && Must(o, fs, a[0], b[0]) {
      forall p, q | p in Elems(a) && q in Elems(b)
        ensures Must(o, fs, p, q) && Must(o, fs, q, p)
      {
        if p != a[0] {
          MustChain(o, fs, p, a[0], b[0]);
        }
        if q != b[0] {
          MustChain(o, fs, p, b[0], q);
        }
        MustBack(o, fs, p, q);
      }
    }
  }

  lemma MustBack(o: Oracle, fs: Sizes, p: Ptr, q: Ptr)
    requires Consistent(o, fs)
    ensures Must(o, fs, p, q) == Must(o, fs, q, p)
  {
    IsSymmetric(o, fs);
    Same(o, Loc(p, fs(p)), Loc(q, fs(q)));
  }

  lemma MustChain(o: Oracle, fs: Sizes, p: Ptr, q: Ptr, r: Ptr)
    requires Consistent(o, fs) && Must(o, fs, p, q)
    ensures Must(o, fs, p, r) <==> Must(o, fs, q, r)
  {
    OwnSize(o, fs, p);
    OwnSize(o, fs, q);
    OwnSize(o, fs, r);
    MustSwap(o, fs, Loc(p, fs(p)), Loc(q, fs(q)), Loc(r, fs(r)));
  }

  // ---------- Merging the sets that a new pointer aliases ----------

  /** Group i, given that the new pointer p joins the found set. */
  ghost predicate Joined(o: Oracle, fs: Sizes, p: Ptr, s: Part, i: Id)
    requires i in s.groups
  {
    if s.found == Some(i) then
      Connected(o, fs, Elems(s.groups[i].ptrs) + {p}) && HasEdge(o, fs, p, s.groups[i].ptrs)
    else Connected(o, fs, Elems(s.groups[i].ptrs))
  }

  /** What is recorded fits, but for the first pointer of the set that p is in, if it is in one. */
  ghost predicate AllSizedBut(o: Oracle, fs: Sizes, z: map<Ptr, nat>, gs: Groups, p: Ptr) {
    forall i :: i in gs ==> RecordsFit(o, fs, z, gs[i]) && (p !in gs[i].ptrs ==> FirstLargest(fs, z, gs[i]))
  }

  ghost predicate NoEdgesBut(o: Oracle, fs: Sizes, p: Ptr, a: seq<Ptr>, b: seq<Ptr>) {
    forall q, r :: q in a && r in b && q != p && r != p ==> !Edge(o, fs, q, r)
  }

  /** Sets have edges between them only from p. */
  ghost predicate SeparateBut(o: Oracle, fs: Sizes, gs: Groups, p: Ptr) {
    forall i, j :: i in gs && j in gs && i != j ==> NoEdgesBut(o, fs, p, gs[i].ptrs, gs[j].ptrs)
  }

  /** A pointer that is there already is recorded with its size, and aliases itself. */
  ghost predicate SelfOk(o: Oracle, fs: Sizes, z: map<Ptr, nat>, p: Ptr) {
    p in z ==> z[p] == fs(p) && Edge(o, fs, p, p)
  }

  /**
   Halfway: the found set and p together are connected, and p has no edge to the other sets below n.
   Pointer p is new, or one whose size has grown.
   */
  ghost predicate Halfway(o: Oracle, fs: Sizes, z: map<Ptr, nat>, p: Ptr, s: Part, n: nat) {
    && SelfOk(o, fs, z, p)
    && AllSizedBut(o, fs, z, s.groups, p)
    && AllOk(o, fs, s.groups)
    && AllJoined(o, fs, p, s)
    && Partition(s.groups, z.Keys)
    && SeparateBut(o, fs, s.groups, p)
    && s.total == |MayPtrs(s.groups)| % U32
    && Passed(o, fs, p, s, n)
  }

  ghost predicate AllOk(o: Oracle, fs: Sizes, gs: Groups) {
    forall i :: i in gs ==> GroupOk(o, fs, gs[i])
  }

  ghost predicate AllJoined(o: Oracle, fs: Sizes, p: Ptr, s: Part) {
    forall i :: i in s.groups ==> Joined(o, fs, p, s, i)
  }

  ghost predicate Passed(o: Oracle, fs: Sizes, p: Ptr, s: Part, n: nat) {
    && (forall i :: i in s.groups && i < n && s.found != Some(i) ==> !HasEdge(o, fs, p, s.groups[i].ptrs))
    && (s.found.Some? ==> s.found.value in s.groups && s.found.value < n)
  }

  function Fused(o: Oracle, z: map<Ptr, nat>, gs: Groups, f: Id, n: Id): Groups
    requires f in gs && n in gs
  {
    (map k | k in gs && k != n :: gs[k])[f := Merged(o, z, gs[f], gs[n])]
  }

  lemma FusedMembers(o: Oracle, z: map<Ptr, nat>, gs: Groups, f: Id, n: Id)
    requires f in gs && n in gs && f != n
    ensures Fused(o, z, gs, f, n).Keys == gs.Keys - {n}
    ensures Fused(o, z, gs, f, n)[f] == Merged(o, z, gs[f], gs[n])
    ensures forall k :: k in gs && k != n && k != f ==> Fused(o, z, gs, f, n)[k] == gs[k]
    ensures forall p :: p in Merged(o, z, gs[f], gs[n]).ptrs <==> p in gs[f].ptrs || p in gs[n].ptrs
  {
  }

  lemma FusedPartition(o: Oracle, z: map<Ptr, nat>, gs: Groups, f: Id, n: Id, ptrs: set<Ptr>)
    requires f in gs && n in gs && f != n && Partition(gs, ptrs)
    ensures Partition(Fused(o, z, gs, f, n), ptrs)
  {
    hide Fused, Merged;
    FusedMembers(o, z, gs, f, n);
    var hs := Fused(o, z, gs, f, n);
    forall p | p in ptrs
      ensures exists i :: i in hs && p in hs[i].ptrs
    {
      var i :| i in gs && p in gs[i].ptrs;
      var j := if i == n then f else i;
      assert j in hs && p in hs[j].ptrs;
    }
  }

  lemma FusedSeparate(o: Oracle, fs: Sizes, z: map<Ptr, nat>, gs: Groups, f: Id, n: Id, p: Ptr)
    requires f in gs && n in gs && f != n && SeparateBut(o, fs, gs, p)
    ensures SeparateBut(o, fs, Fused(o, z, gs, f, n), p)
  {
    hide Fused, Merged, Edge;
    FusedMembers(o, z, gs, f, n);
    var hs := Fused(o, z, gs, f, n);
    forall i, j | i in hs && j in hs && i != j
      ensures NoEdgesBut(o, fs, p, hs[i].ptrs, hs[j].ptrs)
    {
      assert NoEdgesBut(o, fs, p, gs[i].ptrs, gs[j].ptrs);
      assert j == f ==> NoEdgesBut(o, fs, p, gs[i].ptrs, gs[n].ptrs);
      assert i == f ==> NoEdgesBut(o, fs, p, gs[n].ptrs, gs[j].ptrs);
    }
  }

  /** The record of a pointer must-aliases what the pointer does. */
  lemma RecordMust(o: Oracle, fs: Sizes, z: map<Ptr, nat>, p: Ptr, q: Ptr, c: Loc)
    requires Consistent(o, fs) && Stands(o, fs, z, p, q) && OfRun(o, fs, c)
    ensures o.alias(LocOf(z, p), c) == MustAlias <==> o.alias(Loc(p, fs(p)), c) == MustAlias
  {
    StandsSame(o, fs, z, p, q, c);
    OwnSize(o, fs, p);
    OwnSize(o, fs, q);
    hide Consistent, OfRun;
    if p != q {
      MustSwap(o, fs, Loc(p, fs(p)), Loc(q, fs(q)), c);
    }
  }

  /** Asking about the records of two first pointers tells whether these must-alias. */
  lemma FirstsMust(o: Oracle, fs: Sizes, z: map<Ptr, nat>, p: Ptr, a: seq<Ptr>, q: Ptr, b: seq<Ptr>)
    requires Consistent(o, fs) && StandsFor(o, fs, z, p, a) && StandsFor(o, fs, z, q, b)
    ensures o.alias(LocOf(z, p), LocOf(z, q)) == MustAlias <==> Must(o, fs, p, q)
  {
    hide Consistent, Stands, OfRun, LocOf;
    var m :| m in a && Stands(o, fs, z, p, m);
    var n :| n in b && Stands(o, fs, z, q, n);
    StandsMust(o, fs, z, q, n);
    OwnSize(o, fs, p);
    IsSymmetric(o, fs);
    hide Symmetric;
    Same(o, Loc(p, fs(p)), LocOf(z, q));
    Same(o, Loc(p, fs(p)), Loc(q, fs(q)));
    RecordMust(o, fs, z, p, m, LocOf(z, q));
    RecordMust(o, fs, z, q, n, Loc(p, fs(p)));
  }

  lemma MergedIs(o: Oracle, z: map<Ptr, nat>, g: Group, h: Group)
    ensures var m := Merged(o, z, g, h);
            m.ptrs == g.ptrs + h.ptrs && m.any == g.any && m.unknown == g.unknown + h.unknown &&
            m.size == if h.ptrs == [] then g.size else (g.size + h.size) % U32
    ensures g.ptrs != [] && h.ptrs != [] ==>
              (Merged(o, z, g, h).may <==> g.may || h.may || o.alias(LocOf(z, g.ptrs[0]), LocOf(z, h.ptrs[0])) != MustAlias)
  {
  }

  lemma GroupFacts(o: Oracle, fs: Sizes, g: Group)
    requires GroupOk(o, fs, g)
    ensures !g.any && g.unknown == [] && g.ptrs != [] && NoDup(g.ptrs) && g.size == |g.ptrs| % U32
    ensures g.may <==> !AllMust(o, fs, Elems(g.ptrs))
  {
  }

  /** Two sets are labelled right when they are merged. */
  lemma MergedMust(o: Oracle, fs: Sizes, z: map<Ptr, nat>, g: Group, h: Group)
    requires Consistent(o, fs) && GroupOk(o, fs, g) && GroupOk(o, fs, h) && RecordsFit(o, fs, z, g) && RecordsFit(o, fs, z, h)
    requires forall q :: q in g.ptrs ==> q !in h.ptrs
    ensures Merged(o, z, g, h).may <==> !AllMust(o, fs, Elems(g.ptrs + h.ptrs))
  {
    GroupFacts(o, fs, g);
    GroupFacts(o, fs, h);
    hide Consistent, GroupOk, AllMust, StandsFor, Must, NoDup, Elems, LocOf;
    MustUnion(o, fs, g.ptrs, h.ptrs);
    MergedIs(o, z, g, h);
    assert StandsFor(o, fs, z, g.ptrs[0], g.ptrs) && StandsFor(o, fs, z, h.ptrs[0], h.ptrs);
    FirstsMust(o, fs, z, g.ptrs[0], g.ptrs, h.ptrs[0], h.ptrs);
    hide Merged;
  }

  lemma SumOfSizes(a: nat, b: nat)
    ensures (a % U32 + b % U32) % U32 == (a + b) % U32
  {
  }

  lemma MergedOk(o: Oracle, fs: Sizes, z: map<Ptr, nat>, g: Group, h: Group)
    requires Consistent(o, fs) && GroupOk(o, fs, g) && GroupOk(o, fs, h) && RecordsFit(o, fs, z, g) && RecordsFit(o, fs, z, h)
    requires forall q :: q in g.ptrs ==> q !in h.ptrs
    ensures GroupOk(o, fs, Merged(o, z, g, h))
  {
    MergedMust(o, fs, z, g, h);
    GroupFacts(o, fs, g);
    GroupFacts(o, fs, h);
    MergedIs(o, z, g, h);
    NoDupUnion(g.ptrs, h.ptrs);
    SumOfSizes(|g.ptrs|, |h.ptrs|);
    hide Consistent, RecordsFit, AllMust, NoDup, Elems, LocOf, Merged;
  }

  lemma MergedFit(o: Oracle, fs: Sizes, z: map<Ptr, nat>, g: Group, h: Group)
    requires RecordsFit(o, fs, z, g) && RecordsFit(o, fs, z, h)
    ensures RecordsFit(o, fs, z, Merged(o, z, g, h))
  {
    hide Stands;
    MergedPtrs(o, z, g, h);
    forall p | p in g.ptrs + h.ptrs ensures StandsFor(o, fs, z, p, g.ptrs + h.ptrs) {
      var ptrs := if p in g.ptrs then g.ptrs else h.ptrs;
      assert StandsFor(o, fs, z, p, ptrs);
      var q :| q in ptrs && Stands(o, fs, z, p, q);
      assert q in g.ptrs + h.ptrs;
    }
  }

  /** Two sets that have no edges between them become a may-alias set. */
  lemma MergedIsMay(o: Oracle, fs: Sizes, z: map<Ptr, nat>, g: Group, h: Group)
    requires Consistent(o, fs) && GroupOk(o, fs, g) && GroupOk(o, fs, h) && RecordsFit(o, fs, z, g) && RecordsFit(o, fs, z, h)
    requires NoEdges(o, fs, g.ptrs, h.ptrs)
    ensures Merged(o, z, g, h).may
  {
    hide Consistent, AllMust, StandsFor, NoDup, Elems, LocOf;
    MergedIs(o, z, g, h);
    assert g.ptrs[0] in g.ptrs && h.ptrs[0] in h.ptrs;
    assert !Edge(o, fs, g.ptrs[0], h.ptrs[0]) && !Must(o, fs, g.ptrs[0], h.ptrs[0]);
    assert StandsFor(o, fs, z, g.ptrs[0], g.ptrs) && StandsFor(o, fs, z, h.ptrs[0], h.ptrs);
    FirstsMust(o, fs, z, g.ptrs[0], g.ptrs, h.ptrs[0], h.ptrs);
  }

  lemma NoDupUnion(a: seq<Ptr>, b: seq<Ptr>)
    requires NoDup(a) && NoDup(b) && forall q :: q in a ==> q !in b
    ensures NoDup(a + b)
  {
    assert forall i :: 0 <= i < |a| ==> a[i] in a;
    assert forall i :: 0 <= i < |b| ==> b[i] in b;
  }

  // ---------- One more set looked at ----------

  function Unless(b: bool, n: int): int { if b then 0 else n }

  /** The pointers in may-alias sets, counted after a merge. */
  lemma FusedCount(o: Oracle, fs: Sizes, gs: Groups, hs: Groups, f: Id, n: Id, ptrs: set<Ptr>)
    requires FusedInto(gs, hs, f, n) && Partition(gs, ptrs)
    requires GroupOk(o, fs, gs[f]) && GroupOk(o, fs, gs[n])
    requires (gs[f].may || gs[n].may) ==> hs[f].may
    ensures |MayPtrs(hs)| == |MayPtrs(gs)| + if hs[f].may then Unless(gs[f].may, |gs[f].ptrs|) + Unless(gs[n].may, |gs[n].ptrs|) else 0
  {
    MayIn(o, fs, gs, f, ptrs);
    MayIn(o, fs, gs, n, ptrs);
    DisjointElems(gs, f, n, ptrs);
    if hs[f].may {
      FusedMay(gs, hs, f, n);
      hide MayPtrs, Elems, Partition, FusedInto, GroupOk;
      CountUnion(MayPtrs(gs), Elems(gs[f].ptrs), Elems(gs[n].ptrs), gs[f].may, gs[n].may);
    } else {
      FusedMust(gs, hs, f, n);
    }
  }

  lemma MayIn(o: Oracle, fs: Sizes, gs: Groups, i: Id, ptrs: set<Ptr>)
    requires i in gs && GroupOk(o, fs, gs[i]) && Partition(gs, ptrs)
    ensures |Elems(gs[i].ptrs)| == |gs[i].ptrs|
    ensures if gs[i].may then Elems(gs[i].ptrs) <= MayPtrs(gs) else MayPtrs(gs) !! Elems(gs[i].ptrs)
  {
    ElemsCount(gs[i].ptrs);
  }

  lemma DisjointElems(gs: Groups, i: Id, j: Id, ptrs: set<Ptr>)
    requires i in gs && j in gs && i != j && Partition(gs, ptrs)
    ensures Elems(gs[i].ptrs) !! Elems(gs[j].ptrs)
  {
  }

  lemma FusedMust(gs: Groups, hs: Groups, f: Id, n: Id)
    requires FusedInto(gs, hs, f, n) && !hs[f].may && !gs[f].may && !gs[n].may
    ensures MayPtrs(hs) == MayPtrs(gs)
  {
    assert forall k :: k in hs && hs[k].may ==> k in gs && hs[k] == gs[k];
    assert forall k :: k in gs && gs[k].may ==> k in hs && hs[k] == gs[k];
  }

  lemma CountUnion(w: set<Ptr>, a: set<Ptr>, b: set<Ptr>, aIn: bool, bIn: bool)
    requires a !! b
    requires if aIn then a <= w else w !! a
    requires if bIn then b <= w else w !! b
    ensures |w + a + b| == |w| + Unless(aIn, |a|) + Unless(bIn, |b|)
  {
    var u := w + a;
    assert aIn ==> u == w;
    assert bIn ==> u + b == u;
    assert !aIn ==> |u| == |w| + |a|;
    assert !bIn ==> u !! b && |u + b| == |u| + |b|;
  }

  /** TotalMayAliasSetSize still counts the pointers in may-alias sets after a merge. */
  lemma FusedTotal(o: Oracle, fs: Sizes, z: map<Ptr, nat>, gs: Groups, f: Id, n: Id, total: int)
    requires f in gs && n in gs && f != n && Partition(gs, z.Keys)
    requires GroupOk(o, fs, gs[f]) && GroupOk(o, fs, gs[n]) && total == |MayPtrs(gs)| % U32
    ensures MergedTotal(o, z, gs[f], gs[n], total) == |MayPtrs(Fused(o, z, gs, f, n))| % U32
  {
    hide Fused, AllMust, MayPtrs, Elems, Partition, Merged, NoDup;
    FusedMembers(o, z, gs, f, n);
    assert Merged(o, z, gs[f], gs[n]).may == MergedMay(o, z, gs[f], gs[n]) by { MergedLabel(o, z, gs[f], gs[n]); }
    var hs := Fused(o, z, gs, f, n);
    FusedCount(o, fs, gs, hs, f, n, z.Keys);
    hide MergedMay;
    ModSum(|MayPtrs(gs)|, Unless(gs[f].may, |gs[f].ptrs|), Unless(gs[n].may, |gs[n].ptrs|));
  }

  lemma MergedLabel(o: Oracle, z: map<Ptr, nat>, g: Group, h: Group)
    ensures Merged(o, z, g, h).may == MergedMay(o, z, g, h)
    ensures g.may || h.may ==> MergedMay(o, z, g, h)
  {
  }

  lemma ModSum(a: int, b: int, c: int)
    ensures (a % U32 + b % U32 + c % U32) % U32 == (a + b + c) % U32
  {
  }

  /** hs is gs with n merged into f. */
  ghost predicate FusedInto(gs: Groups, hs: Groups, f: Id, n: Id) {
    && f in gs && n in gs && f != n && hs.Keys == gs.Keys - {n}
    && (forall p :: p in hs[f].ptrs <==> p in gs[f].ptrs || p in gs[n].ptrs)
    && (forall k :: k in gs && k != n && k != f ==> hs[k] == gs[k])
  }

  lemma FusedMay(gs: Groups, hs: Groups, f: Id, n: Id)
    requires FusedInto(gs, hs, f, n) && hs[f].may
    ensures MayPtrs(hs) == MayPtrs(gs) + Elems(gs[f].ptrs) + Elems(gs[n].ptrs)
  {
    forall p | p in MayPtrs(gs)
      ensures p in MayPtrs(hs)
    {
      var i :| i in gs && gs[i].may && p in gs[i].ptrs;
      var j := if i == n then f else i;
      assert j in hs && hs[j].may && p in hs[j].ptrs;
    }
  }

  lemma OneConnected(o: Oracle, fs: Sizes, p: Ptr)
    ensures Connected(o, fs, {p})
  {
    forall a: set<Ptr> | a < {p}
      ensures a == {}
    {
      assert p !in a;
    }
  }

  lemma JoinPointer(o: Oracle, fs: Sizes, c: set<Ptr>, p: Ptr, ptrs: seq<Ptr>)
    requires Symmetric(o) && Connected(o, fs, c) && Elems(ptrs) <= c && HasEdge(o, fs, p, ptrs)
    ensures Connected(o, fs, c + {p})
  {
    hide Symmetric, Edge;
    var q :| q in ptrs && Edge(o, fs, p, q);
    assert q in Elems(ptrs);
    EdgeBack(o, fs, p, q);
    OneConnected(o, fs, p);
    assert Crosses(o, fs, c, {p});
    ConnectedUnion(o, fs, c, {p});
  }

  lemma JoinGroup(o: Oracle, fs: Sizes, p: Ptr, a: seq<Ptr>, b: seq<Ptr>)
    requires Symmetric(o) && Connected(o, fs, Elems(a) + {p}) && Connected(o, fs, Elems(b))
    requires HasEdge(o, fs, p, a) && HasEdge(o, fs, p, b)
    ensures Connected(o, fs, Elems(a + b) + {p}) && HasEdge(o, fs, p, a + b)
  {
    hide Symmetric, Edge;
    JoinPointer(o, fs, Elems(b), p, b);
    assert p in (Elems(a) + {p}) * (Elems(b) + {p});
    ConnectedUnion(o, fs, Elems(a) + {p}, Elems(b) + {p});
    assert Elems(a + b) + {p} == (Elems(a) + {p}) + (Elems(b) + {p});
    var q :| q in a && Edge(o, fs, p, q);
    assert q in a + b;
  }

  lemma FusedOk(o: Oracle, fs: Sizes, z: map<Ptr, nat>, gs: Groups, f: Id, n: Id, p: Ptr)
    requires Consistent(o, fs) && AllSizedBut(o, fs, z, gs, p) && AllOk(o, fs, gs) && Partition(gs, z.Keys) && SeparateBut(o, fs, gs, p)
    requires f in gs && n in gs && f != n
    ensures AllOk(o, fs, Fused(o, z, gs, f, n)) && AllSizedBut(o, fs, z, Fused(o, z, gs, f, n), p)
  {
    hide Consistent, RecordsFit, FirstLargest, GroupOk, Fused, Merged, Edge;
    FusedMembers(o, z, gs, f, n);
    MergedOk(o, fs, z, gs[f], gs[n]);
    MergedFit(o, fs, z, gs[f], gs[n]);
    if p !in gs[f].ptrs && p !in gs[n].ptrs {
      assert NoEdgesBut(o, fs, p, gs[f].ptrs, gs[n].ptrs);
      assert NoEdges(o, fs, gs[f].ptrs, gs[n].ptrs);
      MergedIsMay(o, fs, z, gs[f], gs[n]);
      MayAnyFirst(fs, z, Merged(o, z, gs[f], gs[n]));
    }
  }

  lemma MayAnyFirst(fs: Sizes, z: map<Ptr, nat>, g: Group)
    requires g.may
    ensures FirstLargest(fs, z, g)
  {
  }

  lemma FusedJoined(o: Oracle, fs: Sizes, z: map<Ptr, nat>, p: Ptr, s: Part, n: Id, total: int)
    requires Symmetric(o) && AllJoined(o, fs, p, s) && s.found.Some?
    requires s.found.value in s.groups && n in s.groups && s.found.value != n
    requires HasEdge(o, fs, p, s.groups[n].ptrs)
    ensures AllJoined(o, fs, p, Part(Fused(o, z, s.groups, s.found.value, n), total, s.found))
  {
    hide Symmetric, Connected, HasEdge, Fused, Merged;
    var f := s.found.value;
    FusedMembers(o, z, s.groups, f, n);
    MergedPtrs(o, z, s.groups[f], s.groups[n]);
    assert Joined(o, fs, p, s, f) && Joined(o, fs, p, s, n);
    JoinGroup(o, fs, p, s.groups[f].ptrs, s.groups[n].ptrs);
  }

  lemma FusedPassed(o: Oracle, fs: Sizes, z: map<Ptr, nat>, p: Ptr, s: Part, n: Id, total: int)
    requires Passed(o, fs, p, s, n) && s.found.Some? && n in s.groups
    ensures Passed(o, fs, p, Part(Fused(o, z, s.groups, s.found.value, n), total, s.found), n + 1)
  {
    hide HasEdge, Fused, Merged;
    FusedMembers(o, z, s.groups, s.found.value, n);
  }

  lemma StepFuses(o: Oracle, fs: Sizes, z: map<Ptr, nat>, p: Ptr, s: Part, n: nat)
    requires Consistent(o, fs) && Halfway(o, fs, z, p, s, n) && n in s.groups && s.found.Some?
    requires HasEdge(o, fs, p, s.groups[n].ptrs)
    ensures s.found.value in s.groups
    ensures var f := s.found.value;
            Halfway(o, fs, z, p, Part(Fused(o, z, s.groups, f, n), MergedTotal(o, z, s.groups[f], s.groups[n], s.total), s.found), n + 1)
  {
    var gs, f := s.groups, s.found.value;
    assert f in gs && f < n;
    assert GroupOk(o, fs, gs[f]) && GroupOk(o, fs, gs[n]);
    IsSymmetric(o, fs);
    hide Consistent, Symmetric, Fused, Merged, HasEdge, MergedTotal, AllSizedBut, AllOk, AllJoined, Partition, SeparateBut, SelfOk, Passed, MayPtrs, GroupOk;
    FusedOk(o, fs, z, gs, f, n, p);
    FusedPartition(o, z, gs, f, n, z.Keys);
    FusedSeparate(o, fs, z, gs, f, n, p);
    FusedTotal(o, fs, z, gs, f, n, s.total);
    var total := MergedTotal(o, z, gs[f], gs[n], s.total);
    FusedJoined(o, fs, z, p, s, n, total);
    FusedPassed(o, fs, z, p, s, n, total);
  }

  lemma MergedPtrs(o: Oracle, z: map<Ptr, nat>, g: Group, h: Group)
    ensures Merged(o, z, g, h).ptrs == g.ptrs + h.ptrs
  {
  }

  lemma StepFinds(o: Oracle, fs: Sizes, z: map<Ptr, nat>, p: Ptr, s: Part, n: nat)
    requires Symmetric(o) && Halfway(o, fs, z, p, s, n) && n in s.groups && s.found.None?
    requires HasEdge(o, fs, p, s.groups[n].ptrs)
    ensures Halfway(o, fs, z, p, s.(found := Some(n)), n + 1)
  {
    hide Symmetric, Connected, GroupOk, HasEdge, AllSizedBut, SeparateBut, SelfOk;
    assert Joined(o, fs, p, s, n);
    JoinPointer(o, fs, Elems(s.groups[n].ptrs), p, s.groups[n].ptrs);
    var t := s.(found := Some(n));
    forall i | i in t.groups
      ensures Joined(o, fs, p, t, i)
    {
      assert Joined(o, fs, p, s, i);
    }
  }

  lemma NotThere(o: Oracle, fs: Sizes, z: map<Ptr, nat>, p: Ptr, s: Part, n: nat)
    requires Halfway(o, fs, z, p, s, n) && n !in s.groups
    ensures Halfway(o, fs, z, p, s, n + 1)
  {
  }

  /** A set that p is in already says that p aliases it. */
  lemma AliasesOwn(o: Oracle, fs: Sizes, z: map<Ptr, nat>, g: Group, p: Ptr)
    requires Consistent(o, fs) && RecordsFit(o, fs, z, g) && GroupOk(o, fs, g) && p in g.ptrs && p in z && z[p] == fs(p) && Edge(o, fs, p, p)
    ensures Aliases(o, z, g, Loc(p, fs(p))) && HasEdge(o, fs, p, g.ptrs)
  {
    hide Consistent, StandsFor;
    if g.may {
      var k :| 0 <= k < |g.ptrs| && g.ptrs[k] == p;
    } else if g.ptrs[0] != p {
      assert g.ptrs[0] in Elems(g.ptrs) && p in Elems(g.ptrs);
      assert Must(o, fs, p, g.ptrs[0]);
      MemberAsked(o, fs, z, g, p, g.ptrs[0]);
      IsSymmetric(o, fs);
      Same(o, Loc(p, fs(p)), LocOf(z, g.ptrs[0]));
    }
  }

  lemma AsksEdge(o: Oracle, fs: Sizes, z: map<Ptr, nat>, p: Ptr, s: Part, n: nat)
    requires Consistent(o, fs) && Halfway(o, fs, z, p, s, n) && n in s.groups
    ensures Aliases(o, z, s.groups[n], Loc(p, fs(p))) <==> HasEdge(o, fs, p, s.groups[n].ptrs)
  {
    assert GroupOk(o, fs, s.groups[n]) && RecordsFit(o, fs, z, s.groups[n]);
    hide Consistent, GroupOk, RecordsFit, FirstLargest, Aliases, HasEdge, AllJoined, SeparateBut, MayPtrs, Passed;
    if p in s.groups[n].ptrs {
      AliasesOwn(o, fs, z, s.groups[n], p);
    } else {
      AliasesIsEdge(o, fs, z, s.groups[n], p);
    }
  }

  lemma HalfwayStep(o: Oracle, fs: Sizes, z: map<Ptr, nat>, p: Ptr, s: Part, n: nat)
    requires Consistent(o, fs) && Halfway(o, fs, z, p, s, n)
    ensures Halfway(o, fs, z, p, MergeStep(o, z, Loc(p, fs(p)), s, n), n + 1)
  {
    if n !in s.groups {
      NotThere(o, fs, z, p, s, n);
    } else {
      IsSymmetric(o, fs);
      AsksEdge(o, fs, z, p, s, n);
      hide Consistent, Symmetric, Fused, Merged, HasEdge, MergedTotal, AllSizedBut, AllOk, AllJoined, Partition, SeparateBut, SelfOk, MayPtrs, GroupOk, Aliases;
      if Aliases(o, z, s.groups[n], Loc(p, fs(p))) {
        if s.found.None? {
          StepFinds(o, fs, z, p, s, n);
        } else {
          StepFuses(o, fs, z, p, s, n);
        }
      }
    }
  }

  /** Merging sets one by one: those found so far and the pointer are connected. */
  lemma {:induction false} HalfwayAll(o: Oracle, fs: Sizes, z: map<Ptr, nat>, p: Ptr, s: Part, n: nat)
    requires Consistent(o, fs) && Halfway(o, fs, z, p, s, 0)
    ensures Halfway(o, fs, z, p, MergeUpTo(o, z, Loc(p, fs(p)), s, n), n)
    decreases n
  {
    hide Halfway, MergeStep, Consistent;
    if n > 0 {
      HalfwayAll(o, fs, z, p, s, n - 1);
      HalfwayStep(o, fs, z, p, MergeUpTo(o, z, Loc(p, fs(p)), s, n - 1), n - 1);
    }
  }

  /** Before a new pointer is added no set has been looked at. */
  lemma HalfwayStart(o: Oracle, fs: Sizes, z: map<Ptr, nat>, p: Ptr, s: Part)
    requires s.found.None? && AreComponents(o, fs, s.groups, z, s.total) && p !in z
    ensures Halfway(o, fs, z, p, s, 0)
  {
    hide Connected, GroupOk, HasEdge, RecordsFit, FirstLargest, Edge;
    forall i, j | i in s.groups && j in s.groups && i != j ensures NoEdgesBut(o, fs, p, s.groups[i].ptrs, s.groups[j].ptrs) {
      assert NoEdges(o, fs, s.groups[i].ptrs, s.groups[j].ptrs);
    }
  }

  /** A new pointer is in no set, so that nothing is excepted. */
  lemma NewHalfway(o: Oracle, fs: Sizes, z: map<Ptr, nat>, p: Ptr, s: Part, n: nat)
    requires Halfway(o, fs, z, p, s, n) && p !in z
    ensures AllSized(o, fs, z, s.groups) && Separate(o, fs, s.groups)
  {
    hide Connected, GroupOk, HasEdge, RecordsFit, FirstLargest, Edge;
    forall i, j | i in s.groups && j in s.groups && i != j ensures NoEdges(o, fs, s.groups[i].ptrs, s.groups[j].ptrs) {
      assert NoEdgesBut(o, fs, p, s.groups[i].ptrs, s.groups[j].ptrs);
    }
  }

  // ---------- Adding the new pointer ----------

  const NEW_GROUP: Group := Group([], false, false, [], 0)

  lemma SizesAfter(o: Oracle, z: map<Ptr, nat>, g: Group, x: Loc, q: Ptr)
    requires g.ptrs != [] ==> g.ptrs[0] in z
    ensures var z' := AddedSizes(o, z, g, x, false);
            q != x.ptr && (g.ptrs == [] || q != g.ptrs[0]) ==> (q in z' <==> q in z) && (q in z ==> z'[q] == z[q])
  {
  }

  /** Adding changes the sizes of the new pointer, and maybe of the first one of its group, only. */
  lemma OthersSized(o: Oracle, fs: Sizes, z: map<Ptr, nat>, g: Group, p: Ptr, h: Group)
    requires (g.ptrs != [] ==> g.ptrs[0] in z) && SizedOk(o, fs, z, h)
    requires p !in h.ptrs && (g.ptrs != [] ==> g.ptrs[0] !in h.ptrs)
    ensures SizedOk(o, fs, AddedSizes(o, z, g, Loc(p, fs(p)), false), h)
  {
    var z' := AddedSizes(o, z, g, Loc(p, fs(p)), false);
    hide AddedSizes, Must;
    forall q | q in h.ptrs ensures q in z && q in z' && z'[q] == z[q] {
      assert StandsFor(o, fs, z, q, h.ptrs);
      SizesAfter(o, z, g, Loc(p, fs(p)), q);
    }
    forall q | q in h.ptrs ensures StandsFor(o, fs, z', q, h.ptrs) {
      assert StandsFor(o, fs, z, q, h.ptrs);
      var m :| m in h.ptrs && Stands(o, fs, z, q, m);
      assert Stands(o, fs, z', q, m);
    }
  }

  /** The new pointer has its own size, and others still stand for whom they did. */
  lemma StillStands(o: Oracle, fs: Sizes, z: map<Ptr, nat>, g: Group, p: Ptr, q: Ptr)
    requires SizedOk(o, fs, z, g) && q in g.ptrs && p !in z && (g.ptrs[0] in z)
    requires AddedSizes(o, z, g, Loc(p, fs(p)), false) == z[p := fs(p)] || q != g.ptrs[0]
    ensures StandsFor(o, fs, AddedSizes(o, z, g, Loc(p, fs(p)), false), q, g.ptrs + [p])
  {
    var z' := AddedSizes(o, z, g, Loc(p, fs(p)), false);
    hide Must;
    assert StandsFor(o, fs, z, q, g.ptrs);
    var m :| m in g.ptrs && Stands(o, fs, z, q, m);
    assert q in z && q != p;
    SizesAfter(o, z, g, Loc(p, fs(p)), q);
    hide AddedSizes;
    assert Stands(o, fs, z', q, m) && m in g.ptrs + [p];
  }

  lemma NewStands(o: Oracle, fs: Sizes, z: map<Ptr, nat>, g: Group, p: Ptr)
    ensures StandsFor(o, fs, AddedSizes(o, z, g, Loc(p, fs(p)), false), p, g.ptrs + [p])
  {
    assert p in g.ptrs + [p] && Stands(o, fs, AddedSizes(o, z, g, Loc(p, fs(p)), false), p, p);
  }

  /** In a must-alias set the first pointer takes the larger size. */
  lemma FirstGrows(o: Oracle, fs: Sizes, z: map<Ptr, nat>, g: Group, p: Ptr)
    requires Consistent(o, fs) && SizedOk(o, fs, z, g) && GroupOk(o, fs, g) && !g.may && p !in z && p !in g.ptrs
    requires Must(o, fs, g.ptrs[0], p) && o.alias(LocOf(z, g.ptrs[0]), Loc(p, fs(p))) == MustAlias
    ensures g.ptrs[0] in z
    ensures var z' := AddedSizes(o, z, g, Loc(p, fs(p)), false);
            && StandsFor(o, fs, z', g.ptrs[0], g.ptrs + [p])
            && forall q :: q in g.ptrs + [p] ==> fs(q) <= LocOf(z', g.ptrs[0]).size
  {
    var f, z' := g.ptrs[0], AddedSizes(o, z, g, Loc(p, fs(p)), false);
    var m := Largest(o, fs, z, g);
    StandsFacts(o, fs, z, f, m);
    assert f != p && z' == z[f := Max(z[f], fs(p))][p := fs(p)];
    hide Consistent, Must, AddedSizes;
    if fs(p) > z[f] {
      assert Stands(o, fs, z', f, p) && p in g.ptrs + [p];
    } else {
      assert Stands(o, fs, z', f, m) && m in g.ptrs + [p];
    }
  }

  /** The group and the sizes after p has joined. */
  lemma AddedIs(o: Oracle, z: map<Ptr, nat>, g: Group, x: Loc)
    ensures var h := Added(o, z, g, x, false);
            && h.ptrs == g.ptrs + [x.ptr] && (h.may <==> AddedMay(o, z, g, x, false)) && (g.may ==> h.may)
            && (h.may ==> AddedSizes(o, z, g, x, false) == z[x.ptr := x.size])
  {
  }

  lemma AddedSized(o: Oracle, fs: Sizes, z: map<Ptr, nat>, g: Group, p: Ptr)
    requires Consistent(o, fs) && SizedOk(o, fs, z, g) && GroupOk(o, fs, g) && p !in z && p !in g.ptrs
    ensures SizedOk(o, fs, AddedSizes(o, z, g, Loc(p, fs(p)), false), Added(o, z, g, Loc(p, fs(p)), false))
  {
    var x := Loc(p, fs(p));
    var z', h := AddedSizes(o, z, g, x, false), Added(o, z, g, x, false);
    AddedIs(o, z, g, x);
    AddedLabel(o, fs, z, g, p);
    NewStands(o, fs, z, g, p);
    FirstIn(o, fs, z, g);
    hide Consistent, StandsFor, AddedSizes, Added, GroupOk, Must;
    if !h.may {
      FirstGrows(o, fs, z, g, p);
    }
    forall q | q in h.ptrs ensures StandsFor(o, fs, z', q, h.ptrs) {
      if q in g.ptrs && (h.may || q != g.ptrs[0]) {
        StillStands(o, fs, z, g, p, q);
      }
    }
  }

  lemma FirstIn(o: Oracle, fs: Sizes, z: map<Ptr, nat>, g: Group)
    requires SizedOk(o, fs, z, g) && GroupOk(o, fs, g)
    ensures g.ptrs != [] && g.ptrs[0] in z
  {
    assert StandsFor(o, fs, z, g.ptrs[0], g.ptrs);
  }

  /** The first pointer of a must-alias set, at the size it has taken, tells whether all members must-alias the new one. */
  lemma AddedLabel(o: Oracle, fs: Sizes, z: map<Ptr, nat>, g: Group, p: Ptr)
    requires Consistent(o, fs) && SizedOk(o, fs, z, g) && GroupOk(o, fs, g)
    ensures !g.may ==> (o.alias(LocOf(z, g.ptrs[0]), Loc(p, fs(p))) == MustAlias <==> Must(o, fs, g.ptrs[0], p))
  {
    hide Consistent;
    if !g.may {
      var f := g.ptrs[0];
      var m := Largest(o, fs, z, g);
      OwnSize(o, fs, p);
      StandsSame(o, fs, z, f, m, Loc(p, fs(p)));
      StandsFacts(o, fs, z, f, m);
      if f != m {
        MustChain(o, fs, f, m, p);
      }
    }
  }

  lemma AddedOk(o: Oracle, fs: Sizes, z: map<Ptr, nat>, g: Group, p: Ptr)
    requires Consistent(o, fs) && SizedOk(o, fs, z, g) && GroupOk(o, fs, g) && p !in g.ptrs
    ensures GroupOk(o, fs, Added(o, z, g, Loc(p, fs(p)), false))
  {
    AddedLabel(o, fs, z, g, p);
    hide Consistent, SizedOk;
    MustUnion(o, fs, g.ptrs, [p]);
    MustSelf(o, fs, p);
    assert forall i :: 0 <= i < |g.ptrs| ==> g.ptrs[i] in g.ptrs;
  }

  lemma MustSelf(o: Oracle, fs: Sizes, p: Ptr)
    ensures AllMust(o, fs, Elems([p])) && Connected(o, fs, Elems([p]))
  {
    assert Elems([p]) == {p};
    OneConnected(o, fs, p);
  }

  lemma NewOk(o: Oracle, fs: Sizes, z: map<Ptr, nat>, p: Ptr)
    ensures var x := Loc(p, fs(p));
            var g := Added(o, z, NEW_GROUP, x, false);
            && g == Group([p], false, false, [], 1) && GroupOk(o, fs, g) && Connected(o, fs, Elems(g.ptrs))
            && SizedOk(o, fs, AddedSizes(o, z, NEW_GROUP, x, false), g)
  {
    MustSelf(o, fs, p);
    NewStands(o, fs, z, NEW_GROUP, p);
    assert [] + [p] == [p];
  }

  /** gs with p added to group f, or to a new one. */
  ghost predicate GainedAt(gs: Groups, hs: Groups, f: Id, p: Ptr) {
    && hs.Keys == gs.Keys + {f}
    && hs[f].ptrs == (if f in gs then gs[f].ptrs else []) + [p]
    && (forall k :: k in gs && k != f ==> hs[k] == gs[k])
  }

  lemma GainedPartition(gs: Groups, hs: Groups, f: Id, p: Ptr, ptrs: set<Ptr>)
    requires Partition(gs, ptrs) && GainedAt(gs, hs, f, p) && p !in ptrs
    ensures Partition(hs, ptrs + {p})
  {
    forall q | q in ptrs + {p}
      ensures exists i :: i in hs && q in hs[i].ptrs
    {
      if q in ptrs {
        var i :| i in gs && q in gs[i].ptrs;
        assert i in hs && q in hs[i].ptrs;
      } else {
        assert f in hs && q in hs[f].ptrs;
      }
    }
  }

  lemma GainedSeparate(o: Oracle, fs: Sizes, gs: Groups, hs: Groups, f: Id, p: Ptr)
    requires Symmetric(o) && Separate(o, fs, gs) && GainedAt(gs, hs, f, p)
    requires forall i :: i in gs && i != f ==> !HasEdge(o, fs, p, gs[i].ptrs)
    ensures Separate(o, fs, hs)
  {
    forall i, j | i in hs && j in hs && i != j
      ensures NoEdges(o, fs, hs[i].ptrs, hs[j].ptrs)
    {
      hide Edge, Symmetric;
      forall q, r | q in hs[i].ptrs && r in hs[j].ptrs
        ensures !Edge(o, fs, q, r)
      {
        if Edge(o, fs, q, r) {
          EdgeBack(o, fs, q, r);
        }
        assert i in gs && j in gs ==> NoEdges(o, fs, gs[i].ptrs, gs[j].ptrs);
      }
    }
  }

  /** The pointers in may-alias sets, counted after p joins f. */
  lemma GainedCount(o: Oracle, fs: Sizes, gs: Groups, hs: Groups, f: Id, p: Ptr, ptrs: set<Ptr>)
    requires Partition(gs, ptrs) && GainedAt(gs, hs, f, p) && p !in ptrs
    requires f in gs ==> GroupOk(o, fs, gs[f]) && (gs[f].may ==> hs[f].may)
    ensures |MayPtrs(hs)| == |MayPtrs(gs)| +
                             if !hs[f].may then 0 else if f in gs then Unless(gs[f].may, |gs[f].ptrs|) + 1 else 1
  {
    var a := if f in gs then Elems(gs[f].ptrs) else {};
    if f in gs {
      MayIn(o, fs, gs, f, ptrs);
    }
    assert p !in MayPtrs(gs) && p !in a;
    if hs[f].may {
      GainedMay(gs, hs, f, p, a);
      CountUnion(MayPtrs(gs), a, {p}, f in gs && gs[f].may, false);
    } else {
      GainedMust(gs, hs, f, p);
    }
  }

  lemma GainedMay(gs: Groups, hs: Groups, f: Id, p: Ptr, a: set<Ptr>)
    requires GainedAt(gs, hs, f, p) && hs[f].may && a == if f in gs then Elems(gs[f].ptrs) else {}
    ensures MayPtrs(hs) == MayPtrs(gs) + a + {p}
  {
    forall q | q in MayPtrs(gs)
      ensures q in MayPtrs(hs)
    {
      var i :| i in gs && gs[i].may && q in gs[i].ptrs;
      assert i in hs && hs[i].may && q in hs[i].ptrs;
    }
    assert Elems(hs[f].ptrs) == a + {p};
    assert forall q :: q in a + {p} ==> f in hs && q in hs[f].ptrs;
  }

  lemma GainedMust(gs: Groups, hs: Groups, f: Id, p: Ptr)
    requires GainedAt(gs, hs, f, p) && !hs[f].may && (f in gs ==> !gs[f].may)
    ensures MayPtrs(hs) == MayPtrs(gs)
  {
    assert forall k :: k in hs && hs[k].may ==> k in gs && hs[k] == gs[k];
    assert forall k :: k in gs && gs[k].may ==> k in hs && hs[k] == gs[k];
  }

  /** Groups, TotalMayAliasSetSize and sizes after p is added: to the set found, or to a new one numbered next. */
  function AddedTo(s: Part, next: Id): Id {
    if s.found.Some? then s.found.value else next
  }

  function GroupAt(gs: Groups, i: Id): Group {
    if i in gs then gs[i] else NEW_GROUP
  }

  function AddGroups(o: Oracle, z: map<Ptr, nat>, gs: Groups, i: Id, x: Loc): Groups {
    gs[i := Added(o, z, GroupAt(gs, i), x, false)]
  }

  lemma AddedComponents(o: Oracle, fs: Sizes, z: map<Ptr, nat>, p: Ptr, s: Part, next: nat)
    requires Consistent(o, fs) && Halfway(o, fs, z, p, s, next) && p !in z && (forall i :: i in s.groups ==> i < next)
    ensures var i, x := AddedTo(s, next), Loc(p, fs(p));
            var g := GroupAt(s.groups, i);
            AreComponents(o, fs, AddGroups(o, z, s.groups, i, x), AddedSizes(o, z, g, x, false),
                          AddedTotal(o, z, g, x, false, s.total))
  {
    var i, x := AddedTo(s, next), Loc(p, fs(p));
    var g := GroupAt(s.groups, i);
    var hs := AddGroups(o, z, s.groups, i, x);
    IsSymmetric(o, fs);
    NewHalfway(o, fs, z, p, s, next);
    hide Consistent, Symmetric, Connected, GroupOk, HasEdge, SizedOk, AllSizedBut, MayPtrs, Separate, SeparateBut, SelfOk, Partition, Elems;
    AddedGains(o, fs, z, s.groups, i, x);
    GainedPartition(s.groups, hs, i, p, z.Keys);
    assert forall k :: k in s.groups && k != i ==> !HasEdge(o, fs, p, s.groups[k].ptrs);
    GainedSeparate(o, fs, s.groups, hs, i, p);
    AddedEach(o, fs, z, p, s, next, i);
    AddedCount(o, fs, z, s.groups, i, p, s.total);
    SizesKeys(o, fs, z, s, next, i, p);
  }

  lemma SizesKeys(o: Oracle, fs: Sizes, z: map<Ptr, nat>, s: Part, next: nat, i: Id, p: Ptr)
    requires Halfway(o, fs, z, p, s, next) && i == AddedTo(s, next)
    ensures AddedSizes(o, z, GroupAt(s.groups, i), Loc(p, fs(p)), false).Keys == z.Keys + {p}
  {
    var g := GroupAt(s.groups, i);
    assert g.ptrs != [] ==> g.ptrs[0] in g.ptrs;
  }

  lemma AddedFirst(o: Oracle, fs: Sizes, z: map<Ptr, nat>, s: Part, next: nat, i: Id, p: Ptr)
    requires Halfway(o, fs, z, p, s, next) && i == AddedTo(s, next)
    ensures forall q :: q in GroupAt(s.groups, i).ptrs ==> q in z
    ensures GroupAt(s.groups, i).ptrs != [] ==> GroupAt(s.groups, i).ptrs[0] in z
  {
    var g := GroupAt(s.groups, i);
    assert g.ptrs != [] ==> g.ptrs[0] in g.ptrs;
  }

  lemma AddedGains(o: Oracle, fs: Sizes, z: map<Ptr, nat>, gs: Groups, i: Id, x: Loc)
    ensures GainedAt(gs, AddGroups(o, z, gs, i, x), i, x.ptr)
  {
  }

  lemma AddedEach(o: Oracle, fs: Sizes, z: map<Ptr, nat>, p: Ptr, s: Part, next: nat, i: Id)
    requires Consistent(o, fs) && Halfway(o, fs, z, p, s, next) && p !in z && i == AddedTo(s, next)
    requires forall k :: k in s.groups ==> k < next
    ensures var hs := AddGroups(o, z, s.groups, i, Loc(p, fs(p)));
            var sizes := AddedSizes(o, z, GroupAt(s.groups, i), Loc(p, fs(p)), false);
            forall k :: k in hs ==> GroupOk(o, fs, hs[k]) && SizedOk(o, fs, sizes, hs[k]) && Connected(o, fs, Elems(hs[k].ptrs))
  {
    var x := Loc(p, fs(p));
    var g := GroupAt(s.groups, i);
    AddedFirst(o, fs, z, s, next, i, p);
    var hs := AddGroups(o, z, s.groups, i, x);
    var sizes := AddedSizes(o, z, g, x, false);
    forall k | k in hs
      ensures GroupOk(o, fs, hs[k]) && SizedOk(o, fs, sizes, hs[k]) && Connected(o, fs, Elems(hs[k].ptrs))
    {
      if k != i {
        OtherEach(o, fs, z, p, s, next, i, k);
      } else if i in s.groups {
        FoundEach(o, fs, z, p, s, next, i);
      } else {
        hide Consistent, Halfway;
        NewOk(o, fs, z, p);
      }
    }
  }

  lemma OtherEach(o: Oracle, fs: Sizes, z: map<Ptr, nat>, p: Ptr, s: Part, next: nat, i: Id, k: Id)
    requires Halfway(o, fs, z, p, s, next) && p !in z && i == AddedTo(s, next) && k in s.groups && k != i
    ensures GroupOk(o, fs, s.groups[k]) && Connected(o, fs, Elems(s.groups[k].ptrs))
    ensures SizedOk(o, fs, AddedSizes(o, z, GroupAt(s.groups, i), Loc(p, fs(p)), false), s.groups[k])
  {
    var g, h := GroupAt(s.groups, i), s.groups[k];
    NewHalfway(o, fs, z, p, s, next);
    hide GroupOk, SizedOk, Connected, HasEdge, Separate, SeparateBut, AllSizedBut, SelfOk, MayPtrs;
    AddedFirst(o, fs, z, s, next, i, p);
    assert Joined(o, fs, p, s, k) && GroupOk(o, fs, h) && SizedOk(o, fs, z, h);
    assert p !in h.ptrs;
    assert g.ptrs != [] ==> g.ptrs[0] in g.ptrs && i in s.groups;
    OthersSized(o, fs, z, g, p, h);
  }

  lemma FoundEach(o: Oracle, fs: Sizes, z: map<Ptr, nat>, p: Ptr, s: Part, next: nat, i: Id)
    requires Consistent(o, fs) && Halfway(o, fs, z, p, s, next) && p !in z && i == AddedTo(s, next) && i in s.groups
    requires forall k :: k in s.groups ==> k < next
    ensures var x := Loc(p, fs(p));
            var h := Added(o, z, s.groups[i], x, false);
            GroupOk(o, fs, h) && SizedOk(o, fs, AddedSizes(o, z, s.groups[i], x, false), h) && Connected(o, fs, Elems(h.ptrs))
  {
    var g := s.groups[i];
    NewHalfway(o, fs, z, p, s, next);
    hide GroupOk, SizedOk, Connected, HasEdge, Separate, SeparateBut, AllSizedBut, SelfOk, MayPtrs, Consistent, AddedSizes;
    assert Joined(o, fs, p, s, i) && GroupOk(o, fs, g) && SizedOk(o, fs, z, g);
    assert p !in g.ptrs;
    AddedOk(o, fs, z, g, p);
    AddedSized(o, fs, z, g, p);
    assert Elems(g.ptrs + [p]) == Elems(g.ptrs) + {p};
  }

  lemma AddedCount(o: Oracle, fs: Sizes, z: map<Ptr, nat>, gs: Groups, i: Id, p: Ptr, total: int)
    requires Partition(gs, z.Keys) && p !in z && (i in gs ==> GroupOk(o, fs, gs[i])) && total == |MayPtrs(gs)| % U32
    ensures var x := Loc(p, fs(p));
            AddedTotal(o, z, GroupAt(gs, i), x, false, total) == |MayPtrs(AddGroups(o, z, gs, i, x))| % U32
  {
    hide MayPtrs, Partition, AllMust, NoDup;
    var x := Loc(p, fs(p));
    AddedGains(o, fs, z, gs, i, x);
    GainedCount(o, fs, gs, AddGroups(o, z, gs, i, x), i, p, z.Keys);
  }
}
