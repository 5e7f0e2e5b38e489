/**
 TotalMayAliasSetSize against the sizes of the may-alias sets that are there: by how
 much it is off, modulo its 32 bits, and what keeps that.
 */
module AliasTotals {
  import opened AliasGroups
  import opened AliasHistory
  import opened AliasRefs
  import opened AliasWalk

  /** What set k has to be counted with. */
  function Share(sets: map<Id, ASet>, k: Id): int {
    if k in sets && sets[k].may then sets[k].size else 0
  }

  ghost function MaySum(sets: map<Id, ASet>, n: nat): int {
    if n == 0 then 0 else MaySum(sets, n - 1) + Share(sets, n - 1)
  }

  /** What is missing from the count, of sets numbered below n. */
  ghost function Missing(sets: map<Id, ASet>, total: int, n: nat): int { (MaySum(sets, n) - total) % U32 }

  ghost predicate Below(sets: map<Id, ASet>, n: nat) { forall k :: k in sets ==> k < n }

  /** No set is new, and as much is missing as before. */
  ghost predicate Level(s: map<Id, ASet>, t: int, s': map<Id, ASet>, t': int) {
    s'.Keys <= s.Keys && forall n {:trigger Below(s, n)} :: Below(s, n) ==> Missing(s', t', n) == Missing(s, t, n)
  }

  lemma LevelAt(s: map<Id, ASet>, t: int, s': map<Id, ASet>, t': int, n: nat)
    requires Level(s, t, s', t') && Below(s, n)
    ensures Below(s', n) && Missing(s', t', n) == Missing(s, t, n)
  {
  }

  lemma LevelTrans(s: map<Id, ASet>, t: int, s': map<Id, ASet>, t': int, s'': map<Id, ASet>, t'': int)
    requires Level(s, t, s', t') && Level(s', t', s'', t'')
    ensures Level(s, t, s'', t'')
  {
    hide Missing;
    forall n | Below(s, n) ensures Missing(s'', t'', n) == Missing(s, t, n) {
      assert Below(s', n);
    }
  }

  lemma LevelSelf(s: map<Id, ASet>, t: int)
    ensures Level(s, t, s, t)
  {
  }

  /** The sum changes by what the shares of two sets change. */
  lemma {:induction false} SumTwo(s: map<Id, ASet>, s': map<Id, ASet>, x: Id, y: Id, n: nat)
    requires x != y && forall k :: k != x && k != y ==> Share(s', k) == Share(s, k)
    ensures MaySum(s', n) - MaySum(s, n) ==
      (if x < n then Share(s', x) - Share(s, x) else 0) + (if y < n then Share(s', y) - Share(s, y) else 0)
  {
    hide Share;
    if n > 0 {
      SumTwo(s, s', x, y, n - 1);
    }
  }

  lemma SameRest(a: int, t: int, a': int, t': int)
    requires ((t' - t) - (a' - a)) % U32 == 0
    ensures (a' - t') % U32 == (a - t) % U32
  {
  }

  /** The count changes by what the shares of two sets change. */
  lemma LevelTwo(s: map<Id, ASet>, t: int, s': map<Id, ASet>, t': int, x: Id, y: Id)
    requires s'.Keys <= s.Keys && x in s && y in s && x != y && forall k :: k != x && k != y ==> Share(s', k) == Share(s, k)
    requires ((t' - t) - (Share(s', x) - Share(s, x) + (Share(s', y) - Share(s, y)))) % U32 == 0
    ensures Level(s, t, s', t')
  {
    hide Share, MaySum;
    forall n | Below(s, n) ensures Missing(s', t', n) == Missing(s, t, n) {
      SumTwo(s, s', x, y, n);
      SameRest(MaySum(s, n), t, MaySum(s', n), t');
    }
  }

  lemma {:induction false} SumOne(s: map<Id, ASet>, s': map<Id, ASet>, x: Id, n: nat)
    requires forall k :: k != x ==> Share(s', k) == Share(s, k)
    ensures MaySum(s', n) - MaySum(s, n) == if x < n then Share(s', x) - Share(s, x) else 0
  {
    hide Share;
    if n > 0 {
      SumOne(s, s', x, n - 1);
    }
  }

  lemma LevelOne(s: map<Id, ASet>, t: int, s': map<Id, ASet>, t': int, x: Id)
    requires s'.Keys <= s.Keys && x in s && forall k :: k != x ==> Share(s', k) == Share(s, k)
    requires ((t' - t) - (Share(s', x) - Share(s, x))) % U32 == 0
    ensures Level(s, t, s', t')
  {
    hide Share, MaySum;
    forall n | Below(s, n) ensures Missing(s', t', n) == Missing(s, t, n) {
      SumOne(s, s', x, n);
      SameRest(MaySum(s, n), t, MaySum(s', n), t');
    }
  }

  lemma {:induction false} SumSame(s: map<Id, ASet>, s': map<Id, ASet>, n: nat)
    requires forall k :: Share(s', k) == Share(s, k)
    ensures MaySum(s', n) == MaySum(s, n)
  {
    hide Share;
    if n > 0 {
      SumSame(s, s', n - 1);
    }
  }

  lemma LevelSame(s: map<Id, ASet>, s': map<Id, ASet>, t: int)
    requires s'.Keys <= s.Keys && forall k :: Share(s', k) == Share(s, k)
    ensures Level(s, t, s', t)
  {
    hide Share, MaySum;
    forall n | Below(s, n) ensures Missing(s', t, n) == Missing(s, t, n) {
      SumSame(s, s', n);
    }
  }

  /** Counts of references and forwarding do not matter. */
  lemma LevelRefs(s: map<Id, ASet>, s': map<Id, ASet>, t: int)
    requires s'.Keys == s.Keys && forall k :: k in s ==> s'[k] == s[k].(refs := s'[k].refs, fwd := s'[k].fwd)
    ensures Level(s, t, s', t)
  {
    LevelSame(s, s', t);
  }

  /** A set that is removed is taken off the count. */
  lemma LevelErased(s: map<Id, ASet>, t: int, x: Id, t': int)
    requires x in s && t' == if s[x].may then Wrapped(t - s[x].size) else t
    ensures Level(s, t, s - {x}, t')
  {
    LevelOne(s, t, s - {x}, t', x);
  }

  lemma LevelHold(t: State, x: Id, n: int)
    requires x in t.sets
    ensures Level(t.sets, n, Hold(t, x).sets, n)
  {
    LevelRefs(t.sets, Hold(t, x).sets, n);
  }

  lemma LevelRelease(t: State, x: Id, n: int)
    requires x in t.sets
    ensures Level(t.sets, n, Release(t, x).sets, n)
  {
    LevelRefs(t.sets, Release(t, x).sets, n);
  }

  /** What the shares of two sets that are merged come to: m and n are whether they were may-alias, c and d their sizes. */
  lemma MergedShares(m: bool, n: bool, may: bool, empty: bool, c: int, d: int, t: int, t1: int, t2: int, size: int)
    requires (m || n ==> may) && (n || !empty) && size == if empty then c else (c + d) % U32
    requires t1 == (if m then t else Wrapped(t + c)) && t2 == (if !may then t else if n then t1 else Wrapped(t1 + d))
    ensures var before := (if m then c else 0) + (if n then d else 0);
            var after := (if may then size else 0) + (if n && empty then d else 0);
            ((t2 - t) - (after - before)) % U32 == 0
  {
  }

  /** mergeSetIn, of set y into x, but for the reference to y that its instructions held. */
  lemma LevelMerge(s: map<Id, ASet>, x: Id, y: Id, may: bool, n: int, t: int)
    requires x in s && y in s && x != y && (s[x].may || s[y].may ==> may) && (s[y].may || s[y].ptrs != [])
    requires n == if s[y].ptrs == [] then s[x].size else (s[x].size + s[y].size) % U32
    ensures var t1 := if s[x].may then t else Wrapped(t + s[x].size);
            var t2 := if !may then t else if s[y].may then t1 else Wrapped(t1 + s[y].size);
            Level(s, t, s[x := Taker(s[x], s[y], may, n)][y := Taken(s[y], x)], t2)
  {
    var s' := s[x := Taker(s[x], s[y], may, n)][y := Taken(s[y], x)];
    var t1 := if s[x].may then t else Wrapped(t + s[x].size);
    var t2 := if !may then t else if s[y].may then t1 else Wrapped(t1 + s[y].size);
    MergedShares(s[x].may, s[y].may, may, s[y].ptrs == [], s[x].size, s[y].size, t, t1, t2, n);
    assert Share(s', x) == if may then n else 0;
    assert Share(s', y) == if s[y].may && s[y].ptrs == [] then s[y].size else 0;
    hide Wrapped, Taker, Taken, Level;
    LevelTwo(s, t, s', t2, x, y);
  }

  /** A set that is given a pointer, or gives one up, and its size and label with it. */
  lemma LevelSized(s: map<Id, ASet>, t: int, s': map<Id, ASet>, t': int, x: Id)
    requires s'.Keys == s.Keys && x in s && forall k :: k in s && k != x ==> s'[k] == s[k]
    requires ((t' - t) - ((if s'[x].may then s'[x].size else 0) - (if s[x].may then s[x].size else 0))) % U32 == 0
    ensures Level(s, t, s', t')
  {
    LevelOne(s, t, s', t', x);
  }

  /** A new set is empty. */
  lemma MissingNew(s: map<Id, ASet>, r: Id, t: int, full: bool)
    requires Below(s, r)
    ensures var s' := s[r := if full then ANY_SET else NEW_SET]; Below(s', r + 1) && Missing(s', t, r + 1) == Missing(s, t, r)
  {
    var s' := s[r := if full then ANY_SET else NEW_SET];
    SumBelow(s, s', r);
    assert MaySum(s', r + 1) == MaySum(s', r) + Share(s', r);
  }

  lemma {:induction false} SumBelow(s: map<Id, ASet>, s': map<Id, ASet>, n: nat)
    requires forall k: Id :: k < n ==> Share(s', k) == Share(s, k)
    ensures MaySum(s', n) == MaySum(s, n)
  {
    hide Share;
    if n > 0 {
      SumBelow(s, s', n - 1);
    }
  }

  /** A must-alias set that becomes a may-alias set without being counted is missing from then on. */
  lemma MissingMore(s: map<Id, ASet>, s': map<Id, ASet>, x: Id, t: int, n: nat)
    requires x in s && x < n && s'.Keys == s.Keys && (forall k :: k in s && k != x ==> s'[k] == s[k])
    requires s'[x].may && s'[x].size == s[x].size
    ensures Missing(s', t, n) == (Missing(s, t, n) + if s[x].may then 0 else s[x].size) % U32
  {
    SumOne(s, s', x, n);
    hide MaySum;
  }

  /** The count, of what is missing from it. */
  lemma CountIs(s: map<Id, ASet>, t: int, n: nat)
    requires 0 <= t < U32
    ensures t == (MaySum(s, n) - Missing(s, t, n)) % U32
  {
    hide MaySum;
  }

  lemma LevelForwarded(t: State, x: Id, d: Id, n: int)
    requires x in t.sets && t.sets[x].fwd.Some? && d in t.sets
    ensures Level(t.sets, n, ForwardTo(Hold(t, d), x, d).sets, n)
  {
    LevelRefs(t.sets, ForwardTo(Hold(t, d), x, d).sets, n);
  }

  lemma LevelGrown(s: map<Id, ASet>, t: int, s': map<Id, ASet>, t': int, x: Id, may: bool)
    requires OnlyGrows(s, s', x) && s'[x].may == may && s'[x].size == (s[x].size + 1) % U32 && (s[x].may ==> may)
    requires var t1 := if may && !s[x].may then (t + s[x].size) % U32 else t; t' == if may then (t1 + 1) % U32 else t1
    ensures Level(s, t, s', t')
  {
    LevelSized(s, t, s', t', x);
  }

  lemma LevelKeys(s: map<Id, ASet>, t: int, s': map<Id, ASet>, t': int)
    requires Level(s, t, s', t')
    ensures s'.Keys <= s.Keys
  {
  }

  /** A pointer that is known does not need a new set. */
  lemma NextSame(o: Oracle, v: View, x: Loc)
    requires x.ptr in v.sizes
    ensures AddStep(o, v, x).next == v.next
  {
    hide MergeUpTo;
  }

  lemma WitnessGrows(s: map<Id, ASet>, s': map<Id, ASet>, x: Id)
    requires s'.Keys == s.Keys && x in s && s[x].fwd.None? && s'[x].fwd.None? && s'[x].any == s[x].any
    requires forall k :: k in s && k != x ==> s'[k] == s[k]
    ensures OnlyGrows(s, s', x)
  {
  }

  lemma LevelLeft(s: map<Id, ASet>, t: int, s': map<Id, ASet>, t': int, x: Id)
    requires s'.Keys == s.Keys && x in s && s'[x].may == s[x].may && forall k :: k in s && k != x ==> s'[k] == s[k]
    requires if s[x].may then s'[x].size == Wrapped(s[x].size - 1) && t' == Wrapped(t - 1) else t' == t
    ensures Level(s, t, s', t')
  {
    LevelSized(s, t, s', t', x);
  }

  lemma LevelMerged(o: Oracle, t: State, x: Id, y: Id, may: bool, n: int, t0: int)
    requires x in t.sets && y in t.sets && x != y && (t.sets[y].may || t.sets[y].ptrs != []) && 0 <= t0 < U32
    requires may == MergedMay(o, SizesOf(t.recs), GroupOf(t.sets[x]), GroupOf(t.sets[y]))
    requires n == if t.sets[y].ptrs == [] then t.sets[x].size else (t.sets[x].size + t.sets[y].size) % U32
    ensures Level(t.sets, t0, t.sets[x := Taker(t.sets[x], t.sets[y], may, n)][y := Taken(t.sets[y], x)],
                  MergedTotal(o, SizesOf(t.recs), GroupOf(t.sets[x]), GroupOf(t.sets[y]), t0))
  {
    hide MergedMay, MergedTotal, SizesOf, Taker, Taken, Level, Wrapped;
    LabelTotal(o, SizesOf(t.recs), GroupOf(t.sets[x]), GroupOf(t.sets[y]), t0);
    LabelGrows(o, SizesOf(t.recs), GroupOf(t.sets[x]), GroupOf(t.sets[y]));
    LevelMerge(t.sets, x, y, may, n, t0);
  }
}
