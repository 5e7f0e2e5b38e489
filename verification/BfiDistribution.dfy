/**
 Distribution: the weights of the edges out of a block, combined by target and
 scaled down until their total fits 32 bits.
 */
module BfiDistribution {
  import opened BfiWeights

  // ---------- Combining in place ----------

  ghost predicate Sorted(ws: seq<Weight>) {
    forall i, j :: 0 <= i < j < |ws| ==> ws[i].target <= ws[j].target
  }

  ghost predicate Increasing(ws: seq<Weight>) {
    forall i, j :: 0 <= i < j < |ws| ==> ws[i].target < ws[j].target
  }

  /** llvm::sort, which may order weights of one target in any way. */
  method SortByTarget(ws: seq<Weight>) returns (s: seq<Weight>)
    ensures Sorted(s) && multiset(s) == multiset(ws)
  {
    s := [];
    for i := 0 to |ws|
      invariant Sorted(s) && multiset(s) == multiset(ws[..i])
    {
      var k := |s|;
      while k > 0 && s[k - 1].target > ws[i].target
        invariant 0 <= k <= |s|
        invariant forall j :: k <= j < |s| ==> s[j].target > ws[i].target
      {
        k := k - 1;
      }
      InsertSorted(s, ws[i], k);
      InsertKeeps(s, ws[i], k);
      assert ws[..i + 1] == ws[..i] + [ws[i]];
      s := s[..k] + [ws[i]] + s[k..];
    }
    assert ws[..|ws|] == ws;
  }

  lemma InsertSorted(s: seq<Weight>, w: Weight, k: nat)
    requires Sorted(s) && k <= |s|
    requires k > 0 ==> s[k - 1].target <= w.target
    requires forall j :: k <= j < |s| ==> s[j].target > w.target
    ensures Sorted(s[..k] + [w] + s[k..])
  {
    var t := s[..k] + [w] + s[k..];
    forall i, j | 0 <= i < j < |t|
      ensures t[i].target <= t[j].target
    {
      assert i < k ==> s[i].target <= s[k - 1].target;
    }
  }

  lemma InsertKeeps(s: seq<Weight>, w: Weight, k: nat)
    requires k <= |s|
    ensures multiset(s[..k] + [w] + s[k..]) == multiset(s) + multiset{w}
  {
    assert s == s[..k] + s[k..];
  }

  /** combineWeight, of weights of one target. */
  function CombineWeight(w: Weight, other: Weight): Weight {
    if w.amount == 0 then other
    else w.(amount := if w.amount > (w.amount + other.amount) % TWO64 then MAX64 else w.amount + other.amount)
  }

  lemma CombineIsSat(w: Weight, other: Weight, sum: nat)
    requires w.amount == Sat(sum) && w.amount > 0 && WeightOk(other)
    ensures CombineWeight(w, other) == w.(amount := Sat(sum + other.amount))
  {
  }

  /** r combines the weights before l of a sorted list, and its last target is t. */
  ghost predicate Compacted(s: seq<Weight>, l: nat, r: seq<Weight>)
    requires l <= |s|
  {
    && Combines(s[..l], r) && Increasing(r)
    && (forall x, j :: x in r && l <= j < |s| ==> x.target < s[j].target)
  }

  lemma RunStart(s: seq<Weight>, i: nat, r: seq<Weight>)
    requires i < |s| && Sorted(s) && Compacted(s, i, r) && AllOk(s) && KindsAgree(s)
    ensures SumAt(s[..i + 1], s[i].target) == s[i].amount == Sat(s[i].amount)
    ensures Combines(s[..i + 1], r + [s[i]]) && Increasing(r + [s[i]])
    ensures s[i] in s
  {
    var w := s[i];
    assert s[..i + 1] == s[..i] + [w];
    assert w in s;
    assert !Targets(s[..i], w.target) by {
      assert forall x :: x in r ==> x.target != w.target;
      assert Targets(s[..i], w.target) <==> Targets(r, w.target);
    }
    NoTarget(s[..i], w.target);
    SumNext(s[..i], w, w.target);
    hide SumAt, Sat;
    ExtendsRun(s, i, r, w);
  }

  /** One more weight with a target that r does not have yet. */
  lemma ExtendsRun(s: seq<Weight>, i: nat, r: seq<Weight>, w: Weight)
    requires i < |s| && w == s[i] && Compacted(s, i, r) && KindsAgree(s) && !Targets(s[..i], w.target)
    requires SumAt(s[..i + 1], w.target) == w.amount == Sat(w.amount)
    ensures Combines(s[..i + 1], r + [w]) && Increasing(r + [w])
  {
    var q, t := r + [w], s[..i + 1];
    assert t == s[..i] + [w];
    forall n
      ensures Targets(t, n) <==> Targets(q, n)
    {
      TargetsLast(t, n);
      TargetsLast(q, n);
      assert q[..|r|] == r && t[..i] == s[..i];
      assert Targets(s[..i], n) <==> Targets(r, n);
    }
    forall x | x in q
      ensures x.amount == Sat(SumAt(t, x.target))
    {
      SumNext(s[..i], w, x.target);
    }
    assert !Targets(r, w.target) by {
      assert Targets(s[..i], w.target) <==> Targets(r, w.target);
    }
    assert forall x :: x in r ==> x.target != w.target;
    assert forall v :: v in s[..i] ==> v.target != w.target;
    forall x, v | x in q && v in t && x.target == v.target
      ensures x.kind == v.kind
    {
      assert v in s && w in s;
    }
  }

  /** A further weight of the target that the last one of r has. */
  lemma RunOn(s: seq<Weight>, l: nat, r: seq<Weight>, w: Weight)
    requires l < |s| && AllOk(s) && KindsAgree(s) && Combines(s[..l], r + [w]) && Increasing(r + [w])
    requires s[l].target == w.target && w.amount > 0
    ensures Combines(s[..l + 1], r + [CombineWeight(w, s[l])]) && Increasing(r + [CombineWeight(w, s[l])])
    ensures CombineWeight(w, s[l]).target == w.target && CombineWeight(w, s[l]).amount > 0
  {
    var v := CombineWeight(w, s[l]);
    var q, q', t, t' := r + [w], r + [v], s[..l], s[..l + 1];
    assert t' == t + [s[l]] && s[l] in s;
    assert w in q;
    CombineIsSat(w, s[l], SumAt(t, w.target));
    assert v == w.(amount := Sat(SumAt(t, w.target) + s[l].amount));
    hide CombineWeight, SumAt, Sat;
    forall i, j | 0 <= i < j < |q'|
      ensures q'[i].target < q'[j].target
    {
      assert q[i].target < q[j].target;
    }
    forall n
      ensures Targets(t', n) <==> Targets(q', n)
    {
      TargetsLast(t', n);
      TargetsLast(q', n);
      TargetsLast(q, n);
      assert q'[..|r|] == r && q[..|r|] == r && t'[..l] == t;
      assert Targets(t, n) <==> Targets(q, n);
    }
    forall x | x in q'
      ensures x.amount == Sat(SumAt(t', x.target))
    {
      SumNext(t, s[l], x.target);
      if x in r {
        var k :| 0 <= k < |r| && r[k] == x;
        assert q[k] == x && q[|r|] == w;
        assert x in q;
      }
    }
    KindsOn(s, l, r, w, v);
  }

  lemma KindsOn(s: seq<Weight>, l: nat, r: seq<Weight>, w: Weight, v: Weight)
    requires l < |s| && KindsAgree(s) && Combines(s[..l], r + [w]) && s[l].target == w.target
    requires v.target == w.target && v.kind == w.kind
    ensures forall x, y :: x in r + [v] && y in s[..l + 1] && x.target == y.target ==> x.kind == y.kind
  {
    var t := s[..l];
    assert w in r + [w];
    assert Targets(r + [w], w.target);
    assert Targets(t, w.target);
    var u :| u in t && u.target == w.target;
    assert u in s && s[l] in s;
    assert w.kind == u.kind == s[l].kind;
    forall x, y | x in r + [v] && y in s[..l + 1] && x.target == y.target
      ensures x.kind == y.kind
    {
      assert y in t || y == s[l];
      assert x in r || x == v;
      assert x in r ==> x in r + [w];
      if y in t && x == v {
        assert y in s;
      } else if y == s[l] && x in r {
        assert u.target == x.target;
      }
    }
  }

  /** combineWeightsBySorting: sort, then move each run of one target to the front as one weight. */
  method CombineWeightsBySorting(ws: seq<Weight>) returns (r: seq<Weight>)
    requires AllOk(ws) && KindsAgree(ws)
    ensures Combines(ws, r) && Increasing(r)
  {
    hide Combines, Increasing, CombineWeight, KindsAgree, AllOk, WeightOk, SumAt;
    ghost var s;
    r := SortByTarget(ws);
    s := r;
    SameSorted(ws, s);
    var o, i := 0, 0;
    NothingCompacted(s);
    assert r[..0] == [];
    while i < |r|
      invariant 0 <= o <= i <= |r| == |s|
      invariant r[i..] == s[i..]
      invariant Compacted(s, i, r[..o])
      decreases |r| - i
    {
      RunStart(s, i, r[..o]);
      FirstOk(s, i);
      assert r[i] == s[i];
      ghost var before := r[..o];
      PutBefore(r, s, o, i, r[i]);
      r := r[o := r[i]];
      var l := i + 1;
      assert r[..o + 1] == before + [s[i]];
      while l < |r| && r[i].target == r[l].target
        invariant i < l <= |r| == |s|
        invariant r[..o] == before && r[l..] == s[l..] && r[i].target == s[i].target == r[o].target
        invariant r[o].amount > 0 && Combines(s[..l], before + [r[o]]) && Increasing(before + [r[o]])
      {
        assert r[l] == s[l];
        RunOn(s, l, before, r[o]);
        PutBefore(r, s, o, l, CombineWeight(r[o], r[l]));
        r := r[o := CombineWeight(r[o], r[l])];
        l := l + 1;
      }
      RunEnd(s, i, l, before, r[o]);
      assert r[..o + 1] == before + [r[o]];
      o, i := o + 1, l;
    }
    assert s[..i] == s;
    r := r[..o];
    SortedBack(ws, s, r);
  }

  /** Writing at or before position l leaves what is behind it. */
  lemma PutBefore(r: seq<Weight>, s: seq<Weight>, o: nat, l: nat, w: Weight)
    requires o <= l < |r| == |s| && r[l..] == s[l..]
    ensures r[l] == s[l] && r[o := w][l + 1..] == s[l + 1..] && r[o := w][..o] == r[..o]
  {
    assert r[l + 1..] == r[l..][1..] && s[l + 1..] == s[l..][1..];
  }

  lemma FirstOk(s: seq<Weight>, i: nat)
    requires i < |s| && AllOk(s)
    ensures s[i].amount > 0
  {
    assert WeightOk(s[i]);
  }

  lemma NothingCompacted(s: seq<Weight>)
    ensures Compacted(s, 0, [])
  {
  }

  lemma RunEnd(s: seq<Weight>, i: nat, l: nat, r: seq<Weight>, w: Weight)
    requires i < l <= |s| && Sorted(s) && Compacted(s, i, r) && w.target == s[i].target
    requires Combines(s[..l], r + [w]) && Increasing(r + [w]) && (l < |s| ==> s[l].target != w.target)
    ensures Compacted(s, l, r + [w])
  {
    hide Combines;
    forall x, j | x in r + [w] && l <= j < |s|
      ensures x.target < s[j].target
    {
      assert s[l].target <= s[j].target && s[i].target <= s[l].target;
    }
  }

  lemma SameSorted(ws: seq<Weight>, s: seq<Weight>)
    requires multiset(ws) == multiset(s) && AllOk(ws) && KindsAgree(ws)
    ensures AllOk(s) && KindsAgree(s)
  {
    assert forall w :: w in s <==> w in multiset(s);
    assert forall w :: w in ws <==> w in multiset(ws);
  }

  lemma SortedBack(ws: seq<Weight>, s: seq<Weight>, r: seq<Weight>)
    requires multiset(ws) == multiset(s) && Compacted(s, |s|, r)
    ensures Combines(ws, r) && Increasing(r)
  {
    assert s[..|s|] == s;
    assert forall w :: w in s <==> w in multiset(s);
    assert forall w :: w in ws <==> w in multiset(ws);
    forall n
      ensures Targets(ws, n) <==> Targets(s, n)
      ensures SumAt(ws, n) == SumAt(s, n)
    {
      SumPermuted(ws, s, n);
    }
    hide SumAt;
    forall n
      ensures Targets(ws, n) <==> Targets(r, n)
    {
      assert Targets(s, n) <==> Targets(r, n);
    }
  }

  // ---------- Combining by hashing ----------

  /** What the hash table holds after the weights ws. */
  ghost predicate Hashed(ws: seq<Weight>, table: map<Node, Weight>) {
    && (forall n {:trigger Targets(ws, n)} :: Targets(ws, n) <==> n in table)
    && (forall n :: n in table ==> table[n].target == n && table[n].amount == Sat(SumAt(ws, n)) && table[n].amount > 0)
    && (forall n, w :: n in table && w in ws && w.target == n ==> table[n].kind == w.kind)
  }

  function Entry(table: map<Node, Weight>, n: Node): Weight {
    if n in table then table[n] else Weight(Local, 0, 0)
  }

  lemma HashNext(ws: seq<Weight>, table: map<Node, Weight>, i: nat)
    requires i < |ws| && AllOk(ws) && KindsAgree(ws) && Hashed(ws[..i], table)
    ensures Hashed(ws[..i + 1], table[ws[i].target := CombineWeight(Entry(table, ws[i].target), ws[i])])
  {
    var w, t := ws[i], ws[..i];
    var e := CombineWeight(Entry(table, w.target), w);
    assert ws[..i + 1] == t + [w] && w in ws && WeightOk(w);
    assert forall v :: v in t ==> v in ws;
    assert Targets(t, w.target) <==> w.target in table;
    if w.target in table {
      CombineIsSat(table[w.target], w, SumAt(t, w.target));
      var v :| v in t && v.target == w.target;
      assert table[w.target].kind == v.kind == w.kind;
    } else {
      NoTarget(t, w.target);
      assert forall v :: v in t ==> v.target != w.target;
    }
    SumNext(t, w, w.target);
    assert e.target == w.target && e.amount == Sat(SumAt(t, w.target) + w.amount) && e.kind == w.kind;
    HashPut(ws, table, i, e);
  }

  lemma HashPut(ws: seq<Weight>, table: map<Node, Weight>, i: nat, e: Weight)
    requires i < |ws| && AllOk(ws) && KindsAgree(ws) && Hashed(ws[..i], table)
    requires e.target == ws[i].target && e.kind == ws[i].kind && e.amount > 0
    requires e.amount == Sat(SumAt(ws[..i], e.target) + ws[i].amount)
    ensures Hashed(ws[..i + 1], table[ws[i].target := e])
  {
    hide CombineWeight, Sat;
    var w, t, u := ws[i], ws[..i], table[ws[i].target := e];
    assert ws[..i + 1] == t + [w] && w in ws;
    assert forall v :: v in t ==> v in ws;
    forall n
      ensures Targets(t + [w], n) <==> n in u
      ensures n in u ==> u[n].target == n && u[n].amount == Sat(SumAt(t + [w], n)) && u[n].amount > 0
    {
      TargetsLast(t + [w], n);
      assert (t + [w])[..i] == t;
      SumNext(t, w, n);
      assert Targets(t, n) <==> n in table;
    }
    forall n, v | n in u && v in t + [w] && v.target == n
      ensures u[n].kind == v.kind
    {
      assert v in ws;
    }
  }

  /** combineWeightsByHashing. The order in which a hash table is read is arbitrary. */
  method CombineWeightsByHashing(ws: seq<Weight>) returns (r: seq<Weight>)
    requires AllOk(ws) && KindsAgree(ws)
    ensures Combines(ws, r)
  {
    hide CombineWeight, Hashed, Read, Combines, AllOk, KindsAgree, SumAt;
    var table: map<Node, Weight> := map[];
    NothingHashed();
    assert ws[..0] == [];
    for i := 0 to |ws|
      invariant Hashed(ws[..i], table)
    {
      HashNext(ws, table, i);
      table := table[ws[i].target := CombineWeight(Entry(table, ws[i].target), ws[i])];
    }
    assert ws[..|ws|] == ws;
    if |ws| == |table| {
      AllDistinct(ws, table);
      return ws;
    }
    r := [];
    var rest := table;
    NothingRead(ws, table);
    while |rest| > 0
      invariant Read(table, rest, r)
      decreases |rest|
    {
      var n :| n in rest;
      ReadNext(table, rest, r, n);
      r := r + [rest[n]];
      rest := rest - {n};
    }
    AllRead(ws, table, r);
  }

  lemma NothingHashed()
    ensures Hashed([], map[])
  {
  }

  /** r has been read from the table, and rest is left. */
  ghost predicate Read(table: map<Node, Weight>, rest: map<Node, Weight>, r: seq<Weight>) {
    && Distinct(r)
    && (forall x :: x in r ==> x.target in table && x == table[x.target] && x.target !in rest)
    && (forall n :: n in rest ==> n in table && rest[n] == table[n])
    && (forall n :: n in table && n !in rest ==> table[n] in r)
    && (forall n :: n in table ==> table[n].target == n)
  }

  lemma NothingRead(ws: seq<Weight>, table: map<Node, Weight>)
    requires Hashed(ws, table)
    ensures Read(table, table, [])
  {
  }

  lemma ReadNext(table: map<Node, Weight>, rest: map<Node, Weight>, r: seq<Weight>, n: Node)
    requires Read(table, rest, r) && n in rest
    ensures Read(table, rest - {n}, r + [rest[n]])
  {
    var q := r + [rest[n]];
    assert forall i :: 0 <= i < |r| ==> r[i] in r;
    forall m | m in table && m !in rest - {n}
      ensures table[m] in q
    {
      assert m !in rest ==> table[m] in r;
      assert q[|r|] == table[n];
    }
  }

  lemma AllRead(ws: seq<Weight>, table: map<Node, Weight>, r: seq<Weight>)
    requires Hashed(ws, table) && Read(table, map[], r)
    ensures Combines(ws, r)
  {
    hide SumAt;
    forall n
      ensures Targets(ws, n) <==> Targets(r, n)
    {
      assert Targets(ws, n) <==> n in table;
      if n in table {
        assert table[n] in r;
      }
    }
  }

  ghost function TargetSet(ws: seq<Weight>): set<Node> { set w | w in ws :: w.target }

  lemma {:induction false} FewTargets(ws: seq<Weight>)
    ensures |TargetSet(ws)| <= |ws|
    ensures |TargetSet(ws)| == |ws| ==> Distinct(ws)
    decreases |ws|
  {
    if ws != [] {
      var k := |ws| - 1;
      FewTargets(ws[..k]);
      assert ws == ws[..k] + [ws[k]];
      assert TargetSet(ws) == TargetSet(ws[..k]) + {ws[k].target};
      if |TargetSet(ws)| == |ws| {
        assert ws[k].target !in TargetSet(ws[..k]);
        assert forall i :: 0 <= i < k ==> ws[i] in ws[..k];
      }
    }
  }

  lemma {:induction false} AloneSum(ws: seq<Weight>, k: nat)
    requires Distinct(ws) && k < |ws|
    ensures SumAt(ws, ws[k].target) == ws[k].amount
    decreases |ws|
  {
    var n := |ws| - 1;
    if k < n {
      AloneSum(ws[..n], k);
    } else {
      NotBefore(ws);
      NoTarget(ws[..n], ws[n].target);
    }
  }

  lemma AllDistinct(ws: seq<Weight>, table: map<Node, Weight>)
    requires Hashed(ws, table) && |ws| == |table| && AllOk(ws)
    ensures Combines(ws, ws)
  {
    forall n
      ensures n in TargetSet(ws) <==> n in table
    {
      assert Targets(ws, n) <==> n in table;
    }
    assert TargetSet(ws) == table.Keys;
    assert |table| == |table.Keys|;
    FewTargets(ws);
    forall x | x in ws
      ensures x.amount == Sat(SumAt(ws, x.target))
    {
      var k :| 0 <= k < |ws| && ws[k] == x;
      AloneSum(ws, k);
      assert WeightOk(x);
    }
  }
}
