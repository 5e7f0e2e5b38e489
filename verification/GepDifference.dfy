/**
 The difference of two decomposed pointers, and the part of BasicAAResult::aliasGEP
 for two getelementptrs whose bases must-alias.
 */
module GepDifference {
  import opened Arith
  import opened GepValues
  import opened GepLinear
  import opened GepDecompose
  import opened GepAlias

  /** What extended variables are worth. */
  type Valuation = (Value, nat) -> int

  function Worth(f: Valuation, x: VarIndex): int { x.scale * f(x.v, x.zext) }

  function Total(f: Valuation, vars: seq<VarIndex>): int {
    if vars == [] then 0 else Total(f, vars[..|vars| - 1]) + Worth(f, vars[|vars| - 1])
  }

  lemma {:induction false} TotalAppend(f: Valuation, a: seq<VarIndex>, b: seq<VarIndex>)
    ensures Total(f, a + b) == Total(f, a) + Total(f, b)
    decreases |b|
  {
    if b == [] {
      assert a + b == a;
    } else {
      var n := |b| - 1;
      assert (a + b)[..|a + b| - 1] == a + b[..n];
      TotalAppend(f, a, b[..n]);
    }
  }

  lemma TotalOne(f: Valuation, x: VarIndex)
    ensures Total(f, [x]) == Worth(f, x)
  {
    assert [x][..0] == [];
  }

  lemma TotalAt(f: Valuation, vars: seq<VarIndex>, i: nat)
    requires i < |vars|
    ensures Total(f, vars) == Total(f, vars[..i]) + Worth(f, vars[i]) + Total(f, vars[i + 1..])
  {
    assert vars == vars[..i] + ([vars[i]] + vars[i + 1..]);
    TotalAppend(f, vars[..i], [vars[i]] + vars[i + 1..]);
    TotalAppend(f, [vars[i]], vars[i + 1..]);
    TotalOne(f, vars[i]);
  }

  lemma TotalPut(f: Valuation, vars: seq<VarIndex>, i: nat, x: VarIndex)
    requires i < |vars|
    ensures Total(f, vars[i := x]) == Total(f, vars) - Worth(f, vars[i]) + Worth(f, x)
  {
    TotalAt(f, vars, i);
    TotalAt(f, vars[i := x], i);
    assert vars[i := x][..i] == vars[..i] && vars[i := x][i + 1..] == vars[i + 1..];
  }

  lemma TotalDrop(f: Valuation, vars: seq<VarIndex>, i: nat)
    requires i < |vars|
    ensures Total(f, vars[..i] + vars[i + 1..]) == Total(f, vars) - Worth(f, vars[i])
  {
    TotalAt(f, vars, i);
    TotalAppend(f, vars[..i], vars[i + 1..]);
  }

  predicate InInt64(x: int) { -Pow2(63) <= x < Pow2(63) }

  ghost predicate AllInt64(vars: seq<VarIndex>) {
    forall i :: 0 <= i < |vars| ==> InInt64(vars[i].scale) && vars[i].scale != 0
  }

  /** Subtracting x from dest, and negating it, stays in 64 bits. */
  ghost predicate FitsOne(dest: seq<VarIndex>, x: VarIndex) {
    InInt64(-x.scale) && forall j :: 0 <= j < |dest| && SameKey(dest[j], x) ==> InInt64(dest[j].scale - x.scale)
  }

  /** out is dest less x: modulo 2^64, and exactly if nothing overflows. */
  ghost predicate Less(dest: seq<VarIndex>, out: seq<VarIndex>, x: VarIndex) {
    && (forall f: Valuation {:trigger Total(f, out)} :: Congruent(Total(f, out), Total(f, dest) - Worth(f, x), Pow2(64)))
    && (FitsOne(dest, x) ==> forall f: Valuation {:trigger Total(f, out)} :: Total(f, out) == Total(f, dest) - Worth(f, x))
  }

  lemma WrapFits(x: int)
    ensures InInt64(Wrap64(x)) && Congruent(Wrap64(x), x, Pow2(64))
    ensures InInt64(x) ==> Wrap64(x) == x
  {
    SignedIs(x, 64);
    if InInt64(x) {
      SignedUnique(x, x, 64);
    }
  }

  lemma WrapNonZero(x: int)
    requires -Pow2(64) < x < Pow2(64) && x != 0
    ensures Wrap64(x) != 0
  {
    SignedIs(x, 64);
    if Wrap64(x) == 0 {
      var k := CongruentApart(0, x, Pow2(64));
      assert Pow2(64) * -k == -(Pow2(64) * k);
      SmallMultiple(Pow2(64), -k, x);
    }
  }

  lemma Rescaled(v: int, s: int, t: int, m: int)
    requires m > 0 && Congruent(s, t, m)
    ensures Congruent(s * v, t * v, m)
  {
    CongruentMul(s, t, v, v, m);
  }

  lemma LessPut(dest: seq<VarIndex>, j: nat, x: VarIndex)
    requires j < |dest| && SameKey(dest[j], x)
    ensures Less(dest, dest[j := dest[j].(scale := Wrap64(dest[j].scale - x.scale))], x)
  {
    var s := dest[j].scale - x.scale;
    var y := dest[j].(scale := Wrap64(s));
    WrapFits(s);
    hide Wrap64, Congruent, InInt64, Total, Pow2;
    forall f: Valuation
      ensures Congruent(Total(f, dest[j := y]), Total(f, dest) - Worth(f, x), Pow2(64))
      ensures FitsOne(dest, x) ==> Total(f, dest[j := y]) == Total(f, dest) - Worth(f, x)
    {
      TotalPut(f, dest, j, y);
      var v := f(x.v, x.zext);
      TimesDifference(dest[j].scale, x.scale, v);
      Rescaled(v, y.scale, s, Pow2(64));
      PlusCongruent(Total(f, dest) - Worth(f, dest[j]), y.scale * v, s * v, Pow2(64));
    }
  }

  lemma TimesDifference(a: int, b: int, v: int)
    ensures (a - b) * v == a * v - b * v
  {
  }

  lemma PlusCongruent(a: int, b: int, c: int, m: int)
    requires m > 0 && Congruent(b, c, m)
    ensures Congruent(a + b, a + c, m)
  {
    CongruentAdd(a, a, b, c, m);
  }

  lemma LessDrop(dest: seq<VarIndex>, j: nat, x: VarIndex)
    requires j < |dest| && SameKey(dest[j], x) && dest[j].scale == x.scale
    ensures Less(dest, dest[..j] + dest[j + 1..], x)
  {
    hide Total, Pow2;
    forall f: Valuation
      ensures Total(f, dest[..j] + dest[j + 1..]) == Total(f, dest) - Worth(f, x)
    {
      TotalDrop(f, dest, j);
    }
  }

  lemma LessPush(dest: seq<VarIndex>, x: VarIndex)
    ensures Less(dest, dest + [x.(scale := Wrap64(-x.scale))], x)
  {
    var y := x.(scale := Wrap64(-x.scale));
    WrapFits(-x.scale);
    hide Wrap64, Congruent, InInt64, Total, Pow2;
    forall f: Valuation
      ensures Congruent(Total(f, dest + [y]), Total(f, dest) - Worth(f, x), Pow2(64))
      ensures FitsOne(dest, x) ==> Total(f, dest + [y]) == Total(f, dest) - Worth(f, x)
    {
      TotalAppend(f, dest, [y]);
      TotalOne(f, y);
      var v := f(x.v, x.zext);
      assert -x.scale * v == -(x.scale * v);
      Rescaled(v, y.scale, -x.scale, Pow2(64));
      PlusCongruent(Total(f, dest), y.scale * v, -x.scale * v, Pow2(64));
    }
  }

  /** Every variable of out is one of dest, or x with another scale. */
  ghost predicate FromOrLike(dest: seq<VarIndex>, out: seq<VarIndex>, x: VarIndex) {
    forall k :: 0 <= k < |out| ==> out[k] in dest || (SameKey(out[k], x) && out[k].scale != 0 && InInt64(out[k].scale))
  }

  /** No variable that may be compared appears twice. */
  ghost predicate DistinctWhere(vars: seq<VarIndex>, acyclic: Value -> bool) {
    forall i, j :: 0 <= i < j < |vars| && SameKey(vars[i], vars[j]) ==> !acyclic(vars[i].v)
  }

  lemma DistinctPut(vars: seq<VarIndex>, j: nat, scale: int, acyclic: Value -> bool)
    requires DistinctWhere(vars, acyclic) && j < |vars|
    ensures DistinctWhere(vars[j := vars[j].(scale := scale)], acyclic)
  {
  }

  lemma DistinctDrop(vars: seq<VarIndex>, j: nat, acyclic: Value -> bool)
    requires DistinctWhere(vars, acyclic) && j < |vars|
    ensures DistinctWhere(vars[..j] + vars[j + 1..], acyclic)
  {
    var rest := vars[..j] + vars[j + 1..];
    assert forall i :: 0 <= i < |rest| ==> rest[i] == vars[if i < j then i else i + 1];
  }

  lemma DistinctPush(vars: seq<VarIndex>, x: VarIndex, acyclic: Value -> bool)
    requires DistinctWhere(vars, acyclic) && forall i :: 0 <= i < |vars| ==> !(SameKey(vars[i], x) && acyclic(x.v))
    ensures DistinctWhere(vars + [x], acyclic)
  {
  }

  /** One turn of the outer loop of GetIndexDifference. */
  method SubtractOne(dest: seq<VarIndex>, x: VarIndex, acyclic: Value -> bool) returns (out: seq<VarIndex>)
    requires AllInt64(dest) && InInt64(x.scale) && x.scale != 0
    ensures AllInt64(out) && Less(dest, out, x) && FromOrLike(dest, out, x)
    ensures DistinctWhere(dest, acyclic) ==> DistinctWhere(out, acyclic)
  {
    hide Wrap64, InInt64, Less, Pow2, DistinctWhere;
    var j := 0;
    while j < |dest|
      invariant 0 <= j <= |dest|
      invariant forall i :: 0 <= i < j ==> !(SameKey(dest[i], x) && acyclic(x.v))
    {
      if dest[j].v == x.v && acyclic(x.v) && dest[j].zext == x.zext {
        if dest[j].scale != x.scale {
          ScaleFacts(dest[j].scale, x.scale);
          LessPut(dest, j, x);
          if DistinctWhere(dest, acyclic) {
            DistinctPut(dest, j, Wrap64(dest[j].scale - x.scale), acyclic);
          }
          return dest[j := dest[j].(scale := Wrap64(dest[j].scale - x.scale))];
        }
        LessDrop(dest, j, x);
        if DistinctWhere(dest, acyclic) {
          DistinctDrop(dest, j, acyclic);
        }
        return dest[..j] + dest[j + 1..];
      }
      j := j + 1;
    }
    ScaleFacts(0, x.scale);
    LessPush(dest, x);
    if DistinctWhere(dest, acyclic) {
      DistinctPush(dest, VarIndex(x.v, x.zext, Wrap64(-x.scale)), acyclic);
    }
    return dest + [VarIndex(x.v, x.zext, Wrap64(-x.scale))];
  }

  lemma ScaleFacts(s: int, t: int)
    requires (InInt64(s) || s == 0) && InInt64(t) && s != t
    ensures Wrap64(s - t) != 0 && InInt64(Wrap64(s - t))
  {
    WrapFits(s - t);
    WrapNonZero(s - t);
  }

  /** No subtraction or negation of scales overflows. */
  ghost predicate Fits(dest: seq<VarIndex>, src: seq<VarIndex>) {
    forall i :: 0 <= i < |src| ==> FitsOne(dest, src[i])
  }

  ghost predicate DistinctKeys(vars: seq<VarIndex>) {
    forall i, j :: 0 <= i < j < |vars| ==> !SameKey(vars[i], vars[j])
  }

  /** out is dest less src. */
  ghost predicate Differs(dest: seq<VarIndex>, out: seq<VarIndex>, src: seq<VarIndex>) {
    forall f: Valuation {:trigger Total(f, out)} :: Congruent(Total(f, out), Total(f, dest) - Total(f, src), Pow2(64))
  }

  ghost predicate DiffersExactly(dest: seq<VarIndex>, out: seq<VarIndex>, src: seq<VarIndex>) {
    forall f: Valuation {:trigger Total(f, out)} :: Total(f, out) == Total(f, dest) - Total(f, src)
  }

  /** Every variable of out is one of dest, or has the key of one of src. */
  ghost predicate FromBoth(dest: seq<VarIndex>, out: seq<VarIndex>, src: seq<VarIndex>) {
    forall k :: 0 <= k < |out| ==> out[k] in dest || LikeSome(out[k], src)
  }

  ghost predicate LikeSome(x: VarIndex, src: seq<VarIndex>) {
    exists i :: 0 <= i < |src| && SameKey(x, src[i])
  }

  lemma FromBothStep(dest: seq<VarIndex>, mid: seq<VarIndex>, out: seq<VarIndex>, src: seq<VarIndex>, i: nat)
    requires i < |src| && FromBoth(dest, mid, src[..i]) && FromOrLike(mid, out, src[i])
    ensures FromBoth(dest, out, src[..i + 1])
  {
    forall k | 0 <= k < |out| && out[k] !in dest
      ensures LikeSome(out[k], src[..i + 1])
    {
      if out[k] in mid {
        assert LikeSome(out[k], src[..i]);
        var j :| 0 <= j < i && SameKey(out[k], src[..i][j]);
        assert SameKey(out[k], src[..i + 1][j]);
      } else {
        assert SameKey(out[k], src[..i + 1][i]);
      }
    }
  }

  /** The variables that are left to be subtracted still meet those of dest as they were. */
  lemma FitsLater(dest: seq<VarIndex>, mid: seq<VarIndex>, src: seq<VarIndex>, i: nat)
    requires i < |src| && Fits(dest, src) && DistinctKeys(src) && FromBoth(dest, mid, src[..i])
    ensures FitsOne(mid, src[i])
  {
    assert FitsOne(dest, src[i]);
    hide InInt64;
    forall j | 0 <= j < |mid| && SameKey(mid[j], src[i])
      ensures InInt64(mid[j].scale - src[i].scale)
    {
      NotLike(mid[j], src, i);
      assert mid[j] in dest;
    }
  }

  lemma NotLike(y: VarIndex, src: seq<VarIndex>, i: nat)
    requires i < |src| && DistinctKeys(src) && SameKey(y, src[i])
    ensures !LikeSome(y, src[..i])
  {
    forall k | 0 <= k < i
      ensures !SameKey(y, src[..i][k])
    {
      assert !SameKey(src[k], src[i]);
    }
  }

  lemma DiffersStep(dest: seq<VarIndex>, mid: seq<VarIndex>, out: seq<VarIndex>, src: seq<VarIndex>, i: nat)
    requires i < |src| && Less(mid, out, src[i])
    ensures Differs(dest, mid, src[..i]) ==> Differs(dest, out, src[..i + 1])
    ensures DiffersExactly(dest, mid, src[..i]) && FitsOne(mid, src[i]) ==> DiffersExactly(dest, out, src[..i + 1])
  {
    hide Congruent, Worth, Pow2, FitsOne;
    forall f: Valuation
      ensures Differs(dest, mid, src[..i]) ==>
                Congruent(Total(f, out), Total(f, dest) - Total(f, src[..i + 1]), Pow2(64))
      ensures DiffersExactly(dest, mid, src[..i]) && FitsOne(mid, src[i]) ==>
                Total(f, out) == Total(f, dest) - Total(f, src[..i + 1])
    {
      TotalNext(f, src, i);
      if Differs(dest, mid, src[..i]) {
        MinusCongruent(Total(f, out), Total(f, mid), Total(f, dest) - Total(f, src[..i]), Worth(f, src[i]), Pow2(64));
      }
    }
  }

  lemma TotalNext(f: Valuation, src: seq<VarIndex>, i: nat)
    requires i < |src|
    ensures Total(f, src[..i + 1]) == Total(f, src[..i]) + Worth(f, src[i])
  {
    assert src[..i + 1][..i] == src[..i];
  }

  lemma MinusCongruent(out: int, mid: int, want: int, k: int, m: int)
    requires m > 0 && Congruent(out, mid - k, m) && Congruent(mid, want, m)
    ensures Congruent(out, want - k, m)
  {
    CongruentAdd(mid, want, -k, -k, m);
  }

  /** BasicAAResult::GetIndexDifference. */
  method GetIndexDifference(dest: seq<VarIndex>, src: seq<VarIndex>, acyclic: Value -> bool) returns (out: seq<VarIndex>)
    requires AllInt64(dest) && AllInt64(src) && DistinctKeys(src)
    ensures AllInt64(out) && FromBoth(dest, out, src)
    ensures Differs(dest, out, src)
    ensures Fits(dest, src) ==> DiffersExactly(dest, out, src)
    ensures DistinctKeys(dest) ==> DistinctWhere(out, acyclic)
  {
    assert DistinctKeys(dest) ==> DistinctWhere(dest, acyclic);
    hide Less, Differs, DiffersExactly, FromBoth, FromOrLike, Fits, DistinctKeys, DistinctWhere;
    out := dest;
    NothingYet(dest);
    assert src[..0] == [];
    for i := 0 to |src|
      invariant AllInt64(out) && FromBoth(dest, out, src[..i])
      invariant Differs(dest, out, src[..i])
      invariant Fits(dest, src) ==> DiffersExactly(dest, out, src[..i])
      invariant DistinctKeys(dest) ==> DistinctWhere(out, acyclic)
    {
      ghost var mid := out;
      out := SubtractOne(out, src[i], acyclic);
      if Fits(dest, src) {
        FitsLater(dest, mid, src, i);
      }
      DiffersStep(dest, mid, out, src, i);
      FromBothStep(dest, mid, out, src, i);
    }
    assert src[..|src|] == src;
  }

  lemma NothingYet(dest: seq<VarIndex>)
    ensures Differs(dest, dest, []) && DiffersExactly(dest, dest, []) && FromBoth(dest, dest, [])
  {
    assert forall f: Valuation :: Total(f, []) == 0;
  }

  /** What tells how much there is of one variable. */
  function Indicator(v: Value, zext: nat): Valuation { (u, z) => if u == v && z == zext then 1 else 0 }

  lemma {:induction false} TotalIsCoefficient(vars: seq<VarIndex>, v: Value, zext: nat)
    ensures Total(Indicator(v, zext), vars) == Coefficient(vars, v, zext)
    decreases |vars|
  {
    if vars != [] {
      TotalIsCoefficient(vars[..|vars| - 1], v, zext);
    }
  }

  lemma CoefficientsDiffer(dest: seq<VarIndex>, out: seq<VarIndex>, src: seq<VarIndex>, v: Value, zext: nat)
    requires Differs(dest, out, src)
    ensures Congruent(Coefficient(out, v, zext), Coefficient(dest, v, zext) - Coefficient(src, v, zext), Pow2(64))
  {
    TotalIsCoefficient(dest, v, zext);
    TotalIsCoefficient(out, v, zext);
    TotalIsCoefficient(src, v, zext);
    hide Total, Coefficient, Pow2, Congruent, Indicator;
    var f := Indicator(v, zext);
    assert Congruent(Total(f, out), Total(f, dest) - Total(f, src), Pow2(64));
  }

  // ---------- Two pointers over one base ----------

  function Readings(env: Env): Valuation { (v: Value, zext: nat) => Reading(env, v, zext) }

  lemma {:induction false} TotalIsRead(env: Env, vars: seq<VarIndex>)
    ensures Total(Readings(env), vars) == SumRead(env, vars)
    decreases |vars|
  {
    if vars != [] {
      TotalIsRead(env, vars[..|vars| - 1]);
    }
  }

  /** Reading variables as signed or extended numbers makes no difference modulo the size of a pointer. */
  lemma {:induction false} ReadIsSum(env: Env, vars: seq<VarIndex>, bits: nat)
    requires bits >= 1 && forall i :: 0 <= i < |vars| ==> Proper(vars[i], bits)
    ensures Congruent(SumRead(env, vars), SumOf(env, vars), Pow2(bits))
    decreases |vars|
  {
    if vars != [] {
      var n := |vars| - 1;
      var x := vars[n];
      ReadIsSum(env, vars[..n], bits);
      assert Proper(x, bits);
      if x.zext == 0 {
        SignedIs(Eval(env, x.v), bits);
      }
      hide Signed, Pow2, Eval;
      assert Congruent(Reading(env, x.v, x.zext), Eval(env, x.v), Pow2(bits));
      hide Reading;
      CongruentMul(x.scale, x.scale, Reading(env, x.v, x.zext), Eval(env, x.v), Pow2(bits));
      CongruentAdd(SumRead(env, vars[..n]), SumOf(env, vars[..n]), ReadTerm(env, x), Term(env, x), Pow2(bits));
    }
  }

  lemma TidyIs(vars: seq<VarIndex>, bits: nat)
    requires 1 <= bits <= 64 && Tidy(vars, bits)
    ensures AllInt64(vars) && DistinctKeys(vars) && forall i :: 0 <= i < |vars| ==> Proper(vars[i], bits)
  {
    Pow2Grows(bits - 1, 63);
    hide Pow2;
  }

  lemma UsableOut(dest: seq<VarIndex>, out: seq<VarIndex>, src: seq<VarIndex>, bits: nat)
    requires bits >= 1 && AllInt64(out) && FromBoth(dest, out, src)
    requires forall i :: 0 <= i < |dest| ==> Proper(dest[i], bits)
    requires forall i :: 0 <= i < |src| ==> Proper(src[i], bits)
    ensures Usable(out, bits)
  {
    hide Pow2, Wf;
    forall k | 0 <= k < |out|
      ensures Wf(out[k].v) && Width(out[k].v) + out[k].zext == bits && Width(out[k].v) > 0
    {
      if out[k] in dest {
        var j :| 0 <= j < |dest| && out[k] == dest[j];
        assert Proper(dest[j], bits);
        WidthPositive(out[k].v);
      } else {
        assert LikeSome(out[k], src);
        var j :| 0 <= j < |src| && SameKey(out[k], src[j]);
        assert Proper(src[j], bits);
        WidthPositive(out[k].v);
      }
    }
  }

  lemma OutDefined(env: Env, dest: seq<VarIndex>, out: seq<VarIndex>, src: seq<VarIndex>)
    requires FromBoth(dest, out, src) && VarsDefined(env, dest) && VarsDefined(env, src)
    ensures VarsDefined(env, out)
  {
    hide Defined;
    forall k | 0 <= k < |out|
      ensures Defined(env, out[k].v)
    {
      if out[k] in dest {
        var j :| 0 <= j < |dest| && out[k] == dest[j];
        assert Defined(env, dest[j].v);
      } else {
        assert LikeSome(out[k], src);
        var j :| 0 <= j < |src| && SameKey(out[k], src[j]);
        assert Defined(env, src[j].v);
      }
    }
  }

  /** In world w the distance of p1 and p2 is base plus the sum of vars, modulo the size of a pointer. */
  ghost predicate AtDistance(w: World, p1: Ptr, p2: Ptr, base: int, vars: seq<VarIndex>, bits: nat) {
    Congruent(Addr(w, p1) - Addr(w, p2), base + SumRead(w.vars, vars), Pow2(bits))
  }

  /** A world in which both pointers are defined and their bases are the same, as a must-alias answer says. */
  ghost predicate Meets(w: World, p1: Ptr, p2: Ptr, known: Masks) {
    && Sound(known, w.vars) && PtrDefined(w, p1) && PtrDefined(w, p2)
    && Addr(w, Peel(p1, MAX_LOOKUP).0) == Addr(w, Peel(p2, MAX_LOOKUP).0)
  }

  lemma DistanceIs(w: World, p1: Ptr, p2: Ptr, d1: Decomposed, d2: Decomposed, base: int, out: seq<VarIndex>, known: Masks, bits: nat)
    requires 1 <= bits <= 64 && Meets(w, p1, p2, known) && Tidy(d1.vars, bits) && Tidy(d2.vars, bits)
    requires d1.base == Peel(p1, MAX_LOOKUP).0 && d2.base == Peel(p2, MAX_LOOKUP).0
    requires ReachesIn(w, p1, d1.base, d1, known, bits) && ReachesIn(w, p2, d2.base, d2, known, bits)
    requires Congruent(base, d1.structOffset + d1.otherOffset - (d2.structOffset + d2.otherOffset), Pow2(bits))
    requires Differs(d1.vars, out, d2.vars)
    ensures AtDistance(w, p1, p2, base, out, bits)
  {
    hide Sound, Pow2, Congruent, Peel, Addr, PtrDefined, SumOf, SumRead, VarsDefined, Tidy;
    var b, m := Addr(w, d1.base), Pow2(bits);
    var c1, c2 := d1.structOffset + d1.otherOffset, d2.structOffset + d2.otherOffset;
    var s1, s2, r1, r2 := SumOf(w.vars, d1.vars), SumOf(w.vars, d2.vars), SumRead(w.vars, d1.vars), SumRead(w.vars, d2.vars);
    TidyIs(d1.vars, bits);
    TidyIs(d2.vars, bits);
    ReadIsSum(w.vars, d1.vars, bits);
    ReadIsSum(w.vars, d2.vars, bits);
    OutIs(w.vars, d1.vars, out, d2.vars, bits);
    Assemble(Addr(w, p1), Addr(w, p2), b, c1, c2, s1, s2, r1, r2, base, SumRead(w.vars, out), m);
  }

  lemma OutIs(env: Env, dest: seq<VarIndex>, out: seq<VarIndex>, src: seq<VarIndex>, bits: nat)
    requires bits <= 64 && Differs(dest, out, src)
    ensures Congruent(SumRead(env, out), SumRead(env, dest) - SumRead(env, src), Pow2(bits))
  {
    TotalIsRead(env, dest);
    TotalIsRead(env, src);
    TotalIsRead(env, out);
    hide SumRead, Readings, Congruent, Pow2;
    var f := Readings(env);
    assert Congruent(Total(f, out), Total(f, dest) - Total(f, src), Pow2(64));
    Narrow(Total(f, out), Total(f, dest) - Total(f, src), bits, 64);
  }

  lemma Assemble(a1: int, a2: int, b: int, c1: int, c2: int, s1: int, s2: int, r1: int, r2: int, base: int, out: int, m: int)
    requires m > 0 && Congruent(a1, b + (c1 + s1), m) && Congruent(a2, b + (c2 + s2), m)
    requires Congruent(r1, s1, m) && Congruent(r2, s2, m) && Congruent(base, c1 - c2, m) && Congruent(out, r1 - r2, m)
    ensures Congruent(a1 - a2, base + out, m)
  {
    CongruentAdd(a1, b + (c1 + s1), a2, b + (c2 + s2), m);
    CongruentAdd(r1, s1, r2, s2, m);
    CongruentTrans(out, r1 - r2, s1 - s2, m);
    CongruentAdd(base, c1 - c2, out, s1 - s2, m);
    hide Congruent;
    assert b + (c1 + s1) - (b + (c2 + s2)) == c1 - c2 + (s1 - s2);
    CongruentBack(base + out, c1 - c2 + (s1 - s2), m);
    CongruentTrans(a1 - a2, c1 - c2 + (s1 - s2), base + out, m);
  }

  /** base and vars are what p1 brings less what p2 brings, with variables merged that may be compared. */
  ghost predicate DifferenceOf(p1: Ptr, p2: Ptr, base: int, vars: seq<VarIndex>, known: Masks, acyclic: Value -> bool, bits: nat)
    requires bits >= 1 && PtrWf(p1, bits) && PtrWf(p2, bits)
  {
    && InInt64(base) && AllInt64(vars) && DistinctWhere(vars, acyclic)
    && Congruent(base, PtrAmount(known, p1, MAX_LOOKUP, Constant, bits) - PtrAmount(known, p2, MAX_LOOKUP, Constant, bits), Pow2(bits))
    && forall v, z {:trigger Coefficient(vars, v, z)} ::
         Congruent(Coefficient(vars, v, z),
                   PtrAmount(known, p1, MAX_LOOKUP, Of(v, z), bits) - PtrAmount(known, p2, MAX_LOOKUP, Of(v, z), bits), Pow2(bits))
  }

  lemma DifferenceIs(p1: Ptr, p2: Ptr, d1: Decomposed, d2: Decomposed, base: int, vars: seq<VarIndex>, known: Masks, acyclic: Value -> bool, bits: nat)
    requires 1 <= bits <= 64 && PtrWf(p1, bits) && PtrWf(p2, bits)
    requires Exact(d1, known, p1, bits) && Exact(d2, known, p2, bits) && Differs(d1.vars, vars, d2.vars)
    requires InInt64(base) && AllInt64(vars) && DistinctWhere(vars, acyclic)
    requires Congruent(base, d1.structOffset + d1.otherOffset - (d2.structOffset + d2.otherOffset), Pow2(bits))
    ensures DifferenceOf(p1, p2, base, vars, known, acyclic, bits)
  {
    hide PtrAmount, Coefficient, Congruent, Pow2, Differs, DistinctWhere, InInt64;
    var a1, a2 := PtrAmount(known, p1, MAX_LOOKUP, Constant, bits), PtrAmount(known, p2, MAX_LOOKUP, Constant, bits);
    assert Congruent(Amount(d1, Constant), a1, Pow2(bits)) && Congruent(Amount(d2, Constant), a2, Pow2(bits));
    MinusBoth(base, Amount(d1, Constant), a1, Amount(d2, Constant), a2, Pow2(bits));
    forall v, z
      ensures Congruent(Coefficient(vars, v, z),
                        PtrAmount(known, p1, MAX_LOOKUP, Of(v, z), bits) - PtrAmount(known, p2, MAX_LOOKUP, Of(v, z), bits), Pow2(bits))
    {
      var b1, b2 := PtrAmount(known, p1, MAX_LOOKUP, Of(v, z), bits), PtrAmount(known, p2, MAX_LOOKUP, Of(v, z), bits);
      assert Congruent(Amount(d1, Of(v, z)), b1, Pow2(bits)) && Congruent(Amount(d2, Of(v, z)), b2, Pow2(bits));
      CoefficientsDiffer(d1.vars, vars, d2.vars, v, z);
      Narrow(Coefficient(vars, v, z), Coefficient(d1.vars, v, z) - Coefficient(d2.vars, v, z), bits, 64);
      MinusBoth(Coefficient(vars, v, z), Amount(d1, Of(v, z)), b1, Amount(d2, Of(v, z)), b2, Pow2(bits));
    }
  }

  lemma MinusBoth(x: int, c1: int, a1: int, c2: int, a2: int, m: int)
    requires m > 0 && Congruent(x, c1 - c2, m) && Congruent(c1, a1, m) && Congruent(c2, a2, m)
    ensures Congruent(x, a1 - a2, m)
  {
    CongruentAdd(c1, a1, c2, a2, m);
  }

  /** Two pointers that are decomposed alike must-alias, if values may be compared: nothing is left of their difference. */
  lemma SameMustAlias(p1: Ptr, p2: Ptr, r: AliasResult, base: int, vars: seq<VarIndex>, size1: nat, size2: nat, signs: Signs, known: Masks,
                      acyclic: Value -> bool)
    requires PtrWf(p1, 64) && PtrWf(p2, 64) && DifferenceOf(p1, p2, base, vars, known, acyclic, 64)
    requires AnswerIs(r, base, vars, size1, size2, signs, known, acyclic) && forall v :: acyclic(v)
    requires forall q :: PtrAmount(known, p1, MAX_LOOKUP, q, 64) == PtrAmount(known, p2, MAX_LOOKUP, q, 64)
    ensures r == MustAlias
  {
    hide PtrAmount, ApartModulo, NoneNegative, ConstantOffsetHeuristic;
    NothingLeft(base);
    if vars != [] {
      var x := vars[0];
      OneOfEach(vars, acyclic);
      assert Congruent(Coefficient(vars, x.v, x.zext), 0, Pow2(64));
      hide Coefficient, DistinctWhere;
      NothingLeft(x.scale);
      assert false;
    }
  }

  lemma NothingLeft(x: int)
    requires InInt64(x)
    ensures Congruent(x, 0, Pow2(64)) ==> x == 0
  {
    if Congruent(x, 0, Pow2(64)) {
      var k := CongruentApart(x, 0, Pow2(64));
      SmallMultiple(Pow2(64), k, x);
    }
  }

  lemma OneOfEach(vars: seq<VarIndex>, acyclic: Value -> bool)
    requires vars != [] && DistinctWhere(vars, acyclic) && forall v :: acyclic(v)
    ensures Coefficient(vars, vars[0].v, vars[0].zext) == vars[0].scale
  {
    var x, rest := vars[0], vars[1..];
    assert vars == [x] + rest;
    CoefficientAppend([x], rest, x.v, x.zext);
    CoefficientOne(x, x.v, x.zext);
    forall i | 0 <= i < |rest| ensures rest[i].v != x.v || rest[i].zext != x.zext {
      assert rest[i] == vars[i + 1] && acyclic(x.v);
      assert !SameKey(vars[0], vars[i + 1]);
    }
    CoefficientFresh(rest, x.v, x.zext);
  }

  /**
   aliasGEP, of two getelementptrs whose bases must-alias: it decomposes both, and whatever it
   answers is right for a distance of base plus vars, which is their distance modulo the size
   of a pointer; the heuristic needs sums that do not wrap around. The answer is the one that
   AnswerIs says for what p1 brings less what p2 brings.
   */
  method AliasOverBase(p1: Ptr, p2: Ptr, size1: nat, size2: nat, signs: Signs, known: Masks, acyclic: Value -> bool, bits: nat)
    returns (r: AliasResult, ghost rule: Rule, ghost base: int, ghost vars: seq<VarIndex>)
    requires 1 <= bits <= 64 && PtrWf(p1, bits) && PtrWf(p2, bits) && size1 <= UNKNOWN && size2 <= UNKNOWN
    ensures Peel(p1, MAX_LOOKUP).1 || Peel(p2, MAX_LOOKUP).1 ==> r == MayAlias
    ensures !ConstantOffsetHeuristic(vars, size1, size2, base, known, acyclic) || GapSafe(vars, size1, size2, base) ==>
              RightForAll(r, base, vars, size1, size2, signs, known)
    ensures rule != GapRule ==> RightForAll(r, base, vars, size1, size2, signs, known)
    ensures rule.ModuloRule? ==> r == NoAlias && ModuloFits(vars, size1, size2, base, rule.k) && Usable(vars, bits)
    ensures r != MayAlias ==> forall w :: Meets(w, p1, p2, known) ==>
              AtDistance(w, p1, p2, base, vars, bits) && VarsDefined(w.vars, vars)
    ensures Layers(p1) < MAX_LOOKUP && Layers(p2) < MAX_LOOKUP ==>
              DifferenceOf(p1, p2, base, vars, known, acyclic, bits) && AnswerIs(r, base, vars, size1, size2, signs, known, acyclic)
  {
    hide Layers, Exact, DistinctWhere, DifferenceOf, AnswerIs;
    hide Peel, Tidy, Reaches, Meets, AtDistance, Differs, DiffersExactly, FromBoth, Usable, GapSafe, ModuloFits, Wrap64, Pow2, AllInt64, DistinctKeys, Fits;
    rule, base, vars := NoRule, 0, [];
    var d1, limit1 := DecomposeGEPExpression(p1, known, bits);
    var d2, limit2 := DecomposeGEPExpression(p2, known, bits);
    if limit1 || limit2 {
      return MayAlias, NoRule, base, vars;
    }
    TidyIs(d1.vars, bits);
    TidyIs(d2.vars, bits);
    var off1, off2 := Wrap64(d1.structOffset + d1.otherOffset), Wrap64(d2.structOffset + d2.otherOffset);
    var b := Wrap64(off1 - off2);
    var diff := GetIndexDifference(d1.vars, d2.vars, acyclic);
    base, vars := b, diff;
    BaseIs(d1.structOffset + d1.otherOffset, d2.structOffset + d2.otherOffset, bits);
    DifferenceIs(p1, p2, d1, d2, b, diff, known, acyclic, bits);
    UsableOut(d1.vars, diff, d2.vars, bits);
    r, rule := AliasAtDistance(b, diff, size1, size2, signs, known, acyclic, bits);
    forall w | Meets(w, p1, p2, known)
      ensures AtDistance(w, p1, p2, b, diff, bits) && VarsDefined(w.vars, diff)
    {
      MeetsReach(w, p1, p2, d1, d2, known, bits);
      DistanceIs(w, p1, p2, d1, d2, b, diff, known, bits);
      OutDefined(w.vars, d1.vars, diff, d2.vars);
    }
  }

  lemma MeetsReach(w: World, p1: Ptr, p2: Ptr, d1: Decomposed, d2: Decomposed, known: Masks, bits: nat)
    requires Meets(w, p1, p2, known) && Reaches(p1, d1.base, d1, known, bits) && Reaches(p2, d2.base, d2, known, bits)
    ensures ReachesIn(w, p1, d1.base, d1, known, bits) && ReachesIn(w, p2, d2.base, d2, known, bits)
    ensures VarsDefined(w.vars, d1.vars) && VarsDefined(w.vars, d2.vars)
  {
    hide Sound, Congruent, VarsDefined, Peel;
    assert ReachesIn(w, p1, d1.base, d1, known, bits) && ReachesIn(w, p2, d2.base, d2, known, bits);
  }

  lemma BaseIs(c1: int, c2: int, bits: nat)
    requires bits <= 64
    ensures var b := Wrap64(Wrap64(c1) - Wrap64(c2)); Congruent(b, c1 - c2, Pow2(bits)) && InInt64(b)
  {
    WrapIs(c1, bits);
    WrapIs(c2, bits);
    WrapFits(Wrap64(c1) - Wrap64(c2));
    Narrow(Wrap64(Wrap64(c1) - Wrap64(c2)), Wrap64(c1) - Wrap64(c2), bits, 64);
    hide Wrap64, Pow2;
    CongruentAdd(Wrap64(c1), c1, Wrap64(c2), c2, Pow2(bits));
  }

  /** Numbers of opposite halves of the address space do not meet. */
  predicate InHalf(x: int, bits: nat)
    requires bits >= 1
  {
    -Pow2(bits - 1) <= x < Pow2(bits - 1)
  }

  /**
   So an answer of AliasOverBase other than MayAlias holds of the two pointers, in every world
   in which neither their distance nor the sum that stands for it wraps around.
   */
  lemma AnswerHolds(w: World, p1: Ptr, p2: Ptr, r: AliasResult, base: int, vars: seq<VarIndex>, size1: nat, size2: nat,
                    signs: Signs, known: Masks, bits: nat)
    requires bits >= 1 && RightForAll(r, base, vars, size1, size2, signs, known)
    requires Meets(w, p1, p2, known) && AtDistance(w, p1, p2, base, vars, bits) && VarsDefined(w.vars, vars) && SignsSound(signs, w.vars)
    requires InHalf(Addr(w, p1) - Addr(w, p2), bits) && InHalf(base + SumRead(w.vars, vars), bits)
    ensures Right(r, Addr(w, p1) - Addr(w, p2), size1, size2)
  {
    hide Addr, SumRead, Sound, SignsSound, VarsDefined, Congruent, InHalf, Right, Peel, PtrDefined;
    var d, s := Addr(w, p1) - Addr(w, p2), base + SumRead(w.vars, vars);
    assert Sound(known, w.vars);
    HalvesAgree(d, s, bits);
    assert Right(r, base + SumRead(w.vars, vars), size1, size2);
  }

  /** A power of two that divides all scales is less than the address space, if one of them is. */
  lemma SmallModulo(vars: seq<VarIndex>, k: nat, bits: nat)
    requires k <= 64 && OrAll(vars) % Pow2(k) == 0 && vars != [] && vars[0].scale != 0 && -Pow2(bits) < vars[0].scale < Pow2(bits)
    ensures k < bits
  {
    OrAllDivides(vars, k, 0);
    DividesSigned(vars[0].scale, k);
    var j := CongruentApart(vars[0].scale, 0, Pow2(k));
    FarMultiple(Pow2(k), j);
    if k >= bits {
      Pow2Grows(bits, k);
    }
  }

  /**
   What the modulo rule finds holds of the two pointers in every world, even if their distance or the
   sum that stands for it wraps around.
   */
  lemma ModuloAnswerHolds(w: World, p1: Ptr, p2: Ptr, base: int, vars: seq<VarIndex>, size1: nat, size2: nat, k: nat, known: Masks, bits: nat)
    requires 1 <= bits <= 64 && Usable(vars, bits) && ModuloFits(vars, size1, size2, base, k)
    requires vars != [] && -Pow2(bits) < vars[0].scale < Pow2(bits)
    requires Meets(w, p1, p2, known) && AtDistance(w, p1, p2, base, vars, bits)
    ensures Right(NoAlias, Addr(w, p1) - Addr(w, p2), size1, size2)
  {
    hide Addr, SumRead, Peel, PtrDefined, ModuloFits, Pow2, Sound;
    ModuloApart(Addr(w, p1) - Addr(w, p2), w.vars, base, vars, size1, size2, k, bits);
  }

  lemma ModuloApart(d: int, env: Env, base: int, vars: seq<VarIndex>, size1: nat, size2: nat, k: nat, bits: nat)
    requires bits <= 64 && Usable(vars, bits) && ModuloFits(vars, size1, size2, base, k)
    requires vars != [] && -Pow2(bits) < vars[0].scale < Pow2(bits)
    requires Congruent(d, base + SumRead(env, vars), Pow2(bits))
    ensures size1 != UNKNOWN && size2 != UNKNOWN && Disjoint(d, size1, size2)
  {
    hide SumRead, Congruent, Remainder, Pow2, Usable, Disjoint, ModuloFits;
    UsableFirst(vars, bits);
    FitsBounds(base, vars, size1, size2, k);
    FitsBelow(base, vars, size1, size2, k, bits);
    FitsModulo(env, base, vars, size1, size2, k);
    Narrow(d, base + SumRead(env, vars), k, bits);
    CongruentTrans(d, base + SumRead(env, vars), Remainder(base, k), Pow2(k));
    ModuloGap(d, Pow2(k), Remainder(base, k), size1, size2);
  }

  lemma UsableFirst(vars: seq<VarIndex>, bits: nat)
    requires Usable(vars, bits) && vars != []
    ensures vars[0].scale != 0
  {
    hide Wf, Pow2;
  }

  function Remainder(base: int, k: nat): nat { BitAnd(U64(base), Pow2(k) - 1) }

  lemma FitsBounds(base: int, vars: seq<VarIndex>, size1: nat, size2: nat, k: nat)
    requires ModuloFits(vars, size1, size2, base, k)
    ensures size1 != UNKNOWN && size2 != UNKNOWN && Remainder(base, k) >= size2 && size1 <= Pow2(k) - Remainder(base, k)
  {
    hide BitAnd, U64, OrAll, Pow2;
  }

  lemma FitsBelow(base: int, vars: seq<VarIndex>, size1: nat, size2: nat, k: nat, bits: nat)
    requires ModuloFits(vars, size1, size2, base, k) && vars != [] && vars[0].scale != 0 && -Pow2(bits) < vars[0].scale < Pow2(bits)
    ensures k < bits
  {
    hide BitAnd, U64, OrAll, Pow2;
    SmallModulo(vars, k, bits);
  }

  lemma FitsModulo(env: Env, base: int, vars: seq<VarIndex>, size1: nat, size2: nat, k: nat)
    requires ModuloFits(vars, size1, size2, base, k)
    ensures Remainder(base, k) < Pow2(k) && Congruent(base + SumRead(env, vars), Remainder(base, k), Pow2(k))
  {
    hide SumRead, Congruent, BitAnd, U64, OrAll, Pow2;
    ModOffsetIs(env, vars, base, k);
  }

  lemma HalvesAgree(d: int, s: int, bits: nat)
    requires bits >= 1 && Congruent(d, s, Pow2(bits)) && InHalf(d, bits) && InHalf(s, bits)
    ensures d == s
  {
    var k := CongruentApart(d, s, Pow2(bits));
    assert Pow2(bits) == 2 * Pow2(bits - 1);
    SmallMultiple(Pow2(bits), k, d - s);
  }

  // ---------- Fields of structs ----------

  /** The lambda of aliasSameBasePointerGEPs, in 64-bit arithmetic. */
  predicate EltsDontOverlap(structSize: nat, off1: nat, size1: nat, off2: nat, size2: nat) {
    && off1 < off2 && U64(off1 + size1) <= off2
    && (U64(off2 + size2) <= structSize || U64(U64(off2 + size2) - structSize) <= off1)
  }

  /** Two fields of structs in an array, k structs apart, have no byte in common. */
  predicate FieldsApart(structSize: nat, off1: nat, size1: nat, off2: nat, size2: nat, k: int) {
    Disjoint(k * structSize + off2 - off1, size2, size1)
  }

  /** Fields of a struct, whose ends fit 64 bits. */
  predicate FieldsFit(structSize: nat, off1: nat, size1: nat, off2: nat, size2: nat) {
    && off1 < structSize && off2 < structSize < Pow2(64) && off1 + size1 < Pow2(64) && off2 + size2 < Pow2(64)
  }

  lemma U64Small(x: int)
    requires 0 <= x < Pow2(64)
    ensures U64(x) == x
  {
    DivModUnique(x, Pow2(64), 0, x);
  }

  lemma EltsSums(structSize: nat, off1: nat, size1: nat, off2: nat, size2: nat)
    requires FieldsFit(structSize, off1, size1, off2, size2)
    ensures EltsDontOverlap(structSize, off1, size1, off2, size2) <==>
              off1 < off2 && off1 + size1 <= off2 && off2 + size2 - structSize <= off1
  {
    U64Small(off1 + size1);
    U64Small(off2 + size2);
    if off2 + size2 > structSize {
      U64Small(off2 + size2 - structSize);
    }
    hide U64, Pow2;
  }

  lemma EltsApart(structSize: nat, off1: nat, size1: nat, off2: nat, size2: nat, k: int)
    requires FieldsFit(structSize, off1, size1, off2, size2)
    ensures EltsDontOverlap(structSize, off1, size1, off2, size2) || EltsDontOverlap(structSize, off2, size2, off1, size1) ==>
              FieldsApart(structSize, off1, size1, off2, size2, k)
  {
    EltsSums(structSize, off1, size1, off2, size2);
    EltsSums(structSize, off2, size2, off1, size1);
    hide EltsDontOverlap, Pow2;
    FarMultiple(structSize, k);
  }

  /** The test is exact: true if and only if the fields are apart however far apart their structs are. */
  lemma EltsDontOverlapIffApart(structSize: nat, off1: nat, size1: nat, off2: nat, size2: nat)
    requires FieldsFit(structSize, off1, size1, off2, size2) && size1 > 0 && size2 > 0
    ensures EltsDontOverlap(structSize, off1, size1, off2, size2) || EltsDontOverlap(structSize, off2, size2, off1, size1) <==>
              forall k: int :: FieldsApart(structSize, off1, size1, off2, size2, k)
  {
    EltsSums(structSize, off1, size1, off2, size2);
    EltsSums(structSize, off2, size2, off1, size1);
    hide EltsDontOverlap, Pow2;
    forall k: int
      ensures EltsDontOverlap(structSize, off1, size1, off2, size2) || EltsDontOverlap(structSize, off2, size2, off1, size1) ==>
                FieldsApart(structSize, off1, size1, off2, size2, k)
    {
      EltsApart(structSize, off1, size1, off2, size2, k);
    }
    if FieldsApart(structSize, off1, size1, off2, size2, 0) {
      if FieldsApart(structSize, off1, size1, off2, size2, -1) && FieldsApart(structSize, off1, size1, off2, size2, 1) {
        assert EltsDontOverlap(structSize, off1, size1, off2, size2) || EltsDontOverlap(structSize, off2, size2, off1, size1);
      }
    }
  }

  lemma WrappedOverlaps(structSize: nat, off1: nat, size1: nat, off2: nat, size2: nat)
    requires off1 < off2 < structSize <= Pow2(63) && size1 > 0 && size2 > 0
    requires off1 + size1 >= Pow2(64) || off2 + size2 >= Pow2(64)
    ensures !FieldsApart(structSize, off1, size1, off2, size2, 0) || !FieldsApart(structSize, off1, size1, off2, size2, -1)
  {
    Pow64();
    hide Pow2;
  }

  lemma ApartSwapped(structSize: nat, off1: nat, size1: nat, off2: nat, size2: nat, k: int)
    ensures FieldsApart(structSize, off1, size1, off2, size2, k) == FieldsApart(structSize, off2, size2, off1, size1, -k)
  {
    assert -k * structSize == -(k * structSize);
  }

  /**
   For structs of up to 2^63 bytes and fields that may be of any size, a success of the test is
   right if and only if neither end is beyond 64 bits.
   */
  lemma SuccessRightIffFits(structSize: nat, off1: nat, size1: nat, off2: nat, size2: nat)
    requires off1 < structSize && off2 < structSize <= Pow2(63) && size1 > 0 && size2 > 0
    requires EltsDontOverlap(structSize, off1, size1, off2, size2) || EltsDontOverlap(structSize, off2, size2, off1, size1)
    ensures (forall k: int :: FieldsApart(structSize, off1, size1, off2, size2, k)) <==>
              off1 + size1 < Pow2(64) && off2 + size2 < Pow2(64)
  {
    Pow64();
    if off1 + size1 < Pow2(64) && off2 + size2 < Pow2(64) {
      EltsDontOverlapIffApart(structSize, off1, size1, off2, size2);
    } else if off1 < off2 {
      hide EltsDontOverlap, FieldsApart, Pow2;
      WrappedOverlaps(structSize, off1, size1, off2, size2);
    } else {
      hide FieldsApart, Pow2;
      WrappedOverlaps(structSize, off2, size2, off1, size1);
      ApartSwapped(structSize, off1, size1, off2, size2, 0);
      ApartSwapped(structSize, off1, size1, off2, size2, 1);
    }
  }

  /** With an end beyond 64 bits the test can be wrong. */
  lemma WrappedEnd()
    ensures var size := 0xFFFF_FFFF_FFFF_FFF8;
            EltsDontOverlap(32, 8, size, 16, 8) && !FieldsApart(32, 8, size, 16, 8, 0)
  {
    Pow64();
    DivModUnique(0x1_0000_0000_0000_0000, Pow2(64), 1, 0);
    U64Small(24);
    hide Pow2;
  }
}
