/**
 When constantOffsetHeuristic is right: for variables that are an opaque value up to constants,
 exactly when its 64-bit sums do not wrap around.
 */
module GepHeuristic {
  import opened Arith
  import opened GepValues
  import opened GepLinear
  import opened GepDecompose
  import opened GepAlias

  /** An opaque value, with constants added and subtracted that may wrap around. */
  predicate Plain(v: Value) {
    match v
    case Opaque(_, _) => true
    case Bin(op, x, _, _, nuw, _) => !nuw && (op == Add || op == Sub) && Plain(x)
    case _ => false
  }

  /** Nothing known of any value: sound in every world. */
  function Unknowing(): Masks { (_, _) => false }

  lemma {:induction false} PlainDefined(env: Env, v: Value)
    requires Plain(v)
    ensures Defined(env, v)
  {
    if v.Bin? {
      PlainDefined(env, v.x);
    }
  }

  /** What is known of bits makes no difference to a plain value, and its scale is 1. */
  lemma {:induction false} PlainLinear(known: Masks, v: Value, width: nat, depth: nat)
    requires Plain(v) && width > 0
    ensures Linear(known, v, width, depth) == Linear(Unknowing(), v, width, depth)
    ensures Linear(known, v, width, depth).scale == 1 && Linear(known, v, width, depth).zext == 0
    decreases v
  {
    if v.Bin? && depth != MAX_DEPTH {
      PlainLinear(known, v.x, width, depth + 1);
      OneMod(width);
    }
  }

  lemma OneMod(width: nat)
    requires width > 0
    ensures 1 % Pow2(width) == 1
  {
    assert Pow2(width) == 2 * Pow2(width - 1);
    DivModUnique(1, Pow2(width), 0, 1);
  }

  /** Two numbers of one range that are congruent are the same. */
  lemma SameInRange(x: int, y: int, lo: int, m: int)
    requires m > 0 && lo <= x < lo + m && lo <= y < lo + m && Congruent(x, y, m)
    ensures x == y
  {
    var k := CongruentApart(x, y, m);
    SmallMultiple(m, k, x - y);
  }

  /** The range of readings of variables of width w. */
  function Low(w: nat, zext: nat): int
    requires w > 0
  {
    if zext > 0 then 0 else -Pow2(w - 1)
  }

  /** In the world in which the opaque value is u, a plain value reads as u plus its constants, modulo 2^w. */
  lemma ReadsAs(known: Masks, v: Value, zext: nat, u: nat)
    requires Plain(v) && Wf(v) && Width(v) > 0
    requires Linear(known, v, Width(v), 0).v.Opaque?
    ensures var w := Width(v);
            var x := Reading(_ => u, v, zext);
            && Low(w, zext) <= x < Low(w, zext) + Pow2(w)
            && Congruent(x, u + Linear(known, v, w, 0).offset, Pow2(w))
  {
    var env: Env := _ => u;
    var w, m := Width(v), Pow2(Width(v));
    var r := Linear(known, v, w, 0);
    PlainDefined(env, v);
    PlainLinear(known, v, w, 0);
    LinearWidth(Unknowing(), v, w, 0);
    assert Sound(Unknowing(), env);
    LinearAt(env, Unknowing(), v, w);
    var lo := ReadingRange(env, v, zext);
    assert Eval(env, r.v) == u % m;
    hide Linear, Sound, Defined, Reading, Plain, Wf, Pow2;
    CongruentMod(u, m);
    CongruentAdd(u % m, u, r.offset, r.offset, m);
    CongruentTrans(Reading(env, v, zext), Eval(env, v), 1 * (u % m) + r.offset, m);
    CongruentTrans(Reading(env, v, zext), u % m + r.offset, u + r.offset, m);
  }

  /** For every number y of the range there is a world in which v1 reads as y; v0 then reads as y plus the difference of the constants. */
  lemma WorldFor(known: Masks, v0: Value, v1: Value, zext: nat, y: int) returns (u: nat)
    requires Plain(v0) && Plain(v1) && Wf(v0) && Wf(v1) && Width(v0) == Width(v1) > 0
    requires Linear(known, v0, Width(v1), 0).v.Opaque? && Linear(known, v1, Width(v1), 0).v.Opaque?
    requires Low(Width(v1), zext) <= y < Low(Width(v1), zext) + Pow2(Width(v1))
    ensures var w, x := Width(v1), Reading(_ => u, v0, zext);
            && Reading(_ => u, v1, zext) == y
            && Low(w, zext) <= x < Low(w, zext) + Pow2(w)
            && Congruent(x, y + (Linear(known, v0, w, 0).offset - Linear(known, v1, w, 0).offset), Pow2(w))
  {
    var w, m := Width(v1), Pow2(Width(v1));
    var o0, o1 := Linear(known, v0, w, 0).offset, Linear(known, v1, w, 0).offset;
    u := (y - o1) % m;
    ReadsAs(known, v0, zext, u);
    ReadsAs(known, v1, zext, u);
    hide Linear, Plain, Wf, Reading, Pow2;
    CongruentMod(y - o1, m);
    assert Congruent(u, y - o1, m);
    hide Congruent;
    CongruentSame(o0, m);
    CongruentSame(o1, m);
    CongruentAdd(u, y - o1, o0, o0, m);
    CongruentAdd(u, y - o1, o1, o1, m);
    var x0, x1 := Reading(_ => u, v0, zext), Reading(_ => u, v1, zext);
    CongruentTrans(x0, u + o0, y - o1 + o0, m);
    CongruentTrans(x1, u + o1, y - o1 + o1, m);
    SameInRange(x1, y, Low(w, zext), m);
  }

  /** There is a world in which the readings differ by the difference of the constants, and one in which they differ by 2^w less. */
  lemma BothWays(known: Masks, v0: Value, v1: Value, zext: nat, less: bool) returns (u: nat)
    requires Plain(v0) && Plain(v1) && Wf(v0) && Wf(v1) && Width(v0) == Width(v1) > 0
    requires Linear(known, v0, Width(v1), 0).v.Opaque? && Linear(known, v1, Width(v1), 0).v.Opaque?
    ensures var w := Width(v1);
            var d := (Linear(known, v0, w, 0).offset - Linear(known, v1, w, 0).offset) % Pow2(w);
            Reading(_ => u, v0, zext) - Reading(_ => u, v1, zext) == if less && d != 0 then d - Pow2(w) else d
  {
    var w, m := Width(v1), Pow2(Width(v1));
    var o := Linear(known, v0, w, 0).offset - Linear(known, v1, w, 0).offset;
    var d, lo := o % m, Low(w, zext);
    var y := if less && d != 0 then lo + m - 1 else lo;
    u := WorldFor(known, v0, v1, zext, y);
    var x := Reading(_ => u, v0, zext);
    hide Linear, Plain, Wf, Reading, Pow2, Low;
    CongruentMod(o, m);
    CongruentBack(d, o, m);
    hide Congruent;
    CongruentSame(y, m);
    CongruentAdd(y, y, o, d, m);
    CongruentTrans(x, y + o, y + d, m);
    if less && d != 0 {
      CongruentBy(y + d, lo + d - 1, 1, m);
      CongruentTrans(x, y + d, lo + d - 1, m);
      SameInRange(x, lo + d - 1, lo, m);
    } else {
      SameInRange(x, lo + d, lo, m);
    }
  }

  /** Where a sum wraps around, and the distance is on the side of that access, the accesses overlap. */
  lemma Overlap(base: int, s: int, t: int, m: nat, diff: nat, size1: nat, size2: nat)
    requires s != 0 && Abs(s) * m + 2 * Abs(base) < Pow2(64) && size1 > 0 && size2 > 0 && diff <= Abs(t) < m
    requires U64(size1 + Abs(base)) <= diff * Abs(s) && U64(size2 + Abs(base)) <= diff * Abs(s)
    requires (size1 + Abs(base) >= Pow2(64) && s * t <= 0) || (size2 + Abs(base) >= Pow2(64) && s * t >= 0)
    ensures !Disjoint(base + s * t, size1, size2)
  {
    AbsProduct(s, t);
    MoreTimes(diff, Abs(t), Abs(s));
    MoreTimes(Abs(t), m, Abs(s));
    if size1 + Abs(base) < Pow2(64) {
      WrapSame(size1 + Abs(base));
    }
    if size2 + Abs(base) < Pow2(64) {
      WrapSame(size2 + Abs(base));
    }
    hide U64, Pow2;
    var st, low, high := s * t, diff * Abs(s), Abs(s) * m;
    assert low <= Abs(st) <= high;
  }

  lemma DiffLess(o: int, m: int, less: bool)
    requires m > 0
    ensures var d := o % m; MinDiff(o, m) <= Abs(if less && d != 0 then d - m else d) < m && MinDiff(o, m) >= 0
  {
    var d := o % m;
    if d != 0 {
      NegMod(o, m, d);
    }
  }

  /** The product of a number with one of the sign that less stands for. */
  lemma SignOf(s: int, t: int, less: bool)
    requires if less then t <= 0 else t >= 0
    ensures if (s > 0) == less then s * t <= 0 else s * t >= 0
  {
  }

  predicate Guarded(vars: seq<VarIndex>, base: int)
    requires |vars| == 2
  {
    Abs(vars[0].scale) * Pow2(Width(vars[1].v)) + 2 * Abs(base) < Pow2(64)
  }

  lemma NotLowest(vars: seq<VarIndex>, base: int)
    requires |vars| == 2 && Guarded(vars, base) && vars[0].scale == Wrap64(-vars[1].scale) && Width(vars[1].v) > 0
    ensures vars[1].scale != -Pow2(63)
  {
    var w := Width(vars[1].v);
    assert Pow2(w) == 2 * Pow2(w - 1) >= 2;
    MoreTimes(2, Pow2(w), Abs(vars[0].scale));
    WrapsEdge();
    Pow64();
    hide Pow2, Signed;
  }

  lemma WrapsEdge()
    ensures Wrap64(Pow2(63)) == -Pow2(63)
  {
    Pow64();
    CongruentBy(-Pow2(63), Pow2(63), -1, Pow2(64));
    SignedUnique(Pow2(63), -Pow2(63), 64);
  }

  /** Both variables are an opaque value up to constants. */
  predicate PlainPair(vars: seq<VarIndex>, known: Masks) {
    && |vars| == 2 && Plain(vars[0].v) && Plain(vars[1].v)
    && Linear(known, vars[1].v, Width(vars[1].v), 0).v.Opaque?
  }

  lemma PairFacts(vars: seq<VarIndex>, size1: nat, size2: nat, base: int, known: Masks, acyclic: Value -> bool, bits: nat)
    requires Usable(vars, bits) && ConstantOffsetHeuristic(vars, size1, size2, base, known, acyclic)
    requires PlainPair(vars, known) && Guarded(vars, base)
    ensures var x0, x1 := vars[0], vars[1];
            && Plain(x0.v) && Plain(x1.v) && Wf(x0.v) && Wf(x1.v) && Width(x0.v) == Width(x1.v) > 0
            && Linear(known, x0.v, Width(x1.v), 0).v.Opaque? && Linear(known, x1.v, Width(x1.v), 0).v.Opaque?
            && x0.zext == x1.zext && x0.scale != 0 && x1.scale == -x0.scale
  {
    assert vars[0].scale != 0 && Width(vars[1].v) > 0;
    hide Linear, Plain, Wf, MinDiff, U64, Abs, Signed;
    NotLowest(vars, base);
    HeuristicParts(vars, size1, size2, base, known, acyclic, bits);
  }

  lemma WrapsOverlap(vars: seq<VarIndex>, size1: nat, size2: nat, base: int, known: Masks, acyclic: Value -> bool, bits: nat) returns (u: nat)
    requires Usable(vars, bits) && ConstantOffsetHeuristic(vars, size1, size2, base, known, acyclic)
    requires PlainPair(vars, known) && size1 > 0 && size2 > 0 && Guarded(vars, base) && !SumsFit(size1, size2, base)
    ensures !Disjoint(base + SumRead(_ => u, vars), size1, size2)
  {
    hide Linear, Reading, SumRead, Plain, Wf, Usable, PlainPair, MinDiff, U64, Pow2, Disjoint, Abs, Signed, Wrap64, ConstantOffsetHeuristic;
    PairFacts(vars, size1, size2, base, known, acyclic, bits);
    Bytes(vars, size1, size2, base, known, acyclic);
    var x0, x1 := vars[0], vars[1];
    var w := Width(x1.v);
    var m, s := Pow2(w), x0.scale;
    var o := Linear(known, x0.v, w, 0).offset - Linear(known, x1.v, w, 0).offset;
    var less := (s > 0) == (size1 + Abs(base) >= Pow2(64));
    u := BothWays(known, x0.v, x1.v, x0.zext, less);
    var env: Env := _ => u;
    SumTwo(env, vars);
    var x, y := Reading(env, x0.v, x0.zext), Reading(env, x1.v, x1.zext);
    DiffLess(o, m, less);
    SmallBytes(o, m, s, base);
    Below(o, m, less);
    SignOf(s, x - y, less);
    Spread(s, x, y);
    Overlap(base, s, x - y, m, MinDiff(o, m), size1, size2);
  }

  lemma Bytes(vars: seq<VarIndex>, size1: nat, size2: nat, base: int, known: Masks, acyclic: Value -> bool)
    requires ConstantOffsetHeuristic(vars, size1, size2, base, known, acyclic)
    ensures |vars| == 2
    ensures var w := Width(vars[1].v);
            var o := Linear(known, vars[0].v, w, 0).offset - Linear(known, vars[1].v, w, 0).offset;
            var bytes := U64(MinDiff(o, Pow2(w)) * Abs(vars[0].scale));
            U64(size1 + Abs(base)) <= bytes && U64(size2 + Abs(base)) <= bytes
  {
    hide Linear, MinDiff, U64, Pow2, Abs;
  }

  lemma Below(o: int, m: int, less: bool)
    requires m > 0
    ensures var d := o % m; if less && d != 0 then d - m <= 0 else d >= 0
  {
  }

  lemma Spread(s: int, x: int, y: int)
    ensures s * x + -s * y == s * (x - y)
  {
  }

  lemma SmallBytes(o: int, m: int, s: int, base: int)
    requires m > 0 && Abs(s) * m + 2 * Abs(base) < Pow2(64)
    ensures U64(MinDiff(o, m) * Abs(s)) == MinDiff(o, m) * Abs(s)
  {
    DiffLess(o, m, false);
    hide MinDiff;
    MoreTimes(MinDiff(o, m), m, Abs(s));
    ProductNat(MinDiff(o, m), Abs(s));
    WrapSame(MinDiff(o, m) * Abs(s));
  }

  /** What is known makes no difference to the heuristic. */
  lemma SameUnknowing(vars: seq<VarIndex>, size1: nat, size2: nat, base: int, known: Masks, acyclic: Value -> bool)
    requires PlainPair(vars, known) && Width(vars[1].v) > 0 && ConstantOffsetHeuristic(vars, size1, size2, base, known, acyclic)
    ensures ConstantOffsetHeuristic(vars, size1, size2, base, Unknowing(), acyclic)
  {
    PlainLinear(known, vars[0].v, Width(vars[1].v), 0);
    PlainLinear(known, vars[1].v, Width(vars[1].v), 0);
    hide Linear, MinDiff, U64, Pow2, Abs, Unknowing;
  }

  /**
   For two accesses of at least one byte, through an opaque value up to constants that is scaled by less
   than the address space, the heuristic is right in all worlds if and only if its sums do not wrap around.
   */
  lemma HeuristicRightIff(vars: seq<VarIndex>, size1: nat, size2: nat, base: int, known: Masks, acyclic: Value -> bool, bits: nat)
    requires Usable(vars, bits) && ConstantOffsetHeuristic(vars, size1, size2, base, known, acyclic)
    requires PlainPair(vars, known) && size1 > 0 && size2 > 0 && Guarded(vars, base)
    ensures (forall env: Env {:trigger SumRead(env, vars)} :: Disjoint(base + SumRead(env, vars), size1, size2)) <==> SumsFit(size1, size2, base)
  {
    if SumsFit(size1, size2, base) {
      assert Width(vars[1].v) > 0;
      NotLowest(vars, base);
      SameUnknowing(vars, size1, size2, base, known, acyclic);
      forall env: Env ensures Disjoint(base + SumRead(env, vars), size1, size2) {
        PlainDefined(env, vars[0].v);
        PlainDefined(env, vars[1].v);
        assert VarsDefined(env, vars) && Sound(Unknowing(), env);
        hide ConstantOffsetHeuristic, SumsFit, Sound, VarsDefined, Unknowing, Usable, Plain, Linear, SumRead, Guarded;
        HeuristicRight(env, vars, size1, size2, base, Unknowing(), acyclic, bits);
      }
    } else {
      hide ConstantOffsetHeuristic, Usable, PlainPair, Guarded, SumRead;
      var u := WrapsOverlap(vars, size1, size2, base, known, acyclic, bits);
    }
  }

  // ---------- When the heuristic fires ----------

  /** Two variables of opposite scales that are one value up to a constant. */
  predicate OneUpToConstant(vars: seq<VarIndex>, known: Masks, acyclic: Value -> bool)
    requires |vars| == 2
  {
    var w := Width(vars[1].v);
    var r0, r1 := Linear(known, vars[0].v, w, 0), Linear(known, vars[1].v, w, 0);
    && vars[0].zext == vars[1].zext && vars[0].scale == -vars[1].scale
    && r0.v == r1.v && r0.scale == r1.scale && r0.zext == r1.zext && acyclic(r0.v)
  }

  /** Both accesses fit in the gap that there is whenever the variables differ by d. */
  predicate FitGap(size1: nat, size2: nat, base: int, scale: int, d: int) {
    size1 + Abs(base) <= Abs(d) * Abs(scale) && size2 + Abs(base) <= Abs(d) * Abs(scale)
  }

  /** MinDiff is the least distance of numbers that differ by d modulo m. */
  lemma MinDiffLeast(d: int, m: int) returns (least: int)
    requires m > 0
    ensures Congruent(least, d, m) && Abs(least) == MinDiff(d, m)
    ensures forall e :: Congruent(e, d, m) ==> Abs(e) >= MinDiff(d, m)
  {
    var r := d % m;
    CongruentMod(d, m);
    ModShift(r, -1, m);
    if r != 0 {
      NegMod(d, m, r);
    } else {
      DivModUnique(-d, m, -(d / m), 0);
    }
    least := if r <= -d % m then r else r - m;
    assert Congruent(least, d, m);
    forall e | Congruent(e, d, m) ensures Abs(e) >= MinDiff(d, m) {
      FarEnough(e, d, r, m);
    }
  }

  lemma FarEnough(e: int, d: int, r: int, m: int)
    requires m > 0 && r == d % m && Congruent(e, d, m)
    ensures Abs(e) >= (if r < m - r then r else m - r)
  {
    var k := e / m;
    assert e == m * k + r;
    FarMultiple(m, k);
    FarMultiple(m, k + 1);
    assert m * (k + 1) == m * k + m;
  }

  lemma FarEnoughIff(size1: nat, size2: nat, base: int, scale: int, d: int, m: int)
    requires m > 0
    ensures (forall e :: Congruent(e, d, m) ==> FitGap(size1, size2, base, scale, e)) <==> FitGap(size1, size2, base, scale, MinDiff(d, m))
    ensures MinDiff(d, m) >= 0
  {
    var least := MinDiffLeast(d, m);
    forall e | Congruent(e, d, m) ensures FitGap(size1, size2, base, scale, MinDiff(d, m)) ==> FitGap(size1, size2, base, scale, e) {
      assert Abs(MinDiff(d, m)) == MinDiff(d, m);
      MoreTimes(MinDiff(d, m), Abs(e), Abs(scale));
    }
    assert FitGap(size1, size2, base, scale, least) <==> FitGap(size1, size2, base, scale, MinDiff(d, m));
  }

  /**
   The heuristic fires exactly if the variables are one value up to a constant, and the accesses fit in
   the gap at every distance that they can then have; as long as no product or sum wraps around.
   */
  lemma HeuristicFiresIff(vars: seq<VarIndex>, size1: nat, size2: nat, base: int, known: Masks, acyclic: Value -> bool)
    requires |vars| == 2 && size1 != UNKNOWN && size2 != UNKNOWN && SumsFit(size1, size2, base)
    requires -Pow2(63) < vars[1].scale < Pow2(63)
    requires var w := Width(vars[1].v);
             var d := Linear(known, vars[0].v, w, 0).offset - Linear(known, vars[1].v, w, 0).offset;
             MinDiff(d, Pow2(w)) * Abs(vars[0].scale) < Pow2(64)
    ensures var w := Width(vars[1].v);
            var d := Linear(known, vars[0].v, w, 0).offset - Linear(known, vars[1].v, w, 0).offset;
            ConstantOffsetHeuristic(vars, size1, size2, base, known, acyclic) <==>
              OneUpToConstant(vars, known, acyclic) &&
              forall e :: Congruent(e, d, Pow2(w)) ==> FitGap(size1, size2, base, vars[0].scale, e)
  {
    var w := Width(vars[1].v);
    var d := Linear(known, vars[0].v, w, 0).offset - Linear(known, vars[1].v, w, 0).offset;
    hide Linear, Pow2, MinDiff, Signed;
    FarEnoughIff(size1, size2, base, vars[0].scale, d, Pow2(w));
    NegatedScale(vars[1].scale);
    ProductNat(MinDiff(d, Pow2(w)), Abs(vars[0].scale));
    WrapSame(MinDiff(d, Pow2(w)) * Abs(vars[0].scale));
    WrapSame(size1 + Abs(base));
    WrapSame(size2 + Abs(base));
    hide U64, Wrap64, Congruent;
    assert Abs(MinDiff(d, Pow2(w))) == MinDiff(d, Pow2(w));
  }

  lemma NegatedScale(s: int)
    requires -Pow2(63) < s < Pow2(63)
    ensures Wrap64(-s) == -s
  {
    SignedUnique(-s, -s, 64);
  }
}
