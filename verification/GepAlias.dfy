/**
 The arithmetic at the end of BasicAAResult::aliasGEP: what the difference of two
 decomposed pointers tells about the bytes they access.
 */
module GepAlias {
  import opened Arith
  import opened GepValues
  import opened GepLinear
  import opened GepDecompose
  import opened GepBits

  datatype AliasResult = NoAlias | MayAlias | PartialAlias | MustAlias

  /** MemoryLocation::UnknownSize. */
  const UNKNOWN: nat := 0xFFFF_FFFF_FFFF_FFFF

  // ---------- What answers mean ----------

  /** Accesses of n1 and n2 bytes, the first at distance d from the second, have no byte in common. */
  predicate Disjoint(d: int, n1: nat, n2: nat) { n1 == 0 || n2 == 0 || d >= n2 || d + n1 <= 0 }

  predicate Touches(b: int, start: int, n: nat) { start <= b < start + n }

  lemma DisjointMeans(d: int, n1: nat, n2: nat)
    ensures Disjoint(d, n1, n2) <==> forall b: int :: !(Touches(b, d, n1) && Touches(b, 0, n2))
  {
    if !Disjoint(d, n1, n2) {
      var b := if d > 0 then d else 0;
      assert Touches(b, d, n1) && Touches(b, 0, n2);
    }
  }

  /** An access of a known size has that size; one of an unknown size may have any. */
  predicate HasSize(n: nat, size: nat) { size == UNKNOWN || n == size }

  /** An access of no bytes overlaps nothing, so PartialAlias only speaks of others. */
  ghost predicate Right(r: AliasResult, d: int, size1: nat, size2: nat) {
    match r
    case MayAlias => true
    case MustAlias => d == 0
    case NoAlias => forall n1, n2 :: HasSize(n1, size1) && HasSize(n2, size2) ==> Disjoint(d, n1, n2)
    case PartialAlias =>
      forall n1, n2 :: HasSize(n1, size1) && HasSize(n2, size2) ==> (n1 > 0 && n2 > 0 <==> !Disjoint(d, n1, n2))
  }

  // ---------- Values of variables ----------

  /** Variables as integers: those that have been zero-extended are not negative, others are signed. */
  function Reading(env: Env, v: Value, zext: nat): int {
    if zext > 0 || Width(v) == 0 then Eval(env, v) else Signed(Eval(env, v), Width(v))
  }

  function ReadTerm(env: Env, x: VarIndex): int { x.scale * Reading(env, x.v, x.zext) }

  function SumRead(env: Env, vars: seq<VarIndex>): int {
    if vars == [] then 0 else SumRead(env, vars[..|vars| - 1]) + ReadTerm(env, vars[|vars| - 1])
  }

  /** computeKnownBits: what is known of the sign of a value. */
  datatype Sign = Zero | One | NotKnown

  type Signs = Value -> Sign

  ghost predicate SignsSound(signs: Signs, env: Env) {
    forall v :: Width(v) > 0 ==>
      && (signs(v) == Zero ==> Signed(Eval(env, v), Width(v)) >= 0)
      && (signs(v) == One ==> Signed(Eval(env, v), Width(v)) < 0)
  }

  /** Scales that are not zero, and variables as wide as a pointer once they are extended. */
  ghost predicate Usable(vars: seq<VarIndex>, bits: nat) {
    forall i :: 0 <= i < |vars| ==>
      && vars[i].scale != 0 && -Pow2(63) <= vars[i].scale < Pow2(63)
      && Wf(vars[i].v) && 0 < Width(vars[i].v) && Width(vars[i].v) + vars[i].zext == bits
  }

  // ---------- Offsets modulo the lowest bit of the scales ----------

  predicate DividesAll(vars: seq<VarIndex>, k: nat) { forall i :: 0 <= i < |vars| ==> vars[i].scale % Pow2(k) == 0 }

  /** Two to the k is the largest power of two that divides all scales. */
  predicate CommonPower(vars: seq<VarIndex>, k: nat) { DividesAll(vars, k) && !DividesAll(vars, k + 1) }

  /** Modulo before its last line: the bits of all scales. */
  function OrAll(vars: seq<VarIndex>): nat {
    if vars == [] then 0 else BitOr(OrAll(vars[..|vars| - 1]), U64(vars[|vars| - 1].scale))
  }

  lemma {:induction false} OrAllDivides(vars: seq<VarIndex>, k: nat, i: nat)
    requires OrAll(vars) % Pow2(k) == 0 && i < |vars|
    ensures U64(vars[i].scale) % Pow2(k) == 0
    decreases |vars|
  {
    hide BitOr, U64, Pow2;
    var n := |vars| - 1;
    OrDivides(OrAll(vars[..n]), U64(vars[n].scale), k);
    if i < n {
      OrAllDivides(vars[..n], k, i);
    }
  }

  /** A power of two divides the bits of all scales exactly if it divides all scales. */
  lemma {:induction false} OrAllDividesIff(vars: seq<VarIndex>, k: nat)
    requires k <= 64
    ensures OrAll(vars) % Pow2(k) == 0 <==> DividesAll(vars, k)
    decreases |vars|
  {
    hide BitOr, U64, Pow2;
    if vars == [] {
      ZeroMod(Pow2(k));
    } else {
      var n := |vars| - 1;
      OrDivides(OrAll(vars[..n]), U64(vars[n].scale), k);
      OrAllDividesIff(vars[..n], k);
      SignedDivides(vars[n].scale, k);
      assert DividesAll(vars, k) <==> DividesAll(vars[..n], k) && vars[n].scale % Pow2(k) == 0;
    }
  }

  lemma SignedDivides(s: int, k: nat)
    requires k <= 64
    ensures U64(s) % Pow2(k) == s % Pow2(k)
  {
    CongruentMod(s, Pow2(64));
    Narrow(U64(s), s, k, 64);
    SameRemainder(U64(s), s, Pow2(k));
  }

  lemma SameRemainder(a: int, b: int, m: int)
    requires m > 0 && Congruent(a, b, m)
    ensures a % m == b % m
  {
  }

  lemma {:induction false} OrFits64(vars: seq<VarIndex>)
    ensures OrAll(vars) < Pow2(64)
    decreases |vars|
  {
    if vars == [] {
    } else {
      OrFits64(vars[..|vars| - 1]);
      hide Pow2, BitOr;
      OrFits(OrAll(vars[..|vars| - 1]), U64(vars[|vars| - 1].scale), 64);
    }
  }

  lemma {:induction false} OrIsZero(a: nat, b: nat)
    ensures BitOr(a, b) == 0 ==> a == 0 && b == 0
    decreases a + b
  {
    if a != 0 && b != 0 {
      OrIsZero(a / 2, b / 2);
    }
  }

  lemma OrAllPositive(vars: seq<VarIndex>)
    requires vars != [] && -Pow2(63) <= vars[|vars| - 1].scale < Pow2(63) && vars[|vars| - 1].scale != 0
    ensures OrAll(vars) > 0
  {
    var n := |vars| - 1;
    OrIsZero(OrAll(vars[..n]), U64(vars[n].scale));
    if U64(vars[n].scale) == 0 {
      SmallMultiple(Pow2(64), vars[n].scale / Pow2(64), vars[n].scale);
    }
  }

  /** A power of two below 2^64 divides a number if it divides its 64 bits. */
  lemma DividesSigned(s: int, k: nat)
    requires k <= 64 && U64(s) % Pow2(k) == 0
    ensures Congruent(s, 0, Pow2(k))
  {
    CongruentMod(s, Pow2(64));
    Narrow(U64(s), s, k, 64);
    ZeroMod(Pow2(k));
  }

  lemma {:induction false} SumDivides(env: Env, vars: seq<VarIndex>, m: int)
    requires m > 0 && forall i :: 0 <= i < |vars| ==> Congruent(vars[i].scale, 0, m)
    ensures Congruent(SumRead(env, vars), 0, m)
    decreases |vars|
  {
    if vars != [] {
      var n := |vars| - 1;
      SumDivides(env, vars[..n], m);
      var x := vars[n];
      assert Congruent(x.scale, 0, m);
      var r := Reading(env, x.v, x.zext);
      hide Congruent, Reading;
      CongruentSame(r, m);
      CongruentMul(x.scale, 0, r, r, m);
      ZeroTimes(r);
      CongruentAdd(SumRead(env, vars[..n]), 0, x.scale * r, 0, m);
    }
  }

  lemma CongruentSame(a: int, m: int)
    requires m > 0
    ensures Congruent(a, a, m)
  {
  }

  /** Two accesses at a distance that leaves offset modulo m, which fit between the multiples of m. */
  lemma ModuloGap(d: int, m: int, offset: int, n1: nat, n2: nat)
    requires m > 0 && 0 <= offset < m && Congruent(d, offset, m) && offset >= n2 && n1 <= m - offset
    ensures Disjoint(d, n1, n2)
  {
    var k := CongruentApart(d, offset, m);
    FarMultiple(m, k);
  }

  /** The distance modulo the lowest bit of the scales is that of the constant offset. */
  lemma ModOffsetIs(env: Env, vars: seq<VarIndex>, base: int, k: nat)
    requires k <= 64 && OrAll(vars) % Pow2(k) == 0
    ensures BitAnd(U64(base), Pow2(k) - 1) < Pow2(k)
    ensures Congruent(base + SumRead(env, vars), BitAnd(U64(base), Pow2(k) - 1), Pow2(k))
  {
    var m := Pow2(k);
    forall i | 0 <= i < |vars|
      ensures Congruent(vars[i].scale, 0, m)
    {
      OrAllDivides(vars, k, i);
      DividesSigned(vars[i].scale, k);
    }
    hide BitAnd, SumRead, OrAll, Pow2;
    SumDivides(env, vars, m);
    AndMask(U64(base), k);
    CongruentMod(U64(base), m);
    CongruentMod(base, Pow2(64));
    Narrow(U64(base), base, k, 64);
    hide Congruent, U64;
    CongruentTrans(U64(base) % m, U64(base), base, m);
    CongruentAdd(U64(base) % m, base, 0, 0, m);
    CongruentAdd(base, base, SumRead(env, vars), 0, m);
    CongruentBack(U64(base) % m, base, m);
    CongruentTrans(base + SumRead(env, vars), base, U64(base) % m, m);
  }

  // ---------- Variables of a known sign ----------

  predicate Positive(signs: Signs, x: VarIndex) {
    var isZExt := x.zext > 0 || x.v.ZExt?;
    || ((signs(x.v) == Zero || isZExt) && x.scale >= 0)
    || (signs(x.v) == One && !isZExt && x.scale < 0)
  }

  /** What a variable may read as, for all that is known of it. */
  predicate MayRead(signs: Signs, x: VarIndex, r: int) {
    if x.zext > 0 || x.v.ZExt? then r >= 0
    else (signs(x.v) == Zero ==> r >= 0) && (signs(x.v) == One ==> r < 0)
  }

  ghost predicate NeverNegative(signs: Signs, x: VarIndex) {
    forall r :: MayRead(signs, x, r) ==> x.scale * r >= 0
  }

  lemma PositiveIff(signs: Signs, x: VarIndex)
    requires x.scale != 0
    ensures Positive(signs, x) <==> NeverNegative(signs, x)
  {
    if Positive(signs, x) {
      forall r | MayRead(signs, x, r) ensures x.scale * r >= 0 {
        ProductSign(x.scale, r);
      }
    } else {
      var r := if x.scale > 0 then -1 else 1;
      assert MayRead(signs, x, r) && x.scale * r < 0;
    }
  }

  lemma PositiveTerm(env: Env, signs: Signs, x: VarIndex)
    requires SignsSound(signs, env) && Wf(x.v) && Width(x.v) > 0 && Positive(signs, x)
    ensures ReadTerm(env, x) >= 0
  {
    var e, w := Eval(env, x.v), Width(x.v);
    if x.zext == 0 && x.v.ZExt? {
      EvalFits(env, x.v.x);
      Pow2Grows(Width(x.v.x), w - 1);
      SignedUnique(e, e, w);
    }
    hide Signed, Pow2, Eval;
    ProductSign(x.scale, Reading(env, x.v, x.zext));
  }

  lemma ProductSign(a: int, b: int)
    ensures (a >= 0 && b >= 0) || (a < 0 && b < 0) ==> a * b >= 0
  {
  }

  lemma {:induction false} PositiveSum(env: Env, signs: Signs, vars: seq<VarIndex>, bits: nat)
    requires SignsSound(signs, env) && Usable(vars, bits) && forall i :: 0 <= i < |vars| ==> Positive(signs, vars[i])
    ensures SumRead(env, vars) >= 0
    decreases |vars|
  {
    if vars != [] {
      var n := |vars| - 1;
      hide Positive, ReadTerm, SignsSound, Pow2;
      PositiveSum(env, signs, vars[..n], bits);
      PositiveTerm(env, signs, vars[n]);
    }
  }

  // ---------- Two variables that differ by a constant ----------

  function Abs(x: int): nat { if x < 0 then -x else x }

  function Min(a: int, b: int): int { if a < b then a else b }

  /** The smaller way round from one number to another modulo m. */
  function MinDiff(d: int, m: int): int
    requires m > 0
  {
    Min(d % m, -d % m)
  }

  /** Two numbers of a range of length m whose difference is d modulo m are at least MinDiff apart. */
  lemma Apart(x: int, y: int, lo: int, d: int, m: int)
    requires m > 0 && lo <= x < lo + m && lo <= y < lo + m && Congruent(x - y, d, m)
    ensures Abs(x - y) >= MinDiff(d, m) >= 0
  {
    var r := d % m;
    CongruentMod(d, m);
    CongruentBack(r, d, m);
    CongruentTrans(x - y, d, r, m);
    var k := CongruentApart(x - y, r, m);
    FarMultiple(m, k);
    FarMultiple(m, k + 1);
    assert m * (k + 1) == m * k + m;
    if r == 0 {
    } else {
      NegMod(d, m, r);
    }
  }

  lemma NegMod(d: int, m: int, r: int)
    requires m > 0 && r == d % m && r != 0
    ensures -d % m == m - r
  {
    var q := d / m;
    assert d == m * q + r;
    assert -d == m * (-q - 1) + (m - r) by {
      assert m * (-q - 1) == -(m * q) - m;
    }
    DivModUnique(-d, m, -q - 1, m - r);
  }

  /** A variable lies in a range as long as there are numbers of its width. */
  lemma ReadingRange(env: Env, v: Value, zext: nat) returns (lo: int)
    requires Wf(v) && Width(v) > 0
    ensures lo <= Reading(env, v, zext) < lo + Pow2(Width(v))
    ensures lo == if zext > 0 then 0 else -Pow2(Width(v) - 1)
    ensures Congruent(Reading(env, v, zext), Eval(env, v), Pow2(Width(v)))
  {
    EvalFits(env, v);
    SignedIs(Eval(env, v), Width(v));
    lo := if zext > 0 then 0 else -Pow2(Width(v) - 1);
  }

  /** The readings of two variables that are the same expression up to a constant. */
  lemma ReadingsApart(env: Env, known: Masks, v0: Value, v1: Value, zext: nat, r0: Lin, r1: Lin)
    requires Sound(known, env) && Wf(v0) && Wf(v1) && Width(v0) == Width(v1) > 0 && Defined(env, v0) && Defined(env, v1)
    requires r0 == Linear(known, v0, Width(v1), 0) && r1 == Linear(known, v1, Width(v1), 0)
    requires r0.v == r1.v && r0.scale == r1.scale
    ensures Abs(Reading(env, v0, zext) - Reading(env, v1, zext)) >= MinDiff(r0.offset - r1.offset, Pow2(Width(v1))) >= 0
  {
    hide Sound, Defined, Linear, Reading, Eval, MinDiff, Abs, Congruent, Wf, Pow2;
    var w := Width(v1);
    LinearAt(env, known, v0, w);
    LinearAt(env, known, v1, w);
    var lo := ReadingRange(env, v0, zext);
    var lo' := ReadingRange(env, v1, zext);
    DifferBy(Reading(env, v0, zext), Eval(env, v0), r0.offset, Reading(env, v1, zext), Eval(env, v1), r1.offset,
             r0.scale * Eval(env, r0.v), lo, Pow2(w));
  }

  lemma DifferBy(x: int, e: int, o: int, y: int, f: int, p: int, su: int, lo: int, m: int)
    requires m > 0 && lo <= x < lo + m && lo <= y < lo + m
    requires Congruent(x, e, m) && Congruent(e, su + o, m) && Congruent(y, f, m) && Congruent(f, su + p, m)
    ensures Abs(x - y) >= MinDiff(o - p, m) >= 0
  {
    CongruentTrans(x, e, su + o, m);
    CongruentTrans(y, f, su + p, m);
    CongruentAdd(x, su + o, y, su + p, m);
    assert su + o - (su + p) == o - p;
    hide Congruent;
    Apart(x, y, lo, o - p, m);
  }

  /** Accesses that fit the gap that scale and difference leave around the constant offset. */
  lemma GapFits(base: int, s: int, x: int, y: int, diff: nat, bytes: int, n1: nat, n2: nat)
    requires Abs(x - y) >= diff && bytes <= diff * Abs(s)
    requires n1 + Abs(base) <= bytes && n2 + Abs(base) <= bytes
    ensures Disjoint(base + (s * x + -s * y), n1, n2)
  {
    var d := x - y;
    assert s * x + -s * y == s * d by {
      assert s * d == s * x - s * y;
    }
    AbsProduct(s, d);
    MoreTimes(diff, Abs(d), Abs(s));
  }

  lemma AbsProduct(a: int, b: int)
    ensures Abs(a * b) == Abs(b) * Abs(a)
  {
  }

  lemma MoreTimes(a: int, b: int, k: nat)
    requires a <= b
    ensures a * k <= b * k
  {
  }

  lemma SumTwo(env: Env, vars: seq<VarIndex>)
    requires |vars| == 2
    ensures SumRead(env, vars) == ReadTerm(env, vars[0]) + ReadTerm(env, vars[1])
  {
    assert SumRead(env, vars) == SumRead(env, vars[..1]) + ReadTerm(env, vars[1]);
    var one := vars[..1];
    assert one[..|one| - 1] == [] && one[|one| - 1] == vars[0];
  }

  /** Neither size is so large that adding the offset wraps around 64 bits. */
  predicate SumsFit(size1: nat, size2: nat, base: int) {
    size1 + Abs(base) < Pow2(64) && size2 + Abs(base) < Pow2(64)
  }

  /** BasicAAResult::constantOffsetHeuristic; acyclic tells of values that cannot come from different iterations. */
  predicate ConstantOffsetHeuristic(vars: seq<VarIndex>, size1: nat, size2: nat, base: int, known: Masks, acyclic: Value -> bool) {
    && |vars| == 2 && size1 != UNKNOWN && size2 != UNKNOWN
    && vars[0].zext == vars[1].zext && vars[0].scale == Wrap64(-vars[1].scale)
    && var w := Width(vars[1].v);
    var r0, r1 := Linear(known, vars[0].v, w, 0), Linear(known, vars[1].v, w, 0);
    && r0.scale == r1.scale && r0.zext == r1.zext && r0.v == r1.v && acyclic(r0.v)
    && var bytes := U64(MinDiff(r0.offset - r1.offset, Pow2(w)) * Abs(vars[0].scale));
    U64(size1 + Abs(base)) <= bytes && U64(size2 + Abs(base)) <= bytes
  }

  /** The heuristic is right for all values of the variables, as long as its sums do not wrap around. */
  lemma HeuristicRight(env: Env, vars: seq<VarIndex>, size1: nat, size2: nat, base: int, known: Masks, acyclic: Value -> bool, bits: nat)
    requires Usable(vars, bits) && ConstantOffsetHeuristic(vars, size1, size2, base, known, acyclic)
    requires |vars| == 2 && SumsFit(size1, size2, base) && vars[1].scale != -Pow2(63)
    requires Sound(known, env) && VarsDefined(env, vars)
    ensures Disjoint(base + SumRead(env, vars), size1, size2)
  {
    hide Sound, Linear, Pow2, Wf, Reading, SumRead, MinDiff, Abs, U64, Disjoint, Wrap64, ConstantOffsetHeuristic;
    HeuristicParts(vars, size1, size2, base, known, acyclic, bits);
    var x0, x1 := vars[0], vars[1];
    var w := Width(x1.v);
    var r0, r1 := Linear(known, x0.v, w, 0), Linear(known, x1.v, w, 0);
    var diff := MinDiff(r0.offset - r1.offset, Pow2(w));
    ReadingsApart(env, known, x0.v, x1.v, x0.zext, r0, r1);
    WrapLess(diff * Abs(x0.scale));
    WrapSame(size1 + Abs(base));
    WrapSame(size2 + Abs(base));
    ProductNat(diff, Abs(x0.scale));
    GapFits(base, x0.scale, Reading(env, x0.v, x0.zext), Reading(env, x1.v, x1.zext), diff, U64(diff * Abs(x0.scale)), size1, size2);
    SumTwo(env, vars);
  }

  lemma HeuristicParts(vars: seq<VarIndex>, size1: nat, size2: nat, base: int, known: Masks, acyclic: Value -> bool, bits: nat)
    requires Usable(vars, bits) && ConstantOffsetHeuristic(vars, size1, size2, base, known, acyclic)
    requires |vars| == 2 && vars[1].scale != -Pow2(63)
    ensures vars[0].zext == vars[1].zext && vars[0].scale == -vars[1].scale
    ensures Width(vars[0].v) == Width(vars[1].v) > 0 && Wf(vars[0].v) && Wf(vars[1].v)
    ensures var w := Width(vars[1].v);
            var r0, r1 := Linear(known, vars[0].v, w, 0), Linear(known, vars[1].v, w, 0);
            var bytes := U64(MinDiff(r0.offset - r1.offset, Pow2(w)) * Abs(vars[0].scale));
            r0.v == r1.v && r0.scale == r1.scale && U64(size1 + Abs(base)) <= bytes && U64(size2 + Abs(base)) <= bytes
  {
    SignedUnique(-vars[1].scale, -vars[1].scale, 64);
    hide Linear, Pow2, Wf, MinDiff, Abs, U64, Signed;
  }

  lemma ProductNat(a: int, b: nat)
    requires a >= 0
    ensures a * b >= 0
  {
  }

  lemma WrapLess(x: int)
    ensures x >= 0 ==> U64(x) <= x
  {
    ModLess(x, Pow2(64));
  }

  lemma ModLess(x: int, m: int)
    requires m > 0
    ensures x >= 0 ==> x % m <= x
  {
    if 0 <= x < m {
      DivModUnique(x, m, 0, x);
    }
  }

  lemma WrapSame(x: int)
    requires 0 <= x < Pow2(64)
    ensures U64(x) == x
  {
    DivModUnique(x, Pow2(64), 0, x);
  }

  /** With sizes close to 2^64 the sums wrap around, and accesses that overlap are told apart: i + 5 and i, of eight bits. */
  lemma HugeSizesMislead(known: Masks)
    ensures var i := Opaque(0, 8);
            var j := Bin(Add, i, 5, false, false, 1);
            var vars := [VarIndex(j, 56, 1), VarIndex(i, 56, -1)];
            var size := 0xFFFF_FFFF_FFFF_FFFC;
            && Usable(vars, 64) && ConstantOffsetHeuristic(vars, size, size, 8, known, v => true)
            && !SumsFit(size, size, 8)
            && forall env: Env :: env(0) == 0 ==> !Disjoint(8 + SumRead(env, vars), size, size)
  {
    var i := Opaque(0, 8);
    var j := Bin(Add, i, 5, false, false, 1);
    var vars := [VarIndex(j, 56, 1), VarIndex(i, 56, -1)];
    assert Pow2(8) == 256;
    Pow64();
    PlusFive(known, i, j);
    WrapSame(5);
    DivModUnique(0x1_0000_0000_0000_0004, Pow2(64), 1, 4);
    hide Linear, Pow2, Congruent, U64;
    assert Usable(vars, 64);
    assert U64(0xFFFF_FFFF_FFFF_FFFC + 8) == 4 by { U64Is(0xFFFF_FFFF_FFFF_FFFC + 8); }
    assert MinDiff(5, 256) == 5;
    forall env: Env | env(0) == 0
      ensures !Disjoint(8 + SumRead(env, vars), 0xFFFF_FFFF_FFFF_FFFC, 0xFFFF_FFFF_FFFF_FFFC)
    {
      SumTwo(env, vars);
      assert Eval(env, i) == 0 && Eval(env, j) == 5;
      hide SumRead;
    }
  }

  lemma U64Is(x: int)
    ensures U64(x) == x % Pow2(64)
  {
  }

  lemma PlusFive(known: Masks, i: Value, j: Value)
    requires i == Opaque(0, 8) && j == Bin(Add, i, 5, false, false, 1)
    ensures Linear(known, i, 8, 0) == Itself(i)
    ensures Linear(known, j, 8, 0) == Lin(i, 1, 5, 0, false, false)
  {
    assert Pow2(8) == 256;
    assert Linear(known, i, 8, 1) == Itself(i);
    hide Pow2;
  }

  lemma Pow64()
    ensures Pow2(63) == 0x8000_0000_0000_0000 && Pow2(64) == 0x1_0000_0000_0000_0000
  {
    assert Pow2(8) == 256;
    Pow2Add(8, 8);
    Pow2Add(16, 16);
    Pow2Add(32, 32);
    assert Pow2(64) == 2 * Pow2(63);
  }

  // ---------- The rules ----------

  /** Which rule gave the answer; k is the exponent of the power of two of the modulo rule. */
  datatype Rule = NoRule | ConstantRule | ModuloRule(k: nat) | SignRule | GapRule

  /** The sums of the heuristic do not wrap around, and the scale can be negated. */
  predicate GapSafe(vars: seq<VarIndex>, size1: nat, size2: nat, base: int) {
    |vars| == 2 && SumsFit(size1, size2, base) && vars[1].scale != -Pow2(63)
  }

  /** What the modulo rule has found: both accesses fit between multiples of a power of two that divides all scales. */
  predicate ModuloFits(vars: seq<VarIndex>, size1: nat, size2: nat, base: int, k: nat) {
    && k <= 64 && OrAll(vars) % Pow2(k) == 0 && size1 != UNKNOWN && size2 != UNKNOWN
    && var m := BitAnd(U64(base), Pow2(k) - 1); m >= size2 && size1 <= Pow2(k) - m
  }

  /** Both accesses fit between multiples of the largest power of two that divides all scales. */
  ghost predicate ApartModulo(vars: seq<VarIndex>, size1: nat, size2: nat, base: int) {
    size1 != UNKNOWN && size2 != UNKNOWN && exists k :: CommonPower(vars, k) && FitsBetween(size1, size2, base, k)
  }

  predicate FitsBetween(size1: nat, size2: nat, base: int, k: nat) {
    base % Pow2(k) >= size2 && size1 <= Pow2(k) - base % Pow2(k)
  }

  ghost predicate NoneNegative(signs: Signs, vars: seq<VarIndex>) {
    forall i :: 0 <= i < |vars| ==> NeverNegative(signs, vars[i])
  }

  /**
   Which answer there is, in terms of the distance only: at a constant distance it depends on that
   and on the sizes, if those needed are known; otherwise one of three rules has to apply.
   */
  ghost predicate AnswerIs(r: AliasResult, base: int, vars: seq<VarIndex>, size1: nat, size2: nat, signs: Signs, known: Masks,
                           acyclic: Value -> bool) {
    if vars == [] then
      if base == 0 then r == MustAlias
      else if base > 0 then r == if size2 == UNKNOWN then MayAlias else if base < size2 then PartialAlias else NoAlias
      else r == if size1 == UNKNOWN || size2 == UNKNOWN then MayAlias else if -base < size1 then PartialAlias else NoAlias
    else
      r == if || ApartModulo(vars, size1, size2, base)
              || (base > 0 && size2 <= base && NoneNegative(signs, vars))
              || ConstantOffsetHeuristic(vars, size1, size2, base, known, acyclic)
           then NoAlias else MayAlias
  }

  /** A power of two that divides all scales is no larger than the largest one. */
  lemma OneCommonPower(vars: seq<VarIndex>, j: nat, k: nat)
    requires CommonPower(vars, j) && CommonPower(vars, k)
    ensures j == k
  {
    if j < k {
      DividesLess(vars, j + 1, k);
    } else if k < j {
      DividesLess(vars, k + 1, j);
    }
  }

  lemma DividesLess(vars: seq<VarIndex>, j: nat, k: nat)
    requires j <= k && DividesAll(vars, k)
    ensures DividesAll(vars, j)
  {
    forall i | 0 <= i < |vars| ensures vars[i].scale % Pow2(j) == 0 {
      ZeroMod(Pow2(k));
      Narrow(vars[i].scale, 0, j, k);
      ZeroMod(Pow2(j));
    }
  }

  /** The test of the code, for the lowest bit of all scales. */
  lemma ApartModuloIff(vars: seq<VarIndex>, size1: nat, size2: nat, base: int, k: nat)
    requires CommonPower(vars, k) && k <= 64
    ensures var m := BitAnd(U64(base), Pow2(k) - 1);
            ApartModulo(vars, size1, size2, base) <==> size1 != UNKNOWN && size2 != UNKNOWN && m >= size2 && size1 <= Pow2(k) - m
  {
    AndMask(U64(base), k);
    SignedDivides(base, k);
    hide Pow2, BitAnd, U64, CommonPower;
    if j :| CommonPower(vars, j) && FitsBetween(size1, size2, base, j) {
      OneCommonPower(vars, j, k);
    }
  }

  lemma AllPositiveIff(signs: Signs, vars: seq<VarIndex>)
    requires forall i :: 0 <= i < |vars| ==> vars[i].scale != 0
    ensures NoneNegative(signs, vars) <==> forall i :: 0 <= i < |vars| ==> Positive(signs, vars[i])
  {
    hide Positive, NeverNegative;
    forall i | 0 <= i < |vars| ensures Positive(signs, vars[i]) <==> NeverNegative(signs, vars[i]) {
      PositiveIff(signs, vars[i]);
    }
  }

  ghost predicate RightForAll(r: AliasResult, base: int, vars: seq<VarIndex>, size1: nat, size2: nat, signs: Signs, known: Masks) {
    forall env {:trigger SumRead(env, vars)} ::
      SignsSound(signs, env) && Sound(known, env) && VarsDefined(env, vars) ==> Right(r, base + SumRead(env, vars), size1, size2)
  }

  /**
   The end of aliasGEP, for pointers at a distance of base plus the sum of vars: whatever the
   variables are, the answer is right; only that of the heuristic needs sums that do not wrap around.
   The distance is taken not to wrap around. It is exactly the answer that AnswerIs says.
   */
  method AliasAtDistance(base: int, vars: seq<VarIndex>, size1: nat, size2: nat, signs: Signs, known: Masks,
                         acyclic: Value -> bool, ghost bits: nat) returns (r: AliasResult, ghost rule: Rule)
    requires Usable(vars, bits) && size1 <= UNKNOWN && size2 <= UNKNOWN && -Pow2(63) <= base < Pow2(63)
    ensures !ConstantOffsetHeuristic(vars, size1, size2, base, known, acyclic) || GapSafe(vars, size1, size2, base) ==>
              RightForAll(r, base, vars, size1, size2, signs, known)
    ensures rule != GapRule ==> RightForAll(r, base, vars, size1, size2, signs, known)
    ensures rule == GapRule ==> r == NoAlias && ConstantOffsetHeuristic(vars, size1, size2, base, known, acyclic)
    ensures rule.ModuloRule? ==> r == NoAlias && ModuloFits(vars, size1, size2, base, rule.k)
    ensures rule == NoRule <==> r == MayAlias
    ensures AnswerIs(r, base, vars, size1, size2, signs, known, acyclic)
  {
    hide ApartModulo, NoneNegative, CommonPower;
    hide Sound, SignsSound, Linear, ConstantOffsetHeuristic, SumsFit, Lowest, BitAnd, BitOr, OrAll, U64, Positive, Pow2;
    if base == 0 && vars == [] {
      return MustAlias, ConstantRule;
    }
    if base != 0 && vars == [] {
      if base >= 0 {
        if size2 != UNKNOWN {
          return if base < size2 then PartialAlias else NoAlias, ConstantRule;
        }
      } else {
        if size1 != UNKNOWN && size2 != UNKNOWN {
          return if -base < size1 then PartialAlias else NoAlias, ConstantRule;
        }
      }
    }
    if vars != [] {
      var modulo: nat := 0;
      OrAllNone(vars);
      var allPositive := true;
      for i := 0 to |vars|
        invariant modulo == OrAll(vars[..i])
        invariant allPositive <==> forall j :: 0 <= j < i ==> Positive(signs, vars[j])
      {
        OrAllNext(vars, i);
        modulo := BitOr(modulo, U64(vars[i].scale));
        if allPositive {
          allPositive := Positive(signs, vars[i]);
        }
      }
      assert vars[..|vars|] == vars;
      OrAllPositive(vars);
      ghost var k := LowestBelow(modulo, vars);
      ApartModuloIff(vars, size1, size2, base, k);
      AllPositiveIff(signs, vars);
      modulo := Lowest(modulo);
      var modOffset := BitAnd(U64(base), modulo - 1);
      if size1 != UNKNOWN && size2 != UNKNOWN && modOffset >= size2 && size1 <= modulo - modOffset {
        ModuloRight(base, vars, size1, size2, signs, known, k);
        return NoAlias, ModuloRule(k);
      }
      if allPositive && base > 0 && size2 <= base {
        PositiveRight(base, vars, size1, size2, signs, known, bits);
        return NoAlias, SignRule;
      }
      if ConstantOffsetHeuristic(vars, size1, size2, base, known, acyclic) {
        GapRight(base, vars, size1, size2, signs, known, acyclic, bits);
        return NoAlias, GapRule;
      }
    }
    return MayAlias, NoRule;
  }

  lemma OrAllNone(vars: seq<VarIndex>)
    ensures OrAll(vars[..0]) == 0
  {
    assert vars[..0] == [];
  }

  lemma OrAllNext(vars: seq<VarIndex>, i: nat)
    requires i < |vars|
    ensures OrAll(vars[..i + 1]) == BitOr(OrAll(vars[..i]), U64(vars[i].scale))
  {
    var next := vars[..i + 1];
    assert next[..|next| - 1] == vars[..i];
    hide BitOr, U64;
  }

  lemma LowestBelow(m: nat, vars: seq<VarIndex>) returns (k: nat)
    requires m > 0 && m == OrAll(vars)
    ensures Lowest(m) == Pow2(k) && k <= 64 && OrAll(vars) % Pow2(k) == 0 && CommonPower(vars, k)
  {
    k := LowestIs(m);
    OrFits64(vars);
    if k >= 64 {
      Pow2Grows(64, k);
      DivModUnique(m, Pow2(k), 0, m);
      assert false;
    }
    OddQuotient(m, Pow2(k));
    OrAllDividesIff(vars, k);
    OrAllDividesIff(vars, k + 1);
  }

  lemma OddQuotient(m: nat, p: int)
    requires p > 0 && m % p == 0 && (m / p) % 2 == 1
    ensures m % (2 * p) != 0
  {
    var h := (m / p) / 2;
    assert m / p == 2 * h + 1;
    assert m == p * (m / p) == p * (2 * h + 1);
    assert p * (2 * h + 1) == (2 * p) * h + p;
    DivModUnique(m, 2 * p, h, p);
  }

  lemma ModuloRight(base: int, vars: seq<VarIndex>, size1: nat, size2: nat, signs: Signs, known: Masks, k: nat)
    requires ModuloFits(vars, size1, size2, base, k)
    ensures RightForAll(NoAlias, base, vars, size1, size2, signs, known)
  {
    hide Pow2, BitAnd, OrAll, U64, Sound, SignsSound, VarsDefined;
    forall env: Env
      ensures Right(NoAlias, base + SumRead(env, vars), size1, size2)
    {
      ModOffsetIs(env, vars, base, k);
      ModuloGap(base + SumRead(env, vars), Pow2(k), BitAnd(U64(base), Pow2(k) - 1), size1, size2);
    }
  }

  lemma PositiveRight(base: int, vars: seq<VarIndex>, size1: nat, size2: nat, signs: Signs, known: Masks, bits: nat)
    requires Usable(vars, bits) && (forall i :: 0 <= i < |vars| ==> Positive(signs, vars[i]))
    requires 0 < base < Pow2(63) && size2 <= base
    ensures RightForAll(NoAlias, base, vars, size1, size2, signs, known)
  {
    Pow64();
    hide Pow2, Sound, SignsSound, VarsDefined, Positive, Usable;
    forall env: Env | SignsSound(signs, env)
      ensures Right(NoAlias, base + SumRead(env, vars), size1, size2)
    {
      PositiveSum(env, signs, vars, bits);
    }
  }

  lemma GapRight(base: int, vars: seq<VarIndex>, size1: nat, size2: nat, signs: Signs, known: Masks, acyclic: Value -> bool, bits: nat)
    requires Usable(vars, bits) && ConstantOffsetHeuristic(vars, size1, size2, base, known, acyclic)
    ensures |vars| == 2 && (GapSafe(vars, size1, size2, base) ==> RightForAll(NoAlias, base, vars, size1, size2, signs, known))
  {
    assert |vars| == 2 && size1 != UNKNOWN && size2 != UNKNOWN;
    hide Pow2, Sound, SignsSound, VarsDefined, SumsFit, Usable, ConstantOffsetHeuristic;
    if SumsFit(size1, size2, base) && vars[1].scale != -Pow2(63) {
      forall env: Env | Sound(known, env) && VarsDefined(env, vars)
        ensures Right(NoAlias, base + SumRead(env, vars), size1, size2)
      {
        HeuristicRight(env, vars, size1, size2, base, known, acyclic, bits);
      }
    }
  }
}
