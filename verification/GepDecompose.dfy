/**
 BasicAAResult::DecomposeGEPExpression: a pointer as a base, a constant offset and
 scaled variables, in the wrapping arithmetic of 64-bit numbers.
 */
module GepDecompose {
  import opened Arith
  import opened GepValues
  import opened GepLinear

  // ---------- 64-bit numbers ----------

  /** x as a signed number of n bits. */
  function Signed(x: int, n: nat): int
    requires n > 0
  {
    var u := x % Pow2(n);
    if u < Pow2(n - 1) then u else u - Pow2(n)
  }

  lemma SignedIs(x: int, n: nat)
    requires n > 0
    ensures -Pow2(n - 1) <= Signed(x, n) < Pow2(n - 1)
    ensures Congruent(Signed(x, n), x, Pow2(n))
  {
    var m := Pow2(n);
    CongruentMod(x, m);
    ModShift(x % m, -1, m);
  }

  function Wrap64(x: int): int { Signed(x, 64) }

  lemma WrapIs(x: int, p: nat)
    requires p <= 64
    ensures Congruent(Wrap64(x), x, Pow2(p))
  {
    SignedIs(x, 64);
    hide Signed;
    Narrow(Wrap64(x), x, p, 64);
  }

  /** Shift left, then arithmetically right: Dafny's division by a positive number rounds down. */
  function AdjustToPointerSize(x: int, p: nat): int
    requires 1 <= p <= 64
  {
    Wrap64(x * Pow2(64 - p)) / Pow2(64 - p)
  }

  /** adjustToPointerSize is sign extension from the size of a pointer. */
  lemma AdjustIs(x: int, p: nat)
    requires 1 <= p <= 64
    ensures AdjustToPointerSize(x, p) == Signed(x, p)
    ensures Congruent(AdjustToPointerSize(x, p), x, Pow2(p))
  {
    var k, m, n := Pow2(64 - p), Pow2(p), Signed(x, p);
    SignedIs(x, p);
    var j := CongruentApart(n, x, m);
    Pow2Add(p, 64 - p);
    Pow2Add(p - 1, 64 - p);
    hide Signed, Pow2, Congruent;
    ScaledSigned(x, n, j, k, p);
    DivModUnique(Wrap64(x * k), k, n, 0);
  }

  /** Shifting a p-bit number to the top of 64 bits. */
  lemma ScaledSigned(x: int, n: int, j: int, k: int, p: nat)
    requires 1 <= p <= 64 && k == Pow2(64 - p) && n == x + Pow2(p) * j && -Pow2(p - 1) <= n < Pow2(p - 1)
    requires Pow2(64) == Pow2(p) * k && Pow2(63) == Pow2(p - 1) * k
    ensures Wrap64(x * k) == k * n
  {
    hide Pow2, Signed, Congruent;
    Distribute(x, Pow2(p), j, k);
    CongruentBy(n * k, x * k, j, Pow2(64));
    InRange(n, Pow2(p - 1), k);
    SignedUnique(x * k, n * k, 64);
  }

  lemma Distribute(x: int, a: int, j: int, k: int)
    ensures (x + a * j) * k == x * k + (a * k) * j
  {
    assert (x + a * j) * k == x * k + (a * j) * k;
    assert (a * j) * k == (a * k) * j;
  }

  lemma InRange(n: int, h: int, k: int)
    requires k > 0 && -h <= n < h
    ensures -(h * k) <= n * k < h * k
  {
  }

  lemma SignedUnique(x: int, n: int, w: nat)
    requires w > 0 && Congruent(n, x, Pow2(w)) && -Pow2(w - 1) <= n < Pow2(w - 1)
    ensures Signed(x, w) == n
  {
    var m := Pow2(w);
    if n >= 0 {
      DivModUnique(n, m, 0, n);
    } else {
      DivModUnique(n, m, -1, n + m);
    }
  }

  // ---------- Pointers ----------

  /** An index of a getelementptr: a struct field, or an element of an array of elements of a size. */
  datatype Index = Field(no: nat, offset: nat) | At(v: Value, size: nat)

  /**
   A pointer value. Root stands for everything that is not looked through. A global alias is
   looked through unless it may be replaced, a call if it returns one of its arguments, other
   instructions if they simplify, and a getelementptr if its type has a size.
   */
  datatype Ptr =
    | Root(id: nat)
    | GlobalAlias(p: Ptr, interposable: bool, id: nat)
    | Cast(p: Ptr)
    | ReturnedArg(p: Ptr)
    | Simplified(p: Ptr)
    | Gep(p: Ptr, sized: bool, indices: seq<Index>, id: nat)

  datatype World = World(vars: Env, roots: nat -> int)

  /** What an index adds to an address: it is sign-extended. */
  function IndexOffset(w: World, x: Index): int {
    match x
    case Field(_, offset) => offset
    case At(v, size) => if Width(v) == 0 then 0 else size * Signed(Eval(w.vars, v), Width(v))
  }

  function Offsets(w: World, xs: seq<Index>): int {
    if xs == [] then 0 else Offsets(w, xs[..|xs| - 1]) + IndexOffset(w, xs[|xs| - 1])
  }

  function Addr(w: World, p: Ptr): int {
    match p
    case Root(id) => w.roots(id)
    case GlobalAlias(q, interposable, id) => if interposable then w.roots(id) else Addr(w, q)
    case Cast(q) => Addr(w, q)
    case ReturnedArg(q) => Addr(w, q)
    case Simplified(q) => Addr(w, q)
    case Gep(q, sized, xs, id) => if sized then Addr(w, q) + Offsets(w, xs) else w.roots(id)
  }

  /** Field 0 is at the start of its struct, and variable indices are as wide as a pointer. */
  predicate IndexWf(x: Index, bits: nat) {
    match x
    case Field(no, offset) => no == 0 ==> offset == 0
    case At(v, _) => Wf(v) && if v.Const? then 1 <= Width(v) <= 64 else Width(v) == bits
  }

  predicate AllWf(xs: seq<Index>, bits: nat) { forall k :: 0 <= k < |xs| ==> IndexWf(xs[k], bits) }

  predicate PtrWf(p: Ptr, bits: nat) {
    match p
    case Root(_) => true
    case GlobalAlias(q, _, _) => PtrWf(q, bits)
    case Cast(q) => PtrWf(q, bits)
    case ReturnedArg(q) => PtrWf(q, bits)
    case Simplified(q) => PtrWf(q, bits)
    case Gep(q, _, xs, _) => PtrWf(q, bits) && AllWf(xs, bits)
  }

  predicate IndexDefined(w: World, x: Index) { x.At? ==> Defined(w.vars, x.v) }

  predicate IndicesDefined(w: World, xs: seq<Index>) {
    forall k :: 0 <= k < |xs| ==> IndexDefined(w, xs[k])
  }

  predicate PtrDefined(w: World, p: Ptr) {
    match p
    case Root(_) => true
    case GlobalAlias(q, _, _) => PtrDefined(w, q)
    case Cast(q) => PtrDefined(w, q)
    case ReturnedArg(q) => PtrDefined(w, q)
    case Simplified(q) => PtrDefined(w, q)
    case Gep(q, _, xs, _) => PtrDefined(w, q) && IndicesDefined(w, xs)
  }

  const MAX_LOOKUP: nat := 6

  /** The pointer that is left after looking through at most n others, and whether the limit was reached. */
  function Peel(p: Ptr, n: nat): (Ptr, bool) {
    if n == 0 then (p, true)
    else
      match p
      case Root(_) => (p, false)
      case GlobalAlias(q, interposable, _) => if interposable then (p, false) else Peel(q, n - 1)
      case Cast(q) => Peel(q, n - 1)
      case ReturnedArg(q) => Peel(q, n - 1)
      case Simplified(q) => Peel(q, n - 1)
      case Gep(q, sized, _, _) => if sized then Peel(q, n - 1) else (p, false)
  }

  // ---------- Decomposed pointers ----------

  /** scale * zext(v), where v has been extended by zext bits. */
  datatype VarIndex = VarIndex(v: Value, zext: nat, scale: int)

  datatype Decomposed = Decomposed(base: Ptr, structOffset: int, otherOffset: int, vars: seq<VarIndex>)

  function Term(env: Env, x: VarIndex): int { x.scale * Eval(env, x.v) }

  function SumOf(env: Env, vars: seq<VarIndex>): int {
    if vars == [] then 0 else SumOf(env, vars[..|vars| - 1]) + Term(env, vars[|vars| - 1])
  }

  function OffsetOf(env: Env, d: Decomposed): int { d.structOffset + d.otherOffset + SumOf(env, d.vars) }

  predicate SameKey(x: VarIndex, y: VarIndex) { x.v == y.v && x.zext == y.zext }

  /** A variable that is as wide as a pointer once it is extended, with a scale that is not zero and fits a pointer. */
  ghost predicate Proper(x: VarIndex, bits: nat)
    requires bits >= 1
  {
    && x.scale != 0 && -Pow2(bits - 1) <= x.scale < Pow2(bits - 1)
    && Wf(x.v) && Width(x.v) + x.zext == bits
  }

  /** No variable appears twice. */
  ghost predicate Tidy(vars: seq<VarIndex>, bits: nat)
    requires bits >= 1
  {
    && (forall i, j :: 0 <= i < j < |vars| ==> !SameKey(vars[i], vars[j]))
    && (forall i :: 0 <= i < |vars| ==> Proper(vars[i], bits))
  }

  lemma {:induction false} SumAppend(env: Env, a: seq<VarIndex>, b: seq<VarIndex>)
    ensures SumOf(env, a + b) == SumOf(env, a) + SumOf(env, b)
    decreases |b|
  {
    if b == [] {
      assert a + b == a;
    } else {
      var n := |b| - 1;
      assert (a + b)[..|a + b| - 1] == a + b[..n];
      SumAppend(env, a, b[..n]);
    }
  }

  lemma SumOne(env: Env, x: VarIndex)
    ensures SumOf(env, [x]) == Term(env, x)
  {
    assert [x][..0] == [];
  }

  lemma SumWithout(env: Env, vars: seq<VarIndex>, i: nat)
    requires i < |vars|
    ensures SumOf(env, vars[..i] + vars[i + 1..]) == SumOf(env, vars) - Term(env, vars[i])
  {
    assert vars == vars[..i] + ([vars[i]] + vars[i + 1..]);
    SumAppend(env, vars[..i], [vars[i]] + vars[i + 1..]);
    SumAppend(env, [vars[i]], vars[i + 1..]);
    SumOne(env, vars[i]);
    SumAppend(env, vars[..i], vars[i + 1..]);
  }

  ghost predicate VarsDefined(env: Env, vars: seq<VarIndex>) {
    forall i :: 0 <= i < |vars| ==> Defined(env, vars[i].v)
  }

  /** us has no other variables than vars and v. */
  ghost predicate NoOthers(vars: seq<VarIndex>, us: seq<VarIndex>, v: Value) {
    forall k :: 0 <= k < |us| ==> us[k] in vars || us[k].v == v
  }

  /** us has scale * v more than vars, modulo the size of a pointer. */
  ghost predicate HasMore(vars: seq<VarIndex>, us: seq<VarIndex>, v: Value, scale: int, bits: nat) {
    forall env: Env {:trigger SumOf(env, us)} ::
      Congruent(SumOf(env, us), SumOf(env, vars) + scale * Eval(env, v), Pow2(bits))
  }

  function U64(x: int): (r: nat)
  {
    x % Pow2(64)
  }

  lemma ScaleTerm(env: Env, v: Value, s: int, t: int, bits: nat)
    requires Congruent(s, t, Pow2(bits))
    ensures Congruent(s * Eval(env, v), t * Eval(env, v), Pow2(bits))
  {
    CongruentMul(s, t, Eval(env, v), Eval(env, v), Pow2(bits));
  }

  ghost predicate FreshKey(vars: seq<VarIndex>, v: Value, zext: nat) {
    forall i :: 0 <= i < |vars| ==> vars[i].v != v || vars[i].zext != zext
  }

  lemma TidyWithout(vars: seq<VarIndex>, i: nat, bits: nat)
    requires bits >= 1 && Tidy(vars, bits) && i < |vars|
    ensures var rest := vars[..i] + vars[i + 1..]; Tidy(rest, bits) && FreshKey(rest, vars[i].v, vars[i].zext)
  {
    var rest := vars[..i] + vars[i + 1..];
    assert forall j :: 0 <= j < |rest| ==> rest[j] == vars[if j < i then j else j + 1];
  }

  lemma TidyAppend(vars: seq<VarIndex>, x: VarIndex, bits: nat)
    requires bits >= 1 && Tidy(vars, bits) && FreshKey(vars, x.v, x.zext)
    requires Proper(x, bits)
    ensures Tidy(vars + [x], bits)
  {
  }

  // ---------- How much there is of each variable ----------

  /** The scale of a variable, 0 if it is not there; of a variable that is there twice, both scales. */
  function Coefficient(vars: seq<VarIndex>, v: Value, zext: nat): int {
    if vars == [] then 0
    else
      var x := vars[|vars| - 1];
      Coefficient(vars[..|vars| - 1], v, zext) + if x.v == v && x.zext == zext then x.scale else 0
  }

  lemma {:induction false} CoefficientAppend(a: seq<VarIndex>, b: seq<VarIndex>, v: Value, zext: nat)
    ensures Coefficient(a + b, v, zext) == Coefficient(a, v, zext) + Coefficient(b, v, zext)
    decreases |b|
  {
    if b == [] {
      assert a + b == a;
    } else {
      var n := |b| - 1;
      assert (a + b)[..|a + b| - 1] == a + b[..n];
      CoefficientAppend(a, b[..n], v, zext);
    }
  }

  lemma CoefficientOne(x: VarIndex, v: Value, zext: nat)
    ensures Coefficient([x], v, zext) == if x.v == v && x.zext == zext then x.scale else 0
  {
    assert [x][..0] == [];
  }

  lemma {:induction false} CoefficientFresh(vars: seq<VarIndex>, v: Value, zext: nat)
    requires FreshKey(vars, v, zext)
    ensures Coefficient(vars, v, zext) == 0
    decreases |vars|
  {
    if vars != [] {
      CoefficientFresh(vars[..|vars| - 1], v, zext);
    }
  }

  lemma CoefficientWithout(vars: seq<VarIndex>, i: nat, v: Value, zext: nat)
    requires i < |vars|
    ensures Coefficient(vars[..i] + vars[i + 1..], v, zext) ==
            Coefficient(vars, v, zext) - if vars[i].v == v && vars[i].zext == zext then vars[i].scale else 0
  {
    assert vars == vars[..i] + ([vars[i]] + vars[i + 1..]);
    CoefficientAppend(vars[..i], [vars[i]] + vars[i + 1..], v, zext);
    CoefficientAppend([vars[i]], vars[i + 1..], v, zext);
    CoefficientOne(vars[i], v, zext);
    CoefficientAppend(vars[..i], vars[i + 1..], v, zext);
  }

  function Only(u: Value, z: nat, v: Value, zext: nat, n: int): int { if u == v && z == zext then n else 0 }

  /** us has scale more of zext(v) than vars, modulo the size of a pointer, and as much of any other variable. */
  ghost predicate Scaled(vars: seq<VarIndex>, us: seq<VarIndex>, v: Value, zext: nat, scale: int, bits: nat) {
    forall u, z {:trigger Coefficient(us, u, z)} ::
      Congruent(Coefficient(us, u, z), Coefficient(vars, u, z) + Only(u, z, v, zext, scale), Pow2(bits))
  }

  lemma MergedCoefficient(vars: seq<VarIndex>, rest: seq<VarIndex>, us: seq<VarIndex>, v: Value, zext: nat, scale0: int, merged: int,
                          fits: int, bits: nat, u: Value, z: nat)
    requires Coefficient(rest, u, z) == Coefficient(vars, u, z) - Only(u, z, v, zext, merged)
    requires Congruent(fits, scale0 + merged, Pow2(bits))
    requires us == if fits == 0 then rest else rest + [VarIndex(v, zext, fits)]
    ensures Congruent(Coefficient(us, u, z), Coefficient(vars, u, z) + Only(u, z, v, zext, scale0), Pow2(bits))
  {
    hide Coefficient, Pow2, Congruent;
    CoefficientAppend(rest, [VarIndex(v, zext, fits)], u, z);
    CoefficientOne(VarIndex(v, zext, fits), u, z);
    var c := Coefficient(rest, u, z);
    assert Coefficient(us, u, z) == c + Only(u, z, v, zext, fits);
    PlusSame(c, fits, scale0 + merged, Pow2(bits));
    SameSum(c, Pow2(bits));
  }

  /** The end of the loop over variable indices: a known variable is merged, and one whose scale becomes zero left out. */
  method MergeVariable(vars: seq<VarIndex>, v: Value, zext: nat, scale0: nat, bits: nat) returns (us: seq<VarIndex>)
    requires 1 <= bits <= 64 && Tidy(vars, bits) && Wf(v) && Width(v) + zext == bits
    ensures Tidy(us, bits) && HasMore(vars, us, v, scale0, bits) && NoOthers(vars, us, v)
    ensures Scaled(vars, us, v, zext, scale0, bits)
  {
    hide Tidy, SumOf, Signed, Congruent, AdjustToPointerSize, U64, Term, Coefficient;
    us := vars;
    var scale := scale0;
    ghost var merged := 0;
    var i := 0;
    while i < |us| && !(us[i].v == v && us[i].zext == zext)
      invariant i <= |us|
      invariant forall j :: 0 <= j < i ==> us[j].v != v || us[j].zext != zext
    {
      i := i + 1;
    }
    if i < |us| {
      merged := us[i].scale;
      scale := U64(scale + us[i].scale);
      TidyWithout(vars, i, bits);
      us := us[..i] + us[i + 1..];
    }
    ghost var rest := us;
    var fits := AdjustToPointerSize(scale, bits);
    FitsFacts(scale, scale0 + merged, bits);
    if fits != 0 {
      TidyAppend(us, VarIndex(v, zext, fits), bits);
      us := us + [VarIndex(v, zext, fits)];
    }
    forall env: Env
      ensures Congruent(SumOf(env, us), SumOf(env, vars) + scale0 * Eval(env, v), Pow2(bits))
    {
      if i < |vars| {
        SumWithout(env, vars, i);
        TermIs(env, vars[i]);
      }
      MergedSum(env, vars, rest, us, v, zext, scale0, merged, fits, bits);
    }
    forall u, z
      ensures Congruent(Coefficient(us, u, z), Coefficient(vars, u, z) + Only(u, z, v, zext, scale0), Pow2(bits))
    {
      if i < |vars| {
        CoefficientWithout(vars, i, u, z);
      }
      MergedCoefficient(vars, rest, us, v, zext, scale0, merged, fits, bits, u, z);
    }
  }

  lemma TermIs(env: Env, x: VarIndex)
    ensures Term(env, x) == x.scale * Eval(env, x.v)
  {
  }

  lemma FitsFacts(scale: int, exact: int, bits: nat)
    requires 1 <= bits <= 64 && (scale == exact || scale == U64(exact))
    ensures var fits := AdjustToPointerSize(scale, bits);
            Congruent(fits, exact, Pow2(bits)) && -Pow2(bits - 1) <= fits < Pow2(bits - 1)
  {
    CongruentMod(exact, Pow2(64));
    Narrow(scale, exact, bits, 64);
    AdjustIs(scale, bits);
    SignedIs(scale, bits);
    hide AdjustToPointerSize, Signed, Pow2, U64;
  }

  lemma MergedSum(env: Env, vars: seq<VarIndex>, rest: seq<VarIndex>, us: seq<VarIndex>, v: Value, zext: nat,
                  scale0: int, merged: int, fits: int, bits: nat)
    requires SumOf(env, rest) == SumOf(env, vars) - merged * Eval(env, v)
    requires Congruent(fits, scale0 + merged, Pow2(bits))
    requires us == if fits == 0 then rest else rest + [VarIndex(v, zext, fits)]
    ensures Congruent(SumOf(env, us), SumOf(env, vars) + scale0 * Eval(env, v), Pow2(bits))
  {
    hide Congruent, SumOf, Eval, Pow2, Term;
    var u := Eval(env, v);
    if fits == 0 {
      ZeroTimes(u);
    } else {
      SumAppend(env, rest, [VarIndex(v, zext, fits)]);
      SumOne(env, VarIndex(v, zext, fits));
      TermIs(env, VarIndex(v, zext, fits));
    }
    assert SumOf(env, us) == SumOf(env, rest) + fits * u;
    ScaleTerm(env, v, fits, scale0 + merged, bits);
    SumShift(SumOf(env, us), SumOf(env, rest), SumOf(env, vars), fits, scale0, merged, u, Pow2(bits));
  }

  lemma ZeroTimes(u: int)
    ensures 0 * u == 0
  {
  }

  lemma SumShift(a: int, rest: int, before: int, fits: int, scale: int, merged: int, u: int, m: int)
    requires m > 0 && a == rest + fits * u && rest == before - merged * u
    requires Congruent(fits * u, (scale + merged) * u, m)
    ensures Congruent(a, before + scale * u, m)
  {
    CongruentAdd(rest, rest, fits * u, (scale + merged) * u, m);
    hide Congruent;
    assert (scale + merged) * u == scale * u + merged * u;
  }

  // ---------- The indices of one getelementptr ----------

  /** In every world d' is d moved by the offsets of xs, modulo the size of a pointer. */
  ghost predicate Moves(d: Decomposed, d': Decomposed, known: Masks, xs: seq<Index>, bits: nat) {
    forall w: World {:trigger Offsets(w, xs)} ::
      Sound(known, w.vars) && IndicesDefined(w, xs) ==>
        && Congruent(OffsetOf(w.vars, d'), OffsetOf(w.vars, d) + Offsets(w, xs), Pow2(bits))
        && (VarsDefined(w.vars, d.vars) ==> VarsDefined(w.vars, d'.vars))
  }

  lemma ConstantSteps(w: World, d: Decomposed, d': Decomposed, x: Index, known: Masks, bits: nat)
    requires 1 <= bits <= 64 && IndexWf(x, bits) && d'.vars == d.vars
    requires match x
             case Field(no, offset) =>
               d'.otherOffset == d.otherOffset && d'.structOffset == if no == 0 then d.structOffset else Wrap64(d.structOffset + offset)
             case At(v, size) =>
               && v.Const? && d'.structOffset == d.structOffset
               && d'.otherOffset == if v.c == 0 then d.otherOffset else Wrap64(d.otherOffset + size * Signed(v.c, v.width))
    ensures Congruent(OffsetOf(w.vars, d'), OffsetOf(w.vars, d) + IndexOffset(w, x), Pow2(bits))
  {
    hide Wrap64, Signed, Pow2, Congruent, Wf, SumOf;
    SameSum(OffsetOf(w.vars, d), Pow2(bits));
    match x {
    case Field(no, offset) => WrappedSum(d.structOffset, offset, d.otherOffset + SumOf(w.vars, d.vars), bits);
    case At(v, size) =>
      ZeroSigned(v.width);
      WrappedSum(d.otherOffset, size * Signed(v.c, v.width), d.structOffset + SumOf(w.vars, d.vars), bits);
    }
  }

  lemma ZeroSigned(n: nat)
    requires n > 0
    ensures Signed(0, n) == 0
  {
  }

  lemma LinearAt(env: Env, known: Masks, v: Value, bits: nat)
    requires Wf(v) && Width(v) == bits && Sound(known, env) && Defined(env, v)
    ensures var r := Linear(known, v, bits, 0); Congruent(Eval(env, v), r.scale * Eval(env, r.v) + r.offset, Pow2(bits))
  {
    LinearMeans(env, known, v, bits, 0);
    hide Congruent, Linear, Eval, Pow2, Sound;
  }

  /** size * index, of an index decomposed as scale * v + offset. */
  lemma VariableTerm(w: World, known: Masks, v: Value, size: nat, bits: nat)
    requires 1 <= bits <= 64 && Wf(v) && Width(v) == bits && Sound(known, w.vars) && Defined(w.vars, v)
    ensures var r := Linear(known, v, bits, 0);
            Congruent(IndexOffset(w, At(v, size)),
                      (size * Signed(r.scale, bits)) * Eval(w.vars, r.v) + size * Signed(r.offset, bits), Pow2(bits))
  {
    hide Congruent, Linear, Eval, Signed, Pow2, Sound, Defined, Wf;
    var r, m, e := Linear(known, v, bits, 0), Pow2(bits), Eval(w.vars, v);
    LinearAt(w.vars, known, v, bits);
    SignedIs(e, bits);
    SignedIs(r.scale, bits);
    SignedIs(r.offset, bits);
    var u, s, o := Eval(w.vars, r.v), Signed(r.scale, bits), Signed(r.offset, bits);
    SameLinear(r.scale, s, r.offset, o, u, m);
    CongruentTrans(Signed(e, bits), e, r.scale * u + r.offset, m);
    CongruentTrans(Signed(e, bits), r.scale * u + r.offset, s * u + o, m);
    TimesSize(size, Signed(e, bits), s, u, o, m);
  }

  lemma SameLinear(s: int, s': int, o: int, o': int, u: int, m: int)
    requires m > 0 && Congruent(s', s, m) && Congruent(o', o, m)
    ensures Congruent(s * u + o, s' * u + o', m)
  {
    CongruentMul(s, s', u, u, m);
    CongruentAdd(s * u, s' * u, o, o', m);
  }

  lemma TimesSize(size: int, e: int, s: int, u: int, o: int, m: int)
    requires m > 0 && Congruent(e, s * u + o, m)
    ensures Congruent(size * e, (size * s) * u + size * o, m)
  {
    CongruentMul(size, size, e, s * u + o, m);
    hide Congruent;
    assert size * (s * u + o) == (size * s) * u + size * o;
  }

  lemma VariableStep(w: World, d: Decomposed, d': Decomposed, v: Value, size: nat, known: Masks, bits: nat)
    requires 1 <= bits <= 64 && Wf(v) && Width(v) == bits && Sound(known, w.vars) && Defined(w.vars, v)
    requires var r := Linear(known, v, bits, 0);
             && d'.structOffset == d.structOffset
             && d'.otherOffset == Wrap64(d.otherOffset + Signed(r.offset, bits) * size)
             && HasMore(d.vars, d'.vars, r.v, U64(size * Signed(r.scale, bits)), bits)
    ensures Congruent(OffsetOf(w.vars, d'), OffsetOf(w.vars, d) + IndexOffset(w, At(v, size)), Pow2(bits))
  {
    var r, m := Linear(known, v, bits, 0), Pow2(bits);
    var s, o, u := size * Signed(r.scale, bits), size * Signed(r.offset, bits), Eval(w.vars, r.v);
    VariableTerm(w, known, v, size, bits);
    WrapIs(d.otherOffset + o, bits);
    CongruentMod(s, Pow2(64));
    Narrow(U64(s), s, bits, 64);
    ScaleTerm(w.vars, r.v, U64(s), s, bits);
    var a, a', b' := SumOf(w.vars, d.vars), SumOf(w.vars, d'.vars), Wrap64(d.otherOffset + o);
    assert Congruent(a', a + U64(s) * u, m);
    hide Congruent, Linear, Eval, Signed, Pow2, Sound, Wrap64, U64, SumOf, HasMore, IndexOffset;
    Gather(a', a, U64(s) * u, s * u, b', d.otherOffset + o, IndexOffset(w, At(v, size)), o, d.structOffset, d.otherOffset, m);
  }

  lemma Gather(a': int, a: int, t': int, t: int, b': int, b: int, x: int, o: int, st: int, ot: int, m: int)
    requires m > 0 && b == ot + o
    requires Congruent(a', a + t', m) && Congruent(t', t, m) && Congruent(b', b, m) && Congruent(x, t + o, m)
    ensures Congruent(st + b' + a', st + ot + a + x, m)
  {
    CongruentAdd(a, a, t', t, m);
    CongruentTrans(a', a + t', a + t, m);
    CongruentAdd(b', b, a', a + t, m);
    CongruentAdd(st, st, b' + a', b + (a + t), m);
    CongruentAdd(st + ot + a, st + ot + a, t + o, x, m);
    hide Congruent;
    assert st + (b + (a + t)) == st + ot + a + (t + o);
    CongruentTrans(st + b' + a', st + ot + a + (t + o), st + ot + a + x, m);
  }

  ghost predicate MovesBy(d: Decomposed, d': Decomposed, known: Masks, x: Index, bits: nat) {
    forall w: World {:trigger IndexDefined(w, x)} :: Sound(known, w.vars) && IndexDefined(w, x) ==>
      && Congruent(OffsetOf(w.vars, d'), OffsetOf(w.vars, d) + IndexOffset(w, x), Pow2(bits))
      && (VarsDefined(w.vars, d.vars) ==> VarsDefined(w.vars, d'.vars))
  }

  lemma {:induction false} LinearDefined(env: Env, known: Masks, e: Value, width: nat, depth: nat)
    requires Defined(env, e)
    ensures Defined(env, Linear(known, e, width, depth).v)
    decreases e
  {
    hide Pow2, NewScale, NewOffset, Eval;
    if depth != MAX_DEPTH {
      match e
      case Const(_, _) =>
      case Opaque(_, _) =>
      case Bin(_, x, _, _, _, _) => LinearDefined(env, known, x, width, depth + 1);
      case ZExt(x, _, _) => LinearDefined(env, known, x, width, depth + 1);
    }
  }

  lemma MoreDefined(env: Env, known: Masks, vars: seq<VarIndex>, us: seq<VarIndex>, v: Value, bits: nat)
    requires NoOthers(vars, us, Linear(known, v, bits, 0).v) && Defined(env, v) && VarsDefined(env, vars)
    ensures VarsDefined(env, us)
  {
    LinearDefined(env, known, v, bits, 0);
    hide Linear, Defined;
    forall k | 0 <= k < |us|
      ensures Defined(env, us[k].v)
    {
      if us[k] in vars {
        var j :| 0 <= j < |vars| && us[k] == vars[j];
        assert Defined(env, vars[j].v);
      }
    }
  }

  /** What a decomposition consists of: the constant part, and variables. */
  datatype Summand = Constant | Of(v: Value, zext: nat)

  function Amount(d: Decomposed, q: Summand): int {
    match q
    case Constant => d.structOffset + d.otherOffset
    case Of(v, zext) => Coefficient(d.vars, v, zext)
  }

  /** How much of it an index brings, once it has been written as scale * v + offset. */
  function IndexAmount(known: Masks, x: Index, q: Summand, bits: nat): int
    requires bits >= 1 && IndexWf(x, bits)
  {
    match x
    case Field(_, offset) => if q == Constant then offset else 0
    case At(v, size) =>
      if v.Const? then if q == Constant then size * Signed(v.c, v.width) else 0
      else
        var r := Linear(known, v, bits, 0);
        match q
        case Constant => size * Signed(r.offset, bits)
        case Of(u, zext) => if r.v == u && r.zext == zext then size * Signed(r.scale, bits) else 0
  }

  ghost predicate AmountsMove(d: Decomposed, d': Decomposed, known: Masks, x: Index, bits: nat)
    requires bits >= 1 && IndexWf(x, bits)
  {
    forall q {:trigger Amount(d', q)} :: Congruent(Amount(d', q), Amount(d, q) + IndexAmount(known, x, q, bits), Pow2(bits))
  }

  lemma ConstantAmounts(d: Decomposed, d': Decomposed, known: Masks, x: Index, bits: nat)
    requires 1 <= bits <= 64 && IndexWf(x, bits) && d'.vars == d.vars
    requires match x
             case Field(no, offset) =>
               d'.otherOffset == d.otherOffset && d'.structOffset == if no == 0 then d.structOffset else Wrap64(d.structOffset + offset)
             case At(v, size) =>
               && v.Const? && d'.structOffset == d.structOffset
               && d'.otherOffset == if v.c == 0 then d.otherOffset else Wrap64(d.otherOffset + size * Signed(v.c, v.width))
    ensures AmountsMove(d, d', known, x, bits)
  {
    ConstantPart(d, d', known, x, bits);
    hide Wrap64, Signed, Pow2, Linear, Coefficient, Congruent;
    forall v, z ensures Congruent(Coefficient(d'.vars, v, z), Coefficient(d.vars, v, z) + 0, Pow2(bits)) {
      SameSum(Coefficient(d.vars, v, z), Pow2(bits));
    }
  }

  lemma ConstantPart(d: Decomposed, d': Decomposed, known: Masks, x: Index, bits: nat)
    requires 1 <= bits <= 64 && IndexWf(x, bits)
    requires match x
             case Field(no, offset) =>
               d'.otherOffset == d.otherOffset && d'.structOffset == if no == 0 then d.structOffset else Wrap64(d.structOffset + offset)
             case At(v, size) =>
               && v.Const? && d'.structOffset == d.structOffset
               && d'.otherOffset == if v.c == 0 then d.otherOffset else Wrap64(d.otherOffset + size * Signed(v.c, v.width))
    ensures Congruent(Amount(d', Constant), Amount(d, Constant) + IndexAmount(known, x, Constant, bits), Pow2(bits))
  {
    hide Wrap64, Signed, Pow2, Linear, Congruent, Wf;
    SameSum(d.structOffset + d.otherOffset, Pow2(bits));
    match x {
    case Field(no, offset) => WrappedSum(d.structOffset, offset, d.otherOffset, bits);
    case At(v, size) =>
      ZeroSigned(v.width);
      WrappedSum(d.otherOffset, size * Signed(v.c, v.width), d.structOffset, bits);
    }
  }

  lemma WrappedSum(a: int, k: int, rest: int, bits: nat)
    requires bits <= 64
    ensures Congruent(Wrap64(a + k) + rest, a + rest + k, Pow2(bits))
  {
    WrapIs(a + k, bits);
    CongruentAdd(Wrap64(a + k), a + k, rest, rest, Pow2(bits));
  }

  lemma SameSum(a: int, m: int)
    requires m > 0
    ensures Congruent(a, a, m) && Congruent(a, a + 0, m)
  {
  }

  lemma VariableAmounts(d: Decomposed, d': Decomposed, known: Masks, v: Value, size: nat, bits: nat)
    requires 1 <= bits <= 64 && IndexWf(At(v, size), bits) && !v.Const?
    requires var r := Linear(known, v, bits, 0);
             && d'.structOffset == d.structOffset
             && d'.otherOffset == Wrap64(d.otherOffset + Signed(r.offset, bits) * size)
             && Scaled(d.vars, d'.vars, r.v, r.zext, U64(size * Signed(r.scale, bits)), bits)
    ensures AmountsMove(d, d', known, At(v, size), bits)
  {
    var r, m, x := Linear(known, v, bits, 0), Pow2(bits), At(v, size);
    var o, s := size * Signed(r.offset, bits), size * Signed(r.scale, bits);
    WrapIs(d.otherOffset + o, bits);
    CongruentAdd(Wrap64(d.otherOffset + o), d.otherOffset + o, d.structOffset, d.structOffset, m);
    CongruentMod(s, Pow2(64));
    Narrow(U64(s), s, bits, 64);
    hide Wrap64, Signed, Pow2, Linear, Coefficient, Congruent, U64;
    forall q ensures Congruent(Amount(d', q), Amount(d, q) + IndexAmount(known, x, q, bits), m) {
      match q
      case Constant =>
      case Of(u, z) =>
        var a, b := Coefficient(d'.vars, u, z), Coefficient(d.vars, u, z);
        assert Congruent(a, b + Only(u, z, r.v, r.zext, U64(s)), m);
        if u == r.v && z == r.zext {
          PlusSame(b, U64(s), s, m);
          CongruentTrans(a, b + U64(s), b + s, m);
        }
    }
  }

  lemma PlusSame(b: int, x: int, y: int, m: int)
    requires m > 0 && Congruent(x, y, m)
    ensures Congruent(b + x, b + y, m)
  {
    CongruentAdd(b, b, x, y, m);
  }

  /** One turn of the loop over the operands of a getelementptr; still tells that the index was constant. */
  method AddIndex(d: Decomposed, x: Index, known: Masks, bits: nat) returns (d': Decomposed, still: bool)
    requires 1 <= bits <= 64 && IndexWf(x, bits) && Tidy(d.vars, bits)
    ensures Tidy(d'.vars, bits) && d'.base == d.base
    ensures MovesBy(d, d', known, x, bits) && AmountsMove(d, d', known, x, bits)
    ensures still <==> x.Field? || x.v.Const?
  {
    hide Tidy, OffsetOf, IndexOffset, Congruent, Signed, Wrap64, Linear, Sound, HasMore, U64, VarsDefined, NoOthers, Scaled, AmountsMove;
    d', still := d, true;
    match x
    case Field(no, offset) =>
      if no != 0 {
        d' := d.(structOffset := Wrap64(d.structOffset + offset));
      }
      ConstantAmounts(d, d', known, x, bits);
      forall w: World
        ensures Congruent(OffsetOf(w.vars, d'), OffsetOf(w.vars, d) + IndexOffset(w, x), Pow2(bits))
      {
        ConstantSteps(w, d, d', x, known, bits);
      }
    case At(v, size) =>
      if v.Const? {
        if v.c != 0 {
          d' := d.(otherOffset := Wrap64(d.otherOffset + size * Signed(v.c, v.width)));
        }
        ConstantAmounts(d, d', known, x, bits);
        forall w: World
          ensures Congruent(OffsetOf(w.vars, d'), OffsetOf(w.vars, d) + IndexOffset(w, x), Pow2(bits))
        {
          ConstantSteps(w, d, d', x, known, bits);
        }
      } else {
        still := false;
        var r := Linear(known, v, bits, 0);
        LinearWidth(known, v, bits, 0);
        var vars := MergeVariable(d.vars, r.v, r.zext, U64(size * Signed(r.scale, bits)), bits);
        d' := d.(otherOffset := Wrap64(d.otherOffset + Signed(r.offset, bits) * size), vars := vars);
        VariableAmounts(d, d', known, v, size, bits);
        forall w: World | Sound(known, w.vars) && IndexDefined(w, x)
          ensures Congruent(OffsetOf(w.vars, d'), OffsetOf(w.vars, d) + IndexOffset(w, x), Pow2(bits))
          ensures VarsDefined(w.vars, d.vars) ==> VarsDefined(w.vars, d'.vars)
        {
          VariableStep(w, d, d', v, size, known, bits);
          if VarsDefined(w.vars, d.vars) {
            MoreDefined(w.vars, known, d.vars, vars, v, bits);
          }
        }
      }
  }

  lemma MovesMore(d: Decomposed, d1: Decomposed, d2: Decomposed, known: Masks, xs: seq<Index>, k: nat, bits: nat)
    requires k < |xs| && Moves(d, d1, known, xs[..k], bits)
    requires MovesBy(d1, d2, known, xs[k], bits)
    ensures Moves(d, d2, known, xs[..k + 1], bits)
  {
    assert xs[..k + 1][..k] == xs[..k];
    hide Sound, OffsetOf, IndexOffset, Congruent, Pow2, VarsDefined;
    forall w: World | Sound(known, w.vars) && IndicesDefined(w, xs[..k + 1])
      ensures Congruent(OffsetOf(w.vars, d2), OffsetOf(w.vars, d) + Offsets(w, xs[..k + 1]), Pow2(bits))
      ensures VarsDefined(w.vars, d.vars) ==> VarsDefined(w.vars, d2.vars)
    {
      assert xs[..k + 1][k] == xs[k] && IndexDefined(w, xs[..k + 1][k]);
      FewerDefined(w, xs, k);
      var a := OffsetOf(w.vars, d) + Offsets(w, xs[..k]);
      CongruentShift(OffsetOf(w.vars, d1), a, IndexOffset(w, xs[k]), Pow2(bits));
      CongruentTrans(OffsetOf(w.vars, d2), OffsetOf(w.vars, d1) + IndexOffset(w, xs[k]), a + IndexOffset(w, xs[k]), Pow2(bits));
    }
  }

  lemma FewerDefined(w: World, xs: seq<Index>, k: nat)
    requires k < |xs| && IndicesDefined(w, xs[..k + 1])
    ensures IndicesDefined(w, xs[..k])
  {
    forall j | 0 <= j < k
      ensures IndexDefined(w, xs[..k][j])
    {
      assert xs[..k][j] == xs[..k + 1][j];
    }
  }

  lemma CongruentShift(a: int, b: int, k: int, m: int)
    requires m > 0 && Congruent(a, b, m)
    ensures Congruent(a + k, b + k, m)
  {
    CongruentAdd(a, b, k, k, m);
  }

  lemma AdjustMoves(d: Decomposed, d1: Decomposed, d2: Decomposed, known: Masks, xs: seq<Index>, bits: nat)
    requires 1 <= bits <= 64 && Moves(d, d1, known, xs, bits)
    requires d2 == d1.(structOffset := AdjustToPointerSize(d1.structOffset, bits),
                       otherOffset := AdjustToPointerSize(d1.otherOffset, bits))
    ensures Moves(d, d2, known, xs, bits)
  {
    AdjustIs(d1.structOffset, bits);
    AdjustIs(d1.otherOffset, bits);
    hide AdjustToPointerSize, Signed, Sound;
    forall w: World | Sound(known, w.vars) && IndicesDefined(w, xs)
      ensures Congruent(OffsetOf(w.vars, d2), OffsetOf(w.vars, d) + Offsets(w, xs), Pow2(bits))
    {
      CongruentAdd(d2.structOffset, d1.structOffset, d2.otherOffset, d1.otherOffset, Pow2(bits));
      CongruentShift(d2.structOffset + d2.otherOffset, d1.structOffset + d1.otherOffset, SumOf(w.vars, d1.vars), Pow2(bits));
      CongruentTrans(OffsetOf(w.vars, d2), OffsetOf(w.vars, d1), OffsetOf(w.vars, d) + Offsets(w, xs), Pow2(bits));
    }
  }

  function IndicesAmount(known: Masks, xs: seq<Index>, q: Summand, bits: nat): int
    requires bits >= 1 && AllWf(xs, bits)
  {
    if xs == [] then 0
    else IndicesAmount(known, xs[..|xs| - 1], q, bits) + IndexAmount(known, xs[|xs| - 1], q, bits)
  }

  ghost predicate AmountsAdd(d: Decomposed, d': Decomposed, known: Masks, xs: seq<Index>, bits: nat)
    requires bits >= 1 && AllWf(xs, bits)
  {
    forall q {:trigger Amount(d', q)} :: Congruent(Amount(d', q), Amount(d, q) + IndicesAmount(known, xs, q, bits), Pow2(bits))
  }

  lemma AmountsMore(d: Decomposed, d1: Decomposed, d2: Decomposed, known: Masks, xs: seq<Index>, k: nat, bits: nat)
    requires bits >= 1 && k < |xs| && AllWf(xs, bits)
    requires AmountsAdd(d, d1, known, xs[..k], bits) && AmountsMove(d1, d2, known, xs[k], bits)
    ensures AmountsAdd(d, d2, known, xs[..k + 1], bits)
  {
    assert xs[..k + 1][..k] == xs[..k];
    hide Amount, IndexAmount, Congruent, Pow2, IndexWf;
    forall q ensures Congruent(Amount(d2, q), Amount(d, q) + IndicesAmount(known, xs[..k + 1], q, bits), Pow2(bits)) {
      var a, x := Amount(d, q) + IndicesAmount(known, xs[..k], q, bits), IndexAmount(known, xs[k], q, bits);
      assert Congruent(Amount(d1, q), a, Pow2(bits)) && Congruent(Amount(d2, q), Amount(d1, q) + x, Pow2(bits));
      CongruentShift(Amount(d1, q), a, x, Pow2(bits));
      CongruentTrans(Amount(d2, q), Amount(d1, q) + x, a + x, Pow2(bits));
    }
  }

  lemma NoAmount(d: Decomposed, known: Masks, bits: nat)
    requires bits >= 1
    ensures AmountsAdd(d, d, known, [], bits)
  {
    hide Amount, Pow2;
    forall q ensures Congruent(Amount(d, q), Amount(d, q) + 0, Pow2(bits)) {
      SameSum(Amount(d, q), Pow2(bits));
    }
  }

  lemma AdjustAmounts(d: Decomposed, d1: Decomposed, d2: Decomposed, known: Masks, xs: seq<Index>, bits: nat)
    requires 1 <= bits <= 64 && AllWf(xs, bits) && AmountsAdd(d, d1, known, xs, bits)
    requires d2 == d1.(structOffset := AdjustToPointerSize(d1.structOffset, bits),
                       otherOffset := AdjustToPointerSize(d1.otherOffset, bits))
    ensures AmountsAdd(d, d2, known, xs, bits)
  {
    AdjustIs(d1.structOffset, bits);
    AdjustIs(d1.otherOffset, bits);
    CongruentAdd(d2.structOffset, d1.structOffset, d2.otherOffset, d1.otherOffset, Pow2(bits));
    hide AdjustToPointerSize, Signed, Congruent, Pow2, IndicesAmount, Coefficient, IndexWf;
    forall q ensures Congruent(Amount(d2, q), Amount(d, q) + IndicesAmount(known, xs, q, bits), Pow2(bits)) {
      var a := Amount(d, q) + IndicesAmount(known, xs, q, bits);
      assert Congruent(Amount(d1, q), a, Pow2(bits));
      if q == Constant {
        CongruentTrans(Amount(d2, q), Amount(d1, q), a, Pow2(bits));
      }
    }
  }

  predicate IsConstant(x: Index) { x.Field? || x.v.Const? }

  predicate InPointer(x: int, bits: nat)
    requires bits >= 1
  {
    -Pow2(bits - 1) <= x < Pow2(bits - 1)
  }

  /** The operands of one getelementptr; if all are constant the offsets fit a pointer afterwards. */
  method AddIndices(d: Decomposed, xs: seq<Index>, known: Masks, bits: nat) returns (d': Decomposed)
    requires 1 <= bits <= 64 && AllWf(xs, bits) && Tidy(d.vars, bits)
    ensures Tidy(d'.vars, bits) && d'.base == d.base && Moves(d, d', known, xs, bits) && AmountsAdd(d, d', known, xs, bits)
    ensures (forall k :: 0 <= k < |xs| ==> IsConstant(xs[k])) ==> InPointer(d'.structOffset, bits) && InPointer(d'.otherOffset, bits)
  {
    hide Tidy, OffsetOf, IndexOffset, Congruent, Sound, Moves, MovesBy, AdjustToPointerSize, IndexWf, AmountsAdd, AmountsMove, InPointer;
    d' := d;
    var constant := true;
    NoMove(d, known, bits);
    NoAmount(d, known, bits);
    assert xs[..0] == [];
    for k := 0 to |xs|
      invariant Tidy(d'.vars, bits) && d'.base == d.base && Moves(d, d', known, xs[..k], bits)
      invariant AmountsAdd(d, d', known, xs[..k], bits)
      invariant constant <==> forall j :: 0 <= j < k ==> IsConstant(xs[j])
    {
      ghost var before := d';
      var still;
      d', still := AddIndex(d', xs[k], known, bits);
      constant := constant && still;
      MovesMore(d, before, d', known, xs, k, bits);
      AmountsMore(d, before, d', known, xs, k, bits);
    }
    assert xs[..|xs|] == xs;
    if constant {
      ghost var before := d';
      d' := d'.(structOffset := AdjustToPointerSize(d'.structOffset, bits), otherOffset := AdjustToPointerSize(d'.otherOffset, bits));
      AdjustMoves(d, before, d', known, xs, bits);
      AdjustAmounts(d, before, d', known, xs, bits);
      AdjustedFits(before.structOffset, bits);
      AdjustedFits(before.otherOffset, bits);
    }
  }

  lemma AdjustedFits(x: int, bits: nat)
    requires 1 <= bits <= 64
    ensures InPointer(AdjustToPointerSize(x, bits), bits)
  {
    AdjustIs(x, bits);
    SignedIs(x, bits);
    hide AdjustToPointerSize, Signed;
  }

  lemma NoMove(d: Decomposed, known: Masks, bits: nat)
    ensures Moves(d, d, known, [], bits)
  {
  }

  // ---------- A whole pointer ----------

  ghost predicate ReachesIn(w: World, p: Ptr, q: Ptr, d: Decomposed, known: Masks, bits: nat) {
    Sound(known, w.vars) && PtrDefined(w, p) ==>
      PtrDefined(w, q) && VarsDefined(w.vars, d.vars) && Congruent(Addr(w, p), Addr(w, q) + OffsetOf(w.vars, d), Pow2(bits))
  }

  /** In every world p is at q moved by what d says, modulo the size of a pointer. */
  ghost predicate Reaches(p: Ptr, q: Ptr, d: Decomposed, known: Masks, bits: nat) {
    forall w: World :: ReachesIn(w, p, q, d, known, bits)
  }

  /** Pointers at the same address in every world. */
  ghost predicate SamePlace(q: Ptr, r: Ptr) {
    forall w: World {:trigger Addr(w, r)} :: Addr(w, q) == Addr(w, r) && (PtrDefined(w, q) ==> PtrDefined(w, r))
  }

  lemma ReachesOn(p: Ptr, q: Ptr, r: Ptr, d: Decomposed, known: Masks, bits: nat)
    requires Reaches(p, q, d, known, bits) && SamePlace(q, r)
    ensures Reaches(p, r, d, known, bits)
  {
    hide Sound, Congruent, OffsetOf, Pow2;
    forall w: World
      ensures ReachesIn(w, p, r, d, known, bits)
    {
      assert ReachesIn(w, p, q, d, known, bits);
      assert Addr(w, q) == Addr(w, r);
    }
  }

  lemma ReachesGep(p: Ptr, q: Ptr, d: Decomposed, d': Decomposed, known: Masks, bits: nat)
    requires Reaches(p, q, d, known, bits) && q.Gep? && q.sized && Moves(d, d', known, q.indices, bits)
    ensures Reaches(p, q.p, d', known, bits)
  {
    hide Sound, Congruent, OffsetOf, Pow2, Offsets, IndicesDefined, VarsDefined;
    forall w: World
      ensures ReachesIn(w, p, q.p, d', known, bits)
    {
      if Sound(known, w.vars) && PtrDefined(w, p) {
        assert ReachesIn(w, p, q, d, known, bits);
        var a, b, m := Addr(w, q.p), OffsetOf(w.vars, d) + Offsets(w, q.indices), Pow2(bits);
        assert Congruent(Addr(w, p), a + b, m);
        assert Congruent(OffsetOf(w.vars, d'), b, m);
        CongruentShift(OffsetOf(w.vars, d'), b, a, m);
        CongruentBack(a + OffsetOf(w.vars, d'), a + b, m);
        CongruentTrans(Addr(w, p), a + b, a + OffsetOf(w.vars, d'), m);
      }
    }
  }

  lemma CongruentBack(a: int, b: int, m: int)
    requires m > 0 && Congruent(a, b, m)
    ensures Congruent(b, a, m)
  {
  }

  lemma ReachesSelf(p: Ptr, known: Masks, bits: nat)
    ensures Reaches(p, p, Decomposed(p, 0, 0, []), known, bits)
  {
  }

  /** How much of something all getelementptrs bring that are looked through. */
  function PtrAmount(known: Masks, p: Ptr, n: nat, q: Summand, bits: nat): int
    requires bits >= 1 && PtrWf(p, bits)
  {
    if n == 0 then 0
    else
      match p
      case Root(_) => 0
      case GlobalAlias(r, interposable, _) => if interposable then 0 else PtrAmount(known, r, n - 1, q, bits)
      case Cast(r) => PtrAmount(known, r, n - 1, q, bits)
      case ReturnedArg(r) => PtrAmount(known, r, n - 1, q, bits)
      case Simplified(r) => PtrAmount(known, r, n - 1, q, bits)
      case Gep(r, sized, xs, _) =>
        if sized then IndicesAmount(known, xs, q, bits) + PtrAmount(known, r, n - 1, q, bits) else 0
  }

  /** What has been collected on the way from p, of which v is left to be looked through with n steps. */
  ghost predicate Collected(d: Decomposed, known: Masks, p: Ptr, v: Ptr, n: nat, bits: nat)
    requires bits >= 1 && PtrWf(p, bits) && PtrWf(v, bits)
  {
    forall q {:trigger Amount(d, q)} ::
      Congruent(Amount(d, q) + PtrAmount(known, v, n, q, bits), PtrAmount(known, p, MAX_LOOKUP, q, bits), Pow2(bits))
  }

  lemma CollectedNone(known: Masks, p: Ptr, bits: nat)
    requires bits >= 1 && PtrWf(p, bits)
    ensures Collected(Decomposed(p, 0, 0, []), known, p, p, MAX_LOOKUP, bits)
  {
    var d := Decomposed(p, 0, 0, []);
    hide PtrAmount, Pow2;
    forall q ensures Congruent(Amount(d, q) + PtrAmount(known, p, MAX_LOOKUP, q, bits), PtrAmount(known, p, MAX_LOOKUP, q, bits), Pow2(bits)) {
      SameSum(PtrAmount(known, p, MAX_LOOKUP, q, bits), Pow2(bits));
    }
  }

  lemma CollectedGep(d: Decomposed, d': Decomposed, known: Masks, p: Ptr, v: Ptr, n: nat, bits: nat)
    requires bits >= 1 && PtrWf(p, bits) && PtrWf(v, bits) && v.Gep? && v.sized && n > 0
    requires Collected(d, known, p, v, n, bits) && AmountsAdd(d, d', known, v.indices, bits)
    ensures Collected(d', known, p, v.p, n - 1, bits)
  {
    hide IndicesAmount, Amount, Congruent, Pow2, IndexWf;
    forall q ensures Congruent(Amount(d', q) + PtrAmount(known, v.p, n - 1, q, bits), PtrAmount(known, p, MAX_LOOKUP, q, bits), Pow2(bits)) {
      var x, rest, m := IndicesAmount(known, v.indices, q, bits), PtrAmount(known, v.p, n - 1, q, bits), Pow2(bits);
      assert PtrAmount(known, v, n, q, bits) == x + rest;
      assert Congruent(Amount(d', q), Amount(d, q) + x, m) && Congruent(Amount(d, q) + (x + rest), PtrAmount(known, p, MAX_LOOKUP, q, bits), m);
      hide PtrAmount;
      CongruentShift(Amount(d', q), Amount(d, q) + x, rest, m);
      CongruentTrans(Amount(d', q) + rest, Amount(d, q) + x + rest, PtrAmount(known, p, MAX_LOOKUP, q, bits), m);
    }
  }

  /** In the end all that is looked through has been collected. */
  ghost predicate Exact(d: Decomposed, known: Masks, p: Ptr, bits: nat)
    requires bits >= 1 && PtrWf(p, bits)
  {
    forall q {:trigger Amount(d, q)} :: Congruent(Amount(d, q), PtrAmount(known, p, MAX_LOOKUP, q, bits), Pow2(bits))
  }

  lemma CollectedAll(d: Decomposed, known: Masks, p: Ptr, v: Ptr, n: nat, b: Ptr, bits: nat)
    requires bits >= 1 && PtrWf(p, bits) && PtrWf(v, bits) && Collected(d, known, p, v, n, bits)
    requires n == 0 || v.Root? || (v.GlobalAlias? && v.interposable) || (v.Gep? && !v.sized)
    ensures Exact(d.(base := b), known, p, bits)
  {
    hide IndicesAmount, Congruent, Pow2, Coefficient;
    forall q ensures Congruent(Amount(d.(base := b), q), PtrAmount(known, p, MAX_LOOKUP, q, bits), Pow2(bits)) {
      assert PtrAmount(known, v, n, q, bits) == 0;
      assert Congruent(Amount(d, q) + 0, PtrAmount(known, p, MAX_LOOKUP, q, bits), Pow2(bits));
    }
  }

  /** How many pointers can be looked through on the way from p. */
  function Layers(p: Ptr): nat {
    match p
    case Root(_) => 0
    case GlobalAlias(q, interposable, _) => if interposable then 0 else 1 + Layers(q)
    case Cast(q) => 1 + Layers(q)
    case ReturnedArg(q) => 1 + Layers(q)
    case Simplified(q) => 1 + Layers(q)
    case Gep(q, sized, _, _) => if sized then 1 + Layers(q) else 0
  }

  /** Peel stops only at the limit, or where there is nothing more to look through. */
  lemma {:induction false} PeelIs(p: Ptr, n: nat)
    ensures var (q, limit) := Peel(p, n);
            (limit <==> Layers(p) >= n) && Layers(q) == if limit then Layers(p) - n else 0
    decreases n
  {
    if n > 0 {
      match p
      case Root(_) =>
      case GlobalAlias(q, interposable, _) =>
        if !interposable {
          PeelIs(q, n - 1);
        }
      case Cast(q) => PeelIs(q, n - 1);
      case ReturnedArg(q) => PeelIs(q, n - 1);
      case Simplified(q) => PeelIs(q, n - 1);
      case Gep(q, sized, _, _) =>
        if sized {
          PeelIs(q, n - 1);
        }
    }
  }

  /**
   DecomposeGEPExpression is exact: in every world the address of p is that of the base, plus the
   offsets, plus the sum of the scaled variables, modulo the size of a pointer.
   */
  method DecomposeGEPExpression(p: Ptr, known: Masks, bits: nat) returns (d: Decomposed, limit: bool)
    requires 1 <= bits <= 64 && PtrWf(p, bits)
    ensures (d.base, limit) == Peel(p, MAX_LOOKUP)
    ensures Tidy(d.vars, bits)
    ensures Reaches(p, d.base, d, known, bits)
    ensures Exact(d, known, p, bits)
    ensures limit <==> Layers(p) >= MAX_LOOKUP
    ensures !limit ==> Layers(d.base) == 0
  {
    PeelIs(p, MAX_LOOKUP);
    hide Reaches, Moves, Sound, Offsets, IndicesDefined, Exact, Collected, AmountsAdd, AllWf, Layers, InPointer, Tidy;
    var v := p;
    d := Decomposed(p, 0, 0, []);
    ReachesSelf(p, known, bits);
    CollectedNone(known, p, bits);
    assert Tidy([], bits) by { NothingTidy(bits); }
    var n := MAX_LOOKUP;
    while n > 0
      invariant 0 <= n <= MAX_LOOKUP && Peel(v, n) == Peel(p, MAX_LOOKUP) && PtrWf(v, bits)
      invariant Tidy(d.vars, bits) && Reaches(p, v, d, known, bits) && Collected(d, known, p, v, n, bits)
      decreases n
    {
      match v {
      case Root(_) =>
        ReachesBase(p, v, d, known, bits);
        CollectedAll(d, known, p, v, n, v, bits);
        d := d.(base := v);
        return d, false;
      case GlobalAlias(q, interposable, _) =>
        if interposable {
          ReachesBase(p, v, d, known, bits);
          CollectedAll(d, known, p, v, n, v, bits);
          d := d.(base := v);
          return d, false;
        }
        assert SamePlace(v, q);
        ReachesOn(p, v, q, d, known, bits);
        CollectedOn(d, known, p, v, q, n, bits);
        v := q;
      case Cast(q) =>
        assert SamePlace(v, q);
        ReachesOn(p, v, q, d, known, bits);
        CollectedOn(d, known, p, v, q, n, bits);
        v := q;
      case ReturnedArg(q) =>
        assert SamePlace(v, q);
        ReachesOn(p, v, q, d, known, bits);
        CollectedOn(d, known, p, v, q, n, bits);
        v := q;
      case Simplified(q) =>
        assert SamePlace(v, q);
        ReachesOn(p, v, q, d, known, bits);
        CollectedOn(d, known, p, v, q, n, bits);
        v := q;
      case Gep(q, sized, xs, _) =>
        if !sized {
          ReachesBase(p, v, d, known, bits);
          CollectedAll(d, known, p, v, n, v, bits);
          d := d.(base := v);
          return d, false;
        }
        ghost var before := d;
        d := AddIndices(d, xs, known, bits);
        ReachesGep(p, v, before, d, known, bits);
        CollectedGep(before, d, known, p, v, n, bits);
        v := q;
      }
      n := n - 1;
    }
    ReachesBase(p, v, d, known, bits);
    CollectedAll(d, known, p, v, n, v, bits);
    d := d.(base := v);
    limit := true;
  }

  lemma NothingTidy(bits: nat)
    requires bits >= 1
    ensures Tidy([], bits)
  {
  }

  /** Pointers that are looked through and add nothing. */
  predicate Passes(v: Ptr, q: Ptr) {
    v == Cast(q) || v == ReturnedArg(q) || v == Simplified(q) || (v.GlobalAlias? && !v.interposable && v.p == q)
  }

  lemma AmountOn(known: Masks, v: Ptr, q: Ptr, n: nat, x: Summand, bits: nat)
    requires bits >= 1 && PtrWf(v, bits) && n > 0
    requires Passes(v, q)
    ensures PtrWf(q, bits) && PtrAmount(known, v, n, x, bits) == PtrAmount(known, q, n - 1, x, bits)
  {
    hide IndicesAmount, AllWf;
  }

  lemma CollectedOn(d: Decomposed, known: Masks, p: Ptr, v: Ptr, q: Ptr, n: nat, bits: nat)
    requires bits >= 1 && PtrWf(p, bits) && PtrWf(v, bits) && Collected(d, known, p, v, n, bits) && n > 0
    requires Passes(v, q)
    ensures PtrWf(q, bits) && Collected(d, known, p, q, n - 1, bits)
  {
    hide Amount, Congruent, Pow2, PtrAmount, PtrWf, Passes;
    AmountOn(known, v, q, n, Constant, bits);
    forall x ensures Congruent(Amount(d, x) + PtrAmount(known, q, n - 1, x, bits), PtrAmount(known, p, MAX_LOOKUP, x, bits), Pow2(bits)) {
      AmountOn(known, v, q, n, x, bits);
      assert Congruent(Amount(d, x) + PtrAmount(known, v, n, x, bits), PtrAmount(known, p, MAX_LOOKUP, x, bits), Pow2(bits));
    }
  }

  lemma ReachesBase(p: Ptr, q: Ptr, d: Decomposed, known: Masks, bits: nat)
    requires Reaches(p, q, d, known, bits)
    ensures Reaches(p, q, d.(base := q), known, bits)
  {
    var d' := d.(base := q);
    hide Sound, Congruent, Pow2;
    forall w: World
      ensures ReachesIn(w, p, q, d', known, bits)
    {
      assert ReachesIn(w, p, q, d, known, bits);
    }
  }
}
