/**
 BasicAAResult::GetLinearExpression: an integer value as scale * v + offset. Sign
 extensions are not part of this model.
 */
module GepLinear {
  import opened Arith
  import opened GepValues

  const MAX_DEPTH: nat := 6

  /** scale * zext(v) + offset, after zext bits of zero extension; the flags tell that nothing has wrapped on the way. */
  datatype Lin = Lin(v: Value, scale: nat, offset: nat, zext: nat, nsw: bool, nuw: bool)

  function Itself(e: Value): Lin { Lin(e, 1, 0, 0, true, true) }

  function NewScale(op: Op, scale: int, c: nat): int {
    match op
    case Mul => scale * c
    case Shl => scale * Pow2(c)
    case _ => scale
  }

  function NewOffset(op: Op, offset: int, c: nat): int {
    match op
    case Add => offset + c
    case Or => offset + c
    case Sub => offset - c
    case Mul => offset * c
    case Shl => offset * Pow2(c)
  }

  /** GetLinearExpression with numbers of the given width, that of the outermost value. */
  function Linear(known: Masks, e: Value, width: nat, depth: nat): Lin {
    if depth == MAX_DEPTH then Itself(e)
    else
      match e
      case Const(c, _) => Lin(e, 0, c % Pow2(width), 0, true, true)
      case Opaque(_, _) => Itself(e)
      case Bin(op, x, c, nsw, nuw, _) =>
        if op == Or && !known(x, c) then Itself(e)
        else
          var r, m := Linear(known, x, width, depth + 1), Pow2(width);
          if op == Shl && width < c then r.(scale := 1, offset := 0)
          else
            var r' := r.(scale := NewScale(op, r.scale, c) % m, offset := NewOffset(op, r.offset, c) % m);
            (match op
             case Or => r'
             case Shl => r'.(nsw := false, nuw := false)
             case _ => r'.(nsw := r.nsw && nsw, nuw := r.nuw && nuw))
      case ZExt(x, w, _) =>
        var r := Linear(known, x, width, depth + 1);
        var more := if w > Width(x) then w - Width(x) else 0;
        if r.nuw then r.(zext := r.zext + more) else Lin(x, 1, 0, more, r.nsw, false)
  }

  /** The width up to which a decomposition is right. */
  function Upto(r: Lin, width: nat, own: nat): nat { if r.nuw then width else own }

  ghost predicate Means(env: Env, e: Value, r: Lin, width: nat) {
    && Wf(r.v) && Defined(env, r.v) && Width(r.v) + r.zext == Width(e)
    && Congruent(Eval(env, e), r.scale * Eval(env, r.v) + r.offset, Pow2(Upto(r, width, Width(e))))
  }

  lemma Narrow(a: int, b: int, own: nat, width: nat)
    requires own <= width && Congruent(a, b, Pow2(width))
    ensures Congruent(a, b, Pow2(own))
  {
    Pow2Divides(own, width);
    CongruentDivisor(a, b, Pow2(width), Pow2(own), Pow2(width - own));
  }

  lemma NarrowTo(a: int, b: int, r: Lin, width: nat, own: nat)
    requires own <= width && Congruent(a, b, Pow2(Upto(r, width, own)))
    ensures Congruent(a, b, Pow2(own))
  {
    if r.nuw {
      Narrow(a, b, own, width);
    }
  }

  /** A step of arithmetic on both sides of a congruence; NewOffset also is what op does to a value before it is cut. */
  lemma ExactStep(op: Op, v: int, s: int, u: int, o: int, c: nat, m: int)
    requires m > 0 && Congruent(v, s * u + o, m)
    ensures Congruent(NewOffset(op, v, c), NewScale(op, s, c) * u + NewOffset(op, o, c), m)
  {
    hide Congruent;
    match op
    case Add => AddStep(v, s * u, o, c, m);
    case Or => AddStep(v, s * u, o, c, m);
    case Sub =>
      var k: int := c;
      AddStep(v, s * u, o, -k, m);
    case Mul => MulStep(v, s, u, o, c, m);
    case Shl => MulStep(v, s, u, o, Pow2(c), m);
  }

  lemma AddStep(v: int, a: int, o: int, k: int, m: int)
    requires m > 0 && Congruent(v, a + o, m)
    ensures Congruent(v + k, a + (o + k), m)
  {
    CongruentAdd(v, a + o, k, k, m);
    hide Congruent;
    assert a + o + k == a + (o + k);
  }

  lemma MulStep(v: int, s: int, u: int, o: int, k: int, m: int)
    requires m > 0 && Congruent(v, s * u + o, m)
    ensures Congruent(v * k, (s * k) * u + o * k, m)
  {
    CongruentMul(v, s * u + o, k, k, m);
    assert (s * u + o) * k == (s * k) * u + o * k;
  }

  /** Cutting scale and offset to the width changes nothing modulo it. */
  lemma CutBoth(a: int, s: int, u: int, o: int, m: int)
    requires m > 0 && Congruent(a, s * u + o, m)
    ensures Congruent(a, (s % m) * u + o % m, m)
  {
    CongruentMod(s, m);
    CongruentMod(o, m);
    CongruentMul(s % m, s, u, u, m);
    CongruentAdd((s % m) * u, s * u, o % m, o, m);
  }

  lemma CutBothTo(a: int, s: int, u: int, o: int, width: nat, own: nat)
    requires own <= width && Congruent(a, s * u + o, Pow2(own))
    ensures Congruent(a, (s % Pow2(width)) * u + o % Pow2(width), Pow2(own))
  {
    var m := Pow2(width);
    CutBoth(s * u + o, s, u, o, m);
    Narrow(s * u + o, (s % m) * u + o % m, own, width);
  }

  lemma EvalBin(env: Env, e: Value)
    requires e.Bin?
    ensures e.op != Or ==> Eval(env, e) == NewOffset(e.op, Eval(env, e.x), e.c) % Pow2(Width(e))
    ensures e.op == Or ==> Eval(env, e) == BitOr(Eval(env, e.x), e.c)
  {
    hide BitOr, Pow2;
  }

  lemma NoWrap(env: Env, e: Value)
    requires e.Bin? && Wf(e) && Defined(env, e) && e.op != Shl && e.op != Or && e.nuw
    ensures 0 <= NewOffset(e.op, Eval(env, e.x), e.c) < Pow2(Width(e))
  {
    EvalFits(env, e.x);
    hide Pow2;
  }

  /** What an operator evaluates to, modulo its own width, and exactly if it is known not to wrap. */
  lemma EvalExact(env: Env, known: Masks, e: Value)
    requires e.Bin? && Wf(e) && Defined(env, e) && Sound(known, env) && (e.op == Or ==> known(e.x, e.c))
    ensures Congruent(Eval(env, e), NewOffset(e.op, Eval(env, e.x), e.c), Pow2(Width(e)))
    ensures e.op == Or || (e.op != Shl && e.nuw) ==> Eval(env, e) == NewOffset(e.op, Eval(env, e.x), e.c)
  {
    var n, m := NewOffset(e.op, Eval(env, e.x), e.c), Pow2(Width(e));
    EvalBin(env, e);
    if e.op == Or {
      OrIsSum(Eval(env, e.x), e.c);
    } else {
      CongruentMod(n, m);
      if e.op != Shl && e.nuw {
        NoWrap(env, e);
        DivModUnique(n, m, 0, n);
      }
    }
  }

  /** Extending v again gives the width of the value. */
  lemma {:induction false} LinearWidth(known: Masks, e: Value, width: nat, depth: nat)
    requires Wf(e)
    ensures var r := Linear(known, e, width, depth); Wf(r.v) && Width(r.v) + r.zext == Width(e)
    decreases e
  {
    hide Pow2, NewScale, NewOffset;
    if depth != MAX_DEPTH {
      match e
      case Const(_, _) =>
      case Opaque(_, _) =>
      case Bin(_, x, _, _, _, _) => LinearWidth(known, x, width, depth + 1);
      case ZExt(x, _, _) => LinearWidth(known, x, width, depth + 1);
    }
  }

  /** The invariant of GetLinearExpression: right modulo the width of the value, and modulo the whole width while nothing wraps. */
  lemma {:induction false} LinearMeans(env: Env, known: Masks, e: Value, width: nat, depth: nat)
    requires Wf(e) && Defined(env, e) && Sound(known, env) && Width(e) <= width
    ensures Means(env, e, Linear(known, e, width, depth), width)
    decreases e
  {
    if depth != MAX_DEPTH {
      match e
      case Const(c, _) =>
        Pow2Grows(Width(e), width);
        DivModUnique(c, Pow2(width), 0, c);
      case Opaque(_, _) =>
      case Bin(op, x, c, nsw, nuw, _) =>
        LinearMeans(env, known, x, width, depth + 1);
        if op != Or || known(x, c) {
          BinMeans(env, known, e, Linear(known, x, width, depth + 1), width, depth);
        }
      case ZExt(x, w, _) =>
        LinearMeans(env, known, x, width, depth + 1);
    }
  }

  lemma BinMeans(env: Env, known: Masks, e: Value, r: Lin, width: nat, depth: nat)
    requires e.Bin? && Wf(e) && Defined(env, e) && Sound(known, env) && Width(e) <= width && depth != MAX_DEPTH
    requires e.op == Or ==> known(e.x, e.c)
    requires r == Linear(known, e.x, width, depth + 1) && Means(env, e.x, r, width)
    ensures Means(env, e, Linear(known, e, width, depth), width)
  {
    var own, u, v := Width(e), Eval(env, r.v), Eval(env, e.x);
    var r' := Linear(known, e, width, depth);
    BinResult(env, known, e, r, width, depth);
    EvalExact(env, known, e);
    hide Congruent, Sound, Eval, NewOffset, NewScale, Pow2, Linear, Defined, Wf;
    var s, o := NewScale(e.op, r.scale, e.c), NewOffset(e.op, r.offset, e.c);
    NarrowTo(v, r.scale * u + r.offset, r, width, own);
    ExactStep(e.op, v, r.scale, u, r.offset, e.c, Pow2(own));
    CongruentTrans(Eval(env, e), NewOffset(e.op, v, e.c), s * u + o, Pow2(own));
    CutBothTo(Eval(env, e), s, u, o, width, own);
    if r'.nuw {
      ExactStep(e.op, v, r.scale, u, r.offset, e.c, Pow2(width));
      CutBothTo(Eval(env, e), s, u, o, width, width);
    }
  }

  lemma BinResult(env: Env, known: Masks, e: Value, r: Lin, width: nat, depth: nat)
    requires e.Bin? && Defined(env, e) && Width(e) <= width && depth != MAX_DEPTH && (e.op == Or ==> known(e.x, e.c))
    requires r == Linear(known, e.x, width, depth + 1)
    ensures var r' := Linear(known, e, width, depth);
            && r'.v == r.v && r'.zext == r.zext
            && r'.scale == NewScale(e.op, r.scale, e.c) % Pow2(width)
            && r'.offset == NewOffset(e.op, r.offset, e.c) % Pow2(width)
            && (r'.nuw ==> r.nuw && (e.op == Or || (e.op != Shl && e.nuw)))
  {
    hide Pow2, NewScale, NewOffset;
  }

  lemma CongruentTrans(a: int, b: int, c: int, m: int)
    requires m > 0 && Congruent(a, b, m) && Congruent(b, c, m)
    ensures Congruent(a, c, m)
  {
  }

  /**
   Operators nested no deeper than GetLinearExpression looks: shifts in range, or of values with no bit in
   common, and, under a zero extension, only operators that are known not to wrap.
   */
  predicate Transparent(known: Masks, e: Value, width: nat, depth: nat, extended: bool) {
    match e
    case Const(_, _) => depth < MAX_DEPTH
    case Opaque(_, _) => true
    case Bin(op, x, c, _, nuw, _) =>
      && depth < MAX_DEPTH && (op == Or ==> known(x, c)) && (op == Shl ==> c <= width)
      && (extended ==> op != Shl && (op == Or || nuw))
      && Transparent(known, x, width, depth + 1, extended)
    case ZExt(x, _, _) => depth < MAX_DEPTH && Transparent(known, x, width, depth + 1, true)
  }

  /** Such a value is decomposed down to a constant, which leaves no scale, or to an opaque value. */
  lemma {:induction false} LooksThrough(known: Masks, e: Value, width: nat, depth: nat, extended: bool)
    requires Transparent(known, e, width, depth, extended)
    ensures var r := Linear(known, e, width, depth);
            (extended ==> r.nuw) && (r.v.Opaque? || (r.v.Const? && r.scale == 0))
    decreases e
  {
    if depth != MAX_DEPTH {
      match e
      case Const(_, _) =>
      case Opaque(_, _) =>
      case Bin(op, x, c, _, _, _) =>
        LooksThrough(known, x, width, depth + 1, extended);
        hide Pow2, NewOffset;
        assert 0 * c == 0 && 0 * Pow2(c) == 0;
        ZeroMod(Pow2(width));
      case ZExt(x, _, _) =>
        LooksThrough(known, x, width, depth + 1, true);
    }
  }

  lemma ZeroMod(m: int)
    requires m > 0
    ensures 0 % m == 0
  {
  }
}
