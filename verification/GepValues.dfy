/**
 Integer values as lib/Analysis/BasicAliasAnalysis.cpp looks through them, and
 what they evaluate to. All arithmetic is modulo two to the width of the value.
 */
module GepValues {
  import opened Arith

  datatype Op = Add | Sub | Mul | Shl | Or

  /**
   An integer value. Opaque stands for everything that is not looked through: arguments, loads,
   operators without a constant on the right. id tells apart instructions that look the same.
   */
  datatype Value =
    | Const(c: nat, width: nat)
    | Opaque(id: nat, width: nat)
    | Bin(op: Op, x: Value, c: nat, nsw: bool, nuw: bool, id: nat)
    | ZExt(x: Value, width: nat, id: nat)

  /** What opaque values evaluate to in one execution. */
  type Env = nat -> nat

  function Width(e: Value): nat {
    match e
    case Const(_, w) => w
    case Opaque(_, w) => w
    case Bin(_, x, _, _, _, _) => Width(x)
    case ZExt(_, w, _) => w
  }

  predicate Wf(e: Value) {
    match e
    case Const(c, w) => w > 0 && c < Pow2(w)
    case Opaque(_, w) => w > 0
    case Bin(_, x, c, _, _, _) => Wf(x) && c < Pow2(Width(x))
    case ZExt(x, w, _) => Wf(x) && Width(x) < w
  }

  function BitAnd(a: nat, b: nat): nat {
    if a == 0 || b == 0 then 0
    else 2 * BitAnd(a / 2, b / 2) + if a % 2 == 1 && b % 2 == 1 then 1 else 0
  }

  function BitOr(a: nat, b: nat): nat
    decreases a + b
  {
    if a == 0 then b else if b == 0 then a
    else 2 * BitOr(a / 2, b / 2) + if a % 2 == 1 || b % 2 == 1 then 1 else 0
  }

  function Eval(env: Env, e: Value): (r: int)
    ensures 0 <= r
  {
    match e
    case Const(c, _) => c
    case Opaque(id, w) => env(id) % Pow2(w)
    case Bin(op, x, c, _, _, _) =>
      var m := Pow2(Width(x));
      (match op
       case Add => (Eval(env, x) + c) % m
       case Sub => (Eval(env, x) - c) % m
       case Mul => (Eval(env, x) * c) % m
       case Shl => (Eval(env, x) * Pow2(c)) % m
       case Or => BitOr(Eval(env, x), c))
    case ZExt(x, _, _) => Eval(env, x)
  }

  /** Nothing overflows that is flagged not to, and no shift is out of range. */
  predicate Defined(env: Env, e: Value) {
    match e
    case Const(_, _) => true
    case Opaque(_, _) => true
    case ZExt(x, _, _) => Defined(env, x)
    case Bin(op, x, c, _, nuw, _) =>
      var v, m := Eval(env, x), Pow2(Width(x));
      && Defined(env, x)
      && (op == Shl ==> c < Width(x))
      && (nuw ==> match op
                  case Add => v + c < m
                  case Sub => v >= c
                  case Mul => v * c < m
                  case Shl => true
                  case Or => true)
  }

  /** MaskedValueIsZero: a value known never to have a bit in common with a mask. */
  type Masks = (Value, nat) -> bool

  ghost predicate Sound(known: Masks, env: Env) {
    forall x, c :: known(x, c) ==> BitAnd(Eval(env, x), c) == 0
  }

  lemma {:induction false} OrIsSum(a: nat, b: nat)
    requires BitAnd(a, b) == 0
    ensures BitOr(a, b) == a + b
    decreases a + b
  {
    if a != 0 && b != 0 {
      OrIsSum(a / 2, b / 2);
      assert a == 2 * (a / 2) + a % 2 && b == 2 * (b / 2) + b % 2;
    }
  }

  lemma {:induction false} OrFits(a: nat, b: nat, n: nat)
    requires a < Pow2(n) && b < Pow2(n)
    ensures BitOr(a, b) < Pow2(n)
    decreases n
  {
    if a != 0 && b != 0 {
      assert n > 0;
      OrFits(a / 2, b / 2, n - 1);
    }
  }

  lemma {:induction false} Pow2Grows(a: nat, b: nat)
    requires a <= b
    ensures Pow2(a) <= Pow2(b)
    decreases b
  {
    if a < b {
      Pow2Grows(a, b - 1);
    }
  }

  lemma {:induction false} EvalFits(env: Env, e: Value)
    requires Wf(e)
    ensures Eval(env, e) < Pow2(Width(e))
  {
    match e
    case Const(_, _) =>
    case Opaque(_, _) =>
    case Bin(_, x, c, _, _, _) =>
      EvalFits(env, x);
      OrFits(Eval(env, x), c, Width(x));
    case ZExt(x, w, _) =>
      EvalFits(env, x);
      Pow2Grows(Width(x), w);
  }

  lemma {:induction false} WidthPositive(e: Value)
    requires Wf(e)
    ensures Width(e) > 0
  {
    match e
    case Const(_, _) =>
    case Opaque(_, _) =>
    case Bin(_, x, _, _, _, _) => WidthPositive(x);
    case ZExt(x, _, _) => WidthPositive(x);
  }
}
