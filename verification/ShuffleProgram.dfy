/**
 The programs of utils/shuffle_select_fuzz_tester.py: shuffles and selects over vectors, the
 value that is tracked for every lane, with -1 for undef, and what executions may do.
 */
module ShuffleProgram {
  import opened Arith

  datatype Name = Zero | Inp(i: nat) | Shuf(k: nat) | Sel(k: nat)

  datatype Value = Value(name: Name, value: seq<int>)

  datatype Inst = ShufInst(name: Name, op0: Name, op1: Name, mask: seq<int>) | SelInst(name: Name, op0: Name, op1: Name, mask: seq<int>)

  // ---------- What is tracked ----------

  function ShufLane(index: int, n: nat, a: seq<int>, b: seq<int>): int
    requires n > 0 && |a| == n && |b| == n
  {
    if 0 <= index < n then a[index] else if index >= n then b[index % n] else -1
  }

  function SelLane(bit: int, x: int, y: int): int { if bit == 1 then x else if bit == 0 then y else -1 }

  function CalcShuf(mask: seq<int>, n: nat, a: seq<int>, b: seq<int>): (r: seq<int>)
    requires n > 0 && |a| == n && |b| == n
    ensures |r| == |mask|
  {
    seq(|mask|, i requires 0 <= i < |mask| => ShufLane(mask[i], n, a, b))
  }

  function CalcSel(mask: seq<int>, a: seq<int>, b: seq<int>): (r: seq<int>)
    requires |a| == |mask| && |b| == |mask|
    ensures |r| == |mask|
  {
    seq(|mask|, i requires 0 <= i < |mask| => SelLane(mask[i], a[i], b[i]))
  }

  method ShufCalcValue(mask: seq<int>, n: nat, a: seq<int>, b: seq<int>) returns (result: seq<int>)
    requires n > 0 && |a| == n && |b| == n
    ensures result == CalcShuf(mask, n, a, b)
  {
    result := [];
    for i := 0 to |mask|
      invariant |result| == i && forall j :: 0 <= j < i ==> result[j] == ShufLane(mask[j], n, a, b)
    {
      var index := mask[i];
      if index < n && index >= 0 {
        result := result + [a[index]];
      } else if index >= n {
        index := index % n;
        result := result + [b[index]];
      } else {
        result := result + [-1];
      }
    }
  }

  method SelCalcValue(mask: seq<int>, a: seq<int>, b: seq<int>) returns (result: seq<int>)
    requires |a| == |mask| && |b| == |mask|
    ensures result == CalcSel(mask, a, b)
  {
    result := [];
    for i := 0 to |mask|
      invariant |result| == i && forall j :: 0 <= j < i ==> result[j] == SelLane(mask[j], a[j], b[j])
    {
      if mask[i] == 1 {
        result := result + [a[i]];
      } else if mask[i] == 0 {
        result := result + [b[i]];
      } else {
        result := result + [-1];
      }
    }
  }

  /** Lanes are counted through all inputs. */
  function LaneNumber(n: nat, i: nat, j: nat): nat { i * n + j }

  /** Lane j of input i. */
  function InputLane(isFloat: bool, width: nat, n: nat, i: nat, j: nat): int {
    if isFloat then LaneNumber(n, i, j) else LaneNumber(n, i, j) % Pow2(width)
  }

  /** Different lanes have different numbers, below that of all lanes. */
  lemma LaneNumberIs(n: nat, num: nat, i: nat, j: nat, k: nat, l: nat)
    requires i < num && k < num && j < n && l < n
    ensures LaneNumber(n, i, j) < num * n
    ensures LaneNumber(n, i, j) == LaneNumber(n, k, l) ==> i == k && j == l
  {
    FarMultiple(n, num - i);
    if LaneNumber(n, i, j) == LaneNumber(n, k, l) {
      assert n * (i - k) == l - j;
      SmallMultiple(n, i - k, l - j);
    }
  }

  lemma SameRestIff(a: int, b: int, m: int)
    requires m > 0
    ensures a % m == b % m <==> (a - b) % m == 0
  {
    if a % m == b % m {
      CongruentAdd(a, b, b, b, m);
      DivModUnique(0, m, 0, 0);
    } else if (a - b) % m == 0 {
      CongruentBack(a, b, m);
    }
  }

  lemma CongruentBack(a: int, b: int, m: int)
    requires m > 0 && (a - b) % m == 0
    ensures Congruent(a, b, m)
  {
    var k := (a - b) / m;
    assert a - b == m * k + (a - b) % m;
    CongruentBy(a, b, k, m);
  }

  /** Two lanes hold the same number exactly if they are one lane, or apart by a multiple of what the width can hold. */
  lemma LanesMeetIff(isFloat: bool, width: nat, n: nat, i: nat, j: nat, k: nat, l: nat)
    requires j < n && l < n
    ensures InputLane(isFloat, width, n, i, j) == InputLane(isFloat, width, n, k, l) <==>
      if isFloat then i == k && j == l else (i * n + j - (k * n + l)) % Pow2(width) == 0
  {
    LaneNumberIs(n, i + k + 1, i, j, k, l);
    SameRestIff(LaneNumber(n, i, j), LaneNumber(n, k, l), Pow2(width));
  }

  /** No number is in two lanes. */
  ghost predicate AllDifferent(inputs: seq<Value>, n: nat)
    requires GoodInputs(inputs, n)
  {
    forall i, j, k, l :: 0 <= i < |inputs| && 0 <= k < |inputs| && 0 <= j < n && 0 <= l < n && inputs[i].value[j] == inputs[k].value[l] ==>
      i == k && j == l
  }

  lemma SmallNumber(isFloat: bool, width: nat, n: nat, i: nat, j: nat)
    requires isFloat || LaneNumber(n, i, j) < Pow2(width)
    ensures InputLane(isFloat, width, n, i, j) == LaneNumber(n, i, j)
  {
    hide LaneNumber, Pow2;
    if !isFloat {
      DivModUnique(LaneNumber(n, i, j), Pow2(width), 0, LaneNumber(n, i, j));
    }
  }

  lemma InputsDiffer(isFloat: bool, width: nat, n: nat, inputs: seq<Value>)
    requires GoodInputs(inputs, n) && (isFloat || |inputs| * n <= Pow2(width))
    requires forall i :: 0 <= i < |inputs| ==> forall j :: 0 <= j < n ==> inputs[i].value[j] == InputLane(isFloat, width, n, i, j)
    ensures AllDifferent(inputs, n)
  {
    hide LaneNumber, InputLane, Pow2;
    forall i, j, k, l | 0 <= i < |inputs| && 0 <= k < |inputs| && 0 <= j < n && 0 <= l < n && inputs[i].value[j] == inputs[k].value[l]
      ensures i == k && j == l
    {
      LaneNumberIs(n, |inputs|, i, j, k, l);
      LaneNumberIs(n, |inputs|, k, l, i, j);
      SmallNumber(isFloat, width, n, i, j);
      SmallNumber(isFloat, width, n, k, l);
    }
  }

  /** Lanes are numbered through all inputs, so they differ as long as the width has room for all of them. */
  method GenInputs(isFloat: bool, width: nat, n: nat, num: nat) returns (inputs: seq<Value>)
    ensures |inputs| == num && GoodInputs(inputs, n)
    ensures forall i :: 0 <= i < num ==> forall j :: 0 <= j < n ==> inputs[i].value[j] == InputLane(isFloat, width, n, i, j)
    ensures isFloat || num * n <= Pow2(width) ==> AllDifferent(inputs, n)
  {
    inputs := [];
    for i := 0 to num
      invariant |inputs| == i && GoodInputs(inputs, n)
      invariant forall k :: 0 <= k < i ==> forall j :: 0 <= j < n ==> inputs[k].value[j] == InputLane(isFloat, width, n, k, j)
    {
      var inp: seq<int> := [];
      for j := 0 to n
        invariant |inp| == j && forall k :: 0 <= k < j ==> inp[k] == InputLane(isFloat, width, n, i, k) && inp[k] >= 0
      {
        if isFloat {
          inp := inp + [i * n + j];
        } else {
          inp := inp + [(i * n + j) % Pow2(width)];
        }
      }
      inputs := inputs + [Value(Inp(i), inp)];
    }
    if isFloat || num * n <= Pow2(width) {
      InputsDiffer(isFloat, width, n, inputs);
    }
  }

  /** Named in order, of n lanes, and -1 nowhere. */
  predicate GoodInputs(inputs: seq<Value>, n: nat) {
    forall i :: 0 <= i < |inputs| ==>
      inputs[i].name == Inp(i) && |inputs[i].value| == n && forall j :: 0 <= j < n ==> inputs[i].value[j] >= 0
  }

  // ---------- What may happen ----------

  /** A lane in some execution: None as long as it is undef. */
  datatype Lane = None | Some(v: int)

  /** What may be read from a lane: undef may turn into anything, and differently every time. */
  predicate Reads(r: Lane, l: Lane) { l == None || r == l }

  ghost predicate ExecShuf(mask: seq<int>, n: nat, a: seq<Lane>, b: seq<Lane>, r: seq<Lane>)
    requires n > 0 && |a| == n && |b| == n
  {
    |r| == |mask| && forall i :: 0 <= i < |mask| ==>
      if 0 <= mask[i] < n then Reads(r[i], a[mask[i]]) else if mask[i] >= n then Reads(r[i], b[mask[i] % n]) else true
  }

  /** An undef bit selects either operand, but nothing else. */
  ghost predicate ExecSel(mask: seq<int>, a: seq<Lane>, b: seq<Lane>, r: seq<Lane>)
    requires |a| == |mask| && |b| == |mask|
  {
    |r| == |mask| && forall i :: 0 <= i < |mask| ==>
      if mask[i] == 1 then Reads(r[i], a[i]) else if mask[i] == 0 then Reads(r[i], b[i]) else Reads(r[i], a[i]) || Reads(r[i], b[i])
  }

  type Env = Name -> seq<Lane>

  ghost predicate Exec(env: Env, n: nat, inst: Inst) {
    n > 0 && |env(inst.op0)| == n && |env(inst.op1)| == n &&
    match inst
    case ShufInst(name, op0, op1, mask) => |mask| == n && ExecShuf(mask, n, env(op0), env(op1), env(name))
    case SelInst(name, op0, op1, mask) => |mask| == n && ExecSel(mask, env(op0), env(op1), env(name))
  }

  function Known(value: seq<int>): (r: seq<Lane>)
    ensures |r| == |value| && forall i :: 0 <= i < |value| ==> r[i] == Some(value[i])
  {
    seq(|value|, i requires 0 <= i < |value| => Some(value[i]))
  }

  function Zeros(n: nat): seq<int> { seq(n, _ => 0) }

  /** An execution of a program on the inputs. */
  ghost predicate Runs(env: Env, n: nat, inputs: seq<Value>, insts: seq<Inst>) {
    && env(Zero) == Known(Zeros(n))
    && (forall i :: 0 <= i < |inputs| ==> env(Inp(i)) == Known(inputs[i].value))
    && (forall k :: 0 <= k < |insts| ==> Exec(env, n, insts[k]))
  }

  // ---------- Programs ----------

  /** What is defined ahead of instruction k. */
  ghost predicate Defined(num: nat, insts: seq<Inst>, k: nat, x: Name)
    requires k <= |insts|
  {
    x == Zero || (x.Inp? && x.i < num) || exists j :: 0 <= j < k && insts[j].name == x
  }

  /** Every instruction uses what is defined ahead of it, and defines something new. */
  ghost predicate Ordered(num: nat, insts: seq<Inst>) {
    forall k :: 0 <= k < |insts| ==>
      Defined(num, insts, k, insts[k].op0) && Defined(num, insts, k, insts[k].op1) && !Defined(num, insts, k, insts[k].name)
  }

  type Values = map<Name, seq<int>>

  ghost predicate Calculated(vals: Values, n: nat, inst: Inst) {
    && n > 0 && |inst.mask| == n
    && inst.op0 in vals && inst.op1 in vals && inst.name in vals
    && |vals[inst.op0]| == n && |vals[inst.op1]| == n
    && vals[inst.name] == if inst.ShufInst? then CalcShuf(inst.mask, n, vals[inst.op0], vals[inst.op1])
                          else CalcSel(inst.mask, vals[inst.op0], vals[inst.op1])
  }

  /** The values tracked for the names of a program. */
  ghost predicate Tracked(vals: Values, n: nat, inputs: seq<Value>, insts: seq<Inst>) {
    && Zero in vals && vals[Zero] == Zeros(n)
    && (forall i :: 0 <= i < |inputs| ==> Inp(i) in vals && vals[Inp(i)] == inputs[i].value)
    && (forall k :: 0 <= k < |insts| ==> Calculated(vals, n, insts[k]))
  }

  /** A lane holds what is tracked for it, unless that is -1. */
  predicate Holds(value: seq<int>, lanes: seq<Lane>) {
    |value| == |lanes| && forall i :: 0 <= i < |value| ==> value[i] != -1 ==> lanes[i] == Some(value[i])
  }

  lemma ExecHolds(vals: Values, env: Env, n: nat, inst: Inst)
    requires Calculated(vals, n, inst) && Exec(env, n, inst)
    requires Holds(vals[inst.op0], env(inst.op0)) && Holds(vals[inst.op1], env(inst.op1))
    ensures Holds(vals[inst.name], env(inst.name))
  {
  }

  /** In every execution, every lane holds what is tracked for it. */
  lemma {:induction false} TrackedHolds(vals: Values, env: Env, n: nat, inputs: seq<Value>, insts: seq<Inst>, k: nat, x: Name)
    requires Tracked(vals, n, inputs, insts) && Runs(env, n, inputs, insts) && Ordered(|inputs|, insts)
    requires k <= |insts| && Defined(|inputs|, insts, k, x)
    ensures x in vals && Holds(vals[x], env(x))
    decreases k
  {
    if j :| 0 <= j < k && insts[j].name == x {
      hide Holds, Exec, Defined;
      TrackedHolds(vals, env, n, inputs, insts, j, insts[j].op0);
      TrackedHolds(vals, env, n, inputs, insts, j, insts[j].op1);
      ExecHolds(vals, env, n, insts[j]);
    }
  }
}
