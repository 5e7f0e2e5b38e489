/**
 Which lanes of a program are undecided: whether two executions differ in them, or one leaves
 them undef. The tracked value -1 says so only of programs that do not blend a value with itself.
 */
module ShuffleUndecided {
  import opened ShuffleProgram

  // ---------- What is certain ----------

  function CertainShuf(mask: seq<int>, n: nat, a: seq<Lane>, b: seq<Lane>): (r: seq<Lane>)
    requires n > 0 && |a| == n && |b| == n
    ensures |r| == |mask|
  {
    seq(|mask|, i requires 0 <= i < |mask| => if 0 <= mask[i] < n then a[mask[i]] else if mask[i] >= n then b[mask[i] % n] else None)
  }

  /** With an undef bit a lane is certain if both operands are, of the same value. */
  function CertainSel(mask: seq<int>, a: seq<Lane>, b: seq<Lane>): (r: seq<Lane>)
    requires |a| == |mask| && |b| == |mask|
    ensures |r| == |mask|
  {
    seq(|mask|, i requires 0 <= i < |mask| =>
      if mask[i] == 1 then a[i] else if mask[i] == 0 then b[i] else if a[i] == b[i] then a[i] else None)
  }

  function CertainOf(n: nat, inst: Inst, a: seq<Lane>, b: seq<Lane>): seq<Lane> {
    if n == 0 || |a| != n || |b| != n || |inst.mask| != n then []
    else if inst.ShufInst? then CertainShuf(inst.mask, n, a, b) else CertainSel(inst.mask, a, b)
  }

  /** The lanes of x after k instructions, as far as they are certain. */
  function Certain(n: nat, inputs: seq<Value>, insts: seq<Inst>, k: nat, x: Name): seq<Lane>
    requires k <= |insts|
    decreases k
  {
    if x == Zero then Known(Zeros(n))
    else if x.Inp? && x.i < |inputs| then Known(inputs[x.i].value)
    else if k == 0 then []
    else if insts[k - 1].name != x then Certain(n, inputs, insts, k - 1, x)
    else CertainOf(n, insts[k - 1], Certain(n, inputs, insts, k - 1, insts[k - 1].op0), Certain(n, inputs, insts, k - 1, insts[k - 1].op1))
  }

  /** Programs as they are generated. */
  ghost predicate Program(n: nat, inputs: seq<Value>, insts: seq<Inst>) {
    && n > 0 && GoodInputs(inputs, n) && Ordered(|inputs|, insts)
    && forall k :: 0 <= k < |insts| ==> |insts[k].mask| == n
  }

  /** An execution of the first k instructions. */
  ghost predicate RunsTo(env: Env, n: nat, inputs: seq<Value>, insts: seq<Inst>, k: nat)
    requires k <= |insts|
  {
    && env(Zero) == Known(Zeros(n))
    && (forall i :: 0 <= i < |inputs| ==> env(Inp(i)) == Known(inputs[i].value))
    && (forall j :: 0 <= j < k ==> Exec(env, n, insts[j]))
  }

  lemma OpsDefined(n: nat, inputs: seq<Value>, insts: seq<Inst>, k: nat)
    requires Program(n, inputs, insts) && k < |insts|
    ensures n > 0 && |insts[k].mask| == n
    ensures Defined(|inputs|, insts, k, insts[k].op0) && Defined(|inputs|, insts, k, insts[k].op1) && !Defined(|inputs|, insts, k, insts[k].name)
  {
  }

  lemma DefinedNext(num: nat, insts: seq<Inst>, k: nat, x: Name)
    requires k < |insts|
    ensures Defined(num, insts, k + 1, x) <==> Defined(num, insts, k, x) || insts[k].name == x
  {
    if j :| 0 <= j < k + 1 && insts[j].name == x {
      assert j == k || insts[j].name == x;
    }
  }

  /** Names that are defined have n lanes, in every execution. */
  lemma {:induction false} RunLanes(env: Env, n: nat, inputs: seq<Value>, insts: seq<Inst>, k: nat, x: Name)
    requires Program(n, inputs, insts) && k <= |insts| && RunsTo(env, n, inputs, insts, k) && Defined(|inputs|, insts, k, x)
    ensures |env(x)| == n
  {
    if j :| 0 <= j < k && insts[j].name == x {
      assert Exec(env, n, insts[j]);
    }
  }

  /** What is certain holds in every execution. */
  lemma {:induction false} CertainHolds(env: Env, n: nat, inputs: seq<Value>, insts: seq<Inst>, k: nat, x: Name)
    requires Program(n, inputs, insts) && k <= |insts| && RunsTo(env, n, inputs, insts, k) && Defined(|inputs|, insts, k, x)
    ensures var c := Certain(n, inputs, insts, k, x);
            |c| == n == |env(x)| && forall i :: 0 <= i < n && c[i].Some? ==> env(x)[i] == c[i]
    decreases k
  {
    hide Program, Defined, RunsTo, Exec, Certain, CertainOf, Known;
    if x == Zero || (x.Inp? && x.i < |inputs|) {
      GivenHolds(env, n, inputs, insts, k, x);
    } else {
      SomeBefore(|inputs|, insts, k, x);
      OpsDefined(n, inputs, insts, k - 1);
      DefinedNext(|inputs|, insts, k - 1, x);
      RunEarlier(env, n, inputs, insts, k - 1);
      CertainStep(n, inputs, insts, k - 1, x);
      if insts[k - 1].name != x {
        CertainHolds(env, n, inputs, insts, k - 1, x);
      } else {
        CertainHolds(env, n, inputs, insts, k - 1, insts[k - 1].op0);
        CertainHolds(env, n, inputs, insts, k - 1, insts[k - 1].op1);
        ExecCertain(env, n, insts[k - 1], Certain(n, inputs, insts, k - 1, insts[k - 1].op0), Certain(n, inputs, insts, k - 1, insts[k - 1].op1));
      }
    }
  }

  lemma GivenHolds(env: Env, n: nat, inputs: seq<Value>, insts: seq<Inst>, k: nat, x: Name)
    requires Program(n, inputs, insts) && k <= |insts| && RunsTo(env, n, inputs, insts, k)
    requires x == Zero || (x.Inp? && x.i < |inputs|)
    ensures env(x) == Certain(n, inputs, insts, k, x) && |env(x)| == n
  {
    hide Exec, Ordered;
  }

  lemma SomeBefore(num: nat, insts: seq<Inst>, k: nat, x: Name)
    requires k <= |insts| && Defined(num, insts, k, x) && x != Zero && !(x.Inp? && x.i < num)
    ensures k > 0
  {
  }

  lemma RunEarlier(env: Env, n: nat, inputs: seq<Value>, insts: seq<Inst>, k: nat)
    requires k < |insts| && RunsTo(env, n, inputs, insts, k + 1)
    ensures RunsTo(env, n, inputs, insts, k) && Exec(env, n, insts[k])
  {
    hide Exec;
  }

  lemma CertainStep(n: nat, inputs: seq<Value>, insts: seq<Inst>, k: nat, x: Name)
    requires k < |insts| && x != Zero && !(x.Inp? && x.i < |inputs|)
    ensures Certain(n, inputs, insts, k + 1, x) ==
      if insts[k].name != x then Certain(n, inputs, insts, k, x)
      else CertainOf(n, insts[k], Certain(n, inputs, insts, k, insts[k].op0), Certain(n, inputs, insts, k, insts[k].op1))
  {
    hide CertainOf;
  }

  lemma ExecCertain(env: Env, n: nat, inst: Inst, a: seq<Lane>, b: seq<Lane>)
    requires Exec(env, n, inst) && |a| == n && |b| == n && |inst.mask| == n
    requires forall i :: 0 <= i < n && a[i].Some? ==> env(inst.op0)[i] == a[i]
    requires forall i :: 0 <= i < n && b[i].Some? ==> env(inst.op1)[i] == b[i]
    ensures var c := CertainOf(n, inst, a, b);
            |c| == n == |env(inst.name)| && forall i :: 0 <= i < n && c[i].Some? ==> env(inst.name)[i] == c[i]
  {
  }

  // ---------- Executions ----------

  /** One way to execute an instruction: undef stays undef, and undef bits all select the first operand, or the second. */
  function DoInst(n: nat, inst: Inst, a: seq<Lane>, b: seq<Lane>, first: bool): (r: seq<Lane>)
    requires n > 0 && |a| == n && |b| == n && |inst.mask| == n
    ensures |r| == n
    ensures forall i :: 0 <= i < n ==> r[i] == DoLane(n, inst, a, b, first, i)
  {
    seq(n, i requires 0 <= i < n => DoLane(n, inst, a, b, first, i))
  }

  function DoLane(n: nat, inst: Inst, a: seq<Lane>, b: seq<Lane>, first: bool, i: nat): Lane
    requires n > 0 && |a| == n && |b| == n && |inst.mask| == n && i < n
  {
    var m := inst.mask[i];
    if inst.ShufInst? then if 0 <= m < n then a[m] else if m >= n then b[m % n] else None
    else if m == 1 || (m != 0 && first) then a[i] else b[i]
  }

  ghost function Extended(env: Env, n: nat, inst: Inst, first: bool): Env {
    if n > 0 && |env(inst.op0)| == n && |env(inst.op1)| == n && |inst.mask| == n
    then x => if x == inst.name then DoInst(n, inst, env(inst.op0), env(inst.op1), first) else env(x)
    else env
  }

  /** An execution can be continued with the next instruction, in either way, and keeps what it has. */
  lemma ExtendOne(env: Env, n: nat, inputs: seq<Value>, insts: seq<Inst>, k: nat, first: bool)
    requires Program(n, inputs, insts) && k < |insts| && RunsTo(env, n, inputs, insts, k)
    ensures n > 0 && |env(insts[k].op0)| == n && |env(insts[k].op1)| == n && |insts[k].mask| == n
    ensures var e := Extended(env, n, insts[k], first);
            && RunsTo(e, n, inputs, insts, k + 1)
            && e(insts[k].name) == DoInst(n, insts[k], env(insts[k].op0), env(insts[k].op1), first)
            && forall x :: Defined(|inputs|, insts, k, x) ==> e(x) == env(x)
  {
    var inst := insts[k];
    OpsDefined(n, inputs, insts, k);
    RunLanes(env, n, inputs, insts, k, inst.op0);
    RunLanes(env, n, inputs, insts, k, inst.op1);
    var e := Extended(env, n, inst, first);
    assert forall x :: Defined(|inputs|, insts, k, x) ==> e(x) == env(x);
    forall j | 0 <= j < k + 1 ensures Exec(e, n, insts[j]) {
      if j < k {
        OpsDefined(n, inputs, insts, j);
        Earlier(|inputs|, insts, j, k);
        SameExec(env, e, n, insts[j]);
      } else {
        ExtendedExec(env, n, inst, first);
      }
    }
    assert Defined(|inputs|, insts, k, Zero) && forall i :: 0 <= i < |inputs| ==> Defined(|inputs|, insts, k, Inp(i));
  }

  lemma Earlier(num: nat, insts: seq<Inst>, j: nat, k: nat)
    requires j < k <= |insts|
    ensures Defined(num, insts, k, insts[j].name)
    ensures forall x :: Defined(num, insts, j, x) ==> Defined(num, insts, k, x)
  {
  }

  lemma SameExec(env: Env, e: Env, n: nat, inst: Inst)
    requires Exec(env, n, inst) && e(inst.op0) == env(inst.op0) && e(inst.op1) == env(inst.op1) && e(inst.name) == env(inst.name)
    ensures Exec(e, n, inst)
  {
  }

  lemma ExtendedExec(env: Env, n: nat, inst: Inst, first: bool)
    requires n > 0 && |env(inst.op0)| == n && |env(inst.op1)| == n && |inst.mask| == n && inst.name != inst.op0 && inst.name != inst.op1
    ensures Exec(Extended(env, n, inst, first), n, inst)
  {
    var a, b := env(inst.op0), env(inst.op1);
    DoExec(n, inst, a, b, first);
    var e := Extended(env, n, inst, first);
    assert e(inst.op0) == a && e(inst.op1) == b && e(inst.name) == DoInst(n, inst, a, b, first);
    hide Extended, DoInst, ExecShuf, ExecSel;
  }

  lemma DoExec(n: nat, inst: Inst, a: seq<Lane>, b: seq<Lane>, first: bool)
    requires n > 0 && |a| == n && |b| == n && |inst.mask| == n
    ensures inst.ShufInst? ==> ExecShuf(inst.mask, n, a, b, DoInst(n, inst, a, b, first))
    ensures inst.SelInst? ==> ExecSel(inst.mask, a, b, DoInst(n, inst, a, b, first))
  {
    forall i | 0 <= i < n ensures DoInst(n, inst, a, b, first)[i] == DoLane(n, inst, a, b, first, i) {
    }
    hide DoInst;
  }

  lemma NoneRun(n: nat, inputs: seq<Value>, insts: seq<Inst>) returns (env: Env)
    ensures RunsTo(env, n, inputs, insts, 0)
  {
    env := (x: Name) => if x.Inp? && x.i < |inputs| then Known(inputs[x.i].value) else Known(Zeros(n));
  }

  lemma {:induction false} SomeRun(n: nat, inputs: seq<Value>, insts: seq<Inst>, k: nat) returns (env: Env)
    requires Program(n, inputs, insts) && k <= |insts|
    ensures RunsTo(env, n, inputs, insts, k)
    decreases k
  {
    hide Program, RunsTo, Extended;
    if k == 0 {
      env := NoneRun(n, inputs, insts);
    } else {
      env := SomeRun(n, inputs, insts, k - 1);
      ExtendOne(env, n, inputs, insts, k - 1, true);
      env := Extended(env, n, insts[k - 1], true);
    }
  }

  lemma {:induction false} Finish(env: Env, n: nat, inputs: seq<Value>, insts: seq<Inst>, k: nat) returns (e: Env)
    requires Program(n, inputs, insts) && k <= |insts| && RunsTo(env, n, inputs, insts, k)
    ensures Runs(e, n, inputs, insts) && forall x :: Defined(|inputs|, insts, k, x) ==> e(x) == env(x)
    decreases |insts| - k
  {
    if k == |insts| {
      e := env;
    } else {
      ExtendOne(env, n, inputs, insts, k, true);
      e := Finish(Extended(env, n, insts[k], true), n, inputs, insts, k + 1);
      forall x | Defined(|inputs|, insts, k, x) ensures e(x) == env(x) {
        DefinedNext(|inputs|, insts, k, x);
      }
    }
  }

  // ---------- What is not certain is undecided ----------

  /** Two executions that differ in a lane, or one that leaves it undef. */
  ghost predicate Differ(d: Env, e: Env, x: Name, i: nat) {
    i < |d(x)| && i < |e(x)| && (d(x)[i] == None || d(x)[i] != e(x)[i])
  }

  /** Both executions, continued. */
  lemma BothGoOn(d: Env, e: Env, n: nat, inputs: seq<Value>, insts: seq<Inst>, k: nat, x: Name, i: nat)
    requires Program(n, inputs, insts) && k < |insts| && RunsTo(d, n, inputs, insts, k) && RunsTo(e, n, inputs, insts, k)
    requires Defined(|inputs|, insts, k, x) && Differ(d, e, x, i)
    ensures var d', e' := Extended(d, n, insts[k], true), Extended(e, n, insts[k], true);
            RunsTo(d', n, inputs, insts, k + 1) && RunsTo(e', n, inputs, insts, k + 1) && Differ(d', e', x, i)
  {
    ExtendOne(d, n, inputs, insts, k, true);
    ExtendOne(e, n, inputs, insts, k, true);
  }

  /** The next instruction takes lane i over from lane j of x. */
  lemma TakesOver(d: Env, e: Env, n: nat, inputs: seq<Value>, insts: seq<Inst>, k: nat, first: bool, x: Name, j: nat, i: nat)
    requires Program(n, inputs, insts) && k < |insts| && RunsTo(d, n, inputs, insts, k) && RunsTo(e, n, inputs, insts, k)
    requires Differ(d, e, x, j) && i < n && |insts[k].mask| == n
    requires (x, j) == Source(n, insts[k], first, i) && !(insts[k].ShufInst? && insts[k].mask[i] < 0)
    ensures var d', e' := Extended(d, n, insts[k], first), Extended(e, n, insts[k], first);
            RunsTo(d', n, inputs, insts, k + 1) && RunsTo(e', n, inputs, insts, k + 1) && Differ(d', e', insts[k].name, i)
  {
    ExtendOne(d, n, inputs, insts, k, first);
    ExtendOne(e, n, inputs, insts, k, first);
    hide RunsTo, Program, Extended;
  }

  /** An undef bit of two lanes that are certain, but different. */
  lemma BothWays(d: Env, n: nat, inputs: seq<Value>, insts: seq<Inst>, k: nat, i: nat)
    requires Program(n, inputs, insts) && k < |insts| && RunsTo(d, n, inputs, insts, k) && i < n
    requires insts[k].SelInst? && |insts[k].mask| == n && insts[k].mask[i] != 0 && insts[k].mask[i] != 1
    requires var a, b := Certain(n, inputs, insts, k, insts[k].op0), Certain(n, inputs, insts, k, insts[k].op1);
             |a| == n && |b| == n && a[i].Some? && b[i].Some? && a[i] != b[i]
    ensures var e, f := Extended(d, n, insts[k], true), Extended(d, n, insts[k], false);
            RunsTo(e, n, inputs, insts, k + 1) && RunsTo(f, n, inputs, insts, k + 1) && Differ(e, f, insts[k].name, i)
  {
    OpsDefined(n, inputs, insts, k);
    ExtendOne(d, n, inputs, insts, k, true);
    ExtendOne(d, n, inputs, insts, k, false);
    CertainHolds(d, n, inputs, insts, k, insts[k].op0);
    CertainHolds(d, n, inputs, insts, k, insts[k].op1);
    hide RunsTo, Program, Extended, Certain;
  }

  /** A lane that is not certain after k instructions is undecided. */
  lemma {:induction false} Wavers(n: nat, inputs: seq<Value>, insts: seq<Inst>, k: nat, x: Name, i: nat) returns (d: Env, e: Env)
    requires Program(n, inputs, insts) && k <= |insts| && Defined(|inputs|, insts, k, x) && i < n
    requires |Certain(n, inputs, insts, k, x)| == n && Certain(n, inputs, insts, k, x)[i] == None
    ensures RunsTo(d, n, inputs, insts, k) && RunsTo(e, n, inputs, insts, k) && Differ(d, e, x, i)
    decreases k, 0
  {
    assert x != Zero && !(x.Inp? && x.i < |inputs|) by { NotGiven(n, inputs, insts, k, x, i); }
    assert k > 0;
    DefinedNext(|inputs|, insts, k - 1, x);
    CertainStep(n, inputs, insts, k - 1, x);
    hide Program, Defined, RunsTo, Certain, Differ, Extended;
    if insts[k - 1].name != x {
      d, e := Wavers(n, inputs, insts, k - 1, x, i);
      BothGoOn(d, e, n, inputs, insts, k - 1, x, i);
      d, e := Extended(d, n, insts[k - 1], true), Extended(e, n, insts[k - 1], true);
    } else {
      d, e := WaversHere(n, inputs, insts, k - 1, i);
    }
  }

  lemma NotGiven(n: nat, inputs: seq<Value>, insts: seq<Inst>, k: nat, x: Name, i: nat)
    requires Program(n, inputs, insts) && k <= |insts| && i < n
    requires |Certain(n, inputs, insts, k, x)| == n && Certain(n, inputs, insts, k, x)[i] == None
    ensures x != Zero && !(x.Inp? && x.i < |inputs|)
  {
  }

  /** The lanes of what an instruction uses. */
  lemma OpLanes(n: nat, inputs: seq<Value>, insts: seq<Inst>, k: nat)
    requires Program(n, inputs, insts) && k < |insts|
    ensures |Certain(n, inputs, insts, k, insts[k].op0)| == n && |Certain(n, inputs, insts, k, insts[k].op1)| == n
  {
    OpsDefined(n, inputs, insts, k);
    var env := SomeRun(n, inputs, insts, k);
    CertainHolds(env, n, inputs, insts, k, insts[k].op0);
    CertainHolds(env, n, inputs, insts, k, insts[k].op1);
  }

  lemma {:induction false} WaversHere(n: nat, inputs: seq<Value>, insts: seq<Inst>, k: nat, i: nat) returns (d: Env, e: Env)
    requires Program(n, inputs, insts) && k < |insts| && i < n
    requires var c := CertainOf(n, insts[k], Certain(n, inputs, insts, k, insts[k].op0), Certain(n, inputs, insts, k, insts[k].op1));
             |c| == n && c[i] == None
    ensures RunsTo(d, n, inputs, insts, k + 1) && RunsTo(e, n, inputs, insts, k + 1) && Differ(d, e, insts[k].name, i)
    decreases k, 2
  {
    var inst := insts[k];
    var m := inst.mask[i];
    OpsDefined(n, inputs, insts, k);
    OpLanes(n, inputs, insts, k);
    var a, b := Certain(n, inputs, insts, k, inst.op0), Certain(n, inputs, insts, k, inst.op1);
    hide Program, Defined, RunsTo, Certain, Differ, Extended;
    if inst.ShufInst? && m < 0 {
      d := SomeRun(n, inputs, insts, k);
      UndefLane(d, n, inputs, insts, k, i);
      d, e := Extended(d, n, inst, true), Extended(d, n, inst, true);
    } else if inst.SelInst? && m != 0 && m != 1 && a[i].Some? && b[i].Some? {
      d := SomeRun(n, inputs, insts, k);
      BothWays(d, n, inputs, insts, k, i);
      d, e := Extended(d, n, inst, true), Extended(d, n, inst, false);
    } else {
      d, e := WaversFrom(n, inputs, insts, k, i);
    }
  }

  lemma {:induction false} WaversFrom(n: nat, inputs: seq<Value>, insts: seq<Inst>, k: nat, i: nat) returns (d: Env, e: Env)
    requires Program(n, inputs, insts) && k < |insts| && i < n && |insts[k].mask| == n
    requires !(insts[k].ShufInst? && insts[k].mask[i] < 0)
    requires var a, b := Certain(n, inputs, insts, k, insts[k].op0), Certain(n, inputs, insts, k, insts[k].op1);
             && |a| == n && |b| == n && |CertainOf(n, insts[k], a, b)| == n && CertainOf(n, insts[k], a, b)[i] == None
             && !(insts[k].SelInst? && insts[k].mask[i] != 0 && insts[k].mask[i] != 1 && a[i].Some? && b[i].Some?)
    ensures RunsTo(d, n, inputs, insts, k + 1) && RunsTo(e, n, inputs, insts, k + 1) && Differ(d, e, insts[k].name, i)
    decreases k, 1
  {
    var inst := insts[k];
    OpsDefined(n, inputs, insts, k);
    hide Program, Defined, RunsTo, Certain, Differ, Extended;
    var a, b := Certain(n, inputs, insts, k, inst.op0), Certain(n, inputs, insts, k, inst.op1);
    var first := a[i] == None;
    var (x, j) := Source(n, inst, first, i);
    SourceLane(n, inst, a, b, i);
    hide CertainOf, Source;
    d, e := Wavers(n, inputs, insts, k, x, j);
    TakesOver(d, e, n, inputs, insts, k, first, x, j, i);
    d, e := Extended(d, n, inst, first), Extended(e, n, inst, first);
  }

  /** The name and the lane that lane i of an instruction is taken from. */
  function Source(n: nat, inst: Inst, first: bool, i: nat): (Name, nat)
    requires n > 0 && i < |inst.mask|
  {
    var m := inst.mask[i];
    if inst.ShufInst? then if m < n then (inst.op0, if m >= 0 then m else 0) else (inst.op1, m % n)
    else (if m == 1 || (m != 0 && first) then inst.op0 else inst.op1, i)
  }

  /** That lane is not certain either. */
  lemma SourceLane(n: nat, inst: Inst, a: seq<Lane>, b: seq<Lane>, i: nat)
    requires n > 0 && |a| == n && |b| == n && |inst.mask| == n && i < n && inst.name != inst.op0 && inst.name != inst.op1
    requires CertainOf(n, inst, a, b)[i] == None && !(inst.ShufInst? && inst.mask[i] < 0)
    requires !(inst.SelInst? && inst.mask[i] != 0 && inst.mask[i] != 1 && a[i].Some? && b[i].Some?)
    ensures var (x, j) := Source(n, inst, a[i] == None, i);
            j < n && (x == inst.op0 || x == inst.op1) && ((x == inst.op0 && a[j] == None) || (x == inst.op1 && b[j] == None))
  {
  }

  lemma UndefLane(d: Env, n: nat, inputs: seq<Value>, insts: seq<Inst>, k: nat, i: nat)
    requires Program(n, inputs, insts) && k < |insts| && RunsTo(d, n, inputs, insts, k) && i < n
    requires insts[k].ShufInst? && |insts[k].mask| == n && insts[k].mask[i] < 0
    ensures var e := Extended(d, n, insts[k], true);
            RunsTo(e, n, inputs, insts, k + 1) && Differ(e, e, insts[k].name, i)
  {
    ExtendOne(d, n, inputs, insts, k, true);
    hide RunsTo, Program, Extended;
  }

  /** Two executions of the whole program differ in a lane, or one leaves it undef. */
  ghost predicate Undecided(n: nat, inputs: seq<Value>, insts: seq<Inst>, x: Name, i: nat) {
    exists d, e :: Runs(d, n, inputs, insts) && Runs(e, n, inputs, insts) && Differ(d, e, x, i)
  }

  ghost predicate Always(n: nat, inputs: seq<Value>, insts: seq<Inst>, x: Name, i: nat, v: int) {
    forall e :: Runs(e, n, inputs, insts) ==> i < |e(x)| && e(x)[i] == Some(v)
  }

  lemma WholeRun(env: Env, n: nat, inputs: seq<Value>, insts: seq<Inst>)
    ensures Runs(env, n, inputs, insts) == RunsTo(env, n, inputs, insts, |insts|)
  {
  }

  /** Certain is exact: a lane has a value if all executions agree on that, and none if it is undecided. */
  lemma CertainIff(n: nat, inputs: seq<Value>, insts: seq<Inst>, x: Name, i: nat)
    requires Program(n, inputs, insts) && Defined(|inputs|, insts, |insts|, x) && i < n
    ensures var c := Certain(n, inputs, insts, |insts|, x);
            |c| == n && (c[i] == None <==> Undecided(n, inputs, insts, x, i)) && forall v :: c[i] == Some(v) <==> Always(n, inputs, insts, x, i, v)
  {
    hide Program, Defined, RunsTo, Runs, Certain;
    var c := Certain(n, inputs, insts, |insts|, x);
    var env := SomeRun(n, inputs, insts, |insts|);
    WholeRun(env, n, inputs, insts);
    CertainHolds(env, n, inputs, insts, |insts|, x);
    forall e | Runs(e, n, inputs, insts) ensures |e(x)| == n && (c[i].Some? ==> e(x)[i] == c[i]) {
      WholeRun(e, n, inputs, insts);
      CertainHolds(e, n, inputs, insts, |insts|, x);
    }
    if c[i] == None {
      var d, e := Wavers(n, inputs, insts, |insts|, x, i);
      WholeRun(d, n, inputs, insts);
      WholeRun(e, n, inputs, insts);
      assert Undecided(n, inputs, insts, x, i);
    }
  }

  // ---------- What is tracked, and what is certain ----------

  /** A select with an undef bit whose operands are tracked with the same value. */
  ghost predicate Blends(vals: Values, insts: seq<Inst>) {
    exists k, i :: 0 <= k < |insts| && BlendsAt(vals, insts[k], i)
  }

  ghost predicate BlendsAt(vals: Values, inst: Inst, i: nat) {
    && inst.SelInst? && i < |inst.mask| && inst.mask[i] != 0 && inst.mask[i] != 1
    && inst.op0 in vals && inst.op1 in vals && i < |vals[inst.op0]| && i < |vals[inst.op1]|
    && vals[inst.op0][i] == vals[inst.op1][i] != -1
  }

  /** The tracked lanes agree with the certain ones, except that -1 may be tracked for a lane that is certain. */
  predicate Weaker(value: seq<int>, c: seq<Lane>) {
    |value| == |c| && forall i :: 0 <= i < |c| ==> value[i] != -1 ==> c[i] == Some(value[i])
  }

  predicate Same(value: seq<int>, c: seq<Lane>) {
    Weaker(value, c) && forall i :: 0 <= i < |c| ==> value[i] == -1 ==> c[i] == None
  }

  lemma CalcWeaker(vals: Values, n: nat, inst: Inst, a: seq<Lane>, b: seq<Lane>)
    requires Calculated(vals, n, inst) && Weaker(vals[inst.op0], a) && Weaker(vals[inst.op1], b)
    ensures Weaker(vals[inst.name], CertainOf(n, inst, a, b))
    ensures Same(vals[inst.op0], a) && Same(vals[inst.op1], b) && (forall i: nat :: !BlendsAt(vals, inst, i)) ==>
              Same(vals[inst.name], CertainOf(n, inst, a, b))
  {
    var c := CertainOf(n, inst, a, b);
    assert |c| == n == |vals[inst.name]|;
    forall i: nat | i < n
      ensures vals[inst.name][i] != -1 ==> c[i] == Some(vals[inst.name][i])
      ensures Same(vals[inst.op0], a) && Same(vals[inst.op1], b) && !BlendsAt(vals, inst, i) && vals[inst.name][i] == -1 ==> c[i] == None
    {
      CalcLane(vals, n, inst, a, b, i);
    }
  }

  lemma CalcLane(vals: Values, n: nat, inst: Inst, a: seq<Lane>, b: seq<Lane>, i: nat)
    requires Calculated(vals, n, inst) && Weaker(vals[inst.op0], a) && Weaker(vals[inst.op1], b) && i < n
    ensures |CertainOf(n, inst, a, b)| == n == |vals[inst.name]|
    ensures vals[inst.name][i] != -1 ==> CertainOf(n, inst, a, b)[i] == Some(vals[inst.name][i])
    ensures Same(vals[inst.op0], a) && Same(vals[inst.op1], b) && !BlendsAt(vals, inst, i) && vals[inst.name][i] == -1 ==>
              CertainOf(n, inst, a, b)[i] == None
  {
    var m := inst.mask[i];
    if inst.ShufInst? {
      assert vals[inst.name][i] == ShufLane(m, n, vals[inst.op0], vals[inst.op1]);
    } else {
      assert vals[inst.name][i] == SelLane(m, vals[inst.op0][i], vals[inst.op1][i]);
    }
    hide Calculated, CalcShuf, CalcSel;
  }

  lemma {:induction false} TrackedWeaker(vals: Values, n: nat, inputs: seq<Value>, insts: seq<Inst>, k: nat, x: Name)
    requires Program(n, inputs, insts) && Tracked(vals, n, inputs, insts) && k <= |insts| && Defined(|inputs|, insts, k, x)
    ensures x in vals && Weaker(vals[x], Certain(n, inputs, insts, k, x))
    ensures !Blends(vals, insts) ==> Same(vals[x], Certain(n, inputs, insts, k, x))
    decreases k
  {
    if x == Zero || (x.Inp? && x.i < |inputs|) {
      GivenSame(vals, n, inputs, insts, k, x);
    } else {
      var inst := insts[k - 1];
      OpsDefined(n, inputs, insts, k - 1);
      DefinedNext(|inputs|, insts, k - 1, x);
      CertainStep(n, inputs, insts, k - 1, x);
      CalculatedAt(vals, n, inputs, insts, k - 1);
      hide Program, Tracked, Defined, Certain, Weaker, Same, BlendsAt, Blends, Calculated, CertainOf;
      if inst.name != x {
        TrackedWeaker(vals, n, inputs, insts, k - 1, x);
      } else {
        TrackedWeaker(vals, n, inputs, insts, k - 1, inst.op0);
        TrackedWeaker(vals, n, inputs, insts, k - 1, inst.op1);
        CalcWeaker(vals, n, inst, Certain(n, inputs, insts, k - 1, inst.op0), Certain(n, inputs, insts, k - 1, inst.op1));
      }
    }
  }

  lemma GivenSame(vals: Values, n: nat, inputs: seq<Value>, insts: seq<Inst>, k: nat, x: Name)
    requires Program(n, inputs, insts) && Tracked(vals, n, inputs, insts) && k <= |insts|
    requires x == Zero || (x.Inp? && x.i < |inputs|)
    ensures x in vals && Same(vals[x], Certain(n, inputs, insts, k, x))
  {
  }

  lemma CalculatedAt(vals: Values, n: nat, inputs: seq<Value>, insts: seq<Inst>, k: nat)
    requires Tracked(vals, n, inputs, insts) && k < |insts|
    ensures Calculated(vals, n, insts[k])
    ensures insts[k].op0 in vals && insts[k].op1 in vals && insts[k].name in vals
    ensures !Blends(vals, insts) ==> forall i: nat :: !BlendsAt(vals, insts[k], i)
  {
    hide BlendsAt;
  }

  /** A lane tracked as -1 is undecided. */
  ghost predicate UndefRight(vals: Values, n: nat, inputs: seq<Value>, insts: seq<Inst>, x: Name) {
    x in vals && |vals[x]| == n && forall i :: 0 <= i < n ==> (vals[x][i] == -1 <==> Undecided(n, inputs, insts, x, i))
  }

  /** Of every value of a program, -1 is tracked exactly for the undecided lanes, if and only if no select blends a value with itself. */
  lemma UndefRightIff(vals: Values, n: nat, inputs: seq<Value>, insts: seq<Inst>)
    requires Program(n, inputs, insts) && Tracked(vals, n, inputs, insts)
    ensures (forall x :: Defined(|inputs|, insts, |insts|, x) ==> UndefRight(vals, n, inputs, insts, x)) <==> !Blends(vals, insts)
  {
    if !Blends(vals, insts) {
      forall x | Defined(|inputs|, insts, |insts|, x) ensures UndefRight(vals, n, inputs, insts, x) {
        LanesRight(vals, n, inputs, insts, x);
      }
    } else {
      var k, i :| 0 <= k < |insts| && BlendsAt(vals, insts[k], i);
      Blended(vals, n, inputs, insts, k, i);
    }
  }

  lemma LanesRight(vals: Values, n: nat, inputs: seq<Value>, insts: seq<Inst>, x: Name)
    requires Program(n, inputs, insts) && Tracked(vals, n, inputs, insts) && Defined(|inputs|, insts, |insts|, x) && !Blends(vals, insts)
    ensures UndefRight(vals, n, inputs, insts, x)
  {
    TrackedWeaker(vals, n, inputs, insts, |insts|, x);
    var env := SomeRun(n, inputs, insts, |insts|);
    CertainHolds(env, n, inputs, insts, |insts|, x);
    hide Program, Defined, Certain, Undecided, Always, Tracked, Blends, RunsTo;
    forall i: nat | i < n ensures vals[x][i] == -1 <==> Undecided(n, inputs, insts, x, i) {
      CertainIff(n, inputs, insts, x, i);
    }
  }

  /** A lane that is blended of twice the same value has that value, and is tracked as -1. */
  lemma Blended(vals: Values, n: nat, inputs: seq<Value>, insts: seq<Inst>, k: nat, i: nat)
    requires Program(n, inputs, insts) && Tracked(vals, n, inputs, insts) && k < |insts| && BlendsAt(vals, insts[k], i)
    ensures Defined(|inputs|, insts, |insts|, insts[k].name) && !UndefRight(vals, n, inputs, insts, insts[k].name)
    ensures Always(n, inputs, insts, insts[k].name, i, vals[insts[k].op0][i])
  {
    var inst := insts[k];
    assert Calculated(vals, n, inst);
    assert vals[inst.name][i] == -1;
    forall e | Runs(e, n, inputs, insts) ensures i < |e(inst.name)| && e(inst.name)[i] == Some(vals[inst.op0][i]) {
      OpsDefined(n, inputs, insts, k);
      Earlier(|inputs|, insts, k, |insts|);
      hide Program, Defined, Tracked, Calculated, Exec;
      OpsHold(vals, e, n, inputs, insts, k);
      assert Exec(e, n, inst) by { ExecAt(e, n, inputs, insts, k); }
      BlendLane(e, n, inst, i, vals[inst.op0][i]);
    }
    Earlier(|inputs|, insts, k, |insts|);
    hide Program, Runs, Tracked, Calculated, BlendsAt;
    CertainIff(n, inputs, insts, inst.name, i);
  }

  lemma ExecAt(e: Env, n: nat, inputs: seq<Value>, insts: seq<Inst>, k: nat)
    requires Runs(e, n, inputs, insts) && k < |insts|
    ensures Exec(e, n, insts[k])
  {
  }

  lemma OpsHold(vals: Values, e: Env, n: nat, inputs: seq<Value>, insts: seq<Inst>, k: nat)
    requires Program(n, inputs, insts) && Tracked(vals, n, inputs, insts) && Runs(e, n, inputs, insts) && k < |insts|
    ensures insts[k].op0 in vals && insts[k].op1 in vals
    ensures Holds(vals[insts[k].op0], e(insts[k].op0)) && Holds(vals[insts[k].op1], e(insts[k].op1))
  {
    OpsDefined(n, inputs, insts, k);
    TrackedHolds(vals, e, n, inputs, insts, k, insts[k].op0);
    TrackedHolds(vals, e, n, inputs, insts, k, insts[k].op1);
  }

  lemma BlendLane(e: Env, n: nat, inst: Inst, i: nat, v: int)
    requires Exec(e, n, inst) && inst.SelInst? && i < n && inst.mask[i] != 0 && inst.mask[i] != 1
    requires e(inst.op0)[i] == Some(v) && e(inst.op1)[i] == Some(v)
    ensures i < |e(inst.name)| && e(inst.name)[i] == Some(v)
  {
  }
}
