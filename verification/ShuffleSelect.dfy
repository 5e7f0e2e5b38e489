/**
 utils/shuffle_select_fuzz_tester.py: the generator of random straight-line programs, whose
 values are combined until one is left.
 */
module ShuffleSelect {
  import opened ShuffleProgram
  import opened ShuffleUndecided

  // ---------- The generator ----------

  /** The choices of one round; op2 is an available value, or the zero vector. */
  datatype Choice = NoSelect | Merge(op2: nat, selMask: seq<int>) | ZeroMerge(selMask: seq<int>)

  datatype Round = Round(idx0: nat, idx1: nat, shufMask: seq<int>, select: Choice)

  predicate ShufMask(mask: seq<int>, n: nat) { |mask| == n && forall i :: 0 <= i < n ==> -1 <= mask[i] < 2 * n }

  predicate SelMask(mask: seq<int>, n: nat) { |mask| == n && forall i :: 0 <= i < n ==> -1 <= mask[i] <= 1 }

  /** What the random choices may be when some values are available. */
  predicate Possible(r: Round, n: nat, available: nat) {
    && r.idx0 < r.idx1 < available && ShufMask(r.shufMask, n)
    && match r.select
       case NoSelect => true
       case Merge(op2, mask) => op2 < available && SelMask(mask, n)
       case ZeroMerge(mask) => SelMask(mask, n)
  }

  function Without<T>(s: seq<T>, i: nat): seq<T>
    requires i < |s|
  {
    s[..i] + s[i + 1..]
  }

  lemma WithoutKeeps<T>(s: seq<T>, i: nat, x: T)
    requires i < |s| && x in Without(s, i)
    ensures x in s
  {
  }

  /** The values that are available are defined, and are those that are tracked. */
  ghost predicate Available(vals: Values, n: nat, num: nat, insts: seq<Inst>, v: Value) {
    Defined(num, insts, |insts|, v.name) && v.name in vals && vals[v.name] == v.value && |v.value| == n
  }

  ghost predicate AllAvailable(vals: Values, n: nat, num: nat, insts: seq<Inst>, values: seq<Value>) {
    forall i :: 0 <= i < |values| ==> Available(vals, n, num, insts, values[i])
  }

  /** Which names are still free. */
  ghost predicate Free(vals: Values, num: nat, insts: seq<Inst>, shufs: nat, sels: nat) {
    && (forall x :: Defined(num, insts, |insts|, x) ==> x in vals)
    && (forall x :: x in vals ==> (x.Shuf? ==> x.k < shufs) && (x.Sel? ==> x.k < sels))
  }

  /** What holds between the rounds. */
  ghost predicate Building(vals: Values, n: nat, inputs: seq<Value>, insts: seq<Inst>) {
    n > 0 && Tracked(vals, n, inputs, insts) && Ordered(|inputs|, insts)
  }

  lemma DefinedMore(num: nat, insts: seq<Inst>, inst: Inst, x: Name)
    ensures Defined(num, insts + [inst], |insts| + 1, x) <==> Defined(num, insts, |insts|, x) || x == inst.name
  {
    var all := insts + [inst];
    assert all[|insts|] == inst;
    if Defined(num, all, |all|, x) && x != inst.name && x != Zero && !(x.Inp? && x.i < num) {
      var j :| 0 <= j < |all| && all[j].name == x;
      assert insts[j].name == x;
    }
    if Defined(num, insts, |insts|, x) && x != Zero && !(x.Inp? && x.i < num) {
      var j :| 0 <= j < |insts| && insts[j].name == x;
      assert all[j].name == x;
    }
  }

  lemma DefinedBefore(num: nat, insts: seq<Inst>, inst: Inst, k: nat, x: Name)
    requires k <= |insts|
    ensures Defined(num, insts + [inst], k, x) == Defined(num, insts, k, x)
  {
    assert forall j :: 0 <= j < k ==> (insts + [inst])[j] == insts[j];
  }

  /** One more instruction, with a new name and the value that is calculated for it. */
  lemma OneMore(vals: Values, n: nat, inputs: seq<Value>, insts: seq<Inst>, inst: Inst, value: seq<int>)
    requires Building(vals, n, inputs, insts) && Calculated(vals[inst.name := value], n, inst)
    requires inst.name !in vals && Defined(|inputs|, insts, |insts|, inst.op0) && Defined(|inputs|, insts, |insts|, inst.op1)
    requires forall x :: Defined(|inputs|, insts, |insts|, x) ==> x in vals
    ensures Building(vals[inst.name := value], n, inputs, insts + [inst])
  {
    var vals', all := vals[inst.name := value], insts + [inst];
    forall k | 0 <= k < |all|
      ensures Calculated(vals', n, all[k])
      ensures Defined(|inputs|, all, k, all[k].op0) && Defined(|inputs|, all, k, all[k].op1) && !Defined(|inputs|, all, k, all[k].name)
    {
      DefinedBefore(|inputs|, insts, inst, k, all[k].op0);
      DefinedBefore(|inputs|, insts, inst, k, all[k].op1);
      DefinedBefore(|inputs|, insts, inst, k, all[k].name);
      if k < |insts| {
        assert all[k] == insts[k] && Calculated(vals, n, insts[k]);
      }
    }
  }

  /** Everything that holds while a program is built. */
  ghost predicate State(vals: Values, n: nat, inputs: seq<Value>, insts: seq<Inst>, values: seq<Value>, shufs: nat, sels: nat) {
    && Building(vals, n, inputs, insts)
    && AllAvailable(vals, n, |inputs|, insts, values)
    && Free(vals, |inputs|, insts, shufs, sels)
  }

  function ValueOf(n: nat, inst: Inst, a: seq<int>, b: seq<int>): (r: seq<int>)
    requires n > 0 && |a| == n && |b| == n && |inst.mask| == n
    ensures |r| == n
  {
    if inst.ShufInst? then CalcShuf(inst.mask, n, a, b) else CalcSel(inst.mask, a, b)
  }

  lemma StillAvailable(vals: Values, n: nat, num: nat, insts: seq<Inst>, inst: Inst, value: seq<int>, v: Value)
    requires Available(vals, n, num, insts, v) && inst.name !in vals
    ensures Available(vals[inst.name := value], n, num, insts + [inst], v)
  {
    DefinedMore(num, insts, inst, v.name);
    hide Defined;
  }

  lemma StillFree(vals: Values, num: nat, insts: seq<Inst>, inst: Inst, value: seq<int>, shufs: nat, sels: nat, shufs': nat, sels': nat)
    requires Free(vals, num, insts, shufs, sels) && shufs <= shufs' && sels <= sels'
    requires (inst.name.Shuf? && inst.name.k < shufs') || (inst.name.Sel? && inst.name.k < sels')
    ensures Free(vals[inst.name := value], num, insts + [inst], shufs', sels')
  {
    forall x | Defined(num, insts + [inst], |insts + [inst]|, x) ensures x in vals[inst.name := value] {
      DefinedMore(num, insts, inst, x);
    }
  }

  lemma FreeName(vals: Values, num: nat, insts: seq<Inst>, shufs: nat, sels: nat, x: Name)
    requires Free(vals, num, insts, shufs, sels)
    ensures (x.Shuf? && x.k >= shufs) || (x.Sel? && x.k >= sels) ==> x !in vals
    ensures forall y :: Defined(num, insts, |insts|, y) ==> y in vals
  {
  }

  /** Emitting an instruction of available operands. */
  lemma Emit(vals: Values, n: nat, inputs: seq<Value>, insts: seq<Inst>, values: seq<Value>,
             shufs: nat, sels: nat, shufs': nat, sels': nat, inst: Inst, a: Value, b: Value)
    requires State(vals, n, inputs, insts, values, shufs, sels)
    requires Available(vals, n, |inputs|, insts, a) && Available(vals, n, |inputs|, insts, b)
    requires inst.op0 == a.name && inst.op1 == b.name && |inst.mask| == n && n > 0
    requires shufs <= shufs' && sels <= sels'
    requires (inst.name.Shuf? && shufs <= inst.name.k < shufs') || (inst.name.Sel? && sels <= inst.name.k < sels')
    ensures |a.value| == n && |b.value| == n
    ensures var v := Value(inst.name, ValueOf(n, inst, a.value, b.value));
            State(vals[v.name := v.value], n, inputs, insts + [inst], values, shufs', sels') &&
            Available(vals[v.name := v.value], n, |inputs|, insts + [inst], v)
  {
    var value := ValueOf(n, inst, a.value, b.value);
    var vals' := vals[inst.name := value];
    FreeName(vals, |inputs|, insts, shufs, sels, inst.name);
    assert Calculated(vals', n, inst) by {
      hide State, Defined, ValueOf, CalcShuf, CalcSel;
      assert value == if inst.ShufInst? then CalcShuf(inst.mask, n, a.value, b.value) else CalcSel(inst.mask, a.value, b.value) by {
        ValueIs(n, inst, a.value, b.value);
      }
    }
    hide Defined, Calculated, ValueOf, Free, Building;
    OneMore(vals, n, inputs, insts, inst, value);
    StillFree(vals, |inputs|, insts, inst, value, shufs, sels, shufs', sels');
    forall i | 0 <= i < |values| ensures Available(vals', n, |inputs|, insts + [inst], values[i]) {
      StillAvailable(vals, n, |inputs|, insts, inst, value, values[i]);
    }
    DefinedMore(|inputs|, insts, inst, inst.name);
  }

  lemma ValueIs(n: nat, inst: Inst, a: seq<int>, b: seq<int>)
    requires n > 0 && |a| == n && |b| == n && |inst.mask| == n
    ensures ValueOf(n, inst, a, b) == if inst.ShufInst? then CalcShuf(inst.mask, n, a, b) else CalcSel(inst.mask, a, b)
  {
  }

  lemma ZeroAvailable(vals: Values, n: nat, inputs: seq<Value>, insts: seq<Inst>, values: seq<Value>, shufs: nat, sels: nat)
    requires State(vals, n, inputs, insts, values, shufs, sels)
    ensures Available(vals, n, |inputs|, insts, Value(Zero, Zeros(n)))
  {
  }

  lemma OneAvailable(vals: Values, n: nat, inputs: seq<Value>, insts: seq<Inst>, values: seq<Value>, shufs: nat, sels: nat, i: nat)
    requires State(vals, n, inputs, insts, values, shufs, sels) && i < |values|
    ensures Available(vals, n, |inputs|, insts, values[i]) && |values[i].value| == n && n > 0
  {
    hide Defined, Tracked, Ordered, Free;
  }

  /** Taking away the operands of a round leaves the new value in their place. */
  lemma Replaces(vals: Values, n: nat, inputs: seq<Value>, insts: seq<Inst>, values: seq<Value>, shufs: nat, sels: nat, v: Value, idx0: nat, idx1: nat)
    requires State(vals, n, inputs, insts, values, shufs, sels) && Available(vals, n, |inputs|, insts, v)
    requires idx0 < idx1 < |values|
    ensures State(vals, n, inputs, insts, Without(Without(values + [v], idx1), idx0), shufs, sels)
  {
    hide Building, Free, Available;
    var all := values + [v];
    forall i | 0 <= i < |all| ensures Available(vals, n, |inputs|, insts, all[i]) {
    }
    var left := Without(Without(all, idx1), idx0);
    forall i | 0 <= i < |left| ensures Available(vals, n, |inputs|, insts, left[i]) {
      WithoutKeeps(Without(all, idx1), idx0, left[i]);
      WithoutKeeps(all, idx1, left[i]);
    }
  }

  ghost function Start(n: nat, inputs: seq<Value>): Values {
    (map x: Name | x in (set i | 0 <= i < |inputs| :: Inp(i)) :: if x.Inp? && x.i < |inputs| then inputs[x.i].value else [])[Zero := Zeros(n)]
  }

  lemma Starts(n: nat, inputs: seq<Value>)
    requires n > 0 && GoodInputs(inputs, n)
    ensures State(Start(n, inputs), n, inputs, [], inputs, 0, 0)
  {
  }

  function Shuffles(insts: seq<Inst>): nat {
    if insts == [] then 0 else Shuffles(insts[..|insts| - 1]) + if insts[|insts| - 1].ShufInst? then 1 else 0
  }

  lemma ShufflesMore(insts: seq<Inst>, inst: Inst)
    ensures Shuffles(insts + [inst]) == Shuffles(insts) + if inst.ShufInst? then 1 else 0
  {
    assert (insts + [inst])[..|insts|] == insts;
  }

  // ---------- What becomes of every value ----------

  /** The operands that an instruction takes for good: what a select merges in stays available. */
  function Takes(inst: Inst): multiset<Name> {
    if inst.ShufInst? then multiset{inst.op0, inst.op1} else multiset{inst.op0}
  }

  function Taken(insts: seq<Inst>): multiset<Name> {
    if insts == [] then multiset{} else Taken(insts[..|insts| - 1]) + Takes(insts[|insts| - 1])
  }

  function Made(insts: seq<Inst>): multiset<Name> {
    if insts == [] then multiset{} else Made(insts[..|insts| - 1]) + multiset{insts[|insts| - 1].name}
  }

  function Names(values: seq<Value>): multiset<Name> {
    if values == [] then multiset{} else Names(values[..|values| - 1]) + multiset{values[|values| - 1].name}
  }

  /** What there was and what was made is taken or still there. */
  ghost predicate Conserved(inputs: seq<Value>, insts: seq<Inst>, left: seq<Value>) {
    Taken(insts) + Names(left) == Names(inputs) + Made(insts)
  }

  lemma MadeMore(insts: seq<Inst>, inst: Inst)
    ensures Taken(insts + [inst]) == Taken(insts) + Takes(inst) && Made(insts + [inst]) == Made(insts) + multiset{inst.name}
  {
    assert (insts + [inst])[..|insts|] == insts;
  }

  lemma {:induction false} NamesWithout(values: seq<Value>, i: nat)
    requires i < |values|
    ensures Names(values) == Names(Without(values, i)) + multiset{values[i].name}
    decreases |values|
  {
    var n := |values| - 1;
    if i < n {
      NamesWithout(values[..n], i);
      var w := Without(values, i);
      assert w[..|w| - 1] == Without(values[..n], i);
    } else {
      assert Without(values, i) == values[..n];
    }
  }

  /** A round in which a shuffle, and maybe a select, takes two values and makes one. */
  lemma RoundConserves(inputs: seq<Value>, insts: seq<Inst>, left: seq<Value>, idx0: nat, idx1: nat, v: Value,
                       shuf: Inst, select: seq<Inst>)
    requires Conserved(inputs, insts, left) && idx0 < idx1 < |left|
    requires shuf.ShufInst? && shuf.op0 == left[idx0].name && shuf.op1 == left[idx1].name
    requires if select == [] then v.name == shuf.name
             else |select| == 1 && select[0].SelInst? && select[0].op0 == shuf.name && v.name == select[0].name
    ensures Conserved(inputs, insts + [shuf] + select, Without(Without(left + [v], idx1), idx0))
  {
    NamesReplaced(left, idx0, idx1, v);
    var left', insts' := Without(Without(left + [v], idx1), idx0), insts + [shuf] + select;
    hide Names, Taken, Made, Without, Conserved;
    if select == [] {
      assert insts' == insts + [shuf];
      MadeOne(insts, shuf);
      ConservedBy(inputs, insts, left, insts', left', shuf.op0, shuf.op1, multiset{}, v.name);
    } else {
      assert select == [select[0]];
      MadeTwo(insts, shuf, select[0]);
      ConservedBy(inputs, insts, left, insts', left', shuf.op0, shuf.op1, multiset{shuf.name}, v.name);
    }
  }

  lemma MadeOne(insts: seq<Inst>, shuf: Inst)
    requires shuf.ShufInst?
    ensures Taken(insts + [shuf]) == Taken(insts) + multiset{shuf.op0, shuf.op1} + multiset{}
    ensures Made(insts + [shuf]) == Made(insts) + multiset{} + multiset{shuf.name}
  {
    MadeMore(insts, shuf);
    hide Taken, Made;
  }

  lemma MadeTwo(insts: seq<Inst>, shuf: Inst, select: Inst)
    requires shuf.ShufInst? && select.SelInst? && select.op0 == shuf.name
    ensures Taken(insts + [shuf] + [select]) == Taken(insts) + multiset{shuf.op0, shuf.op1} + multiset{shuf.name}
    ensures Made(insts + [shuf] + [select]) == Made(insts) + multiset{shuf.name} + multiset{select.name}
  {
    MadeMore(insts, shuf);
    MadeMore(insts + [shuf], select);
    hide Taken, Made;
  }

  lemma ConservedBy(inputs: seq<Value>, insts: seq<Inst>, left: seq<Value>, insts': seq<Inst>, left': seq<Value>,
                    a: Name, b: Name, s: multiset<Name>, v: Name)
    requires Conserved(inputs, insts, left)
    requires Taken(insts') == Taken(insts) + multiset{a, b} + s && Made(insts') == Made(insts) + s + multiset{v}
    requires Names(left) + multiset{v} == Names(left') + multiset{a} + multiset{b}
    ensures Conserved(inputs, insts', left')
  {
    hide Names, Taken, Made;
    Exchange(Taken(insts), Names(left), Names(inputs), Made(insts), Names(left'), a, b, s, v);
  }

  lemma Exchange(t: multiset<Name>, l: multiset<Name>, i: multiset<Name>, m: multiset<Name>, l': multiset<Name>,
                 a: Name, b: Name, s: multiset<Name>, v: Name)
    requires t + l == i + m && l + multiset{v} == l' + multiset{a} + multiset{b}
    ensures t + multiset{a, b} + s + l' == i + (m + s + multiset{v})
  {
    assert t + multiset{a, b} + s + l' == t + s + (l' + multiset{a} + multiset{b});
    assert t + s + (l + multiset{v}) == (t + l) + s + multiset{v};
    assert (i + m) + s + multiset{v} == i + (m + s + multiset{v});
  }

  lemma NamesReplaced(left: seq<Value>, idx0: nat, idx1: nat, v: Value)
    requires idx0 < idx1 < |left|
    ensures Names(left) + multiset{v.name} ==
            Names(Without(Without(left + [v], idx1), idx0)) + multiset{left[idx0].name} + multiset{left[idx1].name}
  {
    var all := left + [v];
    NamesWithout(all, idx1);
    NamesWithout(Without(all, idx1), idx0);
    assert Without(all, idx1)[idx0] == left[idx0];
    assert Names(all) == Names(left) + multiset{v.name} by { assert all[..|left|] == left; }
    hide Names, Without;
  }

  /** Instructions are named after the rounds that make them, and have their masks; a zero vector is merged in only where that is chosen. */
  ghost predicate Chosen(inst: Inst, rounds: nat -> Round, count: nat) {
    match inst
    case ShufInst(name, _, _, mask) => name.Shuf? && name.k < count && mask == rounds(name.k).shufMask
    case SelInst(name, op0, op1, mask) =>
      && name.Sel? && name.k < count && op0 == Shuf(name.k)
      && var c := rounds(name.k).select;
         !c.NoSelect? && mask == c.selMask && (op1 == Zero <==> c.ZeroMerge?)
  }

  /** And a round makes a select if that is chosen. */
  ghost predicate AllChosen(insts: seq<Inst>, rounds: nat -> Round, count: nat) {
    && (forall k :: 0 <= k < |insts| ==> Chosen(insts[k], rounds, count))
    && (forall r :: 0 <= r < count && !rounds(r).select.NoSelect? ==> exists k :: 0 <= k < |insts| && insts[k].name == Sel(r))
  }

  lemma RoundChosen(insts: seq<Inst>, rounds: nat -> Round, count: nat, shuf: Inst, select: seq<Inst>)
    requires AllChosen(insts, rounds, count)
    requires Chosen(shuf, rounds, count + 1) && forall k :: 0 <= k < |select| ==> Chosen(select[k], rounds, count + 1)
    requires rounds(count).select.NoSelect? || (select != [] && select[0].name == Sel(count))
    ensures AllChosen(insts + [shuf] + select, rounds, count + 1)
  {
    var all := insts + [shuf] + select;
    forall k | 0 <= k < |all| ensures Chosen(all[k], rounds, count + 1) {
      if k < |insts| {
        assert all[k] == insts[k] && Chosen(insts[k], rounds, count);
      }
    }
    forall r | 0 <= r < count + 1 && !rounds(r).select.NoSelect? ensures exists k :: 0 <= k < |all| && all[k].name == Sel(r) {
      if r < count {
        var k :| 0 <= k < |insts| && insts[k].name == Sel(r);
        assert all[k].name == Sel(r);
      } else {
        assert all[|insts| + 1] == select[0];
      }
    }
  }

  ghost predicate NoneZero(values: seq<Value>) { forall i :: 0 <= i < |values| ==> values[i].name != Zero }

  lemma NotZero(values: seq<Value>, i: nat)
    requires NoneZero(values) && i < |values|
    ensures values[i].name != Zero
  {
  }

  lemma NoneZeroLeft(left: seq<Value>, v: Value, idx0: nat, idx1: nat)
    requires NoneZero(left) && v.name != Zero && idx0 < idx1 < |left|
    ensures NoneZero(Without(Without(left + [v], idx1), idx0))
  {
  }

  /**
   gen_insts: whatever the choices, one value is left after one round less than there are inputs,
   and the program is in order. In every execution of it the value's lanes hold what is tracked for
   them. Certain says which lanes two executions differ in, or one leaves undef; these are the ones
   tracked as -1 as long as no select blends a value with itself. Every value but the one left
   is taken exactly once, by a shuffle or by the select that follows the shuffle it came from.
   */
  method GenInsts(inputs: seq<Value>, n: nat, rounds: nat -> Round)
    returns (insts: seq<Inst>, left: seq<Value>, ghost vals: Values)
    requires n > 0 && inputs != [] && GoodInputs(inputs, n)
    requires forall r :: 0 <= r < |inputs| - 1 ==> Possible(rounds(r), n, |inputs| - r)
    ensures |left| == 1 && Shuffles(insts) == |inputs| - 1 && Ordered(|inputs|, insts)
    ensures Taken(insts) + multiset{left[0].name} == Names(inputs) + Made(insts)
    ensures AllChosen(insts, rounds, |inputs| - 1)
    ensures Defined(|inputs|, insts, |insts|, left[0].name)
    ensures forall env :: Runs(env, n, inputs, insts) ==> Holds(left[0].value, env(left[0].name))
    ensures Program(n, inputs, insts) && Tracked(vals, n, inputs, insts)
    ensures left[0].name in vals && vals[left[0].name] == left[0].value
    ensures var c := Certain(n, inputs, insts, |insts|, left[0].name);
            |c| == n && forall i :: 0 <= i < n ==> (c[i] == None <==> Undecided(n, inputs, insts, left[0].name, i))
    ensures !Blends(vals, insts) ==> UndefRight(vals, n, inputs, insts, left[0].name)
  {
    hide State, Available, Holds, Runs, Defined, Shuffles, CalcShuf, CalcSel, Program, Tracked, Certain, Undecided, Blends, UndefRight, Conserved, AllChosen, NoneZero;
    insts, left := [], inputs;
    var nameIdx := 0;
    vals := Start(n, inputs);
    Starts(n, inputs);
    NoShuffles();
    NothingTaken(inputs, n, rounds);
    while |left| > 1
      invariant left != [] && nameIdx == |inputs| - |left| && Shuffles(insts) == nameIdx
      invariant State(vals, n, inputs, insts, left, nameIdx, nameIdx)
      invariant Conserved(inputs, insts, left) && AllChosen(insts, rounds, nameIdx) && NoneZero(left)
      decreases |left|
    {
      var r := rounds(nameIdx);
      var op0, op1 := left[r.idx0], left[r.idx1];
      OneAvailable(vals, n, inputs, insts, left, nameIdx, nameIdx, r.idx0);
      OneAvailable(vals, n, inputs, insts, left, nameIdx, nameIdx, r.idx1);
      var shufInst := ShufInst(Shuf(nameIdx), op0.name, op1.name, r.shufMask);
      var shufValue := ShufCalcValue(r.shufMask, n, op0.value, op1.value);
      Emit(vals, n, inputs, insts, left, nameIdx, nameIdx, nameIdx + 1, nameIdx, shufInst, op0, op1);
      ValueIs(n, shufInst, op0.value, op1.value);
      var result := Value(shufInst.name, shufValue);
      ShufflesMore(insts, shufInst);
      insts, vals := insts + [shufInst], vals[shufInst.name := shufValue];
      ghost var sels, before, select := nameIdx, insts[..|insts| - 1], [];
      if !r.select.NoSelect? {
        var op2 := if r.select.Merge? then left[r.select.op2] else Value(Zero, Zeros(n));
        if r.select.Merge? {
          OneAvailable(vals, n, inputs, insts, left, nameIdx + 1, nameIdx, r.select.op2);
          NotZero(left, r.select.op2);
        } else {
          ZeroAvailable(vals, n, inputs, insts, left, nameIdx + 1, nameIdx);
        }
        var selectInst := SelInst(Sel(nameIdx), result.name, op2.name, r.select.selMask);
        Emit(vals, n, inputs, insts, left, nameIdx + 1, nameIdx, nameIdx + 1, nameIdx + 1, selectInst, result, op2);
        ValueIs(n, selectInst, result.value, op2.value);
        var selectValue := SelCalcValue(r.select.selMask, result.value, op2.value);
        result := Value(selectInst.name, selectValue);
        ShufflesMore(insts, selectInst);
        select := [selectInst];
        insts, vals, sels := insts + [selectInst], vals[selectInst.name := selectValue], nameIdx + 1;
      }
      MoreNames(vals, n, inputs, insts, left, nameIdx + 1, sels);
      Replaces(vals, n, inputs, insts, left, nameIdx + 1, nameIdx + 1, result, r.idx0, r.idx1);
      assert insts == before + [shufInst] + select;
      RoundConserves(inputs, before, left, r.idx0, r.idx1, result, shufInst, select);
      RoundChosen(before, rounds, nameIdx, shufInst, select);
      NoneZeroLeft(left, result, r.idx0, r.idx1);
      left := Without(Without(left + [result], r.idx1), r.idx0);
      nameIdx := nameIdx + 1;
    }
    Finished(vals, n, inputs, insts, left, nameIdx);
    OneLeft(inputs, insts, left);
  }

  lemma OneLeft(inputs: seq<Value>, insts: seq<Inst>, left: seq<Value>)
    requires Conserved(inputs, insts, left) && |left| == 1
    ensures Taken(insts) + multiset{left[0].name} == Names(inputs) + Made(insts)
  {
    assert Names(left) == Names(left[..0]) + multiset{left[0].name};
    assert Names(left[..0]) == multiset{};
    hide Names, Taken, Made;
  }

  lemma NothingTaken(inputs: seq<Value>, n: nat, rounds: nat -> Round)
    requires GoodInputs(inputs, n)
    ensures Conserved(inputs, [], inputs) && AllChosen([], rounds, 0) && NoneZero(inputs)
  {
  }

  lemma NoShuffles()
    ensures Shuffles([]) == 0
  {
  }

  lemma MoreNames(vals: Values, n: nat, inputs: seq<Value>, insts: seq<Inst>, values: seq<Value>, shufs: nat, sels: nat)
    requires State(vals, n, inputs, insts, values, shufs, sels) && sels <= shufs
    ensures State(vals, n, inputs, insts, values, shufs, shufs)
  {
    hide Building, AllAvailable, Defined;
  }

  lemma Finished(vals: Values, n: nat, inputs: seq<Value>, insts: seq<Inst>, left: seq<Value>, k: nat)
    requires State(vals, n, inputs, insts, left, k, k) && left != [] && GoodInputs(inputs, n)
    ensures Ordered(|inputs|, insts) && Defined(|inputs|, insts, |insts|, left[0].name)
    ensures forall env :: Runs(env, n, inputs, insts) ==> Holds(left[0].value, env(left[0].name))
    ensures Program(n, inputs, insts) && Tracked(vals, n, inputs, insts)
    ensures left[0].name in vals && vals[left[0].name] == left[0].value
    ensures var c := Certain(n, inputs, insts, |insts|, left[0].name);
            |c| == n && forall i :: 0 <= i < n ==> (c[i] == None <==> Undecided(n, inputs, insts, left[0].name, i))
    ensures !Blends(vals, insts) ==> UndefRight(vals, n, inputs, insts, left[0].name)
  {
    var v := left[0];
    assert Available(vals, n, |inputs|, insts, v);
    IsProgram(vals, n, inputs, insts);
    hide Runs, Holds, Defined, Tracked, Ordered, Free, Program, Certain, Undecided, Blends, UndefRight;
    forall env | Runs(env, n, inputs, insts) ensures Holds(v.value, env(v.name)) {
      TrackedHolds(vals, env, n, inputs, insts, |insts|, v.name);
    }
    CertainLanes(n, inputs, insts, v.name);
    if !Blends(vals, insts) {
      LanesRight(vals, n, inputs, insts, v.name);
    }
  }

  lemma IsProgram(vals: Values, n: nat, inputs: seq<Value>, insts: seq<Inst>)
    requires Building(vals, n, inputs, insts) && GoodInputs(inputs, n)
    ensures Program(n, inputs, insts)
  {
    forall k | 0 <= k < |insts| ensures |insts[k].mask| == n {
      assert Calculated(vals, n, insts[k]);
    }
  }

  lemma CertainLanes(n: nat, inputs: seq<Value>, insts: seq<Inst>, x: Name)
    requires Program(n, inputs, insts) && Defined(|inputs|, insts, |insts|, x)
    ensures var c := Certain(n, inputs, insts, |insts|, x);
            |c| == n && forall i :: 0 <= i < n ==> (c[i] == None <==> Undecided(n, inputs, insts, x, i))
  {
    forall i: nat | i < n
      ensures |Certain(n, inputs, insts, |insts|, x)| == n
      ensures Certain(n, inputs, insts, |insts|, x)[i] == None <==> Undecided(n, inputs, insts, x, i)
    {
      CertainIff(n, inputs, insts, x, i);
    }
    assert n > 0;
    CertainIff(n, inputs, insts, x, 0);
  }

  /**
   A program that blends a value with itself: lane 0 of the first input, which is 0, is blended through
   an undef bit with zeros. It is tracked as -1, and is 0 in every execution.
   */
  lemma BlendedZero()
    ensures var inputs := [Value(Inp(0), [0]), Value(Inp(1), [1])];
            var insts := [ShufInst(Shuf(0), Inp(0), Inp(1), [0]), SelInst(Sel(0), Shuf(0), Zero, [-1])];
            var vals := map[Zero := [0], Inp(0) := [0], Inp(1) := [1], Shuf(0) := [0], Sel(0) := [-1]];
            && Program(1, inputs, insts) && Tracked(vals, 1, inputs, insts) && Blends(vals, insts)
            && Always(1, inputs, insts, Sel(0), 0, 0)
  {
    var inputs := [Value(Inp(0), [0]), Value(Inp(1), [1])];
    var insts := [ShufInst(Shuf(0), Inp(0), Inp(1), [0]), SelInst(Sel(0), Shuf(0), Zero, [-1])];
    var vals := map[Zero := [0], Inp(0) := [0], Inp(1) := [1], Shuf(0) := [0], Sel(0) := [-1]];
    assert Zeros(1) == [0];
    assert Calculated(vals, 1, insts[0]) by {
      assert CalcShuf([0], 1, [0], [1]) == [0];
    }
    assert Calculated(vals, 1, insts[1]) by {
      assert CalcSel([-1], [0], [0]) == [-1];
    }
    assert insts[0].name == Shuf(0);
    assert Ordered(2, insts);
    assert BlendsAt(vals, insts[1], 0);
    Blended(vals, 1, inputs, insts, 1, 0);
  }
}
