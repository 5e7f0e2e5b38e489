/**
 The answers of AAResults are right whenever those of every analysis of the chain are:
 a bit that is missing stands for an access that no execution makes.
 */
module ModRefSound {
  import opened ModRefSemantics
  import opened ModRefResults

  // ---------- Intersected over the chain ----------

  lemma OneSound(w: World, aas: seq<Analysis>, i: nat)
    requires AllSound(w, aas) && i < |aas|
    ensures Sound(w, aas[i])
  {
    hide Sound, Sensible;
  }

  lemma FewerSound(w: World, aas: seq<Analysis>, i: nat, j: nat)
    requires AllSound(w, aas) && i <= j <= |aas|
    ensures AllSound(w, aas[i..j])
  {
    hide Sound, Sensible;
  }

  lemma AliasSound(w: World, aa: Analysis, x: Loc, y: Loc)
    requires Sound(w, aa)
    ensures AliasRight(w, aa.alias(x, y), x, y)
  {
  }

  lemma LocSound(w: World, aa: Analysis, c: Call, l: Loc)
    requires Sound(w, aa)
    ensures LocRight(w, aa.locInfo(c, l), c, l) && (aa.constant(l) ==> ConstantRight(w, l))
  {
    hide LocRight, ConstantRight, AliasRight, ArgRight, CallsRight, BehaviorRight;
  }

  lemma CallSound(w: World, aa: Analysis, c: Call, d: Call, k: nat)
    requires Sound(w, aa)
    ensures ArgRight(w, aa.argInfo(c, k), c, k) && CallsRight(w, aa.callInfo(c, d), c, d) && BehaviorRight(w, aa.behavior(c), c)
  {
    hide LocRight, ConstantRight, AliasRight, ArgRight, CallsRight, BehaviorRight;
  }

  lemma {:induction false} AliasOfRight(w: World, aas: seq<Analysis>, x: Loc, y: Loc)
    requires AllSound(w, aas)
    ensures AliasRight(w, AliasOf(aas, x, y), x, y)
  {
    hide AllSound, Sound;
    if aas != [] {
      OneSound(w, aas, 0);
      AliasSound(w, aas[0], x, y);
      assert aas[1..|aas|] == aas[1..];
      FewerSound(w, aas, 1, |aas|);
      AliasOfRight(w, aas[1..], x, y);
    }
  }

  lemma {:induction false} LocInfoRight(w: World, aas: seq<Analysis>, c: Call, l: Loc)
    requires AllSound(w, aas)
    ensures LocRight(w, LocInfoOf(aas, c, l), c, l)
  {
    hide AllSound, Sound, ConstantRight;
    if aas != [] {
      OneSound(w, aas, |aas| - 1);
      LocSound(w, aas[|aas| - 1], c, l);
      assert aas[0..|aas| - 1] == aas[..|aas| - 1];
      FewerSound(w, aas, 0, |aas| - 1);
      LocInfoRight(w, aas[..|aas| - 1], c, l);
    }
  }

  lemma ConstantOfRight(w: World, aas: seq<Analysis>, c: Call, l: Loc)
    requires AllSound(w, aas) && ConstantOf(aas, l)
    ensures ConstantRight(w, l)
  {
    hide AllSound, Sound, ConstantRight, LocRight;
    var i :| 0 <= i < |aas| && aas[i].constant(l);
    OneSound(w, aas, i);
    LocSound(w, aas[i], c, l);
  }

  lemma MeetArg(w: World, r: Info, s: Info, c: Call, k: nat)
    requires ArgRight(w, r, c, k) && ArgRight(w, s, c, k)
    ensures ArgRight(w, Intersect(r, s), c, k)
  {
  }

  lemma MeetCalls(w: World, r: Info, s: Info, c: Call, d: Call)
    requires CallsRight(w, r, c, d) && CallsRight(w, s, c, d)
    ensures CallsRight(w, Intersect(r, s), c, d)
  {
    hide Depends;
  }

  lemma MeetBehavior(w: World, r: Behavior, s: Behavior, c: Call)
    requires BehaviorRight(w, r, c) && BehaviorRight(w, s, c)
    ensures BehaviorRight(w, Both(r, s), c)
  {
  }

  lemma {:induction false} CallInfoRight(w: World, aas: seq<Analysis>, c: Call, d: Call, k: nat)
    requires AllSound(w, aas)
    ensures ArgRight(w, ArgInfoOf(aas, c, k), c, k)
    ensures CallsRight(w, CallInfoOf(aas, c, d), c, d)
    ensures BehaviorRight(w, BehaviorOf(aas, c), c)
  {
    hide AllSound, Sound;
    if aas != [] {
      var n := |aas| - 1;
      hide ArgRight, CallsRight, BehaviorRight;
      OneSound(w, aas, n);
      CallSound(w, aas[n], c, d, k);
      assert aas[0..n] == aas[..n];
      FewerSound(w, aas, 0, n);
      CallInfoRight(w, aas[..n], c, d, k);
      MeetArg(w, ArgInfoOf(aas[..n], c, k), aas[n].argInfo(c, k), c, k);
      MeetCalls(w, CallInfoOf(aas[..n], c, d), aas[n].callInfo(c, d), c, d);
      MeetBehavior(w, BehaviorOf(aas[..n], c), aas[n].behavior(c), c);
    }
  }

  // ---------- A call and a location ----------

  /** What the loop over the arguments found covers every access by way of an argument. */
  lemma {:induction false} ArgsMaskCovers(w: World, aas: seq<Analysis>, c: Call, l: Loc, n: nat, k: nat, a: Access)
    requires AllSound(w, aas) && k < n <= |c.args|
    requires c.args[k].isPointer && In(w, a.byte, c.args[k].loc) && In(w, a.byte, l)
    requires a in w.accesses(c) && a.via == ViaArg(k)
    ensures var m := ArgsMask(aas, c, l, n); if a.write then m.mod else m.ref
  {
    hide AllSound, AliasOf, ArgInfoOf, CallsRight, BehaviorRight;
    if k == n - 1 {
      AliasOfRight(w, aas, c.args[k].loc, l);
      CallInfoRight(w, aas, c, c, k);
    } else {
      ArgsMaskCovers(w, aas, c, l, n - 1, k, a);
    }
  }

  lemma SensibleAccess(w: World, c: Call, a: Access)
    requires Sensible(w) && a in w.accesses(c)
    ensures a.via.ViaArg? ==> a.via.k < |c.args| && c.args[a.via.k].isPointer && In(w, a.byte, c.args[a.via.k].loc)
    ensures a.via.Inaccessible? ==> forall l :: !In(w, a.byte, l)
  {
  }

  lemma OneCallLoc(w: World, aas: seq<Analysis>, c: Call, l: Loc, a: Access)
    requires AllSound(w, aas) && a in w.accesses(c) && In(w, a.byte, l)
    ensures var r := CallLoc(aas, c, l); if a.write then r.mod else r.ref
  {
    SensibleAccess(w, c, a);
    hide AllSound, Sound, ConstantOf, AliasOf, ArgInfoOf, LocInfoOf, BehaviorOf, ArgRight, CallsRight, ArgsMask;
    CallInfoRight(w, aas, c, c, 0);
    LocInfoRight(w, aas, c, l);
    if ConstantOf(aas, l) {
      ConstantOfRight(w, aas, c, l);
    }
    if a.via.ViaArg? {
      ArgsMaskCovers(w, aas, c, l, |c.args|, a.via.k, a);
    }
  }

  /** The call/location answer is right. */
  lemma CallLocRight(w: World, aas: seq<Analysis>, c: Call, l: Loc)
    requires AllSound(w, aas)
    ensures LocRight(w, CallLoc(aas, c, l), c, l)
  {
    hide AllSound, CallLoc;
    forall a | a in w.accesses(c) && In(w, a.byte, l)
      ensures var r := CallLoc(aas, c, l); if a.write then r.mod else r.ref
    {
      OneCallLoc(w, aas, c, l, a);
    }
  }

  // ---------- Two calls ----------

  lemma SecondCovers(w: World, aas: seq<Analysis>, c1: Call, c2: Call, k: nat, a: Access, b: Access)
    requires AllSound(w, aas) && Depends(w, c1, c2, a, b)
    requires k < |c2.args| && b.via == ViaArg(k) && In(w, b.byte, c2.args[k].loc)
    ensures var m := MaskOfSecond(aas, c1, c2, k); if a.write then m.mod else m.ref
  {
    SecondMaskIs(aas, c1, c2, k);
    hide AllSound, ArgInfoOf, CallLoc, CallsRight, BehaviorRight, MaskOfSecond;
    CallInfoRight(w, aas, c2, c2, k);
    OneCallLoc(w, aas, c1, c2.args[k].loc, a);
  }

  lemma {:induction false} SecondMaskCovers(w: World, aas: seq<Analysis>, c1: Call, c2: Call, n: nat, k: nat, a: Access, b: Access)
    requires AllSound(w, aas) && Depends(w, c1, c2, a, b)
    requires k < n <= |c2.args| && c2.args[k].isPointer && b.via == ViaArg(k) && In(w, b.byte, c2.args[k].loc)
    ensures var m := SecondMask(aas, c1, c2, n); if a.write then m.mod else m.ref
  {
    hide AllSound, MaskOfSecond, Depends;
    if k == n - 1 {
      SecondCovers(w, aas, c1, c2, k, a, b);
    } else {
      SecondMaskCovers(w, aas, c1, c2, n - 1, k, a, b);
    }
  }

  lemma FirstCovers(w: World, aas: seq<Analysis>, c1: Call, c2: Call, k: nat, a: Access, b: Access)
    requires AllSound(w, aas) && Depends(w, c1, c2, a, b)
    requires k < |c1.args| && a.via == ViaArg(k) && In(w, a.byte, c1.args[k].loc)
    ensures var m := MaskOfFirst(aas, c1, c2, k); if a.write then m.mod else m.ref
  {
    FirstMaskIs(aas, c1, c2, k);
    hide AllSound, ArgInfoOf, CallLoc, CallsRight, BehaviorRight, MaskOfFirst;
    CallInfoRight(w, aas, c1, c1, k);
    OneCallLoc(w, aas, c2, c1.args[k].loc, b);
  }

  lemma {:induction false} FirstMaskCovers(w: World, aas: seq<Analysis>, c1: Call, c2: Call, n: nat, k: nat, a: Access, b: Access)
    requires AllSound(w, aas) && Depends(w, c1, c2, a, b)
    requires k < n <= |c1.args| && c1.args[k].isPointer && a.via == ViaArg(k) && In(w, a.byte, c1.args[k].loc)
    ensures var m := FirstMask(aas, c1, c2, n); if a.write then m.mod else m.ref
  {
    hide AllSound, MaskOfFirst, Depends;
    if k == n - 1 {
      FirstCovers(w, aas, c1, c2, k, a, b);
    } else {
      FirstMaskCovers(w, aas, c1, c2, n - 1, k, a, b);
    }
  }

  lemma BehaviorAllows(w: World, b: Behavior, c: Call, a: Access)
    requires BehaviorRight(w, b, c) && a in w.accesses(c)
    ensures if a.write then b.info.mod else b.info.ref
    ensures match a.via case ViaArg(_) => b.args case Inaccessible => b.inaccessible case Elsewhere => b.elsewhere
  {
  }

  lemma OneCallCall(w: World, aas: seq<Analysis>, c1: Call, c2: Call, a: Access, b: Access)
    requires AllSound(w, aas) && Depends(w, c1, c2, a, b)
    ensures var r := CallCall(aas, c1, c2); if a.write then r.mod else r.ref
  {
    SensibleAccess(w, c1, a);
    SensibleAccess(w, c2, b);
    hide AllSound, Sound, CallInfoOf, BehaviorOf, BehaviorRight, ArgRight, SecondMask, FirstMask;
    CallInfoRight(w, aas, c1, c2, 0);
    CallInfoRight(w, aas, c2, c1, 0);
    BehaviorAllows(w, BehaviorOf(aas, c1), c1, a);
    BehaviorAllows(w, BehaviorOf(aas, c2), c2, b);
    if b.via.ViaArg? {
      SecondMaskCovers(w, aas, c1, c2, |c2.args|, b.via.k, a, b);
    }
    if a.via.ViaArg? {
      FirstMaskCovers(w, aas, c1, c2, |c1.args|, a.via.k, a, b);
    }
  }

  /** The call/call answer is right. */
  lemma CallCallRight(w: World, aas: seq<Analysis>, c1: Call, c2: Call)
    requires AllSound(w, aas)
    ensures CallsRight(w, CallCall(aas, c1, c2), c1, c2)
  {
    hide AllSound, CallCall, Depends;
    forall a, b | Depends(w, c1, c2, a, b)
      ensures var r := CallCall(aas, c1, c2); if a.write then r.mod else r.ref
    {
      OneCallCall(w, aas, c1, c2, a, b);
    }
  }

  // ---------- One instruction, and a range ----------

  /** The instructions whose answer forgets that constant memory may be read. */
  predicate ForgetsReads(aas: seq<Analysis>, i: Instr, l: Loc) {
    (i.VAArg? || i.CatchPad? || i.CatchRet?) && ConstantOf(aas, l)
  }

  lemma OneTouch(w: World, aas: seq<Analysis>, i: Instr, l: Loc, t: Touch)
    requires AllSound(w, aas) && Touches(w, i, t) && In(w, t.byte, l)
    ensures var r := InstrLoc(aas, i, l); if t.write then r.mod else r.ref || ForgetsReads(aas, i, l)
  {
    hide AllSound, AliasOf, ConstantOf, CallLoc;
    if ConstantOf(aas, l) {
      ConstantOfRight(w, aas, Call(0, []), l);
    }
    if i.CallInstr? {
      CallLocRight(w, aas, i.call, l);
    }
    if i.Load? || i.Store? || i.VAArg? || i.Atomic? {
      AliasOfRight(w, aas, i.loc, l);
    }
  }

  /** What an instruction is said not to write, it does not write; what it is said not to read, neither, but for ForgetsReads. */
  lemma InstrLocRight(w: World, aas: seq<Analysis>, i: Instr, l: Loc)
    requires AllSound(w, aas)
    ensures var r := InstrLoc(aas, i, l); InstrRight(w, Info(r.mod, r.ref || ForgetsReads(aas, i, l)), i, l)
  {
    hide AllSound, InstrLoc, Touches, ForgetsReads;
    forall t | Touches(w, i, t) && In(w, t.byte, l)
      ensures var r := InstrLoc(aas, i, l); if t.write then r.mod else r.ref || ForgetsReads(aas, i, l)
    {
      OneTouch(w, aas, i, l, t);
    }
  }

  /** A sound chain that is wrong of a va_arg: it reads what the analysis knows to be constant. */
  lemma VAArgReadsConstant() returns (w: World, aas: seq<Analysis>, i: Instr)
    ensures AllSound(w, aas) && !InstrRight(w, InstrLoc(aas, i, 0), i, 0)
  {
    i := VAArg(0);
    w := World(_ => iset{0}, _ => iset{}, (x: Instr) => if x == VAArg(0) then iset{Touch(0, false)} else iset{});
    var aa := Analysis((_, _) => MayAlias, _ => true, (_, _) => MOD_REF, (_, _) => MOD_REF, (_, _) => MOD_REF, _ => UNKNOWN_BEHAVIOR);
    aas := [aa];
    assert aas[0].constant(0) && ConstantOf(aas, 0);
    assert Touches(w, i, Touch(0, false)) && In(w, 0, 0);
  }

  /** The execution in which an instruction does nothing but read one byte. */
  ghost function Reading(w: World, i: Instr, b: int): World {
    w.(others := j => if j == i then iset{Touch(b, false)} else w.others(j))
  }

  lemma ReadingKeepsConstant(w: World, i: Instr, b: int, l: Loc)
    requires ConstantRight(w, l)
    ensures ConstantRight(Reading(w, i, b), l)
  {
    var w' := Reading(w, i, b);
    assert forall x :: In(w', x, l) == In(w, x, l);
    forall j, t | Touches(w', j, t) && In(w', t.byte, l) ensures !t.write {
      if j != i || i.CallInstr? {
        assert Touches(w, j, t);
      }
    }
  }

  lemma ReadingKeepsSound(w: World, aa: Analysis, i: Instr, b: int)
    requires Sound(w, aa)
    ensures Sound(Reading(w, i, b), aa)
  {
    var w' := Reading(w, i, b);
    forall l | aa.constant(l) ensures ConstantRight(w', l) {
      ReadingKeepsConstant(w, i, b, l);
    }
    hide ConstantRight;
    assert forall x, l :: In(w', x, l) == In(w, x, l);
    forall c, d ensures CallsRight(w', aa.callInfo(c, d), c, d) {
      assert CallsRight(w, aa.callInfo(c, d), c, d);
      forall x, y | Depends(w', c, d, x, y) ensures if x.write then aa.callInfo(c, d).mod else aa.callInfo(c, d).ref {
        assert Depends(w, c, d, x, y);
      }
    }
    hide CallsRight;
    forall x, y ensures AliasRight(w', aa.alias(x, y), x, y) {
      assert AliasRight(w, aa.alias(x, y), x, y);
    }
    forall c, l ensures LocRight(w', aa.locInfo(c, l), c, l) {
      assert LocRight(w, aa.locInfo(c, l), c, l);
    }
    forall c, k ensures ArgRight(w', aa.argInfo(c, k), c, k) {
      assert ArgRight(w, aa.argInfo(c, k), c, k);
    }
    forall c ensures BehaviorRight(w', aa.behavior(c), c) {
      assert BehaviorRight(w, aa.behavior(c), c);
    }
  }

  /** ForgetsReads is exact: whenever such an instruction can reach a byte of the location, some execution proves the answer wrong. */
  lemma ForgottenRead(w: World, aas: seq<Analysis>, i: Instr, l: Loc, b: int)
    requires AllSound(w, aas) && ForgetsReads(aas, i, l)
    requires In(w, b, l) && (i.VAArg? ==> In(w, b, i.loc))
    ensures AllSound(Reading(w, i, b), aas)
    ensures !InstrRight(Reading(w, i, b), InstrLoc(aas, i, l), i, l)
  {
    var w' := Reading(w, i, b);
    assert Sensible(w') by {
      assert forall x, m :: In(w', x, m) == In(w, x, m);
    }
    forall k | 0 <= k < |aas| ensures Sound(w', aas[k]) {
      ReadingKeepsSound(w, aas[k], i, b);
    }
    hide Sound, Sensible, AliasOf, CallLoc;
    assert Touches(w', i, Touch(b, false)) && In(w', b, l);
  }

  /** canInstructionRangeModRef says no only if no instruction of the range touches the location in that way. */
  lemma RangeRight(w: World, aas: seq<Analysis>, range: seq<Instr>, l: Loc, mode: Info, i: nat, t: Touch)
    requires AllSound(w, aas)
    requires forall j :: 0 <= j < |range| ==> Intersect(InstrLoc(aas, range[j], l), mode) == NO_MOD_REF
    requires i < |range| && Touches(w, range[i], t) && In(w, t.byte, l)
    ensures if t.write then !mode.mod else mode.ref ==> ForgetsReads(aas, range[i], l)
  {
    hide AllSound, InstrLoc, Touches, ForgetsReads;
    OneTouch(w, aas, range[i], l, t);
  }
}
