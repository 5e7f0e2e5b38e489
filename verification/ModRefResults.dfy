/**
 AAResults: a chain of alias analyses. Answers are intersected, refined by what is
 known of the behaviour of calls and of their arguments, and given early where
 nothing is left. What is proved is that giving them early changes nothing, and that
 the answers are right as long as those of every analysis are.
 */
module ModRefResults {
  import opened ModRefSemantics

  // ---------- The answers, without early exits ----------

  function AliasOf(aas: seq<Analysis>, x: Loc, y: Loc): AliasResult {
    if aas == [] then MayAlias
    else if aas[0].alias(x, y) != MayAlias then aas[0].alias(x, y)
    else AliasOf(aas[1..], x, y)
  }

  predicate ConstantOf(aas: seq<Analysis>, l: Loc) {
    exists i :: 0 <= i < |aas| && aas[i].constant(l)
  }

  function ArgInfoOf(aas: seq<Analysis>, c: Call, k: nat): Info {
    if aas == [] then MOD_REF else Intersect(ArgInfoOf(aas[..|aas| - 1], c, k), aas[|aas| - 1].argInfo(c, k))
  }

  function LocInfoOf(aas: seq<Analysis>, c: Call, l: Loc): Info {
    if aas == [] then MOD_REF else Intersect(LocInfoOf(aas[..|aas| - 1], c, l), aas[|aas| - 1].locInfo(c, l))
  }

  function CallInfoOf(aas: seq<Analysis>, c: Call, d: Call): Info {
    if aas == [] then MOD_REF else Intersect(CallInfoOf(aas[..|aas| - 1], c, d), aas[|aas| - 1].callInfo(c, d))
  }

  function BehaviorOf(aas: seq<Analysis>, c: Call): Behavior {
    if aas == [] then UNKNOWN_BEHAVIOR else Both(BehaviorOf(aas[..|aas| - 1], c), aas[|aas| - 1].behavior(c))
  }

  /** What a behaviour leaves of an answer; the second test is not made if the first succeeds. */
  function BehaviorMask(b: Behavior): Info {
    if OnlyReadsMemory(b) then Info(false, true) else if DoesNotReadMemory(b) then Info(true, false) else MOD_REF
  }

  /** What a call does by way of those of its first n arguments that may alias a location. */
  function ArgsMask(aas: seq<Analysis>, c: Call, l: Loc, n: nat): Info
    requires n <= |c.args|
  {
    if n == 0 then NO_MOD_REF
    else
      var rest := ArgsMask(aas, c, l, n - 1);
      if c.args[n - 1].isPointer && AliasOf(aas, c.args[n - 1].loc, l) != NoAlias
      then Union(rest, ArgInfoOf(aas, c, n - 1)) else rest
  }

  /** The call/location answer: everything that is known, intersected. */
  function CallLoc(aas: seq<Analysis>, c: Call, l: Loc): Info {
    var b := BehaviorOf(aas, c);
    if b == DOES_NOT_ACCESS || b == ONLY_INACCESSIBLE then NO_MOD_REF
    else
      var r := Intersect(LocInfoOf(aas, c, l), BehaviorMask(b));
      var r' :=
        if !(OnlyAccessesArgPointees(b) || OnlyAccessesInaccessibleOrArgMem(b)) then r
        else if !DoesAccessArgPointees(b) then NO_MOD_REF
        else Intersect(r, ArgsMask(aas, c, l, |c.args|));
      if ConstantOf(aas, l) then Info(false, r'.ref) else r'
  }

  /** How c1 depends on argument k of c2, which may be modified, or only read. */
  function MaskOfSecond(aas: seq<Analysis>, c1: Call, c2: Call, k: nat): Info
    requires k < |c2.args|
  {
    var i := ArgInfoOf(aas, c2, k);
    Intersect(if i.mod then MOD_REF else if i.ref then Info(true, false) else NO_MOD_REF, CallLoc(aas, c1, c2.args[k].loc))
  }

  /** How c1 depends on c2 by way of its own argument k. */
  function MaskOfFirst(aas: seq<Analysis>, c1: Call, c2: Call, k: nat): Info
    requires k < |c1.args|
  {
    var i, j := ArgInfoOf(aas, c1, k), CallLoc(aas, c2, c1.args[k].loc);
    if (i.mod && (j.mod || j.ref)) || (i.ref && j.mod) then i else NO_MOD_REF
  }

  function SecondMask(aas: seq<Analysis>, c1: Call, c2: Call, n: nat): Info
    requires n <= |c2.args|
  {
    if n == 0 then NO_MOD_REF
    else
      var rest := SecondMask(aas, c1, c2, n - 1);
      if c2.args[n - 1].isPointer then Union(rest, MaskOfSecond(aas, c1, c2, n - 1)) else rest
  }

  function FirstMask(aas: seq<Analysis>, c1: Call, c2: Call, n: nat): Info
    requires n <= |c1.args|
  {
    if n == 0 then NO_MOD_REF
    else
      var rest := FirstMask(aas, c1, c2, n - 1);
      if c1.args[n - 1].isPointer then Union(rest, MaskOfFirst(aas, c1, c2, n - 1)) else rest
  }

  /** The call/call answer. */
  function CallCall(aas: seq<Analysis>, c1: Call, c2: Call): Info {
    var b1, b2 := BehaviorOf(aas, c1), BehaviorOf(aas, c2);
    if b1 == DOES_NOT_ACCESS || b2 == DOES_NOT_ACCESS || (OnlyReadsMemory(b1) && OnlyReadsMemory(b2)) then NO_MOD_REF
    else
      var r := Intersect(CallInfoOf(aas, c1, c2), BehaviorMask(b1));
      if OnlyAccessesArgPointees(b2) then
        if DoesAccessArgPointees(b2) then Intersect(SecondMask(aas, c1, c2, |c2.args|), r) else NO_MOD_REF
      else if OnlyAccessesArgPointees(b1) then
        if DoesAccessArgPointees(b1) then Intersect(FirstMask(aas, c1, c2, |c1.args|), r) else NO_MOD_REF
      else r
  }

  /** The answer for one instruction and a location. */
  function InstrLoc(aas: seq<Analysis>, i: Instr, l: Loc): Info {
    match i
    case Load(p, ordered) =>
      if ordered then MOD_REF else if AliasOf(aas, p, l) == NoAlias then NO_MOD_REF else Info(false, true)
    case Store(p, ordered) =>
      if ordered then MOD_REF
      else if AliasOf(aas, p, l) == NoAlias || ConstantOf(aas, l) then NO_MOD_REF else Info(true, false)
    case Fence => if ConstantOf(aas, l) then Info(false, true) else MOD_REF
    case VAArg(p) => if AliasOf(aas, p, l) == NoAlias || ConstantOf(aas, l) then NO_MOD_REF else MOD_REF
    case CatchPad => if ConstantOf(aas, l) then NO_MOD_REF else MOD_REF
    case CatchRet => if ConstantOf(aas, l) then NO_MOD_REF else MOD_REF
    case Atomic(p, ordered) => if !ordered && AliasOf(aas, p, l) == NoAlias then NO_MOD_REF else MOD_REF
    case CallInstr(c) => CallLoc(aas, c, l)
    case Other => NO_MOD_REF
  }

  predicate Ordered(i: Instr) { (i.Load? || i.Store? || i.Atomic?) && i.ordered }

  /** An access that is not ordered, to a location that does not alias. */
  predicate AccessApart(aas: seq<Analysis>, i: Instr, l: Loc) {
    (i.Load? || i.Store? || i.Atomic? || i.VAArg?) && !Ordered(i) && AliasOf(aas, i.loc, l) == NoAlias
  }

  // ---------- The methods ----------

  lemma InfoNext(aas: seq<Analysis>, i: nat, c: Call, d: Call, k: nat, l: Loc)
    requires i < |aas|
    ensures ArgInfoOf(aas[..i + 1], c, k) == Intersect(ArgInfoOf(aas[..i], c, k), aas[i].argInfo(c, k))
    ensures LocInfoOf(aas[..i + 1], c, l) == Intersect(LocInfoOf(aas[..i], c, l), aas[i].locInfo(c, l))
    ensures CallInfoOf(aas[..i + 1], c, d) == Intersect(CallInfoOf(aas[..i], c, d), aas[i].callInfo(c, d))
    ensures BehaviorOf(aas[..i + 1], c) == Both(BehaviorOf(aas[..i], c), aas[i].behavior(c))
  {
    assert aas[..i + 1][..i] == aas[..i];
  }

  /** Once nothing is left, nothing more can be taken away. */
  lemma {:induction false} Bottom(aas: seq<Analysis>, i: nat, c: Call, d: Call, k: nat, l: Loc)
    requires i <= |aas|
    ensures ArgInfoOf(aas[..i], c, k) == NO_MOD_REF ==> ArgInfoOf(aas, c, k) == NO_MOD_REF
    ensures LocInfoOf(aas[..i], c, l) == NO_MOD_REF ==> LocInfoOf(aas, c, l) == NO_MOD_REF
    ensures CallInfoOf(aas[..i], c, d) == NO_MOD_REF ==> CallInfoOf(aas, c, d) == NO_MOD_REF
    ensures BehaviorOf(aas[..i], c) == DOES_NOT_ACCESS ==> BehaviorOf(aas, c) == DOES_NOT_ACCESS
    decreases |aas| - i
  {
    if i == |aas| {
      assert aas[..i] == aas;
    } else {
      InfoNext(aas, i, c, d, k, l);
      hide ArgInfoOf, LocInfoOf, CallInfoOf, BehaviorOf;
      Bottom(aas, i + 1, c, d, k, l);
    }
  }

  lemma {:induction false} AliasFrom(aas: seq<Analysis>, i: nat, x: Loc, y: Loc)
    requires i <= |aas| && forall j :: 0 <= j < i ==> aas[j].alias(x, y) == MayAlias
    ensures AliasOf(aas, x, y) == AliasOf(aas[i..], x, y)
  {
    if i > 0 {
      assert aas[1..][i - 1..] == aas[i..];
      AliasFrom(aas[1..], i - 1, x, y);
    }
  }

  class AAResults {
    const aas: seq<Analysis>

    constructor (analyses: seq<Analysis>)
      ensures aas == analyses
    {
      aas := analyses;
    }

    method Alias(x: Loc, y: Loc) returns (r: AliasResult)
      ensures r == AliasOf(aas, x, y)
      ensures r == MayAlias ==> forall i :: 0 <= i < |aas| ==> aas[i].alias(x, y) == MayAlias
      ensures r != MayAlias ==> exists i :: 0 <= i < |aas| && aas[i].alias(x, y) == r && forall j :: 0 <= j < i ==> aas[j].alias(x, y) == MayAlias
    {
      for i := 0 to |aas|
        invariant forall j :: 0 <= j < i ==> aas[j].alias(x, y) == MayAlias
      {
        r := aas[i].alias(x, y);
        if r != MayAlias {
          AliasFrom(aas, i, x, y);
          return;
        }
      }
      AliasFrom(aas, |aas|, x, y);
      return MayAlias;
    }

    method PointsToConstantMemory(l: Loc) returns (r: bool)
      ensures r == ConstantOf(aas, l)
    {
      for i := 0 to |aas|
        invariant forall j :: 0 <= j < i ==> !aas[j].constant(l)
      {
        if aas[i].constant(l) {
          return true;
        }
      }
      return false;
    }

    method GetArgModRefInfo(c: Call, k: nat) returns (r: Info)
      ensures r == ArgInfoOf(aas, c, k)
    {
      hide ArgInfoOf;
      r := MOD_REF;
      assert ArgInfoOf(aas[..0], c, k) == MOD_REF by { ArgInfoNone(aas, c, k); }
      for i := 0 to |aas|
        invariant r == ArgInfoOf(aas[..i], c, k)
      {
        InfoNext(aas, i, c, c, k, 0);
        r := Intersect(r, aas[i].argInfo(c, k));
        if r == NO_MOD_REF {
          Bottom(aas, i + 1, c, c, k, 0);
          return NO_MOD_REF;
        }
      }
      assert aas[..|aas|] == aas;
    }

    method GetModRefBehavior(c: Call) returns (r: Behavior)
      ensures r == BehaviorOf(aas, c)
    {
      hide BehaviorOf;
      r := UNKNOWN_BEHAVIOR;
      assert BehaviorOf(aas[..0], c) == UNKNOWN_BEHAVIOR by { BehaviorNone(aas, c); }
      for i := 0 to |aas|
        invariant r == BehaviorOf(aas[..i], c)
      {
        InfoNext(aas, i, c, c, 0, 0);
        r := Both(r, aas[i].behavior(c));
        if r == DOES_NOT_ACCESS {
          Bottom(aas, i + 1, c, c, 0, 0);
          return;
        }
      }
      assert aas[..|aas|] == aas;
    }

    lemma ArgInfoNone(as_: seq<Analysis>, c: Call, k: nat)
      ensures ArgInfoOf(as_[..0], c, k) == MOD_REF
    {
    }

    lemma BehaviorNone(as_: seq<Analysis>, c: Call)
      ensures BehaviorOf(as_[..0], c) == UNKNOWN_BEHAVIOR
    {
    }

    /** The first loop of the call/location getModRefInfo. */
    method MeetLocInfo(c: Call, l: Loc) returns (r: Info)
      ensures r == LocInfoOf(aas, c, l)
    {
      r := MOD_REF;
      for i := 0 to |aas|
        invariant r == LocInfoOf(aas[..i], c, l)
      {
        InfoNext(aas, i, c, c, 0, l);
        r := Intersect(r, aas[i].locInfo(c, l));
        if r == NO_MOD_REF {
          Bottom(aas, i + 1, c, c, 0, l);
          return NO_MOD_REF;
        }
      }
      assert aas[..|aas|] == aas;
    }

    /** getModRefInfo, of a call and a location. */
    method GetModRefInfoLoc(c: Call, l: Loc) returns (result: Info)
      ensures result == CallLoc(aas, c, l)
    {
      hide LocInfoOf, BehaviorOf, AliasOf, ArgInfoOf, ConstantOf;
      result := MeetLocInfo(c, l);
      if result == NO_MOD_REF {
        return NO_MOD_REF;
      }
      var mrb := GetModRefBehavior(c);
      if mrb == DOES_NOT_ACCESS || mrb == ONLY_INACCESSIBLE {
        return NO_MOD_REF;
      }
      if OnlyReadsMemory(mrb) {
        result := Info(false, result.ref);
      } else if DoesNotReadMemory(mrb) {
        result := Info(result.mod, false);
      }
      if OnlyAccessesArgPointees(mrb) || OnlyAccessesInaccessibleOrArgMem(mrb) {
        var doesAlias := false;
        var allArgsMask := NO_MOD_REF;
        if DoesAccessArgPointees(mrb) {
          for k := 0 to |c.args|
            invariant allArgsMask == ArgsMask(aas, c, l, k)
            invariant !doesAlias ==> allArgsMask == NO_MOD_REF
          {
            if !c.args[k].isPointer {
              continue;
            }
            var argAlias := Alias(c.args[k].loc, l);
            if argAlias != NoAlias {
              var argMask := GetArgModRefInfo(c, k);
              doesAlias := true;
              allArgsMask := Union(allArgsMask, argMask);
            }
          }
        }
        if !doesAlias {
          return NO_MOD_REF;
        }
        result := Intersect(result, allArgsMask);
      }
      if result.mod {
        var constant := PointsToConstantMemory(l);
        if constant {
          result := Info(false, result.ref);
        }
      }
    }

    /** The first loop of the call/call getModRefInfo. */
    method MeetCallInfo(c1: Call, c2: Call) returns (r: Info)
      ensures r == CallInfoOf(aas, c1, c2)
    {
      r := MOD_REF;
      for i := 0 to |aas|
        invariant r == CallInfoOf(aas[..i], c1, c2)
      {
        InfoNext(aas, i, c1, c2, 0, 0);
        r := Intersect(r, aas[i].callInfo(c1, c2));
        if r == NO_MOD_REF {
          Bottom(aas, i + 1, c1, c2, 0, 0);
          return NO_MOD_REF;
        }
      }
      assert aas[..|aas|] == aas;
    }

    /** The loop over the arguments of the second call; it may stop when all that can be found has been. */
    method OverSecondArgs(c1: Call, c2: Call, result: Info) returns (r: Info)
      ensures r == Intersect(SecondMask(aas, c1, c2, |c2.args|), result)
    {
      hide CallLoc, ArgInfoOf, MaskOfSecond;
      r := NO_MOD_REF;
      for k := 0 to |c2.args|
        invariant r == Intersect(SecondMask(aas, c1, c2, k), result)
      {
        if !c2.args[k].isPointer {
          continue;
        }
        var argInfo := GetArgModRefInfo(c2, k);
        var argMask := NO_MOD_REF;
        if argInfo.mod {
          argMask := MOD_REF;
        } else if argInfo.ref {
          argMask := Info(true, false);
        }
        var first := GetModRefInfoLoc(c1, c2.args[k].loc);
        argMask := Intersect(argMask, first);
        SecondMaskIs(aas, c1, c2, k);
        r := Intersect(Union(r, argMask), result);
        if r == result {
          SecondMore(aas, c1, c2, k + 1, |c2.args|);
          break;
        }
      }
    }

    /** The loop over the arguments of the first call. */
    method OverFirstArgs(c1: Call, c2: Call, result: Info) returns (r: Info)
      ensures r == Intersect(FirstMask(aas, c1, c2, |c1.args|), result)
    {
      hide CallLoc, ArgInfoOf, MaskOfFirst;
      r := NO_MOD_REF;
      for k := 0 to |c1.args|
        invariant r == Intersect(FirstMask(aas, c1, c2, k), result)
      {
        if !c1.args[k].isPointer {
          continue;
        }
        var argInfo := GetArgModRefInfo(c1, k);
        var second := GetModRefInfoLoc(c2, c1.args[k].loc);
        FirstMaskIs(aas, c1, c2, k);
        if (argInfo.mod && (second.mod || second.ref)) || (argInfo.ref && second.mod) {
          r := Intersect(Union(r, argInfo), result);
        }
        if r == result {
          FirstMore(aas, c1, c2, k + 1, |c1.args|);
          break;
        }
      }
    }

    /** getModRefInfo, of two calls. */
    method GetModRefInfoCall(c1: Call, c2: Call) returns (result: Info)
      ensures result == CallCall(aas, c1, c2)
    {
      hide CallInfoOf, BehaviorOf, SecondMask, FirstMask;
      result := MeetCallInfo(c1, c2);
      if result == NO_MOD_REF {
        return NO_MOD_REF;
      }
      var b1 := GetModRefBehavior(c1);
      if b1 == DOES_NOT_ACCESS {
        return NO_MOD_REF;
      }
      var b2 := GetModRefBehavior(c2);
      if b2 == DOES_NOT_ACCESS {
        return NO_MOD_REF;
      }
      if OnlyReadsMemory(b1) && OnlyReadsMemory(b2) {
        return NO_MOD_REF;
      }
      if OnlyReadsMemory(b1) {
        result := Info(false, result.ref);
      } else if DoesNotReadMemory(b1) {
        result := Info(result.mod, false);
      }
      if OnlyAccessesArgPointees(b2) {
        if !DoesAccessArgPointees(b2) {
          return NO_MOD_REF;
        }
        result := OverSecondArgs(c1, c2, result);
        return;
      }
      if OnlyAccessesArgPointees(b1) {
        if !DoesAccessArgPointees(b1) {
          return NO_MOD_REF;
        }
        result := OverFirstArgs(c1, c2, result);
        return;
      }
    }

    /** getModRefInfo, of an instruction and a location. */
    method GetModRefInfoInstr(i: Instr, l: Loc) returns (r: Info)
      ensures r == InstrLoc(aas, i, l)
      ensures !i.CallInstr? ==>
                (r.mod <==> (Ordered(i) || !(i.Load? || i.Other?)) && !AccessApart(aas, i, l) &&
                            (ConstantOf(aas, l) ==> Ordered(i) || i.Atomic?))
      ensures !i.CallInstr? ==>
                (r.ref <==> (Ordered(i) || !(i.Store? || i.Other?)) && !AccessApart(aas, i, l) &&
                            !((i.VAArg? || i.CatchPad? || i.CatchRet?) && ConstantOf(aas, l)))
    {
      hide AliasOf, ConstantOf, CallLoc;
      match i {
        case Load(p, ordered) => {
          if ordered {
            return MOD_REF;
          }
          var ar := Alias(p, l);
          return if ar == NoAlias then NO_MOD_REF else Info(false, true);
        }
        case Store(p, ordered) => {
          if ordered {
            return MOD_REF;
          }
          var ar := Alias(p, l);
          if ar == NoAlias {
            return NO_MOD_REF;
          }
          var constant := PointsToConstantMemory(l);
          return if constant then NO_MOD_REF else Info(true, false);
        }
        case Fence => {
          var constant := PointsToConstantMemory(l);
          return if constant then Info(false, true) else MOD_REF;
        }
        case VAArg(p) => {
          var ar := Alias(p, l);
          if ar == NoAlias {
            return NO_MOD_REF;
          }
          var constant := PointsToConstantMemory(l);
          return if constant then NO_MOD_REF else MOD_REF;
        }
        case CatchPad => {
          var constant := PointsToConstantMemory(l);
          return if constant then NO_MOD_REF else MOD_REF;
        }
        case CatchRet => {
          var constant := PointsToConstantMemory(l);
          return if constant then NO_MOD_REF else MOD_REF;
        }
        case Atomic(p, ordered) => {
          if ordered {
            return MOD_REF;
          }
          var ar := Alias(p, l);
          return if ar == NoAlias then NO_MOD_REF else MOD_REF;
        }
        case CallInstr(c) => {
          r := GetModRefInfoLoc(c, l);
        }
        case Other => {
          return NO_MOD_REF;
        }
      }
    }

    /** canInstructionRangeModRef, over the instructions of a range. */
    method CanInstructionRangeModRef(range: seq<Instr>, l: Loc, mode: Info) returns (can: bool)
      ensures can <==> exists i :: 0 <= i < |range| && Intersect(InstrLoc(aas, range[i], l), mode) != NO_MOD_REF
    {
      hide InstrLoc;
      for k := 0 to |range|
        invariant forall i :: 0 <= i < k ==> Intersect(InstrLoc(aas, range[i], l), mode) == NO_MOD_REF
      {
        var r := GetModRefInfoInstr(range[k], l);
        if Intersect(r, mode) != NO_MOD_REF {
          return true;
        }
      }
      return false;
    }
  }

  lemma SecondMaskIs(aas: seq<Analysis>, c1: Call, c2: Call, k: nat)
    requires k < |c2.args|
    ensures var i := ArgInfoOf(aas, c2, k);
            MaskOfSecond(aas, c1, c2, k) ==
              Intersect(if i.mod then MOD_REF else if i.ref then Info(true, false) else NO_MOD_REF, CallLoc(aas, c1, c2.args[k].loc))
  {
    hide ArgInfoOf, CallLoc;
  }

  lemma FirstMaskIs(aas: seq<Analysis>, c1: Call, c2: Call, k: nat)
    requires k < |c1.args|
    ensures var i, j := ArgInfoOf(aas, c1, k), CallLoc(aas, c2, c1.args[k].loc);
            MaskOfFirst(aas, c1, c2, k) == if (i.mod && (j.mod || j.ref)) || (i.ref && j.mod) then i else NO_MOD_REF
  {
    hide ArgInfoOf, CallLoc;
  }

  predicate Within(a: Info, b: Info) { (a.mod ==> b.mod) && (a.ref ==> b.ref) }

  /** More arguments only add to a mask. */
  lemma {:induction false} SecondMore(aas: seq<Analysis>, c1: Call, c2: Call, m: nat, n: nat)
    requires m <= n <= |c2.args|
    ensures Within(SecondMask(aas, c1, c2, m), SecondMask(aas, c1, c2, n))
    decreases n
  {
    hide MaskOfSecond;
    if m < n {
      SecondMore(aas, c1, c2, m, n - 1);
    }
  }

  lemma {:induction false} FirstMore(aas: seq<Analysis>, c1: Call, c2: Call, m: nat, n: nat)
    requires m <= n <= |c1.args|
    ensures Within(FirstMask(aas, c1, c2, m), FirstMask(aas, c1, c2, n))
    decreases n
  {
    hide MaskOfFirst;
    if m < n {
      FirstMore(aas, c1, c2, m, n - 1);
    }
  }
}
