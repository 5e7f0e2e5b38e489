/**
 When a chain of analyses keeps a bit of an answer: exactly if nothing that is known
 takes it away. So no analysis is asked in vain, and nothing else is forgotten.
 */
module ModRefExact {
  import opened ModRefSemantics
  import opened ModRefResults

  /** The chain's answer is that of the first analysis that does not answer MayAlias, if there is one. */
  lemma {:induction false} AliasIsFirst(aas: seq<Analysis>, x: Loc, y: Loc, i: nat)
    requires i < |aas| && aas[i].alias(x, y) != MayAlias && forall j :: 0 <= j < i ==> aas[j].alias(x, y) == MayAlias
    ensures AliasOf(aas, x, y) == aas[i].alias(x, y)
  {
    AliasFrom(aas, i, x, y);
    assert aas[i..][0] == aas[i];
  }

  lemma {:induction false} ArgBits(aas: seq<Analysis>, c: Call, k: nat)
    ensures ArgInfoOf(aas, c, k).mod <==> forall i :: 0 <= i < |aas| ==> aas[i].argInfo(c, k).mod
    ensures ArgInfoOf(aas, c, k).ref <==> forall i :: 0 <= i < |aas| ==> aas[i].argInfo(c, k).ref
    decreases |aas|
  {
    if aas != [] {
      ArgBits(aas[..|aas| - 1], c, k);
    }
  }

  lemma {:induction false} LocBits(aas: seq<Analysis>, c: Call, l: Loc)
    ensures LocInfoOf(aas, c, l).mod <==> forall i :: 0 <= i < |aas| ==> aas[i].locInfo(c, l).mod
    ensures LocInfoOf(aas, c, l).ref <==> forall i :: 0 <= i < |aas| ==> aas[i].locInfo(c, l).ref
    decreases |aas|
  {
    if aas != [] {
      LocBits(aas[..|aas| - 1], c, l);
    }
  }

  lemma {:induction false} CallBits(aas: seq<Analysis>, c: Call, d: Call)
    ensures CallInfoOf(aas, c, d).mod <==> forall i :: 0 <= i < |aas| ==> aas[i].callInfo(c, d).mod
    ensures CallInfoOf(aas, c, d).ref <==> forall i :: 0 <= i < |aas| ==> aas[i].callInfo(c, d).ref
    decreases |aas|
  {
    if aas != [] {
      CallBits(aas[..|aas| - 1], c, d);
    }
  }

  /** A call may write, read, get at arguments, inaccessible memory or other memory if every analysis says so. */
  lemma {:induction false} BehaviorBits(aas: seq<Analysis>, c: Call)
    ensures var b := BehaviorOf(aas, c);
            && (b.info.mod <==> forall i :: 0 <= i < |aas| ==> aas[i].behavior(c).info.mod)
            && (b.info.ref <==> forall i :: 0 <= i < |aas| ==> aas[i].behavior(c).info.ref)
            && (b.args <==> forall i :: 0 <= i < |aas| ==> aas[i].behavior(c).args)
            && (b.inaccessible <==> forall i :: 0 <= i < |aas| ==> aas[i].behavior(c).inaccessible)
            && (b.elsewhere <==> forall i :: 0 <= i < |aas| ==> aas[i].behavior(c).elsewhere)
    decreases |aas|
  {
    if aas != [] {
      BehaviorBits(aas[..|aas| - 1], c);
    }
  }

  // ---------- A call and a location ----------

  /** Argument k may be the location, or overlap it. */
  predicate Reaches(aas: seq<Analysis>, c: Call, l: Loc, k: nat)
    requires k < |c.args|
  {
    c.args[k].isPointer && AliasOf(aas, c.args[k].loc, l) != NoAlias
  }

  lemma {:induction false} ArgsMaskBits(aas: seq<Analysis>, c: Call, l: Loc, n: nat)
    requires n <= |c.args|
    ensures ArgsMask(aas, c, l, n).mod <==> exists k :: 0 <= k < n && Reaches(aas, c, l, k) && ArgInfoOf(aas, c, k).mod
    ensures ArgsMask(aas, c, l, n).ref <==> exists k :: 0 <= k < n && Reaches(aas, c, l, k) && ArgInfoOf(aas, c, k).ref
  {
    hide AliasOf, ArgInfoOf;
    if n > 0 {
      ArgsMaskBits(aas, c, l, n - 1);
      var here := Reaches(aas, c, l, n - 1);
      var i := ArgInfoOf(aas, c, n - 1);
      assert ArgsMask(aas, c, l, n) == if here then Union(ArgsMask(aas, c, l, n - 1), i) else ArgsMask(aas, c, l, n - 1);
      hide Reaches, ArgsMask;
      assert here && i.mod ==> Reaches(aas, c, l, n - 1) && ArgInfoOf(aas, c, n - 1).mod;
      assert here && i.ref ==> Reaches(aas, c, l, n - 1) && ArgInfoOf(aas, c, n - 1).ref;
    }
  }

  /** The call gets at memory that a location may be in only by way of its arguments. */
  predicate OnlyByArguments(b: Behavior) { !b.elsewhere }

  /**
   A call/location answer has the Mod bit exactly if: every analysis gives it for the call and the location; the call
   may write, to more than inaccessible memory; if it only gets at arguments, one of these reaches the location and
   may be written; and the location is not constant.
   */
  lemma CallLocMod(aas: seq<Analysis>, c: Call, l: Loc)
    ensures var b := BehaviorOf(aas, c);
            CallLoc(aas, c, l).mod <==>
              && (forall i :: 0 <= i < |aas| ==> aas[i].locInfo(c, l).mod)
              && b.info.mod && b != ONLY_INACCESSIBLE
              && (OnlyByArguments(b) ==> b.args && exists k :: 0 <= k < |c.args| && Reaches(aas, c, l, k) && ArgInfoOf(aas, c, k).mod)
              && !ConstantOf(aas, l)
  {
    LocBits(aas, c, l);
    ArgsMaskBits(aas, c, l, |c.args|);
    hide BehaviorOf, LocInfoOf, ArgsMask, ArgInfoOf, AliasOf, ConstantOf, Reaches;
  }

  /** And the Ref bit likewise; that a location is constant does not matter. */
  lemma CallLocRef(aas: seq<Analysis>, c: Call, l: Loc)
    ensures var b := BehaviorOf(aas, c);
            CallLoc(aas, c, l).ref <==>
              && (forall i :: 0 <= i < |aas| ==> aas[i].locInfo(c, l).ref)
              && b != DOES_NOT_ACCESS && b != ONLY_INACCESSIBLE && (b.info.mod ==> b.info.ref)
              && (OnlyByArguments(b) ==> DoesAccessArgPointees(b) && exists k :: 0 <= k < |c.args| && Reaches(aas, c, l, k) && ArgInfoOf(aas, c, k).ref)
  {
    LocBits(aas, c, l);
    ArgsMaskBits(aas, c, l, |c.args|);
    hide BehaviorOf, LocInfoOf, ArgsMask, ArgInfoOf, AliasOf, ConstantOf, Reaches;
  }

  // ---------- Two calls ----------

  /** Argument k of c2 may be read or written, and c1 may write to it. */
  predicate WritesArgument(aas: seq<Analysis>, c1: Call, c2: Call, k: nat)
    requires k < |c2.args|
  {
    c2.args[k].isPointer && (ArgInfoOf(aas, c2, k).mod || ArgInfoOf(aas, c2, k).ref) && CallLoc(aas, c1, c2.args[k].loc).mod
  }

  /** Argument k of c2 may be written, and c1 may read it. */
  predicate ReadsArgument(aas: seq<Analysis>, c1: Call, c2: Call, k: nat)
    requires k < |c2.args|
  {
    c2.args[k].isPointer && ArgInfoOf(aas, c2, k).mod && CallLoc(aas, c1, c2.args[k].loc).ref
  }

  /** c1 may write its argument k, and c2 may read or write it. */
  predicate WrittenArgument(aas: seq<Analysis>, c1: Call, c2: Call, k: nat)
    requires k < |c1.args|
  {
    var j := CallLoc(aas, c2, c1.args[k].loc);
    c1.args[k].isPointer && ArgInfoOf(aas, c1, k).mod && (j.mod || j.ref)
  }

  /** c1 may read its argument k, and c2 may write it; or c1 may also write it, and c2 read it. */
  predicate ReadArgument(aas: seq<Analysis>, c1: Call, c2: Call, k: nat)
    requires k < |c1.args|
  {
    var i, j := ArgInfoOf(aas, c1, k), CallLoc(aas, c2, c1.args[k].loc);
    c1.args[k].isPointer && i.ref && (j.mod || (i.mod && j.ref))
  }

  lemma {:induction false} SecondMaskBits(aas: seq<Analysis>, c1: Call, c2: Call, n: nat)
    requires n <= |c2.args|
    ensures SecondMask(aas, c1, c2, n).mod <==> exists k :: 0 <= k < n && WritesArgument(aas, c1, c2, k)
    ensures SecondMask(aas, c1, c2, n).ref <==> exists k :: 0 <= k < n && ReadsArgument(aas, c1, c2, k)
  {
    hide CallLoc, ArgInfoOf;
    if n > 0 {
      SecondMaskBits(aas, c1, c2, n - 1);
      SecondMaskIs(aas, c1, c2, n - 1);
      assert WritesArgument(aas, c1, c2, n - 1) <==> c2.args[n - 1].isPointer && MaskOfSecond(aas, c1, c2, n - 1).mod;
      assert ReadsArgument(aas, c1, c2, n - 1) <==> c2.args[n - 1].isPointer && MaskOfSecond(aas, c1, c2, n - 1).ref;
      hide WritesArgument, ReadsArgument, MaskOfSecond;
    }
  }

  lemma {:induction false} FirstMaskBits(aas: seq<Analysis>, c1: Call, c2: Call, n: nat)
    requires n <= |c1.args|
    ensures FirstMask(aas, c1, c2, n).mod <==> exists k :: 0 <= k < n && WrittenArgument(aas, c1, c2, k)
    ensures FirstMask(aas, c1, c2, n).ref <==> exists k :: 0 <= k < n && ReadArgument(aas, c1, c2, k)
  {
    hide CallLoc, ArgInfoOf;
    if n > 0 {
      FirstMaskBits(aas, c1, c2, n - 1);
      FirstMaskIs(aas, c1, c2, n - 1);
      assert WrittenArgument(aas, c1, c2, n - 1) <==> c1.args[n - 1].isPointer && MaskOfFirst(aas, c1, c2, n - 1).mod;
      assert ReadArgument(aas, c1, c2, n - 1) <==> c1.args[n - 1].isPointer && MaskOfFirst(aas, c1, c2, n - 1).ref;
      hide WrittenArgument, ReadArgument, MaskOfFirst;
    }
  }

  /** Both calls access memory, and at least one of them may write. */
  predicate MayDepend(b1: Behavior, b2: Behavior) {
    b1 != DOES_NOT_ACCESS && b2 != DOES_NOT_ACCESS && (b1.info.mod || b2.info.mod)
  }

  /**
   A call/call answer has the Mod bit exactly if: every analysis gives it for the two calls; they may depend on each
   other, and the first may write; and, if the second only gets at its arguments, the first may write to one of
   these, or else, if the first only does, the second may access one of its that may be written.
   */
  lemma CallCallMod(aas: seq<Analysis>, c1: Call, c2: Call)
    ensures var b1, b2 := BehaviorOf(aas, c1), BehaviorOf(aas, c2);
            CallCall(aas, c1, c2).mod <==>
              && (forall i :: 0 <= i < |aas| ==> aas[i].callInfo(c1, c2).mod)
              && MayDepend(b1, b2) && b1.info.mod
              && (if OnlyAccessesArgPointees(b2) then
                    DoesAccessArgPointees(b2) && exists k :: 0 <= k < |c2.args| && WritesArgument(aas, c1, c2, k)
                  else if OnlyAccessesArgPointees(b1) then
                    DoesAccessArgPointees(b1) && exists k :: 0 <= k < |c1.args| && WrittenArgument(aas, c1, c2, k)
                  else true)
  {
    CallBits(aas, c1, c2);
    SecondMaskBits(aas, c1, c2, |c2.args|);
    FirstMaskBits(aas, c1, c2, |c1.args|);
    hide BehaviorOf, CallInfoOf, SecondMask, FirstMask, WritesArgument, WrittenArgument, ReadsArgument, ReadArgument;
  }

  /** And the Ref bit if the first may read, and one of the arguments what the other call may write. */
  lemma CallCallRef(aas: seq<Analysis>, c1: Call, c2: Call)
    ensures var b1, b2 := BehaviorOf(aas, c1), BehaviorOf(aas, c2);
            CallCall(aas, c1, c2).ref <==>
              && (forall i :: 0 <= i < |aas| ==> aas[i].callInfo(c1, c2).ref)
              && MayDepend(b1, b2) && (b1.info.mod ==> b1.info.ref)
              && (if OnlyAccessesArgPointees(b2) then
                    DoesAccessArgPointees(b2) && exists k :: 0 <= k < |c2.args| && ReadsArgument(aas, c1, c2, k)
                  else if OnlyAccessesArgPointees(b1) then
                    DoesAccessArgPointees(b1) && exists k :: 0 <= k < |c1.args| && ReadArgument(aas, c1, c2, k)
                  else true)
  {
    CallBits(aas, c1, c2);
    SecondMaskBits(aas, c1, c2, |c2.args|);
    FirstMaskBits(aas, c1, c2, |c1.args|);
    hide BehaviorOf, CallInfoOf, SecondMask, FirstMask, WritesArgument, WrittenArgument, ReadsArgument, ReadArgument;
  }

  /** Two calls that only read do not depend on each other, nor does a call that does not access memory on any. */
  lemma ReadersApart(aas: seq<Analysis>, c1: Call, c2: Call, i: nat, j: nat)
    requires i < |aas| && j < |aas| && !aas[i].behavior(c1).info.mod && !aas[j].behavior(c2).info.mod
    ensures CallCall(aas, c1, c2) == NO_MOD_REF
  {
    BehaviorBits(aas, c1);
    BehaviorBits(aas, c2);
    CallCallMod(aas, c1, c2);
    CallCallRef(aas, c1, c2);
    hide CallCall, BehaviorOf;
  }
}
