/** What each block does, and the whole run of a stack of generated functions. */
module UnwindRuns {
  import opened UnwindPersonality
  import opened UnwindCode
  import opened UnwindMachine

  // ---------- One block ----------

  lemma DoOne(i: Inst, k: nat, s: Slots)
    ensures DoAll([i], k, s) == Do(i, k, s)
  {
    assert [i][1..] == [];
    assert Do(i, k, s).1 + [] == Do(i, k, s).1;
  }

  lemma DoMore(insts: seq<Inst>, k: nat, s: Slots)
    requires insts != []
    ensures DoAll(insts, k, s) == (DoAll(insts[1..], k, Do(insts[0], k, s).0).0, Do(insts[0], k, s).1 + DoAll(insts[1..], k, Do(insts[0], k, s).0).1)
  {
  }

  lemma BlockIs(f: Frame, l: Label)
    requires GoodFrame(f) && l in Labels(|f.fn.clauses|)
    ensures l in f.fn.blocks && f.fn.blocks[l] == BlockOf(f.fn.clauses, l)
    ensures InvokeOf(f) == Invoke(Normal, Landing)
  {
    assert Entry in Labels(|f.fn.clauses|);
    hide GoodFrame;
    assert f.fn == Wrapped(f.fn.clauses) by { GoodFn(f); }
  }

  lemma GoodFn(f: Frame)
    requires GoodFrame(f)
    ensures f.fn == Wrapped(f.fn.clauses)
  {
  }

  predicate Fits(c: Config, m: Machine, k: nat) {
    |m.slots| == |c.frames| && k < |c.frames| && GoodFrame(c.frames[k])
  }

  /** What it takes to run one block of a generated function. */
  lemma RunsBlock(c: Config, m: Machine, k: nat, l: Label, s: Slots, seen: seq<Event>)
    requires Fits(c, m, k) && m.mode == At(k, l) && l in Labels(|c.frames[k].fn.clauses|)
    requires DoAll(BlockOf(c.frames[k].fn.clauses, l).insts, k, m.slots[k]) == (s, seen)
    ensures Step(c, m) == Branch(c, m.(slots := m.slots[k := s], trace := m.trace + [Ran(k, l)] + seen), k,
                                 BlockOf(c.frames[k].fn.clauses, l).term)
  {
    BlockIs(c.frames[k], l);
    hide DoAll, BlockOf, GoodFrame, Branch;
  }

  predicate Clean(s: Slots) { s.flag == NotThrown && s.stored == None && s.result == None }

  lemma StepEntry(c: Config, m: Machine, k: nat)
    requires Fits(c, m, k) && m.mode == At(k, Entry)
    ensures var m' := Step(c, m);
            && |m'.slots| == |m.slots| && Clean(m'.slots[k]) && m'.slots[k].landed == m.slots[k].landed
            && (forall j :: 0 <= j < |m.slots| && j != k ==> m'.slots[j] == m.slots[j])
            && m'.trace == m.trace + [Ran(k, Entry)] && m'.mode == if k == 0 then InLeaf else At(k - 1, Entry)
  {
    hide GoodFrame;
    var s := m.slots[k];
    var s1 := s.(result := None);
    var s2 := s1.(stored := None);
    DoMore([ClearResult, ClearStored, SetFlag(NotThrown)], k, s);
    DoMore([ClearStored, SetFlag(NotThrown)], k, s1);
    DoOne(SetFlag(NotThrown), k, s2);
    assert [ClearResult, ClearStored, SetFlag(NotThrown)][1..] == [ClearStored, SetFlag(NotThrown)];
    assert [ClearStored, SetFlag(NotThrown)][1..] == [SetFlag(NotThrown)];
    hide DoAll;
    RunsBlock(c, m, k, Entry, s2.(flag := NotThrown), []);
  }

  /** A block that only says something, and goes on. */
  lemma StepSays(c: Config, m: Machine, k: nat, l: Label, what: Inst)
    requires Fits(c, m, k) && m.mode == At(k, l)
    requires (l, what) in {(Normal, SayNormal), (External, SayForeign), (Route, SayReceived), (Finally, SayFinally)}
    ensures Step(c, m) == Branch(c, m.(trace := m.trace + [Ran(k, l), Said(k, what)]), k, BlockOf(c.frames[k].fn.clauses, l).term)
  {
    hide GoodFrame;
    DoOne(what, k, m.slots[k]);
    hide DoAll;
    RunsBlock(c, m, k, l, m.slots[k], [Said(k, what)]);
    assert m.slots[k := m.slots[k]] == m.slots;
    assert m.trace + [Ran(k, l)] + [Said(k, what)] == m.trace + [Ran(k, l), Said(k, what)];
  }

  lemma StepCatch(c: Config, m: Machine, k: nat, i: nat, t: int)
    requires Fits(c, m, k) && m.mode == At(k, Catch(i)) && i < |c.frames[k].fn.clauses| && c.frames[k].fn.clauses[i] == t
    ensures Step(c, m) == m.(slots := m.slots[k := m.slots[k].(flag := Caught)],
                             trace := m.trace + [Ran(k, Catch(i)), Said(k, SayCatch(t))], mode := At(k, Finally))
  {
    hide GoodFrame;
    var s := m.slots[k];
    DoMore([SayCatch(t), SetFlag(Caught)], k, s);
    DoOne(SetFlag(Caught), k, s);
    assert [SayCatch(t), SetFlag(Caught)][1..] == [SetFlag(Caught)];
    hide DoAll;
    RunsBlock(c, m, k, Catch(i), s.(flag := Caught), [Said(k, SayCatch(t))] + []);
    assert m.trace + [Ran(k, Catch(i))] + ([Said(k, SayCatch(t))] + []) == m.trace + [Ran(k, Catch(i)), Said(k, SayCatch(t))];
  }

  function Frees(k: nat, s: Slots): seq<Event> {
    if s.stored.Some? && s.stored.value.ours then [Freed(k, s.stored.value)] else []
  }

  lemma StepEnd(c: Config, m: Machine, k: nat)
    requires Fits(c, m, k) && m.mode == At(k, End)
    ensures Step(c, m) == ReturnTo(c, m.(trace := m.trace + [Ran(k, End), Said(k, SayEnd)] + Frees(k, m.slots[k])), k + 1)
  {
    hide GoodFrame;
    var s := m.slots[k];
    DoMore([SayEnd, DeleteStored], k, s);
    DoOne(DeleteStored, k, s);
    assert [SayEnd, DeleteStored][1..] == [DeleteStored];
    hide DoAll;
    RunsBlock(c, m, k, End, s, [Said(k, SayEnd)] + Frees(k, s));
    assert m.slots[k := s] == m.slots;
    assert m.trace + [Ran(k, End)] + ([Said(k, SayEnd)] + Frees(k, s)) == m.trace + [Ran(k, End), Said(k, SayEnd)] + Frees(k, s);
  }

  lemma StepResume(c: Config, m: Machine, k: nat)
    requires Fits(c, m, k) && m.mode == At(k, Resume) && m.slots[k].result.Some?
    ensures Step(c, m) == m.(ex := m.slots[k].result.value.0, trace := m.trace + [Ran(k, Resume)], mode := Unwinding(k + 1))
  {
    hide GoodFrame;
    RunsBlock(c, m, k, Resume, m.slots[k], []);
    assert m.slots[k := m.slots[k]] == m.slots;
    assert m.trace + [Ran(k, Resume)] + [] == m.trace + [Ran(k, Resume)];
  }

  /** The landing pad remembers the exception, and that it was thrown. */
  lemma StepLanding(c: Config, m: Machine, k: nat)
    requires Fits(c, m, k) && m.mode == At(k, Landing)
    ensures var s := m.slots[k];
            Step(c, m) == m.(slots := m.slots[k := Slots(Thrown, Some(s.landed.0), Some(s.landed), s.landed)],
                             trace := m.trace + [Ran(k, Landing)], mode := At(k, if s.landed.0.ours then Route else External))
  {
    hide GoodFrame;
    var s := m.slots[k];
    var s1 := s.(result := Some(s.landed));
    var s2 := s1.(stored := Some(s.landed.0));
    DoMore([StoreResult, StoreException, SetFlag(Thrown)], k, s);
    DoMore([StoreException, SetFlag(Thrown)], k, s1);
    DoOne(SetFlag(Thrown), k, s2);
    assert [StoreResult, StoreException, SetFlag(Thrown)][1..] == [StoreException, SetFlag(Thrown)];
    assert [StoreException, SetFlag(Thrown)][1..] == [SetFlag(Thrown)];
    hide DoAll;
    RunsBlock(c, m, k, Landing, s2.(flag := Thrown), []);
    assert m.trace + [Ran(k, Landing)] + [] == m.trace + [Ran(k, Landing)];
  }

  // ---------- One frame ----------

  function NormalTrace(k: nat): seq<Event> {
    [Ran(k, Normal), Said(k, SayNormal), Ran(k, Finally), Said(k, SayFinally), Ran(k, End), Said(k, SayEnd)]
  }

  function PassTrace(k: nat, e: Exn): seq<Event> {
    [Ran(k, Landing)] + (if e.ours then [Ran(k, Route), Said(k, SayReceived)] else [Ran(k, External), Said(k, SayForeign)])
    + [Ran(k, Finally), Said(k, SayFinally), Ran(k, Resume)]
  }

  function CatchTrace(k: nat, i: nat, e: Exn): seq<Event> {
    [Ran(k, Landing), Ran(k, Route), Said(k, SayReceived), Ran(k, Catch(i)), Said(k, SayCatch(e.kind)),
     Ran(k, Finally), Said(k, SayFinally), Ran(k, End), Said(k, SayEnd), Freed(k, e)]
  }

  /** After an invoke that returned. */
  lemma FrameReturns(c: Config, m: Machine, k: nat)
    requires Fits(c, m, k) && m.mode == At(k, Normal) && Clean(m.slots[k])
    ensures Steps(c, m, 3) == ReturnTo(c, m.(trace := m.trace + NormalTrace(k)), k + 1)
  {
    hide GoodFrame;
    StepSays(c, m, k, Normal, SayNormal);
    var m1 := m.(trace := m.trace + [Ran(k, Normal), Said(k, SayNormal)], mode := At(k, Finally));
    StepSays(c, m1, k, Finally, SayFinally);
    var m2 := m1.(trace := m1.trace + [Ran(k, Finally), Said(k, SayFinally)], mode := At(k, End));
    StepEnd(c, m2, k);
    hide Step;
    NormalTraceIs(m.trace, k);
    assert Steps(c, m, 3) == Steps(c, m1, 2) == Steps(c, m2, 1) == Steps(c, Step(c, m2), 0);
  }

  /** The unwinder enters a frame. */
  lemma EntersFrame(c: Config, m: Machine, k: nat, p: nat)
    requires Fits(c, m, k) && m.mode == Unwinding(k)
    requires p == if m.ex.ours then Position(c.frames[k].fn.clauses, m.ex.kind, 0) else 0
    ensures var s := Slots(Thrown, Some(m.ex), Some((m.ex, p)), (m.ex, p));
            Steps(c, m, 2) == m.(slots := m.slots[k := s], trace := m.trace + [Ran(k, Landing)], mode := At(k, if m.ex.ours then Route else External))
  {
    FrameAnswer(c.frames[k], m.ex);
    BlockIs(c.frames[k], Landing);
    var m1 := m.(slots := m.slots[k := m.slots[k].(landed := (m.ex, p))], mode := At(k, Landing));
    assert WellFormed(c.frames[k].lsda);
    hide GoodFrame;
    assert Step(c, m) == m1;
    StepLanding(c, m1, k);
    hide Step;
    assert m1.slots[k := Slots(Thrown, Some(m.ex), Some((m.ex, p)), (m.ex, p))] == m.slots[k := Slots(Thrown, Some(m.ex), Some((m.ex, p)), (m.ex, p))];
    assert Steps(c, m, 2) == Steps(c, m1, 1) == Steps(c, Step(c, m1), 0);
  }

  lemma ChooseCase(n: nat, key: nat, otherwise: Label)
    requires key <= n
    ensures Choose(Cases(n), key, otherwise) == if key == 0 then otherwise else Catch(key - 1)
  {
    ChooseFrom(n, 0, key, otherwise);
    assert Cases(n)[0..] == Cases(n);
  }

  lemma {:induction false} ChooseFrom(n: nat, i: nat, key: nat, otherwise: Label)
    requires key <= n && i <= n && (key == 0 || i < key)
    ensures Choose(Cases(n)[i..], key, otherwise) == if key == 0 then otherwise else Catch(key - 1)
    decreases n - i
  {
    if i < n {
      assert Cases(n)[i..][0] == (i + 1, Catch(i));
      assert Cases(n)[i..][1..] == Cases(n)[i + 1..];
      if key != i + 1 {
        ChooseFrom(n, i + 1, key, otherwise);
      }
    }
  }

  lemma ThreeSteps(c: Config, m: Machine, m1: Machine, m2: Machine, m3: Machine)
    requires Step(c, m) == m1 && Step(c, m1) == m2 && Step(c, m2) == m3
    ensures Steps(c, m, 3) == m3
  {
    hide Step;
    assert Steps(c, m, 3) == Steps(c, m1, 2) == Steps(c, m2, 1) == Steps(c, m3, 0);
  }

  function Entered(m: Machine, p: nat): Slots { Slots(Thrown, Some(m.ex), Some((m.ex, p)), (m.ex, p)) }

  /** From the router, or from the block for foreign exceptions, to the finally block. */
  lemma GoesToFinally(c: Config, m: Machine, k: nat, l: Label, what: Inst)
    requires Fits(c, m, k) && m.slots[k] == Entered(m, 0)
    requires (l, what) == (if m.ex.ours then (Route, SayReceived) else (External, SayForeign)) && m.mode == At(k, l)
    ensures Step(c, m) == m.(trace := m.trace + [Ran(k, l), Said(k, what)], mode := At(k, Finally))
  {
    hide GoodFrame, Step;
    StepSays(c, m, k, l, what);
    ChooseCase(|c.frames[k].fn.clauses|, 0, Finally);
  }

  lemma GoesToCatch(c: Config, m: Machine, k: nat, i: nat)
    requires Fits(c, m, k) && m.slots[k] == Entered(m, i + 1) && i < |c.frames[k].fn.clauses| && m.mode == At(k, Route)
    ensures Step(c, m) == m.(trace := m.trace + [Ran(k, Route), Said(k, SayReceived)], mode := At(k, Catch(i)))
  {
    hide GoodFrame, Step;
    StepSays(c, m, k, Route, SayReceived);
    ChooseCase(|c.frames[k].fn.clauses|, i + 1, Finally);
  }

  lemma LeavesFinally(c: Config, m: Machine, k: nat)
    requires Fits(c, m, k) && m.mode == At(k, Finally)
    ensures Step(c, m) == m.(trace := m.trace + [Ran(k, Finally), Said(k, SayFinally)],
                             mode := At(k, if m.slots[k].flag == Thrown then Resume else End))
  {
    hide GoodFrame, Step;
    StepSays(c, m, k, Finally, SayFinally);
    assert [(Caught, End), (Thrown, Resume)][1..] == [(Thrown, Resume)];
  }

  lemma PassTraceIs(t: seq<Event>, k: nat, e: Exn, l: Label, what: Inst)
    requires (l, what) == if e.ours then (Route, SayReceived) else (External, SayForeign)
    ensures t + [Ran(k, Landing)] + [Ran(k, l), Said(k, what)] + [Ran(k, Finally), Said(k, SayFinally)] + [Ran(k, Resume)] == t + PassTrace(k, e)
  {
    assert [Ran(k, Finally), Said(k, SayFinally)] + [Ran(k, Resume)] == [Ran(k, Finally), Said(k, SayFinally), Ran(k, Resume)];
  }

  lemma CatchTraceIs(t: seq<Event>, k: nat, i: nat, e: Exn)
    ensures t + [Ran(k, Landing)] + [Ran(k, Route), Said(k, SayReceived)] + [Ran(k, Catch(i)), Said(k, SayCatch(e.kind))]
            + [Ran(k, Finally), Said(k, SayFinally), Ran(k, End), Said(k, SayEnd), Freed(k, e)] == t + CatchTrace(k, i, e)
  {
  }

  lemma NormalTraceIs(t: seq<Event>, k: nat)
    ensures t + [Ran(k, Normal), Said(k, SayNormal)] + [Ran(k, Finally), Said(k, SayFinally)] + [Ran(k, End), Said(k, SayEnd)] + []
            == t + NormalTrace(k)
  {
  }

  /** An exception that a frame does not list passes through its finally block. */
  lemma FramePasses(c: Config, m: Machine, k: nat)
    requires Fits(c, m, k) && m.mode == Unwinding(k) && !Lists(c.frames[k], m.ex)
    ensures var m' := Steps(c, m, 5);
            && |m'.slots| == |m.slots| && (forall j :: k < j < |m.slots| ==> m'.slots[j] == m.slots[j])
            && m' == m.(slots := m'.slots, trace := m.trace + PassTrace(k, m.ex), mode := Unwinding(k + 1))
  {
    FrameAnswer(c.frames[k], m.ex);
    hide GoodFrame, Step, Steps, Position, Answer, PassTrace, CatchTrace;
    EntersFrame(c, m, k, 0);
    var l := if m.ex.ours then Route else External;
    var what := if m.ex.ours then SayReceived else SayForeign;
    var m1 := m.(slots := m.slots[k := Entered(m, 0)], trace := m.trace + [Ran(k, Landing)], mode := At(k, l));
    GoesToFinally(c, m1, k, l, what);
    var m2 := m1.(trace := m1.trace + [Ran(k, l), Said(k, what)], mode := At(k, Finally));
    LeavesFinally(c, m2, k);
    var m3 := m2.(trace := m2.trace + [Ran(k, Finally), Said(k, SayFinally)], mode := At(k, Resume));
    StepResume(c, m3, k);
    ThreeSteps(c, m1, m2, m3, m3.(trace := m3.trace + [Ran(k, Resume)], mode := Unwinding(k + 1)));
    StepsAdd(c, m, 2, 3);
    PassTraceIs(m.trace, k, m.ex, l, what);
  }

  lemma CaughtEnds(c: Config, m: Machine, k: nat, e: Exn)
    requires Fits(c, m, k) && m.mode == At(k, Finally) && m.slots[k].flag == Caught && m.slots[k].stored == Some(e) && e.ours
    ensures Steps(c, m, 2) ==
      ReturnTo(c, m.(trace := m.trace + [Ran(k, Finally), Said(k, SayFinally), Ran(k, End), Said(k, SayEnd), Freed(k, e)]), k + 1)
  {
    hide GoodFrame, Step;
    LeavesFinally(c, m, k);
    var m1 := m.(trace := m.trace + [Ran(k, Finally), Said(k, SayFinally)], mode := At(k, End));
    StepEnd(c, m1, k);
    assert m1.trace + [Ran(k, End), Said(k, SayEnd)] + [Freed(k, e)]
        == m.trace + [Ran(k, Finally), Said(k, SayFinally), Ran(k, End), Said(k, SayEnd), Freed(k, e)];
    assert Steps(c, m, 2) == Steps(c, m1, 1) == Steps(c, Step(c, m1), 0);
  }

  lemma TwoSteps(c: Config, m: Machine, m1: Machine, m2: Machine)
    requires Step(c, m) == m1 && Step(c, m1) == m2
    ensures Steps(c, m, 2) == m2
  {
    hide Step;
    assert Steps(c, m, 2) == Steps(c, m1, 1) == Steps(c, m2, 0);
  }

  /** The frame that lists it catches it, in the block of the first clause that does, and frees it. */
  lemma FrameCatches(c: Config, m: Machine, k: nat, i: nat)
    requires Fits(c, m, k) && m.mode == Unwinding(k) && Lists(c.frames[k], m.ex)
    requires i + 1 == Position(c.frames[k].fn.clauses, m.ex.kind, 0)
    ensures var m' := Steps(c, m, 6);
            && |m'.slots| == |m.slots| && (forall j :: k < j < |m.slots| ==> m'.slots[j] == m.slots[j])
            && m' == ReturnTo(c, m.(slots := m'.slots, trace := m.trace + CatchTrace(k, i, m.ex)), k + 1)
  {
    FrameAnswer(c.frames[k], m.ex);
    hide GoodFrame, Step, Steps, Position, Answer, PassTrace, CatchTrace;
    EntersFrame(c, m, k, i + 1);
    var s := Entered(m, i + 1);
    var m1 := m.(slots := m.slots[k := s], trace := m.trace + [Ran(k, Landing)], mode := At(k, Route));
    GoesToCatch(c, m1, k, i);
    var m2 := m1.(trace := m1.trace + [Ran(k, Route), Said(k, SayReceived)], mode := At(k, Catch(i)));
    StepCatch(c, m2, k, i, m.ex.kind);
    var m3 := m2.(slots := m2.slots[k := s.(flag := Caught)], trace := m2.trace + [Ran(k, Catch(i)), Said(k, SayCatch(m.ex.kind))], mode := At(k, Finally));
    TwoSteps(c, m1, m2, m3);
    CaughtEnds(c, m3, k, m.ex);
    StepsAdd(c, m, 2, 2);
    StepsAdd(c, m, 4, 2);
    CatchTraceIs(m.trace, k, i, m.ex);
  }
}
