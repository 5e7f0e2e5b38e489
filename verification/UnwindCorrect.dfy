/**
 Every run of a stack of generated functions, to the end: which frame catches, in which
 block, what runs, and what is freed.
 */
module UnwindCorrect {
  import opened UnwindPersonality
  import opened UnwindCode
  import opened UnwindMachine
  import opened UnwindRuns

  function EntryTrace(n: nat): seq<Event> {
    if n == 0 then [] else [Ran(n - 1, Entry)] + EntryTrace(n - 1)
  }

  function ReturnTrace(k: nat, d: nat): seq<Event>
    decreases d - k
  {
    if k >= d then [] else NormalTrace(k) + ReturnTrace(k + 1, d)
  }

  function ThrowTrace(frames: seq<Frame>, e: Exn, k: nat): seq<Event>
    requires k <= |frames|
    decreases |frames| - k
  {
    if k == |frames| then [HarnessCaught(e)]
    else
      var p := Position(frames[k].fn.clauses, e.kind, 0);
      if Lists(frames[k], e) && p > 0 then CatchTrace(k, p - 1, e) + ReturnTrace(k + 1, |frames|)
      else PassTrace(k, e) + ThrowTrace(frames, e, k + 1)
  }

  // ---------- The run ----------

  predicate CleanFrom(slots: seq<Slots>, k: nat) { forall j :: k <= j < |slots| ==> Clean(slots[j]) }

  lemma {:induction false} Enters(c: Config, m: Machine, k: nat)
    requires Good(c, m.slots) && m.mode == At(k, Entry) && k < |c.frames| && CleanFrom(m.slots, k + 1)
    ensures var m' := Steps(c, m, k + 1);
            && |m'.slots| == |m.slots| && CleanFrom(m'.slots, 0)
            && m' == m.(slots := m'.slots, trace := m.trace + EntryTrace(k + 1), mode := InLeaf)
    decreases k
  {
    hide GoodFrame;
    StepEntry(c, m, k);
    var m1 := Step(c, m);
    assert m1 == m.(slots := m1.slots, trace := m1.trace, mode := m1.mode) by { StepKeeps(c, m, k); }
    hide Step;
    StepsAdd(c, m, 1, k);
    assert Steps(c, m, 1) == m1 by { assert Steps(c, m, 1) == Steps(c, m1, 0); }
    if k > 0 {
      Enters(c, m1, k - 1);
      assert m.trace + [Ran(k, Entry)] + EntryTrace(k) == m.trace + EntryTrace(k + 1);
    } else {
      assert EntryTrace(1) == [Ran(0, Entry)];
    }
  }

  lemma StepKeeps(c: Config, m: Machine, k: nat)
    requires Fits(c, m, k) && m.mode == At(k, Entry)
    ensures Step(c, m).ex == m.ex && Step(c, m).handler == m.handler
  {
    BlockIs(c.frames[k], Entry);
    hide DoAll, GoodFrame;
  }

  lemma NoSteps(c: Config, m: Machine)
    ensures Steps(c, m, 0) == m
  {
  }

  lemma FrameOf(c: Config, slots: seq<Slots>, k: nat)
    requires Good(c, slots) && k < |c.frames|
    ensures GoodFrame(c.frames[k]) && |slots| == |c.frames|
  {
    hide GoodFrame;
  }

  lemma Regroup(a: seq<Event>, b: seq<Event>, c: seq<Event>)
    ensures a + b + c == a + (b + c)
  {
  }

  lemma CleanAt(slots: seq<Slots>, k: nat)
    requires CleanFrom(slots, k)
    ensures CleanFrom(slots, k + 1) && (k < |slots| ==> Clean(slots[k]))
  {
    hide Clean;
  }

  lemma ReturnNext(k: nat, d: nat)
    ensures ReturnTrace(k, d) == if k >= d then [] else NormalTrace(k) + ReturnTrace(k + 1, d)
  {
    hide NormalTrace;
  }

  lemma {:induction false} ReturnsAll(c: Config, m: Machine, k: nat)
    requires Good(c, m.slots) && k <= |c.frames| && CleanFrom(m.slots, k)
    ensures Steps(c, ReturnTo(c, m, k), 3 * (|c.frames| - k)) == m.(trace := m.trace + ReturnTrace(k, |c.frames|), mode := Returned)
    decreases |c.frames| - k
  {
    hide GoodFrame, Step, Steps, CleanFrom, Clean, NormalTrace, ReturnTrace;
    ReturnNext(k, |c.frames|);
    if k == |c.frames| {
      NoSteps(c, ReturnTo(c, m, k));
      assert m.trace + [] == m.trace;
    } else {
      FrameOf(c, m.slots, k);
      BlockIs(c.frames[k], Entry);
      CleanAt(m.slots, k);
      var m0 := ReturnTo(c, m, k);
      FrameReturns(c, m0, k);
      var m1 := m.(trace := m.trace + NormalTrace(k));
      ReturnsAll(c, m1, k + 1);
      assert ReturnTo(c, m0.(trace := m0.trace + NormalTrace(k)), k + 1) == ReturnTo(c, m1, k + 1);
      StepsAdd(c, m0, 3, 3 * (|c.frames| - k - 1));
      Regroup(m.trace, NormalTrace(k), ReturnTrace(k + 1, |c.frames|));
    }
  }

  lemma SearchStep(c: Config, m: Machine, k: nat)
    requires k < |c.frames| && GoodFrame(c.frames[k]) && m.mode == Searching(k)
    ensures Step(c, m) == if Lists(c.frames[k], m.ex) then m.(handler := k, mode := Unwinding(0)) else m.(mode := Searching(k + 1))
  {
    FrameAnswer(c.frames[k], m.ex);
    hide Position, Lists, Answer;
  }

  /** The search phase finds the innermost frame that lists the type. */
  lemma {:induction false} SearchFinds(c: Config, m: Machine, k: nat)
    requires Good(c, m.slots) && k <= |c.frames| && m.mode == Searching(k)
    ensures Steps(c, m, Catcher(c.frames, m.ex, k) - k + 1) == m.(handler := Catcher(c.frames, m.ex, k), mode := Unwinding(0))
    decreases |c.frames| - k
  {
    hide GoodFrame, Lists;
    var r := Catcher(c.frames, m.ex, k);
    assert Steps(c, m, r - k + 1) == Steps(c, Step(c, m), r - k);
    if k == |c.frames| {
      NoSteps(c, Step(c, m));
    } else {
      SearchStep(c, m, k);
      hide Step, Steps;
      if Lists(c.frames[k], m.ex) {
        NoSteps(c, Step(c, m));
      } else {
        SearchFinds(c, Step(c, m), k + 1);
      }
    }
  }

  lemma ThrowCatches(frames: seq<Frame>, e: Exn, k: nat, i: nat)
    requires k < |frames| && Lists(frames[k], e) && i + 1 == Position(frames[k].fn.clauses, e.kind, 0)
    ensures ThrowTrace(frames, e, k) == CatchTrace(k, i, e) + ReturnTrace(k + 1, |frames|)
  {
    hide CatchTrace, ReturnTrace;
  }

  lemma ThrowPasses(frames: seq<Frame>, e: Exn, k: nat)
    requires k < |frames| && !Lists(frames[k], e)
    ensures ThrowTrace(frames, e, k) == PassTrace(k, e) + ThrowTrace(frames, e, k + 1)
  {
    hide PassTrace;
  }

  lemma PositionOf(f: Frame, e: Exn)
    requires GoodFrame(f) && Lists(f, e)
    ensures Position(f.fn.clauses, e.kind, 0) > 0
  {
    FrameAnswer(f, e);
  }

  lemma LaterClean(slots: seq<Slots>, slots': seq<Slots>, k: nat)
    requires CleanFrom(slots, k) && |slots| == |slots'| && forall j :: k < j < |slots| ==> slots'[j] == slots[j]
    ensures CleanFrom(slots', k + 1)
  {
  }

  lemma CaughtAt(c: Config, m: Machine, k: nat) returns (n: nat)
    requires Good(c, m.slots) && k < |c.frames| && m.mode == Unwinding(k) && CleanFrom(m.slots, k)
    requires Lists(c.frames[k], m.ex)
    ensures Steps(c, m, n).mode == Returned && Steps(c, m, n).trace == m.trace + ThrowTrace(c.frames, m.ex, k)
    ensures Steps(c, m, n).handler == m.handler
  {
    hide GoodFrame, Step, Steps, Lists, Position, CleanFrom, ThrowTrace, CatchTrace, ReturnTrace;
    FrameOf(c, m.slots, k);
    PositionOf(c.frames[k], m.ex);
    var i := Position(c.frames[k].fn.clauses, m.ex.kind, 0) - 1;
    FrameCatches(c, m, k, i);
    var m1 := m.(slots := Steps(c, m, 6).slots, trace := m.trace + CatchTrace(k, i, m.ex));
    LaterClean(m.slots, m1.slots, k);
    ReturnsAll(c, m1, k + 1);
    StepsAdd(c, m, 6, 3 * (|c.frames| - k - 1));
    n := 6 + 3 * (|c.frames| - k - 1);
    ThrowCatches(c.frames, m.ex, k, i);
    Regroup(m.trace, CatchTrace(k, i, m.ex), ReturnTrace(k + 1, |c.frames|));
  }

  lemma HarnessTakes(c: Config, m: Machine)
    requires m.mode == Unwinding(|c.frames|) && m.handler == |c.frames|
    ensures Steps(c, m, 1) == m.(trace := m.trace + [HarnessCaught(m.ex)], mode := InHarness)
  {
    assert Steps(c, m, 1) == Steps(c, Step(c, m), 0);
  }

  /** Cleanup goes frame by frame up to the handler that the search found. */
  lemma {:induction false} Unwinds(c: Config, m: Machine, k: nat) returns (n: nat)
    requires Good(c, m.slots) && k <= |c.frames| && m.mode == Unwinding(k) && CleanFrom(m.slots, k)
    requires m.handler == Catcher(c.frames, m.ex, k)
    ensures var m' := Steps(c, m, n);
            && m'.handler == m.handler && m'.trace == m.trace + ThrowTrace(c.frames, m.ex, k)
            && m'.mode == if m.handler == |c.frames| then InHarness else Returned
    decreases |c.frames| - k
  {
    hide GoodFrame, Step, Steps, Lists, Position, CleanFrom, PassTrace;
    if k == |c.frames| {
      n := 1;
      HarnessTakes(c, m);
    } else if Lists(c.frames[k], m.ex) {
      hide ThrowTrace;
      n := CaughtAt(c, m, k);
    } else {
      hide ThrowTrace;
      FrameOf(c, m.slots, k);
      FramePasses(c, m, k);
      var m1 := Steps(c, m, 5);
      LaterClean(m.slots, m1.slots, k);
      var rest := Unwinds(c, m1, k + 1);
      StepsAdd(c, m, 5, rest);
      n := 5 + rest;
      ThrowPasses(c.frames, m.ex, k);
      Regroup(m.trace, PassTrace(k, m.ex), ThrowTrace(c.frames, m.ex, k + 1));
    }
  }

  function LeafTrace(c: Config): seq<Event> {
    match c.leaf
    case Returns => ReturnTrace(0, |c.frames|)
    case Throws(e) => ThrowTrace(c.frames, e, 0)
  }

  /** How a run should end. */
  predicate EndsWell(c: Config, m: Machine) {
    && m.trace == EntryTrace(|c.frames|) + LeafTrace(c)
    && match c.leaf
       case Returns => m.mode == Returned
       case Throws(e) => m.handler == Catcher(c.frames, e, 0) && m.mode == if m.handler == |c.frames| then InHarness else Returned
  }

  lemma FromLeaf(c: Config, m: Machine) returns (n: nat)
    requires Good(c, m.slots) && m.mode == InLeaf && CleanFrom(m.slots, 0)
    requires m.trace == EntryTrace(|c.frames|)
    ensures EndsWell(c, Steps(c, m, n))
  {
    hide Good, CleanFrom, ReturnTrace, ThrowTrace;
    match c.leaf {
      case Returns => {
        ReturnsAll(c, m, 0);
        n := 1 + 3 * |c.frames|;
        assert Step(c, m) == ReturnTo(c, m, 0);
        hide Step;
        assert Steps(c, m, n) == Steps(c, Step(c, m), 3 * |c.frames|);
      }
      case Throws(e) => {
        var m1 := m.(ex := e, mode := Searching(0));
        assert Step(c, m) == m1;
        hide Step;
        SearchFinds(c, m1, 0);
        var r := Catcher(c.frames, e, 0);
        var m2 := m1.(handler := r, mode := Unwinding(0));
        var rest := Unwinds(c, m2, 0);
        n := 1 + (r + 1 + rest);
        assert Steps(c, m, n) == Steps(c, m1, r + 1 + rest);
        StepsAdd(c, m1, r + 1, rest);
      }
    }
  }

  /** Every call of the outermost function ends, as it should. */
  lemma RunEnds(c: Config, slots: seq<Slots>, ex: Exn, handler: nat) returns (n: nat)
    requires Good(c, slots)
    ensures EndsWell(c, Steps(c, Start(c, slots, ex, handler), n))
  {
    hide GoodFrame, Step, ThrowTrace, ReturnTrace, LeafTrace, EndsWell;
    var m := Start(c, slots, ex, handler);
    if c.frames == [] {
      n := FromLeaf(c, m);
    } else {
      Enters(c, m, |c.frames| - 1);
      hide Steps;
      var m1 := Steps(c, m, |c.frames|);
      assert [] + EntryTrace(|c.frames|) == EntryTrace(|c.frames|);
      var rest := FromLeaf(c, m1);
      StepsAdd(c, m, |c.frames|, rest);
      n := |c.frames| + rest;
    }
  }

  // ---------- What the run shows ----------

  function Times(t: seq<Event>, ev: Event): nat { multiset(t)[ev] }

  lemma TimesAdd(a: seq<Event>, b: seq<Event>, ev: Event)
    ensures Times(a + b, ev) == Times(a, ev) + Times(b, ev)
  {
    assert multiset(a + b) == multiset(a) + multiset(b);
  }

  lemma {:induction false} TimesEntry(n: nat, ev: Event)
    requires ev.Ran? ==> ev.l != Entry
    ensures Times(EntryTrace(n), ev) == 0
  {
    if n > 0 {
      TimesEntry(n - 1, ev);
      TimesAdd([Ran(n - 1, Entry)], EntryTrace(n - 1), ev);
    }
  }

  lemma TimesFew(x: Event, y: Event, z: Event, ev: Event)
    ensures Times([x], ev) == if ev == x then 1 else 0
    ensures Times([x, y], ev) == Times([x], ev) + if ev == y then 1 else 0
    ensures Times([x, y, z], ev) == Times([x, y], ev) + if ev == z then 1 else 0
  {
    assert [x, y] == [x] + [y];
    assert [x, y, z] == [x, y] + [z];
    TimesAdd([x], [y], ev);
    TimesAdd([x, y], [z], ev);
  }

  predicate Telling(ev: Event) { ev.Freed? || ev.HarnessCaught? || (ev.Ran? && (ev.l.Catch? || ev.l == Finally)) }

  function Routed(k: nat): seq<Event> { [Ran(k, Landing), Ran(k, Route), Said(k, SayReceived)] }

  function Handling(k: nat, i: nat, e: Exn): seq<Event> { [Ran(k, Catch(i)), Said(k, SayCatch(e.kind)), Ran(k, Finally)] }

  function Ending(k: nat): seq<Event> { [Said(k, SayFinally), Ran(k, End), Said(k, SayEnd)] }

  lemma CatchParts(k: nat, i: nat, e: Exn)
    ensures CatchTrace(k, i, e) == Routed(k) + Handling(k, i, e) + Ending(k) + [Freed(k, e)]
  {
  }

  lemma TimesParts(k: nat, i: nat, e: Exn, ev: Event)
    requires Telling(ev)
    ensures Times(Routed(k), ev) == 0 && Times(Ending(k), ev) == 0
    ensures Times(Handling(k, i, e), ev) == if ev == Ran(k, Catch(i)) || ev == Ran(k, Finally) then 1 else 0
    ensures Times([Freed(k, e)], ev) == if ev == Freed(k, e) then 1 else 0
  {
    hide Times;
    TimesFew(Ran(k, Landing), Ran(k, Route), Said(k, SayReceived), ev);
    TimesFew(Ran(k, Catch(i)), Said(k, SayCatch(e.kind)), Ran(k, Finally), ev);
    TimesFew(Said(k, SayFinally), Ran(k, End), Said(k, SayEnd), ev);
    TimesFew(Freed(k, e), Freed(k, e), Freed(k, e), ev);
  }

  function Starting(k: nat): seq<Event> { [Ran(k, Normal), Said(k, SayNormal), Ran(k, Finally)] }

  function Passing(k: nat, e: Exn): seq<Event> {
    if e.ours then Routed(k) else [Ran(k, Landing), Ran(k, External), Said(k, SayForeign)]
  }

  function Resuming(k: nat): seq<Event> { [Ran(k, Finally), Said(k, SayFinally), Ran(k, Resume)] }

  lemma NormalParts(k: nat, e: Exn)
    ensures NormalTrace(k) == Starting(k) + Ending(k) && PassTrace(k, e) == Passing(k, e) + Resuming(k)
  {
  }

  lemma TimesMore(k: nat, e: Exn, ev: Event)
    requires Telling(ev)
    ensures Times(Starting(k), ev) == (if ev == Ran(k, Finally) then 1 else 0)
    ensures Times(Resuming(k), ev) == (if ev == Ran(k, Finally) then 1 else 0)
    ensures Times(Passing(k, e), ev) == 0
  {
    hide Times;
    TimesFew(Ran(k, Normal), Said(k, SayNormal), Ran(k, Finally), ev);
    TimesFew(Ran(k, Finally), Said(k, SayFinally), Ran(k, Resume), ev);
    TimesFew(Ran(k, Landing), Ran(k, External), Said(k, SayForeign), ev);
    TimesParts(k, 0, e, ev);
  }

  lemma TimesNormal(k: nat, e: Exn, ev: Event)
    requires Telling(ev)
    ensures Times(NormalTrace(k), ev) == (if ev == Ran(k, Finally) then 1 else 0)
    ensures Times(PassTrace(k, e), ev) == (if ev == Ran(k, Finally) then 1 else 0)
  {
    hide Times, NormalTrace, PassTrace, Starting, Ending, Passing, Resuming;
    NormalParts(k, e);
    TimesAdd(Starting(k), Ending(k), ev);
    TimesAdd(Passing(k, e), Resuming(k), ev);
    TimesMore(k, e, ev);
    TimesParts(k, 0, e, ev);
  }

  lemma TimesCatch(k: nat, i: nat, e: Exn, ev: Event)
    requires Telling(ev)
    ensures Times(CatchTrace(k, i, e), ev) == if ev == Freed(k, e) || ev == Ran(k, Catch(i)) || ev == Ran(k, Finally) then 1 else 0
  {
    hide Times, CatchTrace, Routed, Handling, Ending;
    CatchParts(k, i, e);
    TimesAdd(Routed(k) + Handling(k, i, e) + Ending(k), [Freed(k, e)], ev);
    TimesAdd(Routed(k) + Handling(k, i, e), Ending(k), ev);
    TimesAdd(Routed(k), Handling(k, i, e), ev);
    TimesParts(k, i, e, ev);
  }

  lemma {:induction false} TimesReturn(k: nat, d: nat, ev: Event)
    requires Telling(ev)
    ensures Times(ReturnTrace(k, d), ev) == if ev.Ran? && ev.l == Finally && k <= ev.k < d then 1 else 0
    decreases d - k
  {
    hide NormalTrace;
    if k < d {
      TimesReturn(k + 1, d, ev);
      TimesNormal(k, Exn(true, 0), ev);
      hide Times;
      TimesAdd(NormalTrace(k), ReturnTrace(k + 1, d), ev);
    }
  }

  /** The catch block, and what is freed, of an exception that goes out from frame k. */
  predicate IsCatch(frames: seq<Frame>, e: Exn, k: nat, ev: Event)
    requires k <= |frames|
  {
    var r := Catcher(frames, e, k);
    r < |frames| &&
    (ev == Freed(r, e) || (ev.Ran? && ev.k == r && ev.l.Catch? && ev.l.i + 1 == Position(frames[r].fn.clauses, e.kind, 0)))
  }

  /** How often an event is to be seen of an exception that goes out from frame k. */
  function ThrowTimes(frames: seq<Frame>, e: Exn, k: nat, ev: Event): nat
    requires k <= |frames|
  {
    if ev.Ran? && ev.l == Finally then if k <= ev.k < |frames| then 1 else 0
    else if ev.HarnessCaught? then if ev.ex == e && Catcher(frames, e, k) == |frames| then 1 else 0
    else if IsCatch(frames, e, k, ev) then 1 else 0
  }

  lemma {:induction false} TimesThrow(frames: seq<Frame>, e: Exn, k: nat, ev: Event)
    requires k <= |frames| && Telling(ev)
    ensures Times(ThrowTrace(frames, e, k), ev) == ThrowTimes(frames, e, k, ev)
    decreases |frames| - k
  {
    hide PassTrace, CatchTrace, ReturnTrace, Times, Position;
    if k == |frames| {
      TimesFew(HarnessCaught(e), ev, ev, ev);
    } else if Lists(frames[k], e) {
      ListedAt(frames[k].fn.clauses, e.kind);
      var p := Position(frames[k].fn.clauses, e.kind, 0);
      TimesCatch(k, p - 1, e, ev);
      TimesReturn(k + 1, |frames|, ev);
      TimesAdd(CatchTrace(k, p - 1, e), ReturnTrace(k + 1, |frames|), ev);
    } else {
      hide Lists, ThrowTrace;
      ThrowPasses(frames, e, k);
      TimesNormal(k, e, ev);
      TimesThrow(frames, e, k + 1, ev);
      TimesAdd(PassTrace(k, e), ThrowTrace(frames, e, k + 1), ev);
    }
  }

  lemma ListedAt(types: seq<int>, kind: int)
    requires kind in types
    ensures Position(types, kind, 0) > 0
  {
    PositionIsFirst(types, kind, 0);
    assert types[0..] == types;
  }

  /** The number of times each kind of event is to be seen in a run. */
  function Expected(c: Config, ev: Event): nat {
    if c.leaf.Throws? then ThrowTimes(c.frames, c.leaf.ex, 0, ev)
    else if ev.Ran? && ev.l == Finally && ev.k < |c.frames| then 1 else 0
  }

  lemma TimesRun(c: Config, ev: Event)
    requires Telling(ev)
    ensures Times(EntryTrace(|c.frames|) + LeafTrace(c), ev) == Expected(c, ev)
  {
    hide Times, EntryTrace, ReturnTrace, ThrowTrace, IsCatch;
    TimesAdd(EntryTrace(|c.frames|), LeafTrace(c), ev);
    TimesEntry(|c.frames|, ev);
    if c.leaf.Returns? {
      TimesReturn(0, |c.frames|, ev);
    } else {
      TimesThrow(c.frames, c.leaf.ex, 0, ev);
    }
  }

  /**
   However a run ends, every frame has run its finally block exactly once; an exception that some
   frame lists was caught once, by the innermost one that does, which is the handler the search
   found, in the block of its first clause that lists it, and was freed there and only there; any
   other exception reached the harness, caught and freed by no frame.
   */
  lemma Handled(c: Config, slots: seq<Slots>, ex: Exn, handler: nat, n: nat, ev: Event)
    requires Good(c, slots) && Halted(Steps(c, Start(c, slots, ex, handler), n))
    requires Telling(ev)
    ensures var m := Steps(c, Start(c, slots, ex, handler), n);
            EndsWell(c, m) && Times(m.trace, ev) == Expected(c, ev)
  {
    var k := RunEnds(c, slots, ex, handler);
    hide Steps, Start, LeafTrace, EntryTrace, Good;
    HaltsOnce(c, Start(c, slots, ex, handler), n, k);
    TimesRun(c, ev);
  }
}
