/**
 WaitForThreads of examples/ParallelJIT/ParallelJIT.cpp: a rendezvous of n workers, which
 call block, and one thread that calls releaseThreads(n), step by step in every order
 that the mutex and the condition variable allow.
 */
module Rendezvous {
  datatype PC =
    | AtLock          // about to lock the mutex
    | Counting        // block: n++
    | Asserting       // block: the assertion, and the test
    | Testing         // releaseThreads: the test
    | SettingWait     // waitFor = num
    | ResettingN      // unblockThreads: n = 0
    | ResettingWait   // unblockThreads: waitFor = 0
    | Broadcasting    // unblockThreads: pthread_cond_broadcast
    | AboutToWait     // pthread_cond_wait, which gives the mutex up
    | Waiting         // until a broadcast
    | Woken           // about to get the mutex back
    | Unlocking
    | Passed

  datatype Option<T> = None | Some(value: T)

  /** The last thread calls releaseThreads(num); those before it call block. `ok` tells that no assertion failed. */
  datatype State = State(n: nat, waitFor: nat, mutex: Option<nat>, pc: seq<PC>, ok: bool)

  function Init(workers: nat): State {
    State(0, 0, None, seq(workers + 1, _ => AtLock), true)
  }

  /** A thread can do its next step: it is not waiting, and the mutex is free if it needs it. */
  predicate Enabled(s: State, t: nat) {
    t < |s.pc| &&
    match s.pc[t]
    case AtLock => s.mutex == None
    case Woken => s.mutex == None
    case Waiting => false
    case Passed => false
    case _ => true
  }

  function Wake(pc: seq<PC>): (r: seq<PC>)
    ensures |r| == |pc| && forall i :: 0 <= i < |pc| ==> r[i] == if pc[i] == Waiting then Woken else pc[i]
  {
    seq(|pc|, i requires 0 <= i < |pc| => if pc[i] == Waiting then Woken else pc[i])
  }

  /** The next step of a thread. */
  function Step(s: State, num: nat, t: nat): State
    requires Enabled(s, t)
  {
    match s.pc[t]
    case AtLock => s.(mutex := Some(t), pc := s.pc[t := if t == |s.pc| - 1 then Testing else Counting])
    case Counting => s.(n := s.n + 1, pc := s.pc[t := Asserting])
    case Asserting =>
      s.(ok := s.ok && (s.waitFor == 0 || s.n <= s.waitFor),
         pc := s.pc[t := if s.waitFor > 0 && s.n == s.waitFor then ResettingN else AboutToWait])
    case Testing => s.(pc := s.pc[t := if s.n >= num then ResettingN else SettingWait])
    case SettingWait => s.(waitFor := num, pc := s.pc[t := AboutToWait])
    case ResettingN => s.(n := 0, pc := s.pc[t := ResettingWait])
    case ResettingWait => s.(waitFor := 0, pc := s.pc[t := Broadcasting])
    case Broadcasting => s.(pc := Wake(s.pc)[t := Unlocking])
    case AboutToWait => s.(mutex := None, pc := s.pc[t := Waiting])
    case Woken => s.(mutex := Some(t), pc := s.pc[t := Unlocking])
    case Unlocking => s.(mutex := None, pc := s.pc[t := Passed])
  }

  /** A schedule picks an enabled thread at every step. */
  predicate Legal(s: State, num: nat, schedule: seq<nat>)
    decreases |schedule|
  {
    schedule == [] || (Enabled(s, schedule[0]) && Legal(Step(s, num, schedule[0]), num, schedule[1..]))
  }

  function After(s: State, num: nat, schedule: seq<nat>): State
    requires Legal(s, num, schedule)
    decreases |schedule|
  {
    if schedule == [] then s else After(Step(s, num, schedule[0]), num, schedule[1..])
  }

  // ---------- The invariant ----------

  predicate Holding(p: PC) { p != AtLock && p != Waiting && p != Woken && p != Passed }

  predicate Resetting(p: PC) { p == ResettingN || p == ResettingWait || p == Broadcasting }

  predicate Arrived(p: PC) { p != AtLock && p != Counting && p != Testing }

  predicate Released(p: PC) { p == Woken || p == Unlocking || p == Passed }

  /** How many of the first k threads have arrived. */
  function Arrivals(pc: seq<PC>, k: nat): nat
    requires k <= |pc|
  {
    if k == 0 then 0 else Arrivals(pc, k - 1) + if Arrived(pc[k - 1]) then 1 else 0
  }

  /** The mutex is held by the one thread, if any, that is inside. */
  predicate MutexRight(s: State) {
    && (s.mutex.Some? ==> s.mutex.value < |s.pc|)
    && forall i :: 0 <= i < |s.pc| ==> (Holding(s.pc[i]) <==> s.mutex == Some(i))
  }

  /** Only workers count, and only the other thread tests. */
  predicate Roles(s: State, num: nat) {
    forall i :: 0 <= i < |s.pc| ==>
      (s.pc[i] in {Counting, Asserting} ==> i != num) && (s.pc[i] in {Testing, SettingWait} ==> i == num)
  }

  /** Before anybody is released: n is the number of workers that have arrived. */
  predicate Gathering(s: State, num: nat)
    requires |s.pc| == num + 1
  {
    && (forall i :: 0 <= i <= num ==> !Resetting(s.pc[i]) && !Released(s.pc[i]))
    && s.n == Arrivals(s.pc, num)
    && s.waitFor == (if s.pc[num] == AboutToWait || s.pc[num] == Waiting then num else 0)
    && (s.pc[num] == SettingWait ==> s.n < num)
    && (s.n == num && s.waitFor == num ==> exists i :: 0 <= i < num && s.pc[i] == Asserting)
  }

  /** One thread resets the counters, and everybody else waits. */
  predicate Releasing(s: State, num: nat, t: nat) {
    && t < |s.pc| && Resetting(s.pc[t])
    && (forall i :: 0 <= i < |s.pc| && i != t ==> s.pc[i] == Waiting)
    && (s.pc[t] != ResettingN ==> s.n == 0)
    && (s.pc[t] == Broadcasting ==> s.waitFor == 0)
  }

  predicate Leaving(s: State) {
    s.n == 0 && s.waitFor == 0 && forall i :: 0 <= i < |s.pc| ==> Released(s.pc[i])
  }

  ghost predicate Inv(s: State, num: nat) {
    && |s.pc| == num + 1 && s.ok && MutexRight(s) && Roles(s, num)
    && (Gathering(s, num) || (exists t :: Releasing(s, num, t)) || Leaving(s))
  }

  lemma {:induction false} ArrivalsBound(pc: seq<PC>, k: nat)
    requires k <= |pc|
    ensures Arrivals(pc, k) <= k
    ensures Arrivals(pc, k) == k ==> forall i :: 0 <= i < k ==> Arrived(pc[i])
  {
    if k > 0 {
      ArrivalsBound(pc, k - 1);
    }
  }

  lemma {:induction false} ArrivalsLess(pc: seq<PC>, k: nat, i: nat)
    requires i < k <= |pc| && !Arrived(pc[i])
    ensures Arrivals(pc, k) < k
  {
    ArrivalsBound(pc, k);
  }

  lemma {:induction false} ArrivalsUpdate(pc: seq<PC>, k: nat, t: nat, p: PC)
    requires k <= |pc| && t < |pc|
    ensures Arrivals(pc[t := p], k) == Arrivals(pc, k) +
              if t < k then (if Arrived(p) then 1 else 0) - (if Arrived(pc[t]) then 1 else 0) else 0
  {
    if k > 0 {
      ArrivalsUpdate(pc, k - 1, t, p);
    }
  }

  lemma {:induction false} NoArrivals(pc: seq<PC>, k: nat)
    requires k <= |pc| && forall i :: 0 <= i < |pc| ==> pc[i] == AtLock
    ensures Arrivals(pc, k) == 0
  {
    if k > 0 {
      NoArrivals(pc, k - 1);
    }
  }

  lemma InitInv(num: nat)
    requires num >= 1
    ensures Inv(Init(num), num)
  {
    NoArrivals(Init(num).pc, num);
  }

  /** When all workers have arrived and one thread is inside, all others wait. */
  lemma OthersWait(s: State, num: nat, t: nat)
    requires |s.pc| == num + 1 && MutexRight(s) && s.mutex == Some(t) && t <= num
    requires Gathering(s, num) && Arrivals(s.pc, num) == num
    requires t == num || s.pc[num] == Waiting
    ensures forall i :: 0 <= i <= num && i != t ==> s.pc[i] == Waiting
  {
    ArrivalsBound(s.pc, num);
    forall i | 0 <= i <= num && i != t ensures s.pc[i] == Waiting {
      if i < num {
        assert Arrived(s.pc[i]);
      }
    }
  }

  lemma MutexKept(s: State, num: nat, t: nat)
    requires |s.pc| == num + 1 && MutexRight(s) && Roles(s, num) && Enabled(s, t)
    ensures MutexRight(Step(s, num, t)) && Roles(Step(s, num, t), num) && |Step(s, num, t).pc| == |s.pc|
  {
    var s' := Step(s, num, t);
    forall i | 0 <= i < |s.pc| ensures Holding(s'.pc[i]) <==> s'.mutex == Some(i) {
      assert Holding(s.pc[i]) <==> s.mutex == Some(i);
      assert Holding(s.pc[t]) <==> s.mutex == Some(t);
    }
  }

  predicate Sound(s: State, num: nat) {
    |s.pc| == num + 1 && s.ok && MutexRight(s) && Roles(s, num) && Gathering(s, num)
  }

  /** A worker counts: it is now the one that asserts. */
  lemma CountingStep(s: State, num: nat, t: nat)
    requires num >= 1 && Sound(s, num) && Enabled(s, t) && s.pc[t] == Counting
    ensures var s' := Step(s, num, t); s'.ok && |s'.pc| == num + 1 && Gathering(s', num)
  {
    ArrivalsUpdate(s.pc, num, t, Asserting);
    ArrivalsLess(s.pc, num, t);
    assert Step(s, num, t).pc[t] == Asserting;
  }

  lemma TestingStep(s: State, num: nat, t: nat)
    requires num >= 1 && Sound(s, num) && Enabled(s, t) && s.pc[t] in {Asserting, Testing}
    ensures var s' := Step(s, num, t); s'.ok && |s'.pc| == num + 1 && (Gathering(s', num) || Releasing(s', num, t))
  {
    var s' := Step(s, num, t);
    ArrivalsBound(s.pc, num);
    ArrivalsUpdate(s.pc, num, t, s'.pc[t]);
    assert Holding(s.pc[t]);
    if s'.pc[t] == ResettingN {
      OthersWait(s, num, t);
    }
  }

  /** Nobody asserts while a thread that does not is inside, or gets in. */
  lemma OneInside(s: State, t: nat)
    requires MutexRight(s) && Enabled(s, t) && s.pc[t] in {AtLock, SettingWait, AboutToWait}
    ensures forall i :: 0 <= i < |s.pc| ==> s.pc[i] != Asserting
  {
    forall i | 0 <= i < |s.pc| ensures s.pc[i] != Asserting {
      assert Holding(s.pc[i]) <==> s.mutex == Some(i);
      assert Holding(s.pc[t]) <==> s.mutex == Some(t);
    }
  }

  lemma OtherStep(s: State, num: nat, t: nat)
    requires num >= 1 && Sound(s, num) && Enabled(s, t) && s.pc[t] in {AtLock, SettingWait, AboutToWait}
    ensures var s' := Step(s, num, t); s'.ok && |s'.pc| == num + 1 && Gathering(s', num)
  {
    var s' := Step(s, num, t);
    ArrivalsUpdate(s.pc, num, t, s'.pc[t]);
    OneInside(s, t);
  }

  lemma GatheringStep(s: State, num: nat, t: nat)
    requires num >= 1 && Sound(s, num) && Enabled(s, t)
    ensures var s' := Step(s, num, t); s'.ok && |s'.pc| == num + 1 && (Gathering(s', num) || Releasing(s', num, t))
  {
    assert !Resetting(s.pc[t]) && !Released(s.pc[t]);
    hide Step, Gathering, Releasing, MutexRight, Roles;
    if s.pc[t] == Counting {
      CountingStep(s, num, t);
    } else if s.pc[t] in {Asserting, Testing} {
      TestingStep(s, num, t);
    } else {
      OtherStep(s, num, t);
    }
  }

  lemma ReleasingStep(s: State, num: nat, r: nat, t: nat)
    requires |s.pc| == num + 1 && Releasing(s, num, r) && Enabled(s, t)
    ensures var s' := Step(s, num, t); s'.ok == s.ok && (Releasing(s', num, r) || Leaving(s'))
  {
    assert t == r;
  }

  lemma LeavingStep(s: State, num: nat, t: nat)
    requires Leaving(s) && Enabled(s, t)
    ensures var s' := Step(s, num, t); s'.ok == s.ok && Leaving(s')
  {
    assert Released(s.pc[t]);
  }

  /** Every step keeps the invariant. */
  lemma StepKeeps(s: State, num: nat, t: nat)
    requires num >= 1 && Inv(s, num) && Enabled(s, t)
    ensures Inv(Step(s, num, t), num)
  {
    MutexKept(s, num, t);
    hide Step, MutexRight, Roles, Gathering, Releasing, Leaving, Enabled;
    if Gathering(s, num) {
      GatheringStep(s, num, t);
    } else if Leaving(s) {
      LeavingStep(s, num, t);
    } else {
      var r :| Releasing(s, num, r);
      ReleasingStep(s, num, r, t);
    }
  }

  lemma {:induction false} RunKeeps(s: State, num: nat, schedule: seq<nat>)
    requires num >= 1 && Inv(s, num) && Legal(s, num, schedule)
    ensures Inv(After(s, num, schedule), num)
    decreases |schedule|
  {
    hide Inv, Enabled, Step;
    if schedule != [] {
      StepKeeps(s, num, schedule[0]);
      RunKeeps(Step(s, num, schedule[0]), num, schedule[1..]);
    }
  }

  // ---------- What follows ----------

  /** In every interleaving, no assertion fails, and nobody gets past before everybody has arrived. */
  lemma NobodyPassesEarly(num: nat, schedule: seq<nat>)
    requires num >= 1 && Legal(Init(num), num, schedule)
    ensures var s := After(Init(num), num, schedule);
            s.ok && |s.pc| == num + 1 &&
            ((exists t :: 0 <= t <= num && Released(s.pc[t])) ==> forall u :: 0 <= u <= num ==> Arrived(s.pc[u]))
  {
    InitInv(num);
    RunKeeps(Init(num), num, schedule);
  }

  lemma GatheringGoesOn(s: State, num: nat)
    requires num >= 1 && Sound(s, num) && s.mutex == None
    ensures exists t :: Enabled(s, t)
  {
    if u :| 0 <= u <= num && s.pc[u] == AtLock {
      assert Enabled(s, u);
    } else {
      forall i | 0 <= i <= num ensures s.pc[i] == Waiting {
        assert !Holding(s.pc[i]);
      }
      AllArrived(s.pc, num);
      assert false;
    }
  }

  /** Some thread can go on, unless all have passed. */
  lemma NoDeadlock(s: State, num: nat)
    requires num >= 1 && Inv(s, num)
    ensures (exists t :: Enabled(s, t)) || forall u :: 0 <= u <= num ==> s.pc[u] == Passed
  {
    if s.mutex.Some? {
      assert Enabled(s, s.mutex.value);
    } else if Leaving(s) {
      if u :| 0 <= u <= num && s.pc[u] != Passed {
        assert Released(s.pc[u]);
        assert Enabled(s, u);
      }
    } else if t :| Releasing(s, num, t) {
      assert Enabled(s, t);
    } else {
      GatheringGoesOn(s, num);
    }
  }

  lemma {:induction false} AllArrived(pc: seq<PC>, k: nat)
    requires k <= |pc| && forall i :: 0 <= i < k ==> Arrived(pc[i])
    ensures Arrivals(pc, k) == k
  {
    if k > 0 {
      AllArrived(pc, k - 1);
    }
  }

  /** How far a thread still has to go. */
  function Left(p: PC): nat {
    match p
    case AtLock => 11
    case Counting => 10
    case Testing => 10
    case Asserting => 9
    case SettingWait => 9
    case AboutToWait => 8
    case ResettingN => 8
    case ResettingWait => 7
    case Broadcasting => 6
    case Waiting => 5
    case Woken => 4
    case Unlocking => 3
    case Passed => 0
  }

  function AllLeft(pc: seq<PC>): nat {
    if pc == [] then 0 else AllLeft(pc[..|pc| - 1]) + Left(pc[|pc| - 1])
  }

  lemma {:induction false} LessLeft(a: seq<PC>, b: seq<PC>, t: nat)
    requires |a| == |b| && (forall i :: 0 <= i < |a| ==> Left(a[i]) <= Left(b[i]))
    ensures AllLeft(a) <= AllLeft(b)
    ensures t < |a| && Left(a[t]) < Left(b[t]) ==> AllLeft(a) < AllLeft(b)
  {
    hide Left;
    if a != [] {
      LessLeft(a[..|a| - 1], b[..|b| - 1], t);
    }
  }

  /** Every step brings the end nearer. */
  lemma StepShortens(s: State, num: nat, t: nat)
    requires Enabled(s, t)
    ensures AllLeft(Step(s, num, t).pc) < AllLeft(s.pc)
  {
    LessLeft(Step(s, num, t).pc, s.pc, t);
  }

  /** No schedule is longer than 11 steps a thread. */
  lemma {:induction false} RunsAreShort(s: State, num: nat, schedule: seq<nat>)
    requires Legal(s, num, schedule)
    ensures |schedule| + AllLeft(After(s, num, schedule).pc) <= AllLeft(s.pc)
    decreases |schedule|
  {
    hide Enabled, Step, AllLeft;
    if schedule != [] {
      StepShortens(s, num, schedule[0]);
      RunsAreShort(Step(s, num, schedule[0]), num, schedule[1..]);
    }
  }

  lemma {:induction false} AllLeftBound(pc: seq<PC>)
    ensures AllLeft(pc) <= 11 * |pc|
  {
    if pc != [] {
      AllLeftBound(pc[..|pc| - 1]);
    }
  }

  /** Whatever the order: a schedule ends, and where it cannot go on, all threads have passed. */
  lemma EverybodyPasses(num: nat, schedule: seq<nat>)
    requires num >= 1 && Legal(Init(num), num, schedule)
    ensures |schedule| <= 11 * (num + 1)
    ensures var s := After(Init(num), num, schedule);
            (forall t :: !Enabled(s, t)) ==> |s.pc| == num + 1 && forall u :: 0 <= u <= num ==> s.pc[u] == Passed
  {
    InitInv(num);
    RunKeeps(Init(num), num, schedule);
    RunsAreShort(Init(num), num, schedule);
    AllLeftBound(Init(num).pc);
    NoDeadlock(After(Init(num), num, schedule), num);
  }

  // ---------- The object that the threads share ----------

  /** The state of WaitForThreads, and what its threads do to it. */
  class WaitForThreads {
    const num: nat
    var n: nat
    var waitFor: nat
    var mutex: Option<nat>
    var pc: seq<PC>
    var ok: bool

    function View(): State
      reads this
    {
      State(n, waitFor, mutex, pc, ok)
    }

    constructor (threads: nat)
      requires threads >= 1
      ensures num == threads && View() == Init(threads) && Inv(View(), threads)
    {
      num := threads;
      n, waitFor, mutex := 0, 0, None;
      pc := seq(threads + 1, _ => AtLock);
      ok := true;
      InitInv(threads);
    }

    method Goto(t: nat, p: PC)
      requires t < |pc|
      modifies `pc
      ensures pc == old(pc)[t := p]
    {
      pc := pc[t := p];
    }

    /** One step of a thread in block. */
    method Block(t: nat)
      requires Enabled(View(), t) && pc[t] in {Counting, Asserting}
      modifies this
      ensures View() == Step(old(View()), num, t)
    {
      if pc[t] == Counting {
        n := n + 1;
        Goto(t, Asserting);
      } else {
        if !(waitFor == 0 || n <= waitFor) {
          ok := false;
        }
        if waitFor > 0 && n == waitFor {
          Goto(t, ResettingN);
        } else {
          Goto(t, AboutToWait);
        }
      }
    }

    /** One step of a thread in releaseThreads. */
    method ReleaseThreads(t: nat)
      requires Enabled(View(), t) && pc[t] in {Testing, SettingWait}
      modifies this
      ensures View() == Step(old(View()), num, t)
    {
      if pc[t] == Testing {
        if n >= num {
          Goto(t, ResettingN);
        } else {
          Goto(t, SettingWait);
        }
      } else {
        waitFor := num;
        Goto(t, AboutToWait);
      }
    }

    /** One step of a thread in unblockThreads. */
    method UnblockThreads(t: nat)
      requires Enabled(View(), t) && Resetting(pc[t])
      modifies this
      ensures View() == Step(old(View()), num, t)
    {
      if pc[t] == ResettingN {
        n := 0;
        Goto(t, ResettingWait);
      } else if pc[t] == ResettingWait {
        waitFor := 0;
        Goto(t, Broadcasting);
      } else {
        pc := Wake(pc);
        Goto(t, Unlocking);
      }
    }

    /** Whatever thread goes on, the invariant is kept. */
    method Run(t: nat)
      requires num >= 1 && Inv(View(), num) && Enabled(View(), t)
      modifies this
      ensures View() == Step(old(View()), num, t) && Inv(View(), num)
    {
      StepKeeps(View(), num, t);
      hide Inv;
      if pc[t] == AtLock {
        mutex := Some(t);
        Goto(t, if t == |pc| - 1 then Testing else Counting);
      } else if pc[t] == Woken {
        mutex := Some(t);
        Goto(t, Unlocking);
      } else if pc[t] == AboutToWait {
        mutex := None;
        Goto(t, Waiting);
      } else if pc[t] == Unlocking {
        mutex := None;
        Goto(t, Passed);
      } else if pc[t] in {Counting, Asserting} {
        Block(t);
      } else if pc[t] in {Testing, SettingWait} {
        ReleaseThreads(t);
      } else {
        UnblockThreads(t);
      }
    }
  }
}
