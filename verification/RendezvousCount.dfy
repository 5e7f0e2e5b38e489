/**
 What becomes of a rendezvous if releaseThreads is called with a number other than that of
 the workers: some threads may wait for ever.
 */
module RendezvousCount {
  import opened Rendezvous

  ghost predicate Stuck(s: State) { forall t :: !Enabled(s, t) }

  predicate AllPassed(s: State) { forall u :: 0 <= u < |s.pc| ==> s.pc[u] == Passed }

  lemma {:induction false} Append(s: State, num: nat, a: seq<nat>, b: seq<nat>)
    requires Legal(s, num, a) && Legal(After(s, num, a), num, b)
    ensures Legal(s, num, a + b) && After(s, num, a + b) == After(After(s, num, a), num, b)
    decreases |a|
  {
    hide Enabled, Step;
    if a == [] {
      assert a + b == b;
    } else {
      assert (a + b)[1..] == a[1..] + b;
      Append(Step(s, num, a[0]), num, a[1..], b);
    }
  }

  lemma OneStep(s: State, num: nat, t: nat)
    requires Enabled(s, t)
    ensures Legal(s, num, [t]) && After(s, num, [t]) == Step(s, num, t)
  {
    hide Enabled, Step;
    assert [t][1..] == [];
  }

  /** Any schedule can be continued until nothing can go on. */
  lemma {:induction false} Maximal(s: State, num: nat) returns (schedule: seq<nat>)
    ensures Legal(s, num, schedule) && Stuck(After(s, num, schedule))
    decreases AllLeft(s.pc)
  {
    hide Enabled, Step, AllLeft;
    if t: nat :| Enabled(s, t) {
      StepShortens(s, num, t);
      var rest := Maximal(Step(s, num, t), num);
      OneStep(s, num, t);
      Append(s, num, [t], rest);
      schedule := [t] + rest;
    } else {
      schedule := [];
    }
  }

  // ---------- Too many to wait for ----------

  /** Nobody is released, and only workers count. */
  predicate Quiet(s: State, workers: nat) {
    && |s.pc| == workers + 1
    && (forall i :: 0 <= i <= workers ==> !Resetting(s.pc[i]) && !Released(s.pc[i]))
    && (forall i :: 0 <= i <= workers ==>
          (s.pc[i] in {Counting, Asserting} ==> i != workers) && (s.pc[i] in {Testing, SettingWait} ==> i == workers))
  }

  /** Fewer workers than are waited for. */
  predicate Short(s: State, workers: nat, num: nat) {
    Quiet(s, workers) && s.n == Arrivals(s.pc, workers) && (s.waitFor == 0 || s.waitFor == num)
  }

  lemma QuietStep(s: State, workers: nat, num: nat, t: nat)
    requires Quiet(s, workers) && Enabled(s, t) && s.n < num && (s.waitFor == 0 || s.waitFor == num)
    ensures Quiet(Step(s, num, t), workers)
  {
    assert !Resetting(s.pc[t]) && !Released(s.pc[t]);
  }

  lemma CountStep(s: State, workers: nat, num: nat, t: nat)
    requires Quiet(s, workers) && Enabled(s, t) && s.n == Arrivals(s.pc, workers) && s.n < num
    requires s.waitFor == 0 || s.waitFor == num
    ensures var s' := Step(s, num, t); |s'.pc| == workers + 1 && s'.n == Arrivals(s'.pc, workers) && (s'.waitFor == 0 || s'.waitFor == num)
  {
    assert !Resetting(s.pc[t]) && !Released(s.pc[t]);
    ArrivalsUpdate(s.pc, workers, t, Step(s, num, t).pc[t]);
    hide Arrivals;
  }

  lemma ShortStep(s: State, workers: nat, num: nat, t: nat)
    requires workers < num && Short(s, workers, num) && Enabled(s, t)
    ensures Short(Step(s, num, t), workers, num)
  {
    ArrivalsBound(s.pc, workers);
    QuietStep(s, workers, num, t);
    CountStep(s, workers, num, t);
    hide Quiet, Step, Enabled, Arrivals;
  }

  lemma {:induction false} ShortRun(s: State, workers: nat, num: nat, schedule: seq<nat>)
    requires workers < num && Short(s, workers, num) && Legal(s, num, schedule)
    ensures Short(After(s, num, schedule), workers, num)
    decreases |schedule|
  {
    hide Short, Enabled, Step;
    if schedule != [] {
      ShortStep(s, workers, num, schedule[0]);
      ShortRun(Step(s, num, schedule[0]), workers, num, schedule[1..]);
    }
  }

  /** With fewer workers than are waited for, nobody ever passes. */
  lemma NobodyPasses(workers: nat, num: nat, schedule: seq<nat>)
    requires workers < num && Legal(Init(workers), num, schedule)
    ensures var s := After(Init(workers), num, schedule); |s.pc| == workers + 1 && forall u :: 0 <= u <= workers ==> !Released(s.pc[u])
  {
    NoArrivals(Init(workers).pc, workers);
    ShortRun(Init(workers), workers, num, schedule);
  }

  // ---------- Too few ----------

  /** The releasing thread is through, and some worker is not: no one is left to release it. */
  predicate Late(s: State, workers: nat) {
    && |s.pc| == workers + 1 && s.waitFor == 0 && Released(s.pc[workers])
    && (forall i :: 0 <= i < workers ==> !Resetting(s.pc[i]) && s.pc[i] != Testing && s.pc[i] != SettingWait)
    && exists u :: 0 <= u < workers && !Released(s.pc[u])
  }

  lemma LateStep(s: State, workers: nat, num: nat, t: nat)
    requires Late(s, workers) && Enabled(s, t)
    ensures Late(Step(s, num, t), workers)
  {
    var u :| 0 <= u < workers && !Released(s.pc[u]);
    assert !Released(Step(s, num, t).pc[u]);
  }

  lemma {:induction false} LateRun(s: State, workers: nat, num: nat, schedule: seq<nat>)
    requires Late(s, workers) && Legal(s, num, schedule)
    ensures Late(After(s, num, schedule), workers)
    decreases |schedule|
  {
    hide Late, Enabled, Step;
    if schedule != [] {
      LateStep(s, workers, num, schedule[0]);
      LateRun(Step(s, num, schedule[0]), workers, num, schedule[1..]);
    }
  }

  /** The first k workers wait, and nobody else has come. */
  function Queue(workers: nat, k: nat): State
    requires k <= workers
  {
    State(k, 0, None, seq(workers + 1, i => if i < k then Waiting else AtLock), true)
  }

  lemma TwoMore(s: State, num: nat, t: nat, s1: State, s2: State)
    requires Enabled(s, t) && Step(s, num, t) == s1 && Enabled(s1, t) && Step(s1, num, t) == s2
    ensures Legal(s, num, [t, t]) && After(s, num, [t, t]) == s2
  {
    OneStep(s, num, t);
    OneStep(s1, num, t);
    hide Enabled, Step;
    Append(s, num, [t], [t]);
    assert [t] + [t] == [t, t];
  }

  /** One more worker comes, and waits. */
  lemma OneQueues(workers: nat, num: nat, k: nat)
    requires k < workers
    ensures Legal(Queue(workers, k), num, [k, k, k, k]) && After(Queue(workers, k), num, [k, k, k, k]) == Queue(workers, k + 1)
  {
    var s := Queue(workers, k);
    var s1 := Step(s, num, k);
    var s2 := Step(s1, num, k);
    var s3 := Step(s2, num, k);
    var s4 := Step(s3, num, k);
    assert s4.pc == Queue(workers, k + 1).pc;
    TwoMore(s, num, k, s1, s2);
    TwoMore(s2, num, k, s3, s4);
    hide Enabled, Step;
    Append(s, num, [k, k], [k, k]);
    assert [k, k] + [k, k] == [k, k, k, k];
  }

  lemma {:induction false} Queued(workers: nat, num: nat, k: nat) returns (schedule: seq<nat>)
    requires k <= workers
    ensures Legal(Init(workers), num, schedule) && After(Init(workers), num, schedule) == Queue(workers, k)
    decreases k
  {
    if k == 0 {
      schedule := [];
      assert Init(workers).pc == Queue(workers, 0).pc;
    } else {
      hide Enabled, Step;
      var before := Queued(workers, num, k - 1);
      OneQueues(workers, num, k - 1);
      Append(Init(workers), num, before, [k - 1, k - 1, k - 1, k - 1]);
      schedule := before + [k - 1, k - 1, k - 1, k - 1];
    }
  }

  /** The releasing thread comes when enough workers wait, and releases those. */
  lemma ReleasesQueue(workers: nat, num: nat) returns (schedule: seq<nat>)
    requires num < workers
    ensures Legal(Queue(workers, num), num, schedule) && Late(After(Queue(workers, num), num, schedule), workers)
  {
    var t := workers;
    var s := Queue(workers, num);
    var s1 := Step(s, num, t);
    var s2 := Step(s1, num, t);
    var s3 := Step(s2, num, t);
    var s4 := Step(s3, num, t);
    assert s4.pc[t] == Broadcasting && s4.waitFor == 0;
    var s5 := Step(s4, num, t);
    assert s5.pc[num] == AtLock && s5.pc[t] == Unlocking;
    assert Late(s5, workers);
    TwoMore(s, num, t, s1, s2);
    TwoMore(s2, num, t, s3, s4);
    OneStep(s4, num, t);
    hide Enabled, Step, Late;
    Append(s, num, [t, t], [t, t]);
    Append(s, num, [t, t] + [t, t], [t]);
    schedule := [t, t] + [t, t] + [t];
  }

  /** With more workers than are waited for, some order leaves a worker waiting for ever. */
  lemma SomebodyStays(workers: nat, num: nat) returns (schedule: seq<nat>)
    requires num < workers
    ensures Legal(Init(workers), num, schedule)
    ensures var s := After(Init(workers), num, schedule); Stuck(s) && !AllPassed(s)
  {
    hide Enabled, Step, Late;
    var a := Queued(workers, num, num);
    var b := ReleasesQueue(workers, num);
    var s := After(Queue(workers, num), num, b);
    var c := Maximal(s, num);
    LateRun(s, workers, num, c);
    Append(Init(workers), num, a, b);
    Append(Init(workers), num, a + b, c);
    schedule := a + b + c;
    LateNotPassed(After(s, num, c), workers);
  }

  lemma LateNotPassed(s: State, workers: nat)
    requires Late(s, workers)
    ensures !AllPassed(s)
  {
    var u :| 0 <= u < workers && !Released(s.pc[u]);
    assert s.pc[u] != Passed;
  }

  /** Wherever a schedule cannot go on, all threads have passed: in every order, if and only if the number is right. */
  lemma EverybodyPassesIff(workers: nat, num: nat)
    requires workers >= 1
    ensures (forall schedule :: Legal(Init(workers), num, schedule) && Stuck(After(Init(workers), num, schedule)) ==>
                                AllPassed(After(Init(workers), num, schedule)))
            <==> num == workers
  {
    hide Enabled, Step, Legal, After;
    if num == workers {
      forall schedule | Legal(Init(workers), num, schedule) && Stuck(After(Init(workers), num, schedule))
        ensures AllPassed(After(Init(workers), num, schedule))
      {
        EverybodyPasses(num, schedule);
      }
    } else if num < workers {
      var schedule := SomebodyStays(workers, num);
    } else {
      var schedule := Maximal(Init(workers), num);
      NobodyPasses(workers, num, schedule);
      assert !Released(After(Init(workers), num, schedule).pc[0]);
    }
  }
}
