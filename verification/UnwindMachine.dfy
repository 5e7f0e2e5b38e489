/**
 A stack of generated functions around a function that may throw, inside a harness that
 catches everything, as a machine: blocks run, the unwinder searches for a handler, and
 then cleans up frame by frame from the innermost on.
 */
module UnwindMachine {
  import opened UnwindPersonality
  import opened UnwindCode

  datatype Option<T> = None | Some(value: T)

  /** The storage of a frame, and what its landing pad was last entered with. */
  datatype Slots = Slots(flag: Flag, stored: Option<Exn>, result: Option<(Exn, nat)>, landed: (Exn, nat))

  /** A generated function, its unwind tables, the address of its invoke and that of its landing pad. */
  datatype Frame = Frame(fn: Function, lsda: Lsda, pc: nat, pad: nat)

  datatype Leaf = Returns | Throws(ex: Exn)

  /** Frame 0 is the innermost. */
  datatype Config = Config(frames: seq<Frame>, leaf: Leaf)

  datatype Event = Ran(k: nat, l: Label) | Said(k: nat, what: Inst) | Freed(k: nat, ex: Exn) | HarnessCaught(ex: Exn)

  datatype Mode =
    | At(k: nat, l: Label)
    | InLeaf
    | Searching(k: nat)
    | Unwinding(k: nat)
    | Returned
    | InHarness
    | Stuck

  datatype Machine = Machine(slots: seq<Slots>, ex: Exn, handler: nat, trace: seq<Event>, mode: Mode)

  predicate Halted(m: Machine) { m.mode.Returned? || m.mode.InHarness? || m.mode.Stuck? }

  /** One instruction of a block: what becomes of the storage, and what can be seen of it. */
  function Do(i: Inst, k: nat, s: Slots): (Slots, seq<Event>) {
    match i
    case SetFlag(f) => (s.(flag := f), [])
    case ClearStored => (s.(stored := None), [])
    case ClearResult => (s.(result := None), [])
    case StoreResult => (s.(result := Some(s.landed)), [])
    case StoreException => (s.(stored := Some(s.landed.0)), [])
    // deleteOurException
    case DeleteStored => (s, if s.stored.Some? && s.stored.value.ours then [Freed(k, s.stored.value)] else [])
    case _ => (s, [Said(k, i)])
  }

  function DoAll(insts: seq<Inst>, k: nat, s: Slots): (Slots, seq<Event>) {
    if insts == [] then (s, [])
    else
      var (s', seen) := Do(insts[0], k, s);
      var (s'', more) := DoAll(insts[1..], k, s');
      (s'', seen + more)
  }

  function Choose<K(==)>(cases: seq<(K, Label)>, key: K, otherwise: Label): Label {
    if cases == [] then otherwise else if cases[0].0 == key then cases[0].1 else Choose(cases[1..], key, otherwise)
  }

  /** Where control goes when what a frame invoked returns, and when it throws. */
  function InvokeOf(f: Frame): Term {
    if Entry in f.fn.blocks && f.fn.blocks[Entry].term.Invoke? then f.fn.blocks[Entry].term else Invoke(Entry, Entry)
  }

  function ReturnTo(c: Config, m: Machine, k: nat): Machine {
    m.(mode := if k < |c.frames| then At(k, InvokeOf(c.frames[k]).normal) else Returned)
  }

  function Branch(c: Config, m: Machine, k: nat, t: Term): Machine
    requires k < |m.slots|
  {
    match t
    case Open => m.(mode := Stuck)
    case Invoke(_, _) => m.(mode := if k == 0 then InLeaf else At(k - 1, Entry))
    case Br(l) => m.(mode := At(k, l))
    case IfOurs(yes, no) => m.(mode := At(k, if m.slots[k].landed.0.ours then yes else no))
    case SwitchSelector(cases, otherwise) => m.(mode := At(k, Choose(cases, m.slots[k].landed.1, otherwise)))
    case SwitchFlag(cases, otherwise) => m.(mode := At(k, Choose(cases, m.slots[k].flag, otherwise)))
    case RetVoid => ReturnTo(c, m, k + 1)
    case ResumeStored =>
      if m.slots[k].result.Some? then m.(ex := m.slots[k].result.value.0, mode := Unwinding(k + 1)) else m.(mode := Stuck)
  }

  function RunBlock(c: Config, m: Machine, k: nat, l: Label): Machine {
    if k < |c.frames| && k < |m.slots| && l in c.frames[k].fn.blocks then
      var b := c.frames[k].fn.blocks[l];
      var (s, seen) := DoAll(b.insts, k, m.slots[k]);
      Branch(c, m.(slots := m.slots[k := s], trace := m.trace + [Ran(k, l)] + seen), k, b.term)
    else m.(mode := Stuck)
  }

  /** The unwinder asks about frame k in the search phase; the harness takes everything. */
  function Search(c: Config, m: Machine, k: nat): Machine {
    if k >= |c.frames| then m.(handler := |c.frames|, mode := Unwinding(0))
    else if !WellFormed(c.frames[k].lsda) then m.(mode := Stuck)
    else match Answer(c.frames[k].lsda, true, m.ex, c.frames[k].pc)
      case HandlerFound => m.(handler := k, mode := Unwinding(0))
      case ContinueUnwind => m.(mode := Searching(k + 1))
      case InstallContext(_, _) => m.(mode := Stuck)
  }

  /** The unwinder asks about frame k in the cleanup phase; it gives up if the handler does not take the exception. */
  function Unwind(c: Config, m: Machine, k: nat): Machine {
    if k >= |c.frames| then
      if m.handler == |c.frames| then m.(trace := m.trace + [HarnessCaught(m.ex)], mode := InHarness) else m.(mode := Stuck)
    else if !WellFormed(c.frames[k].lsda) || k >= |m.slots| then m.(mode := Stuck)
    else match Answer(c.frames[k].lsda, false, m.ex, c.frames[k].pc)
      case HandlerFound => m.(mode := Stuck)
      case ContinueUnwind => m.(mode := if k == m.handler then Stuck else Unwinding(k + 1))
      case InstallContext(pad, selector) =>
        if pad == c.frames[k].pad
        then m.(slots := m.slots[k := m.slots[k].(landed := (m.ex, selector))], mode := At(k, InvokeOf(c.frames[k]).unwind))
        else m.(mode := Stuck)
  }

  function Step(c: Config, m: Machine): Machine {
    match m.mode
    case At(k, l) => RunBlock(c, m, k, l)
    case InLeaf => if c.leaf.Returns? then ReturnTo(c, m, 0) else m.(ex := c.leaf.ex, mode := Searching(0))
    case Searching(k) => Search(c, m, k)
    case Unwinding(k) => Unwind(c, m, k)
    case _ => m
  }

  function Steps(c: Config, m: Machine, n: nat): Machine
    decreases n
  {
    if n == 0 then m else Steps(c, Step(c, m), n - 1)
  }

  /** The call of the outermost function; what is in its storage does not matter. */
  function Start(c: Config, slots: seq<Slots>, ex: Exn, handler: nat): Machine {
    Machine(slots, ex, handler, [], if c.frames == [] then InLeaf else At(|c.frames| - 1, Entry))
  }

  lemma {:induction false} StepsAdd(c: Config, m: Machine, a: nat, b: nat)
    ensures Steps(c, m, a + b) == Steps(c, Steps(c, m, a), b)
    decreases a
  {
    hide Step;
    if a > 0 {
      StepsAdd(c, Step(c, m), a - 1, b);
    }
  }

  lemma {:induction false} HaltedStays(c: Config, m: Machine, n: nat)
    requires Halted(m)
    ensures Steps(c, m, n) == m
    decreases n
  {
    if n > 0 {
      HaltedStays(c, m, n - 1);
    }
  }

  /** A run halts in one way only. */
  lemma HaltsOnce(c: Config, m: Machine, a: nat, b: nat)
    requires Halted(Steps(c, m, a)) && Halted(Steps(c, m, b))
    ensures Steps(c, m, a) == Steps(c, m, b)
  {
    hide Steps;
    if a <= b {
      StepsAdd(c, m, a, b - a);
      HaltedStays(c, Steps(c, m, a), b - a);
    } else {
      StepsAdd(c, m, b, a - b);
      HaltedStays(c, Steps(c, m, b), a - b);
    }
  }

  // ---------- Frames whose tables describe their functions ----------

  /** A chain holds the clauses of a landing pad in order, and then nothing but cleanups. */
  predicate Chain(classInfo: seq<int>, actions: seq<nat>, clauses: seq<int>)
    requires InTable(classInfo, actions)
  {
    && |clauses| <= |actions|
    && (forall j :: 0 <= j < |clauses| ==> Names(classInfo, actions, j, clauses[j]))
    && (forall j :: |clauses| <= j < |actions| ==> actions[j] == 0)
  }

  /** A landing pad that catches nothing and does not clean up is not in the tables. */
  predicate Describes(f: Frame) {
    && f.lsda.Lsda? && WellFormed(f.lsda)
    && (f.fn.clauses != [] || f.fn.cleanup ==>
          var s := SiteFor(f.lsda.callSites, f.pc);
          s < |f.lsda.callSites| && f.lsda.callSites[s].landingPad == f.pad &&
          Chain(f.lsda.classInfo, f.lsda.callSites[s].actions, f.fn.clauses))
  }

  predicate GoodFrame(f: Frame) { f.fn == Wrapped(f.fn.clauses) && Describes(f) }

  predicate Good(c: Config, slots: seq<Slots>) {
    |slots| == |c.frames| && forall k :: 0 <= k < |c.frames| ==> GoodFrame(c.frames[k])
  }

  predicate Lists(f: Frame, e: Exn) { e.ours && e.kind in f.fn.clauses }

  /** One more than the position of a type in a list of types, from i on; 0 if it is not there. */
  function Position(types: seq<int>, kind: int, i: nat): nat
    decreases |types| - i
  {
    if i >= |types| then 0 else if types[i] == kind then i + 1 else Position(types, kind, i + 1)
  }

  lemma {:induction false} PositionIsFirst(types: seq<int>, kind: int, i: nat)
    ensures var p := Position(types, kind, i);
            if p == 0 then kind !in types[if i <= |types| then i else |types|..]
            else i < p <= |types| && types[p - 1] == kind && kind !in types[i..p - 1]
    decreases |types| - i
  {
    if i < |types| {
      PositionIsFirst(types, kind, i + 1);
      assert types[i..] == [types[i]] + types[i + 1..];
      var p := Position(types, kind, i);
      if types[i] != kind && p > 0 {
        assert types[i..p - 1] == [types[i]] + types[i + 1..p - 1];
      }
    }
  }

  lemma {:induction false} ChainPosition(classInfo: seq<int>, actions: seq<nat>, clauses: seq<int>, kind: int, i: nat)
    requires InTable(classInfo, actions) && Chain(classInfo, actions, clauses)
    ensures Matching(classInfo, actions, kind, i) == Position(clauses, kind, i)
    decreases |actions| - i
  {
    if i < |actions| {
      ChainPosition(classInfo, actions, clauses, kind, i + 1);
    }
  }

  /** What the personality routine says of a generated frame: the position of the first clause that lists the type. */
  lemma FrameAnswer(f: Frame, e: Exn)
    requires GoodFrame(f)
    ensures var p := if e.ours then Position(f.fn.clauses, e.kind, 0) else 0;
            && p <= |f.fn.clauses| && (p > 0 <==> Lists(f, e)) && (p > 0 ==> f.fn.clauses[p - 1] == e.kind)
            && Answer(f.lsda, false, e, f.pc) == InstallContext(f.pad, p)
            && Answer(f.lsda, true, e, f.pc) == if p > 0 then HandlerFound else ContinueUnwind
  {
    var s := SiteFor(f.lsda.callSites, f.pc);
    ChainPosition(f.lsda.classInfo, f.lsda.callSites[s].actions, f.fn.clauses, e.kind, 0);
    PositionIsFirst(f.fn.clauses, e.kind, 0);
    assert f.fn.clauses[0..] == f.fn.clauses;
  }

  /** The innermost frame that lists an exception, from k on; the harness if there is none. */
  function Catcher(frames: seq<Frame>, e: Exn, k: nat): (r: nat)
    requires k <= |frames|
    ensures k <= r <= |frames|
    ensures r < |frames| ==> Lists(frames[r], e)
    ensures forall j :: k <= j < r ==> !Lists(frames[j], e)
    decreases |frames| - k
  {
    if k == |frames| || Lists(frames[k], e) then k else Catcher(frames, e, k + 1)
  }
}
