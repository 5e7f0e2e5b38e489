/**
 The part of LLVM IR that examples/BrainF emits: basic blocks of instructions in
 SSA form, each ended by a terminator, and a machine that runs them.
 */
module BrainFIR {
  import opened BrainFLang

  type Reg = nat

  type Label = nat

  datatype Inst =
    | Malloc(dst: Reg, size: int)
    | Memset(ptr: Reg, size: int)
    | Gep(dst: Reg, ptr: Reg, k: int)
    | GetChar(dst: Reg)
    | PutChar(src: Reg)
    | Trunc(dst: Reg, src: Reg)
    | SExt(dst: Reg, src: Reg)
    | Load(dst: Reg, ptr: Reg)
    | Store(src: Reg, ptr: Reg)
    | Add(dst: Reg, src: Reg, k: int)
    | IsZero(dst: Reg, src: Reg)
    | Uge(dst: Reg, a: Reg, b: Reg)
    | Ult(dst: Reg, a: Reg, b: Reg)
    | Or(dst: Reg, a: Reg, b: Reg)
    | Puts
    | Free(ptr: Reg)

  /** A block starts with at most one phi node: a value for each block that may branch here. */
  datatype Phi = NoPhi | Phi(dst: Reg, incoming: seq<(Reg, Label)>)

  /** Unfinished is a block without a terminator, which only a block under construction may be. */
  datatype Term = Unfinished | Br(target: Label) | CondBr(cond: Reg, yes: Label, no: Label) | Ret

  datatype Block = Block(phi: Phi, insts: seq<Inst>, term: Term)

  // ---------- Running ----------

  datatype Status = Running | Halted | Stuck

  /** Memory from malloc holds whatever it held before; size is what was asked for, freed the addresses given back. */
  datatype Heap = Heap(junk: map<int, Byte>, size: int, freed: seq<int>)

  /**
   Addresses are relative to the start of the malloc'ed tape. wild is set by an access to anything
   else than memory that is allocated, and erred by printing the error message.
   */
  datatype Machine = Machine(status: Status, at: Label, idx: nat, regs: map<Reg, int>, io: Io,
                             heap: Heap, wild: bool, erred: bool)

  predicate Owned(h: Heap, a: int) { 0 <= a < h.size && h.freed == [] }

  function Val(regs: map<Reg, int>, r: Reg): int {
    if r in regs then regs[r] else 0
  }

  function Uses(i: Inst): set<Reg> {
    match i
    case Memset(p, _) => {p}
    case Gep(_, p, _) => {p}
    case PutChar(s) => {s}
    case Trunc(_, s) => {s}
    case SExt(_, s) => {s}
    case Load(_, p) => {p}
    case Store(s, p) => {s, p}
    case Add(_, s, _) => {s}
    case IsZero(_, s) => {s}
    case Uge(_, a, b) => {a, b}
    case Ult(_, a, b) => {a, b}
    case Or(_, a, b) => {a, b}
    case Free(p) => {p}
    case _ => {}
  }

  function Set(m: Machine, r: Reg, v: int): Machine {
    m.(regs := m.regs[r := v])
  }

  function Touch(m: Machine, a: int): Machine { m.(wild := m.wild || !Owned(m.heap, a)) }

  function Flag(b: bool): int { if b then 1 else 0 }

  function Exec(i: Inst, m: Machine): Machine {
    match i
    case Malloc(d, n) =>
      Set(m, d, 0).(io := m.io.(tape := map a | a in m.heap.junk && 0 <= a < n :: m.heap.junk[a]), heap := m.heap.(size := n))
    case Memset(p, n) =>
      var base := Val(m.regs, p);
      m.(io := m.io.(tape := map a | a in m.io.tape && !(base <= a < base + n) :: m.io.tape[a]),
         wild := m.wild || (n > 0 && !(Owned(m.heap, base) && Owned(m.heap, base + n - 1))))
    case Gep(d, p, k) => Set(m, d, Val(m.regs, p) + k)
    case GetChar(d) => Set(m, d, NextChar(m.io)).(io := DropChar(m.io))
    case PutChar(s) => m.(io := m.io.(output := m.io.output + [Val(m.regs, s) % 256]))
    case Trunc(d, s) => Set(m, d, Val(m.regs, s) % 256)
    case SExt(d, s) => Set(m, d, if Val(m.regs, s) < 128 then Val(m.regs, s) else Val(m.regs, s) - 256)
    case Load(d, p) => Touch(Set(m, d, Cell(m.io, Val(m.regs, p))), Val(m.regs, p))
    case Store(s, p) =>
      Touch(m.(io := m.io.(tape := m.io.tape[Val(m.regs, p) := Val(m.regs, s) % 256])), Val(m.regs, p))
    case Add(d, s, k) => Set(m, d, (Val(m.regs, s) + k) % 256)
    case IsZero(d, s) => Set(m, d, Flag(Val(m.regs, s) == 0))
    case Uge(d, a, b) => Set(m, d, Flag(Val(m.regs, a) >= Val(m.regs, b)))
    case Ult(d, a, b) => Set(m, d, Flag(Val(m.regs, a) < Val(m.regs, b)))
    case Or(d, a, b) => Set(m, d, Flag(Val(m.regs, a) != 0 || Val(m.regs, b) != 0))
    case Puts => m.(erred := true)
    case Free(p) => m.(heap := m.heap.(freed := m.heap.freed + [Val(m.regs, p)]))
  }

  function Crash(m: Machine): Machine { m.(status := Stuck) }

  /** The first entry of a phi for a predecessor; -1 if there is none. */
  function Entry(incoming: seq<(Reg, Label)>, from: Label): int {
    if incoming == [] then -1
    else if incoming[0].1 == from then incoming[0].0
    else Entry(incoming[1..], from)
  }

  /** Branch from the current block to another, running its phi. */
  function Enter(blocks: seq<Block>, to: Label, m: Machine): Machine {
    if to >= |blocks| then Crash(m)
    else match blocks[to].phi
      case NoPhi => m.(at := to, idx := 0)
      case Phi(d, incoming) =>
        var r := Entry(incoming, m.at);
        if r < 0 || r !in m.regs then Crash(m)
        else Set(m, d, m.regs[r]).(at := to, idx := 0)
  }

  function Step(blocks: seq<Block>, m: Machine): Machine {
    if m.status != Running then m
    else if m.at >= |blocks| then Crash(m)
    else if m.idx < |blocks[m.at].insts| then
      var i := blocks[m.at].insts[m.idx];
      if Uses(i) <= m.regs.Keys then Exec(i, m).(idx := m.idx + 1) else Crash(m)
    else match blocks[m.at].term
      case Unfinished => Crash(m)
      case Br(t) => Enter(blocks, t, m)
      case CondBr(c, y, n) => if c in m.regs then Enter(blocks, if m.regs[c] != 0 then y else n, m) else Crash(m)
      case Ret => m.(status := Halted)
  }

  function Run(blocks: seq<Block>, m: Machine, n: nat): Machine
    decreases n
  {
    if n == 0 then m else Run(blocks, Step(blocks, m), n - 1)
  }

  /** A run starts in block 0, without memory; junk is what the memory that it gets will hold. */
  function Boot(junk: map<int, Byte>, input: seq<int>): Machine {
    Machine(Running, 0, 0, map[], Io(map[], input, []), Heap(junk, 0, []), false, false)
  }

  lemma {:induction false} RunAdd(blocks: seq<Block>, m: Machine, a: nat, b: nat)
    ensures Run(blocks, m, a + b) == Run(blocks, Run(blocks, m, a), b)
    decreases a
  {
    hide Step;
    if a > 0 {
      RunAdd(blocks, Step(blocks, m), a - 1, b);
    }
  }

  // ---------- Facts about single steps ----------

  lemma StepInst(blocks: seq<Block>, m: Machine)
    requires m.status == Running && m.at < |blocks| && m.idx < |blocks[m.at].insts|
    requires Uses(blocks[m.at].insts[m.idx]) <= m.regs.Keys
    ensures Run(blocks, m, 1) == Exec(blocks[m.at].insts[m.idx], m).(idx := m.idx + 1)
  {
    hide Uses, Exec;
    assert Run(blocks, m, 1) == Run(blocks, Step(blocks, m), 0);
  }

  lemma StepTerm(blocks: seq<Block>, m: Machine, to: Label)
    requires m.status == Running && m.at < |blocks| && m.idx == |blocks[m.at].insts|
    requires blocks[m.at].term == Br(to)
             || (blocks[m.at].term.CondBr? && blocks[m.at].term.cond in m.regs &&
                 to == if m.regs[blocks[m.at].term.cond] != 0 then blocks[m.at].term.yes else blocks[m.at].term.no)
    ensures Run(blocks, m, 1) == Enter(blocks, to, m)
  {
    hide Enter;
    assert Run(blocks, m, 1) == Run(blocks, Step(blocks, m), 0);
  }

  /** What only grows during a run. */
  ghost predicate Later(m: Machine, n: Machine) {
    && (m.wild ==> n.wild)
    && (m.erred ==> n.erred)
    && m.io.output <= n.io.output
    && (m.status != Running ==> n == m)
  }

  lemma StepLater(blocks: seq<Block>, m: Machine)
    ensures Later(m, Step(blocks, m))
  {
  }

  lemma {:induction false} RunLater(blocks: seq<Block>, m: Machine, n: nat)
    ensures Later(m, Run(blocks, m, n))
    decreases n
  {
    hide Step;
    if n > 0 {
      StepLater(blocks, m);
      RunLater(blocks, Step(blocks, m), n - 1);
    }
  }

  lemma RunOrder(blocks: seq<Block>, m: Machine, a: nat, b: nat)
    requires a <= b
    ensures Later(Run(blocks, m, a), Run(blocks, m, b))
  {
    RunAdd(blocks, m, a, b - a);
    RunLater(blocks, Run(blocks, m, a), b - a);
  }

  // ---------- Well-formed control flow ----------

  function Succs(t: Term): set<Label> {
    match t
    case Br(l) => {l}
    case CondBr(_, y, n) => {y, n}
    case _ => {}
  }

  ghost predicate HasEntry(incoming: seq<(Reg, Label)>, p: Label) {
    exists k :: 0 <= k < |incoming| && incoming[k].1 == p
  }

  /** The phi of block b has exactly one entry for each block that branches to b. */
  ghost predicate PhiMatches(blocks: seq<Block>, b: Label)
    requires b < |blocks|
  {
    blocks[b].phi.Phi? ==>
      var inc := blocks[b].phi.incoming;
      && (forall j, k :: 0 <= j < k < |inc| ==> inc[j].1 != inc[k].1)
      && (forall p: Label :: HasEntry(inc, p) <==> p < |blocks| && b in Succs(blocks[p].term))
  }

  ghost predicate PhisMatch(blocks: seq<Block>) {
    forall b :: 0 <= b < |blocks| ==> PhiMatches(blocks, b)
  }

  ghost predicate AllFinished(blocks: seq<Block>) {
    forall b :: 0 <= b < |blocks| ==>
      blocks[b].term != Unfinished && forall t :: t in Succs(blocks[b].term) ==> t < |blocks|
  }
}
