/**
 The compiled program and the source program do the same: a simulation of the
 token-by-token run by the machine, and what follows for whole runs.
 */
module BrainFCorrect {
  import opened BrainFLang
  import opened BrainFLexing
  import opened BrainFIR
  import opened BrainFCode

  // ---------- Straight-line code ----------

  function ExecAll(xs: seq<Inst>, m: Machine): Machine {
    if xs == [] then m else ExecAll(xs[1..], Exec(xs[0], m).(idx := m.idx + 1))
  }

  ghost predicate CanExec(xs: seq<Inst>, m: Machine) {
    xs != [] ==> Uses(xs[0]) <= m.regs.Keys && CanExec(xs[1..], Exec(xs[0], m).(idx := m.idx + 1))
  }

  lemma ExecStays(i: Inst, m: Machine)
    ensures var n := Exec(i, m); n.status == m.status && n.at == m.at
  {
  }

  lemma {:induction false} RunInsts(blocks: seq<Block>, m: Machine, xs: seq<Inst>)
    requires m.status == Running && m.at < |blocks| && m.idx + |xs| <= |blocks[m.at].insts|
    requires blocks[m.at].insts[m.idx..m.idx + |xs|] == xs
    requires CanExec(xs, m)
    ensures Run(blocks, m, |xs|) == ExecAll(xs, m)
    decreases |xs|
  {
    hide Step, Exec, Uses;
    if xs != [] {
      assert xs[0] == blocks[m.at].insts[m.idx..m.idx + |xs|][0];
      StepInst(blocks, m);
      ExecStays(xs[0], m);
      var n := Exec(xs[0], m).(idx := m.idx + 1);
      assert blocks[n.at].insts[n.idx..n.idx + |xs| - 1] == blocks[m.at].insts[m.idx..m.idx + |xs|][1..];
      RunInsts(blocks, n, xs[1..]);
      RunAdd(blocks, m, 1, |xs| - 1);
    }
  }

  // ---------- The simulation ----------

  ghost predicate InTape(bound: Bound, a: int) {
    bound.Checked? ==> 0 <= a < bound.size
  }

  /** Tape base, tape end and head are in their registers. */
  ghost predicate RegsHold(bound: Bound, regs: map<Reg, int>, headreg: Reg, head: int) {
    && ARR in regs && regs[ARR] == 0
    && (bound.Checked? ==> ARRMAX in regs && regs[ARRMAX] == bound.size)
    && headreg in regs && regs[headreg] == head
  }

  /** The same input, output and tape; and so far every access was inside the tape, which is what was allocated. */
  ghost predicate SameIo(bound: Bound, io: Io, m: Machine) {
    m.io == io && (bound.Checked? ==> !m.wild && m.heap.size == bound.size)
  }

  /** The machine is about to run the code at q. */
  ghost predicate AtPoint(bound: Bound, q: Point, head: int, io: Io, m: Machine) {
    && m.status == Running && m.at == q.blk && m.idx == q.idx && !m.erred && m.heap.freed == []
    && RegsHold(bound, m.regs, q.head, head) && SameIo(bound, io, m) && InTape(bound, head)
  }

  /** The machine is where the token run t is. */
  ghost predicate Sim(p: Program, t: TokState, m: Machine)
    requires |p.code.at| == |p.code.toks| + 1
  {
    && t.pc <= |p.code.toks|
    && if t.left then m.status == Halted && m.erred && m.heap.freed == [0] && SameIo(p.bound, t.io, m)
       else if t.pc == |p.code.toks| then
         && m.status == Halted && !m.erred && m.heap.freed == [0] && SameIo(p.bound, t.io, m)
         && RegsHold(p.bound, m.regs, Last(p.code).head, t.head) && InTape(p.bound, t.head)
       else AtPoint(p.bound, p.code.at[t.pc], t.head, t.io, m)
  }

  lemma RunTrans(blocks: seq<Block>, m: Machine, a: nat, n: Machine, b: nat, x: Machine)
    requires Run(blocks, m, a) == n && Run(blocks, n, b) == x
    ensures Run(blocks, m, a + b) == x
  {
    RunAdd(blocks, m, a, b);
  }

  // ---------- Tokens that are not brackets ----------

  ghost predicate Starts(bound: Bound, q: Point, head: int, io: Io, m: Machine) {
    AtPoint(bound, q, head, io, m) && FIRST <= q.head < q.next
  }

  function Do(i: Inst, m: Machine): Machine { Exec(i, m).(idx := m.idx + 1) }

  lemma RunThree(blocks: seq<Block>, m: Machine, q: Point, x: Inst, y: Inst, z: Inst)
    requires m.status == Running && m.at == q.blk && m.idx == q.idx && InstsAt(blocks, q, [x, y, z])
    requires Uses(x) <= m.regs.Keys && Uses(y) <= Do(x, m).regs.Keys && Uses(z) <= Do(y, Do(x, m)).regs.Keys
    ensures Run(blocks, m, 3) == Do(z, Do(y, Do(x, m)))
  {
    hide Run, Step, Exec, Uses;
    var xs := [x, y, z];
    assert xs[1..] == [y, z] && xs[1..][1..] == [z] && xs[1..][1..][1..] == [];
    var a := Do(x, m);
    var b := Do(y, a);
    var c := Do(z, b);
    assert CanExec([], c) && ExecAll([], c) == c;
    assert CanExec(xs[1..][1..], b) && ExecAll(xs[1..][1..], b) == c;
    assert CanExec(xs[1..], a) && ExecAll(xs[1..], a) == c;
    RunInsts(blocks, m, xs);
  }

  lemma ReadRegs(n: Reg, h: Reg, m: Machine)
    requires h in m.regs && h < n
    ensures var a := Do(GetChar(n), m);
            var b := Do(Trunc(n + 1, n), a);
            && Uses(GetChar(n)) <= m.regs.Keys && Uses(Trunc(n + 1, n)) <= a.regs.Keys
            && Uses(Store(n + 1, h)) <= b.regs.Keys
            && Do(Store(n + 1, h), b) ==
               m.(idx := m.idx + 3, regs := m.regs[n := NextChar(m.io)][n + 1 := NextChar(m.io) % 256],
                  io := ReadCell(m.io, m.regs[h]), wild := m.wild || !Owned(m.heap, m.regs[h]))
  {
  }

  lemma ReadSim(bound: Bound, blocks: seq<Block>, q: Point, r: Point, head: int, io: Io, m: Machine)
    requires Starts(bound, q, head, io, m) && Straight(bound, blocks, Read, q, r)
    ensures AtPoint(bound, r, head, ReadCell(io, head), Run(blocks, m, 3))
  {
    hide Run, Step, Do, Uses;
    var n := q.next;
    ReadRegs(n, q.head, m);
    RunThree(blocks, m, q, GetChar(n), Trunc(n + 1, n), Store(n + 1, q.head));
  }

  lemma WriteRegs(n: Reg, h: Reg, m: Machine)
    requires h in m.regs && h < n
    ensures var v := Cell(m.io, m.regs[h]);
            var a := Do(Load(n, h), m);
            var b := Do(SExt(n + 1, n), a);
            && Uses(Load(n, h)) <= m.regs.Keys && Uses(SExt(n + 1, n)) <= a.regs.Keys
            && Uses(PutChar(n + 1)) <= b.regs.Keys
            && Do(PutChar(n + 1), b) ==
               m.(idx := m.idx + 3, regs := m.regs[n := v][n + 1 := if v < 128 then v else v - 256],
                  io := WriteCell(m.io, m.regs[h]), wild := m.wild || !Owned(m.heap, m.regs[h]))
  {
  }

  lemma WriteSim(bound: Bound, blocks: seq<Block>, q: Point, r: Point, head: int, io: Io, m: Machine)
    requires Starts(bound, q, head, io, m) && Straight(bound, blocks, Write, q, r)
    ensures AtPoint(bound, r, head, WriteCell(io, head), Run(blocks, m, 3))
  {
    hide Run, Step, Do, Uses;
    var n := q.next;
    WriteRegs(n, q.head, m);
    RunThree(blocks, m, q, Load(n, q.head), SExt(n + 1, n), PutChar(n + 1));
  }

  lemma ChangeRegs(n: Reg, h: Reg, k: int, m: Machine)
    requires h in m.regs && h < n
    ensures var v := Cell(m.io, m.regs[h]);
            var a := Do(Load(n, h), m);
            var b := Do(Add(n + 1, n, k % 256), a);
            && Uses(Load(n, h)) <= m.regs.Keys && Uses(Add(n + 1, n, k % 256)) <= a.regs.Keys
            && Uses(Store(n + 1, h)) <= b.regs.Keys
            && Do(Store(n + 1, h), b) ==
               m.(idx := m.idx + 3, regs := m.regs[n := v][n + 1 := (v + k % 256) % 256],
                  io := Bump(m.io, m.regs[h], k), wild := m.wild || !Owned(m.heap, m.regs[h]))
  {
    ByteSum(Cell(m.io, m.regs[h]), k);
  }

  lemma ByteSum(v: int, k: int)
    ensures ((v + k % 256) % 256) % 256 == (v + k) % 256
  {
  }

  lemma ChangeSim(bound: Bound, blocks: seq<Block>, k: int, q: Point, r: Point, head: int, io: Io, m: Machine)
    requires Starts(bound, q, head, io, m) && Straight(bound, blocks, Change(k), q, r)
    ensures AtPoint(bound, r, head, Bump(io, head, k), Run(blocks, m, 3))
  {
    hide Run, Step, Do, Uses, Bump;
    var n := q.next;
    ChangeRegs(n, q.head, k, m);
    RunThree(blocks, m, q, Load(n, q.head), Add(n + 1, n, k % 256), Store(n + 1, q.head));
  }

  lemma MoveSim(bound: Bound, blocks: seq<Block>, k: int, q: Point, r: Point, head: int, io: Io, m: Machine)
    requires bound.Unchecked?
    requires Starts(bound, q, head, io, m) && Straight(bound, blocks, Move(k), q, r)
    ensures AtPoint(bound, r, head + k, io, Run(blocks, m, 1))
  {
    hide Run, Step;
    StepInst(blocks, m);
    assert blocks[q.blk].insts[q.idx] == blocks[q.blk].insts[q.idx..q.idx + 1][0];
  }

  /** The comparison of the new head with both ends of the tape. */
  lemma CompareRegs(bound: Bound, k: int, q: Point, head: int, io: Io, m: Machine)
    requires bound.Checked? && Starts(bound, q, head, io, m)
    ensures var n := q.next;
            var a := Do(Gep(n, q.head, k), m);
            var b := Do(Uge(n + 1, n, ARRMAX), a);
            && Uses(Gep(n, q.head, k)) <= m.regs.Keys && Uses(Uge(n + 1, n, ARRMAX)) <= a.regs.Keys
            && Uses(Ult(n + 2, n, ARR)) <= b.regs.Keys
            && Do(Ult(n + 2, n, ARR), b) ==
               m.(idx := m.idx + 3,
                  regs := m.regs[n := head + k][n + 1 := Flag(head + k >= bound.size)][n + 2 := Flag(head + k < 0)])
  {
  }

  lemma CheckSim(bound: Bound, blocks: seq<Block>, k: int, q: Point, head: int, io: Io, m: Machine)
    requires bound.Checked? && Starts(bound, q, head, io, m) && InstsAt(blocks, q, StraightInsts(bound, Move(k), q))
    ensures var b := Run(blocks, m, 4);
            && b.status == Running && b.at == q.blk && b.idx == q.idx + 4 && !b.erred && b.heap.freed == [] && SameIo(bound, io, b)
            && RegsHold(bound, b.regs, q.next, head + k)
            && q.next + 3 in b.regs && (b.regs[q.next + 3] != 0 <==> !InTape(bound, head + k))
  {
    hide Run, Step, Do, Uses;
    var n := q.next;
    var xs := [Gep(n, q.head, k), Uge(n + 1, n, ARRMAX), Ult(n + 2, n, ARR)];
    SameSlice(blocks[q.blk].insts, q.idx, xs, Or(n + 3, n + 1, n + 2));
    CompareRegs(bound, k, q, head, io, m);
    RunThree(blocks, m, q, xs[0], xs[1], xs[2]);
    var a := Run(blocks, m, 3);
    OrStep(blocks, a, n);
    RunTrans(blocks, m, 3, a, 1, Run(blocks, a, 1));
  }

  lemma OrStep(blocks: seq<Block>, m: Machine, n: Reg)
    requires m.status == Running && m.at < |blocks| && m.idx < |blocks[m.at].insts|
    requires blocks[m.at].insts[m.idx] == Or(n + 3, n + 1, n + 2) && n + 1 in m.regs && n + 2 in m.regs
    ensures Run(blocks, m, 1) ==
            m.(idx := m.idx + 1, regs := m.regs[n + 3 := Flag(m.regs[n + 1] != 0 || m.regs[n + 2] != 0)])
  {
    StepInst(blocks, m);
    hide Run, Step;
  }

  /** A checked move goes on in the next block, or to the error block if the head has left the tape. */
  lemma CheckedMoveSim(bound: Bound, blocks: seq<Block>, k: int, q: Point, r: Point, head: int, io: Io, m: Machine)
    requires bound.Checked? && Footer(bound, blocks)
    requires Starts(bound, q, head, io, m) && Straight(bound, blocks, Move(k), q, r)
    ensures InTape(bound, head + k) ==> AtPoint(bound, r, head + k, io, Run(blocks, m, 5))
    ensures !InTape(bound, head + k) ==>
              var x := Run(blocks, m, 9); x.status == Halted && x.erred && x.heap.freed == [0] && SameIo(bound, io, x)
  {
    hide Run, Step, Exec, Uses;
    CheckSim(bound, blocks, k, q, head, io, m);
    var b := Run(blocks, m, 4);
    StepTerm(blocks, b, if InTape(bound, head + k) then r.blk else ABERROR);
    var c := Run(blocks, b, 1);
    RunTrans(blocks, m, 4, b, 1, c);
    if !InTape(bound, head + k) {
      ErrorHalts(bound, blocks, io, c);
      RunTrans(blocks, m, 5, c, 4, Run(blocks, c, 4));
    }
  }

  lemma SameSlice<T>(ys: seq<T>, i: nat, xs: seq<T>, x: T)
    requires i + |xs| + 1 <= |ys| && ys[i..i + |xs| + 1] == xs + [x]
    ensures ys[i..i + |xs|] == xs && ys[i + |xs|] == x
  {
    assert ys[i..i + |xs|] == ys[i..i + |xs| + 1][..|xs|];
    assert ys[i + |xs|] == ys[i..i + |xs| + 1][|xs|];
  }

  /** The error block prints the message and goes to the return block. */
  lemma ErrorHalts(bound: Bound, blocks: seq<Block>, io: Io, m: Machine)
    requires bound.Checked? && Footer(bound, blocks)
    requires m.status == Running && m.at == ABERROR && m.idx == 0 && SameIo(bound, io, m) && ARR in m.regs
    requires m.heap.freed == [] && m.regs[ARR] == 0
    ensures var x := Run(blocks, m, 4); x.status == Halted && x.erred && x.heap.freed == [0] && SameIo(bound, io, x)
  {
    hide Run, Step;
    StepInst(blocks, m);
    var a := Run(blocks, m, 1);
    StepTerm(blocks, a, ENDBB);
    var b := Run(blocks, a, 1);
    RunTrans(blocks, m, 1, a, 1, b);
    ReturnHalts(bound, blocks, b);
    RunTrans(blocks, m, 2, b, 2, Run(blocks, b, 2));
  }

  lemma ReturnHalts(bound: Bound, blocks: seq<Block>, m: Machine)
    requires Footer(bound, blocks)
    requires m.status == Running && m.at == ENDBB && m.idx == 0 && ARR in m.regs
    ensures Run(blocks, m, 2) == m.(idx := 1, status := Halted, heap := m.heap.(freed := m.heap.freed + [m.regs[ARR]]))
  {
    StepInst(blocks, m);
    var a := Run(blocks, m, 1);
    assert a == m.(idx := 1, heap := m.heap.(freed := m.heap.freed + [m.regs[ARR]]));
    assert Run(blocks, a, 1) == Run(blocks, Step(blocks, a), 0);
    RunTrans(blocks, m, 1, a, 1, Step(blocks, a));
  }

  // ---------- Brackets ----------

  /** Either bracket's branch to the test block sets the loop's phi to the head. */
  lemma EnterTest(bound: Bound, blocks: seq<Block>, q: Point, r: Point, e: Point, x: Point, s: Point,
                  head: int, io: Io, m: Machine)
    requires Looped(blocks, q, r, e, x) && (s == q || s == e)
    requires Starts(bound, s, head, io, m)
    ensures Run(blocks, m, 1) == Set(m, r.head, head).(at := r.blk - 1, idx := 0)
  {
    hide Run, Step, Exec, Uses;
    var inc := [(q.head, q.blk), (e.head, e.blk)];
    StepTerm(blocks, m, r.blk - 1);
    assert inc[1..] == [(e.head, e.blk)];
    assert Entry([(e.head, e.blk)], e.blk) == e.head;
  }

  /** The test compares the cell with 0. */
  lemma RunTest(bound: Bound, blocks: seq<Block>, q: Point, r: Point, e: Point, x: Point, head: int, io: Io, m: Machine)
    requires Looped(blocks, q, r, e, x) && FIRST <= r.head < e.next
    requires AtPoint(bound, Point(r.blk - 1, 0, r.head, r.next), head, io, m)
    ensures var b := Run(blocks, m, 2);
            && AtPoint(bound, Point(r.blk - 1, 2, r.head, r.next), head, io, b)
            && e.next + 1 in b.regs && (b.regs[e.next + 1] != 0 <==> Cell(io, head) == 0)
  {
    hide Run, Step;
    StepInst(blocks, m);
    var a := Run(blocks, m, 1);
    StepInst(blocks, a);
    RunTrans(blocks, m, 1, a, 1, Run(blocks, a, 1));
  }

  /** Both brackets branch to the test block, which goes into or past the loop. */
  lemma TestSim(bound: Bound, blocks: seq<Block>, q: Point, r: Point, e: Point, x: Point, s: Point,
                head: int, io: Io, m: Machine)
    requires Looped(blocks, q, r, e, x) && (s == q || s == e)
    requires Starts(bound, s, head, io, m) && FIRST <= q.head < q.next
    ensures AtPoint(bound, if Cell(io, head) == 0 then x else r, head, io, Run(blocks, m, 4))
  {
    hide Run, Step, Exec, Uses;
    EnterTest(bound, blocks, q, r, e, x, s, head, io, m);
    var a := Run(blocks, m, 1);
    RunTest(bound, blocks, q, r, e, x, head, io, a);
    var b := Run(blocks, a, 2);
    RunTrans(blocks, m, 1, a, 2, b);
    StepTerm(blocks, b, if Cell(io, head) == 0 then x.blk else r.blk);
    RunTrans(blocks, m, 3, b, 1, Run(blocks, b, 1));
    assert Entry([(r.head, r.blk - 1)], r.blk - 1) == r.head;
  }

  // ---------- One token ----------

  /** What compiled code says about token i of the finished program. */
  lemma FinalTok(p: Program, i: nat)
    requires Compiled(p) && i < |p.code.toks|
    ensures var c := Code(p.blocks, p.code.toks, p.code.at);
            && |c.at| == |c.toks| + 1
            && TokCode(p.bound, c, Link(c.toks, TokBracket), i)
            && FIRST <= c.at[i].head < c.at[i].next
  {
    hide Link, Header;
    var l := Link(p.code.toks, TokBracket);
    EndProgramFlow(p.bound, p.code);
    FinalTokGrows(p.bound, p.code, p.blocks, l, i);
  }

  lemma FinalTokGrows(bound: Bound, c: Code, blocks: seq<Block>, l: Links, i: nat)
    requires Shape(c) && i < |c.toks| && TokCode(bound, c, l, i) && Grows(c.blocks, blocks, |c.blocks|)
    requires i in l.mate || c.toks[i] != Open
    ensures TokCode(bound, Code(blocks, c.toks, c.at), l, i)
  {
  }

  lemma FinalFlow(p: Program)
    requires Compiled(p)
    ensures Shape(p.code) && Footer(p.bound, p.blocks)
    ensures EndsWith(p.blocks, Last(p.code).blk, Last(p.code).idx, Br(ENDBB))
    ensures AllFinished(p.blocks) && PhisMatch(p.blocks)
  {
    hide Link, Header;
    EndProgramFlow(p.bound, p.code);
  }

  /** After the last token the machine goes to the return block and halts. */
  lemma Settle(p: Program, t: TokState, m: Machine) returns (k: nat)
    requires Compiled(p) && t.pc <= |p.code.toks| && !t.left
    requires |p.code.at| == |p.code.toks| + 1 && AtPoint(p.bound, p.code.at[t.pc], t.head, t.io, m)
    ensures Sim(p, t, Run(p.blocks, m, k))
  {
    hide Compiled, Run, Step;
    k := 0;
    assert Run(p.blocks, m, 0) == m by { RunNothing(p.blocks, m); }
    if t.pc == |p.code.toks| {
      k := 3;
      FinalFlow(p);
      StepTerm(p.blocks, m, ENDBB);
      var a := Run(p.blocks, m, 1);
      ReturnHalts(p.bound, p.blocks, a);
      RunTrans(p.blocks, m, 1, a, 2, Run(p.blocks, a, 2));
    }
  }

  lemma RunNothing(blocks: seq<Block>, m: Machine)
    ensures Run(blocks, m, 0) == m
  {
  }

  ghost function Mates(p: Program): map<nat, nat> { Link(p.code.toks, TokBracket).mate }

  /** A token that is not a bracket, up to where the next one starts. */
  lemma StraightSim(p: Program, t: TokState, m: Machine) returns (k: nat)
    requires Compiled(p) && !t.left && t.pc < |p.code.toks| && TokBracket(p.code.toks[t.pc]) == Plain
    requires |p.code.at| == |p.code.toks| + 1 && AtPoint(p.bound, p.code.at[t.pc], t.head, t.io, m)
    ensures k >= 1
    ensures var u, x := TokStep(p.code.toks, Mates(p), p.bound, t), Run(p.blocks, m, k);
            if u.left then Sim(p, u, x)
            else u.pc == t.pc + 1 && AtPoint(p.bound, p.code.at[u.pc], u.head, u.io, x)
  {
    hide Compiled, Run, Step, Link, Straight, AtPoint, RegsHold;
    FinalTok(p, t.pc);
    FinalFlow(p);
    var q, r := p.code.at[t.pc], p.code.at[t.pc + 1];
    match p.code.toks[t.pc]
    case Read =>
      k := 3;
      ReadSim(p.bound, p.blocks, q, r, t.head, t.io, m);
    case Write =>
      k := 3;
      WriteSim(p.bound, p.blocks, q, r, t.head, t.io, m);
    case Change(v) =>
      k := 3;
      ChangeSim(p.bound, p.blocks, v, q, r, t.head, t.io, m);
    case Move(v) =>
      if p.bound.Checked? {
        k := if InTape(p.bound, t.head + v) then 5 else 9;
        CheckedMoveSim(p.bound, p.blocks, v, q, r, t.head, t.io, m);
      } else {
        k := 1;
        MoveSim(p.bound, p.blocks, v, q, r, t.head, t.io, m);
      }
  }

  /** A bracket, up to where the loop body starts or where the code after the loop does. */
  lemma BracketSim(p: Program, t: TokState, m: Machine)
    requires Compiled(p) && !t.left && t.pc < |p.code.toks| && TokBracket(p.code.toks[t.pc]) != Plain
    requires |p.code.at| == |p.code.toks| + 1 && AtPoint(p.bound, p.code.at[t.pc], t.head, t.io, m)
    ensures var u := TokStep(p.code.toks, Mates(p), p.bound, t);
            && u.pc <= |p.code.toks| && !u.left
            && AtPoint(p.bound, p.code.at[u.pc], u.head, u.io, Run(p.blocks, m, 4))
  {
    hide Compiled, Run, Step, Link, Looped, AtPoint, RegsHold;
    var l := Link(p.code.toks, TokBracket);
    BracketMates(p, t.pc);
    var i := if p.code.toks[t.pc].Open? then t.pc else l.mate[t.pc];
    var j := l.mate[i];
    FinalTok(p, i);
    FinalTok(p, t.pc);
    TestSim(p.bound, p.blocks, p.code.at[i], p.code.at[i + 1], p.code.at[j], p.code.at[j + 1], p.code.at[t.pc],
            t.head, t.io, m);
  }

  lemma BracketMates(p: Program, i: nat)
    requires Compiled(p) && i < |p.code.toks| && TokBracket(p.code.toks[i]) != Plain
    ensures var l := Link(p.code.toks, TokBracket);
            && i in l.mate && l.mate[i] < |p.code.toks| && l.mate[i] in l.mate && l.mate[l.mate[i]] == i
            && (p.code.toks[i] == Close ==> p.code.toks[l.mate[i]] == Open)
  {
    hide Link;
    LinkWellFormed(p.code.toks, TokBracket);
  }

  /** One token is one or more machine steps. */
  lemma StepSim(p: Program, t: TokState, m: Machine) returns (k: nat)
    requires Compiled(p) && |p.code.at| == |p.code.toks| + 1 && Sim(p, t, m)
    ensures k >= 1 && Sim(p, TokStep(p.code.toks, Mates(p), p.bound, t), Run(p.blocks, m, k))
  {
    hide Compiled, Run, Link, AtPoint, RegsHold, SameIo, Step, TokStep;
    var u := TokStep(p.code.toks, Mates(p), p.bound, t);
    if t.left || t.pc == |p.code.toks| {
      k := 1;
      HaltedStays(p.blocks, m);
      TokHalted(p, t);
    } else {
      if TokBracket(p.code.toks[t.pc]) == Plain {
        k := StraightSim(p, t, m);
      } else {
        k := 4;
        BracketSim(p, t, m);
      }
      if !u.left {
        var a := Run(p.blocks, m, k);
        var j := Settle(p, u, a);
        RunTrans(p.blocks, m, k, a, j, Run(p.blocks, a, j));
        k := k + j;
      }
    }
  }

  lemma HaltedStays(blocks: seq<Block>, m: Machine)
    requires m.status != Running
    ensures Run(blocks, m, 1) == m
  {
    assert Run(blocks, m, 1) == Run(blocks, Step(blocks, m), 0);
  }

  lemma TokHalted(p: Program, t: TokState)
    requires t.left || t.pc == |p.code.toks|
    ensures TokStep(p.code.toks, Mates(p), p.bound, t) == t
  {
  }

  /** However long the token run, some at least as long machine run is where it is. */
  lemma {:induction false} RunSim(p: Program, t: TokState, m: Machine, n: nat) returns (k: nat)
    requires Compiled(p) && |p.code.at| == |p.code.toks| + 1 && Sim(p, t, m)
    ensures k >= n && Sim(p, TokRun(p.code.toks, Mates(p), p.bound, t, n), Run(p.blocks, m, k))
  {
    hide Compiled, Link, Step, TokStep, Sim;
    if n == 0 {
      k := 0;
    } else {
      hide Run;
      var j := RunSim(p, t, m, n - 1);
      var i := StepSim(p, TokRun(p.code.toks, Mates(p), p.bound, t, n - 1), Run(p.blocks, m, j));
      k := j + i;
      RunAdd(p.blocks, m, j, i);
    }
  }

  // ---------- From the start ----------

  /** Both kinds of run start in the middle of the tape. */
  function TokStart(mem: nat, input: seq<int>): TokState { TokState(0, mem / 2, Io(map[], input, []), false) }

  function CharStart(mem: nat, input: seq<int>): CharState { CharState(0, mem / 2, Io(map[], input, [])) }

  /** The machine after the tape has been allocated and cleared. */
  ghost predicate Cleared(mem: nat, input: seq<int>, m: Machine) {
    && m.status == Running && m.at == ENTRY && m.idx == 2 && !m.erred && !m.wild
    && ARR in m.regs && m.regs[ARR] == 0 && m.io == Io(map[], input, []) && m.heap.size == mem && m.heap.freed == []
  }

  /** Whatever the memory held, clearing it leaves a tape of zeros. */
  lemma ClearRegs(mem: nat, junk: map<int, Byte>, input: seq<int>)
    ensures var m := Boot(junk, input);
            var a := Do(Malloc(ARR, mem), m);
            && Uses(Malloc(ARR, mem)) <= m.regs.Keys && Uses(Memset(ARR, mem)) <= a.regs.Keys
            && Cleared(mem, input, Do(Memset(ARR, mem), a))
  {
    var a := Do(Malloc(ARR, mem), Boot(junk, input));
    assert forall i :: i in a.io.tape ==> 0 <= i < mem;
    assert Do(Memset(ARR, mem), a).io.tape == map[];
  }

  lemma HeadRegs(mem: nat, input: seq<int>, r: Reg, k: int, m: Machine)
    requires Cleared(mem, input, m) && r != ARR
    ensures Uses(Gep(r, ARR, k)) <= m.regs.Keys
    ensures var n := Do(Gep(r, ARR, k), m); n == m.(idx := 3, regs := m.regs[r := k]) && ARR in n.regs && n.regs[ARR] == 0
  {
  }

  /** The header puts the tape, its end and the head into their registers. */
  lemma HeaderRuns(p: Program, junk: map<int, Byte>, input: seq<int>) returns (k: nat)
    requires Compiled(p) && |p.code.at| == |p.code.toks| + 1 && (p.bound.Checked? ==> p.mem > 0)
    ensures AtPoint(p.bound, p.code.at[0], p.mem / 2, Io(map[], input, []), Run(p.blocks, Boot(junk, input), k))
  {
    hide Emitted, Link, Run, Step, Do, Uses;
    FinalFlow(p);
    var body := Header(p.bound, p.mem).blocks[ENTRY].insts;
    HeaderInFinal(p, body);
    var q := Point(0, 0, FIRST, FIRST);
    var m := Boot(junk, input);
    ClearRegs(p.mem, junk, input);
    var c := Do(Memset(ARR, p.mem), Do(Malloc(ARR, p.mem), m));
    hide Compiled, Footer, EndsWith, Shape;
    if p.bound.Unchecked? {
      assert body == [Malloc(ARR, p.mem), Memset(ARR, p.mem), Gep(FIRST, ARR, p.mem / 2)];
      HeadRegs(p.mem, input, FIRST, p.mem / 2, c);
      RunThree(p.blocks, m, q, body[0], body[1], body[2]);
      k := 3;
    } else {
      var xs := [Malloc(ARR, p.mem), Memset(ARR, p.mem), Gep(ARRMAX, ARR, p.mem)];
      assert body == xs + [Gep(FIRST, ARR, p.mem / 2)];
      SameSlice(p.blocks[ENTRY].insts, 0, xs, Gep(FIRST, ARR, p.mem / 2));
      HeadRegs(p.mem, input, ARRMAX, p.mem, c);
      RunThree(p.blocks, m, q, xs[0], xs[1], xs[2]);
      var a := Run(p.blocks, m, 3);
      HeadStep(p.blocks, a, p.mem / 2);
      RunTrans(p.blocks, m, 3, a, 1, Run(p.blocks, a, 1));
      assert p.bound.size == p.mem by { BoundIs(p); }
      k := 4;
    }
  }

  lemma BoundIs(p: Program)
    requires Compiled(p) && p.bound.Checked?
    ensures p.bound.size == p.mem
  {
    hide Emitted, Link;
  }

  lemma HeadStep(blocks: seq<Block>, m: Machine, k: int)
    requires m.status == Running && m.at < |blocks| && m.idx < |blocks[m.at].insts|
    requires blocks[m.at].insts[m.idx] == Gep(FIRST, ARR, k) && ARR in m.regs && m.regs[ARR] == 0
    ensures Run(blocks, m, 1) == m.(idx := m.idx + 1, regs := m.regs[FIRST := k])
  {
    StepInst(blocks, m);
    hide Run, Step;
  }

  lemma HeaderInFinal(p: Program, body: seq<Inst>)
    requires Compiled(p) && body == Header(p.bound, p.mem).blocks[ENTRY].insts
    ensures InstsAt(p.blocks, Point(0, 0, FIRST, FIRST), body) && p.code.at[0] == Point(ENTRY, |body|, FIRST, FIRST + 1)
  {
    hide Link;
    EndProgramFlow(p.bound, p.code);
    hide Emitted;
    SamePart(p.code.blocks[ENTRY].insts, p.blocks[ENTRY].insts, 0, |body|);
    SamePart(body, p.code.blocks[ENTRY].insts, 0, |body|);
    assert body[0..|body|] == body;
  }

  lemma OnePointMore(p: Program)
    requires Compiled(p)
    ensures |p.code.at| == |p.code.toks| + 1
  {
  }

  lemma ProgramSim(p: Program, junk: map<int, Byte>, input: seq<int>, n: nat) returns (k: nat)
    requires Compiled(p) && (p.bound.Checked? ==> p.mem > 0)
    ensures |p.code.at| == |p.code.toks| + 1
    ensures k >= n
    ensures Sim(p, TokRun(p.code.toks, Mates(p), p.bound, TokStart(p.mem, input), n), Run(p.blocks, Boot(junk, input), k))
  {
    hide Compiled, Link, Run, Step, TokRun, TokStep, Sim, Boot, AtPoint;
    OnePointMore(p);
    var a := HeaderRuns(p, junk, input);
    var m := Run(p.blocks, Boot(junk, input), a);
    var t := TokStart(p.mem, input);
    var b := Settle(p, t, m);
    RunAdd(p.blocks, Boot(junk, input), a, b);
    var c := RunSim(p, t, Run(p.blocks, m, b), n);
    RunAdd(p.blocks, Boot(junk, input), a + b, c);
    k := a + b + c;
  }

  // ---------- Whole runs, moves unchecked ----------

  /** The run of the source, and that of the compiled program. */
  ghost function Source(s: string, mem: nat, input: seq<int>, n: nat): CharState {
    CharRun(s, CharMates(s), CharStart(mem, input), n)
  }

  ghost function Target(p: Program, junk: map<int, Byte>, input: seq<int>, n: nat): Machine {
    Run(p.blocks, Boot(junk, input), n)
  }

  ghost predicate CompiledFrom(s: string, p: Program) {
    Compiled(p) && p.code.toks == Toks(s) && Balanced(s, CharBracket)
  }

  /** The same input left, output and tape, and both ended or neither; ended, the tape has been freed, once. */
  ghost predicate Alike(s: string, p: Program, c: CharState, m: Machine) {
    && m.io == c.io && m.status != Stuck
    && c.pos <= |s|
    && (m.status == Halted <==> Lex(s, c.pos, Idle) == [])
    && (m.status == Halted ==> m.heap.freed == [0])
    && (m.status == Halted ==>
          |p.code.at| == |p.code.toks| + 1 && Last(p.code).head in m.regs && m.regs[Last(p.code).head] == c.head)
  }

  /** From any point on there are points at which both runs are alike. */
  lemma RunsAlike(s: string, p: Program, junk: map<int, Byte>, input: seq<int>, n: nat) returns (i: nat, j: nat)
    requires CompiledFrom(s, p) && p.bound == Unchecked
    ensures i >= n && j >= n && Alike(s, p, Source(s, p.mem, input, i), Target(p, junk, input, j))
  {
    hide Compiled, Link, Run, Step, TokRun, TokStep, Boot, Lex, Ends, CharRun, Balanced;
    var t0 := TokStart(p.mem, input);
    i := RunInStep(s, CharStart(p.mem, input), t0, n);
    j := ProgramSim(p, junk, input, n);
    var t := TokRun(Toks(s), TokMates(s), Unchecked, t0, n);
    assert Lex(s, Source(s, p.mem, input, i).pos, Idle) == Toks(s)[t.pc..];
  }

  ghost predicate CharLater(c: CharState, d: CharState, s: string) {
    c.io.output <= d.io.output && (c.pos >= |s| ==> d == c)
  }

  lemma CharStepLater(s: string, mate: map<nat, nat>, c: CharState)
    ensures CharLater(c, CharStep(s, mate, c), s)
  {
  }

  lemma {:induction false} CharRunLater(s: string, mate: map<nat, nat>, c: CharState, n: nat)
    ensures CharLater(c, CharRun(s, mate, c, n), s)
    decreases n
  {
    hide CharStep;
    if n > 0 {
      CharStepLater(s, mate, c);
      CharRunLater(s, mate, CharStep(s, mate, c), n - 1);
    }
  }

  lemma SourceOrder(s: string, mem: nat, input: seq<int>, a: nat, b: nat)
    requires a <= b
    ensures CharLater(Source(s, mem, input, a), Source(s, mem, input, b), s)
  {
    CharRunAdd(s, CharMates(s), CharStart(mem, input), a, b - a);
    CharRunLater(s, CharMates(s), Source(s, mem, input, a), b - a);
  }

  /** Past the last token the source run ends without doing anything more. */
  lemma {:induction false} TailEnds(s: string, mate: map<nat, nat>, c: CharState)
    requires c.pos <= |s| && Lex(s, c.pos, Idle) == []
    ensures CharRun(s, mate, c, |s| - c.pos) == c.(pos := |s|)
    decreases |s| - c.pos
  {
    if c.pos < |s| {
      hide Lex, CharStep, CharRun;
      IdleTail(s, mate, c);
      TailEnds(s, mate, c.(pos := c.pos + 1));
      RunOn(s, mate, c, |s| - c.pos);
    } else {
      hide CharStep;
    }
  }

  /** The compiled program never gets stuck. */
  lemma NeverStuck(s: string, p: Program, junk: map<int, Byte>, input: seq<int>, n: nat)
    requires CompiledFrom(s, p) && p.bound == Unchecked
    ensures Target(p, junk, input, n).status != Stuck
  {
    hide CompiledFrom, Run, Boot, Lex, CharRun;
    var i, j := RunsAlike(s, p, junk, input, n);
    RunOrder(p.blocks, Boot(junk, input), n, j);
  }

  /** If the source run ends, the compiled program halts with the same input left, output, tape and head. */
  lemma EndsThenHalts(s: string, p: Program, junk: map<int, Byte>, input: seq<int>, n: nat) returns (j: nat)
    requires CompiledFrom(s, p) && p.bound == Unchecked
    requires Source(s, p.mem, input, n).pos >= |s|
    ensures var c, m := Source(s, p.mem, input, n), Target(p, junk, input, j);
            m.status == Halted && Alike(s, p, c, m)
  {
    var i;
    i, j := RunsAlike(s, p, junk, input, n);
    hide CompiledFrom, Run, Boot, CharRun;
    SourceOrder(s, p.mem, input, n, i);
  }

  /** If the compiled program halts, the source run ends likewise. */
  lemma HaltsThenEnds(s: string, p: Program, junk: map<int, Byte>, input: seq<int>, n: nat) returns (i: nat)
    requires CompiledFrom(s, p) && p.bound == Unchecked
    requires Target(p, junk, input, n).status == Halted
    ensures var c, m := Source(s, p.mem, input, i), Target(p, junk, input, n);
            c.pos == |s| && Alike(s, p, c, m)
  {
    hide CompiledFrom, Run, Boot, CharRun;
    var a, j := RunsAlike(s, p, junk, input, n);
    RunOrder(p.blocks, Boot(junk, input), n, j);
    var c := Source(s, p.mem, input, a);
    TailEnds(s, CharMates(s), c);
    CharRunAdd(s, CharMates(s), CharStart(p.mem, input), a, |s| - c.pos);
    i := a + (|s| - c.pos);
    assert Lex(s, |s|, Idle) == [];
  }

  lemma HaltsIff(s: string, p: Program, junk: map<int, Byte>, input: seq<int>)
    requires CompiledFrom(s, p) && p.bound == Unchecked
    ensures (exists n: nat :: Source(s, p.mem, input, n).pos >= |s|) <==>
            (exists n: nat :: Target(p, junk, input, n).status == Halted)
  {
    hide CompiledFrom, Source, Target;
    if n: nat :| Source(s, p.mem, input, n).pos >= |s| {
      var j := EndsThenHalts(s, p, junk, input, n);
    }
    if n: nat :| Target(p, junk, input, n).status == Halted {
      var i := HaltsThenEnds(s, p, junk, input, n);
    }
  }

  lemma ResultsAlike(s: string, p: Program, junk: map<int, Byte>, input: seq<int>, i: nat, j: nat)
    requires CompiledFrom(s, p) && p.bound == Unchecked
    requires Source(s, p.mem, input, i).pos >= |s| && Target(p, junk, input, j).status == Halted
    ensures Alike(s, p, Source(s, p.mem, input, i), Target(p, junk, input, j))
  {
    hide CompiledFrom, Source, Target;
    var k := EndsThenHalts(s, p, junk, input, i);
    HaltedOnce(p, junk, input, j, k);
  }

  /** What either run outputs in n steps the other outputs too, sooner or later. */
  ghost predicate OutputMatched(s: string, p: Program, junk: map<int, Byte>, input: seq<int>, n: nat) {
    exists i: nat, j: nat ::
      && Source(s, p.mem, input, n).io.output <= Target(p, junk, input, j).io.output
      && Target(p, junk, input, n).io.output <= Source(s, p.mem, input, i).io.output
  }

  lemma OutputsAlike(s: string, p: Program, junk: map<int, Byte>, input: seq<int>, n: nat)
    requires CompiledFrom(s, p) && p.bound == Unchecked
    ensures OutputMatched(s, p, junk, input, n)
  {
    hide CompiledFrom, Source, Target;
    var i, j := RunsAlike(s, p, junk, input, n);
    SourceOrder(s, p.mem, input, n, i);
    TargetOrder(p, junk, input, n, j);
  }

  /**
   Compiler correctness, whatever is in the memory that malloc returns: the compiled program never
   gets stuck; it halts exactly if the source run ends, and then with the same input left, output,
   tape and head; and, ended or not, all that one of them outputs the other does too.
   */
  lemma CompilerCorrect(s: string, p: Program, junk: map<int, Byte>, input: seq<int>)
    requires CompiledFrom(s, p) && p.bound == Unchecked
    ensures forall n: nat :: Target(p, junk, input, n).status != Stuck
    ensures (exists n: nat :: Source(s, p.mem, input, n).pos >= |s|) <==>
            (exists n: nat :: Target(p, junk, input, n).status == Halted)
    ensures forall i: nat, j: nat ::
              Source(s, p.mem, input, i).pos >= |s| && Target(p, junk, input, j).status == Halted ==>
              Alike(s, p, Source(s, p.mem, input, i), Target(p, junk, input, j))
    ensures forall n: nat :: OutputMatched(s, p, junk, input, n)
  {
    hide CompiledFrom, Source, Target, Alike, OutputMatched;
    HaltsIff(s, p, junk, input);
    forall n: nat
      ensures Target(p, junk, input, n).status != Stuck && OutputMatched(s, p, junk, input, n)
    {
      NeverStuck(s, p, junk, input, n);
      OutputsAlike(s, p, junk, input, n);
    }
    forall i: nat, j: nat | Source(s, p.mem, input, i).pos >= |s| && Target(p, junk, input, j).status == Halted
      ensures Alike(s, p, Source(s, p.mem, input, i), Target(p, junk, input, j))
    {
      ResultsAlike(s, p, junk, input, i, j);
    }
  }

  lemma TargetOrder(p: Program, junk: map<int, Byte>, input: seq<int>, a: nat, b: nat)
    requires a <= b
    ensures Later(Target(p, junk, input, a), Target(p, junk, input, b))
  {
    RunOrder(p.blocks, Boot(junk, input), a, b);
  }

  lemma HaltedOnce(p: Program, junk: map<int, Byte>, input: seq<int>, a: nat, b: nat)
    requires Target(p, junk, input, a).status == Halted && Target(p, junk, input, b).status == Halted
    ensures Target(p, junk, input, a) == Target(p, junk, input, b)
  {
    if a <= b {
      TargetOrder(p, junk, input, a, b);
    } else {
      TargetOrder(p, junk, input, b, a);
    }
  }

  // ---------- Whole runs, moves checked ----------

  ghost function Tokens(p: Program, bound: Bound, input: seq<int>, n: nat): TokState {
    TokRun(p.code.toks, Mates(p), bound, TokStart(p.mem, input), n)
  }

  /**
   With checked moves and a nonempty tape every access is to memory that is allocated and not yet
   freed, whatever that held before; and at the end the tape has been freed, once.
   */
  lemma CheckedSafe(p: Program, junk: map<int, Byte>, input: seq<int>, n: nat)
    requires Compiled(p) && p.bound.Checked? && p.mem > 0
    ensures Target(p, junk, input, n).status != Stuck && !Target(p, junk, input, n).wild
    ensures Target(p, junk, input, n).status == Halted ==>
              Target(p, junk, input, n).heap.size == p.mem && Target(p, junk, input, n).heap.freed == [0]
  {
    hide Run, Boot, TokRun, Link, Emitted, Header;
    var k := ProgramSim(p, junk, input, n);
    TargetOrder(p, junk, input, n, k);
  }

  /** Up to step n the unchecked run stays on the tape. */
  ghost predicate StaysOnTape(p: Program, input: seq<int>, n: nat) {
    forall k: nat :: k <= n ==> 0 <= Tokens(p, Unchecked, input, k).head < p.mem
  }

  lemma StepOnTape(p: Program, t: TokState)
    requires p.bound.Checked? && p.bound.size == p.mem && !t.left && 0 <= t.head < p.mem
    ensures var u, c := TokStep(p.code.toks, Mates(p), Unchecked, t), TokStep(p.code.toks, Mates(p), p.bound, t);
            && (0 <= u.head < p.mem ==> c == u && !c.left)
            && (!(0 <= u.head < p.mem) ==>
                  && c == t.(head := u.head, left := true) && u.io == t.io
                  && t.pc < |p.code.toks| && p.code.toks[t.pc] == Move(u.head - t.head))
  {
  }

  /** As long as the unchecked run stays on the tape, the checked one is the same. */
  lemma {:induction false} SameOnTape(p: Program, input: seq<int>, n: nat)
    requires p.bound.Checked? && p.bound.size == p.mem && StaysOnTape(p, input, n)
    ensures Tokens(p, p.bound, input, n) == Tokens(p, Unchecked, input, n)
    ensures !Tokens(p, p.bound, input, n).left
    decreases n
  {
    hide TokStep, Link;
    if n > 0 {
      SameOnTape(p, input, n - 1);
      assert 0 <= Tokens(p, Unchecked, input, n - 1).head < p.mem;
      StepOnTape(p, Tokens(p, Unchecked, input, n - 1));
      assert 0 <= Tokens(p, Unchecked, input, n).head < p.mem;
    }
  }

  /** The checked program does what the unchecked token run does as long as that stays on the tape. */
  lemma CheckedSame(p: Program, junk: map<int, Byte>, input: seq<int>, n: nat) returns (k: nat)
    requires Compiled(p) && p.bound.Checked? && p.mem > 0 && StaysOnTape(p, input, n)
    ensures |p.code.at| == |p.code.toks| + 1
    ensures k >= n && Sim(p, Tokens(p, Unchecked, input, n), Target(p, junk, input, k)) && !Target(p, junk, input, k).erred
  {
    hide Run, Boot, TokRun, Link, Emitted, Header;
    SameOnTape(p, input, n);
    k := ProgramSim(p, junk, input, n);
  }

  /**
   At the first merged move that leaves the tape the checked program prints the message and halts,
   with the input, output and tape from before that move.
   */
  lemma CheckedLeaves(p: Program, junk: map<int, Byte>, input: seq<int>, n: nat) returns (k: nat)
    requires Compiled(p) && p.bound.Checked? && p.mem > 0
    requires StaysOnTape(p, input, n) && !(0 <= Tokens(p, Unchecked, input, n + 1).head < p.mem)
    ensures var t := Tokens(p, Unchecked, input, n);
            t.pc < |p.code.toks| && p.code.toks[t.pc] == Move(Tokens(p, Unchecked, input, n + 1).head - t.head)
    ensures var m := Target(p, junk, input, k);
            m.status == Halted && m.erred && m.io == Tokens(p, Unchecked, input, n).io
  {
    hide Run, Boot, TokStep, Link, Emitted, Header;
    SameOnTape(p, input, n);
    assert 0 <= Tokens(p, Unchecked, input, n).head < p.mem;
    StepOnTape(p, Tokens(p, Unchecked, input, n));
    k := ProgramSim(p, junk, input, n + 1);
  }
}
