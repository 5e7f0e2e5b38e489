/**
 The source language of examples/BrainF: its meaning one character at a time,
 its meaning one merged token at a time, and the proof that the two agree.
 */
module BrainFLang {

  type Byte = b: int | 0 <= b < 256

  /** What a run can change besides its own position: tape, remaining input and output so far. */
  datatype Io = Io(tape: map<int, Byte>, input: seq<int>, output: seq<Byte>)

  /** The tape is zeroed before the run, so an unwritten cell reads as 0. */
  function Cell(io: Io, head: int): Byte {
    if head in io.tape then io.tape[head] else 0
  }

  /** Add k to the current cell, modulo 256. */
  function Bump(io: Io, head: int, k: int): Io {
    io.(tape := io.tape[head := (Cell(io, head) + k) % 256])
  }

  /** getchar: the next input character, or -1 at the end of the input. */
  function NextChar(io: Io): int {
    if io.input == [] then -1 else io.input[0]
  }

  function DropChar(io: Io): Io {
    if io.input == [] then io else io.(input := io.input[1..])
  }

  function ReadCell(io: Io, head: int): Io {
    DropChar(io).(tape := io.tape[head := NextChar(io) % 256])
  }

  function WriteCell(io: Io, head: int): Io {
    io.(output := io.output + [Cell(io, head)])
  }

  lemma BumpTwice(io: Io, head: int, a: int, b: int)
    ensures Bump(Bump(io, head, a), head, b) == Bump(io, head, a + b)
  {
    var v := Cell(io, head);
    assert ((v + a) % 256 + b) % 256 == (v + a + b) % 256;
    assert io.tape[head := (v + a) % 256][head := (v + a + b) % 256] == io.tape[head := (v + a + b) % 256];
  }

  lemma BumpNothing(io: Io, head: int)
    requires head in io.tape
    ensures Bump(io, head, 0) == io
  {
    assert io.tape[head := io.tape[head]] == io.tape;
  }

  // ---------- Matching brackets, for any alphabet ----------

  datatype Bracket = Plain | Opens | Closes

  /** The brackets still open, innermost last, and the partner of each closed one. */
  datatype Links = Links(ok: bool, stack: seq<nat>, mate: map<nat, nat>)

  function Advance(l: Links, n: nat, b: Bracket): Links {
    if !l.ok then l
    else match b
      case Plain => l
      case Opens => l.(stack := l.stack + [n])
      case Closes =>
        if l.stack == [] then l.(ok := false)
        else
          var top := |l.stack| - 1;
          var o := l.stack[top];
          Links(true, l.stack[..top], l.mate[o := n][n := o])
  }

  function Link<T>(xs: seq<T>, kind: T -> Bracket): Links {
    if xs == [] then Links(true, [], map[])
    else
      var n := |xs| - 1;
      Advance(Link(xs[..n], kind), n, kind(xs[n]))
  }

  predicate Balanced<T>(xs: seq<T>, kind: T -> Bracket) {
    var l := Link(xs, kind);
    l.ok && l.stack == []
  }

  lemma LinkSnoc<T>(xs: seq<T>, x: T, kind: T -> Bracket)
    ensures Link(xs + [x], kind) == Advance(Link(xs, kind), |xs|, kind(x))
  {
    assert (xs + [x])[..|xs|] == xs;
  }

  /** Once a closing bracket has no partner, no continuation repairs it. */
  lemma {:induction false} LinkStaysBroken<T>(xs: seq<T>, ys: seq<T>, kind: T -> Bracket)
    requires !Link(xs, kind).ok
    ensures !Link(xs + ys, kind).ok
    decreases |ys|
  {
    if ys == [] {
      assert xs + ys == xs;
    } else {
      var n := |ys| - 1;
      LinkStaysBroken(xs, ys[..n], kind);
      assert xs + ys == (xs + ys[..n]) + [ys[n]];
      LinkSnoc(xs + ys[..n], ys[n], kind);
    }
  }

  /** The open brackets, innermost last, have no partner yet. */
  ghost predicate StackOk<T>(xs: seq<T>, kind: T -> Bracket, l: Links) {
    && (forall k :: 0 <= k < |l.stack| ==> l.stack[k] < |xs| && kind(xs[l.stack[k]]) == Opens && l.stack[k] !in l.mate)
    && (forall j, k :: 0 <= j < k < |l.stack| ==> l.stack[j] < l.stack[k])
  }

  /** Partners point at each other, an opening bracket at a later closing one. */
  ghost predicate MatesOk<T>(xs: seq<T>, kind: T -> Bracket, l: Links) {
    forall i :: i in l.mate ==>
      && i < |xs| && l.mate[i] in l.mate && l.mate[l.mate[i]] == i
      && kind(xs[i]) == (if i < l.mate[i] then Opens else Closes)
      && i != l.mate[i]
  }

  /** Every bracket is open or has a partner. */
  ghost predicate Complete<T>(xs: seq<T>, kind: T -> Bracket, l: Links) {
    l.ok ==> forall i :: 0 <= i < |xs| && kind(xs[i]) != Plain ==> i in l.mate || i in l.stack
  }

  lemma {:induction false} LinkWellFormed<T>(xs: seq<T>, kind: T -> Bracket)
    ensures StackOk(xs, kind, Link(xs, kind))
    ensures MatesOk(xs, kind, Link(xs, kind))
    ensures Complete(xs, kind, Link(xs, kind))
  {
    if xs != [] {
      var n := |xs| - 1;
      var ys := xs[..n];
      LinkWellFormed(ys, kind);
      AdvanceStack(xs, kind, Link(ys, kind));
      AdvanceMates(xs, kind, Link(ys, kind));
      AdvanceComplete(xs, kind, Link(ys, kind));
    }
  }

  lemma AdvanceStack<T>(xs: seq<T>, kind: T -> Bracket, l: Links)
    requires xs != [] && StackOk(xs[..|xs| - 1], kind, l) && MatesOk(xs[..|xs| - 1], kind, l)
    ensures StackOk(xs, kind, Advance(l, |xs| - 1, kind(xs[|xs| - 1])))
  {
  }

  lemma AdvanceMates<T>(xs: seq<T>, kind: T -> Bracket, l: Links)
    requires xs != [] && StackOk(xs[..|xs| - 1], kind, l) && MatesOk(xs[..|xs| - 1], kind, l)
    ensures MatesOk(xs, kind, Advance(l, |xs| - 1, kind(xs[|xs| - 1])))
  {
    var n := |xs| - 1;
    if l.ok && kind(xs[n]) == Closes && l.stack != [] {
      var o := l.stack[|l.stack| - 1];
      var mate := Advance(l, n, Closes).mate;
      assert forall i :: i in mate <==> i in l.mate || i == o || i == n;
      assert forall i :: i in l.mate ==> mate[i] == l.mate[i] && l.mate[i] != o && l.mate[i] != n;
    }
  }

  lemma AdvanceComplete<T>(xs: seq<T>, kind: T -> Bracket, l: Links)
    requires xs != [] && Complete(xs[..|xs| - 1], kind, l)
    ensures Complete(xs, kind, Advance(l, |xs| - 1, kind(xs[|xs| - 1])))
  {
    var n := |xs| - 1;
    var m := Advance(l, n, kind(xs[n]));
    if m.ok {
      forall i | 0 <= i < |xs| && kind(xs[i]) != Plain
        ensures i in m.mate || i in m.stack
      {
        if i < n {
          assert kind(xs[..n][i]) != Plain;
        } else if kind(xs[n]) == Opens {
          assert m.stack[|l.stack|] == n;
        }
      }
    }
  }

  // ---------- One character at a time ----------

  function CharBracket(c: char): Bracket {
    if c == '[' then Opens else if c == ']' then Closes else Plain
  }

  datatype CharState = CharState(pos: nat, head: int, io: Io)

  /**
   The direct interpreter. A closing bracket goes back to just after its
   partner while the cell is not 0; an opening one skips its loop when it is.
   */
  function CharStep(s: string, mate: map<nat, nat>, c: CharState): CharState {
    if c.pos >= |s| then c
    else match s[c.pos]
      case '+' => CharState(c.pos + 1, c.head, Bump(c.io, c.head, 1))
      case '-' => CharState(c.pos + 1, c.head, Bump(c.io, c.head, -1))
      case '>' => CharState(c.pos + 1, c.head + 1, c.io)
      case '<' => CharState(c.pos + 1, c.head - 1, c.io)
      case ',' => CharState(c.pos + 1, c.head, ReadCell(c.io, c.head))
      case '.' => CharState(c.pos + 1, c.head, WriteCell(c.io, c.head))
      case '[' =>
        if Cell(c.io, c.head) == 0 && c.pos in mate then c.(pos := mate[c.pos] + 1) else c.(pos := c.pos + 1)
      case ']' =>
        if Cell(c.io, c.head) != 0 && c.pos in mate then c.(pos := mate[c.pos] + 1) else c.(pos := c.pos + 1)
      case _ => c.(pos := c.pos + 1)
  }

  function CharRun(s: string, mate: map<nat, nat>, c: CharState, n: nat): CharState
    decreases n
  {
    if n == 0 then c else CharRun(s, mate, CharStep(s, mate, c), n - 1)
  }

  lemma {:induction false} CharRunAdd(s: string, mate: map<nat, nat>, c: CharState, a: nat, b: nat)
    ensures CharRun(s, mate, c, a + b) == CharRun(s, mate, CharRun(s, mate, c, a), b)
    decreases a
  {
    if a > 0 {
      CharRunAdd(s, mate, CharStep(s, mate, c), a - 1, b);
    }
  }

  // ---------- One token at a time ----------

  datatype Tok = Read | Write | Move(k: int) | Change(k: int) | Open | Close

  function TokBracket(t: Tok): Bracket {
    match t
    case Open => Opens
    case Close => Closes
    case _ => Plain
  }

  /** Whether moves are checked against the tape, and its size if they are. */
  datatype Bound = Unchecked | Checked(size: nat)

  predicate OffTape(bound: Bound, head: int) {
    bound.Checked? && !(0 <= head < bound.size)
  }

  /** left is set once a checked move has left the tape; the run then stops. */
  datatype TokState = TokState(pc: nat, head: int, io: Io, left: bool)

  function TokStep(toks: seq<Tok>, mate: map<nat, nat>, bound: Bound, t: TokState): TokState {
    if t.left || t.pc >= |toks| then t
    else match toks[t.pc]
      case Read => t.(pc := t.pc + 1, io := ReadCell(t.io, t.head))
      case Write => t.(pc := t.pc + 1, io := WriteCell(t.io, t.head))
      case Change(k) => t.(pc := t.pc + 1, io := Bump(t.io, t.head, k))
      case Move(k) =>
        var h := t.head + k;
        if OffTape(bound, h) then t.(head := h, left := true) else t.(pc := t.pc + 1, head := h)
      case Open =>
        if Cell(t.io, t.head) == 0 && t.pc in mate then t.(pc := mate[t.pc] + 1) else t.(pc := t.pc + 1)
      case Close =>
        if Cell(t.io, t.head) != 0 && t.pc in mate then t.(pc := mate[t.pc] + 1) else t.(pc := t.pc + 1)
  }

  function TokRun(toks: seq<Tok>, mate: map<nat, nat>, bound: Bound, t: TokState, n: nat): TokState
    decreases n
  {
    if n == 0 then t else TokStep(toks, mate, bound, TokRun(toks, mate, bound, t, n - 1))
  }

  // ---------- Lexing with merged runs ----------

  /** The run of moves or changes being merged, if any. */
  datatype Pending = Idle | Moving(k: int) | Changing(k: int)

  function Flush(p: Pending): seq<Tok> {
    match p
    case Idle => []
    case Moving(k) => [Move(k)]
    case Changing(k) => [Change(k)]
  }

  predicate IsChange(c: char) { c == '+' || c == '-' }

  predicate IsMove(c: char) { c == '<' || c == '>' }

  predicate IsSimple(c: char) { c == ',' || c == '.' || c == '[' || c == ']' }

  function Direction(c: char): int { if c == '-' || c == '<' then -1 else 1 }

  function Simple(c: char): Tok
    requires IsSimple(c)
  {
    if c == ',' then Read else if c == '.' then Write else if c == '[' then Open else Close
  }

  /** The run that symbol c starts or extends, given that p is pending. */
  function Extend(p: Pending, c: char): Pending
    requires IsChange(c) || IsMove(c)
  {
    if IsChange(c) then Changing((if p.Changing? then p.k else 0) + Direction(c))
    else Moving((if p.Moving? then p.k else 0) + Direction(c))
  }

  predicate Extends(p: Pending, c: char) {
    (p.Changing? && IsChange(c)) || (p.Moving? && IsMove(c))
  }

  /** The tokens that are complete once c is read while p is pending. */
  function Emit(p: Pending, c: char): seq<Tok> {
    if Extends(p, c) then []
    else if IsChange(c) || IsMove(c) then Flush(p)
    else if IsSimple(c) then Flush(p) + [Simple(c)]
    else []
  }

  /** What is pending once c is read while p is pending. */
  function Next(p: Pending, c: char): Pending {
    if Extends(p, c) then Extend(p, c)
    else if IsChange(c) || IsMove(c) then Extend(Idle, c)
    else if IsSimple(c) then Idle
    else p
  }

  /** The tokens of s[pos..] when p is pending: maximal runs merge, other characters are ignored. */
  function Lex(s: string, pos: nat, p: Pending): seq<Tok>
    requires pos <= |s|
    decreases |s| - pos
  {
    if pos == |s| then Flush(p) else Emit(p, s[pos]) + Lex(s, pos + 1, Next(p, s[pos]))
  }

  /** Where the characters of the tokens of Emit end, if c stands at pos. */
  ghost function EmitEnds(p: Pending, c: char, pos: nat): (es: seq<nat>)
    ensures |es| == |Emit(p, c)|
  {
    var here := if p.Idle? then [] else [pos];
    if Extends(p, c) then []
    else if IsChange(c) || IsMove(c) then here
    else if IsSimple(c) then here + [pos + 1]
    else []
  }

  /** For each token of Lex, the position at which the characters it stands for end. */
  ghost function Ends(s: string, pos: nat, p: Pending): (es: seq<nat>)
    requires pos <= |s|
    ensures |es| == |Lex(s, pos, p)|
    decreases |s| - pos
  {
    if pos == |s| then (if p.Idle? then [] else [pos])
    else EmitEnds(p, s[pos], pos) + Ends(s, pos + 1, Next(p, s[pos]))
  }
}
