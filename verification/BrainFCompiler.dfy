/**
 BrainF::parse, header and readloop: a lexer with one symbol of lookahead,
 fused with a recursive code generator that completes each loop's phi late.
 */
module BrainFCompiler {
  import opened BrainFLang
  import opened BrainFLexing
  import opened BrainFIR
  import opened BrainFCode

  datatype Symbol = NoSym | ReadSym | WriteSym | MoveSym | ChangeSym | LoopSym | EndLoopSym | EofSym

  /** The loop that readloop is compiling the body of: its test block and its first body block. */
  datatype Loop = NoLoop | InLoop(testbb: Label, oldbb: Label)

  datatype Outcome = Done | ExtraClose | MissingClose

  /** What a symbol whose run has value v stands for. */
  function SymToks(s: Symbol, v: int): seq<Tok> {
    match s
    case NoSym => []
    case ReadSym => [Read]
    case WriteSym => [Write]
    case MoveSym => [Move(v)]
    case ChangeSym => [Change(v)]
    case LoopSym => [Open]
    case EndLoopSym => [Close]
    case EofSym => []
  }

  /** The run that may still grow, if symbol s with value v is the latest one. */
  function RunOf(s: Symbol, v: int): Pending {
    match s
    case MoveSym => Moving(v)
    case ChangeSym => Changing(v)
    case _ => Idle
  }

  function SimpleSym(c: char): Symbol
    requires IsSimple(c)
  {
    if c == ',' then ReadSym else if c == '.' then WriteSym else if c == '[' then LoopSym else EndLoopSym
  }

  predicate MayGrow(s: Symbol) { s == NoSym || s == MoveSym || s == ChangeSym }

  /** The tokens still to come: those of both symbols, then those of the rest of the stream. */
  function Coming(src: string, pos: nat, cursym: Symbol, curvalue: int, nextsym: Symbol, nextvalue: int): seq<Tok>
    requires pos <= |src|
  {
    if nextsym == NoSym && MayGrow(cursym) then Lex(src, pos, RunOf(cursym, curvalue))
    else if MayGrow(nextsym) then SymToks(cursym, curvalue) + Lex(src, pos, RunOf(nextsym, nextvalue))
    else SymToks(cursym, curvalue) + SymToks(nextsym, nextvalue) + Lex(src, pos, Idle)
  }

  /** How symbols and stream position fit together between two rounds of readloop. */
  ghost predicate Ready(src: string, pos: nat, cursym: Symbol, nextsym: Symbol) {
    && pos <= |src|
    && (nextsym != NoSym <==> cursym in {MoveSym, ChangeSym})
    && (EofSym in {cursym, nextsym} ==> pos == |src|)
  }

  /** Rounds that take no character make this smaller. */
  ghost function Weight(cursym: Symbol, nextsym: Symbol): nat {
    if nextsym == NoSym then (if cursym in {EofSym, EndLoopSym} then 0 else 1)
    else if nextsym == EofSym then 2
    else 3
  }

  /** Reading one more character leaves the tokens still to come as they are: a character of +, -. */
  lemma ReadChange(src: string, pos: nat, cur: Symbol, v: int, n: int)
    requires pos < |src| && MayGrow(cur) && IsChange(src[pos])
    ensures var all := Coming(src, pos, cur, v, NoSym, n);
            var d := Direction(src[pos]);
            && (cur == ChangeSym ==> all == Coming(src, pos + 1, ChangeSym, v + d, NoSym, n))
            && (cur == NoSym ==> all == Coming(src, pos + 1, ChangeSym, d, NoSym, n))
            && (cur == MoveSym ==> all == Coming(src, pos + 1, cur, v, ChangeSym, d))
  {
  }

  /** A character of <, >. */
  lemma ReadMove(src: string, pos: nat, cur: Symbol, v: int, n: int)
    requires pos < |src| && MayGrow(cur) && IsMove(src[pos])
    ensures var all := Coming(src, pos, cur, v, NoSym, n);
            var d := Direction(src[pos]);
            && (cur == MoveSym ==> all == Coming(src, pos + 1, MoveSym, v + d, NoSym, n))
            && (cur == NoSym ==> all == Coming(src, pos + 1, MoveSym, d, NoSym, n))
            && (cur == ChangeSym ==> all == Coming(src, pos + 1, cur, v, MoveSym, d))
  {
  }

  /** Any other character. */
  lemma ReadOther(src: string, pos: nat, cur: Symbol, v: int, n: int)
    requires pos < |src| && MayGrow(cur) && !IsChange(src[pos]) && !IsMove(src[pos])
    ensures var all := Coming(src, pos, cur, v, NoSym, n);
            if !IsSimple(src[pos]) then all == Coming(src, pos + 1, cur, v, NoSym, n)
            else if cur == NoSym then all == Coming(src, pos + 1, SimpleSym(src[pos]), v, NoSym, n)
            else all == Coming(src, pos + 1, cur, v, SimpleSym(src[pos]), n)
  {
  }

  lemma ReadEof(src: string, cur: Symbol, v: int, n: int)
    requires MayGrow(cur)
    ensures Coming(src, |src|, cur, v, NoSym, n) ==
            if cur == NoSym then Coming(src, |src|, EofSym, v, NoSym, n) else Coming(src, |src|, cur, v, EofSym, n)
  {
  }

  /** Writing out the current symbol and moving the lookahead into its place loses nothing. */
  lemma ComingShift(ts: seq<Tok>, src: string, pos: nat, cur: Symbol, v: int, next: Symbol, n: int)
    requires Ready(src, pos, cur, next) && cur !in {EofSym, EndLoopSym}
    ensures ts + Coming(src, pos, cur, v, next, n) == ts + SymToks(cur, v) + Coming(src, pos, next, n, NoSym, 0)
    ensures cur == LoopSym ==> next == NoSym && SymToks(cur, v) == [Open]
  {
    assert Coming(src, pos, cur, v, next, n) == SymToks(cur, v) + Coming(src, pos, next, n, NoSym, 0);
  }

  lemma ComingLast(ts: seq<Tok>, src: string, pos: nat, cur: Symbol, v: int, next: Symbol, n: int)
    requires Ready(src, pos, cur, next) && cur in {EofSym, EndLoopSym}
    ensures cur == EndLoopSym ==> ts + Coming(src, pos, cur, v, next, n) == ts + [Close] + Lex(src, pos, Idle)
    ensures cur == EofSym ==> ts + Coming(src, pos, cur, v, next, n) == ts
  {
    assert ts + [] == ts;
    assert cur == EndLoopSym ==> Coming(src, pos, cur, v, next, n) == [Close] + Lex(src, pos, Idle);
  }

  lemma ExtraCloseUnbalanced(ts: seq<Tok>, rest: seq<Tok>)
    requires Link(ts, TokBracket).stack == []
    ensures !Balanced(ts + [Close] + rest, TokBracket) && !Link(ts + [Close] + rest, TokBracket).ok
  {
    LinkSnoc(ts, Close, TokBracket);
    LinkStaysBroken(ts + [Close], rest, TokBracket);
  }

  ghost predicate Innermost(stack: seq<nat>, at: seq<Point>, loop: Loop) {
    if loop == NoLoop then stack == []
    else
      && stack != []
      && var k := stack[|stack| - 1];
        k + 1 < |at| && at[k + 1].blk > 0
        && loop == InLoop(at[k + 1].blk - 1, at[k + 1].blk)
  }

  lemma InnermostStays(stack: seq<nat>, at: seq<Point>, at': seq<Point>, loop: Loop)
    requires Innermost(stack, at, loop) && at <= at'
    ensures Innermost(stack, at', loop)
  {
  }

  class BrainF {
    const src: string
    const bound: Bound
    const memtotal: nat
    var pos: nat
    var blocks: seq<Block>
    var insert: Label
    var curhead: Reg
    var nextreg: Reg
    ghost var code: Code

    /** The builder stands where the code of the next token starts. */
    ghost predicate Valid()
      reads this
    {
      && pos <= |src|
      && code.blocks == blocks && Emitted(bound, code)
      && HeaderKept(bound, memtotal, blocks, code.at)
      && insert < |blocks| && Last(code) == Point(insert, |blocks[insert].insts|, curhead, nextreg)
    }

    ghost function Stack(): seq<nat>
      reads this
    {
      Link(code.toks, TokBracket).stack
    }

    /** loop is the innermost one still open. */
    ghost predicate Inside(loop: Loop)
      reads this
    {
      Innermost(Stack(), code.at, loop)
    }

    /** All tokens of the stream: those emitted and those not yet read. */
    ghost function AllToks(): seq<Tok>
      reads this
      requires pos <= |src|
    {
      code.toks + Lex(src, pos, Idle)
    }

    /** The code is complete, and ends in a branch to the return block. */
    ghost predicate Finished()
      reads this
    {
      && Emitted(bound, code) && Stack() == []
      && blocks == EndProgram(code)
      && HeaderKept(bound, memtotal, code.blocks, code.at)
    }

    /** BrainF::header: the block that sets up the tape, and the footer blocks. */
    constructor (source: string, mem: nat, bounds: Bound)
      ensures src == source && bound == bounds && memtotal == mem
      ensures Valid() && pos == 0 && code == Header(bounds, mem)
    {
      src, bound, memtotal, pos := source, bounds, mem, 0;
      var body := [Malloc(ARR, mem), Memset(ARR, mem)];
      if bounds.Checked? {
        body := body + [Gep(ARRMAX, ARR, mem)];
      }
      body := body + [Gep(FIRST, ARR, mem / 2)];
      var bs := [Block(NoPhi, body, Unfinished), Block(NoPhi, [Free(ARR)], Ret)];
      if bounds.Checked? {
        bs := bs + [Block(NoPhi, [Puts], Br(ENDBB))];
      }
      blocks, insert, curhead, nextreg := bs, ENTRY, FIRST, FIRST + 1;
      code := Header(bounds, mem);
      HeaderEmitted(bounds, mem);
      assert body == Header(bounds, mem).blocks[0].insts;
      assert bs == Header(bounds, mem).blocks;
    }

    /** Insert the instructions of one symbol that uses regs new registers and leaves curhead at head. */
    method Insert(ghost t: Tok, xs: seq<Inst>, regs: nat, head: Reg)
      requires Valid() && TokBracket(t) == Plain && !Branches(bound, t)
      requires xs == StraightInsts(bound, t, Last(code))
      requires NextPoint(bound, code, t) == Point(insert, |blocks[insert].insts| + |xs|, head, nextreg + regs)
      modifies this`blocks, this`curhead, this`nextreg, this`code
      ensures Valid() && code.toks == old(code.toks) + [t] && old(code.at) <= code.at
    {
      AddStraightKeeps(bound, code, t);
      blocks := blocks[insert := blocks[insert].(insts := blocks[insert].insts + xs)];
      curhead, nextreg := head, nextreg + regs;
      code := AddStraight(bound, code, t);
    }

    /** A move that leaves the tape branches to the error block. */
    method InsertCheckedMove(k: int)
      requires Valid() && bound.Checked?
      modifies this`blocks, this`insert, this`curhead, this`nextreg, this`code
      ensures Valid() && code.toks == old(code.toks) + [Move(k)] && old(code.at) <= code.at
    {
      AddStraightKeeps(bound, code, Move(k));
      var n, nextbb := nextreg, |blocks|;
      var xs := [Gep(n, curhead, k), Uge(n + 1, n, ARRMAX), Ult(n + 2, n, ARR), Or(n + 3, n + 1, n + 2)];
      blocks := blocks[insert := blocks[insert].(insts := blocks[insert].insts + xs)];
      blocks := blocks[insert := blocks[insert].(term := CondBr(n + 3, ABERROR, nextbb))];
      blocks := blocks + [Block(NoPhi, [], Unfinished)];
      insert, curhead, nextreg := nextbb, n, n + 4;
      code := AddStraight(bound, code, Move(k));
    }

    /** Branch to a new test block, start its phi, and go on in a new body block. */
    method InsertOpen() returns (loop: Loop)
      requires Valid()
      modifies this`blocks, this`insert, this`curhead, this`nextreg, this`code
      ensures Valid() && code.toks == old(code.toks) + [Open] && old(code.at) <= code.at
      ensures Stack() == old(Stack()) + [|old(code.toks)|] && loop != NoLoop && Inside(loop)
    {
      OpenLoopKeeps(bound, code);
      LinkSnoc(code.toks, Open, TokBracket);
      var testbb, bb1 := |blocks|, |blocks| + 1;
      blocks := blocks[insert := blocks[insert].(term := Br(testbb))] + [Block(NoPhi, [], Unfinished), Block(NoPhi, [], Unfinished)];
      blocks := blocks[testbb := blocks[testbb].(phi := Phi(nextreg, [(curhead, insert)]))];
      insert, curhead, nextreg := bb1, nextreg, nextreg + 1;
      loop := InLoop(testbb, bb1);
      assert blocks == OpenLoop(code).blocks;
      code := OpenLoop(code);
    }

    /** Branch back to the test block, complete its phi, add the test, and go on after the loop. */
    method InsertClose(loop: Loop)
      requires Valid() && loop != NoLoop && Inside(loop)
      modifies this`blocks, this`insert, this`curhead, this`nextreg, this`code
      ensures Valid() && code.toks == old(code.toks) + [Close] && old(code.at) <= code.at
      ensures Stack() == old(Stack())[..|old(Stack())| - 1]
    {
      hide Emitted, TokCode, Link;
      ghost var k := Stack()[|Stack()| - 1];
      EmittedShape(bound, code);
      CloseTop(bound, code);
      TopIsOpen(bound, code, k);
      CloseLoopKeeps(bound, code, k);
      LinkSnoc(code.toks, Close, TokBracket);
      var test, bb0 := loop.testbb, |blocks|;
      blocks := blocks[insert := blocks[insert].(term := Br(test))];
      var phi := blocks[test].phi;
      blocks := blocks[test := Block(Phi(phi.dst, phi.incoming + [(curhead, insert)]),
                                     blocks[test].insts + [Load(nextreg, phi.dst), IsZero(nextreg + 1, nextreg)],
                                     CondBr(nextreg + 1, bb0, loop.oldbb))];
      blocks := blocks + [Block(Phi(nextreg + 2, [(phi.dst, test)]), [], Unfinished)];
      insert, curhead, nextreg := bb0, nextreg + 2, nextreg + 3;
      assert phi.incoming + [(old(curhead), old(insert))] == [phi.incoming[0], (old(curhead), old(insert))];
      assert blocks[test] == CloseLoop(code, k).blocks[test];
      assert blocks == CloseLoop(code, k).blocks;
      code := CloseLoop(code, k);
    }

    /** Write out the commands of a symbol, other than the one that ends a loop or the input. */
    method WriteOut(cursym: Symbol, curvalue: int)
      requires Valid() && cursym !in {LoopSym, EndLoopSym, EofSym}
      modifies this`blocks, this`insert, this`curhead, this`nextreg, this`code
      ensures Valid() && Stack() == old(Stack()) && old(code.at) <= code.at
      ensures code.toks == old(code.toks) + SymToks(cursym, curvalue)
    {
      var n := nextreg;
      match cursym
      case NoSym =>
      case ReadSym =>
        Insert(Read, [GetChar(n), Trunc(n + 1, n), Store(n + 1, curhead)], 2, curhead);
      case WriteSym =>
        Insert(Write, [Load(n, curhead), SExt(n + 1, n), PutChar(n + 1)], 2, curhead);
      case MoveSym =>
        if bound.Checked? {
          InsertCheckedMove(curvalue);
        } else {
          Insert(Move(curvalue), [Gep(n, curhead, curvalue)], 1, n);
        }
      case ChangeSym =>
        Insert(Change(curvalue), [Load(n, curhead), Add(n + 1, n, curvalue % 256), Store(n + 1, curhead)], 2, curhead);
      if cursym != NoSym {
        LinkSnoc(old(code.toks), SymToks(cursym, curvalue)[0], TokBracket);
      }
    }

    /** The end of the program: go to the return block. */
    method InsertEnd()
      requires Valid() && Stack() == []
      modifies this`blocks
      ensures Finished() && Balanced(code.toks, TokBracket)
    {
      EmittedShape(bound, code);
      hide Emitted, Link;
      blocks := blocks[insert := blocks[insert].(term := Br(ENDBB))];
    }

    /** The stream-reading loop: extend a run, or stop with the next symbol. */
    method ReadSymbols(cursym0: Symbol, curvalue0: int) returns (cursym: Symbol, curvalue: int, nextsym: Symbol, nextvalue: int)
      requires pos <= |src| && (cursym0 == EofSym ==> pos == |src|)
      modifies this`pos
      ensures old(pos) <= pos <= |src|
      ensures Ready(src, pos, cursym, nextsym) && cursym != NoSym
      ensures Coming(src, pos, cursym, curvalue, nextsym, nextvalue) == Coming(src, old(pos), cursym0, curvalue0, NoSym, 0)
      ensures cursym0 != NoSym ==> cursym == cursym0
      ensures pos == old(pos) ==> (cursym0 == NoSym ==> cursym == EofSym) && nextsym in {NoSym, EofSym}
    {
      hide Coming;
      cursym, curvalue, nextsym, nextvalue := cursym0, curvalue0, NoSym, 0;
      var loop := MayGrow(cursym);
      while loop
        invariant old(pos) <= pos <= |src|
        invariant Coming(src, pos, cursym, curvalue, nextsym, nextvalue) == Coming(src, old(pos), cursym0, curvalue0, NoSym, 0)
        invariant loop ==> nextsym == NoSym && MayGrow(cursym)
        invariant !loop ==> Ready(src, pos, cursym, nextsym) && cursym != NoSym
        invariant cursym0 != NoSym ==> cursym == cursym0
        invariant pos == old(pos) ==> if loop then cursym == cursym0 else (cursym0 == NoSym ==> cursym == EofSym) && nextsym in {NoSym, EofSym}
        decreases |src| - pos, loop
      {
        if pos == |src| {
          ReadEof(src, cursym, curvalue, nextvalue);
          if cursym == NoSym {
            cursym := EofSym;
          } else {
            nextsym := EofSym;
          }
          loop := false;
        } else {
          var c := src[pos];
          if IsChange(c) {
            ReadChange(src, pos, cursym, curvalue, nextvalue);
            if cursym == ChangeSym {
              curvalue := curvalue + Direction(c);
            } else if cursym == NoSym {
              cursym, curvalue := ChangeSym, Direction(c);
            } else {
              nextsym, nextvalue, loop := ChangeSym, Direction(c), false;
            }
          } else if IsMove(c) {
            ReadMove(src, pos, cursym, curvalue, nextvalue);
            if cursym == MoveSym {
              curvalue := curvalue + Direction(c);
            } else if cursym == NoSym {
              cursym, curvalue := MoveSym, Direction(c);
            } else {
              nextsym, nextvalue, loop := MoveSym, Direction(c), false;
            }
          } else {
            ReadOther(src, pos, cursym, curvalue, nextvalue);
            if IsSimple(c) {
              if cursym == NoSym {
                cursym := SimpleSym(c);
              } else {
                nextsym := SimpleSym(c);
              }
              loop := false;
            }
          }
          pos := pos + 1;
        }
      }
    }

    /** Compile up to the end of the loop, or of the input. */
    method ReadLoop(loop: Loop) returns (out: Outcome)
      requires Valid() && Inside(loop)
      modifies this`pos, this`blocks, this`insert, this`curhead, this`nextreg, this`code
      ensures out == Done && loop != NoLoop ==>
                && Valid() && pos > old(pos)
                && AllToks() == old(AllToks())
                && Stack() == old(Stack())[..|old(Stack())| - 1]
                && old(code.at) <= code.at
      ensures out == Done && loop == NoLoop ==>
                Finished() && code.toks == old(AllToks()) && Balanced(code.toks, TokBracket)
      ensures out != Done ==> !Balanced(old(AllToks()), TokBracket) && (out == ExtraClose <==> !Link(old(AllToks()), TokBracket).ok)
      decreases |src| - pos, 1
    {
      hide Emitted, Link, Coming, Lex, SymToks, Balanced, Innermost;
      var cursym, curvalue, nextsym, nextvalue := NoSym, 0, NoSym, 0;
      StartComing(src, pos, 0);
      while cursym != EofSym && cursym != EndLoopSym
        invariant Valid() && Inside(loop) && Stack() == old(Stack()) && old(code.at) <= code.at
        invariant old(pos) <= pos && Ready(src, pos, cursym, nextsym)
        invariant code.toks + Coming(src, pos, cursym, curvalue, nextsym, nextvalue) == old(AllToks())
        invariant cursym !in {NoSym, EofSym} ==> pos > old(pos)
        decreases |src| - pos, Weight(cursym, nextsym)
      {
        ghost var at := code.at;
        ComingShift(code.toks, src, pos, cursym, curvalue, nextsym, nextvalue);
        if cursym == LoopSym {
          StartComing(src, pos, nextvalue);
          out := ReadInner();
          if out != Done {
            return;
          }
          StartComing(src, pos, nextvalue);
        } else {
          WriteOut(cursym, curvalue);
        }
        InnermostStays(Stack(), at, code.at, loop);
        cursym, curvalue, nextsym, nextvalue := ReadSymbols(nextsym, nextvalue);
      }
      ComingLast(code.toks, src, pos, cursym, curvalue, nextsym, nextvalue);
      out := LeaveLoop(loop, cursym);
    }

    /** Compile the loop that an opening bracket starts. */
    method ReadInner() returns (out: Outcome)
      requires Valid()
      modifies this`pos, this`blocks, this`insert, this`curhead, this`nextreg, this`code
      ensures out == Done ==>
                && Valid() && pos > old(pos)
                && AllToks() == old(code.toks + [Open] + Lex(src, pos, Idle))
                && Stack() == old(Stack())
                && old(code.at) <= code.at
      ensures out != Done ==> !Balanced(old(code.toks + [Open] + Lex(src, pos, Idle)), TokBracket)
      ensures out != Done ==> (out == ExtraClose <==> !Link(old(code.toks + [Open] + Lex(src, pos, Idle)), TokBracket).ok)
      decreases |src| - pos, 2
    {
      hide Emitted, Link, Lex, Balanced, Innermost;
      var inner := InsertOpen();
      out := ReadLoop(inner);
    }

    /** After the reading loop: the loop test, the end of the program, or an error. */
    method LeaveLoop(loop: Loop, cursym: Symbol) returns (out: Outcome)
      requires Valid() && Inside(loop) && cursym in {EofSym, EndLoopSym}
      modifies this`blocks, this`insert, this`curhead, this`nextreg, this`code
      ensures out == Done && loop != NoLoop ==>
                && Valid() && cursym == EndLoopSym && code.toks == old(code.toks) + [Close]
                && Stack() == old(Stack())[..|old(Stack())| - 1]
                && old(code.at) <= code.at
      ensures out == Done && loop == NoLoop ==>
                Finished() && cursym == EofSym && code.toks == old(code.toks) && Balanced(code.toks, TokBracket)
      ensures out != Done && cursym == EndLoopSym ==> !Balanced(old(code.toks) + [Close] + Lex(src, pos, Idle), TokBracket)
      ensures out != Done && cursym == EndLoopSym ==> out == ExtraClose && !Link(old(code.toks) + [Close] + Lex(src, pos, Idle), TokBracket).ok
      ensures out != Done && cursym == EofSym ==> !Balanced(old(code.toks), TokBracket) && out == MissingClose && Link(old(code.toks), TokBracket).ok
    {
      hide Emitted, Link, Lex;
      if cursym == EndLoopSym {
        if loop == NoLoop {
          ExtraCloseUnbalanced(code.toks, Lex(src, pos, Idle));
          return ExtraClose;
        }
        InsertClose(loop);
        return Done;
      }
      if loop != NoLoop {
        EmittedShape(bound, code);
        return MissingClose;
      }
      InsertEnd();
      return Done;
    }
  }

  /**
   BrainF::parse. It succeeds exactly on bracket-balanced sources, and then the blocks are
   well-formed control flow compiled from the source's tokens.
   */
  method Parse(source: string, mem: nat, bounds: Bound) returns (out: Outcome, blocks: seq<Block>, ghost p: Program)
    requires bounds.Checked? ==> bounds.size == mem
    ensures out == Done <==> Balanced(source, CharBracket)
    ensures out == ExtraClose <==> !Link(source, CharBracket).ok
    ensures out == Done ==> AllFinished(blocks) && PhisMatch(blocks)
    ensures out == Done ==>
              Compiled(p) && p.bound == bounds && p.mem == mem && p.blocks == blocks && p.code.toks == Toks(source)
  {
    var b := new BrainF(source, mem, bounds);
    assert b.Stack() == [];
    assert b.AllToks() == Toks(source);
    WholeAligned(source);
    hide Emitted, Link, Lex, Header, Balanced;
    out := b.ReadLoop(NoLoop);
    blocks := b.blocks;
    p := Program(bounds, mem, b.code, blocks);
    if out == Done {
      EndProgramFlow(bounds, b.code);
    }
  }

  lemma StartComing(src: string, pos: nat, v: int)
    requires pos <= |src|
    ensures Coming(src, pos, NoSym, v, NoSym, 0) == Lex(src, pos, Idle)
  {
  }
}
