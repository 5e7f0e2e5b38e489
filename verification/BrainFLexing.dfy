/**
 Merging runs is meaning-preserving: the token stream that the lexer of
 BrainF::readloop produces runs in step with the characters it came from.
 */
module BrainFLexing {
  import opened BrainFLang

  function Toks(s: string): seq<Tok> { Lex(s, 0, Idle) }

  ghost function TokEnds(s: string): seq<nat> { Ends(s, 0, Idle) }

  /** What the first token t of a region does to c, not counting the part of it, p, that is already done. */
  ghost function Ran(p: Pending, t: Tok, end: nat, c: CharState): CharState {
    match (p, t)
    case (Moving(j), Move(k)) => CharState(end, c.head + k - j, c.io)
    case (Changing(j), Change(k)) => CharState(end, c.head, Bump(c.io, c.head, k - j))
    case _ => c
  }

  ghost predicate SameKind(p: Pending, t: Tok) {
    (p.Moving? && t.Move?) || (p.Changing? && t.Change?)
  }

  /** The characters of a run that is already pending do, one by one, what the merged token does at once. */
  ghost predicate Region(s: string, mate: map<nat, nat>, p: Pending, c: CharState)
    requires c.pos <= |s|
  {
    && Lex(s, c.pos, p) != [] && SameKind(p, Lex(s, c.pos, p)[0])
    && var e := Ends(s, c.pos, p)[0];
      && c.pos <= e <= |s|
      && Lex(s, c.pos, p)[1..] == Lex(s, e, Idle)
      && Ends(s, c.pos, p)[1..] == Ends(s, e, Idle)
      && CharRun(s, mate, c, e - c.pos) == Ran(p, Lex(s, c.pos, p)[0], e, c)
  }

  lemma RegionEnd(s: string, mate: map<nat, nat>, p: Pending, c: CharState)
    requires c.pos <= |s| && p != Idle
    requires p.Changing? ==> c.head in c.io.tape
    requires c.pos == |s| || (!Extends(p, s[c.pos]) && (IsChange(s[c.pos]) || IsMove(s[c.pos]) || IsSimple(s[c.pos])))
    ensures Region(s, mate, p, c)
  {
    hide CharStep;
    LexEnd(s, c.pos, p);
    hide Lex, Ends;
    if p.Changing? {
      BumpNothing(c.io, c.head);
    }
  }

  /** A pending run ends here: from its token on, lexing goes on as if nothing were pending. */
  lemma LexEnd(s: string, pos: nat, p: Pending)
    requires pos <= |s| && p != Idle
    requires pos == |s| || (!Extends(p, s[pos]) && (IsChange(s[pos]) || IsMove(s[pos]) || IsSimple(s[pos])))
    ensures Lex(s, pos, p) == Flush(p) + Lex(s, pos, Idle)
    ensures Ends(s, pos, p) == [pos] + Ends(s, pos, Idle)
  {
    if pos < |s| {
      hide Lex, Ends, Emit, EmitEnds, Next;
      LexUnfold(s, pos, p);
      LexUnfold(s, pos, Idle);
      EmitEnd(p, s[pos], pos);
      var q := Next(Idle, s[pos]);
      Regroup(Flush(p), Emit(Idle, s[pos]), Lex(s, pos + 1, q));
      Regroup([pos], EmitEnds(Idle, s[pos], pos), Ends(s, pos + 1, q));
    }
  }

  lemma Regroup<T>(a: seq<T>, b: seq<T>, c: seq<T>)
    ensures a + b + c == a + (b + c)
  {
  }

  lemma EmitEnd(p: Pending, c: char, pos: nat)
    requires p != Idle && !Extends(p, c) && (IsChange(c) || IsMove(c) || IsSimple(c))
    ensures Next(p, c) == Next(Idle, c)
    ensures Emit(p, c) == Flush(p) + Emit(Idle, c)
    ensures EmitEnds(p, c, pos) == [pos] + EmitEnds(Idle, c, pos)
  {
  }

  lemma RunOn(s: string, mate: map<nat, nat>, c: CharState, n: nat)
    requires n > 0
    ensures CharRun(s, mate, c, n) == CharRun(s, mate, CharStep(s, mate, c), n - 1)
  {
  }

  /** What a character of a run does. */
  lemma RunStep(s: string, mate: map<nat, nat>, c: CharState)
    requires c.pos < |s|
    ensures IsChange(s[c.pos]) ==>
              CharStep(s, mate, c) == CharState(c.pos + 1, c.head, Bump(c.io, c.head, Direction(s[c.pos])))
    ensures IsMove(s[c.pos]) ==> CharStep(s, mate, c) == CharState(c.pos + 1, c.head + Direction(s[c.pos]), c.io)
    ensures !IsChange(s[c.pos]) && !IsMove(s[c.pos]) && !IsSimple(s[c.pos]) ==>
              CharStep(s, mate, c) == c.(pos := c.pos + 1)
  {
  }

  lemma LexNext(s: string, pos: nat, p: Pending)
    requires pos < |s| && Emit(p, s[pos]) == []
    ensures Lex(s, pos, p) == Lex(s, pos + 1, Next(p, s[pos]))
    ensures Ends(s, pos, p) == Ends(s, pos + 1, Next(p, s[pos]))
  {
  }

  lemma RegionExtend(s: string, mate: map<nat, nat>, p: Pending, c: CharState)
    requires c.pos < |s| && Extends(p, s[c.pos])
    requires Region(s, mate, Extend(p, s[c.pos]), CharStep(s, mate, c))
    ensures Region(s, mate, p, c)
  {
    hide Lex, Ends, CharStep, CharRun;
    var q := Extend(p, s[c.pos]);
    var d := CharStep(s, mate, c);
    RunStep(s, mate, c);
    LexNext(s, c.pos, p);
    var e := Ends(s, d.pos, q)[0];
    RunOn(s, mate, c, e - c.pos);
    if p.Changing? {
      BumpTwice(c.io, c.head, Direction(s[c.pos]), Lex(s, d.pos, q)[0].k - q.k);
    }
  }

  lemma RegionSkip(s: string, mate: map<nat, nat>, p: Pending, c: CharState)
    requires c.pos < |s| && !IsChange(s[c.pos]) && !IsMove(s[c.pos]) && !IsSimple(s[c.pos])
    requires Region(s, mate, p, CharStep(s, mate, c))
    ensures Region(s, mate, p, c)
  {
    hide Lex, Ends, CharStep, CharRun;
    RunStep(s, mate, c);
    LexNext(s, c.pos, p);
    RunOn(s, mate, c, Ends(s, c.pos + 1, p)[0] - c.pos);
  }

  lemma {:induction false} RunRegion(s: string, mate: map<nat, nat>, p: Pending, c: CharState)
    requires c.pos <= |s| && p != Idle
    requires p.Changing? ==> c.head in c.io.tape
    ensures Region(s, mate, p, c)
    decreases |s| - c.pos
  {
    if c.pos == |s| || (!Extends(p, s[c.pos]) && (IsChange(s[c.pos]) || IsMove(s[c.pos]) || IsSimple(s[c.pos]))) {
      RegionEnd(s, mate, p, c);
    } else if Extends(p, s[c.pos]) {
      RunRegion(s, mate, Extend(p, s[c.pos]), CharStep(s, mate, c));
      RegionExtend(s, mate, p, c);
    } else {
      RunRegion(s, mate, p, CharStep(s, mate, c));
      RegionSkip(s, mate, p, c);
    }
  }

  /** From a token boundary: the characters up to the end of the next token, without a bracket's jump. */
  ghost predicate Reaches(s: string, mate: map<nat, nat>, c: CharState, t: Tok, end: nat)
    requires c.pos < end <= |s|
  {
    match t
    case Move(k) => CharRun(s, mate, c, end - c.pos) == CharState(end, c.head + k, c.io)
    case Change(k) => CharRun(s, mate, c, end - c.pos) == CharState(end, c.head, Bump(c.io, c.head, k))
    case _ =>
      && CharRun(s, mate, c, end - 1 - c.pos) == c.(pos := end - 1)
      && IsSimple(s[end - 1]) && Simple(s[end - 1]) == t
  }

  ghost predicate IdleRegion(s: string, mate: map<nat, nat>, c: CharState)
    requires c.pos <= |s|
  {
    && Lex(s, c.pos, Idle) != []
    && var e := Ends(s, c.pos, Idle)[0];
      && c.pos < e <= |s|
      && Lex(s, c.pos, Idle)[1..] == Lex(s, e, Idle)
      && Ends(s, c.pos, Idle)[1..] == Ends(s, e, Idle)
      && Reaches(s, mate, c, Lex(s, c.pos, Idle)[0], e)
  }

  /** The first character of a run, then the rest of it. */
  lemma IdleRun(s: string, mate: map<nat, nat>, c: CharState)
    requires c.pos < |s| && (IsChange(s[c.pos]) || IsMove(s[c.pos]))
    ensures IdleRegion(s, mate, c)
  {
    hide Lex, Ends, CharStep, CharRun;
    var p := Extend(Idle, s[c.pos]);
    var d := CharStep(s, mate, c);
    RunStep(s, mate, c);
    LexNext(s, c.pos, Idle);
    RunRegion(s, mate, p, d);
    RunOn(s, mate, c, Ends(s, d.pos, p)[0] - c.pos);
    if IsChange(s[c.pos]) {
      BumpTwice(c.io, c.head, Direction(s[c.pos]), Lex(s, d.pos, p)[0].k - p.k);
    }
  }

  lemma IdleSimple(s: string, mate: map<nat, nat>, c: CharState)
    requires c.pos < |s| && IsSimple(s[c.pos])
    ensures IdleRegion(s, mate, c)
  {
    hide CharStep;
    assert CharRun(s, mate, c, 0) == c;
  }

  lemma IdleSkip(s: string, mate: map<nat, nat>, c: CharState)
    requires c.pos < |s| && !IsChange(s[c.pos]) && !IsMove(s[c.pos]) && !IsSimple(s[c.pos])
    requires IdleRegion(s, mate, c.(pos := c.pos + 1))
    ensures IdleRegion(s, mate, c)
  {
    hide Lex, Ends, CharStep, CharRun;
    RunStep(s, mate, c);
    LexNext(s, c.pos, Idle);
    var e := Ends(s, c.pos + 1, Idle)[0];
    RunOn(s, mate, c, e - c.pos);
    if e - 1 > c.pos {
      RunOn(s, mate, c, e - 1 - c.pos);
    }
  }

  lemma {:induction false} NextRegion(s: string, mate: map<nat, nat>, c: CharState)
    requires c.pos <= |s| && Lex(s, c.pos, Idle) != []
    ensures IdleRegion(s, mate, c)
    decreases |s| - c.pos
  {
    if IsChange(s[c.pos]) || IsMove(s[c.pos]) {
      IdleRun(s, mate, c);
    } else if IsSimple(s[c.pos]) {
      IdleSimple(s, mate, c);
    } else {
      LexNext(s, c.pos, Idle);
      NextRegion(s, mate, c.(pos := c.pos + 1));
      IdleSkip(s, mate, c);
    }
  }

  /** Past the last token only ignored characters are left. */
  lemma {:induction false} IdleTail(s: string, mate: map<nat, nat>, c: CharState)
    requires c.pos <= |s| && Lex(s, c.pos, Idle) == []
    ensures c.pos < |s| ==> CharStep(s, mate, c) == c.(pos := c.pos + 1) && Lex(s, c.pos + 1, Idle) == []
  {
    if c.pos < |s| && (IsChange(s[c.pos]) || IsMove(s[c.pos])) {
      RunRegion(s, mate, Extend(Idle, s[c.pos]), CharState(c.pos + 1, 0, Io(map[0 := 0], [], [])));
    }
  }

  /** Lexing can be resumed at the end of any token. */
  lemma {:induction false} LexAt(s: string, pos: nat, i: nat)
    requires pos <= |s| && i < |Lex(s, pos, Idle)|
    ensures var e := Ends(s, pos, Idle)[i];
            && pos < e <= |s|
            && Lex(s, e, Idle) == Lex(s, pos, Idle)[i + 1..]
            && Ends(s, e, Idle) == Ends(s, pos, Idle)[i + 1..]
    decreases i
  {
    NextRegion(s, map[], CharState(pos, 0, Io(map[], [], [])));
    if i > 0 {
      LexAt(s, Ends(s, pos, Idle)[0], i - 1);
    }
  }

  // ---------- Brackets of characters and of tokens match alike ----------

  ghost predicate Increasing(es: seq<nat>) {
    forall i, j :: 0 <= i < j < |es| ==> es[i] < es[j]
  }

  /** Token i ends with the character at p. */
  ghost predicate Maps(es: seq<nat>, i: nat, p: nat) {
    i < |es| && p + 1 == es[i]
  }

  /** lc links characters, lt links tokens, and es[i] is where token i ends. */
  ghost predicate Aligned(lc: Links, lt: Links, es: seq<nat>) {
    && lc.ok == lt.ok
    && |lc.stack| == |lt.stack|
    && (forall k {:trigger lt.stack[k]} :: 0 <= k < |lt.stack| ==> Maps(es, lt.stack[k], lc.stack[k]))
    && (forall i {:trigger i in lt.mate} :: i in lt.mate ==> Paired(lc, lt, es, i))
  }

  ghost predicate Paired(lc: Links, lt: Links, es: seq<nat>, i: nat)
    requires i in lt.mate
  {
    exists p: nat :: Maps(es, i, p) && p in lc.mate && Maps(es, lt.mate[i], lc.mate[p])
  }

  lemma PairedMeans(lc: Links, lt: Links, es: seq<nat>, i: nat)
    requires i in lt.mate && Paired(lc, lt, es, i)
    ensures i < |es| && es[i] > 0 && es[i] - 1 in lc.mate && Maps(es, lt.mate[i], lc.mate[es[i] - 1])
  {
  }

  lemma PairedSnoc(lc: Links, lt: Links, es: seq<nat>, e: nat, i: nat)
    requires i in lt.mate && Paired(lc, lt, es, i)
    ensures Paired(lc, lt, es + [e], i)
  {
    PairedMeans(lc, lt, es, i);
    assert Maps(es + [e], i, es[i] - 1) && Maps(es + [e], lt.mate[i], lc.mate[es[i] - 1]);
  }

  lemma AlignPlain(lc: Links, lt: Links, es: seq<nat>, e: nat)
    requires Aligned(lc, lt, es)
    ensures Aligned(lc, lt, es + [e])
  {
    forall i | i in lt.mate
      ensures Paired(lc, lt, es + [e], i)
    {
      PairedSnoc(lc, lt, es, e, i);
    }
  }

  lemma AlignAdvance(lc: Links, lt: Links, es: seq<nat>, e: nat, b: Bracket)
    requires Aligned(lc, lt, es) && Increasing(es + [e]) && e > 0
    ensures Aligned(Advance(lc, e - 1, b), Advance(lt, |es|, b), es + [e])
  {
    AlignPlain(lc, lt, es, e);
    if lt.ok && b == Opens {
      assert Maps(es + [e], |es|, e - 1);
    } else if lt.ok && b == Closes && lt.stack != [] {
      AlignClose(lc, lt, es + [e]);
    }
  }

  /** Closing the innermost bracket with the last token. */
  lemma AlignClose(lc: Links, lt: Links, es: seq<nat>)
    requires Aligned(lc, lt, es) && Increasing(es) && es != [] && es[|es| - 1] > 0
    requires lt.ok && lt.stack != []
    ensures Aligned(Advance(lc, es[|es| - 1] - 1, Closes), Advance(lt, |es| - 1, Closes), es)
  {
    var n := |es| - 1;
    var o := lt.stack[|lt.stack| - 1];
    var lt', lc' := Advance(lt, n, Closes), Advance(lc, es[n] - 1, Closes);
    assert Maps(es, o, lc.stack[|lc.stack| - 1]) && Maps(es, n, es[n] - 1);
    forall i | i in lt'.mate
      ensures Paired(lc', lt', es, i)
    {
      if i == o || i == n {
        assert Maps(es, lt'.mate[i], lc'.mate[es[i] - 1]);
      } else {
        PairedMeans(lc, lt, es, i);
        assert es[i] != es[o] && es[i] != es[n];
        assert Maps(es, i, es[i] - 1) && lc'.mate[es[i] - 1] == lc.mate[es[i] - 1];
      }
    }
  }

  /** ts are the tokens finished before pos, ending at es; p is pending. */
  ghost predicate Prefix(s: string, pos: nat, p: Pending, ts: seq<Tok>, es: seq<nat>)
    requires pos <= |s|
  {
    && |ts| == |es| && Increasing(es)
    && (es == [] || es[|es| - 1] < pos || (p.Idle? && es[|es| - 1] == pos))
    && (p != Idle ==> pos > 0)
    && Aligned(Link(s[..pos], CharBracket), Link(ts, TokBracket), es)
  }

  lemma IncreasingSnoc(es: seq<nat>, e: nat)
    requires Increasing(es) && (es == [] || es[|es| - 1] < e)
    ensures Increasing(es + [e])
  {
  }

  /** The pending run, if any, becomes a token that ends at pos. */
  lemma PrefixFlush(s: string, pos: nat, p: Pending, ts: seq<Tok>, es: seq<nat>)
    requires pos <= |s| && Prefix(s, pos, p, ts, es)
    ensures Prefix(s, pos, Idle, ts + Flush(p), es + (if p.Idle? then [] else [pos]))
  {
    hide Aligned, Link;
    if p.Idle? {
      assert ts + [] == ts && es + [] == es;
    } else {
      LinkSnoc(ts, Flush(p)[0], TokBracket);
      IncreasingSnoc(es, pos);
      AlignPlain(Link(s[..pos], CharBracket), Link(ts, TokBracket), es, pos);
    }
  }

  lemma PrefixSimple(s: string, pos: nat, ts: seq<Tok>, es: seq<nat>)
    requires pos < |s| && Prefix(s, pos, Idle, ts, es) && IsSimple(s[pos])
    ensures Prefix(s, pos + 1, Idle, ts + [Simple(s[pos])], es + [pos + 1])
  {
    hide Aligned, Link, Advance;
    var t := Simple(s[pos]);
    LinkSnoc(ts, t, TokBracket);
    LinkSnoc(s[..pos], s[pos], CharBracket);
    assert s[..pos + 1] == s[..pos] + [s[pos]];
    IncreasingSnoc(es, pos + 1);
    assert CharBracket(s[pos]) == TokBracket(t);
    AlignAdvance(Link(s[..pos], CharBracket), Link(ts, TokBracket), es, pos + 1, TokBracket(t));
  }

  /** A character that is not a bracket neither opens nor closes anything. */
  lemma PrefixPlain(s: string, pos: nat, p: Pending, q: Pending, ts: seq<Tok>, es: seq<nat>)
    requires pos < |s| && Prefix(s, pos, p, ts, es) && CharBracket(s[pos]) == Plain
    ensures Prefix(s, pos + 1, q, ts, es)
  {
    hide Aligned, Link;
    LinkSnoc(s[..pos], s[pos], CharBracket);
    assert s[..pos + 1] == s[..pos] + [s[pos]];
  }

  lemma LexUnfold(s: string, pos: nat, p: Pending)
    requires pos < |s|
    ensures Lex(s, pos, p) == Emit(p, s[pos]) + Lex(s, pos + 1, Next(p, s[pos]))
    ensures Ends(s, pos, p) == EmitEnds(p, s[pos], pos) + Ends(s, pos + 1, Next(p, s[pos]))
  {
  }

  lemma {:induction false} LinkAligned(s: string, pos: nat, p: Pending, ts: seq<Tok>, es: seq<nat>)
    requires pos <= |s| && Prefix(s, pos, p, ts, es)
    ensures Prefix(s, |s|, Idle, ts + Lex(s, pos, p), es + Ends(s, pos, p))
    decreases |s| - pos
  {
    hide Prefix;
    if pos == |s| {
      PrefixFlush(s, pos, p, ts, es);
    } else {
      hide Lex, Ends, Emit, EmitEnds, Next;
      var ts', es', q := Emit(p, s[pos]), EmitEnds(p, s[pos], pos), Next(p, s[pos]);
      LexUnfold(s, pos, p);
      PrefixEmit(s, pos, p, ts, es);
      LinkAligned(s, pos + 1, q, ts + ts', es + es');
      Regroup(ts, ts', Lex(s, pos + 1, q));
      Regroup(es, es', Ends(s, pos + 1, q));
    }
  }

  lemma PrefixEmit(s: string, pos: nat, p: Pending, ts: seq<Tok>, es: seq<nat>)
    requires pos < |s| && Prefix(s, pos, p, ts, es)
    ensures Prefix(s, pos + 1, Next(p, s[pos]), ts + Emit(p, s[pos]), es + EmitEnds(p, s[pos], pos))
  {
    hide Prefix;
    var c := s[pos];
    var here := if p.Idle? then [] else [pos];
    if Extends(p, c) || !(IsChange(c) || IsMove(c) || IsSimple(c)) {
      PrefixPlain(s, pos, p, Next(p, c), ts, es);
      assert ts + [] == ts && es + [] == es;
    } else {
      PrefixFlush(s, pos, p, ts, es);
      if IsSimple(c) {
        PrefixSimple(s, pos, ts + Flush(p), es + here);
        assert ts + Flush(p) + [Simple(c)] == ts + (Flush(p) + [Simple(c)]);
        assert es + here + [pos + 1] == es + (here + [pos + 1]);
      } else {
        PrefixPlain(s, pos, Idle, Extend(Idle, c), ts + Flush(p), es + here);
      }
    }
  }

  ghost function CharMates(s: string): map<nat, nat> { Link(s, CharBracket).mate }

  ghost function TokMates(s: string): map<nat, nat> { Link(Toks(s), TokBracket).mate }

  lemma WholeAligned(s: string)
    ensures Aligned(Link(s, CharBracket), Link(Toks(s), TokBracket), TokEnds(s))
    ensures Balanced(s, CharBracket) <==> Balanced(Toks(s), TokBracket)
  {
    assert s[..0] == [];
    LinkAligned(s, 0, Idle, [], []);
    assert [] + Toks(s) == Toks(s) && [] + TokEnds(s) == TokEnds(s);
    assert s[..|s|] == s;
  }

  // ---------- Running in step ----------

  /** c stands where the next token of t starts, and both have the same head, tape, input and output. */
  ghost predicate InStep(s: string, c: CharState, t: TokState) {
    && c.pos <= |s| && t.pc <= |Toks(s)|
    && Lex(s, c.pos, Idle) == Toks(s)[t.pc..]
    && Ends(s, c.pos, Idle) == TokEnds(s)[t.pc..]
    && c.head == t.head && c.io == t.io && !t.left
  }

  /** One token is one or more characters. */
  lemma StepInStep(s: string, c: CharState, t: TokState) returns (k: nat)
    requires Balanced(s, CharBracket) && InStep(s, c, t)
    ensures k >= 1
    ensures InStep(s, CharRun(s, CharMates(s), c, k), TokStep(Toks(s), TokMates(s), Unchecked, t))
  {
    hide CharStep, TokStep, Balanced, Link;
    var mate := CharMates(s);
    if t.pc == |Toks(s)| {
      EndInStep(s, c, t);
      k := 1;
      RunOn(s, mate, c, 1);
    } else {
      hide Ends;
      assert Toks(s)[t.pc..][0] == Toks(s)[t.pc];
      NextRegion(s, mate, c);
      hide Lex;
      assert TokEnds(s)[t.pc..][0] == TokEnds(s)[t.pc];
      k := TokEnds(s)[t.pc] - c.pos;
      hide InStep;
      if Toks(s)[t.pc].Move? || Toks(s)[t.pc].Change? {
        RunTokInStep(s, c, t);
      } else {
        SymbolInStep(s, c, t);
      }
    }
  }

  lemma EndInStep(s: string, c: CharState, t: TokState)
    requires InStep(s, c, t) && t.pc == |Toks(s)|
    ensures InStep(s, CharStep(s, CharMates(s), c), TokStep(Toks(s), TokMates(s), Unchecked, t))
  {
    hide Link, Lex;
    IdleTail(s, CharMates(s), c);
    hide CharStep;
  }

  lemma SymbolInStep(s: string, c: CharState, t: TokState)
    requires Balanced(s, CharBracket) && InStep(s, c, t) && t.pc < |Toks(s)| && IdleRegion(s, CharMates(s), c)
    requires !Toks(s)[t.pc].Move? && !Toks(s)[t.pc].Change?
    ensures c.pos < TokEnds(s)[t.pc]
    ensures InStep(s, CharRun(s, CharMates(s), c, TokEnds(s)[t.pc] - c.pos),
                   TokStep(Toks(s), TokMates(s), Unchecked, t))
  {
    hide Lex, Ends, CharStep, TokStep, Balanced, Link;
    var tok, e := Toks(s)[t.pc], TokEnds(s)[t.pc];
    assert Toks(s)[t.pc..][0] == tok && TokEnds(s)[t.pc..][0] == e;
    var d := c.(pos := e - 1);
    CharRunAdd(s, CharMates(s), c, e - 1 - c.pos, 1);
    RunOn(s, CharMates(s), d, 1);
    assert AtSymbol(s, d, t);
    hide InStep, AtSymbol;
    if tok.Open? || tok.Close? {
      BracketInStep(s, d, t);
    } else {
      IoInStep(s, d, t);
    }
  }

  lemma RunTokInStep(s: string, c: CharState, t: TokState)
    requires InStep(s, c, t) && t.pc < |Toks(s)| && IdleRegion(s, CharMates(s), c)
    requires Toks(s)[t.pc].Move? || Toks(s)[t.pc].Change?
    ensures c.pos <= TokEnds(s)[t.pc]
    ensures InStep(s, CharRun(s, CharMates(s), c, TokEnds(s)[t.pc] - c.pos),
                   TokStep(Toks(s), TokMates(s), Unchecked, t))
  {
    hide Lex, Ends, CharStep, CharRun, Link;
    assert Toks(s)[t.pc..][0] == Toks(s)[t.pc] && TokEnds(s)[t.pc..][0] == TokEnds(s)[t.pc];
    assert Toks(s)[t.pc..][1..] == Toks(s)[t.pc + 1..] && TokEnds(s)[t.pc..][1..] == TokEnds(s)[t.pc + 1..];
  }

  /** d stands at the character that token t.pc, not a run, stands for. */
  ghost predicate AtSymbol(s: string, d: CharState, t: TokState) {
    && t.pc < |Toks(s)| && !t.left
    && d.pos < |s| && d.pos + 1 == TokEnds(s)[t.pc] && d.head == t.head && d.io == t.io
    && IsSimple(s[d.pos]) && Simple(s[d.pos]) == Toks(s)[t.pc]
  }

  lemma IoInStep(s: string, d: CharState, t: TokState)
    requires AtSymbol(s, d, t) && Toks(s)[t.pc] in {Tok.Read, Tok.Write}
    ensures InStep(s, CharStep(s, CharMates(s), d), TokStep(Toks(s), TokMates(s), Unchecked, t))
  {
    hide Lex, Ends, Link, CharStep, TokStep;
    LexAt(s, 0, t.pc);
    IoSteps(s, d, t);
  }

  lemma IoSteps(s: string, d: CharState, t: TokState)
    requires AtSymbol(s, d, t) && Toks(s)[t.pc] in {Tok.Read, Tok.Write}
    ensures var io := if Toks(s)[t.pc].Read? then ReadCell(t.io, t.head) else WriteCell(t.io, t.head);
            && CharStep(s, CharMates(s), d) == CharState(d.pos + 1, d.head, io)
            && TokStep(Toks(s), TokMates(s), Unchecked, t) == t.(pc := t.pc + 1, io := io)
  {
    hide Lex, Ends, Link, ReadCell, WriteCell;
  }

  /** Whether a bracket goes to just after its partner. */
  ghost predicate Jumps(io: Io, head: int, t: Tok) {
    if t.Open? then Cell(io, head) == 0 else Cell(io, head) != 0
  }

  lemma BracketSteps(s: string, d: CharState, t: TokState)
    requires AtSymbol(s, d, t) && Toks(s)[t.pc] in {Tok.Open, Tok.Close}
    requires t.pc in TokMates(s) && d.pos in CharMates(s)
    ensures CharStep(s, CharMates(s), d) ==
            d.(pos := if Jumps(d.io, d.head, Toks(s)[t.pc]) then CharMates(s)[d.pos] + 1 else d.pos + 1)
    ensures TokStep(Toks(s), TokMates(s), Unchecked, t) ==
            t.(pc := if Jumps(t.io, t.head, Toks(s)[t.pc]) then TokMates(s)[t.pc] + 1 else t.pc + 1)
  {
    hide Lex, Ends, Link;
  }

  /** A bracket jumps from its character to where its partner token ends. */
  lemma BracketInStep(s: string, d: CharState, t: TokState)
    requires Balanced(s, CharBracket)
    requires AtSymbol(s, d, t) && Toks(s)[t.pc] in {Tok.Open, Tok.Close}
    ensures InStep(s, CharStep(s, CharMates(s), d), TokStep(Toks(s), TokMates(s), Unchecked, t))
  {
    hide Lex, Ends, Link, CharStep, TokStep, Balanced, Jumps;
    var j := MateInStep(s, t.pc);
    LexAt(s, 0, t.pc);
    LexAt(s, 0, j);
    BracketSteps(s, d, t);
  }

  lemma MateInStep(s: string, i: nat) returns (j: nat)
    requires Balanced(s, CharBracket)
    requires i < |Toks(s)| && Toks(s)[i] in {Tok.Open, Tok.Close}
    ensures i in TokMates(s) && j == TokMates(s)[i] && j < |Toks(s)|
    ensures TokEnds(s)[i] > 0 && TokEnds(s)[i] - 1 in CharMates(s)
    ensures CharMates(s)[TokEnds(s)[i] - 1] + 1 == TokEnds(s)[j]
  {
    hide Lex, Ends, Link;
    WholeAligned(s);
    LinkWellFormed(Toks(s), TokBracket);
    assert TokBracket(Toks(s)[i]) != Plain;
    j := TokMates(s)[i];
    PairedMeans(Link(s, CharBracket), Link(Toks(s), TokBracket), TokEnds(s), i);
  }

  /**
   However long the token run, some at least as long character run reaches the same head,
   tape, remaining input and output.
   */
  lemma {:induction false} RunInStep(s: string, c: CharState, t: TokState, n: nat) returns (k: nat)
    requires Balanced(s, CharBracket) && InStep(s, c, t)
    ensures k >= n
    ensures InStep(s, CharRun(s, CharMates(s), c, k), TokRun(Toks(s), TokMates(s), Unchecked, t, n))
  {
    if n == 0 {
      k := 0;
    } else {
      hide InStep, CharStep, TokStep, Balanced, Link, Lex, Ends;
      var j := RunInStep(s, c, t, n - 1);
      var i := StepInStep(s, CharRun(s, CharMates(s), c, j), TokRun(Toks(s), TokMates(s), Unchecked, t, n - 1));
      k := j + i;
      CharRunAdd(s, CharMates(s), c, j, i);
    }
  }
}
