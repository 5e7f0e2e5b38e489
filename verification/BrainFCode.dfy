/**
 What BrainF::readloop has emitted so far: for each token, the code between the
 point at which it starts and the point at which the next one does. The lemmas
 say that each of the compiler's four ways to extend the code keeps this true.
 */
module BrainFCode {
  import opened BrainFLang
  import opened BrainFIR

  /** Where code goes next: a block, the number of instructions in it, curhead, and the next unused register. */
  datatype Point = Point(blk: Label, idx: nat, head: Reg, next: Reg)

  /** The fixed blocks and registers of BrainF::header. */
  const ARR: Reg := 0
  const ARRMAX: Reg := 1
  const FIRST: Reg := 2
  const ENTRY: Label := 0
  const ENDBB: Label := 1
  const ABERROR: Label := 2

  /** The code so far, with the points at which its tokens start. */
  datatype Code = Code(blocks: seq<Block>, toks: seq<Tok>, at: seq<Point>)

  ghost predicate InstsAt(blocks: seq<Block>, p: Point, xs: seq<Inst>) {
    && p.blk < |blocks|
    && p.idx + |xs| <= |blocks[p.blk].insts|
    && blocks[p.blk].insts[p.idx..p.idx + |xs|] == xs
  }

  ghost predicate EndsWith(blocks: seq<Block>, b: Label, idx: nat, t: Term) {
    b < |blocks| && idx == |blocks[b].insts| && blocks[b].term == t
  }

  ghost predicate HasPhi(blocks: seq<Block>, b: Label, phi: Phi) {
    b < |blocks| && blocks[b].phi == phi
  }

  /** The instructions of a token that is not a bracket. */
  function StraightInsts(bound: Bound, t: Tok, p: Point): seq<Inst>
    requires TokBracket(t) == Plain
  {
    var n := p.next;
    match t
    case Read => [GetChar(n), Trunc(n + 1, n), Store(n + 1, p.head)]
    case Write => [Load(n, p.head), SExt(n + 1, n), PutChar(n + 1)]
    case Change(k) => [Load(n, p.head), Add(n + 1, n, k % 256), Store(n + 1, p.head)]
    case Move(k) =>
      if bound.Unchecked? then [Gep(n, p.head, k)]
      else [Gep(n, p.head, k), Uge(n + 1, n, ARRMAX), Ult(n + 2, n, ARR), Or(n + 3, n + 1, n + 2)]
  }

  /** The code of a token that is not a bracket runs from p to q. */
  ghost predicate Straight(bound: Bound, blocks: seq<Block>, t: Tok, p: Point, q: Point)
    requires TokBracket(t) == Plain
  {
    && InstsAt(blocks, p, StraightInsts(bound, t, p))
    && (if t.Move? then
          if bound.Unchecked? then q == Point(p.blk, p.idx + 1, p.next, p.next + 1)
          else
            && EndsWith(blocks, p.blk, p.idx + 4, CondBr(p.next + 3, ABERROR, q.blk))
            && q == Point(q.blk, 0, p.next, p.next + 4)
            && HasPhi(blocks, q.blk, NoPhi)
        else q == Point(p.blk, p.idx + 3, p.head, p.next + 2))
  }

  /** An opening bracket from p to q: the test block is there, its phi not yet complete. */
  ghost predicate Opened(blocks: seq<Block>, p: Point, q: Point) {
    && q == Point(q.blk, 0, p.next, p.next + 1) && p.blk + 2 <= q.blk
    && EndsWith(blocks, p.blk, p.idx, Br(q.blk - 1))
    && HasPhi(blocks, q.blk, NoPhi)
    && blocks[q.blk - 1] == Block(Phi(q.head, [(p.head, p.blk)]), [], Unfinished)
  }

  /** A whole loop: its opening bracket from p to q, its closing one from r to x. */
  ghost predicate Looped(blocks: seq<Block>, p: Point, q: Point, r: Point, x: Point) {
    && q == Point(q.blk, 0, p.next, p.next + 1) && p.blk + 2 <= q.blk
    && EndsWith(blocks, p.blk, p.idx, Br(q.blk - 1))
    && EndsWith(blocks, r.blk, r.idx, Br(q.blk - 1))
    && p.blk != r.blk && q.next <= r.next
    && HasPhi(blocks, q.blk, NoPhi)
    && blocks[q.blk - 1] == Block(Phi(q.head, [(p.head, p.blk), (r.head, r.blk)]),
                                  [Load(r.next, q.head), IsZero(r.next + 1, r.next)],
                                  CondBr(r.next + 1, x.blk, q.blk))
    && x == Point(x.blk, 0, r.next + 2, r.next + 3)
    && HasPhi(blocks, x.blk, Phi(x.head, [(q.head, q.blk - 1)]))
  }

  ghost predicate TokCode(bound: Bound, c: Code, l: Links, i: nat)
    requires |c.at| == |c.toks| + 1 && i < |c.toks|
  {
    if TokBracket(c.toks[i]) == Plain then Straight(bound, c.blocks, c.toks[i], c.at[i], c.at[i + 1])
    else if c.toks[i].Close? then true
    else if i !in l.mate then Opened(c.blocks, c.at[i], c.at[i + 1])
    else l.mate[i] < |c.toks| && Looped(c.blocks, c.at[i], c.at[i + 1], c.at[l.mate[i]], c.at[l.mate[i] + 1])
  }

  /** Code goes to ever later blocks and registers. */
  ghost predicate Shape(c: Code) {
    && |c.at| == |c.toks| + 1
    && (forall i :: 0 <= i < |c.at| ==>
          c.at[i].blk < |c.blocks| && FIRST <= c.at[i].head < c.at[i].next)
    && (forall i, j :: 0 <= i < j < |c.at| ==> c.at[i].blk <= c.at[j].blk && c.at[i].next <= c.at[j].next)
  }

  function Last(c: Code): Point
    requires |c.at| == |c.toks| + 1
  {
    c.at[|c.toks|]
  }

  /** The block being written and the test blocks of open loops are the ones without a terminator. */
  ghost predicate Pending(c: Code, l: Links, b: Label)
    requires |c.at| == |c.toks| + 1
  {
    b == Last(c).blk || exists k :: k in l.stack && k < |c.toks| && c.at[k + 1].blk == b + 1
  }

  ghost predicate Terminated(c: Code, l: Links)
    requires |c.at| == |c.toks| + 1
  {
    forall b :: 0 <= b < |c.blocks| ==> (c.blocks[b].term == Unfinished <==> Pending(c, l, b))
  }

  ghost predicate InRange(blocks: seq<Block>) {
    forall b, t :: 0 <= b < |blocks| && t in Succs(blocks[b].term) ==> t < |blocks|
  }

  /** The invariant of code generation, between tokens. */
  ghost predicate Emitted(bound: Bound, c: Code) {
    var l := Link(c.toks, TokBracket);
    && Shape(c) && l.ok
    && (forall i :: 0 <= i < |c.toks| ==> TokCode(bound, c, l, i))
    && Last(c).idx == |c.blocks[Last(c).blk].insts|
    && Terminated(c, l)
    && PhisMatch(c.blocks) && InRange(c.blocks)
    && Footer(bound, c.blocks)
  }

  /** The return block, and the error block if moves are checked. */
  ghost predicate Footer(bound: Bound, blocks: seq<Block>) {
    && |blocks| > ENDBB && blocks[ENDBB] == Block(NoPhi, [Free(ARR)], Ret)
    && (bound.Checked? ==> |blocks| > ABERROR && blocks[ABERROR] == Block(NoPhi, [Puts], Br(ENDBB)))
  }

  lemma EmittedShape(bound: Bound, c: Code)
    requires Emitted(bound, c)
    ensures Shape(c) && Last(c).idx == |c.blocks[Last(c).blk].insts| && Link(c.toks, TokBracket).ok
  {
  }

  // ---------- Extending blocks ----------

  function Append(blocks: seq<Block>, b: Label, xs: seq<Inst>): seq<Block>
    requires b < |blocks|
  {
    blocks[b := blocks[b].(insts := blocks[b].insts + xs)]
  }

  function Finish(blocks: seq<Block>, b: Label, t: Term): seq<Block>
    requires b < |blocks|
  {
    blocks[b := blocks[b].(term := t)]
  }

  /** Finished blocks stay, others keep their instructions, and all but block x their phi. */
  ghost predicate Grows(a: seq<Block>, b: seq<Block>, x: Label) {
    && |a| <= |b|
    && (forall k :: 0 <= k < |a| ==> a[k].insts <= b[k].insts)
    && (forall k :: 0 <= k < |a| ==> a[k].term != Unfinished ==> b[k] == a[k])
    && (forall k :: 0 <= k < |a| && k != x ==> b[k].phi == a[k].phi)
  }

  lemma StraightGrows(bound: Bound, a: seq<Block>, b: seq<Block>, x: Label, t: Tok, p: Point, q: Point)
    requires Grows(a, b, x) && TokBracket(t) == Plain
    requires Straight(bound, a, t, p, q) && q.blk != x
    ensures Straight(bound, b, t, p, q)
  {
    var xs := StraightInsts(bound, t, p);
    SamePart(a[p.blk].insts, b[p.blk].insts, p.idx, p.idx + |xs|);
  }

  lemma SamePart<T>(xs: seq<T>, ys: seq<T>, i: nat, j: nat)
    requires xs <= ys && i <= j <= |xs|
    ensures xs[i..j] == ys[i..j]
  {
  }

  lemma LoopedGrows(a: seq<Block>, b: seq<Block>, x: Label, p: Point, q: Point, r: Point, y: Point)
    requires Grows(a, b, x)
    requires Looped(a, p, q, r, y) && q.blk != x && y.blk != x
    ensures Looped(b, p, q, r, y)
  {
  }

  lemma OpenedGrows(a: seq<Block>, b: seq<Block>, x: Label, p: Point, q: Point)
    requires Grows(a, b, x)
    requires Opened(a, p, q) && q.blk != x && b[q.blk - 1] == a[q.blk - 1]
    ensures Opened(b, p, q)
  {
  }

  // ---------- The code of the tokens before the new one ----------

  ghost predicate SameMate(l: Links, m: Links, i: nat) {
    (i in l.mate <==> i in m.mate) && (i in l.mate ==> l.mate[i] == m.mate[i])
  }

  /** d is c with one more token, written without touching a finished block; x is the test block it closed, if any. */
  ghost predicate OneMore(c: Code, d: Code, x: Label) {
    && Shape(c) && Shape(d)
    && |d.toks| == |c.toks| + 1 && d.toks[..|c.toks|] == c.toks && d.at[..|c.at|] == c.at
    && Grows(c.blocks, d.blocks, x)
    && (forall b :: 0 <= b < |c.blocks| && b != Last(c).blk && b != x ==> d.blocks[b] == c.blocks[b])
    && (forall i :: 0 <= i < |c.at| ==> c.at[i].blk != x)
  }

  lemma TokStays(bound: Bound, c: Code, d: Code, l: Links, m: Links, x: Label, i: nat)
    requires OneMore(c, d, x) && i < |c.toks| && SameMate(l, m, i)
    requires TokCode(bound, c, l, i)
    requires c.toks[i].Open? && i !in l.mate ==> c.at[i + 1].blk != x + 1
    ensures TokCode(bound, d, m, i)
  {
    assert d.toks[i] == c.toks[i] && d.at[i] == c.at[i] && d.at[i + 1] == c.at[i + 1];
    if TokBracket(c.toks[i]) == Plain {
      StraightGrows(bound, c.blocks, d.blocks, x, c.toks[i], c.at[i], c.at[i + 1]);
    } else if c.toks[i].Open? && i in l.mate {
      var j := l.mate[i];
      assert d.at[j] == c.at[j] && d.at[j + 1] == c.at[j + 1];
      LoopedGrows(c.blocks, d.blocks, x, c.at[i], c.at[i + 1], c.at[j], c.at[j + 1]);
    } else if c.toks[i].Open? {
      var t := c.at[i + 1].blk - 1;
      assert t != Last(c).blk;
      OpenedGrows(c.blocks, d.blocks, x, c.at[i], c.at[i + 1]);
    }
  }

  /** A test block is not a block that code was, is or will be written to in order. */
  lemma TestBlocksApart(c: Code, k: nat)
    requires Shape(c) && k < |c.toks| && c.at[k].blk + 2 <= c.at[k + 1].blk
    ensures forall i :: 0 <= i < |c.at| ==> c.at[i].blk != c.at[k + 1].blk - 1
  {
  }

  // ---------- A token that is not a bracket ----------

  function NextPoint(bound: Bound, c: Code, t: Tok): Point
    requires |c.at| == |c.toks| + 1 && TokBracket(t) == Plain
  {
    var p := Last(c);
    if t.Move? then
      if bound.Unchecked? then Point(p.blk, p.idx + 1, p.next, p.next + 1)
      else Point(|c.blocks|, 0, p.next, p.next + 4)
    else Point(p.blk, p.idx + 3, p.head, p.next + 2)
  }

  predicate Branches(bound: Bound, t: Tok) { t.Move? && bound.Checked? }

  function AddStraight(bound: Bound, c: Code, t: Tok): Code
    requires Shape(c) && TokBracket(t) == Plain
  {
    var p, n := Last(c), |c.blocks|;
    var blocks := Append(c.blocks, p.blk, StraightInsts(bound, t, p));
    var blocks' := if Branches(bound, t) then
                     Finish(blocks, p.blk, CondBr(p.next + 3, ABERROR, n)) + [Block(NoPhi, [], Unfinished)]
                   else blocks;
    Code(blocks', c.toks + [t], c.at + [NextPoint(bound, c, t)])
  }

  lemma AddStraightShape(bound: Bound, c: Code, t: Tok)
    requires Emitted(bound, c) && TokBracket(t) == Plain
    ensures OneMore(c, AddStraight(bound, c, t), |c.blocks|)
    ensures Straight(bound, AddStraight(bound, c, t).blocks, t, Last(c), NextPoint(bound, c, t))
  {
    var d := AddStraight(bound, c, t);
    assert d.toks[..|c.toks|] == c.toks && d.at[..|c.at|] == c.at;
    var p, xs := Last(c), StraightInsts(bound, t, Last(c));
    assert d.blocks[p.blk].insts == c.blocks[p.blk].insts + xs;
    assert d.blocks[p.blk].insts[p.idx..] == xs;
  }

  lemma PhiKept(a: seq<Block>, b: seq<Block>, y: Label)
    requires y < |a| && y < |b| && a[y].phi == b[y].phi && PhiMatches(a, y)
    requires forall p: Label :: p < |b| && y in Succs(b[p].term) <==> p < |a| && y in Succs(a[p].term)
    ensures PhiMatches(b, y)
  {
  }

  lemma AddStraightFlow(bound: Bound, c: Code, t: Tok)
    requires Emitted(bound, c) && TokBracket(t) == Plain
    ensures PhisMatch(AddStraight(bound, c, t).blocks) && InRange(AddStraight(bound, c, t).blocks)
  {
    var d := AddStraight(bound, c, t);
    var p := Last(c);
    assert c.blocks[p.blk].term == Unfinished by {
      assert Pending(c, Link(c.toks, TokBracket), p.blk);
    }
    forall y | 0 <= y < |d.blocks|
      ensures PhiMatches(d.blocks, y)
    {
      if y < |c.blocks| && d.blocks[y].phi.Phi? {
        assert PhiMatches(c.blocks, y);
        PhiKept(c.blocks, d.blocks, y);
      }
    }
  }

  lemma AddStraightTerms(bound: Bound, c: Code, t: Tok)
    requires Emitted(bound, c) && TokBracket(t) == Plain
    ensures Terminated(AddStraight(bound, c, t), Link(c.toks, TokBracket))
  {
    var d := AddStraight(bound, c, t);
    var l := Link(c.toks, TokBracket);
    LinkWellFormed(c.toks, TokBracket);
    forall b | 0 <= b < |d.blocks|
      ensures d.blocks[b].term == Unfinished <==> Pending(d, l, b)
    {
      assert forall k :: k in l.stack ==> d.at[k + 1] == c.at[k + 1];
      if b < |c.blocks| {
        assert c.blocks[b].term == Unfinished <==> Pending(c, l, b);
      }
    }
  }

  lemma StraightTok(bound: Bound, c: Code, l: Links, i: nat)
    requires |c.at| == |c.toks| + 1 && i < |c.toks| && TokBracket(c.toks[i]) == Plain
    requires Straight(bound, c.blocks, c.toks[i], c.at[i], c.at[i + 1])
    ensures TokCode(bound, c, l, i)
  {
  }

  lemma AddStraightKeeps(bound: Bound, c: Code, t: Tok)
    requires Emitted(bound, c) && TokBracket(t) == Plain
    ensures Emitted(bound, AddStraight(bound, c, t))
  {
    hide TokCode, Straight, Terminated, PhisMatch, InRange, Link;
    var d := AddStraight(bound, c, t);
    var l, m := Link(c.toks, TokBracket), Link(d.toks, TokBracket);
    AddStraightShape(bound, c, t);
    AddStraightFlow(bound, c, t);
    AddStraightTerms(bound, c, t);
    LinkSnoc(c.toks, t, TokBracket);
    forall i | 0 <= i < |d.toks|
      ensures TokCode(bound, d, m, i)
    {
      if i < |c.toks| {
        TokStays(bound, c, d, l, m, |c.blocks|, i);
      } else {
        StraightTok(bound, d, m, i);
      }
    }
  }

  // ---------- An opening bracket ----------

  function OpenLoop(c: Code): Code
    requires Shape(c)
  {
    var p, test := Last(c), |c.blocks|;
    Code(Finish(c.blocks, p.blk, Br(test)) +
           [Block(Phi(p.next, [(p.head, p.blk)]), [], Unfinished), Block(NoPhi, [], Unfinished)],
         c.toks + [Open],
         c.at + [Point(test + 1, 0, p.next, p.next + 1)])
  }

  lemma OpenLoopShape(bound: Bound, c: Code)
    requires Emitted(bound, c)
    ensures OneMore(c, OpenLoop(c), |c.blocks|)
    ensures Opened(OpenLoop(c).blocks, Last(c), Last(OpenLoop(c)))
  {
    var d := OpenLoop(c);
    assert d.toks[..|c.toks|] == c.toks && d.at[..|c.at|] == c.at;
  }

  lemma OpenLoopFlow(bound: Bound, c: Code)
    requires Emitted(bound, c)
    ensures PhisMatch(OpenLoop(c).blocks) && InRange(OpenLoop(c).blocks)
  {
    var d := OpenLoop(c);
    var p, n := Last(c), |c.blocks|;
    assert c.blocks[p.blk].term == Unfinished by {
      assert Pending(c, Link(c.toks, TokBracket), p.blk);
    }
    forall y | 0 <= y < |d.blocks|
      ensures PhiMatches(d.blocks, y)
    {
      if y < n && d.blocks[y].phi.Phi? {
        assert PhiMatches(c.blocks, y);
        PhiKept(c.blocks, d.blocks, y);
      } else if y == n {
        assert d.blocks[n].phi.incoming[0].1 == p.blk;
        assert forall q :: 0 <= q < n && n in Succs(d.blocks[q].term) ==> q == p.blk;
      }
    }
  }

  lemma OpenLoopTerms(bound: Bound, c: Code)
    requires Emitted(bound, c)
    ensures Terminated(OpenLoop(c), Link(OpenLoop(c).toks, TokBracket))
  {
    var d := OpenLoop(c);
    var l, m := Link(c.toks, TokBracket), Link(d.toks, TokBracket);
    LinkSnoc(c.toks, Open, TokBracket);
    LinkWellFormed(c.toks, TokBracket);
    assert m.stack == l.stack + [|c.toks|];
    forall b | 0 <= b < |d.blocks|
      ensures d.blocks[b].term == Unfinished <==> Pending(d, m, b)
    {
      assert forall k :: k in l.stack ==> k in m.stack && d.at[k + 1] == c.at[k + 1];
      assert |c.toks| in m.stack by { assert m.stack[|l.stack|] == |c.toks|; }
      if b < |c.blocks| {
        assert c.blocks[b].term == Unfinished <==> Pending(c, l, b);
      }
    }
  }

  lemma OpenedTok(bound: Bound, c: Code, l: Links, i: nat)
    requires |c.at| == |c.toks| + 1 && i < |c.toks| && c.toks[i] == Open && i !in l.mate
    requires Opened(c.blocks, c.at[i], c.at[i + 1])
    ensures TokCode(bound, c, l, i)
  {
  }

  lemma OpenLoopKeeps(bound: Bound, c: Code)
    requires Emitted(bound, c)
    ensures Emitted(bound, OpenLoop(c))
  {
    hide TokCode, Opened, Terminated, PhisMatch, InRange, Link;
    var d := OpenLoop(c);
    var l, m := Link(c.toks, TokBracket), Link(d.toks, TokBracket);
    OpenLoopShape(bound, c);
    OpenLoopFlow(bound, c);
    OpenLoopTerms(bound, c);
    LinkSnoc(c.toks, Open, TokBracket);
    LinkWellFormed(c.toks, TokBracket);
    forall i | 0 <= i < |d.toks|
      ensures TokCode(bound, d, m, i)
    {
      if i < |c.toks| {
        TokStays(bound, c, d, l, m, |c.blocks|, i);
      } else {
        OpenedTok(bound, d, m, i);
      }
    }
  }

  // ---------- A closing bracket ----------

  ghost predicate Closable(bound: Bound, c: Code, k: nat) {
    && Emitted(bound, c)
    && var l := Link(c.toks, TokBracket);
      l.stack != [] && k == l.stack[|l.stack| - 1]
  }

  function CloseLoop(c: Code, k: nat): Code
    requires Shape(c) && k < |c.toks| && c.at[k].blk + 2 <= c.at[k + 1].blk
  {
    var p, q, r, n := c.at[k], c.at[k + 1], Last(c), |c.blocks|;
    Code(Finish(c.blocks, r.blk, Br(q.blk - 1))
           [q.blk - 1 := Block(Phi(q.head, [(p.head, p.blk), (r.head, r.blk)]),
                               [Load(r.next, q.head), IsZero(r.next + 1, r.next)],
                               CondBr(r.next + 1, n, q.blk))] +
           [Block(Phi(r.next + 2, [(q.head, q.blk - 1)]), [], Unfinished)],
         c.toks + [Close],
         c.at + [Point(n, 0, r.next + 2, r.next + 3)])
  }

  lemma CloseTop(bound: Bound, c: Code)
    requires Emitted(bound, c) && Link(c.toks, TokBracket).stack != []
    ensures Link(c.toks, TokBracket).ok
    ensures Closable(bound, c, Link(c.toks, TokBracket).stack[|Link(c.toks, TokBracket).stack| - 1])
  {
  }

  lemma TopIsOpen(bound: Bound, c: Code, k: nat)
    requires Closable(bound, c, k)
    ensures k < |c.toks| && c.toks[k] == Open && k !in Link(c.toks, TokBracket).mate
    ensures Opened(c.blocks, c.at[k], c.at[k + 1])
    ensures c.blocks[Last(c).blk].term == Unfinished
    ensures forall i :: 0 <= i < |c.at| ==> c.at[i].blk != c.at[k + 1].blk - 1
    ensures c.at[k + 1].blk <= Last(c).blk && c.at[k].blk != Last(c).blk
  {
    hide Opened, Terminated, PhisMatch, InRange, Link, Footer;
    LinkWellFormed(c.toks, TokBracket);
    assert TokCode(bound, c, Link(c.toks, TokBracket), k);
    assert Pending(c, Link(c.toks, TokBracket), Last(c).blk);
    OpenedApart(c, k);
    TestBlocksApart(c, k);
    assert c.blocks[Last(c).blk].term == Unfinished by { TermOf(c, Last(c).blk); }
  }

  lemma TermOf(c: Code, b: Label)
    requires |c.at| == |c.toks| + 1 && b < |c.blocks| && Terminated(c, Link(c.toks, TokBracket))
    requires Pending(c, Link(c.toks, TokBracket), b)
    ensures c.blocks[b].term == Unfinished
  {
  }

  lemma OpenedApart(c: Code, k: nat)
    requires Shape(c) && k < |c.toks| && Opened(c.blocks, c.at[k], c.at[k + 1])
    ensures c.at[k].blk + 2 <= c.at[k + 1].blk <= Last(c).blk
  {
  }

  lemma CloseLoopShape(bound: Bound, c: Code, k: nat)
    requires Closable(bound, c, k)
    ensures k < |c.toks| && c.at[k].blk + 2 <= c.at[k + 1].blk
    ensures OneMore(c, CloseLoop(c, k), c.at[k + 1].blk - 1)
    ensures Looped(CloseLoop(c, k).blocks, c.at[k], c.at[k + 1], Last(c), Last(CloseLoop(c, k)))
  {
    hide Emitted, Link;
    EmittedShape(bound, c);
    TopIsOpen(bound, c, k);
    CloseLoopGrows(c, k);
    CloseLoopOneMore(c, k);
  }

  lemma CloseLoopGrows(c: Code, k: nat)
    requires Shape(c) && k < |c.toks| && Opened(c.blocks, c.at[k], c.at[k + 1])
    requires c.blocks[Last(c).blk].term == Unfinished
    requires Last(c).idx == |c.blocks[Last(c).blk].insts|
    requires c.at[k + 1].blk <= Last(c).blk && c.at[k].blk != Last(c).blk
    ensures Grows(c.blocks, CloseLoop(c, k).blocks, c.at[k + 1].blk - 1)
    ensures Looped(CloseLoop(c, k).blocks, c.at[k], c.at[k + 1], Last(c), Last(CloseLoop(c, k)))
  {
  }

  lemma CloseLoopOneMore(c: Code, k: nat)
    requires Shape(c) && k < |c.toks| && c.at[k].blk + 2 <= c.at[k + 1].blk
    requires Grows(c.blocks, CloseLoop(c, k).blocks, c.at[k + 1].blk - 1)
    requires forall i :: 0 <= i < |c.at| ==> c.at[i].blk != c.at[k + 1].blk - 1
    ensures OneMore(c, CloseLoop(c, k), c.at[k + 1].blk - 1)
  {
    hide Grows;
    var d := CloseLoop(c, k);
    assert d.toks[..|c.toks|] == c.toks && d.at[..|c.at|] == c.at;
  }

  lemma CloseLoopFlow(bound: Bound, c: Code, k: nat)
    requires Closable(bound, c, k)
    requires k < |c.toks| && c.at[k].blk + 2 <= c.at[k + 1].blk
    ensures PhisMatch(CloseLoop(c, k).blocks) && InRange(CloseLoop(c, k).blocks)
  {
    hide Terminated, Link, TokCode;
    TopIsOpen(bound, c, k);
    var d := CloseLoop(c, k);
    var p, q, r, n := c.at[k], c.at[k + 1], Last(c), |c.blocks|;
    var test := q.blk - 1;
    forall y | 0 <= y < |d.blocks|
      ensures PhiMatches(d.blocks, y)
    {
      if y == n {
        assert d.blocks[n].phi.incoming[0].1 == test;
        assert forall z: Label :: z < |d.blocks| && n in Succs(d.blocks[z].term) ==> z == test;
      } else if y == test {
        assert PhiMatches(c.blocks, test);
        TestPreds(c.blocks, d.blocks, test, p, r);
      } else if d.blocks[y].phi.Phi? {
        assert PhiMatches(c.blocks, y);
        PhiKept(c.blocks, d.blocks, y);
      }
    }
  }

  /** The test block gets its second predecessor and its second phi entry together. */
  lemma TestPreds(a: seq<Block>, b: seq<Block>, test: Label, p: Point, r: Point)
    requires test < |a| <= |b| && PhiMatches(a, test)
    requires a[test].phi.Phi? && a[test].phi.incoming == [(p.head, p.blk)]
    requires b[test].phi.Phi? && b[test].phi.incoming == [(p.head, p.blk), (r.head, r.blk)]
    requires p.blk != r.blk && r.blk < |a|
    requires forall z: Label :: z < |b| && z != r.blk ==>
               (test in Succs(b[z].term) <==> z < |a| && test in Succs(a[z].term))
    requires test in Succs(b[r.blk].term) && a[r.blk].term == Unfinished
    ensures PhiMatches(b, test)
  {
    var inc, old_ := b[test].phi.incoming, a[test].phi.incoming;
    assert inc[0].1 == p.blk && inc[1].1 == r.blk && old_[0].1 == p.blk;
    forall z: Label
      ensures HasEntry(inc, z) <==> z < |b| && test in Succs(b[z].term)
    {
      assert HasEntry(inc, z) <==> z == p.blk || z == r.blk;
      assert HasEntry(old_, z) <==> z == p.blk;
    }
  }

  /** Closing the innermost bracket, k, leaves the others open. */
  lemma CloseStack(bound: Bound, c: Code, k: nat)
    requires Closable(bound, c, k)
    ensures forall i :: i in Link(c.toks + [Close], TokBracket).stack <==> i in Link(c.toks, TokBracket).stack && i != k
  {
    hide TokCode, Terminated, PhisMatch, InRange, Link;
    var l := Link(c.toks, TokBracket);
    LinkSnoc(c.toks, Close, TokBracket);
    LinkWellFormed(c.toks, TokBracket);
    var top := |l.stack| - 1;
    assert forall i :: i in l.stack && i != k ==> i in l.stack[..top];
  }

  /** A block that closing loop k does not touch is pending after exactly if it was before. */
  lemma PendingStays(bound: Bound, c: Code, k: nat, b: Label)
    requires Closable(bound, c, k)
    requires k < |c.toks| && c.at[k].blk + 2 <= c.at[k + 1].blk
    requires b < |c.blocks| && b != Last(c).blk && b != c.at[k + 1].blk - 1
    ensures Pending(c, Link(c.toks, TokBracket), b) <==>
            Pending(CloseLoop(c, k), Link(c.toks + [Close], TokBracket), b)
  {
    hide TokCode, Terminated, PhisMatch, InRange, Link;
    CloseStack(bound, c, k);
    var d := CloseLoop(c, k);
    assert forall i :: 0 <= i < |c.at| ==> d.at[i] == c.at[i];
    assert Link(c.toks, TokBracket).stack != [];
    LinkWellFormed(c.toks, TokBracket);
  }

  lemma CloseLoopTerms(bound: Bound, c: Code, k: nat)
    requires Closable(bound, c, k)
    requires k < |c.toks| && c.at[k].blk + 2 <= c.at[k + 1].blk
    ensures Terminated(CloseLoop(c, k), Link(CloseLoop(c, k).toks, TokBracket))
  {
    hide TokCode, PhisMatch, InRange, Link, Pending;
    var d := CloseLoop(c, k);
    var l, m := Link(c.toks, TokBracket), Link(d.toks, TokBracket);
    TopIsOpen(bound, c, k);
    forall b | 0 <= b < |d.blocks|
      ensures d.blocks[b].term == Unfinished <==> Pending(d, m, b)
    {
      if b < |c.blocks| && b != Last(c).blk && b != c.at[k + 1].blk - 1 {
        assert c.blocks[b].term == Unfinished <==> Pending(c, l, b);
        PendingStays(bound, c, k, b);
      } else {
        ClosedDone(bound, c, k, b);
      }
    }
  }

  /** The new block is the pending one; the closed test block and the block before it are not. */
  lemma ClosedDone(bound: Bound, c: Code, k: nat, b: Label)
    requires Closable(bound, c, k)
    requires k < |c.toks| && c.at[k].blk + 2 <= c.at[k + 1].blk <= Last(c).blk
    requires b == |c.blocks| || b == Last(c).blk || b == c.at[k + 1].blk - 1
    ensures Pending(CloseLoop(c, k), Link(c.toks + [Close], TokBracket), b) <==> b == |c.blocks|
  {
    hide Terminated, PhisMatch, InRange, TokCode, Link;
    var d := CloseLoop(c, k);
    CloseStack(bound, c, k);
    OtherTests(bound, c, k);
    LinkWellFormed(c.toks, TokBracket);
    assert forall i :: 0 <= i < |c.at| ==> d.at[i] == c.at[i];
  }

  /** The other open loops have other test blocks, and k comes last among them. */
  lemma OtherTests(bound: Bound, c: Code, k: nat)
    requires Closable(bound, c, k)
    ensures k < |c.toks|
    ensures forall i :: 0 <= i < |c.toks| && c.toks[i] == Open && i !in Link(c.toks, TokBracket).mate && i != k ==>
              i < k && c.at[i + 1].blk < c.at[k + 1].blk
    ensures forall i :: i in Link(c.toks, TokBracket).stack && i != k ==>
              i < k && c.at[i + 1].blk < c.at[k + 1].blk
  {
    hide Terminated, PhisMatch, InRange, Link, TokCode;
    var l := Link(c.toks, TokBracket);
    LinkWellFormed(c.toks, TokBracket);
    TopIsOpen(bound, c, k);
    OpenedApart(c, k);
    assert forall i :: i in l.stack && i != k ==> i < k;
    forall i | 0 <= i < |c.toks| && c.toks[i] == Open && i !in l.mate && i != k
      ensures i < k
    {
      assert TokBracket(c.toks[i]) != Plain;
    }
  }

  lemma LoopedTok(bound: Bound, c: Code, l: Links, i: nat)
    requires |c.at| == |c.toks| + 1 && i < |c.toks| && c.toks[i] == Open && i in l.mate && l.mate[i] < |c.toks|
    requires Looped(c.blocks, c.at[i], c.at[i + 1], c.at[l.mate[i]], c.at[l.mate[i] + 1])
    ensures TokCode(bound, c, l, i)
  {
  }

  lemma CloseLoopKeeps(bound: Bound, c: Code, k: nat)
    requires Closable(bound, c, k)
    ensures k < |c.toks| && c.at[k].blk + 2 <= c.at[k + 1].blk
    ensures Emitted(bound, CloseLoop(c, k))
  {
    hide TokCode, Looped, Terminated, PhisMatch, InRange, Link;
    CloseLoopShape(bound, c, k);
    CloseLoopFlow(bound, c, k);
    CloseLoopTerms(bound, c, k);
    var d := CloseLoop(c, k);
    var l, m := Link(c.toks, TokBracket), Link(d.toks, TokBracket);
    LinkSnoc(c.toks, Close, TokBracket);
    LinkWellFormed(c.toks, TokBracket);
    OtherTests(bound, c, k);
    forall i | 0 <= i < |d.toks|
      ensures TokCode(bound, d, m, i)
    {
      if i == k {
        LoopedTok(bound, d, m, k);
      } else if i < |c.toks| {
        TokStays(bound, c, d, l, m, c.at[k + 1].blk - 1, i);
      } else {
        assert d.toks[i] == Close;
        CloseTok(bound, d, m, i);
      }
    }
    FooterStays(bound, c, d, c.at[k + 1].blk - 1);
  }

  lemma CloseTok(bound: Bound, c: Code, l: Links, i: nat)
    requires |c.at| == |c.toks| + 1 && i < |c.toks| && c.toks[i] == Close
    ensures TokCode(bound, c, l, i)
  {
  }

  lemma FooterStays(bound: Bound, c: Code, d: Code, x: Label)
    requires OneMore(c, d, x) && Footer(bound, c.blocks)
    ensures Footer(bound, d.blocks)
  {
  }

  // ---------- The first and the last code ----------

  /** The code after BrainF::header. */
  function Header(bound: Bound, mem: nat): Code {
    var body := [Malloc(ARR, mem), Memset(ARR, mem)] +
                (if bound.Checked? then [Gep(ARRMAX, ARR, mem)] else []) + [Gep(FIRST, ARR, mem / 2)];
    Code([Block(NoPhi, body, Unfinished), Block(NoPhi, [Free(ARR)], Ret)] +
           (if bound.Checked? then [Block(NoPhi, [Puts], Br(ENDBB))] else []),
         [], [Point(ENTRY, |body|, FIRST, FIRST + 1)])
  }

  lemma HeaderEmitted(bound: Bound, mem: nat)
    ensures Emitted(bound, Header(bound, mem))
  {
    var c := Header(bound, mem);
    assert c.blocks[ENDBB] == Block(NoPhi, [Free(ARR)], Ret);
    assert bound.Checked? ==> c.blocks[ABERROR] == Block(NoPhi, [Puts], Br(ENDBB));
  }

  /** At the end of the input the code branches to the return block. */
  function EndProgram(c: Code): seq<Block>
    requires Shape(c)
  {
    Finish(c.blocks, Last(c).blk, Br(ENDBB))
  }

  /** A finished program: every block has a terminator and every phi an entry for exactly its predecessors. */
  lemma EndProgramFlow(bound: Bound, c: Code)
    requires Emitted(bound, c) && Link(c.toks, TokBracket).stack == []
    ensures AllFinished(EndProgram(c)) && PhisMatch(EndProgram(c))
    ensures Grows(c.blocks, EndProgram(c), |c.blocks|)
  {
    hide TokCode, Link;
    var blocks := EndProgram(c);
    forall y | 0 <= y < |blocks|
      ensures PhiMatches(blocks, y) && blocks[y].term != Unfinished
    {
      assert c.blocks[y].term == Unfinished <==> Pending(c, Link(c.toks, TokBracket), y);
      if blocks[y].phi.Phi? {
        assert PhiMatches(c.blocks, y);
        PhiKept(c.blocks, blocks, y);
      }
    }
  }

  /** The header's instructions are still the first ones, and the first token starts after them. */
  ghost predicate HeaderKept(bound: Bound, mem: nat, blocks: seq<Block>, at: seq<Point>) {
    && |blocks| > 0 && |at| > 0
    && Header(bound, mem).blocks[ENTRY].insts <= blocks[ENTRY].insts
    && at[0] == Header(bound, mem).at[0]
  }

  /** A compiled program: the code before its final branch, and the finished blocks. */
  datatype Program = Program(bound: Bound, mem: nat, code: Code, blocks: seq<Block>)

  ghost predicate Compiled(p: Program) {
    && (p.bound.Checked? ==> p.bound.size == p.mem)
    && Emitted(p.bound, p.code) && Link(p.code.toks, TokBracket).stack == []
    && p.blocks == EndProgram(p.code)
    && HeaderKept(p.bound, p.mem, p.code.blocks, p.code.at)
  }
}
