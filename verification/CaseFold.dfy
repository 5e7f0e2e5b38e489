/**
 utils/unicode-case-fold.py: a table of case foldings, cut into blocks of equal shift and
 stride, and the chain of conditionals that is generated for it.
 */
module CaseFold {
  import Arith

  datatype Mapping = Mapping(from: int, to: int)

  datatype Option<T> = None | Some(value: T)

  datatype Result<T> = Ok(value: T) | UnsortedInput

  // ---------- The table ----------

  predicate Increasing(table: seq<Mapping>) {
    forall i, j :: 0 <= i < j < |table| ==> table[i].from < table[j].from
  }

  predicate NonNegative(table: seq<Mapping>) { forall i :: 0 <= i < |table| ==> table[i].from >= 0 }

  /** What a table says of a character. */
  function Fold(table: seq<Mapping>, c: int): int {
    if table == [] then c else if table[0].from == c then table[0].to else Fold(table[1..], c)
  }

  lemma {:induction false} FoldListed(table: seq<Mapping>, i: nat)
    requires Increasing(table) && i < |table|
    ensures Fold(table, table[i].from) == table[i].to
  {
    if i > 0 {
      assert table[0].from < table[i].from;
      FoldListed(table[1..], i - 1);
    }
  }

  lemma {:induction false} FoldAbsent(table: seq<Mapping>, c: int)
    requires forall i :: 0 <= i < |table| ==> table[i].from != c
    ensures Fold(table, c) == c
  {
    if table != [] {
      FoldAbsent(table[1..], c);
    }
  }

  lemma {:induction false} FoldSkips(b: seq<Mapping>, rest: seq<Mapping>, c: int)
    requires forall i :: 0 <= i < |b| ==> b[i].from != c
    ensures Fold(b + rest, c) == Fold(rest, c)
  {
    if b == [] {
      assert b + rest == rest;
    } else {
      assert (b + rest)[1..] == b[1..] + rest;
      FoldSkips(b[1..], rest, c);
    }
  }

  /** The entries of the lines that are mappings, in order. */
  function Entries(lines: seq<Option<Mapping>>): seq<Mapping> {
    if lines == [] then [] else Entries(lines[..|lines| - 1]) + (if lines[|lines| - 1].Some? then [lines[|lines| - 1].value] else [])
  }

  lemma EntriesNext(lines: seq<Option<Mapping>>, i: nat)
    requires i < |lines|
    ensures Entries(lines[..i + 1]) == Entries(lines[..i]) + (if lines[i].Some? then [lines[i].value] else [])
  {
    assert lines[..i + 1][..i] == lines[..i];
  }

  lemma {:induction false} EntriesPrefix(lines: seq<Option<Mapping>>, i: nat)
    requires i <= |lines|
    ensures Entries(lines[..i]) <= Entries(lines)
    decreases |lines| - i
  {
    if i < |lines| {
      EntriesNext(lines, i);
      EntriesPrefix(lines, i + 1);
    } else {
      assert lines[..i] == lines;
    }
  }

  lemma NoEntries(lines: seq<Option<Mapping>>)
    ensures Entries(lines[..0]) == [] && Increasing([]) && NonNegative([])
  {
  }

  lemma SortedGrows(table: seq<Mapping>, m: Mapping)
    requires Increasing(table) && NonNegative(table)
    ensures m.from > (if table == [] then -1 else table[|table| - 1].from) ==> Increasing(table + [m]) && NonNegative(table + [m])
  {
  }

  /** A mapping that does not come after the one before it spoils every table that begins so. */
  lemma UnsortedStays(table: seq<Mapping>, m: Mapping, all: seq<Mapping>)
    requires table + [m] <= all && m.from <= if table == [] then -1 else table[|table| - 1].from
    ensures !(Increasing(all) && NonNegative(all))
  {
    assert all[|table|] == (table + [m])[|table|] == m;
    if table != [] {
      assert all[|table| - 1] == (table + [m])[|table| - 1] == table[|table| - 1];
    }
  }

  /** The mappings of the database, unless they are not strictly increasing from 0 on. */
  method Mappings(lines: seq<Option<Mapping>>) returns (r: Result<seq<Mapping>>)
    ensures r.Ok? <==> Increasing(Entries(lines)) && NonNegative(Entries(lines))
    ensures r.Ok? ==> r.value == Entries(lines)
  {
    hide Increasing, NonNegative, Entries;
    var previousFrom := -1;
    var table: seq<Mapping> := [];
    NoEntries(lines);
    for i := 0 to |lines|
      invariant table == Entries(lines[..i]) && Increasing(table) && NonNegative(table)
      invariant previousFrom == if table == [] then -1 else table[|table| - 1].from
    {
      EntriesNext(lines, i);
      if lines[i].None? {
        continue;
      }
      var m := lines[i].value;
      if m.from <= previousFrom {
        EntriesPrefix(lines, i + 1);
        UnsortedStays(table, m, Entries(lines));
        return UnsortedInput;
      }
      SortedGrows(table, m);
      table := table + [m];
      previousFrom := m.from;
    }
    assert lines[..|lines|] == lines;
    return Ok(table);
  }

  // ---------- The generated code ----------

  datatype Value = AddShift(shift: int) | OrOne

  /** A conditional return of the generated function; the last kind tests the remainder only if it has to. */
  datatype Stmt =
    | IfEqual(x: int, to: int)
    | IfLess(first: int)
    | IfUpTo(last: int, remainder: Option<(int, int)>, value: Value)

  /** The remainder of C++, which has the sign of the dividend. */
  function Rem(c: int, d: int): int
    requires d > 0
  {
    if c >= 0 then c % d else -((-c) % d)
  }

  function ValueOf(v: Value, c: int): int {
    match v
    case AddShift(s) => c + s
    case OrOne => if c % 2 == 0 then c + 1 else c
  }

  predicate Takes(s: Stmt, c: int) {
    match s
    case IfEqual(x, _) => c == x
    case IfLess(first) => c < first
    case IfUpTo(last, remainder, _) => c <= last && (remainder.Some? && remainder.value.0 > 0 ==> Rem(c, remainder.value.0) == remainder.value.1)
  }

  function Returned(s: Stmt, c: int): int {
    match s
    case IfEqual(_, to) => to
    case IfLess(_) => c
    case IfUpTo(_, _, value) => ValueOf(value, c)
  }

  /** foldCharSimple, of a body. */
  function Run(body: seq<Stmt>, c: int): int {
    if body == [] then c else if Takes(body[0], c) then Returned(body[0], c) else Run(body[1..], c)
  }

  function Shift(m: Mapping): int { m.to - m.from }

  function Stride2(m: Mapping, n: Mapping): int { n.from - m.from }

  function Stride(b: seq<Mapping>): int
    requires |b| >= 2
  {
    Stride2(b[0], b[1])
  }

  /** A block: one mapping, or several of the same shift whose characters are equally far apart. */
  predicate Block(b: seq<Mapping>) {
    && b != []
    && (forall k :: 0 <= k < |b| ==> Shift(b[k]) == Shift(b[0]))
    && (|b| >= 2 ==> Stride(b) > 0 && forall k :: 0 <= k < |b| ==> b[k].from == b[0].from + k * Stride(b))
  }

  /** The code of a block. */
  function Code(b: seq<Mapping>): seq<Stmt>
    requires Block(b)
  {
    if |b| == 1 then [IfEqual(b[0].from, b[0].to)]
    else
      var d := Stride(b);
      var first := b[0].from;
      var last := first + d * (|b| - 1);
      var s := Shift(b[0]);
      [IfLess(first),
       if d == 2 && s == 1 && first % d == 0 then IfUpTo(last, None, OrOne)
       else if d == 1 then IfUpTo(last, None, AddShift(s))
       else IfUpTo(last, Some((d, first % d)), AddShift(s))]
  }

  function CodeOf(blocks: seq<seq<Mapping>>): seq<Stmt>
    requires forall k :: 0 <= k < |blocks| ==> Block(blocks[k])
  {
    if blocks == [] then [] else Code(blocks[0]) + CodeOf(blocks[1..])
  }

  function Joined(blocks: seq<seq<Mapping>>): seq<Mapping> {
    if blocks == [] then [] else blocks[0] + Joined(blocks[1..])
  }

  // ---------- One block ----------

  lemma Multiple(d: int, k: int, n: int)
    requires d > 0
    ensures (k * d) % d == 0
    ensures 0 <= k <= n ==> 0 <= k * d <= n * d
  {
    assert k * d == d * k + 0;
    Arith.DivModUnique(k * d, d, k, 0);
  }

  /** The characters of a block are those from the first to the last that have its remainder. */
  lemma InBlock(b: seq<Mapping>, c: int) returns (k: int)
    requires Block(b) && |b| >= 2 && b[0].from >= 0
    ensures var d := Stride(b);
            if b[0].from <= c <= b[0].from + d * (|b| - 1) && c % d == b[0].from % d
            then 0 <= k < |b| && b[k].from == c
            else forall j :: 0 <= j < |b| ==> b[j].from != c
  {
    var d, first := Stride(b), b[0].from;
    k := (c - first) / d;
    if first <= c <= first + d * (|b| - 1) && c % d == first % d {
      SameRemainder(c, first, d, |b| - 1);
    } else {
      forall j | 0 <= j < |b| ensures b[j].from != c {
        Multiple(d, j, |b| - 1);
        assert b[j].from == first + j * d;
        ShiftedRemainder(first, j, d);
      }
    }
  }

  lemma SameRemainder(c: int, first: int, d: int, n: int)
    requires d > 0 && first <= c <= first + d * n && c % d == first % d
    ensures var k := (c - first) / d; 0 <= k <= n && c == first + k * d
  {
    var k := Arith.CongruentApart(c, first, d);
    Arith.DivModUnique(c - first, d, k, 0);
    Between(d, k, n);
  }

  lemma Between(d: int, k: int, n: int)
    requires d > 0 && 0 <= d * k <= d * n
    ensures 0 <= k <= n
  {
    Arith.FarMultiple(d, k);
    Arith.FarMultiple(d, k - n);
    Spread(d, k, n);
  }

  lemma Spread(d: int, q: int, p: int)
    ensures d * (q - p) == d * q - d * p && d * q == q * d
  {
  }

  lemma ShiftedRemainder(first: int, j: int, d: int)
    requires d > 0
    ensures (first + j * d) % d == first % d
  {
    Arith.ModShift(first, j, d);
  }

  predicate Below(b: seq<Mapping>, rest: seq<Mapping>) {
    forall i, j :: 0 <= i < |b| && 0 <= j < |rest| ==> b[i].from < rest[j].from
  }

  /** The last of the characters of a block. */
  function Last(b: seq<Mapping>): int
    requires Block(b)
  {
    if |b| == 1 then b[0].from else b[0].from + Stride(b) * (|b| - 1)
  }

  lemma LastIs(b: seq<Mapping>)
    requires Block(b)
    ensures Last(b) == b[|b| - 1].from
  {
  }

  lemma EveryRemainder(c: int, first: int)
    ensures c % 1 == first % 1
  {
  }

  /** What the code of a block does about a character, and what is left to the code that follows. */
  lemma CodeRight(b: seq<Mapping>, more: seq<Stmt>, c: int)
    requires Block(b) && Increasing(b) && b[0].from >= 0
    ensures (exists k :: 0 <= k < |b| && b[k].from == c) ==> forall k :: 0 <= k < |b| && b[k].from == c ==> Run(Code(b) + more, c) == b[k].to
    ensures (forall k :: 0 <= k < |b| ==> b[k].from != c) ==> Run(Code(b) + more, c) == c || Run(Code(b) + more, c) == Run(more, c)
    ensures (forall k :: 0 <= k < |b| ==> b[k].from != c) && c > Last(b) ==> Run(Code(b) + more, c) == Run(more, c)
  {
    if |b| == 1 {
      assert (Code(b) + more)[0] == Code(b)[0] && (Code(b) + more)[1..] == more;
    } else {
      TwoStatements(Code(b)[0], Code(b)[1], more, c);
      assert Code(b) + more == [Code(b)[0], Code(b)[1]] + more;
      var k := InBlock(b, c);
      EveryRemainder(c, b[0].from);
      hide Run;
    }
  }

  lemma TwoStatements(s: Stmt, t: Stmt, more: seq<Stmt>, c: int)
    ensures Run([s, t] + more, c) == if Takes(s, c) then Returned(s, c) else if Takes(t, c) then Returned(t, c) else Run(more, c)
  {
    assert ([s, t] + more)[1..] == [t] + more;
    assert ([t] + more)[1..] == more;
  }

  // ---------- The whole chain ----------

  lemma {:induction false} BelowAll(b: seq<Mapping>, rest: seq<Mapping>)
    requires Increasing(b + rest)
    ensures Increasing(b) && Increasing(rest) && Below(b, rest)
  {
    var t := b + rest;
    assert forall i :: 0 <= i < |b| ==> t[i] == b[i];
    assert forall j :: 0 <= j < |rest| ==> t[|b| + j] == rest[j];
    forall i, j | 0 <= i < |b| && 0 <= j < |rest| ensures b[i].from < rest[j].from {
      assert t[i].from < t[|b| + j].from;
    }
    forall i, j | 0 <= i < j < |rest| ensures rest[i].from < rest[j].from {
      assert t[|b| + i].from < t[|b| + j].from;
    }
  }

  lemma PartsNonNegative(b: seq<Mapping>, rest: seq<Mapping>)
    requires NonNegative(b + rest)
    ensures NonNegative(b) && NonNegative(rest)
  {
    var t := b + rest;
    assert forall i :: 0 <= i < |b| ==> t[i] == b[i];
    assert forall j :: 0 <= j < |rest| ==> t[|b| + j] == rest[j];
  }

  lemma FoldInFront(b: seq<Mapping>, rest: seq<Mapping>, k: nat)
    requires Increasing(b + rest) && k < |b|
    ensures Fold(b + rest, b[k].from) == b[k].to
  {
    assert (b + rest)[k] == b[k];
    FoldListed(b + rest, k);
  }

  /** However a table is cut into blocks, the chain of their code computes it, for every integer. */
  lemma {:induction false} ChainRight(blocks: seq<seq<Mapping>>, c: int)
    requires forall k :: 0 <= k < |blocks| ==> Block(blocks[k])
    requires Increasing(Joined(blocks)) && NonNegative(Joined(blocks))
    ensures Run(CodeOf(blocks), c) == Fold(Joined(blocks), c)
  {
    hide Block, Increasing, NonNegative, Fold, Run, Code, Below, Last;
    if blocks == [] {
      assert CodeOf(blocks) == [] && Joined(blocks) == [];
      NothingLeft(c);
    } else {
      var b, rest, more := blocks[0], Joined(blocks[1..]), CodeOf(blocks[1..]);
      BelowAll(b, rest);
      PartsNonNegative(b, rest);
      ChainRight(blocks[1..], c);
      OneMore(b, rest, more, c);
    }
  }

  lemma NothingLeft(c: int)
    ensures Run([], c) == c && Fold([], c) == c
  {
  }

  lemma OneMore(b: seq<Mapping>, rest: seq<Mapping>, more: seq<Stmt>, c: int)
    requires Block(b) && Increasing(b + rest) && Increasing(b) && NonNegative(b) && Below(b, rest)
    requires Run(more, c) == Fold(rest, c)
    ensures Run(Code(b) + more, c) == Fold(b + rest, c)
  {
    CodeRight(b, more, c);
    hide Run, Code, Fold;
    if k :| 0 <= k < |b| && b[k].from == c {
      FoldInFront(b, rest, k);
    } else {
      FoldSkips(b, rest, c);
      if c <= Last(b) {
        LastIs(b);
        FoldAbsent(rest, c);
      }
    }
  }

  // ---------- The generator ----------

  lemma {:induction false} CodeOfAdd(blocks: seq<seq<Mapping>>, b: seq<Mapping>)
    requires (forall k :: 0 <= k < |blocks| ==> Block(blocks[k])) && Block(b)
    ensures CodeOf(blocks + [b]) == CodeOf(blocks) + Code(b)
    ensures Joined(blocks + [b]) == Joined(blocks) + b
  {
    hide Block, Code;
    if blocks == [] {
      assert blocks + [b] == [b] && [b][1..] == [];
      assert CodeOf([b]) == Code(b) + CodeOf([]) && Joined([b]) == b + Joined([]);
    } else {
      assert (blocks + [b])[1..] == blocks[1..] + [b];
      CodeOfAdd(blocks[1..], b);
    }
  }

  lemma BlockStarts(m: Mapping)
    ensures Block([m]) && Maximal([[m]])
  {
  }

  lemma BlockGrows(b: seq<Mapping>, m: Mapping)
    requires Block(b) && Shift(b[0]) == Shift(m) && b[|b| - 1].from < m.from
    requires |b| == 1 || Stride(b) == Stride2(b[|b| - 1], m)
    ensures Block(b + [m])
  {
    var b' := b + [m];
    if |b| >= 2 {
      assert Stride(b') == Stride(b);
      assert b[|b| - 1].from == b[0].from + (|b| - 1) * Stride(b);
    }
  }

  /** No block could go on with the mapping that follows it. */
  ghost predicate Maximal(blocks: seq<seq<Mapping>>) {
    && (forall k :: 0 <= k < |blocks| ==> blocks[k] != [])
    && (forall k :: 0 <= k < |blocks| - 1 ==> !Block(blocks[k] + [blocks[k + 1][0]]))
  }

  lemma BlockGoesOn(b: seq<Mapping>, m: Mapping)
    requires Block(b) && Block(b + [m])
    ensures Shift(b[0]) == Shift(m) && (|b| == 1 || Stride(b) == Stride2(b[|b| - 1], m))
  {
    var b' := b + [m];
    assert b'[|b|] == m && b'[0] == b[0];
    if |b| >= 2 {
      assert Stride(b') == Stride(b);
      assert b'[|b|].from == b[0].from + |b| * Stride(b) && b[|b| - 1].from == b[0].from + (|b| - 1) * Stride(b);
    }
  }

  lemma BlockEnds(b: seq<Mapping>, m: Mapping)
    requires Block(b) && !(Shift(b[0]) == Shift(m) && (|b| == 1 || Stride(b) == Stride2(b[|b| - 1], m)))
    ensures !Block(b + [m])
  {
    if Block(b + [m]) {
      BlockGoesOn(b, m);
    }
  }

  lemma MaximalMore(blocks: seq<seq<Mapping>>, b: seq<Mapping>, m: Mapping)
    requires Maximal(blocks + [b]) && !Block(b + [m])
    ensures Maximal(blocks + [b] + [[m]])
  {
    var old', all := blocks + [b], blocks + [b] + [[m]];
    hide Block;
    forall k | 0 <= k < |all| - 1 ensures !Block(all[k] + [all[k + 1][0]]) {
      if k < |blocks| {
        assert all[k] == old'[k] && all[k + 1] == old'[k + 1];
      }
    }
  }

  lemma MaximalGrows(blocks: seq<seq<Mapping>>, b: seq<Mapping>, m: Mapping)
    requires Maximal(blocks + [b]) && b != []
    ensures Maximal(blocks + [b + [m]])
  {
    var old', all := blocks + [b], blocks + [b + [m]];
    hide Block;
    forall k | 0 <= k < |all| ensures all[k] != [] {
      assert k < |blocks| ==> all[k] == old'[k];
    }
    forall k | 0 <= k < |all| - 1 ensures !Block(all[k] + [all[k + 1][0]]) {
      assert all[k] == old'[k] && all[k + 1][0] == old'[k + 1][0];
    }
  }

  class Generator {
    var body: seq<Stmt>

    constructor ()
      ensures body == []
    {
      body := [];
    }

    method DumpBlock(b: seq<Mapping>)
      requires Block(b)
      modifies this
      ensures body == old(body) + Code(b)
    {
      if |b| == 1 {
        body := body + [IfEqual(b[0].from, b[0].to)];
        return;
      }
      var first := b[0].from;
      var last := first + Stride(b) * (|b| - 1);
      var modulo := first % Stride(b);
      body := body + [IfLess(first)];
      var pattern := IfUpTo(last, Some((Stride(b), modulo)), AddShift(Shift(b[0])));
      if Stride(b) == 2 && Shift(b[0]) == 1 && modulo == 0 {
        pattern := IfUpTo(last, None, OrOne);
      } else if Stride(b) == 1 {
        pattern := IfUpTo(last, None, AddShift(Shift(b[0])));
      }
      body := body + [pattern];
    }

    /** The loop that groups the mappings into blocks, of a table that is not empty. */
    method Generate(table: seq<Mapping>) returns (ghost blocks: seq<seq<Mapping>>)
      requires table != [] && Increasing(table) && NonNegative(table) && body == []
      modifies this
      ensures forall c :: Run(body, c) == Fold(table, c)
      ensures (forall k :: 0 <= k < |blocks| ==> Block(blocks[k])) && Maximal(blocks)
      ensures Joined(blocks) == table && body == CodeOf(blocks)
    {
      hide Code, CodeOf, Joined, Run, Fold, Block, Maximal;
      var currentBlock: seq<Mapping> := [];
      blocks := [];
      assert CodeOf([]) == [] && Joined([]) == [] by { NoBlocks(); }
      for i := 0 to |table|
        invariant forall k :: 0 <= k < |blocks| ==> Block(blocks[k])
        invariant currentBlock == [] ==> i == 0 && blocks == []
        invariant currentBlock != [] ==> Maximal(blocks + [currentBlock])
        invariant currentBlock != [] ==> i > 0 && Block(currentBlock) && currentBlock[|currentBlock| - 1] == table[i - 1]
        invariant table[..i] == Joined(blocks) + currentBlock
        invariant body == CodeOf(blocks)
      {
        var m := table[i];
        assert table[..i + 1] == table[..i] + [m];
        if |currentBlock| == 0 {
          BlockStarts(m);
          assert blocks + [[m]] == [[m]] && currentBlock + [m] == [m];
          currentBlock := currentBlock + [m];
        } else if Shift(currentBlock[0]) == Shift(m) && (|currentBlock| == 1 || Stride(currentBlock) == Stride2(currentBlock[|currentBlock| - 1], m)) {
          BlockGrows(currentBlock, m);
          MaximalGrows(blocks, currentBlock, m);
          currentBlock := currentBlock + [m];
        } else {
          DumpBlock(currentBlock);
          CodeOfAdd(blocks, currentBlock);
          BlockEnds(currentBlock, m);
          MaximalMore(blocks, currentBlock, m);
          BlockStarts(m);
          blocks := blocks + [currentBlock];
          currentBlock := [m];
        }
      }
      assert table[..|table|] == table;
      DumpBlock(currentBlock);
      CodeOfAdd(blocks, currentBlock);
      blocks := blocks + [currentBlock];
      forall c ensures Run(body, c) == Fold(table, c) {
        ChainRight(blocks, c);
      }
    }
  }

  lemma NoBlocks()
    ensures CodeOf([]) == [] && Joined([]) == []
  {
  }
}
