/**
 The function that createCatchWrappedInvokeFunction generates: the blocks that invoke,
 land, route, catch, run the finally block, end and resume, and the storage they share.
 */
module UnwindCode {
  datatype Label = Entry | Normal | Landing | Route | External | Resume | End | Finally | Catch(i: nat)

  datatype Flag = NotThrown | Thrown | Caught

  datatype Inst =
    | SetFlag(flag: Flag)
    | ClearStored
    | ClearResult
    | StoreResult
    | StoreException
    | DeleteStored
    | SayNormal
    | SayForeign
    | SayReceived
    | SayFinally
    | SayCatch(kind: int)
    | SayEnd

  datatype Term =
    | Open
    | Invoke(normal: Label, unwind: Label)
    | Br(target: Label)
    | IfOurs(yes: Label, no: Label)
    | SwitchSelector(cases: seq<(nat, Label)>, otherwise: Label)
    | SwitchFlag(flagCases: seq<(Flag, Label)>, otherwise: Label)
    | RetVoid
    | ResumeStored

  datatype Block = Block(insts: seq<Inst>, term: Term)

  datatype Function = Function(blocks: map<Label, Block>, clauses: seq<int>, cleanup: bool)

  function Labels(n: nat): set<Label> {
    {Entry, Normal, Landing, Route, External, Resume, End, Finally} + set i | 0 <= i < n :: Catch(i)
  }

  lemma LabelsAre(n: nat, l: Label)
    ensures l in Labels(n) <==> (l.Catch? ==> l.i < n)
  {
  }

  function Cases(n: nat): seq<(nat, Label)> { seq(n, i requires 0 <= i => (i + 1, Catch(i))) }

  /** The block of a label, in the function that catches some types. */
  function BlockOf(types: seq<int>, l: Label): Block {
    match l
    case Entry => Block([ClearResult, ClearStored, SetFlag(NotThrown)], Invoke(Normal, Landing))
    case Normal => Block([SayNormal], Br(Finally))
    case Landing => Block([StoreResult, StoreException, SetFlag(Thrown)], IfOurs(Route, External))
    case External => Block([SayForeign], Br(Finally))
    case Route => Block([SayReceived], SwitchSelector(Cases(|types|), Finally))
    case Catch(i) => if i < |types| then Block([SayCatch(types[i]), SetFlag(Caught)], Br(Finally)) else Block([], Open)
    case Finally => Block([SayFinally], SwitchFlag([(Caught, End), (Thrown, Resume)], End))
    case End => Block([SayEnd, DeleteStored], RetVoid)
    case Resume => Block([], ResumeStored)
  }

  function Wrapped(types: seq<int>): Function {
    Function(map l | l in Labels(|types|) :: BlockOf(types, l), types, true)
  }

  /** The blocks b, and catch blocks for the first n types. */
  ghost predicate WithCatches(b: map<Label, Block>, b': map<Label, Block>, types: seq<int>, n: nat) {
    && (forall l :: l in b' <==> l in b || (l.Catch? && l.i < n))
    && (forall l :: l in b' ==> b'[l] == if l.Catch? && l.i < n then BlockOf(types, l) else b[l])
  }

  class FunctionBuilder {
    var blocks: map<Label, Block>
    var insertPoint: Label
    var clauses: seq<int>
    var cleanup: bool

    constructor ()
      ensures blocks == map[] && clauses == [] && !cleanup
    {
      blocks := map[];
      insertPoint := Entry;
      clauses := [];
      cleanup := false;
    }

    /** BasicBlock::Create. */
    method CreateBlock(l: Label)
      modifies `blocks
      ensures blocks == old(blocks)[l := Block([], Open)]
    {
      blocks := blocks[l := Block([], Open)];
    }

    /** createEntryBlockAlloca: the initial value is stored ahead of everything else. */
    method CreateEntryBlockAlloca(init: Inst)
      requires Entry in blocks
      modifies `blocks
      ensures blocks == old(blocks)[Entry := old(blocks[Entry]).(insts := [init] + old(blocks[Entry]).insts)]
    {
      blocks := blocks[Entry := blocks[Entry].(insts := [init] + blocks[Entry].insts)];
    }

    method Emit(i: Inst)
      requires insertPoint in blocks
      modifies `blocks
      ensures blocks == old(blocks)[insertPoint := old(blocks[insertPoint]).(insts := old(blocks[insertPoint]).insts + [i])]
    {
      blocks := blocks[insertPoint := blocks[insertPoint].(insts := blocks[insertPoint].insts + [i])];
    }

    method Terminate(t: Term)
      requires insertPoint in blocks
      modifies `blocks
      ensures blocks == old(blocks)[insertPoint := old(blocks[insertPoint]).(term := t)]
    {
      blocks := blocks[insertPoint := blocks[insertPoint].(term := t)];
    }

    method CreateFinallyBlock(terminator: Label, resume: Label)
      requires Entry in blocks && blocks[Entry] == Block([], Open)
      modifies `blocks, `insertPoint
      ensures blocks == old(blocks)[Entry := Block([ClearResult, ClearStored, SetFlag(NotThrown)], Open)]
                          [Finally := Block([SayFinally], SwitchFlag([(Caught, terminator), (Thrown, resume)], terminator))]
    {
      CreateEntryBlockAlloca(SetFlag(NotThrown));
      CreateEntryBlockAlloca(ClearStored);
      CreateEntryBlockAlloca(ClearResult);
      assert blocks[Entry].insts == [ClearResult, ClearStored, SetFlag(NotThrown)];
      CreateBlock(Finally);
      EmitBlock(Finally, [SayFinally], SwitchFlag([(Caught, terminator), (Thrown, resume)], terminator));
    }

    method CreateCatchBlock(i: nat, kind: int, terminator: Label)
      modifies `blocks, `insertPoint
      ensures blocks == old(blocks)[Catch(i) := Block([SayCatch(kind), SetFlag(Caught)], Br(terminator))]
    {
      CreateBlock(Catch(i));
      EmitBlock(Catch(i), [SayCatch(kind), SetFlag(Caught)], Br(terminator));
    }

    /** The eight blocks that do not depend on the types. */
    method CreateFixedBlocks()
      requires blocks == map[]
      modifies `blocks
      ensures forall l :: l in blocks <==> !l.Catch? && l != Finally
      ensures forall l :: l in blocks ==> blocks[l] == Block([], Open)
    {
      CreateBlock(Entry);
      CreateBlock(Normal);
      CreateBlock(Landing);
      CreateBlock(Route);
      CreateBlock(External);
      CreateBlock(Resume);
      CreateBlock(End);
    }

    method CreateCatchBlocks(types: seq<int>)
      modifies `blocks, `insertPoint
      ensures WithCatches(old(blocks), blocks, types, |types|)
    {
      for i := 0 to |types|
        invariant WithCatches(old(blocks), blocks, types, i)
      {
        CreateCatchBlock(i, types[i], Finally);
      }
    }

    /** Emit some instructions and a terminator into an empty block. */
    method EmitBlock(l: Label, insts: seq<Inst>, t: Term)
      requires l in blocks && blocks[l] == Block([], Open)
      modifies `blocks, `insertPoint
      ensures blocks == old(blocks)[l := Block(insts, t)]
    {
      insertPoint := l;
      for i := 0 to |insts|
        invariant insertPoint == l && blocks == old(blocks)[l := Block(insts[..i], Open)]
      {
        Emit(insts[i]);
        assert insts[..i] + [insts[i]] == insts[..i + 1];
      }
      assert insts[..|insts|] == insts;
      Terminate(t);
    }

    method LandingBlock(types: seq<int>)
      requires Landing in blocks && blocks[Landing] == Block([], Open) && clauses == []
      modifies this
      ensures blocks == old(blocks)[Landing := BlockOf(types, Landing)] && clauses == types && cleanup
    {
      cleanup := true;
      for i := 0 to |types|
        invariant clauses == types[..i] && blocks == old(blocks) && cleanup
      {
        clauses := clauses + [types[i]];
      }
      EmitBlock(Landing, [StoreResult, StoreException, SetFlag(Thrown)], IfOurs(Route, External));
    }

    method RouteBlock(types: seq<int>)
      requires Route in blocks && blocks[Route] == Block([], Open)
      modifies `blocks, `insertPoint
      ensures blocks == old(blocks)[Route := BlockOf(types, Route)]
    {
      var cases := [];
      for i := 1 to |types| + 1
        invariant cases == Cases(i - 1) && blocks == old(blocks)
      {
        cases := cases + [(i, Catch(i - 1))];
      }
      EmitBlock(Route, [SayReceived], SwitchSelector(cases, Finally));
    }

    method CreateShell(types: seq<int>)
      requires blocks == map[]
      modifies `blocks, `insertPoint
      ensures Filled(blocks, types, {Entry, Finally})
    {
      hide Labels, Filled;
      CreateFixedBlocks();
      CreateFinallyBlock(End, Resume);
      ghost var fixed := blocks;
      CreateCatchBlocks(types);
      ShellFilled(fixed, types, blocks);
      insertPoint := Entry;
      Terminate(Invoke(Normal, Landing));
    }

    method CreateCatchWrappedInvokeFunction(types: seq<int>) returns (f: Function)
      requires blocks == map[] && clauses == []
      modifies this
      ensures f == Wrapped(types)
    {
      hide Labels, Filled;
      CreateShell(types);
      FillOne(blocks, types, {Entry, Finally}, End);
      EmitBlock(End, [SayEnd, DeleteStored], RetVoid);
      FillOne(blocks, types, {Entry, Finally} + {End}, Normal);
      EmitBlock(Normal, [SayNormal], Br(Finally));
      FillOne(blocks, types, {Entry, Finally} + {End} + {Normal}, Resume);
      EmitBlock(Resume, [], ResumeStored);
      FillOne(blocks, types, {Entry, Finally} + {End} + {Normal} + {Resume}, Landing);
      LandingBlock(types);
      FillOne(blocks, types, {Entry, Finally} + {End} + {Normal} + {Resume} + {Landing}, External);
      EmitBlock(External, [SayForeign], Br(Finally));
      FillOne(blocks, types, {Entry, Finally} + {End} + {Normal} + {Resume} + {Landing} + {External}, Route);
      RouteBlock(types);
      AllFilled(blocks, types, {Entry, Finally} + {End} + {Normal} + {Resume} + {Landing} + {External} + {Route});
      f := Function(blocks, clauses, cleanup);
    }
  }

  /** Between the steps: some blocks are as they should be, and the others are still empty. */
  predicate FilledAt(blocks: map<Label, Block>, types: seq<int>, done: set<Label>, l: Label) {
    && (l in blocks <==> (l.Catch? ==> l.i < |types|))
    && (l in blocks ==> blocks[l] == if l in done || l.Catch? then BlockOf(types, l) else Block([], Open))
  }

  ghost predicate Filled(blocks: map<Label, Block>, types: seq<int>, done: set<Label>) {
    forall l :: FilledAt(blocks, types, done, l)
  }

  function ShellOf(l: Label): Block {
    match l
    case Entry => Block([ClearResult, ClearStored, SetFlag(NotThrown)], Open)
    case Finally => Block([SayFinally], SwitchFlag([(Caught, End), (Thrown, Resume)], End))
    case _ => Block([], Open)
  }

  lemma ShellFilled(fixed: map<Label, Block>, types: seq<int>, b: map<Label, Block>)
    requires forall l :: l in fixed <==> !l.Catch?
    requires forall l :: l in fixed ==> fixed[l] == ShellOf(l)
    requires WithCatches(fixed, b, types, |types|)
    ensures Entry in b
    ensures Filled(b[Entry := b[Entry].(term := Invoke(Normal, Landing))], types, {Entry, Finally})
  {
    assert Entry in fixed && Finally in fixed;
    var c := b[Entry := b[Entry].(term := Invoke(Normal, Landing))];
    forall l ensures FilledAt(c, types, {Entry, Finally}, l) {
    }
  }

  lemma FillOne(blocks: map<Label, Block>, types: seq<int>, done: set<Label>, l: Label)
    requires Filled(blocks, types, done) && l !in done && !l.Catch?
    ensures l in blocks && blocks[l] == Block([], Open)
    ensures Filled(blocks[l := BlockOf(types, l)], types, done + {l})
  {
    assert FilledAt(blocks, types, done, l);
    var blocks', done' := blocks[l := BlockOf(types, l)], done + {l};
    forall k ensures FilledAt(blocks', types, done', k) {
      assert FilledAt(blocks, types, done, k);
    }
  }

  lemma AllFilled(blocks: map<Label, Block>, types: seq<int>, done: set<Label>)
    requires Filled(blocks, types, done)
    requires forall l: Label :: l.Catch? || l in done
    ensures blocks == Wrapped(types).blocks
  {
    forall l
      ensures l in blocks <==> l in Labels(|types|)
      ensures l in blocks ==> blocks[l] == BlockOf(types, l)
    {
      assert FilledAt(blocks, types, done, l);
      LabelsAre(|types|, l);
    }
  }
}
