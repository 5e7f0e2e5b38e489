/**
 What the answers of lib/Analysis/AliasAnalysis.cpp are about: the bytes that calls
 read and write, by way of which arguments, and when an answer about them is right.
 */
module ModRefSemantics {

  datatype AliasResult = NoAlias | MayAlias | PartialAlias | MustAlias

  /** ModRefInfo without its Must bit. */
  datatype Info = Info(mod: bool, ref: bool)

  const NO_MOD_REF: Info := Info(false, false)
  const MOD_REF: Info := Info(true, true)

  function Intersect(a: Info, b: Info): Info { Info(a.mod && b.mod, a.ref && b.ref) }

  function Union(a: Info, b: Info): Info { Info(a.mod || b.mod, a.ref || b.ref) }

  /** FunctionModRefBehavior: how a call accesses memory, and which memory. */
  datatype Behavior = Behavior(info: Info, args: bool, inaccessible: bool, elsewhere: bool)

  const UNKNOWN_BEHAVIOR: Behavior := Behavior(MOD_REF, true, true, true)
  const DOES_NOT_ACCESS: Behavior := Behavior(NO_MOD_REF, false, false, false)
  const ONLY_INACCESSIBLE: Behavior := Behavior(MOD_REF, false, true, false)

  function Both(a: Behavior, b: Behavior): Behavior {
    Behavior(Intersect(a.info, b.info), a.args && b.args, a.inaccessible && b.inaccessible, a.elsewhere && b.elsewhere)
  }

  predicate OnlyReadsMemory(b: Behavior) { !b.info.mod }

  predicate DoesNotReadMemory(b: Behavior) { !b.info.ref }

  predicate OnlyAccessesArgPointees(b: Behavior) { !b.inaccessible && !b.elsewhere }

  predicate OnlyAccessesInaccessibleOrArgMem(b: Behavior) { !b.elsewhere }

  predicate DoesAccessArgPointees(b: Behavior) { (b.info.mod || b.info.ref) && b.args }

  type Loc = nat

  /** An argument, with the location that MemoryLocation::getForArgument gives if it is a pointer. */
  datatype Arg = Arg(isPointer: bool, loc: Loc)

  datatype Call = Call(id: nat, args: seq<Arg>)

  /** By way of what a call gets at memory. */
  datatype Via = ViaArg(k: nat) | Inaccessible | Elsewhere

  datatype Access = Access(byte: int, write: bool, via: Via)

  /** Instructions; `ordered` is an atomic ordering strong enough to matter for arbitrary addresses. */
  datatype Instr =
    | Load(loc: Loc, ordered: bool)
    | Store(loc: Loc, ordered: bool)
    | Fence
    | VAArg(loc: Loc)
    | CatchPad
    | CatchRet
    | Atomic(loc: Loc, ordered: bool)
    | CallInstr(call: Call)
    | Other

  datatype Touch = Touch(byte: int, write: bool)

  /** One execution: the bytes of each location, and what calls and other instructions access. */
  datatype World = World(bytes: Loc -> iset<int>, accesses: Call -> iset<Access>, others: Instr -> iset<Touch>)

  ghost predicate In(w: World, b: int, l: Loc) { b in w.bytes(l) }

  /**
   What arguments and inaccessible memory are: what is accessed by way of an argument is in its
   location, and inaccessible memory is in no location.
   */
  ghost predicate Sensible(w: World) {
    forall c, a :: a in w.accesses(c) ==>
      match a.via
      case ViaArg(k) => k < |c.args| && c.args[k].isPointer && In(w, a.byte, c.args[k].loc)
      case Inaccessible => forall l :: !In(w, a.byte, l)
      case Elsewhere => true
  }

  ghost predicate AliasRight(w: World, r: AliasResult, x: Loc, y: Loc) {
    r == NoAlias ==> forall b :: In(w, b, x) ==> !In(w, b, y)
  }

  /** A missing bit tells that a call does not write, or read, what is in a location. */
  ghost predicate LocRight(w: World, r: Info, c: Call, l: Loc) {
    forall a :: a in w.accesses(c) && In(w, a.byte, l) ==> if a.write then r.mod else r.ref
  }

  ghost predicate ArgRight(w: World, r: Info, c: Call, k: nat) {
    forall a :: a in w.accesses(c) && a.via == ViaArg(k) ==> if a.write then r.mod else r.ref
  }

  ghost predicate BehaviorRight(w: World, b: Behavior, c: Call) {
    forall a :: a in w.accesses(c) ==>
      && (if a.write then b.info.mod else b.info.ref)
      && match a.via case ViaArg(_) => b.args case Inaccessible => b.inaccessible case Elsewhere => b.elsewhere
  }

  /** An instruction touches a byte: an unordered access to memory only those of its location. */
  ghost predicate Touches(w: World, i: Instr, t: Touch) {
    match i
    case Load(l, ordered) => t in w.others(i) && (ordered || (In(w, t.byte, l) && !t.write))
    case Store(l, ordered) => t in w.others(i) && (ordered || (In(w, t.byte, l) && t.write))
    case VAArg(l) => t in w.others(i) && In(w, t.byte, l)
    case Atomic(l, ordered) => t in w.others(i) && (ordered || In(w, t.byte, l))
    case CallInstr(c) => exists a :: a in w.accesses(c) && t == Touch(a.byte, a.write)
    case Other => false
    case _ => t in w.others(i)
  }

  ghost predicate InstrRight(w: World, r: Info, i: Instr, l: Loc) {
    forall t :: Touches(w, i, t) && In(w, t.byte, l) ==> if t.write then r.mod else r.ref
  }

  /** Nobody writes constant memory. */
  ghost predicate ConstantRight(w: World, l: Loc) {
    && (forall c, a :: a in w.accesses(c) && In(w, a.byte, l) ==> !a.write)
    && (forall i, t :: Touches(w, i, t) && In(w, t.byte, l) ==> !t.write)
  }

  /** Two accesses to one byte, of which the second matters to the first: if either writes. */
  ghost predicate Depends(w: World, c1: Call, c2: Call, a: Access, b: Access) {
    a in w.accesses(c1) && b in w.accesses(c2) && a.byte == b.byte && (a.write || b.write)
  }

  /** A missing Mod tells that c1 writes nothing that c2 touches, a missing Ref that it reads nothing that c2 writes. */
  ghost predicate CallsRight(w: World, r: Info, c1: Call, c2: Call) {
    forall a, b :: Depends(w, c1, c2, a, b) ==> if a.write then r.mod else r.ref
  }

  /** An alias analysis. */
  datatype Analysis = Analysis(
    alias: (Loc, Loc) -> AliasResult,
    constant: Loc -> bool,
    argInfo: (Call, nat) -> Info,
    locInfo: (Call, Loc) -> Info,
    callInfo: (Call, Call) -> Info,
    behavior: Call -> Behavior)

  /** An analysis that is right about every execution is right about this one. */
  ghost predicate Sound(w: World, aa: Analysis) {
    && (forall x, y :: AliasRight(w, aa.alias(x, y), x, y))
    && (forall l :: aa.constant(l) ==> ConstantRight(w, l))
    && (forall c, k :: ArgRight(w, aa.argInfo(c, k), c, k))
    && (forall c, l :: LocRight(w, aa.locInfo(c, l), c, l))
    && (forall c, d :: CallsRight(w, aa.callInfo(c, d), c, d))
    && (forall c :: BehaviorRight(w, aa.behavior(c), c))
  }

  ghost predicate AllSound(w: World, aas: seq<Analysis>) {
    Sensible(w) && forall i :: 0 <= i < |aas| ==> Sound(w, aas[i])
  }
}
