# Verified models of ten LLVM components

This project models parts of LLVM in Dafny and proves what they are for. Each
part is a group of modules; in each, the functions say what the code computes,
the methods and classes compute it the way the code does, and the lemmas state
what follows.

- **BrainF compiler** (`BrainF*.dfy`). The lexer that merges runs, with one
  symbol of lookahead, fused with a generator of an SSA control-flow graph whose
  phis are completed when loops close. Both the source language and the graph have
  an interpreter; the compiled program simulates the source, ending or not, whatever
  is in the memory that malloc returns.
- **Alias sets** (`Alias*.dfy`). A tracker of sets with lazy forwarding, reference
  counts, must/may labels and a saturated mode. Sets are identified by number in
  a map. The invariant counts every reference; the live sets refine connected
  components of the alias graph, and the count of pointers in may-alias sets is
  followed through every operation.
- **GEP decomposition** (`Gep*.dfy`). Linear expressions modulo powers of two, the
  decomposition of addresses and the rules that conclude from it that accesses do
  not, or do, overlap.
- **Block frequencies** (`Bfi*.dfy`). Weights, their normalization to 32 bits, the
  distribution of mass without loss, headers of irreducible loops, and unwrapping.
- **Mod/ref answers** (`ModRef*.dfy`). A chain of alias analyses whose answers are
  intersected with early exits, proved sound against the bytes that calls access, and
  exact in what takes a bit away.
- **Exceptions** (`Unwind*.dfy`). The personality routine, the generator of
  catch-wrapped functions and the two phases of unwinding, as a machine over a stack
  of frames.
- **Rendezvous** (`Rendezvous*.dfy`). A barrier with a mutex and a condition variable, and
  what becomes of it if it is told a wrong number of threads.
- **Mangled names** (`Itanium*.dfy`). The parsers of nested names of the Itanium C++
  ABI, section 5.1, and a printer whose output they read back.
- **Case folding** (`CaseFold.dfy`). A table compiled into a chain of conditionals.
- **Shuffles and selects** (`Shuffle*.dfy`). A random program generator with an
  abstract evaluator, against executions in which an undef select bit takes either
  operand and an undef lane any value (docs/LangRef.rst, "Undefined Values").

`Arith.dfy` holds remainders and powers of two.

What the code calls but does not contain is a parameter, with what is assumed of it
stated: alias answers (symmetric, must-aliasing locations interchangeable as far as
their sizes go, and a larger access aliasing no less, as for byte ranges by
`AliasHistory.RangesConsistent`), known bits (sound), branch probability scaling (a part
is at most the whole, and the whole is the whole), random choices (any), scheduling
(any), and decoded unwind tables (any that describe the function).

Where code and expectation differ the code is kept, and a concrete input shown:

- a pointer that is added again with a larger size does not pass it on to the first
  pointer of its must-alias set, which answers for all, so that later overlapping
  accesses can go to another set (`AliasGrowth.GrownMissed`, exact by
  `AliasGrowth.NextRightIff`);
- deleting the last pointer of a saturated tracker removes the set that it still
  adds to (`AliasTracker.Dangling`; `DeleteValue` says exactly when);
- an instruction that joins a must-alias set makes it may-alias without counting its
  pointers, and the counter wraps around when they are deleted
  (`AliasTracker.Miscounted`; `AddUnknown` says exactly when it is off, and by how much);
- two weights of 2^64-1 are normalized to a total of 2^32, one more than fits
  (`BfiNormalize.TwoHugeWeights`, exact by `BfiNormalize.OverflowFitsIff` and
  `BfiNormalize.TwoTargetsFit`);
- sizes close to 2^64 wrap around in `constantOffsetHeuristic` and in the field test
  (`GepAlias.HugeSizesMislead`, exact by `GepHeuristic.HeuristicRightIff`;
  `GepDifference.WrappedEnd`, exact by `GepDifference.SuccessRightIffFits`);
- a va_arg, catchpad or catchret is said not to read constant memory, although it
  may; a comment next to the code speaks of writes only
  (`ModRefSound.VAArgReadsConstant`, exact by `ModRefSound.ForgottenRead`);
- the rest that the nested-name parser returns ends at the first newline, because a
  dot does not match one (`ItaniumPrinter.NewlineIsLost`, exact by
  `ItaniumPrinter.RestKeptIff`);
- a select through an undef bit is tracked as undecided even if both operands hold the
  same value (`ShuffleSelect.BlendedZero`, exact by `ShuffleUndecided.UndefRightIff`).

PartialAlias speaks of accesses that are not empty; aliasCheck answers NoAlias before
it gets there if one is.

## Model

| member | source | states |
|---|---|---|
| BrainFCorrect.CompilerCorrect | examples/BrainF/BrainF.cpp:192-476 | for every balanced source, input, tape size and contents of the memory that malloc returns, the compiled control-flow graph without bounds checks never gets stuck; it halts exactly if character-by-character interpretation on a zeroed tape ends, and then with the same remaining input, output, tape (cells modulo 256) and head, and the memory freed once; whether or not they end, whatever either outputs the other outputs too |
| BrainFCorrect.HaltsIff | examples/BrainF/BrainF.cpp:192-476 | the compiled program halts if and only if the source run ends |
| BrainFCorrect.ResultsAlike | examples/BrainF/BrainF.cpp:192-476 | when both have ended, input, output, tape and head are the same |
| BrainFCorrect.OutputsAlike | examples/BrainF/BrainF.cpp:192-476 | what one run has output after any number of steps the other outputs sooner or later, also in runs that never end |
| BrainFCorrect.CheckedSafe | examples/BrainF/BrainF.cpp:246-276 | with `flag_arraybounds` and a positive tape size no load or store of any run is outside the memory that is allocated, no run gets stuck, and one that halts has freed the tape once; whatever malloc returns |
| BrainFCorrect.CheckedSame | examples/BrainF/BrainF.cpp:246-276 | as long as the unchecked run stays on the tape the checked program follows it, without an error, whatever malloc returns |
| BrainFCorrect.CheckedLeaves | examples/BrainF/BrainF.cpp:118-188 | at the first merged move that leaves the tape the checked program goes to the error block and halts, with the input, output and tape from before that move |
| BrainFCorrect.RunSim | examples/BrainF/BrainF.cpp:192-476 | however long a run of tokens, some machine run at least as long is where it is: one token is one or more machine steps |
| BrainFCompiler.Parse | examples/BrainF/BrainF.cpp:49-63 | compilation succeeds exactly on bracket-balanced sources, and fails at a closing bracket too many exactly if one has no partner; every block then has a terminator, every phi exactly one entry for each predecessor, and the program is compiled from the tokens of the source |
| BrainFCompiler.BrainF.constructor | examples/BrainF/BrainF.cpp:65-190 | the header, which allocates and clears the tape, leaves an insertion point from which the code of the first token can be written, with its footer blocks in place |
| BrainFCompiler.BrainF.ReadLoop | examples/BrainF/BrainF.cpp:192-208 | compiling up to the end of a loop, or of the input, emits exactly the tokens still to come: no lookahead symbol is lost on the way into or out of a loop, and failure means that brackets do not match; which of the two errors it is depends on whether a closing bracket has no partner |
| BrainFCompiler.BrainF.ReadSymbols | examples/BrainF/BrainF.cpp:320-424 | the one-symbol lookahead loop leaves the tokens still to come unchanged, whether it merges a character into a run or keeps it for later |
| BrainFCompiler.BrainF.WriteOut | examples/BrainF/BrainF.cpp:209-312 | writing out a symbol appends exactly its token, and keeps the code that is already there |
| BrainFCompiler.BrainF.InsertCheckedMove | examples/BrainF/BrainF.cpp:246-276 | a bounds check splits the block, branches to the error block, and keeps the code invariant |
| BrainFCompiler.BrainF.InsertOpen | examples/BrainF/BrainF.cpp:292-312 | the phi of a loop is started with one entry, to be completed when the loop is closed |
| BrainFCompiler.BrainF.InsertClose | examples/BrainF/BrainF.cpp:426-467 | closing a loop completes the phi of its own test block, and pops just that loop |
| BrainFCompiler.BrainF.InsertEnd | examples/BrainF/BrainF.cpp:469-475 | at the end of the input, where no loop is open, the program is complete and its brackets balanced; that nothing else gets there is Parse |
| BrainFLexing.WholeAligned | examples/BrainF/BrainF.cpp:320-424 | brackets match among characters exactly as they do among merged tokens; in particular both are balanced or neither is |
| BrainFLexing.LexAt | examples/BrainF/BrainF.cpp:320-424 | lexing can be resumed at the end of any token, and then gives the tokens that are left |
| BrainFLexing.RunInStep | examples/BrainF/BrainF.cpp:320-424 | running tokens with merged counts agrees with running characters one by one, whatever the number of steps |
| BrainFLang.LinkWellFormed | examples/BrainF/BrainF.cpp:426-467 | matching brackets with a stack pairs every bracket that is not open, with partners that point at each other |
| BrainFLang.LinkStaysBroken | examples/BrainF/BrainF.cpp:426-467 | once a closing bracket has no partner no continuation repairs it, so that giving up at once is right |
| BrainFCode.AddStraightKeeps | examples/BrainF/BrainF.cpp:209-290 | the code invariant - all blocks but the current one and those of open loops terminated, phis matching predecessors, the code of every earlier token in place - is kept by a token that is not a bracket |
| BrainFCode.OpenLoopKeeps | examples/BrainF/BrainF.cpp:292-312 | and by an opening bracket |
| BrainFCode.CloseLoopKeeps | examples/BrainF/BrainF.cpp:426-467 | and by a closing bracket, which completes the phi of an earlier block |
| BrainFCode.HeaderEmitted | examples/BrainF/BrainF.cpp:65-190 | the header establishes that invariant; that it leaves a cleared tape of the right size, whatever the memory held, is needed by BrainFCorrect.CompilerCorrect |
| BrainFCode.EndProgramFlow | examples/BrainF/BrainF.cpp:469-475 | a finished program has one terminator in every block and one phi entry for exactly each predecessor |
| AliasComponents.TogetherIffLinked | lib/Analysis/AliasSetTracker.cpp:305-348 | two pointers share an alias set if and only if a chain of pointers that may alias joins them |
| AliasComponents.LabelIsExact | lib/Analysis/AliasSetTracker.cpp:49-83 | a set is labelled may-alias if and only if two of its pointers do not must-alias |
| AliasComponents.OrderIrrelevant | lib/Analysis/AliasSetTracker.cpp:305-348 | trackers that hold the same pointers hold the same sets, labels and counts, whatever they went through |
| AliasHistory.AddAllComponents | lib/Analysis/AliasSetTracker.cpp:305-348 | after any sequence of additions before saturation, of one size for each pointer, the sets are the connected components of the graph of pairs that are not NoAlias, rightly labelled, and TotalMayAliasSetSize is the number of pointers in may-alias sets |
| AliasHistory.AddStepComponents | lib/Analysis/AliasSetTracker.cpp:305-348 | one addition keeps all of that; adding a pointer again changes nothing |
| AliasGrowth.AnyRunComponents | lib/Analysis/AliasSetTracker.cpp:325-337 | and after additions of any sizes, at the largest size of every pointer, as long as the first pointer of every must-alias set is recorded with the largest size in it; the addition that ends this still leaves the sets right |
| AliasGrowth.NextRightIff | lib/Analysis/AliasSetTracker.cpp:137-146 | for byte ranges that is exact: the next pointer is put in the right set, wherever it points to and whatever its size, if and only if first pointers have the largest sizes |
| AliasGrowth.GrowStep | lib/Analysis/AliasSetTracker.cpp:325-337 | a known pointer that is added with more than its record: the sets are the components of the larger graph, and ready for the next addition exactly if first pointers have the largest sizes |
| AliasGrowth.GrownMissed | lib/Analysis/AliasSetTracker.cpp:325-337 | a concrete run after which an access is in another set than one that it overlaps |
| AliasGrowth.AnyRunsAgree | lib/Analysis/AliasSetTracker.cpp:305-348 | two runs with the same largest sizes agree |
| AliasHistory.RunsAgree | lib/Analysis/AliasSetTracker.cpp:305-348 | two such runs that add the same pointers in any order and with any repetition end in the same partition with the same count |
| AliasHistory.RangesConsistent | lib/Analysis/AliasSetTracker.cpp:185-220 | what that asks of the alias analysis - symmetry, and of two must-aliasing locations that they must-alias the same and the larger aliases whatever the smaller does, as a larger access through one pointer does - holds of byte ranges, whatever the sizes |
| AliasHistory.LargestSizeMatters | lib/Analysis/AliasSetTracker.cpp:137-146 | a run in which a pointer joins a set only because the first pointer of that took the size of a larger access |
| AliasGroups.ConnectedUnion | lib/Analysis/AliasSetTracker.cpp:264-280 | two connected sets with an edge between them, or a pointer in common, are connected together |
| AliasGroups.AliasesIsEdge | lib/Analysis/AliasSetTracker.cpp:185-220 | asking a must-alias set about its first pointer only, at the largest size of its members, still tells whether the new pointer has an edge to some member |
| AliasGroups.HalfwayAll | lib/Analysis/AliasSetTracker.cpp:264-280 | while sets are merged one after the other, those found and the new pointer are connected, and it has no edge to any set passed over |
| AliasGroups.AddedComponents | lib/Analysis/AliasSetTracker.cpp:128-164 | adding the pointer to what was found, or to a new set, gives connected components again |
| AliasRefs.OnlyOwnRoot | lib/Analysis/AliasSetTracker.cpp:111-121 | a set down to its last reference, held by the caller, is the root of nothing but itself |
| AliasRefs.EraseKeeps | lib/Analysis/AliasSetTracker.cpp:111-121 | removing a set that nothing refers to keeps the invariant: RefCount is the number of pointer records that name the set, plus sets that forward to it, plus one if it has unknown instructions; forwarding goes to earlier sets, or to the saturated one |
| AliasRefs.AbsorbKeeps | lib/Analysis/AliasSetTracker.cpp:84-109 | merging two sets keeps the invariant, with the forwarding reference counted |
| AliasRefs.EnterKeeps | lib/Analysis/AliasSetTracker.cpp:150-164 | a pointer that enters a set keeps it |
| AliasRefs.LeaveKeeps | lib/Analysis/AliasSetTracker.cpp:507-528 | a pointer that leaves a set keeps it |
| AliasRefs.RecordToKeeps | include/llvm/Analysis/AliasSetTracker.h:106-115 | path compression of a pointer record keeps it |
| AliasRefs.ForwardToKeeps | include/llvm/Analysis/AliasSetTracker.h:276-286 | path compression between sets keeps it |
| AliasRefs.WitnessKeeps | lib/Analysis/AliasSetTracker.cpp:166-180 | an instruction that joins a set keeps it, with one reference for all of them |
| AliasRefs.NotEmpty | lib/Analysis/AliasSetTracker.cpp:81-121 | a set that is there, does not forward and has no instruction has a pointer |
| AliasTracker.Tracker.DropRef | include/llvm/Analysis/AliasSetTracker.h:185-190 | takes one reference off; the set is erased exactly if that was the last one, and so is every set that only it kept alive |
| AliasTracker.Tracker.RemoveAliasSet | lib/Analysis/AliasSetTracker.cpp:111-121 | a set that goes gives back the reference to what it forwards to, and nothing else changes |
| AliasTracker.Tracker.GetForwardedTarget | include/llvm/Analysis/AliasSetTracker.h:276-286 | ends, on every state that meets the invariant, at the one set that does not forward; live sets keep their contents |
| AliasTracker.Tracker.GetAliasSet | include/llvm/Analysis/AliasSetTracker.h:106-115 | moves the record of a pointer, with its reference, to the set that it leads to |
| AliasTracker.Tracker.MergeSetIn | lib/Analysis/AliasSetTracker.cpp:49-109 | the live sets are those of the fused partition, the count is the specified one, and the invariant on references is kept; the count falls short of the sizes of the may-alias sets by as much as before |
| AliasTracker.Tracker.AddPointerTo | lib/Analysis/AliasSetTracker.cpp:128-164 | label, sizes, list and count after a pointer has joined a set; what is missing from the count is the same as before |
| AliasTracker.Tracker.AddUnknownTo | lib/Analysis/AliasSetTracker.cpp:166-180 | an instruction joins a set, which becomes may-alias |
| AliasTracker.Tracker.AliasesPointer | lib/Analysis/AliasSetTracker.cpp:185-220 | true exactly if the set takes everything, its first pointer aliases the location, or, of a may-alias set, any pointer aliases it or an instruction touches it |
| AliasTracker.Tracker.AliasesUnknownInst | lib/Analysis/AliasSetTracker.cpp:222-246 | true exactly if the set takes everything, or the instruction touches a pointer of it or interferes with an instruction in it |
| AliasTracker.Tracker.MergeAliasSetsForPointer | lib/Analysis/AliasSetTracker.cpp:264-280 | merges exactly the live sets that alias the pointer, each into the first one found |
| AliasTracker.Tracker.FindAliasSetForUnknownInst | lib/Analysis/AliasSetTracker.cpp:289-301 | merges exactly the live sets that hold a pointer that the instruction touches or an instruction that interferes with it; the others are as they were |
| AliasTracker.Tracker.GetAliasSetForPointer | lib/Analysis/AliasSetTracker.cpp:305-348 | before saturation the imperative tracker, with forwarding and reference counts, refines one step of the plain partition; the pointer ends in the set returned and in no other |
| AliasTracker.Tracker.GetSaturated | lib/Analysis/AliasSetTracker.cpp:305-323 | in a saturated tracker every pointer goes to the one set that takes everything |
| AliasTracker.Tracker.AddUnknown | lib/Analysis/AliasSetTracker.cpp:427-454 | before saturation, an instruction ends in one set with all that was in sets holding something it touches or interferes with, and all other sets are apart from it and as they were; markers and instructions that do not touch memory change nothing. The count stays as exact as it was if and only if that set was may-alias already or is counted as empty; otherwise the size of the set is missing from then on |
| AliasTracker.Tracker.MergeAllAliasSets | lib/Analysis/AliasSetTracker.cpp:554-589 | afterwards one new set holds every instruction that any set held, takes everything, and all others forward to it; what is missing from the count is the same as before |
| AliasTracker.Tracker.Add | lib/Analysis/AliasSetTracker.cpp:591-604 | refines a partition step, and saturates exactly when the count exceeds the threshold, which is that of the may-alias sets less what is missing from it; saturated, one live set holds every pointer |
| AliasTracker.Tracker.AddBlock | lib/Analysis/AliasSetTracker.cpp:471-474 | a whole run of accesses with known locations, from an empty tracker: saturated exactly if some prefix exceeds the threshold, then one set holds everything, and otherwise the tracker is what adding to the plain partition gives |
| AliasTracker.Tracker.DeleteValue | lib/Analysis/AliasSetTracker.cpp:507-528 | the pointer is gone from its set, which is removed exactly if it is left without pointers and instructions; the saturated set of a tracker stays usable if and only if it is not; the count goes down with the sizes of may-alias sets |
| AliasTracker.Tracker.CopyValue | lib/Analysis/AliasSetTracker.cpp:535-552 | the copy joins the set of the original as known to must-alias it, and is counted if that is may-alias |
| AliasTracker.Dangling | lib/Analysis/AliasSetTracker.cpp:507-528 | a saturated tracker whose last pointer is deleted is left with a set to add to that no longer exists |
| AliasTracker.Miscounted | lib/Analysis/AliasSetTracker.cpp:166-180 | a concrete run: an instruction joins the must-alias set of a pointer, the pointer is deleted, the count becomes 2^32-1, and the next pointer saturates the tracker although it is the only one |
| AliasTotals.LevelMerge | lib/Analysis/AliasSetTracker.cpp:49-109 | merging changes the count and the sizes of the may-alias sets by the same amount modulo 2^32, in all cases of labels and empty lists |
| AliasTotals.LevelErased | lib/Analysis/AliasSetTracker.cpp:111-121 | and so does removing a set, whatever size it is still counted with |
| AliasUnknown.InstPlaced | lib/Analysis/AliasSetTracker.cpp:289-301 | an instruction that is added is together with exactly what was in sets of which it touches a pointer or interferes with an instruction; no other set holds such a thing, or changes |
| AliasUnknown.PtrPlaced | lib/Analysis/AliasSetTracker.cpp:185-220 | and a pointer likewise with sets of which it aliases a pointer or an instruction touches it |
| GepLinear.LinearMeans | lib/Analysis/BasicAliasAnalysis.cpp:221-372 | the invariant of GetLinearExpression: value = scale * v + offset modulo the width of the value, and modulo the outermost width as long as nothing wraps |
| GepLinear.LinearWidth | lib/Analysis/BasicAliasAnalysis.cpp:221-372 | extending the variable again gives the width of the value |
| GepLinear.LooksThrough | lib/Analysis/BasicAliasAnalysis.cpp:221-372 | a value built from adds, subtractions, multiplications, shifts and ors of disjoint bits is decomposed all the way down, up to the depth limit; under an extension if the operators are known not to wrap and are no shifts |
| GepDecompose.AdjustIs | lib/Analysis/BasicAliasAnalysis.cpp:378-382 | shifting up and arithmetically down is sign extension from the size of a pointer |
| GepDecompose.MergeVariable | lib/Analysis/BasicAliasAnalysis.cpp:518-540 | a variable that is already there is merged and one whose scale becomes zero dropped: keys stay distinct and scales nonzero, the coefficient of that variable grows by its scale, modulo the size of a pointer, and all others stay |
| GepDecompose.AddIndex | lib/Analysis/BasicAliasAnalysis.cpp:459-549 | one operand moves the decomposition by exactly what it adds to the address: offsets, and the coefficient of every variable, modulo the size of a pointer |
| GepDecompose.DecomposeGEPExpression | lib/Analysis/BasicAliasAnalysis.cpp:397-559 | address = base + StructOffset + OtherOffset + sum of scale * variable modulo 2^PointerSize in every world; the coefficient of every variable is exactly what all the indices bring of it; distinct variables and no zero scale; the lookup limit is reported exactly if there are that many layers to look through, and otherwise none is left |
| GepDecompose.PeelIs | lib/Analysis/BasicAliasAnalysis.cpp:397-455 | looking through aliases, casts, returned arguments and getelementptrs stops at the limit or where there is nothing more to look through, and nowhere else |
| GepBits.LowestIs | lib/Analysis/BasicAliasAnalysis.cpp:1351-1396 | `m ^ (m & (m - 1))` is the largest power of two that divides m |
| GepBits.OrDivides | lib/Analysis/BasicAliasAnalysis.cpp:1354-1387 | a power of two divides a bitwise or if and only if it divides both sides |
| GepAlias.AliasAtDistance | lib/Analysis/BasicAliasAnalysis.cpp:1319-1412 | whatever the variables are, NoAlias means disjoint byte ranges, PartialAlias overlapping ones and MustAlias the same start: unconditionally for the constant, the modulo and the all-positive rule, and for the heuristic where its 64-bit sums do not wrap. And the answer is exactly: at a constant distance MustAlias, PartialAlias or NoAlias by the distance and the sizes, if those needed are known; otherwise NoAlias if and only if the ranges are in separate residues of the largest power of two that divides all scales, or no term can be negative and the second access ends before the distance, or the heuristic fires |
| GepAlias.DisjointMeans | lib/Analysis/BasicAliasAnalysis.cpp:1326-1349 | the arithmetic test for apart is the same as having no byte in common |
| GepAlias.ModOffsetIs | lib/Analysis/BasicAliasAnalysis.cpp:1387-1396 | the distance modulo the lowest bit of all scales is that of the constant offset |
| GepAlias.PositiveSum | lib/Analysis/BasicAliasAnalysis.cpp:1362-1402 | if every term is known not to be negative neither is their sum |
| GepAlias.PositiveIff | lib/Analysis/BasicAliasAnalysis.cpp:1362-1380 | the test of a term is exact: it succeeds if and only if no value that the known sign and extension allow makes the term negative |
| GepAlias.ApartModuloIff | lib/Analysis/BasicAliasAnalysis.cpp:1387-1396 | the test on the lowest bit of the combined scales is the one on the largest power of two that divides every scale |
| GepAlias.HeuristicRight | lib/Analysis/BasicAliasAnalysis.cpp:1796-1848 | when constantOffsetHeuristic fires and its 64-bit sums do not wrap the ranges are disjoint for all values of the variables |
| GepHeuristic.HeuristicRightIff | lib/Analysis/BasicAliasAnalysis.cpp:1796-1848 | and only then: for accesses of at least a byte through an opaque value, the heuristic is right in all worlds if and only if its sums do not wrap |
| GepHeuristic.HeuristicFiresIff | lib/Analysis/BasicAliasAnalysis.cpp:1796-1848 | where no product or sum wraps around, the heuristic fires if and only if there are two variables with opposite scales that are one value up to a constant, and the accesses fit in the gap at every distance congruent to that constant |
| GepAlias.HugeSizesMislead | lib/Analysis/BasicAliasAnalysis.cpp:1837-1848 | a concrete pair of sizes close to 2^64 for which the sums wrap and overlapping accesses are told apart |
| GepDifference.GetIndexDifference | lib/Analysis/BasicAliasAnalysis.cpp:1760-1794 | the result is the symbolic difference modulo 2^64 for all values of the variables, exactly so if no scale overflows; no two terms of it have one key and may be compared |
| GepDifference.SubtractOne | lib/Analysis/BasicAliasAnalysis.cpp:1760-1794 | one variable is subtracted, whatever the variables are: found and cancelled, or pushed negated only where there is none to compare it with, so that keys of comparable variables stay distinct |
| GepDifference.AliasOverBase | lib/Analysis/BasicAliasAnalysis.cpp:1196-1412 | two decompositions over one base: the answer of every rule is right at a distance that is, in every world, the distance of the pointers modulo the size of a pointer; only the heuristic needs sums that do not wrap. Unless a lookup limit is reached, the constant part and the coefficient of every variable of that distance are exactly what the indices of the first bring less what those of the second bring, and the answer is exactly the one for that distance |
| GepDifference.SameMustAlias | lib/Analysis/BasicAliasAnalysis.cpp:1282-1330 | two pointers whose indices bring the same must-alias, if values may be compared |
| GepDifference.AnswerHolds | lib/Analysis/BasicAliasAnalysis.cpp:1282-1407 | so any answer other than MayAlias holds of the two pointers, unless their distance wraps around the address space |
| GepDifference.ModuloAnswerHolds | lib/Analysis/BasicAliasAnalysis.cpp:1387-1396 | and that of the modulo rule holds even if it does |
| GepDifference.EltsDontOverlapIffApart | lib/Analysis/BasicAliasAnalysis.cpp:1115-1125 | for fields whose ends fit 64 bits the test succeeds if and only if the fields are apart however many structs lie between them |
| GepDifference.SuccessRightIffFits | lib/Analysis/BasicAliasAnalysis.cpp:1115-1125 | for fields of any size, in structs of up to 2^63 bytes, a success of the test is right if and only if neither end is beyond 64 bits |
| GepDifference.WrappedEnd | lib/Analysis/BasicAliasAnalysis.cpp:1115-1125 | a concrete field whose end wraps, for which the test is wrong |
| BfiDistribution.CombineWeightsBySorting | lib/Analysis/BlockFrequencyInfoImpl.cpp:156-175 | in-place compaction of sorted weights yields one weight for each target with its sum saturated at 2^64-1 |
| BfiDistribution.CombineWeightsByHashing | lib/Analysis/BlockFrequencyInfoImpl.cpp:177-194 | and so does combining in a hash table read in any order |
| BfiWeights.WaysAgree | lib/Analysis/BlockFrequencyInfoImpl.cpp:156-204 | sorting and hashing give the same weights, up to order |
| BfiWeights.CombinesTotal | lib/Analysis/BlockFrequencyInfoImpl.cpp:196-204 | combining keeps the total unless it needs more than 64 bits |
| BfiNormalize.Distribution.Add | lib/Analysis/BlockFrequencyInfoImpl.cpp:123-138 | a total cut to 64 bits and an overflow flag stand for the true total |
| BfiNormalize.Distribution.Normalize | lib/Analysis/BlockFrequencyInfoImpl.cpp:214-268 | distinct targets, each at least 1, Total their sum; for a unit that is 1 or at most the sum over 2^30, every amount is within half a unit of the saturated sum of its target, or 1 if that is less; the total is at most 2^32-1 for fewer than 2^31 targets without an overflow, and after one, with several weights, if and only if the saturated sums of the targets, rounded to multiples of 2^33 and none to 0, stay below 2^65 |
| BfiNormalize.ScaledBound | lib/Analysis/BlockFrequencyInfoImpl.cpp:206-212 | shifting with rounding, and the lower limit of 1, add less than one unit |
| BfiNormalize.ScaledNear | lib/Analysis/BlockFrequencyInfoImpl.cpp:206-212 | and rounding is to the nearest unit |
| BfiNormalize.ScaledFits | lib/Analysis/BlockFrequencyInfoImpl.cpp:231-266 | the scaled total fits 32 bits under a condition on the plain total, which branch probabilities and exits of packaged loops meet |
| BfiNormalize.OverflowFitsIff | lib/Analysis/BlockFrequencyInfoImpl.cpp:231-266 | after an overflow the scaled total fits 32 bits exactly if the rounded one is below 2^65 |
| BfiNormalize.TwoTargetsFit | lib/Analysis/BlockFrequencyInfoImpl.cpp:231-266 | with two targets it fails exactly if both sums are at least 2^64-2^32 |
| BfiNormalize.TwoHugeWeights | lib/Analysis/BlockFrequencyInfoImpl.cpp:214-268 | two weights of 2^64-1 give a total of 2^32, which does not fit |
| BfiMass.DrainsAll | lib/Analysis/BlockFrequencyInfoImpl.cpp:105-121 | draining a normalized distribution through takeMass hands out exactly the initial mass |
| BfiMass.PortionsAre | lib/Analysis/BlockFrequencyInfoImpl.cpp:105-121 | every portion is what the weight of its target is, of the weight left, of the mass left |
| BfiMass.DitheringDistributer.TakeMass | lib/Analysis/BlockFrequencyInfoImpl.cpp:112-121 | takes one portion, and subtracts it and its weight from what is left |
| BfiLoop.AddToDist | lib/Analysis/BlockFrequencyInfoImpl.cpp:290-350 | a weight is added as a backedge if its target is a header of the loop, as an exit if it is outside, and else as local; the edge is reported as irreducible exactly if it goes against the order to a block that is no header, from no header |
| BfiLoop.LoopData.DistributeMass | lib/Analysis/BlockFrequencyInfoImpl.cpp:424-457 | every target is credited with its portion, and the portions sum up to the mass of the source |
| BfiLoop.CreditAt | lib/Analysis/BlockFrequencyInfoImpl.cpp:436-456 | the portion of a weight is added to the mass of a local target or to the backedge mass of a header, or recorded with the target it exits to |
| BfiLoop.LoopData.PropagateMassToSuccessors | include/llvm/Analysis/BlockFrequencyInfoImpl.h:1303-1331 | the mass of one block goes to its successors, or nothing changes and the run aborts |
| BfiLoop.LoopData.ComputeMassInLoop | include/llvm/Analysis/BlockFrequencyInfoImpl.h:1150-1222 | over a whole pass the backedge mass plus the exit mass is the full mass and no addition saturates; backedge mass is kept of headers only, and exits go to blocks outside the loop only; the scale times the exit mass as a fraction, (mass + 1) / 2^64, is 1, or the scale is 4096 if nothing leaves |
| BfiLoop.LoopData.ComputeLoopScale | lib/Analysis/BlockFrequencyInfoImpl.cpp:365-396 | the scale times the mass left as a fraction is 1 if any is left, and 4096 otherwise, where the mass left is the full mass less the backedge mass of all headers |
| BfiLoop.DeliverConserves | lib/Analysis/BlockFrequencyInfoImpl.cpp:424-457 | visiting one member keeps mass of unvisited members + backedge mass + exit mass at the full mass |
| BfiLoop.CreditAllConserves | lib/Analysis/BlockFrequencyInfoImpl.cpp:424-457 | crediting portions adds exactly their sum to what is outstanding |
| BfiLoop.ProbabilitiesManageable | lib/Analysis/BlockFrequencyInfoImpl.cpp:123-138 | branch probabilities always meet the condition under which normalize fits 32 bits |
| BfiLoop.ExitsManageable | lib/Analysis/BlockFrequencyInfoImpl.cpp:352-363 | and so do the exits of a packaged loop that lost no mass |
| BfiIrreducible.IrreducibleGraph.AddEdge | lib/Analysis/BlockFrequencyInfoImpl.cpp:645-656 | edges into the region are recorded at both ends, others ignored |
| BfiIrreducible.FindIrreducibleHeaders | lib/Analysis/BlockFrequencyInfoImpl.cpp:676-741 | Headers and Others are sorted, disjoint and cover the component; headers are exactly the blocks with an edge from outside or from an equal or later block that nothing outside has an edge to; the remaining edges against the order come from entries, so that addToDist never aborts on an edge within the loop made of them |
| BfiIrreducible.HeaderNeeds | lib/Analysis/BlockFrequencyInfoImpl.cpp:676-741 | entries and extra headers are told apart by the source in two passes, and are together the blocks with such an edge |
| BfiUnwrap.BlockFrequencyInfo.UnwrapLoops | lib/Analysis/BlockFrequencyInfoImpl.cpp:520-527 | after unwrapping, outer loops first, every block has its specified frequency |
| BfiUnwrap.BlockFrequencyInfo.UnwrapLoop | lib/Analysis/BlockFrequencyInfoImpl.cpp:498-518 | unwrapping one loop passes its factor on to its blocks and to the packaged loops directly inside |
| BfiUnwrap.FrequencyIsProduct | lib/Analysis/BlockFrequencyInfoImpl.cpp:498-527 | that frequency is local mass times the product of scale times mass over all loops that contain the block |
| BfiUnwrap.BlockFrequencyInfo.GetPackagedLoop | include/llvm/Analysis/BlockFrequencyInfoImpl.h:314-321 | the outermost packaged loop around a loop |
| ModRefResults.AAResults.Alias | lib/Analysis/AliasAnalysis.cpp:102-110 | MayAlias if every analysis of the chain says so, and otherwise the answer of the first that does not |
| ModRefResults.AAResults.GetModRefInfoLoc | lib/Analysis/AliasAnalysis.cpp:156-216 | all early exits and the loop over arguments compute the plain intersection of everything that is known |
| ModRefResults.AAResults.OverSecondArgs | lib/Analysis/AliasAnalysis.cpp:266-305 | stopping as soon as nothing more can be found loses nothing |
| ModRefResults.AAResults.OverFirstArgs | lib/Analysis/AliasAnalysis.cpp:309-345 | and so for the arguments of the first call |
| ModRefResults.AAResults.GetModRefInfoCall | lib/Analysis/AliasAnalysis.cpp:218-345 | the call/call answer likewise |
| ModRefResults.AAResults.GetModRefBehavior | lib/Analysis/AliasAnalysis.cpp:347-359 | the intersection of the behaviours that the chain gives, in spite of the early exit |
| ModRefResults.AAResults.GetModRefInfoInstr | lib/Analysis/AliasAnalysis.cpp:379-520 | the answers for loads, stores, fences, va_arg, catchpad, catchret and atomics, and exactly when each has its Mod and its Ref bit |
| ModRefResults.AAResults.CanInstructionRangeModRef | lib/Analysis/AliasAnalysis.cpp:603-617 | true if and only if the answer for some instruction of the range has a bit of the mode |
| ModRefExact.AliasIsFirst | lib/Analysis/AliasAnalysis.cpp:102-110 | no answer of the chain is lost: that of the first analysis that has one is given |
| ModRefExact.CallLocMod | lib/Analysis/AliasAnalysis.cpp:156-216 | a call/location answer has its Mod bit if and only if every analysis gives it, the call may write and not only inaccessible memory, an argument that may be written reaches the location if nothing but arguments is accessed, and the location is not constant |
| ModRefExact.CallLocRef | lib/Analysis/AliasAnalysis.cpp:156-216 | and its Ref bit likewise |
| ModRefExact.CallCallMod | lib/Analysis/AliasAnalysis.cpp:218-345 | a call/call answer has its Mod bit if and only if every analysis gives it, both access memory and the first may write, and, if one of them only accesses its arguments, some argument is written by one and accessed by the other |
| ModRefExact.CallCallRef | lib/Analysis/AliasAnalysis.cpp:218-345 | and its Ref bit if and only if likewise the first may read what the other may write |
| ModRefExact.BehaviorBits | lib/Analysis/AliasAnalysis.cpp:347-359 | a behaviour allows an access exactly if every analysis does |
| ModRefExact.ReadersApart | lib/Analysis/AliasAnalysis.cpp:250-256 | calls that some analysis knows to write nothing do not depend on each other |
| ModRefSound.CallLocRight | lib/Analysis/AliasAnalysis.cpp:156-216 | if every analysis is sound: a missing Mod bit means that the call writes nothing in the location, a missing Ref bit that it reads nothing there |
| ModRefSound.CallCallRight | lib/Analysis/AliasAnalysis.cpp:218-345 | if every analysis is sound: a missing Mod bit means that the first call writes nothing the second touches, a missing Ref bit that it reads nothing the second writes |
| ModRefSound.AliasOfRight | lib/Analysis/AliasAnalysis.cpp:102-110 | a NoAlias of the chain is right |
| ModRefSound.CallInfoRight | lib/Analysis/AliasAnalysis.cpp:121-133 | the intersected argument, call/call and behaviour answers of a sound chain are right |
| ModRefSound.InstrLocRight | lib/Analysis/AliasAnalysis.cpp:379-520 | the answers for instructions are right, but for Ref where va_arg, catchpad or catchret meet constant memory |
| ModRefSound.ForgottenRead | lib/Analysis/AliasAnalysis.cpp:433-480 | and there they are wrong in some execution whenever the instruction can reach a byte of the location, so that the exception is exact |
| ModRefSound.VAArgReadsConstant | lib/Analysis/AliasAnalysis.cpp:433-453 | a concrete sound analysis, execution and va_arg for which Ref is missing |
| ModRefSound.RangeRight | lib/Analysis/AliasAnalysis.cpp:603-617 | a range answered with no does not touch the location in the mode asked about, with the same exception |
| UnwindPersonality.HandleActionValue | examples/ExceptionDemo/ExceptionDemo.cpp:502-582 | a match is the first entry of the chain that names the type of our exception; foreign exceptions never match |
| UnwindPersonality.HandleLsda | examples/ExceptionDemo/ExceptionDemo.cpp:596-765 | the first call site that has a landing pad and whose range holds the address decides, and nothing happens if there is none; a handler is found in the search phase exactly if cleanup enters the frame with the selector of a clause |
| UnwindPersonality.MatchingIsFirst | examples/ExceptionDemo/ExceptionDemo.cpp:545-579 | the position is that of the first entry naming the type, and 0 exactly if there is none |
| UnwindCode.FunctionBuilder.CreateFinallyBlock | examples/ExceptionDemo/ExceptionDemo.cpp:948-1013 | storage is initialised in the entry block, and the finally block switches on the flag |
| UnwindCode.FunctionBuilder.CreateCatchBlock | examples/ExceptionDemo/ExceptionDemo.cpp:1024-1054 | a catch block sets the flag and goes to the finally block |
| UnwindCode.FunctionBuilder.CreateCatchWrappedInvokeFunction | examples/ExceptionDemo/ExceptionDemo.cpp:1076-1324 | the blocks of the function generated for any list of types |
| UnwindMachine.FrameAnswer | examples/ExceptionDemo/ExceptionDemo.cpp:596-765 | for a generated frame the selector is the position of the first clause that lists the type |
| UnwindMachine.HaltsOnce | examples/ExceptionDemo/ExceptionDemo.cpp:1076-1324 | a run ends in one way only |
| UnwindRuns.FrameReturns | examples/ExceptionDemo/ExceptionDemo.cpp:1166-1205 | after an invoke that returned, a frame runs its finally and end blocks once and returns, and frees nothing |
| UnwindRuns.FramePasses | examples/ExceptionDemo/ExceptionDemo.cpp:1209-1314 | an exception that a frame does not list, or a foreign one, runs its finally block and goes on outwards |
| UnwindRuns.FrameCatches | examples/ExceptionDemo/ExceptionDemo.cpp:1209-1314 | one that it lists runs the block of the first clause that does, the finally block and the end block, and is freed there |
| UnwindCorrect.SearchFinds | examples/ExceptionDemo/ExceptionDemo.cpp:741-750 | the search phase stops at the innermost frame that lists the type |
| UnwindCorrect.RunEnds | examples/ExceptionDemo/ExceptionDemo.cpp:1076-1324 | every call of a stack of any depth with any catch lists ends, with exactly the expected blocks run |
| UnwindCorrect.Handled | examples/ExceptionDemo/ExceptionDemo.cpp:1076-1324 | however a run ends: every frame ran its finally block exactly once; a listed type was caught exactly once, by the innermost frame that lists it, which is the one the search chose, in the block of its first matching clause, and freed there and only there; any other exception reached the harness, caught and freed by no frame |
| Rendezvous.NobodyPassesEarly | examples/ParallelJIT/ParallelJIT.cpp:166-233 | in every interleaving no assertion fails, and nobody is released before all workers and the releasing thread have arrived |
| Rendezvous.EverybodyPasses | examples/ParallelJIT/ParallelJIT.cpp:166-233 | every schedule is finite, and one that cannot be continued has let all threads pass |
| Rendezvous.NoDeadlock | examples/ParallelJIT/ParallelJIT.cpp:166-233 | in every reachable state some thread can go on, unless all have passed |
| Rendezvous.StepKeeps | examples/ParallelJIT/ParallelJIT.cpp:166-233 | every step of every thread keeps the invariant |
| Rendezvous.InitInv | examples/ParallelJIT/ParallelJIT.cpp:139-152 | it holds at the start |
| RendezvousCount.EverybodyPassesIff | examples/ParallelJIT/ParallelJIT.cpp:196-213 | for any number of workers and any argument of releaseThreads: everybody passes in every order if and only if the argument is the number of workers |
| RendezvousCount.NobodyPasses | examples/ParallelJIT/ParallelJIT.cpp:196-213 | with fewer workers than are waited for nobody is ever released |
| RendezvousCount.SomebodyStays | examples/ParallelJIT/ParallelJIT.cpp:196-213 | with more, some order leaves a worker waiting for ever |
| Rendezvous.WaitForThreads.Run | examples/ParallelJIT/ParallelJIT.cpp:166-233 | one step of any thread on the shared object is the step of the protocol, and keeps the invariant |
| ItaniumText.MatchRunIsGreedy | utils/extract_symbols.py:224-244 | a greedy repetition followed by at least one character takes the longest run that leaves something, and fails only if there is none |
| ItaniumParser.ParseName | utils/extract_symbols.py:224-241 | a name that is parsed is not empty and followed by the rest, which is strictly shorter; that it is the right one is ItaniumPrinter.NamesRoundTrip and ItaniumPrinter.ParseOperator |
| ItaniumParser.SkipItaniumTemplate | utils/extract_symbols.py:246-276 | the loop ends on every string, with what the recursive definition says |
| ItaniumParser.ParseItaniumNestedName | utils/extract_symbols.py:280-318 | the loop ends on every string, with what the recursive definition says |
| ItaniumParser.ParseNestedName | utils/extract_symbols.py:280-318 | a nested name that is parsed leaves a strictly shorter rest |
| ItaniumPrinter.ParsePrinted | utils/extract_symbols.py:280-318 | printing any nested name - of identifiers, constructors and destructors with nested template arguments, behind a substitution and qualifiers, with an operator or without - and parsing it gives back the names, the template flags and the rest of the line |
| ItaniumPrinter.RestKeptIff | utils/extract_symbols.py:280-318 | the rest comes back whole if and only if there is no newline in it |
| ItaniumPrinter.NewlineIsLost | utils/extract_symbols.py:280-318 | a name followed by two lines, of which only the first is given back |
| ItaniumPrinter.NamesRoundTrip | utils/extract_symbols.py:299-316 | the same of the names between qualifiers and the final E |
| ItaniumPrinter.SkipArgs | utils/extract_symbols.py:246-276 | printed template arguments - letters, substitutions, packs, plain and nested names, however deep - are skipped up to the E that ends them |
| ItaniumPrinter.ParseOperator | utils/extract_symbols.py:236-244 | an operator is read up to the next E |
| ItaniumPrinter.TroubleFound | utils/extract_symbols.py:246-276 | an L or X at any depth of template arguments is found, whatever comes before and behind it |
| ItaniumPrinter.NestedTrouble | utils/extract_symbols.py:280-318 | and makes the answer for a nested name that it is too complex |
| CaseFold.Mappings | utils/unicode-case-fold.py:29-42 | the table is taken if and only if its characters are strictly increasing from 0 on |
| CaseFold.ChainRight | utils/unicode-case-fold.py:60-93 | however a table is cut into blocks of equal shift and stride, the chain of conditionals computes it, for every integer |
| CaseFold.CodeRight | utils/unicode-case-fold.py:60-93 | the code of one block maps its characters and leaves the others to what follows, in the single-entry, strided, stride-1 and bitwise-or-with-1 forms |
| CaseFold.InBlock | utils/unicode-case-fold.py:71-81 | the characters of a block are those between the first and the last that leave its remainder |
| CaseFold.FoldListed | utils/unicode-case-fold.py:29-42 | a listed character is mapped to its target |
| CaseFold.Generator.DumpBlock | utils/unicode-case-fold.py:60-93 | appends the code of a block |
| CaseFold.Generator.Generate | utils/unicode-case-fold.py:95-117 | the generated function and the table agree on every integer; it is the code of consecutive blocks of equal shift and stride, of which none could go on with the mapping that follows it |
| ShuffleSelect.GenInsts | utils/shuffle_select_fuzz_tester.py:283-326 | for every choice of operands and masks: one value is left after len(inputs)-1 rounds, every other input and result is taken exactly once, instructions use only what is defined before them and have the masks and selects that were chosen, and in every execution its lanes hold what is tracked; lanes tracked as -1 are exactly those that executions differ in, or leave undef, unless a select blends a value with itself |
| ShuffleProgram.TrackedHolds | utils/shuffle_select_fuzz_tester.py:146-196 | in every execution, whichever operand undef select bits take and however undef lanes are resolved, a lane whose tracked value is not -1 holds exactly that value |
| ShuffleUndecided.CertainIff | utils/shuffle_select_fuzz_tester.py:146-196 | which lanes have one value in all executions, and which do not, is computed from masks and operand lanes: a lane has none exactly if two executions differ in it, or one leaves it undef |
| ShuffleUndecided.UndefRightIff | utils/shuffle_select_fuzz_tester.py:180-196 | -1 is tracked for exactly the undecided lanes of all values of a program if and only if no undef bit selects between two equal tracked values |
| ShuffleSelect.BlendedZero | utils/shuffle_select_fuzz_tester.py:180-196 | a concrete program with a lane tracked as -1 that is 0 in every execution |
| ShuffleProgram.ShufCalcValue | utils/shuffle_select_fuzz_tester.py:146-163 | the tracked value of a shuffle |
| ShuffleProgram.SelCalcValue | utils/shuffle_select_fuzz_tester.py:180-196 | the tracked value of a select |
| ShuffleProgram.GenInputs | utils/shuffle_select_fuzz_tester.py:201-212 | inputs are numbered lanes, none of them -1, cut to the width of an integer element, and no number is in two lanes as long as the width has room for all of them |
| ShuffleProgram.LanesMeetIff | utils/shuffle_select_fuzz_tester.py:201-212 | beyond that two lanes hold the same number if and only if they are apart by a multiple of what the width can hold |
| ShuffleSelect.RoundConserves | utils/shuffle_select_fuzz_tester.py:289-324 | one round takes two values for good and makes one |

## Left out

- BrainF: the merged count of a run is an unbounded integer; a run of more than 2^31 characters overflows it in the code.
- BrainF: heap layout. Addresses are relative to the tape, which malloc never refuses; without bounds checks cells outside it read and write as zeroed memory, where the code has undefined behaviour.
- BrainF: getchar and putchar are input and output sequences; IR verification and the JIT.
- Alias sets: Access and Volatile flags, AAInfo metadata, the 27-bit width of RefCount, and the intrusive list pointers behind the order of sets and pointers.
- AliasTracker.Tracker.AddBlock: for accesses with known locations; instructions without one are covered by AliasTracker.Tracker.AddUnknown, one at a time.
- AliasHistory.AddAllComponents: for one size of each pointer; AliasGrowth.AnyRunComponents is for any sizes, of accesses that alias themselves unless they are empty.
- Alias sets: removeUnknownInst, which nothing calls, clear, and adding a whole tracker to another.
- Alias sets: the SetSize of a must-alias set does not go down when a pointer is deleted, as in the code; the count is followed through sizes, which are numbers of pointers only in runs without that.
- GepLinear.LinearMeans: without sext, of which the code truncates and extends the offset again but not the scale; GepLinear.LinearWidth and GepLinear.LooksThrough likewise.
- GepDecompose.DecomposeGEPExpression: for variable indices as wide as a pointer, because narrower ones are sign-extended implicitly; GepDecompose.AddIndex likewise.
- GEP: address space casts that change the pointer size, isGEPBaseAtNegativeOffset, phi and select cases and their caches; `acyclic` stands for the test that values are of one iteration.
- GepDifference.AliasOverBase: for two getelementptrs; not a second pointer that is none, and of aliasSameBasePointerGEPs only the field test is modelled.
- GepHeuristic.HeuristicRightIff: the only-if half is for plain extensions of one opaque value, up to constants, with a scale and an offset below the address space; for other values it depends on what they can be.
- GepDifference.AnswerHolds: speaks of pointers whose distance does not wrap around the address space; the modulo rule is free of that by GepDifference.ModuloAnswerHolds.
- Block frequencies: Scaled64 rounding and the conversion to integers; frequencies are real numbers.
- BfiLoop.LoopData.ComputeMassInLoop: for loops with one header; the pass over several headers and adjustLoopHeaderMass are not part of this model.
- Block frequencies: the search for strongly connected components.
- BfiNormalize.Distribution.Normalize: without an overflow the bound of 2^32-1 is stated for fewer than 2^31 targets.
- Mod/ref: the Must bit, capture tracking, and the answer for an instruction against a call.
- Exceptions: byte-level decoding of tables and pointers, printing, forced unwinding, and filters, which the code refuses.
- Exceptions: the class test of deleteOurException is modelled, the offset arithmetic from the unwind header to the exception is not.
- Rendezvous: spurious wakeups, which the code does not survive, and error codes of pthreads.
- Rendezvous: meeting more than once with the same object.
- Mangled names: digits other than ASCII ones; the file and process handling around the parsers.
- Case folding: reading lines and printing C++ text; a table without entries, on which the script fails. CaseFold.Generator merges the two branches that start a new block.
- Shuffles: printing IR and the driver; floating-point lanes are whole numbers. A value is calculated when its instruction is made, so that calculating it twice cannot happen.
