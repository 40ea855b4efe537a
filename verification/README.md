# arcJIT, modelled and proved in Dafny

arcJIT is a three-tier just-in-time compiler. Arc stack bytecode is lowered to a register IR (tier 1, *Jolt*);
the register IR of branch-free functions is lowered further to a Sea-of-Nodes graph, rewritten by a pipeline of
passes, and lowered back (tier 2, *Surge*); a linear scan gives the result machine registers. This project models
that compile path from the bytes of a chunk to abstract registers and spill slots, together with the dominator
tree, the symbol table, the replay file and the safepoint handshake, and proves that each part does what the
repository relies on it for.

What the source changes in place is changed in place here: the graph container, the lowerers, the byte buffers, the
readers, the dispatch loop and the symbol table are classes; the passes, the dominance iteration and the register
scan are methods with loops. Each is proved against a specification on values, and the theorems are lemmas
about those values. `dafny verify dfyconfig.toml` checks everything.

## How the parts fit together

| part | modules |
|---|---|
| graph container | `SeaOfNodes` (the graph as a value), `UsePool` (the use lists as values, stale entries included), `UseLists` (the class) |
| dominance | `Dominators` (paths, dominators, trees), `ControlPaths` (the same in terms of nodes and edges), `Retreating` (how many rounds it takes), `Ladders` (a family that takes as many as it has nodes), `Dominance` (search, iteration, depths, queries), `LadderGraphs` |
| meaning of graphs | `Int64`, `Powers`, `Valuation` (what every node is worth), `Arithmetic` (what the operations are on integers), `Rewrites` (appending and replacing) |
| passes | `PassCore`, `DeadNodes` (what passes report), `FoldPasses`, `FoldRules` (when the rules fire), `StrengthReduction`, `ScanBudget`, `ScanPasses`, `Sorting`, `ValueNumbers`, `NumberingScans`, `Gvn`, `LocalForwarding`, `ForwardRule`, `LocalForwardingPass`, `Reachability`, `CleanupPasses`, `Ascending` (which passes keep operands before users), `Pipeline`, `Settling` (the pipeline as a function), `Finished` (what it leaves) |
| tier 1 | `Bytecode`, `Machines`, `Interpreter`, `ByteMeaning` (byte by byte), `DispatchLoop`, `Tier1`, `Lowering`, `LoweredShape`, `LoweringCorrect`, `LoweringTheorem`, `LoweringWalk`, `LoopHeads`, `Liveness`, `LiveRanges`, `Allocation`, `LinearScan`, `RegisterChoice` (which interval gets what), `RegisterMachine`, `Jolt`, `Baseline`, `BytePrograms` (what chunks answer) |
| tier 2 | `StraightLine`, `GraphBuilding`, `GraphLowering`, `LoweredLabels`, `SonLowering`, `Emission`, `LateEmission`, `SonRaising`, `Tier2` |
| the rest | `Probing`, `ProbeSequence` (bucket by bucket), `SymbolMap`, `SymbolTable`, `Replay`, `ReplayLayout` (byte by byte), `ReplayFiles`, `Safepoint` |
| why the preconditions are there | `Counterexamples`, `LoopChunk`, `LoopCounterexample`, `LateCounterexample`, `LatePipeline`, `ForwardCounterexample`, `PruneCounterexample` |

The results everything else leads up to:

- `Baseline.CompileChunk`: if the interpreter returns an integer, the compiled chunk returns it, on registers and
  slots with any initial contents, for every chunk of the integer fragment whose live intervals cover what its loops
  carry around. `LiveRanges.CoversIff` says exactly what that takes, and `LoopHeads.EmptyLoopsCovered` that it holds
  wherever loops start with an empty operand stack; `LoopCounterexample.SharingAcrossLoop` is a chunk where it
  fails. `ByteMeaning` and `BytePrograms.CompileTwoCombined` say what the answers are, in bytes and integers, and
  `RegisterChoice.NextChoice` which register or slot each interval gets.
- `Tier2.CompileToRegisters`: for every branch-free function of constants, loads of locals, moves, Add, Mul, Neg,
  shifts, equalities and logical operations, building the graph, running the pipeline to a fixpoint, raising the
  graph and allocating registers gives a function with the same answers for all locals, if the function keeps its
  order: if in the graph that the pipeline makes of it, what depends on a load comes after those of its operands
  that do. `Settling.SettlesOnce` says that the pipeline is a function of the graph, so that this is a property of
  the function; `Tier2.CompileAtTier2` that raising misses no operand exactly if it holds, and that it always holds
  for functions without loads and for functions without products and negations. `return local0 * 8 + 1` does not
  have it: `LatePipeline.CompileTimes` shows that it is compiled to `return 1`.
- `Dominance.ComputeDominance`: no true dominator is ever missing from a chain of the computed tree, however early
  the iteration is stopped; if it converges, the chains hold exactly the dominators. It always converges on
  reducible graphs, and on all others whose simple paths have no more than 98 retreating arcs, such as those with up
  to 99 nodes. On ladders, which take a round for each rung, the limit of 100 rounds gives the dominators exactly up
  to 101 rungs.
- `UseLists.Graph`: every operation keeps the use lists acyclic and disjoint, covers every edge despite stale
  entries, and keeps the counters exact, while it does to the edges what a scan of the whole edge pool would do.
- `Pipeline.RunToFixpoint`: every pass keeps every value in every assignment to the opaque nodes, all passes
  together at most triple the nodes, and a pipeline that stops before its budget leaves no pass anything to do:
  `Finished.IdleFinishes` says what such a graph looks like, with nothing in it to fold, to merge or to remove.
- `Safepoint.NextRequestIff`: between requests, the next one can get stuck for good if and only if some mutator is
  still inside its safepoint check; and `Safepoint.CanHoldIff`: one under way can still return if and only if no
  wakeup has been lost.
- `SymbolMap.SetRefinesIff` and `SymbolMap.RemoveRefinesIff`: exactly when the symbol table answers like a map after
  a set and after a removal, whatever was set and removed before. In a table from which nothing was removed, a
  removal already shows unless the value was undefined: `SymbolMap.RemoveFromClean`.
- `ReplayLayout.ReadIff`: which bytes are read as which job, exactly, with every byte of a file in its place.

## Model

| member | source | states |
|---|---|---|
| UseLists.Graph.AddNode | src/core/graph.h:83-124 | appends the node and its edges, registers a use for every edge, and keeps the use-list invariant |
| UseLists.Graph.ReplaceInput | src/core/graph.h:207-228 | repoints one edge in constant time, leaving a stale entry behind, and keeps the invariant |
| UseLists.Graph.ReplaceAllUsesWith | src/core/graph.h:242-280 | redirects every edge of the graph that pointed at the old node, no other, although it only walks one list |
| UseLists.Graph.UsesOf | src/core/graph.h:166-180 | lists exactly the users of a node with the kinds of their edges, skipping stale entries |
| UseLists.Graph.UsesOfKind | src/core/graph.h:183-195 | the same for one kind of edge |
| UseLists.Graph.InputsOfKind | src/core/graph.h:145-151 | the inputs of one kind in input order |
| UseLists.Graph.MarkDead | src/core/graph.h:283-285 | marks the node dead and touches no list |
| UsePool.NodeAddedValid | src/core/graph.h:83-124 | adding a node keeps lists acyclic and disjoint, edges covered and counters exact |
| UsePool.EdgeRepointedValid | src/core/graph.h:198-228 | so does repointing an edge, with the old entry left stale |
| UsePool.WalkAll | src/core/graph.h:242-270 | walking one use list meets every edge that points at the node, despite stale and duplicate entries |
| UsePool.WalkRedirects | src/core/graph.h:242-280 | the walk has the effect of a scan of the whole edge pool, and keeps as many entries as there were edges |
| UsePool.WalkCounts | src/core/graph.h:259-279 | each kept entry accounts for one edge moved, also when a stale entry names the same edge |
| UsePool.SplicedValid | src/core/graph.h:242-280 | splicing the kept chain onto the other list keeps the whole invariant |
| UsePool.UsersAreInputs | src/core/graph.h:166-180 | the live entries of a node's list are exactly its users, as a set |
| Dominators.DominatorsOnChain | src/core/dominance.cpp:139-166 | as long as the iteration only records common ancestors of predecessors, every true dominator stays on the idom chain |
| Dominators.StableIsExact | src/core/dominance.cpp:139-166 | an array that a round leaves alone has exactly the dominators on its chains |
| Dominators.ExactIffStable | src/core/dominance.cpp:139-166 | exactness and stability are the same thing, so the round limit matters only if the last round changed something |
| Dominators.ReducibleEntryExact | src/core/dominance.cpp:144-165 | in a reducible graph an entry computed from forward predecessors alone is already exact |
| Dominance.Intersect | src/core/dominance.cpp:122-137 | ends, with the nearest common ancestor of two processed nodes |
| Dominance.NearestOfPreds | src/core/dominance.cpp:148-158 | folds intersect over the processed predecessors: their nearest common ancestor, in whatever order they are listed |
| Dominance.PostOrderDfs | src/core/dominance.cpp:69-86 | visits exactly what is reachable; every node but the first has a predecessor that finishes later; and what finishes between the ends of an arc that leads back was found on the way from the one to the other |
| Dominance.Sweep | src/core/dominance.cpp:144-165 | one round keeps the array a tree that holds every dominator, and without a change proves it exact |
| Dominance.TreeDepths | src/core/dominance.cpp:168-190 | the breadth-first walk gives every reachable node its depth in the dominator tree |
| Dominance.PathIsChain | src/core/dominance.cpp:44-62 | the paths of the search and of the predecessor lists are the chains from Start of live nodes of the eleven control kinds, each with the one before as a control input |
| Dominance.DominatedIff | src/core/dominance.cpp:96-113 | so domination is domination along such chains |
| ControlPaths.AboveIff | src/core/dominance.h:54-63 | climbing from entry to entry of the array meets exactly the nodes of the chain in its tree |
| Dominance.ResultTells | src/core/dominance.cpp:69-193 | what the result says of each node in those terms: reachable, dominators, depth |
| Dominance.ComputeDominance | src/core/dominance.cpp:90-193 | says of every node whether a chain of live control nodes leads to it from Start and how deep it is; what is above it in the array never lacks a dominator, and is exactly its dominators if the loop converged, as it always does on reducible graphs and where no simple path has more than 98 retreating arcs; exact also for 99 of them; and on a ladder exactly if it has at most 101 rungs |
| Retreating.EntryMeets | src/core/dominance.cpp:144-165 | an entry recorded in round r lies on every path to its node with fewer than r retreating arcs |
| Retreating.MetIsExact | src/core/dominance.cpp:139-166 | so after one round more than the retreating arcs of any simple path the array is exact, reducible or not |
| Ladders.SearchClimbs | src/core/dominance.cpp:69-86 | a depth-first search goes up a ladder from one end, whatever the order of the successors |
| Ladders.RungClimbed | src/core/dominance.cpp:144-165 | each round corrects the entry of one more rung, counted from the far end |
| Ladders.LadderExactIff | src/core/dominance.cpp:139-166 | so b rounds are enough for a ladder if and only if it has at most b + 1 rungs |
| LadderGraphs.DominanceOfLadder | src/core/dominance.cpp:139-141 | there are such graphs of any height; with 102 rungs or more the limit of 100 rounds leaves a node recorded that does not dominate |
| Retreating.SmallGraph | src/core/dominance.cpp:139-141 | 99 reachable nodes are few enough for the limit of 100 rounds |
| Dominance.Dominates | src/core/dominance.h:54-63 | whether climbing the array from the one node leads to the other: never wrongly no; yes exactly for dominators once the array is exact |
| Dominance.CommonDominator | src/core/dominance.h:39-51 | ends, with the deepest node that dominates both arguments |
| Valuation.ModelUnique | src/tier1/tier1.cpp:319-537 | in an acyclic graph the values of opaque nodes determine every value |
| Valuation.ModelExists | src/tier1/tier1.cpp:319-537 | every assignment to the opaque nodes of an acyclic graph extends to a valuation |
| Arithmetic.WrapAgrees | src/tier1/tier1.cpp:319-339 | truncation to 64 bits is congruent modulo 2^64 to what is truncated, whatever its size |
| Arithmetic.RingModulo | src/tier1/tier1.cpp:319-435 | so sums, differences, products and negations are those of the integers modulo 2^64 |
| Arithmetic.RingCongruent | src/passman/pass.cpp:60-76 | and depend only on the classes of the operands |
| Arithmetic.TruthValues | src/tier1/tier1.cpp:451-546 | comparisons and connectives answer 1 or 0, as on the integers |
| Arithmetic.ShiftsByOne | src/tier1/tier1.cpp:436-450 | one more bit to the left doubles modulo 2^64, one more to the right halves downward |
| Arithmetic.ShiftCounts | src/tier1/tier1.cpp:436-450 | only the low six bits of a shift count matter |
| Arithmetic.DivisionTruncates | src/tier1/tier1.cpp:340-367 | the quotient is the truncated one, with a remainder of the sign of the dividend |
| Arithmetic.InterpreterArithmetic | src/interp/interpreter.h:425-623 | what the interpreter computes for each operator, in integers |
| Arithmetic.InstructionNumbers | src/tier1/tier1.cpp:279-450 | what each arithmetic instruction of the register IR computes, in integers |
| Arithmetic.InstructionTruths | src/tier1/tier1.cpp:451-546 | and each comparison and connective |
| Rewrites.ReplaceModel | src/core/graph.h:242-280 | replacing a node by an equal-valued one keeps every value |
| Rewrites.ReplaceSane | src/core/graph.h:242-280 | replacing by a live node of no greater rank keeps the graph acyclic and inputs alive |
| Rewrites.ReplaceDeadUnused | src/passman/pass.cpp:77-80 | after handing its uses over, a dead node is not pointed at |
| Rewrites.AppendModel | src/core/graph.h:83-124 | appending a computing node adds its value and changes no other |
| Rewrites.RefinesBothWays | src/passman/pass.h:81-135 | between acyclic graphs refinement loses no behaviour either |
| PassCore.Apply | src/passman/pass.cpp:72-82 | append, replace all uses, mark dead: the plan applied to the graph value |
| PassCore.PlanProgress | src/passman/pass.cpp:31-435 | a sound plan keeps values, acyclicity, the fragment, and the absence of edges to dead nodes |
| FoldPasses.FoldConstantsOk | src/passman/pass.cpp:31-85 | constant folding replaces a node by its value under wraparound |
| FoldPasses.SimplifyAlgebraOk | src/passman/pass.cpp:185-277 | each algebraic rule replaces a node by an equal-valued one |
| FoldPasses.FoldComparisonsOk | src/passman/pass.cpp:359-435 | so does each comparison rule, negated comparisons included |
| FoldRules.ConstantsFold | src/passman/pass.cpp:31-85 | the rule fires exactly on a sum, difference or product of two constants, and puts in its place a constant that is its value modulo 2^64 |
| FoldRules.AlgebraSimplifies | src/passman/pass.cpp:185-277 | exactly x + 0, 0 + x, x - 0, x - x, x * 0, 0 * x, x * 1, 1 * x and x / 1 are simplified, to x or to a constant 0 |
| FoldRules.ComparisonsFold | src/passman/pass.cpp:359-435 | exactly x == x, x != x and negated comparisons are folded, to 1, to 0 and to the opposite comparison of the same operands |
| Powers.ClearLowestBit | src/passman/pass.cpp:309-321 | x & (x - 1) is zero exactly for the powers of two |
| Powers.ShiftIsQuotient | src/passman/pass.cpp:322-345 | the arithmetic shift agrees with truncating division exactly for non-negative or divisible dividends |
| StrengthReduction.ReduceStrengthFires | src/passman/pass.cpp:284-345 | the rule fires exactly on multiplications and divisions by positive powers of two |
| StrengthReduction.ReduceStrengthIff | src/passman/pass.cpp:284-345 | the shift keeps a product always, and a quotient if and only if no valuation rounds a negative dividend |
| StrengthReduction.ExactDivKept | src/passman/pass.cpp:284-345 | the other rules never make an exact division inexact |
| ScanBudget.StepPotential | src/passman/pass.cpp:34-82 | no rule application raises the nodes plus what the rules can still make of them |
| ScanBudget.PotentialBound | src/passman/pass.cpp:362-433 | that potential is at most three per original node |
| ScanBudget.ScanStep | src/passman/pass.cpp:287-343 | every step of every scan is sound |
| ScanPasses.Scan | src/passman/pass.cpp:31-435 | a scan over the graph it extends ends, treats every node as the graph is by then, keeps values, reports a change exactly if the rule fired at all, and as many nodes removed as died |
| DeadNodes.AppliedTallied | src/passman/pass.cpp:72-82 | one rewrite makes exactly one more node dead |
| DeadNodes.SweptTallied | src/passman/pass.cpp:13-29 | a sweep as many as it has victims |
| Sorting.SortIff | src/passman/pass.cpp:152-156 | two id lists sort to the same list exactly if they hold the same ids equally often |
| ValueNumbers.CommutativeKeys | src/passman/pass.cpp:140-158 | flagged nodes share a key exactly if they agree up to the order of their inputs |
| ValueNumbers.SymmetricIff | src/tier2/tier2.cpp:218-222 | swapping operands goes unnoticed exactly for Add, Mul, Eq, Ne, And and Or |
| ValueNumbers.SameKeySameValue | src/passman/pass.cpp:133-166 | where the commutative flag is honest, nodes with equal keys have equal values |
| Gvn.NumberingStep | src/passman/pass.cpp:133-166 | merging into the node entered under the key keeps values, acyclicity and the table |
| Gvn.NumberValues | src/passman/pass.cpp:87-168 | keeps every value; reports a change exactly if there were duplicates, and as many nodes removed as died; reaches the normal form in one run if inputs come first |
| LocalForwarding.ForwardKeepsValues | src/passman/pass.cpp:892-921 | in every valuation where a load has the value its store put into the slot, forwarding keeps all values, and loads that see a store still have its value |
| LocalForwarding.ForwardKeepsMemory | src/passman/pass.cpp:892-921 | in particular wherever every load has what its slot holds along the effect chain back to Start |
| LocalForwarding.ForwardedMemoryIff | src/passman/pass.cpp:919-920 | memory works along the new chain if and only if each load that reads across the replaced one has what its slot held before the stored value |
| ForwardCounterexample.SecondReadMoved | src/passman/pass.cpp:919-920 | local0 := 5; x := local1; local0 := x; of two reads of local0 the second then reads the 5 |
| LocalForwarding.ForwardedHeld | src/passman/pass.cpp:919-920 | the effect chain itself is cut: behind the replaced load it goes on from the stored value, so that slots look as they were before that |
| LocalForwarding.SeesBefore | src/passman/pass.cpp:919-920 | rewiring effect edges too never makes a load see a store that it did not see |
| ForwardRule.LoadForwards | src/passman/pass.cpp:892-921 | exactly a live load whose first effect input is a store of the same slot gives way, to the first data input of that store |
| ForwardRule.SettledIff | src/passman/pass.cpp:892-921 | nothing is left to forward exactly if there is no such load |
| LocalForwardingPass.ForwardLocals | src/passman/pass.cpp:875-926 | leaves no load whose first effect input is a store to its slot and no edge to a dead node; reports a change exactly if there was such a load |
| CleanupPasses.EliminateDeadCode | src/passman/pass.cpp:13-29 | marks exactly the pure live nodes whose counter shows zero, and reports how many they are |
| CleanupPasses.DeadCodeIff | src/passman/pass.cpp:13-29 | leaves no edge to a dead node if and only if no use count is a positive multiple of 65536 |
| CleanupPasses.DeadCodeAdvances | src/passman/pass.cpp:13-29 | then also keeps every value |
| CleanupPasses.VerifierSilent | src/core/verifier.cpp:32-81 | checks 4 and 5 of the verifier are silent if no edge leads to a dead node, and, short of a counter overflow, only then |
| CleanupPasses.MarkExecuted | src/passman/pass.cpp:1064-1087 | marks exactly what Start reaches along control edges |
| CleanupPasses.MarkContributing | src/passman/pass.cpp:1089-1121 | marks exactly what Stop depends on along data and effect edges |
| CleanupPasses.PruneUnreachable | src/passman/pass.cpp:1059-1148 | marks dead exactly the unreached control and effect nodes and the other nodes that Stop does not depend on, and reports how many they are |
| CleanupPasses.PruneAdvances | src/passman/pass.cpp:1059-1148 | in straight-line code that keeps every value |
| CleanupPasses.PruneIff | src/passman/pass.cpp:1118-1144 | leaves no edge to a dead node if and only if no edge, of dead nodes included, leads to what it removes |
| CleanupPasses.PruneTameIff | src/passman/pass.cpp:1089-1144 | in straight-line code: if and only if Stop depends on every computing node that has a user, dead users included |
| Reachability.FrontierDone | src/passman/pass.cpp:1066-1090 | an empty worklist means that the marks are the reachable set |
| Pipeline.RunPass | src/passman/pass.h:85-90 | each pass has its own effect, keeps values and budget, reports a change exactly if it had something to do, and as many nodes removed as died |
| Pipeline.RunOnce | src/passman/pass.h:81-122 | runs the passes in order, each on what the last one left; reports a change exactly if some pass had something to do |
| Pipeline.RunToFixpoint | src/passman/pass.h:125-133 | whatever the number of rounds, the graph computes the same and at most triples; as many nodes are reported removed as died; and if the rounds were fewer than the budget no pass has anything left to do |
| Finished.UnusedIff | src/passman/pass.cpp:13-29 | what dead code elimination finds: the live pure nodes whose number of users is a multiple of 65536 |
| Finished.PrunedIff | src/passman/pass.cpp:1059-1148 | what pruning finds, in terms of chains of control edges from Start and of data and effect edges from Stop |
| Finished.IdleFinishes | src/passman/pass.cpp:31-435 | a graph that leaves no pass anything to do has no live node of a form that some rule folds, no two that compute the same, no unused pure node and no unneeded one, all in terms of kinds, flags, inputs and payloads |
| Finished.RoundInOrder | src/tier2/tier2.cpp:1094-1114 | one round is value numbering, constant folding, algebra, comparisons, strength reduction, pruning and dead code elimination, in this order |
| Finished.RunTier2Pipeline | src/tier2/tier2.cpp:1116-1119 | at most eight rounds; if fewer were enough, nothing of that kind is left |
| NumberingScans.NumbersOnce | src/passman/pass.cpp:133-166 | what value numbering makes of a graph is determined by the graph |
| Settling.ScansOnce | src/passman/pass.cpp:31-435 | so is what a folding scan makes of it, nodes that it adds and then visits included |
| Settling.IdleKeeps | src/passman/pass.h:81-122 | a pass that finds nothing to do leaves the graph as it is |
| Settling.SettlesOnce | src/passman/pass.h:125-133 | and so is where the rounds end, whether they run out of work or of budget |
| Bytecode.ShortRoundTrip | src/bytecode/chunk.h:111-116 | a 16-bit offset is read back as it was emitted |
| Bytecode.ConstIdxRoundTrip | src/bytecode/chunk.h:104-110 | of a constant index the low 24 bits are read back, so exactly an index below 2^24 survives |
| Bytecode.Chunk.PatchShort | src/bytecode/chunk.h:133-138 | overwrites two bytes with an offset, high byte first, and nothing else; out of range it does nothing |
| Bytecode.Reader.ReadShort | src/bytecode/chunk.h:160-189 | reads what stands at ip and moves past it |
| Bytecode.Chunk.EmitShort | src/bytecode/chunk.h:111-116 | appends the two bytes of an offset, high byte first |
| Bytecode.Chunk.EmitConstIdx | src/bytecode/chunk.h:104-108 | appends three bytes, the highest first, from which the index is read back modulo 2^24, whatever the index |
| DispatchLoop.Dispatcher.Advance | src/interp/interpreter.h:321-636 | one turn of the dispatch loop is one step of the reference semantics |
| DispatchLoop.Dispatcher.Dispatch | src/interp/interpreter.h:309-329 | the loop is the run of that many steps |
| ByteMeaning.InstructionLengths | src/bytecode/chunk.h:22-72 | how many bytes each of the opcodes takes with its operands |
| ByteMeaning.ConstByte | src/interp/interpreter.h:330-345 | byte 0 pushes the constant whose three-byte index follows |
| ByteMeaning.LocalByte | src/interp/interpreter.h:346-379 | bytes 2 and 4 load and store the local whose number follows |
| ByteMeaning.BinaryByte | src/interp/interpreter.h:425-623 | bytes 5 to 7 and 12 to 19 combine the two values on top of the stack as written out, modulo 2^64 or to 0 and 1 |
| ByteMeaning.UnaryByte | src/interp/interpreter.h:519-536 | bytes 10 and 11 negate and test for zero |
| ByteMeaning.PopByte | src/interp/interpreter.h:419-424 | byte 29 drops the top of the stack |
| ByteMeaning.JumpByte | src/interp/interpreter.h:624-628 | byte 20 jumps by the signed offset that follows |
| ByteMeaning.BranchByte | src/interp/interpreter.h:629-638 | byte 21 does so exactly if the value it takes is zero |
| ByteMeaning.ReturnByte | src/interp/interpreter.h:925-931 | byte 23 returns the top of the stack |
| ByteMeaning.StuckByte | src/interp/interpreter.h:321-1030 | every other byte, and too few operands, are outside the integer fragment |
| BytePrograms.InterpretBytes | src/interp/interpreter.h:309-636 | what whole chunks answer, byte for byte: two constants combined, one changed, one stored and loaded, one of two chosen, one jumped over |
| LoweringWalk.ScanJumpTargets | src/tier1/tier1.cpp:1003-1055 | the pre-scan, with its own table of operand sizes, finds the targets of exactly the instructions the main walk decodes |
| LoweringWalk.ChunkLowerer.PopVreg | src/tier1/tier1.cpp:980-990 | pops a register, or synthesizes a zero on an empty virtual stack |
| LoweringWalk.ChunkLowerer.EmitBinop | src/tier1/tier1.cpp:972-978 | the right operand is popped first |
| LoweringWalk.ChunkLowerer.LowerOp | src/tier1/tier1.cpp:731-947 | one opcode of the main walk is one step of the specified lowering |
| LoweringWalk.LowerChunk | src/tier1/tier1.cpp:704-969 | pre-scan and walk compute the specified lowering of the decoded chunk |
| LoweringWalk.LabelOnce | src/tier1/tier1.cpp:722-729 | every allocated label is emitted exactly once, just before what is lowered for the instruction at its offset |
| LoweredShape.TargetIs | src/tier1/tier1.cpp:806-823 | a jump arrives at what was lowered for the instruction it leads to in the bytecode |
| LoweringTheorem.StepSimulates | src/interp/interpreter.h:309-636 | each step of the interpreter is matched by the lowered code, loops included |
| LoweringTheorem.LoweringPreserves | src/tier1/tier1.cpp:704-969 | if the interpreter returns, after however many steps, the lowered function returns the same value and leaves the same locals |
| Liveness.ComputeLiveness | src/tier1/tier1.cpp:26-43 | one pass finds the first definition and the last mention of every register |
| Liveness.ComputeIntervals | src/tier1/tier1.cpp:45-51 | the intervals of the defined registers, each once, by ascending start |
| Allocation.FreeRegister | src/tier1/tier1.cpp:106-121 | fewer than ten active intervals leave a register free: the defensive spill is never taken |
| Allocation.StealOk | src/tier1/tier1.cpp:124-137 | taking the register of the interval that ends last keeps overlapping intervals apart and the used bits right |
| Allocation.ExpireOk | src/tier1/tier1.cpp:92-101 | expiring an interval frees exactly its register |
| LinearScan.Place | src/tier1/tier1.cpp:103-142 | spills, of the new and the active intervals, the one that ends last, and only if all registers are taken: the specified next table |
| LinearScan.Allocate | src/tier1/tier1.cpp:19-145 | computes the allocation specified by ScanOf; in it every defined register has exactly one of a register and its own slot, and overlapping intervals share neither |
| RegisterChoice.NextChoice | src/tier1/tier1.cpp:53-145 | interval by interval: while one of rbx, rsi, rdi, r8 to r11 and r13 to r15 is free, the first free one in this order is taken; otherwise, of the new interval and those in registers, the one that ends last goes to the next slot |
| RegisterChoice.AllocationIs | src/tier1/tier1.cpp:53-145 | starting from nothing, that is the allocation |
| RegisterChoice.OnlyTheseRegisters | src/tier1/tier1.cpp:53-65 | no register but these ten is ever handed out |
| LiveRanges.CoversIff | src/tier1/tier1.cpp:26-51 | the intervals are in force wherever a value is live on some path, if and only if for every backward jump each register assigned before it and live at its target is defined before the target and mentioned at the jump or later |
| RegisterMachine.AllocationPreserves | src/tier1/tier1.cpp:191-211 | then a function returns on machine registers what it returns on virtual ones, loops included |
| RegisterMachine.AllocationPreservesForward | src/tier1/tier1.cpp:19-145 | so does every function whose jumps go forward |
| LoopHeads.EmptyLoopsCovered | src/tier1/tier1.cpp:731-947 | lowered code whose loops start with an empty virtual stack needs nothing across a backward jump, so its intervals are right |
| LoopCounterexample.SharingAcrossLoop | src/tier1/tier1.cpp:26-51 | a chunk for which the intervals are wrong: the interpreter returns 5, the code as it is lowered and allocated returns 0 |
| Jolt.LoweredWellFormed | src/tier1/tier1.cpp:731-969 | the lowerer only names registers that it allocated |
| LoopHeads.ForwardStaysForward | src/tier1/tier1.cpp:806-823 | forward jumps of the bytecode become forward jumps of the IR |
| Jolt.JoltPreserves | src/tier1/tier1.cpp:19-145 | lowering and allocation together preserve the interpreter's answer wherever the intervals cover the loops |
| Jolt.WhichAreCovered | src/tier1/tier1.cpp:806-823 | they do if the chunk's jumps go forward, and if its loops start with an empty stack |
| Baseline.CompileChunk | src/tier1/tier1.cpp:1061-1072 | the same for the compiled chunk, from its bytes |
| BytePrograms.CompileTwoCombined | src/tier1/tier1.cpp:1061-1072 | for all integers x and y and each binary byte: load x, load y, combine, return answers what is written out for the byte, compiled |
| BytePrograms.CompileOneChanged | src/tier1/tier1.cpp:1061-1072 | the same for negation and test for zero |
| BytePrograms.CompileStoredLoaded | src/tier1/tier1.cpp:1061-1072 | a value stored, dropped and loaded again is returned, and the local has it |
| BytePrograms.CompileChosen | src/tier1/tier1.cpp:1061-1072 | a branch takes the way that its value says |
| BytePrograms.CompileJumpedOver | src/tier1/tier1.cpp:1061-1072 | what a jump passes over has no effect |
| Baseline.LoweredSize | src/tier1/tier1.cpp:731-969 | at most four instructions per instruction of the bytecode |
| StraightLine.AnswerIsReturnValue | src/tier1/tier1.cpp:319-629 | a branch-free function that returns has read only written registers and locals that are there |
| SonLowering.Tier1ToSoN.LookupVreg | src/tier2/tier2.cpp:509-519 | the node of a register, or a fresh zero for one never written |
| SonLowering.Tier1ToSoN.LowerInst | src/tier2/tier2.cpp:132-297 | the nodes and the effect after an instruction, as specified |
| GraphLowering.LoweredTracks | src/tier2/tier2.cpp:132-297 | after each instruction the registers' nodes have the registers' values, whatever the locals |
| SonLowering.LowerToGraph | src/tier2/tier2.cpp:75-506 | the graph of a branch-free function |
| GraphLowering.GraphBuilt | src/tier2/tier2.cpp:75-506 | which is acyclic, with its nodes in topological order |
| LoweredLabels.GraphLabelled | src/tier2/tier2.cpp:132-297 | every node has the flags and the type of its kind: which nodes are commutative, open to value numbering, pure, numbers or truth values |
| GraphLowering.GraphReturnsIt | src/tier2/tier2.cpp:347-363 | and delivers the function's return value to Stop, for all locals |
| Emission.EmitRight | src/tier2/tier2.cpp:727-922 | the instruction emitted for a node whose operands have registers puts the node's value into a fresh register, for all locals |
| SonRaising.SoNToTier1.EmitDataNode | src/tier2/tier2.cpp:727-922 | hands out the node's register first and then looks up its operands, synthesizing those that are missing |
| SonRaising.FloatedIff | src/tier2/tier2.cpp:576-628 | the rounds emit exactly what does not depend on a load |
| SonRaising.SoNToTier1.EmitFloating | src/tier2/tier2.cpp:576-628 | the rounds end, with nothing left that is ready |
| SonRaising.SoNToTier1.EmitBlock | src/tier2/tier2.cpp:683-722 | Start's block has its label and the loads |
| SonRaising.SoNToTier1.EmitLate | src/tier2/tier2.cpp:635-649 | the last phase emits the pure nodes that have no register yet, by ascending id |
| LateEmission.MissesIff | src/tier2/tier2.cpp:635-649 | every operand has its register when it is read if and only if each is emitted before the phase or has a smaller id |
| LateEmission.OrderedComputes | src/tier2/tier2.cpp:635-649 | then every late node's register ends up with the node's value |
| LateEmission.MissedStaysZero | src/tier2/tier2.cpp:1001-1011 | otherwise the missed operand is replaced by a zero for good, and never computed |
| SonRaising.OutOfOrderMisses | src/tier2/tier2.cpp:576-649 | in terms of the graph: no operand is missed if and only if what depends on a load has a larger id than those of its operands that do |
| SonRaising.RaiseGraph | src/tier2/tier2.cpp:556-665 | then the raised function returns what reaches Stop, for all locals |
| GraphLowering.GraphCalm | src/tier2/tier2.cpp:75-506 | in the graph of a function without Mul and Not operands come before their users, and nothing is there that a rule would replace by a fresh node other than a constant |
| ScanBudget.ScannedCalm | src/passman/pass.cpp:31-435 | every rule keeps that, |
| Gvn.MergedCalm | src/passman/pass.cpp:133-166 | merging does too, |
| SonRaising.CalmInOrder | src/tier2/tier2.cpp:635-649 | and then the late phase misses nothing |
| Tier2.AdvancesReturns | src/tier2/tier2.cpp:1116-1119 | the pipeline does not change what reaches Stop |
| Tier2.OptimizedOnce | src/tier2/tier2.cpp:1116-1119 | a function has one optimized graph |
| Tier2.OrderKeptIff | src/tier2/tier2.cpp:635-649 | so that the order of its ids is a property of the function, whatever the ranks |
| Tier2.LowerAndOptimize | src/tier2/tier2.cpp:1116-1119 | lowering and the pipeline: a graph that computes the same, with at most nine nodes per instruction and nothing left to do unless the budget is spent |
| Tier2.CompileAtTier2 | src/tier2/tier2.cpp:1122-1217 | on the straight-line path, if the function keeps its order, every answer of it is an answer of the compiled function, for all locals; otherwise, and only then, the last phase misses an operand; functions without loads, or without Mul and Not, always keep it; and in the graph that is raised nothing is left to fold, to merge or to remove unless eight rounds were not enough |
| Tier2.CompileToRegisters | src/tier2/tier2.cpp:1209-1216 | and of that function on machine registers |
| Probing.EmptyMeansAbsent | src/bytecode/symbol_table.h:120-126 | a probe that meets a vacant bucket has not missed the key, tombstones or not |
| Probing.SlotFinds | src/bytecode/symbol_table.h:111-134 | a probe ends at the key's entry, or else at the first free bucket on its way, vacant or tombstone, or nowhere in a full table |
| ProbeSequence.SlotIff | src/bytecode/symbol_table.h:111-134 | bucket by bucket: from the remainder of the hash on, past everything but the key's entry and hash 0, once around at most, and back to the first hash 1 if there was one and no entry |
| Probing.StoreKeepsTable | src/bytecode/symbol_table.h:55-70 | storing where the probe ended keeps every key findable and unique |
| Probing.RoomLeft | src/bytecode/symbol_table.h:136-146 | a table with more buckets than keys has a free one, so rehashing never grows the table again |
| Probing.GetAfterSet | src/bytecode/symbol_table.h:42-47 | after a set, get answers the value for that key in every table and for every key |
| Probing.OthersAfterSet | src/bytecode/symbol_table.h:63-69 | what it answers for every other key: as before, or, for an absent key whose probe ended in the same bucket, the same value, or what stands in the next free bucket if that one became an entry |
| Probing.CleanRefines | src/bytecode/symbol_table.h:42-47 | a table whose free buckets hold the undefined value answers as the map does |
| SymbolMap.SetRefinesIff | src/bytecode/symbol_table.h:55-70 | of any table: it answers as the updated map if and only if each other key without an entry sees the undefined value, in its own free bucket, or as the value set, or in the next free bucket |
| SymbolMap.SetRefinesTidy | src/bytecode/symbol_table.h:55-70 | if the other free buckets are undefined: if and only if the key was there or becomes an entry, or the value is undefined, or no other absent key ends its probe in that bucket |
| SymbolMap.RemoveRefinesIff | src/bytecode/symbol_table.h:72-81 | of any table: after a removal it answers as the smaller map if and only if the first free bucket on the way of every key without an entry holds the undefined value, the freed one included |
| SymbolMap.RemoveFromClean | src/bytecode/symbol_table.h:72-81 | from a clean table: if and only if the removed value is undefined |
| SymbolMap.RemoveAbsent | src/bytecode/symbol_table.h:72-81 | removing an absent key changes no answer |
| SymbolMap.RemovedStays | src/bytecode/symbol_table.h:72-81 | set, remove: get answers the removed value for that key and for all with the same home bucket |
| SymbolMap.SetAgainIsNoEntry | src/bytecode/symbol_table.h:55-81 | set, remove, set: the key is no entry, and all keys with its home bucket see the new value |
| SymbolMap.OtherEntersElsewhere | src/bytecode/symbol_table.h:55-81 | set, remove, set of a key with another home bucket: that is an entry, and the removed value is still seen |
| Probing.ReservedKey | src/bytecode/symbol_table.h:63-69 | a key that hashes to 0 or 1 is no entry, but get sees its value while its bucket is left alone; with hash 0 each further set of it is counted again |
| Probing.ReservedOverwritten | src/bytecode/symbol_table.h:63-69 | and no longer once another key enters in that bucket: then it sees the next free one |
| Probing.GetAfterRemove | src/bytecode/symbol_table.h:72-81 | after a removal, get answers for every key without an entry what stands in the first free bucket on its way: the removed value, or an earlier one |
| Probing.HasIff | src/bytecode/symbol_table.h:49-52 | has answers true for every key as long as a bucket is free |
| SymbolTable.SymbolTable.FindSlot | src/bytecode/symbol_table.h:111-134 | that slot, for any key, reserved hashes and tombstones included; in a valid table the key's entry or the first free bucket on its way |
| SymbolTable.SymbolTable.Get | src/bytecode/symbol_table.h:42-47 | the value last set for a key of the table, otherwise what stands where the probe ends; undefined in a clean table |
| SymbolTable.SymbolTable.Has | src/bytecode/symbol_table.h:49-52 | true for the table's keys, and for every other key unless the table is full |
| SymbolTable.SymbolTable.Set | src/bytecode/symbol_table.h:55-70 | of any key: buckets, count and map afterwards, growing a full table first; for keys without a reserved hash a clean or full table is clean afterwards and answers as the updated map |
| SymbolTable.SymbolTable.Remove | src/bytecode/symbol_table.h:72-81 | takes the key out of the map; where the probe ends the bucket gets hash 1 and an empty key and keeps its value, of an absent key too; the count drops, from zero to the largest number |
| SymbolTable.SymbolTable.Size | src/bytecode/symbol_table.h:83-84 | the count, which in a clean table is the number of distinct keys |
| SymbolTable.SymbolTable.Grow | src/bytecode/symbol_table.h:136-146 | doubles a full table and keeps the map; the new table is clean |
| Replay.RoundTrip | src/core/replay.cpp:95-207 | reading a written job, with anything after it, gives the job and leaves the rest |
| Replay.PrefixRejected | src/core/replay.cpp:136-207 | every strict prefix of a file is rejected |
| Replay.NumberOfBytes | src/core/replay.cpp:19-30 | a number written in n bytes is read back exactly if it fits |
| ReplayLayout.FileLayout | src/core/replay.cpp:95-134 | every byte of a file: 41 4A 52 50, version one, then code, constants, locals, name and options with their lengths, all numbers lowest byte first |
| ReplayLayout.EntryAt | src/core/replay.cpp:107-112 | each constant takes nine bytes: its type and 64 bits |
| ReplayLayout.ConstantEntries | src/core/replay.cpp:211-240 | of a chunk: type 0 for integers, 1 for doubles, 15 for null |
| ReplayLayout.ReadIff | src/core/replay.cpp:136-207 | bytes are read as a job if and only if they are a file of it, where any byte but 0 sets a flag |
| ReplayLayout.RefusedIff | src/core/replay.cpp:145-151 | files are refused as foreign exactly if they begin with other bytes, and for their version exactly if that is not one; every other failure is an end too early |
| Replay.ChunkSurvives | src/core/replay.cpp:211-286 | code, name, locals and numeric constants survive, bit for bit and in place; other constants become null |
| ReplayFiles.WriteReplay | src/core/replay.cpp:95-134 | the buffer holds the bytes of the specified format |
| ReplayFiles.ReadReplay | src/core/replay.cpp:136-207 | the reader returns what the bytes parse to, or the first error |
| ReplayFiles.MakeReplayJob | src/core/replay.cpp:211-240 | the job of a chunk |
| ReplayFiles.ChunkFromReplay | src/core/replay.cpp:242-286 | the chunk of a job |
| ReplayFiles.ReplayChunk | src/core/replay.cpp:211-286 | through the whole cycle |
| Safepoint.StepKeepsInv | src/runtime/safepoint.h:39-95 | every atomic step of a mutator or the coordinator keeps the protocol's invariant |
| Safepoint.MutualExclusion | src/runtime/safepoint.h:82-95 | in every interleaving, between the return of the request and the release every mutator registered then is parked |
| Safepoint.StoppedStays | src/runtime/safepoint.h:52-54 | a parked mutator stays parked until its state is set to Running |
| Safepoint.LostWakeupForever | src/runtime/safepoint.h:47-54 | a mutator still in its check whose release is overwritten by the next request never answers it, whatever anyone does |
| Safepoint.CanHoldIff | src/runtime/safepoint.h:82-90 | a request under way can still return if and only if no such mutator exists |
| Safepoint.NextRequestIff | src/runtime/safepoint.h:39-90 | between requests: the next one can get stuck if and only if some mutator has not left its check |
| Safepoint.LostWakeupReachable | src/runtime/safepoint.h:39-64 | and that can happen |
| Counterexamples.MergeIff | src/passman/pass.cpp:133-166 | two flagged nodes with swapped operands are merged whatever the operation; their values agree exactly if the operation ignores the order |
| Counterexamples.FlagHonestIff | src/tier2/tier2.cpp:218-222 | the commutative flag is safe on a binary operation if and only if it is a symmetric one |
| Counterexamples.CounterWraps | src/passman/pass.cpp:13-29 | a constant used 65536 times counts as unused |
| Counterexamples.DivisionRounds | src/passman/pass.cpp:284-345 | -1 / 2 becomes a shift, and the value 0 becomes -1 |
| PruneCounterexample.PruningKillsStored | src/passman/pass.cpp:1089-1144 | local1 := 7; local0 := 5; return local0: once the load is forwarded, pruning keeps the store of 7 and kills the 7 |
| Counterexamples.PruningLeavesUses | src/passman/pass.cpp:1118-1144 | after folding 1 + 2, pruning kills operands that the dead sum still uses |
| LateCounterexample.TimesIsLowered | src/tier2/tier2.cpp:75-506 | the graph of return local0 * 8 + 1 |
| LateCounterexample.TimesReduces | src/passman/pass.cpp:316-345 | strength reduction gives its sum an operand with a larger id, the shift |
| LateCounterexample.TimesPruned | src/passman/pass.cpp:1059-1148 | pruning then removes the constant 8, and nothing else |
| LateCounterexample.TimesOutOfOrder | src/tier2/tier2.cpp:635-649 | the result is straight-line code still, with its ids out of order |
| LateCounterexample.TimesReturnsOne | src/tier2/tier2.cpp:556-665 | whatever is raised from it returns 1, for all locals |
| LatePipeline.TimesOptimized | src/passman/pass.h:81-133 | through all passes and all rounds the pipeline makes of the function a graph of that form |
| LatePipeline.TimesNotKept | src/tier2/tier2.cpp:1116-1119 | so it does not keep its order |
| LatePipeline.CompileTimes | src/tier2/tier2.cpp:1122-1217 | and the whole compiler turns local0 * 8 + 1 into 1, whatever the local holds |

## Where the code is narrower than its comments

- Lowering flags Sub, Div, Pow and the ordering comparisons commutative (src/tier2/tier2.cpp:218-222, 268-270), and
  so does comparison folding (src/passman/pass.cpp:422-424). Value numbering is value-preserving where the flag is
  honest: `Gvn.NumberValues` requires it, `ValueNumbers.SymmetricIff` and `Counterexamples.FlagHonestIff` say for
  which operations it is.
- Division by a power of two becomes an arithmetic shift (src/passman/pass.cpp:328), which rounds down where
  division truncates: `StrengthReduction.ReduceStrengthIff` is the exact condition, `Counterexamples.DivisionRounds`
  an input.
- Use counts are 16 bits wide; dead code elimination trusts them. `CleanupPasses.DeadCodeIff` is the exact condition
  and `GraphLowering.Room` the size below which a function can never meet it.
- The dominance loop gives up after 100 rounds (src/core/dominance.cpp:141): `Dominators.ExactIffStable` says when
  the result is exact all the same, `Retreating.MetIsExact` for which graphs the limit does no harm, and
  `LadderGraphs.DominanceOfLadder` shows graphs for which it does.
- Live intervals take no account of loops: `LiveRanges.CoversIff` is the exact condition under which they are right
  all the same, `LoopCounterexample.SharingAcrossLoop` a chunk that does not meet it.
- Pruning kills computing nodes that Stop does not depend on although dead nodes still use them, and computing nodes
  whose only users are effect nodes that Start reaches. Their counters stay positive, which the verifier complains
  about: `CleanupPasses.PruneIff` is the exact condition for a clean result, and `return 1 + 2` does not meet it
  once it is folded; `PruneCounterexample.PruningKillsStored` has a live store that loses its operand. Dead code
  elimination leaves such edges exactly if a counter wrapped; the rewriting passes never do.
- A safepoint request that comes before a mutator has left the check of the previous one can wait forever, also if
  that mutator has yet to enter the wait loop: `Safepoint.NextRequestIff`. Mutators that register while a safepoint
  is held are not stopped.
- Raising emits what depends on loads in the order of the ids, and strength reduction gives an operand a larger id
  than its user: local0 * 8 + 1 is compiled to 1. `SonRaising.OutOfOrderMisses` is the exact condition for the order
  to be right, `LatePipeline.CompileTimes` the input.
- A key that hashes to 0 or 1 is not stored, `has` answers true for absent keys, `remove` leaves the value where
  `get` finds it and counts absent keys down, and a new key whose probe meets a tombstone is not entered:
  `SymbolMap.SetRefinesIff` and `SymbolMap.RemoveRefinesIff` are the exact conditions, `SymbolMap.SetAgainIsNoEntry`
  and `SymbolMap.OtherEntersElsewhere` short histories that do not meet them.
- Forwarding a load rewires the effect edges of what follows to the stored value (src/passman/pass.cpp:919):
  `LocalForwarding.ForwardedMemoryIff` is the exact condition under which loads still see what they saw,
  `ForwardCounterexample.SecondReadMoved` an input that does not meet it.

## Left out

- Machine code: registers, spill slots and per-instruction meaning are abstract. Encodings, the stack frame (whose
  slots overlap the saved registers), calls, floating point, `pow` and heap operations are not modelled; `pow` and
  int-to-float conversion are arbitrary but fixed functions. Division of the smallest integer by -1 wraps here and
  traps on the hardware; signed overflow in the passes is undefined in C++ and wraps here.
- Globals, calls, lists, properties, exceptions and the iteration opcodes, which tier 1 leaves as placeholders, and
  tier-1 division, which differs from the interpreter's floating-point division.
- The interpreter's reference semantics covers the integer fragment; any other value or opcode, and running off the
  end of the code, counts as getting stuck, about which the theorems claim nothing.
- LoweringWalk.LowerChunk: asks for code that decodes completely, with opcodes of the fragment and jumps to
  instructions inside the code; a target between two instructions would keep all later labels from being emitted.
- LoweringTheorem.LoweringPreserves: asks for equal virtual stacks at a jump and its target, because the lowerer
  keeps one compile-time stack for the whole chunk.
- Tier2.CompileAtTier2: covers constants, loads of locals, moves, Add, Mul, Neg, Shl, Shr, Eq, Ne, And, Or and Not.
  Sub, Div, Pow and the ordering comparisons are flagged commutative, so that value numbering may merge them wrongly
  (Counterexamples.MergeIff). Stores are left out because they are emitted with their block, before what depends on
  loads (src/tier2/tier2.cpp:683-722, 635-649). The time and size budget, which only falls back to tier 1, is not
  modelled.
- Pipeline.RunToFixpoint: runs the seven passes that can change straight-line integer code without stores. Type
  narrowing, call inlining, escape analysis, branch folding, loop-invariant code motion, loop unrolling,
  bounds-check elimination and store-to-load forwarding find nothing in it, apart from type annotations that carry
  no value; forwarding is modelled on its own.
- Rules are plans: what a rule does to a node is read off the graph before the graph is changed; the source keeps
  references to nodes across appending, which may dangle. The rule that removes double negation cannot be reached
  (src/passman/pass.cpp:203, 254).
- UseLists.Graph.AddNode: asks for inputs that exist and fewer than 2^32 entries in each table; more than 65535
  inputs would be truncated, and an edge to a node that does not exist would get no use.
- UseLists.Graph.ReplaceAllUsesWith: asks for two different nodes: replacing a node by itself clears its use count.
- Dominance.ComputeDominance: loop headers and natural loops are not modelled.
- LinearScan.Allocate: the sort by start is an insertion sort; starts are distinct, so any sort gives the same
  order.
- SymbolTable.SymbolTable.Set: the hash is a parameter. The constructor with a capacity, which need not be a power
  of two, is left out.
- ReplayFiles.WriteReplay: opening, writing and closing files are left out; lengths of 2^32 and more are written
  modulo 2^32, which Replay.RoundTrip excludes.
- Safepoint.MutualExclusion: atomic operations interleave; weaker memory orders, the statistics counter and the
  registration lock are not modelled.
- Governor, meters, probes, relays, watchdogs, scheduling, the command line, benchmarks and dumps: counters and
  thresholds that would only add easy members.
