# CCWeave optimiser pipeline: verification model

CCWeave optimises a module of intermediate code by executing a *plan*. A plan is built node by node,
sealed, printed as text, parsed back and executed in dependency order. Each of its rewrite nodes runs
*Oeuph*, a bounded equality saturation over the instructions of the module, and Oeuph writes what it
extracts back through the edit primitives of the *Weave* IR. The *Parthia* interpreter, which hosts
scripts around the same IR, speeds up hot closures by flattening their environments. This project
models these four parts and proves what they promise.

- **Oeuph** (`UnionFind`, `Terms`, `EGraphs`, `Matching`, `MatchCompleteness`, `MatchMisses`,
  `Misreads`, `Soundness`, `Sweeps`, `SweepCompleteness`, `Saturation`, `FlatRules`, `Extraction`,
  `PatternParser`, and the examples in `MatchExamples` and `SaturationExamples`). The e-graph is a class whose `parent` table is
  path-halved in place; its abstract state is the node table with the partition of its indices, named by
  least members. Every e-node denotes a finite term. The loops are proved to compute functions on those
  states (`FirstMatch`, `Built`, `SweptRules`), and the theorems are about the functions: saturation is
  sound for *every* congruence on terms that contains the admissible instances of the rules, and algebras
  in which the rules are true equations are one source of these. And a sweep is complete: every rule that
  has a match is applied, and later rules of the same sweep build on what earlier ones concluded.
- **Weave IR** (`WeaveTable`, `WeaveEdits`, `WeaveIr`, `WeaveCfg`, `WeaveRuns`, `WeaveExamples`). One class holds the
  node table; every builder, edit and query method is proved against a transition function `Apply` on
  tables, and the theorems (ownership over any history of calls, runs of the control-flow graph) are
  about that function.
- **The bridge and the run** (`OeuphBridge`, `Writeback`, `OeuphInstr`, `Progress`, `OeuphRun`,
  `OeuphExamples`, `ProgressExamples`). Import, choice and writeback of each instruction, and what a whole
  run leaves of every block. A run accounts for every instruction in layout order with the saturation run
  that decided about it, and where a rule makes something cheaper of an instruction, it is improved.
- **Sched** (`SchedOrder`, `SchedExec`, `SchedBuilder`, `PlanText`, `PlanExamples`, `Words32`,
  `PlanHashing`, `DigestSteps`, `DigestOfEmpty`, `DigestOfAbc`). The builder with its
  implicit barrier edges, the counting acyclicity test, the rescanning executors, the plan text in both
  directions, and the hand-written SHA-256 against FIPS 180-4.
- **Parthia** (`TierUp`). Frames as linked mutable objects, lookups, and closure tier-up.

`Basics` and `Numerals` hold what several parts share: options, the 32-byte name buffers, and the
number readers and printers of the C library (`strtoll`, `sscanf("%u")`, `printf("%u")`).

## Where the code falls short of what one would expect

These are theorems about the code as it is. Each names an input on which the expectation fails and the
exact condition under which it holds.

- The matcher commits every operand to the first e-node of its class that matches. On the hash-consed
  e-graphs that runs build, a pattern is never missed if and only if it is *committed*: going left to
  right, an operand that is itself an operator binds no new variable that a later operand uses, at every
  level. The only other patterns never missed are those that use one name for both kinds of variable,
  which match nothing (`NeverMissesExactly`, `PatternNeverMissesExactly`). For every other pattern an
  e-graph with a missed match is built (`UncommittedMissed`); `RepeatedVariableMissed` is a closed one.
  The condition is about the e-graphs the matcher sees, which between a union and the next rebuild are
  not closed: on closed ones `(f (g ?x) (g ?x))` is not missed either (`TwinsFoundWhenClosed`).
- An operator pattern with neither name nor operands, which the parser produces for `("")`, matches
  register leaves although its instance is another term (`UnnamedOperatorParses`,
  `UnnamedOperatorMisread`). What the matcher finds for a pattern denotes its instance in every sound
  congruence if and only if it holds no such operator, or mixes kinds as above (`DenotesExactly`,
  `MisreadExists`). Soundness of rules is proved without such operators (`OpsNamed`).
- A run that counts as saturated need not satisfy its rules, for two reasons. Without a positive iteration
  budget nothing was tried (`NothingTriedButSaturated`). And a rule whose other side uses an unbound
  variable fails to build, but leaves e-nodes behind on which earlier rules fire (`SaturatedButUnsatisfied`,
  with the rules `(g ?x) -> (h ?x)` and `(f ?x) -> (k (g ?x) ?y)`). With a positive budget, the rules are
  satisfied if and only if they are at the e-nodes the last sweep left behind; so they are when it left
  none, and always when rules use only the variables they match (`SaturatedMeans`).
- Writeback copies the name field of a child even when the child is an operator. The instruction
  written denotes the chosen e-node if and only if all its children are leaves (`WritebackFaithful`,
  `NestedOperatorDropped`). When all rules are operators over leaves on both sides and all instructions
  clean, this is always so (`Run`, by `FlatOutcome`).
- Import cuts opcodes and names to 31 characters and takes every operand that is no integer for a register
  of its name, the empty one if it has none. Over registers and integers it is exact if and only if the
  instruction is *clean* (`ImportExactly`). When nothing can fire the instruction is written back with its
  names cut, unless `KeptAsIs` holds: more than four operands, an empty opcode, or an opcode and names that
  fit and no nameless operand (`QuietOutcome`, by `OwnNode`). So a float constant becomes
  register "" (`FloatConstantLost`), a long register name becomes another register (`LongNameCut`,
  `LongNamesCollide`), and a function name is taken for a register (`FunctionTakenForRegister`).
- Merging a block that jumps to itself with itself never ends unless the jump is its only instruction:
  the copying loop reads the vector it pushes to (`SelfMergeNeverEnds`, `MoveOwnInstrs`, and the module of
  `SelfMergeExample`).
- Merging with an empty second block can uncover a jump that stood before the removed one; runs are
  kept exactly when it does not (`MergeKeepsRunsExactly`, `JumpUncovered`). Merging away the entry block
  changes where the function starts (`MergeKeepsEntry`, `EntryRemoved`).
- The successor *count* of a block counts repeated targets, because it is computed without a buffer: it is
  the number of successors if and only if no target is repeated (`CountedExactly`, `NoRepeatsExactly`,
  `SuccessorCountedTwice`). The successor *list* does not repeat; the graph theorems are about the list.
- A plan reads back if and only if its name is one word and names and members hold no spaces
  (`RoundTripExactly`), but the builder accepts spaces: a kernel named `a b` is read back as a kernel `a`
  with a capability `b` (`SpacedNameReadAsMember`), and a plan named by two words is refused
  (`SpacedPlanNameRefused`).
- The duplicate check of tier-up looks through the flat frame to the root, so a captured binding that
  shadows a root binding is lost (`ShadowingBindingLost`). Names keep their meaning forever exactly when
  no captured name is bound in the root (`UnchangedForever`), and at the moment of tier-up exactly when
  the two bindings agree (`UnchangedNow`).

## Model

| member | source | states |
|---|---|---|
| `UnionFind.HalvingKeepsRoots` | oeuph/ccw_oeuph.c:59-68 | path halving at any place leaves the root of every index unchanged |
| `UnionFind.LinkRoots` | oeuph/ccw_oeuph.c:70-83 | redirecting the higher of two roots to the lower one joins exactly those two classes and keeps the least index as name |
| `UnionFind.MergeCount` | oeuph/ccw_oeuph.c:70-83 | a union of different classes loses exactly one class, of equal classes none |
| `UnionFind.MergeAllIsClosure` | oeuph/ccw_oeuph.c:70-83 | after any sequence of unions the partition is the least equivalence containing the start and all requested pairs |
| `UnionFind.OrderIndependent` | oeuph/ccw_oeuph.c:70-83 | the final partition, names included, depends only on the set of requested pairs |
| `UnionFind.CanonicalUnique` | oeuph/ccw_oeuph.c:59-83 | naming classes by their least index makes equal partitions identical |
| `EGraphs.EGraph.Find` | oeuph/ccw_oeuph.c:59-68 | returns the least member of the class; compression is invisible in the partition |
| `EGraphs.EGraph.Union` | oeuph/ccw_oeuph.c:70-83 | merges two classes, says whether they differed, and counts exactly the unions that did |
| `EGraphs.EGraph.AddNode` | oeuph/ccw_oeuph.c:85-126 | hash-consing: the first e-node with equal label and equivalent children, else a new e-node in its own class |
| `EGraphs.AddedHashConsed` | oeuph/ccw_oeuph.c:85-126 | adding an e-node never puts one in the table twice |
| `EGraphs.EGraph.ClassCount` | oeuph/ccw_oeuph.c:138-146 | the number of classes; together with the invariant, e-nodes minus classes is the number of joining unions |
| `EGraphs.EGraph.Rebuild` | oeuph/ccw_oeuph.c:148-183 | terminates in a congruence-closed partition that contains the old one and lies in every congruence that does |
| `EGraphs.EGraph.RebuildPass` | oeuph/ccw_oeuph.c:155-182 | a pass that reports no change has changed nothing and found the partition closed |
| `EGraphs.ClosedIsFixed` | oeuph/ccw_oeuph.c:148-183 | rebuilding a closed partition is the identity |
| `Terms.AlgebraModels` | oeuph/ccw_oeuph.c:658-740 | equality of values in any algebra satisfying the rules is a model of the ruleset, for every register valuation |
| `Matching.Bindings.AddClass` | oeuph/ccw_oeuph.c:323-336 | binds a name once; a bound name must be bound to the same class |
| `Matching.Bindings.AddValue` | oeuph/ccw_oeuph.c:338-351 | binds a name once; a bound name must be bound to the same constant |
| `Matching.MatchNode` | oeuph/ccw_oeuph.c:353-395 | computes the first-commitment match and leaves the partition alone; terminates because pattern children lie above their parent |
| `Matching.MatchClass` | oeuph/ccw_oeuph.c:379-391 | the first e-node of the class that matches decides the bindings; failures are rolled back |
| `Matching.FirstMatchSound` | oeuph/ccw_oeuph.c:353-395 | whatever bindings the matcher returns make the e-node match, extend the old ones and name class representatives |
| `Matching.MatchDenotes` | oeuph/ccw_oeuph.c:353-395 | in every sound congruence a matched e-node equals the instance of the pattern |
| `Matching.UnnamedOperatorMisread` | oeuph/ccw_oeuph.c:373-376 | an unnamed operator without operands matches every register leaf, whose term differs from its instance |
| `Misreads.DenotesWhenNamed` | oeuph/ccw_oeuph.c:353-395 | where no two e-nodes share a class, a match denotes the instance if and only if every operator is named or has operands |
| `Misreads.MisreadExists` | oeuph/ccw_oeuph.c:373-376 | for every pattern that holds an unnamed operator without operands, an e-graph without identifications in which the matcher finds it and misreads it |
| `Misreads.DenotesExactly` | oeuph/ccw_oeuph.c:353-395 | matches denote instances in all sound congruences if and only if operators are named, or kinds are mixed |
| `Matching.Instantiate` | oeuph/ccw_oeuph.c:397-443 | computes the bottom-up instance on the old state, with what a failed one leaves behind; succeeds exactly when every variable is bound to the right kind; the result matches the pattern |
| `Matching.BuiltOld` | oeuph/ccw_oeuph.c:397-443 | an instance whose e-node was there before adds nothing |
| `Matching.FirstOfClass` | oeuph/ccw_oeuph.c:412-416 | the first e-node found in a class is its representative |
| `MatchCompleteness.CommittedMatchComplete` | oeuph/ccw_oeuph.c:353-395 | on every hash-consed e-graph, for committed patterns, the matcher succeeds if and only if some bindings match |
| `MatchMisses.UncommittedMissed` | oeuph/ccw_oeuph.c:373-394 | for every pattern that is not committed, a hash-consed e-graph and an e-node that matches but is rejected |
| `MatchMisses.NeverMissesExactly` | oeuph/ccw_oeuph.c:353-395 | the matcher finds every match on every hash-consed e-graph if and only if the pattern is committed, or mixes kinds and matches nothing |
| `MatchMisses.PatternNeverMissesExactly` | oeuph/ccw_oeuph.c:353-395 | the same for every table the pattern parser builds |
| `MatchCompleteness.FewNames` | oeuph/ccw_oeuph.c:323-351 | no pattern has more variables than the binding table holds |
| `MatchExamples.RepeatedVariableMissed` | oeuph/ccw_oeuph.c:377-393 | a concrete closed, hash-consed e-graph in which a matching e-node is rejected because of the first commitment |
| `MatchExamples.RepeatedButCommitted` | rewrite-salvo/cmp/constant-fold/rules.scm:30 | patterns like `(icmp-eq ?x ?x)` repeat a variable and are committed |
| `MatchExamples.TwinsFoundWhenClosed` | oeuph/ccw_oeuph.c:373-394 | `(f (g ?x) (g ?x))`, which is not committed, is never missed on closed e-graphs |
| `Soundness.RuleStepSound` | oeuph/ccw_oeuph.c:675-704 | joining a matched e-node with the instance of the other side is sound in every congruence licensing the rule |
| `Soundness.SideAdmits` | oeuph/ccw_oeuph.c:683-695 | a passed side condition is satisfied by a constant the matched side binds |
| `Saturation.ApplyAt` | oeuph/ccw_oeuph.c:676-704 | one attempt computes `Applied` on the old state; matches, applications and joining unions are counted exactly |
| `Sweeps.AppliedSound` | oeuph/ccw_oeuph.c:676-704 | one attempt is sound, before any rebuild, in every congruence that licenses the rule |
| `Sweeps.AppliedIdle` | oeuph/ccw_oeuph.c:676-704 | an attempt that joins nothing leaves the rule satisfied there, and leaves nothing behind if the rule uses only the variables it matches |
| `Saturation.SweepRules` | oeuph/ccw_oeuph.c:663-707 | a sweep over rules, directions and the e-nodes present when each starts computes `SweptRules` on the old state, and counts exactly; what it must conclude is stated by `SweepCompletes` and `SweepFollowsChain` |
| `SweepCompleteness.SweepCompletes` | oeuph/ccw_oeuph.c:663-707 | on a hash-consed e-graph, for every rule without side condition and each of its directions with a committed pattern and a covered other side, every e-node that some bindings match at the start is matched after the sweep under bindings for which its class holds the instance |
| `SweepCompleteness.SweepFollowsChain` | oeuph/ccw_oeuph.c:663-707 | one sweep follows a whole chain of such rules, each matching what the one before concludes |
| `SweepCompleteness.InstanceMatches` | oeuph/ccw_oeuph.c:353-395 | what matches a pattern with leaves for its variables matches the pattern |
| `SweepCompleteness.AttemptCounts` | oeuph/ccw_oeuph.c:678-681 | for committed patterns a match is counted exactly where some bindings match, and nothing is done elsewhere |
| `SweepCompleteness.SideDecides` | oeuph/ccw_oeuph.c:683-704 | with a side condition a match takes effect exactly if a constant it binds satisfies the condition, and is counted in any case |
| `Sweeps.SweepSound` | oeuph/ccw_oeuph.c:663-707 | a sweep is sound in every model of the ruleset |
| `Sweeps.SweepHashConsed` | oeuph/ccw_oeuph.c:663-707 | a sweep never puts an e-node in the table twice |
| `Sweeps.SweepIdle` | oeuph/ccw_oeuph.c:663-707 | after a sweep that joined nothing the rules are satisfied at every e-node it started from; nothing is left behind if rules use only the variables they match |
| `Sweeps.SweepIgnored` | oeuph/ccw_oeuph.c:663-707 | rules headed by other opcodes do nothing to leaves and e-nodes of one opcode |
| `Soundness.EntailedSound` | oeuph/ccw_oeuph.c:709 | what congruence closure adds is sound in every model |
| `Saturation.Saturate` | oeuph/ccw_oeuph.c:658-740 | the run is a trace of sweeps and closures that ends idle, over a budget or out of iterations; iterations, matches and joined classes are reported as the sums over its sweeps; the reason recorded follows from the last e-graph; joins are bounded by unions |
| `Saturation.TraceKeeps` | oeuph/ccw_oeuph.c:658-740 | a whole run keeps e-nodes, identifications, soundness, hash-consing and closure, whatever stops it |
| `Saturation.SaturatedMeans` | oeuph/ccw_oeuph.c:658-740 | what counting as saturated means: nothing was tried, or the rules are satisfied if and only if they are at the e-nodes the last sweep left behind |
| `SaturationExamples.SaturatedButUnsatisfied` | oeuph/ccw_oeuph.c:697-733 | two rules, an e-graph and the default budget for which the run counts as saturated with a rule unsatisfied |
| `SaturationExamples.BudgetBoundaries` | oeuph/ccw_oeuph.c:711-740 | budgets are inclusive: three e-nodes in three classes are within budgets of three and over budgets of two, and the reason is the first of nodes, classes and time |
| `SaturationExamples.NothingTriedButSaturated` | oeuph/ccw_oeuph.c:649-659 | without a positive iteration budget the same, with nothing tried |
| `FlatRules.AppliedLayered` | oeuph/ccw_oeuph.c:676-704 | a rule of operators over leaves keeps leaves and operators over leaves in separate classes |
| `FlatRules.TraceLayered` | oeuph/ccw_oeuph.c:658-740 | so does a whole run of such rules, congruence closure included |
| `Soundness.SameRootSameValue` | oeuph/ccw_oeuph.c:658-740 | in every algebra where the rules hold, e-nodes with the same root evaluate equally |
| `Extraction.NodeCost` | oeuph/ccw_oeuph.c:491-514 | every e-node costs something, leaves exactly one and operators more, under both cost models |
| `Extraction.PerformanceOrder` | oeuph/ccw_oeuph.c:491-514 | moves cost less than shifts, shifts than sums, sums than unknown opcodes, those than products and products than quotients; a shift and a sum together cost less than a product |
| `Extraction.CanonicalOrder` | oeuph/ccw_oeuph.c:491-514 | the canonical form prefers opcodes by their first letters |
| `Extraction.RepresentsDenotes` | oeuph/ccw_oeuph.c:516-558 | every term a class represents equals the term of its representative in every sound congruence |
| `Extraction.Extract` | oeuph/ccw_oeuph.c:516-558 | terminates; for every class the recorded cost is the minimum over all represented terms and the recorded e-node the lowest-numbered root of a cheapest one |
| `Extraction.UpdateFalls` | oeuph/ccw_oeuph.c:549-555 | every update lowers the number of unknown classes, or the total cost, or the total of chosen indices |
| `Extraction.CostKnown` | oeuph/ccw_oeuph.c:532-547 | because children precede parents, the first pass gives every class a cost |
| `Extraction.ChildrenCheaper` | oeuph/ccw_oeuph.c:516-558 | below a chosen e-node every class is strictly cheaper, even in a cyclic class graph |
| `Extraction.ExtractedIsCheapest` | oeuph/ccw_oeuph.c:516-558 | following the chosen e-nodes ends, in a cheapest term of the class |
| `PatternParser.Parser.AllocNode` | oeuph/ccw_oeuph_pattern.c:31-43 | entries are numbered in order and refused beyond 64 |
| `PatternParser.Parser.ParseAtom` | oeuph/ccw_oeuph_pattern.c:83-114 | variables, integers and bare opcodes are told apart; the table spells the atom |
| `PatternParser.Parser.ParseList` | oeuph/ccw_oeuph_pattern.c:116-177 | the entry of a list precedes those of its operands, at most four; the table spells the list |
| `PatternParser.ParsePattern` | oeuph/ccw_oeuph_pattern.c:191-235 | succeeds exactly when the source denotes a tree of at most 64 nodes, and then spells that tree with children above parents |
| `PatternParser.UnnamedOperatorParses` | oeuph/ccw_oeuph_pattern.c:116-177 | the source `("")` parses to an operator with neither name nor operands |
| `PatternParser.SampleSources` | oeuph/ccw_oeuph_pattern.c:60-177 | what `(imul ?x (iconst 8))`, `(f ?x -1)` and `(f (iconst ?c))` denote, and that a quoted operand is refused |
| `Numerals.DecimalScans` | sched/sched.c:837-850 | a 32-bit number printed in decimal is scanned back |
| `WeaveEdits.ApplyOwned` | ir/ccw_ir.c:331-520 | each call keeps unique ownership and never revives or re-kinds an id |
| `WeaveEdits.HistoryOwned` | ir/ccw_ir.c:198-1030 | after any sequence of calls every live block and attached instruction sits exactly once in exactly its parent, detached ones nowhere, and dead ids stay dead |
| `WeaveTable.AttachOwned` | ir/ccw_ir.c:509-520 | inserting a detached instruction anywhere in a block keeps ownership |
| `WeaveTable.ReplaceOwned` | ir/ccw_ir.c:971-993 | replacing in position detaches the old and attaches the new instruction |
| `WeaveTable.DetachOwned` | ir/ccw_ir.c:1014-1030 | deleting leaves the instruction in no block |
| `WeaveIr.Module.FunctionAdd` | ir/ccw_ir.c:331-343 | the new state is the transition function's; the id is fresh |
| `WeaveIr.Module.BlockAdd` | ir/ccw_ir.c:364-378 | appends a block to a function, or returns 0 and changes nothing |
| `WeaveIr.Module.InstrBuild` | ir/ccw_ir.c:380-392 | a detached instruction with a fresh id |
| `WeaveIr.Module.InstrSetDest` | ir/ccw_ir.c:470-482 | sets the destination of an instruction or refuses |
| `WeaveIr.Module.InstrAddOperand` | ir/ccw_ir.c:484-493 | appends an operand node or refuses |
| `WeaveIr.Module.InstrSetOperand` | ir/ccw_ir.c:495-507 | replaces an operand in range or refuses |
| `WeaveIr.Module.BlockAppendInstr` | ir/ccw_ir.c:509-520 | accepts exactly detached instructions and puts them last |
| `WeaveIr.Module.OperandNew` | ir/ccw_ir.c:522-563 | a fresh operand node of the given kind |
| `WeaveIr.Module.InstrReplace` | ir/ccw_ir.c:971-993 | the new instruction takes the exact position of the old one, and its destination when it has none |
| `WeaveTable.ReplaceMeans` | ir/ccw_ir.c:971-993 | position, block, destination and everything else after a replacement, field by field |
| `WeaveIr.Module.InstrInsertBefore` | ir/ccw_ir.c:995-1012 | inserts immediately before the anchor, all else in order |
| `WeaveTable.InsertMeans` | ir/ccw_ir.c:995-1012 | the new instruction stands immediately before the anchor, every other one where it was in the order |
| `WeaveIr.Module.InstrDelete` | ir/ccw_ir.c:1014-1030 | removes exactly that position and detaches the instruction |
| `WeaveTable.DeleteMeans` | ir/ccw_ir.c:1014-1030 | the instruction is in the block no more, every other one where it was in the order |
| `WeaveIr.Module.BlockTarget` | ir/ccw_ir.c:673-687 | the first live block of the function with the name |
| `WeaveIr.Module.BlockSuccessors` | ir/ccw_ir.c:689-733 | the first distinct targets, as far as the buffer holds them, and a count that notices repetitions only of those |
| `WeaveCfg.CountedExactly` | ir/ccw_ir.c:689-739 | with room for all distinct targets these are listed and counted; without a buffer every entry is counted |
| `WeaveCfg.NoRepeatsExactly` | ir/ccw_ir.c:735-739 | the entries are as many as the distinct targets if and only if none is repeated |
| `WeaveExamples.SuccessorCountedTwice` | ir/ccw_ir.c:735-739 | a block with one successor for which two are counted |
| `WeaveIr.Module.SuccessorRef` | ir/ccw_ir.c:741-754 | enumerates the distinct successors, 0 beyond them, even though the count may be larger |
| `WeaveIr.Module.PredecessorCount` | ir/ccw_ir.c:756-774 | the number of blocks that have this one among their successors, also when a terminator repeats a target |
| `WeaveIr.Module.PredecessorRef` | ir/ccw_ir.c:776-797 | enumerates exactly the predecessor list, 0 beyond it |
| `WeaveIr.Module.BlockDelete` | ir/ccw_ir.c:799-825 | succeeds exactly for blocks without predecessors; the block and its instructions die, all else stays |
| `WeaveIr.Module.BlockMerge` | ir/ccw_ir.c:827-860 | succeeds exactly when the second is the only target of the first and the first its only predecessor; a refusal changes nothing |
| `WeaveIr.Module.MoveOwnInstrs` | ir/ccw_ir.c:848-854 | the copying loop of a self-merge, for any number of turns, makes the vector `PushLoop` of the old one |
| `WeaveEdits.PushLoopGrows` | ir/ccw_ir.c:848-854 | after n turns the vector is n entries longer and repeats its start over and over |
| `WeaveEdits.SelfMergeNeverEnds` | ir/ccw_ir.c:827-854 | the guard of that loop holds after every number of turns if and only if the block held more than its jump |
| `WeaveExamples.SelfMergeExample` | ir/ccw_ir.c:827-854 | an owned module in which a merge passes every test and never ends |
| `WeaveCfg.CfgDuality` | ir/ccw_ir.c:689-797 | a block precedes another exactly when the other succeeds it; neither list repeats; edges stay within a function |
| `WeaveCfg.FilterInOrder` | ir/ccw_ir.c:776-797 | the predecessors listed are exactly the blocks of the function that lead there, in layout order |
| `WeaveRuns.DeleteKeepsRuns` | ir/ccw_ir.c:799-825 | deleting an unreferenced block changes no run that starts elsewhere |
| `WeaveRuns.MergedBlock` | ir/ccw_ir.c:827-860 | after a clean splice the merged block executes both bodies in order and goes where the second went |
| `WeaveRuns.MergeKeepsRuns` | ir/ccw_ir.c:827-860 | for every branch oracle and length, a cleanly spliced merge executes the same non-jump instructions and ends at the same place |
| `WeaveRuns.MergeKeepsRunsExactly` | ir/ccw_ir.c:839-853 | runs are kept if and only if the second block is non-empty or no earlier jump is uncovered |
| `WeaveRuns.MergeKeepsEntry` | ir/ccw_ir.c:854-857 | the entry block is kept if and only if the removed block is not the entry |
| `WeaveRuns.MergeKeepsFunction` | ir/ccw_ir.c:827-860 | from the entry, every run of the function is preserved by a clean splice whose second block is not the entry |
| `WeaveExamples.CleanMerge` | ir/ccw_ir.c:827-860 | a module in which a merge is accepted and keeps every run |
| `WeaveExamples.JumpUncovered` | ir/ccw_ir.c:839-853 | a module in which an accepted merge makes a block jump where it never jumped before |
| `WeaveExamples.EntryRemoved` | ir/ccw_ir.c:854-857 | a module in which an accepted merge changes the entry block |
| `OeuphBridge.ImportInstr` | oeuph/ccw_oeuph.c:450-487 | refuses exactly more than four operands; otherwise one e-node over the leaves of its operands in a discrete, closed, hash-consed e-graph, with the term stated for every instruction |
| `OeuphBridge.ImportExactly` | oeuph/ccw_oeuph.c:450-487 | over registers and integers that term is the one of the instruction if and only if it is clean |
| `OeuphBridge.OwnNode` | oeuph/ccw_oeuph.c:567-619 | comparing an instruction with its own e-node succeeds exactly for `KeptAsIs`, and what is written otherwise is the instruction with its names cut |
| `OeuphExamples.LongNamesCollide` | oeuph/ccw_oeuph.c:461-465 | registers that agree on 31 characters become one leaf, and different instructions one term |
| `OeuphExamples.FloatConstantLost` | oeuph/ccw_oeuph.c:457-466 | a nameless operand is rewritten into register "", with another value on some machine |
| `OeuphExamples.LongNameCut` | oeuph/ccw_oeuph.c:457-466 | a register name beyond the buffer is rewritten into its prefix, with another value on some machine |
| `OeuphExamples.FunctionTakenForRegister` | oeuph/ccw_oeuph.c:457-466 | a function name and the register of that name are one term, with different values on some machine |
| `OeuphBridge.WritebackFaithful` | oeuph/ccw_oeuph.c:604-616 | the written instruction denotes the chosen e-node if and only if its children are leaves |
| `OeuphExamples.NestedOperatorDropped` | oeuph/ccw_oeuph.c:604-616 | written back, f(g(x)) becomes (f ""), another term |
| `Writeback.WritebackInstr` | oeuph/ccw_oeuph.c:568-619 | writes nothing for leaves or when nothing differs; otherwise only the one instruction changes, position and destination kept |
| `OeuphInstr.Choose` | oeuph/ccw_oeuph.c:655-753 | the run of the saturation loop is carried to its end, reported, and the chosen e-node is the lowest root of a cheapest term of the class of the imported instruction in its last e-graph |
| `OeuphInstr.OptimizeInstr` | oeuph/ccw_oeuph.c:640-766 | import refuses exactly more than four operands; otherwise the outcome names a complete run of the saturation loop and a cheapest e-node of its last e-graph, the instruction is rewritten exactly when that is an operator saying something else, and the report grows by the run |
| `OeuphInstr.ExplainedJustified` | oeuph/ccw_oeuph.c:655-740 | the last e-graph of every outcome is sound in every model, closed and hash-consed, and its root still denotes what import made of the instruction |
| `OeuphInstr.QuietOutcome` | oeuph/ccw_oeuph.c:655-756 | when nothing is tried or no pattern is headed by the opcode, the e-graph stays, the instruction itself is chosen, and it is rewritten if and only if not `KeptAsIs`, then into itself with its names cut |
| `OeuphInstr.FlatOutcome` | oeuph/ccw_oeuph.c:655-756 | under flat rules a rewrite of a clean instruction is faithful and leaves a clean one |
| `Progress.SpelledMatches` | oeuph/ccw_oeuph.c:353-487 | a pattern that spells an instruction has a match at its e-node |
| `Progress.RunCompletes` | oeuph/ccw_oeuph.c:658-740 | with a positive iteration budget, where a rule has a match before the run both of its sides hold after it, whatever stops it |
| `Progress.ChosenAffordable` | oeuph/ccw_oeuph.c:655-753 | if a rule applies to an instruction, its class comes to hold the instance of the other side, and what is chosen costs no more than that instance |
| `Progress.OpcodeIsReplaced` | oeuph/ccw_oeuph.c:655-756 | whatever the ruleset: if that instance costs less than the opcode of the instruction, it is rewritten under another opcode, unless a leaf was chosen |
| `Progress.ImprovableIsImproved` | oeuph/ccw_oeuph.c:655-756 | under flat rules that name their opcodes, a clean instruction of which a chain of rules makes something cheaper is rewritten, to the same meaning, into an instruction that costs no more than that |
| `ProgressExamples.Times8IsReduced` | rewrite-salvo/arith/strength-reduction/rules.scm:16-18 | in any ruleset with `mul-8-shl-3` and with any positive budget, `imul r, 8` is rewritten under another opcode at a cost of at most 6, unless a leaf was chosen |
| `ProgressExamples.DoubledIsShifted` | oeuph/ccw_oeuph.c:663-707 | one iteration is enough for `(imul ?x (iconst 2)) -> (shl ?x (iconst 1))` to build on what `(f ?x) -> (imul ?x (iconst 2))` concludes |
| `OeuphInstr.FaithfulPreserves` | oeuph/ccw_oeuph.c:742-756 | a rewrite of a clean instruction onto an e-node over leaves is equal in every model of the rules |
| `OeuphRun.FaithfulBlockPreserved` | oeuph/ccw_oeuph.c:621-768 | a block all of whose rewrites were faithful keeps its meaning, whatever was done to others |
| `OeuphRun.Run` | oeuph/ccw_oeuph.c:621-768 | the log has exactly one entry for every instruction of every block of every function, in layout order, with what it said at the start and the complete saturation run that decided about it; afterwards the instruction says what that outcome makes of it; e-nodes, classes, iterations, matches and applications are the sums over the entries, saturated and the reason follow from them; lengths, positions and destinations stay; flat rules and clean instructions make all rewrites faithful |
| `OeuphRun.TallySumsUp` | oeuph/ccw_oeuph.c:621-768 | the report kept step by step is those sums, and every run was told the iterations before it |
| `OeuphRun.FlatRunFaithful` | oeuph/ccw_oeuph.c:621-768 | under flat rules every rewrite in a clean module is faithful |
| `OeuphRun.RunPreservesExecution` | oeuph/ccw_oeuph.c:621-768 | on every machine in which the rules hold, a block that kept its meaning takes every register state to the same final state |
| `SchedOrder.PlanOrderRespects` | sched/sched.c:1163-1193 | the selection order lists no node twice and none before a predecessor, and stops only when none is ready |
| `SchedOrder.CompleteIffAcyclic` | sched/sched.c:660-687 | all nodes are ordered if and only if no closed walk of edges exists; a stuck state yields one by pigeonhole |
| `SchedOrder.PlanOrderIsLeast` | sched/sched.c:1163-1193 | the order executed is the lexicographically least topological order |
| `SchedExec.PendingAfter` | sched/sched.c:681-683 | an in-degree counter always equals the number of edges from unremoved nodes |
| `SchedExec.DistinctEdgesAreFew` | sched/sched.c:345-366 | without repeated edges no in-degree exceeds the number of nodes |
| `SchedExec.Acyclic` | sched/sched.c:660-687 | answers whether no cycle exists, removing nodes in exactly the order the executors use |
| `SchedExec.SelectNext` | sched/sched.c:1163-1180 | the lowest node that is not done and has no unfinished predecessor, if any |
| `SchedExec.Execute` | sched/sched.c:1163-1295 | a completed execution has performed, in plan order, one block of actions for every node: a rewrite node runs its rulesets one by one, a kernel node loads its kernel and applies it to its members; the blocks tile the log; a cycle is reported exactly when one exists; otherwise the log stops at the first action that fails |
| `SchedExec.BlocksInOrder` | sched/sched.c:1163-1295 | every node has exactly one block, which starts after the blocks of all its predecessors have ended |
| `SchedBuilder.WildcardConcat` | sched/sched.c:325-335 | a concatenated pattern matches exactly the texts that split into a match of each part |
| `SchedBuilder.WildcardStar` | sched/sched.c:325-335 | a star matches every text |
| `SchedBuilder.WildcardLiteral` | sched/sched.c:325-335 | a pattern without stars matches only itself |
| `SchedBuilder.Sched.AddEdgeRaw` | sched/sched.c:345-366 | adds an edge at most once |
| `SchedBuilder.Sched.AddNode` | sched/sched.c:367-402 | appends a node with the next id, fenced behind all earlier barriers; refuses when sealed or unclean |
| `SchedBuilder.Sched.RequireKernel` | sched/sched.c:504-531 | appends the first kernel with the name and its capabilities; refused exactly when sealed, unclean or absent |
| `SchedBuilder.Sched.RequireCapability` | sched/sched.c:532-584 | resolves to a provider with the preferred name, or without a preference to the only provider; else refuses |
| `SchedBuilder.Sched.RewriteAll` | sched/sched.c:592-626 | the members are the matching rulesets in manifest order; refused exactly when there is none, sealed or unclean |
| `SchedBuilder.MatchingRulesInOrder` | sched/sched.c:592-626 | the members are exactly the rulesets of the manifest that match, each where it stands and in order |
| `SchedBuilder.Sched.AddEdge` | sched/sched.c:627-641 | accepts exactly existing ids in an unsealed plan |
| `SchedBuilder.Sched.AddBarrier` | sched/sched.c:642-659 | appends a node with an edge from every lower id, and keeps the plan invariant |
| `SchedBuilder.FromBarriersAdds` | sched/sched.c:391-398 | exactly the edges from earlier barriers are added, none twice |
| `SchedBuilder.FromAllBelowAdds` | sched/sched.c:650-657 | exactly the edges from all lower ids are added, none twice |
| `SchedBuilder.BarrierSeparates` | sched/sched.c:642-659 | in every topological order all lower ids run before a barrier and all higher ids after it |
| `SchedBuilder.NoEdgeBackAcross` | sched/sched.c:642-703 | a plan without cycles has no edge leading backwards across a barrier |
| `SchedBuilder.Sched.Seal` | sched/sched.c:688-734 | succeeds exactly once, for plans with work and without cycles, and returns the printed text |
| `SchedBuilder.PrintPlan` | sched/sched.c:704-718 | header, name, one line per node with its members, one line per edge |
| `SchedBuilder.SealedPlanRuns` | sched/sched.c:688-1302 | a sealed plan of single-word scalars is read back unchanged and run in a topological order that barriers separate |
| `PlanText.Words` | sched/sched.c:819-825 | cuts a line into its maximal runs of non-spaces |
| `PlanText.ParsePlanText` | sched/sched.c:797-982 | computes the plan a text denotes or refuses it, record by record |
| `PlanText.TokensRoundTrip` | sched/sched.c:704-982 | printed plans of space-free scalars parse to the same nodes and edges |
| `PlanText.RoundTripExactly` | sched/sched.c:121-982 | a well-formed plan reads back unchanged if and only if its name is one word and its names and members hold no spaces |
| `PlanExamples.SmallPlanOnPaper` | sched/sched.c:704-718 | the printed lines of a plan with a kernel, a rewrite node and a barrier, letter by letter |
| `PlanExamples.SmallPlanReadBack` | sched/sched.c:797-982 | that text is read back as the plan |
| `PlanExamples.SpacedNameReadAsMember` | sched/sched.c:121-982 | a kernel whose name holds a space is read back as another kernel with a capability |
| `PlanExamples.SpacedPlanNameRefused` | sched/sched.c:121-982 | a plan whose name is not one word is refused |
| `PlanText.ParsedIsExecutable` | sched/sched.c:955-970 | whatever the parser accepts has ids in order and edges within range |
| `PlanText.ApplyPlan` | sched/sched.c:1105-1453 | refuses exactly unparsable texts without doing anything, else executes the parsed plan, node by node as stated for `Execute` |
| `PlanHashing.PadInjective` | sched/sched.c:1536-1549 | no two messages pad to the same blocks |
| `PlanHashing.PadSplit` | sched/sched.c:1533-1550 | the padded message is the full blocks followed by one tail block, or two when at least 56 bytes are left |
| `PlanHashing.ExpandBlock` | sched/sched.c:1480-1490 | fills the array with the recursive message schedule of section 6.2.2 |
| `PlanHashing.NextWordIsTheStandards` | sched/sched.c:1486-1490 | on 32-bit words the schedule sum, written in the reverse order, is that of section 6.2.2 |
| `PlanHashing.RunRounds` | sched/sched.c:1499-1513 | the in-place moves are the 64 rounds of section 6.2.2, whose values on two published messages are followed in `DigestOfEmpty` and `DigestOfAbc` |
| `PlanHashing.HashBlock` | sched/sched.c:1462-1522 | the state becomes the intermediate hash value after the block |
| `PlanHashing.CompressAllConcat` | sched/sched.c:1533-1535 | hashing blocks one by one is hashing their concatenation |
| `PlanHashing.HashTail` | sched/sched.c:1536-1550 | what is left, the 1 bit, zeros and the 64-bit length are hashed as the end of the padded message |
| `PlanHashing.PlanHash` | sched/sched.c:1523-1554 | the digest of every text is its SHA-256 in 64 hexadecimal digits |
| `DigestOfEmpty.PublishedDigest` | sched/sched.c:1462-1554 | the digest of the empty text is e3b0c442...7852b855, through 48 schedule words and 64 rounds on literal words |
| `DigestOfAbc.PublishedDigest` | sched/sched.c:1462-1554 | the digest of "abc" is ba7816bf...f20015ad, likewise |
| `DigestSteps.EightRounds` | sched/sched.c:1499-1513 | eight rounds from given working variables, constants and schedule words end in given ones |
| `DigestSteps.EightWords` | sched/sched.c:1486-1490 | sixteen schedule words determine the next eight |
| `TierUp.Frame.constructor` | interpreters/sml-parthia/src/parthia_eval.c:145-154 | an empty frame in front of its parent's chain |
| `TierUp.Frame.Bind` | interpreters/sml-parthia/src/parthia_eval.c:156-166 | the newest binding comes first |
| `TierUp.Frame.Lookup` | interpreters/sml-parthia/src/parthia_eval.c:168-179 | the newest binding of the innermost frame that has the name |
| `TierUp.LookupPath` | interpreters/sml-parthia/src/parthia_eval.c:181-196 | every further name is looked up in the structure the previous one denotes |
| `TierUp.FlatHolds` | interpreters/sml-parthia/src/parthia_eval.c:683-686 | the flat frame holds the innermost captured binding of exactly the names the root does not bind |
| `TierUp.UnchangedNow` | interpreters/sml-parthia/src/parthia_eval.c:668-690 | all names mean what they meant if and only if the root agrees with every captured name it binds |
| `TierUp.UnchangedForever` | interpreters/sml-parthia/src/parthia_eval.c:664-690 | all names keep their meaning through every later extension of the root if and only if no captured name was bound there |
| `TierUp.ShadowingBindingLost` | interpreters/sml-parthia/src/parthia_eval.c:685 | a captured binding that shadows a root binding is replaced by it |
| `TierUp.CapturedFrozen` | interpreters/sml-parthia/src/parthia_eval.c:668-690 | a binding a captured frame gains after tier-up is seen through the chain but not by the closure |
| `TierUp.FlattenInto` | interpreters/sml-parthia/src/parthia_eval.c:680-686 | the loops over frames and bindings build that flat frame above the root, changing no existing frame |
| `TierUp.SpecialiseClosure` | interpreters/sml-parthia/src/parthia_eval.c:668-690 | closures of the root are left alone; others get the flat frame, are marked hot and counted |
| `TierUp.SpecialisedIsFaithful` | interpreters/sml-parthia/src/parthia_eval.c:668-690 | with no captured name bound in the root, the flat frame stands for all captured frames |
| `TierUp.FaithfulLookup` | interpreters/sml-parthia/src/parthia_eval.c:168-179 | a faithful closure looks up every name as in its home environment, whatever the root has come to hold |
| `TierUp.FaithfulPath` | interpreters/sml-parthia/src/parthia_eval.c:181-196 | the same for long names |
| `TierUp.Define` | interpreters/sml-parthia/src/parthia_eval.c:156-166 | defining a global leaves closures faithful |
| `TierUp.CountCall` | interpreters/sml-parthia/src/parthia_eval.c:696-704 | a closure above the root becomes hot at its 64th call and not before; below that, and after, its environment stays |

## Left out

- Allocation failure and raw buffer growth: every growable buffer is a sequence, and out-of-memory exits are not modelled.
- MatchMisses.NeverMissesExactly: stated for hash-consed e-graphs, as all runs build them (`Sweeps.SweepHashConsed`); where the matcher runs on a closed one fewer patterns are missed, and the exact condition for those is not given.
- SweepCompleteness.SweepCompletes: for directions without a side condition, as the rule loader builds them; what one attempt does with a side condition is `SideDecides`. Patterns that are not committed can be missed (`UncommittedMissed`).
- Progress.ImprovableIsImproved: for flat rules; under others the chosen e-node can be a leaf, which the program does not write, or have operators below it (`WritebackFaithful`); what holds then is `OpcodeIsReplaced`.
- Wall-clock time and the seed: the time budget is a function `late` of the iteration; the seed is read nowhere.
- Extraction.Extract: costs are unbounded; the `INT32_MAX` sentinel is `None`, and overflow of the 32-bit sum is not modelled.
- OeuphRun.Run: value types and attributes of instructions play no part in the meaning of a block; writeback rebuilds constants as 64-bit integers and drops attributes.
- OeuphRun.RunPreservesExecution: blocks are straight-line assignments; that the e-graph is built per instruction is modelled, branching between blocks is the subject of WeaveRuns.
- WeaveIr.Module.BlockMerge: requires that the call is not the self-merge that never returns, which has no result to state; its loop is `MoveOwnInstrs`.
- Function parameters, floating-point operands, system-call helpers and attribute maps of the IR: plain field accesses.
- SchedExec.Acyclic: requires fewer than 2^32 - 1 edges into each node, because the in-degree counters are 32 bits wide and use the largest value as a mark.
- SchedBuilder.Sched.Seal: requires fewer than 2^32 - 1 nodes, whose ids are 32 bits wide; without repeated edges that bounds every in-degree.
- SchedBuilder.Sched.constructor: takes a clean plan name, since the original constructor returns nothing otherwise.
- SchedBuilder.SealedPlanRuns: plans of fewer than 2^32 nodes, the range of the printed ids.
- SchedExec.Execute: loading and running rulesets and kernels are abstract actions that succeed or fail depending on those before; the file lookups around them are not modelled.
- SchedBuilder.Sched.RequireCapability: manifests are given to the constructor as lists; reading `Kernel.yaml` and `Stdrewrite.yaml` is not modelled, and neither is `ccw_plan_check`.
- Numerals.DecimalScans: numbers above 64 bits in a plan text, where `sscanf` is undefined, are taken modulo 2^32.
- PlanHashing.PlanHash: the text is a sequence of bytes; that the characters of a plan text are bytes is not spelled out.
- PlanHashing.ExpandBlock: the round constants and initial values are the tables of the code; that they are digits of roots of primes is not proved.
- TierUp.CountCall: matching the argument and evaluating the body of the closure are not modelled; only the environment they would use.
- S-expression reading, the IR text parser, code generation, the other interpreters, the linker driver and the profile loaders are not part of this model.
