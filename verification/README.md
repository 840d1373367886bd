# A verified model of the CPython 3.11 control-flow kernel

This project models the part of decompyle3 that turns a CPython 3.11 instruction stream into a
control-flow graph, analyses it, follows the operand stack through it, rebuilds conditions from
it, and proves that some regions of it terminate locally. It states what these algorithms
promise and proves it with Dafny.

| file | what it models |
|---|---|
| `options.dfy`, `sorting.dfy`, `opcodes.dfy`, `graphs.dfy` | optional values, finite sets and sorting, instruction kinds, directed graphs and the theory of walks |
| `exception_table.dfy` | the varint exception table: decoder, validation, specification encoder, round trip, truncation |
| `cache_layout.dfy` | the scanner's inline-cache check, the normalizer's cache owners, index maps and jump targets |
| `cfg.dfy` | leaders, basic blocks, typed edges, reachability; the block graph refines the instruction graph |
| `fixed_points.dfy`, `immediate.dfy` | dominator and post-dominator sets by chaotic iteration; immediate dominators and the dominator tree |
| `natural_loops.dfy`, `strong_components.dfy`, `control_flow_analysis.dfy` | natural loops, the two-pass component search, the multi-entry rejection, and their theorems |
| `stack_analysis.dfy` | the stack-depth worklist against reachable (offset, depth) configurations |
| `normalizer.dfy`, `nested_calls.dfy` | stack shapes, call validation, the symbolic stack, call metadata of nested calls |
| `decisions.dfy`, `condition_assembler.dfy` | Boolean expressions with an effectful evaluator, the factoring rules, the iterative assembler |
| `terminal_intervals.dfy`, `implicit_returns.dfy`, `loop_frontiers.dfy` | three fail-closed region proofs and what their acceptance means for runs |
| `epilogue_plans.dfy`, `frontier_sinks.dfy` | when an implicit-return plan or a loop frontier is due, in terms of tokens, edges and runs |
| `crowded_interval.dfy` | a built graph on which the terminal-interval work limit is reached |
| `unpack_targets.dfy` | the nested unpack-target parser against a specification encoder and a machine that runs the tokens |

Algorithms that change state in the source are methods with loops here (worklists, explicit
stacks, in-place maps, a shared byte iterator, block flags, normalizer fields); expression
builders and table lookups are functions.

Points where the code says something other than a reader may expect:

- The multi-entry rejection (`_ensure_reducible`) looks only at classes of mutual reachability in
  the whole reachable graph. `EnteredOnce` is therefore not full reducibility: it says that the
  edges which enter the class of a block on a cycle have one target, and cycles nested in such a
  class are not examined.
- A node from which no walk reaches an exit keeps the full post-dominator set, and `_immediate`
  may then answer with several candidates. `ImmediateDetermined` gives the exact condition under which
  the answer does not depend on set iteration order, and `UndeterminedExists` a graph where it does.
- Blocks may straddle an exception region whose end is not an instruction offset. `RegionsAlign`
  gives the exact condition under which a nonempty region is a union of blocks, and
  `StraddlingExists` a region that is not.
- An unconditional jump without a target is rejected only where it ends a block; `BuildCfg` states
  that condition (`EndsTargeted`), and the refinement theorem assumes targets for all of them.
- The handler depth comes from the exception table alone and is not compared with the depth at
  the raising instruction, so an exception step sets the depth.
- Three of the region walks have work limits. On graphs that the block splitter builds, the limit
  of the implicit-return walk is never reached; the limit of the loop-frontier walk is never reached
  on any graph; the limit of the terminal-interval walk can be, as `CrowdedRejected` shows, and the
  contract says exactly when.
- The assembler's work limit is never reached.
- Validation of decoded exception regions can fail only for empty or out-of-range regions: the
  format cannot express an odd offset or a negative depth.

Inputs that come from outside are parameters: the xdis stack-effect table (`TableEffect`), the opcode
name table, the set of known instruction names, and how predicates and comparisons run (`Env`).

## Model

| member | source | states |
|---|---|---|
| ExceptionTables.ByteIterator.Next | decompyle3/controlflow/exceptiontable311.py:51-62 | yields the next byte of the shared stream and moves past exactly that byte |
| ExceptionTables.ByteIterator.ParseVarint | decompyle3/controlflow/exceptiontable311.py:29-45 | fails exactly when the data ends inside the varint; otherwise returns its value and leaves the stream right after it |
| ExceptionTables.ByteIterator.ParseEntry | decompyle3/controlflow/exceptiontable311.py:62-76 | fails exactly when the data ends inside the entry; otherwise returns its region and leaves the stream right after it |
| ExceptionTables.DecodeBytes | decompyle3/controlflow/exceptiontable311.py:48-77 | decodes all entries, or reports truncation |
| ExceptionTables.ValidateRegions | decompyle3/controlflow/exceptiontable311.py:80-102 | accepts exactly the lists of valid regions, unchanged; otherwise reports the first invalid one |
| ExceptionTables.DecodeTable | decompyle3/controlflow/exceptiontable311.py:105-126 | decoding and validation together: acceptance, result and truncation are characterised exactly, and only empty or out-of-range regions are rejected after decoding |
| ExceptionTables.EntryBytes | decompyle3/controlflow/exceptiontable311.py:29-76 | four numbers, each of payload digits to base 64 with bit 6 set on all but the last byte, parse to the region they spell: start, length and target doubled, depth and lasti split |
| ExceptionTables.NumberTruncated | decompyle3/controlflow/exceptiontable311.py:29-45 | a number is truncated exactly when no byte ends it |
| ExceptionTables.VarintRoundTrip | decompyle3/controlflow/exceptiontable311.py:29-45 | the 6-bit continuation code of any number, followed by anything, parses to that number and leaves the rest |
| ExceptionTables.EntryRoundTrip | decompyle3/controlflow/exceptiontable311.py:62-76 | so does a whole entry, with its start marker |
| ExceptionTables.TableRoundTrip | decompyle3/controlflow/exceptiontable311.py:48-77 | decoding the encoding of any list of even-offset regions returns that list |
| ExceptionTables.VarintCut | decompyle3/controlflow/exceptiontable311.py:29-45 | varints delimit themselves: cutting bytes after one changes nothing, cutting inside one is reported |
| ExceptionTables.EntryCut | decompyle3/controlflow/exceptiontable311.py:62-76 | entries delimit themselves in the same way |
| ExceptionTables.TruncationDetected | decompyle3/controlflow/exceptiontable311.py:48-77 | decodable data cut short decodes if and only if the cut lies between two entries, and then to the entries before it |
| ExceptionTables.DecodedEncodable | decompyle3/controlflow/exceptiontable311.py:29-77 | everything that decodes is expressible: even offsets, nonnegative length and depth |
| CacheLayouts.ScanOpcodes | decompyle3/scanners/scanner311.py:107-124 | accepts when every code unit has an assigned opcode, otherwise names the first that has none |
| CacheLayouts.ScanCaches | decompyle3/scanners/scanner311.py:126-153 | walks the code unit by unit: accepts well laid out code, otherwise reports an ownerless or missing cache after a well laid out prefix |
| CacheLayouts.ScanRun | decompyle3/scanners/scanner311.py:139-152 | the caches of one instruction are all present, or the first missing one is reported |
| CacheLayouts.ValidateBytecode | decompyle3/scanners/scanner311.py:90-153 | accepts exactly the even-length code whose opcodes are known and in which every instruction is followed by exactly its inline caches; each rejection says what it means |
| CacheLayouts.CacheLayout | decompyle3/scanners/normalize311.py:370-387 | fails exactly when the stream starts with a cache; otherwise every instruction lists the caches up to the next instruction, and every cache names its owner |
| CacheLayouts.AcceptedLayout | decompyle3/scanners/scanner311.py:126-153 | for a decoded stream: well laid out if and only if no cache lacks an owner and every instruction owns exactly its tabulated number of caches |
| CacheLayouts.IndexMaps.Fill | decompyle3/scanners/normalize311.py:290-300 | fills the three index maps of the stream: instructions first, then caches through their owners |
| CacheLayouts.FindSemantic | decompyle3/scanners/normalize311.py:276-288 | lists exactly the instructions that are not caches, or reports the first unknown one |
| CacheLayouts.ResolveJumps | decompyle3/scanners/normalize311.py:302-346 | each jump gets the logical index of the instruction at its target offset; otherwise the first jump to a missing offset or into a cache is reported |
| CacheLayouts.IndexMaps.Normalize | decompyle3/scanners/normalize311.py:260-346 | succeeds exactly when the stream starts with an owner and every instruction is known and lands on an instruction; the maps, targets and cache lists are then right, and each error is the first in order |
| CacheLayouts.MapsInverse | decompyle3/scanners/normalize311.py:290-296 | logical and physical indices of instructions are inverse maps and increasing |
| CacheLayouts.CacheMapsToNearestOwner | decompyle3/scanners/normalize311.py:297-300 | a cache has the logical index of the last instruction before it |
| ControlFlowGraphs.RegionLeaders | decompyle3/controlflow/cfg.py:149-162 | region starts, targets and instruction ends are leaders; fails exactly on a region that references a missing offset |
| ControlFlowGraphs.CollectLeaders | decompyle3/controlflow/cfg.py:149-176 | the leaders are exactly the entry, the region bounds, the jump targets and the successors of transfers; fails exactly when some referenced offset is missing |
| ControlFlowGraphs.FindCuts | decompyle3/controlflow/cfg.py:178 | cuts the code exactly at its leaders, in order |
| ControlFlowGraphs.SplitBlocks | decompyle3/controlflow/cfg.py:179-201 | fresh, numbered blocks tile the code and every offset is located in its block |
| ControlFlowGraphs.BlockEdges | decompyle3/controlflow/cfg.py:203-228 | exactly the typed normal edges of the last instruction; fails exactly on a jump without target |
| ControlFlowGraphs.ExceptionEdges | decompyle3/controlflow/cfg.py:230-234 | an exception edge from every block that starts in a region to its handler, and no other |
| ControlFlowGraphs.MarkReachable | decompyle3/controlflow/cfg.py:124-136 | sets the flag of exactly the blocks that a walk from the entry reaches, and changes no other flag |
| ControlFlowGraphs.BuildCfg | decompyle3/controlflow/cfg.py:139-243 | succeeds exactly when every reference resolves and every jump that ends a block has a target; the graph then has exactly the blocks, edges and flags of the code, and each error is justified |
| ControlFlowGraphs.BuiltWellFormed | decompyle3/controlflow/cfg.py:139-243 | a built graph is well formed, which the region proofs assume |
| ControlFlowGraphs.EventsExact | decompyle3/controlflow/cfg.py:108-121 | for every instruction kind the labels spell what happens: which outcome (a truth value, None or not, an exhausted iterator or an item, a returned or yielding generator) jumps and which goes on |
| ControlFlowGraphs.LabelsMean | decompyle3/controlflow/cfg.py:203-228 | in a built graph an edge with a label leads to a block if and only if the last instruction can have that outcome and control then goes on at that block |
| ControlFlowGraphs.LabelsDiffer | decompyle3/controlflow/cfg.py:203-228 | two normal edges of a block have different labels |
| ControlFlowGraphs.EventHasEdge | decompyle3/controlflow/cfg.py:203-228 | every outcome after which control goes on inside the code has its edge |
| ControlFlowGraphs.SameBlockExact | decompyle3/controlflow/cfg.py:149-201 | blocks are maximal: neighbouring instructions share a block exactly unless the first can jump or ends the flow, or the second is a jump target or a region bound or handler |
| ControlFlowGraphs.OnlyLastTransfers | decompyle3/controlflow/cfg.py:163-176 | only the last instruction of a block can jump or terminate |
| ControlFlowGraphs.BlockRuns | decompyle3/controlflow/cfg.py:178-201 | control runs straight from the start of a block to each of its instructions |
| ControlFlowGraphs.EdgeFlows | decompyle3/controlflow/cfg.py:203-234 | every block edge is matched by instruction flow between block starts |
| ControlFlowGraphs.FlowEdges | decompyle3/controlflow/cfg.py:203-234 | every fall-through, jump or raise stays in its block or follows a block edge |
| ControlFlowGraphs.ReachabilityRefines | decompyle3/controlflow/cfg.py:124-243 | an instruction is reachable by fall-through, jump and exception steps if and only if its block is marked reachable |
| ControlFlowGraphs.RegionsAlign | decompyle3/controlflow/cfg.py:152-162 | every block lies wholly inside or outside a nonempty region if and only if the first instruction at or after its end begins a block, which a region end at an instruction guarantees |
| ControlFlowGraphs.StraddlingExists | decompyle3/controlflow/cfg.py:152-162 | a valid region that ends among the caches of an instruction is straddled by a block |
| ControlFlowGraphs.ViewIsRooted | decompyle3/controlflow/cfg.py:80-82 | the reachable part of a built graph is rooted at its entry, which dominator analysis assumes |
| FixedPoints.Update | decompyle3/controlflow/dominators.py:75-87 | one assignment keeps every set above the exact one and either lowers the total or finds its equation settled |
| FixedPoints.Sweep | decompyle3/controlflow/dominators.py:73-87 | one pass keeps every set above the exact one; without a change all equations hold |
| FixedPoints.Solve | decompyle3/controlflow/dominators.py:68-88 | the iteration ends with exactly the must-pass sets |
| FixedPoints.FixedPointSets | decompyle3/controlflow/dominators.py:54-88 | d is in the set of n if and only if every walk from n to a root or dead end visits d, in both directions, including full sets where no walk ends |
| FixedPoints.EquationAbove | decompyle3/controlflow/dominators.py:78-84 | one evaluation of the equation never removes what every walk must pass |
| FixedPoints.WalkRefutes | decompyle3/controlflow/dominators.py:78-87 | in a solution of the equations a walk to a sink that avoids d refutes d |
| FixedPoints.Exact | decompyle3/controlflow/dominators.py:68-88 | a solution above the exact sets that satisfies all equations is exact |
| Immediates.Immediate | decompyle3/controlflow/dominators.py:91-104 | for every node a closest strict member when there is one, and none only when there is none, in whatever order candidates are tried |
| Immediates.ClosestMember | decompyle3/controlflow/dominators.py:94-103 | the same for one node |
| Immediates.MustPassTotal | decompyle3/controlflow/dominators.py:91-104 | two nodes that an escaping node must pass are comparable |
| Immediates.MustPassAntisymmetric | decompyle3/controlflow/dominators.py:91-104 | must-pass is antisymmetric on escaping nodes |
| Immediates.ImmediateUnique | decompyle3/controlflow/dominators.py:91-104 | a node that reaches a sink has at most one immediate, and has one unless it must pass only itself; this covers post-dominators of blocks that reach an exit |
| Immediates.ClimbListsSet | decompyle3/controlflow/dominators.py:91-104 | following the immediates lists exactly the nodes that must be passed, each once, and ends where only itself is left |
| Immediates.MustPassIsDominance | decompyle3/controlflow/dominators.py:54-88 | in a rooted graph the forward sets are the dominators: every walk from the entry to n visits d |
| Immediates.MustPassIsPostDominance | decompyle3/controlflow/dominators.py:54-88 | the backward sets are the post-dominators: every walk from n to an exit visits d |
| Immediates.DominatorChain | decompyle3/controlflow/dominators.py:91-104 | the chain of immediate dominators of a reachable block is exactly its dominators without repetition, and ends at the entry |
| Immediates.ImmediateDetermined | decompyle3/controlflow/dominators.py:91-104 | the answer is independent of iteration order if and only if the node reaches a sink or at most two nodes do not |
| Immediates.UndeterminedExists | decompyle3/controlflow/dominators.py:91-104 | three blocks that jump around forever have two immediate post-dominators to choose from |
| NaturalLoops.Collect | decompyle3/controlflow/dominators.py:107-117 | the members are exactly the header and the blocks that reach the latch without passing the header |
| NaturalLoops.HeaderDominatesMembers | decompyle3/controlflow/dominators.py:107-117 | what the latch must pass, every member must pass |
| NaturalLoops.LoopEntry | decompyle3/controlflow/dominators.py:107-117 | a step into a loop from outside ends at its header |
| NaturalLoops.InnerInside | decompyle3/controlflow/dominators.py:107-117 | with a common member and h1 above h2, the loop of h2 lies inside the loop of h1 |
| NaturalLoops.LoopsNest | decompyle3/controlflow/dominators.py:107-117 | natural loops with different headers are disjoint or nested |
| StrongComponents.Explore | decompyle3/controlflow/dominators.py:130-149 | the first-pass stack empties, and the visited and finished sets stay linked as the second pass needs |
| StrongComponents.FinishOrder | decompyle3/controlflow/dominators.py:130-149 | the finish order lists every block and promises that whatever reaches a later one through earlier ones is reached by it |
| StrongComponents.ReachersReached | decompyle3/controlflow/dominators.py:151-169 | whatever unassigned block reaches the next root is also reached by it |
| StrongComponents.CollectComponent | decompyle3/controlflow/dominators.py:156-168 | collects unassigned blocks that reach the root, leaving no unassigned predecessor |
| StrongComponents.CollectedIsComponent | decompyle3/controlflow/dominators.py:151-169 | the collected blocks are a class of mutual reachability |
| StrongComponents.Components | decompyle3/controlflow/dominators.py:120-170 | the result partitions the reachable blocks, and two blocks share a component exactly when each reaches the other |
| ControlFlowAnalyses.CheckComponent | decompyle3/controlflow/dominators.py:175-216 | rejects a component exactly when it holds a cycle and its entry edges have several targets, and reports those |
| ControlFlowAnalyses.CyclicMeans | decompyle3/controlflow/dominators.py:175-179 | a component counts as cyclic if and only if it has a step between two of its blocks that can be walked back |
| ControlFlowAnalyses.SingleEntryMeans | decompyle3/controlflow/dominators.py:173-198 | acceptance stated on blocks and edges: for every block on a cycle, the edges from blocks outside its class of mutual reachability into it have at most one target |
| ControlFlowAnalyses.EnsureReducible | decompyle3/controlflow/dominators.py:173-216 | rejects exactly the graphs in which edges enter the class of some block on a cycle at two targets; the report is a class of mutual reachability on cycles, all the edges that enter it, and their targets |
| ControlFlowAnalyses.AnalyzeControlFlow | decompyle3/controlflow/dominators.py:219-246 | succeeds exactly on graphs whose cycles are entered at one target, and then returns the exact sets, immediates, back edges and loops; a rejection names blocks on cycles with the edges that enter them |
| ControlFlowAnalyses.Analyses | decompyle3/controlflow/dominators.py:219-246 | computes the exact sets, immediates, back edges and loops of any graph |
| ControlFlowAnalyses.LoopsAreNatural | decompyle3/controlflow/dominators.py:222-238 | each header dominates its loop, and reachable edges enter a loop only at its header |
| ControlFlowAnalyses.LoopsAreNested | decompyle3/controlflow/dominators.py:222-238 | recorded loops with different headers are disjoint or nested |
| ControlFlowAnalyses.ComponentHeader | decompyle3/controlflow/dominators.py:173-198 | a component with at most one entry has a block that dominates it: that entry, or the graph entry |
| ControlFlowAnalyses.LoopMemberMutual | decompyle3/controlflow/dominators.py:222-238 | a member of a loop and its header reach each other |
| ControlFlowAnalyses.ComponentIsUnionOfLoops | decompyle3/controlflow/dominators.py:173-246 | every cyclic component of an accepted graph has one dominating block, and the natural loops with that header cover exactly the component |
| ControlFlowAnalyses.CycleIsUnionOfLoops | decompyle3/controlflow/dominators.py:173-246 | in an accepted graph, the blocks that reach a block on a cycle and back have one dominating block among them, and are exactly the members of the natural loops with that header |
| StackAnalyses.CheckConfig | decompyle3/scanners/normalize311.py:704-735 | finds nothing exactly on good configurations, and otherwise the check that fails |
| StackAnalyses.AnalyzeStack | decompyle3/scanners/normalize311.py:665-744 | succeeds if and only if no reachable configuration underflows or lacks an instruction and no offset is reachable at two depths; then records precisely the reachable configurations and their maximum; each error is about a reachable configuration |
| StackAnalyses.RecordSound | decompyle3/scanners/normalize311.py:709-742 | recording a good configuration and queueing its moves keeps the worklist sound |
| StackAnalyses.AllRecorded | decompyle3/scanners/normalize311.py:687-744 | an empty worklist means that exactly the reachable configurations are recorded |
| StackAnalyses.MovesExact | decompyle3/scanners/normalize311.py:719-742 | the moves of an instruction, stated on its fields: a jump to its target by the jump effect or else the plain one, a fall-through by the plain effect unless flow ends, and each handler of its offset at the depth from the table |
| StackAnalyses.ReachableExact | decompyle3/scanners/normalize311.py:687-744 | the reachable configurations are those at the end of a run of such steps |
| StackAnalyses.ConsistentExact | decompyle3/scanners/normalize311.py:687-744 | acceptance stated on runs: every run finds an instruction with the operands it requires, and two runs that arrive at one offset arrive at one depth |
| StackAnalyses.RecordedSteps | decompyle3/scanners/normalize311.py:704-742 | after success every recorded instruction finds its operands, and every step from it leads to a recorded offset at the recorded depth |
| StackAnalyses.JumpDepth | decompyle3/scanners/normalize311.py:719-727 | after success the depth at a jump target is the depth before plus the jump effect, or plus the plain effect when there is no jump effect |
| Normalizers.ShapesBalance | decompyle3/scanners/normalize311.py:482-558 | every shape satisfies push - pop = effect, pops no more than it requires, and is nonnegative |
| Normalizers.JumpShapes | decompyle3/scanners/normalize311.py:534-545 | the effects of each kind of jump on falling through and on jumping |
| Normalizers.BuildShapes | decompyle3/scanners/normalize311.py:482-534 | what calls, loads and builds take and leave, with each flag bit counted |
| Normalizers.OperandShapes | decompyle3/scanners/normalize311.py:482-558 | the same for the other instructions whose operand matters, with how deep they look |
| Normalizers.UnpackShape | decompyle3/scanners/normalize311.py:482-558 | an unpack leaves as many values as the target parser reads targets |
| Normalizers.ForIterDepths | decompyle3/scanners/normalize311.py:665-744 | after a successful analysis the body of a loop runs one above its FOR_ITER, and its exit is one below |
| Normalizers.AppliedLength | decompyle3/scanners/normalize311.py:810-874 | with enough operands the symbolic stack changes length by exactly the stack effect |
| Normalizers.AppliedLocal | decompyle3/scanners/normalize311.py:810-874 | an instruction that finds its operands on top of the symbolic stack leaves everything below them alone |
| Normalizers.CopyAndSwap | decompyle3/scanners/normalize311.py:857-870 | COPY duplicates the value at its depth, SWAP exchanges it with the top, and the rest stays |
| Normalizers.NoResynchronisation | decompyle3/scanners/normalize311.py:746-797 | after a successful analysis no fall-through resynchronises, and the symbolic stack stays as long as the analysed depth |
| Normalizers.StackBeforeLength | decompyle3/scanners/normalize311.py:752-760 | at every analysed instruction the symbolic stack is as long as the depth |
| Normalizers.UnknownAtStart | decompyle3/scanners/normalize311.py:752-760 | where the pass starts over, every value is unknown |
| Normalizers.MadeSince | decompyle3/scanners/normalize311.py:746-874 | every value is unknown or was made, with its kind, by an instruction after the last place where the pass started over |
| Normalizers.ProtocolMeans | decompyle3/scanners/normalize311.py:876-883 | the protocol is exactly what the two protocol values decide |
| Normalizers.MetadataMeans | decompyle3/scanners/normalize311.py:764-791 | the counts, names and offsets of a call are those of its operand and context, and its protocol is read below the containers |
| Normalizers.ProtocolsAreMade | decompyle3/scanners/normalize311.py:746-922 | metadata claims a null only after a PUSH_NULL or a global loaded with one, and a bound receiver only after a method lookup, both since the pass last started over |
| Normalizers.Normalizer.ValidateCalls | decompyle3/scanners/normalize311.py:592-663 | fails exactly on invalid KW_NAMES/PRECALL/CALL sequences, at the first fault; records the context of every CALL |
| Normalizers.CallsMean | decompyle3/scanners/normalize311.py:592-663 | a valid sequence, spelled out: names come right before a PRECALL that has room for them, and a PRECALL right before a CALL with the same operand |
| Normalizers.ContextRecorded | decompyle3/scanners/normalize311.py:655-659 | the recorded context of a CALL is that of the PRECALL before it |
| Normalizers.ContextOnlyAfterPrecall | decompyle3/scanners/normalize311.py:655-659 | an instruction has a context exactly when it follows a PRECALL |
| Normalizers.Normalizer.AttachSymbolicMetadata | decompyle3/scanners/normalize311.py:746-797 | every instruction gets the metadata read off the symbolic stack before it; fails exactly on a CALL without context; no protocol is claimed that no instruction has made since the pass last started over |
| Normalizers.Normalizer.Enrich | decompyle3/scanners/normalize311.py:363-367 | validation, stack analysis and metadata in order: succeeds exactly when all three do, and then all their results hold, among them that no call claims a protocol that was not made |
| NestedCalls.OpsRun | decompyle3/scanners/normalize311.py:810-874 | straight-line instructions that find their operands among their own values replace them by one ordinary value, whatever lies below |
| NestedCalls.TreeRuns | decompyle3/scanners/normalize311.py:746-922 | running the code of an expression, whatever its operands and call protocols, pushes one ordinary value, and all its calls get their own metadata |
| NestedCalls.CalleeRuns | decompyle3/scanners/normalize311.py:810-883 | each of the four callee forms (null with a global, null below a callable, method lookup, bare pair) leaves the two values that announce its protocol |
| NestedCalls.CallStep | decompyle3/scanners/normalize311.py:885-922 | a CALL reads its protocol values and the context of its own PRECALL |
| NestedCalls.UnpackedStep | decompyle3/scanners/normalize311.py:778-787 | CALL_FUNCTION_EX reads its protocol values below its one or two containers |
| NestedCalls.CallsGetOwnMetadata | decompyle3/scanners/normalize311.py:746-922 | for arbitrarily nested calls at any analysed place, every CALL gets the receiver mode (null, method or unknown), argument count and keyword names of its own node, every unpacked call its receiver mode and whether it has keyword arguments, nothing else is described as a call, and the depth grows by one |
| Decisions.NegateFlips | decompyle3/controlflow/structures.py:166-189 | negation runs the same evaluations and flips the truth value, whenever opposite comparisons answer oppositely |
| Decisions.IntegersComplementary | decompyle3/controlflow/structures.py:166-189 | comparisons of integers read from the state, with the ordinary meaning of each operator, satisfy that hypothesis |
| Decisions.NegateOnIntegers | decompyle3/controlflow/structures.py:166-189 | on integers negation flips every condition, with no hypothesis |
| Decisions.FlattenKeeps | decompyle3/controlflow/structures.py:192-201 | splicing nested operations of one kind keeps value, order and number of evaluations |
| Decisions.EvalBinary | decompyle3/controlflow/structures.py:192-201 | the combined operation runs the left operand, then the right one unless the left decides |
| Decisions.FactorAndKeeps | decompyle3/controlflow/structures.py:212-237 | `E if A else (B and E)` and its factored form run alike |
| Decisions.OrPrefixKeeps | decompyle3/controlflow/structures.py:240-250 | an expression is its or-prefix followed by the suffix |
| Decisions.FactorOrKeeps | decompyle3/controlflow/structures.py:253-311 | the or-suffix factorings run alike |
| Decisions.CombineKeeps | decompyle3/controlflow/structures.py:314-355 | through every constant, factoring and flattening case, the combination runs the predicate and then the chosen arm, each at most once |
| Decisions.FactorsAnd | decompyle3/controlflow/structures.py:212-237 | `E if A else (B and E)` is factored whenever E is no constant |
| Decisions.FactorsOrTrue | decompyle3/controlflow/structures.py:253-311 | a suffix that ends the true arm and is the false arm is factored unless it is a constant |
| Decisions.FactorsOrFalse | decompyle3/controlflow/structures.py:253-311 | a suffix that is the true arm and ends the false arm is factored unless it is a constant |
| Decisions.FactorsOrBoth | decompyle3/controlflow/structures.py:253-311 | a suffix that ends both arms is always factored |
| Decisions.StaysConditional | decompyle3/controlflow/structures.py:314-355 | arms without a common suffix stay a conditional expression |
| Decisions.CombineWellFormed | decompyle3/controlflow/structures.py:314-355 | every Boolean operation built has at least two operands |
| ConditionAssembler.AcyclicUnfolds | decompyle3/controlflow/structures.py:1982-2013 | without a reachable cycle, |nodes| levels of recursion are enough |
| ConditionAssembler.CycleNeverUnfolds | decompyle3/controlflow/structures.py:2008-2009 | nothing on a cycle has a recursive definition |
| ConditionAssembler.BuildStep | decompyle3/controlflow/structures.py:1989-2007 | the plain recursive definition satisfies its recursion equation |
| ConditionAssembler.FoldMeansWalk | decompyle3/controlflow/structures.py:1975-2013 | the recursive expression and the walk run the same predicates in the same order to the same end |
| ConditionAssembler.EachRunsOnce | decompyle3/controlflow/structures.py:1975-2013 | without a reachable cycle a walk runs each predicate at most once, and its effects are those of the visited predicates in order |
| ConditionAssembler.Process | decompyle3/controlflow/structures.py:1982-2013 | one popped item keeps the memo, path and work invariants, and reports a cycle only when one is reachable |
| ConditionAssembler.WithinLimit | decompyle3/controlflow/structures.py:1978-1985 | at most 3·|nodes|+1 items are popped, so the work limit never fires |
| ConditionAssembler.Assemble | decompyle3/controlflow/structures.py:1975-2015 | fails if and only if a cycle is reachable from the entry; otherwise the memoised result equals the plain recursive definition |
| ConditionAssembler.AssembledMeansWalk | decompyle3/controlflow/structures.py:1975-2024 | the assembled expression has the truth value and the effects of walking the graph, is true exactly when the walk ends at the true endpoint, and runs the visited predicates in order, each once |
| ConditionAssembler.AssembledOnIntegers | decompyle3/controlflow/structures.py:1975-2024 | the same on integers compared as usual, with no hypothesis about comparisons |
| TerminalIntervals.WalkInterval | decompyle3/controlflow/structures.py:2554-2577 | the walk returns exactly what the first block reaches inside the interval, and gives up only on a normal edge out of the interval or past the work limit |
| TerminalIntervals.TerminalIntervalExitKinds | decompyle3/controlflow/structures.py:2539-2630 | accepts exactly the intervals that are closed, connected, single-entry and end in returns and reraises, and whose walk fits the work limit; returns the kinds of exactly the exit blocks |
| TerminalIntervals.AcceptedMeans | decompyle3/controlflow/structures.py:2554-2629 | the checks, stated on edges, runs and last instructions: every block is run to from the first one, which alone is entered and only from conditions on normal edges; only exceptions lead out; and where nothing stays inside there is a return or a handled reraise, a return at least once |
| TerminalIntervals.InsideMeansRuns | decompyle3/controlflow/structures.py:2554-2577 | reaching inside the interval is running inside it |
| TerminalIntervals.EntersAtStart | decompyle3/controlflow/structures.py:2581-2596 | whenever a run from outside is in an accepted interval, it entered at the first block on a normal edge from a condition block and has stayed since |
| TerminalIntervals.LeavesOnlyExceptionally | decompyle3/controlflow/structures.py:2554-2577 | from any point in the interval a run stays in it to its end, or until an exception edge takes it out |
| TerminalIntervals.StopsAtExit | decompyle3/controlflow/structures.py:2598-2629 | a run that cannot continue inside has arrived at a return or reraise, and any further step is an exception out of the interval |
| CrowdedIntervals.CrowdedRejected | decompyle3/controlflow/structures.py:2556-2561 | in a built graph, an interval with seven handlers among its own blocks passes every check and is rejected by the work limit |
| ImplicitReturns.TrailingPairs | decompyle3/controlflow/structures.py:3174-3197 | the pairs of LOAD_CONST None and RETURN_VALUE that end the stream: all of them, and nothing else from the first one on |
| ImplicitReturns.PairBlocks | decompyle3/controlflow/structures.py:3212-3230 | succeeds exactly when every pair has a returning block of its own; returns exactly these blocks and offsets |
| ImplicitReturns.WalkForward | decompyle3/controlflow/structures.py:3236-3253 | visits exactly the blocks that normal edges reach; on graphs with two normal edges a block it gives up only on a backward edge |
| ImplicitReturns.BuiltFewSuccessors | decompyle3/controlflow/cfg.py:203-228 | blocks of a built graph have at most two normal edges |
| ImplicitReturns.BodyEndpoint | decompyle3/controlflow/structures.py:3287-3314 | finds the body endpoint exactly when one endpoint precedes and one follows the start of the pairs |
| ImplicitReturns.ImplicitReturnEpiloguePlan | decompyle3/controlflow/structures.py:3157-3333 | a returned plan has passed every check and describes exactly the condition blocks, exit blocks and owned offsets; on built graphs a plan is returned whenever one is due |
| ImplicitReturns.AcceptedIsChecked | decompyle3/controlflow/structures.py:3236-3285 | acceptance gives the region facts that the statements about runs use |
| ImplicitReturns.EveryRunReturnsNone | decompyle3/controlflow/structures.py:3174-3333 | every run from the entry moves strictly forward on normal edges, has fewer steps than the region has blocks, and stops exactly in a block that ends in an owned return of None |
| ImplicitReturns.OwnedReturnIsLast | decompyle3/controlflow/structures.py:3212-3228 | in a graph built from the tokens an owned return is the last instruction of its block |
| EpiloguePlans.TrailingExact | decompyle3/controlflow/structures.py:3174-3197 | the trailing pairs are the longest list of pairs, each ending where the next begins, that ends the stream |
| EpiloguePlans.RegionIsRuns | decompyle3/controlflow/structures.py:3236-3253 | the walked region is exactly what runs along normal edges arrive at |
| EpiloguePlans.FitsMeans | decompyle3/controlflow/structures.py:3236-3285 | the region checks, stated on edges and runs: edges out of reached blocks are normal and lead forward, edges into them come from them or forward to the entry, the conditions are reached, and runs end exactly in the blocks of the pairs |
| EpiloguePlans.DueMeans | decompyle3/controlflow/structures.py:3164-3325 | all checks together, each spelled out on context flags, tokens, edges and runs, are exactly when a plan is due |
| EpiloguePlans.TestGuardsBody | decompyle3/controlflow/structures.py:3315-3333 | the emitted test, negated or not, holds exactly when the condition leads to the body; otherwise the condition leads past the first owned pair |
| EpiloguePlans.OwnedMeans | decompyle3/controlflow/structures.py:3212-3230 | the owned offsets are exactly those of the semantic tokens from the first pair on |
| LoopFrontiers.ClassifyBlock | decompyle3/controlflow/exception_structures.py:600-667 | finds the sort of a gap block exactly when it is a return, continue or break sink, and collects exactly its leading pops |
| LoopFrontiers.ClassifyAll | decompyle3/controlflow/exception_structures.py:591-667 | succeeds exactly when every gap block is a sink; each class holds exactly the blocks of its sort |
| LoopFrontiers.OneSort | decompyle3/controlflow/exception_structures.py:630-665 | no block is a sink of two sorts |
| LoopFrontiers.WalkGap | decompyle3/controlflow/exception_structures.py:700-718 | visits exactly the gap blocks entered from the entry blocks, and never hits the work limit |
| LoopFrontiers.OwnGap | decompyle3/controlflow/exception_structures.py:672-720 | accepts exactly the gaps that are reached only from the protected body, completely |
| LoopFrontiers.ProtectedLoopTerminalFrontier | decompyle3/controlflow/exception_structures.py:549-732 | returns a frontier exactly when the gap consists of sinks that the protected body owns, and describes it exactly |
| LoopFrontiers.ClassesPartition | decompyle3/controlflow/exception_structures.py:722-731 | return, continue and break blocks partition the gap |
| LoopFrontiers.EntersFromProtected | decompyle3/controlflow/exception_structures.py:683-696 | a run from outside the gap enters it on a normal edge from a protected block |
| LoopFrontiers.LeavesAsClassified | decompyle3/controlflow/exception_structures.py:612-665 | every step of a run out of a gap block is normal and goes from a continue block to a continue target or from a break block to the break target |
| LoopFrontiers.StopsAtReturn | decompyle3/controlflow/exception_structures.py:630-638 | a run that arrives in the gap can go on exactly unless it has arrived at the return of a constant |
| FrontierSinks.SinkMeans | decompyle3/controlflow/exception_structures.py:591-667 | a block is a sink of a sort exactly when its tokens, ignored ones aside, are pops and the return of a constant, one backward jump to a continue target, or pops and one jump to the break target, and its edges agree |
| FrontierSinks.OwnedMeans | decompyle3/controlflow/exception_structures.py:672-720 | ownership, stated on runs: normal edges into the gap come from the gap or the protected body, and a run from the body enters every block of the gap |
| FrontierSinks.DueMeans | decompyle3/controlflow/exception_structures.py:566-720 | the frontier checks are exactly: a block begins after the body, and the blocks from there to the handler, at least one, end before it, are sinks and are owned |
| FrontierSinks.FrontierSays | decompyle3/controlflow/exception_structures.py:592-732 | a returned frontier lists the gap by sort and exactly the offsets of its leading pops |
| UnpackTargets.ForTargetElement | decompyle3/controlflow/structures.py:4400-4432 | the recursive parser with its cursor loop computes the specified parse |
| UnpackTargets.ForTarget | decompyle3/controlflow/structures.py:4384-4398 | POP_TOP stands for no target; anything else is parsed as one |
| UnpackTargets.TargetRoundTrip | decompyle3/controlflow/structures.py:4400-4432 | tokens that encode a target, with ignored ones interleaved, parse to that target and are consumed exactly |
| UnpackTargets.ParsedIsEncoding | decompyle3/controlflow/structures.py:4400-4432 | conversely the tokens consumed by a successful parse encode the returned target, which is well formed |
| UnpackTargets.PrefixFree | decompyle3/controlflow/structures.py:4400-4432 | no encoding is a proper prefix of another |
| UnpackTargets.ParserExact | decompyle3/controlflow/structures.py:4400-4432 | exactly one outcome fits the tokens and the parser returns it: a target, an early end when the tokens are the beginning of one, or the first token with which no target can continue |
| UnpackTargets.EncodingAssigns | decompyle3/controlflow/structures.py:4400-4432 | on a stack machine the tokens of a well formed target assign the value on top to it, names bound left to right and the middle of a starred target gathered, and fault exactly when its shape does not fit |
| UnpackTargets.ParsedAssigns | decompyle3/controlflow/structures.py:4400-4432 | so the target that the parser returns means what the tokens it consumed do |

## Left out

- Order of the back edges and loops: they are listed in the order of the graph's edges, which is the source's sorted order whenever the edges are sorted, as `build_cfg` leaves them; re-sorting an unsorted edge list is not modelled.
- Order of predecessors, successors and exits inside sets, and the order in which work sets are popped where the source iterates a Python set.
- Recursion limits: the exception-table decoder nests one generator per entry and the target parser recurses per tuple, and Python may give up on very deep input.
- The checks of input types (non-bytes code, objects without a table), the diagnostic text of errors, and their context fields beyond offsets and targets.
- `build_cfg` on streams whose offsets do not increase: `BuildCfg` requires `Increasing`, as every scanned stream is.
- The xdis stack-effect table: `StackShape` takes its answer as a parameter; opcode tables and adaptive-opcode despecialisation are parameters or omitted.
- The parts of `normalize` that rename instructions (`_normalized_kind`, `_jump_metadata`): table lookups whose results enter the later passes as given; their errors are not modelled.
- The metadata PRECALL carries, `_function_info`, and the `value` payload of symbolic values: of the stack only the kinds and origins that call metadata needs are modelled.
- The `__exit__` call that ends a with statement: its callee was pushed by BEFORE_WITH before the expression begins, so it is no expression tree; conditional, short-circuit and awaited operands are not straight-line code.
- The effect of PUSH_NULL, LOAD_CONST and LOAD_CLOSURE comes from the external table; `WellShaped` asks that it be one push.
- The discovery of condition plans before the assembler loop of `_bounded_condition_plan`, which pattern-matches emitted code; the assembler takes the branch graph and its true endpoint as given.
- Operand values and operand evaluation inside comparisons: leaves and comparisons run through `Env`, and `Complementary` asks that opposite comparisons answer oppositely on the same state, as `IntegersComplementary` shows integers to do; partial orders, such as floats with NaN, do not.
- `_same_expression` compares syntax dumps; the model uses structural equality of opaque syntax trees.
- Every STORE_ instruction of an unpack target becomes a name, as in the source; attribute and subscript targets are not distinguished.
- Operand widths: counts, arguments and exception-table numbers are unbounded naturals.
- The plan of `_implicit_return_epilogue_plan` records whether the condition is negated instead of the expression.
- Other region recoverers (`_terminal_if_plan`, `_try_except`, `_while_loop`, `with_statement`, match recovery): they match CPython's emission order or source lines and state no path property of their own.
- The balance of the `_suppressed_*` sets, position and line evidence, the legacy 3.7 and 3.8 scanners and grammar, runtime inspection, the command line and file output.
