# Verified models of the memory, compiler, scheduling and messaging cores

The project models seven parts of the system and proves what each is for.

- **Compiler back end** (`Ast`, `Machine`, `Semantics`, `Codegen`, `ExprSimulation`, `Simulation`, `Liveness`, `Spans`,
  `Allocation`, `Intervals`, `Correctness`, `IRGenerator`, `Compiler`). `IRGenerator.IR` walks the syntax tree, emits
  labelled three-address code over virtual registers, builds live intervals, assigns the four registers or stack slots by
  linear scan and rewrites the code. `Machine` runs that code; `Semantics` executes the tree. The operators have an
  arbitrary meaning, shared by both, that may trap. `Compiler.Compile` is proved to implement the tree.
- **Compiler front end** (`Grammar`, `Statements`, `Parser`, `EndToEnd`). The recursive-descent parser against a grammar, the
  grammar against a printer, in both directions; and one program from its tokens to the result of its code.
- **Memory areas** (`Tree`, `Repair`, `RBTree`, `LinkedList`, `AddressSpace`, `Space`, `MemoryManager`, `LostAddition`). The
  red-black tree and the circular list as linked objects, each tied to a value; the areas as ranges of addresses. `Repair`
  has the loops that run after insertion and removal as functions, `Space` tree and ranges together over whole runs.
- **Control-flow graph** (`MachineCode`, `Discovery`, `ControlFlowGraph`). The work-list discovery of basic blocks over an
  arbitrary decoder.
- **Interrupt waiting** (`Interrupts`, `InterruptAnswers`, `InterruptTimes`), **message ring** (`MessageRing`) and **thread
  pool** (`ThreadPool`) as state machines whose steps are the atomic accesses and critical sections of the threads, in any
  order.
- **Fair scheduler** (`Fairness`, `CfsScheduler`) and **timeouts** (`Timeouts`), two containers each that have to stay in
  step.
- **Arithmetic flags** (`ArithmeticFlags`) against the conditions of the short jumps.

`Wrappers` holds the option type they share.

Some properties one would expect do not hold of the code, and the project says when they do:

- An `if` without `else` jumps behind its first branch to a label that is never emitted (`Compiler/src/IR/IR.cpp:283-290`).
  The code loses a jump if and only if, in the execution that is meant, such a first branch comes to its end:
  `Correctness.LosesJumpIff`, and `Correctness.IntendedUnlessLost` for a run that has stopped.
  `Correctness.GuardedMeansIntended` gives a sufficient condition on the text, `Correctness.ElselessIfLosesItsJump` a failing
  run.
- A removal from the tree does not always restore the black heights. A node with two children gives its place to its
  successor, which must be red; a red child of the successor does not help. Any other node must be red, have a child, or be
  the root. `Tree.EraseKeepsRedBlack` is the exact condition, `Tree.BlackSuccessorUnbalances` a failing tree.
- On a tree that an earlier removal left unbalanced, the repair after a removal can follow a null sibling
  (`src/utils/mempool/src/RBtree.cpp:173-175`). `Repair.EraseMeetsNullIff` says exactly when, of the tree before the call,
  `Space.RunOverTree` and `Space.RunOfChanges` state what runs of additions and removals do under that condition, and
  `LostAddition.RunIsLost` is a run of additions that meets it.
- A new area is checked by its start only; `AddressSpace.DisjointIffFits` says exactly when the areas stay disjoint,
  `AddressSpace.FreeStartIsNotEnough` that they need not.
- Joining areas moves translations unless the left one is a whole number of pages: `AddressSpace.MergeKeepsTranslation`.
- After a second build, successors and predecessors need not mirror each other. `ControlFlowGraph.ControlFlowGraph.Build`
  says exactly when they do, of the graph, the program and the entries before the call; `ControlFlowGraph.BuildTwice` is a
  program for which they do not.
- One interrupt request can be answered several times. Its timer queues an answer without erasing the record, which the scan
  of the same pass answers again; results are never matched with requests, so each one that comes is delivered, and one that
  comes before the record leaves the timer running. A routed request reaches its device as the VM sent it and as the manager
  forwarded it (`src/vm/VmManager.cpp:290-300`), so it can be answered both times. `InterruptAnswers.OncePerCause`
  counts the answers, `InterruptAnswers.AnsweredOnceIff` says exactly when there is one only, over results that come at any
  time and any number of times; `InterruptAnswers.NoResult`, `InterruptAnswers.ResultTwice` and
  `InterruptAnswers.ResultTooSoon` are runs with two.
- At the end of the 63-bit scale scheduling is no longer fair (`Fairness.SaturatedStarves`), but a task that is still below
  it is served (`Fairness.NoStarvation`). A task with the id 0 is never charged once it is first
  (`CfsScheduler.CFSScheduler.ScheduleOnce`).
- The header of the thread pool announces that a shutdown without waiting discards tasks
  (`include/utils/ThreadPool.h:96-103`); the code runs them all, and so does the model.

## Model

| member | source | states |
|---|---|---|
| `Compiler.Compile` | Compiler/src/IR/IR.cpp:375-397 | the rewritten code implements the body: for every meaning of the operators, every store and every start state, an execution that ends with a store and a return value is a run that ends with the same store and value, one that aborts is a run that stops in the same way, and one that goes on for ever is a run that never stops |
| `EndToEnd.TokensToResult` | Compiler/src/IR/IR.cpp:375-397 | the tokens of that program are parsed and whatever code implements the tree returns, for every n, twice the sum of the numbers below n |
| `IRGenerator.IR.CompileToIR` | Compiler/src/IR/IR.cpp:375-397 | the instructions are the generated code with every virtual register replaced by its home, and the homes are sound for the live intervals of that code |
| `IRGenerator.IR.GenerateExpression` | Compiler/src/IR/IR.cpp:80-204 | appends exactly the code the specification gives for the expression, returns its result register and advances the counter past every register used |
| `IRGenerator.IR.Generate` | Compiler/src/IR/IR.cpp:233-315 | appends exactly the code the specification gives for the statement and advances both counters |
| `IRGenerator.IR.GenerateIf` | Compiler/src/IR/IR.cpp:268-293 | appends condition, test, both branches and labels; the end label only if there is an else |
| `IRGenerator.IR.GenerateFor` | Compiler/src/IR/IR.cpp:295-315 | appends initialisation, loop label, condition, exit, body, update and jump back |
| `IRGenerator.IR.GenerateVarDecl` | Compiler/src/IR/IR.cpp:206-220 | appends the initialiser and its store, or a marker |
| `IRGenerator.IR.GenerateReturn` | Compiler/src/IR/IR.cpp:222-231 | appends the value, its move to eax, and the return |
| `IRGenerator.IR.AnalyzeLiveness` | Compiler/src/IR/IR.cpp:404-457 | the intervals, sorted by start, are those that a scan of the code gives: one for each virtual register, from its definition to its last mention |
| `IRGenerator.IR.LinearScanAllocate` | Compiler/src/IR/IR.cpp:460-507 | every interval has one register or one slot; intervals that overlap never share a register; slots are pairwise distinct; an interval is spilled only when all four registers are held by earlier intervals that reach it |
| `IRGenerator.IR.PickRegister` | Compiler/src/IR/IR.cpp:484-501 | with fewer than four active intervals there is a free register, and it is one that no active interval holds |
| `IRGenerator.IR.SpillAtInterval` | Compiler/src/IR/IR.cpp:510-515 | a spilled register gets a slot of four bytes that no other has |
| `IRGenerator.IR.RewriteIR` | Compiler/src/IR/IR.cpp:518-533 | every operand that is a virtual register becomes its home; nothing else changes |
| `Correctness.VirtualImplements` | Compiler/src/IR/IR.cpp:80-315 | the code over virtual registers implements the body, by simulation through branches and loop back edges |
| `Correctness.RewrittenImplements` | Compiler/src/IR/IR.cpp:517-533 | with sound homes the rewritten code implements the body as well |
| `Correctness.DivergesTogether` | Compiler/src/IR/IR.cpp:295-315 | a body whose execution never ends has code that never stops |
| `Correctness.StopsTogether` | Compiler/src/IR/IR.cpp:80-315 | code that stops, stops as an execution of the body does |
| `Correctness.IntendedUnlessLost` | Compiler/src/IR/IR.cpp:283-290 | a run that stops has lost a jump if and only if, in the execution the language means, the then-block of an if without else comes to its end; exactly otherwise it shows the outcome that is meant |
| `Correctness.LosesJumpIff` | Compiler/src/IR/IR.cpp:283-290 | from a given store the code jumps to a label that is not there if and only if, in the execution the language means, the then-block of an if without else comes to its end |
| `Correctness.EndsTogether` | Compiler/src/IR/IR.cpp:80-315 | the code stops exactly if the execution of the body ends, with the outcome it ends with; no bound on the steps of either is mentioned |
| `Correctness.GuardedMeansIntended` | Compiler/src/IR/IR.cpp:268-293 | if every if has an else, or a first branch that leaves the function, the code does what the language means |
| `Correctness.ElselessIfLosesItsJump` | Compiler/src/IR/IR.cpp:283-290 | an if without else whose condition holds: the execution that is meant ends normally after one assignment, and the run of the generated code jumps to a label that is not there |
| `Simulation.SimStmt` | Compiler/src/IR/IR.cpp:233-315 | from the first instruction of a statement with the same store, the machine comes to the end of its code with the store the statement leaves, or returns or stops as it does |
| `Simulation.SimIf` | Compiler/src/IR/IR.cpp:268-293 | the same for both branches of an if, through its labels and jumps |
| `Simulation.SimFor` | Compiler/src/IR/IR.cpp:295-315 | the same for a loop, for every number of rounds |
| `ExprSimulation.SimExpr` | Compiler/src/IR/IR.cpp:80-204 | an expression leaves its value in its result register, its effects in the store, and the registers of what came before untouched |
| `ExprSimulation.SimBinary` | Compiler/src/IR/IR.cpp:108-121 | both operands are evaluated, left first, and the operator is applied to them; && and || are no exception |
| `Codegen.GenStmtLabelsOk` | Compiler/src/IR/IR.cpp:268-315 | every label a statement draws is emitted exactly once, except those listed as lost, which are never emitted |
| `Semantics.LostIffFallsOut` | Compiler/src/IR/IR.cpp:283-290 | executed as compiled a statement loses a jump if and only if, executed as meant, the then-block of an if without else comes to its end; otherwise both executions are the same |
| `Liveness.StmtScoped` | Compiler/src/IR/IR.cpp:80-315 | generated code defines every virtual register once, before any use, and uses it only before the next label or jump behind the end of its statement |
| `Spans.ScopedIsSafe` | Compiler/src/IR/IR.cpp:404-457 | the intervals of such code start at the definition, cover every use, and have no label or jump strictly inside, whatever the jumps do |
| `Spans.StmtEaxOk` | Compiler/src/IR/IR.cpp:222-231 | eax is loaded only just before a return or read just after a call |
| `Intervals.AllocatedIsSound` | Compiler/src/IR/IR.cpp:460-507 | an allocation by linear scan gives registers whose intervals overlap different homes |
| `Intervals.FreeRegisterExists` | Compiler/src/IR/IR.cpp:484-501 | fewer than four active intervals with different registers leave one register free |
| `Allocation.StepKeepsStep` | Compiler/src/IR/IR.cpp:518-533 | one instruction over virtual registers and its rewritten form take machines in step to machines in step |
| `Allocation.RunsAlike` | Compiler/src/IR/IR.cpp:518-533 | and so do any number of them, to the same end |
| `Grammar.RoundTrip` | Compiler/src/AST/AST.cpp:77-183 | the tokens of an expression printed at a precedence level parse back to the same tree at that level and stop at the first token that cannot extend it |
| `Grammar.Chain` | Compiler/src/AST/AST.cpp:77-144 | a chain of operators of one level is taken from the left |
| `Grammar.FactorRoundTrip` | Compiler/src/AST/AST.cpp:146-183 | the same for literals, names, !, parentheses and calls |
| `Grammar.CallRoundTrip` | Compiler/src/AST/AST.cpp:345-366 | the same for argument lists |
| `Grammar.ParsedPrintable` | Compiler/src/AST/AST.cpp:77-183 | everything that is parsed can be printed |
| `Grammar.Reparse` | Compiler/src/AST/AST.cpp:77-183 | printing what was parsed and parsing that gives the same tree |
| `Statements.StmtRoundTrip` | Compiler/src/AST/AST.cpp:369-466 | the tokens of a printed statement parse back to it and stop behind it, whatever follows that is not its else |
| `Statements.ParsedStatement` | Compiler/src/AST/AST.cpp:216-244 | every parsed statement can be printed: in particular an else always belongs to the nearest if that lacks one |
| `Statements.ReparseStatement` | Compiler/src/AST/AST.cpp:369-466 | printing a parsed statement and parsing that gives the same statement |
| `Statements.BlockRoundTrip` | Compiler/src/AST/AST.cpp:61-75 | the same for the statements of a block |
| `EndToEnd.TokenTypes` | Compiler/src/AST/AST.cpp:146-183 | digits are literals, and what begins with a letter or an underscore is a name unless it is one of six keywords |
| `EndToEnd.Precedence` | Compiler/src/AST/AST.cpp:77-144 | for any two of the twelve binary operators: the one that binds more tightly is applied first, and of two that bind alike the first one |
| `EndToEnd.NotBindsTightest` | Compiler/src/AST/AST.cpp:146-155 | ! binds more tightly than any of them |
| `EndToEnd.ElseAtTheEnd` | Compiler/src/AST/AST.cpp:216-244 | an else with nothing behind it counts for nothing |
| `EndToEnd.PlainUpdateIsRefused` | Compiler/src/AST/AST.cpp:469-531 | a loop whose update is a plain name or number is refused |
| `EndToEnd.ProgramIsRead` | Compiler/src/AST/AST.cpp:369-466 | the tokens of a program with a declaration, a loop and an if are read as its tree |
| `Parser.AST.ParseLogicalOr` | Compiler/src/AST/AST.cpp:77-88 | makes the tree that the grammar gives at this level and moves to the same token, or fails with it |
| `Parser.AST.ParseLogicalAnd` | Compiler/src/AST/AST.cpp:90-101 | the same at the level of && |
| `Parser.AST.ParseComparison` | Compiler/src/AST/AST.cpp:103-116 | the same at the level of comparisons |
| `Parser.AST.ParseExpression` | Compiler/src/AST/AST.cpp:118-130 | the same at the level of sums |
| `Parser.AST.ParseTerm` | Compiler/src/AST/AST.cpp:132-144 | the same at the level of products |
| `Parser.AST.ParseFactorAt` | Compiler/src/AST/AST.cpp:146-183 | the same for factors |
| `Parser.AST.ParseFunctionCall` | Compiler/src/AST/AST.cpp:345-366 | the same for calls |
| `Parser.AST.ParseStatementAt` | Compiler/src/AST/AST.cpp:369-466 | the same for statements; nothing at the end of the tokens |
| `Parser.AST.ParseIfStatement` | Compiler/src/AST/AST.cpp:216-244 | the same for if, with an else at the very end of the tokens counted as none |
| `Parser.AST.ParseForStatement` | Compiler/src/AST/AST.cpp:247-284 | the same for loops |
| `Parser.AST.ParseExpressionStatement` | Compiler/src/AST/AST.cpp:469-531 | the same for a loop update; a plain name or number is returned without being consumed |
| `Parser.AST.ParseStatementBlock` | Compiler/src/AST/AST.cpp:61-75 | the same for blocks |
| `RBTree.RBRoot.RotateLeft` | src/utils/mempool/src/RBtree.cpp:20-45 | the right child takes the place of the node; the three subtrees stay as they were, in the same order, and the links around them agree |
| `RBTree.RBRoot.RotateRight` | src/utils/mempool/src/RBtree.cpp:47-72 | the mirror image |
| `RBTree.RBRoot.InsertFixup` | src/utils/mempool/src/RBtree.cpp:74-134 | ends with the tree that the repair of the specification makes, links agreeing around every node |
| `RBTree.RBRoot.InsertWithCompare` | src/utils/mempool/include/RBtree.h:68-93 | the new node comes behind all that are not larger; tree, order, links and, if they were right, colours and black heights are those of a red-black search tree |
| `Repair.FixedFacts` | src/utils/mempool/src/RBtree.cpp:74-134 | the repair after an insertion keeps the order and, if the only fault is a red node under a red one, leaves a red-black tree |
| `Repair.InsertedTreeFacts` | src/utils/mempool/include/RBtree.h:68-93 | an insertion puts the node into the order behind all that are not larger and keeps a search tree sorted and a red-black tree red-black |
| `RBTree.RBRoot.Erase` | src/utils/mempool/src/RBtree.cpp:238-298 | comes to its end exactly if the node is not black with a single child that is black, or the climb from that child does not come, behind quiet levels, to one without a sibling or with a red one that lacks its near child; then tree, order and links are those of the removal with its repair |
| `RBTree.RBRoot.EraseFixup` | src/utils/mempool/src/RBtree.cpp:137-205 | the loop comes to its end exactly if it meets no null sibling, and then with the tree the specification gives, links agreeing around every node |
| `Repair.NullSiblingIff` | src/utils/mempool/src/RBtree.cpp:137-205 | the loop meets a null sibling if and only if, above a number of levels with black parent, sibling and nephews, there is a level without a sibling, or with a red one that has no child on the near side, so that there is none once it has been rotated away |
| `Repair.EraseMeetsNullIff` | src/utils/mempool/src/RBtree.cpp:238-298 | a removal follows a null sibling if and only if the node is black with a single child that is black and the loop, entered there, meets one: a condition on the tree before the call |
| `Repair.ShortIsRepaired` | src/utils/mempool/src/RBtree.cpp:137-205 | entered at a subtree that is one black node short in a tree with no other fault, the loop meets no null sibling and makes a red-black tree |
| `Repair.ErasedTreeFacts` | src/utils/mempool/src/RBtree.cpp:238-298 | a removal that comes to its end takes one node out of the order and moves no other, and leaves the root black |
| `Tree.EraseKeepsRedBlack` | src/utils/mempool/src/RBtree.cpp:244-298 | a red-black tree stays one after a removal if and only if, for a node with two children, its successor is red, and for any other that it is red, has a child or is the root |
| `Tree.BlackSuccessorUnbalances` | src/utils/mempool/src/RBtree.cpp:254-287 | four nodes of a red-black tree: the successor of the root is black and has a red child, and the removal of the root leaves the black heights unequal |
| `Tree.ErasedInorder` | src/utils/mempool/src/RBtree.cpp:244-298 | removal takes one node out of the order and moves no other |
| `Tree.RecoloredRepairable` | src/utils/mempool/src/RBtree.cpp:74-95 | with a red uncle the trouble moves two levels up and nothing else is wrong |
| `Tree.RotatedRepairable` | src/utils/mempool/src/RBtree.cpp:96-134 | with a black uncle one or two rotations end it |
| `Tree.SameInorder` | src/utils/mempool/src/RBtree.cpp:20-72 | rotations change neither contents nor order |
| `Tree.LogarithmicHeight` | src/utils/mempool/src/RBtree.cpp:74-134 | a red-black tree of n nodes has at most 2 h levels, with 2 to the power h at most n + 1 |
| `LinkedList.Add` | src/utils/mempool/include/List.h:27-34 | the circle with the new head behind the given one, linked both ways |
| `LinkedList.AddTail` | src/utils/mempool/include/List.h:37-44 | the circle with the new head at the tail |
| `LinkedList.Delete` | src/utils/mempool/include/List.h:47-56 | the circle without the head, whose links are null |
| `MemoryManager.MemoryManager.AddVma` | src/utils/mempool/include/MemoryManager.h:30-54 | refused exactly if there is no area, its range is empty or its start is taken; lost exactly if a join meets a null sibling in the tree; else tree, list and count agree again, tree and ranges are those of the addition, a page-aligned range that fits maps its addresses to its frames with its flags and no others, and a red-black tree stays one exactly if the join, if any, takes its node out cleanly |
| `MemoryManager.MemoryManager.RemoveVma` | src/utils/mempool/include/MemoryManager.h:57-67 | lost exactly if the removal meets a null sibling; else the area is out of tree, list and count, which still agree, the others keep their order, and a red-black tree stays one exactly in the clean cases |
| `MemoryManager.MemoryManager.FindVma` | src/utils/mempool/include/MemoryManager.h:72-88 | for disjoint areas the descent finds what a walk along the list finds, for every address, in no more steps than the tree is high: in a red-black tree of n areas at most 2 h, with 2 to the power h at most n + 1 |
| `MemoryManager.MemoryManager.FindVmaAfter` | src/utils/mempool/include/MemoryManager.h:91-107 | the first area in the list that starts at the address or later |
| `MemoryManager.MemoryManager.ForEachVma` | src/utils/mempool/include/MemoryManager.h:112-118 | the walk along the list passes every area, in address order |
| `MemoryManager.MemoryManager.VirtToPhys` | src/utils/mempool/include/MemoryManager.h:156-164 | for disjoint areas the translation of the one that has the address, or 0; in any case 0 or the translation of some area that has it |
| `MemoryManager.MemoryManager.InsertVmaListOrdered` | src/utils/mempool/include/MemoryManager.h:195-209 | the place in the list is the one the tree gives |
| `MemoryManager.MemoryManager.TryMergeAdjacent` | src/utils/mempool/include/MemoryManager.h:212-237 | joins with the area before, else with the one after, else not at all; lost exactly if the removal that goes with it is |
| `AddressSpace.MergeKeepsTranslation` | src/utils/mempool/include/VMA.h:58-71 | two mergeable ranges translate as one if and only if the left one is a whole number of pages |
| `AddressSpace.UnalignedMergeMovesAddresses` | src/utils/mempool/include/VMA.h:58-71 | a left range of half a page whose merge changes a translation |
| `AddressSpace.DisjointIffFits` | src/utils/mempool/include/MemoryManager.h:36-40 | disjoint areas stay disjoint if and only if the new one ends before the next one starts: its free start alone does not do it |
| `AddressSpace.FreeStartIsNotEnough` | src/utils/mempool/include/MemoryManager.h:36-40 | disjoint ranges and a new one whose start is free that overlap afterwards |
| `AddressSpace.AddedTranslation` | src/utils/mempool/include/MemoryManager.h:30-54 | with page-aligned ranges an addition keeps where every old address leads, with its flags, and maps the new range as it would be mapped alone, joined or not |
| `AddressSpace.AddedEverywhere` | src/utils/mempool/include/MemoryManager.h:30-54 | the same for all addresses at once, in the fields of the new range |
| `AddressSpace.PhysicalAddress` | src/utils/mempool/include/VMA.h:67-71 | an address of a range leads to frame number times 4096 plus its offset, modulo 2 to the 64, any other to 0 |
| `AddressSpace.JoinedIffContinues` | src/utils/mempool/include/VMA.h:58-64 | a new range that fits is joined if and only if one that is there ends where it starts, or starts where it ends, with the same flags and the page frames going on |
| `AddressSpace.JoinsBeforeFirst` | src/utils/mempool/include/MemoryManager.h:212-237 | the range before the new one is joined if it can be, and then the next one stays as it was; else the next one |
| `AddressSpace.AcceptsIff` | src/utils/mempool/include/MemoryManager.h:30-40 | a range is accepted if and only if it is not empty and no range that is there has its start |
| `AddressSpace.RunTranslation` | src/utils/mempool/include/MemoryManager.h:30-54 | over any run of additions to the ranges every address leads, and has the flags, as the one range that brought it in has it; Space.RunOverTree has the same with the tree |
| `Space.ErasedAtFacts` | src/utils/mempool/src/RBtree.cpp:238-298 | taking the node of one area out of the tree fails exactly if it meets a null sibling, else it leaves the other nodes in their order |
| `Space.AddedToFacts` | src/utils/mempool/include/MemoryManager.h:30-54 | an addition to tree and ranges fails exactly if its join meets a null sibling, else both agree again and the ranges are those of the addition |
| `Space.AddedToRedBlack` | src/utils/mempool/include/MemoryManager.h:30-54 | an addition to a red-black tree never fails, and leaves it red-black exactly if the join, if any, takes its node out cleanly |
| `Space.RunOverTree` | src/utils/mempool/include/MemoryManager.h:30-54 | a run of additions gets to its end if and only if none of them meets a null sibling when its turn comes, and then every address leads, and has the flags, as the one range that brought it in has it |
| `Space.ChangedToFacts` | src/utils/mempool/include/MemoryManager.h:30-67 | an addition or a removal fails exactly if it meets a null sibling, else tree and ranges agree again |
| `Space.RunOfChanges` | src/utils/mempool/include/MemoryManager.h:30-67 | a run of additions and removals gets to its end if and only if none of them meets a null sibling when its turn comes, and then every address leads, and has the flags, as the last range that brought it in has it, unless a range that held it has been removed since |
| `LostAddition.RunIsLost` | src/utils/mempool/src/RBtree.cpp:173-175 | eleven page-aligned ranges, each taken and fitting, that are added to an empty space: the last one joins and follows a null sibling |
| `AddressSpace.OnlyOne` | src/utils/mempool/include/VMA.h:53-55 | an address lies in at most one of several disjoint ranges |
| `ControlFlowGraph.ControlFlowGraph.Build` | src/vm/disassembly/ControlFlowGraph.cpp:9-22 | the addresses of the instructions in all blocks are exactly those that decode and can be reached from the entries; blocks start exactly at the entries and where a reachable transfer leads or falls through; in every block, behind a call or a conditional jump the target and the next address, behind a jump the target, each if inside the code, are blocks and the successors, behind a terminator there is none, and what an ordinary last instruction runs on into, if it decodes, is in some block and the successor; whatever is in a block is an entry or follows in one of these ways; successors and predecessors mirror each other afterwards if and only if they did before and no successor without a block becomes the start of one |
| `ControlFlowGraph.AllLaidOut` | src/vm/disassembly/ControlFlowGraph.cpp:188-279 | every block is laid out like that, kind by kind of its instructions |
| `ControlFlowGraph.ControlFlowGraph.ProcessPendingEntries` | src/vm/disassembly/ControlFlowGraph.cpp:87-136 | the work list ends empty, by the bytes without a block and then the entries pending, with blocks and edges in order |
| `ControlFlowGraph.ControlFlowGraph.CreateBasicBlock` | src/vm/disassembly/ControlFlowGraph.cpp:138-279 | one block from its start to the first transfer of control, known entry, undecodable byte or end of code, with everything it leads to put on the work list |
| `ControlFlowGraph.ControlFlowGraph.Branch` | src/vm/disassembly/ControlFlowGraph.cpp:198-206 | a target inside the code is marked, put on the work list and noted as an edge |
| `ControlFlowGraph.ControlFlowGraph.AddEdge` | src/vm/disassembly/ControlFlowGraph.cpp:281-303 | adds the edge to both lists, at most once, and to nothing else |
| `ControlFlowGraph.DisassemblyTracker.MarkAs` | src/vm/disassembly/DisassemblyTracker.h:78-103 | sets the mark of one byte, forwards or back, if it is inside the code |
| `ControlFlowGraph.LinkedUp` | src/vm/disassembly/ControlFlowGraph.cpp:129-135 | adding the edges changes no code and leaves every successor and predecessor list right |
| `ControlFlowGraph.MutualIff` | src/vm/disassembly/ControlFlowGraph.cpp:281-303 | after edges were added between new blocks and old, the lists mirror each other if and only if those of the old blocks did and no old block led to where a new one starts |
| `ControlFlowGraph.BuildTwice` | src/vm/disassembly/ControlFlowGraph.cpp:9-22 | a program of three instructions and two entries whose graph, built from one and then the other, has a successor that does not know its predecessor |
| `Discovery.ExactWhenDone` | src/vm/disassembly/ControlFlowGraph.cpp:87-136 | with nothing pending, covered and reachable are the same |
| `Discovery.Cover` | src/vm/disassembly/ControlFlowGraph.cpp:158-186 | taking an instruction into a block keeps the invariant: what follows it is covered, pending or still owed |
| `Discovery.Mark` | src/vm/disassembly/ControlFlowGraph.cpp:198-206 | so does marking a target, even one that was processed before |
| `Discovery.Take` | src/vm/disassembly/ControlFlowGraph.cpp:94-113 | and so does passing over an entry that is processed or has a block |
| `MachineCode.ClosedIsAll` | src/vm/disassembly/ControlFlowGraph.cpp:188-276 | a set with the entries and all that follows its members has everything reachable |
| `Interrupts.NoVmIsStuck` | src/vm/VmManager.cpp:32-472 | on every interleaving, with results at any time, any number of times and for any VM, a registered VM that is blocked has a pending record, or a request or a wake under way |
| `Interrupts.StepInv` | src/vm/VmManager.cpp:32-472 | every step of router, results, worker, timer, registration and unregistration keeps that |
| `Interrupts.PassUnblocks` | src/vm/VmManager.cpp:217-288 | a full worker pass that begins when the pending request, if any, is overdue leaves the VM unblocked, unless it has issued a newer request |
| `InterruptAnswers.OncePerCause` | src/vm/VmManager.cpp:217-472 | on every interleaving a settled request whose VM has stayed registered has been delivered as often as results have come for it, once more if its timer ran out on it, and once more if a scan of the records found it overdue |
| `InterruptAnswers.AnsweredOnceIff` | src/vm/VmManager.cpp:217-472 | such a request, if nothing else was ever under way for its VM at the same time, is delivered exactly once if and only if, with a timer, a single result came, after its record, and no scan found it overdue (or, where the timer ran out before the record, neither came), and without a timer, either a single result came or a scan found it |
| `InterruptAnswers.TimeoutAnsweredTwice` | src/vm/VmManager.cpp:246-413 | a recorded request with a timer for which no result comes is always delivered twice, by the callback of the timer and by the scan |
| `InterruptAnswers.HastyAnsweredAgain` | src/vm/VmManager.cpp:402-472 | a request with a timer for which a result comes before its record is always delivered at least twice: that result does not find the timer |
| `InterruptAnswers.NoResult` | src/vm/VmManager.cpp:246-413 | a run from the start, with one request and no result, that delivers twice |
| `InterruptAnswers.ResultTwice` | src/vm/VmManager.cpp:290-472 | a run from the start, with one request that is answered as it was sent and as it was forwarded, that delivers twice, long before the timer would run out |
| `InterruptAnswers.ResultTooSoon` | src/vm/VmManager.cpp:402-472 | a run from the start, with one request whose only result comes before its record, that delivers twice |
| `InterruptAnswers.KeptStep` | src/vm/VmManager.cpp:217-472 | every step keeps the account of every request: as many answers, delivered or under way, as causes; and for one that meets nothing else and has at most one result, not before its record, that a timer taken by the worker is followed by the scan of the same pass |
| `InterruptTimes.ScanByTime` | src/vm/VmManager.cpp:246-264 | a scan leaves the record of every VM whose timeout has not passed since its time was taken, and takes every other one |
| `InterruptTimes.CollectByTime` | src/utils/TimeoutManager.cpp:117-170 | the worker takes the timers that have run out, and calls back exactly those that are not cancelled |
| `InterruptTimes.NeverTooSoon` | src/vm/VmManager.cpp:246-264 | on every interleaving a request that the scan or its timer has answered was so answered no sooner than its timeout after the time for its record was taken |
| `InterruptTimes.BlockedUntilAnswered` | src/vm/VmManager.cpp:383-427 | on every interleaving, from the moment it blocks the VM until the first answer, a request that meets nothing else keeps its VM blocked |
| `InterruptTimes.NothingIsLeft` | src/vm/VmManager.cpp:32-53 | when a VM has been unregistered its record is gone and the timer of that record cancelled, and no other |
| `InterruptTimes.DeliveredToRegistered` | src/vm/VmManager.cpp:329-360 | handlers are called for registered VMs only, one at a time |
| `InterruptTimes.ResultsAreAQueue` | src/vm/VmManager.cpp:217-236 | results wait in a queue: they come behind the others and are taken from the front |
| `MessageRing.FirstInFirstOut` | include/router/LockFreeMessageQueue.h:25-60 | on every interleaving of the atomic steps what has been popped is a prefix of what has been pushed, at most 1023 messages are between them, and no slot is read while it is written |
| `MessageRing.StepRefinesQueue` | include/router/LockFreeMessageQueue.h:25-60 | each step appends a message to a queue of capacity 1023, takes its oldest, or leaves it alone |
| `MessageRing.RefusedIffFullOrEmpty` | include/router/LockFreeMessageQueue.h:30-51 | a push is refused if and only if the ring is full when the head is loaded, a pop if and only if it is empty when the tail is loaded |
| `MessageRing.SizeIsExact` | include/router/LockFreeMessageQueue.h:72-76 | seen from either end, size is the number of messages between the loaded head and tail |
| `MessageRing.LockFreeMessageQueue.TryPush` | include/router/LockFreeMessageQueue.h:25-40 | undisturbed, appends the message unless 1023 are waiting |
| `MessageRing.LockFreeMessageQueue.TryPop` | include/router/LockFreeMessageQueue.h:46-60 | undisturbed, takes the oldest message if there is one |
| `ThreadPool.Conservation` | src/utils/ThreadPool.cpp:27-78 | on every interleaving each accepted task is waiting, being run by one worker, or ended, and only one of these; none is run twice |
| `ThreadPool.NothingAfterLeaving` | src/utils/ThreadPool.cpp:27-61 | once a worker has left no task is accepted |
| `ThreadPool.AllRunOnce` | src/utils/ThreadPool.cpp:85-115 | when all workers have returned every accepted task has been run exactly once |
| `ThreadPool.NobodyLeavesWorkBehind` | src/utils/ThreadPool.cpp:54-61 | a worker leaves only when every accepted task has been taken, also after a shutdown that does not wait: read off the invariant that every step keeps |
| `ThreadPool.AcceptedIffRunning` | src/utils/ThreadPool.cpp:27-45 | a submission that gets the lock puts its task at the end of the queue if there has been no shutdown and is refused if there has been one |
| `ThreadPool.SomeoneGoesOn` | src/utils/ThreadPool.cpp:47-78 | as long as a worker has not left a pool that is shut down, or there is a task to take or to end, some thread can go on |
| `ThreadPool.ComesToRest` | src/utils/ThreadPool.cpp:47-78 | after a shutdown the number of further steps is bounded by the work that is left |
| `Fairness.Spread` | src/vm/Scheduler/CFS_Scheduler.cpp:210-252 | in every state reached from virtual runtime 0 no two virtual runtimes are further apart than the largest slice |
| `Fairness.FairShares` | src/vm/Scheduler/CFS_Scheduler.cpp:222-242 | below the end of the scale, turns times slices differ by no more than the largest slice |
| `Fairness.NoStarvation` | src/vm/Scheduler/CFS_Scheduler.cpp:210-252 | a task below the end of the scale waits for at most five turns of each of the others, wherever those are |
| `Fairness.SaturatedStarves` | src/vm/Scheduler/CFS_Scheduler.cpp:237-240 | at the end of the scale every further turn goes to the same task |
| `Fairness.NobodySaturates` | src/vm/Scheduler/CFS_Scheduler.cpp:222-242 | in a run of fewer than 2 to the 63 divided by 2000 rounds from 0 every virtual runtime is the number of turns times 1024000 divided by the weight |
| `Fairness.FairFromZero` | src/vm/Scheduler/CFS_Scheduler.cpp:210-252 | and such a run shares turns by weight and starves nobody, without further conditions |
| `Fairness.SliceAt` | src/vm/Scheduler/CFS_Scheduler.cpp:228-231 | a slice is 1024000 divided by the weight, rounded down |
| `CfsScheduler.CFSScheduler.ScheduleOnce` | src/vm/Scheduler/CFS_Scheduler.cpp:186-193 | one round is one step of such a run over the queued tasks, unless the first of them has the id 0 |
| `CfsScheduler.CFSScheduler.ScheduleRounds` | src/vm/Scheduler/CFS_Scheduler.cpp:186-193 | any number of rounds is such a run, and from virtual runtime 0 the runtimes of the queued tasks stay within the largest slice; fewer than 2 to the 63 divided by 2000 rounds bring nobody to the end of the scale, share the turns by weight and leave nobody out for more than five rounds for each of the others |
| `CfsScheduler.CFSScheduler.PickNextTask` | src/vm/Scheduler/CFS_Scheduler.cpp:210-220 | the first task by virtual runtime, then id; 0 if none is queued |
| `CfsScheduler.CFSScheduler.UpdateVruntime` | src/vm/Scheduler/CFS_Scheduler.cpp:222-252 | adds 1024000 divided by the weight, rounded down, to the virtual runtime, which stops at 0x7FFFFFFFFFFFFFFF, and queues the task anew; queue and map stay in step and no other task changes |
| `CfsScheduler.CFSScheduler.RegisterVm` | src/vm/Scheduler/CFS_Scheduler.cpp:50-66 | a fresh id gets a task at virtual runtime 0 with the default weight, in queue and map |
| `CfsScheduler.CFSScheduler.UnregisterVm` | src/vm/Scheduler/CFS_Scheduler.cpp:68-80 | the task is gone from both |
| `CfsScheduler.CFSScheduler.BlockVm` | src/vm/Scheduler/CFS_Scheduler.cpp:94-106 | the task leaves the queue and keeps its virtual runtime |
| `CfsScheduler.CFSScheduler.WakeVm` | src/vm/Scheduler/CFS_Scheduler.cpp:108-118 | the task comes back as it was |
| `CfsScheduler.CFSScheduler.SetVmPriority` | src/vm/Scheduler/CFS_Scheduler.cpp:155-173 | the weight changes and nothing else, except that the task is queued even if it was blocked |
| `CfsScheduler.PriorityRoundTrip` | src/vm/Scheduler/CFS_Scheduler.cpp:120-136 | a priority that was set is read back if it is one of the five, else 0 |
| `CfsScheduler.HigherPriorityCostsLess` | src/vm/Scheduler/CFS_Scheduler.cpp:8-14 | the higher the priority, the smaller the slice |
| `Timeouts.TimeoutManager.Register` | src/utils/TimeoutManager.cpp:14-89 | a timer with a fresh id is in queue and map with the same expiry; none without a positive time and a callback |
| `Timeouts.TimeoutManager.Cancel` | src/utils/TimeoutManager.cpp:91-115 | marks the timer, if it is known, and no other |
| `Timeouts.TimeoutManager.ProcessTimeouts` | src/utils/TimeoutManager.cpp:117-195 | takes, in order of expiry, exactly the timers that are due and not cancelled; every periodic one is queued anew to expire exactly a period from now, a one-shot one is gone, and nothing that is due remains |
| `Timeouts.TakenAgain` | src/utils/TimeoutManager.cpp:117-170 | a periodic timer that has been taken is taken again by the next call if and only if that comes a period later or more |
| `Timeouts.TimeoutManager.GetNextTimeoutMs` | src/utils/TimeoutManager.cpp:198-216 | the milliseconds to the first expiry, rounded down |
| `Timeouts.TimeoutManager.ClearAll` | src/utils/TimeoutManager.cpp:250-260 | empties both |
| `Timeouts.TakesAreSpaced` | src/utils/TimeoutManager.cpp:117-170 | in every state a one-shot timer has been taken at most once, and two takes of a periodic one are at least a period apart: read off the invariant that ProcessTimeouts keeps |
| `ArithmeticFlags.X86CPUVM.ExecuteAdd` | include/vm/disassembly/x86/X86Executors.h:209-248 | the sum modulo 2 to the 64 in the destination register, and the flags of that sum |
| `ArithmeticFlags.X86CPUVM.ExecuteSub` | include/vm/disassembly/x86/X86Executors.h:251-290 | the difference modulo 2 to the 64, and its flags |
| `ArithmeticFlags.X86CPUVM.UpdateArithmeticFlags` | include/vm/disassembly/x86/X86Executors.h:88-158 | the five arithmetic flags one after the other are those of the specification |
| `ArithmeticFlags.X86CPUVM.CountLowBits` | include/vm/disassembly/x86/X86Executors.h:145-150 | the loop counts the ones of the low byte |
| `ArithmeticFlags.AddOverflow` | include/vm/disassembly/x86/X86Executors.h:88-142 | after an addition CF is unsigned overflow and OF signed overflow, as section 3.4.3.1 of the Intel SDM, volume 1, has it |
| `ArithmeticFlags.SubOverflow` | include/vm/disassembly/x86/X86Executors.h:88-142 | after a subtraction CF is the borrow and OF signed overflow |
| `ArithmeticFlags.JumpsCompare` | src/vm/X86_other_instructions.cpp:98-127 | after a subtraction JB, JAE, JE, JNE, JBE, JA, JL, JGE, JLE and JG are taken exactly when the unsigned or signed comparison they are named for holds, as in appendix B of the Intel SDM, volume 1 |
| `ArithmeticFlags.JumpsOnFlags` | src/vm/X86_other_instructions.cpp:98-127 | after a subtraction JO, JS and JP are taken on signed overflow, on a negative result and on an even number of ones in its low byte, and JNO, JNS and JNP otherwise |
| `ArithmeticFlags.RegisterNumbers` | include/vm/disassembly/x86/X86Executors.h:64-85 | which number stands for which register; any other stands for RAX |
| `ArithmeticFlags.OtherBitsStay` | include/vm/disassembly/x86/X86Executors.h:88-158 | no bit of RFLAGS but 0, 2, 6, 7 and 11 changes, and PF is the even parity of the low byte |

## Left out

Compiler

- Function calls and system calls: their code is generated as the original does, but the machine stops with the status
  `Foreign` at the first push or call, and system calls, function prologues and epilogues are not in the tree.
- The assembler and the emission of machine code.
- The text of operands: registers, variables, slots and labels are different kinds of operand, so a variable whose name
  begins like a virtual register is not mistaken for one.
- The layout of the stack frame: slots are named by their offset and never overlap a variable or the saved base pointer.
- `std::sort` is a stable insertion sort on values; the second map from registers to physical registers, which always
  equals the first, is dropped.
- A return without a value says nothing about eax.
- Trees that the generator rejects with an exception cannot be written down.

Parser

- Parser.AST.ParseFactorAt: reading behind the last token is an error here; in the original it is undefined.
- Parser.AST.ParseStatementAt: system-call statements fail here; function declarations and the top level of a file are not modelled.
- Positions and memory of tokens and nodes.

Memory areas

- RBTree.RBRoot.EraseFixup: the two mirrored halves of the loop are one with a flag for the side; where the loop follows a
  null sibling the call is reported as lost and nothing is promised of the objects.
- Insertion by pointer address and the search with a comparator; names of areas and printing.
- The arithmetic that finds an area from its embedded nodes is a map from node to area.

Control-flow graph

- Decoding is a parameter: at each address an instruction inside the code with a size, a kind and a target, or nothing.
- The conflict warning of the tracker, statistics and printing have no effect and are not modelled.
- A block that runs on into the middle of another one has it as a successor though no block starts there until a later build
  makes one. The bytes of blocks may overlap, where code is entered between the bytes of an instruction; nothing is claimed
  of that.

Interrupts, ring, pool

- Memory orders weaker than sequential consistency, condition-variable wake-ups, and whether threads make progress.
- Interrupts.PassUnblocks: the clock is a number that only grows; taking the lock of a VM, waking it and calling its handler
  are one step.
- InterruptAnswers.OncePerCause: a result names a VM only; which request it counts for, or none, is a label that nothing in
  the machine looks at, and a new request is not one for which results have been counted already.
- InterruptAnswers.AnsweredOnceIff: leaves out requests that were under way together with another one of their VM, or with a
  result for it that counts for another; for those InterruptAnswers.OncePerCause gives the number of answers by their causes.
  Requests whose VM was unregistered since are not counted: their answers may find no one.
- The queue of requests by priority, which is filled and never read, the forwarding of requests, and latency statistics.
- Several producers at once, which the ring's header mentions, and the copying of a message other than as a write that
  takes time.
- The tasks of the pool are numbers; what they do, their futures and their exceptions are not modelled.

Scheduler and timeouts

- CfsScheduler.CFSScheduler.RegisterVm: asks for an id that is not in use; with one that is, queue and map would fall apart.
- The thread and its clock: a round is one call, with picking and charging as one step.
- `has_quota` looks for a task with virtual runtime 0 and is not modelled; nor are the other scheduling policies.
- Callbacks, tags and statistics of timeouts; times are parameters, in nanoseconds. Operations are atomic, as their lock
  makes them.

Flags

- RFLAGS is kept as its 64 bits, apart from the other registers. Only register operands are executed, as in the original.
- Instruction decoding, memory operands and the separate flag code of the other execution path.
