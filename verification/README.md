# Verification of the engine core

A Dafny 4.11 model of seven components of the engine's core, with proofs about every input, every run or
every reachable state.  `dafny verify dfyconfig.toml` checks the whole project.

* **Expressions** (`ExprValue` to `ExprDriver`): the type system and meaning of the expression language, a
  stack machine, and the parser, checker, code generator and evaluator as they run.  The main results are
  compiler correctness for all typed bindings, stack safety, and a parser that accepts exactly what the written
  grammar derives within the nesting cap, in one way only, and refuses anything else at its first wrong token.
* **Entity tree** (`Forest` to `HierarchyTree`): an intrusive doubly linked forest with cascade despawn,
  reparenting, nested dormancy, two-bit dirty propagation and a lazy order.  `Hierarchy.Valid` holds after the
  constructor and after every public method.
* **Event bus** (`BusModel` to `EventBus`): re-entrant dispatch with dead marks and deferral refines a simple bus
  whose lists are frozen while a cascade runs.  Listeners are any finite adaptive scripts; entity liveness is an
  oracle that listeners may change.
* **JSON and number text** (`Utf8` to `JsonWriter`, `FloatText`): the strict parser accepts exactly the grammar of
  RFC 8259 within its limits, parser and deterministic writer undo each other, and the digit placement of doubles
  denotes what it should.
* **Journal** (`JournalRecord` to `JournalReader`): record lines, the writer's ids, tiers, frames and index file, and
  a reader that is independent of chunking and seeks without losing records.
* **ECS storage** (`BitWords` to `EcsWorld`): 64-bit words, sparse set, value pool, views, slot table and structural queue.
* **Frame arena** (`FrameArena`): placement and replay.

What shared definitions mean is said a second time without them: productions, operator tables, hex digits, lines and
index files by literal tokens and bytes (`ExprProductions`, `ExprMeaning`, `JsonEscapes`, `JsonLiterals`,
`JournalLaws`), bus requests and tree operations by the lists, parents and bits before and after (`BusLaws`,
`BusListeners`, `TreeMeaning`).

Objects the source mutates are classes with the same fields; their methods are proved against functions and
predicates on values, and the properties are lemmas about those.  `hide` statements keep definitions a proof does
not need out of the solver's way; `{:induction false}` keeps proofs explicit.

Where the code and its documentation disagree the model follows the code: the written expression grammar is
ambiguous for `a.b` (`ExprGrammar.PathOrLane`), a journal record whose payload uses all 128 levels of nesting cannot
be read back, and neither can one with an empty kind (`JournalRecord.ReadsBackIff`); two records on a tick within a
stride of 2^64 can make an index its reader refuses (`JournalWriter.ClosedIndexReadsIff`); an index stride that is a
multiple of 2^32 is accepted as zero (`JournalIndex.AcceptedIndex`); and a variable in slot 32768 or higher is not
loaded (`ExprProgram.LoadWorksIff`).

Assumed, as hypotheses of the theorems that need them: float text reads back as the same double and is a number
token (`JsonRoundTrip.FloatsOk`; that it is a token is proved in `FloatText` for the placement code); decompression
from a frame boundary gives the frames' text in some chunks (`JournalReader.Decodes`); a shortest decimal has at most
17 digits and is off its double by less than a factor of two (`FloatText.Near`).

## Model

| member | source | states |
|---|---|---|
| `ExprProgram.ProgramCorrect` | core/expr/codegen.cpp:78-269 | for every well-typed tree, every compiled program and every typed binding, running the program ends with exactly the value of the direct left-to-right short-circuit evaluation as the only stack entry, or in the same first fault (division by zero, integer range) |
| `ExprCorrect.Compiles` | core/expr/codegen.cpp:78-122 | the same for a subtree in the middle of any program: its code, run from a stack with room and before any continuation, leaves that subtree's value on top or traps with its fault; untaken `&&`, `\|\|` and `?:` sides contribute nothing |
| `ExprCorrect.CompilesShortCircuit` | core/expr/codegen.cpp:137-154 | the back-patched jump of `&&`/`\|\|` skips exactly the right operand, so a right operand that is not reached cannot fault |
| `ExprCorrect.CompilesTernary` | core/expr/codegen.cpp:245-256 | the two back-patched jumps of `?:` run the condition and exactly one branch |
| `ExprCorrect.CompilesCall` | core/expr/codegen.cpp:258-269 | arguments are evaluated left to right up to the first fault, then the builtin (or conversion opcode) gets them in order |
| `ExprCorrect.CompilesStrict` | core/expr/codegen.cpp:156-243 | both operands are evaluated left to right with their int-to-float coercions, and the selected opcode computes the operator on the operand types the checker accepted |
| `ExprCorrect.SelectedOpApplies` | core/expr/codegen.cpp:156-243 | for every accepted pair of operand types the opcode chosen by type computes the operator's meaning (wrapped int64, checked division, per-lane and scalar vector forms, quaternion product) |
| `ExprCorrect.SemTyped` | core/expr/typecheck.cpp:135-406 | type soundness: the value of an accepted tree has the type the checker gave it |
| `ExprProgram.ProgramChecked` | core/expr/program.h:44-138 | every accepted program has one static stack typing: the list of value types before each instruction is fixed, branches agree where they join, each opcode finds the payload kinds it reads, heights stay within max_stack, and the exit types are the single result type |
| `ExprProgram.ProgramSafe` | core/expr/eval.cpp:66-297 | no run of an accepted program gets stuck; one that halts leaves exactly one value, tagged with the result type |
| `ExprStackTypes.CheckedRuns` | core/expr/eval.cpp:66-297 | a program that passes the stack checker never goes wrong from any stack of the entry types |
| `ExprStackTypes.StepTyped` | core/expr/eval.cpp:73-295 | one instruction accepted by the stack checker runs on every stack of those types and leads to the types recorded at its target |
| `ExprStackTypes.CodeTyped` | core/expr/codegen.cpp:78-122 | the code of every accepted tree passes the stack checker in any context that continues from the tree's type |
| `ExprProgram.ProgramFits` | core/expr/codegen.cpp:46-54 | with at most 32768 variables no 16-bit jump offset, constant index, builtin index or slot of a compiled program loses a bit |
| `ExprProgram.FewConstants` | core/expr/codegen.cpp:64-69 | constants never outnumber instructions, so the instruction limit bounds the constant indices too |
| `ExprProgram.LoadWorksIff` | core/expr/typecheck.cpp:171-185 | with up to 65536 variables a program that loads one variable computes its value if and only if the variable's slot is below 32768 (the cast of the slot to 16 bits) |
| `ExprProgram.LastSlotFails` | core/expr/typecheck.cpp:171-185 | an input that shows it: of 32769 variables the last one is declared, typed and compiled, but not loaded |
| `ExprValue.GuardedDivision` | core/expr/eval.cpp:173-179 | 64-bit division with the divisor -1 handled apart is the exact truncated quotient, wrapped; no other quotient leaves the range |
| `ExprValue.RemainderIsLeftover` | core/expr/eval.cpp:189-194 | the remainder is what the truncated quotient leaves over and smaller than the divisor |
| `ExprMeaning.OperatorTypes` | core/expr/typecheck.cpp:229-343 | a binary operator is defined for two operand types exactly where a table of literal types has them, with the result type it has there |
| `ExprMeaning.OperandTypes` | core/expr/typecheck.cpp:111-118 | operands run at their own types, except that an int beside anything else becomes a float and a string literal beside a name becomes a name |
| `ExprMeaning.PrefixIsLongest` | core/expr/typecheck.cpp:171-185 | a path resolves to the first variable named by its longest declared prefix, written with dots, and to nothing when no prefix is declared |
| `ExprMeaning.TypedIff` | core/expr/typecheck.cpp:135-413 | the check succeeds with a type exactly when a typing judgement, given rule by rule with existential operand types and resolved names, has that type for the tree |
| `ExprMeaning.OperatorErrors` | core/expr/typecheck.cpp:210-243 | operands are checked before their operator, the left one first, and an operator's own error lies at the operator |
| `ExprMeaning.ConditionalErrors` | core/expr/typecheck.cpp:345-366 | all parts of a conditional are checked before its rules; a condition that is no bool is reported at the condition |
| `ExprMeaning.NameErrors` | core/expr/typecheck.cpp:156-208 | an unresolved path is an unknown variable, a resolved one with a bad component a type error |
| `ExprMeaning.CallErrors` | core/expr/typecheck.cpp:368-382 | an unknown or dotted function name and then a wrong number of arguments are reported at the call, before any argument |
| `ExprMeaning.IntResults` | core/expr/eval.cpp:104-194 | sum, difference, product and negation are the integers equal to the exact ones up to a multiple of 2^64; division and remainder by zero are faults |
| `ExprMeaning.IntQuotients` | core/expr/eval.cpp:173-194 | quotient and remainder add up to the dividend, the remainder smaller than the divisor and with the sign of the dividend, the quotient up to a multiple of 2^64 |
| `ExprMeaning.OneQuotient` | core/expr/eval.cpp:173-194 | that describes one quotient and one remainder only |
| `ExprMeaning.IntOrders` | core/expr/eval.cpp:195-258 | the six comparisons of integers |
| `ExprMeaning.FloatResults` | core/expr/eval.cpp:107-183 | each float operator is the float unit's own, operands in order |
| `ExprMeaning.FloatOrders` | core/expr/eval.cpp:199-262 | each float comparison is the float unit's own, operands in order; inequality is the negation of equality |
| `ExprMeaning.SameResults` | core/expr/eval.cpp:227-270 | booleans, texts and names are equal when they are the same |
| `ExprMeaning.LaneResults` | core/expr/eval.cpp:110-172 | vectors are added, subtracted, multiplied and negated in every lane that has a letter; quaternions multiply by their own product |
| `ExprMeaning.ScaleResults` | core/expr/eval.cpp:156-188 | and scaled by a number on either side, or divided by one on the right |
| `ExprMeaning.LanesAreEqual` | core/expr/eval.cpp:247-274 | vectors are equal when every lane that has a letter is |
| `ExprMeaning.TruncatesTowardZero` | core/expr/eval.cpp:278-284 | int() refuses what has no value or lies outside 64 bits and otherwise gives the nearest whole number on the side of zero |
| `ExprMeaning.PathValue` | core/expr/codegen.cpp:98-103 | a path is the value of its variable, or the component of it that x, y, z or w names |
| `ExprMeaning.UnaryValue` | core/expr/codegen.cpp:124-135 | negations of booleans and of numbers, a fault passed on |
| `ExprMeaning.AndValue` | core/expr/codegen.cpp:137-154 | a false left operand is the answer whatever the right one would do; after a true one the right operand is the answer |
| `ExprMeaning.OrValue` | core/expr/codegen.cpp:137-154 | the same with true and false exchanged |
| `ExprMeaning.OperatorValue` | core/expr/codegen.cpp:156-243 | the other operators take both values, the left one's fault first, each converted by the type beside it |
| `ExprMeaning.ConditionalValue` | core/expr/codegen.cpp:245-256 | a conditional is the branch its condition picks, an int branch beside a float branch converted; the other branch is not run |
| `ExprMeaning.ArgumentFault` | core/expr/codegen.cpp:258-269 | the first argument that faults is the call's fault |
| `ExprMeaning.CallValue` | core/expr/codegen.cpp:258-269 | otherwise a call is what the first function of its name makes of the converted arguments; int() and float() convert |
| `ExprSizes.CodeLength` | core/expr/codegen.cpp:64-122 | the code of a tree has one instruction for each leaf, component, conversion, operator and call, and two more for an operator that may skip its right side and for a conditional |
| `ExprSizes.NeedIsReached` | core/expr/codegen.cpp:56-62 | the reserved stack is exactly the greatest height of the static stack typing |
| `ExprSizes.LimitsAre` | core/expr/codegen.cpp:17-30 | a well-typed tree is refused for its size exactly when it has more than 4096 of these instructions or reaches a height above 128 |
| `ExprChecker.Checker.Check` | core/expr/typecheck.cpp:135-154 | the in-place checker accepts a tree exactly when the type system does, reports the type system's first error otherwise, and annotates an accepted tree with its types, slots, lanes, builtins and coercions |
| `ExprChecker.Checker.CheckPath` | core/expr/typecheck.cpp:171-201 | the loop over prefixes finds the longest declared one; one remaining segment is a lane, more are an error |
| `ExprChecker.Checker.CheckBinary` | core/expr/typecheck.cpp:229-316 | per-operator typing with int-to-float unification and string-literal folding, the operands annotated with their coercions |
| `ExprChecker.Checker.CheckEquality` | core/expr/typecheck.cpp:318-343 | equality typing, with a string literal folded to a name against a name |
| `ExprChecker.Checker.CheckTernary` | core/expr/typecheck.cpp:345-366 | a boolean condition and branches unified to one type |
| `ExprChecker.Checker.CheckCall` | core/expr/typecheck.cpp:368-413 | callee, arity and arguments checked in order, the first failing argument deciding |
| `ExprChecker.ArgsFailAt` | core/expr/typecheck.cpp:383-411 | the first bad argument's error is the error of the whole call |
| `ExprCodegen.Codegen.EmitNode` | core/expr/codegen.cpp:78-122 | emitting a node appends exactly its code and constants and raises the tracked depth by one and the maximum depth to what the node needs |
| `ExprCodegen.Codegen.EmitShortCircuit` | core/expr/codegen.cpp:137-154 | emit a jump, emit the right side, patch the jump: the appended code is the short-circuit form with the final offset |
| `ExprCodegen.Codegen.EmitTernary` | core/expr/codegen.cpp:245-256 | both jumps patched to their final offsets and the depth restored between the branches |
| `ExprCodegen.Codegen.EmitCall` | core/expr/codegen.cpp:258-269 | arguments in order, then the call, the depth lowered by arity minus one |
| `ExprCodegen.Codegen.Run` | core/expr/codegen.cpp:17-30 | a program exactly when it has at most the allowed instructions and stack slots, else a size refusal at the root |
| `ExprEval.Eval` | core/expr/eval.cpp:66-297 | the dispatch loop on its fixed 128-slot array ends with the outcome of the program's run, every array access in range, in at most one step an instruction |
| `ExprEval.LiveTurn` | core/expr/eval.cpp:73-295 | what one turn of the loop keeps: the stack has the recorded types, and the rest of the run is the whole run's result |
| `ExprDriver.Compile` | core/expr/expr.cpp:11-19 | compilation succeeds exactly for well-typed trees within the size limits, with the first type error or a size refusal otherwise |
| `ExprDriver.CompileAndEval` | core/expr/expr.cpp:11-19 | compiling and running a tree gives the tree's own value or first fault |
| `ExprDriver.Interpret` | core/expr/expr.cpp:11-19 | from tokens to a value: a program runs exactly when the tokens are written by the grammar as a tree that nests at most 64 deep, has a type by the typing judgement and is within the size limits, and gives that tree's own value or first fault; otherwise the error is that of the first wrong token, of too deep a nesting, the first type error, or a size refusal |
| `ExprParser.Parser.Run` | core/expr/parser.cpp:23-58 | a token list is accepted exactly when the productions of the written grammar write it as a tree that nests at most 64 deep, and then as the abstract tree that one stands for; a deeper one is refused as too complex; any other list is refused at the first token that no expression can have there |
| `ExprComplete.ReadAllIff` | core/expr/parser.cpp:84-279 | the recursive descent reads a whole list as a tree if and only if the list derives that tree and the tree's nesting fits the cap |
| `ExprComplete.ReadsDerived` | core/expr/parser.cpp:69-82 | what the grammar derives is read as it derives where it fits the nesting cap, and refused as too complex where not, never as a syntax error |
| `ExprComplete.OneTree` | core/expr/parser.h:3-16 | the grammar with its precedence and associativity is unambiguous: the same tokens never derive two trees |
| `ExprProductions.DerivesIsProduction` | core/expr/parser.h:3-16 | derivation at each of the ten levels is derivation from that production of the grammar, written with its own operators |
| `ExprProductions.TighterNests` | core/expr/parser.cpp:137-156 | of any two binary operators between three literals the tighter takes its two neighbours, and two equally tight ones lean to the left: `1 + 2 * 3` is 1 + (2 * 3) |
| `ExprProductions.NestingLimit` | core/expr/parser.cpp:69-82 | a literal in seven pairs of parentheses or behind fifty-seven unary operators is read; one more is too complex |
| `ExprProductions.StandsIff` | core/expr/parser.cpp:84-279 | the abstract tree drops parentheses, keeps the order of operands, takes every second token of a path as a segment and puts each node where its operator, point or first identifier is |
| `ExprPrefixes.ErrorIsFirst` | core/expr/parser.cpp:84-279 | a syntax error is reported at the first token that no expression can have there: the tokens before it begin some expression, and with it they begin none |
| `ExprPrefixes.OneFirstWrong` | core/expr/parser.cpp:84-279 | there is at most one such token in a list |
| `ExprPrefixes.AllLocal` | core/expr/parser.cpp:84-279 | reading looks no further than where it fails: a list that begins like a refused one up to the error is refused with the same error |
| `ExprComplete.ThroughComplete` | core/expr/parser.cpp:109-135 | a left-leaning chain is read operand by operand, whatever its length |
| `ExprAccepts.TernarySound` | core/expr/parser.cpp:84-104 | what is read derives from exactly the tokens consumed, and its nesting stays under the cap |
| `ExprParser.Parser.ParseTernary` | core/expr/parser.cpp:84-104 | same tree, same position, same first error as the reading of a right-associative conditional; terminates; the nesting counter returns to its entry value and no production runs past 64 |
| `ExprParser.Parser.ParseLeft` | core/expr/parser.cpp:109-156 | the same for a left-leaning chain of each of the six precedence levels |
| `ExprParser.Parser.ParseUnary` | core/expr/parser.cpp:159-175 | the same for nested unary operators |
| `ExprParser.Parser.ParsePostfix` | core/expr/parser.cpp:177-192 | the same for lane access on anything but a bare path |
| `ExprParser.Parser.ParsePathOrCall` | core/expr/parser.cpp:246-279 | the same for a path taken as far as it goes, and a call with comma-separated arguments |
| `ExprGrammar.PathOrLane` | core/expr/parser.h:9-16 | the grammar as written reads `a.b` two ways with different trees; the derivations of the model keep the one the parser takes |
| `Forest.CycleIff` | core/hierarchy/topology.cpp:280-283 | attaching c under p keeps the parent map acyclic exactly when p lies outside c's subtree: the test that refuses a reparent is the right one |
| `Forest.MovedPathInside` | core/hierarchy/topology.cpp:293-294 | in a moved subtree every node keeps its path down to the moved root, followed by the new ancestors |
| `Forest.MovedPathOutside` | core/hierarchy/topology.cpp:293-294 | outside the moved subtree every ancestor path is unchanged |
| `ForestOrder.PreIsSubtree` | core/hierarchy/topology.cpp:250-263 | the preorder of a node lists exactly its subtree |
| `ForestOrder.PreDistinct` | core/hierarchy/topology.cpp:250-263 | and lists each node once |
| `ForestOrder.AllPreIsAll` | core/hierarchy/tree_order.cpp:23-41 | the preorder of the forest lists exactly the adopted entities |
| `ForestOrder.MovedOrder` | core/hierarchy/tree_order.cpp:23-41 | reparenting a subtree keeps the relative order of all entities outside it |
| `ForestOrder.RemovedOrder` | core/hierarchy/tree_order.cpp:23-41 | despawning a subtree leaves the order of everyone else as it was |
| `TreeLinks.AppendKeepsLinks` | core/hierarchy/topology.cpp:200-218 | appending at the end of a sibling list keeps every list doubly linked, complete and anchored at its owner |
| `TreeLinks.UnlinkKeepsLinks` | core/hierarchy/topology.cpp:220-240 | unlinking keeps every list doubly linked, complete and anchored at its owner |
| `TreeState.DepthCountsScopes` | core/hierarchy/components.h:40-42 | dormant_depth is the number of deactivated ancestors-or-self |
| `TreeMeaning.DormantIff` | core/hierarchy/components.h:40-42 | an entity is dormant exactly when it or an ancestor of it is deactivated |
| `TreeState.ShiftRepairs` | core/hierarchy/topology.cpp:295-296 | a count that is off by a delta at the top of a subtree is repaired by adding that delta to the whole subtree |
| `TreeState.UnmarkedBelow` | core/hierarchy/transforms.cpp:85-90 | below a node that is neither dirty nor marked-below nothing is dirty, so the branch may be skipped |
| `TreeState.CleanIsRecomputed` | core/hierarchy/transforms.cpp:57-93 | where nothing is dirty every world matrix is the full recomputation along its root path |
| `TreeMeaning.RecomputedIsProduct` | core/hierarchy/transforms.cpp:76-84 | that recomputation is the product of the local matrices from the root down, starting with the identity |
| `TreeSweep.SweepEnter` | core/hierarchy/transforms.cpp:76-90 | one visit of the propagation loop: the node's matrix is right afterwards and its children are owed a recomputation exactly when it was recomputed |
| `TreeSweep.SweepSkip` | core/hierarchy/transforms.cpp:85-90 | skipping an unmarked branch owes nothing |
| `TreeSweep.MarkStep` | core/hierarchy/transforms.cpp:46-54 | climbing may stop at the first marked ancestor: every marked node still has a marked-below parent |
| `TreeNumbering.CompareIsTotal` | core/hierarchy/tree_order.cpp:51-70 | the comparison is a strict total order over all entities, adopted or not |
| `TreeNumbering.ParentComesFirst` | core/hierarchy/tree_order.cpp:23-41 | every ancestor compares before its descendants |
| `TreeMeaning.CompareMeans` | core/hierarchy/tree_order.cpp:51-70 | of two listed entities the one earlier in the list is less, a listed one is less than the others, and those are ordered by slot and then generation |
| `TreeMeaning.SiblingsInOrder` | core/hierarchy/tree_order.cpp:23-41 | of two siblings the earlier one's whole subtree is listed first |
| `TreeMeaning.PathSteps` | core/hierarchy/topology.cpp:242-248 | a path starts at its node, goes from each entity to its parent and ends at a root |
| `Activity.ShiftKeepsIntended` | core/hierarchy/activation.cpp:66-113 | capture, clear and restore at any nesting leave unchanged the activity an entity will have once awake |
| `Activity.CapturedBitReturns` | core/hierarchy/activation.cpp:98-113 | when the last scope lifts, each captured row gets exactly its bit from capture time whatever was written meanwhile, and a row added meanwhile keeps the bit it was given |
| `Activity.LastScopeRestores` | core/hierarchy/activation.cpp:98-113 | once the last scope is lifted the rows are exactly those that were intended |
| `TreeMeaning.DownAndUp` | core/hierarchy/activation.cpp:34-113 | a scope put on a subtree and lifted again leaves every count and every active bit as it was |
| `Activity.CaptureStep` | core/hierarchy/activation.cpp:86-95 | the interleaved present/active words record each pool's row and bit in its own position |
| `Activity.RestoreDone` | core/hierarchy/activation.cpp:102-103 | stopping at the pools covered by the saved words restores everything that was captured |
| `TreeDormancy.RoomBelow` | core/hierarchy/activation.cpp:70-73 | the delta never takes a count of the subtree below zero |
| `TreeDormancy.ShiftKeepsActivity` | core/hierarchy/activation.cpp:66-80 | a delta over a subtree keeps every node's captured words consistent and every intended activity as it was |
| `TreeMeaning.MovedMeans` | core/hierarchy/topology.cpp:288-299 | a moved entity has its new parent and is last in that list; every other parent stays, and every list but the one it left |
| `TreeMeaning.WorldAnswers` | core/ecs/world.h:108-111 | the world refuses a new row during iteration first, then for a pending and then for a stale handle |
| `TreePrune.CascadeStep` | core/hierarchy/topology.cpp:310-316 | each round of the despawn loop takes away one child's whole subtree and nothing else |
| `TreePrune.CascadeEnd` | core/hierarchy/topology.cpp:310-320 | when no child is left the descendants are exactly what is gone |
| `TreePrune.RemovalKeeps` | core/hierarchy/topology.cpp:304-320 | after a despawn the whole invariant holds of what is left, in the order it was in |
| `HierarchyTree.Hierarchy.constructor` | core/hierarchy/topology.cpp:71-84 | an empty forest over a world satisfies the invariant |
| `HierarchyTree.Hierarchy.PushChildren` | core/hierarchy/topology.cpp:259-261 | walking last child to first pushes a node's children so that the first is on top |
| `HierarchyTree.Hierarchy.SubtreeContains` | core/hierarchy/topology.cpp:242-248 | climbing the parents decides membership in a subtree |
| `HierarchyTree.Hierarchy.CollectSubtree` | core/hierarchy/topology.cpp:250-263 | the stack loop collects the subtree in preorder |
| `HierarchyTree.Hierarchy.LinkLast` | core/hierarchy/topology.cpp:200-218 | the node is last in the new parent's list, all links consistent, all other data kept |
| `HierarchyTree.Hierarchy.Unlink` | core/hierarchy/topology.cpp:220-240 | the node is in no list, all links consistent, all other data kept |
| `HierarchyTree.Hierarchy.Adopt` | core/hierarchy/topology.cpp:101-124 | refused for an adopted entity, mid-iteration, or a pending or stale handle; otherwise a fresh last root with one active row in each of the tree's three pools, everyone else unchanged |
| `HierarchyTree.Hierarchy.ApplyReparent` | core/hierarchy/topology.cpp:267-300 | strangers become roots first; refused, and counted, exactly when the new parent lies in the child's own subtree; otherwise the child hangs under the new parent as its last child, every other entity keeps its parent, and everyone outside the subtree keeps order and activity |
| `HierarchyTree.Hierarchy.Move` | core/hierarchy/topology.cpp:280-300 | the same for two adopted entities, with the counts, marks and captured activity repaired |
| `HierarchyTree.Hierarchy.Despawn` | core/ecs/world.cpp:116-134 | removes exactly the entity's subtree: nodes, rows and handles; everyone else keeps data, list order, tree order and intended activity |
| `HierarchyTree.Hierarchy.OnDespawn` | core/hierarchy/topology.cpp:304-320 | the re-entrant cascade terminates and unlinks the entity once its descendants are gone |
| `HierarchyTree.Hierarchy.RebuildOrder` | core/hierarchy/tree_order.cpp:23-41 | every entity's cached index is its preorder position |
| `HierarchyTree.Hierarchy.OrderIndex` | core/hierarchy/tree_order.cpp:43-49 | the index read is never stale: it is the position in the preorder of the present tree |
| `HierarchyTree.Hierarchy.CompareEntities` | core/hierarchy/tree_order.cpp:51-70 | adopted entities compare by preorder position, before unadopted ones, those by slot and generation |
| `HierarchyTree.Hierarchy.MarkDirty` | core/hierarchy/transforms.cpp:43-55 | the node is dirty, only its ancestors are newly marked, and every mark again has a marked-below parent |
| `HierarchyTree.Hierarchy.SetLocal` | core/hierarchy/transforms.cpp:24-33 | writes one local transform and marks; refused for an unadopted entity |
| `HierarchyTree.Hierarchy.Propagate` | core/hierarchy/transforms.cpp:57-93 | afterwards every world matrix is its parent's times its own local one (the identity's for a root), equals the full recomputation along its root path, and nothing is marked, although unmarked branches were not visited |
| `HierarchyTree.Hierarchy.Deactivate` | core/hierarchy/activation.cpp:34-43 | raises the count of exactly the subtree by one; every row of an entity in it that was awake is switched off and no other bit changes; no intended activity changes |
| `HierarchyTree.Hierarchy.Activate` | core/hierarchy/activation.cpp:45-54 | lowers the count of exactly the subtree by one; entities whose last scope that was have exactly their intended activity, and no other bit changes |
| `HierarchyTree.Hierarchy.ApplyDormancyDelta` | core/hierarchy/activation.cpp:66-80 | each node of the subtree is shifted once, with capture or restore at the boundary; no other row changes |
| `HierarchyTree.Hierarchy.CaptureAndClear` | core/hierarchy/activation.cpp:82-96 | saves presence and activity of every row of the entity and clears its bits |
| `HierarchyTree.Hierarchy.RestoreActivity` | core/hierarchy/activation.cpp:98-113 | gives the captured rows that still exist their bits back and touches no other row |
| `HierarchyTree.Hierarchy.SetActive` | core/ecs/world.h:122-131 | refused for a stale or pending handle or a missing component; a write to a captured row does not change the bit it wakes up with; any other row's write counts |
| `HierarchyTree.Hierarchy.EmplaceRow` | core/ecs/world.h:107-118 | refused mid-iteration, for a stale or pending handle or a duplicate; a row added at any time keeps the bit it is given; the invariant holds afterwards if and only if the row is not put into one of the tree's own three pools from outside |
| `HierarchyTree.Hierarchy.Spawn` | core/ecs/world.cpp:107-114 | a new live entity leaves the whole invariant in place; refused mid-iteration |
| `HierarchyTree.Hierarchy.MakeAlive` | core/ecs/world.cpp:175-184 | so does a pending entity that comes alive |
| `SimpleBus.TriggerGrows` | core/bus/bus.cpp:278-386 | inside a dispatch every key's list is frozen whatever the listeners do; stale marks, queued requests and journal records are only added |
| `SimpleBus.DispatchGrows` | core/bus/bus.cpp:388-441 | the same for one dispatch level, which delivers at most once per listed entry |
| `BusProperties.CascadeSettles` | core/bus/bus.cpp:228-251 | after an outermost trigger the bus is at rest: the lists are those of before, less what was found stale, with the queued requests served in queue order; nothing is stale or queued |
| `BusProperties.ServeAllUnique` | core/bus/bus.cpp:231-241 | serving subscribes and unsubscribes in any order never puts one identity on a key twice |
| `BusProperties.RequestsRest` | core/bus/bus.cpp:176-205 | subscribing and unsubscribing at rest leave the bus at rest |
| `BusProperties.TriggerIsRecorded` | core/bus/bus.cpp:336-385 | at every depth, an accepted trigger's record gets the next id, with the exact live subscriber count, and stays where it is whatever its listeners do |
| `BusProperties.DeliveriesAreRecorded` | core/bus/bus.cpp:336-441 | at the moment any listener of a cascade begins, at any depth, the id it is handed names a record already in the journal, of a trigger of that event on that key |
| `BusProperties.HandedIsKnown` | core/journal/writer.cpp:182-194 | whenever a listener cites the id it was handed, the record is refused if and only if the journal is broken or the write fails, never for an unknown cause |
| `BusProperties.TriggerCausal` | core/journal/writer.cpp:182-194 | whatever listeners cite and whichever writes fail, every record's cause is smaller than its id, so causes form a forest |
| `BusProperties.TriggerSound` | core/bus/bus.cpp:360-373 | with listeners that cite only records they have seen or the id they were handed, and writes that succeed, no cascade is ever refused for an unknown cause |
| `BusProperties.TriggerGoneListed` | core/bus/bus.cpp:408-421 | at every depth, only listed entries are ever marked stale |
| `BusListeners.IdentityIsFlavor` | core/bus/bus.cpp:128-174 | with entities that are not null two subscribe calls make one subscription only if they name the same listener or thunk, the same entity and the same flavor |
| `BusListeners.DeliveriesAreAwake` | core/bus/bus.cpp:398-424 | at every depth, whoever is delivered to has no entity or one that is alive at that moment |
| `BusListeners.SteadyIsHeard` | core/bus/bus.cpp:398-424 | a plain listener, or one whose entity is alive throughout, is handed every accepted trigger of its key with that event, the validated payload and the trigger's record id |
| `BusListeners.DeadIsDropped` | core/bus/bus.cpp:408-421 | an entity that is stale when its key is triggered is delivered to at no depth, is off the key's list when the outermost trigger is over, and cannot subscribe again |
| `BusLaws.HeardInOrder` | core/bus/bus.cpp:391-397 | two entries that are alive throughout are heard in the order of their subscription |
| `BusLaws.EveryoneCounts` | core/bus/bus.cpp:391-440 | with every entry alive and every thunk handling the event, the count of deliveries is the length of the list |
| `BusLaws.EntryLaws` | core/bus/bus.cpp:398-435 | an entry marked stale before is passed over, a pending entity's is skipped and counted, a stale one's is marked and counted, and the others run and count as delivered unless a thunk declines |
| `BusLaws.RefusedTriggers` | core/bus/bus.cpp:281-330 | the null key is refused without a record; the 33rd nested dispatch and then a payload that does not fit are refused with one; nothing but the journal changes |
| `BusLaws.RecordedTriggers` | core/bus/bus.cpp:360-380 | any other trigger is accepted exactly when the journal takes its record, and nobody hears one without a record |
| `BusLaws.SubscribeLaws` | core/bus/bus.cpp:176-193 | at rest a first subscribe goes last on its key's list, a second is refused, and no other list changes |
| `BusLaws.UnsubscribeLaws` | core/bus/bus.cpp:195-205 | at rest an unsubscribe takes its entry out and leaves the others in order |
| `BusLaws.ServedInOrder` | core/bus/bus.cpp:228-242 | waiting requests are served from the front of the queue |
| `BusLaws.ServedLate` | core/bus/bus.cpp:228-242 | each does what it does at rest, but that a duplicate is counted and dropped |
| `BusTables.CascadeOver` | core/bus/bus.cpp:242-249 | when a cascade ends, the live entries of the table are the frozen lists less the stale ones |
| `BusTables.CountIsKept` | core/bus/bus.cpp:269-274 | entries minus dead_count is exactly the number of live subscriptions |
| `BusTables.EraseLive` | core/bus/bus.cpp:218-225 | erasing the first live entry of an identity takes exactly that identity off the live list, with dead entries in between |
| `BusTables.CompactStep` | core/bus/bus.cpp:244-249 | compacting one dirty channel keeps every live list |
| `EventBus.EventBus.TriggerEvent` | core/bus/bus.cpp:278-386 | refines the simple bus: same journal, same result, and the same deliveries in the same order with the same journal before each, for every set of finite listeners; terminates under the cap of 32; at depth 0 nothing is dead-marked or deferred afterwards |
| `EventBus.EventBus.DispatchChannel` | core/bus/bus.cpp:388-441 | one re-entrant dispatch level refines the simple bus's walk over the frozen list |
| `EventBus.EventBus.DispatchEntry` | core/bus/bus.cpp:397-435 | dead entries are passed over, pending ones skipped, stale ones dead-marked, the others delivered and counted |
| `EventBus.EventBus.ApplyDeferred` | core/bus/bus.cpp:228-251 | serving the queue first and compacting afterwards gives the same lists as removing the stale entries first |
| `EventBus.EventBus.SubscribeAny` | core/bus/bus.cpp:128-193 | refused for a stale entity, a null key or, at rest, a duplicate; queued while anything dispatches |
| `EventBus.EventBus.UnsubscribeAny` | core/bus/bus.cpp:134-205 | an absent subscription is a counted no-op; queued while anything dispatches |
| `EventBus.EventBus.SubscriberCount` | core/bus/bus.cpp:269-274 | the number of live subscriptions |
| `JsonRoundTrip.RoundTrip` | core/base/json_parse.cpp:81-348 | parsing the dump of any value of null, booleans, int64, well-formed strings, arrays and distinct-key objects nested at most 128 deep returns that value |
| `JsonRoundTrip.ParseOfDump` | core/base/json_write.cpp:132-178 | with doubles, parsing a dump gives the value's normal form (non-finite doubles become null, integer texts within int64 become integers) |
| `JsonRoundTrip.DumpIsFixed` | core/base/json_parse.cpp:386-403 | dump of parse of dump is the dump |
| `JsonRoundTrip.AcceptedText` | core/base/json_parse.cpp:412-442 | every accepted text yields a value with int64 integers, well-formed strings, distinct keys and depth at most 128, and its dump is a fixed point |
| `JsonGrammar.DocumentIff` | core/base/json_parse.cpp:81-442 | the parser accepts a text as a value if and only if the grammar of RFC 8259 derives the text for that value, with at most 128 levels, distinct keys, paired surrogates and numbers in range |
| `JsonGrammar.StringRead` | core/base/json_parse.cpp:199-296 | whatever string is read consists of plain characters, short escapes and paired unicode escapes in quotes, and its content is what they stand for |
| `JsonGrammar.UnitsRead` | core/base/json_parse.cpp:199-296 | and every such string is read whole, whatever follows |
| `JsonGrammar.TreeRead` | core/base/json_parse.cpp:81-188 | every grammatical value is read to its end, at any depth, in any context that may follow a value |
| `JsonRoundTrip.ValueGood` | core/base/json_parse.cpp:81-188 | what the parser returns at a nesting depth fits the remaining depth budget |
| `JsonRoundTrip.CharactersGood` | core/base/json_parse.cpp:199-296 | every parsed string, escapes and surrogate pairs included, is well-formed UTF-8 as section 4 of RFC 3629 defines it |
| `JsonRoundTrip.CharactersBack` | core/base/json_write.cpp:27-64 | reading an escaped string gives it back |
| `Utf8.SequenceIsEncoding` | core/base/json_parse.cpp:325-348 | the lead and continuation byte table accepts only encodings of Unicode scalar values beyond ASCII |
| `Utf8.EncodingIsSequence` | core/base/json_parse.cpp:325-348 | and accepts each of them at its full length, whatever follows |
| `JsonNumbers.ScansToken` | core/base/json_parse.cpp:350-403 | every number token of section 6 of RFC 8259 is scanned whole and gives its integer or double meaning |
| `JsonNumbers.ScannedIsToken` | core/base/json_parse.cpp:350-403 | and whatever is scanned is such a token with that meaning |
| `JsonNumbers.SpelledOnce` | core/base/json_write.cpp:66-71 | a digit string without leading zeros is the decimal text of its value |
| `JsonEscapes.HexDigits` | core/base/json_parse.cpp:306-312 | exactly the bytes 0-9, a-f and A-F are hex digits, with the values 0 to 15 in both cases |
| `JsonEscapes.EscapedScalar` | core/base/json_parse.cpp:265-291 | every scalar below 2^16 written as a unicode escape, with each of its four digits in either case, parses to its encoding |
| `JsonEscapes.EscapedPair` | core/base/json_parse.cpp:271-288 | every scalar from 2^16 on written as its two surrogates, in any mix of cases, parses to its encoding |
| `JsonEscapes.ShortEscapes` | core/base/json_parse.cpp:236-263 | the eight short escapes stand for their bytes, from literal documents, and every other letter is refused |
| `JsonEscapes.PlainCharacter` | core/base/json_parse.cpp:214-232 | every other scalar value from the space on stands for itself |
| `JsonLiterals.EncodingMeans` | core/base/json_parse.cpp:325-348 | how the bytes of an encoding of one to four bytes add up to its scalar value |
| `JsonLiterals.NumbersAre` | core/base/json_parse.cpp:384-403 | a number without fraction and exponent is an integer when it fits 64 bits, except minus zero; every other is a double where the conversion has one |
| `JsonLiterals.DigitsMean` | core/base/json_parse.cpp:384-403 | a run of digits means its decimal value |
| `JsonLiterals.TokensAre` | core/base/json_parse.cpp:350-383 | number tokens from literal bytes: no leading zero, digits behind a point, an optional sign and digits behind an e |
| `JsonLiterals.BlanksAround` | core/base/json_parse.cpp:72-79 | any run of space, tab, newline and carriage return is allowed around a value |
| `JsonLiterals.DepthLimit` | core/base/json_parse.cpp:158-160 | 128 lists in each other are read, and any more are refused at the bracket that is too deep |
| `JsonLiterals.ObjectDepthLimit` | core/base/json_parse.cpp:113-115 | the same for objects |
| `JsonLiterals.SampleIsRead` | core/base/json_write.cpp:132-178 | one document, byte by byte, is the text of one value and is read as it |
| `JsonLiterals.RefusedNumbers` | core/base/json_parse.cpp:356-383 | a minus alone, a leading zero, a point and an exponent without digits are refused at the start of the number |
| `JsonLiterals.RefusedStrings` | core/base/json_parse.cpp:199-240 | an unterminated string is refused at its quote, a control byte and a bad sequence where they are |
| `JsonLiterals.RefusedLists` | core/base/json_parse.cpp:170-187 | what is wrong behind an element of a list, and where |
| `JsonLiterals.RefusedTwice` | core/base/json_parse.cpp:126-133 | a repeated key is refused at its opening quote |
| `JsonLiterals.RefusedEscapes` | core/base/json_parse.cpp:265-316 | a short, a bad, a lone low, an unpaired high and a wrongly paired escape are refused at the first backslash |
| `JsonParser.Parser.ParseDocument` | core/base/json_parse.cpp:412-442 | accepts exactly the texts of the grammar, with the value they denote; agrees with the grammar functions on remaining input, first error and its byte offset, and brings the depth counter back to zero |
| `JsonParser.Parser.ParseValue` | core/base/json_parse.cpp:81-104 | the same for one value at any depth |
| `JsonParser.Parser.ParseObject` | core/base/json_parse.cpp:113-156 | members in order, duplicate keys refused at the key, depth counted and restored |
| `JsonParser.Parser.ParseArray` | core/base/json_parse.cpp:158-188 | elements in order, depth counted and restored |
| `JsonParser.Parser.ParseString` | core/base/json_parse.cpp:199-234 | bytes appended unit by unit are the string's content |
| `JsonParser.Parser.ParseUnicode` | core/base/json_parse.cpp:265-291 | surrogate pairs combined, lone surrogates refused |
| `JsonParser.Parser.ParseNumber` | core/base/json_parse.cpp:350-403 | sign, whole part, fraction and exponent scanned, then read as an integer or a double |
| `JsonWriter.Writer.Write` | core/base/json_write.cpp:132-178 | appends exactly the value's text |
| `JsonWriter.Writer.WriteArray` | core/base/json_write.cpp:152-160 | the comma test on the buffer's last byte puts a comma before every element but the first |
| `JsonWriter.LastByte` | core/base/json_write.cpp:155-156 | no value's text ends in an opening bracket, which that test relies on |
| `JsonLiterals.TextsAre` | core/base/json_write.cpp:132-178 | the text of every kind of value from literal bytes, elements and members joined by single commas |
| `JsonLiterals.EscapesAre` | core/base/json_write.cpp:27-64 | what the writer makes of each byte of a string |
| `JsonLiterals.DecimalsAre` | core/base/json_write.cpp:66-71 | integers in decimal without leading zeros, a minus sign in front of negative ones |
| `JsonWriter.PutThenFind` | core/base/json_write.cpp:97-118 | after a set, find returns the new value for that key and the old answer for every other |
| `JsonWriter.PutKeepsPlaces` | core/base/json_write.cpp:97-108 | setting keeps every key in its place; a new key goes last |
| `FloatText.ExactIntegerDigits` | core/base/float_format.cpp:39-71 | for every magnitude below 10^23 the digits are exact; from 2^53 on they come from the in-place decimal doubling of the mantissa, inside its 32-byte buffer |
| `FloatText.DoubleDigits` | core/base/float_format.cpp:57-62 | one pass from the last digit doubles the number, the carry left over counted in |
| `FloatText.PushFront` | core/base/float_format.cpp:63-68 | shifting the digits by one and storing the carry in front |
| `FloatText.ExactIsSmall` | core/base/float_format.cpp:87-98 | with at most 17 significant digits the exact expansion is only chosen for a scientific exponent of at most 21 |
| `FloatText.ExactIsBounded` | core/base/float_format.cpp:87-98 | a decimal of at most 17 digits that takes the exact form has a magnitude below 10^23, so the buffer is never overrun |
| `FloatText.GeneralDenotes` | core/base/float_format.cpp:94-123 | every other form denotes exactly significand times 10^exponent |
| `FloatText.GeneralIsToken` | core/base/float_format.cpp:78-124 | every form is a number of section 6 of RFC 8259 |
| `FloatText.GeneralLength` | core/base/float_format.cpp:89-94 | and has the length that was computed to choose it |
| `FloatText.ShorterIsChosen` | core/base/float_format.cpp:87-123 | what is written is the shorter of the plain and the scientific notation, each spelled out, ties plainly |
| `FloatText.Text.AppendGeneral` | core/base/float_format.cpp:78-124 | the appends spell the chosen form for every decimal of at most 17 digits and its magnitude |
| `JournalRecord.ReadsBackIff` | core/journal/record.cpp:44-97 | a record comes back from its line, up to the normal form of doubles, if and only if its numbers fit 63 bits, its id is not zero, its kind is non-empty well-formed text and its payload is an object nested at most 127 deep |
| `JournalLaws.LineText` | core/journal/record.cpp:44-54 | a record's line byte by byte: six keys in fixed order, numbers as signed 64-bit decimals, an empty payload left out |
| `JournalLaws.RecordIff` | core/journal/record.cpp:56-97 | an object is read as a record exactly when it has no key but the six, numbers below 2^63, an id other than 0, a known tier, a kind that is not empty and an object as payload, if any; and then as the record with those fields |
| `JournalLaws.RecordRefusals` | core/journal/record.cpp:61-67 | no object and a foreign key are refused before anything else |
| `JournalLaws.LinesAre` | core/journal/writer.cpp:213-222 | a journal's text is each record's line and one newline behind it |
| `JournalRecord.EmptyKindRefused` | core/journal/record.cpp:44-97 | an input that shows it: a record with an empty kind is written and then refused |
| `JournalRecord.DeepPayloadRefused` | core/journal/record.cpp:44-97 | an input that shows it: a payload of 128 levels is a document of its own, but its record's line is not read back |
| `JournalRecord.ReadsBack` | core/journal/record.cpp:56-97 | the direction readers rely on |
| `JournalFrames.EntriesIncrease` | core/journal/bundle.cpp:211-216 | index entries a writer makes increase strictly in tick, record id, offset and frame offset, as the index check demands |
| `JournalFrames.WrapIsAlone` | core/journal/writer.cpp:198-209 | the sum of tick and stride is taken modulo 2^64: once it wraps around, every further record opens a frame of its own |
| `JournalFrames.WrapRepeatsTick` | core/journal/writer.cpp:198-209 | an input that shows it: two records on the last tick of all make two index entries with the same tick |
| `JournalIndex.IndexReadsBackIff` | core/journal/bundle.cpp:150-218 | an index comes back from its JSON if and only if its numbers fit 63 bits, its stride is a positive 32-bit number and its entries increase strictly in all four numbers |
| `JournalIndex.IndexFileBackIff` | core/journal/bundle.cpp:150-218 | the same for the file as it is written, newline included |
| `JournalIndex.AcceptedIndex` | core/journal/bundle.cpp:171-218 | every accepted index has strictly increasing entries; its stride was checked before the cut to 32 bits, so it is zero exactly for a multiple of 2^32 |
| `JournalIndex.ZeroStrideAccepted` | core/journal/bundle.cpp:182-191 | an input that shows it: a file with stride 2^32 is accepted, with stride 0 |
| `JournalIndex.ReadEntriesIff` | core/journal/bundle.cpp:194-216 | the entries are read exactly when every element is one and they increase strictly, and then in order |
| `JournalIndex.ToJson` | core/journal/bundle.cpp:150-169 | the loop writes one object per entry, in order |
| `JournalIndex.FromJson` | core/journal/bundle.cpp:171-218 | the loop stops at the first fault and reports it |
| `JournalLaws.IndexText` | core/journal/bundle.cpp:150-168 | the index file byte by byte |
| `JournalLaws.IndexIff` | core/journal/bundle.cpp:170-218 | an object is read as an index exactly when it has no key but the five, the schema, numbers below 2^63, a stride other than 0 and a list of entries that increase in all four numbers; and then as that index, its stride modulo 2^32 |
| `JournalLaws.EntryIff` | core/journal/bundle.cpp:194-207 | an element is read as an entry exactly when it is an object with the four numbers and no other key |
| `JournalIndex.WriterIndexInBounds` | core/journal/bundle.cpp:194-216 | the index a writer makes meets all demands of its reader, increasing entries included, if and only if the last frame begins (tick, id, place) and the text ends within 63 bits |
| `JournalWriter.ClosedIndexReadsIff` | core/journal/writer.cpp:262-269 | the index file of a finished journal is read back as it was under exactly that condition |
| `JournalFrames.NothingSkipped` | core/journal/reader.cpp:235-241 | nothing at or past the target tick lies before the frame a seek picks |
| `JournalFrames.SkipsLittle` | core/journal/reader.cpp:181-182 | what is read past before the target spans less than one stride of ticks |
| `JournalWriter.TiersDoNotMatter` | core/journal/writer.cpp:180-196 | two writers fed the same submissions under any two tier settings write the same flight lines |
| `JournalLaws.TiersAre` | core/journal/bundle.h:52-55 | flight records are always written, snapshots and traces when their own flag is set |
| `JournalLaws.SubmissionLaws` | core/journal/writer.cpp:168-196 | a submission is accepted, with the next id, when the journal is open and sound, time does not go back and the cause is known; otherwise the first thing wrong sticks |
| `JournalLaws.IdsCount` | core/journal/writer.cpp:192-196 | a run without refusals numbers its submissions one by one, written or not |
| `JournalWriter.Writer.Append` | core/journal/writer.cpp:168-226 | ids, refusals and sticky errors are those of the tier-free rule; a record is written exactly when its tier is enabled; ids increase, ticks do not go back, causes are older |
| `JournalWriter.Writer.Write` | core/journal/writer.cpp:198-225 | a new frame starts when the next cut, in 64-bit arithmetic, is reached; every frame's content is its records' lines and its index entry says where it starts |
| `JournalWriter.Writer.Close` | core/journal/writer.cpp:247-270 | ends the open frame; an index with the exact counts is made only for a journal that never failed |
| `JournalWriter.Writer.SubmitAll` | core/journal/writer.cpp:168-226 | over a whole run without I/O failure the ids and the written records are those of the tier-free rule |
| `JournalReader.Reader.Next` | core/journal/reader.cpp:163-228 | the next record, end or error depends on the remaining text only, not on how its bytes are cut into chunks; errors are sticky |
| `JournalReader.Reader.SeekToTick` | core/journal/reader.cpp:230-256 | picks the last frame whose first tick is not past the target and rewinds the buffers to it; an earlier error stays and is returned, a failing seek sets one |
| `JournalReader.SeekReadsRest` | core/journal/reader.cpp:230-256 | on a bundle the writer made, a seek followed by reading on gives exactly the records from that tick on, for any chunking |
| `JournalReader.SeekAndRead` | core/journal/reader.cpp:163-256 | the same, run: seek, then repeated next; only an earlier error or a failing seek keeps it from giving those records |
| `JournalReader.ReadsLines` | core/journal/reader.cpp:163-184 | reading the lines of readable records gives those records from the skip tick on, then a clean end |
| `JournalLaws.ReadingLaws` | core/journal/reader.cpp:163-217 | text without a newline must be empty and end with a frame; a line is a record, passed over when it is before the skipped-to tick, or an error |
| `JournalLaws.FromIsRest` | core/journal/reader.cpp:181-182 | the records from a tick on are the journal's rest from the first one that is not before it |
| `BitWords.ClearLowest` | core/ecs/view.h:62-63 | on 64-bit words, w & (w - 1) clears the bit at the number of trailing zeros and nothing else |
| `BitWords.LowestCleared` | core/ecs/view.h:60-63 | so taking the lowest bit and clearing it leaves exactly the other bits |
| `BitWords.MaskBit` | core/ecs/view.h:57-59 | the mask for the tail keeps exactly the bits below it |
| `EcsSparse.WithBit` | core/ecs/sparse_set.h:133-142 | writing one bit of a word leaves every other bit of every word as it was |
| `EcsSparse.SparseSet.Insert` | core/ecs/sparse_set.h:54-64 | appends one row with its bit; the sparse side and the dense rows stay a bijection |
| `EcsSparse.SparseSet.Remove` | core/ecs/sparse_set.h:68-82 | the last row takes the removed one's place with its active bit; the bijection stays |
| `EcsSparse.SparseSet.SetActive` | core/ecs/sparse_set.h:104-107 | one bit changes and nothing moves |
| `EcsSparse.SwapPopDrops` | core/ecs/sparse_set.h:68-82 | swap-and-pop drops exactly one entity's row; every other row survives as it was |
| `EcsSparse.SwapPopAt` | core/ecs/sparse_set.h:68-82 | every element keeps its place but the last, which takes the place given up |
| `EcsSparse.FindsRow` | core/ecs/sparse_set.h:85-94 | looking an entity up finds its one row, or nothing |
| `EcsSparse.Pool.Erase` | core/ecs/pool.h:78-86 | the last value follows the last row |
| `EcsSparse.Pool.Emplace` | core/ecs/pool.h:72-76 | row and value are appended together |
| `EcsSparse.ValuesFollow` | core/ecs/pool.h:78-86 | erasing one entity leaves every other entity's value with it |
| `EcsView.ScanActiveRows` | core/ecs/view.h:50-66 | on 64-bit words with the tail masked off, visits exactly the set bits below the count, each once, in order |
| `EcsView.EachFrom` | core/ecs/view.h:128-162 | whichever pool drives, every entity with all queried components (active unless asked otherwise) is visited exactly once, in the driver's dense order, with its own row in every pool, and no other |
| `EcsView.Each` | core/ecs/view.h:103-120 | an entity is visited exactly when every queried set lists it, with its bit set unless inactive rows are asked for, once each, in the dense order of the first smallest pool, with its own row in every pool |
| `EcsView.QueriedIs` | core/ecs/view.h:144-162 | listed with its bit set in every set, said of dense lists and words, is what the join asks |
| `EcsView.DriverIndex` | core/ecs/view.h:111-120 | the first smallest pool drives |
| `EcsWorld.World.FlushStructural` | core/ecs/world.cpp:160-209 | applies every command in queue order or, for a reparent without a handler or during iteration, changes nothing; the handler gets child and new parent of exactly the queued reparents whose entities are live at their turn, in order; the live handles are those after the last turn; applied counts the commands that took effect, applied plus dropped is the queue length; nothing is left pending |
| `EcsWorld.QueueMeans` | core/ecs/world.cpp:175-204 | command by command: a spawn adds its handle, a despawn takes a live one and its cascade, a reparent changes no handle and is handed on when both its entities are live at its turn |
| `EcsWorld.NothingInTheWay` | core/ecs/world.cpp:175-204 | without a despawn in the queue, the live handles at each turn are those of the start and those spawned earlier in the queue |
| `EcsWorld.SpawnDue` | core/ecs/world.cpp:175-184 | a queued spawn is still pending when its turn comes: no spawn is ever dropped |
| `EcsWorld.SpentForGood` | core/ecs/entity.h:82-92 | with generations of 32 bits, a handle in use names its slot again later if and only if the slot was meanwhile released a multiple of 2^32 times; short of that a released handle is dead |
| `EcsWorld.HandlesAre` | core/ecs/entity.h:82-107 | a handle is live or pending by the generation and the state its slot holds now |
| `EcsWorld.World.Allocate` | core/ecs/entity.h:65-80 | the slot freed last is reused first, under the generation its release left; only without one a new slot is made; the free list names each free slot once |
| `EcsWorld.World.Release` | core/ecs/entity.h:109-115 | the handle names nothing any more, its slot is last on the free list with the next 32-bit generation, the alive count is exact |
| `EcsWorld.World.QueueSpawn` | core/ecs/world.cpp:136-140 | a slot is pending exactly when one unapplied spawn command names it |
| `EcsWorld.World.DespawnDirect` | core/ecs/world.cpp:116-134 | refused during iteration or for a pending or stale handle; otherwise the entity and its cascade are gone |
| `FrameArena.Replay` | core/base/arena.cpp:45-50 | replaying a request sequence after a reset gives every request the same block and offset and ends with as many blocks as there were before and after the reset |
| `FrameArena.RunDisjoint` | core/base/arena.cpp:11-34 | allocations since the last reset do not overlap |
| `FrameArena.RunGrows` | core/base/arena.cpp:11-34 | each allocation is aligned and in bounds, and the byte count is the sum of the block cursors |
| `FrameArena.RewoundKeeps` | core/base/arena.cpp:45-50 | rewinding keeps the number and the capacity of all blocks and empties each |
| `FrameArena.PlaceIs` | core/base/arena.cpp:11-34 | a request goes to the first block from the cursor on with room behind its aligned cursor, at the least multiple of its alignment there, and only without one to a new block of the larger of its size and the block size |
| `FrameArena.Arena.Allocate` | core/base/arena.cpp:11-34 | the first block from the cursor on that fits, else a new one of at least the block size |
| `FrameArena.Arena.Reset` | core/base/arena.cpp:45-50 | every block is kept with its capacity, every cursor and count is zero |

## Left out

- ExprProgram.ProgramCorrect: assumes at most 32768 variables, since beyond that the slot cast loses bits (`LoadWorksIff` gives the exact bound).
- ExprParser.Parser.ParseLeft: the six wrapper productions that pass operator lists and a next-production pointer are one method with the level as a parameter.
- ExprChecker.Checker.Check: returns the annotated tree as a new value instead of writing annotations into the nodes; messages, lines and columns of diagnostics are reduced to a code and an offset.
- ExprEval.Eval: vector values carry exactly their lanes; the unused tail of the lane array is not modelled.  Float arithmetic, quaternion product and native builtins are uninterpreted functions.
- HierarchyTree.Hierarchy.Propagate: matrices are uninterpreted with one product; stacks are written top first.
- HierarchyTree.Hierarchy.Move: the checks and the surgery of one source function are split into Move, Relocate, Relink and Settle; counters are unbounded.
- HierarchyTree.Hierarchy.Spawn: the tree sees live and pending handles as sets; the slot table that hands them out is `EcsWorld`, and the two are not joined into one object.
- HierarchyTree.Hierarchy.Despawn: pools are maps keyed by the live handle instead of by slot index.
- EventBus.EventBus.TriggerEvent: ticks, payload schemas, the canonical byte codec and the record's payload text are outside; validation is an oracle that refuses or gives the delivered payload.
- EventBus.EventBus.DispatchEntry: a thunk's component lookup is part of its script, which says whether it handled the event.
- JsonParser.Parser.ParseDocument: errors are a kind and a byte offset; message text and line and column numbers are outside.
- JournalWriter.Writer.Append: ids stay below 2^64; byte counts are unbounded; files, headers, flushes and compression are outside, a finished frame having some compressed size and any compression call being allowed to fail.
- JournalReader.Reader.Next: reading the compressed file and decompression are one oracle of chunks; the header of a bundle and its replay identity are outside.
- EcsSparse.SparseSet.Insert: pages and dense rows are values; the 32-bit width of positions is only the reserved value.
- EcsView.EachFrom: the pools are taken as values, for callbacks that change no membership or activity.
- EcsWorld.World.FlushStructural: the reparent handler records its calls only; the despawn observer is an oracle naming the other entities it takes along.
- FrameArena.Arena.Allocate: memory contents are outside; alignments are the powers of two up to 16.
- FloatText.Text.AppendGeneral: the shortest decimal itself comes from foreign code and is a parameter.
- The expression lexer, the function library, name interning, the payload codec, the reflection registry, the tick loop, statecharts, the loader, the command line and file handling are not part of this model.
