# A Dafny model of AXE's analysis core

AXE turns a binary into deterministic analysis records. This project models the
parts of it that are algorithms or protocols, and proves what they promise:

| module(s) | part of AXE |
|---|---|
| `Substitution`, `StatementText`, `Expressions`, `StraightLine`, `Composition`, `CompositionFlow`, `CompositionPass`, `CompositionMeaning`, `CompositionRemoval` | the decompiler's rewriting engine: word-wise substitution in text, expression composition on any statement list, what it keeps of the meaning, dead-line removal |
| `Reading`, `CompositionTexts` | reading the printed C back under operator precedence, and what whole texts return |
| `TypeRecovery`, `LoopEmission`, `ConditionCodes` | type propagation, loop printing, printed conditions |
| `StructuredFlow`, `ControlFlow` | basic blocks, dominators, natural loops |
| `NativeEmulator`, `NativeSemantics`, `NativeArithmetic`, `Words`, `WordBits` | the bounded x86-64 interpreter, its flags and what its instructions compute |
| `Ssa`, `SsaPass`, `SsaTrace`, `SsaBuildTrace`, `SsaBudget`, `SsaInvariants` | SSA values under a cap |
| `FunctionDiscovery`, `SemanticIndex`, `Search` | function ranges and per-function slices |
| `FolderIntake`, `FolderScan` | the self-feeding scan queue |
| `AtomicWrite`, `AtomicWriterObject` | the temp-write-then-rename protocol and the writer object over it |
| `ApiHash`, `BuildId` | name hashes, ELF build-id notes |
| `Common`, `Records`, `Text` | shared vocabulary |

Code that works by mutation is a `method` or a `class` proved against a
specification function; the theorems are lemmas about those functions. Loops of
the original are loops here. Where a function follows the loop it specifies, a
further theorem states the result without it: over the visited path, the printed
lines, the emitted values and edges, the probes, or each storage on its own. Where a
parameter or result is `ghost`, the original has none: it carries the statement that
is proved.

Modelling conventions:

- Addresses are natural numbers; registers of the emulator are 64-bit words with
  explicit wrap-around; the four hashes work on `bv32`.
- `BTreeMap` and `BTreeSet` traversals are ascending sequences; a `BinaryHeap`
  pop yields any item of the largest size.
- The file system, archive extraction, interrupts and system-call outcomes are
  arbitrary parameters, so every theorem covers every behaviour of them.
- A disk is inodes plus the list of directory states since the last crash. A
  crash keeps any of those directory states (renames may be lost) and arbitrary
  content in every inode that was not synced.

Findings, each stated as a lemma:

- Overwriting a register that a live expression mentions can change the returned
  value: `rax = rcx; rcx = 5; return rax` comes out as 5. With `r8` for `rcx` it does
  not, because `r8` comes before `rax` in key order and its line is removed at the
  return (`CompositionMeaning.OverwriteOutcome`, `CompositionMeaning.OverwriteExamples`).
  What holds exactly is this: every live expression has its register's value at every
  statement if and only if every write is harmless
  (`CompositionMeaning.CoherentExactly`); then the returned value is kept.
- Without the parentheses that substitution puts around an expression the text would
  stand for another tree (`Reading.ParensNeeded`).
- After `cmp a, b` the printed condition for the sign codes tests the left operand and
  not the difference, and the overflow codes print constants; after `test a, b` with
  different operands the printed condition compares the operands and not their
  conjunction. `ConditionCodes.PrintedCompareAgrees` and
  `ConditionCodes.PrintedTestOfTwoAgrees` say for every code exactly when that matters,
  `ConditionCodes.CompareExamples` and `ConditionCodes.TestExample` give inputs.
- Two writers interfere exactly when they share a target or one's target is the
  other's target with `.tmp` appended (`AtomicWrite.SafeIffSeparate`).
- The comment at `src/atomic_write.rs:116` says that dropping a writer does nothing;
  the buffered writer inside is still flushed when dropped, so the model lets more
  bytes reach the temp file then, also before `abort` removes it.

## Model

| member | source | states |
|---|---|---|
| `Substitution.FindWord` | src/c_decompiler.rs:2444-2467 | returns the first position at or after the start where the needle stands with no word character on either side; none only if there is no such position |
| `Substitution.SubstituteBody` | src/c_decompiler.rs:2385-2439 | whatever the order of the aliases, the in-place passes with shifting ranges give one simultaneous token-wise replacement of every alias by the parenthesised expression, never re-entering inserted text; a single needle of any shape gives the left-to-right scan; a hit is reported exactly when a needle occurs as a word |
| `Substitution.Pass` | src/c_decompiler.rs:2405-2432 | one alias's pass halts, replaces every original occurrence and nothing inside inserted text, and keeps the ranges exactly on the inserted characters |
| `Substitution.RewriteIsTokenwise` | src/c_decompiler.rs:2385-2439 | the pending rewrite of untouched text is the token-wise replacement |
| `Substitution.EditKeepsGoal` | src/c_decompiler.rs:2405-2432 | replacing one occurrence in place never changes what the whole body will become |
| `StatementText.SplitAssign` | src/c_decompiler.rs:2471-2516 | the rewritable region of a printed assignment is exactly its right-hand side, whatever that holds between its first and last character |
| `StatementText.SplitReturn` | src/c_decompiler.rs:2471-2516 | the rewritable region of a printed return is exactly its value, a word or one parenthesised text |
| `StatementText.ParseAssign` | src/c_decompiler.rs:2548-2585 | parsing undoes printing of an assignment, comparisons in its right side included |
| `StatementText.ParseReturn` | src/c_decompiler.rs:2548-2626 | a printed return is neither an assignment nor a call |
| `StatementText.ParseComment` | src/c_decompiler.rs:2548-2626 | a comment line is neither an assignment nor a call |
| `StatementText.SplitCompound` | src/c_decompiler.rs:2471-2516 | the rewritable region of a compound assignment is exactly its right-hand side |
| `StatementText.ParseCompound` | src/c_decompiler.rs:2548-2585 | parsing undoes printing of a compound assignment, operator included |
| `StatementText.SplitGoto` | src/c_decompiler.rs:2471-2516 | the rewritable region of a conditional jump is exactly its condition |
| `StatementText.OwnRow` | src/c_decompiler.rs:2673-2694 | a full register name belongs to exactly its own alias row |
| `StatementText.FamilyOf` | src/c_decompiler.rs:2648-2694 | no name is shared by two registers |
| `StatementText.FullStorage` | src/c_decompiler.rs:2636-2736 | a full register name is its own canonical storage and never narrow |
| `StatementText.AliasStorage` | src/c_decompiler.rs:2636-2694 | every alias is stored under its own register |
| `StatementText.NarrowExactly` | src/c_decompiler.rs:2673-2736 | the 16 and 8 bit aliases of a register are narrow, the 64 and 32 bit ones are not |
| `StatementText.CallIsCall` | src/c_decompiler.rs:2587-2626 | `lhs = name(args);` is recognised as a call and yields its right side |
| `StatementText.ParenIsNoCall` | src/c_decompiler.rs:2587-2620 | a parenthesised right side is not a call |
| `Expressions.RenderPut` | src/c_decompiler.rs:2385-2438 | replacing alias tokens in printed text is putting the parenthesised expression for the register in the tree |
| `Expressions.OccursIsRead` | src/c_decompiler.rs:2385-2438 | a register's names occur in printed text exactly when the expression reads the register |
| `Expressions.CommentReplaced` | src/c_decompiler.rs:2385-2438 | a comment line stays one when registers named in it are replaced |
| `Expressions.OccursAfterReplace` | src/c_decompiler.rs:2385-2438 | replacing one register's names in any text neither adds nor hides a name of a register that the inserted expression does not read |
| `Composition.SubstituteStorageInRhs` | src/c_decompiler.rs:2385-2438 | for every text and every storage: prefix and suffix of the statement are untouched, the body has the storage's names replaced, and the use count grows by one exactly when one of them occurs |
| `Composition.StatementPut` | src/c_decompiler.rs:2385-2516 | substituting in the text of a printed assignment, return or comment gives the text of the substituted statement |
| `Composition.RewriteReads` | src/c_decompiler.rs:2250-2260 | substitutes the live storages of the snapshot in key order and counts each at its turn; on a printed statement that yields the composed statement's text and counts exactly the registers named |
| `Composition.DropEntries` | src/c_decompiler.rs:2223-2241 | the entries go, and exactly the producers that were consumed or forced are flagged |
| `Composition.UpdateLive` | src/c_decompiler.rs:2274-2327 | for every statement text: plain and compound writes, writes to parts of a register, calls and everything else have exactly the effect `WriteEffect` on the live values and on the removal flags |
| `CompositionFlow.ReadSeesLastWrite` | src/c_decompiler.rs:2243-2369 | on any list, a read of a storage sees the value v if and only if v is what its last write left, no branch target lies after that write up to the read, and nothing in between touches the storage: no write, for a caller-saved register no call, for a register no `ret` |
| `CompositionFlow.LiveIsFlow` | src/c_decompiler.rs:2215-2369 | the pass's map of live values is what each storage holds when it is followed on its own |
| `CompositionFlow.TextIsComposed` | src/c_decompiler.rs:2250-2260 | every text is the original one with exactly the storages it sees substituted, in storage order |
| `CompositionFlow.ChangesFollowWrites` | src/c_decompiler.rs:2243-2272 | a text changes only if it names, at that storage's turn, a storage whose last write lies before it with no branch target, no other write and, for a caller-saved register, no call in between |
| `CompositionFlow.LabelKeepsText` | src/c_decompiler.rs:2244-2248 | a branch target keeps its text |
| `CompositionFlow.UnnamedStays` | src/c_decompiler.rs:2385-2438 | substituting a storage that the body does not name changes nothing |
| `CompositionFlow.DeadIsFlow` | src/c_decompiler.rs:2223-2369 | on any list a line is flagged if and only if its value is dropped, at a label, by a call, by another write or at a `ret`, after a statement has used it, or is a caller-saved register's at a `ret` |
| `CompositionPass.ComposeExpressions` | src/c_decompiler.rs:2215-2373 | on every list only texts and removal flags change, branch targets keep their texts, every text is composed from the last writes and exactly the dead lines are flagged; on a printed straight-line program the texts become those of the composed program and the removed lines are exactly `Gone` |
| `CompositionMeaning.HarmlessIsCoherent` | src/c_decompiler.rs:2250-2311 | if every write is harmless, each live expression has its register's value at every statement, for every reading of the operators and every initial state |
| `CompositionMeaning.CoherentExactly` | src/c_decompiler.rs:2250-2311 | and only then: reading expressions as terms, all live expressions are true at every statement if and only if each assignment writes no register that its rewritten right side or another live expression mentions, or copies its register to itself |
| `CompositionMeaning.CompositionPreservesMeaning` | src/c_decompiler.rs:2215-2373 | for every reading, every initial state and every choice of removed lines, the surviving composed statements of a straight-line program with harmless writes return what the original ones return |
| `CompositionMeaning.OverwriteOutcome` | src/c_decompiler.rs:2274-2311 | a harmful write: what `rax = r; r = 5; return rax` returns before and after, for every other register r and every choice of removed lines |
| `CompositionMeaning.OverwriteExamples` | src/c_decompiler.rs:2347-2369 | `rcx` loses its value; `r8`, whose line is removed at the return, keeps it |
| `Reading.PutReadable` | src/c_decompiler.rs:2427 | substitution keeps a tree the reading of its own text, because what it puts in stands in parentheses |
| `Reading.ReadRender` | src/c_decompiler.rs:725-900 | a tree whose operands bind tighter than its operators is what its printed text reads as under C's precedence |
| `Reading.RenderInjective` | src/c_decompiler.rs:725-900 | so printing loses nothing |
| `Reading.ParensNeeded` | src/c_decompiler.rs:2427 | without the parentheses a substituted text would stand for another tree |
| `CompositionTexts.ReadStmtText` | src/c_decompiler.rs:770-910 | reading a statement's text gives the statement back |
| `CompositionTexts.SurvivingTextsReturn` | src/c_decompiler.rs:2215-2373 | text to text: on a list that prints a readable straight-line program with harmless writes, the surviving texts after the pass, read as C, return what the original texts return |
| `CompositionTexts.LoadReads` | src/c_decompiler.rs:965-975 | the lifter's load through a displacement, `*((uint64_t *)(rcx+8))`, is such a text |
| `CompositionTexts.SelectReads` | src/c_decompiler.rs:880-889 | so is a conditional move, `(rcx == 0) ? rdx : rax` |
| `CompositionRemoval.ReadsAreMentions` | src/c_decompiler.rs:2250-2260 | where writes are harmless and copy no register to itself, the pass counts exactly the live registers that the original statement names |
| `CompositionRemoval.RemovedIsDead` | src/c_decompiler.rs:2215-2373 | there a line is removed if and only if its value is named, be it in a comment, before the register is next written, or it is the last write of a caller-saved register; the return and comments never are |
| `TypeRecovery.SeedTypes` | src/c_decompiler.rs:445-478 | the seed of each storage is the first hint for it, edge tags before call prototypes, and nothing else is seeded |
| `TypeRecovery.SeedsAreFirstEvidence` | src/c_decompiler.rs:445-478 | a storage is seeded with a type if and only if the first tagged edge into it carries it, or no edge is tagged and the first call that mentions it says so: the argument register has the type of its argument index, else `rax` the return type |
| `TypeRecovery.Sweep` | src/c_decompiler.rs:486-499 | a sweep either types one more storage or leaves a map closed under the edges |
| `TypeRecovery.Propagate` | src/c_decompiler.rs:480-504 | the edges + 1 bound never cuts propagation short: the result keeps every seed, is closed under the edges, and every type traces along edges to a seed of that type |
| `TypeRecovery.FillDefaults` | src/c_decompiler.rs:506-513 | exactly the remaining SSA storages get the default; nothing typed is retyped |
| `TypeRecovery.RecoverTypes` | src/c_decompiler.rs:440-516 | the four phases together |
| `LoopEmission.LoopTables` | src/c_decompiler.rs:226-234 | each header maps to the sources of its backedges in order |
| `LoopEmission.BuildPlan` | src/c_decompiler.rs:2132-2158 | a loop is planned as do-while exactly when it has one backedge, that is a conditional jump to the header, and its condition parses; the plan carries that loop's condition |
| `LoopEmission.DoWhileExactly` | src/c_decompiler.rs:2132-2158 | a loop has a do-while condition c if and only if it has one backedge, the first statement there is a conditional jump back to the header, and its text reads `if (c) goto` |
| `LoopEmission.EmitBody` | src/c_decompiler.rs:326-393 | the output is one block for each statement in order, then only closers of loops still open; a block holds in this order and at most once: its label exactly if it is a target and no do-while header, its opener exactly if it heads a planned or forward loop, its text exactly if it is neither removed nor a planned backedge, indented exactly inside an open loop, and its closer exactly if it is a source inside an open loop |
| `LoopEmission.LayoutPrintsKept` | src/c_decompiler.rs:336-371 | the printed bodies are, in order and with their texts, exactly the statements that are neither removed nor the backedge of a planned do-while, and the printed labels exactly the targets that head no do-while |
| `LoopEmission.EmittedBalance` | src/c_decompiler.rs:328-388 | at every statement the depth counter is the number of open loops, and no prefix closes more than it opened |
| `LoopEmission.EmissionBalanced` | src/c_decompiler.rs:326-393 | for every statement list and loop set the printed loops are balanced |
| `LoopEmission.EmitterStack` | src/c_decompiler.rs:326-393 | on well nested loops the open loops are exactly those entered and not yet left, outermost first |
| `LoopEmission.CloserPairsWithHeader` | src/c_decompiler.rs:374-387 | on well nested loops the closer at a source closes its own header's opener, is `while (cond)` exactly for a `do`, and carries its own condition |
| `LoopEmission.NothingDangles` | src/c_decompiler.rs:389-393 | on well nested loops the safety net prints nothing |
| `ConditionCodes.CompareFlagsMeaning` | src/native_emulator.rs:201-230 | after `cmp a, b`: zero is equality, carry is unsigned less, overflow is a signed difference that does not fit, sign differing from overflow is signed less |
| `ConditionCodes.RelationalCodes` | src/native_emulator.rs:384-402 | every relational condition code is the signed or unsigned comparison it names, for all 64-bit operands |
| `ConditionCodes.TablesAgree` | src/c_decompiler.rs:725-745 | the emulator's and the decompiler's suffix tables agree on every spelling |
| `ConditionCodes.PrintedCompareAgrees` | src/c_decompiler.rs:725-745 | after `cmp a, b` the printed condition equals the emulated one: always for the relational codes; for the sign codes if and only if the signed difference fits and the left operand is negative exactly when it is the smaller; for the overflow codes if and only if it fits |
| `ConditionCodes.CompareExamples` | src/c_decompiler.rs:737-740 | inputs on which the sign and the overflow codes print wrongly |
| `ConditionCodes.PrintedTestAgrees` | src/c_decompiler.rs:842-856 | after `test a, a` they agree on every suffix |
| `ConditionCodes.PrintedTestOfTwoAgrees` | src/c_decompiler.rs:842-856 | after `test a, b` with different operands they agree exactly under a condition on a, b and their conjunction given code by code |
| `ConditionCodes.TestExample` | src/c_decompiler.rs:842-856 | `test 1, 2` prints a false equality although the zero flag is set |
| `StructuredFlow.BlockHoldsAddress` | src/structured.rs:263-274 | the answer is the start of the first block that holds the address, else the address itself if a block starts there, else none |
| `StructuredFlow.PredecessorsByBlock` | src/structured.rs:251-261 | each row lists the source blocks of the edges into the block, in edge order; absent rows have none |
| `StructuredFlow.FlowsIsAnEdge` | src/structured.rs:251-261 | a predecessor is exactly the source block of some recorded edge |
| `StructuredFlow.UpdateRow` | src/structured.rs:229-245 | recomputing a row keeps the invariant and shrinks the total size if the row moved |
| `StructuredFlow.Sweep` | src/structured.rs:225-247 | a sweep that changes nothing has reached a fixpoint; one that changes something shrinks the rows |
| `StructuredFlow.DominatorSets` | src/structured.rs:205-249 | halts on every graph, and d is in the row of b if and only if d lies on every recorded-edge path to b from the entry or from a block with no incoming edge |
| `StructuredFlow.NaturalBackedges` | src/structured.rs:168-195 | within the caps an edge is reported if and only if it does not go forward in address and its target block dominates its source block; beyond the caps the fallback is reported |
| `StructuredFlow.NaturalRefinesFallback` | src/structured.rs:168-203 | the natural answer is always a selection from the fallback answer |
| `StructuredFlow.HeaderDominatesWalk` | src/structured.rs:168-195 | the header dominates every block that reaches the source without passing the header |
| `StructuredFlow.NaturalLoopSingleEntry` | src/structured.rs:168-195 | each reported loop is entered only at its header |
| `ControlFlow.CollectLeaders` | src/cfg.rs:25-59 | the leader set and the ordered edge list of one function |
| `ControlFlow.EdgesExactly` | src/cfg.rs:28-58 | there is one branch edge per target inside the function, one fallthrough edge per call or jump other than `jmp` whose successor is decoded, in address order, and no other edge |
| `ControlFlow.LeadersExactly` | src/cfg.rs:27-42 | an address starts a block if and only if it is the function's start, a target inside the function, or the decoded successor of a jump or call |
| `ControlFlow.SplitBlocks` | src/cfg.rs:60-77 | blocks cut the instructions into consecutive non-empty runs, each opened by a leader and split by none, covering all |
| `ControlFlow.BuildRecord` | src/cfg.rs:24-82 | one record: the partition, and exactly the due edges in address order |
| `ControlFlow.SliceFunction` | src/cfg.rs:15-20 | the slice is exactly the decoded instructions inside the function, ascending |
| `ControlFlow.BuildCfg` | src/cfg.rs:5-85 | one record per function that holds instructions, in order |
| `ControlFlow.LeaderOpensBlock` | src/cfg.rs:60-77 | a leader that is an instruction opens the block that holds it |
| `ControlFlow.BlocksAbut` | src/cfg.rs:60-77 | under contiguous decoding with targets on instruction starts, each block ends where the next starts |
| `ControlFlow.TransferEndsBlock` | src/cfg.rs:40-42 | under contiguous decoding every jump or call is last in its block |
| `ControlFlow.EdgeEntersBlock` | src/cfg.rs:28-59 | with targets on instruction starts every edge enters a block at its start |
| `NativeEmulator.NextAddressIsFirst` | src/native_emulator.rs:529-531 | the next address is the first listed one above the current one, and there is none exactly when no row lies above |
| `NativeEmulator.RowIsLast` | src/native_emulator.rs:66-67 | the row executed at an address is the last one listed for it |
| `NativeEmulator.RunExplained` | src/native_emulator.rs:88-143 | every configuration is explained by its visited path: the state is that of executing the path; after a taken branch the next entry is the row's target, after anything else the first listed address above; the run stops with `return`, `branch_exit`, `loop_guard` or `function_end` if and only if, in this order, the last entry returned, is a branch not taken with nothing above, repeats a branch edge of the path, or leads out of the function |
| `NativeEmulator.EmulateFunction` | src/native_emulator.rs:88-168 | the loop performs the run for its budget, never exceeds it, its answer is explained by the visited path, and it reports the cap exactly when work remained |
| `NativeEmulator.BudgetPrefix` | src/native_emulator.rs:88-99 | the visited path under a smaller budget is a prefix of the one under a larger budget |
| `NativeEmulator.VisitedPathIsWalk` | src/native_emulator.rs:88-143 | every visited path is a walk along next addresses and direct branch targets from the first executed address |
| `NativeEmulator.RunBounded` | src/native_emulator.rs:112-128 | at every step the used branch edges and the straight-line work left stay within N * (2B + 1) |
| `NativeEmulator.HaltsWithoutBudget` | src/native_emulator.rs:88-143 | the loop guard alone makes every run halt within N * (2B + 1) steps |
| `NativeSemantics.SemanticsJumpsAreDirect` | src/native_emulator.rs:190-278 | only instructions with a direct target report a branch |
| `NativeSemantics.EmulatorHalts` | src/native_emulator.rs:88-278 | the emulator with its own instruction semantics halts within the bound for every operand parser and call model |
| `NativeSemantics.JumpMatchesPrintedCompare` | src/native_emulator.rs:404-428 | after an emulated `cmp`, a conditional jump is decided as the decompiler's printed condition says, exactly when the two agree on the operands |
| `NativeSemantics.JumpMatchesPrintedTest` | src/native_emulator.rs:404-428 | the same after `test a, a`, where they always agree |
| `NativeSemantics.JumpMatchesPrintedTestOfTwo` | src/native_emulator.rs:404-428 | the same after `test a, b` with different operands |
| `NativeArithmetic.BinaryMeaning` | src/native_emulator.rs:340-354 | `add` and `sub` are modulo 2^64; `and`, `or`, `xor`, the shifts, the arithmetic shift and the rotations are given bit by bit |
| `NativeArithmetic.UnaryMeaning` | src/native_emulator.rs:370-377 | `inc`, `dec` and `neg` are modulo 2^64; `not` flips every bit and `bswap` reverses the bytes |
| `NativeArithmetic.BinaryExecuted` | src/native_emulator.rs:330-359 | a binary instruction leaves exactly that in its register, sets the zero and sign flags to describe it and changes nothing else; without a register destination it is unsupported |
| `NativeArithmetic.UnaryExecuted` | src/native_emulator.rs:361-382 | the same for unary instructions |
| `NativeArithmetic.MoveExecuted` | src/native_emulator.rs:280-312 | after a move of a known value the destination register or slot reads as it and every other operand as before; an unknown value changes nothing |
| `NativeArithmetic.ConditionalMoveExecuted` | src/native_emulator.rs:234-241 | a conditional move moves if and only if the flags satisfy its condition |
| `NativeArithmetic.SetExecuted` | src/native_emulator.rs:242-252 | `set` leaves one or zero as the flags satisfy its condition or not |
| `SsaPass.PredecessorBlocksByJoin` | src/ssa.rs:396-415 | joins are exactly the targets entered from at least two blocks, with those blocks in order |
| `SsaPass.EmitJoinPhis` | src/ssa.rs:232-314 | the phis of a join under the remaining budget, and how many were emitted |
| `SsaPass.EmitWrites` | src/ssa.rs:171-223 | the writes of one instruction under the cap; capped exactly when some write was not emitted |
| `SsaPass.ProcessInstruction` | src/ssa.rs:131-227 | one iteration is one step of `Build` |
| `SsaTrace.InstructionWrites` | src/ssa.rs:158-223 | an instruction adds its register, its slot, `mem` and the four flags in this order as far as the cap allows; a value has an edge from an earlier value if and only if the instruction reads that value's storage and it is the storage's last value before the instruction's first write |
| `SsaBuildTrace.EnterTrace` | src/ssa.rs:136-157 | the first instruction of a block adds, in storage order as far as the cap allows, one phi for exactly those storages of which two different definitions left its predecessors, with edges from exactly those definitions; later instructions of the block add none |
| `SsaBuildTrace.BuildTraced` | src/ssa.rs:114-230 | this account covers all values and edges after every instruction, and the cap is reported if and only if it was felt |
| `SsaPass.ProcessFunctionSlice` | src/ssa.rs:114-230 | the marks returned beside the result account for every value and every edge of the pass in that way; identifiers carry position and version, edges describe both ends, their kind and the evidence, and the cap is reported exactly when it was felt |
| `SsaBudget.CapOnlyTruncates` | src/ssa.rs:131-227 | a smaller cap gives exactly the first values of the larger build and exactly the edges into them, wherever the cap falls |
| `SsaBudget.UnreportedIsComplete` | src/ssa.rs:131-227 | a run that does not report the cap equals the run under any larger cap |
| `SsaBudget.HitIsFull` | src/ssa.rs:131-227 | a reported cap means exactly that many values |
| `SsaInvariants.BuildKeeps` | src/ssa.rs:114-347 | after every instruction: versions run 1, 2, 3, ..., the live definition is the last emitted one, edges go from earlier to later values and describe both ends, every phi joins two distinct definitions of its storage |
| `SsaInvariants.UniqueIds` | src/ssa.rs:316-347 | identifiers are unique and versions of a storage increase |
| `FunctionDiscovery.CollectSeeds` | src/functions.rs:6-49 | each seed carries the first of the five sources that names it |
| `FunctionDiscovery.GuessFunctionEnd` | src/functions.rs:93-119 | the end is the recorded one, else behind the lowest return before the limit, else the limit |
| `FunctionDiscovery.EndIsUnique` | src/functions.rs:93-119 | that end is unique |
| `FunctionDiscovery.AllocateAt` | src/functions.rs:55-88 | one seed adds at most one function and keeps the ranges sorted and disjoint |
| `FunctionDiscovery.DiscoverFunctions` | src/functions.rs:6-91 | functions are sorted, non-empty, pairwise disjoint, start at decoded executable seeds, and cover every eligible seed unless the cap is reached |
| `Search.CutsInOrder` | src/cfg.rs:15-20 | the two cuts of a range are in order, so that slicing does not panic, exactly when its bounds are or no address lies between them |
| `Search.PartitionPoint` | src/semantic_index.rs:43-51 | the cut between addresses below the bound and the rest |
| `SemanticIndex.FindRange` | src/semantic_index.rs:43-51 | the index range is exactly the address filter of the function |
| `SemanticIndex.Build` | src/semantic_index.rs:26-76 | every slice is the filter of its function in each table, with the right CFG row, return flag and overlap flag |
| `SemanticIndex.DisjointSlices` | src/semantic_index.rs:53-72 | over discovered functions slices are pairwise disjoint in every table and nothing overlaps |
| `FolderIntake.AdmitKeeps` | src/folder_scan.rs:362-483 | any intake keeps the queue within `max_files`, the byte total exact and within `max_bytes`, and every path entered once |
| `FolderIntake.AdmitSettles` | src/folder_scan.rs:374-482 | every file looked at before the cut is queued or recorded as over the limit, and the file at the cut really exceeds a budget; the walk records it |
| `FolderIntake.AdmitTakes` | src/folder_scan.rs:374-482 | an intake takes, in order and with size, origin and depth, exactly the files within the size limit that are neither known nor repeated, up to the first file that finds the queue full or the byte budget too small; the skip entries are exactly those of the oversized files and, for the walk, that of the cut with its reason |
| `FolderIntake.ExtractionLowers` | src/folder_scan.rs:457-482 | replacing an archive by at most `max_files` files one level down lowers the potential |
| `FolderScan.TotalPathsAdd` | src/folder_scan.rs:280-321 | recording one path raises the number of sample paths by one, whether or not the hash is new |
| `FolderScan.Scan.constructor` | src/folder_scan.rs:203-225 | a scan starts with empty queue, totals and reports |
| `FolderScan.Scan.WalkIntoQueue` | src/folder_scan.rs:362-416 | the walk performs the intake `Admit` on the listing |
| `FolderScan.Scan.HandleArchive` | src/folder_scan.rs:418-483 | an extraction performs `Unpack`: one skip entry on failure, else the silent intake one level down |
| `FolderScan.Scan.PopLargest` | src/folder_scan.rs:171-187 | a pop removes some item of the largest size |
| `FolderScan.Scan.Process` | src/folder_scan.rs:232-321 | one turn of the loop is `After` |
| `FolderScan.LargestExists` | src/folder_scan.rs:182-187 | a non-empty queue has an item of largest size |
| `FolderScan.RunSound` | src/folder_scan.rs:227-321 | in every reachable state the budgets hold, no path entered twice, everything entered is queued or processed, and the reports are exact |
| `FolderScan.TurnsBounded` | src/folder_scan.rs:227-333 | turns taken plus items queued never exceed `max_files` * (`max_files` + 1) ^ `archive_depth`, for every extraction oracle |
| `FolderScan.ReportBalances` | src/folder_scan.rs:335-354 | the processed count is own skip entries plus sample paths plus archives handed over; an emptied queue means all that entered was processed |
| `FolderScan.OneOutcome` | src/folder_scan.rs:232-321 | each processed item is reported in exactly the one place that its fate names |
| `FolderScan.OutcomeByProbe` | src/folder_scan.rs:232-321 | in every legal run the one report on each processed item follows from the probes alone: unreadable and unsupported items and archives that may not be extracted have their own skip entry with that reason; other archives have none, and a failed extraction is recorded; a binary is in the sample of its hash if and only if its sample directory could be created at this turn or at an earlier one, else its own skip entry says so |
| `FolderScan.RunTakes` | src/folder_scan.rs:217-321 | the run starts with the intake of the walk; every turn pops a largest item, and files come in exactly from an extracted archive, one level down with its hash as origin |
| `FolderScan.ScanFolder` | src/folder_scan.rs:189-360 | every scan ends, its report is that of a legal run, complete unless it was interrupted, and the report on each processed item is the one its probe calls for |
| `AtomicWrite.ActStep` | src/atomic_write.rs:46-114 | every step of every writer keeps the invariant |
| `AtomicWrite.CrashStep` | src/atomic_write.rs:9-18 | so does a crash between any two steps |
| `AtomicWrite.AlwaysWhole` | src/atomic_write.rs:46-124 | in every reachable state every target reads as its first content or a complete stream |
| `AtomicWrite.OnlyRenamePublishes` | src/atomic_write.rs:65-88 | a target changes only at its own writer's rename, which publishes the complete stream; rename and abort leave no temp file |
| `AtomicWrite.OthersUndisturbed` | src/atomic_write.rs:46-114 | a writer's steps leave every other writer's temp file and stream alone |
| `AtomicWrite.TempOverTarget` | src/atomic_write.rs:120-124 | a target that is another writer's temp name gets truncated |
| `AtomicWrite.SharedTarget` | src/atomic_write.rs:50-55 | two writers of one target can publish a truncated stream |
| `AtomicWrite.SafeIffSeparate` | src/atomic_write.rs:46-124 | all runs are safe if and only if no two targets are equal and no target is another's temp name |
| `AtomicWriterObject.ChainIsRun` | src/atomic_write.rs:43-114 | the steps of one call are a run of the whole system |
| `AtomicWriterObject.Create` | src/atomic_write.rs:46-61 | succeeds exactly when the parent directory can be made and the temp file opened; then it is the one step that opens and truncates the temp file, else nothing has changed |
| `AtomicWriterObject.AtomicWriter.Write` | src/atomic_write.rs:102-107 | the reported count is what was accepted, an error accepts nothing, and no write publishes |
| `AtomicWriterObject.AtomicWriter.WriteAll` | src/atomic_write.rs:29-31 | success means that all bytes were accepted |
| `AtomicWriterObject.AtomicWriter.Finalize` | src/atomic_write.rs:65-76 | succeeds exactly when flush, sync and rename were all taken, in that order |
| `AtomicWriterObject.AtomicWriter.Abort` | src/atomic_write.rs:81-88 | success leaves no temp file, and nothing is published |
| `AtomicWriterObject.AtomicWriter.Drop` | src/atomic_write.rs:116-118 | dropping publishes nothing and leaves the temp file |
| `AtomicWriterObject.FinalizePublishes` | src/atomic_write.rs:65-76 | a successful finalize publishes exactly what was accepted and leaves no temp file |
| `AtomicWriterObject.WriteAtomic` | src/atomic_write.rs:29-33 | afterwards the target holds all of the bytes, or on failure what it held before; it succeeds when every system call does |
| `ApiHash.Crc32HashName` | src/api_hash.rs:22-32 | the branch-free nested loop computes the bit-by-bit CRC |
| `ApiHash.SuffixesCancel` | src/api_hash.rs:4-32 | for all four hashes, names collide with a common suffix if and only if they collide without it |
| `ApiHash.ProductsUndone` | src/api_hash.rs:10-20 | both multipliers are invertible modulo 2^32 |
| `ApiHash.CrcAffine` | src/api_hash.rs:22-32 | crc(x) ^ crc(y) ^ crc(z) = crc(x ^ y ^ z) at equal length |
| `ApiHash.TableDriven` | src/api_hash.rs:22-32 | the result is the table-driven checksum of section 8 of RFC 1952 |
| `ApiHash.CheckValues` | src/api_hash.rs:4-32 | the published values of the four hashes for the empty name and for `a`, and a rotation |
| `ApiHash.RotationMovesBits` | src/api_hash.rs:4-8 | the rotation takes every bit thirteen places down, round the end of the word |
| `ApiHash.Djb2Polynomial` | src/api_hash.rs:10-14 | djb2 is 5381 * 33^n plus every byte times 33 to the number of bytes behind it, modulo 2^32 |
| `BuildId.WordRoundTrip` | src/debug_symbols.rs:1385-1395 | reading a word undoes writing it, in either byte order |
| `BuildId.AlignIsLeast` | src/debug_symbols.rs:1397-1399 | alignment yields the least multiple of four that is not below |
| `BuildId.HexInjective` | src/debug_symbols.rs:1414-1420 | two digits a byte, and no two descriptors share their hex |
| `BuildId.HexOf` | src/debug_symbols.rs:1414-1420 | the loop prints exactly those digits |
| `BuildId.ParseGnuBuildId` | src/debug_symbols.rs:1351-1375 | the cursor loop with absolute positions is the suffix-wise parser |
| `BuildId.ParseNoteList` | src/debug_symbols.rs:1351-1375 | over any serialized 4-aligned note list, either byte order, the answer is the hex of the first type-3 note whose name starts with GNU and whose descriptor is not empty, else none |
| `BuildId.ParseSerialized` | src/debug_symbols.rs:1351-1375 | with anything behind the list, the answer is the list's first build id, else what the rest yields |
| `BuildId.LinkerNote` | src/debug_symbols.rs:1351-1375 | on a note as a linker writes it, with its sizes, type 3 and the name GNU spelled out byte by byte, the answer is the hex of the descriptor |
| `BuildId.AnswersExactly` | src/debug_symbols.rs:1351-1375 | for every byte string the parser answers h if and only if the bytes are serialized notes without a build id followed by a build-id note whose descriptor prints as h |

## Left out

- CompositionMeaning.CompositionPreservesMeaning: covers straight-line lists of plain assignments to full-width registers whose right sides name full-width registers, comment lines, and a final return; labels, calls, `op=`, writes to parts of a register and stores are outside it and nothing is claimed there. Harmless writes suffice for the returned value but are not necessary for it; they are necessary for the live expressions.
- CompositionTexts.SurvivingTextsReturn: reads casts to the standard integer and pointer types, the binary operators that the lifter prints, conditionals and leading comments; a bare comment in place of an operand is not read.
- CompositionRemoval.RemovedIsDead: assumes that no statement copies a register to itself, since such a copy makes its own name part of other live expressions.
- ControlFlow.BuildCfg: excludes a record whose end lies below its start with a decoded address between, since slicing panics on it; the same holds for the instruction table of `SemanticIndex.Build`.
- SemanticIndex.Build: states the filter property over sorted tables, which is what binary search needs.
- ControlFlow.TransferEndsBlock: says nothing about machine executions; a plain fall into a leader has no edge and `ret` does not end a block.
- NativeSemantics.EmulatorHalts: operand text parsing is a parameter, and an API call only sets its modelled return value.
- SsaInvariants.BuildKeeps: identifiers are structured values rather than strings, and phis on loop back edges are not claimed to be complete, because definitions are carried in address order; `SsaBuildTrace.EnterTrace` states what they are complete for.
- LoopEmission.CloserPairsWithHeader: holds for single-source, forward, strictly nested loops with distinct end points; the printed comments and indentation are not modelled beyond an indent flag.
- AtomicWrite.AlwaysWhole: starts from a directory without hard links.
- AtomicWriterObject.Create: the parent directory is only made or not made; its place in the directory tree is not modelled.
- FolderScan.ScanFolder: sizes are unbounded naturals, analysis of a sample and the aggregated reports are not modelled.
- Address arithmetic does not overflow 64 bits in the model.
- Decoding and file formats through libraries (object, gimli, pdb, iced-x86, zip, tar, 7z): foreign code.
- Semantics of `dataflow.rs` state updates, which keep stale values, and the added-function list of `diff.rs`, whose labels never match.
- Heuristic tables and reports (crypto, behavior, attack mapping, dossiers, vulnerability packets): string matching with easy members only.
- JSON output, timing, progress, directory walking and parallelism.
- API-hash resolution and hint parsing around the four hashes: table look-ups that would only add easy members.
