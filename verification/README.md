# LDC back-end algorithms in Dafny

A model of the self-contained algorithms in the driver and code generator of OpenD's LDC
(`ldc/driver`, `ldc/gen`), with proofs of what they are for. LLVM values, types and files
are opaque ids or byte sequences; everything the code itself computes - strings scanned and
rewritten in place, counters, worklists, file-system steps, operand fields, bit patterns - is
modelled as the source does it.

`dafny verify dfyconfig.toml` checks the whole project.

| files | subject |
|---|---|
| `AsmText`, `AsmOperands`, `AsmBlock`, `AsmNumbering`, `AsmGotos`, `AsmReading`, `AsmDispatch` | operand numbering of DMD-style inline assembly, on characters; its branches, executed |
| `AsmSyntax`, `AsmActions`, `AsmAddress`, `AsmAccept`, `AsmProcessor` | the side-effecting operand parser of DMD-style inline assembly |
| `GccTemplate` | translation of GCC-style assembly templates |
| `ObjectCache`, `CacheNames`, `CacheProgress` | the IR-to-object cache shared by concurrent compilers |
| `OperandGraph`, `SymbolClosure`, `ThreadLocals` | extraction of the module that is compiled at run time |
| `ResponseFile`, `ResponseComments`, `ResponseWriter`, `ResponseExpansion`, `ResponseErrors`, `EnvVarFlags`, `TokeniserAgreement` | command-line tokenisers and response files |
| `BitFields`, `PointerOffset` | bit-field access and pointer arithmetic |
| `DebugTypes`, `DebugLayout`, `DebugComposites` | debug descriptions of cyclic aggregate types |
| `GlobalReplacement` | replacing globals whose initializer has another type |
| `ArchiveMerge` | merging files into an archive |
| `Options`, `FiniteSets` | shared by the others |

How the proofs are built: loops and objects of the source are methods and classes, each
proved against a specification function or predicate; lemmas then compare that specification
with an independent definition (a denotation, an execution, a graph closure, a reference
reading, a flattening, a layout, a chain of replacements).

## What turned out false

Where the code does not do what its surroundings suggest, the model keeps the code, and the
exact condition is proved.

- Ties of update operands are right if and only if the block has no return registers (or no
  ties): `AsmNumbering.TiesRightIffNoReturn`; one update operand is enough for a wrong one
  (`OneUpdateTie`).
- `enumOperands` ends if and only if no operand cycle is reachable; an initializer that points
  back at its variable is one: `OperandGraph.TerminatesIffAcyclic`, `CyclicInitialiserDiverges`.
  The filter ends if and only if that holds for the functions it reaches and traverses:
  `SymbolClosure.EndsIffReachedAcyclic`.
- A cache hit writes none of the requested `.bc`/`.ll`/`.s` files: `ObjectCache.ExtrasRightIff`.
- The two command-line tokenisers agree if and only if no backslash that a quote has halved is
  looked at again: `TokeniserAgreement.SameArgumentsIff`.
- Since the pruner removes temporaries too, a temporary can be given a name that another compiler is
  still using. Visible entries are complete, and stay so whatever happens next, if and only if that
  never occurs: `CacheNames.RunSafeIff` for whole runs, `SafeIffNameUnused` for a single creation.
  Any two compilers of one module that find no entry can get there (`PrunedNameBreaksEntry`).
- Writing and reading a response file is the identity if and only if every argument is non-empty,
  free of CR and LF, and has a backslash or quote (or nothing) after every backslash:
  `ResponseWriter.RoundTrip`.
- A memory operand names its expression's value if and only if the value with all brackets taken
  out, plus the brackets, is that value: `AsmAddress.OperandMeans`. So `5 - 4[eax]` and `2 * 4[eax]`
  add the bracket outside the subtraction and the multiplication, and a register's factor is cut
  to 32 bits before it is checked (`BracketInSubtrahend`, `BracketInFactor`, `ScaleIsCut`);
  `eax + 0` is taken as the number 0 (`ImmediateRightIffNoRegister`).
- A bracket that closes also ends the bracket around it, so that `[eax + [ebx]]` is refused although
  `[eax + ebx]` is not: `AsmAccept.InterruptedBracket`.
  Which operands are accepted, and as what, is decided by counting registers, variables and numbers
  on either side: `AsmAccept.AcceptedIff`.
- `p + -x` is lowered to `p + x` unless the negation stands before a multiplication by the element
  size: `PointerOffset.EmitPointerOffset`.
- A GCC template keeps its reading if and only if no operand starts with `$`:
  `GccTemplate.SameReadingIff`.
- An erased thread-local is still mentioned if and only if the program also had it inside a
  constant expression: `ThreadLocals.ErasedStillMentioned`.
- Replacing globals at the end works if and only if no global was replaced twice:
  `GlobalReplacement.IRState.ReplaceGlobals`.

## Model

| member | source | states |
|---|---|---|
| `AsmText.Find` | ldc/gen/asmstmt.cpp:440-444 | the first occurrence of a needle, or -1 exactly if there is none |
| `AsmText.SearchMeaning` | ldc/gen/asmstmt.cpp:439-446 | searching the text of a template for `<<inK>>` or `<<outK>>` finds the first hole with that side and digit, and nothing else: no text or other hole can be mistaken for it |
| `AsmOperands.ArgNumberInjective` | ldc/gen/asmstmt.cpp:271-306 | the per-statement numbering (outputs first, then inputs) gives different arguments different digits |
| `AsmOperands.ArgNumberRange` | ldc/gen/asmstmt.cpp:301-306 | outputs get the digits below the number of outputs, inputs the digits from there to the number of arguments |
| `AsmOperands.PermutedDense` | ldc/gen/asmstmt.cpp:301-326 | after the digit permutation the output holes use exactly the digits below the number of outputs and the input holes exactly the following ones |
| `AsmOperands.BothPasses` | ldc/gen/asmstmt.cpp:607-646 | on a dense template the two counting passes turn hole d of either side into base + rank, although each pass counts only the digits it finds |
| `AsmBlock.FormatInstruction` | ldc/gen/asm-x86.h:2396-2398 | the emitted template is its text with the hole of argument K where operand K was added, `<<in` or `<<out` by its mode |
| `AsmBlock.ClassifyArgs` | ldc/gen/asmstmt.cpp:207-282 | the argument map and the operand and constraint vectors are the arguments split by side in order |
| `AsmBlock.FlipInputs` | ldc/gen/asmstmt.cpp:301-306 | the map ends up with the number of each argument, outputs before inputs |
| `AsmBlock.PermuteDigits` | ldc/gen/asmstmt.cpp:308-326 | the in-place scan replaces exactly the first digit after each introducing dollar sign |
| `AsmBlock.ScanRender` | ldc/gen/asmstmt.cpp:312-326 | on a template's text that scan is the renaming of its holes and leaves all other text alone |
| `AsmBlock.SplitUpdates` | ldc/gen/asmstmt.cpp:357-388 | update operands become plain outputs, and a tie per update operand, with its output's value, is appended behind all inputs |
| `AsmBlock.ReplaceNeedle` | ldc/gen/asmstmt.cpp:444-446 | the replacement loop ends and replaces all holes with that digit, and only those |
| `AsmBlock.RemapArgs` | ldc/gen/asmstmt.cpp:428-448 | the pass on text is the counting pass on holes |
| `AsmBlock.IRAsmBlock.AddStatement` | ldc/gen/asmstmt.cpp:203-423 | a statement joins the block with permuted holes, split operands and ties numbered from outputcount |
| `AsmBlock.GotoSetterText` | ldc/gen/asmstmt.cpp:520-570 | the text of the jump-target setter: one case per outer label, storing its value |
| `AsmBlock.DoOutputs` | ldc/gen/asmstmt.cpp:609-625 | outputs of all statements in order, output holes numbered from retn |
| `AsmBlock.DoInputs` | ldc/gen/asmstmt.cpp:627-646 | inputs of all statements in order, input holes numbered behind all outputs, and the joined text |
| `AsmNumbering.OutputCountIsBase` | ldc/gen/asmstmt.cpp:383-383 | outputcount before a statement is the number of outputs of all earlier statements |
| `AsmNumbering.CompileBlock` | ldc/gen/asmstmt.cpp:428-646 | for every block and every number of return registers the final text is the statements with each operand written as retn plus its own position in the outputs-then-inputs operand list, a number computed from the block alone, and the lists hold that operand's value and constraint there |
| `AsmNumbering.PositionInjective` | ldc/gen/asmstmt.cpp:607-646 | different operands of a block have different positions, also where their values are equal |
| `AsmReading.ReadsIffSeparated` | ldc/gen/asmstmt.cpp:428-448 | a finished text is read as exactly the references written into it if and only if no reference is followed by a digit |
| `AsmReading.BlockReadsIff` | ldc/gen/asmstmt.cpp:607-646 | LLVM reads the final text of a block as its statements with every operand at its own position if and only if no operand is directly followed by a digit |
| `AsmNumbering.TieOfStmt` | ldc/gen/asmstmt.cpp:369-381 | in every statement the tied inputs sit behind all inputs that have holes, in the order of their outputs |
| `AsmNumbering.TieValue` | ldc/gen/asmstmt.cpp:371-377 | each tie repeats its own output's value, and its number is that output's block position less retn |
| `AsmNumbering.TiesRightIffNoReturn` | ldc/gen/asmstmt.cpp:371-377 | all ties name their own output if and only if retn is 0 or there are no ties |
| `AsmNumbering.OneUpdateTie` | ldc/gen/asmstmt.cpp:371-377 | a block of one update operand behind any positive number of return registers: its output has number retn, its tie is written as 0 |
| `AsmGotos.CollectGotos` | ldc/gen/asmstmt.cpp:526-565 | exactly the branch targets outside the block get a value, and the values are 1, 2, ... in the order in which the statements first use the labels |
| `AsmGotos.CompileBlockWithGotos` | ldc/gen/asmstmt.cpp:502-646 | from the branches to the final text: without outer labels it is the plain block; otherwise the statements keep their own positions, the setter stands behind them, its jump target is the memory output behind the outputs of all statements, and the case of the label with value g moves into it the immediate operand g, the g-th one behind all outputs and the inputs of all statements |
| `AsmReading.GotoBlockReadsIff` | ldc/gen/asmstmt.cpp:520-646 | LLVM reads the final text of a block with a setter as its statements, every operand at its own position, followed by the setter, if and only if no operand of a statement is directly followed by a digit |
| `AsmDispatch.BlockForwards` | ldc/gen/asmstmt.cpp:520-570 | the final text of every block with a setter, split into lines and executed (labels, `jmp`, `movl`): falling off the statements reaches the end label without a store; entering at the label number g reaches it having moved exactly that label's constant into the jump target |
| `AsmDispatch.BranchesForwarded` | ldc/gen/asmstmt.cpp:526-570 | from the branches: every outer label has one place in the text, and whoever jumps there leaves with its value, and nothing else, stored in the jump target |
| `AsmDispatch.EndsOnce` | ldc/gen/asmstmt.cpp:520-570 | the execution has only one outcome |
| `AsmSyntax.SumRead` | ldc/gen/asm-x86.h:3442-3580 | reading an operand that was written out gives back its tree, whatever ends it |
| `AsmAddress.SlotAdds` | ldc/gen/asm-x86.h:3177-3268 | an expression slotted without error adds exactly its value to what the operand's fields stand for, in or outside brackets, for all register contents |
| `AsmAddress.ScaleAdds` | ldc/gen/asm-x86.h:3480-3516 | a register scaled without error adds the register times the factor cut to 32 bits |
| `AsmProcessor.Processor.ParseSum` | ldc/gen/asm-x86.h:3442-3478 | for every token list the one-pass parser is reading into a tree followed by the tree's actions |
| `AsmProcessor.Processor.ParseProduct` | ldc/gen/asm-x86.h:3518-3550 | likewise for products |
| `AsmProcessor.Processor.ParseBracket` | ldc/gen/asm-x86.h:3552-3584 | likewise for bracket suffixes, missing `]` included |
| `AsmProcessor.Processor.ParseOperand` | ldc/gen/asm-x86.h:3288-3294 | a whole operand, with its class; `AcceptedIff` says which class and which operands are accepted |
| `AsmAddress.StillInBracket` | ldc/gen/asm-x86.h:3565-3570 | whoever is in a bracket after an expression was in one before: every bracket resets the flag |
| `AsmAddress.BareInteger` | ldc/gen/asm-x86.h:3275-3286 | a bracketless expression folded to an integer has left the operand untouched, and the integer is the expression's value as a 64-bit word |
| `AsmAddress.ExecCollects` | ldc/gen/asm-x86.h:3177-3580 | for every tree the parser accepts, what is collected plus what is handed back is what was collected before plus the tree's core plus the sum of all its brackets, and an integer handed back is the core as a 64-bit word |
| `AsmAddress.OperandMeans` | ldc/gen/asm-x86.h:2433-2498 | for every operand accepted without error and all register contents: a memory operand's symbol + base + index * scale + displacement is its core plus its brackets, and its expression's value if and only if these agree; a register operand is its expression; an immediate is its expression less the register, if there is one |
| `AsmAccept.AcceptedIff` | ldc/gen/asm-x86.h:2433-2498 | for every tree, accepted as memory, register or immediate if and only if a condition on the tree holds: operators have fitting operands and brackets close; at most one register outside brackets, two inside, one of them scaled, one variable; memory exactly with a bracket or variable and no register outside; a register exactly alone; an immediate exactly with a number and no variable, and with a register only if the number is 0 |
| `AsmAccept.RegisterOperands` | ldc/gen/asm-x86.h:2468-2469 | of complete expressions exactly the bare registers are register operands, with that register |
| `AsmAccept.NumberOperand` | ldc/gen/asm-x86.h:2474-2494 | every folded number without brackets is an immediate of its value as a 64-bit word |
| `AsmAccept.UsualForms` | ldc/gen/asm-x86.h:3177-3580 | base, scaled index and added or subtracted displacement, with any of them left out and behind a variable or not, are accepted as memory and name their value |
| `AsmAccept.InterruptedBracket` | ldc/gen/asm-x86.h:3565-3570 | `[a + [b]]` is refused for all registers and `[a + b]` is not |
| `AsmAddress.PlainOperandRight` | ldc/gen/asm-x86.h:3442-3580 | they agree where no bracket stands in a factor or a subtrahend and register factors fit 32 bits |
| `AsmAddress.ImmediateRightIffNoRegister` | ldc/gen/asm-x86.h:2454-2494 | an immediate has its expression's value for all register contents if and only if the expression has no register |
| `AsmAddress.RegisterPlusZero` | ldc/gen/asm-x86.h:2454-2474 | a register plus 0 is accepted as the immediate 0 |
| `AsmAddress.BracketInSubtrahend` | ldc/gen/asm-x86.h:3460-3471 | `c - d[i]` names c - d plus the bracket; with a plain bracket that is right if and only if twice the bracket is 0 |
| `AsmAddress.BracketInFactor` | ldc/gen/asm-x86.h:3525-3534 | `c * d[i]` names c * d plus the bracket; with a plain bracket that is right if and only if (1 - c) times the bracket is 0 |
| `AsmAddress.ScaleIsCut` | ldc/gen/asm-x86.h:3499-3511 | `[c * r]` with an accepted scale is right for all r if and only if c fits 32 bits |
| `AsmAddress.UsualFormAccepted` | ldc/gen/asm-x86.h:3177-3580 | `[b + i*s + d]` with s in 1, 2, 4, 8 is accepted and fills every field |
| `AsmProcessor.ParseWritten` | ldc/gen/asm-x86.h:3177-3580 | from tokens to address: an operand written out and parsed is accepted in each class exactly under that class's condition, and as memory names core plus brackets, and its expression's value if and only if these agree |
| `GccTemplate.TranslateTemplate` | ldc/gen/asm-gcc.cpp:25-53 | the loop's result is read by LLVM as the source is read by GCC if and only if no operand starts with a dollar sign |
| `GccTemplate.SameReadingIff` | ldc/gen/asm-gcc.cpp:34-49 | the same of the translation as a function, by structure of the template |
| `GccTemplate.TranslationInjective` | ldc/gen/asm-gcc.cpp:34-49 | different templates without dollar operands have different translations |
| `ObjectCache.StepKeepsInv` | ldc/driver/cache.cpp:366-457 | every step of every compiler and of the pruner keeps the invariant that ties phases, open inodes and links together |
| `ObjectCache.RunKeepsInv` | ldc/driver/cache.cpp:366-457 | so does every finite interleaving |
| `ObjectCache.EntriesComplete` | ldc/driver/cache.cpp:400-435 | in every interleaving, with stops between any two steps and arbitrary pruning, every visible entry is the complete object for its hash |
| `ObjectCache.OutputsCorrect` | ldc/driver/toobj.cpp:344-362 | every compiler that finishes leaves the object an uncached run writes |
| `ObjectCache.ExtrasRightIff` | ldc/driver/toobj.cpp:358-361 | the requested further outputs are there and right if and only if it was a miss, or none were requested, or they were there and right from an earlier build |
| `CacheProgress.HitIffFound` | ldc/driver/toobj.cpp:357-361 | over every run: a compiler that finishes has looked once, and it finishes with a hit if and only if its entry was visible then |
| `CacheProgress.FoundEndsInHit` | ldc/driver/cache.cpp:366-384 | from every reachable state with its entry visible a compiler by itself takes boundedly many steps, and when none is left it has finished with a hit, its output is the object and the entry is as it was |
| `CacheProgress.MissedLeavesEntry` | ldc/driver/cache.cpp:386-435 | without the entry it finishes with a miss, its output is the object, and so is its entry, which is now visible |
| `CacheProgress.CanFinish` | ldc/driver/toobj.cpp:344-362 | from every reachable state a compiler that has not started can finish by itself |
| `CacheNames.SafeIffNameUnused` | ldc/driver/cache.cpp:404-435 | at any reachable point, a compiler may create a temporary without any entry ever being broken by what follows if and only if no other compiler is using that name |
| `CacheNames.RunSafeIff` | ldc/driver/cache.cpp:366-457 | over every run from an initial state, with names picked freely among those no file has, entries are safe throughout if and only if no name in use was handed out |
| `CacheNames.PrunedNameBreaksEntry` | ldc/driver/cache_pruning.d:112-113 | any two compilers of one module that find no entry can get to the point where the pruner has removed the temporary of the first, the second is given its name, and the entry can be broken |
| `OperandGraph.EnumOperands` | ldc/gen/dynamiccompile.cpp:55-65 | the recursion on a stack of given depth hands over the global operands in depth-first order, or overflows |
| `OperandGraph.EnumExact` | ldc/gen/dynamiccompile.cpp:55-65 | these are exactly the global values at the end of a path of operands |
| `OperandGraph.TerminatesIffAcyclic` | ldc/gen/dynamiccompile.cpp:55-65 | the recursion ends if and only if no operand cycle is reachable |
| `OperandGraph.CyclicInitialiserDiverges` | ldc/gen/dynamiccompile.cpp:55-65 | a variable whose initializer points back at it makes it run for ever |
| `SymbolClosure.EnumFuncSymbols` | ldc/gen/dynamiccompile.cpp:67-81 | it ends on a stack exactly if each of its instructions does, and then hands over a symbol if and only if the function refers to it (personality included) |
| `SymbolClosure.CreateFilterWithin` | ldc/gen/dynamiccompile.cpp:119-161 | on a stack of given depth it ends if and only if no reached, traversed function needs a deeper one; then the keys are exactly the predefined symbols and those reachable from the roots without runtime variables, every key has its visibility, and every traversed function has all its references in the map or among the runtime variables |
| `SymbolClosure.EndsIffReachedAcyclic` | ldc/gen/dynamiccompile.cpp:119-161 | some depth is enough if and only if no operand cycle is in reach of a function that is reached and traversed |
| `SymbolClosure.CreateFilter` | ldc/gen/dynamiccompile.cpp:119-161 | under that condition, the exact filter for every cyclic reference graph |
| `SymbolClosure.Generation` | ldc/gen/dynamiccompile.cpp:140-159 | one round of the worklist keeps what is known and leaves only the newly added functions to do, or shows that the run does not end on this stack |
| `SymbolClosure.Handle` | ldc/gen/dynamiccompile.cpp:143-155 | one symbol: inserted once, internal and queued exactly if new, defined, a function and no intrinsic |
| `SymbolClosure.InternalExactly` | ldc/gen/dynamiccompile.cpp:126-131 | internal are exactly the non-predefined thunkless roots and the non-predefined defined, non-intrinsic functions |
| `ThreadLocals.ReplacedSameMeaning` | ldc/gen/dynamiccompile.cpp:339-346 | a call before the instruction and its result as operand leave the block's meaning unchanged |
| `ThreadLocals.ReplacedSlots` | ldc/gen/dynamiccompile.cpp:163-179 | each replacement leaves one thread-local operand slot less although an instruction is added |
| `ThreadLocals.Rewriter.GetAccessor` | ldc/gen/dynamiccompile.cpp:315-333 | one accessor per variable, which returns that variable |
| `ThreadLocals.Rewriter.RewriteInstr` | ldc/gen/dynamiccompile.cpp:337-352 | the handler reports a change exactly if it replaced something; otherwise the instruction has no thread-local operand |
| `ThreadLocals.Rewriter.IterateBlock` | ldc/gen/dynamiccompile.cpp:163-179 | scanning again from the start after every change terminates and leaves no direct thread-local operand |
| `ThreadLocals.Rewriter.Run` | ldc/gen/dynamiccompile.cpp:307-358 | no direct thread-local operand is left in any block, every block means what it meant, and exactly the variables the program used directly have an accessor and are erased |
| `ThreadLocals.ErasedStillMentioned` | ldc/gen/dynamiccompile.cpp:355-357 | an erased variable is still mentioned if and only if the program had it both directly and inside a constant expression |
| `ResponseFile.ApplyBackslashRule` | ldc/driver/response.cpp:30-42 | the trailing backslashes are halved, an odd one escapes the quote |
| `ResponseFile.DealWithQuote` | ldc/driver/response.cpp:45-70 | from a quote on, the stream loops give what the reader as a function gives |
| `ResponseFile.DealWithComment` | ldc/driver/response.cpp:72-79 | a comment is skipped up to and including CR or LF |
| `ResponseFile.Expand` | ldc/driver/response.cpp:81-119 | the stream tokeniser is the reader as a function, on every text |
| `ResponseFile.TokensClean` | ldc/driver/response.cpp:81-119 | no argument read from a file contains CR or LF or is empty |
| `ResponseComments.TokensAreWords` | ldc/driver/response.cpp:72-119 | a text without quotes is read as its words at white space, once everything from a `#` at the beginning or behind white space to the end of its line has been cut out |
| `ResponseComments.CommentCut` | ldc/driver/response.cpp:72-79 | in every text, wherever the reader is between arguments or behind a quote, a comment with its line end might as well not be there |
| `ResponseWriter.WriteContent` | ldc/driver/args.cpp:126-141 | the nested loops write each argument quoted and escaped on its own line |
| `ResponseWriter.WrittenRead` | ldc/driver/response.cpp:30-119 | what reading a written list gives, for every list of arguments without CR and LF |
| `ResponseWriter.RoundTrip` | ldc/driver/args.cpp:126-141 | reading gives back the list if and only if every argument survives |
| `ResponseExpansion.ResponseExpand` | ldc/driver/response.cpp:121-173 | the queue loop with its counters terminates for every environment and file map and gives the result or error code of the worklist function |
| `ResponseExpansion.SucceedsIff` | ldc/driver/response.cpp:121-173 | it succeeds with a list if and only if that list is the left-to-right depth-first flattening, each name standing for its variable if that is not empty and otherwise for its file, and no name is expanded more than 32 times |
| `ResponseErrors.FailsIff` | ldc/driver/response.cpp:143-166 | it returns code 1, 2 or 3 exactly if the names met in order, none more than 32 times, lead to a lone `@`, to a name met 32 times already, or to a name with neither a non-empty variable nor a file |
| `ResponseErrors.ThirtyTwoUses` | ldc/driver/response.cpp:124-152 | one name given k times is expanded for k up to 32 and is error 2 beyond |
| `ResponseExpansion.ResultClean` | ldc/driver/response.cpp:143-172 | no result is empty or starts with `@` |
| `ResponseExpansion.CycleIsError` | ldc/driver/response.cpp:148-152 | names that include each other in a cycle of any length end with an error wherever the cycle is entered |
| `EnvVarFlags.SplitArg` | ldc/driver/ldmd.cpp:313-356 | one argument in place: the write position stays between the argument's start and the read position, text before and the unread text stay as they are, and the written text is the argument |
| `EnvVarFlags.AppendEnvVar` | ldc/driver/ldmd.cpp:294-359 | for every buffer the C strings at the recorded positions of the final buffer are the arguments of the reader as a function: nothing emitted is altered later |
| `TokeniserAgreement.SameArgumentsIff` | ldc/driver/ldmd.cpp:302-357 | on every text without `#` and with blanks and tabs only, response-file and DFLAGS tokeniser give the same non-empty arguments if and only if no backslash left by a quote is looked at again |
| `TokeniserAgreement.ScanWeight` | ldc/driver/response.cpp:30-119 | with a backslash weighing 2 and a quote 1, the response-file reader keeps at most the weight that halving each backslash once leaves, and strictly less if it looks back |
| `TokeniserAgreement.FlagsWeight` | ldc/driver/ldmd.cpp:319-355 | the DFLAGS reader keeps exactly that weight |
| `TokeniserAgreement.OddRunsNoReread` | ldc/driver/response.cpp:30-42 | odd backslash runs before quotes are enough for that |
| `TokeniserAgreement.RereadDiffers` | ldc/driver/response.cpp:30-42 | for every k > 0, 2k backslashes and two quotes are read differently |
| `BitFields.BitFieldLValue.GetRVal` | ldc/gen/dvalue.cpp:179-202 | shifts, mask and extension give the field's bits in memory, zero- or sign-extended to the field's type |
| `BitFields.BitFieldLValue.Store` | ldc/gen/dvalue.cpp:204-225 | the field's bits become the low bits of the value and no other bit of memory changes |
| `BitFields.StoredNumber` | ldc/gen/dvalue.cpp:179-225 | as numbers: the value modulo 2^w, in the unsigned or the two's-complement range of w bits |
| `BitFields.StoreThenLoad` | ldc/gen/dvalue.cpp:172-225 | load after store gives the stored bits, and a disjoint field loads what it loaded before, however the covering integers overlap |
| `PointerOffset.ExtractNoStrideInc` | ldc/gen/binops.cpp:47-72 | found exactly for a multiplication by the constant element size under negations, with their parity, which is also kept when nothing is found |
| `PointerOffset.EmitPointerOffset` | ldc/gen/binops.cpp:74-123 | the emitted address is base plus or minus the byte offset modulo the word size if and only if no odd number of negations was taken off an offset used as it is, or twice the offset is 0 |
| `PointerOffset.NegatedVariableLosesSign` | ldc/gen/binops.cpp:50-71 | a negated variable is such an offset, a negated multiplication by the element size is not |
| `DebugTypes.SubstAbs` | ldc/gen/dibuilder.cpp:641-642 | replacing a placeholder in a description keeps what it describes |
| `DebugLayout.DescLayout` | ldc/gen/dibuilder.cpp:809-851 | for every type, the cells a debugger reads from the description's tags (which it occupies, what each address leads to, keys and values of associative arrays, parameters by value or address) are those of the D type |
| `DebugLayout.ExpectedLayout` | ldc/gen/dibuilder.cpp:503-645 | the elements of an aggregate's node give the base and the fields in order of declaration as the object's cells, and its static members' cells apart |
| `DebugComposites.ClosedInv` | ldc/gen/dibuilder.cpp:620-644 | finishing an aggregate keeps every finished node right, also those that referred to its placeholder |
| `DebugComposites.BuiltGrown` | ldc/gen/dibuilder.cpp:565-645 | from before an aggregate is begun to after it is finished, older nodes are untouched, no placeholder is added, and every new node is needed |
| `DebugComposites.DIBuilder.CreateTypeDescription` | ldc/gen/dibuilder.cpp:809-851 | terminates on every type graph and delivers the type's description, referring to existing nodes only |
| `DebugComposites.DIBuilder.CreateCompositeType` | ldc/gen/dibuilder.cpp:565-645 | an aggregate with a node is found, one without a size is unspecified and not recorded, any other is built; values held across the call stay good |
| `DebugComposites.DIBuilder.AddFields` | ldc/gen/dibuilder.cpp:503-516 | the member descriptions in order, those of type noreturn left out |
| `DebugComposites.DIBuilder.AddStaticMembers` | ldc/gen/dibuilder.cpp:518-563 | the static member descriptions in order, with the aggregate's own node as scope |
| `DebugComposites.DIBuilder.CreateAArrayType` | ldc/gen/dibuilder.cpp:693-719 | the key's description is still good after the value's has been made |
| `DebugComposites.DIBuilder.CreateFunctionType` | ldc/gen/dibuilder.cpp:723-770 | return, implicit context and parameter descriptions in order, references to void included |
| `DebugComposites.DIBuilder.Describe` | ldc/gen/dibuilder.cpp:487-645 | an outermost call leaves no placeholder, each aggregate was begun once, every node lists exactly what its aggregate declares, and the nodes are the old ones and the least set closed under mention; read by its tags the description has the type's layout, and every node its aggregate's |
| `GlobalReplacement.EndExtended` | ldc/gen/irstate.cpp:172-176 | a new helper becomes the end of one chain and changes no other |
| `GlobalReplacement.IRState.SetGlobalVarInitializer` | ldc/gen/irstate.cpp:149-179 | a type mismatch gives a new global with the initializer, all uses so far and a recorded replacement; otherwise only the initializer is set; no other global's type or initializer changes |
| `GlobalReplacement.IRState.ReplaceGlobals` | ldc/gen/irstate.cpp:181-188 | works if and only if no global was replaced twice; then every use is at the last element of the chain of the global it was written with, exactly the replaced globals are gone, and the others keep their types and initializers |
| `ArchiveMerge.NextInTurn` | ldc/driver/archiver.cpp:117-131 | the first pending file with a name is the next one in turn of that name, and taking it uses up one more |
| `ArchiveMerge.Archiver.MergeOld` | ldc/driver/archiver.cpp:110-135 | each old position holds the file whose turn it is or the old member, and no file is lost or doubled |
| `ArchiveMerge.Archiver.AddPending` | ldc/driver/archiver.cpp:137-145 | the blank entries at the end are all filled, in command-line order |
| `ArchiveMerge.Archiver.ComputeNewArchiveMembers` | ldc/driver/archiver.cpp:108-146 | every file once, the k-th old member of a name replaced in place by the k-th file of that name if there is one, the other files behind in order, length old + new - replaced; fails exactly if a file is unreadable or an old member must be kept and cannot |

## Assumptions about the surroundings

- Assembly templates: text holds no `$` and no beginning of a hole (`<<i`, `<<o`) and does not end
  in `<` (other placeholders such as `<<func>>` are text), each argument has one hole, a statement
  has at most 10 operands including ties (the source asserts that), a statement is emitted once,
  and a block branches to at most 9 labels outside it (the setter's holes have one digit). For
  its execution, outer labels and the end label hold no line break and no statement defines them.
- Cache: the object is determined by the hash, output paths are distinct, objects are not
  empty; the `ObjectCache` results are about runs in which no temporary gets a name that a running
  compiler is using, which `CacheNames.RunSafeIff` shows to be exactly the safe ones.
- Symbol closure: each function is a root at most once.
- Bit-fields: width at least 1, memory covers the field. Pointer offsets: the memory type has the
  size the front end reports.
- Debug types: every mentioned aggregate is declared, at module level.

## Left out

- LLVM itself, hashing, process and link invocation, option tables, opcode and register tables.
- Assembly: replacing the function-name placeholder, clobber strings, the ten-character print buffer of remap_args, frame-relative and local-size arguments; the ABI return statement is taken to have retn outputs without holes.
- Operand parser: symbol offsets (`offsetof`), segment and size prefixes, the logical, shift, division and comparison levels, `!` and `~`, and the 32-bit build; variables and fields are kept.
- GCC-style constraint strings.
- Cache: hard and symbolic links as retrieval modes share storage with the cache; pruning policy (modelled as arbitrary removal), missing cache directory.
- Run-time compilation: which symbols are predefined per target, fixRtModule, the tables generated for the run-time library, placement of calls before PHI nodes.
- Response files: the Windows writer, encoding of the file, the system limit that decides whether one is written.
- EnvVarFlags.AppendEnvVar: the buffer is an array of characters ended by NUL; allocation failure is not modelled.
- Bit-fields on big-endian targets (marked as open in the source).
- Debug info: aggregates inside functions or other aggregates, tuple members and member nesting by attributes and mixins (the members are given in order), names, sizes, files and scopes.
- DebugComposites.DIBuilder.AddStaticMembers: the cache that maps a static variable to its description is not modelled.
- GlobalReplacement.IRState.SetGlobalVarInitializer: linkage, section, alignment and the other properties a helper inherits.
- Archives: names of old members that cannot be read, symbol tables, writing the file; the base name is an arbitrary function of the path.
