# ToyC back end and semantic analysis, modelled and proved

This project models, in Dafny, the RV32IM code generator of the ToyC compiler (`src/code_generator.cpp`,
`src/code_generator.h`) over its three-address representation (`src/ir.h`), and the semantic analyser with its symbol
table (`src/semantic_analyzer.cpp`, `src/symbol_table.h`).

The main result follows one function, and then a whole program, from the intermediate representation to the lines that
are emitted. `Rv32` and `Control` give the target its meaning (RISC-V Unprivileged ISA 20191213, sections 2.4 to 2.6
and chapter 7); `IrMachine` gives the intermediate representation its own. In between:

- the arithmetic of constant divisors (`Magic`, `MagicWords`, `Shifts`) and the code of one instruction (`Selection`,
  `Binary`, `BinaryOp`, `Compare`, `Remainder`, `NormRem`);
- the analyses: liveness, block-local registers, interference and colouring, cached globals and constants, slots
  (`IrFlow`, `Liveness`, `TempRanges`, `Coloring`, `Allocation`), tail calls (`TailCall`) and signs (`NonNeg`,
  `NonNegPass`, `NonNegSound`);
- the simulation of a body and of a function with its frame (`Homes` to `FunctionExit`), and of programs whose calls are
  carried out by the callees' texts (`WholeProgram`);
- the peephole pass, on one window, on whole runs and on whole programs (`Peephole`, `PeepholeProof`, `PeepholeRuns`,
  `EmittedProgram`), with the liveness of the registers of a text that it needs, derived from the intermediate
  representation (`Exposure`, `TextLive`, `BodyLive`, `TextPlan`, `TextExits`, `Windows`, `DeadTests`);
- the generator itself, a class whose methods append lines as the original's do (`CodeGenerator`), tied to all of this
  by what `GenerateFunction` ensures, by `Generated` and by `GeneratedProgram`; `SumFunction` and `SumProgram` are a
  program it all applies to.

`GlobalClash`, `TruthLost`, `ScanMissed`, `QuotientLost`, `DividendSaved` and `SaveListShort` show at one input each what
goes wrong where a condition of the main result fails; `LeafUnits` has what they share.

The second part is the analyser: `SymbolTable` and `SemanticAnalyzer` are classes updated in place as in the source;
`Scoping`, `Rules` and `ConstFold` say by position in the program's trace, without a stack, what they must compute.

Words are integers wrapped to 32 bits. Assembly is a datatype, one value a line. Heuristic orders (which local, global
or constant is considered first) are parameters, and the theorems hold for all of them.

## Model

| member | source | states |
|---|---|---|
| `Word.PowerOfTwoTest` | src/code_generator.cpp:2044-2046 | The bit test of a positive number with its predecessor is zero exactly when the number is two to the power of its trailing zeros, the shift then used |
| `Magic.ComputeSignedDivMagic` | src/code_generator.cpp:112-147 | The search on wrapping 32-bit words succeeds exactly for the divisors that are no power of two; multiplier and shift are the first sufficient ones, in range, and the ones the definition of a magic pair determines |
| `Magic.MagicUnique` | src/code_generator.cpp:120-146 | No other pair within the precision the search can reach is a magic pair of the divisor |
| `Magic.ExitTest` | src/code_generator.cpp:130-143 | The exit test on quotients and remainders is the comparison of the power of two with the bound, at every precision |
| `Magic.EnoughAtTop` | src/code_generator.cpp:126-143 | The search is certain to stop at 31 plus the bits of the divisor |
| `Magic.QuotientFits` | src/code_generator.cpp:126-143 | Up to that precision the growing quotient never leaves 32 bits |
| `Magic.MagicQuotient` | src/code_generator.cpp:1811-1846 | For every 32-bit dividend of either sign the rounded-down product, plus one when the dividend is negative, is the quotient rounded toward zero |
| `MagicWords.WordQuotient` | src/code_generator.cpp:1811-1846 | The same on machine words, with the multiplier read as a signed word and the sign fix left out only for a dividend that is not negative |
| `MagicWords.SignedDivisor` | src/code_generator.cpp:1811-1892 | For a divisor of either sign the corrected quotient is what `div` computes, and subtracting its product gives what `rem` computes |
| `Selection.MagicDivCorrect` | src/code_generator.cpp:1811-1846 | The emitted division by any constant the search accepts leaves the RISC-V quotient in the destination, and everything but scratch registers as it was |
| `Selection.MagicModCorrect` | src/code_generator.cpp:1848-1892 | The emitted remainder likewise; a dividend in t0 is kept in t3, which is then lost |
| `Shifts.BiasedShift` | src/code_generator.cpp:2078-2093 | Adding the bias and shifting rounds toward zero for every dividend and every power of two |
| `Shifts.BiasedRemainder` | src/code_generator.cpp:2118-2124 | Shifting that quotient back and subtracting is the truncated remainder |
| `Shifts.MaskIsRemainder` | src/code_generator.cpp:2107-2116 | Masking is the remainder of a dividend that is not negative |
| `Binary.MulImmCorrect` | src/code_generator.cpp:2043-2077 | Every shift-and-add form of a multiplication by a small constant computes the wrapped product |
| `Binary.DivPowerCorrect` | src/code_generator.cpp:2078-2093 | Division by a power of two, short form and biased form |
| `Binary.ModPowerCorrect` | src/code_generator.cpp:2107-2124 | Remainder by a power of two, mask and biased form |
| `BinaryOp.BinaryCorrect` | src/code_generator.cpp:1894-2175 | Whatever registers, slots or immediates destination and sources are, and however they overlap, the emitted code writes the value of the operation to the place of the destination and changes nothing else but scratch registers |
| `BinaryOp.BinaryEncodable` | src/code_generator.cpp:1894-2175 | The emitted lines can be assembled if and only if the instruction is neither a subtraction of -2048 nor a division or remainder by 1 of a dividend not known to be non-negative |
| `BinaryOp.SpillOverwritesT3` | src/code_generator.cpp:1855-1892 | When a remainder saves its dividend, t3 afterwards holds that dividend and no longer what lived there |
| `BinaryOp.SpillExactly` | src/code_generator.cpp:1848-1892 | Where t3 is not the destination, an instruction keeps it if and only if it does not save a dividend there, or t3 holds that dividend already |
| `DividendSaved.DividendSaved` | src/code_generator.cpp:1848-1892 | A function with a local in t3 and a fused chain: it is worth 5, its text returns the dividend 100 |
| `Compare.CompareCorrect` | src/code_generator.cpp:2203-2326 | The truth value of each of the six relations, for every placement of the operands |
| `Compare.CompareEncodable` | src/code_generator.cpp:2203-2326 | The lines can be assembled if and only if the comparison is not at-most 2047 |
| `Compare.FusedBranchTaken` | src/code_generator.cpp:1344-1363 | The branch of a fused pair, before the peephole pass, is taken exactly when the branch of the intermediate representation is |
| `FusedPeephole.FusedAfterPeephole` | src/code_generator.cpp:1344-1681 | The fused pair after the peephole pass: whatever follows it, control goes to the target or behind the pair, only scratch registers change, and the decision is right if and only if the pair is not an at-least comparison with a small immediate whose difference overflows |
| `FusedPeephole.CutAgrees` | src/code_generator.cpp:1510-1678 | The window the pass finds in a fused pair decides as the lines it replaces, the subtracting one if and only if the difference fits |
| `FusedPeephole.SubtractingCut` | src/code_generator.cpp:1637-1660 | The subtracting window is found exactly for an at-least comparison with a small immediate other than -2048 |
| `NormRem.NormalIsEuclid` | src/code_generator.cpp:1124-1127 | The chain ((x % m) + m) % m is the mathematical remainder when its addition does not overflow |
| `NormRem.PowerFusion` | src/code_generator.cpp:1150-1162 | For every power of two the two shifts compute the chain, on every 32-bit dividend |
| `NormRem.SingleFusion` | src/code_generator.cpp:1163-1168 | For a dividend that is not negative one remainder computes the chain if and only if the remainder plus the modulus fits in 32 bits |
| `NormRem.SingleFusionFails` | src/code_generator.cpp:1124-1168 | A dividend and a modulus for which it does not |
| `NormRem.ChainRun` | src/code_generator.cpp:58-108 | Running a matched chain in the intermediate representation, in either spelling, leaves the value of the chain in its destination and changes only the chain's own temporaries, when these differ from the dividends |
| `NormRem.FusedPowerCorrect` | src/code_generator.cpp:1150-1162 | The emitted shifts write that value to the place of the destination |
| `NormRem.FusedSingleCorrect` | src/code_generator.cpp:1163-1168 | The emitted single remainder does too, when the addition fits |
| `NormRem.ScanExactly` | src/code_generator.cpp:1132-1149 | When the scan below a chain finds no use, the value is wanted all the same if and only if a jump reached straight down, before the line where the scan stops, leads to a use |
| `ScanMissed.ScanMissed` | src/code_generator.cpp:1132-1168 | A chain by 4 in a loop, fused although its intermediate value is read again above it: the function is worth 5, its text returns 9 |
| `QuotientLost.QuotientLost` | src/code_generator.cpp:68-83 | A chain fused although its quotient is returned: the function is worth 2, its text returns what t5 held on entry |
| `ChainSim.StepChain` | src/code_generator.cpp:1128-1170 | A fused chain takes the machine from the home state before it to the home state after it |
| `Liveness.ComputeLiveness` | src/code_generator.cpp:630-689 | The fixpoint terminates, solves the dataflow equations, and contains a local at an instruction if and only if some path from there reaches a use of it before a definition |
| `Coloring.BuildInterference` | src/code_generator.cpp:691-717 | The graph is symmetric and has an edge exactly where a definition meets another local that is live after it and is not what it copies |
| `Coloring.ColorLocals` | src/code_generator.cpp:719-784 | The colouring gives no two neighbours one register, leaves the parameters of a call-free function where they arrive, and uses no register that a call would destroy in a function that calls |
| `Allocation.AssignGlobals` | src/code_generator.cpp:795-828 | Cached globals get registers different from each other and from every coloured local, never a0, and none in a function that calls |
| `Allocation.AssignConstants` | src/code_generator.cpp:833-915 | Hoisted constants get registers that no local, global or arriving parameter has, and t3 only when no remainder needs it |
| `Allocation.AnalyzeStackFrame` | src/code_generator.cpp:237-986 | The tables of registers, slots and sizes: a definition never takes the register or slot of another local live after it, except of what it copies; caches are apart from all of them; slots, outgoing arguments and the save list fit the frame. For any order in which candidates are considered |
| `TempRanges.AllocateTemps` | src/code_generator.cpp:505-621 | First-fit assignment of block-local t-registers: only candidates get one, and no two ranges in one register touch |
| `TempRanges.TempsSound` | src/code_generator.cpp:505-621 | A t-register written by an instruction holds no other local that is live after it |
| `TempRanges.NoTempAcrossBlockEnd` | src/code_generator.cpp:522-540 | No local in a t-register is live across a call, a jump or a label |
| `TempRanges.TempRangeAround` | src/code_generator.cpp:541-590 | A candidate live after an instruction lies in a recorded range around it, in one block |
| `FrameCode.FrameSizeBytes` | src/code_generator.cpp:151-166 | The size is the saved words, the slots and the outgoing arguments, rounded up to the alignment, and zero without need of a frame |
| `FrameLayout.AreasDisjoint` | src/code_generator.cpp:151-166 | Return address, frame pointer, saved registers, slots and outgoing arguments all lie in the frame and no two overlap |
| `FrameLayout.SlotOffset` | src/code_generator.cpp:2722-2732 | The offset computed for a spilled local is that of its own word |
| `FrameLayout.LayoutFromFrame` | src/code_generator.cpp:1189-1199 | What the body may address, incoming arguments included, keeps clear of the saved words, of the caller's stack and of the globals |
| `FrameEntry.PrologueRun` | src/code_generator.cpp:1365-1389 | After the prologue the pointers have moved, the caller's registers are in their words and nothing outside the frame is touched, for near and far offsets |
| `FrameEntry.LeaveRun` | src/code_generator.cpp:1391-1407 | Taking the frame down gives back s0, sp, the saved registers and, where asked, ra, whatever the body did besides |
| `BodySim.BinaryWritten` | src/code_generator.cpp:1223-1230 | An arithmetic instruction of the body, in the tables of the analysis, writes its result to the home of its destination |
| `JumpSim.StepCall` | src/code_generator.cpp:1259-1261 | A call keeps every live local, global, constant and saved word in its home and stores the result |
| `JumpSim.StepReturn` | src/code_generator.cpp:1262-1268 | A return reaches the exit label with its value in a0 |
| `JumpSim.StepBranch` | src/code_generator.cpp:1275-1311 | A conditional branch lands where the intermediate representation goes |
| `JumpSim.StepLoop` | src/code_generator.cpp:1076-1103 | A self tail call goes back to the body label with the staged arguments as the parameters |
| `BodyFlow.LabelLands` | src/code_generator.cpp:1269-1274 | A jump to a label lands at the code of the instruction that defines it |
| `ArgSim.ParamsWritten` | src/code_generator.cpp:1173-1213 | Each declared parameter is moved from where it arrives to its home without disturbing those still to come |
| `AllocSim.CoreWritten` | src/code_generator.cpp:237-986 | Writing the home of one variable keeps every other global, constant, staged argument and frame word |
| `BodyRun.BodyFollows` | src/code_generator.cpp:1119-1337 | The compiled body follows every run of the intermediate representation, loops, calls, fused pairs, fused chains and self tail calls included: each live value is in its home wherever the run is, and the result in a0 where it returns |
| `FunctionExit.FunctionReturns` | src/code_generator.cpp:988-1117 | A compiled function entered as its callers enter it returns the result of the intermediate representation, with the globals in memory and the caller's registers, return address and stack given back |
| `FunctionExit.FunctionTailCalls` | src/code_generator.cpp:2607-2624 | At a tail call to another function the frame is gone, the arguments are staged and the caller's state is restored |
| `FunctionExit.TailResult` | src/code_generator.cpp:2607-2624 | What the callee of such a jump does, it does for the caller of the function that jumped |
| `WholeProgram.CallCarried` | src/code_generator.cpp:2328-2335 | One call, at any depth: the callee's own text does for its caller what the intermediate representation says, within the stack there is |
| `WholeProgram.CallsCarried` | src/code_generator.cpp:988-1117 | The assumption each function makes of its calls is met, at every depth of calls, by running the texts of the callees |
| `GlobalClash.StayingParams` | src/code_generator.cpp:804-828 | No global takes the register of an arriving parameter in a function that calls something, names no global, or has no parameter arriving in a1 to a7 that can be moved to a t-register |
| `GlobalClash.ClashExactly` | src/code_generator.cpp:804-828 | Exactly which inputs are safe for all tables the analysis is promised to make: those that call something, name no global, or have no parameter arriving in a1 to a7 that can be moved to a t-register |
| `GlobalClash.ArgumentAfterLoads` | src/code_generator.cpp:1069-1074 | After the entry loads an argument register holds its argument exactly when no global is cached there |
| `GlobalClash.ClashAllowed` | src/code_generator.cpp:795-828 | An input of four instructions whose tables meet everything else and let it happen |
| `GlobalClash.ClashMisreads` | src/code_generator.cpp:1069-1074 | What the function then takes for its parameter is the global |
| `TailCall.DetectTailCalls` | src/code_generator.cpp:2337-2391 | The detected calls are exactly the last calls whose result is what is returned, with nothing but returns behind them and no argument on the stack |
| `TailCall.DetectedOk` | src/code_generator.cpp:2337-2391 | Detection gives what the code for tail calls relies on |
| `TailCall.SelfTailCallIsLoop` | src/code_generator.cpp:1076-1103 | A function with tail calls of itself has the same results when it calls itself and when it starts over: any depth of recursion on one side, any number of rounds on the other |
| `NonNegPass.AnalyzeNonNegativeVars` | src/code_generator.cpp:2400-2592 | The imperative table says a local is not negative at an instruction exactly when the declarative claim does: a constant sign, a counting loop, or a window of straight-line propagation |
| `NonNegPass.Flush` | src/code_generator.cpp:2535-2541 | At a block end every open window is closed there, and nothing else changes |
| `NonNegSound.AnalysisSound` | src/code_generator.cpp:2400-2605 | In every run without signed overflow, wherever the claim is made and the local is read, it is not negative, and every fused chain may be fused |
| `NonNegSound.CounterKept` | src/code_generator.cpp:2443-2522 | The counter of a reversed loop stays non-negative through every step that enters or stays in the loop |
| `NonNegSound.SideEntryClaimed` | src/code_generator.cpp:2443-2522 | A loop entered past its opening branch for which the claim is made |
| `NonNegSound.SideEntryRuns` | src/code_generator.cpp:2443-2522 | and a run in which the claimed counter is -5 |
| `Peephole.ApplyPeephole` | src/code_generator.cpp:1456-1681 | The loop over the lines produces the output of the recursive scan that the proofs are about |
| `PeepholeProof.WindowDecides` | src/code_generator.cpp:1510-1678 | Each of the six families of windows decides as its replacement and changes only its truth register, and t1 where it loads a constant |
| `PeepholeProof.EqualityImmWindow` | src/code_generator.cpp:1576-1631 | The window that compares with a constant decides alike if and only if it does not read the constant register it drops, or that holds the constant already |
| `PeepholeProof.NotLessImmWindow` | src/code_generator.cpp:1637-1660 | The window that subtracts decides alike if and only if the difference fits in 32 bits |
| `PeepholeProof.NotLessImmCounterexample` | src/code_generator.cpp:1637-1660 | The smallest word and the immediate 1, for which it does not |
| `PeepholeProof.ReplacementFrame` | src/code_generator.cpp:1510-1678 | A replacement reads only what its window compared |
| `PeepholeRuns.PeepAfter` | src/code_generator.cpp:1471-1480 | Every label survives the pass, and what follows it is the output for what followed it |
| `PeepholeRuns.OutputFollowsInput` | src/code_generator.cpp:1456-1681 | Every terminating run of a text on which no subtraction put in overflows is matched by a run of the output that is no longer, leaves in the same way and agrees on memory and on what is live at exit, under any liveness of the text, with calls that agree as far |
| `PeepholeRuns.InputFollowsOutput` | src/code_generator.cpp:1456-1681 | and conversely |
| `TextPlan.BodyWithin` | src/code_generator.cpp:1119-1337 | The registers a body reads are those of the locals live in the intermediate representation, of caches, of parameters still to come and of staged arguments, instruction by instruction |
| `Windows.BodyKnown` | src/code_generator.cpp:1510-1678 | In the lines of a body every window of the pass is a comparison and the branch that tests it |
| `DeadTests.TextFits` | src/code_generator.cpp:1456-1681 | If no comparison is wanted behind the branch next to it that tests it, the liveness read off the intermediate representation is one of the whole text, and the pass drops nothing that is live |
| `DeadTests.DraftScratch` | src/code_generator.cpp:1020-1048 | Nor does it drop a truth value held in a saved register from the draft |
| `TextLive.TextPrepared` | src/code_generator.cpp:1456-1681 | A liveness of a text in which no window drops a live truth value is what the whole-run theorem asks |
| `TextLabels.LabelsDefinedOnce` | src/code_generator.cpp:988-1117 | Every label of a function's text is defined once |
| `TextExits.TextLeavesAlike` | src/code_generator.cpp:2607-2624 | A text is left by a jump only for functions that return a value if it does |
| `TruthLost.TruthLost` | src/code_generator.cpp:1510-1524 | A comparison of two parameters, tested by the next line and then returned, on an input that is otherwise what the program theorem asks for: before the pass the text returns the comparison as it should, after it the first parameter |
| `EmittedProgram.CallAgrees` | src/code_generator.cpp:1456-1681 | At every depth of calls the emitted program leaves a call on whose run no subtraction overflows as the program before the pass does, on memory and on what the caller may read |
| `EmittedProgram.FitsAlways` | src/code_generator.cpp:1637-1660 | Where no text has the window that subtracts, no run overflows, whatever is called with whatever state |
| `EmittedProgram.EmittedCarried` | src/code_generator.cpp:988-1117 | So every call with a result in the intermediate representation is carried out by the emitted texts, if no subtraction overflows on its run |
| `EmittedProgram.EmittedReturns` | src/code_generator.cpp:988-1117 | One function with whatever calls: the emitted text returns the result of the intermediate representation if no subtraction of the pass overflows in the run |
| `GeneratedProgram.GeneratedText` | src/code_generator.cpp:988-1117 | A generated text has a liveness that fits it, keeps its signature and drops nothing live; nothing is assumed of the text itself |
| `GeneratedProgram.GeneratedCarried` | src/code_generator.cpp:988-1117 | From the generator's input and its choices to the running of what it emits: in a program all of whose functions it generated, every call with a result in the intermediate representation is carried out by the emitted texts, at any depth and within the stack, if no subtraction overflows on its run |
| `GeneratedProgram.GeneratedMatch` | src/code_generator.cpp:988-1117 | and without that proviso where no text has the window that subtracts |
| `Generated.GeneratedUnit` | src/code_generator.cpp:988-1117 | A generated function meets everything the whole-program theorem asks of it, when its draft drops no truth value from a saved register |
| `SumFunction.SumReady` | src/code_generator.cpp:988-1117 | A loop that adds up the numbers to its parameter meets every condition of these theorems |
| `SumProgram.SumReturned` | src/code_generator.cpp:988-1117 | Its emitted text returns n + (n - 1) + ... + 1, wrapped, for every n that is not negative |
| `SumProgram.TotalReturned` | src/code_generator.cpp:988-1117 | A second function that calls it with 10, keeps the result in s2 and adds one returns 56 from its emitted text, with the caller's registers and stack given back |
| `SavedRegisters.PeepNames` | src/code_generator.cpp:1045-1048 | The pass keeps the name of every saved register the text changes, unless a window drops it |
| `SavedRegisters.PeepNamesOnly` | src/code_generator.cpp:1045-1048 | and puts in no register the text did not name |
| `SaveListShort.SaveListShort` | src/code_generator.cpp:1045-1048 | Eight globals assigned to themselves: the generator makes this function with an empty save list, and its text returns with a global in s2, whatever the caller had there |
| `SavedRegisters.ScanCovers` | src/code_generator.cpp:1020-1048 | The save list read off the draft covers the final body if and only if the draft names the saved registers of the cached constants and globals |
| `SavedRegisters.BodyCovered` | src/code_generator.cpp:1020-1050 | The final body, with other offsets and sizes, changes no saved register that the draft does not change |
| `CodeGenerator.Generator.ScanUsedSRegisters` | src/code_generator.cpp:2626-2653 | The list holds each of s2 to s11 once if and only if the text names it |
| `CodeGenerator.ListFromDraft` | src/code_generator.cpp:1045-1048 | The list in the generated unit is that of the draft, with what follows from it |
| `CodeGenerator.Generator.EmitMagicDiv` | src/code_generator.cpp:1811-1846 | Appends the division the proofs are about, searching for the multiplier, or reports that there is none and appends nothing |
| `CodeGenerator.Generator.EmitMagicMod` | src/code_generator.cpp:1848-1892 | Appends the remainder likewise |
| `CodeGenerator.Generator.LoadOperand` | src/code_generator.cpp:1734-1778 | Appends the load of an operand into a register |
| `CodeGenerator.Generator.StoreOperand` | src/code_generator.cpp:1780-1809 | Appends the store of a register to a variable |
| `CodeGenerator.Generator.EmitBinaryOp` | src/code_generator.cpp:1894-2175 | Appends the arithmetic instruction whose effect BinaryCorrect states |
| `CodeGenerator.Generator.EmitCompareInto` | src/code_generator.cpp:2203-2326 | Appends the comparison whose effect CompareCorrect states |
| `CodeGenerator.Generator.EmitTailCall` | src/code_generator.cpp:2607-2624 | Appends the jump back to the body, or the frame taken down and the jump away |
| `CodeGenerator.Generator.GenerateInstruction` | src/code_generator.cpp:1119-1337 | Appends what the body's code has at this instruction, alone, fused with the branch or as a chain, and says how many instructions it covered |
| `CodeGenerator.Generator.GenerateBody` | src/code_generator.cpp:1020-1042 | The loop over the instructions appends exactly the body's code |
| `CodeGenerator.Generator.EmitPrologue` | src/code_generator.cpp:1365-1389 | Appends the prologue PrologueRun is about |
| `CodeGenerator.Generator.GenerateFunction` | src/code_generator.cpp:988-1117 | Analyses, draft, rescan of the save list and second pass: appends the peephole output of the whole function, whose unit has the tables, tail calls, claims and save list that the other theorems start from |
| `Selection.LoadCorrect` | src/code_generator.cpp:1734-1778 | Loading an operand leaves its value in the register and changes only t2 besides, for every kind of operand and near and far slots |
| `Selection.StoreCorrect` | src/code_generator.cpp:1780-1809 | Storing writes the place of the variable and changes only t2 besides |
| `IrFlow.LabelIsAt` | src/code_generator.cpp:634-660 | A label name maps to its last definition |
| `SymbolTable.Scope.AddSymbol` | src/symbol_table.h:42-50 | A name is added if and only if its scope does not have it yet, and nothing else changes |
| `SymbolTable.Scope.Lookup` | src/symbol_table.h:52-58 | The symbol stored under the name, or none |
| `SymbolTable.Table.constructor` | src/symbol_table.h:74-77 | One open scope, empty |
| `SymbolTable.Table.EnterScope` | src/symbol_table.h:80-82 | A fresh scope on top of those open |
| `SymbolTable.Table.ExitScope` | src/symbol_table.h:85-89 | The innermost scope goes, except the outermost |
| `SymbolTable.Table.AddSymbol` | src/symbol_table.h:93-95 | Adds to the innermost scope only, unless the name is there |
| `SymbolTable.Table.Lookup` | src/symbol_table.h:98-106 | The symbol of the innermost scope that has the name |
| `SymbolTable.Table.LookupFunction` | src/symbol_table.h:114-123 | A function of the outermost scope, past anything that shadows it |
| `Scoping.RunMirrors` | src/symbol_table.h:72-142 | After any trace it accepts, the stack of maps holds exactly the declarations still visible, scope by scope |
| `Scoping.LookupIsInnermost` | src/symbol_table.h:98-106 | Lookup finds the innermost visible declaration, and nothing exactly when there is none |
| `Scoping.ScopedExactly` | src/semantic_analyzer.cpp:80-335 | The stack accepts a program's trace if and only if every event obeys the scope rules stated by position, with no stack |
| `ConstFold.FoldsExactly` | src/semantic_analyzer.cpp:363-455 | Folding succeeds if and only if the expression is constant, assigns nothing and has no divisor that folds to zero, even where evaluation would skip it |
| `ConstFold.FoldEvaluates` | src/semantic_analyzer.cpp:363-455 | Without overflow the folded value is that of short-circuit evaluation |
| `ConstFold.FoldingIsStricter` | src/semantic_analyzer.cpp:363-455 | A constant expression evaluation accepts and folding rejects |
| `Rules.RecordedFolds` | src/semantic_analyzer.cpp:363-455 | The values recorded at the variables fold to what the open scopes fold to |
| `SemanticAnalyzer.Analyzer.IsConst` | src/semantic_analyzer.cpp:341-361 | Says whether the expression is constant in the open scopes, reading only |
| `SemanticAnalyzer.Analyzer.TryConstFold` | src/semantic_analyzer.cpp:363-455 | Returns the folded value of the expression in the open scopes, or none |
| `SemanticAnalyzer.Analyzer.AnalyzeExpr` | src/semantic_analyzer.cpp:248-335 | Annotates each use, leaves the scopes as they were, and adds no error if and only if the expression is permitted where it stands |
| `SemanticAnalyzer.Analyzer.AnalyzeDecl` | src/semantic_analyzer.cpp:195-242 | Adds no error if and only if the declaration is permitted, its initialiser seeing the outer name and a constant recorded with its folded value; scopes other than the innermost stay as they were |
| `SemanticAnalyzer.Analyzer.AnalyzeStmt` | src/semantic_analyzer.cpp:114-189 | Leaves the enclosing scopes and the loop depth as they were, and adds no error exactly when the statement's events are permitted and its rules hold |
| `SemanticAnalyzer.Analyzer.AnalyzeFuncDef` | src/semantic_analyzer.cpp:80-108 | Leaves the scopes as they were, and adds no error if and only if the definition is permitted, its parameters and its body's own declarations sharing one scope |
| `SemanticAnalyzer.Analyzer.CollectGlobals` | src/semantic_analyzer.cpp:41-62 | Declares every function before anything is analysed, with no error if and only if no two of them share a name |
| `SemanticAnalyzer.Analyzer.Analyze` | src/semantic_analyzer.cpp:22-35 | Reports no error if and only if some annotation of the unit is well scoped and obeys the rules on values, constants, returns and loops, and then returns such a one; the result is the input with annotations |
| `SemanticAnalyzer.UnitDecided` | src/semantic_analyzer.cpp:22-335 | If any annotation of the unit is accepted by the positional rules, the one the analyser makes is |
| `FunctionScope.CallsFindDefinitions` | src/symbol_table.h:114-123 | In a unit without error every call names a function the unit defines, before or after, whatever local names surround it |

## Findings

Properties one would expect of the code that do not hold of it, the input that shows it, and the condition under which
they do hold.

| property | fails for | holds |
|---|---|---|
| A comparison at least a small immediate, fused with its branch, is decided rightly (`src/code_generator.cpp:1637-1660`) | `PeepholeProof.NotLessImmCounterexample` | if and only if the difference fits in 32 bits: `PeepholeProof.NotLessImmWindow`, `FusedPeephole.FusedAfterPeephole` |
| The peephole pass keeps every value that is still wanted (`src/code_generator.cpp:1510-1678`) | `TruthLost.TruthLost`: a comparison tested by the next line and then returned | for every input in which no comparison is wanted behind the branch next to it that tests it (`DeadTests.TestsDead`, a condition on the intermediate representation), as long as no such test is of a saved register: `DeadTests.TextFits`, `GeneratedProgram.GeneratedText`. One way only: whether the branch, and what wants the value behind it, are ever reached is not decided by a check of the input |
| For a dividend that is not negative one remainder replaces ((x % m) + m) % m, as the comment at `src/code_generator.cpp:1124-1127` says | `NormRem.SingleFusionFails` | if and only if the remainder plus the modulus fits: `NormRem.SingleFusion` |
| A temporary the scan below a chain does not find used is dead (`src/code_generator.cpp:1132-1149`) | `ScanMissed.ScanMissed`: the value is 5, the text returns 9 | if and only if no jump reached straight down before the scan stops leads to a use: `NormRem.ScanExactly` |
| A fused chain leaves no one without its quotient or product (`src/code_generator.cpp:68-83`) | `QuotientLost.QuotientLost`: the value is 2, the text returns what t5 held on entry | when no temporary of the chain but its destination is live below it: `ChainSim.ChainSafe` in `ChainSim.StepChain` |
| A cached global never takes the register a parameter arrives in (`src/code_generator.cpp:804-828`) | `GlobalClash.ClashAllowed`, `GlobalClash.ClashMisreads` | for all tables the analysis is promised to make if and only if the function calls something, names no global, or has no parameter arriving in a1 to a7 that can be moved to a t-register: `GlobalClash.ClashExactly`. Which of those tables the heuristic orders reach is not part of that promise |
| A local claimed non-negative is non-negative (`src/code_generator.cpp:2443-2522`) | `NonNegSound.SideEntryClaimed`, `NonNegSound.SideEntryRuns`: a loop entered past its opening branch | when such loops are entered by that branch only, chains keep their dividends apart from their temporaries, and no signed operation overflows: `NonNegSound.AnalysisSound` |
| A remainder by a constant keeps t3 (`src/code_generator.cpp:1848-1892`) | `DividendSaved.DividendSaved`: a local in t3 and a fused chain, the value is 5, the text returns 100 | if and only if the dividend is not loaded into t0, or t3 holds it already: `BinaryOp.SpillExactly`; where a MOD stands in the input the allocator keeps t3 free |
| Every emitted line can be assembled (`src/code_generator.cpp:1894-2326`) | subtraction of -2048, division or remainder by 1, at most 2047 | if and only if it is none of these: `BinaryOp.BinaryEncodable`, `Compare.CompareEncodable` |
| The save list read off the draft covers what the function uses (`src/code_generator.cpp:1045-1048`) | `SaveListShort.SaveListShort`: eight globals assigned to themselves, s2 comes back changed | if and only if the draft names the registers of the cached constants and globals: `SavedRegisters.ScanCovers` |
| A constant initialiser that can be evaluated is folded (`src/semantic_analyzer.cpp:363-455`) | `ConstFold.FoldingIsStricter`: 0 && 1 / 0 | if and only if no divisor anywhere folds to zero and nothing is assigned: `ConstFold.FoldsExactly` |

## Left out

- Allocation.AnalyzeStackFrame: the orders in which candidates are considered (loop weights, use counts, copy preference) are parameters; fewer than 2^26 locals are assumed.
- BodyRun.BodyFollows: says nothing of runs that read a local before it has a value, and of chains whose temporaries are used again (`ChainSafe`); fused chains and shorter code for signs are right where the sign claims are (`TrustOnRun`), which `NonNegSound.AnalysisSound` derives from the absence of overflow.
- WholeProgram.CallsCarried: calls to functions outside the program have no result; depth and stack are bounded by parameters, so a program that needs more of either is not covered.
- WholeProgram.MachineCall: a call that does not come back, or goes outside the program, leaves zero in a0 by convention; nothing is promised of it, since such a call has no result in the intermediate representation.
- Generated.GeneratedUnit: `ChoicesOk` is a condition on the draft text and the chosen tables: caches named in the draft, no global in the register of an arriving parameter (for which `GlobalClash.ParamsStay` of the input is enough), chains safe, frame size a word.
- GeneratedProgram.GeneratedCarried: besides, a comparison is not tested by the branch next to it in a saved register (`NoSavedTests`), where the proof would need the save list of the text before the pass; a call has a variable for its result if and only if the callee returns one, and a tail call is to a function that returns a value if this one does; subtractions put in by the pass fit on the run (`Fits`), which holds always for texts without that window.
- StepSim.TailsOk: self tail calls are covered for functions of at most eight parameters, and `FunctionTailCalls` for at most eight arguments.
- ConstFold.FoldEvaluates: signed overflow, undefined in the source language of the compiler, wraps in the model, and the equality is stated without it.
- SemanticAnalyzer.Analyzer.Analyze: returns the annotated tree as a new value instead of writing into the nodes; of the annotations it keeps the symbol of variables and calls; error texts, lines and columns are left out.
- Peephole.ApplyPeephole: works on structured lines, so the no-op `sub rd, rd, 0`, which no emitter produces, has no form in the model, and the splitting of text lines is not modelled.
- CodeGenerator.Generator.GenerateFunction: directives, alignment and symbol lines are not emitted, and the insertion of a missing slot in `ensureLocalOffset` is not modelled, since the analysis gives every local one.
- `src/ir_generator.cpp`, the optimiser, is not part of this model; nor are the lexer, the grammar, `src/main.cpp`, the data section and the default main function.
- Memory is addressed by words; byte accesses and misaligned addresses do not occur in the emitted code.
