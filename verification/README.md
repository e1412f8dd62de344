# MiniLang verification

MiniLang is a small typed language with a compiler to stack-machine bytecode and several ways to run it: an interpreter
of the syntax tree (the oracle), a reference virtual machine, a machine with a garbage-collected heap, a bytecode
optimizer and a native-code JIT behind a bytecode verifier. The repository compares these by testing, with a fuzzer that
prints, parses and rewrites programs. This project models them over one bytecode and one syntax tree, and proves that
they agree, for all programs.

`dafny verify dfyconfig.toml` checks everything.

## What is proved

- **Compiler correctness** (`Correctness`, on `CompilerCorrect`, `StmtSteps`, `ExprSteps`, `CallSteps`, `Linking`,
  `Simulation`). On every comparable program whose runs stay inside the resource limits, the compiled code shows the
  oracle's success, value, trap and output, except when a store is rejected for its index before a value that would have
  shown; that exception is exact. `TypeSafety` gives a condition on the text alone under which it cannot occur.
- **What the oracle and the machines compute** (`Operators`, `OracleLimits`, `MachineLimits`, `OracleLaws`, `MachineLaws`):
  the operators in whole numbers, limits reported only where they are met and never passed, what is stored is read again.
- **The analyzer** (`Typing`, `Analyzer`, `TypeSafety`) accepts exactly the programs in which every node obeys its static
  rule; on these the oracle never misuses a name.
- **Lexing and parsing** (`Lexemes`, `Lexing`, `Grammar`, `ProgramGrammar`, `Parsing`). The parser accepts exactly the
  documented grammar, tree for tree, with its precedences; comments are as good as their line ends.
- **Printing** (`Printing`, `PrintedTokens`, `RoundTrip`, `ParsedTrees`, `PrintedRuns`). A printed program is read back as
  itself, exactly when it has no negative literal, no negative size and no initializer beside a size; and whatever is read
  back has the outcome of the original.
- **Metamorphic rewrites** (`Rewrites`, `RewriteShapes`, `Similar`, `Reordering`, `SimilarRuns`, `RewritesCorrect`,
  `Metamorphic`). Each of the fuzzer's seven families of variants changes what it says it changes, and keeps the oracle's
  outcome, from source text to source text.
- **The verifier** (`Verifier`, `VerifierRules`, `Worklist`, `FrameDepth`, `ProgramVerifier`, `VerifierSound`,
  `VerifiedRuns`, `Storage`). The worklist accepts exactly the balanced functions, and marks a local exactly when every path
  stores it. A report announces exactly the traps and calls control can reach; the frame depth is the longest chain of
  calls. A verified run is never malformed, control stays inside the running function, frames tile the storage, and an
  instruction writes only what it owns.
- **Compiled code is verifiable** (`Discipline`, `CompiledShapes`, `CompiledOrder`, `CompiledRuns`), and respects its
  array slots on every run.
- **The collecting machine** (`GcMachine`, `GcHeap`, `Lockstep`, `GcCorrect`) keeps its heap sound on every run of every
  program, and returns the reference machine's whole result while the shared storage of the latter lasts. Their traces
  (`Traces`, `TracesCorrect`, `CompiledTraces`) then differ in no field once references are normalized.
- **The optimizer** (`DeadCode`, `DeadCodeCorrect`, `Windows`, `WindowRules`, `WindowsCorrect`, `Relocation`, `Optimizer`).
  Dead-code elimination is an exact lockstep and removes all it can; the size-changing passes act wherever their patterns
  are and keep what a program shows.
- **The JIT** (`X86`, `Cpu`, `Jit`, `JitCorrect`). What the gate lets through always succeeds; the emitted bytes, decoded
  and executed after the Intel Software Developer's Manual (volume 2, sections 2.1.3 and 2.2.1), return the machine's
  value.
- **The allocators** (`Tiling`, `FreeLists`, `MarkSweep`): free and allocated blocks tile the free-list region after every
  operation; a mark-sweep collection keeps exactly the rooted objects, in order, and the bytes add up.

Where the program updates objects in place, so does the model: the classes `Compiler.Compiler`, `AstOracle.AstOracle`,
`ReferenceVm.Vm`, `CollectingVm.GcVm`, `Analyzer.SemanticAnalyzer`, `Lexing.Lexer`, `Parser.Parser`, `Printer.Printer`,
`Traces.TraceNormalizer`, `Jit.MachineCode`, `Jit.JitCompiler`, `FreeLists.FreeListAllocator` and `MarkSweep.GarbageCollector`,
and the loops of the verifier, the optimizer and the fuzzer, are methods proved against the functions that the theorems
speak of.

## Findings

Places where the code does not do what one might expect of it. Each has a program, and a condition under which the
property does hold.

- A store to a negative index is rejected by the oracle before the stored value is evaluated (`src/oracle.rs:265`); compiled
  code evaluates the value first. `Disagreements.RejectedStoreShows` has such a program, `Correctness.CompiledCodeShowsTheOracle`
  says exactly when it shows, and `TypeSafety.TameStoresShowTheOracle` how to avoid it.
- Compiled global initializers are part of `main` (`src/compiler.rs:301-309`) and run again when `main` is called.
  `Disagreements.EnteringMainAgainShows`; comparable programs do not call `main` when a global has an initializer.
- A name declared with two shapes in sibling blocks is accepted (`src/sema.rs:244-290`), but the oracle keeps one scope per
  call. `Disagreements.TwoShapesShow`; the theorems require one shape per name and function.
- The verifier takes the parameters of `main` for initialized (`src/verifier.rs:340-360`), but nobody passes any: such a
  program can be valid, announce no trap, pass the JIT's gate and still trap. `Counterexamples.ParametersOfMainAreUndefined`;
  the safety theorems require a plain `main` (no parameters, registered under its own id), which compiled code has.
- The size-changing passes move code but not entries (`src/optimizer.rs:101-113`). `Optimizer.FoldingMissesTheEntry`; a single
  function must start at address 0.
- Dead-code elimination drops a function whose entry lies behind the code (`src/optimizer.rs:364-371`), which turns one trap
  code into another. `DeadCodeCorrect.DroppingAFunctionShows`, and `DeadCodeCorrect.PrunedRunsAgreeOrLoseAFunction` for all programs.
- Native negation is not narrowed to 32 bits (`src/jit.rs:720-724`). `JitCorrect.NegationShows`; the two agree exactly on all
  operands but the least i32 (`JitCorrect.NegationAgrees`).
- The encoder writes the SIB byte after the displacement (`src/jit.rs:181-184`). `X86.DecodeInvertsEncode` says for which base
  registers and displacements that is harmless; the JIT only uses RBP.
- `docs/reconstruction.md:267` allows a size and an initializer in one declaration; `docs/grammar.md:32` and the parser do
  not. `ProgramGrammar.ProgramsAreExact` follows the parser.
- The printer writes a negative literal as a minus sign and its magnitude (`src/fuzz.rs:1929`), which is read back as a
  negation, and drops the initializer of a declaration with a size; a negative size cannot be read back at all.
  `RoundTrip.PrintedIsParsed` says what comes back, `RoundTrip.PlainComesBack` when it is the program itself, and
  `PrintedRuns.PrintedRunsAgree` that the outcome stays in any case the grammar can produce.
- `Halt` without an operand leaves a zero on the reference machine's stack (`src/vm.rs:740-746`), and none on the collecting
  machine's (`src/gc_vm.rs:818-822`): results agree, traces do not. `TracesCorrect.HaltShows`; `TracesCorrect.TracesAgree` says that
  this is the only difference, and compiled code has no `Halt`.
- Exchanging two constant writes can change which of a limit and a trap comes first, if one of the names is an array's
  (`src/fuzz.rs:1570-1603`). `RewritesCorrect.StatementReorderingKeeps` has this one exception, which
  `RewritesCorrect.AcceptedReorderingKeeps` excludes for accepted programs with one shape per name.

## Model

| member | source | states |
|---|---|---|
| Correctness.CompiledCodeShowsTheOracle | src/compiler.rs:272-629 | On every comparable program (accepted, at most 10,000 instructions, one shape per name and function, no initialized array, no call of `main` beside initializers) neither of whose runs hits a limit, the machine's success, value, trap and output on the compiled code equal the oracle's if and only if the oracle did not reject a store before a value that prints or traps differently. |
| TypeSafety.TameStoresShowTheOracle | src/compiler.rs:427-450 | If moreover every array store has a nonnegative literal index, or a value built without calls, division, array reads and possibly undefined locals, the two outcomes are equal. |
| TypeSafety.AcceptedNamesAreNeverMisused | src/sema.rs:102-609 | A program the analyzer accepts, with one shape per name and function and no initialized array, never ends in InvalidInstruction or UndefinedFunction in the oracle, whatever limits it meets. |
| CompilerCorrect.EvalSim | src/compiler.rs:518-629 | The code of a well-typed expression, started in a machine state that matches the oracle's, ends with the oracle's value pushed and the states matching again, or fails as the oracle does, or the run is cut by a limit. |
| CompilerCorrect.BlockSim | src/compiler.rs:375-516 | The same for statement lists: net effect zero on the operands, control behind the block or returned. |
| CompilerCorrect.CallSim | src/compiler.rs:601-612 | The same for calls: the machine's frame, arguments and return against the oracle's. |
| Linking.AcceptedIsLinked | src/compiler.rs:229-370 | For accepted programs the tables, entries and code the compiler lays out are those the analyzer's declarations promise. |
| Compiler.Compiler.Compile | src/compiler.rs:168-191 | The compiler object, emitting and patching in place, builds exactly the program of the code functions. |
| Compiler.Compiler.CompileFunction | src/compiler.rs:272-334 | Appends the function's code behind what is there and registers its entry, parameters and local count. |
| AstOracle.AstOracle.Run | src/oracle.rs:153-172 | The interpreter object, updating frames, globals, output and ticks in place, returns the oracle's outcome; it reports a full call stack only with all 100 frames in use, and the cycle limit exactly when it is passed. |
| OracleLimits.RunsAreCutByTheirLimit | src/oracle.rs:174-182 | A run that ends with StackOverflow left 100 frames in place, one ends with CycleLimit exactly when it took its 100,001st cycle, and a successful run leaves no frame. |
| OracleLimits.EvalCut | src/oracle.rs:314-366 | From every state inside the limits, evaluating any expression fails with a limit only where that limit is met, and otherwise stays inside; calls in progress keep their frames. |
| OracleLimits.BlockCut | src/oracle.rs:220-312 | The same for statement lists. |
| OracleLimits.FullStackRefusesCalls | src/oracle.rs:175-181 | With 100 frames in use every call fails with StackOverflow, before it looks for its function. |
| OracleLimits.NodesAreCycles | src/oracle.rs:546-557 | Evaluating an expression without calls and logical operators takes one cycle for each of its nodes, and is cut only when they do not suffice. |
| OracleLaws.ScalarWritten | src/oracle.rs:431-467 | A scalar is assigned exactly when the name refers to one; it then holds the narrowed value, no other name changes what it refers to, and suspended calls stay as they were. |
| OracleLaws.ElementWritten | src/oracle.rs:469-508 | An element is assigned exactly when the index is inside the array, and then no other element and no other name changes. |
| OracleLaws.LoopsEndOnZero | src/oracle.rs:290-301 | A loop that ends without returning has just evaluated its condition to zero. |
| OracleLaws.ArgumentsAreBound | src/oracle.rs:200-211 | A call's scope holds exactly the parameters, each with its own argument narrowed to 32 bits. |
| OracleLaws.GlobalsStartAtZero | src/oracle.rs:134-141 | Before the initializers, every global array holds as many zeros as its size says, and every scalar is zero. |
| Operators.OracleOperators | src/oracle.rs:368-388 | On any two i32s the operators yield the one i32 congruent to the exact sum, difference or product modulo 2^32, the quotient that truncates toward zero, and 1 or 0 for comparisons; division fails exactly for the divisor zero. |
| Operators.TruncDivTruncates | src/vm.rs:456-463 | For every nonzero divisor the remainder left by the quotient is smaller than the divisor and has the sign of the dividend. |
| Operators.TruncatedOnce | src/vm.rs:456-463 | No other quotient does. |
| ReferenceVm.Vm.ExecuteInstruction | src/vm.rs:389-748 | Each instruction changes the fields as the state machine says, or traps with its code and depth. |
| Operators.MachineOperators | src/vm.rs:435-527 | What the machine's operators leave for two i32s is the same: congruent sums, differences and products, the truncating quotient, 1 or 0 for comparisons and logic; the least i32 divided by -1 is itself. |
| Operators.MachineNegates | src/vm.rs:466-533 | Negation and logical not replace the operand by the i32 congruent to its negative, and by 1 exactly for zero. |
| MachineLimits.TurnsAreCutByTheirLimit | src/vm.rs:197-288 | From every state inside the limits, a turn reports StackOverflow only when the next instruction lacks room for an operand, a frame or the callee's locals, CycleLimit exactly with all cycles spent, and whenever such room is lacking it does not go on. |
| MachineLimits.RunsAreCutByTheirLimit | src/vm.rs:164-288 | A whole run reports StackOverflow only where it stopped full, or because a function alone has more than 1024 locals. |
| MachineLimits.GcTurnsAreCutByTheirLimit | src/gc_vm.rs:391-506 | The same for the collecting machine, which has no limit on locals. |
| MachineLaws.StoredLocalsAreLoaded | src/vm.rs:401-419 | A stored local is loaded again, and no other local of the frame is touched. |
| MachineLaws.StoredElementsAreLoaded | src/vm.rs:663-682 | A stored element of a global array is loaded again, and no other element is touched. |
| MachineLaws.CallsPassTheirArguments | src/vm.rs:559-646 | A call finds its arguments as its first locals, in order, and the others undefined. |
| MachineLaws.ReturnsUndoCalls | src/vm.rs:648-662 | A return gives back the caller's frames and goes on behind the call. |
| ReferenceVm.Vm.Run | src/vm.rs:164-288 | A fresh VM whose program passes the checks returns the state machine's result, and reports a full stack only where the next instruction did not fit; otherwise it does not start. |
| Pipeline.CompileAndRun | src/main.rs:440-660 | Compiling an accepted program and running the code on a fresh VM shows the oracle's outcome, under the premises of compiler correctness. |
| Disagreements.RejectedStoreShows | src/oracle.rs:254-290 | A comparable program on which the oracle ends with ArrayOutOfBounds and compiled code with DivideByZero. |
| Disagreements.EnteringMainAgainShows | src/compiler.rs:301-309 | An accepted program with an initialized global that calls `main`, on which oracle and compiled code return different values. |
| Disagreements.TwoShapesShow | src/oracle.rs:233-262 | An accepted program with one name in two shapes, on which the oracle ends with InvalidInstruction. |
| Analyzer.SemanticAnalyzer.Analyze | src/sema.rs:102-200 | A fresh analyzer, with its chain of scopes, local names, slots and error count, reports no error if and only if every declaration and every node of the program obeys its rule. |
| Analyzer.SemanticAnalyzer.AnalyzeStmt | src/sema.rs:244-390 | Counts an error exactly when the statement is not accepted; otherwise the visible symbols, names and slots are those of the accepting function, and outer scopes are untouched. |
| Analyzer.SemanticAnalyzer.AnalyzeExpr | src/sema.rs:458-600 | Counts an error exactly when some node of the expression breaks its rule, and returns the kind its head gives it otherwise. |
| Typing.TypedExactly | src/sema.rs:458-609 | An expression is typed exactly when each node in it obeys a rule about its immediate operands: resolved names of the right shape, int operands for arithmetic, ordering, negation and indices, equal kinds for equality, arguments of the declared kinds. The type is the kind its head gives it. |
| Typing.StmtChecked | src/sema.rs:244-390 | A statement is accepted exactly when every statement that occurs in it, in the names visible there, obeys its rule and the function's distinct locals stay within 1024. |
| Typing.AcceptedExactly | src/sema.rs:102-242 | A program is accepted exactly when top-level names are distinct, sizes positive, globals fit 256 slots, `main` has no parameters, initializers have the declared kind, and every function's parameters, statements and expressions obey their rules. |
| Lexing.Lexer.Tokenize | src/lexer.rs:26-204 | The lexer, advancing its position, returns the tokens of the text up to the end marker. |
| Lexemes.CommentsVanish | src/lexer.rs:62-80 | Every text has the tokens of the text without its comments, which reach from two slashes to the end of the line. |
| Lexemes.BlanksSeparate | src/lexer.rs:62-80 | A blank behind a text without comments separates: the tokens of both sides follow one another. |
| Lexemes.SymbolsAreRead | src/lexer.rs:134-204 | Every operator and bracket is read from its own spelling. |
| Lexemes.WordsAreRead | src/lexer.rs:98-124 | A word of letters, digits and underscores is read as the keyword it spells, and as a name if it spells none. |
| Lexemes.NumbersAreRead | src/lexer.rs:82-96 | Any string of digits is read as the i32 congruent to its decimal value modulo 2^32. |
| Parser.Parser.ParseLevel | src/parser.rs:395-536 | A level of binary operators, looped to the left, finds the expression that is there, or none exactly when there is none, and stands behind it. |
| Parser.Parser.IsAssignmentStart | src/parser.rs:226-255 | The lookahead over brackets finds an assignment exactly when an assignment sign follows the name or the bracket that closes its index. |
| Parser.Parser.Parse | src/parser.rs:79-205 | The parser, advancing its position, returns a program if and only if the tokens are those of a tree of the grammar with that meaning, in front of an end mark. |
| Grammar.ExpressionsAreExact | src/parser.rs:395-620 | The parser finds an expression in front of some tokens if and only if a tree of the grammar spells what is before them, in which operands bind at least as strongly as their operator and right operands more strongly, and nothing that follows continues it. |
| Grammar.StrongerTakesTheOperand | src/parser.rs:395-535 | Of two operators in a row, the stronger takes the operand between them, and of equally strong ones the first. |
| ProgramGrammar.ProgramsAreExact | src/parser.rs:79-393 | A program is parsed from some tokens if and only if they are the tokens of a tree of declarations, functions and statements that stands for it. |
| ProgramGrammar.WrittenAlikeMeansAlike | src/parser.rs:79-620 | The grammar is unambiguous: trees that are written alike stand for the same program. |
| Printer.Printer.EmitProgram | src/fuzz.rs:1778-1925 | The printer, appending to its buffer, appends the program's text. |
| PrintedTokens.ProgramReads | src/fuzz.rs:1778-1953 | The lexer reads the text of a program with legal names as exactly the tokens it stands for. |
| PrintedTokens.DecimalValue | src/lexer.rs:82-96 | Reading the decimal digits of a number up to 2147483648 in wrapping arithmetic gives that number as an i32. |
| RoundTrip.PrintedIsParsed | src/fuzz.rs:1778-1953 | For every program with legal names, printing, lexing and parsing succeeds if and only if no size is negative, and then gives the program with negative literals as negations and without initializers beside sizes. |
| RoundTrip.PlainComesBack | src/parser.rs:79-625 | It gives the program itself if and only if no size and no literal is negative and no declaration has both a size and an initializer. |
| ParsedTrees.ParsedIsLegal | src/parser.rs:79-625 | Whatever text is parsed, all names of the tree are legal and no declaration has both a size and an initializer. |
| PrintedRuns.PrintedRunsAgree | src/fuzz.rs:1227-1236 | Every program with legal names, nonnegative sizes and no global with both size and initializer is read back from its text with the oracle's outcome of the original, unless the run of what is read back hits a limit. |
| Reordering.WritesCommute | src/fuzz.rs:1570-1618 | Two writes of constants to different scalars give the same state in either order, or hit a limit in both, or each hits a limit or the trap of a write to an array. |
| SimilarRuns.RunSame | src/oracle.rs:153-172 | The oracle's runs on two programs related by rewrites have the same outcome, unless the rewritten one hits a limit, or exchanged writes meet a trap before the original's limit. |
| RewritesCorrect.ReturnNeutralKeeps | src/fuzz.rs:1238-1261 | Adding zero to every returned value of any program keeps the outcome, unless the variant hits a limit. |
| RewritesCorrect.DeadBranchKeeps | src/fuzz.rs:1263-1277 | So does a never taken branch in front of `main`, for any program. |
| RewritesCorrect.UnusedLocalKeeps | src/fuzz.rs:1279-1304 | So does declaring and writing back a new local in `main`, for accepted programs and any name that no global, function, parameter or local of `main` has. |
| RewritesCorrect.AlgebraicNeutralKeeps | src/fuzz.rs:1306-1425 | So do neutral operations on initializers, indices, assigned, printed, returned and discarded values and double negation of conditions, for any program. |
| RewritesCorrect.BranchInversionKeeps | src/fuzz.rs:1427-1461 | So does negating the first conditional and exchanging its branches, for any program. |
| RewritesCorrect.HelperWrappingKeeps | src/fuzz.rs:1463-1525 | So does passing every returned value through a new function that returns its argument, for accepted programs and any new name. |
| RewritesCorrect.StatementReorderingKeeps | src/fuzz.rs:1527-1618 | Exchanging the first two neighbouring constant writes keeps the outcome of any program, unless the variant hits a limit, or the original hits one and the variant ends in InvalidInstruction. |
| RewritesCorrect.AcceptedReorderingKeeps | src/fuzz.rs:1527-1618 | For an accepted program with one shape per name whose variant is accepted, the second exception never occurs. |
| RewriteShapes.ReturnNeutralReaches | src/fuzz.rs:1238-1261 | The first family puts a sum with zero around every returned value of every function, and changes no other expression and no statement. |
| RewriteShapes.HelperWrappingReaches | src/fuzz.rs:1463-1525 | The helper family puts a call of the new function around every returned value, and changes nothing else. |
| RewriteShapes.AlgebraicNeutralReaches | src/fuzz.rs:1306-1425 | The algebraic family reaches every int initializer, index, condition and returned value, and moves nothing. |
| RewriteShapes.InversionFindsTheFirst | src/fuzz.rs:1427-1461 | The inversion fails exactly when there is no conditional, and otherwise replaces the first in the text by one with negated condition and exchanged branches. |
| RewriteShapes.ReorderingFinds | src/fuzz.rs:1527-1618 | The reordering fails exactly when no two neighbours anywhere set different names to constants, and otherwise exchanges such a pair. |
| Metamorphic.VariantsAgree | src/fuzz.rs:1140-1236 | Whatever accepted source text one starts from, every variant text of the seven families that is parsed and accepted has, read back, the oracle's outcome of the original, with the exceptions of the family. |
| Fuzzer.MetamorphicVariants | src/fuzz.rs:1140-1236 | The collected variants are exactly the texts of the seven families' candidates that are parsed and accepted again; where a family needs new names, it takes the first free numbered ones. |
| Fuzzer.UniqueName | src/fuzz.rs:1734-1756 | The counter stops at the first numbered name that is not taken. |
| Worklist.VerifyFunction | src/verifier.rs:340-457 | The worklist terminates and reports no error if and only if the function's code has a consistent operand depth at every address control can reach; the states it then returns are stable, and each is witnessed by a path. |
| Worklist.FixedPointIsExact | src/verifier.rs:340-457 | In a stable, witnessed result an address has a state exactly when control can reach it, and a local is marked exactly when it is a parameter or every path to the address stores it. |
| Worklist.CheckIsExact | src/verifier.rs:340-457 | The traps and calls found in a function are exactly those of the instructions control can reach: divisions, array accesses, backward jumps, and loads of locals that some path to them does not store. |
| Worklist.PeakIsExact | src/verifier.rs:370-395 | The depth reported is the greatest with which control can reach an instruction. |
| VerifierRules.StepsFollowTheTable | src/verifier.rs:474-654 | An instruction is accepted exactly when its numbers name what the program has and its operands are there, and moves the depth by one table. |
| VerifierRules.MachineFollowsTheTable | src/vm.rs:389-748 | The machine traps for want of operands, and otherwise moves them by the same table. |
| Worklist.PathsCovered | src/verifier.rs:474-654 | Along every path from the entry of a stable result, each address has a state and a marked local has been stored or is a parameter. |
| FrameDepth.MaxFrameDepth | src/verifier.rs:809-847 | A number is returned exactly when no recursion is reachable from main, and then it is the length of the longest chain of calls. |
| FrameDepth.RecursiveHasNoLongest | src/verifier.rs:809-847 | A reachable cycle of calls leaves no chain longest. |
| ProgramVerifier.VerifyGlobals | src/verifier.rs:207-260 | No error is counted exactly when all globals have positive width, fit the 256 slots and do not overlap. |
| ProgramVerifier.FunctionRanges | src/verifier.rs:262-338 | No error is counted exactly when the metadata is consistent, and then every function gets the code from its entry to the next one. |
| ProgramVerifier.Verify | src/verifier.rs:130-205 | A report is valid exactly when the program is: sound globals, consistent metadata, and a consistent operand depth in every function. A valid report announces exactly the traps of instructions control can reach, and StackOverflow exactly when recursion is reachable or the longest chain of calls exceeds 100; its calls are exactly the reachable ones, its operand depth the greatest reached, its frame depth the longest chain. |
| VerifierSound.StepSound | src/verifier.rs:474-654 | A turn of the machine on verified code that does not misuse an array slot keeps the invariant, or stops with a result, at a limit, or with a trap of the proof. |
| VerifiedRuns.VerifiedRunsAreSafe | src/verifier.rs:130-472 | A run of a valid program with a plain main that respects its array slots succeeds, runs out of cycles, or ends with an announced trap, and never with StackUnderflow, InvalidInstruction or UndefinedFunction; the one trap that may come unannounced is StackOverflow, and then the operand stack was full or a chain of calls needs more than 1024 local slots. It is never deeper than the reported frame depth. |
| VerifiedRuns.ControlStaysInside | src/verifier.rs:1034-1036 | On every reachable state of such a run the invariant holds, the pc lies in the running function's own range, and the operands its next instruction takes are there. |
| VerifiedRuns.DepthBounded | src/verifier.rs:809-847 | No call stack of a verified run is longer than the longest chain of calls. |
| Storage.WindowsAreDisjoint | src/vm.rs:604-645 | No local slot belongs to two frames, and frames end below the 1024 slots behind which arrays lie. |
| Storage.TurnsWriteTheirOwn | src/vm.rs:683-715 | A turn of a verified program writes only the running frame's slot, the window of the frame it enters, or cells of the array it stores into; storage only grows. |
| Storage.CallersKeepTheirLocals | src/vm.rs:783-828 | Whatever the running function does in a turn, the locals of its suspended callers stay as they were. |
| Counterexamples.ParametersOfMainAreUndefined | src/verifier.rs:340-360 | A program whose main has a parameter: valid, with an empty trap set, let through to the JIT, and ending in UndefinedLocal. |
| Discipline.PlannedIsBalanced | src/verifier.rs:474-654 | Code with a plan of operand depths and ready array slots is balanced in the verifier's sense. |
| CompiledShapes.ExprFits | src/compiler.rs:518-629 | The code of a well-typed expression fits between depth d and d + 1, all its jumps stay inside it, and it needs no more operands than the expression is high. |
| CompiledShapes.BlockFits | src/compiler.rs:375-516 | The code of a statement list leaves the operand depth as it was, and readies the arrays it declares. |
| CompiledOrder.CompiledIsOrderly | src/compiler.rs:272-334 | Every function of a comparable program has such a plan, bounded by its height. |
| CompiledOrder.CompiledIsValid | src/compiler.rs:168-191 | A comparable program whose functions need at most 1000 operands compiles to a valid program. |
| CompiledOrder.LocalsFit | src/sema.rs:436-456 | The analyzer's count of local slots bounds the slots the compiler hands out by 1024. |
| CompiledRuns.CompiledRunsAreDisciplined | src/compiler.rs:384-450 | No run of a compiled comparable program uses a slot as an array that does not hold one of that size. |
| CompiledRuns.CompiledRunsAreSafe | src/verifier.rs:130-472 | Compiled programs of moderate height are valid, and their runs keep what the verifier's report says. |
| CompiledRuns.CompiledCodeNeedsNoCollector | src/gc_vm.rs:391-506 | On compiled programs both machines return the same result, whatever the order of the global arrays, unless the reference machine ends in StackOverflow. |
| CompiledRuns.CollectedCodeShowsTheOracle | src/gc_vm.rs:391-506 | The collecting machine, too, shows the oracle's outcome, under the premises of compiler correctness. |
| CompiledRuns.OptimizedCodeShowsTheOracle | src/optimizer.rs:63-95 | So does optimized compiled code; a program of one jump-free function needs in addition that it was verified and keeps no local arrays. |
| GcHeap.CollectKeepsTheReferenced | src/gc_vm.rs:268-332 | A collection keeps exactly the arrays some root refers to, with their contents, frees exactly the others, and keeps the heap invariant. |
| GcHeap.AllocIsFresh | src/gc_vm.rs:231-253 | An allocation, collecting or not, returns an id no root refers to, with a zeroed array, and changes no referenced array. |
| GcHeap.AllocCollectsFromEight | src/gc_vm.rs:231-253 | With eight or more arrays alive, exactly the referenced ones and the new one are alive after an allocation. |
| GcHeap.AllocKeepsBelowEight | src/gc_vm.rs:231-253 | With fewer, an allocation keeps all of them, referenced or not. |
| GcHeap.StepKeepsHeap | src/gc_vm.rs:534-977 | Every instruction of every program, verified or not, keeps the heap invariant: the free list holds exactly the empty ids, each once, the next id is the heap's length, and every reference of a root leads to an array. |
| GcHeap.HeapIsSoundOnEveryRun | src/gc_vm.rs:391-506 | The heap invariant holds on every reachable state of every program. |
| CollectingVm.GcVm.CollectGarbage | src/gc_vm.rs:268-332 | Marking and sweeping the heap in place does what the collecting machine says, and counts what it frees. |
| CollectingVm.GcVm.AllocArray | src/gc_vm.rs:231-253 | Allocation in place returns the machine's id and heap. |
| CollectingVm.GcVm.ExecuteInstruction | src/gc_vm.rs:534-977 | Each instruction changes the fields as the collecting machine says, or traps with its code and depth. |
| CollectingVm.GcVm.Run | src/gc_vm.rs:391-506 | A fresh collecting VM whose program passes the checks returns the collecting machine's result for some order of the global arrays. |
| Lockstep.TurnPaired | src/gc_vm.rs:534-977 | Related states of the two machines take related turns: same pc, cycle, depth, output and outcome, stacks and locals equal up to a map from live ids to disjoint array places with equal contents. |
| Lockstep.RunsPaired | src/vm.rs:164-288 | From related states both machines return the same result, as long as no step overflows the shared storage. |
| GcCorrect.CollectedRunsAgree | src/gc_vm.rs:391-506 | On every program with a plan, both machines return the same whole result while the reference machine's local storage lasts. |
| GcCorrect.OrderlyIsDisciplined | src/vm.rs:913-951 | Programs with a plan never misuse an array slot. |
| TracesCorrect.TracesAgree | src/trace.rs:117-150 | On every program with a plan, while the shared storage lasts and in whatever order global arrays are allocated, the semantic comparison of the two machines' traces finds no difference if and only if the run does not meet a `Halt` without operand. |
| TracesCorrect.HaltShows | src/gc_vm.rs:818-822 | A program of a single `Halt`, whose traces differ in the operands left. |
| CompiledTraces.CompiledTracesAgree | src/trace.rs:117-150 | On compiled comparable programs the comparison finds no difference, unless the reference machine ends in StackOverflow. |
| Traces.FirstSemanticTraceDivergence | src/trace.rs:117-150 | The loop with its two normalizers returns the first index and field in which the normalized traces differ. |
| Traces.DivergenceIsExact | src/trace.rs:85-110 | The raw comparison finds nothing exactly when the traces are equal, and otherwise an index up to which they are. |
| Traces.PlainTracesAreComparedRaw | src/trace.rs:117-150 | On traces that make no arrays the semantic comparison finds just what the raw one finds. |
| TracesCorrect.VmTraceTells | src/vm.rs:257-308 | A trace has one event for each cycle of the run, each taking up where the one before it left, and the last says how the run ended. |
| DeadCode.FindReachable | src/optimizer.rs:282-320 | The worklist finds exactly the addresses some walk from a function's entry reaches. |
| DeadCode.DeadCodeElimination | src/optimizer.rs:273-373 | The pass returns the pruned program: live instructions in order, jumps and entries moved to the rank of their target among the live ones, functions without live entry dropped, nothing changed when everything is live. |
| DeadCodeCorrect.PrunedRunsAgree | src/optimizer.rs:273-373 | If every function starts inside the code, the pruned program's run has the same success, value, trap, output, depths and number of cycles. |
| DeadCodeCorrect.PrunedRunsAgreeOrLoseAFunction | src/optimizer.rs:364-371 | For any program the machine starts, the runs agree like that, or both fail at the same cycle with the same output and the pruned one with UndefinedFunction. |
| DeadCodeCorrect.NothingDeadIsLeft | src/optimizer.rs:273-373 | Every instruction of the pruned program can be reached, so a second run of the pass changes nothing. |
| DeadCodeCorrect.DroppingAFunctionShows | src/optimizer.rs:364-371 | A program with an entry behind its code, whose trap code the pass changes. |
| Windows.ConstantFolding | src/optimizer.rs:115-181 | The loop rewrites the code window by window as the folding windows say. |
| Windows.StrengthReduction | src/optimizer.rs:184-238 | The same for strength reduction. |
| Windows.PeepholeOptimization | src/optimizer.rs:241-270 | The same for the peephole pass. |
| WindowRules.PassesAct | src/optimizer.rs:115-270 | A pass changes the code if and only if one of its patterns occurs anywhere in it. |
| WindowRules.PassesScan | src/optimizer.rs:115-270 | From left to right each pattern is replaced where it is found, a folded one by the constant the machine would compute, and everything else is copied. |
| WindowsCorrect.RewrittenRunsFrom | src/optimizer.rs:115-270 | On jump-free code, a run that meets no limit or underflow and whose arithmetic sees i32 values shows the same after any of the three passes, in no more cycles, and its arithmetic still sees i32 values. |
| Optimizer.Optimize | src/optimizer.rs:63-95 | The optimizer runs the three passes when the program is one jump-free function, then the pruning, on everything. |
| Optimizer.OptimizedRunsAgree | src/optimizer.rs:63-95 | Optimized programs show the same success, value, trap, output and depths in no more cycles, if entries lie in the code and, for one jump-free function, it starts at 0, its arithmetic sees i32 values and its run meets no limit or underflow. |
| Optimizer.VerifiedOptimizedRunsAgree | src/optimizer.rs:63-95 | The same for verified programs without local arrays, with no premise on the run but that it does not overflow or run out of cycles. |
| Optimizer.FoldingMissesTheEntry | src/optimizer.rs:101-181 | A program that does not start at address 0: folding turns its result into a trap. |
| Jit.JitStatus | src/verifier.rs:879-913 | The gate holds exactly when no trap is possible, there is one function, main exists, and its code is supported up to its first return. |
| Jit.JitCompiler.Compile | src/jit.rs:558-623 | No code exactly when the program is unsupported; otherwise the bytes of the prologue and the lowered instructions up to the first return. |
| Jit.JitCompiler.CompileInstruction | src/jit.rs:667-826 | Appends the bytes of the instruction's lowering. |
| X86.DecodeInvertsEncode | src/jit.rs:100-355 | The bytes emitted for an instruction decode to that instruction and its length exactly when it is encodable; only odd memory operands and byte registers 4 to 7 are not. |
| Cpu.EncodedRuns | src/jit.rs:558-598 | Fetching, decoding and executing the bytes of some instructions does what the instructions do one after the other. |
| JitCorrect.JitReturnsTheVmValue | src/jit.rs:558-826 | A verified program without possible traps that the gate passes succeeds on the machine without output; and if negation never meets the least i32, the emitted bytes, entered with a mapped stack, return the machine's value in RAX with the caller's frame pointer, stack and return address intact. |
| JitCorrect.EligibleProgramsRunNatively | src/verifier.rs:879-913 | The same from the verifier's report. |
| JitCorrect.NegationAgrees | src/jit.rs:720-724 | Native and machine negation of an i32 agree exactly when it is not the least one. |
| JitCorrect.NegationShows | src/jit.rs:720-724 | A program whose native result differs from the machine's. |
| Tiling.TakeKeeps | src/alloc.rs:205-255 | Taking a block from the free list, whole or split, leaves the region tiled by aligned blocks of at least the minimum size, free ones in address order and not touching. |
| Tiling.GiveBackKeeps | src/alloc.rs:263-303 | So does giving a block back, joined with the neighbours it touches. |
| Tiling.AllFree | src/alloc.rs:263-303 | When nothing is allocated the free list is the single initial block. |
| FreeLists.FreeListAllocator.Alloc | src/alloc.rs:205-255 | The in-place search fails exactly when no free block is large enough, and otherwise hands out the first that fits: aligned, in no other block; tiling, counters and byte balance hold again. |
| FreeLists.FreeListAllocator.Free | src/alloc.rs:263-303 | The in-place list insertion takes back exactly the given block, joins what touches, and keeps tiling, counters and byte balance; freeing the last block restores the initial list. |
| MarkSweep.GarbageCollector.Collect | src/gc.rs:204-313 | After a collection the list holds exactly the rooted objects that were on it, in the same order, all unmarked and otherwise unchanged; bytes in use are the sum of their aligned sizes, and allocated minus freed. |
| MarkSweep.GarbageCollector.Alloc | src/gc.rs:127-163 | Collects first exactly when the threshold would be passed, then puts the new object in front of what is left; list, marks and byte balance hold again. |
| MarkSweep.GarbageCollector.Mark | src/gc.rs:218-265 | Afterwards exactly the objects on the list that a root points to are marked. |
| MarkSweep.Cut | src/gc.rs:279-313 | Leading the last kept object on past a freed one leaves a list of the kept and the remaining objects, with the freed one's bytes gone. |
| MarkSweep.RootedTwice | src/gc.rs:204-313 | A second collection with the same roots frees nothing. |

## Left out

- Positions of tokens and error messages of lexer, parser and analyzer; the types of arrays, void and recovery after an
  error. Texts are sequences of characters, one for a byte.
- The generator, the shrinking and the reports of the fuzzer; sorting the variants of a text and dropping equal ones.
- The slab and bump allocators of `src/alloc.rs`: no run depends on them.
- Trace fingerprints, summaries and JSON, and the messages of traps, which a trace comparison also compares.
- JIT lowerings behind the gate (calls, jumps, globals, arrays, division, output), labels and jump patching, executable memory.
- Debug output, statistics, timing, string interning; outputs are the printed numbers.
- `with_max_cycles`: the cycle limit is the constant of `src/limits.rs`.
- The order in which hash maps are traversed: global arrays are allocated in any order, and which of several faults
  `validate_program` reports first is left open.
- Host allocation failure and address overflow; the allocator's region holds at least one block, and the host gives the
  mark-sweep collector an address at which no object is.
- RewritesCorrect.UnusedLocalKeeps: requires an accepted program, because another may use the new name without declaring it.
- RewritesCorrect.HelperWrappingKeeps: requires an accepted program, because another may call the new function.
- ReferenceVm.Vm.Run: for a program that fails the checks, states that it does not start and with which codes it may fail,
  because the order of the checks over functions is a hash map's.
- CollectingVm.GcVm.Run: requires a program that passes the checks, which are those of the reference VM.
- VerifierSound.StepSound: requires that array slots hold arrays, because the verifier does not track which do.
- Optimizer.OptimizedRunsAgree: excludes runs of jump-free single functions that end in StackOverflow, StackUnderflow or
  CycleLimit, because shorter code may avoid these traps.
