# Verified models of the RetrOS-32 kernel algorithms

This project models nine pieces of the kernel in Dafny and proves what each of them is for:
the C compiler and its virtual machine, the LZ and run-length codecs, FAT16 file data, the
data phase of TCP, the scheduler with its mutexes and queues, the kernel block allocator,
line drawing, and the Internet checksum. `dafny verify dfyconfig.toml` checks everything.

## How the project is built

Routines that work by changing things in place are classes, arrays and loops, each proved
against a specification function; the properties are proved about those functions and about
runs of them.

| piece | state and routines | specification | theorems |
|---|---|---|---|
| compiler | `OnePass` (class `Compiler`) | `Grammar`, `Declarations`, `Codegen` (code of a tree as a position-independent block) | `Printer`, `Precedence`, `FunctionPrinter`, `LvalueTest`, `FrameLayout`, `CodeShape`, `Jumps` |
| virtual machine | `Interpreter` (class `Vm`) | `Machine` (one step, runs), `Semantics` (evaluator on trees) | `Operators`, `Constants`, `Simulation`, `Preservation`, `Calls`, `Correctness`, `ControlFlow`, `Fuel`, `WholeProgram`, `EndToEnd` |
| LZ codec | `Lz` | `Lz`, `Bits` | `Lz` |
| FAT16 | `Fat16` (class `Volume`) | `FatSpec` | `FatSteps`, `FatTheorems` |
| TCP | `Tcp` (class `Connection`) | `TcpSpec` (two sockets and a network) | `TcpTheorems`, `TcpEmpty` |
| scheduler | `Scheduler` (class `Kernel`), `PcbQueue` (class `Queue`), `PcbSystem` (all queues together) | `SchedSpec` | `SchedTheorems`, `SchedSleep` |
| allocator | `Kmem` (class `Allocator`) | `HeapSpec` | `HeapSpec` |
| line, run length, checksum | `Line`, `RunLength`, `Checksum` | the same | the same |

### The compiler and its machine

`developer/lex.c` compiles while it parses: it appends words to the text area, overwrites the
last one for lvalues and patches jump targets afterwards. `OnePass` keeps exactly that shape
and is proved to consume what the grammar says and to leave exactly the placed code of the
tree. The evaluator in `Semantics` knows neither code nor temporaries nor return addresses;
it follows the code where the code differs from C: `||` and `&&` give the last operand
evaluated, the right operand of `==` is parsed at the level of `!=`, the left operand's type
decides about pointer scaling, a character `++` goes through an 8-bit store. Its operators are
arithmetic on signed numbers of their own; `Operators` says what each of them means, by
congruences, remainders and bits, and proves that the chosen instruction computes it. The chain of
theorems is closed by `EndToEnd.RunPrinted`: for every well-formed main function, printed
with just the parentheses the levels need, compiling it and running the machine on the result
gives the value the evaluator gives.

The evaluator has a `fuel` argument that counts calls and loop turns, because a C program
may run for ever. It bounds nothing: `Fuel` proves that every result is independent of it,
and the theorems hold for every amount.

### Properties that do not hold, with their exact conditions

* The lvalue test of the compiler looks only at the last emitted word, whatever that word is.
  A printed expression is accepted as the target of an assignment if and only if it is an
  lvalue or satisfies `LvalueTest.Mistaken` (`LvalueTest.TargetExactly`): a constant, address,
  enumerator, argument count or call target that happens to be 9 or 10, or a cast, a unary
  plus, `?:`, `||` or `&&` whose last operand passes the test. So `9 = x`, `x || y = 5` and
  (for a slot number 9) `&x = 5` are compiled: the first and the last lose their operand to
  the PUSH, and the jump of the second skips it (`Printer.ConstantAsTarget`,
  `LvalueTest.OperandAsTarget`, `LvalueTest.AddressAsTarget`).
  The printing theorems are about trees whose targets are variables, dereferences or indexings.
* `c++` on a `char` does not give the old value exactly when the step leaves the range of a
  signed character (`Fuel.PostStepValue`; `Fuel.CharEdges` evaluates `c++` at 127 and `c--`
  at -128).
* The name of a parameter or local is read from the register that holds the last name
  scanned, after the next token has been scanned. When the next token is itself a word, that
  word becomes local instead, possibly twice, and its outer meaning is lost
  (`FrameLayout.MissingCommas`). Leaving a function restores the symbol table exactly when
  the names on its tokens are distinct (`FrameLayout.LeavingRestores`), and they are when
  every name is followed by punctuation (`FrameLayout.SeparatedNamesAreDistinct`).
* The LZ decompressor may report more bytes than were compressed, because a match may run
  past the end of the input; the first bytes are right in any case. `Lz.RoundTrip` says
  exactly when the size is right, `Lz.SizeOverrun` is an instance where it is not. The program
  gives both routines 2n bytes for an input of n. The compressed form takes 5+3k bytes for k
  steps, so that is enough if and only if 5+3k <= 2n, never for n = 1; the decompressed form
  takes `Lz.End` bytes, which is at most n+2^w, so it is enough for n >= 2^w
  (`Lz.RoomNeeded`). Two equal bytes followed by more of them take 2+2^w bytes, which is at
  most 4 only for the width 1 (`Lz.LongestEnd`).
* A run of more than 65535 equal bytes does not survive the run-length codec, and exactly
  then the round trip fails (`RunLength.RoundTrip`, `RunLength.LongRunIsLost`).
* Copies of an empty message are all taken, so it may leave several acknowledgements under
  way, and a late one sets an idle sender back. What is sent arrives reliably in every run if
  and only if no message is exactly as long as the bytes between two empty messages before it
  (`TcpEmpty.ReliableExactly`); one empty message alone does no harm
  (`TcpEmpty.OneEmptyIsHarmless`), two can lose a byte for good (`TcpEmpty.ByteIsLost`).
* A lost acknowledgement may stop the connection. A waiting sender can go on in some run if and
  only if an answer is under way, or a segment the receiver takes, or the message was not taken
  and may still be repeated (`TcpTheorems.WaitEndsExactly`); otherwise it waits in every run
  (`TcpTheorems.WaitsForever`).
* A write succeeds if and only if the disk has enough free clusters for it
  (`Fat16.Volume.WriteData`, `FatSteps.WrittenNeedsRoom`). The search for a free cluster looks
  at table entries, not at the disk: what it finds is a cluster of the disk if and only if
  some cluster of the disk is free (`Fat16.FoundOnDisk`). Otherwise the routine gives up only
  when it finds the entry 65535, with the data written so far in place and the table not saved
  (`FatSpec.Stopped`). It links a number from 65528 on, after which no chain contains
  the cluster before it (`Fat16.LinkedToNoCluster`), a cluster past the end of the disk
  (`Fat16.PastTheDiskCase`), and the result for a full table, whose block is one of the saved
  table (`Fat16.Volume.LinkFreeCluster`, `Fat16.FullTableBlock`).
* The tick at which a sleeper wakes is kept in 16 bits, while the clock is not. A process that
  sleeps is left alone for the time it asked for, in every run, if and only if the tick at
  which it is to wake is below 65536 (`SchedSleep.SleepIsLongEnough`): from the tick 65536 on
  no sleep lasts.
* The loop of a scheduling call ends exactly when some queued process can be dispatched
  (`Scheduler.Kernel.PickNext`, `SchedTheorems.NothingIsFound`).
* Appending a process control block with a stale link to an empty queue leaves something
  that is no queue; `Queue.Push` says exactly when (`PcbQueue.StaleLink` builds a case). Of the
  queue operations only the removal leaves a stale link behind, exactly when the block was in
  the queue and not its last one (`PcbSystem.RemoveIn`).

## Model

| member | source | states |
|---|---|---|
| EndToEnd.RunPrinted | developer/lex.c:111-1141 | From the syntax tree to the value: the printed form of any well-formed main function is compiled without an error, and the machine ends with the value the evaluator gives that function |
| EndToEnd.CompileAndRun | developer/lex.c:1119-1141 | The same for any accepted token sequence: what is compiled behind the text that is already there runs as the main function and gives its value; functions compiled earlier may be called |
| EndToEnd.ConstantMain | developer/vm.c:214-224 | The hypotheses can be met: a main function that returns an expression without variables has the value of its operators, on every stack with room for its frame and its operands |
| EndToEnd.ConstantCases | developer/vm.c:94-141 | `3 < 5` is 1, `-7 / 2` is -3 and `1 - 2 - 3` is -4 |
| Constants.ConstantValue | developer/lex.c:111-602 | Without variables and calls the evaluator gives a value, and changes nothing, exactly when no operator in the evaluated part is undefined, given the stack the form of the expression needs |
| OnePass.Compiler.Match | developer/lex.c:101-109 | Steps past a token of the required kind or reports the error, and keeps the value and name registers unless the next token brings its own |
| OnePass.Compiler.Expression | developer/lex.c:111-660 | Consumes exactly what precedence climbing reads at that level and leaves exactly the placed code of the tree, its type, or the number of the error message |
| OnePass.Compiler.Unit | developer/lex.c:130-391 | The same for a constant, name, call, cast, parenthesis or prefix form |
| OnePass.Compiler.CallTo | developer/lex.c:198-237 | A call: every argument is pushed when computed, commas are optional, CALL or the library opcode follows, and ADJ removes the arguments when there are any |
| OnePass.Compiler.Variable | developer/lex.c:238-263 | A name gives an immediate or an address with the load of its type; other classes are the error 'undefined variable' |
| OnePass.Compiler.Minus | developer/lex.c:348-366 | A minus sign before a number is folded into the immediate, before anything else it multiplies by -1 |
| OnePass.Compiler.PrefixCode | developer/lex.c:287-391 | The prefix operators: a dereference wants a pointer, an address-of takes the load back, ++ and -- rewrite the load in place; each error as in the source |
| OnePass.Compiler.AssignTail | developer/lex.c:398-411 | The load at the end of the target becomes PUSH and a store by the type of the target follows; anything that does not end in a load word is refused |
| OnePass.Compiler.ConditionalTail | developer/lex.c:412-429 | Both jumps of ?: are patched to the start of the second arm and to the end of the whole |
| OnePass.Compiler.ShortCircuitTail | developer/lex.c:430-447 | The jump over the right operand of a short-circuit operator is patched to the end of the whole, with the operand levels of the source |
| OnePass.Compiler.InfixTail | developer/lex.c:448-602 | The binary operators with their right levels, pointer scaling by the left type, and the division of a pointer difference |
| OnePass.Compiler.StepTail | developer/lex.c:603-630 | Postfix ++ and --: the variable is stepped and the step is undone in the accumulator |
| OnePass.Compiler.IndexTail | developer/lex.c:631-658 | An index is scaled for pointers other than `char *`, added and loaded; a target below pointer type is refused |
| OnePass.Compiler.Statement | developer/lex.c:893-1002 | Consumes exactly one statement of the grammar and leaves exactly its placed code |
| OnePass.Compiler.IfStatement | developer/lex.c:905-942 | An `if` with or without `else`, its targets patched after the branches |
| OnePass.Compiler.WhileStatement | developer/lex.c:943-968 | A loop: the jump back to the condition and the patched exit |
| OnePass.Compiler.ReturnStatement | developer/lex.c:980-992 | A return with or without a value |
| OnePass.Compiler.FunctionParameter | developer/lex.c:1004-1048 | Parameters become local in order, and the slot base is one more than their number |
| OnePass.Compiler.LocalDeclarations | developer/lex.c:1061-1102 | Local declarations become local in order; the position ends at the last slot |
| OnePass.Compiler.FunctionBody | developer/lex.c:1050-1117 | Locals, ENT with their number, the statements, and a closing LEV |
| OnePass.Compiler.Unwind | developer/lex.c:1131-1140 | Exactly the local names take back the meaning saved in their entry |
| OnePass.Compiler.FunctionDeclaration | developer/lex.c:1119-1141 | A whole function: exactly its tokens, exactly its code, and a symbol table whose local entries are taken back |
| CodeShape.ExprShaped | developer/lex.c:305-308 | A block never ends in a jump target and starts with an opcode that is no load, so the test on the last word sees an instruction or an operand, never a patched address |
| CodeShape.WithPatch | developer/lex.c:412-447 | Emitting a jump with a hole, the block and then the target equals placing the finished block |
| CodeShape.WithLoop | developer/lex.c:943-968 | The same for a loop, whose backward target is emitted at once |
| Printer.ParseInvertsPrint | developer/lex.c:393-659 | Precedence climbing inverts printing: every well-formed tree printed with just the needed parentheses is read back as that tree, and nothing more is consumed |
| Printer.ParsePrint | developer/lex.c:395-397 | The induction behind it: after a printed tree the compiler is where it would be with that tree as left operand, for every level and every following token that binds less |
| Printer.LeftOperandLevel | developer/lex.h:11 | An operand left without parentheses before an operator is one the current level still parses |
| Precedence.BindsTighter | developer/lex.c:430-602 | For any two infix operators in a row the compiler groups by a table of ranks, equals from the left: the table of C, but that `!=` binds tighter than `==` |
| Printer.ParseInvertsPrintStmt | developer/lex.c:893-1002 | The same for statements; an `else` goes to the nearest open `if` |
| Printer.ParseInvertsPrintStmts | developer/lex.c:969-979 | The same for the statements of a block |
| Printer.ConstantAsTarget | developer/lex.c:401-404 | An instance of what follows: `9 = x` passes the lvalue test, since the immediate 9 reads as the opcode of a load, and the constant is overwritten |
| LvalueTest.LvalueTestIs | developer/lex.c:301-314 | The test on the last word, by the form of the operand: it passes if and only if the operand's form ends in a load or in a number that reads as one |
| LvalueTest.MistakenExactly | developer/lex.c:398-411 | An accepted expression that is no lvalue passes the test if and only if it is a number, address, enumerator, count or call target 9 or 10, an address-of in front of such, or its last operand passes |
| LvalueTest.RefusedExactly | developer/lex.c:367-391 | The operators `=`, `++`, `--` and `&` refuse an operand if and only if it is neither an lvalue nor mistaken for one |
| LvalueTest.TargetExactly | developer/lex.c:398-411 | The same in source text: a printed expression before `= v` is read as an assignment to it, or gives the error, exactly by that condition |
| LvalueTest.OperandAsTarget | developer/lex.c:430-438 | `x OR y = v` with the short-circuit operator is accepted, and its jump over the second operand also skips the PUSH of the address |
| LvalueTest.AddressAsTarget | developer/lex.c:301-314 | `&x = v` is accepted for a slot number 9, and the PUSH becomes the operand of LEA |
| FunctionPrinter.ParseInvertsPrintFunction | developer/lex.c:1004-1128 | A printed function is read back as its parameters, its locals with their numbers, and its body |
| FrameLayout.SlotsAreSafe | developer/lex.c:246-249 | The slot of every local name is p+1 down to 2 or -1 down to -k: different names have different slots and no name has the slot of the saved frame pointer or the return address |
| FrameLayout.SlotsInOrder | developer/lex.c:1004-1117 | When the names on the tokens are distinct, the i-th of them has exactly the slot p+1-i as a parameter and counts down from -1 as a local |
| FrameLayout.LeavingRestores | developer/lex.c:1131-1140 | Leaving a function restores the symbol table if and only if the names read off its tokens are distinct |
| FrameLayout.NamesAreOnTokens | developer/lex.c:1004-1102 | The names an accepted function binds are those of its tokens, whatever the symbol table holds: for each declarator the word in the name register after one more token |
| FrameLayout.SeparatedNamesAreDistinct | developer/lex.c:1030-1045 | With punctuation after every name the duplicate test is enough to make them distinct |
| FrameLayout.MissingCommas | developer/lex.c:1037-1045 | `(int a int b int c) {}` is accepted, binds the keyword twice, and does not restore the table |
| Jumps.ExprClosed | developer/lex.c:412-447 | Every jump in the code of an expression leads to the start of an instruction inside the block or to one past its end |
| Jumps.StmtClosed | developer/lex.c:905-968 | The same for statements, forward and backward jumps |
| Jumps.FunctionClosed | developer/lex.c:1050-1117 | The same for the code of a whole function |
| ControlFlow.FunctionIsClosed | developer/lex.c:1050-1117 | Strictly inside: every jump of a function leads to one of its own instructions, and the last instruction is LEV |
| ControlFlow.StepStays | developer/vm.c:39-175 | Running: a step from an instruction of a loaded function other than CALL and LEV ends at an instruction of the same function |
| Interpreter.Vm.Turn | developer/vm.c:39-175 | One turn of the loop is exactly one step of the machine, exits and faults included |
| Interpreter.Vm.Eval | developer/vm.c:39-180 | The loop ends, with the exit value of the run from the current state |
| Interpreter.Vm.SetupStack | developer/vm.c:214-224 | The start stack holds EXIT, PUSH, the arguments, and the address of PUSH as return address |
| Machine.ExitIsUnique | developer/vm.c:142-144 | A machine has one exit value, however many steps a run is given |
| Correctness.EvalRuns | developer/lex.c:111-660 | Whenever the evaluator gives an expression a value, the machine runs through its code to the word after it, with that value in ax, sp and bp as before, and memory changed as the evaluator changed it and otherwise only below the stack pointer |
| Correctness.BinaryRuns | developer/lex.c:536-578 | The case of binary operators, with pointer scaling and pointer differences |
| Operators.ValueMeans | developer/vm.c:94-141 | The value of each of the 16 operators is the one number that meets its meaning: sums, differences and products modulo 2^32, signed comparisons, shifts as a product and a rounded quotient, the quotient and remainder of C, the bit operators bit by bit, and no value where C has none |
| Operators.AluComputes | developer/vm.c:94-141 | The instruction the compiler chooses for an operator computes exactly that value |
| Operators.PointerMeans | developer/lex.c:536-578 | Sums and differences with pointers other than `char *` count words, and the distance of two pointers is the quotient of their distance by 4 |
| Operators.StepMeans | developer/lex.c:603-630 | A step of ++ or -- is 1 for integers, characters and `char *`, and 4 for other pointers |
| Operators.TypesAre | developer/lex.c:287-660 | The recorded types: two for every star, integers for comparisons, bits, shifts and distances, the left type for sums and products |
| Operators.LoadMeans | developer/vm.c:49-54 | A character is read as a signed byte, everything else as four bytes with the low one first |
| Operators.StoreMeans | developer/vm.c:55-61 | A store changes one byte or four and nothing else, and they hold the value |
| Operators.AssignThenRead | developer/lex.c:398-411 | After an assignment the variable has the value of the assignment, for characters too |
| Operators.IndexIsSum | developer/lex.c:631-658 | `a[i]` and `*(a + i)` have the same type, address and value |
| Operators.DerefOfAddress | developer/lex.c:287-314 | `*&e` has the type and value of `e` |
| Correctness.ShortCircuitRuns | developer/lex.c:430-447 | The case of the short-circuit operators: the right operand is run only when the left one does not decide, and the last value computed is the result |
| Correctness.ConditionalRuns | developer/lex.c:412-429 | The case of ?: |
| Correctness.AssignRuns | developer/lex.c:398-411 | The case of assignments |
| Correctness.PostStepRuns | developer/lex.c:603-630 | The case of postfix ++ and -- |
| Correctness.CallRuns | developer/lex.c:198-237 | The case of calls, recursion included |
| Correctness.ExecRuns | developer/lex.c:893-1002 | A statement that completes ends just after its code with the linkage of the frame intact; one that returns ends at the return address |
| Correctness.WhileRuns | developer/lex.c:943-968 | The case of loops |
| Correctness.FunctionRuns | developer/vm.c:74-93 | From the pushed arguments through CALL, ENT, the body and LEV back to the call site, with the caller's frame as it was |
| Preservation.TimesMinusOne | developer/lex.c:357-364 | Multiplying by the word -1 negates modulo 2^32, also for the smallest integer |
| Preservation.PointerDistance | developer/lex.c:557-564 | The difference of two pointers of one type is the signed byte distance divided by 4 |
| Calls.CallEnters | developer/vm.c:74-84 | CALL and ENT: the callee's frame lies below the arguments, the two words of linkage hold the caller's frame pointer and the return address, and no other memory changes |
| Calls.LeaveStep | developer/vm.c:88-92 | LEV: back at the saved address with the saved frame pointer and the stack pointer just above the linkage |
| Calls.CallReturns | developer/vm.c:85-92 | After the return the caller's own memory has the callee's changes and the frame is gone |
| Fuel.EvalMore | developer/lex.c:111-660 | A value the evaluator gives does not depend on the amount of fuel |
| Fuel.CallIsUnique | developer/lex.c:198-237 | Any two runs of a call that end, end the same |
| Fuel.PostStepValue | developer/lex.c:603-630 | The value of `e++` and `e--` is the old value if and only if the variable is no character or the step stays between -128 and 127 |
| Fuel.CharEdges | developer/lex.c:603-630 | For a local character: `x++` at 127 has the value -129 and leaves -128, `x--` at -128 has the value 128 and leaves 127 |
| WholeProgram.CompiledIsLoaded | developer/lex.c:1119-1141 | A function compiled at some point of the text is loaded at its entry, whatever is compiled before or after it |
| WholeProgram.ParameterIsArgument | developer/lex.c:246-249 | On entry the slot of the i-th parameter holds the i-th argument |
| WholeProgram.ProgramRuns | developer/vm.c:214-224 | From the start stack, the machine exits with what the main function returns: its value is pushed and EXIT returns it |
| WholeProgram.RunProgram | developer/vm.c:39-180 | The same for the interpreter itself |
| Lz.FindMatch | lib/lz.c:84-103 | The search over distances and lengths finds the specified best match |
| Lz.LongestMatch | lib/lz.c:84-103 | The greedy search is exact, said of the bytes alone: over all distances d with 1 <= d <= pos and d < 2^(16-w), the length found is the greatest up to 2^w for which the bytes agree, at the nearest such distance |
| Lz.Unpack | lib/lz.c:107-113 | The pointer word stays below 2^16 and both parts come back from it |
| Lz.Compress | lib/lz.c:66-125 | The output is the header and the triples of the greedy steps, with no more room than they take |
| Lz.TripleBytes | lib/lz.c:105-120 | The three bytes of a step: distance times 2^w plus the length less one, low byte first, and the byte after the match; a match that ends with the input is one shorter |
| Lz.CompressedSize | lib/lz.c:79-121 | k steps give 5+3k bytes, at most 5+3n |
| Lz.RoomNeeded | lib/lz.c:76-140 | The compressed form takes 5+3k bytes for k steps and never more than 5+3n, 8 for a single byte; the output ends at most 2^w bytes past n, so within 2n when n is at least 2^w |
| Lz.LongestEnd | lib/lz.c:88-140 | That bound is reached for every width: two equal bytes followed by more of them end 2^w bytes past the input, within twice its length only for the width 1 |
| Lz.Decompress | lib/lz.c:127-158 | The output is what the triples decode to, byte by byte for overlapping copies |
| Lz.RoundTrip | lib/lz.c:66-158 | Decoding the compressed form of any n bytes gives those bytes, whatever follows them in memory, for every width, also when the last match runs on; the size is n if and only if no match runs past the end |
| Lz.EndIsExact | lib/lz.c:105-114 | Where the output ends, step by step |
| Lz.CompressAndRestore | lib/lz.c:66-158 | The same for the two routines one after the other on arrays |
| Lz.SizeOverrun | lib/lz.c:88-93 | Two equal bytes followed by the same byte decompress to four |
| Lz.EstimateWidth | lib/lz.c:25-63 | With the average length of the nearest matches from 128 on the width is 8, from 64 on 7, from 32 on 6, else 5, and 5 without a match |
| Lz.WidthIsByAverage | lib/lz.c:25-63 | The same of the totals the routine keeps in 32 bits: they are the sum and the number of the positive nearest lengths |
| Lz.NearestMatchIs | lib/lz.c:30-48 | What counts as the nearest match: the least distance at which the bytes agree, and the greatest length up to the end of the input |
| Fat16.Volume.WriteBlockOffset | kernel/diskdev.c:66-75 | Exactly the bytes of the block in the range change |
| Fat16.Volume.ReadBlockOffset | kernel/diskdev.c:89-99 | Exactly the bytes of the block in the range are copied |
| Fat16.Volume.GetFreeCluster | fs/fat16.c:113-129 | Finds the lowest number from 5 on whose entry is 0 and marks it as the end of a chain; on a full table the result is 0xFFFFFFFF and the table stays |
| Fat16.Volume.LinkFreeCluster | fs/fat16_write.c:82-92 | The lowest zero entry is marked and linked, except that 65535 is marked and refused; on a full table the chain keeps its end mark and the routine goes on with 0xFFFFFFFF |
| Fat16.FoundOnDisk | fs/fat16.c:113-129 | The number found is a cluster of the disk if and only if some cluster of the disk is free |
| Fat16.LinkedToNoCluster | fs/fat16_write.c:82-92 | After a number from 65528 to 65534 was linked, no chain contains the cluster it was linked to |
| Fat16.LinkedToNoClusterCase | fs/fat16_write.c:82-92 | The table of 65536 entries with only 65528 free, and a file of one cluster |
| Fat16.PastTheDiskCase | fs/fat16.c:740 | A disk of 20000 blocks and a table of 78: with all clusters of the disk used the search finds 19922, whose block would have the number 20000 |
| Fat16.FullTableBlock | fs/fat16_write.c:82-92 | That number passes the test for a full table, and its block, in 32 bits, is the one before the data start, which belongs to no cluster of any chain but to the saved table |
| Fat16.Volume.PrintClusterChain | fs/fat16_write.c:41-50 | The walk along a chain ends, after exactly as many steps as the chain has clusters; the write routine makes it before and after |
| Fat16.Volume.SyncFatTable | fs/fat16.c:86-101 | The table on the disk is the table in memory, and other blocks stay |
| FatSpec.SavedBytes | fs/fat16.c:86-101 | The bytes 2c and 2c+1 of the table blocks, low byte first, are the entry of cluster c |
| FatSpec.SavedIsMounted | fs/fat16.c:842-850 | The table on the disk is the table in memory if and only if mounting the disk reads that table |
| Fat16.Volume.LoadFatTable | fs/fat16.c:842-850 | Mounting reads exactly the entries on the disk |
| Fat16.Volume.FindClusterByOffset | fs/fat16_write.c:18-31 | The cluster in which a write starts; the end of a cluster counts as its offset 512 |
| Fat16.Volume.WriteData | fs/fat16_write.c:66-129 | The result is the length if and only if the disk has enough free clusters, and then the chain is kept, grown by the lowest free clusters, or cut after its last used cluster, its blocks have the data spliced in, the table is saved, and nothing else changes; otherwise the result is -1, all free clusters are taken and filled, and the table is not saved |
| FatSteps.WrittenNeedsRoom | fs/fat16_write.c:66-129 | The converse: a write that is carried through had enough free clusters on the disk |
| Fat16.Volume.ReadDataFromCluster | fs/fat16_read.c:27-37 | A part of one cluster, or -1 when it does not fit the cluster; the block of a cluster is that of include/fs/fat16.h:19, the root directory for cluster 0 |
| Fat16.Volume.ReadData | fs/fat16_read.c:39-84 | The buffer gets exactly the window of the file's stream, clipped at the file size; -1 past the end and -3 when the chain is too short |
| FatSteps.LinkExtends | fs/fat16_write.c:82-93 | Marking a free cluster as the end and linking it gives one longer chain, and takes exactly that cluster out of the free ones |
| FatSteps.ChainDistinct | fs/fat16_write.c:41-50 | From the links alone: no cluster occurs twice in a terminated chain |
| FatSteps.ChainIsUnique | fs/fat16_write.c:41-50 | A cluster starts at most one terminated chain, so the walk from it determines the file |
| FatTheorems.WriteSplices | fs/fat16_write.c:66-129 | After a write the stream of the new chain is the stream of those blocks before it, with the data spliced in |
| FatTheorems.WriteThenRead | fs/fat16_write.c:66-129 | Any window of the file after a write is that window of the old first bytes followed by the data |
| FatTheorems.MountAfterWrite | fs/fat16.c:842-850 | After a write and a mount the table is the one after the write: the written file and every other one keep their chains and bytes |
| FatTheorems.MountAfterStop | fs/fat16.c:842-850 | After a write that gave up, a mount reads the table from before it, in which every chain still stands |
| FatTheorems.OtherFileKept | fs/fat16_write.c:80-121 | Every other chain keeps its links and bytes and stays disjoint from the written one |
| FatTheorems.OtherFileKeptStopped | fs/fat16_write.c:80-110 | The same for a write that gave up |
| FatTheorems.FreeAfterWrite | fs/fat16_write.c:80-121 | The free clusters lose exactly those the chain gained; clusters cut off are not given back |
| FatTheorems.WriteKeepsConsistent | fs/fat16_write.c:66-129 | A write, carried through or given up, keeps all files terminated, acyclic and pairwise disjoint |
| FatTheorems.RunKeepsFiles | fs/fat16_write.c:66-129 | So does every run of writes, and a file that is not written keeps its clusters and its bytes |
| Tcp.Connection.StateMachine | net/tcp.c:707-774 | What a socket in ESTABLISHED or WAIT_ACK does with a segment, field by field: a reset closes it, the awaited number ends the wait, the next segment in order is taken and answered, everything else changes nothing |
| Tcp.Connection.SendAck | net/tcp.c:419-442 | The acknowledgement sent, and the numbers kept |
| Tcp.Connection.RecvAck | net/tcp.c:508-518 | Only the expected acknowledgement number ends the wait |
| Tcp.Connection.SendSegment | net/tcp.c:328-382 | The segment is sent, repeated up to three times with the same numbers while no acknowledgement comes, and the result says whether one came |
| Tcp.CopiesStopWithAnswer | net/tcp.c:352-378 | There are as many copies as it takes to a waiting period with a reset or the awaited number, at most four; the first such segment decides between CLOSED and ESTABLISHED |
| Tcp.Connection.KernelSend | net/net.c:224-254 | A message over 1400 bytes is refused with nothing changed; otherwise one to four copies of its segment are sent, as many as it takes to an answer, and the length is returned, acknowledged or not |
| TcpTheorems.StepSafe | net/tcp.c:707-774 | Every step of two sockets and a network that loses, delays and reorders keeps the invariant |
| TcpTheorems.RunSafe | net/tcp.c:707-774 | So does every run |
| TcpTheorems.StopAndWait | net/net.c:243-248 | In every run the bytes handed over are a prefix of those sent, and the sender goes on only after the receiver took the outstanding message |
| TcpTheorems.WaitEndsExactly | net/tcp.c:328-382 | A waiting sender can come back to ESTABLISHED in some run if and only if an answer is under way, a segment is under way that the receiver takes, or the message was not taken and may still be repeated |
| TcpTheorems.WaitsForever | net/tcp.c:328-382 | Without these, every run keeps it waiting, as after the loss of the only answer |
| TcpTheorems.EmptyMessageIsTakenTwice | net/net.c:224-254 | From every quiet state, sending an empty message leads in four steps to a state with one acceptance too many and two answers under way; no byte is lost by that alone |
| TcpEmpty.HarmlessIsReliable | net/tcp.c:707-774 | Empty messages included: when no message is as long as the bytes between two empty ones before it, then in every run what is handed over is a prefix of what was sent and the sender goes on only after the receiver has it all |
| TcpEmpty.ReliableExactly | net/tcp.c:707-774 | That condition is exact: all runs that send these messages in order are reliable if and only if it holds |
| TcpEmpty.OneEmptyIsHarmless | net/net.c:224-254 | Any messages with at most one empty one among them meet it |
| TcpEmpty.ByteIsLost | net/net.c:224-254 | From every state of the protocol in which the sender is ready: an empty message, a byte, an empty message and two more bytes can be sent so that the sender goes on early and the middle one of the bytes is never handed over while the last one is |
| Scheduler.Kernel.PickNext | kernel/scheduler.c:204-267 | The loop ends and dispatches the first process that can run, with at most k+1 pops when the one at position k can; those before it go behind the others, dead ones to the cleanup |
| Scheduler.Kernel.RoundRobinNext | kernel/scheduler.c:182-276 | A scheduling call, and its error on an empty queue |
| Scheduler.Kernel.Sleep | kernel/scheduler.c:95-108 | Another process is dispatched and the caller waits in the queue for the tick that lies so much ahead, modulo 65536, unless it is found again at once |
| Scheduler.Kernel.Exit | kernel/scheduler.c:315-339 | The running process dies and waits to be cleaned up, and another one is dispatched |
| Scheduler.Kernel.Block | kernel/scheduler.c:153-174 | A process taken off the processor is blocked and another one is dispatched |
| Scheduler.Kernel.Acquire | kernel/sync.c:50-79 | A free mutex is taken; at a locked one the caller waits at the end of its queue and another process runs |
| Scheduler.Kernel.Release | kernel/sync.c:86-105 | Whoever calls it, the mutex goes straight to the process that has waited longest, or is unlocked |
| SchedTheorems.StepKeeps | kernel/scheduler.c:136-276 | Every step keeps each process in exactly one place with a fitting state, and each mutex locked exactly when it has an owner |
| SchedTheorems.RunKeeps | kernel/scheduler.c:136-276 | So does every run |
| SchedTheorems.CleanedUpOnce | kernel/scheduler.c:230-239 | A process handed to the cleanup is there once, is dead, and is nowhere else |
| SchedTheorems.RunKeepsCleaned | kernel/scheduler.c:230-239 | In no run does it come back to a queue or to the processor |
| SchedTheorems.WaiterAdvances | kernel/sync.c:86-105 | A waiter moves up by one at each release of its mutex and with nothing else; from the front it becomes the owner |
| SchedTheorems.WaitersMoveUp | kernel/sync.c:50-105 | Over every run, waiters get a mutex in the order in which they came |
| SchedTheorems.NothingIsFound | kernel/scheduler.c:204-258 | When no queued process can be dispatched, none is found however often the loop turns |
| SchedTheorems.DispatchAdvances | kernel/scheduler.c:190-267 | In a dispatch a process that can run moves up or is dispatched, a sleeper when its tick is over |
| SchedTheorems.BoundedWaiting | kernel/scheduler.c:190-267 | A process at position k that can run and is not killed is dispatched within k+1 scheduling calls, whatever else happens in between; a sleeper within k+1 calls after its tick |
| SchedSleep.EnabledExactly | kernel/scheduler.c:182-258 | A yield always finds a process to run; an exit does if and only if a queued one can run, and a sleep if and only if that, or the sleep is over already |
| SchedSleep.SleepSets | kernel/scheduler.c:95-108 | A process that sleeps at a tick for a time, and is not dispatched at once, is in the queue with their sum modulo 65536 as the tick it waits for |
| SchedSleep.SleeperStays | kernel/scheduler.c:244-253 | No step at or before its tick dispatches a sleeper or changes its state, unless it is killed |
| SchedSleep.SleeperSleeps | kernel/scheduler.c:244-253 | Over every run it is not dispatched by a call at or before its tick, killed or not |
| SchedSleep.SleepIsLongEnough | kernel/scheduler.c:95-108 | A sleep lasts as long as asked for, in every run, if and only if the tick to wake at is below 65536 |
| SchedSleep.DeadStays | kernel/scheduler.c:230-239 | No step brings a dead process back or runs it |
| SchedSleep.ExitSets | kernel/scheduler.c:315-339 | Who exits is dead, is not running, and is in the queue or cleaned up |
| SchedSleep.BoundedCleanup | kernel/scheduler.c:230-239 | In every run the dead process at position k is cleaned up within k+1 scheduling calls |
| SchedSleep.AcquireSets | kernel/sync.c:50-79 | A free mutex is taken by the caller and nothing else changes; at a locked one the caller is blocked behind all others |
| SchedSleep.ReleaseSets | kernel/sync.c:86-105 | A released mutex goes to the first waiter, which becomes ready behind the others; without one it is unlocked and nothing else changes |
| SchedSleep.HeldUntilReleased | kernel/sync.c:50-105 | Mutual exclusion over every run: who has a mutex has it until it is released, and then it is the running process |
| PcbQueue.Queue.Push | kernel/pcb_queue.c:70-96 | Appends; the result is a queue if and only if the queue was not empty or the block had no link |
| PcbQueue.Queue.Add | kernel/pcb_queue.c:109-127 | Puts in front |
| PcbQueue.Queue.Remove | kernel/pcb_queue.c:140-167 | Takes one block out, wherever it is, and leaves its link as it was |
| PcbQueue.Queue.Pop | kernel/pcb_queue.c:180-197 | Removes the first block and clears its link; null from an empty queue |
| PcbQueue.Queue.Peek | kernel/pcb_queue.c:209-220 | Reads the first block |
| PcbQueue.Move | kernel/pcb_queue.c:70-197 | Two queues: a block popped from one and pushed to the other leaves both queues, and leaves them disjoint |
| PcbQueue.PushBeside | kernel/pcb_queue.c:70-96 | Two queues: appending to one leaves a disjoint one alone |
| PcbQueue.StaleLink | kernel/pcb_queue.c:140-167 | A removed block pushed to an empty queue drags the rest of its old queue along |
| PcbSystem.PushIn | kernel/pcb_queue.c:70-96 | Any number of queues: they stay lists without cycles and share no block, and the blocks outside all of them have no link, when one from outside is appended |
| PcbSystem.AddIn | kernel/pcb_queue.c:109-127 | The same when it is put in front |
| PcbSystem.PopIn | kernel/pcb_queue.c:180-197 | The same when the first block of any queue is taken, which is then outside |
| PcbSystem.RemoveIn | kernel/pcb_queue.c:140-167 | Removal keeps the queues, and keeps the blocks outside without a link if and only if the block was not in the queue or was its last one |
| Kmem.Allocator.FindBlocks | kernel/kmem.c:40-56 | The lowest run of free blocks, or -1 when there is none |
| Kmem.Allocator.MarkBlocks | kernel/kmem.c:58-65 | Exactly the bits of the range are set |
| Kmem.Allocator.ClearBlocks | kernel/kmem.c:162-166 | Exactly the bits of the range are cleared |
| Kmem.Allocator.Kalloc | kernel/kmem.c:86-124 | For the least number n of 256-byte blocks that hold the request and four bytes: the lowest n free blocks are taken and n is written; the payload covers the request and lies in them; the kernel panics exactly when every n blocks in a row have a bit set, so the sanity check at the end never fires |
| Kmem.BlocksAreLeast | kernel/kmem.c:90-91 | The number of blocks of a request is the least one that holds it and its length word |
| Kmem.FitsIs | kernel/kmem.c:40-56 | What fits a request, by that least number and the bits of the bitmap |
| Kmem.Allocator.Kfree | kernel/kmem.c:147-170 | Exactly the range of a live pointer is given back |
| Kmem.Allocator.WritePayload | kernel/kmem.c:86-124 | Whatever an owner writes into its payload, the lengths in the first words stand |
| HeapSpec.AllocationKeepsSound | kernel/kmem.c:86-124 | The set bits stay the disjoint union of the live ranges, and the counter 256 times their number |
| HeapSpec.ReleaseKeepsSound | kernel/kmem.c:147-170 | The same when a range is given back |
| HeapSpec.UsedIsBounded | kernel/kmem.c:115-119 | The counter never exceeds the size of the memory |
| Line.Window.DrawLine | graphics/gfxlib.c:320-356 | Plots exactly the points of the ideal line from one end to the other, one per step of the longer axis, or nothing when an end is outside |
| Line.LineIsInBox | graphics/gfxlib.c:320-356 | The points start and end at the ends and stay in the box between them |
| Line.HalfPixel | graphics/gfxlib.c:334-354 | No point is more than half a pixel from the ideal line |
| Line.Connected | graphics/gfxlib.c:334-354 | From point to point the line goes one pixel along the longer axis and one or none along the other, never back |
| Line.NearestIs | graphics/gfxlib.c:339-352 | The error term determines the coordinate: only one integer is that near |
| RunLength.Encode | kernel/encoding.c:14-38 | The output is one triple for each run |
| RunLength.Decode | kernel/encoding.c:40-55 | The output is what the triples expand to |
| RunLength.RunsExpand | kernel/encoding.c:14-38 | The runs expand to the data |
| RunLength.EncodedTriples | kernel/encoding.c:14-38 | Three bytes for each run, its byte and its count modulo 65536 with the low byte first, and neighbouring triples have different bytes |
| RunLength.EqualBytes | kernel/encoding.c:18-30 | Equal bytes are one run, however many |
| RunLength.RoundTrip | kernel/encoding.c:14-55 | Decoding the encoding gives the data if and only if no run is longer than 65535 |
| RunLength.LongRunIsLost | kernel/encoding.c:18-30 | 65536 equal bytes are encoded with the counter 0 and decode to nothing |
| Checksum.Compute | net/utils.c:38-63 | The number of 16 bits that completes the 32-bit sum to a multiple of 65535, where bytes at even places count once and those at odd places 256 times |
| Checksum.SumIsWeighted | net/utils.c:44-55 | The sum of the words and of a left-over byte is that weighted sum of the bytes |
| Checksum.ChecksumIs | net/utils.c:57-63 | The complement of the folded sum is the one number that completes the sum so, 65535 only for the sum 0 |
| Checksum.FoldKeepsSum | net/utils.c:58-60 | Folding keeps the sum modulo 65535, and gives 0 only for 0 |
| Checksum.ChecksumVerifies | net/utils.c:38-63 | A message with its checksum in the field that was 0 has the checksum 0 (section 4.1 of RFC 1071) |
| Checksum.SealedSum | net/utils.c:57-63 | Adding its checksum never carries a 32-bit sum over, since 2^32-1 is a multiple of 65535, and the result has the checksum 0 |
| Checksum.SealAndVerify | net/utils.c:38-63 | The same for the routine run twice, for all data and start values, also where the 32-bit sum overflows |
| Checksum.ByteChangeIsSeen | net/utils.c:38-63 | A change of one byte always changes the checksum, as long as the sum stays in 32 bits |

## Left out

Of the compiler: scanning of the source text, the hashing of names, enumerations, global
declarations and the library opcodes (files, printing, memory). Tokens are the input, the
symbol table is a map from entries to meanings, and a library call stops the machine model.
Distinct names may share an entry of the real table, so nothing is claimed about that.

Of the machine: memory is a finite map from addresses to bytes; the model stops where the
real machine would trap, or where C leaves the result undefined (division by zero, shifts of
32 and more). The evaluator gives no meaning to reading a byte that was never written and to
calls with a wrong number of arguments.

- EndToEnd.CompileAndRun: the text is put into the machine's memory after compiling, while the program compiles into that memory directly.
- Interpreter.Vm.Eval: takes the length of the run as a ghost argument, because a program need not end.
- Lz.Compress: the output buffer has the 5+3k bytes the result takes; the program allocates 2n (`Lz.RoomNeeded` says when that is enough). Widths 1 to 15 are covered, and the input is followed by 2^w more readable bytes, since the scan does not stop at its end.
- Lz.Decompress: the output buffer has room for what the triples decode to, which may run past the size; the program allocates 2n (`Lz.RoomNeeded`, `Lz.LongestEnd`). Widths 1 to 15.
- Lz.EstimateWidth: allocation and the two public wrappers are left out.
- Fat16.Volume.GetFreeCluster: the table in memory has the entries the search reads: 65536 of them, or a free one.
- Fat16.Volume.WriteData: without enough free clusters on the disk, only the case in which the search then finds the entry 65535 is modelled; in the others the routine writes and reads outside the data area and the table (`Fat16.FoundOnDisk` says when). Directory entries, paths, deletion, renaming, formatting and the freeing of chains are left out.
- Fat16.Volume.ReadData: block numbers stay below 65536, because the reader keeps them in 16 bits.
- Tcp.Connection.StateMachine: the handshake, the closing sequence, SYN and FIN segments, the retry queue, checksums, byte order, and what the socket buffer does with the data are left out.
- Tcp.Connection.SendSegment: time is a sequence of waiting periods, and what comes in during each of them is a parameter.
- TcpTheorems.StopAndWait: one direction, less than 2^32 bytes, and no empty messages (`TcpEmpty` covers those); it is a safety property (`TcpTheorems.WaitEndsExactly` says when a wait can end).
- PcbSystem.PushIn: the block is in no queue yet; the program does not check that.
- TcpEmpty.ReliableExactly: is about the prefix and the early end of a wait together; for the prefix alone the condition is weaker and depends on the contents of the messages.
- Scheduler.Kernel.PickNext: some queued process must be able to run at the tick of the call, as the loop otherwise does not end (`SchedTheorems.NothingIsFound`) or pops from an empty queue; the tick stands still during one call. Page directories, register contexts and the start routine of a new process are left out.
- Scheduler.Kernel.Acquire: a critical section is one atomic step, and the ready queue and the waiting queues are fields of sequence type; the linked list behind them is proved in `PcbQueue`. Killing a process that waits for a mutex is left out.
- Scheduler.Kernel.Release: the theorems about runs have only the owner release; the program does not check that.
- PcbQueue.Queue.Push: the `total` field, which the program does not maintain on all paths, and the spinlock are left out.
- Kmem.Allocator.Kalloc: memory is an array of words, one machine word each; the lock, the per-process counter and the page allocator are left out.
- Kmem.Allocator.Kfree: the pointer is null or one that was allocated and not yet given back; the program does not check that, and with any other it reads its length from an arbitrary word.
- Line.Window.DrawLine: pixels are a sequence of points; colours, pitch and clipping of single pixels are left out.

Everything that is hardware, user interface or application code is left out, as are the
virtual memory heap, the ring buffer, the hash map and the file positions of open files.
