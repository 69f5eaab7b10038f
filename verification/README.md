# Proofs about the 6809 toolchain

This project models the parts of the 6809 toolchain whose correctness is not visible from any one
routine, and proves what they are for.

* **The Micro-C compiler against the emulator's 6809.** `Source` and `Statements` give expression trees
  and statements a meaning; `CodeGen` and `Statements` are the code that `gexpr`, `bexpr` and the
  statement compilers emit, with label numbers and the `control` flag; `Engine` and `Program` run that
  code as `src/engine.c` does, on registers, flags and 64 KB of memory that wraps around; `Runtime` runs
  the arithmetic library. The main results: code of an expression leaves its value in D and changes
  memory outside the scratch part of the stack exactly as the source says (`ExprCorrect.CorrectE`), code
  of a condition jumps exactly when it should (`ExprCorrect.CorrectB`), code of any nest of statements
  simulates it (`StmtProof.StmtCorrect`), and a compiled function returns with the right value and memory
  (`Function.CompiledFunction`), or never stops when its body never ends (`Function.FunctionDiverges`).
  `Compiler.Output` is the code generator in its own form, printing code and counting labels, and
  `Emulator.Processor` the emulator in its own form, with its condition code byte, masks and wide
  results; both are proved to do what the functions say. `Exceptions` states exactly when three
  things that the compiler does otherwise than C are right: constants in conditions, compound assignments
  through pointers with library operators, and the values of assignments to chars.
* **Declarations and constant folding.** `Declarators` parses a declarator into cells of the compiler's
  heap and turns the chain round in place; `Binop` folds, swaps and scales.
* **Memory managers.** `Collector` is the Lisp's mark and sweep over a cell graph that may be cyclic;
  `Blocks` and `Allocator` are the coalescing circular free list of `malloc`; `Binding` is the Lisp's
  shallow binding.
* **Arithmetic.** `FloatMul` is the 40-bit floating-point product with its error bound; `Bcd` is binary
  to decimal by repeated ADCA and DAA.
* **Protocols and formats.** `Xmodem` couples the two halves of the transfer; `SRecords` writes and reads
  S-records; `Crc` relates the two OS-9 checksums; `Editor` is the Tiny BASIC line editor; `Interrupts`
  is interrupt entry and return under any nesting.

The compiled code's world is: D, X, Y, U, S, the flags N, Z, V, C and memory. Y is the address of the
globals, U of the frame. A stretch `lo..hi` of the stack below S is scratch; the meaning of a source
program that reads or writes it is `Fault`, and nothing is claimed then. C leaves the order of operands
open; the source's meaning fixes the order that the compiler emits (right operand first unless it is a
word variable or a constant). `Operators` says what each operator is without reference to the code.

Methods with loops and in-place updates stand where the originals have them; each is proved to equal a
function of its old state, and the lemmas about that function say what it means.

## Model

| member | source | states |
|---|---|---|
| ExprCorrect.CorrectE | mc09/mc.c:1691-1874 | For every tree the code falls through with D the 16-bit value, S, U and Y as before, and memory outside scratch exactly as the source's meaning has it, from every state with room on the stack |
| ExprCorrect.CorrectL | mc09/mc.c:1925-1951 | The code of an lvalue leaves its address in X, with S, U and Y as before and the source's effects on memory |
| ExprCorrect.CorrectB | mc09/mc.c:1588-1671 | For every condition the code jumps to l exactly when (value is nonzero) == cond and falls through otherwise, short-circuit effects on memory included |
| ExprCorrect.CompareFlags | mc09/mc.c:1661-1666 | The branch chosen for a comparison, read from the flags that SUBD left, decides the signed or unsigned comparison of the two words correctly, overflow included |
| ExprCorrect.PulledLoad | mc09/mc.c:1925-2041 | A pushed address, a second operand computed above it, then PULS X and a load through D,X read the sum of both |
| ExprCorrect.ModifyStacked | mc09/mc.c:2108-2159 | Load, combine with the pushed operand and store back is the compound assignment, and pops its operand |
| Operators.OperatorsMean | mc09/mc.c:2165-2254 | The fifteen operators: bit k of AND, OR and exclusive OR for each k, quotient and remainder by their inequalities and signs, shifts as multiples and rounded quotients of powers of two, sums and products modulo 2^16 |
| Operators.OperatorCode | mc09/mc.c:1691-1874 | The code of a binary operation leaves in D what that operator is of its operands, in the order in which they are computed |
| Operators.AssignedCode | mc09/mc.c:2108-2159 | So does the code of a compound assignment, of the old value and the right-hand side |
| OpProof.OprtCorrect | mc09/mc.c:2165-2229 | An operand that needs no stack is combined with D, nothing else but flags changes, and after a subtraction the flags are those of the subtraction |
| OpProof.TosCorrect | mc09/mc.c:2230-2254 | The word on top of the stack is combined with D by instruction or library call and popped; memory above is untouched |
| OpProof.DualOp | mc09/mc.c:2196-2205 | A byte operation on A and one on B make the bitwise operation on words |
| MulProof.MulCorrect | mc09/mc.c:1803-1874 | The shift-and-add sequence for each small constant yields the product modulo 2^16 |
| Labels.LabelsE | mc09/mc.c:1672-1690 | Every label that expression code introduces comes from its own stretch of the counter, and each is introduced once |
| Labels.LabelsB | mc09/mc.c:1588-1660 | The same for conditions, whose only other label is the target |
| Control.ControlB | mc09/mc.c:1672-1690 | When `control` is off after a condition, the condition always jumps, so what follows cannot be reached by falling through |
| Runtime.LibraryCorrect | mc09/crtos9.asm:88-273 | Every routine _00001 to _00009 leaves the product, quotient, remainder or shifted word in D and a definite word in X, keeps S, U and Y, and writes only below S |
| Runtime.DivRunCorrect | mc09/crtos9.asm:241-273 | The seventeen rounds of the division keep quotient so far times divisor plus rest equal to the dividend, division by zero included |
| Runtime.DivideCorrect | mc09/crtos9.asm:241-273 | So the subroutine leaves the remainder in D and the quotient in X |
| StmtProof.StmtCorrect | mc09/mc.c:710-937 | Compiled if, while, do, for, switch, break, continue and return simulate the source statement for every nesting: same memory, S balanced, control at the place the source's outcome says, nowhere by fall-through when `control` is off, and as many steps without stopping as the source begins rounds |
| StmtProof.SimSwitch | mc09/mc.c:875-896 | A switch enters at the clause with its value, else at the default, else goes past the end; bodies fall into the next clause |
| StmtProof.TestsAt | mc09/mc.c:902-930 | The comparisons of a case group get to the body exactly when the value is listed, and to the next group otherwise |
| StmtProof.ForSim | mc09/mc.c:835-874 | A for loop with any of its parts missing simulates the source loop, continue going to the step |
| StmtProof.SimIfElse | mc09/mc.c:770-787 | If with else, including the jump over the else part that is left out after a body that never ends |
| StmtLabels.LabelsS | mc09/mc.c:1672-1690 | Statement code introduces every label of its stretch of the counter exactly once and no other |
| StmtLabels.OnceUnique | mc09/mc.c:1672-1690 | So no label is defined twice |
| Program.ExecInProgram | src/engine.c:594-630 | Running a piece of code alone is what the whole program does with the piece in place, jumps leaving it included |
| Fuel.FuelMore | mc09/mc.c:788-874 | The bound on rounds in the meaning of loops is only a bound: a run that ends does not depend on it |
| Fuel.FuelAgrees | mc09/mc.c:788-874 | All bounds that suffice give the same result |
| Fuel.TimeoutRounds | mc09/mc.c:788-874 | A run that exceeds its bound has begun more rounds than that |
| ShortBranch.CaseReach | mc09/mc.c:902-930 | For any number of constants, every 2-byte branch of a case group goes forward to its label over at most 127 bytes |
| ShortBranch.TestsLength | mc09/mc.c:902-930 | The byte count by which docase chooses is exact once all branches are short |
| Function.FunctionCorrect | mc09/mc.c:661-680 | Entry, body and return: the caller gets back S, U, Y, the return address and the function's value, with memory as the body's meaning leaves it, if the body left the saved words alone |
| Function.CompiledFunction | mc09/mc.c:661-680 | The same for a function that is the whole program, with no assumption about labels |
| Function.FunctionDiverges | mc09/mc.c:661-680 | When the body never ends, the compiled function runs on past every number of steps |
| Function.EpilogueAt | mc09/mc.c:938-990 | Each form of the return sequence, with and without locals or a value, reaches its PULS with that state |
| Function.PulsTakes | src/engine.c:640-648 | A return pulls A, B, X, U and PC from bytes that follow each other, without those that are not pulled |
| Function.FunctionLabels | mc09/mc.c:661-680 | Every label of a compiled function is introduced once |
| Compiler.Output.Gexpr | mc09/mc.c:1691-1874 | Printing while counting labels appends exactly the code whose correctness is proved, and leaves that label count and `control` |
| Compiler.Output.Bexpr | mc09/mc.c:1588-1660 | The same for conditions |
| Compiler.Output.Rindirect | mc09/mc.c:1971-2041 | The same for reading through a pointer |
| Compiler.Output.Store | mc09/mc.c:2042-2107 | The same for assignments |
| Compiler.Output.Assop | mc09/mc.c:2108-2159 | The same for compound assignments |
| Compiler.Output.Statement | mc09/mc.c:710-769 | The same for statements, and `blabel`, `clabel`, `cslabel` and `dlabel` are as before |
| Compiler.Output.DoSwitch | mc09/mc.c:875-896 | The same for switch, whose globals are saved and restored |
| Compiler.Output.DoCase | mc09/mc.c:902-930 | The loop that counts bytes down emits the comparisons with the right branch lengths |
| Compiler.Output.FunctionBody | mc09/mc.c:661-680 | The same for a whole function |
| Compiler.Compile | mc09/mc.c:661-680 | The text printed for a function, from an empty output, does on every call what the body means: it returns to the caller with its value and memory, or never stops if the body never ends |
| Emulator.Overflow8 | src/engine.c:150-152 | `(a^b^res^(res>>1))&0x80` is the overflow that the meaning of the byte instructions computes from signs and carry |
| Emulator.Overflow16 | src/engine.c:154-156 | The same for words, with bit 15 of a 32-bit result |
| Emulator.CountFlags | src/engine.c:752-757 | INC and DEC change the byte by one; V tells that the signed result does not fit, and C stays |
| Emulator.SumFlags | src/engine.c:154-156 | After ADDD, SUBD and CMPD, N and Z are the result's, V tells that the signed result does not fit, and C that the unsigned one does not |
| Emulator.NegateFlags | src/engine.c:150-152 | The same for NEGA, NEGB and SBCA with its borrow; the other accumulator stays |
| Emulator.ShiftFlags | src/engine.c:748-780 | ASLB and ROLA double a byte, with the carry into bit 0 for ROLA; C is the bit shifted out and V the signed overflow |
| Emulator.MoveFlags | src/engine.c:829-1240 | Loads, stores and logic set N and Z from the value, clear V and keep C |
| Emulator.ClearFlags | src/engine.c:601-800 | COM sets C, CLR clears it, both with V cleared; SEX extends the sign and keeps both |
| CodeBits.FlagChanged | src/engine.c:136-145 | Or-ing and and-ing the masks into the condition code byte changes that flag and no other |
| CodeBits.MaskIs | src/engine.c:147-156 | And-ing with a power of two keeps that bit in its place, on words of any length |
| Emulator.Processor.Condition | src/engine.c:611-626 | The masks that the branch instructions test, N exclusive-or V among them, decide the branch as its meaning does |
| Emulator.Processor.Execute | src/engine.c:594-1240 | With A and B apart, the flags as bits of one byte, and carry and overflow taken from a wide result, the updates are the instruction's meaning, for every instruction the compiler emits but jumps and calls |
| Exceptions.ConstantCondition | mc09/mc.c:1588-1660 | A constant condition is decided right if and only if the constant is zero or its low 16 bits are not |
| Exceptions.WideConstant | mc09/mc.c:1588-1660 | The constant 65536 is one that fails |
| Exceptions.CharAssignment | mc09/mc.c:2042-2159 | The value of an assignment or compound assignment to a char is that of the char stored if and only if the assigned value fits into a char, as D is not narrowed |
| Exceptions.WideChar | mc09/mc.c:2042-2107 | `c = 200` is one that does not: its value should be -56 |
| Exceptions.PointerAssignment | mc09/mc.c:2149-2155 | `*p op= e` with any operator that needs the library: the assignment has its meaning if and only if storing the result at the address that the routine leaves in X, and not at p, does no harm, byte by byte |
| Exceptions.HarmlessApart | mc09/mc.c:2149-2155 | For two words apart and outside scratch that means: both hold the result already |
| Exceptions.PointerFails | mc09/mc.c:2149-2155 | `*p *= 3` with p a global that points to a word 1 at 5 or above is one that fails: 3 should be stored at p |
| Declarators.LinksAreType | mc09/mc.c:446-495 | The links in the order in which a declarator is read, folded over a base type, are its C type |
| Declarators.Reverse | mc09/mc.c:512-523 | The loop turns round exactly the chain up to t1, by changing the second words of its cells and nothing else |
| Declarators.Parser.Declare | mc09/mc.c:446-523 | For every nested declarator, decl0 and decl1 and then reverse leave `type` as the C type over the base, return its name, stop after it, and change no cell that was in use; they fail if and only if the heap has less room than the type's cells and the constants of its array sizes take |
| Binop.BinopValue | mc09/mc.c:1426-1526 | For operands without side effects the tree that binop builds has the value that was meant: folding with signed and unsigned types, swapping with types, scaling by the pointed-to size, dropping factors of 1, moving constants into addresses; for constants, wherever folding on 32-bit host integers is defined and right |
| Binop.IntegersMeant | mc09/mc.c:1519-1525 | Division, remainder and shifts between integers are the unsigned ones if the first operand is unsigned, or if it is INT and the second is unsigned, else the signed ones |
| Binop.BuiltType | mc09/mc.c:1426-1526 | A pointer moved by an integer keeps its type, the difference of pointers is INT, integers give UNSIGNED if either is, and folded integers are INT |
| Binop.LateOnTheRight | mc09/mc.c:1478-1481 | Swapping puts a constant, or else a word variable, on the right where there is one, and changes nothing else |
| Binop.ErrorsAreTypes | mc09/mc.c:1426-1526 | Unless both operands are constants, a type error is reported exactly for operand types that do not fit |
| Binop.ScaledValue | mc09/mc.c:1426-1526 | An operand scaled by a size has size times its value, whichever tree that becomes |
| Binop.ConstantPointers | mc09/mc.c:1456-1464 | Folding the difference of two constant pointers is right for all of them if and only if the pointed-to size is 1 |
| Binop.FoldedExactly | mc09/mc.c:1465-1475 | Folding quotients, remainders and right shifts of a constant on 32-bit host integers is right for all second operands if and only if the target's type, signed or unsigned, holds the constant |
| Binop.DivisorExactly | mc09/mc.c:1465-1475 | Folding quotients and remainders by a constant is right for all first operands that fit if and only if the divisor fits or, for remainders, is a multiple of 2^16 or 2^15 with the sign that the type lacks |
| Collector.ExactlyReachable | LISP09/LISP09.txt:2652-2667 | A closed set that holds the roots and nothing unreachable is the set of reachable cells, cycles included |
| Collector.RootsAre | LISP09/LISP09.txt:2625-2648 | The roots are the values and property lists of all atoms, the function bodies that are not machine code, the words on the user stack below $8000, and CATCHL |
| Collector.Heap.Mark | LISP09/LISP09.txt:2652-2667 | Recursion on car and a loop on cdr mark exactly what was unmarked and reachable without passing marked cells, within four bytes of stack per cell |
| Collector.Heap.Marks | LISP09/LISP09.txt:2625-2648 | From atom values, property lists, function bodies, the user stack and CATCHL, marked means reachable |
| Collector.Heap.Collect | LISP09/LISP09.txt:2671-2687 | The sweep takes marks off and chains the unmarked cells, each once |
| Collector.Heap.Gbc | LISP09/LISP09.txt:2609-2621 | After a collection every reachable cell has its old contents unmarked, FREE lists every unreachable cell once, and their number is that of all cells less those in use; with enough stack it does not stop |
| Collector.Heap.New | LISP09/LISP09.txt:2596-2603 | A new cell was not reachable, and the rest of the free list is disjoint from what is; there is one if the free list is not empty and, with enough stack, otherwise exactly if three cells are unreachable |
| Collector.Heap.Cons | LISP09/LISP09.txt:2581-2589 | The new pair holds both values even if a collection was needed, everything in use is as before, and the heap is sound again; it is delivered under the same conditions, with the two values in use |
| Collector.FillPair | LISP09/LISP09.txt:2581-2603 | Filling an unused cell changes no reachable cell and makes only that cell reachable |
| Blocks.InsertCovers | mc09/mclibos9.c:594-611 | Insertion with merging on either side loses no unit and adds none |
| Blocks.PartitionFree | mc09/mclibos9.c:594-611 | Free and live blocks go on partitioning what sbrk gave when a block is freed |
| Blocks.PartitionTake | mc09/mclibos9.c:519-545 | And when one is taken |
| Allocator.Heap.Mfree | mc09/mclibos9.c:594-611 | The circle stays sorted, fully coalesced and linked in memory; exactly the block's units become free; other blocks keep their data; the search ends |
| Allocator.Heap.Slot | mc09/mclibos9.c:594-601 | The loop over the circle stops, at the block after which the freed one belongs |
| Allocator.Heap.Malloc | mc09/mclibos9.c:519-545 | A new block, disjoint from all live ones and zeroed, of the least number of units that hold a header and s bytes, or 0 when no free block holds them and less lies below the stack than every multiple of 128 units that does; data of live blocks is kept, memory grows only when no free block was large enough, and the search ends although morecore may merge into the cursor's block |
| Allocator.Heap.Morecore | mc09/mclibos9.c:557-592 | With sbrk it fails exactly when less lies below the stack than every multiple of 128 units from nu on; else there is room and the least such multiple was added |
| Allocator.Heap.Clear | mc09/mclibos9.c:547-553 | Everything in the block but its header is zeroed, and nothing else |
| Binding.UndoBind | LISP09/LISP09.txt:1578-1617 | UNBIND after BIND restores the stack and every bound atom's value, whatever was assigned between, repeated parameters included |
| Binding.ScopesNest | LISP09/LISP09.txt:1578-1617 | Any balanced nesting of bindings and assignments leaves the stack as it was and the values that dynamic scope says |
| Binding.Unbound | LISP09/LISP09.txt:1578-1609 | Atoms that are not parameters keep their values |
| Binding.BindGives | LISP09/LISP09.txt:1578-1609 | The same of binding the pairs of parameters and arguments, for lists of any length |
| Binding.Interpreter.Bind | LISP09/LISP09.txt:1578-1609 | On the words of the two lists: the i-th parameter that is an atom and that no later one repeats has the i-th argument as its value, or NIL when there are fewer, an atom at the end of the parameters has the list of the other arguments, and every other atom its old value; it fails if and only if what is pushed before the end of the parameter list is more than the user stack holds |
| Binding.Interpreter.Unbind | LISP09/LISP09.txt:1613-1617 | The loop down to the frame mark is the undoing of one frame |
| Bcd.DoubleExact | src/engine.c:597-603 | ADCA of a packed byte to itself and DAA give twice its decimal value plus the carry, with the carry out |
| Bcd.DoubleBuffer | basic/fbasic.asm:893-934 | The chain doubles the decimal number and adds a bit, for any number of bytes |
| Bcd.AddByte | basic/fbasic.asm:893-934 | Eight rounds append a binary byte to the number |
| Bcd.Int2Bcd | basic/fbasic.asm:893-934 | The buffer ends as the decimal form of the binary number modulo its size |
| Bcd.DigitsOf | basic/fbasic.asm:893-934 | Byte i holds the two decimal digits at its place |
| Bcd.FiveBytesSuffice | basic/fbasic.asm:893-934 | A 32-bit number fits into five bytes |
| FloatMul.KeptError | basic/fbasic.asm:411-507 | The dropped partial products are worth less than five units of the fifth byte |
| FloatMul.NormalError | basic/fbasic.asm:508-529 | Shifting and rounding keep the result normalized and within half a unit in the last place and five units of the fifth byte |
| FloatMul.Products | basic/fbasic.asm:411-507 | The rows of MUL instructions and additions compute exactly the kept products, without overflowing their bytes |
| FloatMul.Exponents | basic/fbasic.asm:400-410 | The biased exponents are added modulo 256 and the overflow flag tells exactly the sums outside a byte, and which side |
| FloatMul.Fpmul | basic/fbasic.asm:382-529 | The whole routine, in the values of the numbers before and after: the result is within one unit in its last place of the product; it is zero when an operand is or the exponent bytes add up to less than $80, and then the product is below 2^-127; it stops only when the product is at least the largest number, and always when it is 2^128 |
| FloatMul.ProductValue | basic/fbasic.asm:382-529 | What the exact bytes that the routine leaves mean in these values: mantissa times two to the power of the exponent byte less $80 |
| FloatMul.WithinOneUlp | basic/fbasic.asm:382-529 | That result is within one unit in the last place of the exact product |
| FloatMul.FpmulError | basic/fbasic.asm:382-529 | The sharper bound: half a unit upwards, half a unit and five units of the dropped byte downwards |
| FloatMul.ReadsAsZero | basic/fbasic.asm:251-256 | A result whose exponent byte is zero reads back as zero exactly when it is the positive power of two |
| Xmodem.InvStep | src/io.c:147-294 | Every poll, delivery and spoiled reply keeps the two halves in one of the states of the protocol |
| Xmodem.Transfer | src/io.c:147-294 | In every run the received file is a whole number of blocks of the padded file, none lost or doubled, and all of it when the receiver has closed |
| Xmodem.NeverStuck | src/io.c:147-294 | From every state that can be reached with the receiver still open, the transfer can be completed on both sides |
| Xmodem.SenderCloses | src/io.c:171-206 | Once the receiver has closed, the sender can close if and only if it has already or an ACK is on its way: after a spoiled reply to EOT no run makes it close |
| Xmodem.NumbersDiffer | src/io.c:247-294 | Neighbouring block numbers differ although they wrap around |
| Xmodem.PacketLayout | src/io.c:182-194 | A block is SOH, its number, the number's complement, 128 bytes and the sum of these modulo 256 |
| Xmodem.BlockReply | src/io.c:274-291 | At its last byte a block is answered with ACK if it is laid out like that, else with NAK, and is written if it has the expected number |
| Xmodem.NextBlock | src/io.c:176-206 | After an ACK, or the first NAK, the sender starts the next block with the next 128 bytes, zeros after the end, or sends EOT at the end of the file |
| Xmodem.SenderStops | src/io.c:249-268 | The sender closes on CAN and on an ACK of its EOT, and on nothing else |
| Xmodem.PaddedIs | src/io.c:178-180 | The padded file is the file and fewer than 128 zeros, a whole number of blocks |
| Xmodem.Port.CharInput | src/io.c:147-221 | The port's variables follow the sender's and the receiver's step |
| Xmodem.Port.DoOutput | src/io.c:247-294 | The same for bytes written to the port |
| SRecords.RecordLoads | src/makerom.c:41-70 | A record as the assembler prints it passes the checksum and stores its bytes at its address and nothing else |
| SRecords.ChecksumFits | src/a09.c:870-883 | The checksum byte brings the sum of the record to $FF |
| SRecords.LineOutcome | src/makerom.c:22-70 | The same of a line's meaning: the exit that its bytes decide |
| SRecords.WrongDigit | src/makerom.c:65-68 | A written record with one other digit in its data or its checksum is a checksum error |
| SRecords.Writer.FlushHex | src/a09.c:870-883 | Flushing adds a line that loads as the buffered bytes, and moves the address on |
| SRecords.Writer.OutHex | src/a09.c:885-891 | Loading the lines and then the buffer is the image with one byte more |
| SRecords.WriteAll | src/a09.c:870-891 | Any sequence of address changes and bytes in $8000..$FFFF, from the address 0 that the assembler starts with, is rebuilt by the ROM builder exactly, with $FF elsewhere |
| SRecords.Builder.ReadLine | src/makerom.c:22-70 | An S1 line is accepted if and only if its bytes can be read, its count is at least 3, its addresses lie in $8000..$FFFF and its bytes add up to $FF modulo 256; then exactly its bytes are stored; and which error exit each other line takes |
| SRecords.Builder.Build | src/makerom.c:41-70 | A file is built if and only if every S1 line is accepted; then each byte of the image is that of the last record that has it, and $FF where none has |
| Crc.TableEntry | src/os9crc.c:12-43 | Each of the 256 table entries is what the shifts make of its index |
| Crc.StepsAgree | src/os9crc.c:45-50 | The two steps agree on the low 24 bits for every byte and checksum |
| Crc.MessagesAgree | os9/crc.c:5-36 | So both compute the same checksum of every message |
| Crc.TrailerResidue | src/a09.c:1225-1233 | Whatever the checksum was, appending its complement drives it to $800FE3 |
| Crc.ModuleIsGood | src/a09.c:1225-1233 | Every module that the assembler ends checks good, whatever its content |
| Crc.BurstDetected | os9/crc.c:12-36 | A change within three bytes in a row always changes the checksum |
| Crc.DamageIsFound | os9/crc.c:5-36 | A change within three bytes in a row that keeps the size field makes a good module bad if and only if it changes a counted byte, also where it straddles the end of the counted bytes |
| Crc.HeaderParity | src/a09.c:1195-1223 | The ninth byte makes the header's parity $FF, so that each bit is in an odd number of its bytes |
| Crc.ParityBits | os9/crc.c:39-49 | Bit k of the parity tells whether an odd number of bytes have it |
| Crc.Shift | os9/crc.c:12-30 | The in-place round on three bytes is the shift step |
| Crc.Os9Crc | os9/crc.c:5-36 | The checker says good exactly when the checksum of the counted bytes is the residue |
| Crc.Os9Header | os9/crc.c:39-49 | The loop computes the parity of nine bytes |
| Crc.OutBuffer | src/a09.c:893-901 | Updating byte by byte is the table-driven checksum of the code |
| Editor.EditIsUpdate | basic/basic.asm:120-202 | An edit keeps the lines strictly sorted and is delete, insert or replace on the table of lines |
| Editor.ListingHas | basic/basic.asm:120-202 | The table holds exactly the lines |
| Editor.AreaBytes | basic/basic.asm:561-582 | In the program area each line is its number, high byte first, its text and a byte 4, and the next follows at once |
| Editor.TrimmedIs | basic/basic.asm:150-202 | What is dropped from the end of a typed text is spaces only, and all of them |
| Editor.Basic.FindLine | basic/basic.asm:561-582 | The search stops at the first line whose number is not below the one sought, line numbers with an EOL byte included |
| Editor.Basic.Locate | basic/basic.asm:120-131 | The same from CURSOR when the line there is not past the number |
| Editor.Basic.Remove | basic/basic.asm:133-149 | Closing the gap leaves the encoded program without the line |
| Editor.Basic.Insert | basic/basic.asm:150-202 | Opening a gap and copying leaves the encoded program with the line, or everything as it was when there is no room |
| Editor.Basic.Edit | basic/basic.asm:120-202 | The memory is again the gap-free encoding of the edited program; it fails exactly when the program without the old line leaves too little room for the new one, and then the old line is gone |
| Interrupts.EnterReturn | src/engine.c:251-271 | A handler that ends with its entry's S and has kept memory from there on: RTI restores S, PC, CC but E, memory above, and every register the entry saved; the others are the handler's |
| Interrupts.EntryMeans | src/engine.c:251-271 | Which byte of the stack holds what after each kind of entry, which flags are saved and which the handler starts with, bit by bit, and which vector PC comes from |
| Interrupts.RomKept | src/engine.c:251-271 | Wherever the stack lies, an entry leaves memory that is not RAM as it is |
| Interrupts.FastEntry | src/engine.c:262-271 | FIRQ entry leaves the registers it does not save |
| Interrupts.RunKeeps | src/engine.c:677-688 | Any properly nested run of interrupts and register work leaves S and memory above it as they were |
| Interrupts.NestedReturn | src/engine.c:710-726 | So however interrupts nest in a handler, its RTI resumes the interrupted program |
| Interrupts.Processor.Accept | src/engine.c:251-271 | Pushing register by register is the entry of IRQ, FIRQ and each SWI |
| Interrupts.Processor.ReturnFromInterrupt | src/engine.c:677-688 | Pulling CC first and then as E says is the return |

## Left out

- Flags after library calls and the half-carry flag are not modelled in compiled code; the half-carry is modelled where DAA uses it.
- Memory in the compiler's model is plain RAM: no ROM, memory-mapped input and output, or memory management unit.
- Function calls, string literals, functions as values, goto and labels, inline assembly, and the lexer and parser of expressions and statements.
- Case labels inside nested statements of a switch body, and a switch body that does not start with a case or default.
- Expression trees are datatypes, not cells of the compiler's heap; only `Declarators` works on heap cells.
- Labels and code are data; assembling the printed text is left out, and only the branches of case groups have their length computed.
- StmtProof.StmtCorrect: a statement is compiled with `control` on at its start; a statement after a jump, which nothing reaches, is covered as part of the sequence that it stands in.
- Function.FunctionCorrect: claims nothing when the body overwrites its own saved U or return address through a pointer, which the source's meaning cannot see.
- ExprCorrect.CorrectE: leaves out compound assignment through a pointer with a library operator and constants in conditions that are multiples of 2^16 other than zero; `Exceptions.PointerAssignment` and `Exceptions.ConstantCondition` say exactly when those are right. The value of a char assignment used as an expression is taken as D holds it; `Exceptions.CharAssignment` says exactly when that is the char's.
- Binop.BinopValue: division, remainder and right shift of two constants for the constants with which folding is right, as `Binop.FoldedExactly` and `Binop.DivisorExactly` say for 32-bit host integers; shifts of constants by less than 32, as the host's are undefined beyond; host integers are unbounded elsewhere, and a folded bitwise result is compared by its low 16 bits.
- Emulator.Processor.Execute: indexed operands are given by their mode, not decoded from a post-byte, and the program counter, jumps and calls are those of `Program`.
- Declarators.Parser.Declare: declarators that are well formed; the error exits, parameter names entering the name table, and array sizes that are expressions other than one constant are left out.
- Allocator.Heap.Malloc: sizes are unbounded, so a request whose rounded byte count exceeds 16 bits is left out; memory is counted in headers, of two words each, and no other routine moves the heap pointer below the stack.
- Collector.Heap.Gbc: the messages and the jump out of the interpreter when the stack or the cells run out are results of the method; the words inside number cells are not interpreted.
- Binding.Interpreter.Bind: the error exit on a full user stack is a false result.
- FloatMul.Fpmul: the jump to the overflow message is a false result; addition, division and the transcendental functions are left out.
- Bcd.Int2Bcd: the source's five unrolled groups are a loop, for any number of bytes.
- Xmodem.Transfer: data bytes arrive as sent, as the receiver does not reject a block with a bad checksum once its number matches; CAN, file errors and the terminal outside a transfer are left out.
- SRecords.Builder.ReadLine: lines that fit the reader's buffer; S9 records are ignored as the reader ignores them.
- Editor.Basic.Edit: the line number and the typed text are given, the skipping of spaces before them and the stack test's bound are parameters, and a typed line is shorter than the input buffer.
- Interrupts.EnterReturn: CWAI, NMI and reset are left out.
- Terminal set-up, disk images, the debugger, the disassembler, command lines, the assembler's expressions and symbol table, and the second copies of the compiler and the allocator.
