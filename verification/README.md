# muforth: machine, compiler, dictionary and libraries

A Dafny model of muforth, a small indirect-threaded Forth whose kernel is written in C
(`src/`) and whose compiler, exceptions and number words are written in Forth
(`mu/startup.mu4`). It states what the words compute, step by step as the source does, and
proves what they are for.

- **The machine.** `Cells`, `Machine`, `Inner` and `Engine`: 64-bit cells, the two stacks,
  the heap of cells, the C routines of `src/engine-itc.c`, and `mu_execute` with its nested
  NEXT loops. The nested loops are one flat loop. `KernelWords` says what the data-stack
  words compute.
- **The compiler.** `Control` and `CompilingWords` are the compiling words with their
  compile-time stack and back-patched branches; `Structured` says what a well-nested text
  means; `CompilerCorrect` and `Program` show that the cells compiled for any text run as it
  means; `LoopCounts` counts the rounds of every loop.
- **Frames and exceptions.** `Image` holds the threaded code of `link` to `room` and of
  `catch`, `throw` and `unwind` as cells; `Steps`, `WordCells`, `FrameData` and `FrameWords`
  run it; `Unwinding`, `Protocol` and `Exceptions` show what every run of it keeps and
  restores, whatever words are filed as cleanups, such as those in `Cleanups`, and whatever
  code runs between, such as that in `Moves`; `ImageCompiled` ties the two branching words to the compiler.
- **The dictionary.** `Bytes`, `Dictionary`, `DictionaryProofs`, `DictionaryRuns` and
  `DictionaryHeap`: names laid down backwards in a byte heap, chains anchored to chains, and
  the search; `DictionarySpace`: the room that comma and allot take.
- **Numbers.** `Numbers`, `NumberNotation`, `NumberText` and `NumberWords`: `number?` and its
  notation, pictured output, and the round trip. `Scaled` and `ScaledText`: fixed point on top.
- **Libraries.** `IntelHex` and `IntelHexWords`; `Words`, `Polynomials`, `CrcCode` and
  `CrcTheorems`; `Lfsr`; `Sieve`; `Terminal`, `History`, `EditLine` and `Keys`;
  `Conditional`;
  `SourceText`; `Utf8`; `BigNum`.

Where the source changes state step by step there is a class or a method with loops, proved
against a specification function; what the source promises is then proved of that function.

Where the code falls short of what a reader might expect, it is shown exactly when:

- `number?` takes `{` and the characters above it for digits once the radix is above 26, so
  it accepts exactly its notation if and only if the radix is at most 26
  (`Numbers.ExactUpToRadix26`).
- The fixed-point conversions give back every number they have room for if and only if there
  are at most eight decimal places, though the documentation speaks of "8 or 9 significant
  digits" (`mu/lib/scaled.mu4`, lines 126-129); and what `n.f` prints with no places at all
  ends in a dot that `number?` refuses (`Scaled.ExactToEightPlaces`, `Scaled.ExactPlaces`,
  `ScaledText.PointReadsBack`).
- `+loop` counts the distance over the step if and only if the distance does not pass 2^63
  (`LoopCounts.PlusTripsUp`, `LoopCounts.PlusTripsDown`).
- The Forth CRC agrees with the C one if and only if bits 16 to 27 of the value it starts
  from are clear (`CrcTheorems.ForthExact`).
- `d+` and `dnegate` take half of each 64-bit cell, and are right if and only if the other
  half has nothing to do (`BigNum.DPlusExact`, `BigNum.DNegateExact`).
- Intel hex files come back to their addresses if and only if every record starts in the
  64 KiB window at the base (`IntelHex.HexExact`).
- A character comes back from UTF-8 if and only if it is below 2^21 (`Utf8.FetchedAsItself`).
- Skipping `.ifdef` and its name goes right if and only if the name neither opens nor closes
  a conditional (`Conditional.TestSkipped`).

## Model

| member | source | states |
|---|---|---|
| `Inner.NestedExecute` | src/engine-itc.c:45-54 | a nested run that ends has used at least one CALL of its budget |
| `Inner.RunSplits` | src/engine-itc.c:52-53 | a NEXT loop bounded by an outer saved RP is a loop bounded by any inner one, carried on by the outer from wherever the inner stopped |
| `Inner.NestedIsFlat` | src/engine-itc.c:45-54 | for every state and budget, re-entrant mu_execute loops and one flat NEXT loop end in the same state, after the same number of CALLs, or are both still about to make the same CALL, or both fault, also when words pop or reset RP past an inner saved RP |
| `Inner.SameCalls` | src/engine-itc.c:43-53 | the n-th CALL is the same, from the same state, in both machines |
| `Engine.VM.DoColon` | src/engine-itc.c:60-64 | NEST on the fields of the machine is exactly the specified routine |
| `Engine.VM.Do` | src/engine-itc.c:148-154 | pushes leave address, limit and start minus limit, as the specified routine |
| `Engine.VM.PlusLoop` | src/engine-itc.c:165-175 | the crossing test on the signs of the index before and after, as the specified routine |
| `Engine.VM.Next` | src/engine-itc.c:120-126 | decrement, and branch or skip and drop the counter, as the specified routine |
| `Engine.VM.Perform` | src/engine-itc.c:60-215 | every C routine of the engine and the memory words, each done step by step on the fields, and every data-stack word of the kernel, each one expression, has the effect specified for it |
| `Engine.VM.Execute` | src/engine-itc.c:45-54 | the loop with its saved RP leaves the machine where the nested specification, and so one flat NEXT loop, leaves it |
| `KernelWords.StackWords` | src/kernel.c:83-89 | dup, over, swap, drop and 2drop keep, copy and drop the cells their stack comments show, in that order |
| `KernelWords.SumWords` | src/kernel.c:14-22 | +, *, negate and 2* leave the right number modulo 2^64 |
| `KernelWords.StarIsUnsigned` | src/kernel.c:116-120 | one star serves: read as unsigned numbers the product is right modulo 2^64 too, which the source asks to have proved |
| `KernelWords.HalfWord` | src/kernel.c:23 | 2/ leaves the half, rounded down, of negative numbers too |
| `KernelWords.CompareWords` | src/kernel.c:92-96 | <, u<, 0< and 0= leave -1 for true and 0 for false, the number pushed first being on the left |
| `KernelWords.LessIsFlippedULess` | src/kernel.c:92-93 | < is u< of the numbers with their sign bits flipped and all other bits as they were |
| `KernelWords.LogicWords` | src/kernel.c:15-20 | and, or, xor and invert work on each of the 64 bits by itself |
| `KernelWords.BitsDetermine` | src/kernel.c:15-20 | the 64 bits are all there is to a cell |
| `KernelWords.OneCellAway` | src/engine-itc.c:200-202 | what >r puts away r> brings back, r@ copies and rdrop drops |
| `KernelWords.TwoCellsAway` | src/engine-itc.c:204-206 | the same for 2>r, 2r>, 2r@ and 2rdrop; one by one the top cell comes off first |
| `Control.Produces` | mu/startup.mu4:305-337 | for every well-nested tree the compiling words run to the end, consume exactly their own marks, and leave the compile-time stack as it was |
| `Control.Compiles` | mu/startup.mu4:305-337 | emitting the tokens of a tree appends exactly its layout, with every forward and backward branch resolved |
| `CompilingWords.Compiler.Then` | mu/startup.mu4:313 | storing here at the marked cell is the specified resolution |
| `CompilingWords.Compiler.Else` | mu/startup.mu4:318 | a branch is marked and the earlier source resolved behind it |
| `CompilingWords.Compiler.EmitToken` | mu/startup.mu4:313-337 | each compiling word, on the heap array and stack, does what its specification says |
| `CompilingWords.Compiler.CompileText` | mu/startup.mu4:305-337 | compiling a text in place, with just the room its layout takes, appends that layout at here and leaves stack and earlier heap alone |
| `CompilerCorrect.TestRuns` | src/engine-itc.c:100-102 | the three conditional branches take or skip as if, =if and ?if mean, dropping the flag as each should |
| `CompilerCorrect.NextRuns` | src/engine-itc.c:120-126 | next ends the round or goes back with the count lowered |
| `CompilerCorrect.LoopRuns` | src/engine-itc.c:156-175 | loop and +loop end or go back, and RP drops the three cells only at the end |
| `CompilerCorrect.SimLeavers` | src/engine-itc.c:178-188 | leave, ?leave and exit go where the structure says, with the return stack as it was outside |
| `CompilerCorrect.SimWhileUntil` | mu/startup.mu4:320-327 | begin with a while closed by until and then behaves as its two exits say |
| `CompilerCorrect.SimFor` | mu/startup.mu4:331-332 | for .. next as laid out runs like the structural loop |
| `CompilerCorrect.SimDo` | mu/startup.mu4:335-337 | do .. loop and do .. +loop as laid out run like the structural loop |
| `CompilerCorrect.SimExecute` | src/engine-itc.c:45-54 | execute of a kernel word (^, leave, ?leave and execute itself included) or of a word of the program does what that word standing in the text would |
| `CompilerCorrect.SimColon` | src/engine-itc.c:60-64 | a compiled word runs like its tree and returns to its caller |
| `CompilerCorrect.Simulates` | src/engine-itc.c:60-215 | for every tree of control structures, kernel words, execute and calls of colon and does> words, and every budget, the cells it compiles to and the structural evaluator end in the same data stack, memory and return-stack depth, at the end of the cells, at the leave address, or at the return, or both run on |
| `Program.DefineLoaded` | mu/startup.mu4:305-337 | a definition made by the compiling words is a word of the program that the machine runs, and earlier ones still are |
| `Program.ExecutesProgram` | src/engine-itc.c:45-54 | mu_execute of a compiled colon word, or of a word with a compiled does> clause, ends in the state the evaluator of its text gives, RP and IP as before, or is still running |
| `Program.TargetsResolved` | mu/startup.mu4:305-310 | in the layout of any tree every branch cell holds an address inside the layout or at its end: none is left unresolved |
| `LoopCounts.ForRunsCount` | src/engine-itc.c:104-126 | for runs its body exactly the unsigned value of its count, with the counts down to 1 on the return stack, and zero skips it |
| `LoopCounts.LoopRunsTrips` | src/engine-itc.c:148-163 | do .. loop runs (limit - start) mod 2^64 rounds, 2^64 when that is zero, unless left; i is start + k in round k; the return stack is as before afterwards |
| `LoopCounts.IndexWords` | src/engine-itc.c:195-197 | in such a round i is the sum of offset and limit, and j and k are those of the loops around it |
| `LoopCounts.PlusLoopRunsTrips` | src/engine-itc.c:165-175 | with a constant step, +loop runs PlusTrips rounds unless left; i is start + k * step in round k; the return stack is as before afterwards |
| `LoopCounts.PlusCrossing` | src/engine-itc.c:165-175 | the offset keeps its sign up to the last round, and the last round changes it |
| `LoopCounts.PlusTripsUp` | src/engine-itc.c:165-175 | from a start below the limit with a positive step, the rounds are the distance over the step, rounded up, if and only if the distance is at most 2^63 |
| `LoopCounts.PlusTripsDown` | src/engine-itc.c:165-175 | from the limit or above with a negative step, they are the distance over the step, rounded down, plus one, if and only if the distance is below 2^63 |
| `LoopCounts.ZeroStepNeverStops` | src/engine-itc.c:165-175 | a step of zero never ends a +loop |
| `FrameWords.LinkRuns` | mu/startup.mu4:714-716 | link pushes the cleanup word and the old fp and makes fp point there |
| `FrameWords.PreserveRuns` | mu/startup.mu4:813-818 | preserve saves value and address in a new frame and makes the caller return through remove |
| `FrameWords.OnExitRuns` | mu/startup.mu4:830-836 | on-exit files its value and routine in a new frame |
| `FrameWords.OnExit2Runs` | mu/startup.mu4:845-851 | on-exit2 files both values and its routine in a new frame, in order |
| `FrameWords.RoomRuns` | mu/startup.mu4:870-881 | room makes the cells and a frame that will drop exactly as many |
| `FrameWords.CatchEnterRuns` | mu/startup.mu4:742-746 | catch of a colon or does> word saves its return address and the old cf, points cf there and enters the word |
| `FrameWords.CatchReturnsRuns` | mu/startup.mu4:742-748 | catch of any word that returns by itself, a C routine too, does what the word does and leaves zero and cf as before |
| `FrameWords.CatchReturnRuns` | mu/startup.mu4:747-748 | the word caught returns: cf is as before and zero is pushed |
| `FrameWords.ThrowRuns` | mu/startup.mu4:774-780 | a non-zero throw continues behind the innermost catch with the error on the stack and undoes nothing |
| `FrameWords.ThrowZeroRuns` | mu/startup.mu4:774-775 | throw of zero drops it and goes on |
| `FrameWords.UnlinkRuns` | mu/startup.mu4:723-726 | unlink takes the newest frame off and runs its cleanup, whichever kind it is; a filed routine may be any word that returns with its arguments dropped, and may store into user memory |
| `Unwinding.UnwindRuns` | mu/startup.mu4:791-800 | unwind runs the cleanups of all frames above the innermost catch once each, newest first, each on the memory the one before it left, however they are nested with plain cells, then restores fp, cf and RP to what they were when catch was called |
| `Unwinding.ReturnThroughFrame` | mu/startup.mu4:728 | a normal return with a frame on top runs its cleanup once, restores fp, and returns on |
| `Protocol.StepBalanced` | mu/startup.mu4:705-881 | after any act the cleanups run and those still to be run are, as a multiset, the ones asked for |
| `Protocol.RunBalanced` | mu/startup.mu4:705-881 | ... and after any run of acts |
| `Protocol.UndoneIs` | mu/startup.mu4:807-818 | undoing all frames gives a variable the value it was first preserved with, or else the one it has, if every filed routine that may store into it is newer than a frame that preserves it |
| `Protocol.StepKeeps` | mu/startup.mu4:705-881 | no act changes that value, unless it stores into the variable, or files a routine that may, with no frame preserving it |
| `Protocol.RunKeeps` | mu/startup.mu4:705-881 | ... nor does any run of such acts |
| `Exceptions.PreserveRealizes` | mu/startup.mu4:813-818 | the threaded code of preserve carries out its act on the stack of frames |
| `Exceptions.OnExitRealizes` | mu/startup.mu4:830-836 | on-exit carries out its act, with any routine that meets its contract |
| `Exceptions.OnExit2Realizes` | mu/startup.mu4:845-851 | so does on-exit2 |
| `Exceptions.RoomRealizes` | mu/startup.mu4:870-881 | room carries out its act |
| `Exceptions.ReturnRealizes` | mu/startup.mu4:723-728 | a return through remove carries out its act |
| `Exceptions.EnterCatchRealizes` | mu/startup.mu4:742-746 | a nested catch of a colon or does> word carries out its act |
| `Exceptions.LeaveCatchRealizes` | mu/startup.mu4:747-748 | leaving a catch normally carries out its act |
| `Exceptions.ThrowRealizes` | mu/startup.mu4:774-780 | throw leaves every frame in place and goes to the innermost catch |
| `Exceptions.SecondThrowSameCatch` | mu/startup.mu4:774-780 | without unwind, a second throw goes to the same catch, not an outer one |
| `Exceptions.UnwindRealizes` | mu/startup.mu4:791-800 | unwind to a catch made inside the run leaves all older frames as they were |
| `Exceptions.CatchStarts` | mu/startup.mu4:742-746 | a run may start at catch in any context |
| `Exceptions.SetCellLays` | mu/startup.mu4:870-881 | replacing a plain cell or a local cell, however deep, changes that cell of the return stack and no frame or link |
| `Exceptions.MovesRealize` | mu/startup.mu4:705-881 | any sequence of frames made and returned through, catches entered and left, throws and unwinds, and between them any code that puts cells on the return stack, takes them off or changes them, any number at once, stores into memory or calls out, is one run of the machine that ends in the configuration the acts lead to |
| `Exceptions.UnwindRestoresCatch` | mu/startup.mu4:733-800 | from catch through any such sequence and unwind is one run of the machine; it restores the return stack, fp and cf and every variable looked after by preserve, and has run each cleanup asked for exactly once, those still due newest first |
| `Moves.DoMoves` | src/engine-itc.c:148-154 | one CALL of (do) is such a move, of three cells |
| `Moves.LoopMoves` | src/engine-itc.c:156-163 | so is (loop), which changes the index or takes three cells off |
| `Moves.PlusLoopMoves` | src/engine-itc.c:165-175 | and (+loop) |
| `Moves.LeaveMoves` | src/engine-itc.c:178-182 | and leave |
| `Moves.TwoToRMoves` | src/engine-itc.c:205 | and 2>r |
| `Moves.TwoRFromMoves` | src/engine-itc.c:206 | and 2r> |
| `Moves.LocalStoreMoves` | mu/startup.mu4:870-881 | a store by address into a cell that room made is a move that changes that cell |
| `Moves.CatchMoves` | mu/startup.mu4:742-748 | a whole catch of any word that returns by itself, a C routine too, is a move: its stores and its calls |
| `Cleanups.OutsideCleans` | mu/startup.mu4:830-836 | a C routine that takes its arguments meets the contract of a filed routine |
| `Cleanups.AddLinesCleans` | mu/startup.mu4:1383-1384 | so does the colon word add-lines-read, which stores lines-read and reads line |
| `Cleanups.LinesCounted` | mu/startup.mu4:1423-1426 | as raw-load-file nests them, the lines of the file are counted before line gets back its old value |
| `ImageCompiled.ThrowCompiled` | mu/startup.mu4:774-780 | the cells of throw used above are what the compiling words make of its text |
| `ImageCompiled.UnwindCompiled` | mu/startup.mu4:791-800 | the cells of unwind used above are what the compiling words make of its text |
| `DictionaryProofs.NewNameStored` | src/dict.c:219-264 | a new entry holds the first 255 bytes of its name, its length or zero if hidden, and its link, cell aligned, and changes nothing below the heap pointer |
| `DictionaryProofs.UnlinkedNameKeeps` | src/dict.c:291-301 | making a name keeps the dictionary well formed, and no chain has the name yet |
| `DictionaryProofs.ShowKeeps` | src/dict.c:307 | show keeps the dictionary well formed and puts the last name at the front of its chain |
| `DictionaryProofs.ChainKeeps` | mu/startup.mu4:601-607 | chain, sealed or anchored, makes an empty chain with a hidden head, shows its name, and keeps all else |
| `DictionaryProofs.LinkedNameKeeps` | src/dict.c:272-276 | new_linked_name is making a name and showing it at once |
| `DictionaryProofs.CommaKeeps` | src/dict.c:144 | comma keeps the dictionary |
| `DictionaryProofs.AllotKeeps` | src/dict.c:147-152 | allot leaves every entry and chain as it was |
| `DictionarySpace.AllotTakes` | src/dict.c:147-152 | allot takes at least the bytes asked for and less than a cell more, and the heap pointer stays aligned |
| `DictionarySpace.CommaTakes` | src/dict.c:139-144 | comma takes one cell and puts the number there |
| `DictionarySpace.ReservedStays` | src/dict.c:147-152 | after any run of name creation, show, comma, allot and new chains, bytes that were allotted lie inside the heap, apart from every entry, and hold what they held |
| `DictionarySpace.CompiledStays` | src/dict.c:139-144 | so does a cell that comma filled |
| `DictionaryRuns.StepKeeps` | src/dict.c:144-307 | each operation keeps entries apart, names in place, and chains growing only at the front |
| `DictionaryRuns.RunKeeps` | src/dict.c:144-307 | ... and so does every run of operations |
| `DictionaryRuns.LinkToName` | mu/startup.mu4:394 | link>name gives exactly the name that was stored, and nothing for a chain head |
| `DictionaryRuns.NameComesBack` | src/dict.c:219-264 | a name just made comes back from its link, the first 255 bytes of it, and its link leads to the newest name shown |
| `DictionaryRuns.EntriesDisjoint` | src/dict.c:219-264 | any two entries are disjoint, cell aligned and inside the allotted heap |
| `DictionaryRuns.NewestMatchFound` | src/dict.c:177-209 | a search answers with the first match among the names visible from the chain, and with nothing exactly when there is none |
| `DictionaryRuns.OnlyVisibleFound` | src/dict.c:187-192 | chain heads and names not shown are never found |
| `DictionaryRuns.SameStringIsEquality` | src/dict.c:167-168 | comparing as strncmp does is equality of names without zero bytes |
| `DictionaryRuns.CaselessEquality` | src/dict.c:157-168 | ignoring case, equality letter by letter, for names without zero bytes |
| `DictionaryRuns.VisibleSplits` | src/dict.c:177-209 | what a chain sees is what comes before an anchor chain followed by all that the anchor chain sees now |
| `DictionaryRuns.ShowIsSeen` | src/dict.c:307 | a name shown is at once visible from every chain anchored to its chain, in its place, and from no other |
| `DictionaryHeap.Heap.NewName` | src/dict.c:219-264 | clearing, copying, setting length and link in the byte array gives the specified entry |
| `DictionaryHeap.Heap.UnlinkedName` | src/dict.c:291-301 | the whole new state, well formed |
| `DictionaryHeap.Heap.Show` | src/dict.c:307 | the whole new state, well formed |
| `DictionaryHeap.Heap.Chain` | mu/startup.mu4:601-604 | the whole new state, well formed |
| `DictionaryHeap.Heap.Find` | src/dict.c:177-209 | the link-following loop over bytes ends, also across anchors that lead up to newer names, and answers with the specified search |
| `DictionaryHeap.Heap.NewLinkedName` | src/dict.c:272-276 | the whole new state, well formed |
| `DictionaryHeap.Heap.NewChain` | src/dict.c:412-417 | a public name and a hidden head with an empty chain |
| `DictionaryHeap.Heap.InitChain` | src/dict.c:424-439 | the chain is anchored and shows the built-in words, newest first |
| `DictionaryHeap.Heap.InitDict` | src/dict.c:470-507 | from an empty heap: the four chains anchored as described, well formed, with the chain names themselves on .forth. |
| `Numbers.DigitsTaken` | mu/startup.mu4:948-957 | digit? takes exactly the digits below the radix, and the characters from the open brace up that are junk below it |
| `Numbers.NumeralAccepted` | mu/startup.mu4:1000-1005 | every [prefix][-]digits(punct digits)* is accepted in any non-negative radix, with its value modulo 2^64 and dpl the count of digits after the last dot, or -1 |
| `Numbers.NumeralFound` | mu/startup.mu4:1000-1005 | up to radix 26 whatever is accepted is such a text |
| `Numbers.ExactUpToRadix26` | mu/startup.mu4:948-957 | number? accepts exactly the notation, for all texts, if and only if the radix is at most 26 |
| `NumberNotation.PrefixReads` | mu/startup.mu4:926-932 | a quote or $ reads the text of (.) in radix 16, an apostrophe in radix 8, # in 10 and % in 2, whatever the current radix |
| `NumberNotation.PrefixReadsUnsigned` | mu/startup.mu4:926-932 | the same for the text of (u.) |
| `NumberNotation.NoPrefix` | mu/startup.mu4:926-932 | any other first character leaves the radix alone |
| `NumberNotation.HyphenNegates` | mu/startup.mu4:920 | a hyphen in front negates |
| `NumberNotation.MarkJoins` | mu/startup.mu4:938-944 | two groups of digits with one of . , - / : _ between them are one number, and only the dot counts places |
| `NumberNotation.MarkRefused` | mu/startup.mu4:938-944 | any other character between them that is not a digit is refused, up to radix 26 |
| `NumberNotation.PrintedPlaces` | mu/startup.mu4:1187-1266 | (u.) prints a comma in every fourth place from the right in radix 10, an underline in every fifth in another radix, and digits elsewhere |
| `NumberNotation.DigitLooks` | mu/startup.mu4:1189-1192 | digits are printed as 0 to 9 and then in lower case |
| `NumberWords.Reader.Prefix` | mu/startup.mu4:926-932 | each prefix character selects its radix |
| `NumberWords.Reader.Dot` | mu/startup.mu4:938-944 | each punctuation character is taken, and only a dot resets dpl |
| `NumberWords.Reader.ToNumber` | mu/startup.mu4:980-981 | the digit loop goes as far as digits do, with the accumulator and dpl of a scan of them |
| `NumberWords.Reader.Number` | mu/startup.mu4:1000-1005 | the radix is as before on success and failure; success, value and dpl are those of the notation; a refused text stops at the first character that cannot go on |
| `NumberText.SeparatorPlaces` | mu/startup.mu4:1252-1254 | counted from the right, every fourth place is a comma in radix 10, every fifth an underline otherwise, and all others are digits |
| `NumberText.UnsignedRoundTrip` | mu/startup.mu4:1259 | number? of the text of (u.) is the same cell, in radix 2 to 36, with and without separators |
| `NumberText.SignedRoundTrip` | mu/startup.mu4:1265 | number? of the text of (.) is n for every cell n, the least included |
| `NumberWords.Writer.SharpSep` | mu/startup.mu4:1247 | the loop of # and ?sep writes the specified digits and separators downwards into the buffer |
| `NumberWords.Writer.Dot` | mu/startup.mu4:1263-1265 | the text left held is sign and digits of the absolute value |
| `NumberWords.WriteThenRead` | mu/startup.mu4:1000-1265 | written by one set of words and read by the other, every cell comes back |
| `NumberWords.WriteThenReadUnsigned` | mu/startup.mu4:1000-1265 | the same for an unsigned cell and (u.) |
| `IntelHex.ChecksumZero` | mu/lib/intel-hex.mu4:64 | the checksum byte makes all bytes of a record sum to zero modulo 256 |
| `IntelHex.LineLooks` | mu/lib/intel-hex.mu4:58-72 | a record is a colon, two capital hex digits for each byte and a newline; the bytes are count, address high byte first, type, data, and one that makes the sum zero |
| `IntelHex.FixedLooks` | mu/lib/intel-hex.mu4:74-85 | the end record is :00000001FF, and those of ihwseg and ihwext begin with :02000002 and :02000004 |
| `IntelHex.RecordRead` | mu/lib/intel-hex.mu4:155-172 | a record of any type in hex is read as what it says: data to base plus address, base from a segment or extension, or nothing |
| `IntelHex.LineParsed` | mu/lib/intel-hex.mu4:175-179 | a line is found, read, passes its check, and reading goes on behind it |
| `IntelHex.ChunksLand` | mu/lib/intel-hex.mu4:94-97 | data records are read without error wherever they start, each landing at the base plus the low 16 bits of its address |
| `IntelHex.ChunksParsed` | mu/lib/intel-hex.mu4:94-97 | data records put their bytes back as long as each starts in the window at the base |
| `IntelHex.LandsInWindow` | mu/lib/intel-hex.mu4:154-160 | with the base at a multiple of 64 KiB, a record lands in the window at the base, a multiple of 64 KiB from where it came |
| `IntelHex.PlacedIs` | mu/lib/intel-hex.mu4:150 | storing from an address on rewrites exactly those addresses |
| `IntelHex.HexRoundTrip` | mu/lib/intel-hex.mu4:58-179 | reading what ihwchunks and ihwend, perhaps after ihwseg or ihwext, write raises no checksum error, puts every byte back at its address, changes no other, and leaves ihrlast at the end |
| `IntelHex.HexExact` | mu/lib/intel-hex.mu4:58-179 | every image of a given length comes back to its addresses, whatever memory held, if and only if every record starts in the 64 KiB window at the base |
| `IntelHexWords.HexWriter.Record` | mu/lib/intel-hex.mu4:58-74 | nibbles, sum and check written one after another make the line, though the high address part is summed uncut |
| `IntelHexWords.HexWriter.WriteChunks` | mu/lib/intel-hex.mu4:94-97 | the loop of full chunks and the remainder writes the chunks of the image |
| `IntelHexWords.HexReader.ReadType` | mu/lib/intel-hex.mu4:165-172 | one record is read as specified, with the sum of all its bytes |
| `IntelHexWords.HexReader.Scan` | mu/lib/intel-hex.mu4:175 | the scan stops just past the next colon before the end |
| `IntelHexWords.HexReader.ParseHex` | mu/lib/intel-hex.mu4:177-179 | the loop parses the whole text as specified, or stops at a bad checksum |
| `IntelHexWords.WriteThenRead` | mu/lib/intel-hex.mu4:58-179 | writer and reader together give back the image at its addresses, and nothing else |
| `Polynomials.RemainderUnique` | src/crc16.c:11-13 | only one polynomial below degree 16 is congruent to a given one, and long division finds it |
| `Polynomials.RemainderExists` | src/crc16.c:11-13 | long division gives such a polynomial |
| `CrcCode.XmodemByte` | src/crc16.c:40-52 | the bitwise loop is eight rounds |
| `CrcCode.CrcBuf` | src/crc16.c:70-76 | the buffer loop folds the chosen byte function over the bytes |
| `CrcCode.ForthBuf` | mu/lib/crc16.mu4:26-27 | the Forth loop folds its byte word over the bytes |
| `CrcTheorems.XmodemCongruent` | src/crc16.c:40-52 | a bitwise step is c x^8 + b x^16 modulo the polynomial |
| `CrcTheorems.ThierryCongruent` | src/crc16.c:26-34 | so is the shift and xor step |
| `CrcTheorems.FormsAgree` | src/crc16.c:26-52 | the fast and the reference byte function are the same function |
| `CrcTheorems.CrcIsRemainder` | src/crc16.c:70-76 | with either form the CRC of any buffer is the remainder of init x^(8n) + M x^16 |
| `CrcTheorems.CrcIsLinear` | src/crc16.c:70-76 | the CRC of the xor of two buffers is the xor of their CRCs |
| `CrcTheorems.CrcJoins` | src/crc16.c:70-76 | the CRC of two buffers in a row is the CRC of the second started with that of the first |
| `CrcTheorems.OwnCrcIsZero` | src/crc16.c:70-76 | a buffer followed by two bytes has CRC zero if and only if they are its own CRC, high byte first |
| `CrcTheorems.ForthAgrees` | mu/lib/crc16.mu4:22-27 | the Forth form started with a 16-bit value gives the same CRC |
| `CrcTheorems.ForthByteExact` | mu/lib/crc16.mu4:22-24 | for any cell and byte, the Forth step gives what the C step gives from the low 16 bits if and only if bits 16 to 27 of the cell are clear |
| `CrcTheorems.ForthExact` | mu/lib/crc16.mu4:22-27 | started with any cell, the Forth CRC of a buffer is the C CRC started with its low 16 bits if and only if bits 16 to 27 are clear, or, for the empty buffer, bits 16 to 63 |
| `Lfsr.StepIsBijection` | src/lfsr.c:24-125 | every step, Galois or Fibonacci, 32 or 64 bits, can be undone and is onto |
| `Lfsr.OnlyZeroToZero` | src/lfsr.c:24-125 | zero goes to zero and nothing else does |
| `Lfsr.GaloisRecurs` | src/lfsr.c:42-49 | the bits that come out obey s(n+32) = s(n) + s(n+10) + s(n+30) + s(n+31): taps at 32, 22, 2 and 1 |
| `Lfsr.FibonacciRecurs` | src/lfsr.c:71-76 | the Fibonacci register obeys the same recurrence |
| `Lfsr.GaloisTwoRecurs` | src/lfsr.c:104-109 | s(n+32) = s(n) + s(n+2) + s(n+6) + s(n+7): taps at 32, 30, 26 and 25 |
| `Lfsr.Galois64Recurs` | src/lfsr.c:119-124 | s(n+64) = s(n) + s(n+1) + s(n+3) + s(n+4): taps at 64, 63, 61 and 60 |
| `Lfsr.StepsJoin` | src/lfsr.c:38-48 | n steps after m are m + n |
| `Lfsr.OrbitSize` | src/lfsr.c:24-36 | until the start comes back all states are different, so there are fewer than 2^width of them |
| `Lfsr.Generate` | src/lfsr.c:38-125 | the counted loop makes count steps from the cell cut down to the register |
| `Lfsr.GenerateJoins` | src/lfsr.c:38-125 | two counted runs, through a cell, are one |
| `Lfsr.Length` | src/lfsr.c:24-97 | the do-while loop ends and counts the least period of all ones |
| `Sieve.NotStruckIsPrime` | mu/lib/sieve.mu4:27-28 | once the multiples of smaller primes are struck, a number is struck if and only if it is not prime |
| `Sieve.StepsToMultiple` | mu/lib/sieve.mu4:23-24 | stepping through the table by an odd prime visits exactly its odd multiples |
| `Sieve.OddPrimesAre` | mu/lib/sieve.mu4:29-30 | the list printed is all odd primes up to 2N + 1, in order |
| `Sieve.Sifter.Mark` | mu/lib/sieve.mu4:19-21 | one bit of one byte is set and no other changes |
| `Sieve.Sifter.Strike` | mu/lib/sieve.mu4:23-24 | exactly the multiples of the prime in the table are marked |
| `Sieve.Sifter.Test` | mu/lib/sieve.mu4:27-28 | at index i the bit is clear if and only if 2i + 3 is prime, and then it is printed and struck out |
| `Sieve.Sifter.Erat` | mu/lib/sieve.mu4:29-30 | for any table size, 2 and then the odd primes are printed, and found is their number |
| `Terminal.FeedColumn` | mu/lib/editline.mu4:63 | the bytes of a column sequence with its decimal parameter move the cursor there |
| `History.List.Add` | mu/lib/editline.mu4:104-112 | a line that is not empty becomes the newest node of a well-formed circular doubly linked list; an empty one changes nothing |
| `History.List.Prev` | mu/lib/editline.mu4:121-122 | back from the root is the newest line, back from the oldest the root |
| `EditLine.AddThenBackspace` | mu/lib/editline.mu4:139-155 | a character added and rubbed out leaves line and cursor as they were |
| `EditLine.ActSane` | mu/lib/editline.mu4:133-155 | every key keeps the cursor in the line and the line narrower than the terminal |
| `Keys.UpRecalls` | mu/lib/editline.mu4:121-122 | ESC [ A recalls the line before the one shown, at a new line the newest, at the oldest the new line |
| `Keys.DownRecalls` | mu/lib/editline.mu4:124-125 | ESC [ B recalls the line after it |
| `Keys.UpThenDown` | mu/lib/editline.mu4:121-125 | at a new line ESC [ A shows the newest line and ESC [ B undoes that |
| `Keys.RightMoves` | mu/lib/editline.mu4:134 | ESC [ C moves the cursor as the same bytes do on a terminal that shows the line, and does nothing at its end |
| `Keys.LeftMoves` | mu/lib/editline.mu4:133 | ESC [ D moves it left, and does nothing at the start |
| `Keys.HomeAndEnd` | mu/lib/editline.mu4:142-143 | ESC [ 1 ~ and ESC [ 4 ~ go to the two ends |
| `Keys.OtherEscapes` | mu/lib/editline.mu4:157-168 | every other escape sequence does nothing and takes two, three or four bytes |
| `Keys.RubsOut` | mu/lib/editline.mu4:136-140 | 8 and 127 take out the character on the left, 4 the one under the cursor |
| `Keys.ClearsAndReturns` | mu/lib/editline.mu4:145-150 | 21 clears the line and 13 hands it over |
| `Keys.OthersInsert` | mu/lib/editline.mu4:152-182 | every byte above 31 but 127 is inserted if there is room, and every other control character is ignored |
| `Keys.Controls` | mu/lib/editline.mu4:62-69 | what CR and the sequences ending in @ P C D K do to a terminal line, byte by byte |
| `Keys.ColumnControl` | mu/lib/editline.mu4:63 | the column sequence goes to that column, counting from one |
| `EditLine.Editor.Insert` | mu/lib/editline.mu4:74-76 | moving the tail up and storing the character inserts it at the cursor |
| `EditLine.Editor.Remove` | mu/lib/editline.mu4:80-82 | moving the tail down takes the character at the cursor out |
| `EditLine.Editor.KeyAdd` | mu/lib/editline.mu4:152-155 | buffer, cursor and terminal show the line with the character in it, unless it is full |
| `EditLine.Editor.KeyDelete` | mu/lib/editline.mu4:136-137 | buffer, cursor and terminal show the line without the character |
| `EditLine.Editor.KeyUp` | mu/lib/editline.mu4:121-122 | the line before in the history is in the buffer and on the terminal |
| `EditLine.Editor.KeyDown` | mu/lib/editline.mu4:124-125 | the line after it is |
| `EditLine.Editor.KeyReturn` | mu/lib/editline.mu4:147-150 | the line is handed over and is the newest in the history if not empty |
| `EditLine.Editor.ProcessKey` | mu/lib/editline.mu4:157-182 | one key or escape sequence does to buffer, history and terminal what it does to a plain line with a cursor |
| `EditLine.Editor.EditLine` | mu/lib/editline.mu4:184-186 | so does every sequence of keys, up to Return |
| `Conditional.EatTokens` | mu/startup.mu4:640-642 | the skipping loop stops where the specified skipping does |
| `Conditional.EatTrees` | mu/startup.mu4:640-668 | a well-nested stretch is skipped whole, whatever the nesting, if no test in it asks about an opening word or .then |
| `Conditional.TreesInterpreted` | mu/startup.mu4:640-668 | a well-nested stretch, wherever it stands, is interpreted as its selected branches, in order, and interpreting goes on right behind it; only tests that this run skips are restricted in the name they ask about |
| `Conditional.TextInterpreted` | mu/startup.mu4:640-668 | and so a whole text |
| `Conditional.InterpretTokens` | mu/startup.mu4:640-668 | the interpreting loop does what is specified |
| `Conditional.TestSkipped` | mu/startup.mu4:640-668 | a test is skipped rightly before every following text, at every depth, if and only if the name it asks about is neither an opening word nor .then |
| `Scaled.SlashModFloors` | src/kernel.c:150-170 | the corrected C division is floored for every sign of the operands |
| `Scaled.DivideRounds` | mu/lib/scaled.mu4:153 | sc/ by any positive number gives the nearest number, the upper one of two, as long as nothing overflows |
| `Scaled.TimesRounds` | mu/lib/scaled.mu4:154 | sc* gives the nearest number, the upper one of two, as long as nothing overflows |
| `Scaled.ExactToEightPlaces` | mu/lib/scaled.mu4:153-154 | for 0 <= f <= p <= 8, sc/ by 10^f and then sc* by 10^p gives n with p - f zeros if and only if that number is from -2^35 to 2^35 - 1 |
| `Scaled.ExactPlaces` | mu/lib/scaled.mu4:153-154 | all numbers of that range come back from f places if and only if f is at most 8, for every f whose power of ten is not zero in a cell |
| `Scaled.PowerZero` | mu/lib/scaled.mu4:159 | the power of ten that exp10 computes is zero if and only if there are at least 64 places |
| `Scaled.Exp10` | mu/lib/scaled.mu4:159 | the loop computes the power of ten modulo 2^64, for any number of places |
| `ScaledText.PointReadsBack` | mu/lib/scaled.mu4:174-176 | number? reads what n.f prints as the same number with the same places if and only if there are any |
| `ScaledText.ToScaled` | mu/lib/scaled.mu4:167-171 | the number is divided by ten to the dpl, and dpl is read once |
| `ScaledText.PointDot` | mu/lib/scaled.mu4:174-176 | the digits held one by one make sign, whole part, dot and fraction |
| `ScaledText.ReadScalePrint` | mu/lib/scaled.mu4:146-180 | a text with one to eight places, read, scaled, scaled back and printed, is printed as the same number if and only if that is from -2^35 to 2^35 - 1 |
| `SourceText.CutUnique` | src/interpret.c:98-146 | there is only one way to cut white space, a longest token and one delimiter off the front of a text |
| `SourceText.CutAtWhite` | src/interpret.c:98-150 | tokens are cut at the bytes 9 to 13 and 32 and at no others |
| `SourceText.NewlinesAre` | src/interpret.c:98-150 | lines are counted by the bytes with the value 10 |
| `SourceText.Scanner.Skip` | src/interpret.c:98-110 | white space is skipped as far as it goes and its newlines counted |
| `SourceText.Scanner.Scan` | src/interpret.c:116-139 | everything up to the first delimiter is parsed, the delimiter taken, and newlines counted |
| `SourceText.Scanner.Token` | src/interpret.c:141-146 | what is skipped, parsed and trailing is the cut of the rest; the token line is the one it starts on |
| `SourceText.Scanner.Parse` | src/interpret.c:148-153 | the text is tiled by what is parsed and the delimiter |
| `SourceText.Scanner.TokenAgain` | mu/startup.mu4:191-192 | a token taken back and taken again is the same, in place, line and what follows |
| `SourceText.Scanner.AllTokens` | src/interpret.c:98-146 | tokens taken until none is left tile the text, all but the last not empty, and the line number counts every newline |
| `Utf8.DecodeEncode` | mu/lib/utf8.mu4:21-37 | a character below 2^21 stored is fetched as itself, and the address goes on by as much |
| `Utf8.EncodeIsUtf8` | mu/lib/utf8.mu4:30-37 | the bytes stored are those of the table in section 3 of RFC 3629 |
| `Utf8.Utf8Unique` | mu/lib/utf8.mu4:13-18 | that table allows only one sequence for a character |
| `Utf8.Store` | mu/lib/utf8.mu4:32-37 | the bytes are stored and nothing else is |
| `Utf8.Fetch` | mu/lib/utf8.mu4:23-28 | the fetching loop decodes as specified |
| `Utf8.StoreAndFetch` | mu/lib/utf8.mu4:21-37 | any sequence of characters below 2^21 comes back, with the same end address |
| `Utf8.FetchedAsItself` | mu/lib/utf8.mu4:21-37 | a character that has been stored is fetched as itself if and only if it is below 2^21 |
| `BigNum.Add` | src/mp-math.c:47-59 | the digits in place and the carry are the sum of both numbers and the carry in |
| `BigNum.Negate` | src/mp-math.c:61-72 | the digits in place and the carry are the complement and the carry in |
| `BigNum.AddInTwo` | src/mp-math.c:95-101 | two runs with the carry passed on are one run over low and high digits together |
| `BigNum.DPlus` | src/mp-math.c:95-101 | d+ as it stands adds the lower two digits of each 64-bit cell with a carry between the cells, and leaves the upper two |
| `BigNum.DPlusExact` | src/mp-math.c:95-101 | that is the 128-bit sum if and only if in each cell the upper half of the addend and the carry into it are zero, or all ones and one |
| `BigNum.DNegate` | src/mp-math.c:104-109 | dnegate as it stands complements the lower two digits of each cell |
| `BigNum.DNegateExact` | src/mp-math.c:104-109 | that is the 128-bit negative if and only if the number is zero or the least one |
| `BigNum.SumDetermines` | src/mp-math.c:47-59 | digits and carry are determined by the sum |

## Left out

- Cell addresses: the machine and the dictionary use indices into one heap; the switch between relative and absolute addresses and raw C pointers are not modelled. In the machine model an address counts cells; in the dictionary it counts bytes.
- Kernel words in the machine image have no dictionary entries; an execution token below `VARIABLES` names a C routine or a colon word directly.
- Inner.NestedExecute: runs carry a budget of CALLs, so a run that never ends is one that is still running for every budget.
- Stack limits: the return stack is unbounded up to 2^28 cells, and the data stack has no limit.
- CompilerCorrect.Simulates: rp@, rp! and rp+!, words that reach below the return-stack items a text itself has pushed (as the frame words do, which Exceptions treats), and stores into code have no meaning in the evaluator (it says Undefined), and nothing is claimed for them. Words made by create may stand in data; that does> patches them while the program runs is not modelled.
- LoopCounts.ForRunsCount: the loop bodies it counts leave the return stack as they find it, and in LoopCounts.PlusLoopRunsTrips they leave the same increment each time.
- Exceptions.UnwindRestoresCatch: what a filed routine does may depend on its arguments, on unwinding and on user memory, but not on the data stack below its arguments (as check-depth does, which prints the depth); preserved variables are user variables, not fp or cf themselves; a run does not store into return-stack cells below the catch, nor over the links and payloads of frames other than the cells of room.
- FrameWords.RoomRuns: the cells room brings into view hold whatever the memory held; that is a parameter.
- Running out of heap: name creation, comma, allot and history all require room, as the source does without saying.
- DictionaryHeap.Heap.Show: show before any name was made would store through a null pointer in the source; it is required not to be.
- Search statistics, `mu_dump` and the debugging output of `src/dict.c`.
- NumberWords.Reader.Number: the text is a sequence with an index where the source has an address and a count; its length fits a signed cell in Numbers.NumeralAccepted. The return through a skipped caller in `?bad-number` is an early return here, and `radix preserve` is a variable saved and put back.
- IntelHexWords.HexReader.ParseHex: past the end of the text there are zeros, where the source would read whatever memory holds; and a bad checksum is a result, not an error thrown.
- The debugging reader of Intel hex, and other settings of `ihraddr>host`.
- CrcCode.ForthBuf: words of machine arithmetic are sequences of bits, which makes truncation explicit; the buffer is an array and not an address.
- Lfsr.Length: the source has no period loop for the 64-bit register; that the periods are the longest possible is not claimed.
- Sieve.Sifter.Erat: the bit table is zero when it is allotted; line breaks between the numbers printed are left out, as are the timing and the switch of output channels.
- EditLine.Editor.EditLine: characters are single columns of an 8-bit terminal; `cl-key-unmatched` is its default, which ignores the key; the column count kept for output is left out; the number of keys handled is a parameter, as keys never end.
- Conditional.TreesInterpreted: tokens that read ahead in the source themselves are single units.
- ScaledText.ToScaled: at most 63 decimal places; from 64 on the power of ten is zero in a cell, and the source divides by it. The truncating operators are left out.
- SourceText.Scanner.Token: white space is that of the C locale.
- BigNum.DPlus: the four stack cells are four buffers of digits, lowest first, so the two digits at the address of a cell are its lower half: a little-endian host. mp_mult and um* drop carries and are not exact products; they are left out.
- Files, terminals, serial ports, timers, USB and the main program: calls into the operating system.
- Colours, prompts, dumpers, markup and other user interface; Motorola S-records, whose checksums are the same algebra.
