# A verified model of cup: code generator, ELF object model, symbol table and resolver

cup is a small compiler that turns a script into a prefix stream of nodes,
resolves it, and emits x86-64 machine code for the System V ABI; a header
library reads and writes ELF64 files. This project models the four parts where
the difficulty is, and proves what they are for.

**The code generator** (`src/codegen/x64codegen.c`). `Isa` has the instructions
the generator emits, their encoder and an independent decoder; `Machine`
executes bytes by fetching and decoding them, over sixteen registers, flags,
byte memory and a stack. `Source` gives the trees a meaning, in the generator's
own evaluation order. `Select` and `Layout` say which instructions each tree
becomes. The `Expr*`, `Stmt*` and `Func*` modules prove that running those
bytes does what the tree means, from single operands up to whole calls under
the ABI, for every callee behaviour the ABI allows. `Gen*` is the generator as
it works, with its byte buffer, cursor, reserved registers, push count, open
branches, no-op patches and rotations; each of its methods is proved to succeed
exactly when it should and to emit exactly the code of `Select` and `Layout`.
`Spelling*` is the language of the node stream as a grammar, proved to be what
the generator reads, in both directions; `Printer` writes any tree into it.
`TailDeletion` is about a case the generator gets wrong: deleting the branch of
a trailing `return` moves the epilogue, and a branch that was already patched to
the old end misses it. The bodies and the runs for which that happens are
characterised exactly. `GenInit`, `GenFinish`, `GenSurvive` and `GenHarm` are
about a module: the end of the enclosing function writes at offsets that the
rotations have made stale, into functions that were already finished. Which of
them keep their bytes is characterised exactly, as is what a call of the others
does.

**The ELF object model** (`include/lielf.h`). `ElfModel`, `ElfSort`,
`ElfTables`, `ElfLayout`, `ElfFile` and `ElfBuild` are `lielf_build` step by
step on an object whose arrays are changed in place; `ElfLoad` is
`lielf_load_mem`. `ElfSafety` and `ElfReadBack` prove that nothing in the file
overlaps; `ElfChain` follows relocations to names; `ElfTheorem` is the round
trip, `ElfIdempotent`, `ElfAgain` and `ElfStays` the second build, and `ElfKept` a
loaded executable that is built again. `ElfFields` has the raw structures byte by
byte; `ElfMapped` and `ElfDynamic` are about what a loader maps of a rebuilt
executable, and about a new `.bss`, which the code leaves unmapped. The conditions
under which a file comes back are those of `ElfTheorem.Loadable`: section 0 and
symbol 0 are the null ones, types and names of tables agree, relocation targets
exist, each target has one relocation section, sections that keep their place were
apart, and nothing outgrows its field.

**Vectors, symbol table and scopes** (`src/utils.c`, `src/parser.c`).
`Vectors.Vector` grows by doubling; `SymTab.Table` is the open-addressing table
whose mask depends on that growth, proved equal to a scan; `Scopes` compares the
parser's scope stack with the bare counter that the later passes use, and says
exactly when they bind a name alike; `ScopeNesting` is about nested blocks and what
is visible in and behind them.

**The resolver** (`src/resolver.c`). `Resolver` and `ResolverPass` are the
stream-to-stream pass with uninterpreted types, values and callbacks;
`ResolverMeaning` has its rules, node by node, proved to be what the pass does.

Where the code and its documentation disagree the code is followed. The register
comment of the generator says that scratch registers are never held across a
call, but an array element that contains a call holds one; the proofs cover it
because the element's own code is what fills that register.

## Model

| member | source | states |
|---|---|---|
| IsaRoundTrip.DecodeEncode | src/codegen/x64codegen.c:104-303 | For every instruction whose operands fit their fields, a decoder written from Intel SDM volume 2 (sections 2.1.3 and 2.2.1) recovers the instruction and its exact length from the emitted bytes, whatever follows them: R12/RSP with SIB, R13/RBP with disp8, forced REX, short and long immediates |
| IsaRoundTrip.EncodeAllInjective | src/codegen/x64codegen.c:104-318 | Concatenated encodings decode uniquely: two instruction lists with the same bytes are the same list |
| Machine.CondMeaning | src/codegen/x64codegen.c:57 | After comparing two words, the six condition codes mean equal, unequal, less, at least, at most and greater, signed |
| Machine.LoadStore | src/codegen/x64codegen.c:139-166 | A word stored to byte memory is read back, and every word apart from it is unchanged |
| ExprProof.CodeCorrect | src/codegen/x64codegen.c:542-754 | Expression compilation preserves meaning: whenever the tree has a value, its code runs without fault from any state, leaves that value in the target register and exactly that memory, and keeps RSP, RBP, the stack at and above RSP and every saved register but the Need(e) it picks |
| ExprProof.BinCorrect | src/codegen/x64codegen.c:484-520 | Left operand, right operand (folded immediate, scratch leaf or saved left value) and operation compute the source operator on the two values in evaluation order |
| ExprCases.BinFinish | src/codegen/x64codegen.c:512-520 | A comparison is materialised as 0 or 1, an arithmetic result ends in the target register |
| ExprCases.MulImmRun | src/codegen/x64codegen.c:446-468 | Multiplying by a constant, by shift when it is a power of two, by nothing when it is one, is multiplication modulo 2^64 |
| ExprProof.IndexCorrect | src/codegen/x64codegen.c:611-636 | Element i of an array is at base + 8 i, for all three forms of the index, in address and in value mode |
| ExprProof.AssignCorrect | src/codegen/x64codegen.c:638-673 | An assignment evaluates the target's address before the value, stores the value there and yields it; a cell of known address needs no address register |
| ExprProof.AddAssignCorrect | src/codegen/x64codegen.c:675-694 | += reads the target cell after the value is computed, and yields the sum |
| ExprProof.ArrCorrect | src/codegen/x64codegen.c:583-609 | An array literal stores its elements one by one and yields the address of its slots, which survives calls inside the elements |
| ExprProof.ArgsCorrect | src/codegen/x64codegen.c:717-737 | Complex arguments, evaluated in order and pushed, come back into their registers, the i-th argument into the i-th SysV register, with RSP restored |
| ExprProof.CallCorrect | src/codegen/x64codegen.c:701-754 | A call evaluates a complex callee, complex arguments in order, leaf arguments, then a leaf callee; RSP is 16-byte aligned at the call (the machine faults otherwise), and a callee may leave anything in the caller-saved registers and below RSP |
| StmtProof.CondCorrect | src/codegen/x64codegen.c:524-536 | The flags after a condition decide it: the branch skips exactly when the source condition is false |
| StmtProof.StmtCorrect | src/codegen/x64codegen.c:781-816 | On the emitted bytes, blocks, if, while and return nested to any depth reach what the source statement means: the end of the statement with its memory and RAX, or the exit of a return; while the source still runs after n rounds so does the machine after n steps |
| Layout.StmtSizeOk | src/codegen/x64codegen.c:320-328 | The size of a statement's code does not depend on where its return branches go, so back-patching moves nothing |
| Plain.CodePlain | src/codegen/x64codegen.c:542-754 | Code of an expression is free of jumps and every field of it is in range |
| Ranges.FuncCodeWf | src/codegen/x64codegen.c:320-328 | Every branch distance fits 32 bits when the body is shorter than two gigabytes |
| FuncProof.BodyCorrect | src/codegen/x64codegen.c:900-910 | The body as finally emitted, with the deleted trailing branch, reaches the epilogue with the value and memory the source body ends with; a body whose last return is inside an if and that falls off its end goes five bytes too far instead |
| FuncProof.PrologueRun | src/codegen/x64codegen.c:860-869 | The prologue saves exactly the registers whose slots are kept, with or without a frame, and clears RAX |
| FuncProof.EpilogueRun | src/codegen/x64codegen.c:912-916 | The epilogue restores RBP, RSP and every saved register; a register that is restored without having been saved gets what lay in its slot |
| FuncTheorem.FunctionCorrect | src/codegen/x64codegen.c:851-918 | A call of the emitted bytes from any SysV caller returns to its return address with the source function's value in RAX and its memory, RBX, RBP, RSP and R12-R15 as at entry (System V AMD64 ABI section 3.2.1) and the caller's stack untouched; a diverging source keeps the machine running |
| FuncTheorem.ReturnsIffEnds | src/codegen/x64codegen.c:851-918 | For a function without undefined behaviour the machine returns exactly when the source function ends |
| TailDeletion.BranchesLandIff | src/codegen/x64codegen.c:900-908 | After the trailing-return deletion every branch of the body lands on an instruction or on the epilogue exactly when the deleted return is not inside an if: the generator is wrong for the other bodies, and only for them |
| TailDeletion.SkipsEpilogueStart | src/codegen/x64codegen.c:900-910 | For every body whose last return is inside an if, a run that falls off its end continues five bytes behind the start of the epilogue |
| TailDeletion.RunsRightIff | src/codegen/x64codegen.c:900-910 | For every function and every run that ends in the source: its bytes return with that value and memory and the caller's registers exactly when the run does not fall off the end behind a return inside an if |
| TailDeletion.TailIfNeverReturns | src/codegen/x64codegen.c:900-910 | A function whose last return is inside an if and that saves no register never returns at all on a run that falls off its end |
| TailDeletion.FailingFunction | src/codegen/x64codegen.c:900-910 | A concrete failing input: if (0) return 7 |
| GenState.Buffer.RegPick | src/codegen/x64codegen.c:72-82 | The first register of the pool that is neither reserved nor to avoid, or nothing when there is none |
| GenState.Buffer.PickSaved | src/codegen/x64codegen.c:88-92 | The saved pool is used as a stack: picking succeeds exactly while fewer than five are reserved, and marks the register as used |
| GenState.Buffer.PickScratch | src/codegen/x64codegen.c:84-86 | The seven scratch registers never run out while at most five saved ones are reserved |
| GenState.Buffer.Emit | src/codegen/x64codegen.c:104-318 | Emitting an instruction appends its encoding; the buffer stays the encoding of the instruction list |
| GenState.PowerTest | src/codegen/x64codegen.c:456 | n & (n - 1) is zero exactly for the powers of two among positive n |
| GenState.Buffer.GenAluImm | src/codegen/x64codegen.c:446-468 | The folded form of an operator with a constant, including the forms that emit nothing |
| GenState.Buffer.GenLeaf | src/codegen/x64codegen.c:421-425 | A leaf is generated exactly when its name resolves, from behind the cursor if need be |
| GenState.Buffer.EmitCall | src/codegen/x64codegen.c:746-752 | The call sequence realigns RSP exactly when an odd number of words is pushed |
| GenExpr.CodegenExpr | src/codegen/x64codegen.c:542-754 | Succeeds exactly when a tree is spelled at the cursor (`Spelling.ReadIff`) and its need for saved registers fits the five; then appends exactly its code, moves the cursor behind it, and leaves reserved registers and push count as at entry |
| GenExpr.GenBinary | src/codegen/x64codegen.c:484-520 | The same for an operator, with the flags-only form for conditions |
| GenExpr.GenIndex | src/codegen/x64codegen.c:611-636 | The same for indexing |
| GenExpr.GenAssign | src/codegen/x64codegen.c:638-673 | The same for assignment |
| GenExpr.GenAddAssign | src/codegen/x64codegen.c:675-694 | The same for += |
| GenExpr.GenArray | src/codegen/x64codegen.c:583-609 | The same for array literals, whose elements are a loop |
| GenExpr.PushAll | src/codegen/x64codegen.c:717-729 | The argument loop: leaves are remembered, everything else is computed and pushed; the push count grows by exactly the complex arguments |
| GenExpr.PopAll | src/codegen/x64codegen.c:730-732 | Every pushed argument is popped into its register, last one first, and the push count is as before |
| GenExpr.GenCall | src/codegen/x64codegen.c:701-754 | The same for calls of at most six arguments, for every mix of leaf and complex arguments and callee; an unresolved leaf fails the call although it is only looked at later |
| Patch.PatchStmt | src/codegen/x64codegen.c:320-328 | Patching the recorded return fields of a statement in the buffer, from the last to the first, gives the code of the statement with that exit and changes nothing else |
| GenStmt.PatchRel | src/codegen/x64codegen.c:320-328 | Fails exactly when the distance does not fit 32 bits, else overwrites the four bytes |
| GenStmt.GenJumpIfFalse | src/codegen/x64codegen.c:524-536 | A comparison branches on its flags, anything else on being zero; the branch is left open for patching |
| GenStmt.GenIf | src/codegen/x64codegen.c:781-791 | An if, with its branch patched to the byte behind its body |
| GenStmt.GenWhile | src/codegen/x64codegen.c:793-806 | A while, with its back branch to the condition and its exit branch behind the loop |
| GenStmt.GenReturn | src/codegen/x64codegen.c:808-817 | A return leaves an open branch and records it |
| GenStmt.GenWork | src/codegen/x64codegen.c:783-788 | The work-count loop: members of blocks are added to the count as their block is met; succeeds exactly when the statement parses, its need fits and its branches are in range |
| GenTheorem.WorkSplits | src/codegen/x64codegen.c:548-552 | Splicing a block's members into the surrounding count means the same as doing the block as a unit, in nodes consumed, scopes opened and outcome |
| Returns.LastIsTail | src/codegen/x64codegen.c:900-905 | The last recorded return ends the body exactly when the body's code ends with it, so the byte test decides the syntactic question |
| Returns.PatchCut | src/codegen/x64codegen.c:900-910 | Cutting off the last branch and patching the others gives the body as finally emitted |
| Returns.ExitsFit | src/codegen/x64codegen.c:909-910 | The return branches can all be patched exactly when the finished code has its distances in range |
| GenFunc.EmitPrologue | src/codegen/x64codegen.c:860-869 | Every save, in its slot, and where the frame and the slots are |
| GenFunc.DropSaves | src/codegen/x64codegen.c:888-898 | Saves of registers the body never picked become no-ops of the same length, and so does the frame when none is left |
| GenFunc.GenParams | src/codegen/x64codegen.c:874-882 | The arguments are stored to their cells in order |
| GenFunc.FinishReturns | src/codegen/x64codegen.c:900-911 | The trailing return is deleted exactly when it would jump to the epilogue behind it, the others are patched, and the step fails exactly when one is out of range |
| GenFunc.EmitFunc | src/codegen/x64codegen.c:851-918 | A whole function: succeeds exactly when it parses, its need fits and its code is in range, and then the buffer holds exactly its code |
| GenModule.MoveToFront | src/codegen/x64codegen.c:829-837 | The rotation of the buffer |
| GenModule.CodegenFunc | src/codegen/x64codegen.c:851-931 | The finished function is in front of everything that was there, unchanged; every earlier start in the relocation table moved by its length; generator state as before |
| GenModule.GenAt | src/codegen/x64codegen.c:760-778 | A definition inside the enclosing function drops the code of its name and then is a function definition |
| GenModule.HistoryPlaced | src/codegen/x64codegen.c:922-930 | After any sequence of definitions and of statements of the enclosing function, until that is finished, the buffer is the latest function first down to the enclosing function's code, with every table entry the start of its function |
| GenModule.FunctionAt | src/codegen/x64codegen.c:922-930 | Until the enclosing function is finished, each function's bytes are at its start, unchanged by later rotations |
| GenFinish.WriteNops | src/codegen/x64codegen.c:888-898 | The no-ops of the enclosing function go to the offsets its prologue had before anything was rotated |
| GenFinish.Finish | src/codegen/x64codegen.c:888-918 | The end of the enclosing function on a buffer with other functions in front: no-ops, the deleted branch, the patched returns and the epilogue; fails exactly when a branch cannot reach |
| GenSurvive.SurvivesIff | src/codegen/x64codegen.c:888-911 | Which functions keep their bytes when the enclosing function is finished: exactly those that are not the last defined, or need no more saved registers than the enclosing function picked, and on which no field of one of its returns lies with other bytes |
| GenSurvive.ReturnsLastSurvive | src/codegen/x64codegen.c:888-911 | When the enclosing function defines nothing behind a return of its own, only the last defined function is at risk: it keeps its bytes exactly when the enclosing function picked as many saved registers as it needs |
| GenSurvive.DefinedFunctionCorrect | src/codegen/x64codegen.c:851-931 | In the finished buffer, a call of any function that keeps its bytes, at the start the table gives, runs as its source means |
| FuncTheorem.SavingCall | src/codegen/x64codegen.c:851-918 | A call of a function from whose prologue saves were removed: value, memory, stack and return address are right, and every callee-saved register but those restored without having been saved, which hold what lay in their slots |
| GenHarm.LastFunctionCall | src/codegen/x64codegen.c:888-898 | In the finished buffer the function defined last runs so, with the saves that the enclosing function needs too |
| GenHarm.LastCallRightIff | src/codegen/x64codegen.c:888-898 | When the enclosing function picked some saved registers but fewer, a call of the function defined last is right exactly when every register that was not saved happens to lie in its slot already |
| GenHarm.CallerCorrupted | src/codegen/x64codegen.c:888-898 | A concrete failing input: return 1 + (2 + 3), defined in a function that picks no saved register, returns six and leaves in R12 what lay 24 bytes below the caller's stack pointer |
| GenHarm.EarlyReturnHarms | src/codegen/x64codegen.c:900-911 | A concrete failing input: a return of the enclosing function before the definition is patched into the code of the function defined |
| GenInit.CodegenInit | src/codegen/x64codegen.c:851-931 | From the stream of a module: succeeds exactly when it parses, every statement and definition can be generated and the enclosing function's branches reach; then the buffer is the finished module and the table the starts of its functions |
| GenTheorem.GeneratedFunctionRuns | src/codegen/x64codegen.c:851-931 | From the node stream to the machine: when generation succeeds, the bytes run as the function that was read means; `SpellingFunc` says which function that is |
| Spelling.ReadIff | src/codegen/x64codegen.c:542-757 | What the generator takes for an expression is a grammar with one token for each operator: at any place it finds the tree e, up to some node, exactly when the nodes between spell e: T_LESS is less, the left operand comes first, a name stands for its cell in the scope it is met in |
| Spelling.ReadSpelled | src/codegen/x64codegen.c:348-425 | Whatever spells an expression is read as that expression wherever it lies, and the index behind it is the cursor's |
| SpellingStmt.ReadRowIff | src/codegen/x64codegen.c:546-552 | Statements likewise, in a grammar where a block is one statement: counting a block's members into the work that is left reads exactly the rows of statements, with the scope counter one ahead for each T_BLOCK and none for a comma |
| SpellingStmt.WorkAppends | src/codegen/x64codegen.c:783-788 | n + m statements of work are n statements and then m, tree by tree |
| SpellingFunc.ReadFuncIff | src/codegen/x64codegen.c:872-886 | Function definitions likewise: the counted parameters, each a cell, and one statement |
| SpellingFunc.SpelledFunctionRuns | src/codegen/x64codegen.c:851-931 | Where the stream spells a function, generation reads that function, and its bytes at the front of the buffer run as it means |
| SpellingModule.ReadAtIff | src/codegen/x64codegen.c:760-778 | A definition behind T_AT likewise: the name outside the new scope, the function inside, an empty list between them when there are no parameters |
| SpellingModule.ReadItemsIff | src/codegen/x64codegen.c:881-886 | A whole module likewise: statements and definitions, in blocks of any depth |
| Printer.PrintRead | src/codegen/x64codegen.c:542-757 | Every tree has a stream: an independent printer gives each constructor its token and its operands in order, and reading undoes it |
| Printer.PrintRowRead | src/codegen/x64codegen.c:546-552 | The same for rows of statements, with the scope counter ahead by the blocks printed |
| Printer.PrintFuncRead | src/codegen/x64codegen.c:872-886 | The same for functions |
| ElfModel.GetSection | include/lielf.h:511-517 | The first section of a name, or none |
| ElfSort.OrderPermutes | include/lielf.h:932-939 | The sort is a permutation that fixes index 0 |
| ElfSort.OrderStable | include/lielf.h:932-939 | Local symbols come first, and symbols that are alike keep their order |
| ElfSort.SortSymbols | include/lielf.h:921-956 | The table is sorted in place and every relocation into it follows its symbol; other relocations and the other table are unchanged |
| ElfSort.MovedDenotes | include/lielf.h:949-954 | A relocation that was moved denotes the symbol it denoted before the sort |
| ElfSort.SortedSplit | include/lielf.h:1043-1049 | From the first non-local symbol on all are non-local, which is what sh_info has to say (gABI chapter 4) |
| ElfSort.SortedAgain | include/lielf.h:921-956 | Sorting a sorted table is the identity |
| ElfNames.OffsetsAgree | include/lielf.h:971-981 | The loop that counts name offsets and the loop that copies names agree on every offset |
| ElfNames.NameBack | include/lielf.h:971-981 | A name read as a C string at its offset in the table is the name |
| ElfNames.BuildStrTab | include/lielf.h:971-981 | The table in two passes, with the size the first pass counted |
| ElfTables.NamesAgree | include/lielf.h:1020-1032 | The st_name of a symbol, counted in the symbol loop, leads to its name in the string table, made in another loop |
| ElfTables.RebuildSymTab | include/lielf.h:996-1054 | Sorts, makes or updates the section of symbols, with bytes, type, entry size and sh_info |
| ElfTables.RebuildStrTab | include/lielf.h:958-994 | Makes or updates the string table of the named symbols |
| ElfTables.RebuildOneRela | include/lielf.h:1079-1105 | A relocation section gets exactly the entries of its target and table, in their order |
| ElfTables.RebuildRelas | include/lielf.h:1107-1122 | Afterwards there is a relocation section for every relocation and each holds its group |
| ElfTables.RebuildShStrTab | include/lielf.h:1151-1174 | The table of section names, its own name included |
| ElfTables.ResolveLinks | include/lielf.h:1183-1204 | Links and infos by section names |
| ElfChain.GroupStable | include/lielf.h:1090-1101 | Within a group relocations keep their order |
| ElfChain.RelocFollowed | include/lielf.h:1079-1105 | For every relocation: its section's link is the symbol table, whose link is its string table; an entry there has its place, type and addend and a symbol index whose row has the fields, and whose st_name leads to the name, of the symbol the relocation denoted before the build; sh_info is the first non-local index (gABI chapter 4) |
| ElfRegular.FinalFacts | include/lielf.h:1222-1232 | After all tables are regenerated each still says what its own step wrote: no step spoils another's section |
| ElfLayout.AlignUpCorrect | include/lielf.h:437-440 | Masking with the complement of a power of two rounds up to the next multiple |
| ElfLayout.PlacedFacts | include/lielf.h:1281-1313 | Placing one class of sections keeps everything else, aligns each section, and puts each behind the one before |
| ElfSafety.LayoutSafe | include/lielf.h:1249-1349 | Layout safety: a section given a place is aligned, behind the file header, and apart from every other placed or kept section, from the program headers and from the section headers; the file ends behind them all |
| ElfSafety.LaidAfter | include/lielf.h:1251-1280 | Everything given a place starts behind the program headers as they were and behind every section that keeps its place |
| ElfSafety.FreshMapped | include/lielf.h:1237-1326 | In an executable each new allocated section lies inside the one new PT_LOAD, with addr - offset the load base; the segment starts on a page, is readable, and is writable or executable exactly when some new section is |
| ElfSafety.UntouchedStays | include/lielf.h:1262-1272 | A loaded allocated section that was not changed keeps its offset, address and contents |
| ElfReadBack.UntouchedBytes | include/lielf.h:1376-1381 | And its bytes are in the rebuilt file at the old offset |
| ElfKept.LoadedKept | include/lielf.h:1237-1381 | From file to file: a section of a loaded executable that the build keeps has its old offset, address and size, and the new file has at that offset the bytes the old file had there |
| ElfKept.PlainKept | include/lielf.h:1237-1272 | Every loaded allocated section that is no table and no relocation section is kept, in an executable with program headers |
| ElfBuild.AssignPlaces | include/lielf.h:1234-1349 | Base, classes, both regions, the new segment and both header tables, computed with 64-bit wrap-around; `ElfSafety` and `ElfMapped` say what that layout is |
| ElfBuild.Build | include/lielf.h:1209-1425 | The whole build: the bytes written, read back in `ElfTheorem` and `ElfMapped`, and the state it leaves, built again in `ElfAgain` and `ElfStays` |
| ElfFile.Serialize | include/lielf.h:1351-1411 | File header, program headers, section bytes and section headers written into a zeroed buffer |
| ElfReadBack.LayoutDisjoint | include/lielf.h:1351-1411 | Everything the serialisation writes has bytes of its own |
| ElfReadBack.SectionInFile | include/lielf.h:1376-1381 | So each section's bytes are in the file at its offset |
| ElfReadBack.PhdrInFile | include/lielf.h:1359-1373 | And each program header |
| ElfFields.EhdrLayout | include/lielf.h:59-74 | Each field of the file header at its byte offset, little-endian (gABI chapter 4) |
| ElfFields.PhdrLayout | include/lielf.h:89-98 | Each field of a program header at its byte offset |
| ElfFields.ShdrLayout | include/lielf.h:76-87 | Each field of a section header at its byte offset |
| ElfFields.SymLayout | include/lielf.h:100-107 | Each field of a symbol at its byte offset |
| ElfFields.RelaLayout | include/lielf.h:109-113 | Each field of a relocation at its byte offset, the symbol in the high half of the info word |
| ElfMapped.BuiltSegments | include/lielf.h:1316-1349 | A loader of the built executable finds the old program headers and, exactly when an allocated section is new, one more: a PT_LOAD on a page boundary that holds every new section at one distance from memory, with the address bias of the first old PT_LOAD, readable, and writable or executable exactly when some new section is |
| ElfMapped.NewSectionBytes | include/lielf.h:1284-1326 | The segment puts every byte of a new section at the address the section was given |
| ElfMapped.NothingNew | include/lielf.h:1328-1338 | Without a new allocated section the program headers and their place are the old ones |
| ElfMapped.LastNewMapped | include/lielf.h:1284-1324 | The memory of the last new section is in the new segment exactly when it is not like .bss, with a size but no bytes: the code gives such a section an address that no segment maps |
| ElfMapped.BssUnmapped | include/lielf.h:1284-1324 | A concrete failing input: an executable to which one .bss of sixteen bytes is added |
| ElfDynamic.NewTables | include/lielf.h:985-1040 | A table of symbols and its strings, made by a build, are allocated exactly when they are the dynamic ones |
| ElfDynamic.NewRelas | include/lielf.h:1057-1077 | So are the relocation sections a build makes |
| ElfDynamic.DynamicMapped | include/lielf.h:1284-1300 | So the new dynamic tables are among the new sections that get an address and the new segment |
| ElfHeaders.EhdrBack | include/lielf.h:710-718 | The file header is read back as it was written |
| ElfHeaders.SegmentsBack | include/lielf.h:858-873 | Every program header is read back as the segment it was written for: the segments of a written file are those of the image, executables included |
| ElfHeaders.SectionsBack | include/lielf.h:724-762 | Every section header, its name through the name table and its bytes are read back |
| ElfLoad.LoadMem | include/lielf.h:710-876 | The loader, in the order of the source: headers, classification, tables, segments; what it finds in a built file is said by `ElfTheorem.LoadBuild` |
| ElfRoundTrip.ParsePrefix | include/lielf.h:786-845 | The loader finds again each table the build wrote, whatever section holds it |
| ElfTheorem.LoadBuild | include/lielf.h:710-876 | Loading a built file, relocatable or executable, gives back the file header with every field the build does not lay out, every program header, every section header and its bytes, both symbol tables in sorted order, and the relocations group after group |
| ElfTheorem.OrdinarySectionBack | include/lielf.h:710-876 | A section without a special role comes back at its index with its name, type, flags, alignment and bytes |
| ElfTheorem.RelocsKept | include/lielf.h:1107-1122 | Grouping loses and repeats no relocation |
| ElfAgain.BuildAgain | include/lielf.h:902-1425 | Building a relocatable file without segments a second time gives the same bytes, whatever its names, alignments, tables and relocations, unless a relocation is taken only by a relocation section that is called .shstrtab |
| ElfAgain.BuildAgainIff | include/lielf.h:1107-1122 | The second build adds no section exactly when no relocation is so orphaned |
| ElfAgain.SameFileIff | include/lielf.h:1413-1425 | Where nothing overlaps in either file, the two files are the same exactly when no relocation is orphaned |
| ElfAgain.MisnamedGrows | include/lielf.h:1151-1174 | A concrete failing input: one relocation and a relocation section called .shstrtab, which the first build makes the table of section names |
| ElfIdempotent.TablesAgain | include/lielf.h:902-912 | Regenerating finished tables changes their bookkeeping at most |
| ElfStays.TablesLeave | include/lielf.h:896-912 | And not even that for a section with bytes of the recorded size: unchanged content does not mark it as changed |
| ElfStays.StaysPut | include/lielf.h:1413-1425 | So an allocated section of an executable that is built twice has the same offset, address and bytes in the second file |
| ElfStays.NoNewSegment | include/lielf.h:1316-1326 | And the second build adds no segment |
| ElfNew.NewReturns | include/lielf.h:445-486 | A new relocatable file meets every condition of the round trip |
| ElfNew.AddSectionReturns | include/lielf.h:519-539 | Adding an ordinary section keeps those conditions, as long as nothing outgrows its field |
| ElfNew.AddSymbolReturns | include/lielf.h:597-615 | So does adding a symbol |
| ElfNew.AddRelocReturns | include/lielf.h:639-652 | And adding a relocation of a section that exists |
| Vectors.NextCapacityOk | src/utils.c:137-144 | Capacities are 64 doubled some number of times, and growth takes less than twice what is needed |
| Vectors.Vector.Resize | src/utils.c:137-144 | Growing keeps the contents |
| Vectors.Vector.Push | src/utils.c:166-171 | Appends, with the capacity the growth rule gives |
| Vectors.Vector.Fpush | src/utils.c:179-185 | Prepends, with everything moved up |
| Vectors.PushVector | src/utils.c:173-177 | Appends another vector |
| Vectors.FpushVector | src/utils.c:187-190 | Prepends another vector |
| SymTab.SlotsPower | src/parser.c:78-83 | A capacity of the vector's form has a power of two of slots, so the mask is a remainder and reaches every slot |
| SymTab.FreeSlot | src/parser.c:78-83 | With fewer variables than slots one slot is free, so the probe loop ends |
| SymTab.Table.Insert | src/parser.c:78-83 | The unbounded probe ends even when the last slot is taken, and the table then holds one variable more |
| SymTab.Table.Put | src/parser.c:85-103 | After a variable is put the table still holds every variable, rebuilt when the vector grew, at any load up to one hundred percent |
| SymTab.Table.Find | src/parser.c:105-118 | The hash lookup returns what a scan from the front returns: the lowest index with this name and scope, or nothing |
| Scopes.LookupNearest | src/parser.c:120-127 | A lookup finds the binding of the nearest enclosing scope that has one; it ends because parents have smaller numbers |
| Scopes.ScopeState.Find | src/parser.c:120-127 | The climbing loop is that lookup |
| Scopes.ScopeState.Enter | src/parser.c:42-60 | Entering a scope, with the root made on the first call; what its parent is for is said by the rows of `ScopeNesting` |
| Scopes.ScopeState.Leave | src/parser.c:62-70 | Leaving a scope, never the root |
| Scopes.ScopeState.UseName | src/parser.c:434-446 | An identifier is declared in the current scope exactly when that is not scope 0 and no enclosing scope has it |
| ScopeNesting.BalancedBack | src/parser.c:50-70 | Properly nested blocks bring the parser back: behind any balanced events, in a block of their own or not, it is in the scope it was in |
| ScopeNesting.OpenSees | src/parser.c:53-57 | At the beginning of a block every name has the binding it had in the enclosing scope |
| ScopeNesting.BlockForgets | src/parser.c:50-70 | Behind a block every name has the binding it had in front of it: what a block declares ends with it |
| ScopeNesting.UseDeclares | src/parser.c:434-446 | A name used for the first time is bound in the scope it is used in |
| Scopes.RunKeeps | src/parser.c:434-446 | Over every run the current scope encloses the newest one and no name is declared below an earlier declaration of it |
| Scopes.ReplaySound | src/resolver.c:517-522 | Replaying scopes by a counter: at each use the counter scope is enclosed by the parser's scope, so the lookup succeeds; it finds the parser's binding exactly when no earlier variable of that name lies in a scope below the binding that the counter is still in |
| Scopes.ReplayDiffers | src/resolver.c:566-575 | A concrete failing input: a name first used in a block that has ended, then outside it |
| Resolver.FlatTreeAt | src/resolver.c:513-615 | The stream of a tree, wherever it lies, is read as that tree |
| Resolver.TreeAtFlat | src/resolver.c:513-615 | What is consumed is exactly the stream of the tree that was read |
| Resolver.RewriteResolved | src/resolver.c:233-351 | No member access is left in the output, every call is of a number, and every node has its payload and its operands |
| ResolverMeaning.BecomesIff | src/resolver.c:513-615 | The pass is a set of rules, one for each kind of node: a callback's number becomes exactly T_NUMBER with that number, its address N_ADDRESS with that address, a known callee T_CALL of T_NUMBER with it over the rewritten arguments, each from the values of the rewritten operands, in their order, scope and types; what no rule covers is an error |
| Resolver.RewriteScope | src/resolver.c:517-520 | The scope counter is ahead by exactly the blocks and functions of the tree |
| Resolver.RefinedScopes | src/resolver.c:517-520 | When no folded subtree holds a block or function, the next pass over the output counts the same scopes |
| ResolverPass.Pass.Infer | src/resolver.c:513-615 | One call consumes one tree and emits one, exactly when no node of it yields an error |
| ResolverPass.OneMeans | src/resolver.c:513-615 | Wherever a tree lies in the stream, the pass makes of it what the rules say, and has an error exactly when they give nothing |
| ResolverPass.Pass.Kids | src/resolver.c:469-511 | The list loop |
| ResolverPass.Pass.InferIndex | src/resolver.c:353-388 | An index that folds truncates the output to its mark and writes T_NUMBER or N_ADDRESS with the callback's word instead; by `OneMeans` that is what the rules say |
| ResolverPass.Pass.InferCall | src/resolver.c:274-351 | A call that folds to a number drops both sides; one with a known callee becomes T_CALL T_NUMBER with the callback's word and keeps its arguments; by `OneMeans` that is what the rules say |
| ResolverPass.Pass.InferDot | src/resolver.c:233-272 | The left side of a dot is resolved for its value only, its name not at all, and the callback's word is written; by `OneMeans` that is what the rules say |
| ResolverPass.Resolve | src/resolver.c:617-644 | A pass has an error exactly when no tree is there or the rules give it no outcome; else it reads exactly one tree and writes exactly one: reading the whole new stream gives the tree that the rules make of the old one, well formed, without member accesses, with known callees, and the same as the input elsewhere |

## Left out

- Statements in operand position: a block, `if`, `return` or definition node where an operand is expected. The parser never puts one there; the model fails where the source would depend on the count the node returns.
- Definitions nested in a function that is itself being defined in another, and definitions inside an `if`, a `while` or an expression of the enclosing function: its open branches go stale with the rotation. Those between its statements are modelled, with all that its end then breaks; what its own code does is not claimed.
- GenHarm.LastCallRightIff: when the enclosing function picks no saved register at all, the frame is gone and the slots may be overwritten by the body; only the concrete case of `GenHarm.CallerCorrupted` says what the lost registers hold.
- Parameter cells that are not leaves, and a function type with more than six parameters, which the source would read past its register table for.
- Malformed node streams: every way in which the source stops (exit, failed assertion) is one failure of the model; what it prints is not modelled. A node is either a token or a payload, so reading one as the other also fails.
- Array literals of 2^28 elements and more, whose offsets leave 32 bits (`Select.ArraysFit`): they are generated as in the source, but the meaning is proved only below.
- Programs that touch the machine stack through their own pointers, unaligned stack accesses, self-modifying code, floating point, and signals: they have no meaning in `Source`.
- Calls between generated functions are calls of some ABI-conforming function of the surrounding world; the two theorems are not tied into one fixpoint.
- Name and data lookup inside the generator (`leaf_address`, `getData`): a parameter (`NodeStream.Env`).
- `else`, unary minus, `!`, `break`, `continue`, doubles, `import`: the generator has no case for them.
- GenModule.GenAt: the type that says how many arguments a function has is a parameter, and the node that a function without arguments skips must be an empty list.
- ElfBuild.Build: without `.dynamic` entries, which the source regenerates (`lielf__rebuild_dynamic`) when a binary has some.
- ElfAgain.BuildAgain: a copy that would leave the buffer, possible only when a layout wraps 64 bits, writes nothing in the model.
- `.dynamic` entries read by the loader, section removal, `lielf_set_section_data`, dumping and file access.
- ElfLoad.LoadMem: header offsets whose 64-bit sum wraps count as outside the file, and a table whose entry size makes it run past its bytes fails instead of reading on.
- ElfTheorem.LoadBuild: not for images with a `.dynamic` section, or whose tables carry unusual names or types (`ElfRegular.Regular`); of those the program headers (`ElfMapped.BuiltSegments`) and the kept sections (`ElfKept.LoadedKept`) are proved, not the whole round trip.
- A null section (type 0) that still has bytes is written at its stale offset; `ElfReadBack.BytesOk` excludes it.
- Memory addresses of new sections without file bytes: the layout does not advance past them, so their addresses may overlap. `ElfMapped.LastNewMapped` says when the last of them is mapped; of the others nothing is claimed.
- Printer.PrintRead: cells are printed as addresses and strings as T_STRING; names, `$` and the other string token are covered by the grammar.
- The symbol sort's allocation failure, and pointer identity after any reallocation.
- `vector_pop`, `vector_fpop`, `split_vector` and the older hash map in `src/utils.c`.
- A second module compiled in the same state: the scope counter restarts while scope numbers go on. `Scopes.AtUse` asks that the start scope is the newest one.
- ResolverPass.Pass.Infer: a definition node ignores an error inside its arguments or body; here, and in `ResolverPass.Resolve`, such a pass counts as one with an error.
- `src/types.c` and `src/lexer.c`; the parser itself beyond scopes and variables; `dlopen`, file access, logging and command line.
