# Proofs about the arche compiler and runtime

arche is a small language for data laid out in columns. This project models the parts of its compiler and runtime where
a mistake would be hardest to see, and proves that they do what they are for. The model follows the C sources branch by
branch; values stand for values, classes for the structures the sources update in place.

- **The direct wasm compiler** (`Hir`, `HirSem`, `HirLaws`, `WasmText`, `WasmGen`, `Fragment`, `WasmExec`,
  `WasmTyping`, `WasmTables`, `Wasm*Sim`, `WasmValid`, `WasmEmitter`, `WasmProgram`, `WasmGenerate`, `WasmEndToEnd`).
  `HirSem` gives the language's meaning: block scopes, arithmetic signed or unsigned by the first integer operand's
  type, short-circuiting logic, division by zero aborting; scalars and operations of other widths than 32 bits have no
  meaning there. `HirLaws` says what these rules come to in other words, and `WasmText` what escapes in texts stand
  for. `WasmGen` is the code generated for each construct as a function, `WasmEmitter.Wg` the emitter that appends
  bytes. `WasmExec` and `WasmTyping` are sections 4.4 and 3.3 of the WebAssembly Core Specification 1.0 for the
  instructions that occur. The main theorem starts from the written bytes: parsed, validated, instantiated and
  executed, they do what the program means. `Supported` is the fragment it holds on, a check over the program before
  compiling it: scalars that are 32-bit signed integers, truth values, chars or floats, each name of one type wherever
  it occurs in the program (`Types`); one-dimensional arrays of these and of 8- and 16-bit integers, declared outside
  loops; operations in 32 bits, and where the sign rule matters signed ones or such whose operands cannot be negative
  (unsigned elements, chars, literals without a sign); no break, continue, unary operator or call but print; no local
  with a constant's name; at most 256 locals, 15360 bytes of text, 64 print arguments; no text in which, after the
  lowerer has resolved its escapes, a backslash is left before another byte.
- **The module encoder** (`Bytes`, `Leb128`, `WasmInstr`, `WasmBuf`, `WasmModule`, `WasmBinary`, `WasmRoundTrip`): the
  growable buffer and the module builder as classes, and a parser written from sections 5.2 to 5.5 of the same
  specification that inverts them.
- **Integer literals** (`IntLit`): the two decoders, and exactly where they agree.
- **GPU residency** (`GpuMemory`, `GpuRuntime`, `GpuDispatch`): the dispatcher as a class over buffer handles whose
  device calls may fail at any point, and its contract as a two-copy memory that no disciplined run can tell from one.
- **Maps as shaders** (`Shader*`): `ShaderLang` has both ends, the body as the compiler's CPU loop runs it and the
  GLSL. On the CPU a literal or a comparison is a signed int whatever the columns are, an operation on two ints is one
  on ints and signed by its first operand, and an int beside a float is converted; the shader knows only the element
  type. `ShaderFits` says for one operation on which operands the two do the same, `ShaderMeans` that CPU and shader
  go through an accepted body in step if and only if every operation performed fits, `ShaderSafe` is a test of the
  body's text that makes sure of it on every row, and `ShaderExact` shows for which bodies the test is exact.
  `ShaderAccept` says which bodies the emitter accepts. `ShaderText` has the printed text and a reader with the words,
  the punctuation and the precedence levels of GLSL's grammar, none of them the printer's, `ShaderGrid` the dispatch
  grid with the invocations' statements interleaved in any order, against the CPU's loop; `ShaderKernel` joins them.
  `ShaderDiffers` collects the maps whose shader does something else. What is assumed of single-precision floats is
  `DriverOk`: integers up to 2^24 and what exact integer operations give on them, the order of numbers, the value of
  an integer's text, truncating remainders; `ShaderLaws` gives a platform that keeps it.
- **Tuple groups and match** (`GroupLang`, `GroupExpand`, `MatchDesugar`): two program transformations of the lowerer
  that keep the meaning.
- **Hot reload and the object cache** (`HotReload`, `HotReloadSettles`, `ObjectCache`): protocols of processes that
  meet only through files, as steps in any interleaving.
- **The pool inspector** (`Inspect*`): a server that reads and writes cells in a running program's memory, and the
  client that decodes its answers. The names of `Reason` stand for the words behind ERR.
- **The parallel reduce** (`ParReduce`), **the lexer and the lossless-tree gate** (`Lexing`, `LexingExact`,
  `RoundTripTree`).

Undefined outcomes are explicit. An array index out of bounds is `Wild` in the wasm model: nothing is promised from
there on. Loops have fuel, the same for source and generated code, so that a program that runs on forever corresponds to
code that does. Float operations, the shader's square root, a tuple program's scalar operators, a unit's compiled code
and the hash of code are function values the theorems quantify over.

## Where the code and its documentation disagree

The model follows the code.

- `syntax/type_ref.h:74` calls `&&` and `||` eager, `codegen/codegen.c:4944-4950` insists on short-circuiting. The
  language's meaning here short-circuits; the wasm backend does not, and `EagerLogicExact` says when that shows.
- `'\0'` is the digit 0 to the lexer (`lexer/lexer.c:362-364`) and zero to the wasm backend (`codegen/wasmgen.c:134`).
- The lowerer resolves the escapes of a text (`lower/lower.c:641-680`, `780`) and the native backend takes the result
  as it is (`codegen/codegen.c:7574-7581`); the wasm backend resolves escapes once more (`codegen/wasmgen.c:220-234`),
  so that a backslash written before another character is lost, or makes a newline of an n. `PrintTextExact` says when
  that shows.
- The comment at `lexer/lexer.c:284-287` wants every consumer of a literal to agree; the wasm backend drops characters
  beyond the 79th, and GLSL reads a leading zero as octal.
- `arche_syntax_roundtrip.c:1-11` promises that a tree that lost information is found. A lost leaf is not: the gap it
  leaves is copied from the source.
- `codegen/gpu_glsl.c:141-143` promises that an emitted integer divisor is nonzero; a column with a constant's name
  gets past the test.
- `lower/lower.c:2584-2586` and `2620-2624` describe which right-hand sides must be evaluated once; a sum of groups as
  an argument, and a component of the target read in the right-hand side, are not among those the code finds:
  `VectorArgumentExact`, `EarlyComponentExact` and `SoleComponentRight` say when the split is right all the same.
- `docs/language.md:535-541` promises that `@gpu` never changes the result. `v * (1 / 2)` in a float map, and `(0 + x)
  / 2` or `5 < x` on unsigned columns, are computed in other types and with other signs by the shader
  (`codegen/codegen.c:5007-5098`, `codegen/gpu_glsl.c:160-231`); `HalfDiffers`, `MeanDiffers` and `PickDiffers` are
  inputs, `RunExact` the exact condition on a run, `Safe` the test of the text. Three more cases of it: the CPU
  negates a float by subtracting it from zero, which loses the sign of zero (`codegen/codegen.c:5344`); its `!=` is
  false for a NaN (`codegen/codegen.c:5085`); and in a body with a variable or a conditional a compound division is
  signed on unsigned columns (`codegen/codegen.c:10420-10424`, against `codegen/codegen.c:8005-8010`).
- `runtime/gpu_runtime.c:441` leaves a resident result on the device; if the next dispatch of that column fails, the
  CPU retry works on the host's stale bytes. `RetryExact` says when that shows.
- `docs/language.md:138-142` makes signedness part of the type; the wasm backend always takes the signed opcodes, and
  `Supported` accepts unsigned elements only where that makes no difference.
- `lower/lower.c:1702-1704` makes a wildcard's body the default; with no other arm only its first statement is kept.
- `docs/language.md:742-744` lets a match dispatch on integers; of a pattern `-1` the lowerer takes the last token
  only (`lower/lower.c:1695`), so that it is the pattern 1.
- `cli/cmd_run.c:363-366` wants every edit while the host is alive rebuilt; one between the first build and the first
  sample (`cli/cmd_run.c:383`) is taken for built, as `EarlyEditExact` says.

## Model

| member | source | states |
|---|---|---|
| `WasmEndToEnd.GeneratedCodeIsCorrect` | codegen/wasmgen.c:607-682 | for every supported program, of 32-bit signed, truth, char and float scalars and arrays of narrow elements: parsing the generated bytes, validating the start function and executing it on fresh memory makes exactly the host calls the program means, ends where it ends, traps where it aborts, runs on where it runs on and never gets stuck |
| `WasmExprSim.SignIrrelevant` | codegen/codegen.c:5026-5098 | the language picks signed or unsigned opcodes and the width by the operands' types; on every operation `Supported` accepts, also over unsigned narrow elements, that is what the signed 32-bit operation gives |
| `WasmExample.LoopIsSupported` | codegen/wasmgen.c:557-605 | the fragment is not empty: a program with two scalars, a loop over a counter and a print call is supported on every host, so the main theorem speaks of it |
| `WasmEndToEnd.Loads` | codegen/wasmgen.c:611-667 | the bytes parse back to the two imports from `env` under the names a host provides, the exported memory and start function, known types only, the start function with its locals, its exact code, and memory holding the string pool with everything above it zero |
| `WasmCtrlSim.StmtsRun` | codegen/wasmgen.c:481-605 | the code of every supported statement list and the list itself end in corresponding states with the same calls, abort together or run out of fuel together |
| `WasmCtrlSim.StmtRuns` | codegen/wasmgen.c:481-605 | the same for one statement of any kind, nested conditionals and loops included |
| `WasmCtrlSim.LoopRuns` | codegen/wasmgen.c:561-578 | the block/loop pair: iteration by iteration the loop instruction does what the source loop does; the exit branch leaves the block and the back branch re-enters the loop |
| `WasmCtrlSim.ForRuns` | codegen/wasmgen.c:557-580 | a for statement with its init, condition, body and increment, names bound inside gone afterwards |
| `WasmCtrlSim.CondRuns` | codegen/wasmgen.c:581-595 | an if statement takes the branch its condition selects, with the source meaning of what it leaves |
| `WasmStmtSim.BindArrayRuns` | codegen/wasmgen.c:485-504 | declaring an array claims zeroed memory nothing else uses and initialises exactly the given elements |
| `WasmStmtSim.AssignElemRuns` | codegen/wasmgen.c:513-537 | element assignment, plain or compound, changes that element only; the index is evaluated twice for the compound form and that cannot be told apart |
| `WasmStmtSim.AssignVarRuns` | codegen/wasmgen.c:538-555 | assignment to a scalar, plain or compound, with the promotion of an integer right side to float where the target is one |
| `WasmStmtSim.BindScalarRuns` | codegen/wasmgen.c:505-512 | binding a scalar gives the name the value, in a local no other visible name shares |
| `WasmPrintSim.PrintRuns` | codegen/wasmgen.c:418-479 | a print call reaches the host once with its text and the evaluated arguments, in order |
| `WasmPrintSim.PrintTextExact` | codegen/wasmgen.c:220-234 | for every text and state: the one call of a print shows the host the text with escapes resolved a second time, and so corresponds to the program if and only if no backslash in it stands before another byte |
| `WasmPrintSim.ArgsRun` | codegen/wasmgen.c:433-472 | argument slots do not overwrite one another, the string pool or any array, and an abort in an argument stops before the call |
| `WasmExprSim.ExprRuns` | codegen/wasmgen.c:342-416 | the code of every supported expression pushes exactly its value on any stack, changes nothing else, and traps exactly where the source aborts |
| `WasmExprSim.EagerLogicExact` | codegen/wasmgen.c:372-388 | both operands of && and \|\| are evaluated: for boolean operands with a meaning the code agrees with short-circuit evaluation if and only if it is not the case that the left operand decides and the right one aborts |
| `WasmExprSim.EagerLogicDiffers` | codegen/wasmgen.c:185-188 | false && (a / b == 1) for all 32-bit literals a and b: the language says false, the generated code traps if and only if b is zero or a / b is the quotient that overflows |
| `WasmExprSim.CharsAgree` | codegen/wasmgen.c:125-140 | the backend and the lexer read an ASCII char token alike if and only if it is not '\0' |
| `WasmExprSim.NumAgrees` | codegen/wasmgen.c:161-191 | each integer opcode computes the operator of 32-bit signed arithmetic, division and remainder truncating, wrap-around included |
| `HirLaws.QuotientExact` | codegen/codegen.c:5026-5098 | quotient and remainder of the language, by which the opcodes are judged, are the only numbers with dividend = divisor * quotient + remainder, the remainder smaller than the divisor and not of the other sign than the dividend |
| `HirLaws.FuelAll` | codegen/wasmgen.c:557-580 | a program's meaning does not depend on the bound on its loops: a run that ends is the same under every larger bound |
| `HirLaws.ArrayMade` | codegen/wasmgen.c:485-504 | declaring an array makes one of as many zeros as its type says and changes nothing else; it has no meaning exactly for other element types than those supported and for no elements |
| `HirLaws.ElementSet` | codegen/wasmgen.c:513-537 | an assignment to an element changes that element to the value in its type and nothing else; outside the bounds it has no meaning |
| `HirLaws.NarrowExact` | codegen/wasmgen.c:298-320 | an element of w bits keeps of a value the one number of its range that differs by a multiple of 2^w |
| `WasmMemSim.ElementStored` | codegen/wasmgen.c:298-320 | a store to an in-range element changes that element of that array and no other array, pool byte or still unclaimed byte |
| `WasmMemSim.StoreLoad` | codegen/wasmgen.c:275-320 | what a load of the element reads after the store is the stored value narrowed to the element type |
| `WasmMemSim.ElementsApart` | codegen/wasmgen.c:260-273 | different elements, of one array or of two, share no byte |
| `WasmMemSim.SlotWritten` | codegen/wasmgen.c:433-471 | writing an argument slot leaves every array and the string pool as they were |
| `WasmTables.StmtKeepsCtx` | codegen/wasmgen.c:87-96 | generating a supported statement keeps the tables in step with the visible names: a local of the right type for each scalar, an array of the right layout for each array, arrays disjoint and below the cursor |
| `WasmTables.DeclareOk` | codegen/wasmgen.c:260-273 | a declared array starts at the cursor, is found under its name and moves the cursor to its end |
| `WasmTables.StmtGrows` | codegen/wasmgen.c:481-605 | tables only grow: a place given to a name, an array or a text stays |
| `WasmTyping.SeqSound` | codegen/wasmgen.c:275-606 | soundness of section 3.3 validation for the emitted instructions: validated code on a typed stack is never stuck, leaves the predicted stack and branches only to labels around it |
| `WasmValid.StmtsTake` | codegen/wasmgen.c:481-605 | the code of supported statements validates and takes every stack to itself at every label depth |
| `WasmValid.StmtTakes` | codegen/wasmgen.c:557-595 | the same for one statement; inside for, depth 1 is its exit block and depth 0 its loop |
| `WasmValid.ExprTakes` | codegen/wasmgen.c:342-416 | the code of an expression validates and pushes one value of its wasm type |
| `WasmProgram.SystemsRun` | codegen/wasmgen.c:638-649 | the run-once systems, one after the other in order of declaration, each in a scope of its own |
| `WasmProgram.SystemsExact` | codegen/wasmgen.c:638-649 | with a run declaration anywhere in the program, the systems that run are all its run-once systems, in order, and without one none |
| `WasmProgram.ConstsExact` | codegen/wasmgen.c:628-636 | the constants known are the first 256 with a value, in order |
| `Hir.PrintCallExact` | codegen/wasmgen.c:241-251 | a call prints if and only if its callee, a name or a field, is named print or has printf somewhere in its name |
| `WasmGenerate.Generate` | codegen/wasmgen.c:607-669 | the bytes written are the binary form of the program's module, for every program, supported or not |
| `WasmGenerate.Compile` | codegen/wasmgen.c:638-650 | body bytes, locals and string pool are those of the compilation function |
| `WasmGenerate.Scan` | codegen/wasmgen.c:625-637 | one pass finds whether a run declaration exists and the first 256 constants with a value |
| `WasmEmitter.Wg.EmitStmts` | codegen/wasmgen.c:571-573 | the loop over statements appends the encoding of the list's code and updates the tables as the compilation function says |
| `WasmEmitter.Wg.EmitStmt` | codegen/wasmgen.c:481-605 | dispatch over the statement kinds; kinds the backend does not know append nothing |
| `WasmEmitter.Wg.EmitFor` | codegen/wasmgen.c:557-580 | init, block, loop, exit test, body, increment, back branch, two ends, byte for byte |
| `WasmEmitter.Wg.EmitIf` | codegen/wasmgen.c:581-595 | condition, if, then part, else part only if there is one, end |
| `WasmEmitter.Wg.EmitAssignVar` | codegen/wasmgen.c:538-555 | local.get, value and operator for the compound form; the value alone for the plain one |
| `WasmEmitter.Wg.EmitAssignElem` | codegen/wasmgen.c:515-536 | address, for the compound form address and load again, value, operator, store |
| `WasmEmitter.Wg.EmitBind` | codegen/wasmgen.c:485-512 | array declarations with literal elements, scalar bindings with a value or zero |
| `WasmEmitter.Wg.EmitElements` | codegen/wasmgen.c:494-501 | stores for as many literal elements as the array has room for |
| `WasmEmitter.Wg.EmitPrint` | codegen/wasmgen.c:418-479 | format text, argument slots, call; nothing at all if the format is not a literal |
| `WasmEmitter.Wg.EmitArg` | codegen/wasmgen.c:433-472 | a slot gets pointer and length of a text, a float or an integer |
| `WasmEmitter.Wg.EmitExpr` | codegen/wasmgen.c:342-416 | recursion over expressions, constants inlined before locals are looked at, `i32.const 0` for what is not supported |
| `WasmEmitter.Wg.EmitBinary` | codegen/wasmgen.c:372-388 | operands converted to float if either is one, then the opcode; zero for an operator without opcode |
| `WasmEmitter.Wg.EmitAddr` | codegen/wasmgen.c:325-334 | base plus index times element size |
| `WasmEmitter.Wg.EmitLoad` | codegen/wasmgen.c:275-296 | load opcode and alignment by element type, sign and width |
| `WasmEmitter.Wg.EmitStore` | codegen/wasmgen.c:298-320 | store opcode and alignment by element type and width |
| `WasmEmitter.Wg.LocalOf` | codegen/wasmgen.c:87-96 | the first local with that name, or a new one |
| `WasmEmitter.Wg.ArrayDecl` | codegen/wasmgen.c:260-273 | size and place of a new array, none once 128 arrays are declared |
| `WasmGen.StorageExact` | codegen/wasmgen.c:61-85 | an array of any positive dimensions holds their product of elements, each as wide as its type |
| `WasmEmitter.Wg.InternString` | codegen/wasmgen.c:220-234 | offset and length of the text in the pool; what is appended is the given text with each escape replaced, said character by character (`Spells`) |
| `WasmEmitter.AppendText` | codegen/wasmgen.c:220-234 | the bytes appended are the text with \n, \t, \r and \0 replaced by 10, 9, 13 and 0, any other escaped byte by itself, and a last lone backslash kept |
| `WasmText.TextKept` | codegen/wasmgen.c:220-234 | the backend resolves escapes in a text that the lowerer has resolved already; for every text, the pool holds it unchanged if and only if no backslash in it stands before another byte |
| `WasmText.TwiceDiffers` | codegen/wasmgen.c:225-226 | a token with two backslashes and an n is a backslash and an n in the language and a newline in the pool |
| `WasmText.UnescapeExact` | codegen/wasmgen.c:220-234 | for every text: what the backend makes of it, said by characters |
| `WasmText.DecodedExact` | lower/lower.c:641-680 | for every token: what the lowerer makes of it, where an escaped 0 is the digit |
| `WasmText.EscapesLikeChars` | lexer/lexer.c:352-368 | an escape in a text means what it means in a char token; for the backend if and only if it is not \0 |
| `WasmText.DecodeText` | lower/lower.c:641-680 | the loop over the token computes that text |
| `WasmRoundTrip.ModuleRoundTrip` | codegen/wasm_encode.c:185-216 | parsing the file by section 5.5 gives back exactly the types, imports, functions, memory, globals, exports, start, bodies and data added |
| `WasmBuilder.WasmModule.Finish` | codegen/wasm_encode.c:185-216 | header and non-empty sections in order, with their sizes and counts |
| `WasmBuilder.WasmModule.ImportFunc` | codegen/wasm_encode.c:94-100 | appends the import and returns its index |
| `WasmBuilder.WasmModule.Func` | codegen/wasm_encode.c:116-121 | appends the function and returns its index behind the imports made so far |
| `WasmBuilder.WasmModule.Body` | codegen/wasm_encode.c:123-136 | appends a body with its local groups and its size in front |
| `WasmBuilder.WasmModule.Type` | codegen/wasm_encode.c:83-92 | appends the type and returns its index |
| `WasmBuilder.WasmModule.GlobalI32` | codegen/wasm_encode.c:107-114 | appends the global and returns its index |
| `WasmBuilder.WasmModule.ExportItem` | codegen/wasm_encode.c:138-154 | appends an export of a function, the memory or a global |
| `WasmBuilder.WasmModule.Segment` | codegen/wasm_encode.c:161-170 | appends an active data segment at the offset |
| `WasmBuilder.ReturnedIndicesStayRight` | codegen/wasm_encode.c:83-121 | in the finished module every returned index names the item that call added; for functions if no import follows |
| `WasmBuilder.FunctionIndexExact` | codegen/wasm_encode.c:94-121 | a function's returned index is its index in the finished module if and only if no import is added after it |
| `WasmBuffer.WasmBuf.U` | codegen/wasm_encode.c:35-42 | the shift loop appends the unsigned LEB128 encoding |
| `WasmBuffer.WasmBuf.I` | codegen/wasm_encode.c:44-54 | the shift loop appends the signed LEB128 encoding |
| `WasmBuffer.WasmBuf.Reserve` | codegen/wasm_encode.c:15-22 | room for the extra bytes, contents kept, storage kept if it suffices |
| `WasmBuffer.WasmBuf.Bytes` | codegen/wasm_encode.c:28-33 | appends the bytes |
| `WasmBuffer.WasmBuf.Name` | codegen/wasm_encode.c:56-60 | length, then the bytes |
| `Leb128.UnsignedRoundTrip` | codegen/wasm_encode.c:35-42 | every value of n bits decodes back (section 5.2.2), with exactly the rest left |
| `Leb128.SignedRoundTrip` | codegen/wasm_encode.c:44-54 | every signed value of n bits decodes back as an sN, with exactly the rest left |
| `Leb128.UnsignedShortest` | codegen/wasm_encode.c:35-42 | no legal encoding of the value is shorter |
| `Leb128.SignedShortest` | codegen/wasm_encode.c:44-54 | no legal signed encoding of the value is shorter |
| `Leb128.UnsignedLength` | codegen/wasm_encode.c:35-42 | at most one byte per seven bits begun: ten for 64 bits |
| `Leb128.SignedLength` | codegen/wasm_encode.c:44-54 | the same for signed values: five bytes for 32 bits |
| `WasmInstr.SeqRoundTrip` | codegen/wasmgen.c:557-595 | any instruction tree, nested blocks included, is read back from its bytes with the delimiter and the rest |
| `IntLiterals.DecodersAgreeExactly` | codegen/wasmgen.c:99-123 | on every integer token below 2^31 the language's decoder gives the positional value; the backend's agrees if and only if the token has at most 79 significant characters or is zero |
| `IntLiterals.DecodersAgree` | lexer/lexer.c:288-332 | both decoders give the positional value of every token within 79 significant characters |
| `IntLiterals.LongLexemesDiffer` | codegen/wasmgen.c:102-105 | seventy-nine zeros and a one: the backend reads zero |
| `IntLiterals.FoldedConstantsRoundTrip` | lower/lower.c:348-358 | the decimal text of every 32-bit constant is read back by both decoders, the minimum included |
| `IntLiterals.PrefixExact` | lexer/lexer.c:288-332 | for every literal of 63 bits: 0x makes its digits hexadecimal, 0b binary, 0o octal, in either case of the letter; without a prefix they are decimal, leading zeros or not |
| `IntLiterals.ArcheIntLit` | lexer/lexer.c:288-332 | sign, base prefix and separators; none for anything that is no integer, the accumulator wrapping at 64 bits |
| `IntLiterals.ParseInt` | codegen/wasmgen.c:99-123 | 79 significant characters, sign, prefix, strtol, cast to 32 bits |
| `GpuMemory.RunsLikeOneMemory` | runtime/gpu_runtime.c:288-503 | over every disciplined run of dispatches, syncs, uploads, host reads and host writes, each host read returns what one memory executing the maps directly holds; a dispatch may fail wherever none of its columns is dirty, and has to succeed, resident, where one is |
| `GpuMemory.ProgramsReadOneMemory` | runtime/gpu_runtime.c:288-503 | the same from the start of a program, with nothing resident |
| `GpuMemory.RetryExact` | runtime/gpu_runtime.c:447-467 | after a failed dispatch the CPU retry leaves the map's results on the host, for every kernel, if and only if no dispatched column is dirty with copies that differ |
| `GpuMemory.SyncedRetryExact` | runtime/gpu_runtime.c:447-485 | and the results outlast the next sync if and only if no dispatched column is dirty at all, empty ones aside |
| `GpuMemory.LoseExact` | runtime/gpu_runtime.c:476-480 | a sync whose transfer fails clears the flag all the same: the logical values survive if and only if both copies hold the same bytes |
| `GpuMemory.StepKeeps` | runtime/gpu_runtime.c:288-503 | every step keeps: the logical value is the device copy of a dirty column and the host copy of any other, and both copies agree when a column is clean and not awaiting upload |
| `GpuMemory.ResidentExact` | runtime/gpu_runtime.c:312-441 | for every resident dispatch and every column, whether listed or not: a listed column that has or gets a place in the table holds the kernel's output on the device, dirty, and its host bytes stay; one that finds the table full has the output on the host; any other column keeps both copies |
| `GpuMemory.InputExact` | runtime/gpu_runtime.c:316-382 | a kernel reads the logical value of a column if and only if the column was not left dirty behind a full table, or both copies hold the same bytes |
| `GpuMemory.FullTableIsStale` | runtime/gpu_runtime.c:316 | with 256 resident columns even a hit is bypassed: a dirty column is then read from its stale host copy |
| `GpuMemory.DispatchKeeps` | runtime/gpu_runtime.c:431-441 | a resident dispatch marks what it wrote dirty and keeps all other columns |
| `GpuMemory.HostMapKeeps` | runtime/gpu_runtime.c:379-381 | a map on host data leaves the cached copies of its columns out of date and nothing else |
| `GpuMemory.UndoneKeeps` | runtime/gpu_runtime.c:447-467 | a failed dispatch over columns none of which is dirty leaves the logical value of every column; its own columns' copies count as out of date |
| `GpuMemory.SyncKeeps` | runtime/gpu_runtime.c:470-485 | syncing changes no logical value and leaves the columns clean |
| `GpuMemory.UploadKeeps` | runtime/gpu_runtime.c:489-503 | uploading changes no logical value and settles the host writes to the columns |
| `GpuDispatch.Gpu.Dispatch` | runtime/gpu_runtime.c:288-467 | it succeeds if and only if there are 1 to 16 columns and no device call failed, and then has exactly the effect of the contract; failure at any device call leaves host columns as they were; afterwards the live buffers and allocations are exactly those of the resident table |
| `GpuDispatch.Gpu.RunMap` | runtime/gpu_runtime.c:288-467 | device dispatch with the CPU loop as its fallback is one step of the contract either way, the device's if no device call fails |
| `GpuDispatch.Gpu.Acquire` | runtime/gpu_runtime.c:312-382 | a buffer for each column: cached ones reused or entered, others mapped and filled; after a failure everything acquired so far is accounted for |
| `GpuDispatch.Gpu.Execute` | runtime/gpu_runtime.c:384-429 | the kernel sees the buffers' bytes; pool and command buffer are gone whichever call fails |
| `GpuDispatch.Gpu.HandBack` | runtime/gpu_runtime.c:431-441 | cached columns become dirty, the others' results are copied to the host |
| `GpuDispatch.Gpu.Cleanup` | runtime/gpu_runtime.c:447-466 | every object not owned by the table is given back exactly once, no resident one is |
| `GpuDispatch.Gpu.StagedCopy` | runtime/gpu_runtime.c:220-286 | a transfer through a temporary buffer that is gone afterwards, whatever fails; it succeeds if and only if no device call failed; a failed download changes nothing |
| `GpuDispatch.Gpu.ResidentFind` | runtime/gpu_runtime.c:69-74 | the first entry with that host column |
| `GpuDispatch.Gpu.SyncColumns` | runtime/gpu_runtime.c:470-485 | dirty columns are downloaded and clean afterwards, duplicates in the list included; as many transfers fail as device calls did, so that with none failing every dirty column's bytes reach the host; a column whose transfer failed keeps its host bytes and is marked clean |
| `GpuDispatch.Gpu.UploadColumns` | runtime/gpu_runtime.c:489-503 | resident columns get the host's bytes and count as clean, all of them if and only if no device call failed; when transfers fail the host and the other columns' copies are as they were and the columns count as clean nonetheless |
| `ShaderKernel.TextIsLoop` | codegen/gpu_glsl.c:260-388 | for every accepted body that passes the test `Safe` of its text: the emitted text is read to its end by GLSL's grammar; if what is read compiles, every interleaving of the invocations' statements ends, for every count up to 2^32 - 64, with the columns of the CPU's loop, types and signs as the compiler gives them, and meets no undefined operation |
| `ShaderKernel.TextIsCode` | codegen/gpu_glsl.c:260-328 | for every accepted body whose names are no keywords: the whole emitted text is read, and as the lowered statements |
| `ShaderGrid.GridIsLoop` | codegen/gpu_glsl.c:355-388 | for every body that passes the test, every count up to 2^32 - 64 and every interleaving of the invocations' statements, the lowered body's finished grid leaves the columns as the CPU's loop over the rows, and meets no undefined operation |
| `ShaderGrid.LoopExact` | codegen/codegen.c:8045-8156 | the CPU's loop it is compared with: row i of its result is what the body makes of row i, and of no other |
| `ShaderGrid.GridCovers` | runtime/gpu_runtime.c:422 | (count + 63) / 64 groups cover every row if and only if the 32-bit sum does not wrap around |
| `ShaderGrid.RunArrives` | codegen/gpu_glsl.c:381-385 | no schedule leaves the way to the result: each invocation below count works on its own row only, the others on none |
| `ShaderMeans.RunExact` | codegen/gpu_glsl.c:290-328 | for every accepted body and every row the CPU's code runs on: CPU and shader go through it in step, with the same value of every expression evaluated and the same row after every statement, if and only if every operation performed fits its operands; then the shader ends where the body does |
| `ShaderMeans.StmtExact` | codegen/gpu_glsl.c:295-326 | the same for one statement: assignments, blocks flattened into their surroundings, bindings, conditionals |
| `ShaderMeans.ExprExact` | codegen/gpu_glsl.c:181-257 | the same for one expression, part for part, of a select the branch taken |
| `ShaderFits.OperateExact` | codegen/codegen.c:5007-5170 | one operation on two values, signed by the first integer operand, an int beside a float converted: the shader's operation on the element type gives the same if and only if the operands fit |
| `ShaderFits.UnsignedExact` | codegen/codegen.c:5026-5098 | an operation on unsigned numbers that the compiler takes as signed gives what the unsigned one gives if and only if: for a comparison the sign bits are equal; for a quotient both numbers are below 2^31, or the divisor is one, or both are equal, or only the divisor has its sign bit and the sum is below 2^32; a remainder in these cases and where the divisor divides |
| `ShaderFits.FloatedExact` | codegen/codegen.c:5012-5024 | an operation on two ints in a float map, up to 2^24: the float operation on their conversions gives the conversion of the int result if and only if a product fits 32 bits and is no minus zero, and a quotient has no remainder and is no minus zero |
| `ShaderFits.NegExact` | codegen/codegen.c:5338-5345 | the CPU subtracts from zero, the shader changes the sign: the same for floats if and only if the operand is not zero, for ints in a float map if and only if it is neither zero nor the smallest |
| `ShaderFits.UpdateExact` | codegen/codegen.c:7965-8030 | a compound assignment stores what the shader stores unless the columns are unsigned, the body is compiled statement by statement, and the signed operation does not fit |
| `ShaderSafe.SafeFits` | docs/language.md:535-541 | for every body whose text passes the test and every row its code runs on: every operation performed fits |
| `ShaderSafe.OpSafeExact` | codegen/codegen.c:5007-5098 | for every operator and all ranges of operands the test of one operation is exact: it is passed if and only if the operation fits every pair of values in the ranges |
| `ShaderSafe.RangeHolds` | lower/lower.c:764-775 | the value of an expression on the CPU lies in the range computed from its text: columns hold anything, literals and constants one number, comparisons zero or one |
| `ShaderExact.AssignmentExact` | docs/language.md:535-541 | for every accepted assignment, plain or compound, that runs on every row and whose operations pass the test or are on columns and integer literals: CPU and shader go through it in step and leave the same rows, on all rows, if and only if its text passes the test |
| `ShaderExact.TextExact` | codegen/gpu_glsl.c:181-257 | the same for an expression of any depth: in step on every row if and only if its text passes the test |
| `ShaderExact.OneOperationExact` | codegen/gpu_glsl.c:205-231 | for every operator on columns and integer literals: the shader's value is the CPU's on every row where that has one if and only if the text passes the test |
| `ShaderExact.UpdateTextExact` | codegen/codegen.c:10405-10431 | `c op= n` on unsigned columns in a body with a variable or a conditional: the shader leaves every row as the CPU does if and only if it is no division or remainder, or n is one |
| `ShaderDiffers.HalfDiffers` | codegen/codegen.c:5012-5070 | v = v * (1 / 2) in a float map: the CPU multiplies by zero, the shader by a half |
| `ShaderDiffers.MeanDiffers` | codegen/codegen.c:5047-5062 | x = (0 + x) / 2 on unsigned columns: 3000000000 becomes 3647483648 on the CPU and 1500000000 in the shader |
| `ShaderDiffers.PickDiffers` | codegen/codegen.c:5047-5090 | x = select(5 < x, 1, 0) on unsigned columns: 3000000000 becomes 0 on the CPU and 1 in the shader |
| `ShaderDiffers.HiddenDivisor` | codegen/gpu_glsl.c:187-196 | a column named like a nonzero constant passes the divisor test: the CPU divides by the constant, the shader by the column, here zero |
| `ShaderDiffers.UnaryExact` | codegen/gpu_glsl.c:200-204 | every unary operator is emitted as minus: the shader of an integer map agrees on every row if and only if the operator is one |
| `ShaderDiffers.RemainderExact` | codegen/gpu_glsl.c:205-231 | column % literal, where the CPU's is defined, agrees with the CPU on every driver GLSL allows if and only if the dividend is not negative and the divisor is positive |
| `ShaderDiffers.BoundNameExact` | codegen/gpu_glsl.c:299-310 | for every name bound inside a conditional of an integer map: the shader compiles and does not leave the body's row if and only if the name is the row index's; bound at the top level, that name does not compile |
| `ShaderLower.LiteralExact` | codegen/gpu_glsl.c:160-175 | every text GLSL accepts as an integer, of any length and sign, is read by the language, and as the same number if and only if its digits have no leading zero or it is less than eight from zero |
| `ShaderLower.LeadingZeroDiffers` | codegen/gpu_glsl.c:172-174 | 010 is ten in the language and eight in the shader |
| `ShaderLower.DivisorReads` | codegen/gpu_glsl.c:144-155 | the divisor test reads a text as GLSL does |
| `ShaderLower.NoDivisionByZeroAnywhere` | codegen/gpu_glsl.c:205-288 | for every accepted body whose shader compiles, compound assignments and nested blocks included, on every row and from every state: no integer is divided by zero, if no column or variable has a constant's name |
| `ShaderLower.NoDivisionByZero` | codegen/gpu_glsl.c:216-219 | the same for one expression |
| `ShaderLower.NamedDivisorExact` | codegen/gpu_glsl.c:144-155 | a division or remainder by a name that passes the test, whatever the dividend, can divide by zero if and only if a column or variable hides the constant |
| `ShaderText.ReadBody` | codegen/gpu_glsl.c:290-328 | the printed text of a block is read by GLSL's grammar, operator precedence included, as the statements printed, a compound assignment as the plain one it spells out |
| `ShaderText.ReadStmt` | codegen/gpu_glsl.c:260-328 | the same for one statement |
| `ShaderText.PlainAllRuns` | codegen/gpu_glsl.c:275-288 | the statements as they are read do what the lowered ones do, compound assignments included |
| `ShaderText.ReadPrinted` | codegen/gpu_glsl.c:181-257 | the printed text of an expression is read back as that expression: the parentheses suffice |
| `ShaderEmitter.Emitter.BuildBody` | codegen/gpu_glsl.c:355-367 | the text of the body if every statement can be lowered and the text is not empty, none otherwise; the text returned is read back as the lowered statements by a reader with words and punctuation of its own, to which float, int and uint name one type each |
| `ShaderEmitter.Emitter.EmitStmts` | codegen/gpu_glsl.c:290-328 | while the flag stands the text is the print of the lowering; it falls exactly when there is no lowering |
| `ShaderEmitter.Emitter.EmitExpr` | codegen/gpu_glsl.c:181-257 | the same for expressions |
| `ShaderEmitter.Emitter.EmitAssign` | codegen/gpu_glsl.c:260-288 | the same for assignments, plain and compound |
| `ShaderAccept.StmtsAccepted` | codegen/gpu_glsl.c:260-328 | which bodies get a shader: exactly those in which every statement, at any depth, assigns to a column, plainly or with an arithmetic operator GLSL has, or binds one variable to a value, the sixty-fourth at most, or is a conditional or a block, and all expressions are accepted with the variables bound before them in the text |
| `ShaderAccept.ExprAccepted` | codegen/gpu_glsl.c:181-257 | an expression is lowered if and only if every part of it can be: names, literals, operators GLSL has, integer divisors that are nonzero literals or constants, select and sqrt with their arguments |
| `GroupExpand.ExpandAllMeans` | lower/lower.c:2640-2715 | replacing every whole-group assignment in a statement list, nested bodies included, leaves exactly the state of evaluating each right-hand side once and writing all components together, and runs out of fuel exactly where the original does |
| `GroupExpand.ExpandMeans` | lower/lower.c:2640-2715 | the same for one statement |
| `GroupExpand.FanRuns` | lower/lower.c:2670-2713 | one fanned-out assignment, by suffixed names or through a temporary, writes what it would have written at once |
| `GroupExpand.LanesRun` | lower/lower.c:2692-2712 | the first k component assignments write exactly the first k components from the columns as they were |
| `GroupExpand.SuffixIsLane` | lower/lower.c:2505-2559 | the suffixed expression computes that component of the vector expression, also after earlier components of the target are written |
| `GroupExpand.ExpandAllTwice` | lower/lower.c:2635-2639 | the pass on its own result changes nothing and uses no temporary |
| `GroupExpand.ExpandTwice` | lower/lower.c:2635-2639 | the same for one statement |
| `GroupExpand.ExpandList` | lower/lower.c:2640-2715 | the in-place loop over the statement array computes the pass; afterwards no statement at any depth but in a for's init and increment assigns to a group, each such assignment is a block of one assignment per component in order, behind one binding exactly if the value is needed, and nothing else has changed |
| `GroupExpand.ExpandAllRewrites` | lower/lower.c:2664-2713 | for every statement list: the result is the list with every group assignment, at any depth the pass goes to, replaced by its fan-out, and one temporary used for each that needs one |
| `GroupExpand.RewrittenAllClear` | lower/lower.c:2635-2639 | no group is assigned to afterwards |
| `GroupExpand.NeededExact` | lower/lower.c:2584-2634 | the value is bound first if and only if some operand or argument, at any depth, is a name that is no group and no constant, a read of this element, or a call with a group as argument that does not fold over it |
| `GroupExpand.EarlyComponentExact` | lower/lower.c:2524-2533 | splitting g = g op g.r is right for every choice of operations and every state if and only if r is the last component |
| `GroupExpand.SoleComponentRight` | lower/lower.c:2524-2533 | reading a component after it is written is not wrong by itself: splitting g = g.r is right for every component r, every choice of operations and every state |
| `GroupExpand.OwnComponentDiffers` | lower/lower.c:2524-2533 | for every other r, from one state, the whole assignment leaves 1 in the last component and the split one 2 |
| `GroupExpand.VectorArgumentExact` | lower/lower.c:2614-2627 | for every vector argument e: g = f(e) is split if and only if e is no bare group, and the fan-out is right for every choice of operations and every state if and only if it is one |
| `GroupExpand.VectorArgumentDiffers` | lower/lower.c:2614-2627 | for every other e, with a function that tells a vector from a scalar, the split assignment leaves 2 where the whole one leaves 1 |
| `MatchDesugar.MatchExact` | lower/lower.c:1648-1811 | in every state the block, from its binding of the temporary on, has the match's trace and effect if and only if some arm besides the wildcard is recognised or the wildcard's body has at most one statement |
| `MatchDesugar.ScrutineeOnce` | lower/lower.c:1672-1682 | whatever the arms, the trace shows one evaluation of the scrutinee, first; the temporary holds its value, and only body statements follow |
| `MatchDesugar.LanguageReadsCases` | lower/lower.c:1733-1741 | a 32-bit case printed in decimal is read back as that case, so an enum arm compares with the case itself |
| `MatchDesugar.ChainRuns` | lower/lower.c:1707-1796 | the chain built from the last arm to the first runs the first arm that equals the value, else the default, wherever the wildcard is written |
| `MatchDesugar.LoneWildcard` | lower/lower.c:1806-1807 | with nothing but a wildcard only the first statement of its body is kept |
| `MatchDesugar.Desugar` | lower/lower.c:1683-1808 | the two passes over the arms build the block |
| `MatchDesugar.ScanPattern` | lower/lower.c:1690-1701 | the last number, text, char or name before the colon decides the pattern |
| `MatchDesugar.SignIsIgnored` | lower/lower.c:1695 | a sign before a number is not part of the pattern |
| `MatchDesugar.PatternExact` | lower/lower.c:1690-1741 | for every pattern: its last number, character, text or name counts; a number or character is its value, a case of an enum the case's number, `_` the wildcard, anything else is passed over |
| `MatchDesugar.CasePattern` | lower/lower.c:1690-1741 | a case written with its enum's name and without are the same pattern |
| `HotReloadSettles.ReachesLastEdit` | cli/cmd_run.c:383-419 | from every state a run without its two accidents (sources unreadable, sidecar not written) reaches, for every interleaving of watcher and host steps without an edit: once builds succeed for enough watcher steps every unit is the last edit's, and after four more host steps at a unit, its loads succeeding, the host runs it and stays so |
| `HotReloadSettles.WatcherSettles` | cli/cmd_run.c:400-418 | from every state with honest sidecars, every such interleaving with at least `Distance` watcher steps ends with the watcher at rest and every unit built from the last edit |
| `HotReloadSettles.SidecarsExact` | compile/compile.c:367-431 | before a pass over the last edit, with any sidecars whatever: every continuation with enough watcher steps ends with all units built from it if and only if no sidecar holds the hash of code that is not published |
| `HotReloadSettles.UnreadableExact` | cli/cmd_run.c:415-417 | sources unreadable at a wake-up: no continuation brings the edit if and only if no newer one has come since the sample and some unit is not built from it; otherwise every continuation does |
| `HotReloadSettles.EarlyEditExact` | cli/cmd_run.c:383 | an edit between the first build and the watcher's first sample: no continuation without a newer edit publishes it if and only if it changed some unit's code |
| `HotReloadSettles.LostSidecarExact` | compile/compile.c:422-427 | after a record that failed and the rest of its pass in any order, the next edit stays unpublished if and only if it takes the unit back to code of the hash recorded before |
| `HotReloadSettles.WatcherAlone` | cli/cmd_run.c:400-418 | such continuations exist: a watcher whose builds succeed is never stuck |
| `HotReload.EnsureLoads` | runtime/hotreload.c:65-103 | with the watcher at rest the next resolve runs the last edit's code |
| `HotReload.GoodKeeps` | compile/compile.c:367-431 | every step of every interleaving keeps: published files are complete, what a sidecar records is what is published, and what the watcher believes built is built |
| `HotReload.NeverBackwards` | runtime/hotreload.c:93-103 | a step never takes away what runs; it is complete and never replaced by something older; a failed build or load leaves it |
| `HotReload.RunNeverBackwards` | runtime/hotreload.c:65-118 | the same over whole runs |
| `HotReload.UnreadableEditIsLost` | cli/cmd_run.c:415-417 | an edit sampled while the entry file cannot be read is forgotten |
| `HotReload.LostSidecarKeepsUndoneCode` | compile/compile.c:422-427 | a sidecar that could not be written lets undone code stay published |
| `ObjectCache.CacheIsRight` | compile/compile.c:304-357 | under every interleaving of any number of builders, killed ones among them, an object that exists is the complete object compiled from the code with that hash |
| `ObjectCache.LinkIsFromScratch` | compile/compile.c:1069-1086 | a finished build links what compiling all its units itself would give |
| `ObjectCache.StepKeeps` | compile/compile.c:322-356 | each step of a build keeps the cache right |
| `ObjectCache.BuildFinishes` | compile/compile.c:304-357 | from every reachable state with anything in the cache, the steps of a build bring it to its end, and every object of its code is there then |
| `ObjectCache.NothingCompiled` | compile/compile.c:304-321 | a build whose objects are all there only looks them up |
| `ObjectCache.CopyInPlaceIsSeenHalfDone` | compile/compile.c:341-344 | had the copy gone straight to the object's name, another build would take it half done |
| `InspectPool.PokeEffect` | runtime/inspect.c:296-375 | a poke carried out changes exactly the addressed element's bytes, for a column only in a live slot of the right generation; counters, capacity, free list, the generation of every slot and the live slots stay |
| `InspectPool.PlanExact` | runtime/inspect.c:296-375 | for every pool, memory and request: carried out if and only if all checks hold, and otherwise refused with the reason of the first that fails, each check said on its own |
| `InspectPool.StoreExact` | runtime/inspect.c:336-372 | where the bytes of a poke go, and that each is the one its two digits spell |
| `InspectPool.StaticLayout` | runtime/inspect.c:108-149 | where a static pool's counters, free-list entries, generations and fields are, and how they are read |
| `InspectPool.DynamicLayout` | runtime/inspect.c:108-149 | the same for a dynamic pool, whose base holds its struct's address |
| `InspectPool.DynamicArrays` | runtime/inspect.c:136-149 | its free list and generations lie behind addresses in the struct; without generations every slot has generation zero |
| `InspectPool.OtherCellSame` | runtime/inspect.c:166-176 | every other cell of every field keeps its bytes |
| `InspectPool.CellsApart` | runtime/inspect.c:166-176 | different cells of a field do not overlap |
| `InspectPool.LiveHas` | runtime/inspect.c:154-163 | live are exactly the slots not in free_list[1 .. free_count - 1] |
| `InspectPool.LiveAscends` | runtime/inspect.c:261-263 | live slots come once each, in ascending order |
| `InspectServer.Server.Poke` | runtime/inspect.c:296-375 | OK is answered if and only if the field exists and may be written, the element is inside it, the hex spells exactly its bytes, and for a column the slot is live, of the right generation and has storage; then the cell holds those bytes; otherwise memory is as it was and the answer names the first check that fails (`Answers`) |
| `InspectServer.Server.RowsReply` | runtime/inspect.c:250-293 | count, row width and blob of the window of live slots; an error if and only if the pool is not allocated |
| `InspectServer.Server.SlotFree` | runtime/inspect.c:154-163 | the loop over the free list |
| `InspectServer.Server.DecodeHex` | runtime/inspect.c:338-345 | digit pairs to bytes, none at the first character that is no digit |
| `InspectServer.WindowSnoc` | runtime/inspect.c:264-270 | one more live slot is skipped, taken, or ends the window for good |
| `InspectServer.WindowExact` | runtime/inspect.c:256-275 | the window is cut from the live slots behind the first `start` and is as long as it can be: all of them, or as many as wanted, or as many as fit |
| `InspectClient.RowsAreLive` | cli/cmd_inspect.c:381-398 | decoding a ROWS reply gives exactly the live slots without the first `start`, at most `want`, cut only by the blob's capacity, each with its generation and column bytes |
| `InspectClient.RowsRound` | cli/cmd_inspect.c:381-398 | the client's walk over a blob inverts the server's for every list of slots |
| `InspectClient.PokeThenRows` | cli/cmd_inspect.c:456-466 | for every poke carried out, of any value into any element of any field, and every window: the client's decoded listing after it is the one before with exactly that element replaced by the value's bytes; a listing with room for all rows shows the poked row |
| `InspectClient.ValueRound` | cli/cmd_inspect.c:173-189 | a value comes back signed if and only if it fits the width's signed range, unsigned if and only if it fits the unsigned one |
| `InspectClient.HexRound` | cli/cmd_inspect.c:461-464 | the server reads back exactly the bytes the client spelled |
| `InspectClient.EncodeHex` | cli/cmd_inspect.c:461-464 | the loop over the bytes spells two digits each |
| `ParReduce.ReduceIsFold` | runtime/io.c:211-248 | for every column, operator, number of chunks, interleaving of workers and thread failures at the end: the combined result is the left fold of the whole column |
| `ParReduce.FailuresExact` | runtime/io.c:211-248 | for every operator, column length and pattern of thread failures: the result is the left fold, for every column, interleaving and whatever was in the threads' slots before, if and only if the failures come last |
| `ParReduce.JoinsReachAll` | runtime/io.c:232-233 | the join loop reaches every created thread if and only if the failures come last |
| `ParReduce.LateFailureIsNotJoined` | runtime/io.c:227-233 | two chunks, the first thread failing: the joins are through while the second worker still runs |
| `ParReduce.ChunksPartition` | runtime/io.c:220-226 | the chunks follow one another from 0 to n |
| `ParReduce.ChunksEven` | runtime/io.c:220-226 | all chunks are of one size; the last has what is left over as well, less than one element per chunk |
| `ParReduce.FoldSplit` | runtime/io.c:190-205 | folding two adjacent ranges and combining folds their union |
| `ParReduce.CombinedIsFold` | runtime/io.c:234-246 | combining the first t partial results is the fold up to the end of chunk t - 1 |
| `ParReduce.Assoc` | runtime/io.c:193-202 | add and multiply with wrap-around, min and max are associative at every width |
| `ParReduce.FoldIsSum` | runtime/io.c:193-202 | for every column: the fold by addition is the sum modulo 2^32 or 2^64, taken into the signed range |
| `ParReduce.FoldIsProduct` | runtime/io.c:193-202 | the fold by multiplication is the product, likewise |
| `ParReduce.FoldIsMinimum` | runtime/io.c:193-202 | the fold by min is one of the numbers and none is less; of no numbers it is the largest |
| `ParReduce.FoldIsMaximum` | runtime/io.c:193-202 | the fold by max is one of the numbers and none is greater; of no numbers it is the smallest |
| `ParReduce.Reduce` | runtime/io.c:211-248 | the whole routine returns the left fold |
| `ParReduce.FoldRange` | runtime/io.c:190-205 | the worker's loop returns the fold of its range |
| `ParReduce.ThreadCount` | runtime/io.c:170-181 | between one and sixteen threads, no more than processors or than 16384 elements each allow, and as many as these allow |
| `Lexing.TokensStream` | lexer/lexer.c:437-645 | for every source: tokens in order, whitespace only between them, each at its true line and column, none empty but the end of input, which is last and at the end |
| `Lexing.StreamOrdered` | lexer/lexer.c:437-645 | any two tokens are disjoint and in order |
| `Lexing.TokenAlone` | lexer/lexer.c:82-645 | lexing a token's own text gives that token and uses all of it |
| `LexingExact.NextExact` | lexer/lexer.c:437-645 | for every source, place, kind and end: the next token is that one if and only if the text has such a token there, each kind said of the characters alone, the longest operator and the longest word taken |
| `LexingExact.ErrorExact` | lexer/lexer.c:386-413 | there is an error if and only if no token starts, and where lexing goes on then |
| `LexingExact.StringIs` | lexer/lexer.c:386-413 | a text ends at the first quote with an even number of backslashes before it |
| `LexingExact.LineExact` | lexer/lexer.c:23-35 | the line is one more than the newlines before |
| `LexingExact.ColumnExact` | lexer/lexer.c:23-35 | the column is the distance to the last newline before, or to the start |
| `Lexing.Tokenize` | lexer/lexer.c:802-827 | the loop ends, with the token list of the source |
| `Lexing.Lexer.NextToken` | lexer/lexer.c:437-645 | whitespace skipped, then one token or an error, cursor, line and column moved along |
| `Lexing.Lexer.Advance` | lexer/lexer.c:23-35 | one character on, line and column true for the new offset; at the end nothing |
| `Lexing.Lexer.LexNumber` | lexer/lexer.c:238-282 | prefixed integers, decimals with separators and a fraction only if a digit follows the point |
| `Lexing.Lexer.LexString` | lexer/lexer.c:386-413 | to the closing quote, a backslash taking the next character along; an error at the end of input |
| `Lexing.Lexer.LexCharLit` | lexer/lexer.c:334-384 | one character or escape between quotes |
| `Lexing.Lexer.LexBlockComment` | lexer/lexer.c:116-134 | to the first */ or the end of input |
| `Lexing.Lexer.LexSymbol` | lexer/lexer.c:495-644 | directives, the three dots, two-character operators before one-character ones, errors |
| `RoundTripTree.WalkExact` | arche_syntax_roundtrip.c:19-41 | the walk over any tree succeeds if and only if its leaves are in order inside the source, and then has written the source up to the last leaf |
| `RoundTripTree.RoundTrip` | arche_syntax_roundtrip.c:43-57 | the check accepts exactly the trees from which the source is rebuilt, and these are the ones whose leaves are in order |
| `RoundTripTree.TokensPass` | arche_syntax_roundtrip.c:43-57 | from every tree over the lexer's tokens in order the source is rebuilt exactly |
| `RoundTripTree.LostLeafPasses` | arche_syntax_roundtrip.c:1-11 | two trees, the second without one leaf of the first: if the source is rebuilt from the first, it is from the second |

## Left out

- Wasm compiler: scalars of other widths than 32 bits, unsigned scalars, operations on unsigned elements whose sign
  rule would show, 32-bit unsigned and 64-bit arrays, arrays of more than one dimension, slices, calls other than
  print, and statements the backend emits nothing for are outside `Supported`; there the code and the language differ
  by design.
- WasmPrintSim.PrintRuns: texts in which the second resolution of escapes changes something are outside `Supported`;
  `PrintTextExact` says which these are, and `WasmText.TwiceDiffers` shows one.
- WasmExprSim.EagerLogicExact: says nothing of operands without a meaning in the model, such as an index out of
  bounds; of these only the quotient of two literals that overflows is settled, in `EagerLogicDiffers`.
- Wasm compiler: beyond 256 locals or past the memory map the C code writes out of its tables; the model's tables are
  unbounded, and `Supported` asks that they fit.
- WasmExprSim.ExprRuns: constants may refer to constants; `depth` bounds how deep, and a program whose constants refer
  to themselves is not supported at any depth (the C recursion would not end).
- WasmEndToEnd.GeneratedCodeIsCorrect: does not say how the host formats numbers; a host call is the format and the
  evaluated arguments, read from the slots in the order the format's conversions name their kinds.
- Writing the file, custom sections, and parsing of instructions the backend never emits.
- Float rounding and NaN payloads: a float is eight bytes, operations on it are the host's.
- GpuDispatch.Gpu.Dispatch: shader lookup, device set-up and pipeline creation count as one call that may fail; Vulkan
  itself is its effect on buffers; one host column has one size.
- GpuMemory.RunsLikeOneMemory: the discipline `Legal` excludes host access to a dirty column, a resident dispatch of a
  column the host has written since, and, looking at the outcome, a dispatch that fails over a dirty column;
  `RetryExact`, `SyncedRetryExact` and `LoseExact` say exactly when such a failure loses data. A sync or upload in it
  succeeds. Its dispatches are of at least one element: one of none changes nothing, as `Gpu.Dispatch` says, and is no
  step of it.
- GpuDispatch.Gpu.UploadColumns: when a transfer fails the device copy of its column may hold anything.
- ShaderGrid.GridIsLoop: the `#version` header, the bindings and the choice of the element type are not modelled, only
  the body and the guard on `count`; `:=` locals are bound once and not named like a column, a constant or `i`;
  columns hold numbers of the element type and none has the name of a literal constant.
- ShaderLang: constants and locals declared with a type of their own, char literals, and the compiler's 4-lane loop
  over float columns, which computes row by row what the scalar one does. A CPU division by zero, which ends the
  program, and code the compiler's back end rejects have no value. A float operation is the same function on both
  sides: the shader's freedom in rounding a quotient or a root and in joining a product and a sum is not modelled.
- ShaderText.ReadBody: tokens, not characters: a literal with its sign is one token, spacing is not modelled, and of
  GLSL's keywords only those the text uses are kept apart from names; with a name that is another keyword the shader
  is not accepted by GLSL's compiler.
- ShaderMeans.RunExact: unary operators other than minus and literals with leading zeros are excluded, as
  `ShaderDiffers.UnaryExact` and `ShaderLower.LiteralExact` say; the shader's remainder truncates (`RemainderExact`);
  and the integers a float map computes with stay within 2^24 and no NaN is negated (`Settled`), beyond which the
  assumptions on floats decide nothing.
- ShaderSafe.SafeFits: sufficient for all bodies; exact for ranges (`OpSafeExact`) and for assignments whose
  operations that fail the test are on columns and integer literals (`AssignmentExact`, `UpdateTextExact`). A longer
  body that fails the test may still agree on every row.
- GroupExpand.ExpandMeans: tuple literals and tuple constants on the right-hand side are not modelled, nor the later
  passes that rewrite `pos.x` to `pos_x`; the right-hand side reads no component of the target that is written before
  its last one, and all its groups have the target's components.
- MatchDesugar.MatchExact: string patterns, whose chain compares texts instead; a pattern's value is what the lowerer
  takes from it, so that `-1` is the pattern 1.
- HotReloadSettles.ReachesLastEdit: assumes no hash collision and that every edit and publish gets a later time than
  the one before; several hosts sharing a directory, dlopen's own copies, the generation counter and a unit's removal
  are left out.
- HotReloadSettles.WatcherSettles: a build reads all sources in one step, while a real one may read some before an
  edit and some after; the session starts with the first sample, an edit just before it being `EarlyEditExact`'s.
- HotReload.RunNeverBackwards: the copy the host makes before dlopen is one step reading one file; the file read is
  the one the name led to when it was opened.
- ObjectCache.CacheIsRight: the compiler's steps are one step that may fail; removal of cached objects and disk errors
  that leave a short file behind a successful `cp` are not modelled.
- InspectServer.Server.Poke: request parsing (`sscanf`, names, buffer limits), LIST and SCHEMA are not modelled; a
  pool's memory is one byte array and its pointers are offsets into it.
- InspectClient.PokeThenRows: the value is an integer; the client's spelling of floats and chars is left out.
- ParReduce.ReduceIsFold: integer columns only; signed overflow, undefined in C, wraps around.
- Lexing.Tokenize: the decoded value of a char token and doc-comment classification; the source ends at its first NUL
  character, and letters are ASCII letters.
- RoundTripTree.WalkExact: a leaf that ends behind the source makes the walk fail; the C code would copy past the end.
- The parser, the semantic pass, the LLVM code generator and the bounds prover are not part of this model.
- The interactive inspector, help texts, project set-up, module search and variant selection would only add easy
  members.
