# spectrum_vm in Dafny

This project models the core of `spectrum_vm`, a toy register virtual machine
together with the assembler that produces its bytecode. The parts are:

- **Instruction set** (`instruction.dfy`, module `Instruction`). There are 25
  opcodes. The first 20 have numeric codes 0..19 and upper-case mnemonics.
  The two decoders are `From<u8>` and `From<&str>`, and each falls back to
  `NOP`. `RSHT`, `LFST`, `RROR` and `LROR` are declared but never decoded.
- **Lexer** (`lexer.dfy`, module `Lexer`). The class `Lexer` walks a text with
  a cursor and keeps a line counter and a start-of-line position. Each token
  is `#` + decimal (an `i32` integer operand), `$` + decimal (a `usize`
  register index), a mnemonic, or `Eof`. `ScanKind` and `LexFrom` are the
  specification functions, and they keep the source's quirks:
  - a bad literal or unknown word before a separator ends the stream with `Eof`,
    unless the error's column, the cursor minus the start of line, underflows
    (`set_content` keeps the old start of line), which panics;
  - the same thing at the very end of the text either panics in `unwrap`
    (bad literal) or yields `Operation(NOP)` (unknown word).
- **Parser** (`parser.dfy`, module `Parser`).
  - `Parser.parse` collects one instruction per `LOAD` token, taking the next
    two tokens as its operands. It panics when they are missing.
  - `AssemblyInstruction.as_bytes` writes the opcode byte and then the operand
    bytes: a register as one byte, an integer as a big-endian 16-bit pair.
    As written, it writes `operand_1` three times. `Encode` and `AsBytes`
    model that loop as it stands, and the program level uses them, as the
    source does. `EncodeIntended` and `AsBytesIntended` write each operand
    once (see Findings).
- **Program** (`program.dfy`, module `Program`). It concatenates the encodings
  of the parsed instructions.
- **Virtual machine** (`vm.dfy`, module `Vm`). It has:
  - 32 `i32` registers, a program counter, a byte heap, a division remainder
    and a comparison flag;
  - `execute_bytecode`, which fetches and runs one instruction;
  - `run`, which repeats it until it returns `false`.

  `Execute` is the step as a function on a `Machine` value. It returns
  `Panicked` wherever the Rust code panics (a debug build). The class `VM`
  and its methods are proved against it.
- **`hex_to_byte_arr`** (`utils.dfy`, module `Utils`). It parses
  space-separated hex bytes into a 4-byte array.
- **Numbers** (`numeric.dfy`, module `Numeric`). This holds Rust's
  `from_str_radix` for `i32`, `usize` and `u8`, including signs and the
  `Empty`/`InvalidDigit`/`PosOverflow`/`NegOverflow` errors. It also holds the
  `as` casts the core uses: `i32 as usize` on a 64-bit target, `as u16`,
  `as u32` and `as u8`.
- **End-to-end** (`pipeline.dfy`, module `Pipeline`). This has lexing lemmas
  for whole lines of assembly. The repository's unit tests are stated there
  as lemmas and methods.

Panics are modelled in two ways:
- specification functions return an error variant (`ScanPanic`,
  `LexPanic`, `None`, `Panicked`, `RunPanicked`);
- the imperative methods require that this variant does not occur.

## Model

| member | source | states |
|---|---|---|
| Numeric.I32AsUsize | spectrum_vm/src/vm.rs:74-82 | `i32 as usize` keeps non-negative values and maps a negative `x` to `2^64 + x`, which is above `i32::MAX` |
| Numeric.I32AsU16 | spectrum_vm/src/assembler/parser.rs:47 | `as u16` keeps values in `0..=0xFFFF` and otherwise agrees with its input modulo 2^16 |
| Numeric.I32AsU32 | spectrum_vm/src/vm.rs:70 | `as u32` of the remainder keeps non-negative values and adds 2^32 to negative ones |
| Numeric.BigEndian16 | spectrum_vm/src/vm.rs:164-169 | the 16-bit word read by `get_next_16_bits` has the first byte as its high byte and the second as its low byte |
| Numeric.FromStrRadix | spectrum_vm/src/assembler/lexer.rs:84 | a successful parse is within the target type's bounds, and the empty string is the `Empty` error |
| Numeric.AccumulateValue | spectrum_vm/src/assembler/lexer.rs:84 | digit-by-digit accumulation with overflow checks succeeds exactly when every character is a digit and the exact value fits, and it then yields that value |
| Numeric.FromStrRadixCharacterised | spectrum_vm/src/assembler/lexer.rs:117 | `from_str_radix` succeeds exactly when the text after an optional sign is non-empty, all digits, and its signed value is in range; it returns that value |
| Numeric.ParseI32Digits | spectrum_vm/src/assembler/lexer.rs:84 | a non-empty decimal digit string up to `i32::MAX` parses to its value |
| Numeric.ParseUsizeDigits | spectrum_vm/src/assembler/lexer.rs:117 | a non-empty decimal digit string up to `usize::MAX` parses as a `usize` to its value |
| Instruction.FromByte | spectrum_vm/src/instruction.rs:30-56 | a byte below 20 decodes to the opcode with that code; every other byte decodes to `NOP` |
| Instruction.FromMnemonic | spectrum_vm/src/instruction.rs:58-84 | any result other than `NOP` is one of the 20 decodable opcodes, and the input is exactly its mnemonic |
| Instruction.CodeInjective | spectrum_vm/src/instruction.rs:2-28 | distinct opcodes have distinct codes |
| Instruction.ByteRoundTrip | spectrum_vm/src/instruction.rs:30-56 | decoding a decodable opcode's code gives back that opcode |
| Instruction.MnemonicRoundTrip | spectrum_vm/src/instruction.rs:58-84 | decoding a decodable opcode's mnemonic gives back that opcode |
| Instruction.MnemonicLetters | spectrum_vm/src/instruction.rs:58-84 | every mnemonic is at least two upper-case ASCII letters |
| Instruction.UnknownMnemonics | spectrum_vm/src/instruction.rs:58-84 | matching is case-sensitive and exact: `"NOP"`, `"load"`, `"Load"`, `""` and `"RSHT"` all fall back to `NOP` |
| Instruction.DecodersAgree | spectrum_vm/src/instruction.rs:30-84 | whatever a mnemonic decodes to, its code decodes to the same opcode |
| Instruction.ReservedNeverDecoded | spectrum_vm/src/instruction.rs:30-84 | neither decoder ever yields `RSHT`, `LFST`, `RROR` or `LROR` |
| Lexer.WordEnd | spectrum_vm/src/assembler/lexer.rs:146-178 | a word runs up to the first space or newline, or to the end of the text |
| Lexer.ScanKind | spectrum_vm/src/assembler/lexer.rs:72-182 | a scan never moves backwards or lowers the line count, and any token other than `Eof` consumes at least one character |
| Lexer.LexFrom | spectrum_vm/src/assembler/lexer.rs:59-70 | a finished token stream ends at a position between its start and the end of the text |
| Lexer.LexStep | spectrum_vm/src/assembler/lexer.rs:59-70 | `tokenize` emits the scanned token and stops after `Eof`, otherwise continuing from where the scan left the cursor, line and line start |
| Lexer.WordEndUnique | spectrum_vm/src/assembler/lexer.rs:146-178 | any position that ends a separator-free run at a separator or the end of the text is where the word ends |
| Lexer.SkipSeparators | spectrum_vm/src/assembler/lexer.rs:141-145 | spaces and newlines are skipped without a token, each newline counting one line and moving the start of line |
| Lexer.ScanIntegerLiteral | spectrum_vm/src/assembler/lexer.rs:75-107 | `#` followed by a decimal up to `i32::MAX` and a separator or the end is an integer operand of that value, ending after the digits |
| Lexer.ScanRegisterLiteral | spectrum_vm/src/assembler/lexer.rs:108-140 | `$` followed by a decimal up to `usize::MAX` is a register token with that index |
| Lexer.ScanWord | spectrum_vm/src/assembler/lexer.rs:146-178 | a word that decodes to an opcode other than `NOP` is an operation token for that opcode |
| Lexer.ScanMnemonic | spectrum_vm/src/assembler/lexer.rs:146-178 | a decodable opcode's mnemonic in the text, followed by a separator or the end, scans to that operation |
| Lexer.ScanUnknownWordAtEnd | spectrum_vm/src/assembler/lexer.rs:170-174 | an unknown word at the very end of the text becomes `Operation(NOP)` rather than an error |
| Lexer.LexicalErrorEndsStream | spectrum_vm/src/assembler/lexer.rs:75-178 | a bad integer, a bad register or an unknown word before a separator, with the start of line not beyond that separator, ends the stream with one `Eof` token spanning it |
| Lexer.LexicalErrorUnderflows | spectrum_vm/src/assembler/lexer.rs:75-178 | the same error with the start of line beyond the separator panics, because the column `offset() - start_of_line` (lines 90, 123 and 160) underflows |
| Lexer.StreamEndsWithEof | spectrum_vm/src/assembler/lexer.rs:59-70 | every finished token stream is non-empty, its last token is `Eof`, and no earlier token is |
| Lexer.TokenSpans | spectrum_vm/src/assembler/lexer.rs:184-189 | the tokens tile the text they cover: each begins where the previous one ended, each non-`Eof` token is non-empty, and each length equals end minus start |
| Lexer.Lexer.constructor | spectrum_vm/src/assembler/lexer.rs:42-51 | a new lexer holds the content at offset 0, line 0, start of line 0, and has no tokens |
| Lexer.Lexer.SetContent | spectrum_vm/src/assembler/lexer.rs:53-57 | replaces the content, sets its length and rewinds the cursor, keeping the line, start of line and tokens already found |
| Lexer.Lexer.Offset | spectrum_vm/src/assembler/lexer.rs:198-200 | the offset is the cursor position |
| Lexer.Lexer.Peek | spectrum_vm/src/assembler/lexer.rs:193-195 | there is a next character exactly when the cursor is inside the text, and it is the character at the cursor |
| Lexer.Lexer.IsAtEnd | spectrum_vm/src/assembler/lexer.rs:202-204 | the lexer is at the end exactly when there is nothing to peek |
| Lexer.Lexer.MatchKind | spectrum_vm/src/assembler/lexer.rs:72-182 | the kind returned and the new cursor, line and start of line are those of `ScanKind` |
| Lexer.Lexer.MatchIntegerOperand | spectrum_vm/src/assembler/lexer.rs:75-107 | after `#`, the literal is read as `ScanKind` reads it, and the cursor stops where it does; the error's column is computed without underflow |
| Lexer.Lexer.MatchRegister | spectrum_vm/src/assembler/lexer.rs:108-140 | after `$`, the register is read as `ScanKind` reads it; the error's column is computed without underflow |
| Lexer.Lexer.MatchOperation | spectrum_vm/src/assembler/lexer.rs:146-178 | a word is read as `ScanKind` reads it: an opcode, `Eof` on an unknown word, or `NOP` at the end; the error's column is computed without underflow |
| Lexer.Lexer.NextToken | spectrum_vm/src/assembler/lexer.rs:184-189 | the token spans from the old cursor to the new one, with the scanned kind |
| Lexer.Lexer.PushNextToken | spectrum_vm/src/assembler/lexer.rs:60-68 | one loop turn of `tokenize` appends exactly one token, which is the head of the remaining stream, and moves forward unless it is `Eof` |
| Lexer.Lexer.Tokenize | spectrum_vm/src/assembler/lexer.rs:59-70 | the tokens list grows by exactly the token stream `LexFrom` gives, which ends in `Eof`, and the cursor, line and start of line end where that stream ends |
| Parser.OperandBytes | spectrum_vm/src/assembler/parser.rs:42-66 | a missing operand writes nothing, an integer writes two bytes, and a register writes one byte |
| Parser.EncodeShape | spectrum_vm/src/assembler/parser.rs:28-70 | as written, encoding fails exactly when the opcode slot is not an operation or `operand_1` is unencodable; otherwise it is the code and then `operand_1`'s bytes three times, whatever operands 2 and 3 hold |
| Parser.EncodeIntendedShape | spectrum_vm/src/assembler/parser.rs:28-70 | with each operand written once (see Findings), encoding fails exactly when the opcode slot is not an operation or some operand is neither a register nor an integer; otherwise it is the opcode's code followed by each operand's bytes, in order and at known offsets |
| Parser.OperandAsBytes | spectrum_vm/src/assembler/parser.rs:42-66 | one turn of the operand loop pushes exactly the slot's bytes |
| Parser.IntegerOperandBytes | spectrum_vm/src/assembler/parser.rs:45-56 | an integer operand is two bytes, high first, whose big-endian value is the integer modulo 2^16, and the integer itself when it fits in 16 bits |
| Parser.RegisterOperandBytes | spectrum_vm/src/assembler/parser.rs:57-59 | a register operand is the single byte `reg_index as u8` |
| Parser.RepeatStep | spectrum_vm/src/assembler/parser.rs:40 | writing the operand bytes once more appends them once more |
| Parser.AssemblyInstruction.AsBytes | spectrum_vm/src/assembler/parser.rs:28-70 | the loop as it stands, visiting `operand_1` three times, pushes exactly the bytes `Encode` gives for the instruction |
| Parser.AssemblyInstruction.AsBytesIntended | spectrum_vm/src/assembler/parser.rs:28-70 | the loop visiting each operand once (see Findings) pushes exactly the bytes `EncodeIntended` gives |
| Parser.ParseFrom | spectrum_vm/src/assembler/parser.rs:91-113 | each parsed instruction takes three tokens, so there are at most a third as many instructions as tokens |
| Parser.LoadsAt | spectrum_vm/src/assembler/parser.rs:99-104 | one `LOAD` instruction per head position, in order, made of the `LOAD` token and the next two tokens |
| Parser.ParseByHeads | spectrum_vm/src/assembler/parser.rs:91-113 | if the tokens split into `LOAD` heads with no other `LOAD` between them, parsing gives exactly the instructions at those heads |
| Parser.ParseHasHeads | spectrum_vm/src/assembler/parser.rs:91-113 | conversely, every successful parse has such heads, and its result is the instructions at them |
| Parser.SkipToLoad | spectrum_vm/src/assembler/parser.rs:95-109 | tokens that are not `LOAD` operations are skipped |
| Parser.HeadsApart | spectrum_vm/src/assembler/parser.rs:99-104 | each head's two operand tokens lie within the range parsed |
| Parser.ParsePanics | spectrum_vm/src/assembler/parser.rs:101-102 | a `LOAD` with fewer than two tokens after it makes parsing panic in `unwrap` |
| Parser.PanicHasCause | spectrum_vm/src/assembler/parser.rs:101-102 | parsing panics only because of such a truncated `LOAD` |
| Parser.Parser.constructor | spectrum_vm/src/assembler/parser.rs:78-80 | the parser holds the given tokens |
| Parser.Parser.Default | spectrum_vm/src/assembler/parser.rs:82-84 | the default parser holds no tokens |
| Parser.Parser.SetTokens | spectrum_vm/src/assembler/parser.rs:86-88 | replaces the tokens |
| Parser.Parser.Parse | spectrum_vm/src/assembler/parser.rs:91-113 | the iterator loop returns exactly the instructions `ParseFrom` gives |
| Program.ProgramBytesDefined | spectrum_vm/src/assembler/program.rs:16-22 | with the encoder as written, a program encodes (does not exit) exactly when every instruction does |
| Program.ProgramBytesLayout | spectrum_vm/src/assembler/program.rs:16-22 | the bytecode is as long as all the as-written encodings together, and each instruction's bytes sit right after those of the instructions before it |
| Program.LayoutAt | spectrum_vm/src/assembler/program.rs:18-20 | appending one instruction leaves the earlier instructions' bytes in place and puts the new bytes at the end |
| Program.ProgramBytesAppend | spectrum_vm/src/assembler/program.rs:16-22 | the encoding of two instruction lists joined is the two encodings joined |
| Program.Program.Default | spectrum_vm/src/assembler/program.rs:8-10 | the default program has no instructions |
| Program.Program.SetInstructions | spectrum_vm/src/assembler/program.rs:12-14 | replaces the instructions |
| Program.Program.AsBytes | spectrum_vm/src/assembler/program.rs:16-22 | appending each instruction's `as_bytes` (as written) gives exactly `ProgramBytes` of the instructions; it requires only that no instruction makes `as_bytes` exit |
| Program.DefaultProgramBytes | spectrum_vm/src/assembler/program.rs:8-22 | the default program writes out no bytes |
| Vm.TruncRem | spectrum_vm/src/vm.rs:70 | Rust's `%` leaves a remainder smaller in magnitude than the divisor |
| Vm.TruncDivision | spectrum_vm/src/vm.rs:62-73 | Rust's truncating `/` and `%` satisfy dividend = quotient × divisor + remainder, with the remainder smaller than the divisor and of the dividend's sign |
| Vm.TruncMagnitudes | spectrum_vm/src/vm.rs:62-73 | truncating quotient and remainder have the magnitudes of the Euclidean ones, and they agree with them on non-negative operands |
| Vm.QuotientFits | spectrum_vm/src/vm.rs:62-73 | an `i32` quotient overflows only for `i32::MIN / -1` |
| Vm.ResizeProperties | spectrum_vm/src/vm.rs:137-140 | `resize(n, 0)` leaves exactly `n` bytes, keeps the old ones that fit, zero-fills the rest, and is idempotent |
| Vm.LoadStep | spectrum_vm/src/vm.rs:39-43 | `LOAD` never changes the bytecode |
| Vm.ArithStep | spectrum_vm/src/vm.rs:44-61 | arithmetic never changes the bytecode |
| Vm.DivStep | spectrum_vm/src/vm.rs:62-73 | division never changes the bytecode |
| Vm.JumpStep | spectrum_vm/src/vm.rs:74-82 | jumps never change the bytecode |
| Vm.AlocStep | spectrum_vm/src/vm.rs:137-140 | `ALOC` never changes the bytecode |
| Vm.Execute | spectrum_vm/src/vm.rs:33-150 | past the end of the bytecode nothing happens and the step returns `false`, and no step changes the bytecode |
| Vm.IterateAdditive | spectrum_vm/src/vm.rs:26-31 | running `a + b` steps is running `a` steps and then `b` more from where the machine is, unless it has already stopped or panicked |
| Vm.RunForStep | spectrum_vm/src/vm.rs:26-31 | `run` goes on exactly while `execute_bytecode` returns `true` |
| Vm.RunForAdditive | spectrum_vm/src/vm.rs:26-31 | `run` in two stretches is `run` in one |
| Vm.StopsExactly | spectrum_vm/src/vm.rs:33-150 | a step returns `false` exactly past the end of the bytecode, on `HLT` or any byte that decodes to `NOP` (moving one byte), or on a division by zero (moving past the instruction and changing nothing else) |
| Vm.LoadSemantics | spectrum_vm/src/vm.rs:39-43 | `LOAD` panics exactly on missing operands or a bad register; otherwise that register gets the big-endian 16-bit value, the counter moves four bytes, and nothing else changes |
| Vm.ArithSemantics | spectrum_vm/src/vm.rs:44-61 | `ADD`, `SUB` and `MUL` panic exactly on missing operands, bad registers or `i32` overflow; otherwise the destination gets the sum, difference or product, the counter moves four bytes, and nothing else changes |
| Vm.DivSemantics | spectrum_vm/src/vm.rs:62-73 | with a non-zero divisor, `DIV` panics exactly for `i32::MIN / -1` or a bad destination; otherwise the destination holds the truncating quotient and the remainder register `as u32` of the matching remainder, and the flag and heap stay |
| Vm.CompareSemantics | spectrum_vm/src/vm.rs:93-128 | each comparison sets the flag to its relation (`LE` is strict `<`), the counter moves four bytes even though only two operands are read, and it panics exactly when those two are missing or name no register |
| Vm.JumpSemantics | spectrum_vm/src/vm.rs:74-82 | `JMP` sets the counter to the target, `JMPF` to `pc + 2 + target` and `JMPB` to `pc + 2 - target`, panicking exactly on `usize` overflow or underflow; nothing else changes |
| Vm.ConditionalJumpSemantics | spectrum_vm/src/vm.rs:83-92 | `JEQ` (`JNEQ`) jumps to the target when the flag is true (false); otherwise it moves only past the opcode without reading the operand |
| Vm.IncDecSemantics | spectrum_vm/src/vm.rs:129-136 | `INC`/`DEC` add or subtract one, panicking exactly at the `i32` bounds; the counter moves four bytes and nothing else changes |
| Vm.AlocSemantics | spectrum_vm/src/vm.rs:137-140 | `ALOC` panics exactly on a negative size; otherwise the heap becomes exactly that size, keeping old bytes and zero-filling the rest, the counter moves two bytes, and repeating it leaves the heap unchanged |
| Vm.VM.constructor | spectrum_vm/src/vm.rs:14-24 | a new machine has all registers, the counter and the remainder at zero, the flag false, and no bytecode or heap |
| Vm.VM.GetInstructionFromBytecode | spectrum_vm/src/vm.rs:152-156 | decodes the byte at the counter and moves past it |
| Vm.VM.GetNext8Bits | spectrum_vm/src/vm.rs:158-162 | returns the byte at the counter and moves past it |
| Vm.VM.GetNext16Bits | spectrum_vm/src/vm.rs:164-169 | returns the next two bytes as a big-endian word and moves past both |
| Vm.VM.SkipNext8Bits | spectrum_vm/src/vm.rs:171-173 | moves the counter one byte |
| Vm.VM.SkipNext16Bits | spectrum_vm/src/vm.rs:175-177 | moves the counter two bytes |
| Vm.VM.ExecLoad | spectrum_vm/src/vm.rs:39-43 | the object performs the `LOAD` step of the model |
| Vm.VM.ExecArith | spectrum_vm/src/vm.rs:44-61 | the object performs the `ADD`/`SUB`/`MUL` step of the model |
| Vm.VM.ExecDiv | spectrum_vm/src/vm.rs:62-73 | the object performs the `DIV` step, returning `false` on a zero divisor |
| Vm.VM.ExecJump | spectrum_vm/src/vm.rs:74-82 | the object performs the `JMP`/`JMPF`/`JMPB` step |
| Vm.VM.ExecConditionalJump | spectrum_vm/src/vm.rs:83-92 | the object performs the `JEQ`/`JNEQ` step |
| Vm.VM.ExecCompare | spectrum_vm/src/vm.rs:93-128 | the object performs the comparison step |
| Vm.VM.ExecIncDec | spectrum_vm/src/vm.rs:129-136 | the object performs the `INC`/`DEC` step |
| Vm.VM.ExecAloc | spectrum_vm/src/vm.rs:137-140 | the object performs the `ALOC` step |
| Vm.VM.ExecuteBytecode | spectrum_vm/src/vm.rs:33-150 | one call changes the object's state exactly as `Execute` does, and returns its keep-running flag |
| Vm.VM.Run | spectrum_vm/src/vm.rs:26-31 | within the fuel, the loop ends in the state `RunFor` gives, and it reports whether the machine halted |
| Utils.SplitSpaces | spectrum_vm/src/utils.rs:7 | splitting on `" "` gives at least one piece, and no piece contains a space |
| Utils.SplitJoin | spectrum_vm/src/utils.rs:7 | joining the pieces with single spaces gives back the text |
| Utils.JoinSplit | spectrum_vm/src/utils.rs:7 | splitting space-free pieces joined by spaces gives back the pieces |
| Utils.FirstError | spectrum_vm/src/utils.rs:9-17 | there is no first parse error exactly when every piece parses as a hex `u8` |
| Utils.FillBytes | spectrum_vm/src/utils.rs:5-19 | a successful conversion is always four bytes |
| Utils.FirstErrorAt | spectrum_vm/src/utils.rs:15 | the error returned is the one of the first piece that fails |
| Utils.PaddedStep | spectrum_vm/src/utils.rs:12-13 | storing a parsed piece sets only its own slot of the array |
| Utils.StoreInBounds | spectrum_vm/src/utils.rs:12 | when the text does not overrun, every store is into one of the four slots |
| Utils.FillBytesAllParse | spectrum_vm/src/utils.rs:5-19 | when every piece parses, there are at most four pieces and the result is their values, then zeros |
| Utils.FillBytesCharacterised | spectrum_vm/src/utils.rs:5-19 | the conversion fails exactly when some piece is not a hex byte, with the error of the first such piece; otherwise it holds the pieces' values, then zeros |
| Utils.HexToByteArr | spectrum_vm/src/utils.rs:5-19 | the loop's result is `HexBytes` of the text |
| Utils.EmptyTextFails | spectrum_vm/src/utils.rs:7-15 | the empty text is one empty piece, which fails with `Empty` |
| Utils.HexPairParses | spectrum_vm/src/utils.rs:10 | every byte written as two hex digits parses back to itself |
| Utils.HexRoundTrip | spectrum_vm/src/utils.rs:5-19 | four bytes written as `"hh hh hh hh"` convert back to exactly those four bytes |
| Pipeline.LexLoadLine | spectrum_vm/src/assembler/lexer.rs:72-182 | a line `LOAD $d #500` (one digit `d`) lexes to an operation, a register `d` and an integer 500, with their spans |
| Pipeline.LexRegisterLine | spectrum_vm/src/assembler/lexer.rs:72-182 | a line `OP $a $b $c` lexes to the operation and three registers, with their spans |
| Pipeline.LexLoadTest | spectrum_vm/src/assembler/lexer.rs:220-250 | `"LOAD $1 #500"` lexes to `Operation(LOAD)`, `Register(1)`, `IntegerOperand(500)`, then `Eof` |
| Pipeline.MultipleLinesTest | spectrum_vm/src/assembler/lexer.rs:253-269 | in the three-line text, tokens 3, 5 and 7 are `Operation(ADD)`, `Register(1)` and `Operation(DIV)` |
| Pipeline.ParseLoadTest | spectrum_vm/src/assembler/parser.rs:127-141 | `"LOAD $1 #500\n"` parses to one `LOAD` instruction with register 1 and integer 500 |
| Pipeline.StaleLineStartLex | spectrum_vm/src/assembler/lexer.rs:141-182 | `"\n\n"` lexes to one `Eof` on line 2 with the start of line at 2, and `"x y"` lexed from there panics on the column of `x` |
| Pipeline.StaleLineStart | spectrum_vm/src/assembler/lexer.rs:53-57 | after tokenizing `"\n\n"`, `set_content("x y")` leaves the start of line at 2, and the next `tokenize` panics on the column `1 - 2` of the unknown word `x` |
| Pipeline.TwoLoadsAssemble | spectrum_vm/src/assembler/program.rs:32-42 | two `LOAD $1 #500` lines parse to two instructions that encode, as written, to the eight bytes `[1, 1, 1, 1, 1, 1, 1, 1]` |
| Pipeline.ProgramLengthTest | spectrum_vm/src/assembler/program.rs:32-42 | the lexer, parser and program objects in sequence give two instructions and eight bytes, as the test asserts; the bytes are `[1, 1, 1, 1, 1, 1, 1, 1]` |
| Pipeline.LoadTest | spectrum_vm/src/vm.rs:185-190 | `[1, 1, 1, 244]` loads 500 into register 1 and then halts |
| Pipeline.ArithTests | spectrum_vm/src/vm.rs:193-220 | 6 + 6 = 12, 5 - 4 = 1 and 5 × 2 = 10 end up in register 2 |
| Pipeline.DivTest | spectrum_vm/src/vm.rs:223-231 | 10 / 3 leaves 3 in register 2 and 1 as the remainder |
| Pipeline.DivByZeroTest | spectrum_vm/src/vm.rs:234-241 | dividing by zero halts at once with the flag false and only the counter moved |
| Pipeline.JumpTests | spectrum_vm/src/vm.rs:244-269 | `JMP`, `JMPF` and a taken `JEQ` to register 0 (= 5) end with the counter at 5, 7 and 5 |
| Pipeline.LoadAsWritten | spectrum_vm/src/assembler/parser.rs:40 | as written, `LOAD $r #v` encodes to `[1, r, r, r]`, which loads `257 × r` and not `v` |
| Pipeline.EndiannessAsWritten | spectrum_vm/src/assembler/program.rs:45-58 | as written, `"LOAD $1 #500"` parses to one instruction, the program's bytes are `[1, 1, 1, 1]`, and they leave 257 in register 1, not 500 |
| Pipeline.LoadIntended | spectrum_vm/src/assembler/parser.rs:28-70 | with each operand written once, `LOAD $r #v` (v < 2^16) encodes to `[1, r, hi, lo]` and loads exactly `v` into register `r` |
| Pipeline.EndiannessIntended | spectrum_vm/src/assembler/program.rs:45-58 | with each operand written once, `"LOAD $1 #500"` parses to one instruction whose bytes are `[1, 1, 1, 244]`, and register 1 ends at 500 |

## Left out

- `repl/cli.rs` and `main.rs` (the interactive shell and the entry point) are not part of this model.
- Console output is not modelled. This covers every `println!`, `handle_lexical_error` (which only formats and prints a message) and the `[FATAL]` messages.
- `std::process::exit(-1)` in `as_bytes` becomes a `None` encoding. The methods that encode require `Some`.
- `unwrap` and index panics become error variants of the specification functions. The methods require that those variants do not occur:
  - `Parser.Parser.Parse`, `Lexer.Lexer.Tokenize` and `Utils.HexToByteArr` require that no panic happens;
  - `Vm.VM.ExecuteBytecode` and `Vm.VM.Run` require that no panic happens.
- `handle_parsing_error` is only `todo!()` and is never called, so it is not modelled.
- The VM's `stack` field is never used by any instruction, so it is left out of `Machine`.
- `RSHT`, `LFST`, `RROR` and `LROR` have no decoder entry and no behaviour. The model only proves that they are never produced.
- Text is modelled as a sequence of characters. The lexer's `offset` counts UTF-8 bytes, so the model matches it only on ASCII text.
- Arithmetic is modelled as in a debug build, where overflow panics. Release-build wrap-around is not modelled.
- `ALOC` failing on a memory allocation is not modelled. A negative size becomes a size past `isize::MAX`, which panics.
- Vm.VM.Run: `run` loops with no bound, but the model runs it for at most `fuel` steps. A machine that never halts shows up as `OutOfFuel` and is not a proved divergence.
- Utils.HexToByteArr: it requires the text not to overrun the 4-byte array, which is where the source panics. It does not model that panic.
- The tests build `Program { instructions: … }` with a struct literal. The model uses `Default` and then `SetInstructions`.
- Lexer.Lexer.constructor: it stores `content_len` as given. The source never reads it, so it is not related to the length of the content.
- Lexer.Lexer.Tokenize: the `loop`/`break` is modelled as a loop on a done flag.
- Pipeline.LexLoadLine: it covers `LOAD` lines whose register is one digit and whose integer is 500. Pipeline.LexRegisterLine likewise covers one-digit registers. These are the shapes the tests use.

## Findings

| source | as written | input that shows it | evidently intended | confidence | as-written member | corrected member |
|---|---|---|---|---|---|---|
| spectrum_vm/src/assembler/parser.rs:40 | the operand loop iterates over `operand_1` three times, so operands 2 and 3 are never written and `operand_1`'s bytes are repeated | `LOAD $1 #500` assembles to `[1, 1, 1, 1]`, which loads 257 into register 1, so the `endianess` test's expected 500 is not met | iterate over `operand_1`, `operand_2`, `operand_3` once each, giving `[1, 1, 1, 244]` and 500 in register 1 | high (not executed) | Pipeline.EndiannessAsWritten | Pipeline.EndiannessIntended |
