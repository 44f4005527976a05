# Instruction synthesis for ViperASM

This Dafny project models the synthesis stage of the ViperASM assembler, which is written in Go.
That stage turns one parsed assembly instruction into a 32-bit machine word. It has these parts:

- a fixed instruction set, mapping each mnemonic to its format, opcode and function code;
- a fixed register map, mapping each ABI register name to its index;
- one encoder for each implemented format (R, I and J);
- a dispatcher, `synthesize`, which looks up the mnemonic and runs the encoder for its format.

An encoder looks up its register operands in a fixed order. If a name is unknown, it returns word 0 and an error naming the first unknown operand and its role. Otherwise it packs these into the word with shifts and ORs in 32-bit arithmetic:

- the table's opcode;
- the register indices;
- the record's shift amount, function code, immediate or address.

The dispatcher wraps an encoder error together with the format it came from. It rejects an unknown mnemonic, and it rejects a format that has no encoder.

The modules are:

- `Bits`: Go's fixed-width integers and the `uint32(x)` conversion.
- `Layout`: the R, I and J bit layouts. Their decoders and encoders are proved inverse in both directions.
- `Tables`: the instruction set and the register map.
- `Encoders`: the three format encoders and their field-level properties.
- `Synthesis`: the dispatcher.

Go's integer types are represented as follows:

- A Go `uint8` is a `bv8` and a `uint32` is a `bv32`.
- The record fields `imm int16` and `addr int32` are held as their two's-complement bit patterns (`bv16`, `bv32`). `Bits.Int16Value` and `Bits.Int32Value` give the integer each pattern denotes.
- Go's `(uint32, error)` result is `Output(word, err)`. The word is 0 whenever `err` is present.

Some behaviour worth noting:

- The word layout is the classic MIPS32 R/I/J layout (opcode in bits 31..26) that the code builds, even though its comments and register names are RISC-V (synthesis.go:5-16, 41-74).
- There is no format-mismatch error and no immediate-range error, because the code has neither. An `int16` immediate is always accepted and stored as its low 16 bits.
- Errors are classified by kind, role and name. The `fmt.Errorf` message text (synthesis.go:112, 117, 122, 161, 168, 187) is not reproduced.

## Model

| member | source | states |
|---|---|---|
| Tables.InstructionSetFormats | synthesis.go:26-38 | every mnemonic in the instruction set has format R or I, and its opcode fits in six bits |
| Tables.RegisterNamesIndexed | synthesis.go:41-74 | every index 0..31 has a register name, and the register map sends that name back to the index |
| Tables.RegisterIndexInRange | synthesis.go:41-74 | every register name maps to an index in 0..31, so it fits a 5-bit field, and that index names it back |
| Tables.RegisterMapInjective | synthesis.go:41-74 | no two register names share an index |
| Tables.RegisterMapSize | synthesis.go:41-74 | the register map has exactly 32 names, which are exactly the names listed by index |
| Bits.Int16Value | synthesis.go:99 | an `int16` pattern denotes a value in [-2^15, 2^15) that is congruent to the pattern modulo 2^16, and it is negative exactly when the top bit is set |
| Bits.Int16ValueInjective | synthesis.go:99 | two patterns denoting the same `int16` value are equal |
| Bits.Int16ValueOnto | synthesis.go:99 | every value in [-2^15, 2^15) is denoted by some `int16` pattern |
| Bits.Unsigned16 | synthesis.go:99 | helper of `Bits.Int16ValueOnto`: it builds the witness pattern, which reads back as the given value in [0, 2^16) |
| Bits.Int32ValueInjective | synthesis.go:105 | two patterns denoting the same `int32` value are equal |
| Bits.Int32ValueOnto | synthesis.go:105 | every value in [-2^31, 2^31) is denoted by some `int32` pattern |
| Bits.Unsigned32 | synthesis.go:105 | helper of `Bits.Int32ValueOnto`: it builds the witness pattern, which reads back as the given value in [0, 2^32) |
| Bits.Int32Value | synthesis.go:105 | an `int32` pattern denotes a value in [-2^31, 2^31) that is congruent to the pattern modulo 2^32 |
| Bits.SignExtend16IsUint32 | synthesis.go:147 | Go's `uint32(imm)` of an `int16` is its 16-bit sign extension, i.e. the value modulo 2^32 |
| Bits.Uint32OfInt32 | synthesis.go:154 | Go's `uint32(addr)` of an `int32` leaves the bit pattern unchanged |
| Bits.Uint32OfIndex | synthesis.go:125-127 | `uint32(i)` of a register index 0..31 is that index in the low five bits |
| Bits.Low26Signed | synthesis.go:154 | the low 26 bits of an `int32`, read unsigned, are its value modulo 2^26 |
| Bits.SignExtend16Low | synthesis.go:147 | masking a sign-extended immediate with 0xFFFF gives back the immediate's 16 bits |
| Layout.EncodeR | synthesis.go:124-129 | decoding the R-format word built from a set of fields gives those fields back |
| Layout.EncodeDecodeR | synthesis.go:124-129 | every word is the R-format encoding of its own decoded fields |
| Layout.EncodeI | synthesis.go:144-147 | decoding the I-format word built from a set of fields gives those fields back |
| Layout.EncodeDecodeI | synthesis.go:144-147 | every word is the I-format encoding of its own decoded fields |
| Layout.EncodeJ | synthesis.go:153-154 | decoding the J-format word built from a set of fields gives those fields back |
| Layout.EncodeDecodeJ | synthesis.go:153-154 | every word is the J-format encoding of its own decoded fields |
| Layout.OpcodeIsTopBits | synthesis.go:124 | all three formats read the opcode from the same six bits at the top of the word |
| Encoders.FirstInvalidRegister | synthesis.go:110-123 | the reference for the register checks: it reports nothing exactly when every operand names a register; otherwise it reports, with its role, an operand that is unknown while all earlier ones are known |
| Encoders.RegisterField | synthesis.go:110-127 | a known register's 5-bit field holds its index |
| Encoders.SynthesizeRType | synthesis.go:109-131 | the error is the first unknown register among rs, rt, rd, in that order with its role; success happens exactly when all three are known; the word is 0 on error |
| Encoders.RTypeFields | synthesis.go:124-130 | a successful R-type word decodes to: the table opcode cut to six bits; the indices of rs and rt; rd's index ORed with shamt's top three bits; shamt's low five bits ORed with funct's top two bits; funct cut to six bits |
| Encoders.RTypeRoundTrip | synthesis.go:124-130 | when opcode < 64, shamt < 32 and funct < 64, the word is exactly the R-format encoding of the opcode, the three register indices, shamt and funct |
| Encoders.RTypeShamtOverflowsIntoDestination | synthesis.go:127-128 | with shamt 32, "add zero, zero, zero" yields a word whose destination field names register 1 |
| Encoders.RTypeAddExample | synthesis.go:124-129 | the R-type encoder packs "add t0, t1, t2" (opcode 0, funct 0x20) into 0x00C72820 |
| Encoders.RTypeIgnoresUnreadFields | synthesis.go:124-129 | the R-type result does not depend on the record's opcode, the table's function code or the table's format |
| Encoders.SynthesizeIType | synthesis.go:134-149 | the error is the first unknown register among rs, rt, with its role; success happens exactly when both are known, so no immediate is ever rejected; the word is 0 on error |
| Encoders.ITypeFields | synthesis.go:144-148 | a successful I-type word decodes to the table opcode cut to six bits, the two register indices and the immediate's bit pattern; that field is the immediate modulo 2^16 and sign-extends back to the immediate |
| Encoders.ITypeAddiExample | synthesis.go:144-147 | the I-type encoder packs "addi t0, zero, -1" into 0x2005FFFF, with the immediate stored as 0xFFFF |
| Encoders.ITypeIgnoresUnreadFields | synthesis.go:144-147 | the I-type result does not depend on the record's opcode, the table's function code or the table's format |
| Encoders.SynthesizeJType | synthesis.go:152-156 | the J-type encoder never fails |
| Encoders.JTypeFields | synthesis.go:153-155 | a J-type word decodes to the table opcode cut to six bits and the low 26 bits of the address |
| Encoders.JTypeTarget | synthesis.go:154 | the target field of a J-type word is the address value modulo 2^26, so negative addresses wrap |
| Encoders.JTypeIgnoresUnreadFields | synthesis.go:153-154 | the J-type result does not depend on the record's opcode, the table's function code or the table's format |
| Synthesis.Wrap | synthesis.go:166-185 | an encoder's error is returned wrapped with its format, with word 0; an encoder's success is returned unchanged |
| Synthesis.SynthesizeWith | synthesis.go:158-189 | the dispatcher over any instruction table: the error is "invalid instruction name" exactly when the mnemonic is not in the table; the word is 0 on every error |
| Synthesis.Synthesize | synthesis.go:158-189 | over the instruction set: the error is "invalid instruction name" exactly when the mnemonic is not in the instruction set; the word is 0 on every error |
| Synthesis.SynthesizeDispatch | synthesis.go:164-188 | for any instruction table and a mnemonic in it: an R or I entry gives the wrapped result of that format's encoder; a J entry always succeeds with the J-type encoder's word; any other format is rejected as an unknown instruction type |
| Synthesis.SynthesizeJumpExample | synthesis.go:179-185 | with a "j" entry (opcode 2) added to the table, "j" to address -1 synthesizes to 0x0BFFFFFF, so the J arm is reachable from some table |
| Synthesis.SynthesizeStoreFormatExample | synthesis.go:186-187 | with an S-type "sw" entry added to the table, "sw" is rejected as an unknown instruction type with word 0 |
| Synthesis.SynthesizeKnownMnemonic | synthesis.go:158-185 | for every mnemonic in the instruction set, synthesis succeeds exactly when all of its register operands are known, and then the word's top six bits are the mnemonic's opcode; otherwise the error is the first unknown operand, with its role, wrapped with the format |
| Synthesis.SynthesizeAddExample | synthesis.go:158-171 | "add t0, t1, t2" synthesizes to 0x00C72820 |
| Synthesis.SynthesizeAddiExample | synthesis.go:158-178 | "addi t0, zero, -1" synthesizes to 0x2005FFFF: the immediate -1 is stored as 0xFFFF |
| Synthesis.SynthesizeUnknownMnemonicExample | synthesis.go:159-162 | "jal" is rejected as an invalid instruction name, with word 0 |
| Synthesis.SynthesizeBadRegisterExample | synthesis.go:115-118 | register names are case-sensitive: "add" with target "T0" fails on the target, before the unknown destination is checked |

## Left out

- Error messages: the `fmt.Errorf` text is not modelled. Errors are the datatypes `EncodeError` and `SynthesisError`, which carry the same information: the failing check, the operand role, the offending name and the format.
- Nil operand pointers: `synthesize` dereferences `asm.rType`, `asm.iType` or `asm.jType` without checking it, and a nil pointer panics in Go. The model instead requires (`Synthesis.OperandsPresent`) that the record for the mnemonic's format is present. The panic itself is not modelled.
- S-, B- and U-type encoding: the code declares these formats but has no encoder for them, so they fall to the dispatcher's "unknown instruction type" branch. No mnemonic in the instruction set is S-, B-, U- or J-type (`Tables.InstructionSetFormats`), so with this table the J arm and the default arm of `synthesize` (synthesis.go:179-187) are unreachable, in the code as in the model. `Synthesis.SynthesizeKnownMnemonic` therefore covers R and I only. The dispatcher is defined over any table as `Synthesis.SynthesizeWith`, and `Synthesize` is `SynthesizeWith` over the instruction set. `Synthesis.SynthesizeDispatch` states all four arms for every table, and `Synthesis.SynthesizeJumpExample` and `Synthesis.SynthesizeStoreFormatExample` exhibit tables that reach the J arm and the default arm.
- Error branch for J-type: synthesis.go:181-183 wraps a J-type encoder error that can never occur. The model keeps the branch, and `Encoders.SynthesizeJType` proves it dead.
- `Encoders.RTypeRoundTrip`: it requires shamt < 32 and funct < 64, because the code does not mask those fields and wider values spill into the neighbouring fields. The behaviour for every input is stated by `Encoders.RTypeFields`.
- Go integers: `int16` and `int32` record fields are held as bit patterns rather than as bounded integers. The integer view is `Bits.Int16Value` / `Bits.Int32Value`, and every Go value is represented by exactly one pattern: `Bits.Int16ValueInjective` and `Bits.Int16ValueOnto` prove this for `int16`, and `Bits.Int32ValueInjective` and `Bits.Int32ValueOnto` for `int32`. Hence `Encoders.ITypeFields` and `Encoders.JTypeTarget`, stated over patterns, cover every Go `int16` immediate and every `int32` address. The encoders compute `uint32(imm)` and `uint32(addr)` at bit level, and `Bits.SignExtend16IsUint32` and `Bits.Uint32OfInt32` prove this equal to Go's conversion.
- The rest of the assembler is not part of this model: file reading, the lexer, the parser, label resolution, the output writer and the command line.
