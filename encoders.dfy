/**
 * The three format encoders: `synthesizeRType`, `synthesizeIType` and
 * `synthesizeJType`. Each looks up its register operands in a fixed order,
 * returns word 0 and an error naming the first unknown one, and otherwise packs
 * the table's opcode, the register indices and the record's remaining fields
 * with shifts and ORs in 32-bit arithmetic.
 */
module Encoders {
  import opened Bits
  import opened Layout
  import opened Tables

  datatype Option<T> = None | Some(value: T)

  /** The operand position a register name was given for. */
  datatype Role = Source | Target | Destination

  /** Why an encoder refused its record. */
  datatype EncodeError = InvalidRegister(role: Role, name: string)

  /** Go's `(uint32, error)` result: the word and, on failure, the error (the word is then 0). */
  datatype Output<E> = Output(word: bv32, err: Option<E>)

  /** An R-type record: the register names, a shift amount and a function code (Go `uint8`s). */
  datatype RTypeInstruction = RTypeInstruction(opcode: bv8, rs: string, rt: string, rd: string, shamt: bv8, funct: bv8)

  /** An I-type record; `imm` is the bit pattern of a Go `int16`. */
  datatype ITypeInstruction = ITypeInstruction(opcode: bv8, rs: string, rt: string, imm: bv16)

  /** A J-type record; `addr` is the bit pattern of a Go `int32`. */
  datatype JTypeInstruction = JTypeInstruction(opcode: bv8, addr: bv32)

  /**
   * Reference for the encoders' register checks: the operands are looked up
   * left to right and the first name missing from the register map is reported
   * with its role.
   */
  function FirstInvalidRegister(operands: seq<(Role, string)>): (e: Option<EncodeError>)
    ensures e.None? <==> forall k | 0 <= k < |operands| :: operands[k].1 in RegisterMap
    ensures e.Some? ==>
      exists k | 0 <= k < |operands| ::
        && e.value == InvalidRegister(operands[k].0, operands[k].1)
        && operands[k].1 !in RegisterMap
        && forall j | 0 <= j < k :: operands[j].1 in RegisterMap
  {
    if operands == [] then None
    else if operands[0].1 !in RegisterMap then Some(InvalidRegister(operands[0].0, operands[0].1))
    else
      var e := FirstInvalidRegister(operands[1..]);
      assert forall k | 1 <= k < |operands| :: operands[k] == operands[1..][k - 1];
      e
  }

  lemma FirstInvalidOfThree(a: (Role, string), b: (Role, string), c: (Role, string))
    ensures FirstInvalidRegister([a, b, c])
            == if a.1 !in RegisterMap then Some(InvalidRegister(a.0, a.1))
               else if b.1 !in RegisterMap then Some(InvalidRegister(b.0, b.1))
               else if c.1 !in RegisterMap then Some(InvalidRegister(c.0, c.1))
               else None
  {
    assert [a, b, c][1..] == [b, c];
    assert [b, c][1..] == [c];
    assert [c][1..] == [];
    FirstInvalidStep([a, b, c]);
    FirstInvalidStep([b, c]);
    FirstInvalidStep([c]);
  }

  lemma FirstInvalidStep(operands: seq<(Role, string)>)
    requires operands != []
    ensures FirstInvalidRegister(operands)
            == if operands[0].1 !in RegisterMap then Some(InvalidRegister(operands[0].0, operands[0].1))
               else FirstInvalidRegister(operands[1..])
  {}

  /** The 5-bit field value of a known register. */
  function RegisterField(name: string): (f: bv5)
    requires name in RegisterMap
    ensures f as int == RegisterMap[name]
  {
    RegisterIndexInRange(name);
    Uint32OfIndex(RegisterMap[name]);
    RegisterMap[name] as bv5
  }

  /** `synthesizeRType`: checks rs, rt, rd in that order, then packs the word. */
  function SynthesizeRType(asm: RTypeInstruction, instruction: Instruction): (r: Output<EncodeError>)
    ensures r.err == FirstInvalidRegister([(Source, asm.rs), (Target, asm.rt), (Destination, asm.rd)])
    ensures r.err.None? <==> asm.rs in RegisterMap && asm.rt in RegisterMap && asm.rd in RegisterMap
    ensures r.err.Some? ==> r.word == 0
  {
    FirstInvalidOfThree((Source, asm.rs), (Target, asm.rt), (Destination, asm.rd));
    if asm.rs !in RegisterMap then Output(0, Some(InvalidRegister(Source, asm.rs)))
    else if asm.rt !in RegisterMap then Output(0, Some(InvalidRegister(Target, asm.rt)))
    else if asm.rd !in RegisterMap then Output(0, Some(InvalidRegister(Destination, asm.rd)))
    else
      var source, target, destination := RegisterMap[asm.rs], RegisterMap[asm.rt], RegisterMap[asm.rd];
      var encoded := (instruction.opcode as bv32) << 26;
      var encoded := encoded | (Uint32(source) << 21);
      var encoded := encoded | (Uint32(target) << 16);
      var encoded := encoded | (Uint32(destination) << 11);
      var encoded := encoded | ((asm.shamt as bv32) << 6);
      var encoded := encoded | (asm.funct as bv32);
      Output(encoded, None)
  }

  /**
   * The fields of a successful R-type word. Opcode, rs, rt and funct hold their
   * inputs cut to the field width; because shamt and funct are 8-bit values that
   * are not masked, the top three bits of shamt are ORed into rd and the top two
   * bits of funct into shamt.
   */
  lemma RTypeFields(asm: RTypeInstruction, instruction: Instruction)
    requires asm.rs in RegisterMap && asm.rt in RegisterMap && asm.rd in RegisterMap
    ensures
      var f := DecodeR(SynthesizeRType(asm, instruction).word);
      && f.opcode == (instruction.opcode & 0x3F) as bv6
      && f.rs == RegisterField(asm.rs)
      && f.rt == RegisterField(asm.rt)
      && f.rd == RegisterField(asm.rd) | (asm.shamt >> 5) as bv5
      && f.shamt == (asm.shamt & 0x1F) as bv5 | (asm.funct >> 6) as bv5
      && f.funct == (asm.funct & 0x3F) as bv6
  {
    var s, t, d := RegisterMap[asm.rs], RegisterMap[asm.rt], RegisterMap[asm.rd];
    RegisterIndexInRange(asm.rs);
    RegisterIndexInRange(asm.rt);
    RegisterIndexInRange(asm.rd);
    Uint32OfIndex(s);
    Uint32OfIndex(t);
    Uint32OfIndex(d);
    PackedRFields(instruction.opcode, RegisterField(asm.rs), RegisterField(asm.rt), RegisterField(asm.rd), asm.shamt, asm.funct);
  }

  /** The bit-level fact behind `RTypeFields`. */
  lemma PackedRFields(opcode: bv8, s: bv5, t: bv5, d: bv5, shamt: bv8, funct: bv8)
    ensures
      var w := ((opcode as bv32) << 26) | ((s as bv32) << 21) | ((t as bv32) << 16) | ((d as bv32) << 11)
               | ((shamt as bv32) << 6) | (funct as bv32);
      DecodeR(w) == RFields((opcode & 0x3F) as bv6, s, t, d | (shamt >> 5) as bv5,
                            (shamt & 0x1F) as bv5 | (funct >> 6) as bv5, (funct & 0x3F) as bv6)
  {}

  /**
   * With a shift amount below 32 and a function code below 64 every field of a
   * successful R-type word recovers its input: the word is the R-format encoding
   * of the table opcode, the three register indices, shamt and funct.
   */
  lemma RTypeRoundTrip(asm: RTypeInstruction, instruction: Instruction)
    requires asm.rs in RegisterMap && asm.rt in RegisterMap && asm.rd in RegisterMap
    requires instruction.opcode < 64 && asm.shamt < 32 && asm.funct < 64
    ensures SynthesizeRType(asm, instruction).word
            == EncodeR(RFields(instruction.opcode as bv6, RegisterField(asm.rs), RegisterField(asm.rt),
                               RegisterField(asm.rd), asm.shamt as bv5, asm.funct as bv6))
  {
    var w := SynthesizeRType(asm, instruction).word;
    RTypeFields(asm, instruction);
    EncodeDecodeR(w);
  }

  /** A shift amount of 32 or more changes the destination field: "add zero, zero, zero" with shamt 32 names register 1. */
  lemma RTypeShamtOverflowsIntoDestination()
    ensures
      var asm := RTypeInstruction(0, "zero", "zero", "zero", 32, 0x20);
      var r := SynthesizeRType(asm, InstructionSet["add"]);
      r.err.None? && DecodeR(r.word).rd == 1 && RegisterMap["zero"] == 0
  {
    var asm := RTypeInstruction(0, "zero", "zero", "zero", 32, 0x20);
    RTypeFields(asm, InstructionSet["add"]);
  }

  /** The R-type word for "add t0, t1, t2": rs 6, rt 7, rd 5 and funct 0x20 under opcode 0. */
  lemma RTypeAddExample()
    ensures SynthesizeRType(RTypeInstruction(0, "t1", "t2", "t0", 0, 0x20), Instruction(RType, 0x00, 0x20))
            == Output(0x00C7_2820, None)
  {
    assert RegisterField("t1") == 6 && RegisterField("t2") == 7 && RegisterField("t0") == 5;
    RTypeRoundTrip(RTypeInstruction(0, "t1", "t2", "t0", 0, 0x20), Instruction(RType, 0x00, 0x20));
    assert EncodeR(RFields(0x00, 6, 7, 5, 0, 0x20)) == 0x00C7_2820;
  }

  /** `synthesizeIType`: checks rs, then rt; never rejects the immediate. */
  function SynthesizeIType(asm: ITypeInstruction, instruction: Instruction): (r: Output<EncodeError>)
    ensures r.err == FirstInvalidRegister([(Source, asm.rs), (Target, asm.rt)])
    ensures r.err.None? <==> asm.rs in RegisterMap && asm.rt in RegisterMap
    ensures r.err.Some? ==> r.word == 0
  {
    if asm.rs !in RegisterMap then Output(0, Some(InvalidRegister(Source, asm.rs)))
    else if asm.rt !in RegisterMap then Output(0, Some(InvalidRegister(Target, asm.rt)))
    else
      var source, target := RegisterMap[asm.rs], RegisterMap[asm.rt];
      var encoded := (instruction.opcode as bv32) << 26;
      var encoded := encoded | (Uint32(source) << 21);
      var encoded := encoded | (Uint32(target) << 16);
      // Go's uint32(asm.imm) sign-extends an int16 (Bits.SignExtend16IsUint32).
      var encoded := encoded | (SignExtend16(asm.imm) & 0xFFFF);
      Output(encoded, None)
  }

  /**
   * The fields of a successful I-type word: the opcode cut to six bits, the two
   * register indices and the immediate's 16-bit two's complement, which is the
   * immediate modulo 2^16 and sign-extends back to the immediate.
   */
  lemma ITypeFields(asm: ITypeInstruction, instruction: Instruction)
    requires asm.rs in RegisterMap && asm.rt in RegisterMap
    ensures
      var f := DecodeI(SynthesizeIType(asm, instruction).word);
      && f == IFields((instruction.opcode & 0x3F) as bv6, RegisterField(asm.rs), RegisterField(asm.rt), asm.imm)
      && f.imm as int == Int16Value(asm.imm) % 0x1_0000
      && Int16Value(f.imm) == Int16Value(asm.imm)
  {
    var s, t := RegisterMap[asm.rs], RegisterMap[asm.rt];
    RegisterIndexInRange(asm.rs);
    RegisterIndexInRange(asm.rt);
    Uint32OfIndex(s);
    Uint32OfIndex(t);
    SignExtend16Low(asm.imm);
    PackedIFields(instruction.opcode, RegisterField(asm.rs), RegisterField(asm.rt), SignExtend16(asm.imm));
  }

  /** The I-type word for "addi t0, zero, -1": opcode 8, rs 0, rt 5 and the immediate's pattern 0xFFFF. */
  lemma ITypeAddiExample()
    ensures SynthesizeIType(ITypeInstruction(0x08, "zero", "t0", 0xFFFF), Instruction(IType, 0x08, 0x00))
            == Output(0x2005_FFFF, None)
  {
    var rec, instruction := ITypeInstruction(0x08, "zero", "t0", 0xFFFF), Instruction(IType, 0x08, 0x00);
    assert RegisterField("zero") == 0 && RegisterField("t0") == 5;
    ITypeFields(rec, instruction);
    EncodeDecodeI(SynthesizeIType(rec, instruction).word);
    assert EncodeI(IFields(0x08, 0, 5, 0xFFFF)) == 0x2005_FFFF;
  }

  /** The bit-level fact behind `ITypeFields`. */
  lemma PackedIFields(opcode: bv8, s: bv5, t: bv5, imm: bv32)
    ensures
      var w := ((opcode as bv32) << 26) | ((s as bv32) << 21) | ((t as bv32) << 16) | (imm & 0xFFFF);
      DecodeI(w) == IFields((opcode & 0x3F) as bv6, s, t, (imm & 0xFFFF) as bv16)
  {}

  /** `synthesizeJType`: never fails; keeps the low 26 bits of the address. */
  function SynthesizeJType(asm: JTypeInstruction, instruction: Instruction): (r: Output<EncodeError>)
    ensures r.err.None?
  {
    var encoded := (instruction.opcode as bv32) << 26;
    // Go's uint32(asm.addr) keeps an int32's bit pattern (Bits.Uint32OfInt32).
    var encoded := encoded | (asm.addr & 0x3FF_FFFF);
    Output(encoded, None)
  }

  /**
   * The fields of a J-type word: the opcode cut to six bits on top and the low
   * 26 bits of the address below it.
   */
  lemma JTypeFields(asm: JTypeInstruction, instruction: Instruction)
    ensures DecodeJ(SynthesizeJType(asm, instruction).word)
            == JFields((instruction.opcode & 0x3F) as bv6, (asm.addr & 0x3FF_FFFF) as bv26)
  {
    PackedJFields(instruction.opcode, asm.addr);
  }

  /** The target field of a J-type word is the address modulo 2^26. */
  lemma JTypeTarget(asm: JTypeInstruction, instruction: Instruction)
    ensures DecodeJ(SynthesizeJType(asm, instruction).word).target as int == Int32Value(asm.addr) % 0x400_0000
  {
    JTypeFields(asm, instruction);
    Low26Signed(asm.addr);
  }

  /** The bit-level fact behind `JTypeFields`. */
  lemma PackedJFields(opcode: bv8, addr: bv32)
    ensures
      var w := ((opcode as bv32) << 26) | (addr & 0x3FF_FFFF);
      DecodeJ(w) == JFields((opcode & 0x3F) as bv6, (addr & 0x3FF_FFFF) as bv26)
  {}

  /**
   * The R-type encoder never reads the record's opcode, nor the table's function
   * code or format: its opcode comes from the table, its function code from the record.
   */
  lemma RTypeIgnoresUnreadFields(asm: RTypeInstruction, instruction: Instruction, opcode: bv8, funct: bv8, format: Format)
    ensures SynthesizeRType(asm.(opcode := opcode), instruction.(funct := funct, format := format))
            == SynthesizeRType(asm, instruction)
  {}

  /** The I-type encoder never reads the record's opcode, nor the table's function code or format. */
  lemma ITypeIgnoresUnreadFields(asm: ITypeInstruction, instruction: Instruction, opcode: bv8, funct: bv8, format: Format)
    ensures SynthesizeIType(asm.(opcode := opcode), instruction.(funct := funct, format := format))
            == SynthesizeIType(asm, instruction)
  {
    var other, entry := asm.(opcode := opcode), instruction.(funct := funct, format := format);
    if asm.rs in RegisterMap && asm.rt in RegisterMap {
      ITypeFields(asm, instruction);
      ITypeFields(other, entry);
      EncodeDecodeI(SynthesizeIType(asm, instruction).word);
      EncodeDecodeI(SynthesizeIType(other, entry).word);
    }
  }

  /** The J-type encoder never reads the record's opcode, nor the table's function code or format. */
  lemma JTypeIgnoresUnreadFields(asm: JTypeInstruction, instruction: Instruction, opcode: bv8, funct: bv8, format: Format)
    ensures SynthesizeJType(asm.(opcode := opcode), instruction.(funct := funct, format := format))
            == SynthesizeJType(asm, instruction)
  {
    var other, entry := asm.(opcode := opcode), instruction.(funct := funct, format := format);
    JTypeFields(asm, instruction);
    JTypeFields(other, entry);
    EncodeDecodeJ(SynthesizeJType(asm, instruction).word);
    EncodeDecodeJ(SynthesizeJType(other, entry).word);
  }
}
