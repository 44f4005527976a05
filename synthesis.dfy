/**
 * The dispatcher `synthesize`: it looks up the mnemonic in the instruction set,
 * sends the record's operands for the mnemonic's format to that format's
 * encoder, and wraps an encoder error with the format it came from.
 */
module Synthesis {
  import opened Layout
  import opened Tables
  import opened Encoders

  /**
   * An instruction as the parser hands it over: the mnemonic and, for each
   * format, the operands if the parser filled them in (a Go nil pointer is `None`).
   */
  datatype AssemblyInstruction = AssemblyInstruction(
    name: string,
    rType: Option<RTypeInstruction>,
    iType: Option<ITypeInstruction>,
    jType: Option<JTypeInstruction>)

  /** Why synthesis failed. */
  datatype SynthesisError =
    | InvalidInstructionName(name: string)
    | EncodingFailed(format: Format, cause: EncodeError)
    | UnknownInstructionType(format: Format)

  /**
   * The operands the dispatcher dereferences are present: for a mnemonic known to
   * `table` whose format has an encoder, that format's operands were filled in.
   * `synthesize` dereferences the pointer without checking it.
   */
  predicate OperandsPresentIn(table: map<string, Instruction>, asm: AssemblyInstruction) {
    asm.name in table ==>
      match table[asm.name].format
      case RType => asm.rType.Some?
      case IType => asm.iType.Some?
      case JType => asm.jType.Some?
      case _ => true
  }

  /** `OperandsPresentIn` for the instruction set. */
  predicate OperandsPresent(asm: AssemblyInstruction) {
    OperandsPresentIn(InstructionSet, asm)
  }

  /** An encoder's result as the dispatcher returns it: an error is wrapped with the format, and the word is then 0. */
  function Wrap(format: Format, out: Output<EncodeError>): (r: Output<SynthesisError>)
    ensures r.err.None? <==> out.err.None?
    ensures r.err.None? ==> r.word == out.word
    ensures r.err.Some? ==> r == Output(0, Some(EncodingFailed(format, out.err.value)))
  {
    if out.err.Some? then Output(0, Some(EncodingFailed(format, out.err.value)))
    else Output(out.word, None)
  }

  /**
   * The body of `synthesize` over a given instruction table: looks up the
   * mnemonic, runs its format's encoder and wraps an encoder error with the format.
   */
  function SynthesizeWith(table: map<string, Instruction>, asm: AssemblyInstruction): (r: Output<SynthesisError>)
    requires OperandsPresentIn(table, asm)
    ensures r.err == Some(InvalidInstructionName(asm.name)) <==> asm.name !in table
    ensures r.err.Some? ==> r.word == 0
  {
    if asm.name !in table then Output(0, Some(InvalidInstructionName(asm.name)))
    else
      var instruction := table[asm.name];
      match instruction.format
      case RType => Wrap(RType, SynthesizeRType(asm.rType.value, instruction))
      case IType => Wrap(IType, SynthesizeIType(asm.iType.value, instruction))
      case JType => Wrap(JType, SynthesizeJType(asm.jType.value, instruction))
      case _ => Output(0, Some(UnknownInstructionType(instruction.format)))
  }

  /** `synthesize`: `SynthesizeWith` over the instruction set. */
  function Synthesize(asm: AssemblyInstruction): (r: Output<SynthesisError>)
    requires OperandsPresent(asm)
    ensures r.err == Some(InvalidInstructionName(asm.name)) <==> asm.name !in InstructionSet
    ensures r.err.Some? ==> r.word == 0
  {
    SynthesizeWith(InstructionSet, asm)
  }

  /** The register operands the encoder for `format` checks, in the order it checks them. */
  function RegisterOperands(asm: AssemblyInstruction, format: Format): seq<(Role, string)>
    requires format == RType ==> asm.rType.Some?
    requires format == IType ==> asm.iType.Some?
  {
    match format
    case RType => [(Source, asm.rType.value.rs), (Target, asm.rType.value.rt), (Destination, asm.rType.value.rd)]
    case IType => [(Source, asm.iType.value.rs), (Target, asm.iType.value.rt)]
    case _ => []
  }

  /**
   * For a mnemonic known to any table, the dispatcher returns the word of the
   * encoder for the mnemonic's format, or that encoder's error wrapped with the
   * format; a format without an encoder is an error. A J-type entry never fails.
   */
  lemma SynthesizeDispatch(table: map<string, Instruction>, asm: AssemblyInstruction)
    requires OperandsPresentIn(table, asm) && asm.name in table
    ensures
      var instruction := table[asm.name];
      var r := SynthesizeWith(table, asm);
      && (instruction.format == RType ==> r == Wrap(RType, SynthesizeRType(asm.rType.value, instruction)))
      && (instruction.format == IType ==> r == Wrap(IType, SynthesizeIType(asm.iType.value, instruction)))
      && (instruction.format == JType ==> r == Output(SynthesizeJType(asm.jType.value, instruction).word, None))
      && (instruction.format !in {RType, IType, JType} ==> r == Output(0, Some(UnknownInstructionType(instruction.format))))
  {}

  /** A table with the MIPS "j" entry (opcode 2) reaches the J-type arm: "j" to address -1 keeps its low 26 bits. */
  lemma SynthesizeJumpExample()
    ensures
      var table := InstructionSet["j" := Instruction(JType, 0x02, 0x00)];
      var asm := AssemblyInstruction("j", None, None, Some(JTypeInstruction(0, 0xFFFF_FFFF)));
      SynthesizeWith(table, asm) == Output(0x0BFF_FFFF, None)
  {
    var table := InstructionSet["j" := Instruction(JType, 0x02, 0x00)];
    var rec := JTypeInstruction(0, 0xFFFF_FFFF);
    var asm := AssemblyInstruction("j", None, None, Some(rec));
    JTypeFields(rec, table["j"]);
    EncodeDecodeJ(SynthesizeWith(table, asm).word);
  }

  /** A table entry whose format has no encoder reaches the default arm. */
  lemma SynthesizeStoreFormatExample()
    ensures
      var table := InstructionSet["sw" := Instruction(SType, 0x2B, 0x00)];
      SynthesizeWith(table, AssemblyInstruction("sw", None, None, None)) == Output(0, Some(UnknownInstructionType(SType)))
  {}

  /**
   * Every mnemonic of the instruction set is synthesized exactly when all of its
   * register operands are known; otherwise the error names the first unknown
   * operand, with its role, wrapped with the format. On success the top six bits
   * of the word are the mnemonic's opcode.
   */
  lemma SynthesizeKnownMnemonic(asm: AssemblyInstruction)
    requires OperandsPresent(asm) && asm.name in InstructionSet
    ensures
      var instruction := InstructionSet[asm.name];
      var r := Synthesize(asm);
      var e := FirstInvalidRegister(RegisterOperands(asm, instruction.format));
      && (e.Some? ==> r == Output(0, Some(EncodingFailed(instruction.format, e.value))))
      && (e.None? ==> r.err.None? && r.word >> 26 == instruction.opcode as bv32)
  {
    var instruction := InstructionSet[asm.name];
    InstructionSetFormats(asm.name);
    SynthesizeDispatch(InstructionSet, asm);
    var r := Synthesize(asm);
    if instruction.format == RType {
      var rec := asm.rType.value;
      if rec.rs in RegisterMap && rec.rt in RegisterMap && rec.rd in RegisterMap {
        RTypeFields(rec, instruction);
        OpcodeIsTopBits(r.word);
      }
    } else {
      var rec := asm.iType.value;
      if rec.rs in RegisterMap && rec.rt in RegisterMap {
        ITypeFields(rec, instruction);
        OpcodeIsTopBits(r.word);
      }
    }
  }

  /** Synthesis of "add t0, t1, t2" (rd t0 = 5, rs t1 = 6, rt t2 = 7, funct 0x20). */
  lemma SynthesizeAddExample()
    ensures
      var rec := RTypeInstruction(0, "t1", "t2", "t0", 0, 0x20);
      Synthesize(AssemblyInstruction("add", Some(rec), None, None)) == Output(0x00C7_2820, None)
  {
    var rec := RTypeInstruction(0, "t1", "t2", "t0", 0, 0x20);
    assert InstructionSet["add"] == Instruction(RType, 0x00, 0x20);
    RTypeAddExample();
    SynthesizeDispatch(InstructionSet, AssemblyInstruction("add", Some(rec), None, None));
  }

  /** Synthesis of "addi t0, zero, -1": the immediate -1 is stored as 0xFFFF. */
  lemma SynthesizeAddiExample()
    ensures
      var rec := ITypeInstruction(0x08, "zero", "t0", 0xFFFF);
      Synthesize(AssemblyInstruction("addi", None, Some(rec), None)) == Output(0x2005_FFFF, None)
  {
    var rec := ITypeInstruction(0x08, "zero", "t0", 0xFFFF);
    assert InstructionSet["addi"] == Instruction(IType, 0x08, 0x00);
    ITypeAddiExample();
    SynthesizeDispatch(InstructionSet, AssemblyInstruction("addi", None, Some(rec), None));
  }

  /** An unknown mnemonic is rejected without a word. */
  lemma SynthesizeUnknownMnemonicExample()
    ensures Synthesize(AssemblyInstruction("jal", None, None, None)) == Output(0, Some(InvalidInstructionName("jal")))
  {}

  /** Register names are matched exactly: "T0" is not "t0", and the target is checked before the destination. */
  lemma SynthesizeBadRegisterExample()
    ensures
      var rec := RTypeInstruction(0, "t1", "T0", "x9", 0, 0x20);
      Synthesize(AssemblyInstruction("add", Some(rec), None, None))
      == Output(0, Some(EncodingFailed(RType, InvalidRegister(Target, "T0"))))
  {
    var rec := RTypeInstruction(0, "t1", "T0", "x9", 0, 0x20);
    var instruction := InstructionSet["add"];
    assert instruction.format == RType;
    assert "t1" in RegisterMap && "T0" !in RegisterMap;
    assert SynthesizeRType(rec, instruction) == Output(0, Some(InvalidRegister(Target, "T0")));
    SynthesizeDispatch(InstructionSet, AssemblyInstruction("add", Some(rec), None, None));
  }
}
