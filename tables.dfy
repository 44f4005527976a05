/**
 * The two read-only lookup tables of the synthesizer: the instruction set, from
 * mnemonic to format, opcode and function code, and the register map, from ABI
 * register name to register index. Both are fixed when the program starts and
 * never change, so they are constants here.
 */
module Tables {

  /** The instruction formats. Only R, I and J have an encoder; S, B and U are declared only. */
  datatype Format = RType | IType | SType | BType | UType | JType

  /** A mnemonic's entry: its format, its 6-bit opcode and, for R-type, its function code (Go `uint8`s). */
  datatype Instruction = Instruction(format: Format, opcode: bv8, funct: bv8)

  /** The instruction set (opcodes and function codes are the classic MIPS32 values). */
  const InstructionSet: map<string, Instruction> := map[
    "add"     := Instruction(RType, 0x00, 0x20),
    "addi"    := Instruction(IType, 0x08, 0x00),
    "and"     := Instruction(RType, 0x00, 0x24),
    "andi"    := Instruction(IType, 0x0C, 0x00),
    "nor"     := Instruction(RType, 0x00, 0x27),
    "or"      := Instruction(RType, 0x00, 0x25),
    "ori"     := Instruction(IType, 0x0D, 0x00),
    "sub"     := Instruction(RType, 0x00, 0x22),
    "xor"     := Instruction(RType, 0x00, 0x26),
    "xori"    := Instruction(IType, 0x0E, 0x00),
    "syscall" := Instruction(RType, 0x00, 0x0C)
  ]

  /** The ABI register names with their indices (a Go `map[string]int`). */
  const RegisterMap: map<string, int> := map[
    "zero" := 0, "ra" := 1, "sp" := 2, "gp" := 3, "tp" := 4,
    "t0" := 5, "t1" := 6, "t2" := 7,
    "s0" := 8, "s1" := 9,
    "a0" := 10, "a1" := 11, "a2" := 12, "a3" := 13, "a4" := 14, "a5" := 15, "a6" := 16, "a7" := 17,
    "s2" := 18, "s3" := 19, "s4" := 20, "s5" := 21, "s6" := 22, "s7" := 23, "s8" := 24, "s9" := 25,
    "s10" := 26, "s11" := 27,
    "t3" := 28, "t4" := 29, "t5" := 30, "t6" := 31
  ]

  /** The register names listed by index: the inverse of `RegisterMap`. */
  const RegisterNames: seq<string> := [
    "zero", "ra", "sp", "gp", "tp", "t0", "t1", "t2",
    "s0", "s1", "a0", "a1", "a2", "a3", "a4", "a5",
    "a6", "a7", "s2", "s3", "s4", "s5", "s6", "s7",
    "s8", "s9", "s10", "s11", "t3", "t4", "t5", "t6"
  ]

  /** Every mnemonic in the table has an implemented encoder (R or I) and an opcode that fits six bits. */
  lemma InstructionSetFormats(name: string)
    requires name in InstructionSet
    ensures InstructionSet[name].format == RType || InstructionSet[name].format == IType
    ensures InstructionSet[name].opcode < 64
  {}

  /** Each index 0..31 has a name, and the map sends that name back to the index. */
  lemma RegisterNamesIndexed(i: int)
    requires 0 <= i < 32
    ensures |RegisterNames| == 32
    ensures RegisterNames[i] in RegisterMap && RegisterMap[RegisterNames[i]] == i
  {}

  /** Every register name maps to an index 0..31 (it fits a 5-bit field) and is named back by it. */
  lemma RegisterIndexInRange(name: string)
    requires name in RegisterMap
    ensures 0 <= RegisterMap[name] < 32
    ensures RegisterNames[RegisterMap[name]] == name
  {}

  /** Two names with the same index are the same name. */
  lemma RegisterMapInjective(a: string, b: string)
    requires a in RegisterMap && b in RegisterMap && RegisterMap[a] == RegisterMap[b]
    ensures a == b
  {
    RegisterIndexInRange(a);
    RegisterIndexInRange(b);
  }

  ghost predicate Distinct<T>(s: seq<T>) {
    forall i, j :: 0 <= i < j < |s| ==> s[i] != s[j]
  }

  /** A sequence without repetitions has as many distinct elements as it is long. */
  lemma {:induction false} DistinctCardinality<T>(s: seq<T>)
    requires Distinct(s)
    ensures |set x | x in s| == |s|
  {
    if s != [] {
      var init := s[..|s| - 1];
      assert (set x | x in s) == (set x | x in init) + {s[|s| - 1]};
      assert s[|s| - 1] !in init;
      DistinctCardinality(init);
    }
  }

  /** The register map has exactly 32 names, and they are exactly the names listed in `RegisterNames`. */
  lemma RegisterMapSize()
    ensures RegisterMap.Keys == set name | name in RegisterNames
    ensures |RegisterMap| == 32
  {
    forall i, j | 0 <= i < j < |RegisterNames|
      ensures RegisterNames[i] != RegisterNames[j]
    {
      RegisterNamesIndexed(i);
      RegisterNamesIndexed(j);
    }
    DistinctCardinality(RegisterNames);
    forall name | name in RegisterMap
      ensures name in RegisterNames
    {
      RegisterIndexInRange(name);
    }
    forall name | name in RegisterNames
      ensures name in RegisterMap
    {
      var i :| 0 <= i < |RegisterNames| && RegisterNames[i] == name;
      RegisterNamesIndexed(i);
    }
  }
}
