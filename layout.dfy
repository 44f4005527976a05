/**
 * The three 32-bit instruction layouts the synthesizer packs, as fixed bit fields
 * (bit 31 is the most significant):
 *
 *   R:  opcode 31..26 | rs 25..21 | rt 20..16 | rd 15..11 | shamt 10..6 | funct 5..0
 *   I:  opcode 31..26 | rs 25..21 | rt 20..16 | immediate 15..0
 *   J:  opcode 31..26 | target 25..0
 *
 * These are the R, I and J formats of the MIPS32 instruction-format description.
 * Each format's fields, at their exact widths, are in one-to-one correspondence
 * with 32-bit words: `DecodeX` and `EncodeX` are inverse in both directions.
 */
module Layout {

  datatype RFields = RFields(opcode: bv6, rs: bv5, rt: bv5, rd: bv5, shamt: bv5, funct: bv6)

  datatype IFields = IFields(opcode: bv6, rs: bv5, rt: bv5, imm: bv16)

  datatype JFields = JFields(opcode: bv6, target: bv26)

  /** Splits a word into R-format fields. */
  function DecodeR(w: bv32): RFields {
    RFields(
      (w >> 26) as bv6,
      ((w >> 21) & 0x1F) as bv5,
      ((w >> 16) & 0x1F) as bv5,
      ((w >> 11) & 0x1F) as bv5,
      ((w >> 6) & 0x1F) as bv5,
      (w & 0x3F) as bv6)
  }

  /** Places R-format fields in a word; decoding the word gives the fields back. */
  function EncodeR(f: RFields): (w: bv32)
    ensures DecodeR(w) == f
  {
    ((f.opcode as bv32) << 26) | ((f.rs as bv32) << 21) | ((f.rt as bv32) << 16)
    | ((f.rd as bv32) << 11) | ((f.shamt as bv32) << 6) | (f.funct as bv32)
  }

  /** Every word is the R-format encoding of its own fields. */
  lemma EncodeDecodeR(w: bv32)
    ensures EncodeR(DecodeR(w)) == w
  {}

  /** Splits a word into I-format fields. */
  function DecodeI(w: bv32): IFields {
    IFields(
      (w >> 26) as bv6,
      ((w >> 21) & 0x1F) as bv5,
      ((w >> 16) & 0x1F) as bv5,
      (w & 0xFFFF) as bv16)
  }

  /** Places I-format fields in a word; decoding the word gives the fields back. */
  function EncodeI(f: IFields): (w: bv32)
    ensures DecodeI(w) == f
  {
    ((f.opcode as bv32) << 26) | ((f.rs as bv32) << 21) | ((f.rt as bv32) << 16) | (f.imm as bv32)
  }

  /** Every word is the I-format encoding of its own fields. */
  lemma EncodeDecodeI(w: bv32)
    ensures EncodeI(DecodeI(w)) == w
  {}

  /** Splits a word into J-format fields. */
  function DecodeJ(w: bv32): JFields {
    JFields((w >> 26) as bv6, (w & 0x3FF_FFFF) as bv26)
  }

  /** Places J-format fields in a word; decoding the word gives the fields back. */
  function EncodeJ(f: JFields): (w: bv32)
    ensures DecodeJ(w) == f
  {
    ((f.opcode as bv32) << 26) | (f.target as bv32)
  }

  /** Every word is the J-format encoding of its own fields. */
  lemma EncodeDecodeJ(w: bv32)
    ensures EncodeJ(DecodeJ(w)) == w
  {}

  /** In all three formats the opcode is the top six bits of the word. */
  lemma OpcodeIsTopBits(w: bv32)
    ensures DecodeR(w).opcode == DecodeI(w).opcode == DecodeJ(w).opcode
    ensures DecodeR(w).opcode as bv32 == w >> 26
  {}
}
