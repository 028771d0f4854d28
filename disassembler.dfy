/** Instruction-field decoding for RV32: the register and function fields, the five
    immediate formats with their sign extension (sections 2.2 and 2.3 of the RISC-V
    Unprivileged ISA manual, "Base Instruction Formats" and "Immediate Encoding
    Variants"), and the opcode dispatch of the disassembler. Instruction words are the
    32-bit values `read_word` fetches, so every operation works on `bv32`, with the
    source's shifts and masks written as bit-vector operations. */
module Disassembler {
  import opened Common

  // ---------------------------------------------------------------------------------
  // Field extractors

  /** `extract_opcode`: bits 6:0. */
  function Opcode(w: bv32): (r: bv32)
    ensures r < 0x80
    ensures w - r == (w >> 7) << 7
  {
    w & 0x7F
  }

  /** `extract_rd`: bits 11:7. */
  function Rd(w: bv32): (r: bv32)
    ensures r < 32
  {
    (w >> 7) & 0x1F
  }

  /** `extract_rs1`: bits 19:15. */
  function Rs1(w: bv32): (r: bv32)
    ensures r < 32
  {
    (w >> 15) & 0x1F
  }

  /** `extract_rs2`: bits 24:20. */
  function Rs2(w: bv32): (r: bv32)
    ensures r < 32
  {
    (w >> 20) & 0x1F
  }

  /** `extract_funct3`: bits 14:12. */
  function Funct3(w: bv32): (r: bv32)
    ensures r < 8
  {
    (w >> 12) & 0x7
  }

  /** `extract_funct7`: bits 31:25. */
  function Funct7(w: bv32): (r: bv32)
    ensures r < 0x80
    ensures r == w >> 25
  {
    (w >> 25) & 0x7F
  }

  // ---------------------------------------------------------------------------------
  // Immediates. Each result is a 32-bit pattern whose bits above the immediate's sign
  // bit are all copies of it (the `imm |= 0xFFFFF000`-style extension).

  /** `extract_imm_i`: bits 31:20, sign-extended from bit 11. */
  function ImmI(w: bv32): (r: bv32)
    ensures r & 0xFFF == w >> 20
    ensures w >> 31 == 0 ==> r == w >> 20
    ensures w >> 31 == 1 ==> r == (w >> 20) | 0xFFFF_F000
    ensures r < 0x800 || r >= 0xFFFF_F800
  {
    var imm := (w >> 20) & 0xFFF;
    if imm & 0x800 != 0 then imm | 0xFFFF_F000 else imm
  }

  /** `extract_imm_s`: bits 31:25 above bits 11:7, sign-extended from bit 11. */
  function ImmS(w: bv32): (r: bv32)
    ensures r & 0x1F == (w >> 7) & 0x1F
    ensures (r >> 5) & 0x7F == w >> 25
    ensures r >> 31 == w >> 31
    ensures r < 0x800 || r >= 0xFFFF_F800
  {
    var imm := ((w >> 25) & 0x7F) << 5;
    var imm := imm | ((w >> 7) & 0x1F);
    if imm & 0x800 != 0 then imm | 0xFFFF_F000 else imm
  }

  /** `extract_imm_b`: w[31] to bit 12, w[7] to bit 11, w[30:25] to bits 10:5 and
      w[11:8] to bits 4:1, sign-extended from bit 12; bit 0 is always zero. */
  function ImmB(w: bv32): (r: bv32)
    ensures r & 1 == 0
    ensures (r >> 12) & 1 == w >> 31
    ensures (r >> 11) & 1 == (w >> 7) & 1
    ensures (r >> 5) & 0x3F == (w >> 25) & 0x3F
    ensures (r >> 1) & 0xF == (w >> 8) & 0xF
    ensures r < 0x1000 || r >= 0xFFFF_F000
  {
    var imm := ((w >> 31) & 0x1) << 12;
    var imm := imm | (((w >> 7) & 0x1) << 11);
    var imm := imm | (((w >> 25) & 0x3F) << 5);
    var imm := imm | (((w >> 8) & 0xF) << 1);
    if imm & 0x1000 != 0 then imm | 0xFFFF_E000 else imm
  }

  /** `extract_imm_u`: bits 31:12 in place, the low 12 bits zero. */
  function ImmU(w: bv32): (r: bv32)
    ensures r & 0xFFF == 0
    ensures r >> 12 == w >> 12
  {
    w & 0xFFFF_F000
  }

  /** `extract_imm_j`: w[31] to bit 20, w[19:12] to bits 19:12, w[20] to bit 11 and
      w[30:21] to bits 10:1, sign-extended from bit 20; bit 0 is always zero. */
  function ImmJ(w: bv32): (r: bv32)
    ensures r & 1 == 0
    ensures (r >> 20) & 1 == w >> 31
    ensures (r >> 12) & 0xFF == (w >> 12) & 0xFF
    ensures (r >> 11) & 1 == (w >> 20) & 1
    ensures (r >> 1) & 0x3FF == (w >> 21) & 0x3FF
    ensures r < 0x10_0000 || r >= 0xFFF0_0000
  {
    var imm := ((w >> 31) & 0x1) << 20;
    var imm := imm | (((w >> 12) & 0xFF) << 12);
    var imm := imm | (((w >> 20) & 0x1) << 11);
    var imm := imm | (((w >> 21) & 0x3FF) << 1);
    if imm & 0x10_0000 != 0 then imm | 0xFFF0_0000 else imm
  }

  /** A 32-bit pattern read as a two's-complement integer. */
  function Signed(x: bv32): (r: int)
    ensures r < 0 <==> x >> 31 == 1
  {
    if x < 0x8000_0000 then x as int else x as int - 0x1_0000_0000
  }

  /** The S immediate, like the I immediate, is a 12-bit signed value. */
  lemma ImmSRange(w: bv32)
    ensures -0x800 <= Signed(ImmS(w)) < 0x800
    ensures Signed(ImmS(w)) < 0 <==> w >> 31 == 1
  {
  }

  // ---------------------------------------------------------------------------------
  // The instruction formats as the ISA manual lays them out: placing each field in its
  // bits. The extractors above undo these, and these undo the extractors.

  /** Any register and function fields in range come back out of an R-type encoding. */
  function EncodeR(funct7: bv32, rs2: bv32, rs1: bv32, funct3: bv32, rd: bv32, opcode: bv32): (r: bv32)
    ensures funct7 < 0x80 && rs2 < 32 && rs1 < 32 && funct3 < 8 && rd < 32 && opcode < 0x80 ==>
              Funct7(r) == funct7 && Rs2(r) == rs2 && Rs1(r) == rs1 && Funct3(r) == funct3 &&
              Rd(r) == rd && Opcode(r) == opcode
  {
    ((funct7 & 0x7F) << 25) | ((rs2 & 0x1F) << 20) | ((rs1 & 0x1F) << 15) |
    ((funct3 & 7) << 12) | ((rd & 0x1F) << 7) | (opcode & 0x7F)
  }

  /** The I format keeps the register and function fields; the immediate is
      EncodeIThenExtract's business. */
  function EncodeI(imm: bv32, rs1: bv32, funct3: bv32, rd: bv32, opcode: bv32): (r: bv32)
    ensures rs1 < 32 && funct3 < 8 && rd < 32 && opcode < 0x80 ==>
              Rs1(r) == rs1 && Funct3(r) == funct3 && Rd(r) == rd && Opcode(r) == opcode
  {
    ((imm & 0xFFF) << 20) | ((rs1 & 0x1F) << 15) | ((funct3 & 7) << 12) | ((rd & 0x1F) << 7) | (opcode & 0x7F)
  }

  function EncodeS(imm: bv32, rs2: bv32, rs1: bv32, funct3: bv32, opcode: bv32): (r: bv32)
    ensures rs2 < 32 && rs1 < 32 && funct3 < 8 && opcode < 0x80 ==>
              Rs2(r) == rs2 && Rs1(r) == rs1 && Funct3(r) == funct3 && Opcode(r) == opcode
  {
    (((imm >> 5) & 0x7F) << 25) | ((rs2 & 0x1F) << 20) | ((rs1 & 0x1F) << 15) |
    ((funct3 & 7) << 12) | ((imm & 0x1F) << 7) | (opcode & 0x7F)
  }

  function EncodeB(imm: bv32, rs2: bv32, rs1: bv32, funct3: bv32, opcode: bv32): (r: bv32)
    ensures rs2 < 32 && rs1 < 32 && funct3 < 8 && opcode < 0x80 ==>
              Rs2(r) == rs2 && Rs1(r) == rs1 && Funct3(r) == funct3 && Opcode(r) == opcode
  {
    (((imm >> 12) & 1) << 31) | (((imm >> 5) & 0x3F) << 25) | ((rs2 & 0x1F) << 20) | ((rs1 & 0x1F) << 15) |
    ((funct3 & 7) << 12) | (((imm >> 1) & 0xF) << 8) | (((imm >> 11) & 1) << 7) | (opcode & 0x7F)
  }

  function EncodeU(imm: bv32, rd: bv32, opcode: bv32): (r: bv32)
    ensures rd < 32 && opcode < 0x80 ==> Rd(r) == rd && Opcode(r) == opcode
  {
    (imm & 0xFFFF_F000) | ((rd & 0x1F) << 7) | (opcode & 0x7F)
  }

  function EncodeJ(imm: bv32, rd: bv32, opcode: bv32): (r: bv32)
    ensures rd < 32 && opcode < 0x80 ==> Rd(r) == rd && Opcode(r) == opcode
  {
    (((imm >> 20) & 1) << 31) | (((imm >> 1) & 0x3FF) << 21) | (((imm >> 11) & 1) << 20) |
    (((imm >> 12) & 0xFF) << 12) | ((rd & 0x1F) << 7) | (opcode & 0x7F)
  }

  /** The extractors lose nothing: every word is the encoding of its own fields, in each
      of the six formats. */
  lemma ReassembleR(w: bv32)
    ensures EncodeR(Funct7(w), Rs2(w), Rs1(w), Funct3(w), Rd(w), Opcode(w)) == w
  {
  }

  lemma ReassembleI(w: bv32)
    ensures EncodeI(ImmI(w), Rs1(w), Funct3(w), Rd(w), Opcode(w)) == w
  {
  }

  lemma ReassembleS(w: bv32)
    ensures EncodeS(ImmS(w), Rs2(w), Rs1(w), Funct3(w), Opcode(w)) == w
  {
  }

  lemma ReassembleB(w: bv32)
    ensures EncodeB(ImmB(w), Rs2(w), Rs1(w), Funct3(w), Opcode(w)) == w
  {
  }

  lemma ReassembleU(w: bv32)
    ensures EncodeU(ImmU(w), Rd(w), Opcode(w)) == w
  {
  }

  lemma ReassembleJ(w: bv32)
    ensures EncodeJ(ImmJ(w), Rd(w), Opcode(w)) == w
  {
  }

  /** Any 12-bit signed immediate (held sign-extended) comes back out of the I
      encoding. */
  lemma EncodeIThenExtract(imm: bv32, rs1: bv32, funct3: bv32, rd: bv32, opcode: bv32)
    requires imm < 0x800 || imm >= 0xFFFF_F800
    ensures ImmI(EncodeI(imm, rs1, funct3, rd, opcode)) == imm
  {
  }

  /** Any 12-bit signed immediate comes back out of the S encoding. */
  lemma EncodeSThenExtract(imm: bv32, rs2: bv32, rs1: bv32, funct3: bv32, opcode: bv32)
    requires imm < 0x800 || imm >= 0xFFFF_F800
    ensures ImmS(EncodeS(imm, rs2, rs1, funct3, opcode)) == imm
  {
  }

  /** Any even 13-bit signed immediate comes back out of the B encoding. */
  lemma EncodeBThenExtract(imm: bv32, rs2: bv32, rs1: bv32, funct3: bv32, opcode: bv32)
    requires imm & 1 == 0 && (imm < 0x1000 || imm >= 0xFFFF_F000)
    ensures ImmB(EncodeB(imm, rs2, rs1, funct3, opcode)) == imm
  {
  }

  /** The upper 20 bits of any value come back out of the U encoding. */
  lemma EncodeUThenExtract(imm: bv32, rd: bv32, opcode: bv32)
    ensures ImmU(EncodeU(imm, rd, opcode)) == imm & 0xFFFF_F000
  {
  }

  /** Any even 21-bit signed immediate comes back out of the J encoding. */
  lemma EncodeJThenExtract(imm: bv32, rd: bv32, opcode: bv32)
    requires imm & 1 == 0 && (imm < 0x10_0000 || imm >= 0xFFF0_0000)
    ensures ImmJ(EncodeJ(imm, rd, opcode)) == imm
  {
    if imm < 0x10_0000 {
      EncodeJThenExtractNonNegative(imm, rd, opcode);
    } else {
      EncodeJThenExtractNegative(imm, rd, opcode);
    }
  }

  lemma EncodeJThenExtractNonNegative(imm: bv32, rd: bv32, opcode: bv32)
    requires imm & 1 == 0 && imm < 0x10_0000
    ensures ImmJ(EncodeJ(imm, rd, opcode)) == imm
  {
  }

  lemma EncodeJThenExtractNegative(imm: bv32, rd: bv32, opcode: bv32)
    requires imm & 1 == 0 && imm >= 0xFFF0_0000
    ensures ImmJ(EncodeJ(imm, rd, opcode)) == imm
  {
  }

  // ---------------------------------------------------------------------------------
  // Opcode dispatch

  /** The ten major opcodes of the `OPCODES` table. */
  datatype Category = Load | OpImm | Auipc | Store | Op | Lui | Branch | Jalr | Jal | System

  /** The `OPCODES` table: major opcode to its name. */
  const OPCODES: map<int, string> := map[
    0x03 := "LOAD", 0x13 := "OP-IMM", 0x17 := "AUIPC", 0x23 := "STORE", 0x33 := "OP",
    0x37 := "LUI", 0x63 := "BRANCH", 0x67 := "JALR", 0x6F := "JAL", 0x73 := "SYSTEM"]

  function OpcodeOf(c: Category): bv32
  {
    match c
    case Load => 0x03
    case OpImm => 0x13
    case Auipc => 0x17
    case Store => 0x23
    case Op => 0x33
    case Lui => 0x37
    case Branch => 0x63
    case Jalr => 0x67
    case Jal => 0x6F
    case System => 0x73
  }

  function NameOf(c: Category): string
  {
    match c
    case Load => "LOAD"
    case OpImm => "OP-IMM"
    case Auipc => "AUIPC"
    case Store => "STORE"
    case Op => "OP"
    case Lui => "LUI"
    case Branch => "BRANCH"
    case Jalr => "JALR"
    case Jal => "JAL"
    case System => "SYSTEM"
  }

  /** The if/elif chain of `disassemble_instruction` on the opcode. */
  function CategoryOf(opcode: bv32): (r: Option<Category>)
    ensures r.None? <==> opcode as int !in OPCODES
    ensures r.Some? ==> OpcodeOf(r.value) == opcode && OPCODES[opcode as int] == NameOf(r.value)
  {
    if opcode == 0x03 then Some(Load)
    else if opcode == 0x13 then Some(OpImm)
    else if opcode == 0x17 then Some(Auipc)
    else if opcode == 0x23 then Some(Store)
    else if opcode == 0x33 then Some(Op)
    else if opcode == 0x37 then Some(Lui)
    else if opcode == 0x63 then Some(Branch)
    else if opcode == 0x67 then Some(Jalr)
    else if opcode == 0x6F then Some(Jal)
    else if opcode == 0x73 then Some(System)
    else None
  }

  /** The table and the dispatch agree in both directions: each category is reached from
      exactly its own opcode. */
  lemma CategoryOfOpcodeOf(c: Category, opcode: bv32)
    ensures CategoryOf(opcode) == Some(c) <==> opcode == OpcodeOf(c)
    ensures OpcodeOf(c) as int in OPCODES
  {
  }

  /** The fields each `disassemble_*` helper extracts, by format. */
  datatype Fields =
    | RType(rd: bv32, rs1: bv32, rs2: bv32, funct3: bv32, funct7: bv32)
    | IType(rd: bv32, rs1: bv32, funct3: bv32, imm: bv32)
    | SType(rs1: bv32, rs2: bv32, funct3: bv32, imm: bv32)
    | BType(rs1: bv32, rs2: bv32, funct3: bv32, imm: bv32)
    | UType(rd: bv32, imm: bv32)
    | JType(rd: bv32, imm: bv32)

  /** What `disassemble_instruction` decides before rendering text: the zero word is a
      no-op, a known opcode selects a category and its format's fields, anything else is
      unknown. */
  datatype Decoded = Nop | Known(category: Category, fields: Fields) | Unknown(opcode: bv32)

  /** Fields that a word of category c can carry: the format the category decodes
      with, registers below 32, function fields within their widths, and immediates as
      the extractors produce them (sign-extended, with a zero low bit for B and J and a
      zero low 12 bits for U). */
  predicate WellFormed(c: Category, f: Fields)
  {
    match c
    case Op =>
      f.RType? && f.rd < 32 && f.rs1 < 32 && f.rs2 < 32 && f.funct3 < 8 && f.funct7 < 0x80
    case Load | OpImm | Jalr | System =>
      f.IType? && f.rd < 32 && f.rs1 < 32 && f.funct3 < 8 && (f.imm < 0x800 || f.imm >= 0xFFFF_F800)
    case Store =>
      f.SType? && f.rs1 < 32 && f.rs2 < 32 && f.funct3 < 8 && (f.imm < 0x800 || f.imm >= 0xFFFF_F800)
    case Branch =>
      f.BType? && f.rs1 < 32 && f.rs2 < 32 && f.funct3 < 8 && f.imm & 1 == 0 &&
      (f.imm < 0x1000 || f.imm >= 0xFFFF_F000)
    case Lui | Auipc =>
      f.UType? && f.rd < 32 && f.imm & 0xFFF == 0
    case Jal =>
      f.JType? && f.rd < 32 && f.imm & 1 == 0 && (f.imm < 0x10_0000 || f.imm >= 0xFFF0_0000)
  }

  /** The format each category's helper decodes with; whatever the word, the fields are
      well formed. */
  function FieldsOf(c: Category, w: bv32): (r: Fields)
    ensures WellFormed(c, r)
  {
    match c
    case Op => RType(Rd(w), Rs1(w), Rs2(w), Funct3(w), Funct7(w))
    case Load | OpImm | Jalr | System => IType(Rd(w), Rs1(w), Funct3(w), ImmI(w))
    case Store => SType(Rs1(w), Rs2(w), Funct3(w), ImmS(w))
    case Branch => BType(Rs1(w), Rs2(w), Funct3(w), ImmB(w))
    case Lui | Auipc => UType(Rd(w), ImmU(w))
    case Jal => JType(Rd(w), ImmJ(w))
  }

  /** Placing decoded fields back into a word with the category's opcode. */
  function Encode(c: Category, f: Fields): (r: bv32)
    ensures Opcode(r) == OpcodeOf(c) && r != 0
  {
    match f
    case RType(rd, rs1, rs2, funct3, funct7) => EncodeR(funct7, rs2, rs1, funct3, rd, OpcodeOf(c))
    case IType(rd, rs1, funct3, imm) => EncodeI(imm, rs1, funct3, rd, OpcodeOf(c))
    case SType(rs1, rs2, funct3, imm) => EncodeS(imm, rs2, rs1, funct3, OpcodeOf(c))
    case BType(rs1, rs2, funct3, imm) => EncodeB(imm, rs2, rs1, funct3, OpcodeOf(c))
    case UType(rd, imm) => EncodeU(imm, rd, OpcodeOf(c))
    case JType(rd, imm) => EncodeJ(imm, rd, OpcodeOf(c))
  }

  /** Whatever the category, its fields re-encode to the word. */
  lemma Reencode(c: Category, w: bv32)
    requires OpcodeOf(c) == Opcode(w)
    ensures Encode(c, FieldsOf(c, w)) == w
  {
    match c
    case Op => ReassembleR(w);
    case Load | OpImm | Jalr | System => ReassembleI(w);
    case Store => ReassembleS(w);
    case Branch => ReassembleB(w);
    case Lui | Auipc => ReassembleU(w);
    case Jal => ReassembleJ(w);
  }

  /** `disassemble_instruction` up to the text: zero is "nop", the ten opcodes of the
      table dispatch to their format, any other opcode is unknown. A decoded instruction
      re-encodes to the very word it came from. */
  function Decode(w: bv32): (r: Decoded)
    ensures r == Nop <==> w == 0
    ensures r.Unknown? <==> w != 0 && Opcode(w) as int !in OPCODES
    ensures r.Unknown? ==> r.opcode == Opcode(w)
    ensures r.Known? ==> OPCODES[Opcode(w) as int] == NameOf(r.category) && Encode(r.category, r.fields) == w
    ensures r.Known? ==> r.fields == FieldsOf(r.category, w) && WellFormed(r.category, r.fields)
  {
    if w == 0 then Nop
    else
      match CategoryOf(Opcode(w))
      case None => Unknown(Opcode(w))
      case Some(c) =>
        Reencode(c, w);
        Known(c, FieldsOf(c, w))
  }

  /** The other direction: well-formed fields of any category encode to a word that
      decodes to exactly that category and those fields. */
  lemma {:induction false} DecodeEncode(c: Category, f: Fields)
    requires WellFormed(c, f)
    ensures Decode(Encode(c, f)) == Known(c, f)
  {
    var w := Encode(c, f);
    CategoryOfOpcodeOf(c, Opcode(w));
    match f
    case RType(_, _, _, _, _) =>
    case IType(_, _, _, imm) => EncodeIThenExtract(imm, f.rs1, f.funct3, f.rd, OpcodeOf(c));
    case SType(_, _, _, imm) => EncodeSThenExtract(imm, f.rs2, f.rs1, f.funct3, OpcodeOf(c));
    case BType(_, _, _, imm) => EncodeBThenExtract(imm, f.rs2, f.rs1, f.funct3, OpcodeOf(c));
    case UType(_, imm) => EncodeUThenExtract(imm, f.rd, OpcodeOf(c));
    case JType(_, imm) => EncodeJThenExtract(imm, f.rd, OpcodeOf(c));
  }

  /** The register names `REGISTERS` gives x0..x31 in the rendered text. */
  const REGISTERS: seq<string> := [
    "zero", "ra", "sp", "gp", "tp", "t0", "t1", "t2",
    "s0/fp", "s1", "a0", "a1", "a2", "a3", "a4", "a5",
    "a6", "a7", "s2", "s3", "s4", "s5", "s6", "s7",
    "s8", "s9", "s10", "s11", "t3", "t4", "t5", "t6"]

  /** The word 0x003100B3 is the OP instruction with rd = x1, rs1 = x2, rs2 = x3 and both
      function fields zero (the fields of "add ra, sp, gp"). */
  lemma AddExample()
    ensures Decode(0x003100B3) == Known(Op, RType(1, 2, 3, 0, 0))
  {
    var w: bv32 := 0x003100B3;
    assert Opcode(w) == 0x33 && CategoryOf(0x33) == Some(Op);
    assert Rd(w) == 1 && Rs1(w) == 2 && Rs2(w) == 3 && Funct3(w) == 0 && Funct7(w) == 0;
  }

  /** Registers x1, x2 and x3 render as "ra", "sp" and "gp". */
  lemma AddExampleNames()
    ensures REGISTERS[1] == "ra" && REGISTERS[2] == "sp" && REGISTERS[3] == "gp"
  {
  }

  // ---------------------------------------------------------------------------------
  // The signed immediates the text shows. The rendering code subtracts 2^12 (I), 2^13
  // (B) or 2^21 (J) from values `extract_imm_*` has already sign-extended to 32 bits, so
  // every negative immediate prints as a large positive number. Each `Displayed*`
  // function is the code as written; each `Signed*` function is the intended value.

  /** `imm_signed` in `disassemble_i_type`, as written: right for a non-negative
      immediate, 2^32 - 2^12 too large for a negative one. */
  function DisplayedImmI(w: bv32): (r: int)
    ensures r == if w >> 31 == 0 then SignedImmI(w) else SignedImmI(w) + 0x1_0000_0000 - 0x1000
  {
    var imm := ImmI(w);
    if imm < 0x800 then
      assert imm as int < 0x800 && w >> 31 == 0;
      assert SignedImmI(w) == imm as int;
      imm as int
    else
      assert imm as int >= 0xFFFF_F800 && w >> 31 == 1;
      assert SignedImmI(w) == imm as int - 0x1_0000_0000;
      imm as int - 0x1000
  }

  /** `imm_signed` in `disassemble_branch`, as written: right for a non-negative
      offset, 2^32 - 2^13 too large for a negative one. */
  function DisplayedImmB(w: bv32): (r: int)
    ensures r == if w >> 31 == 0 then SignedImmB(w) else SignedImmB(w) + 0x1_0000_0000 - 0x2000
  {
    var imm := ImmB(w);
    if imm < 0x1000 then
      assert imm as int < 0x1000 && w >> 31 == 0;
      imm as int
    else
      assert imm as int >= 0xFFFF_F000 && w >> 31 == 1;
      imm as int - 0x2000
  }

  /** `imm_signed` in `disassemble_jal`, as written: right for a non-negative offset,
      2^32 - 2^21 too large for a negative one. */
  function DisplayedImmJ(w: bv32): (r: int)
    ensures r == if w >> 31 == 0 then SignedImmJ(w) else SignedImmJ(w) + 0x1_0000_0000 - 0x20_0000
  {
    var imm := ImmJ(w);
    if imm < 0x10_0000 then
      assert imm as int < 0x10_0000 && w >> 31 == 0;
      imm as int
    else
      assert imm as int >= 0xFFF0_0000 && w >> 31 == 1;
      imm as int - 0x20_0000
  }

  /** The printed I immediate is never negative, so it misstates every negative one. */
  lemma DisplayedImmINeverNegative(w: bv32)
    ensures DisplayedImmI(w) >= 0
    ensures w >> 31 == 1 ==> DisplayedImmI(w) != SignedImmI(w)
  {
    var r := ImmI(w);
    if r < 0x800 {
      assert r as int < 0x800;
    } else {
      assert r as int >= 0xFFFF_F800;
    }
  }

  /** For `addi ra, sp, -1` (0xFFF10093) the text shows 4294963199. */
  lemma DisplayedImmIExample()
    ensures Decode(0xFFF1_0093) == Known(OpImm, IType(1, 2, 0, 0xFFFF_FFFF))
    ensures DisplayedImmI(0xFFF1_0093) == 4294963199 && SignedImmI(0xFFF1_0093) == -1
  {
  }

  /** The printed B immediate is never negative, so it misstates every negative one. */
  lemma DisplayedImmBNeverNegative(w: bv32)
    ensures DisplayedImmB(w) >= 0
    ensures w >> 31 == 1 ==> DisplayedImmB(w) != SignedImmB(w)
  {
    var r := ImmB(w);
    if r < 0x1000 {
      assert r as int < 0x1000;
    } else {
      assert r as int >= 0xFFFF_F000;
    }
  }

  /** For `beq ra, sp, -4` (0xFE208EE3) the text shows 4294959100. */
  lemma DisplayedImmBExample()
    ensures Decode(0xFE20_8EE3) == Known(Branch, BType(1, 2, 0, 0xFFFF_FFFC))
    ensures DisplayedImmB(0xFE20_8EE3) == 4294959100 && SignedImmB(0xFE20_8EE3) == -4
  {
  }

  /** The printed J immediate is never negative, so it misstates every negative one. */
  lemma DisplayedImmJNeverNegative(w: bv32)
    ensures DisplayedImmJ(w) >= 0
    ensures w >> 31 == 1 ==> DisplayedImmJ(w) != SignedImmJ(w)
  {
    var r := ImmJ(w);
    if r < 0x10_0000 {
      assert r as int < 0x10_0000;
    } else {
      assert r as int >= 0xFFF0_0000;
    }
  }

  /** For `jal zero, -4` (0xFFDFF06F) the text shows 4292870140. */
  lemma DisplayedImmJExample()
    ensures Decode(0xFFDF_F06F) == Known(Jal, JType(0, 0xFFFF_FFFC))
    ensures DisplayedImmJ(0xFFDF_F06F) == 4292870140 && SignedImmJ(0xFFDF_F06F) == -4
  {
    assert ImmJ(0xFFDF_F06F) == 0xFFFF_FFFC;
    assert (ImmJ(0xFFDF_F06F) & 0x1F_FFFF) as int == 0x1F_FFFC;
  }

  /** The I immediate as a signed number: the 12-bit field read in two's complement. */
  function SignedImmI(w: bv32): (r: int)
    ensures -0x800 <= r < 0x800
    ensures r < 0 <==> w >> 31 == 1
    ensures r == if w >> 31 == 0 then (w >> 20) as int else (w >> 20) as int - 0x1000
  {
    Signed(ImmI(w))
  }

  /** The B offset as a signed number: the 13-bit field read in two's complement. */
  function SignedImmB(w: bv32): (r: int)
    ensures -0x1000 <= r < 0x1000
    ensures r < 0 <==> w >> 31 == 1
    ensures r == if w >> 31 == 0 then (ImmB(w) & 0x1FFF) as int else (ImmB(w) & 0x1FFF) as int - 0x2000
  {
    Signed(ImmB(w))
  }

  /** The J offset as a signed number: the 21-bit field read in two's complement. */
  function SignedImmJ(w: bv32): (r: int)
    ensures -0x10_0000 <= r < 0x10_0000
    ensures r < 0 <==> w >> 31 == 1
    ensures r == if w >> 31 == 0 then (ImmJ(w) & 0x1F_FFFF) as int else (ImmJ(w) & 0x1F_FFFF) as int - 0x20_0000
  {
    Signed(ImmJ(w))
  }
}
