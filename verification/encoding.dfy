/** Bit packing of the RISC-V base instruction formats (section 2.2 and 2.3 of
    the RISC-V Unprivileged ISA, version 20191213) and the operation tables of
    the RV64I base (chapter 5) and the M extension (chapter 7).

    The packers take unmasked 32-bit operands exactly like the emitter does:
    a value too wide for its field is not range-checked and spills into the
    neighbouring fields, or is shifted out of the word at the top. */
module Encoding {
  import opened Base

  // Major opcodes (the RV32/64G opcode map).
  const OP_LOAD: bv32 := 0x03
  const OP_IMM: bv32 := 0x13
  const OP_IMM_32: bv32 := 0x1B
  const OP_STORE: bv32 := 0x23
  const OP_REG: bv32 := 0x33
  const OP_LUI: bv32 := 0x37
  const OP_REG_32: bv32 := 0x3B
  const OP_BRANCH: bv32 := 0x63

  /** `addi x0, x0, 0`, the canonical no-op. */
  const NOP_WORD: bv32 := 0x13

  // Field extraction, following the fixed field positions of section 2.2.

  function OpcodeOf(w: bv32): bv32 { w & 0x7F }
  function RdOf(w: bv32): bv32 { (w >> 7) & 0x1F }
  function Funct3Of(w: bv32): bv32 { (w >> 12) & 0x7 }
  function Rs1Of(w: bv32): bv32 { (w >> 15) & 0x1F }
  function Rs2Of(w: bv32): bv32 { (w >> 20) & 0x1F }
  function Funct7Of(w: bv32): bv32 { w >> 25 }
  /** The 12-bit I-immediate, bits 31..20. */
  function ImmIOf(w: bv32): bv32 { w >> 20 }
  /** The 12-bit S-immediate, reassembled from bits 31..25 and 11..7. */
  function ImmSOf(w: bv32): bv32 { ((w >> 25) << 5) | ((w >> 7) & 0x1F) }
  /** The 20-bit U-immediate, bits 31..12. */
  function ImmUOf(w: bv32): bv32 { w >> 12 }

  predicate IsReg(r: bv32) { r < 32 }
  predicate IsFunct3(f: bv32) { f < 8 }
  predicate IsFunct7(f: bv32) { f < 128 }
  predicate IsOpcode(op: bv32) { op < 128 }

  // Packers.

  function RType(funct7: bv32, rs2: bv32, rs1: bv32, funct3: bv32, rd: bv32, opcode: bv32): (w: bv32)
    ensures IsFunct7(funct7) && IsReg(rs2) && IsReg(rs1) && IsFunct3(funct3) && IsReg(rd) && IsOpcode(opcode) ==>
              && Funct7Of(w) == funct7 && Rs2Of(w) == rs2 && Rs1Of(w) == rs1
              && Funct3Of(w) == funct3 && RdOf(w) == rd && OpcodeOf(w) == opcode
  {
    (funct7 << 25) | (rs2 << 20) | (rs1 << 15) | (funct3 << 12) | (rd << 7) | opcode
  }

  /** I-type: the immediate keeps only its low 12 bits; two's-complement
      interpretation is left to the caller. */
  function IType(imm12: bv32, rs1: bv32, funct3: bv32, rd: bv32, opcode: bv32): (w: bv32)
    ensures IsReg(rs1) && IsFunct3(funct3) && IsReg(rd) && IsOpcode(opcode) ==>
              && ImmIOf(w) == imm12 & 0xFFF && Rs1Of(w) == rs1
              && Funct3Of(w) == funct3 && RdOf(w) == rd && OpcodeOf(w) == opcode
  {
    (imm12 << 20) | (rs1 << 15) | (funct3 << 12) | (rd << 7) | opcode
  }

  /** S-type: the immediate is split into bits 11..5 (word bits 31..25) and
      bits 4..0 (word bits 11..7), as in section 2.3. */
  function SType(imm12: bv32, rs2: bv32, rs1: bv32, funct3: bv32, opcode: bv32): (w: bv32)
    ensures IsReg(rs2) && IsReg(rs1) && IsFunct3(funct3) && IsOpcode(opcode) ==>
              && ImmSOf(w) == imm12 & 0xFFF && Rs2Of(w) == rs2 && Rs1Of(w) == rs1
              && Funct3Of(w) == funct3 && OpcodeOf(w) == opcode
  {
    var hi := (imm12 >> 5) & 0x7F;
    var lo := imm12 & 0x1F;
    (hi << 25) | (rs2 << 20) | (rs1 << 15) | (funct3 << 12) | (lo << 7) | opcode
  }

  /** A funct3 operand of up to four bits keeps its low three bits in funct3
      and carries its fourth bit into the lowest bit of rs1. */
  lemma ITypeFunct3Spill(imm12: bv32, rs1: bv32, funct3: bv32, rd: bv32, opcode: bv32)
    requires funct3 < 16
    ensures IType(imm12, rs1, funct3, rd, opcode) == IType(imm12, rs1 | (funct3 >> 3), funct3 & 7, rd, opcode)
  {
    assert funct3 << 12 == ((funct3 & 7) << 12) | ((funct3 >> 3) << 15);
  }

  /** The same spill for an S-type word. */
  lemma STypeFunct3Spill(imm12: bv32, rs2: bv32, rs1: bv32, funct3: bv32, opcode: bv32)
    requires funct3 < 16
    ensures SType(imm12, rs2, rs1, funct3, opcode) == SType(imm12, rs2, rs1 | (funct3 >> 3), funct3 & 7, opcode)
  {
    assert funct3 << 12 == ((funct3 & 7) << 12) | ((funct3 >> 3) << 15);
  }

  /** After the spill both operands fit their fields again. */
  lemma SpilledOperandsFit(rs1: bv32, funct3: bv32)
    requires IsReg(rs1) && funct3 < 16
    ensures IsReg(rs1 | (funct3 >> 3)) && IsFunct3(funct3 & 7)
  {
  }

  /** The fields of an I-type word whose funct3 operand has four bits: the
      spill lands in rs1, and the other fields are unaffected. */
  lemma ITypeWideFunct3(imm12: bv32, rs1: bv32, funct3: bv32, rd: bv32, opcode: bv32)
    requires IsReg(rs1) && funct3 < 16 && IsReg(rd) && IsOpcode(opcode)
    ensures var w := IType(imm12, rs1, funct3, rd, opcode);
            && ImmIOf(w) == imm12 & 0xFFF && Rs1Of(w) == rs1 | (funct3 >> 3)
            && Funct3Of(w) == funct3 & 7 && RdOf(w) == rd && OpcodeOf(w) == opcode
  {
    ITypeFunct3Spill(imm12, rs1, funct3, rd, opcode);
    SpilledOperandsFit(rs1, funct3);
  }

  /** The fields of an S-type word whose funct3 operand has four bits. */
  lemma STypeWideFunct3(imm12: bv32, rs2: bv32, rs1: bv32, funct3: bv32, opcode: bv32)
    requires IsReg(rs2) && IsReg(rs1) && funct3 < 16 && IsOpcode(opcode)
    ensures var w := SType(imm12, rs2, rs1, funct3, opcode);
            && ImmSOf(w) == imm12 & 0xFFF && Rs2Of(w) == rs2 && Rs1Of(w) == rs1 | (funct3 >> 3)
            && Funct3Of(w) == funct3 & 7 && OpcodeOf(w) == opcode
  {
    STypeFunct3Spill(imm12, rs2, rs1, funct3, opcode);
    SpilledOperandsFit(rs1, funct3);
  }

  /** U-type: the immediate keeps only its low 20 bits. */
  function UType(imm20: bv32, rd: bv32, opcode: bv32): (w: bv32)
    ensures IsReg(rd) && IsOpcode(opcode) ==>
              ImmUOf(w) == imm20 & 0xF_FFFF && RdOf(w) == rd && OpcodeOf(w) == opcode
  {
    (imm20 << 12) | (rd << 7) | opcode
  }

  /** A conditional branch whose displacement is left as zero, to be patched
      by a later pass: the B-immediate bits (31..25 and 11..7) are all clear. */
  function BranchWord(rs2: bv32, rs1: bv32, cond: bv32): (w: bv32)
    ensures IsReg(rs2) && IsReg(rs1) && IsFunct3(cond) ==>
              && Funct7Of(w) == 0 && RdOf(w) == 0 && Rs2Of(w) == rs2 && Rs1Of(w) == rs1
              && Funct3Of(w) == cond && OpcodeOf(w) == OP_BRANCH
  {
    (rs2 << 20) | (rs1 << 15) | (cond << 12) | OP_BRANCH
  }

  // Register-register operations (OP and OP-32).

  datatype ROp =
    | Add | Sub | Sll | Slt | Sltu | Xor | Srl | Sra | Or | And
    | Mul | Mulh | Mulhsu | Mulhu | Div | Divu | Rem | Remu
    | Addw | Subw | Sllw | Srlw | Sraw
    | Mulw | Divw | Divuw | Remw | Remuw

  /** (funct7, funct3, opcode) of each register-register operation. */
  function RFields(op: ROp): (bv32, bv32, bv32) {
    match op
    case Add => (0x00, 0, OP_REG)
    case Sub => (0x20, 0, OP_REG)
    case Sll => (0x00, 1, OP_REG)
    case Slt => (0x00, 2, OP_REG)
    case Sltu => (0x00, 3, OP_REG)
    case Xor => (0x00, 4, OP_REG)
    case Srl => (0x00, 5, OP_REG)
    case Sra => (0x20, 5, OP_REG)
    case Or => (0x00, 6, OP_REG)
    case And => (0x00, 7, OP_REG)
    case Mul => (0x01, 0, OP_REG)
    case Mulh => (0x01, 1, OP_REG)
    case Mulhsu => (0x01, 2, OP_REG)
    case Mulhu => (0x01, 3, OP_REG)
    case Div => (0x01, 4, OP_REG)
    case Divu => (0x01, 5, OP_REG)
    case Rem => (0x01, 6, OP_REG)
    case Remu => (0x01, 7, OP_REG)
    case Addw => (0x00, 0, OP_REG_32)
    case Subw => (0x20, 0, OP_REG_32)
    case Sllw => (0x00, 1, OP_REG_32)
    case Srlw => (0x00, 5, OP_REG_32)
    case Sraw => (0x20, 5, OP_REG_32)
    case Mulw => (0x01, 0, OP_REG_32)
    case Divw => (0x01, 4, OP_REG_32)
    case Divuw => (0x01, 5, OP_REG_32)
    case Remw => (0x01, 6, OP_REG_32)
    case Remuw => (0x01, 7, OP_REG_32)
  }

  /** The decoder's view of the same opcode space: which operation, if any,
      a (funct7, funct3, opcode) triple denotes. */
  function DecodeR(funct7: bv32, funct3: bv32, opcode: bv32): Option<ROp> {
    if opcode == OP_REG then
      if funct7 == 0x00 then
        if funct3 == 0 then Some(Add) else if funct3 == 1 then Some(Sll)
        else if funct3 == 2 then Some(Slt) else if funct3 == 3 then Some(Sltu)
        else if funct3 == 4 then Some(Xor) else if funct3 == 5 then Some(Srl)
        else if funct3 == 6 then Some(Or) else if funct3 == 7 then Some(And)
        else None
      else if funct7 == 0x20 then
        if funct3 == 0 then Some(Sub) else if funct3 == 5 then Some(Sra) else None
      else if funct7 == 0x01 then
        if funct3 == 0 then Some(Mul) else if funct3 == 1 then Some(Mulh)
        else if funct3 == 2 then Some(Mulhsu) else if funct3 == 3 then Some(Mulhu)
        else if funct3 == 4 then Some(Div) else if funct3 == 5 then Some(Divu)
        else if funct3 == 6 then Some(Rem) else if funct3 == 7 then Some(Remu)
        else None
      else None
    else if opcode == OP_REG_32 then
      if funct7 == 0x00 then
        if funct3 == 0 then Some(Addw) else if funct3 == 1 then Some(Sllw)
        else if funct3 == 5 then Some(Srlw) else None
      else if funct7 == 0x20 then
        if funct3 == 0 then Some(Subw) else if funct3 == 5 then Some(Sraw) else None
      else if funct7 == 0x01 then
        if funct3 == 0 then Some(Mulw) else if funct3 == 4 then Some(Divw)
        else if funct3 == 5 then Some(Divuw) else if funct3 == 6 then Some(Remw)
        else if funct3 == 7 then Some(Remuw) else None
      else None
    else None
  }

  /** Every register-register operation is encoded by a distinct, well-formed
      triple that decodes back to it. */
  lemma RFieldsDecode(op: ROp)
    ensures IsFunct7(RFields(op).0) && IsFunct3(RFields(op).1) && IsOpcode(RFields(op).2)
    ensures DecodeR(RFields(op).0, RFields(op).1, RFields(op).2) == Some(op)
  {
    // One proof obligation per operation keeps each one small.
    match op
    case Add => case Sub => case Sll => case Slt => case Sltu => case Xor =>
    case Srl => case Sra => case Or => case And => case Mul => case Mulh =>
    case Mulhsu => case Mulhu => case Div => case Divu => case Rem => case Remu =>
    case Addw => case Subw => case Sllw => case Srlw => case Sraw => case Mulw =>
    case Divw => case Divuw => case Remw => case Remuw =>
  }

  // Register-immediate operations (OP-IMM and OP-IMM-32).

  datatype IOp =
    | Addi | Slti | Sltiu | Xori | Ori | Andi | Slli | Srli | Srai
    | Addiw | Slliw | Srliw | Sraiw

  /** (funct3, opcode) of each register-immediate operation. */
  function IFields(op: IOp): (bv32, bv32) {
    match op
    case Addi => (0, OP_IMM)
    case Slti => (2, OP_IMM)
    case Sltiu => (3, OP_IMM)
    case Xori => (4, OP_IMM)
    case Ori => (6, OP_IMM)
    case Andi => (7, OP_IMM)
    case Slli => (1, OP_IMM)
    case Srli => (5, OP_IMM)
    case Srai => (5, OP_IMM)
    case Addiw => (0, OP_IMM_32)
    case Slliw => (1, OP_IMM_32)
    case Srliw => (5, OP_IMM_32)
    case Sraiw => (5, OP_IMM_32)
  }

  predicate IsShift(op: IOp) {
    op.Slli? || op.Srli? || op.Srai? || op.Slliw? || op.Srliw? || op.Sraiw?
  }

  /** The immediate field the emitter writes: shift amounts are masked to 6
      bits (5 for the word forms) and arithmetic right shifts set bit 10. */
  function ImmField(op: IOp, imm: bv32): bv32 {
    match op
    case Slli => imm & 63
    case Srli => imm & 63
    case Srai => (1 << 10) | (imm & 63)
    case Slliw => imm & 31
    case Srliw => imm & 31
    case Sraiw => (1 << 10) | (imm & 31)
    case _ => imm
  }

  /** The decoder's view: which operation an I-type word with this funct3,
      opcode and 12-bit immediate field denotes. RV64 shifts by an immediate
      use the top six immediate bits (seven for the word forms) as a
      sub-opcode. */
  function DecodeI(funct3: bv32, opcode: bv32, imm12: bv32): Option<IOp> {
    if opcode == OP_IMM then
      if funct3 == 0 then Some(Addi) else if funct3 == 2 then Some(Slti)
      else if funct3 == 3 then Some(Sltiu) else if funct3 == 4 then Some(Xori)
      else if funct3 == 6 then Some(Ori) else if funct3 == 7 then Some(Andi)
      else if funct3 == 1 then (if imm12 >> 6 == 0 then Some(Slli) else None)
      else if funct3 == 5 then
        (if imm12 >> 6 == 0 then Some(Srli) else if imm12 >> 6 == 0x10 then Some(Srai) else None)
      else None
    else if opcode == OP_IMM_32 then
      if funct3 == 0 then Some(Addiw)
      else if funct3 == 1 then (if imm12 >> 5 == 0 then Some(Slliw) else None)
      else if funct3 == 5 then
        (if imm12 >> 5 == 0 then Some(Srliw) else if imm12 >> 5 == 0x20 then Some(Sraiw) else None)
      else None
    else None
  }

  /** Every register-immediate operation, with any immediate, produces a
      field triple that decodes back to the same operation; shifts keep their
      shift amount in the low bits of the field. */
  lemma IFieldsDecode(op: IOp, imm: bv32)
    ensures IsFunct3(IFields(op).0) && IsOpcode(IFields(op).1)
    ensures DecodeI(IFields(op).0, IFields(op).1, ImmField(op, imm) & 0xFFF) == Some(op)
    ensures op.Slli? || op.Srli? || op.Srai? ==> (ImmField(op, imm) & 0xFFF) & 63 == imm & 63
    ensures op.Slliw? || op.Srliw? || op.Sraiw? ==> (ImmField(op, imm) & 0xFFF) & 31 == imm & 31
    ensures !IsShift(op) ==> ImmField(op, imm) & 0xFFF == imm & 0xFFF
  {
  }

  // Conditional branches.

  datatype Cond = Beq | Bne | Blt | Bge | Bltu | Bgeu

  function CondCode(c: Cond): bv32 {
    match c
    case Beq => 0
    case Bne => 1
    case Blt => 4
    case Bge => 5
    case Bltu => 6
    case Bgeu => 7
  }

  function DecodeCond(funct3: bv32): Option<Cond> {
    if funct3 == 0 then Some(Beq) else if funct3 == 1 then Some(Bne)
    else if funct3 == 4 then Some(Blt) else if funct3 == 5 then Some(Bge)
    else if funct3 == 6 then Some(Bltu) else if funct3 == 7 then Some(Bgeu)
    else None
  }

  lemma CondCodeDecode(c: Cond)
    ensures IsFunct3(CondCode(c)) && DecodeCond(CondCode(c)) == Some(c)
  {
  }
}
