/** The typed RV64 function emitter: a static type per register and frame
    slot, and an append-only list of instruction words. Every operation
    either fails with an error and leaves the caller's state as it was, or
    appends its instruction and applies all of its type updates. */
module Emitter {
  import opened Base
  import opened TypeWords
  import opened Encoding
  import Classes

  const REGISTERS: nat := 32
  const MAX_FRAME_SLOTS: nat := 255
  const MAX_PARAMS: nat := 8
  /** Argument registers a0..a7 are x10..x17. */
  const FIRST_ARG_REG: nat := 10

  /** The emitter's state. `types` holds 32 register entries followed by one
      entry per frame slot. `usex5ret` and `returntype` are recorded by the
      constructor but no operation of the emitter reads them. */
  datatype FunctionState = FunctionState(
    frameslots: nat,
    usex5ret: bool,
    returntype: bv32,
    code: seq<bv32>,
    types: seq<bv32>)

  ghost predicate Valid(f: FunctionState) {
    && f.frameslots <= MAX_FRAME_SLOTS
    && |f.types| == REGISTERS + f.frameslots
    && f.types[0] == UNKNOWN_INT
  }

  /** `g` has the same configuration as `f`. */
  predicate SameConfig(f: FunctionState, g: FunctionState) {
    g.frameslots == f.frameslots && g.usex5ret == f.usex5ret && g.returntype == f.returntype
  }

  /** `g`'s type table is `f`'s with register `rd` now typed `t`, except that
      x0 always stays an unknown integer; no other entry changes. */
  ghost predicate Retyped(f: FunctionState, g: FunctionState, rd: nat, t: bv32) {
    && |g.types| == |f.types| > 0
    && g.types[0] == UNKNOWN_INT
    && (0 < rd < |f.types| ==> g.types[rd] == t)
    && forall k :: 0 < k < |f.types| && k != rd ==> g.types[k] == f.types[k]
  }

  /** `g` is `f` with exactly the word `w` appended to the code. */
  ghost predicate Emitted(f: FunctionState, g: FunctionState, w: bv32) {
    SameConfig(f, g) && g.code == f.code + [w]
  }

  /** A register integer instructions may read: not one of the reserved
      x1..x4 (return address, stack, global and thread pointers), and not
      holding a class or array reference. Registers still holding their
      original-value token count as integers. */
  ghost predicate IsOperand(f: FunctionState, r: bv32)
    requires Valid(f)
  {
    r < 32 && !(1 <= r <= 4) && !IsReference(f.types[r])
  }

  /** Sets entry `k` and re-pins x0. */
  function SetType(types: seq<bv32>, k: nat, t: bv32): seq<bv32>
    requires k < |types|
  {
    types[k := t][0 := UNKNOWN_INT]
  }

  // Construction.

  /** The type table before parameters are bound: x0..x4 unknown integers,
      x5..x31 their own original-value tokens, frame slots unknown integers. */
  function InitialTypes(frameslots: nat): (ts: seq<bv32>)
    ensures |ts| == REGISTERS + frameslots
    ensures forall k :: 0 <= k < |ts| ==>
              ts[k] == if 5 <= k < REGISTERS then k as bv32 else UNKNOWN_INT
  {
    seq(REGISTERS + frameslots, k => if 5 <= k < REGISTERS then k as bv32 else UNKNOWN_INT)
  }

  /** Writes `params[i..]` into x(10+i).. one at a time, as the constructor's
      loop does. */
  function BindParams(types: seq<bv32>, params: seq<bv32>, i: nat): (ts: seq<bv32>)
    requires i <= |params| <= MAX_PARAMS && |types| >= REGISTERS && types[0] == UNKNOWN_INT
    ensures |ts| == |types| && ts[0] == UNKNOWN_INT
    ensures forall j :: i <= j < |params| ==> ts[FIRST_ARG_REG + j] == params[j]
    ensures forall k :: 0 <= k < |types| && !(FIRST_ARG_REG + i <= k < FIRST_ARG_REG + |params|) ==>
              ts[k] == types[k]
    decreases |params| - i
  {
    if i == |params| then types
    else BindParams(SetType(types, FIRST_ARG_REG + i, params[i]), params, i + 1)
  }

  function New(frameslots: nat, usex5ret: bool, params: seq<bv32>, returntype: bv32): (r: Result<FunctionState>)
    ensures r.Ok? <==> frameslots <= MAX_FRAME_SLOTS && |params| <= MAX_PARAMS
    ensures r.Err? ==> r.error == if frameslots > MAX_FRAME_SLOTS then FrameTooLarge else TooManyParams
    ensures r.Ok? ==>
              var f := r.value;
              && Valid(f) && f.code == [] && f.frameslots == frameslots
              && f.usex5ret == usex5ret && f.returntype == returntype
    ensures r.Ok? ==> forall k :: 0 <= k <= 4 ==> r.value.types[k] == UNKNOWN_INT
    ensures r.Ok? ==> forall j :: 0 <= j < |params| ==> r.value.types[FIRST_ARG_REG + j] == params[j]
    ensures r.Ok? ==>
              forall k :: 5 <= k < REGISTERS && !(FIRST_ARG_REG <= k < FIRST_ARG_REG + |params|) ==>
                r.value.types[k] == k as bv32
    ensures r.Ok? ==> forall s :: REGISTERS <= s < |r.value.types| ==> r.value.types[s] == UNKNOWN_INT
  {
    if frameslots > MAX_FRAME_SLOTS then Err(FrameTooLarge)
    else if |params| > MAX_PARAMS then Err(TooManyParams)
    else Ok(FunctionState(frameslots, usex5ret, returntype, [],
                          BindParams(InitialTypes(frameslots), params, 0)))
  }

  // The type table.

  function ReadRegType(f: FunctionState, r: bv32): (t: Result<bv32>)
    requires Valid(f)
    ensures t.Ok? <==> r < 32
    ensures t.Err? ==> t.error == IllegalRegister
    ensures t.Ok? ==> t.value == f.types[r]
  {
    if r >= 32 then Err(IllegalRegister) else Ok(f.types[r])
  }

  function WriteRegType(f: FunctionState, r: bv32, t: bv32): (g: Result<FunctionState>)
    requires Valid(f)
    ensures g.Ok? <==> r < 32
    ensures g.Err? ==> g.error == IllegalRegister
    ensures g.Ok? ==> Valid(g.value) && SameConfig(f, g.value) && g.value.code == f.code
    ensures g.Ok? ==> Retyped(f, g.value, r as int, t)
  {
    if r >= 32 then Err(IllegalRegister)
    else Ok(f.(types := SetType(f.types, r as int, t)))
  }

  /** Reading back a register after a write: x0 reads as an unknown integer
      whatever was written, any other register reads what was written, and
      every other register reads as before. */
  lemma ReadAfterWrite(f: FunctionState, r: bv32, t: bv32, q: bv32)
    requires Valid(f) && WriteRegType(f, r, t).Ok?
    ensures var g := WriteRegType(f, r, t).value;
            && ReadRegType(g, 0) == Ok(UNKNOWN_INT)
            && (r != 0 ==> ReadRegType(g, r) == Ok(t))
            && (q != r && q != 0 ==> ReadRegType(g, q) == ReadRegType(f, q))
  {
  }

  /** The integer-operand check, with the source's order of failures. */
  function AssertInteger(f: FunctionState, r: bv32): (o: Outcome)
    requires Valid(f)
    ensures o.Pass? <==> IsOperand(f, r)
    ensures o.Fail? ==> o.error == if 1 <= r <= 4 then BannedRegister
                                   else if r >= 32 then IllegalRegister
                                   else ExpectedInteger
  {
    if 1 <= r <= 4 then Fail(BannedRegister)
    else if r >= 32 then Fail(IllegalRegister)
    else
      ReferenceIffAtLeast32(f.types[r]);
      if f.types[r] >= FIRST_CLASS_CODE then Fail(ExpectedInteger)
      else Pass
  }

  // The instruction formats, with their type rules.

  /** Register-register instruction: both sources must be integer operands
      (rs2 is checked first); the destination becomes an unknown integer. */
  function RTypeOp(f: FunctionState, funct7: bv32, rs2: bv32, rs1: bv32, funct3: bv32, rd: bv32, opcode: bv32): (r: Result<FunctionState>)
    requires Valid(f)
    ensures r.Ok? <==> IsOperand(f, rs2) && IsOperand(f, rs1) && rd < 32
    ensures r.Err? ==> r.error == if !IsOperand(f, rs2) then AssertInteger(f, rs2).error
                                  else if !IsOperand(f, rs1) then AssertInteger(f, rs1).error
                                  else IllegalRegister
    ensures r.Ok? ==>
              && Valid(r.value)
              && Retyped(f, r.value, rd as int, UNKNOWN_INT)
              && Emitted(f, r.value, RType(funct7, rs2, rs1, funct3, rd, opcode))
  {
    var w := RType(funct7, rs2, rs1, funct3, rd, opcode);
    :- AssertInteger(f, rs2);
    :- AssertInteger(f, rs1);
    var g :- WriteRegType(f, rd, UNKNOWN_INT);
    Ok(g.(code := f.code + [w]))
  }

  /** Register-immediate instruction: the source must be an integer operand;
      the destination becomes an unknown integer. */
  function ITypeOp(f: FunctionState, imm12: bv32, rs1: bv32, funct3: bv32, rd: bv32, opcode: bv32): (r: Result<FunctionState>)
    requires Valid(f)
    ensures r.Ok? <==> IsOperand(f, rs1) && rd < 32
    ensures r.Err? ==> r.error == if !IsOperand(f, rs1) then AssertInteger(f, rs1).error
                                  else IllegalRegister
    ensures r.Ok? ==>
              && Valid(r.value)
              && Retyped(f, r.value, rd as int, UNKNOWN_INT)
              && Emitted(f, r.value, IType(imm12, rs1, funct3, rd, opcode))
  {
    var w := IType(imm12, rs1, funct3, rd, opcode);
    :- AssertInteger(f, rs1);
    var g :- WriteRegType(f, rd, UNKNOWN_INT);
    Ok(g.(code := f.code + [w]))
  }

  /** Upper-immediate instruction: no source; the destination becomes an
      unknown integer. */
  function UTypeOp(f: FunctionState, imm20: bv32, rd: bv32, opcode: bv32): (r: Result<FunctionState>)
    requires Valid(f)
    ensures r.Ok? <==> rd < 32
    ensures r.Err? ==> r.error == IllegalRegister
    ensures r.Ok? ==>
              && Valid(r.value)
              && Retyped(f, r.value, rd as int, UNKNOWN_INT)
              && Emitted(f, r.value, UType(imm20, rd, opcode))
  {
    var g :- WriteRegType(f, rd, UNKNOWN_INT);
    Ok(g.(code := f.code + [UType(imm20, rd, opcode)]))
  }

  // The public instructions.

  /** add, sub, sll, ..., and the M extension and RV64 word forms. */
  function Alu(f: FunctionState, op: ROp, rd: bv32, rs1: bv32, rs2: bv32): (r: Result<FunctionState>)
    requires Valid(f)
    ensures r.Ok? <==> IsOperand(f, rs1) && IsOperand(f, rs2) && rd < 32
    ensures r.Err? ==> r.error == if !IsOperand(f, rs2) then AssertInteger(f, rs2).error
                                  else if !IsOperand(f, rs1) then AssertInteger(f, rs1).error
                                  else IllegalRegister
    ensures r.Ok? ==>
              && Valid(r.value) && Retyped(f, r.value, rd as int, UNKNOWN_INT)
              && |r.value.code| == |f.code| + 1 && r.value.code[..|f.code|] == f.code
              && SameConfig(f, r.value)
    ensures r.Ok? ==>
              var w := r.value.code[|f.code|];
              && DecodeR(Funct7Of(w), Funct3Of(w), OpcodeOf(w)) == Some(op)
              && RdOf(w) == rd && Rs1Of(w) == rs1 && Rs2Of(w) == rs2
  {
    var (funct7, funct3, opcode) := RFields(op);
    RFieldsDecode(op);
    RTypeOp(f, funct7, rs2, rs1, funct3, rd, opcode)
  }

  /** addi, slti, ..., the immediate shifts and their RV64 word forms. */
  function AluImm(f: FunctionState, op: IOp, rd: bv32, rs1: bv32, imm: bv32): (r: Result<FunctionState>)
    requires Valid(f)
    ensures r.Ok? <==> IsOperand(f, rs1) && rd < 32
    ensures r.Err? ==> r.error == if !IsOperand(f, rs1) then AssertInteger(f, rs1).error
                                  else IllegalRegister
    ensures r.Ok? ==>
              && Valid(r.value) && Retyped(f, r.value, rd as int, UNKNOWN_INT)
              && |r.value.code| == |f.code| + 1 && r.value.code[..|f.code|] == f.code
              && SameConfig(f, r.value)
    ensures r.Ok? ==>
              var w := r.value.code[|f.code|];
              && DecodeI(Funct3Of(w), OpcodeOf(w), ImmIOf(w)) == Some(op)
              && RdOf(w) == rd && Rs1Of(w) == rs1
              && (!IsShift(op) ==> ImmIOf(w) == imm & 0xFFF)
              && (op.Slli? || op.Srli? || op.Srai? ==> ImmIOf(w) & 63 == imm & 63)
              && (op.Slliw? || op.Srliw? || op.Sraiw? ==> ImmIOf(w) & 31 == imm & 31)
  {
    var (funct3, opcode) := IFields(op);
    var r := ITypeOp(f, ImmField(op, imm), rs1, funct3, rd, opcode);
    if r.Ok? then ImmWordDecodes(op, rs1, rd, imm); r else r
  }

  /** The word AluImm emits decodes back to its operation, registers and
      immediate. */
  lemma ImmWordDecodes(op: IOp, rs1: bv32, rd: bv32, imm: bv32)
    requires rs1 < 32 && rd < 32
    ensures var w := IType(ImmField(op, imm), rs1, IFields(op).0, rd, IFields(op).1);
            && DecodeI(Funct3Of(w), OpcodeOf(w), ImmIOf(w)) == Some(op)
            && RdOf(w) == rd && Rs1Of(w) == rs1
            && (!IsShift(op) ==> ImmIOf(w) == imm & 0xFFF)
            && (op.Slli? || op.Srli? || op.Srai? ==> ImmIOf(w) & 63 == imm & 63)
            && (op.Slliw? || op.Srliw? || op.Sraiw? ==> ImmIOf(w) & 31 == imm & 31)
  {
    IFieldsDecode(op, imm);
  }

  function Lui(f: FunctionState, rd: bv32, imm20: bv32): (r: Result<FunctionState>)
    requires Valid(f)
    ensures r.Ok? <==> rd < 32
    ensures r.Err? ==> r.error == IllegalRegister
    ensures r.Ok? ==>
              && Valid(r.value) && Retyped(f, r.value, rd as int, UNKNOWN_INT)
              && |r.value.code| == |f.code| + 1 && r.value.code[..|f.code|] == f.code
              && SameConfig(f, r.value)
    ensures r.Ok? ==>
              var w := r.value.code[|f.code|];
              OpcodeOf(w) == OP_LUI && RdOf(w) == rd && ImmUOf(w) == imm20 & 0xF_FFFF
  {
    UTypeOp(f, imm20, rd, OP_LUI)
  }

  /** `addi x0, x0, 0`: always accepted, and it changes no type. */
  function Nop(f: FunctionState): (r: Result<FunctionState>)
    requires Valid(f)
    ensures r.Ok? && r.value.types == f.types && Emitted(f, r.value, NOP_WORD)
  {
    var r := AluImm(f, Addi, 0, 0, 0);
    assert r.value.types == f.types;
    r
  }

  /** `addi rd, rs, 0`, the one instruction that passes on the source's
      static type unchanged, including reference and token types. */
  function Move(f: FunctionState, rd: bv32, rs: bv32): (r: Result<FunctionState>)
    requires Valid(f)
    ensures r.Ok? <==> rd < 32 && rs < 32
    ensures r.Err? ==> r.error == IllegalRegister
    ensures r.Ok? ==>
              && Valid(r.value)
              && Retyped(f, r.value, rd as int, f.types[rs])
              && Emitted(f, r.value, IType(0, rs, 0, rd, OP_IMM))
  {
    var t :- ReadRegType(f, rs);
    var g :- WriteRegType(f, rd, t);
    Ok(g.(code := f.code + [(rs << 15) | (rd << 7) | OP_IMM]))
  }

  /** beq, bne, blt, bge, bltu, bgeu. The target is not yet used: the word
      carries a zero displacement, nothing is checked and no type changes. */
  function Branch(f: FunctionState, cond: Cond, rs1: bv32, rs2: bv32, target: bv32): (g: FunctionState)
    ensures g.types == f.types && Emitted(f, g, BranchWord(rs2, rs1, CondCode(cond)))
    ensures Valid(f) ==> Valid(g)
    ensures rs1 < 32 && rs2 < 32 ==>
              var w := g.code[|f.code|];
              && OpcodeOf(w) == OP_BRANCH && DecodeCond(Funct3Of(w)) == Some(cond)
              && Rs1Of(w) == rs1 && Rs2Of(w) == rs2 && Funct7Of(w) == 0 && RdOf(w) == 0
  {
    CondCodeDecode(cond);
    f.(code := f.code + [BranchWord(rs2, rs1, CondCode(cond))])
  }

  /** The byte offset at which the next instruction will be placed,
      truncated to 32 bits. */
  function MakeTarget(f: FunctionState): (t: u32)
    ensures t % 4 == 0
    ensures 4 * |f.code| < U32_LIMIT ==> t / 4 == |f.code|
  {
    Wrap32(4 * |f.code|)
  }

  /** Appending one word moves the next target on by four bytes. */
  lemma TargetAdvances(f: FunctionState, g: FunctionState, w: bv32)
    requires g.code == f.code + [w]
    ensures MakeTarget(g) == Wrap32(MakeTarget(f) + 4)
  {
    var n := 4 * |f.code|;
    assert 4 * |g.code| == n + 4;
    assert n == (n / U32_LIMIT) * U32_LIMIT + MakeTarget(f);
  }

  // Object field access.

  /** A field load: LB, LH, LW or LD by the field's width, into `rd`, at the
      field's offset from the object pointer in `rptr`. */
  function LoadWord(offset: u32, rptr: bv32, t: bv32, rd: bv32): (w: bv32)
    requires rptr < 32 && rd < 32
    ensures OpcodeOf(w) == OP_LOAD && RdOf(w) == rd && Rs1Of(w) == rptr
    ensures ImmIOf(w) == (offset as bv32) & 0xFFF
    ensures Funct3Of(w) == WidthCode(t)
  {
    IType(offset as bv32, rptr, WidthCode(t), rd, OP_LOAD)
  }

  /** A field store: SB, SH, SW or SD by the field's width, of `rs`, at the
      field's offset from the object pointer in `rptr`. */
  function StoreWord(offset: u32, rptr: bv32, t: bv32, rs: bv32): (w: bv32)
    requires rptr < 32 && rs < 32
    ensures OpcodeOf(w) == OP_STORE && Rs1Of(w) == rptr && Rs2Of(w) == rs
    ensures ImmSOf(w) == (offset as bv32) & 0xFFF
    ensures Funct3Of(w) == WidthCode(t)
  {
    SType(offset as bv32, rs, rptr, WidthCode(t), OP_STORE)
  }

  /** The funct3 the source places in a field load or store: the raw byte
      count 1, 2, 4 or 8 of the access. */
  function AccessFunct3AsWritten(t: bv32): (c: bv32)
    ensures c == 1 || c == 2 || c == 4 || c == 8
    ensures c as int == Width(t)
  {
    Width(t) as bv32
  }

  /** The source's field-load word, with the raw byte count as funct3: its
      low three bits land in funct3 and an 8 spills into the base register. */
  function LoadWordAsWritten(offset: u32, rptr: bv32, t: bv32, rd: bv32): (w: bv32)
    requires rptr < 32 && rd < 32
    ensures OpcodeOf(w) == OP_LOAD && RdOf(w) == rd
    ensures ImmIOf(w) == (offset as bv32) & 0xFFF
  {
    var c := AccessFunct3AsWritten(t);
    var imm := offset as bv32;
    ITypeWideFunct3(imm, rptr, c, rd, OP_LOAD);
    IType(imm, rptr, c, rd, OP_LOAD)
  }

  /** Where the raw byte count of a source load word lands: its low three
      bits in funct3, and an 8 in the base register. */
  lemma LoadWordAsWrittenSpills(offset: u32, rptr: bv32, t: bv32, rd: bv32)
    requires rptr < 32 && rd < 32
    ensures Funct3Of(LoadWordAsWritten(offset, rptr, t, rd)) == AccessFunct3AsWritten(t) & 7
    ensures Rs1Of(LoadWordAsWritten(offset, rptr, t, rd)) == rptr | (AccessFunct3AsWritten(t) >> 3)
  {
    ITypeWideFunct3(offset as bv32, rptr, AccessFunct3AsWritten(t), rd, OP_LOAD);
  }

  /** The source's field-store word, with the raw byte count as funct3. */
  function StoreWordAsWritten(offset: u32, rptr: bv32, t: bv32, rs: bv32): (w: bv32)
    requires rptr < 32 && rs < 32
    ensures OpcodeOf(w) == OP_STORE && Rs2Of(w) == rs
    ensures ImmSOf(w) == (offset as bv32) & 0xFFF
  {
    var c := AccessFunct3AsWritten(t);
    var imm := offset as bv32;
    STypeWideFunct3(imm, rs, rptr, c, OP_STORE);
    SType(imm, rs, rptr, c, OP_STORE)
  }

  /** Where the raw byte count of a source store word lands: its low three
      bits in funct3, and an 8 in the base register. */
  lemma StoreWordAsWrittenSpills(offset: u32, rptr: bv32, t: bv32, rs: bv32)
    requires rptr < 32 && rs < 32
    ensures Funct3Of(StoreWordAsWritten(offset, rptr, t, rs)) == AccessFunct3AsWritten(t) & 7
    ensures Rs1Of(StoreWordAsWritten(offset, rptr, t, rs)) == rptr | (AccessFunct3AsWritten(t) >> 3)
  {
    STypeWideFunct3(offset as bv32, rs, rptr, AccessFunct3AsWritten(t), OP_STORE);
  }

  /** Decoded by the ISA, the source's words do not perform the intended
      access: a byte field is loaded with LH and stored with SH (funct3 1),
      a short field is loaded with LW (funct3 2), an int field with
      LBU (funct3 4), and a long or reference field's 8 reaches bit 15, so the
      load or store reads funct3 0 (a byte access) through base register
      `rptr | 1`. */
  lemma RawSizeMisencodes(offset: u32, rptr: bv32, rd: bv32, rs: bv32)
    requires rptr < 32 && rd < 32 && rs < 32
    ensures Funct3Of(LoadWordAsWritten(offset, rptr, BYTE, rd)) == 1 != WidthCode(BYTE)
    ensures Funct3Of(StoreWordAsWritten(offset, rptr, BYTE, rs)) == 1 != WidthCode(BYTE)
    ensures Funct3Of(LoadWordAsWritten(offset, rptr, SHORT, rd)) == 2 != WidthCode(SHORT)
    ensures Funct3Of(LoadWordAsWritten(offset, rptr, INT, rd)) == 4 != WidthCode(INT)
    ensures Funct3Of(LoadWordAsWritten(offset, rptr, LONG, rd)) == 0 != WidthCode(LONG)
    ensures Rs1Of(LoadWordAsWritten(offset, rptr, LONG, rd)) == rptr | 1
    ensures Funct3Of(StoreWordAsWritten(offset, rptr, LONG, rs)) == 0 != WidthCode(LONG)
    ensures Rs1Of(StoreWordAsWritten(offset, rptr, LONG, rs)) == rptr | 1
  {
    LoadWordAsWrittenSpills(offset, rptr, BYTE, rd);
    LoadWordAsWrittenSpills(offset, rptr, SHORT, rd);
    LoadWordAsWrittenSpills(offset, rptr, INT, rd);
    LoadWordAsWrittenSpills(offset, rptr, LONG, rd);
    StoreWordAsWrittenSpills(offset, rptr, BYTE, rs);
    StoreWordAsWrittenSpills(offset, rptr, LONG, rs);
  }

  /** The checks load_field makes, in the source's order, and the type it
      gives `rd`; everything but the appended word. */
  function LoadFieldTyped(f: FunctionState, rd: bv32, rptr: bv32, cls: Classes.ClassDesc, field: nat): (r: Result<FunctionState>)
    requires Valid(f)
    ensures r.Ok? <==>
              && cls.done && rptr < 32 && f.types[rptr] == Classes.TypeWordOf(cls)
              && field < |cls.fields| && rd < 32
    ensures r.Err? ==>
              r.error == if !cls.done then ClassNotFinished
                         else if rptr >= 32 then IllegalRegister
                         else if f.types[rptr] != Classes.TypeWordOf(cls) then PointerWrongType
                         else if field >= |cls.fields| then FieldIndexOutOfRange
                         else IllegalRegister
    ensures r.Ok? ==>
              && Valid(r.value) && SameConfig(f, r.value) && r.value.code == f.code
              && Retyped(f, r.value, rd as int, cls.fields[field].typ)
  {
    if !cls.done then Err(ClassNotFinished)
    else
      var ptr :- ReadRegType(f, rptr);
      if ptr != Classes.TypeWordOf(cls) then Err(PointerWrongType)
      else
        var t :- Classes.FieldType(cls, field);
        WriteRegType(f, rd, t)
  }

  /** load_field: through a finished class, from a register holding exactly
      that class, into `rd`, which takes the field's declared type. The word
      is a load of the field's width at the field's offset from `rptr`. */
  function LoadField(f: FunctionState, rd: bv32, rptr: bv32, cls: Classes.ClassDesc, field: nat): (r: Result<FunctionState>)
    requires Valid(f)
    ensures r.Ok? <==>
              && cls.done && rptr < 32 && f.types[rptr] == Classes.TypeWordOf(cls)
              && field < |cls.fields| && rd < 32
    ensures r.Err? ==> r == Err(LoadFieldTyped(f, rd, rptr, cls, field).error)
    ensures !cls.done ==> r == Err(ClassNotFinished)
    ensures cls.done && rptr < 32 && f.types[rptr] != Classes.TypeWordOf(cls) ==> r == Err(PointerWrongType)
    ensures r.Ok? ==>
              && Valid(r.value)
              && Retyped(f, r.value, rd as int, cls.fields[field].typ)
              && Emitted(f, r.value, LoadWord(cls.fields[field].offset, rptr, cls.fields[field].typ, rd))
  {
    var g :- LoadFieldTyped(f, rd, rptr, cls, field);
    var fl := cls.fields[field];
    Ok(g.(code := f.code + [LoadWord(fl.offset, rptr, fl.typ, rd)]))
  }

  /** load_field exactly as the source writes it: the same checks and type
      update, but the word carries the raw byte count as funct3. */
  function LoadFieldAsWritten(f: FunctionState, rd: bv32, rptr: bv32, cls: Classes.ClassDesc, field: nat): (r: Result<FunctionState>)
    requires Valid(f)
    ensures r.Ok? <==>
              && cls.done && rptr < 32 && f.types[rptr] == Classes.TypeWordOf(cls)
              && field < |cls.fields| && rd < 32
    ensures r.Err? ==> r == Err(LoadFieldTyped(f, rd, rptr, cls, field).error)
    ensures r.Ok? ==>
              && Valid(r.value)
              && Retyped(f, r.value, rd as int, cls.fields[field].typ)
              && Emitted(f, r.value, LoadWordAsWritten(cls.fields[field].offset, rptr, cls.fields[field].typ, rd))
  {
    var g :- LoadFieldTyped(f, rd, rptr, cls, field);
    var fl := cls.fields[field];
    Ok(g.(code := f.code + [LoadWordAsWritten(fl.offset, rptr, fl.typ, rd)]))
  }

  /** The checks store_field makes, in the source's order. A reference-typed
      field only accepts a register of exactly its type; a primitive field
      accepts any register, since no pointer can be forged that way. */
  function StoreFieldCheck(f: FunctionState, rptr: bv32, rs: bv32, cls: Classes.ClassDesc, field: nat): (o: Outcome)
    requires Valid(f)
    ensures o.Pass? <==>
              && cls.done && field < |cls.fields| && rs < 32 && rptr < 32
              && (IsReference(cls.fields[field].typ) ==> f.types[rs] == cls.fields[field].typ)
              && f.types[rptr] == Classes.TypeWordOf(cls)
    ensures o.Fail? ==>
              o.error == if !cls.done then ClassNotFinished
                         else if field >= |cls.fields| then FieldIndexOutOfRange
                         else if rs >= 32 then IllegalRegister
                         else if IsReference(cls.fields[field].typ) && f.types[rs] != cls.fields[field].typ
                           then FieldTypeMismatch
                         else if rptr >= 32 then IllegalRegister
                         else PointerWrongType
  {
    if !cls.done then Fail(ClassNotFinished)
    else if field >= |cls.fields| then Fail(FieldIndexOutOfRange)
    else if rs >= 32 then Fail(IllegalRegister)
    else
      var t := cls.fields[field].typ;
      ReferenceIffAtLeast32(t);
      if f.types[rs] != t && t >= FIRST_CLASS_CODE then Fail(FieldTypeMismatch)
      else if rptr >= 32 then Fail(IllegalRegister)
      else if f.types[rptr] != Classes.TypeWordOf(cls) then Fail(PointerWrongType)
      else Pass
  }

  /** store_field: through a finished class and a register holding exactly
      that class; no type changes. The word is a store of the field's width
      at the field's offset from `rptr`. */
  function StoreField(f: FunctionState, rptr: bv32, rs: bv32, cls: Classes.ClassDesc, field: nat): (r: Result<FunctionState>)
    requires Valid(f)
    ensures r.Ok? <==>
              && cls.done && field < |cls.fields| && rs < 32 && rptr < 32
              && (IsReference(cls.fields[field].typ) ==> f.types[rs] == cls.fields[field].typ)
              && f.types[rptr] == Classes.TypeWordOf(cls)
    ensures r.Err? ==> r == Err(StoreFieldCheck(f, rptr, rs, cls, field).error)
    ensures !cls.done ==> r == Err(ClassNotFinished)
    ensures (cls.done && field < |cls.fields| && rs < 32 && IsReference(cls.fields[field].typ) &&
             f.types[rs] != cls.fields[field].typ) ==> r == Err(FieldTypeMismatch)
    ensures r.Ok? ==>
              && Valid(r.value) && r.value.types == f.types
              && Emitted(f, r.value, StoreWord(cls.fields[field].offset, rptr, cls.fields[field].typ, rs))
  {
    var o := StoreFieldCheck(f, rptr, rs, cls, field);
    if o.Fail? then Err(o.error)
    else
      var fl := cls.fields[field];
      Ok(f.(code := f.code + [StoreWord(fl.offset, rptr, fl.typ, rs)]))
  }

  /** store_field exactly as the source writes it: the same checks, but the
      word carries the raw byte count as funct3. */
  function StoreFieldAsWritten(f: FunctionState, rptr: bv32, rs: bv32, cls: Classes.ClassDesc, field: nat): (r: Result<FunctionState>)
    requires Valid(f)
    ensures r.Ok? <==> StoreFieldCheck(f, rptr, rs, cls, field).Pass?
    ensures r.Err? ==> r == Err(StoreFieldCheck(f, rptr, rs, cls, field).error)
    ensures r.Ok? ==>
              && Valid(r.value) && r.value.types == f.types
              && Emitted(f, r.value, StoreWordAsWritten(cls.fields[field].offset, rptr, cls.fields[field].typ, rs))
  {
    var o := StoreFieldCheck(f, rptr, rs, cls, field);
    if o.Fail? then Err(o.error)
    else
      var fl := cls.fields[field];
      Ok(f.(code := f.code + [StoreWordAsWritten(fl.offset, rptr, fl.typ, rs)]))
  }

  /** The source's load_field and the corrected one accept and reject the
      same calls with the same errors and leave the same types; they differ
      only in the appended word, whose funct3 differs for every field type. */
  lemma LoadFieldAsWrittenAgrees(f: FunctionState, rd: bv32, rptr: bv32, cls: Classes.ClassDesc, field: nat)
    requires Valid(f)
    ensures var a, b := LoadFieldAsWritten(f, rd, rptr, cls, field), LoadField(f, rd, rptr, cls, field);
            && (a.Ok? <==> b.Ok?) && (a.Err? ==> a == b)
            && (a.Ok? ==> a.value.types == b.value.types && SameConfig(a.value, b.value) &&
                          |a.value.code| == |b.value.code| == |f.code| + 1 &&
                          a.value.code[..|f.code|] == b.value.code[..|f.code|] &&
                          Funct3Of(a.value.code[|f.code|]) != Funct3Of(b.value.code[|f.code|]))
  {
    if LoadField(f, rd, rptr, cls, field).Ok? {
      var fl := cls.fields[field];
      LoadWordAsWrittenSpills(fl.offset, rptr, fl.typ, rd);
      RawFunct3Differs(fl.typ);
    }
  }

  /** The same agreement for store_field. */
  lemma StoreFieldAsWrittenAgrees(f: FunctionState, rptr: bv32, rs: bv32, cls: Classes.ClassDesc, field: nat)
    requires Valid(f)
    ensures var a, b := StoreFieldAsWritten(f, rptr, rs, cls, field), StoreField(f, rptr, rs, cls, field);
            && (a.Ok? <==> b.Ok?) && (a.Err? ==> a == b)
            && (a.Ok? ==> a.value.types == b.value.types && SameConfig(a.value, b.value) &&
                          |a.value.code| == |b.value.code| == |f.code| + 1 &&
                          a.value.code[..|f.code|] == b.value.code[..|f.code|] &&
                          Funct3Of(a.value.code[|f.code|]) != Funct3Of(b.value.code[|f.code|]))
  {
    if StoreField(f, rptr, rs, cls, field).Ok? {
      var fl := cls.fields[field];
      StoreWordAsWrittenSpills(fl.offset, rptr, fl.typ, rs);
      RawFunct3Differs(fl.typ);
    }
  }

  /** For every field type the funct3 the source's raw byte count leaves
      differs from the width code. */
  lemma RawFunct3Differs(t: bv32)
    ensures AccessFunct3AsWritten(t) & 7 != WidthCode(t)
  {
    if t != BYTE && t != SHORT && t != INT {
      assert AccessFunct3AsWritten(t) == 8;
    }
  }
}
