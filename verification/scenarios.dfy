/** The repository's object and arithmetic test programs, replayed on the
    model: the class layouts they assert, the type errors the emitter must
    raise, and the instruction words it must produce. */
module Scenarios {
  import opened Base
  import opened TypeWords
  import opened Encoding
  import Classes
  import Emitter

  /** c1's layout: an int, a short and two bytes after the 4-byte header. */
  function BaseFields(): seq<Classes.Field> {
    [Classes.Field(4, INT), Classes.Field(8, SHORT), Classes.Field(10, BYTE), Classes.Field(11, BYTE)]
  }

  /** c1's fields added to a fresh root class: an int, a short and two
      bytes, packed from offset 4 up to size 12. */
  method AddBaseFields(root: Classes.ClassDesc) returns (c: Classes.ClassDesc)
    requires root.fields == [] && root.size == Classes.ROOT_SIZE
    ensures Classes.SameIdentity(root, c) && c.done == root.done && c.size == 12
    ensures c.fields == BaseFields()
  {
    c := Classes.AddPrimitive(root, 0, INT).value;
    assert c.size == 8 && c.fields == [Classes.Field(4, INT)];
    c := Classes.AddPrimitive(c, 0, SHORT).value;
    assert c.size == 10 && c.fields == [Classes.Field(4, INT), Classes.Field(8, SHORT)];
    c := Classes.AddPrimitive(c, 0, BYTE).value;
    assert c.size == 11;
    c := Classes.AddPrimitive(c, 0, BYTE).value;
  }

  /** The object test's c1, finished and stored in a fresh registry. */
  method ObjectTestBase() returns (reg: Classes.Registry, k1: nat)
    ensures Classes.Valid(reg) && reg.serial == 33 && k1 < |reg.classes|
    ensures var c1 := reg.classes[k1];
            c1.id == 32 && c1.done && c1.fields == BaseFields() && c1.size == 12
  {
    var reg0 := Classes.NewRoot(Classes.EmptyRegistry()).0;
    Classes.NewRootKeepsValid(Classes.EmptyRegistry());
    k1 := 0;
    var c := AddBaseFields(reg0.classes[k1]);
    var c1 := Classes.Finish(c).value;
    reg := Classes.Store(reg0, k1, c1);
  }

  /** The object test's classes: c1 is a root class with an int, a short and
      two bytes; c2 derives from c1 and adds a long. Both are finished and
      stored back. Returns the registry and the indices of c1 and c2. */
  method ObjectTestClasses() returns (reg: Classes.Registry, k1: nat, k2: nat)
    ensures Classes.Valid(reg) && k1 < |reg.classes| && k2 < |reg.classes|
    ensures ObjectTestPair(reg.classes[k1], reg.classes[k2])
    ensures reg.classes[k1].size == 12 && reg.classes[k2].size == 20
    ensures Classes.IsA(reg, k2, k1) && !Classes.IsA(reg, k1, k2)
  {
    var reg1;
    reg1, k1 := ObjectTestBase();
    var reg2 := Classes.Derive(reg1, k1).value.0;
    k2 := |reg1.classes|;
    Classes.DeriveIsA(reg1, k1, k1);
    var e := Classes.AddPrimitive(reg2.classes[k2], 0, LONG).value;
    assert e.size == 20;
    var c2 := Classes.Finish(e).value;
    reg := Classes.Store(reg2, k2, c2);
    Classes.IsAStable(reg2, reg, k2, k1);
    Classes.IsAStable(reg2, reg, k1, k2);
  }

  /** The object test's two classes, as its emission relies on them. */
  predicate ObjectTestPair(c1: Classes.ClassDesc, c2: Classes.ClassDesc) {
    && c1.id == 32 && c2.id == 33 && c1.done && c2.done
    && c1.fields == BaseFields() && c2.fields == BaseFields() + [Classes.Field(12, LONG)]
  }

  /** The object test's function: 100 frame slots, a c1 in a0 and a c2 in a1;
      the temporaries x15 and x16 still hold their original-value tokens. */
  lemma ObjectTestPrologue(c1: Classes.ClassDesc, c2: Classes.ClassDesc)
    requires ObjectTestPair(c1, c2)
    ensures var f0 := Emitter.New(100, false, [Classes.TypeWordOf(c1), Classes.TypeWordOf(c2)], UNKNOWN_INT);
            && f0.Ok? && Emitter.Valid(f0.value) && f0.value.code == []
            && f0.value.types[10] == 32 && f0.value.types[11] == 33
            && f0.value.types[15] == 15 && f0.value.types[16] == 16
  {
    var params := [Classes.TypeWordOf(c1), Classes.TypeWordOf(c2)];
    assert params[0] == 32 && params[1] == 33;
  }

  /** The object test's first access: c1's short, at offset 8, loaded into
      x15 with LH, while the source's own encoding of the same load is an
      LW. */
  lemma ObjectTestLoadShort(f0: Emitter.FunctionState, c1: Classes.ClassDesc, c2: Classes.ClassDesc)
    requires ObjectTestPair(c1, c2)
    requires Emitter.Valid(f0) && f0.code == [] && f0.types[10] == 32 && f0.types[11] == 33
    ensures var f1 := Emitter.LoadField(f0, 15, 10, c1, 1);
            && f1.Ok? && f1.value.code == [0x0085_1783]
            && f1.value.types[15] == SHORT && f1.value.types[10] == 32 && f1.value.types[11] == 33
  {
  }

  /** The source's own encoding of the first access: an LW. */
  lemma ObjectTestLoadShortAsWritten(f0: Emitter.FunctionState, c1: Classes.ClassDesc, c2: Classes.ClassDesc)
    requires ObjectTestPair(c1, c2)
    requires Emitter.Valid(f0) && f0.code == [] && f0.types[10] == 32
    ensures var a1 := Emitter.LoadFieldAsWritten(f0, 15, 10, c1, 1);
            a1.Ok? && a1.value.code == [0x0085_2783] && a1.value.types[15] == SHORT
  {
    assert c1.fields[1] == Classes.Field(8, SHORT);
    assert Emitter.LoadWordAsWritten(8, 10, SHORT, 15) == 0x0085_2783;
  }

  /** The object test's store: the short in x15 goes into c2's long field,
      which accepts any integer, through the c2 pointer in a1, with SD; the
      source's own word is an SB. */
  lemma ObjectTestStoreShort(f1: Emitter.FunctionState, c1: Classes.ClassDesc, c2: Classes.ClassDesc)
    requires ObjectTestPair(c1, c2)
    requires Emitter.Valid(f1) && f1.types[15] == SHORT && f1.types[11] == 33
    ensures var f2 := Emitter.StoreField(f1, 11, 15, c2, 4);
            && f2.Ok? && f2.value.types == f1.types
            && f2.value.code == f1.code + [0x00F5_B623]
  {
  }

  /** The source's own encoding of the store: an SB, since the 8 of the
      raw size falls on the base register's already set low bit. */
  lemma ObjectTestStoreShortAsWritten(f1: Emitter.FunctionState, c1: Classes.ClassDesc, c2: Classes.ClassDesc)
    requires ObjectTestPair(c1, c2)
    requires Emitter.Valid(f1) && f1.types[15] == SHORT && f1.types[11] == 33
    ensures var a2 := Emitter.StoreFieldAsWritten(f1, 11, 15, c2, 4);
            a2.Ok? && a2.value.types == f1.types && a2.value.code == f1.code + [0x00F5_8623]
  {
    assert c2.fields[4] == Classes.Field(12, LONG);
    assert Emitter.StoreWordAsWritten(12, 11, LONG, 15) == 0x00F5_8623;
  }

  /** The object test's last load: c1's first byte, at offset 10, into x16
      with LB, while the source's own encoding of the same load is an LH. */
  lemma ObjectTestLoadByte(f2: Emitter.FunctionState, c1: Classes.ClassDesc, c2: Classes.ClassDesc)
    requires ObjectTestPair(c1, c2)
    requires Emitter.Valid(f2) && |f2.code| == 2 && f2.types[10] == 32
    ensures var f3 := Emitter.LoadField(f2, 16, 10, c1, 2);
            && f3.Ok? && f3.value.types[16] == BYTE && f3.value.code[2] == 0x00A5_0803
            && (forall k :: 0 < k < |f2.types| && k != 16 ==> f3.value.types[k] == f2.types[k])
  {
  }

  /** The source's own encoding of the last load: an LH. */
  lemma ObjectTestLoadByteAsWritten(f2: Emitter.FunctionState, c1: Classes.ClassDesc, c2: Classes.ClassDesc)
    requires ObjectTestPair(c1, c2)
    requires Emitter.Valid(f2) && |f2.code| == 2 && f2.types[10] == 32
    ensures var a3 := Emitter.LoadFieldAsWritten(f2, 16, 10, c1, 2);
            a3.Ok? && a3.value.types[16] == BYTE && a3.value.code[2] == 0x00A5_1803
  {
    assert c1.fields[2] == Classes.Field(10, BYTE);
    assert Emitter.LoadWordAsWritten(10, 10, BYTE, 16) == 0x00A5_1803;
  }

  /** Misuses in the object test's state: a c1 pointer used as a c2, an
      object pointer used as an integer, a field index past the end, and a
      reserved register. */
  lemma ObjectTestMisuses(f: Emitter.FunctionState, c1: Classes.ClassDesc, c2: Classes.ClassDesc)
    requires ObjectTestPair(c1, c2)
    requires Emitter.Valid(f) && f.types[10] == 32 && f.types[16] == BYTE && f.types[15] == SHORT
    ensures Emitter.StoreField(f, 10, 15, c2, 4) == Err(PointerWrongType)
    ensures Emitter.AluImm(f, Addi, 5, 10, 1) == Err(ExpectedInteger)
    ensures Emitter.LoadField(f, 5, 10, c1, 4) == Err(FieldIndexOutOfRange)
    ensures Emitter.Alu(f, Add, 5, 2, 16) == Err(BannedRegister)
  {
  }

  /** The arithmetic test's function: no frame slots and no parameters, so
      x5, x6 and x7 hold their original-value tokens. */
  lemma ArithTestPrologue()
    ensures var f := Emitter.New(0, false, [], UNKNOWN_INT);
            && f.Ok? && Emitter.Valid(f.value) && f.value.code == []
            && f.value.types[5] == 5 && f.value.types[6] == 6 && f.value.types[7] == 7
  {
  }

  /** Immediate-form words from the arithmetic test, each emitted as the
      first instruction of its function. */
  lemma ArithImmediateWords(f: Emitter.FunctionState)
    requires Emitter.Valid(f) && f.code == [] && f.types[6] == 6
    ensures Emitter.Nop(f).value.code == [0x0000_0013]
    ensures Emitter.Move(f, 5, 6).value.code == [0x0003_0293]
    ensures Emitter.Lui(f, 5, 0xFFFE_7960).value.code == [0xE796_02B7]
    ensures Emitter.AluImm(f, Addi, 5, 6, 0xFFFF_FF9C).value.code == [0xF9C3_0293]
    ensures Emitter.AluImm(f, Srai, 5, 6, 33).value.code == [0x4213_5293]
  {
  }

  /** Register-form words from the arithmetic test, each emitted as the
      first instruction of its function. */
  lemma ArithRegisterWords(f: Emitter.FunctionState)
    requires Emitter.Valid(f) && f.code == [] && f.types[6] == 6 && f.types[7] == 7
    ensures Emitter.Alu(f, Add, 5, 6, 7).value.code == [0x0073_02B3]
    ensures Emitter.Alu(f, Sub, 5, 6, 7).value.code == [0x4073_02B3]
    ensures Emitter.Alu(f, Remu, 5, 6, 7).value.code == [0x0273_72B3]
  {
  }
}
