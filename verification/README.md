# Typed RV64 emitter: class layouts and instruction emission

This project models the core of `tasm_riscv64.hpp`. The header is a RISC-V (RV64IM) machine-code emitter that also acts as a small type checker. Each emitted instruction updates a static type for every register, so that using a pointer as an integer, or an object as the wrong class, fails at emission time. The model has two halves.

- **Class layout registry** (`ClassDesc`, lines 7-130), modules `TypeWords` and `Classes`.
  - Classes are created as roots (a 4-byte header) or derived from a parent. A derived class copies the parent's fields and size at the moment of derivation.
  - Classes gain fields with `addfield`, are frozen by `finish` below 2048 bytes, and are compared with the Java-style `is_a`.
  - The process-wide `serial` counter is an explicit `Registry(classes, serial)` value. A class object is an entry of that registry's sequence. A superclass pointer is the index of an earlier entry.
- **Function emitter** (`RV64Function`, lines 133-509), modules `Encoding` and `Emitter`.
  - The emitter keeps a static-type table with 32 registers plus one entry per frame slot, and an append-only list of 32-bit instruction words.
  - Every operation is a pure function. Every operation that can fail returns `Result<FunctionState>`: on failure it returns an error and no state, so the caller keeps the state it had, with nothing appended and no type changed. `Branch`, which cannot fail, returns a plain `FunctionState`, and `MakeTarget` returns the `u32` byte offset.

Type words, registers, immediates and instruction words are `bv32`, so C's unsigned shifts and ors are the bit-vector operators. Class ids, the serial counter, sizes and offsets are `u32`: an `int` in `[0, 2^32)`, wrapped explicitly with `Wrap32` where the source's `uint32_t` arithmetic would wrap. Module `Base` holds `u32`, `Option`, `Result` and one `Error` variant per distinct exception message. Module `Scenarios` replays the repository's object and arithmetic test programs on the model.

The header is followed as written, including where a reader might expect otherwise:
- `NewRoot` has no class-limit check; only `Derive` fails at 2^20 classes.
- The frame limit is 255 slots (`MAXFRAMESLOTS`), and a function may have 255 of them.
- The primitive `addfield` has no frozen check. It also tests the primitive code before the array depth.
- `store_field` reads the source register's type before the pointer's.
- Where the header emits a wrong instruction word or computes a wrong layout (see "## Findings"), both the code as written and a corrected version are modelled.

## Model

| member | source | states |
|---|---|---|
| Classes.EmptyRegistry | tasm_riscv64.hpp:130 | the counter starts at 32, above the primitive and register-token codes; the empty registry is valid |
| Classes.NewRoot | tasm_riscv64.hpp:51-58 | the new class is appended after the unchanged existing ones, with id = serial, unfinished, no superclass, no fields and size 4 (a sound layout); the counter advances by one mod 2^32 |
| Classes.NewRootKeepsValid | tasm_riscv64.hpp:51-58 | a root keeps every existing class's id and superclass, its id differs from every existing id, and validity (ids distinct, increasing, in [32, serial)) is kept while the counter does not wrap |
| Classes.Derive | tasm_riscv64.hpp:36-49 | fails with too-many-classes iff serial >= 2^20; otherwise the child copies the parent's fields and size, points at the parent, gets a fresh id, leaves every existing class unchanged, and keeps validity, the hierarchy and a sound layout |
| Classes.AddClassField | tasm_riscv64.hpp:60-69 | fails iff the class is finished (checked first) or depth >= 4096; otherwise appends (old size, depth<<20 \| class id), grows the size by 8 and keeps a sound layout while the size does not wrap |
| Classes.AddPrimitiveAsWritten | tasm_riscv64.hpp:71-80 | the source's overload: fails iff typ > 3 (checked first) or depth >= 4096; appends (old size, depth<<20 \| typ); grows the size by 1<<typ even for an array field |
| Classes.PrimitiveArrayFieldOverlaps | tasm_riscv64.hpp:78-79 | adding a byte array and then a byte to a fresh root gives offsets 4 and 5 and size 6, while the array field's size is 8, so the layout is not sound |
| Classes.AddPrimitiveAsWrittenAgrees | tasm_riscv64.hpp:71-80 | the source's overload and the corrected one fail alike and append the same field; they give the same class exactly when the field is a plain scalar or a long array, and otherwise differ only in the size |
| Classes.AddPrimitiveAsWrittenKeepsOrder | tasm_riscv64.hpp:78-79 | even as written, the overload keeps offsets after the header, strictly increasing and inside the object while the size does not wrap |
| Classes.LaidOutOrdered | tasm_riscv64.hpp:67-79 | a sound layout (no overlap) has ordered offsets, so the as-written overload loses only the no-overlap part |
| Classes.AddPrimitive | tasm_riscv64.hpp:71-80 | corrected overload: same errors and appended pair, but the size grows by the field's own size (the scalar width, or 8 for any array); the field decodes back to its depth and code |
| Classes.AddPrimitiveKeepsLayout | tasm_riscv64.hpp:78-79 | the corrected overload keeps offsets increasing, disjoint and inside the object while the size does not wrap |
| Classes.AppendKeepsLayout | tasm_riscv64.hpp:67-68 | a field appended at the current size, with the size grown by at least its width, keeps a sound layout sound |
| Classes.Finish | tasm_riscv64.hpp:101-106 | succeeds iff size < 2048 (so size 2047 succeeds) and then only sets the done flag; every field of a sound layout then lies below 2048 |
| Classes.IsA | tasm_riscv64.hpp:83-91 | is reflexive; it terminates because superclass indices decrease |
| Classes.IsAIffOnChain | tasm_riscv64.hpp:83-91 | in a valid registry, c is-a d iff d lies on c's superclass chain |
| Classes.IsAOrdered | tasm_riscv64.hpp:83-91 | a class is only ever a subtype of itself or of classes created before it |
| Classes.IsATransitive | tasm_riscv64.hpp:83-91 | is-a is transitive |
| Classes.IsAStable | tasm_riscv64.hpp:83-91 | is-a between existing classes is unchanged by adding classes or by finishing or growing one |
| Classes.DeriveIsA | tasm_riscv64.hpp:36-49 | a derived class is-a itself, is-a exactly what its parent is-a, and the parent is not a subtype of it |
| Classes.FieldType | tasm_riscv64.hpp:112-114 | returns the stored type word, or index-out-of-range |
| Classes.FieldOffset | tasm_riscv64.hpp:125-127 | returns the stored offset, or index-out-of-range |
| Classes.FieldSize | tasm_riscv64.hpp:116-123 | returns 1, 2 or 4 for a plain byte, short or int, and 8 otherwise; index-out-of-range on a bad index |
| Classes.AddedPrimitiveReadsBack | tasm_riscv64.hpp:71-80 | an added primitive field reads back through the accessors as (old size, packed type, its size), and earlier fields read back unchanged |
| Classes.RootIgnoresClassLimit | tasm_riscv64.hpp:36-58 | at serial 2^20 a derive fails but a root is still created, with id 2^20 |
| TypeWords.Pack | tasm_riscv64.hpp:78 | depth<<20 \| base decodes back to its depth and base when depth < 4096 and base < 2^20 |
| TypeWords.CodeOverflowsIntoDepth | tasm_riscv64.hpp:22-23 | a class code of 2^20 reads as a one-dimensional byte array |
| TypeWords.ReferenceIffAtLeast32 | tasm_riscv64.hpp:160-161 | the numeric test t >= 32 holds exactly for arrays and class references |
| TypeWords.Width | tasm_riscv64.hpp:116-123 | every field size is 1, 2, 4 or 8, and every reference is 8 |
| TypeWords.ShiftWidth | tasm_riscv64.hpp:79 | 1<<typ equals the field size of the plain primitive typ |
| TypeWords.PrimitiveWord | tasm_riscv64.hpp:78 | a primitive field's word decodes back, and its size is the scalar width when plain and 8 when it is an array |
| TypeWords.WidthCode | tasm_riscv64.hpp:270-273 | the load/store width code is the base-2 logarithm of the field size, in both directions |
| Encoding.RType | tasm_riscv64.hpp:185 | the packed word decodes back to funct7, rs2, rs1, funct3, rd and opcode when each fits its field |
| Encoding.IType | tasm_riscv64.hpp:192 | the packed word decodes back to the low 12 immediate bits, rs1, funct3, rd and opcode |
| Encoding.SType | tasm_riscv64.hpp:291-293 | the offset split into bits 11..5 at 31..25 and 4..0 at 11..7 reassembles to the low 12 offset bits, with rs2, rs1, funct3 and opcode intact |
| Encoding.UType | tasm_riscv64.hpp:197 | the packed word decodes back to the low 20 immediate bits, rd and opcode |
| Encoding.BranchWord | tasm_riscv64.hpp:204 | the placeholder branch decodes to rs2, rs1 and the condition, with every displacement bit zero |
| Encoding.ITypeWideFunct3 | tasm_riscv64.hpp:273 | a funct3 operand of up to four bits (the source's byte count) keeps its low three bits in funct3 and ORs its fourth bit into rs1; immediate, rd and opcode are unaffected |
| Encoding.STypeWideFunct3 | tasm_riscv64.hpp:291-293 | the same spill in an S-type word: low three bits in funct3, the fourth ORed into rs1; the split immediate, rs2 and opcode are unaffected |
| Encoding.RFieldsDecode | tasm_riscv64.hpp:376-508 | each register-register wrapper's (funct7, funct3, opcode) decodes back to that operation |
| Encoding.IFieldsDecode | tasm_riscv64.hpp:338-466 | each register-immediate wrapper's fields decode back to that operation; shifts keep their amount in the low 6 (word forms: 5) bits |
| Encoding.CondCodeDecode | tasm_riscv64.hpp:314-336 | each branch wrapper's condition code decodes back to its condition |
| Emitter.InitialTypes | tasm_riscv64.hpp:222-232 | x0..x4 and every frame slot start as an unknown integer, and x5..x31 start as their own token |
| Emitter.BindParams | tasm_riscv64.hpp:233-236 | x(10+i) gets parameter i; every other entry, x0 included, is unchanged |
| Emitter.New | tasm_riscv64.hpp:211-237 | fails iff there are more than 255 frame slots (checked first) or more than 8 parameters; otherwise the code is empty, the table has 32 + frameslots entries initialised as above, and x(10+i) holds parameter i |
| Emitter.ReadRegType | tasm_riscv64.hpp:165-170 | returns the register's type, or illegal-register iff r >= 32 |
| Emitter.WriteRegType | tasm_riscv64.hpp:172-178 | fails iff r >= 32; otherwise only r changes, and x0 is re-pinned to an unknown integer |
| Emitter.ReadAfterWrite | tasm_riscv64.hpp:172-178 | after a write, x0 reads as an unknown integer, the written register reads the new type, and other registers read as before |
| Emitter.AssertInteger | tasm_riscv64.hpp:155-163 | passes iff the register is below 32, is not x1..x4 and holds no reference; errors come in the order banned, illegal, expected-integer |
| Emitter.RTypeOp | tasm_riscv64.hpp:181-186 | succeeds iff both sources are integer operands and rd < 32; on failure the error is rs2's, then rs1's, then IllegalRegister for rd, in the order of the checks; on success only rd changes, to an unknown integer, and exactly the packed R-type word is appended |
| Emitter.ITypeOp | tasm_riscv64.hpp:189-193 | succeeds iff the source is an integer operand and rd < 32; on failure the error is rs1's, else IllegalRegister for rd; on success only rd changes, and exactly the packed I-type word is appended |
| Emitter.UTypeOp | tasm_riscv64.hpp:195-198 | succeeds iff rd < 32, and otherwise fails with IllegalRegister; on success only rd changes, and exactly the packed U-type word is appended |
| Emitter.Alu | tasm_riscv64.hpp:376-508 | fails with rs2's error, then rs1's, then IllegalRegister for rd; on success the appended word decodes back to the requested operation and registers, rd becomes an unknown integer and nothing else changes |
| Emitter.AluImm | tasm_riscv64.hpp:338-466 | fails with rs1's error, else IllegalRegister for rd; on success the appended word decodes back to the requested operation, registers and immediate (shift amounts masked to 6 or 5 bits) |
| Emitter.ImmWordDecodes | tasm_riscv64.hpp:364-374 | an immediate-form word, shifts included, decodes back to its operation |
| Emitter.Lui | tasm_riscv64.hpp:308-310 | fails only with IllegalRegister for rd; otherwise the word is a LUI of the low 20 immediate bits into rd |
| Emitter.Nop | tasm_riscv64.hpp:298-300 | always succeeds, appends 0x13 and changes no type |
| Emitter.Move | tasm_riscv64.hpp:302-306 | succeeds iff both registers are below 32; rd takes rs's exact prior type, references included; the word is addi rd, rs, 0 |
| Emitter.Branch | tasm_riscv64.hpp:201-207 | never fails and changes no type; the word decodes to the condition and registers with a zero displacement |
| Emitter.MakeTarget | tasm_riscv64.hpp:250-254 | the byte offset of the next word, a multiple of 4, equal to 4 times the word count while that fits in 32 bits |
| Emitter.TargetAdvances | tasm_riscv64.hpp:250-254 | appending one word moves the target on by 4 (mod 2^32) |
| Emitter.LoadWord | tasm_riscv64.hpp:273 | corrected load word: opcode LOAD, rd, rptr, the offset's low 12 bits, and funct3 = the width code of the field |
| Emitter.StoreWord | tasm_riscv64.hpp:291-293 | corrected store word: opcode STORE, rs, rptr, the split offset, and funct3 = the width code of the field |
| Emitter.AccessFunct3AsWritten | tasm_riscv64.hpp:270 | the source's funct3 value is the field size in bytes: 1, 2, 4 or 8 |
| Emitter.LoadWordAsWritten | tasm_riscv64.hpp:273 | the source's load word: opcode LOAD, rd and the offset's low 12 bits are right |
| Emitter.LoadWordAsWrittenSpills | tasm_riscv64.hpp:273 | in the source's load word, funct3 holds the byte count's low 3 bits and the base register is rptr \| (byte count >> 3) |
| Emitter.StoreWordAsWritten | tasm_riscv64.hpp:291-293 | the source's store word: opcode STORE, rs and the split offset are right |
| Emitter.StoreWordAsWrittenSpills | tasm_riscv64.hpp:291-293 | in the source's store word, funct3 holds the byte count's low 3 bits and the base register is rptr \| (byte count >> 3) |
| Emitter.RawFunct3Differs | tasm_riscv64.hpp:270-273 | for every field type the raw byte count's funct3 differs from the width code |
| Emitter.RawSizeMisencodes | tasm_riscv64.hpp:273 | with the size in funct3, a byte loads as LH and stores as SH, a short loads as LW, an int loads as LBU, and a long or reference access reads funct3 0 through base register rptr \| 1 |
| Emitter.LoadFieldTyped | tasm_riscv64.hpp:262-272 | load_field's checks: fails with class-not-finished, illegal-register (rptr), pointer-wrong-type, field-out-of-range, illegal-register (rd), in that order; otherwise rd takes the field's type, x0 stays an unknown integer and nothing else changes |
| Emitter.LoadField | tasm_riscv64.hpp:262-274 | corrected load_field: succeeds iff the class is finished, rptr < 32 holds exactly the class, the field exists and rd < 32; fails with LoadFieldTyped's error otherwise; rd takes the field's type, nothing else changes, and the corrected load word is appended |
| Emitter.LoadFieldAsWritten | tasm_riscv64.hpp:262-274 | load_field as written: the same acceptance, errors and type update, with the source's raw-size load word appended |
| Emitter.LoadFieldAsWrittenAgrees | tasm_riscv64.hpp:262-274 | the two load_field versions accept the same calls, fail with the same errors, leave the same types and code prefix, and append words whose funct3 differs |
| Emitter.StoreFieldCheck | tasm_riscv64.hpp:276-290 | store_field's checks: fails with class-not-finished, field-out-of-range, illegal-register (rs), field-type-mismatch (only for a reference field), illegal-register (rptr), pointer-wrong-type, in that order |
| Emitter.StoreField | tasm_riscv64.hpp:276-294 | corrected store_field: succeeds iff StoreFieldCheck passes; fails with its error otherwise; the type table is unchanged and the corrected store word is appended |
| Emitter.StoreFieldAsWritten | tasm_riscv64.hpp:276-294 | store_field as written: the same checks and errors, with the source's raw-size store word appended |
| Emitter.StoreFieldAsWrittenAgrees | tasm_riscv64.hpp:276-294 | the two store_field versions accept the same calls, fail with the same errors, leave the same types and code prefix, and append words whose funct3 differs |
| Scenarios.AddBaseFields | test_obj.cpp:16-19 | int, short, byte, byte after the 4-byte header sit at offsets 4, 8, 10 and 11 |
| Scenarios.ObjectTestBase | test_obj.cpp:15-21 | c1 gets id 32, finishes and has size 12 |
| Scenarios.ObjectTestClasses | test_obj.cpp:15-25 | c2, derived from c1 with a long added, has id 33 and size 20; c2 is-a c1 and not the reverse |
| Scenarios.ObjectTestPrologue | test_obj.cpp:26-27 | the test's function binds c1 to a0 and c2 to a1 |
| Scenarios.ObjectTestLoadShort | test_obj.cpp:29 | the corrected short load is LH x15, 8(x10) (0x00851783) and x15 becomes a short |
| Scenarios.ObjectTestLoadShortAsWritten | test_obj.cpp:29 | the source's load_field emits 0x00852783 here, an LW |
| Scenarios.ObjectTestStoreShort | test_obj.cpp:30 | storing the short into c2's long field is accepted, changes no type and appends SD x15, 12(x11) (0x00F5B623) |
| Scenarios.ObjectTestStoreShortAsWritten | test_obj.cpp:30 | the source's store_field emits 0x00F58623 here, an SB, because the 8 falls on rptr's already set low bit |
| Scenarios.ObjectTestLoadByte | test_obj.cpp:31 | the corrected byte load is LB x16, 10(x10) (0x00A50803); x16 becomes a byte and nothing else changes |
| Scenarios.ObjectTestLoadByteAsWritten | test_obj.cpp:31 | the source's load_field emits 0x00A51803 here, an LH |
| Scenarios.ObjectTestMisuses | tasm_riscv64.hpp:262-294 | a c1 pointer used as a c2, an object used as an integer, a missing field and a reserved register each fail with their own error |
| Scenarios.ArithTestPrologue | test_arith.cpp:15 | a function without frame slots or parameters starts with empty code and register tokens |
| Scenarios.ArithImmediateWords | test_arith.cpp:16-27 | nop, move, lui, addi and srai produce the standard RV64 words |
| Scenarios.ArithRegisterWords | test_arith.cpp:28-45 | add, sub and remu produce the standard RV64 words |

## Left out

- `dumptofile` (tasm_riscv64.hpp:239-248) is file output: it writes each code word as 4 little-endian bytes. It is not modelled.
- Frames, spill and reload, arrays and class demotion are not modelled, because the header does not implement them. `open_frame` and `close_frame` do not appear in it at all. `spill_reg` and `unspill_reg` appear only as commented-out lines, and arrays only as a TODO; the array operations test_array.cpp calls are absent. test_array.cpp is therefore not replayed. The object test is replayed from its classes to its last load, without `open_frame` and without the spill, unspill and final store.
- Branch displacement fixup (TODOs at lines 202-203) and the jump-target maps (TODOs at lines 148-149) are not implemented, so `Branch` emits a zero displacement. Call, jump and `ret` are only named in a plain comment at line 312. The return type and `usex5ret` are stored but never read, and `SAVEMASK` is unused, so none of them carries a check.
- The public ALU wrappers take `int` register numbers that C++ converts to `unsigned`. The model takes the resulting `bv32` directly: a negative number arrives as a value of at least 2^31 and fails as an illegal register.
- The 28 register-register and 13 register-immediate wrappers are modelled as one `Alu` and one `AluImm` over an operation datatype. The six branch wrappers are modelled as one `Branch` over a condition.
- test_arith.cpp and test_array.cpp call a three-argument constructor that the header lacks. The arithmetic scenario uses the header's four-argument one, with `usex5ret` false, as test_obj.cpp does.
- The C++ `std::out_of_range` of `fields.at` is the `FieldIndexOutOfRange` error. Allocation failure is not modelled.
- Emitter.LoadField: appends the corrected load word (funct3 = width code), not the source's; Emitter.LoadFieldAsWritten appends the source's word and Emitter.LoadFieldAsWrittenAgrees relates the two.
- Emitter.StoreField: appends the corrected store word, not the source's; Emitter.StoreFieldAsWritten appends the source's word and Emitter.StoreFieldAsWrittenAgrees relates the two.
- Classes.AddPrimitive: grows the size by 8 for an array field, not by `1 << typ`; Classes.AddPrimitiveAsWritten is the source's version and Classes.AddPrimitiveAsWrittenAgrees relates the two. The scenarios add only plain scalars, where both agree.
- Classes.NewRootKeepsValid: validity preservation is proved only while `serial + 1 < 2^32`, because the source's unchecked `serial++` would wrap to 0 and then hand out ids below 32, which are primitive codes.
- Classes.AddClassField: layout soundness is preserved only while the size stays below 2^32 - 8, because the source's `size += 8` wraps silently.
- Classes.AddPrimitiveKeepsLayout: the same no-wrap condition applies to the primitive overload.
- Classes.RootIgnoresClassLimit: states the id 2^20 but not, in the same lemma, that this id's type word equals the byte-array word. TypeWords.CodeOverflowsIntoDepth states that collision on the word itself, because the solver cannot convert an `int` id of that size to `bv32` within the resource limit.

## Findings

| source | as written | input that shows it | evidently intended | confidence | as-written member | corrected member |
|---|---|---|---|---|---|---|
| tasm_riscv64.hpp:79 | `size += (1 << typ)` also for an array of a primitive, although `fieldsize` reports 8 bytes (a pointer) for every array | on a fresh root, `addfield(1, 0)` then `addfield(0, 0)`: offsets 4 and 5, but field 0 is 8 bytes wide | grow by the field's size: the scalar width for a plain primitive, 8 for any array, as the class-typed overload does | high; not executed | Classes.AddPrimitiveAsWritten, Classes.PrimitiveArrayFieldOverlaps, Classes.AddPrimitiveAsWrittenAgrees | Classes.AddPrimitive, Classes.AddPrimitiveKeepsLayout |
| tasm_riscv64.hpp:270-293 | `load_field` and `store_field` shift the byte count 1/2/4/8 into funct3 | test_obj.cpp:29 loads a short and gets 0x00852783, an LW; test_obj.cpp:31 loads a byte and gets 0x00A51803, an LH; an int field gives LBU; a long field sets bit 15 and reads through register rptr \| 1 | funct3 = log2 of the size, so LB/LH/LW/LD and SB/SH/SW/SD | high; not executed | Emitter.AccessFunct3AsWritten, Emitter.LoadWordAsWritten, Emitter.StoreWordAsWritten, Emitter.RawSizeMisencodes, Emitter.LoadFieldAsWritten, Emitter.StoreFieldAsWritten, Emitter.LoadFieldAsWrittenAgrees, Emitter.StoreFieldAsWrittenAgrees | TypeWords.WidthCode, Emitter.LoadWord, Emitter.StoreWord, Emitter.LoadField, Emitter.StoreField |
