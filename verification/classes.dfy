/** The class layout registry: single-inheritance class descriptors with a
    field layout, a freeze flag and a subtype query.

    The process-wide `serial` counter of the C++ class becomes an explicit
    field of a `Registry` value, and a class refers to its superclass by its
    index in the registry, which is always smaller than its own index. */
module Classes {
  import opened Base
  import opened TypeWords

  /** The first class id: codes below it are primitives and register tokens. */
  const FIRST_SERIAL: u32 := 32
  /** Class ids must stay below 2^20 so that they fit under the depth bits. */
  const MAX_CLASS_ID: u32 := 0x10_0000
  /** Load and store immediates are 12-bit signed offsets. */
  const MAX_SIZE_BYTES: u32 := 2048
  /** A root object starts with a 4-byte header. */
  const ROOT_SIZE: u32 := 4
  const POINTER_BYTES: u32 := 8
  /** Below this size no single field addition wraps the 32-bit size. */
  const NO_WRAP_SIZE: u32 := 0xFFFF_FFF8

  /** One field: its byte offset and its packed static type. */
  datatype Field = Field(offset: u32, typ: bv32)

  datatype ClassDesc = ClassDesc(
    id: u32,
    done: bool,
    superclass: Option<nat>,
    fields: seq<Field>,
    size: u32)

  datatype Registry = Registry(classes: seq<ClassDesc>, serial: u32)

  /** The type word of a plain reference to class `c`. */
  function TypeWordOf(c: ClassDesc): bv32 {
    c.id as bv32
  }

  /** Superclass links point strictly backwards, so every chain is finite. */
  ghost predicate WellFormed(reg: Registry) {
    forall i :: 0 <= i < |reg.classes| && reg.classes[i].superclass.Some? ==>
      reg.classes[i].superclass.value < i
  }

  /** A registry built by a serial counter that never wrapped: ids are
      handed out in increasing order from 32 and lie below the counter. */
  ghost predicate Valid(reg: Registry) {
    && WellFormed(reg)
    && FIRST_SERIAL <= reg.serial
    && (forall i :: 0 <= i < |reg.classes| ==>
          FIRST_SERIAL <= reg.classes[i].id < reg.serial)
    && (forall i, j :: 0 <= i < j < |reg.classes| ==>
          reg.classes[i].id < reg.classes[j].id)
  }

  /** `reg'` keeps every class of `reg` at the same index with the same id and
      superclass (fields, size and the freeze flag may differ). */
  ghost predicate SameHierarchy(reg: Registry, reg': Registry) {
    && |reg.classes| <= |reg'.classes|
    && forall i :: 0 <= i < |reg.classes| ==>
         reg'.classes[i].id == reg.classes[i].id &&
         reg'.classes[i].superclass == reg.classes[i].superclass
  }

  /** Every field lies after the header and inside the object, and a field
      ends before the next one begins. */
  ghost predicate LaidOut(c: ClassDesc) {
    && ROOT_SIZE <= c.size
    && (forall i :: 0 <= i < |c.fields| ==>
          ROOT_SIZE <= c.fields[i].offset < c.size &&
          Width(c.fields[i].typ) <= c.size - c.fields[i].offset)
    && (forall i, j :: 0 <= i < j < |c.fields| ==>
          c.fields[i].offset < c.fields[j].offset &&
          Width(c.fields[i].typ) <= c.fields[j].offset - c.fields[i].offset)
  }

  /** A field or freeze operation keeps the class's identity and parent. */
  predicate SameIdentity(c: ClassDesc, d: ClassDesc) {
    d.id == c.id && d.superclass == c.superclass
  }

  function EmptyRegistry(): (reg: Registry)
    ensures Valid(reg) && reg.classes == [] && reg.serial == FIRST_SERIAL
  {
    Registry([], FIRST_SERIAL)
  }

  /** A new root class; returns the grown registry and the new class's index.
      There is no capacity check: the counter may pass 2^20 and wraps at 2^32. */
  function NewRoot(reg: Registry): (r: (Registry, nat))
    ensures r.1 == |reg.classes| && |r.0.classes| == r.1 + 1
    ensures r.0.classes[..r.1] == reg.classes
    ensures var c := r.0.classes[r.1];
              c.id == reg.serial && !c.done && c.superclass.None? &&
              c.fields == [] && c.size == ROOT_SIZE && LaidOut(c)
    ensures r.0.serial == Wrap32(reg.serial + 1)
  {
    var c := ClassDesc(reg.serial, false, None, [], ROOT_SIZE);
    (Registry(reg.classes + [c], Wrap32(reg.serial + 1)), |reg.classes|)
  }

  /** A root class keeps the hierarchy, gets an id no existing class has,
      and keeps the registry valid as long as the counter does not wrap. */
  lemma NewRootKeepsValid(reg: Registry)
    ensures var (reg', k) := NewRoot(reg);
            WellFormed(reg) ==> WellFormed(reg') && SameHierarchy(reg, reg')
    ensures var (reg', k) := NewRoot(reg);
            Valid(reg) ==> forall i :: 0 <= i < |reg.classes| ==> reg.classes[i].id != reg'.classes[k].id
    ensures var (reg', k) := NewRoot(reg);
            Valid(reg) && reg.serial + 1 < U32_LIMIT ==> Valid(reg') && reg.serial < reg'.serial
  {
  }

  /** A new class deriving from `parent`: it copies the parent's fields and
      size as they are now; later changes to either are not shared. */
  function Derive(reg: Registry, parent: nat): (r: Result<(Registry, nat)>)
    requires parent < |reg.classes|
    ensures r.Ok? <==> reg.serial < MAX_CLASS_ID
    ensures r.Err? ==> r.error == TooManyClasses
    ensures r.Ok? ==>
              var (reg', k) := r.value;
              && k == |reg.classes| && |reg'.classes| == k + 1
              && reg'.classes[..k] == reg.classes
              && reg'.serial == reg.serial + 1 && reg.serial < reg'.serial
              && var c := reg'.classes[k];
                 c.id == reg.serial && !c.done && c.superclass == Some(parent) &&
                 c.fields == reg.classes[parent].fields && c.size == reg.classes[parent].size
    ensures r.Ok? && WellFormed(reg) ==> WellFormed(r.value.0) && SameHierarchy(reg, r.value.0)
    ensures r.Ok? && Valid(reg) ==> Valid(r.value.0)
    ensures r.Ok? && LaidOut(reg.classes[parent]) ==> LaidOut(r.value.0.classes[r.value.1])
  {
    if reg.serial >= MAX_CLASS_ID then Err(TooManyClasses)
    else
      var p := reg.classes[parent];
      var c := ClassDesc(reg.serial, false, Some(parent), p.fields, p.size);
      Ok((Registry(reg.classes + [c], reg.serial + 1), |reg.classes|))
  }

  /** Writes back a class after a field or freeze operation on it. */
  function Store(reg: Registry, k: nat, c: ClassDesc): (reg': Registry)
    requires k < |reg.classes| && SameIdentity(reg.classes[k], c)
    ensures |reg'.classes| == |reg.classes| && reg'.serial == reg.serial
    ensures reg'.classes[k] == c
    ensures forall i :: 0 <= i < |reg.classes| && i != k ==> reg'.classes[i] == reg.classes[i]
    ensures SameHierarchy(reg, reg') && SameHierarchy(reg', reg)
    ensures WellFormed(reg) ==> WellFormed(reg')
    ensures Valid(reg) ==> Valid(reg')
  {
    reg.(classes := reg.classes[k := c])
  }

  /** Adds a reference field of class `cls` nested in `depth` arrays.
      Only this overload checks that the class is not yet frozen. */
  function AddClassField(c: ClassDesc, depth: bv32, cls: ClassDesc): (r: Result<ClassDesc>)
    ensures r.Ok? <==> !c.done && depth < MAX_ARRAY_DEPTH
    ensures r.Err? ==> r.error == (if c.done then ClassFrozen else ArrayTooDeep)
    ensures r.Ok? ==> |r.value.fields| == |c.fields| + 1
    ensures r.Ok? ==>
              var d := r.value;
              var f := d.fields[|c.fields|];
              && SameIdentity(c, d) && !d.done
              && d.fields[..|c.fields|] == c.fields
              && f.offset == c.size
              && f.typ == Pack(depth, TypeWordOf(cls))
              && d.size == Wrap32(c.size + POINTER_BYTES)
    ensures r.Ok? && LaidOut(c) && c.size < NO_WRAP_SIZE ==> LaidOut(r.value)
  {
    if c.done then Err(ClassFrozen)
    else if depth >= MAX_ARRAY_DEPTH then Err(ArrayTooDeep)
    else
      var d := c.(fields := c.fields + [Field(c.size, Pack(depth, TypeWordOf(cls)))],
                  size := Wrap32(c.size + POINTER_BYTES));
      assert LaidOut(c) && c.size < NO_WRAP_SIZE ==> LaidOut(d) by {
        if LaidOut(c) && c.size < NO_WRAP_SIZE {
          AppendKeepsLayout(c, Field(c.size, Pack(depth, TypeWordOf(cls))), POINTER_BYTES);
        }
      }
      Ok(d)
  }

  /** The primitive-field overload exactly as the source writes it: the size
      grows by the scalar width `1 << typ` even when the field is an array,
      although an array field holds an 8-byte pointer. It has no frozen check. */
  function AddPrimitiveAsWritten(c: ClassDesc, depth: bv32, typ: bv32): (r: Result<ClassDesc>)
    ensures r.Ok? <==> typ <= LONG && depth < MAX_ARRAY_DEPTH
    ensures r.Err? ==> r.error == (if typ > LONG then IllegalPrimitive else ArrayTooDeep)
    ensures r.Ok? ==> |r.value.fields| == |c.fields| + 1
    ensures r.Ok? ==>
              var d := r.value;
              var f := d.fields[|c.fields|];
              && SameIdentity(c, d) && d.done == c.done
              && d.fields[..|c.fields|] == c.fields
              && f.offset == c.size && DepthOf(f.typ) == depth && BaseOf(f.typ) == typ
              && d.size == Wrap32(c.size + Width(typ))
  {
    if typ > LONG then Err(IllegalPrimitive)
    else if depth >= MAX_ARRAY_DEPTH then Err(ArrayTooDeep)
    else Ok(c.(fields := c.fields + [Field(c.size, Pack(depth, typ))],
               size := Wrap32(c.size + ShiftWidth(typ))))
  }

  /** An array of bytes followed by a byte: the layout the source computes
      places the second field inside the 8-byte pointer of the first. */
  lemma PrimitiveArrayFieldOverlaps()
    ensures var c := ClassDesc(FIRST_SERIAL, false, None, [], ROOT_SIZE);
            var r1 := AddPrimitiveAsWritten(c, 1, BYTE);
            && r1.Ok?
            && var r2 := AddPrimitiveAsWritten(r1.value, 0, BYTE);
               && r2.Ok? && r2.value.size == 6
               && FieldSize(r2.value, 0) == Ok(8) && FieldOffset(r2.value, 0) == Ok(4)
               && FieldOffset(r2.value, 1) == Ok(5)
               && !LaidOut(r2.value)
  {
  }

  /** The source's primitive overload and the corrected one fail alike and
      append the same field; they give the same class for a plain scalar
      and differ only in the size of a class gaining an array of bytes,
      shorts or ints. */
  lemma AddPrimitiveAsWrittenAgrees(c: ClassDesc, depth: bv32, typ: bv32)
    ensures var a, b := AddPrimitiveAsWritten(c, depth, typ), AddPrimitive(c, depth, typ);
            && (a.Ok? <==> b.Ok?) && (a.Err? ==> a == b)
            && (a.Ok? ==> a.value.fields == b.value.fields && a.value.done == b.value.done &&
                          SameIdentity(a.value, b.value))
            && (a.Ok? ==> (a == b <==> depth == 0 || typ == LONG))
  {
    if typ <= LONG && depth < MAX_ARRAY_DEPTH {
      PrimitiveWord(depth, typ);
    }
  }

  /** Offsets after the header, strictly increasing and inside the object:
      the part of a sound layout that ignores field widths. */
  ghost predicate OffsetsOrdered(c: ClassDesc) {
    && ROOT_SIZE <= c.size
    && (forall i :: 0 <= i < |c.fields| ==> ROOT_SIZE <= c.fields[i].offset < c.size)
    && (forall i, j :: 0 <= i < j < |c.fields| ==> c.fields[i].offset < c.fields[j].offset)
  }

  /** Even as written, the primitive overload keeps offsets strictly
      increasing and inside the object while the size does not wrap; what
      it loses is only that the fields do not overlap. */
  lemma AddPrimitiveAsWrittenKeepsOrder(c: ClassDesc, depth: bv32, typ: bv32)
    requires OffsetsOrdered(c) && c.size < NO_WRAP_SIZE
    requires AddPrimitiveAsWritten(c, depth, typ).Ok?
    ensures OffsetsOrdered(AddPrimitiveAsWritten(c, depth, typ).value)
  {
    var d := AddPrimitiveAsWritten(c, depth, typ).value;
    assert c.size < d.size;
    forall i | 0 <= i < |c.fields|
      ensures d.fields[i] == c.fields[i]
    {
      assert d.fields[i] == d.fields[..|c.fields|][i];
    }
  }

  /** A sound layout has ordered offsets. */
  lemma LaidOutOrdered(c: ClassDesc)
    requires LaidOut(c)
    ensures OffsetsOrdered(c)
  {
  }

  /** The primitive-field overload with arrays laid out as pointers: the size
      grows by exactly the access width of the new field (8 for an array),
      which keeps the layout sound. Like the source, no frozen check. */
  function AddPrimitive(c: ClassDesc, depth: bv32, typ: bv32): (r: Result<ClassDesc>)
    ensures r.Ok? <==> typ <= LONG && depth < MAX_ARRAY_DEPTH
    ensures r.Err? ==> r.error == (if typ > LONG then IllegalPrimitive else ArrayTooDeep)
    ensures r.Ok? ==> |r.value.fields| == |c.fields| + 1
    ensures r.Ok? ==>
              var d := r.value;
              var f := d.fields[|c.fields|];
              && SameIdentity(c, d) && d.done == c.done
              && d.fields[..|c.fields|] == c.fields
              && f.offset == c.size && DepthOf(f.typ) == depth && BaseOf(f.typ) == typ
              && d.size == Wrap32(c.size + Width(f.typ))
              && (depth == 0 ==> d.size == Wrap32(c.size + Width(typ)))
  {
    if typ > LONG then Err(IllegalPrimitive)
    else if depth >= MAX_ARRAY_DEPTH then Err(ArrayTooDeep)
    else
      var t := Pack(depth, typ);
      PrimitiveWord(depth, typ);
      Ok(c.(fields := c.fields + [Field(c.size, t)], size := Wrap32(c.size + Width(t))))
  }

  /** Adding a primitive field keeps a sound layout sound as long as the size
      does not wrap. */
  lemma AddPrimitiveKeepsLayout(c: ClassDesc, depth: bv32, typ: bv32)
    requires LaidOut(c) && c.size < NO_WRAP_SIZE && AddPrimitive(c, depth, typ).Ok?
    ensures LaidOut(AddPrimitive(c, depth, typ).value)
  {
    var t := Pack(depth, typ);
    AppendKeepsLayout(c, Field(c.size, t), Width(t));
  }

  /** Appending a field at the current end, and growing the size by at least
      its width without wrapping, keeps a sound layout sound. */
  lemma AppendKeepsLayout(c: ClassDesc, f: Field, grow: nat)
    requires LaidOut(c) && c.size < NO_WRAP_SIZE
    requires f.offset == c.size && Width(f.typ) <= grow <= POINTER_BYTES
    ensures LaidOut(c.(fields := c.fields + [f], size := Wrap32(c.size + grow)))
  {
  }

  /** Freezes the layout; fails when the object has reached 2048 bytes. */
  function Finish(c: ClassDesc): (r: Result<ClassDesc>)
    ensures r.Ok? <==> c.size < MAX_SIZE_BYTES
    ensures r.Err? ==> r.error == ObjectTooLarge
    ensures r.Ok? ==> r.value.done && SameIdentity(c, r.value) &&
                      r.value.fields == c.fields && r.value.size == c.size
    ensures r.Ok? && LaidOut(c) ==>
              forall i :: 0 <= i < |c.fields| ==>
                c.fields[i].offset < MAX_SIZE_BYTES &&
                Width(c.fields[i].typ) <= MAX_SIZE_BYTES - c.fields[i].offset
  {
    if c.size >= MAX_SIZE_BYTES then Err(ObjectTooLarge)
    else Ok(c.(done := true))
  }

  /** Java-style subtype test: does some class on `c`'s superclass chain
      have the id of class `rhs`? */
  function IsA(reg: Registry, c: nat, rhs: nat): (b: bool)
    requires WellFormed(reg) && c < |reg.classes| && rhs < |reg.classes|
    ensures c == rhs ==> b
    decreases c
  {
    if reg.classes[c].id == reg.classes[rhs].id then true
    else match reg.classes[c].superclass
      case None => false
      case Some(p) => IsA(reg, p, rhs)
  }

  /** The superclass chain of `c`, from `c` itself up to its root. */
  ghost function Chain(reg: Registry, c: nat): (s: seq<nat>)
    requires WellFormed(reg) && c < |reg.classes|
    ensures |s| >= 1 && s[0] == c
    ensures forall k :: 0 <= k < |s| ==> s[k] <= c
    decreases c
  {
    match reg.classes[c].superclass
    case None => [c]
    case Some(p) => [c] + Chain(reg, p)
  }

  /** In a valid registry `is_a` holds exactly for the classes on the chain. */
  lemma {:induction false} IsAIffOnChain(reg: Registry, c: nat, d: nat)
    requires Valid(reg) && c < |reg.classes| && d < |reg.classes|
    ensures IsA(reg, c, d) <==> d in Chain(reg, c)
    decreases c
  {
    assert c < d ==> reg.classes[c].id < reg.classes[d].id;
    assert d < c ==> reg.classes[d].id < reg.classes[c].id;
    match reg.classes[c].superclass
    case None =>
    case Some(p) =>
      IsAIffOnChain(reg, p, d);
  }

  /** A class is only ever a subtype of classes created before it. */
  lemma {:induction false} IsAOrdered(reg: Registry, c: nat, d: nat)
    requires Valid(reg) && c < |reg.classes| && d < |reg.classes|
    requires IsA(reg, c, d)
    ensures d <= c
    decreases c
  {
    if reg.classes[c].id != reg.classes[d].id {
      IsAOrdered(reg, reg.classes[c].superclass.value, d);
    }
  }

  lemma {:induction false} IsATransitive(reg: Registry, a: nat, b: nat, c: nat)
    requires Valid(reg) && a < |reg.classes| && b < |reg.classes| && c < |reg.classes|
    requires IsA(reg, a, b) && IsA(reg, b, c)
    ensures IsA(reg, a, c)
    decreases a
  {
    if reg.classes[a].id != reg.classes[b].id && reg.classes[a].id != reg.classes[c].id {
      IsATransitive(reg, reg.classes[a].superclass.value, b, c);
    }
  }

  /** Growing or editing the registry without touching ids and superclass
      links does not change the answer of `is_a` among existing classes. */
  lemma {:induction false} IsAStable(reg: Registry, reg': Registry, c: nat, d: nat)
    requires WellFormed(reg) && WellFormed(reg') && SameHierarchy(reg, reg')
    requires c < |reg.classes| && d < |reg.classes|
    ensures IsA(reg', c, d) == IsA(reg, c, d)
    decreases c
  {
    match reg.classes[c].superclass
    case None =>
    case Some(p) =>
      IsAStable(reg, reg', p, d);
  }

  /** A derived class is-a itself and exactly what its parent is-a, and the
      parent is not a subtype of the new class. */
  lemma DeriveIsA(reg: Registry, parent: nat, d: nat)
    requires Valid(reg) && parent < |reg.classes| && d < |reg.classes|
    requires Derive(reg, parent).Ok?
    ensures var (reg', k) := Derive(reg, parent).value;
            && IsA(reg', k, k)
            && (IsA(reg', k, d) <==> IsA(reg, parent, d))
            && IsA(reg', k, parent)
            && !IsA(reg', parent, k)
  {
    var (reg', k) := Derive(reg, parent).value;
    assert reg'.classes[k].id != reg'.classes[d].id by {
      assert reg'.classes[d] == reg.classes[d];
    }
    IsAStable(reg, reg', parent, d);
    IsAStable(reg, reg', parent, parent);
    if IsA(reg', parent, k) {
      IsAOrdered(reg', parent, k);
    }
  }

  function FieldType(c: ClassDesc, i: nat): (r: Result<bv32>)
    ensures r.Ok? <==> i < |c.fields|
    ensures r.Err? ==> r.error == FieldIndexOutOfRange
    ensures r.Ok? ==> r.value == c.fields[i].typ
  {
    if i < |c.fields| then Ok(c.fields[i].typ) else Err(FieldIndexOutOfRange)
  }

  function FieldOffset(c: ClassDesc, i: nat): (r: Result<u32>)
    ensures r.Ok? <==> i < |c.fields|
    ensures r.Err? ==> r.error == FieldIndexOutOfRange
    ensures r.Ok? ==> r.value == c.fields[i].offset
  {
    if i < |c.fields| then Ok(c.fields[i].offset) else Err(FieldIndexOutOfRange)
  }

  /** Bytes the access to field `i` moves: 1, 2 or 4 for a scalar byte, short
      or int, 8 for a long, a class reference or any array. */
  function FieldSize(c: ClassDesc, i: nat): (r: Result<nat>)
    ensures r.Ok? <==> i < |c.fields|
    ensures r.Err? ==> r.error == FieldIndexOutOfRange
    ensures r.Ok? ==> r.value == Width(c.fields[i].typ)
  {
    var t :- FieldType(c, i);
    Ok(Width(t))
  }

  /** A field added with the primitive overload reads back through the
      accessors: its offset is the old size, its type packs (depth, typ), and
      its size is `1 << typ` for a scalar and 8 for an array; the fields that
      were there before read back unchanged. */
  lemma AddedPrimitiveReadsBack(c: ClassDesc, depth: bv32, typ: bv32, i: nat)
    requires AddPrimitive(c, depth, typ).Ok?
    ensures var d := AddPrimitive(c, depth, typ).value;
            && FieldOffset(d, |c.fields|) == Ok(c.size)
            && FieldType(d, |c.fields|) == Ok(Pack(depth, typ))
            && FieldSize(d, |c.fields|) == Ok(if depth == 0 then ShiftWidth(typ) else 8)
            && (i < |c.fields| ==>
                  FieldType(d, i) == FieldType(c, i) && FieldOffset(d, i) == FieldOffset(c, i))
  {
  }

  /** The source checks the class limit only when deriving: once the counter
      reaches 2^20 a derive fails but a root class is still created, with id
      2^20, a code the 20-bit base field of a type word cannot hold (see
      `TypeWords.CodeOverflowsIntoDepth`). */
  lemma RootIgnoresClassLimit(reg: Registry, parent: nat)
    requires parent < |reg.classes| && reg.serial == MAX_CLASS_ID
    ensures Derive(reg, parent) == Err(TooManyClasses)
    ensures var (reg', k) := NewRoot(reg);
            reg'.classes[k].id == MAX_CLASS_ID && reg'.serial == MAX_CLASS_ID + 1
  {
  }
}
