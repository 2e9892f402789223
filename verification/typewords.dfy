/** Static type words: a 32-bit value whose top 12 bits hold an array depth
    and whose low 20 bits hold a base code (0..3 primitives, 4 an unknown
    integer, 5..31 a register's original-value token, 32 and up a class id). */
module TypeWords {

  const DEPTH_SHIFT: bv32 := 20
  const BASE_MASK: bv32 := 0xF_FFFF
  const MAX_ARRAY_DEPTH: bv32 := 4096

  const BYTE: bv32 := 0
  const SHORT: bv32 := 1
  const INT: bv32 := 2
  const LONG: bv32 := 3
  /** The result type of every arithmetic or logic instruction. */
  const UNKNOWN_INT: bv32 := 4
  /** The first code that is neither a primitive nor a register token. */
  const FIRST_CLASS_CODE: bv32 := 32

  function Pack(depth: bv32, base: bv32): (w: bv32)
    ensures depth < MAX_ARRAY_DEPTH && base <= BASE_MASK ==>
              DepthOf(w) == depth && BaseOf(w) == base
  {
    (depth << 20) | base
  }

  function DepthOf(w: bv32): bv32 {
    w >> 20
  }

  function BaseOf(w: bv32): bv32 {
    w & BASE_MASK
  }

  /** A reference is an array of any depth or a plain object of some class. */
  predicate IsReference(w: bv32) {
    DepthOf(w) > 0 || BaseOf(w) >= FIRST_CLASS_CODE
  }

  /** The emitter's numeric test `t >= 32` is exactly "t is a reference". */
  lemma ReferenceIffAtLeast32(w: bv32)
    ensures IsReference(w) <==> w >= FIRST_CLASS_CODE
  {
  }

  /** Class code 2^20 does not fit the 20-bit base field: the word that
      carries it reads as a one-dimensional array of bytes. */
  lemma CodeOverflowsIntoDepth()
    ensures 0x10_0000 == Pack(1, BYTE)
    ensures DepthOf(0x10_0000) == 1 && BaseOf(0x10_0000) == BYTE && IsReference(0x10_0000)
  {
  }

  /** Bytes a field of type `w` occupies in memory: the natural width of a
      scalar byte/short/int, and 8 for a long and for every reference. */
  function Width(w: bv32): (n: nat)
    ensures n == 1 || n == 2 || n == 4 || n == 8
    ensures IsReference(w) ==> n == 8
  {
    if w == BYTE then 1
    else if w == SHORT then 2
    else if w == INT then 4
    else 8
  }

  /** `1 << typ` for a primitive code, the size increment the source uses
      when it adds a primitive field. */
  function ShiftWidth(typ: bv32): (n: nat)
    requires typ <= LONG
    ensures n == Width(typ) == Width(Pack(0, typ))
  {
    var n := ((1 as bv32) << typ) as int;
    if typ == BYTE then assert n == 1; n
    else if typ == SHORT then assert n == 2; n
    else if typ == INT then assert n == 4; n
    else assert n == 8; n
  }

  /** The type word of a primitive field: it decodes to its depth and code,
      and occupies the scalar's own width when plain and a pointer's 8 bytes
      when it is an array. */
  lemma PrimitiveWord(depth: bv32, typ: bv32)
    requires depth < MAX_ARRAY_DEPTH && typ <= LONG
    ensures DepthOf(Pack(depth, typ)) == depth && BaseOf(Pack(depth, typ)) == typ
    ensures Width(Pack(depth, typ)) == if depth == 0 then Width(typ) else 8
  {
  }

  /** The RISC-V load/store width code (funct3 of LB/LH/LW/LD, SB/SH/SW/SD)
      for an access of `Width(w)` bytes: its base-2 logarithm. */
  function WidthCode(w: bv32): (c: bv32)
    ensures c <= 3
    ensures c == 0 <==> Width(w) == 1
    ensures c == 1 <==> Width(w) == 2
    ensures c == 2 <==> Width(w) == 4
    ensures c == 3 <==> Width(w) == 8
  {
    var n := Width(w);
    if n == 1 then 0 else if n == 2 then 1 else if n == 4 then 2 else 3
  }
}
