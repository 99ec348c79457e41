/** Type descriptors as finite trees, and the member offsets every layout pass recomputes. */
module Types {
  import opened Bits

  datatype Kind =
    | VoidType | IntType | FloatType | DoubleType
    | UInt8Type | SInt8Type | UInt16Type | SInt16Type
    | UInt32Type | SInt32Type | UInt64Type | SInt64Type
    | StructType | PointerType

  datatype Desc = Desc(size: nat, alignment: nat, kind: Kind, members: seq<Desc>)

  predicate IsFloat(k: Kind) {
    k == FloatType || k == DoubleType
  }

  /** The kinds whose width the kind itself fixes. */
  predicate FixedWidth(k: Kind) {
    k != VoidType && k != IntType && k != StructType
  }

  function Width(k: Kind): nat
    requires FixedWidth(k)
    ensures Width(k) == 1 || Width(k) == 2 || Width(k) == 4 || Width(k) == 8
  {
    if k == UInt8Type || k == SInt8Type then 1
    else if k == UInt16Type || k == SInt16Type then 2
    else if k == FloatType || k == UInt32Type || k == SInt32Type then 4
    else 8
  }

  /** A fixed-width scalar of its natural size and alignment. */
  predicate NaturalLeaf(d: Desc) {
    FixedWidth(d.kind) && d.size == d.alignment == Width(d.kind)
  }

  /** `alignOffset`: alignment 0 leaves the offset alone. */
  function AlignOffset(v: nat, a: nat): nat {
    if a == 0 then v else AlignMask(v, a)
  }

  /** The offsets at which the walk visits ms when it starts at off. */
  function OffsetsFrom(ms: seq<Desc>, off: nat): (os: seq<nat>)
    ensures |os| == |ms|
  {
    if ms == [] then []
    else
      var o := AlignOffset(off, ms[0].alignment);
      [o] + OffsetsFrom(ms[1..], o + ms[0].size)
  }

  function Offsets(ms: seq<Desc>): (os: seq<nat>)
    ensures |os| == |ms|
  {
    OffsetsFrom(ms, 0)
  }

  /** Every offset is the aligned end of its predecessor. */
  lemma {:induction false} OffsetStep(ms: seq<Desc>, off: nat, i: nat)
    requires i < |ms|
    ensures OffsetsFrom(ms, off)[i] ==
            AlignOffset(if i == 0 then off else OffsetsFrom(ms, off)[i - 1] + ms[i - 1].size, ms[i].alignment)
  {
    if i != 0 {
      OffsetStep(ms[1..], AlignOffset(off, ms[0].alignment) + ms[0].size, i - 1);
    }
  }

  /** The same offsets one at a time: the loop variable of the walk at member i. */
  function OffsetAt(ms: seq<Desc>, i: nat): nat
    requires i < |ms|
  {
    AlignOffset(if i == 0 then 0 else OffsetAt(ms, i - 1) + ms[i - 1].size, ms[i].alignment)
  }

  /** Where the first n members end. */
  function EndOf(ms: seq<Desc>, n: nat): nat
    requires n <= |ms|
  {
    if n == 0 then 0 else OffsetAt(ms, n - 1) + ms[n - 1].size
  }

  lemma {:induction false} OffsetAtIsOffset(ms: seq<Desc>, i: nat)
    requires i < |ms|
    ensures OffsetAt(ms, i) == Offsets(ms)[i]
  {
    hide AlignOffset;
    if i != 0 { OffsetAtIsOffset(ms, i - 1); }
    OffsetStep(ms, 0, i);
  }

  /* ---- return flags ---- */

  const RETURN_VOID: nat := 0
  const RETURN_SINT8: nat := 4
  const RETURN_SINT16: nat := 5
  const RETURN_SINT32: nat := 6
  const RETURN_INT64: nat := 7
  const RETURN_IN_XMM32: nat := 8
  const RETURN_IN_XMM64: nat := 9
  const RETURN_ST_RAX_RDX: nat := 10
  const RETURN_ST_RAX_XMM0: nat := 11
  const RETURN_ST_XMM0_RAX: nat := 12
  const RETURN_ST_XMM0_XMM1: nat := 13
  const RETURN_VIA_POINTER: nat := 0x400
  const RETURN_HFA2: nat := 0x800
  const RETURN_HFA3: nat := 0x1000
  const RETURN_HFA4: nat := 0x2000

  /** `flags & bit != 0` for a single-bit mask. */
  predicate HasFlag(flags: nat, bit: nat)
    requires bit > 0
  {
    (flags / bit) % 2 == 1
  }

  datatype ReturnError = NoError | ErrUnsupportedReturnType
}
