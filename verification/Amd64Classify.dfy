/** System V AMD64 classification (section 3.2.3) as the call side computes it, over descriptors. */
module Amd64Classify {
  import opened Types
  import opened Placement

  /** Every member of a non-empty struct is a float or a double. */
  predicate AllFloats(t: Desc) {
    t.members != [] && forall i :: 0 <= i < |t.members| ==> IsFloat(t.members[i].kind)
  }

  /** Some member starts in [lo, hi), and every member that does is a float or a double. */
  predicate EightbyteIsSSE(t: Desc, lo: nat, hi: nat) {
    var os := Offsets(t.members);
    && (exists i :: 0 <= i < |os| && lo <= os[i] < hi)
    && (forall i :: 0 <= i < |os| && lo <= os[i] < hi ==> IsFloat(t.members[i].kind))
  }

  method ClassifyEightbyte(t: Desc, startOff: nat, endOff: nat) returns (sse: bool)
    ensures sse == EightbyteIsSSE(t, startOff, endOff)
  {
    hide AlignOffset;
    ghost var os := Offsets(t.members);
    var offset: nat := 0;
    var allFloat, hasField, i := true, false, 0;
    while i < |t.members|
      invariant 0 <= i <= |t.members|
      invariant allFloat
      invariant os[i..] == OffsetsFrom(t.members[i..], offset)
      invariant hasField <==> exists j :: 0 <= j < i && startOff <= os[j] < endOff
      invariant forall j :: 0 <= j < i && startOff <= os[j] < endOff ==> IsFloat(t.members[j].kind)
    {
      var m := t.members[i];
      offset := AlignOffset(offset, m.alignment);
      assert os[i] == os[i..][0] == offset;
      assert t.members[i..][1..] == t.members[i + 1..] && os[i..][1..] == os[i + 1..];
      if startOff <= offset < endOff {
        hasField := true;
        if !IsFloat(m.kind) {
          allFloat := false;
          break;
        }
      }
      offset := offset + m.size;
      i := i + 1;
    }
    sse := hasField && allFloat;
  }

  /** One word of an argument: the class it is passed in, where it is read and how many bytes. */
  datatype Part = Part(cls: Class, off: nat, width: nat) | Address

  /** The load the marshaller uses for the last n bytes of a struct. */
  function LoadWidth(n: nat): (w: nat)
    ensures w <= 8
    ensures n <= 8 ==> n <= w
  {
    if n == 1 then 1 else if n == 2 then 2 else if n <= 4 then 4 else 8
  }

  function EightbyteClass(sse: bool): Class {
    if sse then SSE else INTEGER
  }

  /** The words an argument of type t is split into. Kinds without a fixed width are passed as
      the address of their value. */
  function Parts(t: Desc): seq<Part> {
    if t.kind == StructType then
      if t.size == 0 then []
      else if t.size <= 8 then
        [if AllFloats(t) then Part(SSE, 0, 8) else Part(INTEGER, 0, LoadWidth(t.size))]
      else if t.size <= 16 then
        [Part(EightbyteClass(EightbyteIsSSE(t, 0, 8)), 0, 8),
         Part(EightbyteClass(EightbyteIsSSE(t, 8, t.size)), 8, LoadWidth(t.size - 8))]
      else seq((t.size + 7) / 8, k requires 0 <= k < (t.size + 7) / 8 => Part(MEMORY, 8 * k, LoadWidth(t.size - 8 * k)))
    else if !FixedWidth(t.kind) then [Address]
    else [Part(EightbyteClass(IsFloat(t.kind)), 0, Width(t.kind))]
  }

  function PartClass(p: Part): Class {
    if p.Part? then p.cls else INTEGER
  }

  /** The register classes of t's words, in order. */
  function ClassesOf(t: Desc): (cs: seq<Class>)
    ensures |cs| == |Parts(t)|
  {
    var ps := Parts(t);
    seq(|ps|, i requires 0 <= i < |ps| => PartClass(ps[i]))
  }
}
