/** The amd64 return direction: the result registers are turned back into the struct's memory. */
module Amd64Return {
  import opened Bits
  import opened Words
  import opened Types
  import opened Amd64Classify
  import opened Placement
  import P = Amd64Prepare
  import A = Amd64Args
  import S = Amd64Slots

  /** classifyReturnAMD64 on a Unix system. */
  function ClassifyReturn(t: Desc): nat {
    if t.kind == VoidType then RETURN_VOID
    else if t.kind == FloatType then RETURN_IN_XMM32
    else if t.kind == DoubleType then RETURN_IN_XMM64
    else if t.kind == StructType then
      if t.size == 1 then RETURN_SINT8
      else if t.size == 2 then RETURN_SINT16
      else if t.size == 4 then RETURN_SINT32
      else if t.size == 8 then RETURN_INT64
      else if t.size > 16 then RETURN_VIA_POINTER
      else
        var eb0, eb1 := EightbyteIsSSE(t, 0, 8), EightbyteIsSSE(t, 8, t.size);
        if eb0 && eb1 then RETURN_ST_XMM0_XMM1
        else if eb0 then RETURN_ST_XMM0_RAX
        else if eb1 then RETURN_ST_RAX_XMM0
        else RETURN_ST_RAX_RDX
    else if t.size <= 8 then RETURN_INT64
    else RETURN_VIA_POINTER
  }

  /** The registers a C function returns its result in. */
  datatype Regs = Regs(rax: Word, rdx: Word, xmm0: Word, xmm1: Word)

  /** The bytes handleReturn stores at the start of the result buffer; None is
      ErrUnsupportedReturnType. */
  datatype Stored = Unsupported | Stored(bytes: seq<Byte>)

  function StoredResult(t: Desc, flags: nat, r: Regs): Stored {
    if t.kind == VoidType || (t.kind == StructType && t.size > 16) then Stored([])
    else if HasFlag(flags, RETURN_VIA_POINTER) then Stored(Bytes(if IsFloat(t.kind) then r.xmm0 else r.rax))
    else if t.kind == StructType then
      if t.size <= 8 then Stored(Bytes(r.rax))
      else if flags == RETURN_ST_XMM0_XMM1 then Stored(Bytes(r.xmm0) + Bytes(r.xmm1)[..t.size - 8])
      else if flags == RETURN_ST_XMM0_RAX then Stored(Bytes(r.xmm0) + Bytes(r.rax)[..t.size - 8])
      else if flags == RETURN_ST_RAX_XMM0 then Stored(Bytes(r.rax) + Bytes(r.xmm0)[..t.size - 8])
      else Stored(Bytes(r.rax) + Bytes(r.rdx)[..t.size - 8])
    else if FixedWidth(t.kind) then
      Stored(Bytes(if IsFloat(t.kind) then r.xmm0 else r.rax)[..Width(t.kind)])
    else Unsupported
  }

  method StoreBytes(rvalue: array<Byte>, off: nat, w: Word, n: nat)
    requires n <= 8 && off + n <= rvalue.Length
    modifies rvalue
    ensures forall k :: 0 <= k < rvalue.Length ==>
              rvalue[k] == if off <= k < off + n then Bytes(w)[k - off] else old(rvalue[k])
  {
    forall k | 0 <= k < n {
      rvalue[off + k] := Bytes(w)[k];
    }
  }

  /** Two registers into a 9 to 16 byte buffer. */
  method StorePair(rvalue: array<Byte>, size: nat, first: Word, second: Word)
    requires 8 < size <= 16 && size <= rvalue.Length
    modifies rvalue
    ensures rvalue[..] == Bytes(first) + Bytes(second)[..size - 8] + old(rvalue[size..])
  {
    hide Bytes;
    StoreBytes(rvalue, 0, first, 8);
    StoreBytes(rvalue, 8, second, size - 8);
  }

  /** handleReturn, with the choice of XMM0 for float results that precedes it. A nil buffer
      discards the result. */
  method HandleReturn(t: Desc, flags: nat, rvalue: array?<Byte>, r: Regs) returns (err: ReturnError)
    requires rvalue != null ==> var s := StoredResult(t, flags, r); s.Stored? ==> |s.bytes| <= rvalue.Length
    modifies if rvalue == null then {} else {rvalue}
    ensures rvalue == null ==> err == NoError
    ensures rvalue != null ==>
              match StoredResult(t, flags, r)
              case Unsupported => err == ErrUnsupportedReturnType && rvalue[..] == old(rvalue[..])
              case Stored(bytes) => err == NoError && |bytes| <= rvalue.Length
                                    && rvalue[..] == bytes + old(rvalue[|bytes|..])
    ensures rvalue != null && (t.kind == VoidType || (t.kind == StructType && t.size > 16)) ==>
              err == NoError && rvalue[..] == old(rvalue[..])
  {
    hide Bytes;
    err := NoError;
    if rvalue == null || t.kind == VoidType {
      return;
    }
    if t.kind == StructType && t.size > 16 {
      return;
    }
    hide HasFlag;
    var retVal := if IsFloat(t.kind) then r.xmm0 else r.rax;
    if HasFlag(flags, RETURN_VIA_POINTER) {
      StoreBytes(rvalue, 0, retVal, 8);
      return;
    }
    if t.kind == StructType {
      StoreStruct(t, flags, rvalue, r);
    } else if FixedWidth(t.kind) {
      StoreBytes(rvalue, 0, retVal, Width(t.kind));
    } else {
      err := ErrUnsupportedReturnType;
    }
  }

  /** The struct case: RAX for up to eight bytes, else the two registers the flag names. */
  method StoreStruct(t: Desc, flags: nat, rvalue: array<Byte>, r: Regs)
    requires t.kind == StructType && t.size <= 16 && !HasFlag(flags, RETURN_VIA_POINTER)
    requires |StoredResult(t, flags, r).bytes| <= rvalue.Length
    modifies rvalue
    ensures var bytes := StoredResult(t, flags, r).bytes; rvalue[..] == bytes + old(rvalue[|bytes|..])
  {
    hide Bytes, HasFlag;
    if t.size <= 8 {
      StoreBytes(rvalue, 0, r.rax, 8);
    } else if flags == RETURN_ST_XMM0_XMM1 {
      StorePair(rvalue, t.size, r.xmm0, r.xmm1);
    } else if flags == RETURN_ST_XMM0_RAX {
      StorePair(rvalue, t.size, r.xmm0, r.rax);
    } else if flags == RETURN_ST_RAX_XMM0 {
      StorePair(rvalue, t.size, r.rax, r.xmm0);
    } else {
      StorePair(rvalue, t.size, r.rax, r.rdx);
    }
  }

  /* ---- the callee's side, System V AMD64 ABI section 3.2.3 ---- */

  /** A flat struct of naturally aligned fixed-width members. */
  predicate NaturalFlat(t: Desc) {
    t.kind == StructType && forall i :: 0 <= i < |t.members| ==> NaturalLeaf(t.members[i])
  }

  predicate Overlaps(t: Desc, i: nat, lo: nat, hi: nat)
    requires i < |t.members|
  {
    var o := Offsets(t.members)[i];
    o < hi && lo < o + t.members[i].size
  }

  /** The ABI's class of an eightbyte: SSE when every member with a byte in it is a float. */
  predicate AbiIsSSE(t: Desc, lo: nat, hi: nat) {
    && (exists i :: 0 <= i < |t.members| && Overlaps(t, i, lo, hi))
    && (forall i :: 0 <= i < |t.members| && Overlaps(t, i, lo, hi) ==> IsFloat(t.members[i].kind))
  }

  lemma {:induction false} NaturalOffset(t: Desc, i: nat)
    requires NaturalFlat(t) && i < |t.members|
    ensures Offsets(t.members)[i] % t.members[i].size == 0
  {
    hide AlignMask;
    var m := t.members[i];
    OffsetStep(t.members, 0, i);
    SmallPow2s();
    AlignMaskIsAlignUp(if i == 0 then 0 else Offsets(t.members)[i - 1] + t.members[i - 1].size, m.alignment);
  }

  /** A naturally aligned member lies inside one eightbyte, so looking at where members start is
      looking at where they have bytes. */
  lemma {:induction false} StartsIsOverlaps(t: Desc, i: nat, lo: nat, hi: nat)
    requires NaturalFlat(t) && i < |t.members| && lo % 8 == 0 && lo < hi <= lo + 8
    ensures Overlaps(t, i, lo, hi) <==> lo <= Offsets(t.members)[i] < hi
  {
    NaturalOffset(t, i);
    assert NaturalLeaf(t.members[i]);
    hide NaturalFlat, Offsets;
    var o, w := Offsets(t.members)[i], t.members[i].size;
    if o < lo { AlignedStaysBelow(o, w, lo); }
  }

  lemma {:induction false} AlignedStaysBelow(o: nat, w: nat, lo: nat)
    requires w == 1 || w == 2 || w == 4 || w == 8
    requires o % w == 0 && lo % 8 == 0 && o < lo
    ensures o + w <= lo
  {
    EightIsMultiple(lo, w, if w == 1 then 8 else if w == 2 then 4 else if w == 4 then 2 else 1);
    MultiplesApart(o, w, lo);
  }

  /** classifyEightbyte computes the ABI's class. */
  lemma {:induction false} ClassifiesAsAbi(t: Desc, lo: nat, hi: nat)
    requires NaturalFlat(t) && lo % 8 == 0 && lo < hi <= lo + 8
    ensures EightbyteIsSSE(t, lo, hi) == AbiIsSSE(t, lo, hi)
  {
    forall i | 0 <= i < |t.members|
      ensures Overlaps(t, i, lo, hi) <==> lo <= Offsets(t.members)[i] < hi
    {
      StartsIsOverlaps(t, i, lo, hi);
    }
    hide Overlaps;
  }

  /** The word of the n-th INTEGER or n-th SSE eightbyte of a result. */
  function ResultWord(r: Regs, sse: bool, n: nat): Word {
    if sse then (if n == 0 then r.xmm0 else r.xmm1) else (if n == 0 then r.rax else r.rdx)
  }

  /** A callee returning v in registers: each eightbyte sits in the next free register of its
      class. Bits above the value are whatever the callee left there. */
  predicate CalleeReturns(t: Desc, v: seq<Byte>, r: Regs)
    requires |v| == t.size <= 16
  {
    if t.size <= 8 then Bytes(ResultWord(r, AbiIsSSE(t, 0, t.size), 0))[..t.size] == v
    else
      var sse0, sse1 := AbiIsSSE(t, 0, 8), AbiIsSSE(t, 8, t.size);
      && Bytes(ResultWord(r, sse0, 0)) == v[..8]
      && Bytes(ResultWord(r, sse1, if sse0 == sse1 then 1 else 0))[..t.size - 8] == v[8..]
  }

  lemma {:induction false} SmallFlags(t: Desc)
    requires t.kind == StructType && t.size <= 16
    ensures !HasFlag(ClassifyReturn(t), RETURN_VIA_POINTER)
  {
    hide EightbyteIsSSE;
  }

  /** A 9 to 16 byte struct is stored from the next free register of each eightbyte's class. */
  lemma {:induction false} PairStored(t: Desc, r: Regs)
    requires t.kind == StructType && 8 < t.size <= 16
    ensures var sse0, sse1 := EightbyteIsSSE(t, 0, 8), EightbyteIsSSE(t, 8, t.size);
            StoredResult(t, ClassifyReturn(t), r) ==
            Stored(Bytes(ResultWord(r, sse0, 0))
                   + Bytes(ResultWord(r, sse1, if sse0 == sse1 then 1 else 0))[..t.size - 8])
  {
    hide EightbyteIsSSE, Bytes, HasFlag;
    SmallFlags(t);
  }

  /** Every 9 to 16 byte struct is rebuilt exactly, and nothing past its size is stored. */
  lemma {:induction false} ReturnReconstructs(t: Desc, v: seq<Byte>, r: Regs)
    requires NaturalFlat(t) && 8 < t.size <= 16 && |v| == t.size && CalleeReturns(t, v, r)
    ensures StoredResult(t, ClassifyReturn(t), r) == Stored(v)
  {
    assert t.kind == StructType;
    hide EightbyteIsSSE, AbiIsSSE, Bytes, NaturalFlat, StoredResult, ClassifyReturn, ResultWord;
    ClassifiesAsAbi(t, 0, 8);
    ClassifiesAsAbi(t, 8, t.size);
    PairStored(t, r);
    assert v == v[..8] + v[8..];
  }

  /** What is stored of a struct stays within its size exactly if that is at least eight: RAX is stored whole. */
  lemma {:induction false} StoresWithinIff(t: Desc, r: Regs)
    requires t.kind == StructType
    ensures StoredResult(t, ClassifyReturn(t), r).Stored?
    ensures |StoredResult(t, ClassifyReturn(t), r).bytes| <= t.size <==> t.size >= 8
  {
    if t.size <= 16 { SmallFlags(t); }
    hide EightbyteIsSSE, HasFlag, ClassifyReturn;
  }

  /** The same for the buffer: after classification and handleReturn it starts with the struct and
      is otherwise untouched. */
  method ReturnStruct(t: Desc, ghost v: seq<Byte>, rvalue: array<Byte>, r: Regs) returns (err: ReturnError)
    requires NaturalFlat(t) && 8 < t.size <= 16 && |v| == t.size <= rvalue.Length && CalleeReturns(t, v, r)
    modifies rvalue
    ensures err == NoError && rvalue[..] == v + old(rvalue[t.size..])
  {
    ReturnReconstructs(t, v, r);
    hide StoredResult, CalleeReturns, ClassifyReturn;
    err := HandleReturn(t, ClassifyReturn(t), rvalue, r);
  }

  /** Small structs are always taken from RAX, so they come back right exactly when their one
      eightbyte is not SSE. */
  lemma {:induction false} SmallStructIff(t: Desc, v: seq<Byte>)
    requires NaturalFlat(t) && 0 < t.size <= 8 && |v| == t.size
    ensures (forall r: Regs :: CalleeReturns(t, v, r) ==> Bytes(r.rax)[..t.size] == v) <==> !AbiIsSSE(t, 0, t.size)
    ensures forall r: Regs :: StoredResult(t, ClassifyReturn(t), r) == Stored(Bytes(r.rax))
  {
    SmallFlags(t);
    hide AbiIsSSE, ClassifyReturn;
    if AbiIsSSE(t, 0, t.size) {
      var good := Load(v);
      var bad := Load([if v[0] == 0 then 1 else 0]);
      assert CalleeReturns(t, v, Regs(bad, ZERO, good, ZERO));
      assert Bytes(bad)[0] != v[0];
      assert Bytes(bad)[..t.size][0] == Bytes(bad)[0];
      assert !(Bytes(Regs(bad, ZERO, good, ZERO).rax)[..t.size] == v);
    }
  }

  /* ---- scalars and large structs ---- */

  /** A callee returning a scalar v: floats and doubles in XMM0, integers and pointers in RAX, in the low
      bytes, whatever is above them. */
  predicate CalleeReturnsScalar(k: Kind, v: seq<Byte>, r: Regs)
    requires FixedWidth(k)
  {
    |v| == Width(k)
    && if k == FloatType || k == DoubleType then Bytes(r.xmm0)[..|v|] == v else Bytes(r.rax)[..|v|] == v
  }

  lemma {:induction false} ScalarReconstructs(t: Desc, v: seq<Byte>, r: Regs)
    requires FixedWidth(t.kind) && t.size <= 8 && CalleeReturnsScalar(t.kind, v, r)
    ensures StoredResult(t, ClassifyReturn(t), r) == Stored(v)
  {
    hide Bytes, EightbyteIsSSE;
  }

  /** After classification and handleReturn the buffer starts with the scalar and is otherwise untouched. */
  method ReturnScalar(t: Desc, ghost v: seq<Byte>, rvalue: array<Byte>, r: Regs) returns (err: ReturnError)
    requires FixedWidth(t.kind) && t.size <= 8 && CalleeReturnsScalar(t.kind, v, r) && |v| <= rvalue.Length
    modifies rvalue
    ensures err == NoError && rvalue[..] == v + old(rvalue[|v|..])
  {
    ScalarReconstructs(t, v, r);
    hide StoredResult, CalleeReturnsScalar, ClassifyReturn;
    err := HandleReturn(t, ClassifyReturn(t), rvalue, r);
  }

  /** Only results of kind int cannot be stored. */
  lemma {:induction false} UnsupportedIff(t: Desc, r: Regs)
    ensures StoredResult(t, ClassifyReturn(t), r).Unsupported? <==> t.kind == IntType && t.size <= 8
  {
    if t.kind == StructType && t.size <= 16 { SmallFlags(t); }
    hide Bytes, EightbyteIsSSE;
  }

  /** The call passes a hidden pointer exactly for the structs whose result classification says so, and
      for exactly these handleReturn leaves the buffer to the callee. */
  lemma {:induction false} HiddenPointerIff(t: Desc)
    requires t.kind == StructType
    ensures A.ViaHiddenPointer(t) <==> HasFlag(ClassifyReturn(t), RETURN_VIA_POINTER)
    ensures A.ViaHiddenPointer(t) <==> forall r: Regs :: StoredResult(t, ClassifyReturn(t), r) == Stored([])
    ensures A.ViaHiddenPointer(t) <==> t.size > 16
  {
    hide Bytes, EightbyteIsSSE;
    if t.size <= 16 {
      SmallFlags(t);
      assert |StoredResult(t, ClassifyReturn(t), Regs(ZERO, ZERO, ZERO, ZERO)).bytes| >= 8;
    }
  }

  /* ---- the classes of arguments ---- */

  /** An argument's words have the classes the ABI gives their eightbytes. */
  lemma {:induction false} ArgumentClassIsAbi(t: Desc, k: nat)
    requires NaturalFlat(t) && P.Consistent(t) && t.size <= 16 && k < S.WordCount(t)
    ensures S.WordClass(t, k) != MEMORY
    ensures S.WordClass(t, k) == SSE <==> AbiIsSSE(t, 8 * k, P.EightbyteEnd(t, k))
  {
    ClassifiesAsAbi(t, 8 * k, P.EightbyteEnd(t, k));
    hide EightbyteIsSSE, AbiIsSSE, NaturalFlat, P.Consistent, AllFloats;
    if t.size <= 8 { P.OneEightbyte(t); }
  }
}
