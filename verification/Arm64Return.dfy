/** The arm64 return direction: result flags, and the result registers turned back into memory. */
module Arm64Return {
  import opened Bits
  import opened Words
  import opened Types
  import opened Arm64Pack
  import opened Arm64Hfa

  function HfaFlag(n: nat): nat {
    if n == 2 then RETURN_HFA2 else if n == 3 then RETURN_HFA3 else if n == 4 then RETURN_HFA4 else 0
  }

  /** Result flags by descriptor: HFAs by element count and kind, other structs by size. */
  function ReturnFlags(t: Desc): nat {
    if t.kind == VoidType then RETURN_VOID
    else if t.kind == FloatType then RETURN_IN_XMM32
    else if t.kind == DoubleType then RETURN_IN_XMM64
    else if IsHfa(t) && |ShapesOf(t)| > 0 then
      HfaFlag(|ShapesOf(t)|) + (if ShapesOf(t)[0].kind == FloatType then RETURN_IN_XMM32 else RETURN_IN_XMM64)
    else if t.size <= (if t.kind == StructType then 16 else 8) then RETURN_INT64
    else RETURN_VIA_POINTER
  }

  /** The flag and the element bits do not meet, so or-ing adds them. */
  lemma {:induction false} OrFlags()
    ensures BitOr(RETURN_HFA2, RETURN_IN_XMM32) == RETURN_HFA2 + RETURN_IN_XMM32
    ensures BitOr(RETURN_HFA2, RETURN_IN_XMM64) == RETURN_HFA2 + RETURN_IN_XMM64
    ensures BitOr(RETURN_HFA3, RETURN_IN_XMM32) == RETURN_HFA3 + RETURN_IN_XMM32
    ensures BitOr(RETURN_HFA3, RETURN_IN_XMM64) == RETURN_HFA3 + RETURN_IN_XMM64
    ensures BitOr(RETURN_HFA4, RETURN_IN_XMM32) == RETURN_HFA4 + RETURN_IN_XMM32
    ensures BitOr(RETURN_HFA4, RETURN_IN_XMM64) == RETURN_HFA4 + RETURN_IN_XMM64
  {
    hide BitOr;
    OrSmall(128, 8); OrSmall(128, 9); OrSmall(256, 8); OrSmall(256, 9); OrSmall(512, 8); OrSmall(512, 9);
  }

  lemma {:induction false} OrSmall(h: nat, l: nat)
    requires l < 16
    ensures BitOr(16 * h, l) == 16 * h + l
  {
    hide BitOr;
    OrHalf(8 * h, l / 2, l % 2);
    OrHalf(4 * h, l / 4, (l / 2) % 2);
    OrHalf(2 * h, l / 8, (l / 4) % 2);
    OrHalf(h, 0, l / 8);
    OrZero(h);
  }

  lemma {:induction false} OrHalf(x: nat, y: nat, d: nat)
    requires d < 2
    ensures BitOr(2 * x, 2 * y + d) == 2 * BitOr(x, y) + d
  {
    assert (2 * x) / 2 == x && (2 * y + d) / 2 == y;
  }

  lemma {:induction false} OrZero(x: nat)
    ensures BitOr(x, 0) == x
  {
  }

  /** classifyReturnARM64 on a descriptor whose layout is filled in. */
  method ClassifyReturn(t: Desc) returns (flags: nat)
    ensures flags == ReturnFlags(t)
  {
    hide IsHfa, ShapesOf, BitOr;
    match t.kind
    case VoidType => return RETURN_VOID;
    case FloatType => return RETURN_IN_XMM32;
    case DoubleType => return RETURN_IN_XMM64;
    case StructType =>
      var isHfa, count, elemKind := IsHomogeneousFloatAggregate(t);
      if isHfa && count <= 4 {
        var elemType := if elemKind == FloatType then RETURN_IN_XMM32 else RETURN_IN_XMM64;
        OrFlags();
        if count == 1 { return elemType; }
        if count == 2 { return BitOr(RETURN_HFA2, elemType); }
        if count == 3 { return BitOr(RETURN_HFA3, elemType); }
        if count == 4 { return BitOr(RETURN_HFA4, elemType); }
      }
      return if t.size <= 16 then RETURN_INT64 else RETURN_VIA_POINTER;
    case _ =>
      NotHfa(t);
      return if t.size <= 8 then RETURN_INT64 else RETURN_VIA_POINTER;
  }

  lemma {:induction false} NotHfa(t: Desc)
    requires t.kind != StructType
    ensures !IsHfa(t)
  {
  }

  /* ---- storing ---- */

  datatype Stored = Unsupported | Stored(bytes: seq<Byte>)

  /** The low w bytes of the first n floating-point result registers. */
  function HfaBytes(fret: seq<Word>, n: nat, k: Kind): (bs: seq<Byte>)
    requires n <= |fret| && IsFloat(k)
    ensures |bs| == Span(k, n)
  {
    if n == 0 then [] else HfaBytes(fret, n - 1, k) + Bytes(fret[n - 1])[..Width(k)]
  }

  predicate HasHfaFlag(flags: nat) {
    HasFlag(flags, RETURN_HFA2) || HasFlag(flags, RETURN_HFA3) || HasFlag(flags, RETURN_HFA4)
  }

  function HfaCount(flags: nat): (n: nat)
    ensures n <= 4
  {
    if HasFlag(flags, RETURN_HFA4) then 4
    else if HasFlag(flags, RETURN_HFA3) then 3
    else if HasFlag(flags, RETURN_HFA2) then 2
    else 1
  }

  function ElemKind(t: Desc): (k: Kind)
    ensures IsFloat(k)
  {
    if IsHfa(t) && |ShapesOf(t)| > 0 then ShapesOf(t)[0].kind else DoubleType
  }

  /** What handleReturn stores at the start of the result buffer. */
  function StoredResult(t: Desc, flags: nat, lo: Word, hi: Word, fret: seq<Word>): Stored
    requires |fret| == 4
  {
    if t.kind == VoidType || HasFlag(flags, RETURN_VIA_POINTER) then Stored([])
    else if HasHfaFlag(flags) then Stored(HfaBytes(fret, HfaCount(flags), ElemKind(t)))
    else if t.kind == StructType then
      if t.size <= 8 then Stored(Bytes(lo))
      else if t.size <= 16 then Stored(Bytes(lo) + Bytes(hi)[..t.size - 8])
      else Unsupported
    else if FixedWidth(t.kind) then Stored(Bytes(if IsFloat(t.kind) then fret[0] else lo)[..Width(t.kind)])
    else Unsupported
  }

  method StoreBytes(rvalue: array<Byte>, off: nat, w: Word, n: nat)
    requires n <= 8 && off + n <= rvalue.Length
    modifies rvalue
    ensures forall k :: 0 <= k < rvalue.Length ==>
              rvalue[k] == if off <= k < off + n then Bytes(w)[k - off] else old(rvalue[k])
  {
    hide Bytes;
    forall k | 0 <= k < n {
      rvalue[off + k] := Bytes(w)[k];
    }
  }

  /** The idx-th element at its multiple of the element size. */
  method StoreElement(rvalue: array<Byte>, k: Kind, fret: seq<Word>, idx: nat, ghost before: seq<Byte>)
    requires IsFloat(k) && idx < |fret| && |before| == rvalue.Length && Span(k, idx + 1) <= rvalue.Length
    requires rvalue[..] == HfaBytes(fret, idx, k) + before[Span(k, idx)..]
    modifies rvalue
    ensures rvalue[..] == HfaBytes(fret, idx + 1, k) + before[Span(k, idx + 1)..]
  {
    hide Bytes;
    StoreBytes(rvalue, Span(k, idx), fret[idx], if k == FloatType then 4 else 8);
  }

  /** handleHFAReturn: one element after the other. */
  method HandleHfaReturn(t: Desc, flags: nat, rvalue: array<Byte>, fret: seq<Word>)
    requires |fret| == 4 && Span(ElemKind(t), HfaCount(flags)) <= rvalue.Length
    modifies rvalue
    ensures rvalue[..] ==
            HfaBytes(fret, HfaCount(flags), ElemKind(t)) + old(rvalue[Span(ElemKind(t), HfaCount(flags))..])
  {
    hide HfaBytes, HfaCount, ElemKind, Span, Bytes;
    ghost var before := rvalue[..];
    var hfaCount := HfaCount(flags);
    var elemKind := FindElemKind(t);
    NoElements(fret, before, elemKind);
    var idx := 0;
    while idx < hfaCount
      invariant 0 <= idx <= hfaCount && Span(elemKind, idx) <= |before|
      invariant rvalue[..] == HfaBytes(fret, idx, elemKind) + before[Span(elemKind, idx)..]
    {
      SpanGrows(elemKind, idx + 1, hfaCount);
      StoreElement(rvalue, elemKind, fret, idx, before);
      idx := idx + 1;
    }
  }

  lemma {:induction false} NoElements(fret: seq<Word>, before: seq<Byte>, k: Kind)
    requires IsFloat(k)
    ensures Span(k, 0) == 0 && before == HfaBytes(fret, 0, k) + before[0..]
  {
  }

  lemma {:induction false} SpanGrows(k: Kind, m: nat, n: nat)
    requires m <= n
    ensures Span(k, m) <= Span(k, n)
  {
  }

  /** The element kind is read off the descriptor, double by default. */
  method FindElemKind(t: Desc) returns (elemKind: Kind)
    ensures elemKind == ElemKind(t)
  {
    hide IsHfa, ShapesOf;
    elemKind := DoubleType;
    if t.kind == StructType {
      var isHfa, count, kind := IsHomogeneousFloatAggregate(t);
      if isHfa { elemKind := kind; }
    } else {
      NotHfa(t);
    }
  }

  /** X0 and X1 into a 9 to 16 byte buffer. */
  method StorePair(rvalue: array<Byte>, size: nat, lo: Word, hi: Word)
    requires 8 < size <= 16 && size <= rvalue.Length
    modifies rvalue
    ensures rvalue[..] == Bytes(lo) + Bytes(hi)[..size - 8] + old(rvalue[size..])
  {
    hide Bytes;
    StoreBytes(rvalue, 0, lo, 8);
    StoreBytes(rvalue, 8, hi, size - 8);
  }

  /** handleReturn. A nil buffer discards the result. */
  method HandleReturn(t: Desc, flags: nat, rvalue: array?<Byte>, lo: Word, hi: Word, fret: seq<Word>)
    returns (err: ReturnError)
    requires |fret| == 4
    requires rvalue != null ==> var s := StoredResult(t, flags, lo, hi, fret); s.Stored? ==> |s.bytes| <= rvalue.Length
    modifies if rvalue == null then {} else {rvalue}
    ensures rvalue == null ==> err == NoError
    ensures rvalue != null ==>
              match StoredResult(t, flags, lo, hi, fret)
              case Unsupported => err == ErrUnsupportedReturnType && rvalue[..] == old(rvalue[..])
              case Stored(bytes) => err == NoError && |bytes| <= rvalue.Length
                                    && rvalue[..] == bytes + old(rvalue[|bytes|..])
  {
    hide Bytes, HasFlag, HasHfaFlag, ElemKind, HfaBytes, HfaCount, Span;
    err := NoError;
    if rvalue == null || t.kind == VoidType || HasFlag(flags, RETURN_VIA_POINTER) {
      return;
    }
    if HasHfaFlag(flags) {
      HandleHfaReturn(t, flags, rvalue, fret);
    } else if t.kind == StructType {
      if t.size <= 8 {
        StoreBytes(rvalue, 0, lo, 8);
      } else if t.size <= 16 {
        StorePair(rvalue, t.size, lo, hi);
      } else {
        err := ErrUnsupportedReturnType;
      }
    } else if FixedWidth(t.kind) {
      StoreBytes(rvalue, 0, if IsFloat(t.kind) then fret[0] else lo, Width(t.kind));
    } else {
      err := ErrUnsupportedReturnType;
    }
  }

  /* ---- HFA returns, AAPCS64 section 6.9 ---- */

  lemma {:induction false} HfaFlags(t: Desc)
    requires IsHfa(t) && 2 <= |ShapesOf(t)|
    ensures |ShapesOf(t)| <= 4 && HasHfaFlag(ReturnFlags(t)) && HfaCount(ReturnFlags(t)) == |ShapesOf(t)|
    ensures !HasFlag(ReturnFlags(t), RETURN_VIA_POINTER)
  {
    hide ShapesOf;
    var n := |ShapesOf(t)|;
    if n == 2 {} else if n == 3 {} else {}
  }

  lemma {:induction false} HfaInMemory(t: Desc, mem: seq<Byte>, ptr: nat, k: Kind)
    requires LaidOut(t) && NoEmptyStruct(t) && IsFloat(k) && AllOfKind(ShapesOf(t), k)
    requires ptr + Span(k, |ShapesOf(t)|) <= |mem|
    ensures InMemory(t, mem, ptr)
    decreases t, 0
  {
    if t.kind == StructType {
      HfaMembersIn(t.members, mem, ptr, |t.members|, k);
    } else {
      assert ShapesOf(t)[0].kind == k;
    }
  }

  lemma {:induction false} HfaMembersIn(ms: seq<Desc>, mem: seq<Byte>, ptr: nat, n: nat, k: Kind)
    requires n <= |ms| && IsFloat(k) && AllOfKind(ShapesOfAll(ms, n), k)
    requires forall j :: 0 <= j < |ms| ==> LaidOut(ms[j]) && NoEmptyStruct(ms[j])
    requires ptr + Span(k, |ShapesOfAll(ms, n)|) <= |mem|
    ensures MembersIn(ms, mem, ptr, n)
    decreases ms, n
  {
    hide OffsetAt, LaidOut, NoEmptyStruct, InMemory, MembersIn, AllOfKind, ShapesOf, ShapesOfAll, Span;
    NoShapes(ms, mem, ptr);
    if n != 0 {
      ShapesOfAllStep(ms, n);
      MembersInStep(ms, mem, ptr, n);
      SpanAdds(k, |ShapesOfAll(ms, n - 1)|, |ShapesOf(ms[n - 1])|);
      KindParts(ShapesOfAll(ms, n - 1), ShapesOf(ms[n - 1]), k);
      HfaMembersIn(ms, mem, ptr, n - 1, k);
      OneKindEnd(ms, n, k);
      HfaInMemory(ms[n - 1], mem, ptr + OffsetAt(ms, n - 1), k);
    }
  }

  /** A callee returning v: each leaf, in order, in the low bytes of its own D register. */
  ghost predicate CalleeReturns(t: Desc, v: seq<Byte>, fret: seq<Word>)
    requires |fret| == 4
  {
    InMemory(t, v, 0) ==> forall i :: 0 <= i < |LeavesOf(t, v, 0)| && i < 4 ==>
      var bytes := LeavesOf(t, v, 0)[i].bytes; |bytes| <= 8 && Bytes(fret[i])[..|bytes|] == bytes
  }

  lemma {:induction false} HfaIsOfKind(t: Desc)
    requires IsHfa(t) && LaidOut(t)
    ensures 1 <= |ShapesOf(t)| <= 4 && IsFloat(ElemKind(t)) && ElemKind(t) == ShapesOf(t)[0].kind
    ensures AllOfKind(ShapesOf(t), ElemKind(t)) && t.size == Span(ElemKind(t), |ShapesOf(t)|)
  {
    NotEmptyHasLeaves(t);
    var k := ElemKind(t);
    assert AllOfKind(ShapesOf(t), k);
    OneKindSize(t, k);
  }

  lemma {:induction false} LeavesAre(t: Desc, v: seq<Byte>)
    requires LaidOut(t) && InMemory(t, v, 0)
    ensures |LeavesOf(t, v, 0)| == |ShapesOf(t)|
  {
    hide LaidOut, Natural, Supported, ShapesOf, LeavesOf, InMemory, Shapes;
    LaidOutIsNatural(t);
    NaturalWalk(t);
    ShapesOfLeaves(t, v, 0);
    ShapesLength(LeavesOf(t, v, 0));
  }

  lemma {:induction false} HfaBytesAre(t: Desc, v: seq<Byte>, fret: seq<Word>, n: nat)
    requires IsHfa(t) && LaidOut(t) && |v| == t.size && |fret| == 4
    requires InMemory(t, v, 0) && CalleeReturns(t, v, fret) && n <= |ShapesOf(t)| <= 4
    ensures Span(ElemKind(t), n) <= |v| && HfaBytes(fret, n, ElemKind(t)) == v[..Span(ElemKind(t), n)]
    decreases n
  {
    hide LaidOut, IsHfa, ShapesOf, InMemory, Bytes, CalleeReturns, ElemKind, Span;
    HfaIsOfKind(t);
    if n == 0 {
      assert Span(ElemKind(t), 0) == 0 by { SpanOfNone(ElemKind(t)); }
    } else {
      HfaBytesAre(t, v, fret, n - 1);
      ElementIs(t, v, fret, n - 1);
      Split(v, Span(ElemKind(t), n - 1), Span(ElemKind(t), n));
    }
  }

  lemma {:induction false} SpanOfNone(k: Kind)
    ensures Span(k, 0) == 0
  {
  }

  lemma {:induction false} Split(v: seq<Byte>, a: nat, b: nat)
    requires a <= b <= |v|
    ensures v[..b] == v[..a] + v[a..b]
  {
  }

  lemma {:induction false} ElementIs(t: Desc, v: seq<Byte>, fret: seq<Word>, i: nat)
    requires IsHfa(t) && LaidOut(t) && |v| == t.size && |fret| == 4
    requires InMemory(t, v, 0) && CalleeReturns(t, v, fret) && i < |ShapesOf(t)| <= 4
    ensures Span(ElemKind(t), i) <= Span(ElemKind(t), i + 1) <= |v|
    ensures Bytes(fret[i])[..Width(ElemKind(t))] == v[Span(ElemKind(t), i)..Span(ElemKind(t), i + 1)]
  {
    hide LaidOut, IsHfa, ShapesOf, LeavesOf, InMemory, Bytes, ElemKind;
    HfaIsOfKind(t);
    LeavesAre(t, v);
    HfaNotEmpty(t);
    ElementBytes(t, v, 0, ElemKind(t), i);
  }

  lemma {:induction false} HfaNotEmpty(t: Desc)
    requires IsHfa(t)
    ensures NoEmptyStruct(t)
  {
  }

  /** Classification followed by handleReturn rebuilds every HFA of two to four elements, nested or
      not: the buffer starts with the struct's memory image and is otherwise untouched. */
  method ReturnHfa(t: Desc, ghost v: seq<Byte>, rvalue: array<Byte>, lo: Word, hi: Word, fret: seq<Word>)
    returns (err: ReturnError)
    requires IsHfa(t) && LaidOut(t) && 2 <= |ShapesOf(t)| && |v| == t.size <= rvalue.Length && |fret| == 4
    requires CalleeReturns(t, v, fret)
    modifies rvalue
    ensures err == NoError && rvalue[..] == v + old(rvalue[t.size..])
  {
    ReturnHfaStores(t, v, lo, hi, fret);
    hide IsHfa, LaidOut, ShapesOf, InMemory, StoredResult, CalleeReturns, ReturnFlags;
    var flags := ClassifyReturn(t);
    err := HandleReturn(t, flags, rvalue, lo, hi, fret);
  }

  lemma {:induction false} ReturnHfaStores(t: Desc, v: seq<Byte>, lo: Word, hi: Word, fret: seq<Word>)
    requires IsHfa(t) && LaidOut(t) && 2 <= |ShapesOf(t)| && |v| == t.size && |fret| == 4
    requires CalleeReturns(t, v, fret)
    ensures StoredResult(t, ReturnFlags(t), lo, hi, fret) == Stored(v)
  {
    hide LaidOut, ShapesOf, LeavesOf, InMemory, Bytes, ReturnFlags, ElemKind;
    hide HasFlag, CalleeReturns, HfaBytes, Homogeneous, NoEmptyStruct, HfaCount, HasHfaFlag;
    HfaFlags(t);
    HfaIsOfKind(t);
    HfaInMemory(t, v, 0, ElemKind(t));
    HfaBytesAre(t, v, fret, |ShapesOf(t)|);
    assert v[..|v|] == v;
  }

  /** A struct of a single float is taken from X0, whatever D0 holds. */
  lemma {:induction false} SingleElementComesFromX0(t: Desc, lo: Word, hi: Word, fret: seq<Word>)
    requires IsHfa(t) && LaidOut(t) && |ShapesOf(t)| == 1 && |fret| == 4
    ensures StoredResult(t, ReturnFlags(t), lo, hi, fret) == Stored(Bytes(lo))
  {
    hide LaidOut, ShapesOf, Bytes, Homogeneous, NoEmptyStruct, ElemKind;
    HfaIsOfKind(t);
  }

  /** What is stored of a struct stays within its size exactly if that is at least eight: X0 is stored whole. */
  lemma {:induction false} StoresWithinIff(t: Desc, lo: Word, hi: Word, fret: seq<Word>)
    requires t.kind == StructType && LaidOut(t) && |fret| == 4
    ensures StoredResult(t, ReturnFlags(t), lo, hi, fret).Stored?
    ensures |StoredResult(t, ReturnFlags(t), lo, hi, fret).bytes| <= t.size <==> t.size >= 8
  {
    hide LaidOut, ShapesOf, Bytes, Homogeneous, NoEmptyStruct, ElemKind;
    if IsHfa(t) {
      HfaIsOfKind(t);
      if |ShapesOf(t)| >= 2 { HfaFlags(t); }
    }
  }

  /* ---- all other results, AAPCS64 section 6.9 ---- */

  /** A callee returning v, which is no HFA: floats and doubles in D0, everything else up to 16 bytes in X0
      and X1, in the low bytes, whatever is above them. */
  predicate CalleeReturnsInX(t: Desc, v: seq<Byte>, lo: Word, hi: Word, d0: Word) {
    if t.kind == FloatType || t.kind == DoubleType then |v| <= 8 && Bytes(d0)[..|v|] == v
    else if |v| <= 8 then Bytes(lo)[..|v|] == v
    else |v| <= 16 && Bytes(lo) == v[..8] && Bytes(hi)[..|v| - 8] == v[8..]
  }

  /** The bytes a result of type t has. */
  function ResultSize(t: Desc): nat
    requires t.kind == StructType || FixedWidth(t.kind)
  {
    if t.kind == StructType then t.size else Width(t.kind)
  }

  /** What is stored of a scalar, or of a struct of 8 to 16 bytes that is no HFA, is the callee's value. */
  lemma {:induction false} RegistersReconstruct(t: Desc, v: seq<Byte>, lo: Word, hi: Word, fret: seq<Word>)
    requires !IsHfa(t) && |fret| == 4 && CalleeReturnsInX(t, v, lo, hi, fret[0])
    requires if t.kind == StructType then 8 <= t.size <= 16 else FixedWidth(t.kind) && t.size <= 8
    requires |v| == ResultSize(t)
    ensures StoredResult(t, ReturnFlags(t), lo, hi, fret) == Stored(v)
  {
    hide Bytes, IsHfa, ShapesOf, HfaBytes, HfaCount, ElemKind;
    if |v| > 8 { assert v == v[..8] + v[8..]; }
  }

  /** The same for the buffer: it starts with the value and is otherwise untouched. */
  method ReturnInRegisters(t: Desc, ghost v: seq<Byte>, rvalue: array<Byte>, lo: Word, hi: Word, fret: seq<Word>)
    returns (err: ReturnError)
    requires !IsHfa(t) && |fret| == 4 && CalleeReturnsInX(t, v, lo, hi, fret[0])
    requires if t.kind == StructType then 8 <= t.size <= 16 else FixedWidth(t.kind) && t.size <= 8
    requires |v| == ResultSize(t) <= rvalue.Length
    modifies rvalue
    ensures err == NoError && rvalue[..] == v + old(rvalue[|v|..])
  {
    RegistersReconstruct(t, v, lo, hi, fret);
    hide IsHfa, ShapesOf, StoredResult, CalleeReturnsInX, ReturnFlags;
    var flags := ClassifyReturn(t);
    err := HandleReturn(t, flags, rvalue, lo, hi, fret);
  }

  /** A smaller struct comes back too, with whatever is left of X0 behind it. */
  lemma {:induction false} SmallStructPrefix(t: Desc, v: seq<Byte>, lo: Word, hi: Word, fret: seq<Word>)
    requires !IsHfa(t) && |fret| == 4 && t.kind == StructType && t.size < 8
    requires |v| == t.size && CalleeReturnsInX(t, v, lo, hi, fret[0])
    ensures StoredResult(t, ReturnFlags(t), lo, hi, fret) == Stored(v + Bytes(lo)[t.size..])
  {
    hide IsHfa, ShapesOf, HfaBytes, HfaCount, ElemKind, Bytes;
    assert Bytes(lo) == Bytes(lo)[..t.size] + Bytes(lo)[t.size..];
  }

  lemma {:induction false} HfaStores(t: Desc, lo: Word, hi: Word, fret: seq<Word>)
    requires IsHfa(t) && |fret| == 4
    ensures !HasFlag(ReturnFlags(t), RETURN_VIA_POINTER)
    ensures StoredResult(t, ReturnFlags(t), lo, hi, fret) != Stored([])
  {
    hide ShapesOf, Bytes, HfaBytes, ElemKind, NoEmptyStruct;
    NotEmptyHasLeaves(t);
    if |ShapesOf(t)| >= 2 {
      HfaFlags(t);
      assert |HfaBytes(fret, |ShapesOf(t)|, ElemKind(t))| > 0;
    }
  }

  /** Nothing is stored exactly of a void result and of what the callee has written through X8: structs above
      16 bytes that are no HFA, and scalars that claim more than eight. */
  lemma {:induction false} LeftToCalleeIff(t: Desc, lo: Word, hi: Word, fret: seq<Word>)
    requires |fret| == 4
    ensures StoredResult(t, ReturnFlags(t), lo, hi, fret) == Stored([]) <==>
            || t.kind == VoidType
            || (t.kind == StructType && t.size > 16 && !IsHfa(t))
            || (t.kind != StructType && !IsFloat(t.kind) && t.size > 8)
    ensures t.kind != VoidType ==>
              (HasFlag(ReturnFlags(t), RETURN_VIA_POINTER) <==>
               StoredResult(t, ReturnFlags(t), lo, hi, fret) == Stored([]))
  {
    hide ShapesOf, Bytes;
    if IsHfa(t) {
      HfaStores(t, lo, hi, fret);
    }
  }

  /** A large struct that is no HFA stays as the callee wrote it. */
  method ReturnThroughPointer(t: Desc, rvalue: array<Byte>, lo: Word, hi: Word, fret: seq<Word>)
    returns (err: ReturnError)
    requires !IsHfa(t) && t.kind == StructType && t.size > 16 && |fret| == 4
    modifies rvalue
    ensures err == NoError && rvalue[..] == old(rvalue[..])
  {
    LeftToCalleeIff(t, lo, hi, fret);
    hide IsHfa, ShapesOf, StoredResult, ReturnFlags;
    var flags := ClassifyReturn(t);
    err := HandleReturn(t, flags, rvalue, lo, hi, fret);
    assert [] + old(rvalue[0..]) == old(rvalue[..]);
  }

  /** Only results of kind int cannot be stored. */
  lemma {:induction false} UnsupportedIff(t: Desc, lo: Word, hi: Word, fret: seq<Word>)
    requires |fret| == 4 && (t.kind == StructType ==> LaidOut(t))
    ensures StoredResult(t, ReturnFlags(t), lo, hi, fret).Unsupported? <==> t.kind == IntType && t.size <= 8
  {
    hide ShapesOf, Bytes, LaidOut, HfaBytes, ElemKind;
    if t.kind == StructType { StoresWithinIff(t, lo, hi, fret); } else { NotHfa(t); }
  }
}
