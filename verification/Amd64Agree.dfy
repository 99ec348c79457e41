/** Descriptors on the call side against reflected types on the callback side, one argument at a time. */
module Amd64Agree {
  import opened Bits
  import opened Words
  import opened Types
  import opened Placement
  import K = Amd64Classify
  import C = Amd64Args
  import B = Amd64Callback

  function EndBefore(fs: seq<B.RField>, i: nat): nat
    requires i <= |fs|
  {
    if i == 0 then 0 else fs[i - 1].offset + fs[i - 1].typ.size
  }

  /** The Go compiler's field offsets: each is the least aligned one after its predecessor. */
  predicate LaidOut(fs: seq<B.RField>) {
    forall i :: 0 <= i < |fs| ==>
      && fs[i].typ.align >= 1
      && fs[i].offset == AlignUp(EndBefore(fs, i), fs[i].typ.align)
  }

  /** A descriptor and a reflected type describe the same C type. */
  ghost predicate Corresponds(t: Desc, r: B.RType)
    decreases t
  {
    && t.size == r.size && t.alignment == r.align && IsPow2(r.align)
    && if r.kind == B.RStruct then
         && t.kind == StructType && |t.members| == |r.fields| && LaidOut(r.fields)
         && forall i :: 0 <= i < |t.members| ==> Corresponds(t.members[i], r.fields[i].typ)
       else
         && FixedWidth(t.kind) && t.size == Width(t.kind)
         && match r.kind
            case RFloat32 => t.kind == FloatType
            case RFloat64 => t.kind == DoubleType
            case RBool => t.kind == UInt8Type || t.kind == SInt8Type
            case RPointer => t.kind == PointerType
            case RInteger => !IsFloat(t.kind)
  }

  lemma {:induction false} MemberCorresponds(t: Desc, r: B.RType, i: nat)
    requires Corresponds(t, r) && r.kind == B.RStruct && i < |t.members|
    ensures |t.members| == |r.fields| && Corresponds(t.members[i], r.fields[i].typ)
    ensures var m, f := t.members[i], r.fields[i];
            && m.size == f.typ.size && m.alignment == f.typ.align && IsPow2(m.alignment) && m.alignment >= 1
            && f.offset == AlignUp(EndBefore(r.fields, i), f.typ.align)
  {
    StructCorresponds(t, r, i);
    hide AlignUp, IsPow2, Corresponds, LaidOut;
    CorrespondsSized(t.members[i], r.fields[i].typ);
    FieldLaidOut(r.fields, i);
  }

  lemma {:induction false} StructCorresponds(t: Desc, r: B.RType, i: nat)
    requires Corresponds(t, r) && r.kind == B.RStruct && i < |t.members|
    ensures |t.members| == |r.fields| && LaidOut(r.fields) && Corresponds(t.members[i], r.fields[i].typ)
  {
    hide LaidOut, IsPow2;
  }

  lemma {:induction false} FieldLaidOut(fs: seq<B.RField>, i: nat)
    requires LaidOut(fs) && i < |fs|
    ensures fs[i].typ.align >= 1
    ensures fs[i].offset == AlignUp(EndBefore(fs, i), fs[i].typ.align)
  {
    hide AlignUp;
  }

  lemma {:induction false} CorrespondsSized(t: Desc, r: B.RType)
    requires Corresponds(t, r)
    ensures t.size == r.size && t.alignment == r.align && IsPow2(r.align)
  {
  }

  /** The offsets the call side recomputes from alignments are the compiler's. */
  lemma {:induction false} OffsetsAgree(t: Desc, r: B.RType, i: nat)
    requires Corresponds(t, r) && r.kind == B.RStruct && i < |t.members|
    ensures |t.members| == |r.fields| && Offsets(t.members)[i] == r.fields[i].offset
  {
    hide Corresponds, AlignMask, AlignUp, IsPow2, OffsetsFrom;
    MemberCorresponds(t, r, i);
    OffsetStep(t.members, 0, i);
    if i != 0 {
      MemberCorresponds(t, r, i - 1);
      OffsetsAgree(t, r, i - 1);
    }
    AlignMaskIsAlignUp(EndBefore(r.fields, i), t.members[i].alignment);
  }

  lemma {:induction false} MemberFloats(t: Desc, r: B.RType, i: nat)
    requires Corresponds(t, r) && r.kind == B.RStruct && i < |t.members|
    ensures IsFloat(t.members[i].kind) == B.IsRFloat(r.fields[i].typ.kind)
    ensures (t.members[i].kind == StructType) == (r.fields[i].typ.kind == B.RStruct)
  {
    assert Corresponds(t.members[i], r.fields[i].typ);
  }

  /** Both sides classify every range of offsets alike, nested members included. */
  lemma {:induction false} EightbytesAgree(t: Desc, r: B.RType, lo: nat, hi: nat)
    requires Corresponds(t, r) && r.kind == B.RStruct
    ensures K.EightbyteIsSSE(t, lo, hi) == B.EightbyteIsSSE(r, lo, hi)
  {
    var os := Offsets(t.members);
    forall i | 0 <= i < |t.members|
      ensures os[i] == r.fields[i].offset
      ensures IsFloat(t.members[i].kind) == B.IsRFloat(r.fields[i].typ.kind)
    {
      OffsetsAgree(t, r, i);
      MemberFloats(t, r, i);
    }
  }

  /** The structs the two sides disagree about: at most eight bytes of nothing but floats, some of
      them inside a nested struct. The call side looks at direct members only. */
  predicate Confused(r: B.RType) {
    && r.kind == B.RStruct && 0 < r.size <= 8 && B.AllFloats(r)
    && exists i :: 0 <= i < |r.fields| && r.fields[i].typ.kind == B.RStruct
  }

  /** The two sides assign the same classes to a type exactly when it is not confused. */
  lemma {:induction false} ClassesAgreeIff(t: Desc, r: B.RType)
    requires Corresponds(t, r)
    ensures K.ClassesOf(t) == B.ClassesOf(r) <==> !Confused(r)
  {
    if r.kind == B.RStruct {
      forall i | 0 <= i < |t.members|
        ensures IsFloat(t.members[i].kind) == B.IsRFloat(r.fields[i].typ.kind)
        ensures (t.members[i].kind == StructType) == (r.fields[i].typ.kind == B.RStruct)
      {
        MemberFloats(t, r, i);
      }
      if 0 < r.size <= 8 {
        AllFloatsAgree(t, r);
        assert K.ClassesOf(t)[0] == K.EightbyteClass(K.AllFloats(t));
        assert B.ClassesOf(r)[0] == B.ClassIf(B.AllFloats(r));
        assert !Confused(r) ==> K.ClassesOf(t) == B.ClassesOf(r);
      } else {
        EightbytesAgree(t, r, 0, 8);
        EightbytesAgree(t, r, 8, r.size);
        assert K.ClassesOf(t) == B.ClassesOf(r);
      }
    } else {
      assert K.ClassesOf(t) == B.ClassesOf(r);
    }
  }

  lemma {:induction false} AllFloatsAgree(t: Desc, r: B.RType)
    requires Corresponds(t, r) && r.kind == B.RStruct
    ensures K.AllFloats(t) <==> B.AllFloats(r) && forall i :: 0 <= i < |r.fields| ==> r.fields[i].typ.kind != B.RStruct
  {
    forall i | 0 <= i < |t.members|
      ensures IsFloat(t.members[i].kind) == B.IsRFloat(r.fields[i].typ.kind)
    {
      MemberFloats(t, r, i);
    }
  }

  /** The argument's memory holds a value of the type; a bool is 0 or 1. */
  predicate Given(r: B.RType, a: Arg) {
    |a.mem| >= r.size && (r.kind == B.RBool ==> r.size >= 1 && a.mem[0] <= 1)
  }

  /** Joining the words of consecutive eightbyte loads gives back the bytes they were loaded from. */
  lemma {:induction false} FlattenLoads(ws: seq<Word>, mem: seq<Byte>, size: nat)
    requires size <= |mem| && size <= 8 * |ws|
    requires forall k :: 0 <= k < |ws| && 8 * k < size ==>
               Bytes(ws[k])[..(if size - 8 * k < 8 then size - 8 * k else 8)]
               == mem[8 * k..8 * k + (if size - 8 * k < 8 then size - 8 * k else 8)]
    ensures B.Flatten(ws)[..size] == mem[..size]
  {
    hide Bytes;
    if size == 0 {
    } else {
      var n := |ws| - 1;
      var m := if size <= 8 * n then size else 8 * n;
      FlattenLoads(ws[..n], mem, m);
      if size > 8 * n {
        var all, last := B.Flatten(ws[..n]), Bytes(ws[n]);
        assert (all + last)[..size] == all[..8 * n] + last[..size - 8 * n];
        assert mem[..size] == mem[..8 * n] + mem[8 * n..size];
      }
    }
  }

  lemma {:induction false} AssembleStruct(t: Desc, r: B.RType, a: Arg, narrow: Word -> seq<Byte>)
    requires t.kind == StructType && t.size == r.size && C.Readable(t, a) && Given(r, a) && r.kind == B.RStruct
    requires |C.ArgItems(t, a)| == |B.ClassesOf(r)|
    ensures B.Assemble(r, AllWords(C.ArgItems(t, a)), narrow) == a.mem[..r.size]
  {
    hide C.ArgItems, C.Readable, Bytes, B.ClassesOf;
    var ws := AllWords(C.ArgItems(t, a));
    B.StructWords(r);
    forall k | 0 <= k < |ws| && 8 * k < r.size
      ensures var n := if r.size - 8 * k < 8 then r.size - 8 * k else 8;
              Bytes(ws[k])[..n] == a.mem[8 * k..8 * k + n]
    {
      StructWord(t, a, k);
    }
    FlattenLoads(ws, a.mem, r.size);
  }

  /** A scalar's one word is the zero-extended load of its value. */
  lemma {:induction false} ScalarWord(t: Desc, r: B.RType, a: Arg)
    requires Corresponds(t, r) && C.Readable(t, a) && Given(r, a) && r.kind != B.RStruct
    ensures |C.ArgItems(t, a)| == |B.ClassesOf(r)| == 1 && r.size <= 8
    ensures C.ArgItems(t, a)[0].word == Load(a.mem[0..r.size])
  {
    var ps := K.Parts(t);
    assert ps[0] in ps;
  }

  lemma {:induction false} AssembleScalar(t: Desc, r: B.RType, a: Arg, narrow: Word -> seq<Byte>)
    requires Corresponds(t, r) && C.Readable(t, a) && Given(r, a) && r.kind != B.RStruct
    ensures |C.ArgItems(t, a)| == |B.ClassesOf(r)|
    ensures B.Assemble(r, AllWords(C.ArgItems(t, a)), narrow) ==
            if r.kind == B.RFloat32 then narrow(Load(a.mem[..r.size])) else a.mem[..r.size]
  {
    hide C.ArgItems, C.Readable, B.ClassesOf, Load, Bytes, Corresponds;
    ScalarWord(t, r, a);
    assert a.mem[0..r.size] == a.mem[..r.size];
    LoadPrefix(a.mem[..r.size], r.size);
    if r.kind == B.RBool {
      BoolWord(t, r, a.mem);
    }
  }

  lemma {:induction false} BoolWord(t: Desc, r: B.RType, mem: seq<Byte>)
    requires Corresponds(t, r) && r.kind == B.RBool && |mem| >= r.size && mem[0] <= 1
    ensures [if Load(mem[..r.size]) != ZERO then 1 else 0] == mem[..r.size]
  {
    var w := Load(mem[..r.size]);
    assert Bytes(w)[0] == mem[0];
    if mem[0] == 0 { assert w == ZERO; } else { assert w != ZERO; }
  }

  /** Reassembling an argument's own words gives back its value, except that a float32 is narrowed. */
  lemma {:induction false} AssembleOwnWords(t: Desc, r: B.RType, a: Arg, narrow: Word -> seq<Byte>)
    requires Corresponds(t, r) && C.Readable(t, a) && Given(r, a)
    ensures |C.ArgItems(t, a)| == |B.ClassesOf(r)|
    ensures B.Assemble(r, AllWords(C.ArgItems(t, a)), narrow) ==
            if r.kind == B.RFloat32 then narrow(Load(a.mem[..r.size])) else a.mem[..r.size]
  {
    hide C.ArgItems, C.Readable, K.Parts, K.ClassesOf, B.ClassesOf;
    if r.kind == B.RStruct {
      SameLength(t, r);
      AssembleStruct(t, r, a, narrow);
    } else {
      AssembleScalar(t, r, a, narrow);
    }
  }

  /** Both sides use as many words for a type, whatever they make of its classes. */
  lemma {:induction false} SameLength(t: Desc, r: B.RType)
    requires Corresponds(t, r) && r.kind == B.RStruct
    ensures |K.Parts(t)| == |B.ClassesOf(r)|
  {
    hide K.AllFloats, K.EightbyteIsSSE, B.AllFloats, B.EightbyteIsSSE;
  }

  /** The k-th word of a struct holds its k-th eightbyte. */
  lemma {:induction false} StructWord(t: Desc, a: Arg, k: nat)
    requires t.kind == StructType && C.Readable(t, a) && 8 * k < t.size <= |a.mem|
    ensures k < |C.ArgItems(t, a)|
    ensures var n := if t.size - 8 * k < 8 then t.size - 8 * k else 8;
            Bytes(C.ArgItems(t, a)[k].word)[..n] == a.mem[8 * k..8 * k + n]
  {
    hide K.Parts, Bytes, Load, C.ArgItems, C.Readable;
    PartAt(t, k);
    C.ItemAt(t, a, k);
    var p := K.Parts(t)[k];
    var n := if t.size - 8 * k < 8 then t.size - 8 * k else 8;
    LoadPrefix(a.mem[p.off..p.off + p.width], n);
    assert a.mem[p.off..p.off + p.width][..n] == a.mem[p.off..p.off + n];
  }

  /** The k-th part of a struct starts at its k-th eightbyte and covers what is left of it. */
  lemma {:induction false} PartAt(t: Desc, k: nat)
    requires t.kind == StructType && 8 * k < t.size
    ensures k < |K.Parts(t)|
    ensures var p := K.Parts(t)[k];
            p.Part? && p.off == 8 * k && p.width <= 8 && (if t.size - 8 * k < 8 then t.size - 8 * k else 8) <= p.width
  {
    hide K.AllFloats, K.EightbyteIsSSE;
  }

  lemma {:induction false} LoadPrefix(bs: seq<Byte>, n: nat)
    requires n <= |bs| <= 8
    ensures Bytes(Load(bs))[..n] == bs[..n]
  {
    hide Bytes, Load;
  }

  /** The one word of a confused struct is an INTEGER word to the call and an SSE word to the callback. */
  lemma {:induction false} ConfusedClasses(t: Desc, r: B.RType)
    requires Corresponds(t, r) && Confused(r)
    ensures r.kind == B.RStruct && 0 < r.size <= 8 && K.ClassesOf(t) == [INTEGER] && B.ClassesOf(r) == [SSE]
  {
    AllFloatsAgree(t, r);
    hide B.AllFloats;
    assert K.Parts(t) == [K.Part(INTEGER, 0, K.LoadWidth(t.size))];
  }
}
