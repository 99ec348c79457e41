/** The amd64 callback direction: the frame [XMM0-7][RDI..R9][stack] becomes Go values, driven by
    the callback's reflected signature rather than by descriptors. */
module Amd64Callback {
  import opened Words
  import opened Placement

  datatype RKind = RBool | RInteger | RFloat32 | RFloat64 | RPointer | RStruct

  /** A reflected type; a struct carries the field offsets the Go compiler chose. */
  datatype RType = RType(kind: RKind, size: nat, align: nat, fields: seq<RField>)
  datatype RField = RField(offset: nat, typ: RType)

  const GP_REGS: nat := 6
  /** The view callbackWrap takes of the saved registers and the caller's stack. */
  const FRAME_WORDS: nat := 128

  predicate IsRFloat(k: RKind) {
    k == RFloat32 || k == RFloat64
  }

  /** Every field of a non-empty struct is a float, through nested structs. */
  predicate AllFloats(t: RType) {
    t.fields != [] && forall i :: 0 <= i < |t.fields| ==>
      if t.fields[i].typ.kind == RStruct then AllFloats(t.fields[i].typ) else IsRFloat(t.fields[i].typ.kind)
  }

  predicate EightbyteIsSSE(t: RType, lo: nat, hi: nat) {
    && (exists i :: 0 <= i < |t.fields| && lo <= t.fields[i].offset < hi)
    && (forall i :: 0 <= i < |t.fields| && lo <= t.fields[i].offset < hi ==> IsRFloat(t.fields[i].typ.kind))
  }

  method ClassifyEightbyte(t: RType, startOff: nat, endOff: nat) returns (sse: bool)
    ensures sse == EightbyteIsSSE(t, startOff, endOff)
  {
    var allFloat, hasField, i := true, false, 0;
    while i < |t.fields|
      invariant 0 <= i <= |t.fields| && allFloat
      invariant hasField <==> exists j :: 0 <= j < i && startOff <= t.fields[j].offset < endOff
      invariant forall j :: 0 <= j < i && startOff <= t.fields[j].offset < endOff ==> IsRFloat(t.fields[j].typ.kind)
    {
      var field := t.fields[i];
      if startOff <= field.offset < endOff {
        hasField := true;
        if !IsRFloat(field.typ.kind) {
          allFloat := false;
          break;
        }
      }
      i := i + 1;
    }
    sse := hasField && allFloat;
  }

  function ClassIf(sse: bool): Class {
    if sse then SSE else INTEGER
  }

  /** The classes of the words a parameter of type t is read from. */
  function ClassesOf(t: RType): seq<Class> {
    if t.kind == RStruct then
      if t.size == 0 then []
      else if t.size <= 8 then [ClassIf(AllFloats(t))]
      else if t.size <= 16 then [ClassIf(EightbyteIsSSE(t, 0, 8)), ClassIf(EightbyteIsSSE(t, 8, t.size))]
      else seq((t.size + 7) / 8, _ => MEMORY)
    else [ClassIf(IsRFloat(t.kind))]
  }

  /** Where the cursors stand after the first n parameters. */
  function CursorAfterParams(ts: seq<RType>, n: nat): Cursor
    requires n <= |ts|
  {
    if n == 0 then START else AdvanceAll(CursorAfterParams(ts, n - 1), ClassesOf(ts[n - 1]), GP_REGS)
  }

  function At(f: seq<Word>, i: nat): Word {
    if i < |f| then f[i] else ZERO
  }

  /** The words of classes cs, fetched one after the other from cursor c on. */
  function Fetch(f: seq<Word>, c: Cursor, cs: seq<Class>): (ws: seq<Word>)
    ensures |ws| == |cs|
  {
    if cs == [] then []
    else
      var n := |cs| - 1;
      Fetch(f, c, cs[..n]) + [At(f, Slot(AdvanceAll(c, cs[..n], GP_REGS), cs[n], GP_REGS))]
  }

  /** The bytes of consecutive words. */
  function Flatten(ws: seq<Word>): (bs: seq<Byte>)
    ensures |bs| == 8 * |ws|
  {
    if ws == [] then [] else Flatten(ws[..|ws| - 1]) + Bytes(ws[|ws| - 1])
  }

  /** The first n elements, or all of them. */
  function Prefix(bs: seq<Byte>, n: nat): seq<Byte> {
    if n <= |bs| then bs[..n] else bs
  }

  /** The value of a parameter, from the words it was passed in. A float32 scalar goes through
      the float64 its word denotes; narrow is that conversion. */
  function Assemble(t: RType, ws: seq<Word>, narrow: Word -> seq<Byte>): seq<Byte>
    requires |ws| == |ClassesOf(t)|
  {
    if t.kind == RStruct then
      Prefix(Flatten(ws), t.size)
    else if t.kind == RBool then [if ws[0] != ZERO then 1 else 0]
    else if t.kind == RFloat32 then narrow(ws[0])
    else Bytes(ws[0])[..(if t.size <= 8 then t.size else 8)]
  }

  lemma {:induction false} StructWords(t: RType)
    requires t.kind == RStruct
    ensures |ClassesOf(t)| == (t.size + 7) / 8
    ensures t.size <= 8 * |ClassesOf(t)|
  {
  }

  /** The values of the first n parameters. */
  function Decode(ts: seq<RType>, n: nat, f: seq<Word>, narrow: Word -> seq<Byte>): (vs: seq<seq<Byte>>)
    requires n <= |ts|
    ensures |vs| == n
  {
    if n == 0 then []
    else
      var t := ts[n - 1];
      Decode(ts, n - 1, f, narrow) + [Assemble(t, Fetch(f, CursorAfterParams(ts, n - 1), ClassesOf(t)), narrow)]
  }

  /** The width writePartial stores for the last n bytes of a struct. */
  function PartialWidth(n: nat): nat {
    if n == 1 then 1 else if n == 2 then 2 else if n <= 4 then 4 else 8
  }

  /** The bytes of a size-byte struct that k words fill. */
  function Filled(k: nat, size: nat): nat {
    if 8 * k <= size then 8 * k else size
  }

  lemma {:induction false} OneClassOf(t: RType)
    requires t.kind == RStruct && 0 < t.size <= 8
    ensures ClassesOf(t) == [ClassIf(AllFloats(t))]
  {
    hide AllFloats;
  }

  class Reader {
    /** The saved registers and the caller's stack; callbackWrap only reads it. */
    const frame: seq<Word>
    var floatIdx: nat
    var intIdx: nat
    var stackIdx: nat
    var panicked: bool

    /** An index past the frame has panicked; the stack starts after the registers. */
    ghost predicate Valid()
      reads this
    {
      stackIdx >= FLOAT_REGS + GP_REGS && |frame| == FRAME_WORDS && (panicked <==> stackIdx > |frame|)
      && floatIdx <= FLOAT_REGS && intIdx <= GP_REGS
    }

    function Cur(): Cursor
      reads this
      requires stackIdx >= FLOAT_REGS + GP_REGS
    {
      Cursor(intIdx, floatIdx, stackIdx - FLOAT_REGS - GP_REGS)
    }

    constructor (frame: seq<Word>)
      requires |frame| == FRAME_WORDS
      ensures this.frame == frame && Valid() && Cur() == START
    {
      this.frame := frame;
      floatIdx, intIdx, stackIdx, panicked := 0, 0, FLOAT_REGS + GP_REGS, false;
    }

    method GetStack() returns (w: Word)
      requires Valid()
      modifies this
      ensures Valid() && Cur() == Advance(old(Cur()), MEMORY, GP_REGS)
      ensures w == At(frame, Slot(old(Cur()), MEMORY, GP_REGS))
    {
      if stackIdx < |frame| {
        w := frame[stackIdx];
      } else {
        w := ZERO;
        panicked := true;
      }
      stackIdx := stackIdx + 1;
    }

    method GetFloat() returns (w: Word)
      requires Valid()
      modifies this
      ensures Valid() && Cur() == Advance(old(Cur()), SSE, GP_REGS)
      ensures w == At(frame, Slot(old(Cur()), SSE, GP_REGS))
    {
      if floatIdx < FLOAT_REGS {
        w := frame[floatIdx];
        floatIdx := floatIdx + 1;
      } else {
        w := GetStack();
      }
    }

    method GetInt() returns (w: Word)
      requires Valid()
      modifies this
      ensures Valid() && Cur() == Advance(old(Cur()), INTEGER, GP_REGS)
      ensures w == At(frame, Slot(old(Cur()), INTEGER, GP_REGS))
    {
      if intIdx < GP_REGS {
        w := frame[FLOAT_REGS + intIdx];
        intIdx := intIdx + 1;
      } else {
        w := GetStack();
      }
    }

    method GetClassified(sse: bool) returns (w: Word)
      requires Valid()
      modifies this
      ensures Valid() && Cur() == Advance(old(Cur()), ClassIf(sse), GP_REGS)
      ensures w == At(frame, Slot(old(Cur()), ClassIf(sse), GP_REGS))
    {
      if sse { w := GetFloat(); } else { w := GetInt(); }
    }

    /** Stores the low n bytes of w at off. */
    method WritePartial(data: array<Byte>, off: nat, n: nat, w: Word)
      requires n <= 8 && off + n <= data.Length
      modifies data
      ensures forall k :: 0 <= k < data.Length ==>
                data[k] == if off <= k < off + n then Bytes(w)[k - off] else old(data[k])
    {
      forall k | 0 <= k < n {
        data[off + k] := Bytes(w)[k];
      }
    }

    /** Reads one struct parameter into a scratch buffer of whole eightbytes. */
    method GetStruct(t: RType) returns (value: seq<Byte>)
      requires Valid() && t.kind == RStruct
      modifies this
      ensures Valid() && Cur() == AdvanceAll(old(Cur()), ClassesOf(t), GP_REGS)
      ensures value == Prefix(Flatten(Fetch(frame, old(Cur()), ClassesOf(t))), t.size)
    {
      hide AdvanceAll, Slot;
      var data := new Byte[8 * ((t.size + 7) / 8)](_ => 0);
      if t.size == 0 {
        NoWords(frame, Cur());
      } else {
        hide ClassesOf, Fetch, Flatten, Prefix;
        if t.size <= 8 {
          GetOne(t, data);
        } else if t.size <= 16 {
          GetTwo(t, data);
        } else {
          GetChunks(t, data);
        }
      }
      value := data[..t.size];
    }

    method GetOne(t: RType, data: array<Byte>)
      requires Valid() && t.kind == RStruct && 0 < t.size <= 8 && data.Length == 8
      modifies this, data
      ensures Valid() && Cur() == AdvanceAll(old(Cur()), ClassesOf(t), GP_REGS)
      ensures data[..t.size] == Prefix(Flatten(Fetch(frame, old(Cur()), ClassesOf(t))), t.size)
    {
      hide Advance, AdvanceAll, Slot, ClassesOf, AllFloats, Fetch, Flatten, Bytes;
      var sse := AllFloats(t);
      OneClassOf(t);
      OneWord(frame, Cur(), ClassIf(sse));
      var w := GetClassified(sse);
      WritePartial(data, 0, if sse then 8 else PartialWidth(t.size), w);
      assert data[..t.size] == Prefix(Bytes(w), t.size);
    }

    method GetTwo(t: RType, data: array<Byte>)
      requires Valid() && t.kind == RStruct && 8 < t.size <= 16 && data.Length == 16
      modifies this, data
      ensures Valid() && Cur() == AdvanceAll(old(Cur()), ClassesOf(t), GP_REGS)
      ensures data[..t.size] == Prefix(Flatten(Fetch(frame, old(Cur()), ClassesOf(t))), t.size)
    {
      ghost var c0, c1 := ClassIf(EightbyteIsSSE(t, 0, 8)), ClassIf(EightbyteIsSSE(t, 8, t.size));
      assert ClassesOf(t) == [c0, c1];
      TwoWords(frame, Cur(), c0, c1);
      hide Advance, AdvanceAll, Slot, ClassesOf, EightbyteIsSSE, Flatten, Fetch;
      var sse0 := ClassifyEightbyte(t, 0, 8);
      var w0 := GetClassified(sse0);
      WritePartial(data, 0, 8, w0);
      var sse1 := ClassifyEightbyte(t, 8, t.size);
      var w1 := GetClassified(sse1);
      StoreSecond(data, t.size - 8, sse1, w0, w1);
    }

    method StoreSecond(data: array<Byte>, remaining: nat, sse: bool, ghost w0: Word, w1: Word)
      requires data.Length == 16 && 0 < remaining <= 8
      requires forall k :: 0 <= k < 8 ==> data[k] == Bytes(w0)[k]
      modifies data
      ensures data[..8 + remaining] == Prefix(Flatten([w0, w1]), 8 + remaining)
    {
      FlattenTwo(w0, w1);
      hide Flatten, Bytes;
      WritePartial(data, 8, if sse then 8 else PartialWidth(remaining), w1);
    }

    method GetChunks(t: RType, data: array<Byte>)
      requires Valid() && t.kind == RStruct && t.size > 16 && data.Length == 8 * ((t.size + 7) / 8)
      modifies this, data
      ensures Valid() && Cur() == AdvanceAll(old(Cur()), ClassesOf(t), GP_REGS)
      ensures data[..t.size] == Prefix(Flatten(Fetch(frame, old(Cur()), ClassesOf(t))), t.size)
    {
      ghost var c, mine := Cur(), ClassesOf(t);
      var nChunks := (t.size + 7) / 8;
      assert |mine| == nChunks && forall j :: 0 <= j < |mine| ==> mine[j] == MEMORY;
      NoWords(frame, c);
      hide Advance, AdvanceAll, Slot, ClassesOf, Flatten, Fetch, At;
      var k := 0;
      assert mine[..0] == [];
      while k < nChunks
        invariant 0 <= k <= nChunks
        invariant Valid() && Cur() == AdvanceAll(c, mine[..k], GP_REGS)
        invariant data[..Filled(k, t.size)] == Prefix(Flatten(Fetch(frame, c, mine[..k])), Filled(k, t.size))
      {
        GetChunk(data, k, t.size, c, mine);
        k := k + 1;
      }
      assert mine[..k] == mine;
    }

    method GetChunk(data: array<Byte>, k: nat, size: nat, ghost c: Cursor, ghost mine: seq<Class>)
      requires Valid() && k < |mine| && 8 * k < size && 8 * k + 8 <= data.Length && mine[k] == MEMORY
      requires Cur() == AdvanceAll(c, mine[..k], GP_REGS)
      requires data[..Filled(k, size)] == Prefix(Flatten(Fetch(frame, c, mine[..k])), Filled(k, size))
      modifies this, data
      ensures Valid() && Cur() == AdvanceAll(c, mine[..k + 1], GP_REGS)
      ensures data[..Filled(k + 1, size)] == Prefix(Flatten(Fetch(frame, c, mine[..k + 1])), Filled(k + 1, size))
    {
      NextWord(frame, c, mine, k);
      hide Advance, AdvanceAll, Slot, Flatten, Fetch, At, Bytes;
      ghost var before := data[..8 * k];
      assert Flatten(Fetch(frame, c, mine[..k])) == before;
      var chunk := GetStack();
      WritePartial(data, 8 * k, PartialWidth(size - 8 * k), chunk);
    }

    method GetValue(t: RType, narrow: Word -> seq<Byte>) returns (value: seq<Byte>)
      requires Valid()
      modifies this
      ensures Valid() && Cur() == AdvanceAll(old(Cur()), ClassesOf(t), GP_REGS)
      ensures value == Assemble(t, Fetch(frame, old(Cur()), ClassesOf(t)), narrow)
    {
      if t.kind == RStruct {
        hide AdvanceAll, Slot, ClassesOf, Fetch, Flatten;
        value := GetStruct(t);
      } else {
        var sse := IsRFloat(t.kind);
        assert ClassesOf(t) == [ClassIf(sse)];
        OneWord(frame, Cur(), ClassIf(sse));
        hide Advance, AdvanceAll, Slot, ClassesOf, Fetch;
        var w := GetClassified(sse);
        if t.kind == RBool {
          value := [if w != ZERO then 1 else 0];
        } else if t.kind == RFloat32 {
          value := narrow(w);
        } else {
          value := Bytes(w)[..(if t.size <= 8 then t.size else 8)];
        }
      }
    }

    /** callbackWrap's argument loop. It panics exactly when the signature needs more words than
        the frame has; otherwise the values are the specification's. */
    method CallbackArgs(ts: seq<RType>, narrow: Word -> seq<Byte>) returns (args: seq<seq<Byte>>)
      requires Valid() && Cur() == START
      modifies this
      ensures panicked <==> FLOAT_REGS + GP_REGS + CursorAfterParams(ts, |ts|).stack > FRAME_WORDS
      ensures !panicked ==> args == Decode(ts, |ts|, frame, narrow)
    {
      hide Advance, AdvanceAll, Slot, ClassesOf, Assemble, Fetch;
      args := [];
      var i := 0;
      while i < |ts|
        invariant 0 <= i <= |ts|
        invariant Valid() && Cur() == CursorAfterParams(ts, i)
        invariant args == Decode(ts, i, frame, narrow)
      {
        var value := GetValue(ts[i], narrow);
        args := args + [value];
        i := i + 1;
      }
    }
  }

  lemma {:induction false} NoWords(f: seq<Word>, c: Cursor)
    ensures AdvanceAll(c, [], GP_REGS) == c && Fetch(f, c, []) == [] && Flatten([]) == []
  {
  }

  lemma {:induction false} FlattenOne(w: Word)
    ensures Flatten([w]) == Bytes(w)
  {
    assert [w][..0] == [];
    assert Flatten([]) + Bytes(w) == Bytes(w);
  }

  lemma {:induction false} FlattenTwo(w0: Word, w1: Word)
    ensures Flatten([w0, w1]) == Bytes(w0) + Bytes(w1)
  {
    FlattenOne(w0);
    assert [w0, w1][..1] == [w0];
  }

  lemma {:induction false} OneWord(f: seq<Word>, c: Cursor, cls: Class)
    ensures AdvanceAll(c, [cls], GP_REGS) == Advance(c, cls, GP_REGS)
    ensures Fetch(f, c, [cls]) == [At(f, Slot(c, cls, GP_REGS))]
    ensures Flatten(Fetch(f, c, [cls])) == Bytes(At(f, Slot(c, cls, GP_REGS)))
  {
    assert [cls][..0] == [];
    FlattenOne(At(f, Slot(c, cls, GP_REGS)));
  }

  lemma {:induction false} TwoWords(f: seq<Word>, c: Cursor, c0: Class, c1: Class)
    ensures var d := Advance(c, c0, GP_REGS);
            && AdvanceAll(c, [c0, c1], GP_REGS) == Advance(d, c1, GP_REGS)
            && Fetch(f, c, [c0, c1]) == [At(f, Slot(c, c0, GP_REGS)), At(f, Slot(d, c1, GP_REGS))]
  {
    hide Advance, Slot;
    OneWord(f, c, c0);
    assert [c0, c1][..1] == [c0];
  }

  lemma {:induction false} NextWord(f: seq<Word>, c: Cursor, cs: seq<Class>, k: nat)
    requires k < |cs|
    ensures var d := AdvanceAll(c, cs[..k], GP_REGS);
            && AdvanceAll(c, cs[..k + 1], GP_REGS) == Advance(d, cs[k], GP_REGS)
            && Flatten(Fetch(f, c, cs[..k + 1]))
               == Flatten(Fetch(f, c, cs[..k])) + Bytes(At(f, Slot(d, cs[k], GP_REGS)))
  {
    hide Advance, Slot, Bytes;
    assert cs[..k + 1][..k] == cs[..k];
    var ws, w := Fetch(f, c, cs[..k]), At(f, Slot(AdvanceAll(c, cs[..k], GP_REGS), cs[k], GP_REGS));
    assert Fetch(f, c, cs[..k + 1]) == ws + [w];
    assert (ws + [w])[..k] == ws;
  }
}
