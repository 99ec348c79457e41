/** The arm64 callback direction: scalars read from the frame [D0-7][X0-7][stack], and the round trip
    with Execute. */
module Arm64Callback {
  import opened Words
  import opened Types
  import opened Placement
  import opened Arm64Regs
  import opened Arm64Args
  import opened Arm64Call
  import opened Arm64Scalars
  import B = Amd64Callback

  /** The view callbackWrap takes of the saved registers and the caller's stack. */
  const FRAME_WORDS: nat := 128

  /** The register class of each parameter. */
  function ParamClasses(rs: seq<B.RType>): (cs: seq<Class>)
    ensures |cs| == |rs|
  {
    seq(|rs|, i requires 0 <= i < |rs| => B.ClassIf(B.IsRFloat(rs[i].kind)))
  }

  /** A parameter's value in its word. A float32 goes through the float64 the word denotes; narrow is
      that conversion. */
  function ParamValue(r: B.RType, w: Word, narrow: Word -> seq<Byte>): seq<Byte> {
    if r.kind == B.RBool then [if w != ZERO then 1 else 0]
    else if r.kind == B.RFloat32 then narrow(w)
    else Bytes(w)[..(if r.size <= 8 then r.size else 8)]
  }

  /** The word of the i-th parameter. */
  function ParamWord(f: seq<Word>, rs: seq<B.RType>, i: nat): Word
    requires i < |rs|
  {
    var cs := ParamClasses(rs);
    B.At(f, Slot(AdvanceAll(START, cs[..i], GP_REGS), cs[i], GP_REGS))
  }

  class Reader {
    const frame: seq<Word>
    var floatIdx: nat
    var intIdx: nat
    var stackIdx: nat
    var panicked: bool

    ghost predicate Valid()
      reads this
    {
      stackIdx >= FLOAT_REGS + GP_REGS && |frame| == FRAME_WORDS && (panicked <==> stackIdx > |frame|)
      && floatIdx <= FLOAT_REGS && intIdx <= GP_REGS
    }

    function Cur(): Cursor
      reads this
      requires stackIdx >= FLOAT_REGS + GP_REGS
    {
      Cursor(intIdx, floatIdx, stackIdx - FLOAT_REGS - GP_REGS)
    }

    constructor (frame: seq<Word>)
      requires |frame| == FRAME_WORDS
      ensures this.frame == frame && Valid() && Cur() == START
    {
      this.frame := frame;
      floatIdx, intIdx, stackIdx, panicked := 0, 0, FLOAT_REGS + GP_REGS, false;
    }

    method Next(sse: bool) returns (w: Word)
      requires Valid()
      modifies this
      ensures Valid() && Cur() == Advance(old(Cur()), B.ClassIf(sse), GP_REGS)
      ensures w == B.At(frame, Slot(old(Cur()), B.ClassIf(sse), GP_REGS))
    {
      if sse && floatIdx < FLOAT_REGS {
        w := frame[floatIdx];
        floatIdx := floatIdx + 1;
      } else if !sse && intIdx < GP_REGS {
        w := frame[FLOAT_REGS + intIdx];
        intIdx := intIdx + 1;
      } else {
        if stackIdx < |frame| {
          w := frame[stackIdx];
        } else {
          w := ZERO;
          panicked := true;
        }
        stackIdx := stackIdx + 1;
      }
    }

    /** callbackWrap's argument loop for scalar parameters; it panics exactly when the parameters need
        more words than the frame has. */
    method CallbackArgs(rs: seq<B.RType>, narrow: Word -> seq<Byte>) returns (args: seq<seq<Byte>>)
      requires Valid() && Cur() == START
      modifies this
      ensures panicked <==> FLOAT_REGS + GP_REGS + AdvanceAll(START, ParamClasses(rs), GP_REGS).stack > FRAME_WORDS
      ensures |args| == |rs|
      ensures forall i :: 0 <= i < |rs| ==> args[i] == ParamValue(rs[i], ParamWord(frame, rs, i), narrow)
    {
      hide Advance, Slot, B.At, ParamValue;
      ghost var cs := ParamClasses(rs);
      args := [];
      var i := 0;
      while i < |rs|
        invariant 0 <= i <= |rs|
        invariant Valid() && Cur() == AdvanceAll(START, cs[..i], GP_REGS)
        invariant |args| == i
        invariant forall j :: 0 <= j < i ==> args[j] == ParamValue(rs[j], ParamWord(frame, rs, j), narrow)
      {
        var w := Next(B.IsRFloat(rs[i].kind));
        args := args + [ParamValue(rs[i], w, narrow)];
        assert cs[..i + 1][..i] == cs[..i];
        i := i + 1;
      }
      assert cs[..i] == cs;
    }
  }

  /** A scalar argument and the callback parameter it becomes; a bool is 0 or 1. */
  predicate Matches(t: Desc, r: B.RType, a: Arg) {
    && t.kind != StructType && FixedWidth(t.kind) && GoodArg(t, a) && r.size == Width(t.kind)
    && match r.kind
       case RStruct => false
       case RFloat32 => t.kind == FloatType
       case RFloat64 => t.kind == DoubleType
       case RBool => t.kind == UInt8Type && a.mem[0] <= 1
       case RPointer => t.kind == PointerType
       case RInteger => !IsFloat(t.kind)
  }

  predicate AllMatch(ts: seq<Desc>, rs: seq<B.RType>, avalue: seq<Arg>) {
    |ts| == |rs| <= |avalue| && forall i :: 0 <= i < |ts| ==> Matches(ts[i], rs[i], avalue[i])
  }

  lemma {:induction false} MatchedScalars(ts: seq<Desc>, rs: seq<B.RType>, avalue: seq<Arg>)
    requires AllMatch(ts, rs, avalue)
    ensures Scalars(ts, avalue) && ParamClasses(rs) == Classes(ScalarItems(ts, avalue))
  {
    assert forall i :: 0 <= i < |ts| ==> Matches(ts[i], rs[i], avalue[i]);
    hide Load, SignLoad;
  }

  lemma {:induction false} SignLoadBytes(bs: seq<Byte>)
    requires 0 < |bs| <= 8
    ensures Bytes(SignLoad(bs))[..|bs|] == bs
  {
    hide Bytes, FromBytes;
  }

  lemma {:induction false} LoadBytes(bs: seq<Byte>)
    requires |bs| <= 8
    ensures Bytes(Load(bs))[..|bs|] == bs && (|bs| == 1 ==> (Load(bs) == ZERO <==> bs[0] == 0))
  {
    if |bs| == 1 {
      assert Bytes(Load(bs))[0] == bs[0];
    }
    assert (bs + Zeros(8 - |bs|))[..|bs|] == bs;
  }

  /** What arrives: the argument's bytes, but a float32 is taken for the low half of a float64 and narrowed. */
  function Received(r: B.RType, a: Arg, narrow: Word -> seq<Byte>): seq<Byte>
    requires r.size <= |a.mem| && (r.kind == B.RFloat32 ==> r.size == 4)
  {
    if r.kind == B.RFloat32 then narrow(Load(a.mem[..4])) else a.mem[..r.size]
  }

  /** Reading a scalar's own word gives back its value. */
  lemma {:induction false} OwnWord(t: Desc, r: B.RType, a: Arg, narrow: Word -> seq<Byte>)
    requires Matches(t, r, a)
    ensures r.size <= |a.mem| && (r.kind == B.RFloat32 ==> r.size == 4)
    ensures ParamValue(r, ScalarItem(t, a).word, narrow) == Received(r, a, narrow)
  {
    hide Load, SignLoad, Bytes;
    var bs := a.mem[..Width(t.kind)];
    LoadBytes(bs);
    SignLoadBytes(bs);
  }

  /** The frame the trampolines connect: float registers, integer registers, stack slots, and whatever
      lies above. */
  function FrameOf(p: Placed, above: seq<Word>): seq<Word>
    requires |p.floats| <= FLOAT_REGS && |p.ints| <= GP_REGS && |p.stack| <= STACK_SLOTS
  {
    Pad(p.floats, FLOAT_REGS) + Pad(p.ints, GP_REGS) + Pad(p.stack, STACK_SLOTS) + above
  }

  lemma {:induction false} FrameOfHolds(p: Placed, above: seq<Word>)
    requires |p.floats| <= FLOAT_REGS && |p.ints| <= GP_REGS && |p.stack| <= STACK_SLOTS
    ensures Holds(FrameOf(p, above), p, GP_REGS)
  {
  }

  /** Every scalar list that fits is read back, in any mix and order, float32 values as far as narrowing gives
      them back. */
  lemma {:induction false} ScalarRoundTrip(ts: seq<Desc>, rs: seq<B.RType>, avalue: seq<Arg>, above: seq<Word>,
                                           narrow: Word -> seq<Byte>, i: nat)
    requires AllMatch(ts, rs, avalue) && i < |ts| && Scalars(ts, avalue) && Fits(ScalarItems(ts, avalue))
    ensures rs[i].size <= |avalue[i].mem| && (rs[i].kind == B.RFloat32 ==> rs[i].size == 4)
    ensures var f := FrameOf(Place(ScalarItems(ts, avalue), GP_REGS), above);
            ParamValue(rs[i], ParamWord(f, rs, i), narrow) == Received(rs[i], avalue[i], narrow)
  {
    hide Place, Holds, Slot, AdvanceAll, ScalarItem, Matches, ParamValue;
    MatchedScalars(ts, rs, avalue);
    var items := ScalarItems(ts, avalue);
    FrameOfHolds(Place(items, GP_REGS), above);
    FrameHolds(FrameOf(Place(items, GP_REGS), above), items, GP_REGS, i);
    assert Classes(items[..i]) == Classes(items)[..i];
    OwnWord(ts[i], rs[i], avalue[i], narrow);
  }

  method Trampoline(regs: RegFile, above: seq<Word>, ghost items: seq<Item>) returns (f: seq<Word>)
    requires regs.Holds(items)
    ensures Fits(items) && f == FrameOf(Place(items, GP_REGS), above)
  {
    f := regs.fpr + regs.gpr + regs.stackArgs + above;
  }

  /** Execute, the trampolines and callbackWrap, end to end, for a scalar list without an Apple
      boundary. */
  method CallThroughCallback(darwin: bool, ts: seq<Desc>, rs: seq<B.RType>, avalue: seq<Arg>, above: seq<Word>,
                             narrow: Word -> seq<Byte>)
    returns (args: seq<seq<Byte>>)
    requires AllMatch(ts, rs, avalue) && Scalars(ts, avalue) && Fits(ScalarItems(ts, avalue))
    requires |above| == FRAME_WORDS - FLOAT_REGS - GP_REGS - STACK_SLOTS
    ensures |args| == |ts|
    ensures forall i :: 0 <= i < |ts| ==>
              && rs[i].size <= |avalue[i].mem| && (rs[i].kind == B.RFloat32 ==> rs[i].size == 4)
              && args[i] == Received(rs[i], avalue[i], narrow)
  {
    hide Place, Fits, ScalarItems, Matches, GoodArg, ParamValue, ParamWord, AdvanceAll;
    var limitError, regs, r8 := Execute(RETURN_VOID, ZERO, darwin, 0, ts, avalue[..|ts|]);
    SameState(darwin, ts, avalue);
    var f := Trampoline(regs, above, ScalarItems(ts, avalue));
    var reader := new Reader(f);
    args := reader.CallbackArgs(rs, narrow);
    forall i | 0 <= i < |ts|
      ensures rs[i].size <= |avalue[i].mem| && (rs[i].kind == B.RFloat32 ==> rs[i].size == 4)
      ensures args[i] == Received(rs[i], avalue[i], narrow)
    {
      ScalarRoundTrip(ts, rs, avalue, above, narrow, i);
    }
  }

  lemma {:induction false} SameState(darwin: bool, ts: seq<Desc>, avalue: seq<Arg>)
    requires Scalars(ts, avalue) && Fits(ScalarItems(ts, avalue))
    ensures AllGood(ts, avalue[..|ts|])
    ensures After(darwin, 0, ts, avalue[..|ts|], |ts|) == State(ScalarItems(ts, avalue), false)
  {
    hide Fits, ScalarItem, GoodArg, After;
    assert Scalars(ts, avalue[..|ts|]);
    assert ScalarItems(ts, avalue[..|ts|]) == ScalarItems(ts, avalue);
    NothingDroppedIff(darwin, 0, ts, avalue[..|ts|], |ts|);
    assert ScalarItems(ts, avalue)[..|ts|] == ScalarItems(ts, avalue);
  }
}
