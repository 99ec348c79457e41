/** The amd64 call direction: typed arguments become register files and stack words. */
module Amd64Call {
  import opened Words
  import opened Types
  import opened Placement
  import opened Amd64Classify
  import opened Amd64Args
  import S = Amd64Slots

  /** How a call ends before control reaches the callee: an index past the argument array
      panics; the explicit limit check returns an error. */
  datatype Outcome = Panicked | StackLimitError | Called(stackWords: nat)

  class CallFrame {
    const sysargs: array<Word>
    const floats: array<Word>
    var numInts: nat
    var numFloats: nat
    var numStack: nat

    /** The arrays and cursors are exactly the placement of items; unused slots are zero. */
    ghost predicate Holds(items: seq<Item>)
      reads this, sysargs, floats
    {
      var p := Place(items, GP_REGS);
      && sysargs.Length == MAX_TOTAL_ARGS && floats.Length == FLOAT_REGS && sysargs != floats
      && |p.stack| <= STACK_SLOTS
      && numInts == |p.ints| <= GP_REGS && numFloats == |p.floats| <= FLOAT_REGS && numStack == |p.stack|
      && sysargs[..] == Pad(p.ints, GP_REGS) + Pad(p.stack, STACK_SLOTS)
      && floats[..] == Pad(p.floats, FLOAT_REGS)
    }

    constructor ()
      ensures Holds([])
      ensures fresh(this) && fresh(sysargs) && fresh(floats)
    {
      sysargs := new Word[MAX_TOTAL_ARGS](_ => ZERO);
      floats := new Word[FLOAT_REGS](_ => ZERO);
      numInts, numFloats, numStack := 0, 0, 0;
      new;
      assert sysargs[..] == Pad([], GP_REGS) + Pad([], STACK_SLOTS);
      assert floats[..] == Pad([], FLOAT_REGS);
    }

    /** Stores one more stack word; false when the index is out of range, which panics. */
    method AddStack(x: Word, c: Class, ghost items: seq<Item>) returns (ok: bool)
      requires Holds(items)
      requires !FindsRegister(Classes(items), c, GP_REGS)
      modifies this, sysargs
      ensures ok <==> |Place(items + [Item(c, x)], GP_REGS).stack| <= STACK_SLOTS
      ensures ok ==> Holds(items + [Item(c, x)])
    {
      PlaceStep(items, Item(c, x), GP_REGS);
      OfCount(items, INTEGER);
      OfCount(items, SSE);
      ghost var p := Place(items, GP_REGS);
      if GP_REGS + numStack >= MAX_TOTAL_ARGS {
        return false;
      }
      sysargs[GP_REGS + numStack] := x;
      numStack := numStack + 1;
      assert sysargs[..] == Pad(p.ints, GP_REGS) + Pad(p.stack + [x], STACK_SLOTS);
      return true;
    }

    method AddMemory(x: Word, ghost items: seq<Item>) returns (ok: bool)
      requires Holds(items)
      modifies this, sysargs
      ensures ok <==> |Place(items + [Item(MEMORY, x)], GP_REGS).stack| <= STACK_SLOTS
      ensures ok ==> Holds(items + [Item(MEMORY, x)])
    {
      ok := AddStack(x, MEMORY, items);
    }

    method AddInt(x: Word, ghost items: seq<Item>) returns (ok: bool)
      requires Holds(items)
      modifies this, sysargs
      ensures ok <==> |Place(items + [Item(INTEGER, x)], GP_REGS).stack| <= STACK_SLOTS
      ensures ok ==> Holds(items + [Item(INTEGER, x)])
    {
      PlaceStep(items, Item(INTEGER, x), GP_REGS);
      OfCount(items, INTEGER);
      if numInts < GP_REGS {
        ghost var p := Place(items, GP_REGS);
        sysargs[numInts] := x;
        numInts := numInts + 1;
        assert sysargs[..] == Pad(p.ints + [x], GP_REGS) + Pad(p.stack, STACK_SLOTS);
        ok := true;
      } else {
        ok := AddStack(x, INTEGER, items);
      }
    }

    method AddFloat(x: Word, ghost items: seq<Item>) returns (ok: bool)
      requires Holds(items)
      modifies this, sysargs, floats
      ensures ok <==> |Place(items + [Item(SSE, x)], GP_REGS).stack| <= STACK_SLOTS
      ensures ok ==> Holds(items + [Item(SSE, x)])
    {
      PlaceStep(items, Item(SSE, x), GP_REGS);
      OfCount(items, SSE);
      if numFloats < FLOAT_REGS {
        ghost var p := Place(items, GP_REGS);
        floats[numFloats] := x;
        numFloats := numFloats + 1;
        assert floats[..] == Pad(p.floats + [x], FLOAT_REGS);
        ok := true;
      } else {
        ok := AddStack(x, SSE, items);
      }
    }

    method AddClassified(sse: bool, x: Word, ghost items: seq<Item>) returns (ok: bool)
      requires Holds(items)
      modifies this, sysargs, floats
      ensures ok <==> |Place(items + [Item(EightbyteClass(sse), x)], GP_REGS).stack| <= STACK_SLOTS
      ensures ok ==> Holds(items + [Item(EightbyteClass(sse), x)])
    {
      if sse { ok := AddFloat(x, items); } else { ok := AddInt(x, items); }
    }

    /** Places one argument; a panic means its words do not fit. */
    method AddArgument(t: Desc, a: Arg, ghost items: seq<Item>) returns (ok: bool)
      requires Holds(items) && Readable(t, a)
      modifies this, sysargs, floats
      ensures ok <==> |Place(items + ArgItems(t, a), GP_REGS).stack| <= STACK_SLOTS
      ensures ok ==> Holds(items + ArgItems(t, a))
    {
      if t.kind == StructType {
        if t.size == 0 {
          assert items + ArgItems(t, a) == items;
          ok := true;
        } else if t.size <= 8 {
          OneItem(t, a);
          hide Place, Parts, Pad, ArgItems;
          if AllFloats(t) {
            ok := AddFloat(Load(a.mem[0..8]), items);
          } else {
            ok := AddInt(Load(a.mem[0..LoadWidth(t.size)]), items);
          }
        } else if t.size <= 16 {
          ok := AddTwo(t, a, items);
        } else {
          ok := AddChunks(t, a, items);
        }
      } else {
        OneItem(t, a);
        hide Place, Parts, Pad, ArgItems;
        if !FixedWidth(t.kind) {
          ok := AddInt(a.address, items);
        } else if IsFloat(t.kind) {
          ok := AddFloat(Load(a.mem[0..Width(t.kind)]), items);
        } else {
          ok := AddInt(Load(a.mem[0..Width(t.kind)]), items);
        }
      }
    }

    /** Two eightbytes, classified independently. */
    method AddTwo(t: Desc, a: Arg, ghost items: seq<Item>) returns (ok: bool)
      requires Holds(items) && Readable(t, a) && t.kind == StructType && 8 < t.size <= 16
      modifies this, sysargs, floats
      ensures ok <==> |Place(items + ArgItems(t, a), GP_REGS).stack| <= STACK_SLOTS
      ensures ok ==> Holds(items + ArgItems(t, a))
    {
      TwoItems(t, a);
      hide Place, Parts, Pad, ArgItems, Readable, EightbyteIsSSE;
      ghost var mine := ArgItems(t, a);
      ghost var first := items + [mine[0]];
      assert items + mine == first + [mine[1]];
      StackGrows(first, [mine[1]], GP_REGS);
      var sse0 := ClassifyEightbyte(t, 0, 8);
      ok := AddClassified(sse0, Load(a.mem[0..8]), items);
      if ok {
        var sse1 := ClassifyEightbyte(t, 8, t.size);
        ok := AddClassified(sse1, Load(a.mem[8..8 + LoadWidth(t.size - 8)]), first);
      }
    }

    /** MEMORY class: the struct's bytes go to the stack in eight-byte chunks. */
    method AddChunks(t: Desc, a: Arg, ghost items: seq<Item>) returns (ok: bool)
      requires Holds(items) && Readable(t, a) && t.kind == StructType && t.size > 16
      modifies this, sysargs
      ensures ok <==> |Place(items + ArgItems(t, a), GP_REGS).stack| <= STACK_SLOTS
      ensures ok ==> Holds(items + ArgItems(t, a))
    {
      hide Place, Parts, Pad, ArgItems, Readable, FindsRegister;
      ghost var mine := ArgItems(t, a);
      var nChunks := (t.size + 7) / 8;
      var k := 0;
      ok := true;
      ChunkItem(t, a, 0);
      assert items + mine[..0] == items;
      while k < nChunks
        invariant 0 <= k <= nChunks == |mine|
        invariant ok && Holds(items + mine[..k])
      {
        ghost var sofar := items + mine[..k];
        ChunkItem(t, a, k);
        assert items + mine[..k + 1] == sofar + [mine[k]];
        assert items + mine == (items + mine[..k + 1]) + mine[k + 1..];
        StackGrows(items + mine[..k + 1], mine[k + 1..], GP_REGS);
        ok := AddMemory(Load(a.mem[8 * k..8 * k + LoadWidth(t.size - 8 * k)]), sofar);
        if !ok {
          return;
        }
        k := k + 1;
      }
      assert items + mine == items + mine[..k];
    }

    method AddArguments(ts: seq<Desc>, avalue: seq<Arg>, ghost hidden: seq<Item>) returns (ok: bool)
      requires AllReadable(ts, avalue) && Holds(hidden)
      modifies this, sysargs, floats
      ensures var all := hidden + ArgsItems(ts, avalue, Min(|ts|, |avalue|));
              && (ok <==> |Place(all, GP_REGS).stack| <= STACK_SLOTS)
              && (ok ==> Holds(all))
    {
      hide Place, ArgsItems, AllReadable, Holds;
      NoArgs(ts, avalue);
      assert hidden + [] == hidden;
      var idx := 0;
      while idx < |ts|
        invariant 0 <= idx <= |ts| && idx <= |avalue|
        invariant Holds(hidden + ArgsItems(ts, avalue, idx))
      {
        if idx >= |avalue| {
          break;
        }
        ok := AddNext(ts, avalue, hidden, idx);
        if !ok {
          return;
        }
        idx := idx + 1;
      }
      HoldsFit(hidden + ArgsItems(ts, avalue, idx));
      ok := true;
    }

    /** One turn of that loop. */
    method AddNext(ts: seq<Desc>, avalue: seq<Arg>, ghost hidden: seq<Item>, idx: nat) returns (ok: bool)
      requires AllReadable(ts, avalue) && idx < |ts| && idx < |avalue| && Holds(hidden + ArgsItems(ts, avalue, idx))
      modifies this, sysargs, floats
      ensures ok ==> Holds(hidden + ArgsItems(ts, avalue, idx + 1))
      ensures !ok ==> |Place(hidden + ArgsItems(ts, avalue, Min(|ts|, |avalue|)), GP_REGS).stack| > STACK_SLOTS
    {
      hide Place, ArgItems, Pad, Readable, AllReadable, ArgsItems;
      ghost var items := hidden + ArgsItems(ts, avalue, idx);
      ReadableAt(ts, avalue, idx);
      ArgsStep(ts, avalue, idx + 1);
      assert items + ArgItems(ts[idx], avalue[idx]) == hidden + ArgsItems(ts, avalue, idx + 1);
      hide Holds;
      ok := AddArgument(ts[idx], avalue[idx], items);
      if !ok { MoreArgs(hidden, ts, avalue, idx + 1, Min(|ts|, |avalue|)); }
    }

    /** The arrays, one behind the other, are a frame of the placement. */
    lemma {:induction false} HoldsFrame(items: seq<Item>)
      requires Holds(items)
      ensures sysargs.Length == MAX_TOTAL_ARGS && floats.Length == FLOAT_REGS
      ensures numStack == |Place(items, GP_REGS).stack| <= STACK_SLOTS
      ensures Placement.Holds(floats[..] + sysargs[..], Place(items, GP_REGS), GP_REGS)
    {
      hide Place;
    }

    lemma {:induction false} HoldsFit(items: seq<Item>)
      requires Holds(items)
      ensures |Place(items, GP_REGS).stack| <= STACK_SLOTS
    {
      hide Place, Pad;
    }
  }

  lemma {:induction false} OneItem(t: Desc, a: Arg)
    requires Readable(t, a) && |Parts(t)| == 1
    ensures Parts(t)[0].Part? ==> Parts(t)[0].width <= 8 && Parts(t)[0].off + Parts(t)[0].width <= |a.mem|
    ensures ArgItems(t, a) == [ItemOf(Parts(t)[0], a)]
  {
    assert Parts(t)[0] in Parts(t);
  }

  lemma {:induction false} TwoItems(t: Desc, a: Arg)
    requires Readable(t, a) && t.kind == StructType && 8 < t.size <= 16
    ensures 8 + LoadWidth(t.size - 8) <= |a.mem|
    ensures ArgItems(t, a) ==
            [Item(EightbyteClass(EightbyteIsSSE(t, 0, 8)), Load(a.mem[0..8])),
             Item(EightbyteClass(EightbyteIsSSE(t, 8, t.size)), Load(a.mem[8..8 + LoadWidth(t.size - 8)]))]
  {
    assert Parts(t)[0] in Parts(t) && Parts(t)[1] in Parts(t);
  }

  lemma {:induction false} ChunkItem(t: Desc, a: Arg, k: nat)
    requires Readable(t, a) && t.kind == StructType && t.size > 16 && k < (t.size + 7) / 8
    ensures 8 * k + LoadWidth(t.size - 8 * k) <= |a.mem|
    ensures |ArgItems(t, a)| == (t.size + 7) / 8
    ensures ArgItems(t, a)[k] == Item(MEMORY, Load(a.mem[8 * k..8 * k + LoadWidth(t.size - 8 * k)]))
  {
    assert Parts(t)[k] in Parts(t);
  }

  /** Execute up to the jump: everything it hands to the trampoline. A call panics exactly when
      its words overflow the nine stack slots, so the explicit limit check never fires. In any other call the
      callee finds the address of a large struct result in its first integer register, and every word of
      every argument where the words before it put it. */
  method Execute(ret: Desc, rvalue: Word, ts: seq<Desc>, avalue: seq<Arg>) returns (out: Outcome, frame: CallFrame)
    requires AllReadable(ts, avalue)
    ensures fresh(frame) && fresh(frame.sysargs) && fresh(frame.floats)
    ensures var p := Place(CallItems(ret, rvalue, ts, avalue), GP_REGS);
            if |p.stack| > STACK_SLOTS then out == Panicked else out == Called(|p.stack|)
    ensures out.Called? ==> frame.Holds(CallItems(ret, rvalue, ts, avalue))
    ensures out.Called? ==> frame.sysargs.Length == 15 && frame.floats.Length == 8
    ensures out.Called? && ret.kind == StructType && ret.size > 16 ==> frame.sysargs[0] == rvalue
    ensures out.Called? ==> S.AllArrive(frame.floats[..], frame.sysargs[..], ret, ts, avalue)
  {
    hide S.AllArrive, Classes, CallFrame.Holds;
    frame := new CallFrame();
    ghost var hidden := if ViaHiddenPointer(ret) then [Item(INTEGER, rvalue)] else [];
    if ViaHiddenPointer(ret) {
      assert [] + [Item(INTEGER, rvalue)] == hidden;
      PlaceStep([], Item(INTEGER, rvalue), GP_REGS);
      var placed := frame.AddInt(rvalue, []);
    }
    var ok := frame.AddArguments(ts, avalue, hidden);
    out := if !ok then Panicked
           else if frame.numStack > STACK_SLOTS then StackLimitError
           else Called(frame.numStack);
    if ok {
      frame.HoldsFrame(CallItems(ret, rvalue, ts, avalue));
      S.FrameArrives(frame.floats[..], frame.sysargs[..], ret, rvalue, ts, avalue);
    }
  }

  /** The words of fewer arguments never need more stack. */
  lemma {:induction false} MoreArgs(hidden: seq<Item>, ts: seq<Desc>, avalue: seq<Arg>, m: nat, n: nat)
    requires m <= n <= |ts| && n <= |avalue| && AllReadable(ts, avalue)
    ensures |Place(hidden + ArgsItems(ts, avalue, m), GP_REGS).stack|
         <= |Place(hidden + ArgsItems(ts, avalue, n), GP_REGS).stack|
  {
    hide Place, ArgItems, Readable, AllReadable, ArgsItems;
    if m < n {
      MoreArgs(hidden, ts, avalue, m, n - 1);
      ReadableAt(ts, avalue, n - 1);
      ArgsStep(ts, avalue, n);
      var last := ArgItems(ts[n - 1], avalue[n - 1]);
      StackGrows(hidden + ArgsItems(ts, avalue, n - 1), last, GP_REGS);
      assert hidden + ArgsItems(ts, avalue, n) == (hidden + ArgsItems(ts, avalue, n - 1)) + last;
    }
  }
}
