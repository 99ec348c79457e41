/** What PrepareCallInterface predicts about an amd64 call, against what Execute does. */
module Amd64Prepare {
  import opened Words
  import opened Types
  import opened Placement
  import opened Amd64Classify
  import opened Amd64Args

  const MAX_GPR: nat := 6
  const MAX_SSE: nat := 8
  const MAX_STACK: nat := 9

  function CeilEighths(size: nat): nat {
    (size + 7) / 8
  }

  function EightbyteEnd(t: Desc, eb: nat): nat {
    if 8 * eb + 8 > t.size then t.size else 8 * eb + 8
  }

  /** The classes the classifier assigns to the first n eightbytes of a struct. */
  function EightbyteClasses(t: Desc, n: nat): seq<Class> {
    if n == 0 then []
    else EightbyteClasses(t, n - 1) + [EightbyteClass(EightbyteIsSSE(t, 8 * (n - 1), EightbyteEnd(t, n - 1)))]
  }

  function GprCount(t: Desc): nat {
    if IsFloat(t.kind) then 0
    else if t.kind != StructType then CeilEighths(t.size)
    else if t.size > 16 then 0
    else Count(EightbyteClasses(t, CeilEighths(t.size)), INTEGER)
  }

  function SseCount(t: Desc): nat {
    if IsFloat(t.kind) then 1
    else if t.kind != StructType || t.size > 16 then 0
    else Count(EightbyteClasses(t, CeilEighths(t.size)), SSE)
  }

  lemma {:induction false} EightbyteStep(t: Desc, eb: nat, d: Class)
    ensures Count(EightbyteClasses(t, eb + 1), d) == Count(EightbyteClasses(t, eb), d)
            + (if EightbyteClass(EightbyteIsSSE(t, 8 * eb, EightbyteEnd(t, eb))) == d then 1 else 0)
  {
    hide EightbyteIsSSE;
    var cs, x := EightbyteClasses(t, eb), EightbyteClass(EightbyteIsSSE(t, 8 * eb, EightbyteEnd(t, eb)));
    assert EightbyteClasses(t, eb + 1) == cs + [x];
    assert (cs + [x])[..|cs|] == cs;
  }

  lemma {:induction false} NoEightbytes(t: Desc)
    ensures forall c :: Count(EightbyteClasses(t, 0), c) == 0
  {
  }

  method CountEightbytes(t: Desc) returns (gpr: nat, sse: nat)
    ensures gpr == Count(EightbyteClasses(t, CeilEighths(t.size)), INTEGER)
    ensures sse == Count(EightbyteClasses(t, CeilEighths(t.size)), SSE)
  {
    hide EightbyteIsSSE, Count, EightbyteClasses;
    NoEightbytes(t);
    gpr, sse := 0, 0;
    var nEightbytes, eb := CeilEighths(t.size), 0;
    while eb < nEightbytes
      invariant 0 <= eb <= nEightbytes
      invariant gpr == Count(EightbyteClasses(t, eb), INTEGER) && sse == Count(EightbyteClasses(t, eb), SSE)
    {
      EightbyteStep(t, eb, INTEGER);
      EightbyteStep(t, eb, SSE);
      var startOff := 8 * eb;
      var endOff := startOff + 8;
      if endOff > t.size {
        endOff := t.size;
      }
      var isSSE := ClassifyEightbyte(t, startOff, endOff);
      if isSSE { sse := sse + 1; } else { gpr := gpr + 1; }
      eb := eb + 1;
    }
  }

  method ClassifyArgument(t: Desc) returns (gpr: nat, sse: nat)
    ensures gpr == GprCount(t) && sse == SseCount(t)
  {
    gpr, sse := 0, 0;
    if IsFloat(t.kind) {
      sse := 1;
    } else if t.kind == StructType {
      if t.size <= 16 {
        gpr, sse := CountEightbytes(t);
      }
    } else {
      gpr := CeilEighths(t.size);
    }
  }

  function TotalGpr(ts: seq<Desc>, n: nat): nat
    requires n <= |ts|
  {
    if n == 0 then 0 else TotalGpr(ts, n - 1) + GprCount(ts[n - 1])
  }

  function TotalSse(ts: seq<Desc>, n: nat): nat
    requires n <= |ts|
  {
    if n == 0 then 0 else TotalSse(ts, n - 1) + SseCount(ts[n - 1])
  }

  function Over(n: nat, limit: nat): nat {
    if n > limit then n - limit else 0
  }

  /** The stack words the preparation allows for. */
  function PredictedOverflow(ts: seq<Desc>): nat {
    Over(TotalGpr(ts, |ts|), MAX_GPR) + Over(TotalSse(ts, |ts|), MAX_SSE)
  }

  predicate Accepted(ts: seq<Desc>) {
    PredictedOverflow(ts) <= MAX_STACK
  }

  /** preparePlatformSpecific on a Unix convention: false is ErrTooManyArguments. */
  method PreparePlatformSpecific(ts: seq<Desc>) returns (ok: bool)
    ensures ok <==> Accepted(ts)
  {
    hide GprCount, SseCount;
    var gprCount, sseCount := 0, 0;
    for i := 0 to |ts|
      invariant gprCount == TotalGpr(ts, i) && sseCount == TotalSse(ts, i)
    {
      var gpr, sse := ClassifyArgument(ts[i]);
      gprCount := gprCount + gpr;
      sseCount := sseCount + sse;
    }
    var gprStack, sseStack := 0, 0;
    if gprCount > MAX_GPR { gprStack := gprCount - MAX_GPR; }
    if sseCount > MAX_SSE { sseStack := sseCount - MAX_SSE; }
    ok := gprStack + sseStack <= MAX_STACK;
  }

  /** A descriptor whose size and members belong together: scalars take at most one word, and
      every member of a struct starts inside it. */
  predicate Consistent(t: Desc) {
    if t.kind == StructType then
      forall i :: 0 <= i < |t.members| ==> Offsets(t.members)[i] < t.size
    else IsFloat(t.kind) || 1 <= t.size <= 8
  }

  lemma {:induction false} CountOne(c: Class, d: Class)
    ensures Count([c], d) == if c == d then 1 else 0
  {
    assert [c][..0] == [];
  }

  lemma {:induction false} CountTwo(a: Class, b: Class, d: Class)
    ensures Count([a, b], d) == (if a == d then 1 else 0) + (if b == d then 1 else 0)
  {
    assert [a, b][..1] == [a];
    CountOne(a, d);
  }

  lemma {:induction false} CountAppend(a: seq<Class>, b: seq<Class>, d: Class)
    ensures Count(a + b, d) == Count(a, d) + Count(b, d)
  {
    if b == [] {
      assert a + b == a;
    } else {
      assert (a + b)[..|a + b| - 1] == a + b[..|b| - 1];
      CountAppend(a, b[..|b| - 1], d);
    }
  }

  lemma {:induction false} CountMemory(cs: seq<Class>)
    requires forall i :: 0 <= i < |cs| ==> cs[i] == MEMORY
    ensures Count(cs, INTEGER) == 0 && Count(cs, SSE) == 0 && Count(cs, MEMORY) == |cs|
  {
    if cs != [] { CountMemory(cs[..|cs| - 1]); }
  }

  /** The whole-struct test and the eightbyte test agree on a struct of one eightbyte. */
  lemma {:induction false} OneEightbyte(t: Desc)
    requires Consistent(t) && t.kind == StructType
    ensures AllFloats(t) == EightbyteIsSSE(t, 0, t.size)
  {
    var os := Offsets(t.members);
    if AllFloats(t) {
      assert 0 <= os[0] < t.size;
    }
  }

  /** The words of a struct that go to the stack whatever registers are free. */
  function MemoryWords(t: Desc): nat {
    if t.kind == StructType && t.size > 16 then CeilEighths(t.size) else 0
  }

  lemma {:induction false} PredictOne(t: Desc)
    requires Consistent(t) && t.kind == StructType && 0 < t.size <= 8
    ensures EightbyteClasses(t, 1) == ClassesOf(t) == [EightbyteClass(AllFloats(t))]
  {
    OneEightbyte(t);
    hide EightbyteIsSSE, AllFloats;
    assert EightbyteClasses(t, 0) == [];
  }

  lemma {:induction false} PredictTwo(t: Desc)
    requires t.kind == StructType && 8 < t.size <= 16
    ensures |ClassesOf(t)| == 2
    ensures EightbyteClasses(t, 2) == ClassesOf(t)
    ensures ClassesOf(t)[0] != MEMORY && ClassesOf(t)[1] != MEMORY
  {
    hide EightbyteIsSSE, AllFloats;
    assert EightbyteClasses(t, 0) == [];
    assert EightbyteClasses(t, 1) == [EightbyteClass(EightbyteIsSSE(t, 0, 8))];
  }

  lemma {:induction false} PredictScalar(t: Desc)
    requires t.kind != StructType
    ensures ClassesOf(t) == [EightbyteClass(IsFloat(t.kind))]
  {
  }

  lemma {:induction false} PredictMemory(t: Desc)
    requires t.kind == StructType && t.size > 16
    ensures |ClassesOf(t)| == CeilEighths(t.size) && forall i :: 0 <= i < |ClassesOf(t)| ==> ClassesOf(t)[i] == MEMORY
  {
  }

  lemma {:induction false} PredictNothing(t: Desc)
    requires t.kind == StructType && t.size == 0
    ensures ClassesOf(t) == [] == EightbyteClasses(t, 0)
  {
  }

  /** Per argument, the prediction counts exactly the register-class words Execute produces. */
  lemma {:induction false} PredictionMatches(t: Desc)
    requires Consistent(t)
    ensures GprCount(t) == Count(ClassesOf(t), INTEGER)
    ensures SseCount(t) == Count(ClassesOf(t), SSE)
    ensures MemoryWords(t) == Count(ClassesOf(t), MEMORY)
  {
    assert t.kind != StructType ==> IsFloat(t.kind) || 1 <= t.size <= 8;
    hide Consistent, Count, ClassesOf, EightbyteClasses, AllFloats;
    if t.kind != StructType {
      PredictScalar(t);
      CountOne(EightbyteClass(IsFloat(t.kind)), INTEGER);
      CountOne(EightbyteClass(IsFloat(t.kind)), SSE);
      CountOne(EightbyteClass(IsFloat(t.kind)), MEMORY);
    } else if t.size == 0 {
      PredictNothing(t);
      CountMemory([]);
    } else if t.size <= 8 {
      PredictOne(t);
      CountOne(EightbyteClass(AllFloats(t)), MEMORY);
    } else if t.size <= 16 {
      PredictTwo(t);
      var cs := ClassesOf(t);
      assert cs == [cs[0], cs[1]];
      CountTwo(cs[0], cs[1], MEMORY);
    } else {
      PredictMemory(t);
      CountMemory(ClassesOf(t));
    }
  }

  /** The stack words of any class stream, in closed form. */
  lemma {:induction false} StackFormula(cs: seq<Class>, gp: nat)
    ensures AdvanceAll(START, cs, gp) ==
            Cursor(Count(cs, INTEGER) - Over(Count(cs, INTEGER), gp),
                   Count(cs, SSE) - Over(Count(cs, SSE), FLOAT_REGS),
                   Over(Count(cs, INTEGER), gp) + Over(Count(cs, SSE), FLOAT_REGS) + Count(cs, MEMORY))
  {
    if cs != [] { StackFormula(cs[..|cs| - 1], gp); }
  }

  function TotalMemory(ts: seq<Desc>, n: nat): nat
    requires n <= |ts|
  {
    if n == 0 then 0 else TotalMemory(ts, n - 1) + MemoryWords(ts[n - 1])
  }

  lemma {:induction false} ArgsCounts(ts: seq<Desc>, avalue: seq<Arg>, n: nat)
    requires n <= |ts| && n <= |avalue| && AllReadable(ts, avalue) && forall i :: 0 <= i < |ts| ==> Consistent(ts[i])
    ensures var cs := Classes(ArgsItems(ts, avalue, n));
            && Count(cs, INTEGER) == TotalGpr(ts, n) && Count(cs, SSE) == TotalSse(ts, n)
            && Count(cs, MEMORY) == TotalMemory(ts, n)
  {
    hide Readable, Consistent, GprCount, SseCount, MemoryWords, ArgItems, ClassesOf, Count, Classes, AllReadable;
    if n == 0 {
      CountNothing();
    } else {
      var t, a := ts[n - 1], avalue[n - 1];
      ArgsCounts(ts, avalue, n - 1);
      PredictionMatches(t);
      ReadableAt(ts, avalue, n - 1);
      ArgItemsClasses(t, a);
      var before := ArgsItems(ts, avalue, n - 1);
      ClassesAppend(before, ArgItems(t, a));
      CountAppend(Classes(before), ClassesOf(t), INTEGER);
      CountAppend(Classes(before), ClassesOf(t), SSE);
      CountAppend(Classes(before), ClassesOf(t), MEMORY);
    }
  }

  predicate Supplied(ts: seq<Desc>, avalue: seq<Arg>) {
    |ts| <= |avalue| && AllReadable(ts, avalue) && forall i :: 0 <= i < |ts| ==> Consistent(ts[i])
  }

  /** Exactly how many stack words a call needs: the prediction, with the hidden result pointer and
      the MEMORY-class structs that the preparation does not count. */
  lemma {:induction false} StackWordsNeeded(ret: Desc, rvalue: Word, ts: seq<Desc>, avalue: seq<Arg>)
    requires Supplied(ts, avalue)
    ensures |Place(CallItems(ret, rvalue, ts, avalue), GP_REGS).stack| ==
            Over(TotalGpr(ts, |ts|) + (if ViaHiddenPointer(ret) then 1 else 0), MAX_GPR)
            + Over(TotalSse(ts, |ts|), MAX_SSE) + TotalMemory(ts, |ts|)
  {
    hide Place, Consistent, Readable;
    var hidden := if ViaHiddenPointer(ret) then [Item(INTEGER, rvalue)] else [];
    var rest := ArgsItems(ts, avalue, |ts|);
    var hs := if ViaHiddenPointer(ret) then [INTEGER] else [];
    assert CallItems(ret, rvalue, ts, avalue) == hidden + rest;
    assert Classes(hidden + rest) == hs + Classes(rest);
    ArgsCounts(ts, avalue, |ts|);
    CountAppend(hs, Classes(rest), INTEGER);
    CountAppend(hs, Classes(rest), SSE);
    CountAppend(hs, Classes(rest), MEMORY);
    if ViaHiddenPointer(ret) {
      CountOne(INTEGER, INTEGER); CountOne(INTEGER, SSE); CountOne(INTEGER, MEMORY);
    }
    hide Count, Classes, ArgsItems;
    StackFormula(hs + Classes(rest), GP_REGS);
    CursorAfter(hidden + rest, GP_REGS);
  }

  lemma {:induction false} NoMemory(ts: seq<Desc>, n: nat)
    requires n <= |ts| && forall i :: 0 <= i < |ts| ==> MemoryWords(ts[i]) == 0
    ensures TotalMemory(ts, n) == 0
  {
    if n != 0 { NoMemory(ts, n - 1); }
  }

  /** Prepared implies placeable: without a hidden result pointer and without structs above 16
      bytes, Execute needs exactly the predicted stack words, so it panics on no accepted
      interface and on every rejected one. */
  lemma {:induction false} PreparedIffPlaceable(ret: Desc, rvalue: Word, ts: seq<Desc>, avalue: seq<Arg>)
    requires Supplied(ts, avalue) && !ViaHiddenPointer(ret)
    requires forall i :: 0 <= i < |ts| ==> MemoryWords(ts[i]) == 0
    ensures |Place(CallItems(ret, rvalue, ts, avalue), GP_REGS).stack| == PredictedOverflow(ts)
    ensures Accepted(ts) <==> |Place(CallItems(ret, rvalue, ts, avalue), GP_REGS).stack| <= STACK_SLOTS
  {
    hide Place, CallItems, Consistent, Readable;
    StackWordsNeeded(ret, rvalue, ts, avalue);
    NoMemory(ts, |ts|);
  }

  const PTR_DESC := Desc(8, 8, PointerType, [])

  lemma {:induction false} PointerTotals(n: nat, m: nat)
    requires m <= n
    ensures var ts := seq(n, _ => PTR_DESC);
            TotalGpr(ts, m) == m && TotalSse(ts, m) == 0 && TotalMemory(ts, m) == 0
  {
    if m != 0 { PointerTotals(n, m - 1); }
  }

  /** The hidden result pointer is not predicted: fifteen pointer arguments are accepted, and the
      same list panics when the callee returns a 24-byte struct. */
  lemma {:induction false} HiddenPointerIsNotPredicted(avalue: seq<Arg>, rvalue: Word)
    requires |avalue| == 15 && forall i :: 0 <= i < 15 ==> |avalue[i].mem| >= 8
    ensures var ts := seq(15, _ => PTR_DESC);
            && Accepted(ts) && AllReadable(ts, avalue)
            && |Place(CallItems(Desc(24, 8, StructType, []), rvalue, ts, avalue), GP_REGS).stack| > STACK_SLOTS
  {
    hide Place, CallItems, Supplied, AllReadable, TotalGpr, TotalSse, TotalMemory;
    PointerTotals(15, 15);
    PointersSupplied(avalue);
    StackWordsNeeded(Desc(24, 8, StructType, []), rvalue, seq(15, _ => PTR_DESC), avalue);
  }

  lemma {:induction false} PointersSupplied(avalue: seq<Arg>)
    requires |avalue| == 15 && forall i :: 0 <= i < 15 ==> |avalue[i].mem| >= 8
    ensures Supplied(seq(15, _ => PTR_DESC), avalue) && AllReadable(seq(15, _ => PTR_DESC), avalue)
  {
    assert Parts(PTR_DESC) == [Part(INTEGER, 0, 8)];
    hide Parts;
    forall i | 0 <= i < 15 ensures Readable(PTR_DESC, avalue[i]) {
    }
  }
}
