/** Calls on arm64: what is dropped and when, the Apple variadic area, and the round trip of scalar
    lists through callbackWrap. */
module Arm64Scalars {
  import opened Words
  import opened Types
  import opened Placement
  import opened Arm64Regs
  import opened Arm64Pack
  import opened Arm64Place
  import opened Arm64Count
  import opened Arm64Hfa
  import opened Arm64Args
  import S = Arm64Slots
  import L = Arm64Struct
  import P = Amd64Prepare

  /** A list of scalars, each with a value. */
  predicate Scalars(ts: seq<Desc>, avalue: seq<Arg>) {
    |ts| <= |avalue| && AllGood(ts, avalue) && forall i :: 0 <= i < |ts| ==> ts[i].kind != StructType
  }

  /** One word an argument. */
  function ScalarItems(ts: seq<Desc>, avalue: seq<Arg>): (items: seq<Item>)
    requires Scalars(ts, avalue)
    ensures |items| == |ts|
  {
    seq(|ts|, i requires 0 <= i < |ts| => ScalarItem(ts[i], avalue[i]))
  }

  /** No argument from the n-th on, or none at all, is variadic in the Apple sense. */
  predicate NoBoundary(darwin: bool, fixedArgCount: nat, n: nat) {
    !darwin || fixedArgCount == 0 || n <= fixedArgCount
  }

  lemma {:induction false} FitsPrefixOf(a: seq<Item>, b: seq<Item>)
    requires a <= b && Fits(b)
    ensures Fits(a)
  {
    assert b == a + b[|a|..];
    StackGrows(a, b[|a|..], GP_REGS);
  }

  lemma {:induction false} ScalarStep(s: State, t: Desc, a: Arg)
    requires t.kind != StructType && GoodArg(t, a) && !s.exhausted
    ensures ArgStep(s, t, a) ==
            (if Fits(s.items + [ScalarItem(t, a)]) then s.(items := s.items + [ScalarItem(t, a)]) else s)
  {
    hide ScalarItem, Fits;
  }

  /** Once a word is dropped, one is missing for good. */
  lemma {:induction false} NeverMore(darwin: bool, fixed: nat, ts: seq<Desc>, avalue: seq<Arg>, n: nat)
    requires Scalars(ts, avalue) && n <= |ts| && NoBoundary(darwin, fixed, n)
    ensures var s := After(darwin, fixed, ts, avalue, n);
            && !s.exhausted && |s.items| <= n && Fits(s.items)
            && (|s.items| == n ==> s.items == ScalarItems(ts, avalue)[..n])
  {
    hide ScalarItem, ArgStep, GoodArg;
    if n == 0 {
      assert Fits([]) by { EmptyFits(); }
    } else {
      NeverMore(darwin, fixed, ts, avalue, n - 1);
      hide Fits;
      ScalarStep(After(darwin, fixed, ts, avalue, n - 1), ts[n - 1], avalue[n - 1]);
    }
  }

  lemma {:induction false} EmptyFits()
    ensures Fits([])
  {
  }

  /** Without an Apple boundary the scalars are placed one word each, in order and all of them, exactly
      when they fit. */
  lemma {:induction false} NothingDroppedIff(darwin: bool, fixed: nat, ts: seq<Desc>, avalue: seq<Arg>, n: nat)
    requires Scalars(ts, avalue) && n <= |ts| && NoBoundary(darwin, fixed, n)
    ensures After(darwin, fixed, ts, avalue, n) == State(ScalarItems(ts, avalue)[..n], false)
            <==> Fits(ScalarItems(ts, avalue)[..n])
  {
    hide ScalarItem, ArgStep, GoodArg, Fits;
    NeverMore(darwin, fixed, ts, avalue, n);
    if n != 0 && Fits(ScalarItems(ts, avalue)[..n]) {
      var all := ScalarItems(ts, avalue);
      assert all[..n] == all[..n - 1] + [ScalarItem(ts[n - 1], avalue[n - 1])];
      FitsPrefixOf(all[..n - 1], all[..n]);
      NothingDroppedIff(darwin, fixed, ts, avalue, n - 1);
      ScalarStep(After(darwin, fixed, ts, avalue, n - 1), ts[n - 1], avalue[n - 1]);
    }
  }

  /* ---- against the preparation ---- */

  function GprCount(t: Desc): nat {
    if IsFloat(t.kind) || IsHfa(t) then 0
    else if t.kind == StructType then (if t.size > 16 then 1 else RegUsage(ShapesOf(t)).0)
    else P.CeilEighths(t.size)
  }

  function FprCount(t: Desc): nat {
    if IsFloat(t.kind) then 1
    else if IsHfa(t) then |ShapesOf(t)|
    else if t.kind == StructType && t.size <= 16 then RegUsage(ShapesOf(t)).1
    else 0
  }

  /** classifyArgumentARM64 on a descriptor whose layout is filled in. */
  method ClassifyArgument(t: Desc) returns (gpr: nat, fpr: nat)
    ensures gpr == GprCount(t) && fpr == FprCount(t)
  {
    hide IsHfa, RegUsage, ShapesOf;
    gpr, fpr := 0, 0;
    if t.kind == FloatType || t.kind == DoubleType {
      FloatIsNotHfa(t);
      fpr := 1;
    } else if t.kind == StructType {
      var isHfa, hfaCount, kind := IsHomogeneousFloatAggregate(t);
      if isHfa && hfaCount <= 4 {
        fpr := hfaCount;
      } else if t.size > 16 {
        gpr := 1;
      } else {
        gpr, fpr := CountStructRegUsage(t);
      }
    } else {
      FloatIsNotHfa(t);
      gpr := P.CeilEighths(t.size);
    }
  }

  lemma {:induction false} FloatIsNotHfa(t: Desc)
    requires t.kind != StructType
    ensures !IsHfa(t)
  {
  }

  function TotalGpr(ts: seq<Desc>, n: nat): nat
    requires n <= |ts|
  {
    if n == 0 then 0 else TotalGpr(ts, n - 1) + GprCount(ts[n - 1])
  }

  function TotalFpr(ts: seq<Desc>, n: nat): nat
    requires n <= |ts|
  {
    if n == 0 then 0 else TotalFpr(ts, n - 1) + FprCount(ts[n - 1])
  }

  /** The preparation's limits are those of amd64 on both architectures. */
  predicate Accepted(ts: seq<Desc>) {
    P.Over(TotalGpr(ts, |ts|), P.MAX_GPR) + P.Over(TotalFpr(ts, |ts|), P.MAX_SSE) <= P.MAX_STACK
  }

  /** preparePlatformSpecific: false is ErrTooManyArguments. */
  method PreparePlatformSpecific(ts: seq<Desc>) returns (ok: bool)
    ensures ok <==> Accepted(ts)
  {
    hide GprCount, FprCount;
    var gprCount, fprCount := 0, 0;
    for i := 0 to |ts|
      invariant gprCount == TotalGpr(ts, i) && fprCount == TotalFpr(ts, i)
    {
      var gpr, fpr := ClassifyArgument(ts[i]);
      gprCount := gprCount + gpr;
      fprCount := fprCount + fpr;
    }
    var gprStack, fprStack := 0, 0;
    if gprCount > P.MAX_GPR { gprStack := gprCount - P.MAX_GPR; }
    if fprCount > P.MAX_SSE { fprStack := fprCount - P.MAX_SSE; }
    ok := gprStack + fprStack <= P.MAX_STACK;
  }

  /** Scalars of one to eight bytes. */
  predicate OneWordEach(ts: seq<Desc>) {
    forall i :: 0 <= i < |ts| ==> ts[i].kind != StructType && (IsFloat(ts[i].kind) || 1 <= ts[i].size <= 8)
  }

  lemma {:induction false} ScalarCounts(ts: seq<Desc>, avalue: seq<Arg>, n: nat)
    requires Scalars(ts, avalue) && OneWordEach(ts) && n <= |ts|
    ensures var cs := Classes(ScalarItems(ts, avalue)[..n]);
            && Count(cs, INTEGER) == TotalGpr(ts, n) && Count(cs, SSE) == TotalFpr(ts, n) && Count(cs, MEMORY) == 0
  {
    hide IsHfa, Load, SignLoad, GoodArg;
    var all := ScalarItems(ts, avalue);
    if n != 0 {
      ScalarCounts(ts, avalue, n - 1);
      FloatIsNotHfa(ts[n - 1]);
      ClassesInit(all[..n]);
      assert all[..n][..n - 1] == all[..n - 1];
      hide Count;
      CountLast(Classes(all[..n]));
    }
  }

  lemma {:induction false} CountLast(cs: seq<Class>)
    requires cs != []
    ensures forall c :: Count(cs, c) == Count(cs[..|cs| - 1], c) + (if cs[|cs| - 1] == c then 1 else 0)
  {
  }

  /** The stack words of a scalar list. */
  lemma {:induction false} ScalarStack(ts: seq<Desc>, avalue: seq<Arg>)
    requires Scalars(ts, avalue) && OneWordEach(ts)
    ensures |Place(ScalarItems(ts, avalue), GP_REGS).stack| ==
            P.Over(TotalGpr(ts, |ts|), GP_REGS) + P.Over(TotalFpr(ts, |ts|), FLOAT_REGS)
  {
    hide Place, TotalGpr, TotalFpr, Count, Classes, AdvanceAll, Scalars, OneWordEach, ScalarItems;
    var items := ScalarItems(ts, avalue);
    ScalarCounts(ts, avalue, |ts|);
    assert items[..|ts|] == items;
    P.StackFormula(Classes(items), GP_REGS);
    CursorAfter(items, GP_REGS);
  }

  /** Of a list the preparation accepted, Execute drops nothing exactly when there are at least eight
      integer arguments or at most fifteen floating-point ones. */
  lemma {:induction false} AcceptedNothingDroppedIff(darwin: bool, fixed: nat, ts: seq<Desc>, avalue: seq<Arg>)
    requires Scalars(ts, avalue) && OneWordEach(ts) && NoBoundary(darwin, fixed, |ts|) && Accepted(ts)
    ensures After(darwin, fixed, ts, avalue, |ts|) == State(ScalarItems(ts, avalue), false)
            <==> TotalGpr(ts, |ts|) >= 8 || TotalFpr(ts, |ts|) <= 15
  {
    hide Place, TotalGpr, TotalFpr, Scalars, OneWordEach, ScalarItems, After;
    var items := ScalarItems(ts, avalue);
    assert items[..|ts|] == items;
    NothingDroppedIff(darwin, fixed, ts, avalue, |ts|);
    ScalarStack(ts, avalue);
  }

  /* ---- structs ---- */

  /** Scalars of at most a word, and structs whose counts are exact: HFAs, structs above 16 bytes, and structs
      of naturally aligned leaves. */
  predicate Counted(t: Desc) {
    if t.kind == StructType then t.size > 16 || IsHfa(t) || Natural(t)
    else IsFloat(t.kind) || 1 <= t.size <= 8
  }

  lemma {:induction false} StructCounts(t: Desc, a: Arg)
    requires t.kind == StructType && GoodArg(t, a) && Counted(t) && (t.size <= 16 || IsHfa(t))
    ensures Supported(t) && InMemory(t, a.mem, 0)
    ensures var items := Packed(LeavesOf(t, a.mem, 0));
            |Of(items, INTEGER)| == GprCount(t) && |Of(items, SSE)| == FprCount(t)
    ensures RegUsage(ShapesOf(t)) == (GprCount(t), FprCount(t))
  {
    hide IsHfa, RegUsage, ShapesOf, LeavesOf, Packed, Supported, InMemory, Natural, Of, Classes, Count, Elements;
    S.GoodStruct(t, a);
    var items := Packed(LeavesOf(t, a.mem, 0));
    OfCount(items, INTEGER);
    OfCount(items, SSE);
    if IsHfa(t) {
      HfaUsesFloatRegisters(t);
      S.PackedCounts(t, a.mem);
      HfaLength(t, a.mem);
    } else {
      L.CountEqualsPlaceOf(t, a.mem);
    }
  }

  lemma {:induction false} HfaLength(t: Desc, mem: seq<Byte>)
    requires IsHfa(t) && Supported(t) && InMemory(t, mem, 0)
    ensures |Of(Packed(LeavesOf(t, mem, 0)), SSE)| == |ShapesOf(t)|
  {
    hide IsHfa, ShapesOf, LeavesOf, Packed, Supported, InMemory, Of, Elements, Shapes;
    S.HfaElements(t, mem);
    ShapesOfLeaves(t, mem, 0);
    ShapesLength(LeavesOf(t, mem, 0));
  }

  /** What the preparation counts for an argument, scalar or struct, is what it takes, while there are as many
      registers. */
  lemma {:induction false} CountedIsTaken(c: Cursor, t: Desc, a: Arg)
    requires GoodArg(t, a) && Counted(t) && c.ints + GprCount(t) <= 8 && c.floats + FprCount(t) <= 8
    ensures S.Taken(c, t, a) == Cursor(c.ints + GprCount(t), c.floats + FprCount(t), c.stack)
  {
    hide IsHfa, RegUsage, ShapesOf, LeavesOf, Packed, Natural, Of, Supported, InMemory;
    if t.kind != StructType {
      FloatIsNotHfa(t);
    } else if t.size <= 16 || IsHfa(t) {
      StructCounts(t, a);
    }
  }

  /** A list that is counted within the registers is passed in them: all of every argument, no struct by
      reference, nothing on the stack. */
  lemma {:induction false} CountedInRegisters(darwin: bool, fixed: nat, ts: seq<Desc>, avalue: seq<Arg>, n: nat)
    requires n <= |ts| <= |avalue| && AllGood(ts, avalue) && forall i :: 0 <= i < |ts| ==> Counted(ts[i])
    requires !darwin || fixed == 0 || n < fixed
    requires TotalGpr(ts, n) <= 8 && TotalFpr(ts, n) <= 8
    ensures S.Reached(darwin, fixed, ts, avalue, n) == Cursor(TotalGpr(ts, n), TotalFpr(ts, n), 0)
    ensures forall i :: 0 <= i < n && ts[i].kind == StructType && !(ts[i].size > 16 && !IsHfa(ts[i])) ==>
              S.InRegisters(S.Reached(darwin, fixed, ts, avalue, i), ts[i])
  {
    hide IsHfa, GoodArg, GprCount, FprCount, Counted, S.Taken, S.InRegisters;
    if n != 0 {
      CountedInRegisters(darwin, fixed, ts, avalue, n - 1);
      S.GoodAt(ts, avalue, n - 1);
      CountedIsTaken(S.Reached(darwin, fixed, ts, avalue, n - 1), ts[n - 1], avalue[n - 1]);
      CountedIsIn(S.Reached(darwin, fixed, ts, avalue, n - 1), ts[n - 1], avalue[n - 1]);
    }
  }

  lemma {:induction false} CountedIsIn(c: Cursor, t: Desc, a: Arg)
    requires GoodArg(t, a) && Counted(t) && c.ints + GprCount(t) <= 8 && c.floats + FprCount(t) <= 8
    ensures t.kind == StructType && !(t.size > 16 && !IsHfa(t)) ==> S.InRegisters(c, t)
  {
    hide IsHfa, RegUsage, ShapesOf, LeavesOf, Packed, Natural, Of, Supported, InMemory;
    if t.kind == StructType && (t.size <= 16 || IsHfa(t)) { StructCounts(t, a); }
  }

  /* ---- the Apple boundary ---- */

  predicate OnlyStack(items: seq<Item>) {
    forall i :: 0 <= i < |items| ==> items[i].cls == MEMORY
  }

  /** t is reached from s by adding stack words only. */
  predicate StackAfter(s: State, t: State) {
    s.exhausted && t.exhausted && s.items <= t.items && OnlyStack(t.items[|s.items|..])
  }

  lemma {:induction false} StackAfterTrans(a: State, b: State, c: State)
    requires StackAfter(a, b) && StackAfter(b, c)
    ensures StackAfter(a, c)
  {
    assert c.items[|a.items|..] == b.items[|a.items|..] + c.items[|b.items|..];
  }

  lemma {:induction false} PushStack(s: State, x: Item)
    requires s.exhausted
    ensures StackAfter(s, Push(s, x))
  {
    hide Fits;
    assert (s.items + [Marked(x, true)])[|s.items|..] == [Marked(x, true)];
  }

  lemma {:induction false} OverflowStack(s: State, a: Arg, k: nat, n: nat)
    requires s.exhausted && k <= n && 4 * n <= |a.mem|
    ensures StackAfter(s, Overflow(s, a, k, n))
    decreases n - k
  {
    hide Push, Load;
    PushStack(s, Item(INTEGER, a.address));
    if k < n {
      var x := Item(SSE, Load(a.mem[4 * k..4 * k + 4]));
      PushStack(s, x);
      if Push(s, x) != s {
        OverflowStack(Push(s, x), a, k + 1, n);
        StackAfterTrans(s, Push(s, x), Overflow(Push(s, x), a, k + 1, n));
      }
    }
  }

  lemma {:induction false} StepStack(s: State, t: Desc, a: Arg)
    requires s.exhausted && GoodArg(t, a)
    ensures StackAfter(s, ArgStep(s, t, a))
  {
    hide Push, Overflow, Admits, IsHfa, ScalarItem;
    if t.kind != StructType {
      PushStack(s, ScalarItem(t, a));
    } else if Admits(s, t) {
      TaggedStack(s, Packed(LeavesOf(t, a.mem, 0)));
    } else if IsHfa(t) {
      OverflowStack(s, a, 0, t.size / 4);
    } else {
      PushStack(s, Item(INTEGER, a.address));
    }
  }

  lemma {:induction false} TaggedStack(s: State, items: seq<Item>)
    requires s.exhausted
    ensures StackAfter(s, s.(items := s.items + Tagged(items, true)))
  {
    assert (s.items + Tagged(items, true))[|s.items|..] == Tagged(items, true);
  }

  lemma {:induction false} AfterBoundary(fixed: nat, ts: seq<Desc>, avalue: seq<Arg>, n: nat)
    requires 0 < fixed < n <= |ts| && n <= |avalue| && AllGood(ts, avalue)
    ensures StackAfter(After(true, fixed, ts, avalue, fixed).(exhausted := true), After(true, fixed, ts, avalue, n))
  {
    hide ArgStep, GoodArg, StackAfter;
    var s := After(true, fixed, ts, avalue, fixed).(exhausted := true);
    if n == fixed + 1 {
      StepStack(s, ts[n - 1], avalue[n - 1]);
    } else {
      var b := After(true, fixed, ts, avalue, n - 1);
      AfterBoundary(fixed, ts, avalue, n - 1);
      assert b.exhausted by { StillExhausted(s, b); }
      StepStack(b, ts[n - 1], avalue[n - 1]);
      StackAfterTrans(s, b, After(true, fixed, ts, avalue, n));
    }
  }

  lemma {:induction false} StillExhausted(s: State, t: State)
    requires StackAfter(s, t)
    ensures t.exhausted
  {
  }

  lemma {:induction false} OnlyStackPlaces(base: seq<Item>, tail: seq<Item>)
    requires OnlyStack(tail)
    ensures Place(base + tail, GP_REGS) == Place(base, GP_REGS).(stack := Place(base, GP_REGS).stack + AllWords(tail))
    decreases |tail|
  {
    hide Place;
    if tail == [] {
      assert base + tail == base && AllWords(tail) == [];
    } else {
      var n := |tail| - 1;
      OnlyStackPlaces(base, tail[..n]);
      assert base + tail == (base + tail[..n]) + [tail[n]];
      assert AllWords(tail) == AllWords(tail[..n]) + [tail[n].word];
      PlaceStep(base + tail[..n], tail[n], GP_REGS);
    }
  }

  /** On darwin, everything from the fixed count on, scalars and structs alike, takes consecutive
      stack slots after the spills of the fixed arguments, and no register. */
  lemma {:induction false} VariadicOnStack(fixed: nat, ts: seq<Desc>, avalue: seq<Arg>)
    requires 0 < fixed < |ts| <= |avalue| && AllGood(ts, avalue)
    ensures var before, all := After(true, fixed, ts, avalue, fixed).items, After(true, fixed, ts, avalue, |ts|).items;
            var p := Place(before, GP_REGS);
            before <= all
            && Place(all, GP_REGS) == p.(stack := p.stack + AllWords(all[|before|..]))
  {
    hide Place, After, AllGood, AllWords;
    AfterBoundary(fixed, ts, avalue, |ts|);
    var before, all := After(true, fixed, ts, avalue, fixed).items, After(true, fixed, ts, avalue, |ts|).items;
    assert all == before + all[|before|..];
    OnlyStackPlaces(before, all[|before|..]);
  }

  /** The words of scalar variadic arguments, in order, while they fit. */
  lemma {:induction false} VariadicScalars(fixed: nat, ts: seq<Desc>, avalue: seq<Arg>, n: nat)
    requires 0 < fixed <= n <= |ts| && Scalars(ts, avalue)
    requires Fits(ScalarItems(ts, avalue)[..fixed])
    requires |Place(ScalarItems(ts, avalue)[..fixed], GP_REGS).stack| + (n - fixed) <= STACK_SLOTS
    ensures After(true, fixed, ts, avalue, n) ==
            State(ScalarItems(ts, avalue)[..fixed] + Tagged(ScalarItems(ts, avalue)[fixed..n], true), n > fixed)
    decreases n
  {
    hide ScalarItem, ArgStep, GoodArg, Place, Fits;
    var all := ScalarItems(ts, avalue);
    if n == fixed {
      NothingDroppedIff(true, fixed, ts, avalue, fixed);
      assert all[..fixed] + Tagged(all[fixed..fixed], true) == all[..fixed];
    } else {
      VariadicScalars(fixed, ts, avalue, n - 1);
      var tail, x := Tagged(all[fixed..n - 1], true), ScalarItem(ts[n - 1], avalue[n - 1]);
      assert Tagged(all[fixed..n], true) == tail + [Marked(x, true)];
      assert all[..fixed] + (tail + [Marked(x, true)]) == (all[..fixed] + tail) + [Marked(x, true)];
      VariadicFits(all[..fixed], tail + [Marked(x, true)]);
      ExhaustedStep(State(all[..fixed] + tail, true), ts[n - 1], avalue[n - 1]);
    }
  }

  lemma {:induction false} ExhaustedStep(s: State, t: Desc, a: Arg)
    requires t.kind != StructType && GoodArg(t, a) && s.exhausted
    requires Fits(s.items + [Marked(ScalarItem(t, a), true)])
    ensures ArgStep(s, t, a) == State(s.items + [Marked(ScalarItem(t, a), true)], true)
  {
    hide ScalarItem, Fits;
  }

  lemma {:induction false} VariadicFits(base: seq<Item>, tail: seq<Item>)
    requires OnlyStack(tail) && |Place(base, GP_REGS).stack| + |tail| <= STACK_SLOTS
    ensures Fits(base + tail)
  {
    hide Place;
    OnlyStackPlaces(base, tail);
  }
}
