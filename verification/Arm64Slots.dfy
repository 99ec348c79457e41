/** What an arm64 callee finds where: the registers and stack words taken are followed argument by argument,
    and every word is told by the argument's bytes. */
module Arm64Slots {
  import opened Words
  import opened WordBits
  import opened Types
  import opened Placement
  import opened Arm64Regs
  import opened Arm64Pack
  import opened Arm64Lossless
  import opened Arm64Struct
  import opened Arm64Place
  import opened Arm64Hfa
  import opened Arm64Args

  /* ---- places ---- */

  /** Whether another word of class cls finds a place: eight registers of either kind, seven stack slots. */
  predicate HasPlace(c: Cursor, cls: Class) {
    (cls == INTEGER && c.ints < 8) || (cls == SSE && c.floats < 8) || c.stack < 7
  }

  function TakeOne(c: Cursor, cls: Class): Cursor {
    if cls == INTEGER && c.ints < 8 then c.(ints := c.ints + 1)
    else if cls == SSE && c.floats < 8 then c.(floats := c.floats + 1)
    else if c.stack < 7 then c.(stack := c.stack + 1)
    else c
  }

  /** The area of the next word of class cls, and its index there. */
  function Area(p: Placed, c: Cursor, cls: Class): seq<Word> {
    if cls == INTEGER && c.ints < 8 then p.ints else if cls == SSE && c.floats < 8 then p.floats else p.stack
  }

  function Index(c: Cursor, cls: Class): nat {
    if cls == INTEGER && c.ints < 8 then c.ints else if cls == SSE && c.floats < 8 then c.floats else c.stack
  }

  /** That word is w, if it has a place. */
  predicate WordIn(p: Placed, c: Cursor, cls: Class, w: Word) {
    HasPlace(c, cls) ==> Index(c, cls) < |Area(p, c, cls)| && Area(p, c, cls)[Index(c, cls)] == w
  }

  predicate SliceIn(area: seq<Word>, at: nat, ws: seq<Word>) {
    ws != [] ==> at + |ws| <= |area| && area[at..at + |ws|] == ws
  }

  /* ---- one argument ---- */

  predicate Signed(k: Kind) {
    k == SInt8Type || k == SInt16Type || k == SInt32Type || k == SInt64Type
  }

  /** w is the 64-bit two's complement form of a signed value, the zero-extended form of any other, or the
      address of a value without a fixed width. */
  predicate IsValue(t: Desc, a: Arg, w: Word) {
    if !FixedWidth(t.kind) then w == a.address
    else
      && Width(t.kind) <= |a.mem|
      && var v := a.mem[..Width(t.kind)];
         Number(Bytes(w)) == if Signed(t.kind) && Number(v) >= Pow256(|v|) / 2
                             then Number(v) + Pow256(8) - Pow256(|v|)
                             else Number(v)
  }

  /** A struct goes to registers if its words all find one: an HFA of n elements in n float registers, any
      other of at most 16 bytes in as many as the counting walk says. */
  predicate InRegisters(c: Cursor, t: Desc) {
    if IsHfa(t) then c.floats + |ShapesOf(t)| <= 8
    else
      t.size <= 16 && c.ints + RegUsage(ShapesOf(t)).0 <= 8 && c.floats + RegUsage(ShapesOf(t)).1 <= 8
  }

  /** After n units of an HFA that does not find its registers. */
  function Units(c: Cursor, n: nat): Cursor {
    if n == 0 then c else TakeOne(Units(c, n - 1), SSE)
  }

  /** Whether all units find a place. */
  predicate UnitsFit(c: Cursor, n: nat) {
    c.floats + n + c.stack <= 15
  }

  predicate StructIn(p: Placed, c: Cursor, t: Desc, a: Arg)
    requires t.kind == StructType && GoodArg(t, a)
  {
    if InRegisters(c, t) then
      var ls := LeavesOf(t, a.mem, 0);
      && SliceIn(p.ints, c.ints, Of(Packed(ls), INTEGER))
      && SliceIn(p.floats, c.floats, if IsHfa(t) then AllWords(Elements(ls)) else Of(Packed(ls), SSE))
    else if IsHfa(t) then
      && (forall j :: 0 <= j < t.size / 4 ==> WordIn(p, Units(c, j), SSE, Load(a.mem[4 * j..4 * j + 4])))
      && (!UnitsFit(c, t.size / 4) ==> WordIn(p, Cursor(c.ints, 8, 7), INTEGER, a.address))
    else WordIn(p, c, INTEGER, a.address)
  }

  function ScalarClass(t: Desc): Class {
    if t.kind == FloatType || t.kind == DoubleType then SSE else INTEGER
  }

  /** The argument is in p where the cursor c says. */
  predicate Arrives(p: Placed, c: Cursor, t: Desc, a: Arg)
    requires GoodArg(t, a)
  {
    if t.kind == StructType then StructIn(p, c, t, a)
    else
      var cls := ScalarClass(t);
      HasPlace(c, cls) ==>
        Index(c, cls) < |Area(p, c, cls)| && IsValue(t, a, Area(p, c, cls)[Index(c, cls)])
  }

  /** The cursor after the argument. */
  function Taken(c: Cursor, t: Desc, a: Arg): Cursor
    requires GoodArg(t, a)
  {
    if t.kind != StructType then TakeOne(c, ScalarClass(t))
    else if InRegisters(c, t) then
      var items := Packed(LeavesOf(t, a.mem, 0));
      Cursor(c.ints + |Of(items, INTEGER)|, c.floats + |Of(items, SSE)|, c.stack)
    else if !IsHfa(t) then TakeOne(c, INTEGER)
    else if UnitsFit(c, t.size / 4) then Units(c, t.size / 4)
    else TakeOne(Cursor(c.ints, 8, 7), INTEGER)
  }

  /** The cursor at the i-th argument. From the first variadic argument on darwin on, no register is free. */
  function Reached(darwin: bool, fixedArgCount: nat, ts: seq<Desc>, avalue: seq<Arg>, i: nat): Cursor
    requires i <= |ts| && i <= |avalue| && AllGood(ts, avalue)
  {
    var c := if i == 0 then START
             else Taken(Reached(darwin, fixedArgCount, ts, avalue, i - 1), ts[i - 1], avalue[i - 1]);
    if darwin && i > 0 && i == fixedArgCount then Cursor(8, 8, c.stack) else c
  }

  /* ---- scalars ---- */

  lemma {:induction false} NumberOfOnes(n: nat)
    ensures Number(seq(n, _ => 255 as Byte)) == Pow256(n) - 1
  {
    if n != 0 {
      NumberOfOnes(n - 1);
      assert seq(n, _ => 255 as Byte)[1..] == seq(n - 1, _ => 255 as Byte);
    }
  }

  /** The top bit says whether the number is in the upper half. */
  lemma {:induction false} TopBit(bs: seq<Byte>)
    requires bs != []
    ensures bs[|bs| - 1] >= 128 <==> Number(bs) >= Pow256(|bs|) / 2
  {
    var n := |bs| - 1;
    NumberAppend(bs[..n], bs[n..]);
    assert bs == bs[..n] + bs[n..];
    assert Number(bs[n..]) == bs[n] by { assert bs[n..][1..] == []; }
    NumberBound(bs[..n]);
    TopHalf(Number(bs[..n]), Pow256(n), bs[n]);
  }

  lemma {:induction false} TopHalf(low: nat, p: nat, top: Byte)
    requires low < p
    ensures top >= 128 <==> low + p * top >= (256 * p) / 2
  {
    if top >= 128 { MulAtLeast(p, 128, top); } else { MulAtLeast(p, top, 127); }
  }

  lemma {:induction false} MulAtLeast(p: nat, a: nat, b: nat)
    requires a <= b
    ensures p * a <= p * b
  {
    assert p * b == p * a + p * (b - a);
  }

  lemma {:induction false} SignLoadIsValue(bs: seq<Byte>)
    requires 0 < |bs| <= 8
    ensures Number(Bytes(SignLoad(bs))) == if Number(bs) >= Pow256(|bs|) / 2
                                           then Number(bs) + Pow256(8) - Pow256(|bs|) else Number(bs)
  {
    hide Bytes, FromBytes, Number, Pow256;
    TopBit(bs);
    var n := 8 - |bs|;
    if bs[|bs| - 1] >= 128 {
      var ones := seq(n, _ => 255 as Byte);
      assert Bytes(SignLoad(bs)) == bs + ones;
      NumberAppend(bs, ones);
      NumberOfOnes(n);
      Pow256Add(|bs|, n);
      assert Pow256(|bs|) * (Pow256(n) - 1) == Pow256(8) - Pow256(|bs|);
    } else {
      assert Bytes(SignLoad(bs)) == bs + Zeros(n);
      NumberAppend(bs, Zeros(n));
      NumberZeros(n);
    }
  }

  lemma {:induction false} LoadIsValue(bs: seq<Byte>)
    requires |bs| <= 8
    ensures Number(Bytes(Load(bs))) == Number(bs)
  {
    hide Bytes, FromBytes, Number, Pow256;
    NumberAppend(bs, Zeros(8 - |bs|));
    NumberZeros(8 - |bs|);
  }

  lemma {:induction false} ScalarIs(t: Desc, a: Arg)
    requires t.kind != StructType && GoodArg(t, a)
    ensures ScalarItem(t, a).cls == ScalarClass(t) && IsValue(t, a, ScalarItem(t, a).word)
  {
    hide Bytes, Number, Pow256, Load, SignLoad;
    if FixedWidth(t.kind) {
      LoadIsValue(a.mem[..Width(t.kind)]);
      SignLoadIsValue(a.mem[..Width(t.kind)]);
      if Width(t.kind) == 8 { EightBytes(a.mem[..Width(t.kind)]); }
    }
  }

  lemma {:induction false} EightBytes(v: seq<Byte>)
    requires |v| == 8
    ensures Number(v) + Pow256(8) - Pow256(|v|) == Number(v)
  {
  }

  /* ---- the allocator's cursor ---- */

  function UseOf(s: State): Cursor {
    Cursor(IntsUsed(s), FloatsUsed(s), |Place(s.items, GP_REGS).stack|)
  }

  /** q holds what p holds where p holds it. */
  predicate Extends(p: Placed, q: Placed) {
    p.ints <= q.ints && p.floats <= q.floats && p.stack <= q.stack
  }

  /** A step that leaves everything placed before where it is. */
  predicate Keeps(s: State, q: State) {
    Fits(q.items) && q.exhausted == s.exhausted && Extends(Place(s.items, GP_REGS), Place(q.items, GP_REGS))
  }

  lemma {:induction false} KeepsTrans(a: State, b: State, c: State)
    requires Keeps(a, b) && Keeps(b, c)
    ensures Keeps(a, c)
  {
    hide Place, Fits;
  }

  lemma {:induction false} WordStays(p: Placed, q: Placed, c: Cursor, cls: Class, w: Word)
    requires Extends(p, q) && WordIn(p, c, cls, w)
    ensures WordIn(q, c, cls, w)
  {
  }

  lemma {:induction false} ArrivesStays(p: Placed, q: Placed, c: Cursor, t: Desc, a: Arg)
    requires GoodArg(t, a) && Extends(p, q) && Arrives(p, c, t, a)
    ensures Arrives(q, c, t, a)
  {
    hide GoodArg, IsHfa, ShapesOf, LeavesOf, Packed, Elements, Load, RegUsage, Of, IsValue, AllWords, Units, Width;
    if t.kind == StructType && !InRegisters(c, t) && IsHfa(t) {
      hide WordIn;
      HfaStays(p, q, c, t, a);
    }
  }

  lemma {:induction false} HfaStays(p: Placed, q: Placed, c: Cursor, t: Desc, a: Arg)
    requires t.kind == StructType && GoodArg(t, a) && Extends(p, q) && StructIn(p, c, t, a)
    requires !InRegisters(c, t) && IsHfa(t)
    ensures StructIn(q, c, t, a)
  {
    hide IsHfa, ShapesOf, LeavesOf, Packed, Elements, Load, RegUsage, Of, AllWords, Units, WordIn, InRegisters, Extends;
    forall j | 0 <= j < t.size / 4 ensures WordIn(q, Units(c, j), SSE, Load(a.mem[4 * j..4 * j + 4])) {
      WordStays(p, q, Units(c, j), SSE, Load(a.mem[4 * j..4 * j + 4]));
    }
    if !UnitsFit(c, t.size / 4) { WordStays(p, q, Cursor(c.ints, 8, 7), INTEGER, a.address); }
  }

  /** One more word takes one more place, if there is one. */
  lemma {:induction false} PushTakes(s: State, x: Item)
    requires Fits(s.items) && x.cls != MEMORY
    ensures var q := Push(s, x);
            && Keeps(s, q) && UseOf(q) == TakeOne(UseOf(s), x.cls)
            && WordIn(Place(q.items, GP_REGS), UseOf(s), x.cls, x.word)
            && (q == s <==> !HasPlace(UseOf(s), x.cls))
  {
    PlaceStep(s.items, Marked(x, s.exhausted), GP_REGS);
    hide Place;
    assert s.items + [Marked(x, s.exhausted)] != s.items;
  }

  lemma {:induction false} UnitsStep(c: Cursor, n: nat)
    ensures Units(TakeOne(c, SSE), n) == Units(c, n + 1)
  {
    if n != 0 { UnitsStep(c, n - 1); }
  }

  /** The units fill the float registers, then the stack. */
  lemma {:induction false} UnitsAre(c: Cursor, n: nat)
    requires c.floats <= 8 && c.stack <= 7 && c.floats + n + c.stack <= 15
    ensures Units(c, n) == if c.floats + n <= 8 then c.(floats := c.floats + n)
                           else Cursor(c.ints, 8, c.stack + (c.floats + n - 8))
  {
    if n != 0 { UnitsAre(c, n - 1); }
  }

  lemma {:induction false} UnitsFull(c: Cursor, n: nat)
    requires !HasPlace(c, SSE)
    ensures Units(c, n) == c
  {
    if n != 0 { UnitsFull(c, n - 1); }
  }

  /* ---- every step takes its places ---- */

  /** What an HFA that does not find its registers leaves behind, from its k-th unit on. */
  predicate OverflowIn(p: Placed, c: Cursor, a: Arg, k: nat, n: nat)
    requires k <= n && 4 * n <= |a.mem|
  {
    && (forall j :: k <= j < n ==> WordIn(p, Units(c, j - k), SSE, Load(a.mem[4 * j..4 * j + 4])))
    && (!UnitsFit(c, n - k) ==> WordIn(p, Cursor(c.ints, 8, 7), INTEGER, a.address))
  }

  lemma {:induction false} OverflowTakes(s: State, a: Arg, k: nat, n: nat)
    requires k <= n && 4 * n <= |a.mem| && Fits(s.items)
    ensures var c, q := UseOf(s), Overflow(s, a, k, n);
            && Keeps(s, q) && OverflowIn(Place(q.items, GP_REGS), c, a, k, n)
            && UseOf(q) == if UnitsFit(c, n - k) then Units(c, n - k) else TakeOne(Cursor(c.ints, 8, 7), INTEGER)
    decreases n - k
  {
    hide Push, Load, Place, Units, WordIn, Keeps, Extends;
    var c := UseOf(s);
    UseIsBounded(s);
    if k == n {
      KeepsSelf(s);
      assert Units(c, 0) == c by { NoUnits(c); }
    } else {
      var x := Item(SSE, Load(a.mem[4 * k..4 * k + 4]));
      var next := Push(s, x);
      PushTakes(s, x);
      if next == s {
        PushTakes(s, Item(INTEGER, a.address));
        OverflowFull(Place(Push(s, Item(INTEGER, a.address)).items, GP_REGS), c, a, k, n);
      } else {
        assert Fits(next.items) by { KeepsFits(s, next); }
        OverflowTakes(next, a, k + 1, n);
        var q := Overflow(next, a, k + 1, n);
        KeepsTrans(s, next, q);
        KeepsWord(next, q, c, SSE, x.word);
        OverflowMore(Place(q.items, GP_REGS), c, a, k, n);
      }
    }
  }

  lemma {:induction false} UseIsBounded(s: State)
    requires Fits(s.items)
    ensures UseOf(s).ints <= 8 && UseOf(s).floats <= 8 && UseOf(s).stack <= 7
  {
  }

  lemma {:induction false} KeepsSelf(s: State)
    requires Fits(s.items)
    ensures Keeps(s, s)
  {
  }

  lemma {:induction false} KeepsFits(s: State, q: State)
    requires Keeps(s, q)
    ensures Fits(q.items)
  {
  }

  lemma {:induction false} KeepsWord(s: State, q: State, c: Cursor, cls: Class, w: Word)
    requires Keeps(s, q) && WordIn(Place(s.items, GP_REGS), c, cls, w)
    ensures WordIn(Place(q.items, GP_REGS), c, cls, w)
  {
    hide Place, Fits;
    WordStays(Place(s.items, GP_REGS), Place(q.items, GP_REGS), c, cls, w);
  }

  lemma {:induction false} NoUnits(c: Cursor)
    ensures Units(c, 0) == c
  {
  }

  lemma {:induction false} OverflowFull(p: Placed, c: Cursor, a: Arg, k: nat, n: nat)
    requires k < n && 4 * n <= |a.mem| && !HasPlace(c, SSE) && c.floats <= 8 && c.stack <= 7
    requires WordIn(p, c, INTEGER, a.address)
    ensures OverflowIn(p, c, a, k, n) && !UnitsFit(c, n - k) && c == Cursor(c.ints, 8, 7)
  {
    hide Load;
    forall j | k <= j < n ensures WordIn(p, Units(c, j - k), SSE, Load(a.mem[4 * j..4 * j + 4])) {
      UnitsFull(c, j - k);
    }
  }

  lemma {:induction false} OverflowMore(p: Placed, c: Cursor, a: Arg, k: nat, n: nat)
    requires k < n && 4 * n <= |a.mem| && HasPlace(c, SSE) && c.floats <= 8 && c.stack <= 7
    requires WordIn(p, c, SSE, Load(a.mem[4 * k..4 * k + 4])) && OverflowIn(p, TakeOne(c, SSE), a, k + 1, n)
    ensures OverflowIn(p, c, a, k, n)
    ensures UnitsFit(c, n - k) <==> UnitsFit(TakeOne(c, SSE), n - (k + 1))
    ensures Units(c, n - k) == Units(TakeOne(c, SSE), n - (k + 1))
  {
    hide WordIn, Units, Load;
    NoUnits(c);
    UnitsStep(c, n - (k + 1));
    forall j | k <= j < n ensures WordIn(p, Units(c, j - k), SSE, Load(a.mem[4 * j..4 * j + 4])) {
      if j > k { UnitsStep(c, j - (k + 1)); }
    }
  }

  lemma {:induction false} OfStep(items: seq<Item>, x: Item, c: Class)
    ensures Of(items + [x], c) == Of(items, c) + (if x.cls == c then [x.word] else [])
  {
    assert (items + [x])[..|items|] == items;
  }

  /** Words that all find a register extend the two register areas. */
  lemma {:induction false} RegistersAppend(base: seq<Item>, more: seq<Item>)
    requires |Place(base, GP_REGS).ints| + |Of(more, INTEGER)| <= 8
    requires |Place(base, GP_REGS).floats| + |Of(more, SSE)| <= 8
    requires AllRegisterClasses(more)
    ensures var p := Place(base, GP_REGS);
            Place(base + more, GP_REGS) == Placed(p.ints + Of(more, INTEGER), p.floats + Of(more, SSE), p.stack)
    decreases |more|
  {
    hide Place;
    if more == [] {
      assert base + more == base;
    } else {
      hide Of;
      var n := |more| - 1;
      var x := more[n];
      assert more == more[..n] + [x];
      OfStep(more[..n], x, INTEGER);
      OfStep(more[..n], x, SSE);
      RegistersAppend(base, more[..n]);
      assert base + more == (base + more[..n]) + [x];
      PlaceStep(base + more[..n], x, GP_REGS);
    }
  }

  lemma {:induction false} OfElements(ls: seq<Leaf>)
    requires GoodLeaves(ls)
    ensures Of(Elements(ls), SSE) == AllWords(Elements(ls))
  {
    AllOf(Elements(ls), SSE);
  }

  lemma {:induction false} AllOf(items: seq<Item>, c: Class)
    requires forall k :: 0 <= k < |items| ==> items[k].cls == c
    ensures Of(items, c) == AllWords(items)
  {
    if items != [] {
      var n := |items| - 1;
      AllOf(items[..n], c);
      assert AllWords(items) == AllWords(items[..n]) + [items[n].word];
    }
  }

  /** The words of a struct, by class, are no more than it counts as. */
  lemma {:induction false} PackedCounts(t: Desc, mem: seq<Byte>)
    requires Supported(t) && InMemory(t, mem, 0)
    ensures var items := Packed(LeavesOf(t, mem, 0));
            && |Of(items, INTEGER)| <= RegUsage(ShapesOf(t)).0 && |Of(items, SSE)| <= RegUsage(ShapesOf(t)).1
            && AllRegisterClasses(items)
  {
    hide RegUsage, Packed, Classes, Count, ShapesOf, LeavesOf, Supported, InMemory, Run, Shapes, Of;
    var ls := LeavesOf(t, mem, 0);
    ShapesOfLeaves(t, mem, 0);
    CountCoversPlace(ls);
    PackedInRegisters(ls);
    OfCount(Packed(ls), INTEGER);
    OfCount(Packed(ls), SSE);
  }

  lemma {:induction false} HfaElements(t: Desc, mem: seq<Byte>)
    requires IsHfa(t) && Supported(t) && InMemory(t, mem, 0)
    ensures var ls := LeavesOf(t, mem, 0); Of(Packed(ls), SSE) == AllWords(Elements(ls))
  {
    hide RegUsage, Packed, ShapesOf, LeavesOf, Supported, InMemory, Shapes, Of, Elements, Homogeneous, NoEmptyStruct;
    var ls := LeavesOf(t, mem, 0);
    ShapesOfLeaves(t, mem, 0);
    HfaPacks(ls);
    OfElements(ls);
  }

  lemma {:induction false} FitTest(s: State, t: Desc)
    ensures InRegisters(UseOf(s), t) <==> Admits(s, t)
    ensures InRegisters(UseOf(s), t) ==>
              if IsHfa(t) then UseOf(s).floats + |ShapesOf(t)| <= 8
              else UseOf(s).ints + RegUsage(ShapesOf(t)).0 <= 8 && UseOf(s).floats + RegUsage(ShapesOf(t)).1 <= 8
  {
    hide IsHfa, RegUsage, ShapesOf, Place;
  }

  /** Where an allocator that is not exhausted stands. */
  lemma {:induction false} UseIs(s: State)
    requires !s.exhausted
    ensures UseOf(s) == CursorOf(Place(s.items, GP_REGS))
  {
    hide Place;
  }

  lemma {:induction false} ExhaustedUse(s: State)
    requires s.exhausted
    ensures UseOf(s) == Cursor(8, 8, |Place(s.items, GP_REGS).stack|)
  {
    hide Place;
  }

  /** The words of a struct that passes the fit test extend the register areas. */
  lemma {:induction false} AdmittedPlaces(s: State, t: Desc, a: Arg)
    requires t.kind == StructType && GoodArg(t, a) && Fits(s.items) && InRegisters(UseOf(s), t)
    ensures var items, p := Packed(LeavesOf(t, a.mem, 0)), Place(s.items, GP_REGS);
            var q := s.items + Tagged(items, s.exhausted);
            && Place(q, GP_REGS) == Placed(p.ints + Of(items, INTEGER), p.floats + Of(items, SSE), p.stack)
            && Fits(q) && (s.exhausted ==> items == [])
  {
    hide IsHfa, RegUsage, ShapesOf, LeavesOf, Packed, Place, InMemory, Supported, UseOf, InRegisters, Fits, Of, Admits;
    hide GoodArg, Tagged, AllRegisterClasses;
    GoodStruct(t, a);
    FitTest(s, t);
    AdmittedFits(s, t, a);
    PackedCounts(t, a.mem);
    if IsHfa(t) { HfaUsesFloatRegisters(t); }
    UseIsBounded(s);
    var items := Packed(LeavesOf(t, a.mem, 0));
    if s.exhausted {
      ExhaustedUse(s);
      NoRegistersNoWords(t, a.mem);
      TaggedNone(true);
      assert s.items + [] == s.items;
      OfNone();
    } else {
      UseIs(s);
      NotTagged(items);
      RegistersAppend(s.items, items);
    }
  }

  lemma {:induction false} GoodStruct(t: Desc, a: Arg)
    requires t.kind == StructType && GoodArg(t, a)
    ensures Supported(t) && InMemory(t, a.mem, 0) && t.size <= |a.mem|
  {
    hide Supported, InMemory;
  }

  lemma {:induction false} NotTagged(items: seq<Item>)
    ensures Tagged(items, false) == items
  {
  }

  lemma {:induction false} OfNone()
    ensures forall c :: Of([], c) == []
  {
  }

  /** A struct that passes the fit test. */
  lemma {:induction false} AdmittedTakes(s: State, t: Desc, a: Arg)
    requires t.kind == StructType && GoodArg(t, a) && Fits(s.items) && InRegisters(UseOf(s), t)
    ensures var q := ArgStep(s, t, a);
            Keeps(s, q) && UseOf(q) == Taken(UseOf(s), t, a) && Arrives(Place(q.items, GP_REGS), UseOf(s), t, a)
  {
    hide IsHfa, RegUsage, ShapesOf, LeavesOf, Packed, Place, InMemory, Supported, InRegisters, Fits, Of, Admits;
    hide Elements, AllWords, Tagged, GoodArg, UseOf;
    GoodStruct(t, a);
    FitTest(s, t);
    AdmittedPlaces(s, t, a);
    if IsHfa(t) { HfaUsesFloatRegisters(t); HfaElements(t, a.mem); }
    var q := ArgStep(s, t, a);
    if s.exhausted {
      ExhaustedUse(s); ExhaustedUse(q);
      OfNone();
    } else {
      UseIs(s); UseIs(q);
    }
  }

  /** Any other struct: the units of an HFA, or the address. */
  lemma {:induction false} OverflowingTakes(s: State, t: Desc, a: Arg)
    requires t.kind == StructType && GoodArg(t, a) && Fits(s.items) && !InRegisters(UseOf(s), t)
    ensures var q := ArgStep(s, t, a);
            Keeps(s, q) && UseOf(q) == Taken(UseOf(s), t, a) && Arrives(Place(q.items, GP_REGS), UseOf(s), t, a)
  {
    hide IsHfa, RegUsage, ShapesOf, Place, Supported, InMemory, InRegisters, Fits, Admits, UseOf, Push, Overflow;
    hide Units, WordIn, Keeps, Load, UnitsFit, GoodArg;
    GoodStruct(t, a);
    FitTest(s, t);
    if IsHfa(t) {
      OverflowTakes(s, a, 0, t.size / 4);
      UnitsIn(Place(Overflow(s, a, 0, t.size / 4).items, GP_REGS), UseOf(s), a, t.size / 4);
    } else {
      PushTakes(s, Item(INTEGER, a.address));
    }
  }

  lemma {:induction false} UnitsIn(p: Placed, c: Cursor, a: Arg, n: nat)
    requires 4 * n <= |a.mem| && OverflowIn(p, c, a, 0, n)
    ensures forall j :: 0 <= j < n ==> WordIn(p, Units(c, j), SSE, Load(a.mem[4 * j..4 * j + 4]))
    ensures !UnitsFit(c, n) ==> WordIn(p, Cursor(c.ints, 8, 7), INTEGER, a.address)
  {
    hide Units, WordIn, Load;
    forall j | 0 <= j < n ensures WordIn(p, Units(c, j), SSE, Load(a.mem[4 * j..4 * j + 4])) {
      assert Units(c, j - 0) == Units(c, j);
    }
  }

  /** Every argument takes the places said, arrives there, and moves nothing placed before. */
  lemma {:induction false} StepTakes(s: State, t: Desc, a: Arg)
    requires GoodArg(t, a) && Fits(s.items)
    ensures var q := ArgStep(s, t, a);
            Keeps(s, q) && UseOf(q) == Taken(UseOf(s), t, a) && Arrives(Place(q.items, GP_REGS), UseOf(s), t, a)
  {
    if t.kind != StructType {
      hide Place, GoodArg, Fits, UseOf, Push, ScalarItem, Keeps, IsValue;
      ScalarIs(t, a);
      PushTakes(s, ScalarItem(t, a));
    } else if InRegisters(UseOf(s), t) {
      AdmittedTakes(s, t, a);
    } else {
      OverflowingTakes(s, t, a);
    }
  }

  /* ---- the whole call ---- */

  /** The state in which the i-th argument is placed. */
  function AtArg(darwin: bool, fixedArgCount: nat, ts: seq<Desc>, avalue: seq<Arg>, i: nat): State
    requires i <= |ts| && i <= |avalue| && AllGood(ts, avalue)
  {
    var s := After(darwin, fixedArgCount, ts, avalue, i);
    if AtBoundary(darwin, fixedArgCount, i) then s.(exhausted := true) else s
  }

  lemma {:induction false} GoodAt(ts: seq<Desc>, avalue: seq<Arg>, i: nat)
    requires AllGood(ts, avalue) && i < |ts| && i < |avalue|
    ensures GoodArg(ts[i], avalue[i])
  {
    hide GoodArg;
  }

  lemma {:induction false} AfterStep(darwin: bool, fixed: nat, ts: seq<Desc>, avalue: seq<Arg>, i: nat)
    requires i < |ts| && i < |avalue| && AllGood(ts, avalue) && GoodArg(ts[i], avalue[i])
    ensures After(darwin, fixed, ts, avalue, i + 1) == ArgStep(AtArg(darwin, fixed, ts, avalue, i), ts[i], avalue[i])
  {
    hide GoodArg, ArgStep;
  }

  /** Exhausting the allocators moves the cursor and no word. */
  lemma {:induction false} BoundaryUse(s: State)
    ensures UseOf(s.(exhausted := true)) == Cursor(8, 8, UseOf(s).stack)
  {
    hide Place;
  }

  lemma {:induction false} CursorIs(darwin: bool, fixed: nat, ts: seq<Desc>, avalue: seq<Arg>, i: nat)
    requires i <= |ts| && i <= |avalue| && AllGood(ts, avalue)
    ensures Fits(After(darwin, fixed, ts, avalue, i).items)
    ensures UseOf(AtArg(darwin, fixed, ts, avalue, i)) == Reached(darwin, fixed, ts, avalue, i)
  {
    hide GoodArg, ArgStep, Place, Fits, UseOf, Taken, AllGood, Arrives;
    BoundaryUse(After(darwin, fixed, ts, avalue, i));
    if i == 0 {
      NothingUsed();
    } else {
      CursorIs(darwin, fixed, ts, avalue, i - 1);
      GoodAt(ts, avalue, i - 1);
      AfterStep(darwin, fixed, ts, avalue, i - 1);
      StepTakes(AtArg(darwin, fixed, ts, avalue, i - 1), ts[i - 1], avalue[i - 1]);
    }
  }

  lemma {:induction false} NothingUsed()
    ensures Fits([]) && UseOf(State([], false)) == START
  {
  }

  lemma {:induction false} EverGrows(darwin: bool, fixed: nat, ts: seq<Desc>, avalue: seq<Arg>, i: nat, n: nat)
    requires i <= n <= |ts| && n <= |avalue| && AllGood(ts, avalue)
    ensures Extends(Place(After(darwin, fixed, ts, avalue, i).items, GP_REGS),
                    Place(After(darwin, fixed, ts, avalue, n).items, GP_REGS))
    decreases n
  {
    hide GoodArg, ArgStep, Place, Fits, UseOf, Taken, AllGood, Arrives;
    if i < n {
      EverGrows(darwin, fixed, ts, avalue, i, n - 1);
      CursorIs(darwin, fixed, ts, avalue, n - 1);
      GoodAt(ts, avalue, n - 1);
      AfterStep(darwin, fixed, ts, avalue, n - 1);
      StepTakes(AtArg(darwin, fixed, ts, avalue, n - 1), ts[n - 1], avalue[n - 1]);
    }
  }

  /** Every argument that has a value is where the arguments before it put it. */
  ghost predicate AllArrive(p: Placed, darwin: bool, fixedArgCount: nat, ts: seq<Desc>, avalue: seq<Arg>)
    requires AllGood(ts, avalue)
  {
    forall i {:trigger ts[i], avalue[i]} :: 0 <= i < |ts| && i < |avalue| ==>
      GoodArg(ts[i], avalue[i]) && Arrives(p, Reached(darwin, fixedArgCount, ts, avalue, i), ts[i], avalue[i])
  }

  /** The register file after the last argument holds all arguments. */
  lemma {:induction false} RegistersHoldAll(regs: RegFile, darwin: bool, fixed: nat, ts: seq<Desc>, avalue: seq<Arg>,
      n: nat)
    requires AllGood(ts, avalue) && n == (if |ts| <= |avalue| then |ts| else |avalue|)
    requires regs.Holds(After(darwin, fixed, ts, avalue, n).items)
    ensures AllArrive(Placed(regs.gpr, regs.fpr, regs.stackArgs), darwin, fixed, ts, avalue)
  {
    hide GoodArg, ArgStep, Place, Fits, UseOf, AllGood, Arrives, After, RegFile.Holds, Reached, Keeps, Extends;
    var all := Placed(regs.gpr, regs.fpr, regs.stackArgs);
    var held := Place(After(darwin, fixed, ts, avalue, n).items, GP_REGS);
    assert Extends(held, all) by { HeldIn(regs, After(darwin, fixed, ts, avalue, n).items); }
    forall i | 0 <= i < |ts| && i < |avalue|
      ensures GoodArg(ts[i], avalue[i]) && Arrives(all, Reached(darwin, fixed, ts, avalue, i), ts[i], avalue[i])
    {
      GoodAt(ts, avalue, i);
      ArgHeld(darwin, fixed, ts, avalue, i, n);
      ArrivesStays(held, all, Reached(darwin, fixed, ts, avalue, i), ts[i], avalue[i]);
    }
  }

  lemma {:induction false} StackReached(darwin: bool, fixed: nat, ts: seq<Desc>, avalue: seq<Arg>, n: nat)
    requires n <= |ts| && n <= |avalue| && AllGood(ts, avalue)
    ensures |Place(After(darwin, fixed, ts, avalue, n).items, GP_REGS).stack| ==
            Reached(darwin, fixed, ts, avalue, n).stack
  {
    hide GoodArg, ArgStep, Place, Fits, AllGood, Reached, After;
    CursorIs(darwin, fixed, ts, avalue, n);
  }

  lemma {:induction false} HeldIn(regs: RegFile, items: seq<Item>)
    requires regs.Holds(items)
    ensures Extends(Place(items, GP_REGS), Placed(regs.gpr, regs.fpr, regs.stackArgs))
  {
    hide Place;
  }

  lemma {:induction false} ArgHeld(darwin: bool, fixed: nat, ts: seq<Desc>, avalue: seq<Arg>, i: nat, n: nat)
    requires i < n <= |ts| && n <= |avalue| && AllGood(ts, avalue) && GoodArg(ts[i], avalue[i])
    ensures Arrives(Place(After(darwin, fixed, ts, avalue, n).items, GP_REGS), Reached(darwin, fixed, ts, avalue, i),
                    ts[i], avalue[i])
  {
    hide GoodArg, ArgStep, Place, Fits, UseOf, AllGood, Arrives, After, Reached, Keeps, Extends, Taken;
    CursorIs(darwin, fixed, ts, avalue, i);
    AfterStep(darwin, fixed, ts, avalue, i);
    StepTakes(AtArg(darwin, fixed, ts, avalue, i), ts[i], avalue[i]);
    EverGrows(darwin, fixed, ts, avalue, i + 1, n);
    ArrivesStays(Place(After(darwin, fixed, ts, avalue, i + 1).items, GP_REGS),
                 Place(After(darwin, fixed, ts, avalue, n).items, GP_REGS),
                 Reached(darwin, fixed, ts, avalue, i), ts[i], avalue[i]);
  }

  /** An HFA that does not find its registers is cut into 4-byte units, and some of these still go to float
      registers exactly if one is left. */
  lemma {:induction false} OverflowSplitsIff(c: Cursor, t: Desc)
    requires IsHfa(t) && LaidOut(t) && !InRegisters(c, t) && c.floats <= 8
    ensures t.size / 4 == if ShapesOf(t)[0].kind == FloatType then |ShapesOf(t)| else 2 * |ShapesOf(t)|
    ensures (exists j :: 0 <= j < t.size / 4 && Units(c, j).floats < 8) <==> c.floats < 8
  {
    hide LaidOut, NoEmptyStruct, ShapesOf;
    NotEmptyHasLeaves(t);
    assert AllOfKind(ShapesOf(t), ShapesOf(t)[0].kind);
    OneKindSize(t, ShapesOf(t)[0].kind);
    hide IsHfa, Homogeneous, InRegisters;
    NoUnits(c);
    if c.floats < 8 {
      assert 0 < t.size / 4 && Units(c, 0).floats < 8;
    } else {
      forall j | 0 <= j < t.size / 4 ensures Units(c, j).floats >= 8 { UnitsOnlyTake(c, j); }
    }
  }

  lemma {:induction false} UnitsOnlyTake(c: Cursor, n: nat)
    ensures c.floats <= Units(c, n).floats
  {
    if n != 0 { UnitsOnlyTake(c, n - 1); }
  }
}
