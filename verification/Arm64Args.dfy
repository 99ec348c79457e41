/** The arm64 call direction: the words of a call, with the struct rules and the Apple boundary between
    fixed and variadic arguments. */
module Arm64Args {
  import opened Words
  import opened Types
  import opened Placement
  import opened Arm64Regs
  import opened Arm64Pack
  import opened Arm64Struct
  import opened Arm64Place
  import opened Arm64Hfa

  /** A sign-extending load. */
  function SignLoad(bs: seq<Byte>): Word
    requires 0 < |bs| <= 8
  {
    FromBytes(bs + seq(8 - |bs|, _ => if bs[|bs| - 1] >= 128 then 255 else 0))
  }

  predicate IsSigned(k: Kind) {
    k == SInt8Type || k == SInt16Type || k == SInt32Type
  }

  /** The value can be read, and the fields of a struct have fixed widths. */
  predicate GoodArg(t: Desc, a: Arg) {
    if t.kind == StructType then Supported(t) && InMemory(t, a.mem, 0) && t.size <= |a.mem|
    else FixedWidth(t.kind) ==> Width(t.kind) <= |a.mem|
  }

  /** The word of a scalar; kinds without a fixed width go by address. */
  function ScalarItem(t: Desc, a: Arg): Item
    requires t.kind != StructType && GoodArg(t, a)
  {
    if !FixedWidth(t.kind) then Item(INTEGER, a.address)
    else if IsFloat(t.kind) then Item(SSE, Load(a.mem[..Width(t.kind)]))
    else if IsSigned(t.kind) then Item(INTEGER, SignLoad(a.mem[..Width(t.kind)]))
    else Item(INTEGER, Load(a.mem[..Width(t.kind)]))
  }

  /** The words placed so far; once exhausted, nothing more goes to a register. */
  datatype State = State(items: seq<Item>, exhausted: bool)

  function IntsUsed(s: State): nat {
    if s.exhausted then GP_REGS else |Place(s.items, GP_REGS).ints|
  }

  function FloatsUsed(s: State): nat {
    if s.exhausted then FLOAT_REGS else |Place(s.items, GP_REGS).floats|
  }

  function Marked(x: Item, exhausted: bool): Item {
    Item(Tag(x.cls, exhausted), x.word)
  }

  /** One more word; it is dropped when every place is taken. */
  function Push(s: State, x: Item): State {
    var more := s.items + [Marked(x, s.exhausted)];
    if Fits(more) then s.(items := more) else s
  }

  /** An HFA without enough registers: its 4-byte units, one slot each, and its address when they do
      not all fit. */
  function Overflow(s: State, a: Arg, k: nat, n: nat): State
    requires k <= n && 4 * n <= |a.mem|
    decreases n - k
  {
    if k == n then s
    else
      var next := Push(s, Item(SSE, Load(a.mem[4 * k..4 * k + 4])));
      if next == s then Push(s, Item(INTEGER, a.address)) else Overflow(next, a, k + 1, n)
  }

  /** Execute's fit test. */
  predicate Admits(s: State, t: Desc) {
    if IsHfa(t) then FloatsUsed(s) + |ShapesOf(t)| <= FLOAT_REGS
    else t.size <= 16 && IntsUsed(s) + RegUsage(ShapesOf(t)).0 <= GP_REGS
         && FloatsUsed(s) + RegUsage(ShapesOf(t)).1 <= FLOAT_REGS
  }

  function StructStep(s: State, t: Desc, a: Arg): State
    requires t.kind == StructType && GoodArg(t, a)
  {
    if Admits(s, t) then s.(items := s.items + Tagged(Packed(LeavesOf(t, a.mem, 0)), s.exhausted))
    else if IsHfa(t) then Overflow(s, a, 0, t.size / 4)
    else Push(s, Item(INTEGER, a.address))
  }

  function ArgStep(s: State, t: Desc, a: Arg): State
    requires GoodArg(t, a)
  {
    if t.kind == StructType then StructStep(s, t, a) else Push(s, ScalarItem(t, a))
  }

  predicate AllGood(ts: seq<Desc>, avalue: seq<Arg>) {
    forall i :: 0 <= i < |ts| && i < |avalue| ==> GoodArg(ts[i], avalue[i])
  }

  /** The Apple boundary before argument idx. */
  predicate AtBoundary(darwin: bool, fixedArgCount: nat, idx: nat) {
    darwin && fixedArgCount > 0 && idx == fixedArgCount
  }

  /** The state after the first n arguments. */
  function After(darwin: bool, fixedArgCount: nat, ts: seq<Desc>, avalue: seq<Arg>, n: nat): State
    requires n <= |ts| && n <= |avalue| && AllGood(ts, avalue)
  {
    if n == 0 then State([], false)
    else
      var s := After(darwin, fixedArgCount, ts, avalue, n - 1);
      ArgStep(if AtBoundary(darwin, fixedArgCount, n - 1) then s.(exhausted := true) else s, ts[n - 1], avalue[n - 1])
  }

  lemma {:induction false} TaggedNone(exhausted: bool)
    ensures Tagged([], exhausted) == []
  {
  }

  lemma {:induction false} HfaUsesNoInts(s: State)
    ensures IntsUsed(s) <= GP_REGS
  {
  }

  /** Whatever passes the fit test fits. */
  lemma {:induction false} AdmittedFits(s: State, t: Desc, a: Arg)
    requires t.kind == StructType && GoodArg(t, a) && Fits(s.items) && Admits(s, t)
    ensures Supported(t) && Fits(s.items + Tagged(Packed(LeavesOf(t, a.mem, 0)), s.exhausted))
  {
    hide IsHfa, RegUsage, ShapesOf, LeavesOf, Packed, Place, Classes, Count, InMemory, Supported;
    if IsHfa(t) { HfaUsesFloatRegisters(t); HfaUsesNoInts(s); }
    if s.exhausted {
      NoRegistersNoWords(t, a.mem);
      TaggedNone(true);
      assert s.items + [] == s.items;
    } else {
      AdmittedStaysInRegisters(t, a.mem, s.items);
    }
  }
}
