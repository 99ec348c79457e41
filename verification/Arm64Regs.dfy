/** The AAPCS64 register allocator: X0-X7, D0-D7 and seven stack slots. */
module Arm64Regs {
  import opened Words
  import opened Placement

  const GP_REGS: nat := 8
  const STACK_SLOTS: nat := 7

  /** Whether the words all find a place. */
  predicate Fits(items: seq<Item>) {
    |Place(items, GP_REGS).stack| <= STACK_SLOTS
  }

  /** Once the allocators are exhausted every word is a stack word. */
  function Tag(c: Class, exhausted: bool): Class {
    if exhausted then MEMORY else c
  }

  /** The three files keep their length; a store replaces one element. */
  class RegFile {
    var gpr: seq<Word>
    var fpr: seq<Word>
    var stackArgs: seq<Word>
    var gprIdx: nat
    var fprIdx: nat
    var stackIdx: nat
    ghost var exhausted: bool

    /** The arrays are exactly the placement of items; unused slots are zero. */
    ghost predicate Holds(items: seq<Item>)
      reads this
    {
      var p := Place(items, GP_REGS);
      && Fits(items)
      && gprIdx == (if exhausted then GP_REGS else |p.ints|)
      && fprIdx == (if exhausted then FLOAT_REGS else |p.floats|)
      && stackIdx == |p.stack|
      && gpr == Pad(p.ints, GP_REGS) && fpr == Pad(p.floats, FLOAT_REGS)
      && stackArgs == Pad(p.stack, STACK_SLOTS)
    }

    constructor ()
      ensures Holds([]) && !exhausted
    {
      gpr, fpr, stackArgs := Pad([], GP_REGS), Pad([], FLOAT_REGS), Pad([], STACK_SLOTS);
      gprIdx, fprIdx, stackIdx, exhausted := 0, 0, 0, false;
    }

    /** The Apple variadic boundary: no register is free from here on. */
    method Exhaust(ghost items: seq<Item>)
      requires Holds(items)
      modifies this
      ensures Holds(items) && exhausted
    {
      gprIdx, fprIdx, exhausted := GP_REGS, FLOAT_REGS, true;
    }

    method AddStack(x: Word, ghost c: Class, ghost items: seq<Item>) returns (ok: bool)
      requires Holds(items)
      requires !FindsRegister(Classes(items), c, GP_REGS)
      modifies this
      ensures exhausted == old(exhausted)
      ensures ok <==> Fits(items + [Item(c, x)])
      ensures Holds(if ok then items + [Item(c, x)] else items)
    {
      PlaceStep(items, Item(c, x), GP_REGS);
      OfCount(items, INTEGER);
      OfCount(items, SSE);
      ghost var p := Place(items, GP_REGS);
      if stackIdx < STACK_SLOTS {
        stackArgs := stackArgs[stackIdx := x];
        stackIdx := stackIdx + 1;
        assert stackArgs == Pad(p.stack + [x], STACK_SLOTS);
        return true;
      }
      return false;
    }

    /** False drops the word: registers and stack slots are all taken. */
    method AddInt(x: Word, ghost items: seq<Item>) returns (ok: bool)
      requires Holds(items)
      modifies this
      ensures exhausted == old(exhausted)
      ensures var y := Item(Tag(INTEGER, exhausted), x);
              (ok <==> Fits(items + [y])) && Holds(if ok then items + [y] else items)
    {
      if gprIdx < GP_REGS {
        PlaceStep(items, Item(INTEGER, x), GP_REGS);
        ghost var p := Place(items, GP_REGS);
        gpr := gpr[gprIdx := x];
        gprIdx := gprIdx + 1;
        assert gpr == Pad(p.ints + [x], GP_REGS);
        ok := true;
      } else {
        OfCount(items, INTEGER);
        ok := AddStack(x, Tag(INTEGER, exhausted), items);
      }
    }

    method AddFloat(x: Word, ghost items: seq<Item>) returns (ok: bool)
      requires Holds(items)
      modifies this
      ensures exhausted == old(exhausted)
      ensures var y := Item(Tag(SSE, exhausted), x);
              (ok <==> Fits(items + [y])) && Holds(if ok then items + [y] else items)
    {
      if fprIdx < FLOAT_REGS {
        PlaceStep(items, Item(SSE, x), GP_REGS);
        ghost var p := Place(items, GP_REGS);
        fpr := fpr[fprIdx := x];
        fprIdx := fprIdx + 1;
        assert fpr == Pad(p.floats + [x], FLOAT_REGS);
        ok := true;
      } else {
        OfCount(items, SSE);
        ok := AddStack(x, Tag(SSE, exhausted), items);
      }
    }
  }
}
