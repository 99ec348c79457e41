/** countStructRegUsage as the source runs it: a recursive walk whose flush and counters mutate
    captured variables. */
module Arm64Count {
  import opened Bits
  import opened Types
  import opened Arm64Pack

  lemma {:induction false} CountAppend(c: Counter, a: seq<Shape>, b: seq<Shape>)
    ensures CountRun(c, a + b) == CountRun(CountRun(c, a), b)
  {
    hide CountStep;
    if b == [] {
      assert a + b == a;
    } else {
      var init := b[..|b| - 1];
      assert (a + b)[..|a + b| - 1] == a + init;
      CountAppend(c, a, init);
    }
  }

  lemma {:induction false} CountOne(c: Counter, s: Shape)
    ensures CountRun(c, [s]) == CountStep(c, s.kind, s.align)
  {
    assert [s][..0] == [];
  }

  lemma {:induction false} FlushEmpties(c: Counter)
    ensures CountFlush(c).shift == 0
  {
  }

  class RegCounter {
    var shift: nat
    var cls: nat
    var intCount: nat
    var floatCount: nat

    ghost function C(): Counter
      reads this
    {
      Counter(shift, cls, intCount, floatCount)
    }

    constructor ()
      ensures C() == COUNT_EMPTY
    {
      shift, cls, intCount, floatCount := 0, CLASS_NONE, 0, 0;
    }

    method FlushWord()
      modifies this
      ensures C() == CountFlush(old(C()))
    {
      if cls == CLASS_NONE {
        shift := 0;
        return;
      }
      if cls == CLASS_FLOAT {
        floatCount := floatCount + 1;
      } else {
        intCount := intCount + 1;
      }
      shift, cls := 0, CLASS_NONE;
    }

    /** To the alignment, and to the next word if that leaves this one. */
    method AlignTo(align: nat)
      modifies this
      ensures var c := old(C()).(shift := AlignMask(old(shift), 8 * align));
              C() == if c.shift >= 64 then CountFlush(c) else c
    {
      hide AlignMask, CountFlush;
      shift := AlignMask(shift, 8 * align);
      FlushEmpties(C());
      if shift >= 64 {
        FlushWord();
        shift := 0;
      }
    }

    /** One scalar. */
    method CountField(kind: Kind, align: nat)
      modifies this
      ensures C() == CountStep(old(C()), kind, align)
    {
      hide AlignMask, CountFlush;
      AlignTo(align);
      if kind == FloatType {
        if cls == CLASS_FLOAT { FlushWord(); }
        shift := shift + 32;
        cls := BitOr(cls, CLASS_FLOAT);
      } else if kind == DoubleType {
        FlushWord();
        floatCount := floatCount + 1;
        shift, cls := 0, CLASS_NONE;
      } else if kind == UInt8Type || kind == SInt8Type {
        shift := shift + 8;
        cls := BitOr(cls, CLASS_INT);
      } else if kind == UInt16Type || kind == SInt16Type {
        shift := shift + 16;
        cls := BitOr(cls, CLASS_INT);
      } else if kind == UInt32Type || kind == SInt32Type {
        shift := shift + 32;
        cls := BitOr(cls, CLASS_INT);
      } else {
        FlushWord();
        intCount := intCount + 1;
        shift, cls := 0, CLASS_NONE;
      }
    }

    method Walk(cur: Desc)
      modifies this
      ensures C() == CountRun(old(C()), ShapesOf(cur))
      decreases cur, 2
    {
      hide CountStep;
      if cur.kind == StructType {
        WalkMembers(cur);
      } else {
        CountOne(C(), Shape(cur.kind, cur.alignment));
        CountField(cur.kind, cur.alignment);
      }
    }

    method WalkMembers(cur: Desc)
      requires cur.kind == StructType
      modifies this
      ensures C() == CountRun(old(C()), ShapesOfAll(cur.members, |cur.members|))
      decreases cur, 1
    {
      hide CountStep, CountRun, ShapesOf;
      ghost var c := C();
      CountNone(c);
      var i := 0;
      while i < |cur.members|
        invariant 0 <= i <= |cur.members|
        invariant C() == CountRun(c, ShapesOfAll(cur.members, i))
      {
        CountAppend(c, ShapesOfAll(cur.members, i), ShapesOf(cur.members[i]));
        Walk(cur.members[i]);
        i := i + 1;
      }
    }
  }

  lemma {:induction false} CountNone(c: Counter)
    ensures CountRun(c, []) == c
  {
  }

  /** countStructRegUsage. */
  method CountStructRegUsage(desc: Desc) returns (intCount: nat, floatCount: nat)
    ensures (intCount, floatCount) == if desc.kind == StructType then RegUsage(ShapesOf(desc)) else (0, 0)
  {
    if desc.kind != StructType {
      return 0, 0;
    }
    hide CountRun, ShapesOf;
    var counter := new RegCounter();
    counter.Walk(desc);
    if counter.cls != CLASS_NONE {
      counter.FlushWord();
    }
    return counter.intCount, counter.floatCount;
  }
}
