/** How the arm64 marshaller packs a struct into register words, as a machine over its leaves, and
    the separate machine that only counts the registers. */
module Arm64Pack {
  import opened Bits
  import opened Words
  import opened Types
  import opened Placement

  /** A fixed-width field reached by the walk: its kind, its alignment and its bytes. */
  datatype Leaf = Leaf(kind: Kind, align: nat, bytes: seq<Byte>)

  const CLASS_NONE: nat := 0
  const CLASS_FLOAT: nat := 1
  const CLASS_INT: nat := 2

  /** The word under construction and the words already handed to a register. */
  datatype Packer = Packer(val: Word, shift: nat, cls: nat, out: seq<Item>)

  const EMPTY := Packer(ZERO, 0, CLASS_NONE, [])

  function Flush(p: Packer): Packer {
    if p.cls == CLASS_NONE then p.(val := ZERO, shift := 0)
    else Packer(ZERO, 0, CLASS_NONE, p.out + [Item(if p.cls == CLASS_FLOAT then SSE else INTEGER, p.val)])
  }

  /** Move to the next position a field of this alignment may take; a full word is flushed. */
  function Realign(p: Packer, align: nat): Packer {
    var shift := AlignMask(p.shift, 8 * align);
    if shift >= 64 then Flush(p.(shift := shift)) else p.(shift := shift)
  }

  /** Or a field into the word at the current position. */
  function Insert(p: Packer, bytes: seq<Byte>, cls: nat): Packer
    requires |bytes| <= 8
  {
    p.(val := Or(p.val, ShiftLeft(Load(bytes), p.shift)),
       shift := p.shift + 8 * |bytes|,
       cls := BitOr(p.cls, cls))
  }

  predicate GoodLeaf(l: Leaf) {
    FixedWidth(l.kind) && |l.bytes| == Width(l.kind)
  }

  predicate GoodLeaves(ls: seq<Leaf>) {
    forall i :: 0 <= i < |ls| ==> GoodLeaf(ls[i])
  }

  /** One leaf of the placing walk. Fields of eight bytes go straight to a register. */
  function Step(p: Packer, l: Leaf): Packer
    requires GoodLeaf(l)
  {
    var q := Realign(p, l.align);
    if Width(l.kind) == 8 then
      Packer(ZERO, 0, CLASS_NONE, q.out + [Item(if IsFloat(l.kind) then SSE else INTEGER, Load(l.bytes))])
    else if l.kind == FloatType then
      Insert(if q.cls == CLASS_FLOAT then Flush(q) else q, l.bytes, CLASS_FLOAT)
    else Insert(q, l.bytes, CLASS_INT)
  }

  /** The placing walk from p over ls. */
  function Run(p: Packer, ls: seq<Leaf>): Packer
    requires GoodLeaves(ls)
  {
    if ls == [] then p else Step(Run(p, ls[..|ls| - 1]), ls[|ls| - 1])
  }

  /** The words a struct with these leaves is passed in. */
  function Packed(ls: seq<Leaf>): seq<Item>
    requires GoodLeaves(ls)
  {
    Flush(Run(EMPTY, ls)).out
  }

  lemma {:induction false} RunAppend(p: Packer, a: seq<Leaf>, b: seq<Leaf>)
    requires GoodLeaves(a) && GoodLeaves(b)
    ensures GoodLeaves(a + b)
    ensures Run(p, a + b) == Run(Run(p, a), b)
  {
    hide Step, GoodLeaf;
    assert GoodLeaves(a + b);
    if b == [] {
      assert a + b == a;
    } else {
      var init := b[..|b| - 1];
      assert (a + b)[..|a + b| - 1] == a + init;
      RunAppend(p, a, init);
    }
  }

  lemma {:induction false} PowTimes8(a: nat)
    requires IsPow2(a)
    ensures IsPow2(8 * a) && a >= 1
  {
    var k: nat :| a == Pow2(k);
    assert Pow2(k + 3) == 2 * Pow2(k + 2) == 4 * Pow2(k + 1) == 8 * Pow2(k);
  }

  /* ---- counting ---- */

  /** countStructRegUsage's state. Unlike the placer it flushes before every eight-byte field. */
  datatype Counter = Counter(shift: nat, cls: nat, ints: nat, floats: nat)

  function CountFlush(c: Counter): Counter {
    if c.cls == CLASS_NONE then c.(shift := 0)
    else if c.cls == CLASS_FLOAT then Counter(0, CLASS_NONE, c.ints, c.floats + 1)
    else Counter(0, CLASS_NONE, c.ints + 1, c.floats)
  }

  /** One leaf of the counting walk; unsupported kinds count as one integer register. */
  function CountStep(c: Counter, kind: Kind, align: nat): Counter {
    var shift := AlignMask(c.shift, 8 * align);
    var d := if shift >= 64 then CountFlush(c.(shift := shift)) else c.(shift := shift);
    if kind == FloatType then
      var e := if d.cls == CLASS_FLOAT then CountFlush(d) else d;
      e.(shift := e.shift + 32, cls := BitOr(e.cls, CLASS_FLOAT))
    else if kind == DoubleType then
      var e := CountFlush(d);
      Counter(0, CLASS_NONE, e.ints, e.floats + 1)
    else if FixedWidth(kind) && Width(kind) < 8 then
      d.(shift := d.shift + 8 * Width(kind), cls := BitOr(d.cls, CLASS_INT))
    else
      var e := CountFlush(d);
      Counter(0, CLASS_NONE, e.ints + 1, e.floats)
  }

  /** The kind and alignment of a leaf, which is all the counting walk sees. */
  datatype Shape = Shape(kind: Kind, align: nat)

  function CountRun(c: Counter, ss: seq<Shape>): Counter {
    if ss == [] then c
    else CountStep(CountRun(c, ss[..|ss| - 1]), ss[|ss| - 1].kind, ss[|ss| - 1].align)
  }

  const COUNT_EMPTY := Counter(0, CLASS_NONE, 0, 0)

  /** (integer registers, float registers). */
  function RegUsage(ss: seq<Shape>): (nat, nat) {
    var c := CountFlush(CountRun(COUNT_EMPTY, ss));
    (c.ints, c.floats)
  }

  function Shapes(ls: seq<Leaf>): (ss: seq<Shape>)
    ensures |ss| == |ls|
  {
    seq(|ls|, i requires 0 <= i < |ls| => Shape(ls[i].kind, ls[i].align))
  }

  /* ---- the leaves of a descriptor ---- */

  /** The fields the walk visits, in order, with the alignment it uses for each. */
  function ShapesOf(t: Desc): seq<Shape>
    decreases t, 0
  {
    if t.kind == StructType then ShapesOfAll(t.members, |t.members|) else [Shape(t.kind, t.alignment)]
  }

  function ShapesOfAll(ms: seq<Desc>, n: nat): seq<Shape>
    requires n <= |ms|
    decreases ms, n
  {
    if n == 0 then [] else ShapesOfAll(ms, n - 1) + ShapesOf(ms[n - 1])
  }

  /** Every leaf has a fixed width; the placer refuses the others. */
  predicate Supported(t: Desc)
    decreases t
  {
    if t.kind == StructType then forall i :: 0 <= i < |t.members| ==> Supported(t.members[i])
    else FixedWidth(t.kind)
  }

  predicate SupportedUpTo(ms: seq<Desc>, n: nat) {
    forall i :: 0 <= i < n && i < |ms| ==> Supported(ms[i])
  }

  /** Every leaf has its natural size and alignment. */
  predicate Natural(t: Desc)
    decreases t
  {
    if t.kind == StructType then forall i :: 0 <= i < |t.members| ==> Natural(t.members[i])
    else NaturalLeaf(t)
  }

  /** The memory at ptr holds every leaf of t. */
  predicate InMemory(t: Desc, mem: seq<Byte>, ptr: nat)
    decreases t, 0
  {
    if t.kind == StructType then MembersIn(t.members, mem, ptr, |t.members|)
    else FixedWidth(t.kind) ==> ptr + Width(t.kind) <= |mem|
  }

  predicate MembersIn(ms: seq<Desc>, mem: seq<Byte>, ptr: nat, n: nat)
    requires n <= |ms|
    decreases ms, n
  {
    n == 0 || (MembersIn(ms, mem, ptr, n - 1) && InMemory(ms[n - 1], mem, ptr + OffsetAt(ms, n - 1)))
  }

  lemma {:induction false} MemberIn(ms: seq<Desc>, mem: seq<Byte>, ptr: nat, i: nat, n: nat)
    requires i < n <= |ms| && MembersIn(ms, mem, ptr, n)
    ensures MembersIn(ms, mem, ptr, i) && InMemory(ms[i], mem, ptr + OffsetAt(ms, i))
    ensures MembersIn(ms, mem, ptr, i + 1)
    decreases n
  {
    hide InMemory, OffsetAt;
    if i < n - 1 { MemberIn(ms, mem, ptr, i, n - 1); }
  }

  /** The leaves of t with the bytes found at ptr. */
  function LeavesOf(t: Desc, mem: seq<Byte>, ptr: nat): (ls: seq<Leaf>)
    requires InMemory(t, mem, ptr)
    ensures GoodLeaves(ls)
    decreases t, 0
  {
    if t.kind == StructType then LeavesOfAll(t.members, mem, ptr, |t.members|)
    else if FixedWidth(t.kind) then [Leaf(t.kind, t.alignment, mem[ptr..ptr + Width(t.kind)])]
    else []
  }

  function LeavesOfAll(ms: seq<Desc>, mem: seq<Byte>, ptr: nat, n: nat): (ls: seq<Leaf>)
    requires n <= |ms| && MembersIn(ms, mem, ptr, n)
    ensures GoodLeaves(ls)
    decreases ms, n
  {
    if n == 0 then []
    else LeavesOfAll(ms, mem, ptr, n - 1) + LeavesOf(ms[n - 1], mem, ptr + OffsetAt(ms, n - 1))
  }

  lemma {:induction false} ShapesOfLeaves(t: Desc, mem: seq<Byte>, ptr: nat)
    requires InMemory(t, mem, ptr) && Supported(t)
    ensures Shapes(LeavesOf(t, mem, ptr)) == ShapesOf(t)
    decreases t, 0
  {
    hide GoodLeaf;
    if t.kind == StructType { ShapesOfLeavesAll(t.members, mem, ptr, |t.members|); }
  }

  lemma {:induction false} ShapesOfAllStep(ms: seq<Desc>, n: nat)
    requires 0 < n <= |ms|
    ensures ShapesOfAll(ms, n) == ShapesOfAll(ms, n - 1) + ShapesOf(ms[n - 1])
    ensures |ShapesOfAll(ms, n)| == |ShapesOfAll(ms, n - 1)| + |ShapesOf(ms[n - 1])|
  {
    hide ShapesOf;
  }

  lemma {:induction false} MembersInStep(ms: seq<Desc>, mem: seq<Byte>, ptr: nat, n: nat)
    requires 0 < n <= |ms|
    ensures MembersIn(ms, mem, ptr, n) <==>
            MembersIn(ms, mem, ptr, n - 1) && InMemory(ms[n - 1], mem, ptr + OffsetAt(ms, n - 1))
  {
    hide InMemory, OffsetAt;
  }

  lemma {:induction false} LeavesOfAllStep(ms: seq<Desc>, mem: seq<Byte>, ptr: nat, n: nat)
    requires 0 < n <= |ms| && MembersIn(ms, mem, ptr, n)
    ensures MembersIn(ms, mem, ptr, n - 1) && InMemory(ms[n - 1], mem, ptr + OffsetAt(ms, n - 1))
    ensures LeavesOfAll(ms, mem, ptr, n) ==
            LeavesOfAll(ms, mem, ptr, n - 1) + LeavesOf(ms[n - 1], mem, ptr + OffsetAt(ms, n - 1))
  {
    hide InMemory, OffsetAt, LeavesOf, GoodLeaf;
  }

  lemma {:induction false} ShapesAppend(a: seq<Leaf>, b: seq<Leaf>)
    ensures Shapes(a + b) == Shapes(a) + Shapes(b)
  {
  }

  lemma {:induction false} NoShapes(ms: seq<Desc>, mem: seq<Byte>, ptr: nat)
    ensures MembersIn(ms, mem, ptr, 0) && LeavesOfAll(ms, mem, ptr, 0) == []
    ensures ShapesOfAll(ms, 0) == [] && Shapes([]) == []
  {
  }

  lemma {:induction false} ShapesOfLeavesAll(ms: seq<Desc>, mem: seq<Byte>, ptr: nat, n: nat)
    requires n <= |ms| && MembersIn(ms, mem, ptr, n)
    requires forall i :: 0 <= i < |ms| ==> Supported(ms[i])
    ensures Shapes(LeavesOfAll(ms, mem, ptr, n)) == ShapesOfAll(ms, n)
    decreases ms, n
  {
    hide OffsetAt, InMemory, GoodLeaf, Supported, MembersIn, LeavesOf, LeavesOfAll, ShapesOf, ShapesOfAll, Shapes;
    NoShapes(ms, mem, ptr);
    if n != 0 {
      LeavesOfAllStep(ms, mem, ptr, n);
      ShapesOfAllStep(ms, n);
      ShapesOfLeavesAll(ms, mem, ptr, n - 1);
      ShapesOfLeaves(ms[n - 1], mem, ptr + OffsetAt(ms, n - 1));
      ShapesAppend(LeavesOfAll(ms, mem, ptr, n - 1), LeavesOf(ms[n - 1], mem, ptr + OffsetAt(ms, n - 1)));
    }
  }

  predicate NaturalShapes(ss: seq<Shape>) {
    forall i :: 0 <= i < |ss| ==> FixedWidth(ss[i].kind) && ss[i].align == Width(ss[i].kind)
  }

  lemma {:induction false} NaturalWalk(t: Desc)
    requires Natural(t)
    ensures Supported(t) && NaturalShapes(ShapesOf(t))
    decreases t, 0
  {
    if t.kind == StructType {
      NaturalWalkAll(t.members, |t.members|);
      forall i | 0 <= i < |t.members| ensures Supported(t.members[i]) {
        NaturalWalk(t.members[i]);
      }
    }
  }

  lemma {:induction false} NaturalWalkAll(ms: seq<Desc>, n: nat)
    requires n <= |ms| && forall i :: 0 <= i < |ms| ==> Natural(ms[i])
    ensures NaturalShapes(ShapesOfAll(ms, n))
    decreases ms, n
  {
    hide Natural;
    if n != 0 {
      NaturalWalkAll(ms, n - 1);
      NaturalWalk(ms[n - 1]);
    }
  }
}
