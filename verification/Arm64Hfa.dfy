/** Homogeneous floating-point aggregates: detection, register counts and packing. */
module Arm64Hfa {
  import opened Bits
  import opened Words
  import opened Types
  import opened Placement
  import opened Layout
  import opened Arm64Pack

  /** No struct node is empty. */
  predicate NoEmptyStruct(t: Desc)
    decreases t
  {
    t.kind == StructType ==> |t.members| > 0 && forall i :: 0 <= i < |t.members| ==> NoEmptyStruct(t.members[i])
  }

  /** At most four leaves, all of one float kind. */
  predicate Homogeneous(ss: seq<Shape>) {
    |ss| <= 4 && forall i :: 0 <= i < |ss| ==> IsFloat(ss[i].kind) && ss[i].kind == ss[0].kind
  }

  /** The flat definition of an HFA. */
  predicate IsHfa(t: Desc) {
    t.kind == StructType && NoEmptyStruct(t) && Homogeneous(ShapesOf(t))
  }

  lemma {:induction false} HomogeneousPrefix(a: seq<Shape>, b: seq<Shape>)
    requires Homogeneous(a + b)
    ensures Homogeneous(a)
  {
    forall i | 0 <= i < |a| ensures IsFloat(a[i].kind) && a[i].kind == a[0].kind {
      assert (a + b)[i] == a[i];
    }
  }

  lemma {:induction false} NotEmptyHasLeaves(t: Desc)
    requires NoEmptyStruct(t)
    ensures |ShapesOf(t)| > 0
  {
    if t.kind == StructType {
      NotEmptyHasLeaves(t.members[|t.members| - 1]);
    }
  }

  /** The walk's captured variables. No kind has been seen while the count is zero. */
  class HfaWalk {
    var elementKind: Kind
    var totalCount: nat

    ghost predicate Saw(ss: seq<Shape>)
      reads this
    {
      totalCount == |ss| && Homogeneous(ss) && (|ss| > 0 ==> elementKind == ss[0].kind)
    }

    constructor ()
      ensures Saw([])
    {
      elementKind, totalCount := VoidType, 0;
    }

    method Scalar(kind: Kind, align: nat, ghost seen: seq<Shape>) returns (ok: bool)
      requires Saw(seen) && kind != StructType
      modifies this
      ensures ok <==> Homogeneous(seen + [Shape(kind, align)])
      ensures ok ==> Saw(seen + [Shape(kind, align)])
    {
      ghost var all := seen + [Shape(kind, align)];
      assert all[|seen|] == Shape(kind, align);
      assert forall i :: 0 <= i < |seen| ==> all[i] == seen[i];
      if kind != FloatType && kind != DoubleType {
        return false;
      }
      if totalCount == 0 {
        elementKind := kind;
      } else if kind != elementKind {
        return false;
      }
      totalCount := totalCount + 1;
      return totalCount <= 4;
    }

    /** Stops at the first leaf or struct that rules the aggregate out. */
    method Walk(t: Desc, ghost seen: seq<Shape>) returns (ok: bool)
      requires Saw(seen)
      modifies this
      ensures ok <==> NoEmptyStruct(t) && Homogeneous(seen + ShapesOf(t))
      ensures ok ==> Saw(seen + ShapesOf(t))
      decreases t, 2
    {
      if t.kind != StructType {
        ok := Scalar(t.kind, t.alignment, seen);
      } else {
        ok := WalkMembers(t, seen);
      }
    }

    method WalkMembers(t: Desc, ghost seen: seq<Shape>) returns (ok: bool)
      requires Saw(seen) && t.kind == StructType
      modifies this
      ensures ok <==> NoEmptyStruct(t) && Homogeneous(seen + ShapesOf(t))
      ensures ok ==> Saw(seen + ShapesOf(t))
      decreases t, 1
    {
      if |t.members| == 0 {
        return false;
      }
      hide Homogeneous;
      assert ShapesOf(t) == ShapesOfAll(t.members, |t.members|);
      assert seen + ShapesOfAll(t.members, 0) == seen;
      var i := 0;
      while i < |t.members|
        invariant 0 <= i <= |t.members|
        invariant forall j :: 0 <= j < i ==> NoEmptyStruct(t.members[j])
        invariant Saw(seen + ShapesOfAll(t.members, i))
      {
        Later(seen, t.members, i + 1);
        assert seen + ShapesOfAll(t.members, i + 1) == (seen + ShapesOfAll(t.members, i)) + ShapesOf(t.members[i]);
        ok := Walk(t.members[i], seen + ShapesOfAll(t.members, i));
        if !ok {
          return;
        }
        i := i + 1;
      }
      return true;
    }
  }

  /** A list that is not homogeneous does not become so by growing. */
  lemma {:induction false} Later(seen: seq<Shape>, ms: seq<Desc>, i: nat)
    requires i <= |ms|
    ensures Homogeneous(seen + ShapesOfAll(ms, |ms|)) ==> Homogeneous(seen + ShapesOfAll(ms, i))
    decreases |ms| - i
  {
    hide Homogeneous;
    if i < |ms| && Homogeneous(seen + ShapesOfAll(ms, |ms|)) {
      Later(seen, ms, i + 1);
      assert seen + ShapesOfAll(ms, i + 1) == (seen + ShapesOfAll(ms, i)) + ShapesOf(ms[i]);
      HomogeneousPrefix(seen + ShapesOfAll(ms, i), ShapesOf(ms[i]));
    }
  }

  /** isHomogeneousFloatAggregate: yes exactly for the flat definition, with the number of leaves and
      their kind. */
  method IsHomogeneousFloatAggregate(t: Desc) returns (ok: bool, count: nat, kind: Kind)
    ensures ok <==> IsHfa(t)
    ensures ok ==> 1 <= count == |ShapesOf(t)| <= 4 && kind == ShapesOf(t)[0].kind
    ensures !ok ==> count == 0 && kind == VoidType
  {
    if t.kind != StructType {
      return false, 0, VoidType;
    }
    hide ShapesOf, NoEmptyStruct;
    assert [] + ShapesOf(t) == ShapesOf(t);
    var walk := new HfaWalk();
    ok := walk.Walk(t, []);
    if ok { NotEmptyHasLeaves(t); }
    if !ok || walk.totalCount == 0 {
      return false, 0, VoidType;
    }
    return true, walk.totalCount, walk.elementKind;
  }

  /* ---- counting and packing an HFA ---- */

  lemma {:induction false} MaskNothing(m: nat)
    ensures AndNot(m, m) == 0
  {
    if m != 0 { MaskNothing(m / 2); }
  }

  /** The counting walk over float leaves of any alignment: one register each, the last one pending
      while the kind is float32. */
  lemma {:induction false} HfaCountRun(ss: seq<Shape>)
    requires Homogeneous(ss)
    ensures ss != [] ==>
              CountRun(COUNT_EMPTY, ss) == if ss[0].kind == FloatType then Counter(32, CLASS_FLOAT, 0, |ss| - 1)
                                           else Counter(0, CLASS_NONE, 0, |ss|)
  {
    if ss != [] {
      var n := |ss| - 1;
      var l := ss[n];
      HomogeneousPrefix(ss[..n], ss[n..]) by { assert ss[..n] + ss[n..] == ss; }
      HfaCountRun(ss[..n]);
      if l.align != 0 { MaskNothing(8 * l.align - 1); }
      assert AlignMask(0, 8 * l.align) == 0;
      hide AndNot;
    }
  }

  /** An HFA of n elements counts as n float registers, whatever the nesting and the alignments. */
  lemma {:induction false} HfaUsesFloatRegisters(t: Desc)
    requires IsHfa(t)
    ensures RegUsage(ShapesOf(t)) == (0, |ShapesOf(t)|)
    ensures 1 <= |ShapesOf(t)| <= 4
  {
    hide CountRun, ShapesOf;
    NotEmptyHasLeaves(t);
    HfaCountRun(ShapesOf(t));
  }

  /** Each element in a register of its own, zero-extended. */
  function Elements(ls: seq<Leaf>): (items: seq<Item>)
    requires GoodLeaves(ls)
    ensures |items| == |ls|
  {
    seq(|ls|, i requires 0 <= i < |ls| => Item(SSE, Load(ls[i].bytes)))
  }

  lemma {:induction false} OrIntoZero(bytes: seq<Byte>)
    requires |bytes| <= 8
    ensures Or(ZERO, ShiftLeft(Load(bytes), 0)) == Load(bytes)
  {
    hide Load, Or, Shl;
    assert Load([]) == ZERO by { EmptyLoad(); }
    LoadAppend([], bytes);
    assert [] + bytes == bytes;
  }

  lemma {:induction false} EmptyLoad()
    ensures Load([]) == ZERO
  {
    assert [] + Zeros(8) == Zeros(8);
  }

  /** The placing walk over float leaves: the last float32 is still pending. */
  function HfaState(ls: seq<Leaf>): Packer
    requires GoodLeaves(ls)
  {
    if ls == [] then EMPTY
    else
      var last := ls[|ls| - 1];
      if last.kind == FloatType then Packer(Load(last.bytes), 32, CLASS_FLOAT, Elements(ls[..|ls| - 1]))
      else Packer(ZERO, 0, CLASS_NONE, Elements(ls))
  }

  lemma {:induction false} HfaStep(p: Packer, l: Leaf, done: seq<Item>)
    requires GoodLeaf(l) && IsFloat(l.kind)
    requires if p.cls == CLASS_FLOAT then p.shift == 32 && done == p.out + [Item(SSE, p.val)]
             else p == Packer(ZERO, 0, CLASS_NONE, done)
    requires l.kind == DoubleType ==> p.cls == CLASS_NONE
    ensures Step(p, l) == if l.kind == FloatType then Packer(Load(l.bytes), 32, CLASS_FLOAT, done)
                          else Packer(ZERO, 0, CLASS_NONE, done + [Item(SSE, Load(l.bytes))])
  {
    hide AlignMask, Load, Or, ShiftLeft, BitOr;
    AlignNothing(8 * l.align);
    OrIntoZero(l.bytes);
    OneClass();
  }

  lemma {:induction false} AlignNothing(a: nat)
    ensures AlignMask(0, a) == 0
  {
    if a != 0 { MaskNothing(a - 1); }
  }

  lemma {:induction false} OneClass()
    ensures BitOr(CLASS_NONE, CLASS_FLOAT) == CLASS_FLOAT
  {
  }

  lemma {:induction false} ShapesPrefix(ls: seq<Leaf>, n: nat)
    requires n <= |ls| && Homogeneous(Shapes(ls))
    ensures Homogeneous(Shapes(ls[..n]))
    ensures forall i :: 0 <= i < |ls| ==> IsFloat(ls[i].kind) && ls[i].kind == ls[0].kind
  {
    forall i | 0 <= i < |ls| ensures IsFloat(ls[i].kind) && ls[i].kind == ls[0].kind {
      assert Shapes(ls)[i] == Shape(ls[i].kind, ls[i].align);
    }
  }

  lemma {:induction false} ElementsPrefix(ls: seq<Leaf>, n: nat)
    requires GoodLeaves(ls) && n < |ls|
    ensures GoodLeaf(ls[n]) && GoodLeaves(ls[..n]) && |ls[n].bytes| <= 8
    ensures Elements(ls[..n + 1]) == Elements(ls[..n]) + [Item(SSE, Load(ls[n].bytes))]
  {
    assert GoodLeaf(ls[n]) && GoodLeaves(ls[..n]);
    hide Load, GoodLeaf;
    assert ls[..n + 1] == ls[..n] + [ls[n]];
  }

  lemma {:induction false} HfaRun(ls: seq<Leaf>)
    requires GoodLeaves(ls) && Homogeneous(Shapes(ls))
    ensures Run(EMPTY, ls) == HfaState(ls)
  {
    hide Step, Load, GoodLeaf, Homogeneous;
    if ls != [] {
      var n := |ls| - 1;
      ShapesPrefix(ls, n);
      ElementsPrefix(ls, n);
      HfaRun(ls[..n]);
      assert ls[..n + 1] == ls;
      if n > 0 {
        ElementsPrefix(ls, n - 1);
        assert ls[..n][..n - 1] == ls[..n - 1];
      }
      HfaStep(HfaState(ls[..n]), ls[n], Elements(ls[..n]));
    }
  }

  /** An HFA is passed one element to a register, in order. */
  lemma {:induction false} HfaPacks(ls: seq<Leaf>)
    requires GoodLeaves(ls) && Homogeneous(Shapes(ls))
    ensures Packed(ls) == Elements(ls)
  {
    hide Step, Load, GoodLeaf, Homogeneous, Run;
    HfaRun(ls);
    if ls != [] {
      ShapesPrefix(ls, 0);
      ElementsPrefix(ls, |ls| - 1);
      assert ls[..|ls|] == ls;
    }
  }

  /* ---- the memory image of an HFA ---- */

  /** Every struct carries the size and alignment the layout passes compute. */
  predicate LaidOut(t: Desc)
    decreases t
  {
    if t.kind == StructType then
      && t.alignment == MaxAlign(t.members, |t.members|, 1)
      && t.size == AlignOffset(EndOf(t.members, |t.members|), t.alignment)
      && forall i :: 0 <= i < |t.members| ==> LaidOut(t.members[i])
    else NaturalLeaf(t)
  }

  predicate AllOfKind(ss: seq<Shape>, k: Kind) {
    forall i :: 0 <= i < |ss| ==> ss[i].kind == k
  }

  /** The bytes n elements take. */
  function Span(k: Kind, n: nat): nat {
    if k == FloatType then 4 * n else 8 * n
  }

  lemma {:induction false} KindParts(a: seq<Shape>, b: seq<Shape>, k: Kind)
    requires AllOfKind(a + b, k)
    ensures AllOfKind(a, k) && AllOfKind(b, k)
  {
    assert forall i :: 0 <= i < |a| ==> (a + b)[i] == a[i];
    assert forall i :: 0 <= i < |b| ==> (a + b)[|a| + i] == b[i];
  }

  /** A laid out tree of one float kind has no padding at all. */
  lemma {:induction false} OneKindSize(t: Desc, k: Kind)
    requires LaidOut(t) && NoEmptyStruct(t) && IsFloat(k) && AllOfKind(ShapesOf(t), k)
    ensures t.alignment == Width(k) && t.size == Span(k, |ShapesOf(t)|)
    decreases t, 0
  {
    hide AlignMask;
    if t.kind == StructType {
      OneKindEnd(t.members, |t.members|, k);
      NoTail(|ShapesOf(t)|, k);
    } else {
      assert ShapesOf(t)[0].kind == k;
    }
  }

  lemma {:induction false} NoTail(n: nat, k: Kind)
    requires IsFloat(k)
    ensures AlignMask(Span(k, n), Width(k)) == Span(k, n)
  {
    hide AlignMask, AlignUp;
    SmallPow2s();
    AlignMaskIsAlignUp(Span(k, n), Width(k));
    if k == FloatType { AlignUpFixed(4 * n, 4); } else { AlignUpFixed(8 * n, 8); }
  }

  lemma {:induction false} OneKindEnd(ms: seq<Desc>, n: nat, k: Kind)
    requires n <= |ms| && IsFloat(k) && AllOfKind(ShapesOfAll(ms, n), k)
    requires forall i :: 0 <= i < |ms| ==> LaidOut(ms[i]) && NoEmptyStruct(ms[i])
    ensures EndOf(ms, n) == Span(k, |ShapesOfAll(ms, n)|)
    ensures n > 0 ==> MaxAlign(ms, n, 1) == Width(k) && OffsetAt(ms, n - 1) == Span(k, |ShapesOfAll(ms, n - 1)|)
    decreases ms, n
  {
    hide AlignMask, LaidOut, NoEmptyStruct, ShapesOf, ShapesOfAll, AllOfKind, Span, EndOf, MaxAlign, OffsetAt;
    NoMembers(ms, k);
    if n != 0 {
      var a, b := ShapesOfAll(ms, n - 1), ShapesOf(ms[n - 1]);
      ShapesOfAllStep(ms, n);
      KindParts(a, b, k);
      OneKindEnd(ms, n - 1, k);
      OneKindSize(ms[n - 1], k);
      NoTail(|a|, k);
      SpanAdds(k, |a|, |b|);
      EndStep(ms, n);
      MaxAlignStep(ms, n, k);
    }
  }

  lemma {:induction false} NoMembers(ms: seq<Desc>, k: Kind)
    ensures EndOf(ms, 0) == 0 && ShapesOfAll(ms, 0) == [] && Span(k, 0) == 0
  {
  }

  lemma {:induction false} SpanAdds(k: Kind, m: nat, n: nat)
    ensures Span(k, m + n) == Span(k, m) + Span(k, n)
  {
  }

  lemma {:induction false} EndStep(ms: seq<Desc>, n: nat)
    requires 0 < n <= |ms|
    ensures OffsetAt(ms, n - 1) == AlignOffset(EndOf(ms, n - 1), ms[n - 1].alignment)
    ensures EndOf(ms, n) == OffsetAt(ms, n - 1) + ms[n - 1].size
  {
    hide AlignMask, AlignOffset;
  }

  lemma {:induction false} MaxAlignStep(ms: seq<Desc>, n: nat, k: Kind)
    requires 0 < n <= |ms| && IsFloat(k) && ms[n - 1].alignment == Width(k)
    requires n == 1 || MaxAlign(ms, n - 1, 1) == Width(k)
    ensures MaxAlign(ms, n, 1) == Width(k)
  {
  }

  /** Element i of an HFA is its i-th slice of memory. */
  lemma {:induction false} ElementBytes(t: Desc, mem: seq<Byte>, ptr: nat, k: Kind, i: nat)
    requires LaidOut(t) && NoEmptyStruct(t) && IsFloat(k) && AllOfKind(ShapesOf(t), k)
    requires InMemory(t, mem, ptr) && i < |LeavesOf(t, mem, ptr)|
    ensures ptr + Span(k, i + 1) <= |mem|
    ensures LeavesOf(t, mem, ptr)[i].bytes == mem[ptr + Span(k, i)..ptr + Span(k, i + 1)]
    decreases t, 0
  {
    if t.kind == StructType {
      ElementOfMembers(t.members, mem, ptr, |t.members|, k, i);
    } else {
      assert ShapesOf(t)[0].kind == k;
    }
  }

  lemma {:induction false} ElementOfMembers(ms: seq<Desc>, mem: seq<Byte>, ptr: nat, n: nat, k: Kind, i: nat)
    requires n <= |ms| && IsFloat(k) && AllOfKind(ShapesOfAll(ms, n), k)
    requires forall j :: 0 <= j < |ms| ==> LaidOut(ms[j]) && NoEmptyStruct(ms[j])
    requires MembersIn(ms, mem, ptr, n) && i < |LeavesOfAll(ms, mem, ptr, n)|
    ensures ptr + Span(k, i + 1) <= |mem|
    ensures LeavesOfAll(ms, mem, ptr, n)[i].bytes == mem[ptr + Span(k, i)..ptr + Span(k, i + 1)]
    decreases ms, n
  {
    hide OffsetAt, LaidOut, NoEmptyStruct, GoodLeaf, InMemory, MembersIn, LeavesOf, AllOfKind, ShapesOf,
         ShapesOfAll, Width;
    hide LeavesOfAll, EndOf, MaxAlign, Span;
    NoShapes(ms, mem, ptr);
    var a, b := ShapesOfAll(ms, n - 1), ShapesOf(ms[n - 1]);
    ShapesOfAllStep(ms, n);
    LeavesOfAllStep(ms, mem, ptr, n);
    KindParts(a, b, k);
    OneKindEnd(ms, n, k);
    LeafCount(ms, mem, ptr, n - 1);
    if i < |a| {
      ElementOfMembers(ms, mem, ptr, n - 1, k, i);
    } else {
      SpanAdds(k, |a|, i - |a| + 1);
      SpanAdds(k, |a|, i - |a|);
      ElementBytes(ms[n - 1], mem, ptr + OffsetAt(ms, n - 1), k, i - |a|);
    }
  }

  /** Leaves and shapes correspond in number when every leaf is supported. */
  lemma {:induction false} LeafCount(ms: seq<Desc>, mem: seq<Byte>, ptr: nat, n: nat)
    requires n <= |ms| && MembersIn(ms, mem, ptr, n)
    requires forall j :: 0 <= j < |ms| ==> LaidOut(ms[j])
    ensures |LeavesOfAll(ms, mem, ptr, n)| == |ShapesOfAll(ms, n)|
    decreases ms, n
  {
    forall j | 0 <= j < |ms| ensures Supported(ms[j]) { LaidOutIsNatural(ms[j]); NaturalWalk(ms[j]); }
    hide Shapes, OffsetAt, LaidOut, Supported;
    ShapesOfLeavesAll(ms, mem, ptr, n);
    ShapesLength(LeavesOfAll(ms, mem, ptr, n));
  }

  lemma {:induction false} ShapesLength(ls: seq<Leaf>)
    ensures |Shapes(ls)| == |ls|
  {
  }

  lemma {:induction false} LaidOutIsNatural(t: Desc)
    requires LaidOut(t)
    ensures Natural(t)
    decreases t
  {
    hide AlignMask, MaxAlign, EndOf;
    if t.kind == StructType {
      forall i | 0 <= i < |t.members| ensures Natural(t.members[i]) { LaidOutIsNatural(t.members[i]); }
    }
  }
}
