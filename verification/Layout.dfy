/** The layout of C structs: the functions the two layout passes compute, when they agree, and what
    the layout guarantees. */
module Layout {
  import opened Bits
  import opened Types

  /** initializeCompositeType and ensureStructLayout. */
  datatype Pass = Prepare | Ensure

  function Max(a: nat, b: nat): nat {
    if b > a then b else a
  }

  /** The largest alignment among the first n members, but at least start. */
  function MaxAlign(ms: seq<Desc>, n: nat, start: nat): nat
    requires n <= |ms|
  {
    if n == 0 then start else Max(MaxAlign(ms, n - 1, start), ms[n - 1].alignment)
  }

  /** The end of the first n members when an alignment of zero is not special-cased. */
  function MaskedEnd(ms: seq<Desc>, n: nat): nat
    requires n <= |ms|
  {
    if n == 0 then 0 else AlignMask(MaskedEnd(ms, n - 1), ms[n - 1].alignment) + ms[n - 1].size
  }

  /** The pass takes a struct with these fields as already laid out. */
  predicate HasLayout(p: Pass, size: nat, alignment: nat) {
    size != 0 && (p == Prepare || alignment != 0)
  }

  /** A struct whose declared layout the pass leaves alone. */
  predicate Kept(p: Pass, t: Desc) {
    HasLayout(p, t.size, t.alignment)
  }

  function LeafAlign(t: Desc): nat {
    if t.alignment != 0 then t.alignment else if t.size != 0 then t.size else 1
  }

  /** The descriptor tree after the pass. */
  function Lay(p: Pass, t: Desc): Desc
    decreases t, 0
  {
    if t.kind != StructType then (if p == Prepare then t else t.(alignment := LeafAlign(t)))
    else if Kept(p, t) then t
    else LayStruct(p, t, LayAll(p, t.members, |t.members|))
  }

  /** Size and alignment from the members; ensureStructLayout fills in only what is missing. */
  function LayStruct(p: Pass, t: Desc, ms: seq<Desc>): Desc {
    if p == Prepare then
      var a := MaxAlign(ms, |ms|, 0);
      Desc(AlignMask(MaskedEnd(ms, |ms|), a), a, t.kind, ms)
    else
      var a := MaxAlign(ms, |ms|, 1);
      Desc(if t.size != 0 then t.size else AlignOffset(EndOf(ms, |ms|), a),
           if t.alignment != 0 then t.alignment else a, t.kind, ms)
  }

  function LayAll(p: Pass, ms: seq<Desc>, n: nat): (ls: seq<Desc>)
    requires n <= |ms|
    ensures |ls| == n
    decreases ms, n
  {
    if n == 0 then [] else LayAll(p, ms, n - 1) + [Lay(p, ms[n - 1])]
  }

  lemma {:induction false} LayAt(p: Pass, ms: seq<Desc>, n: nat, i: nat)
    requires i < n <= |ms|
    ensures LayAll(p, ms, n)[i] == Lay(p, ms[i])
  {
    hide Lay;
    if i < n - 1 { LayAt(p, ms, n - 1, i); }
  }

  /* ---- agreement ---- */

  /** No leaf and no declared struct lacks an alignment, no undeclared struct is empty, and none
      declares an alignment other than its members'. */
  predicate Complete(t: Desc)
    decreases t
  {
    if t.kind != StructType || t.size != 0 then t.alignment != 0
    else
      && |t.members| > 0
      && (t.alignment == 0 || t.alignment == MaxAlign(LayAll(Ensure, t.members, |t.members|), |t.members|, 1))
      && forall i :: 0 <= i < |t.members| ==> Complete(t.members[i])
  }

  /** The two passes agree on exactly the complete trees. */
  lemma {:induction false} PassesAgreeIff(t: Desc)
    ensures Lay(Prepare, t) == Lay(Ensure, t) <==> Complete(t)
    decreases t
  {
    if t.kind == StructType && t.size == 0 {
      var n := |t.members|;
      var a, b := LayAll(Prepare, t.members, n), LayAll(Ensure, t.members, n);
      forall i | 0 <= i < n
        ensures a[i] == b[i] <==> Complete(t.members[i])
        ensures b[i].alignment >= 1
      {
        LayAt(Prepare, t.members, n, i);
        LayAt(Ensure, t.members, n, i);
        PassesAgreeIff(t.members[i]);
        EnsuredAlign(t.members[i]);
      }
      if a == b {
        EndsAgree(b, n);
        if n > 0 { AlignsAgree(b, n); }
      }
      hide LayAll, AlignMask, MaskedEnd, EndOf, MaxAlign;
      StructsAgree(t, a, b);
    } else if t.kind != StructType {
    } else {
      EnsuredAlign(t);
    }
  }

  /** At one struct node, given its members' layouts. */
  lemma {:induction false} StructsAgree(t: Desc, a: seq<Desc>, b: seq<Desc>)
    requires t.size == 0 && |a| == |b| == |t.members|
    requires a == b ==> MaskedEnd(b, |b|) == EndOf(b, |b|)
    requires a == b && |b| > 0 ==> MaxAlign(b, |b|, 0) == MaxAlign(b, |b|, 1) >= 1
    ensures LayStruct(Prepare, t, a) == LayStruct(Ensure, t, b) <==>
            a == b && |b| > 0 && (t.alignment == 0 || t.alignment == MaxAlign(b, |b|, 1))
  {
    hide AlignMask, EndOf;
  }

  /** ensureStructLayout leaves no alignment at zero. */
  lemma {:induction false} EnsuredAlign(t: Desc)
    ensures Lay(Ensure, t).alignment >= 1
  {
    if t.kind == StructType {
      AlignAtLeast(LayAll(Ensure, t.members, |t.members|), |t.members|, 1);
    }
  }

  lemma {:induction false} AlignAtLeast(ms: seq<Desc>, n: nat, start: nat)
    requires n <= |ms|
    ensures MaxAlign(ms, n, start) >= start
  {
    if n != 0 { AlignAtLeast(ms, n - 1, start); }
  }

  lemma {:induction false} EndsAgree(ms: seq<Desc>, n: nat)
    requires n <= |ms| && forall i :: 0 <= i < |ms| ==> ms[i].alignment >= 1
    ensures MaskedEnd(ms, n) == EndOf(ms, n)
  {
    hide AlignMask;
    if n != 0 { EndsAgree(ms, n - 1); }
  }

  lemma {:induction false} AlignsAgree(ms: seq<Desc>, n: nat)
    requires 0 < n <= |ms| && forall i :: 0 <= i < |ms| ==> ms[i].alignment >= 1
    ensures MaxAlign(ms, n, 0) == MaxAlign(ms, n, 1) >= 1
  {
    if n > 1 { AlignsAgree(ms, n - 1); }
  }

  /** An empty member makes initializeCompositeType forget the members before it. */
  lemma {:induction false} EmptyMemberResets()
    ensures var byte := Desc(1, 1, UInt8Type, []);
            var t := Desc(0, 0, StructType, [byte, Desc(0, 0, StructType, [])]);
            Lay(Prepare, t).size == 0 && Lay(Ensure, t).size == 1
  {
    var byte, empty := Desc(1, 1, UInt8Type, []), Desc(0, 0, StructType, []);
    var ms := [byte, empty];
    UnitMasks();
    hide AlignMask;
    forall p: Pass ensures LayAll(p, ms, 2) == [byte, Lay(p, empty)] {
      assert LayAll(p, ms, 1) == LayAll(p, ms, 0) + [Lay(p, byte)];
    }
    EmptyMemberEnds(byte, Lay(Prepare, empty), Lay(Ensure, empty));
  }

  lemma {:induction false} EmptyMemberEnds(byte: Desc, e0: Desc, e1: Desc)
    requires byte.size == byte.alignment == 1 && e0.size == e0.alignment == 0 && e1.size == 0 && e1.alignment == 1
    ensures MaskedEnd([byte, e0], 2) == 0 && MaxAlign([byte, e0], 2, 0) == 1 && AlignMask(0, 1) == 0
    ensures EndOf([byte, e1], 2) == 1 && MaxAlign([byte, e1], 2, 1) == 1 && AlignOffset(1, 1) == 1
  {
    UnitMasks();
    hide AlignMask;
    var m, n := [byte, e0], [byte, e1];
    assert MaskedEnd(m, 0) == 0;
    assert MaskedEnd(m, 1) == 1;
    assert MaskedEnd(m, 2) == 0;
    assert MaxAlign(m, 0, 0) == 0;
    assert MaxAlign(m, 1, 0) == 1;
    assert MaxAlign(m, 2, 0) == 1;
    assert MaxAlign(n, 0, 1) == 1;
    assert MaxAlign(n, 1, 1) == 1;
    assert MaxAlign(n, 2, 1) == 1;
    assert OffsetAt(n, 0) == 0;
    assert OffsetAt(n, 1) == 1;
  }

  lemma {:induction false} UnitMasks()
    ensures AlignMask(0, 1) == 0 && AlignMask(1, 1) == 1 && AlignMask(1, 0) == 0
  {
    assert AndNot(0, 0) == 0;
    assert AndNot(1, 0) == 1;
  }

  /* ---- what the layout guarantees ---- */

  /** Descriptors as callers write them: structs are not empty, leaves have a size and a power-of-two
      alignment, and a struct declares both its size and its alignment or neither. */
  ghost predicate Layable(t: Desc)
    decreases t
  {
    if t.kind == StructType && t.size == 0 then
      t.alignment == 0 && |t.members| > 0 && forall i :: 0 <= i < |t.members| ==> Layable(t.members[i])
    else Sized(t)
  }

  /** A positive size and a power-of-two alignment. */
  ghost predicate Sized(t: Desc) {
    t.size > 0 && IsPow2(t.alignment)
  }

  ghost predicate AllSized(ms: seq<Desc>) {
    forall i :: 0 <= i < |ms| ==> Sized(ms[i])
  }

  lemma {:induction false} SizedAt(ms: seq<Desc>, i: nat)
    requires i < |ms| && AllSized(ms)
    ensures Sized(ms[i]) && ms[i].alignment >= 1
  {
    AlignMaskIsAlignUp(0, ms[i].alignment);
  }

  lemma {:induction false} MaxAlignIsPow2(ms: seq<Desc>, n: nat)
    requires n <= |ms| && AllSized(ms)
    ensures IsPow2(MaxAlign(ms, n, 1))
    ensures forall i :: 0 <= i < n ==> MaxAlign(ms, n, 1) >= ms[i].alignment
  {
    SmallPow2s();
    if n != 0 {
      MaxAlignIsPow2(ms, n - 1);
      assert Sized(ms[n - 1]);
    }
  }

  /** Each offset is the least aligned one after its predecessor. */
  lemma {:induction false} OffsetIsLeast(ms: seq<Desc>, i: nat)
    requires i < |ms| && AllSized(ms)
    ensures ms[i].alignment >= 1 && OffsetAt(ms, i) == AlignUp(EndOf(ms, i), ms[i].alignment)
    ensures OffsetAt(ms, i) >= EndOf(ms, i) && OffsetAt(ms, i) % ms[i].alignment == 0
    ensures forall m: nat :: m >= EndOf(ms, i) && m % ms[i].alignment == 0 ==> OffsetAt(ms, i) <= m
  {
    hide AlignMask, AlignUp, IsPow2;
    assert Sized(ms[i]);
    var a := ms[i].alignment;
    AlignMaskIsAlignUp(EndOf(ms, i), a);
    forall m: nat | m >= EndOf(ms, i) && m % a == 0 ensures AlignUp(EndOf(ms, i), a) <= m {
      AlignUpIsLeast(EndOf(ms, i), a, m);
    }
  }

  /** Members never overlap. */
  lemma {:induction false} MembersAreDisjoint(ms: seq<Desc>, i: nat, j: nat)
    requires i < j <= |ms| && AllSized(ms)
    ensures OffsetAt(ms, i) + ms[i].size <= EndOf(ms, j)
    ensures j < |ms| ==> OffsetAt(ms, i) + ms[i].size <= OffsetAt(ms, j)
  {
    hide OffsetAt, AllSized;
    if i < j - 1 {
      MembersAreDisjoint(ms, i, j - 1);
      SizedAt(ms, j - 1);
    }
    if j < |ms| { OffsetIsLeast(ms, j); }
  }

  /** A laid out struct is a power of two aligned and its size is the least multiple of its alignment
      that holds all its members. */
  lemma {:induction false} LayIsSized(t: Desc)
    requires Layable(t)
    ensures Complete(t) && Sized(Lay(Ensure, t))
    ensures t.kind == StructType && t.size == 0 ==>
              var l := Lay(Ensure, t); var end := EndOf(l.members, |l.members|);
              && |l.members| == |t.members| && AllSized(l.members)
              && l.alignment >= 1 && l.size % l.alignment == 0 && l.size >= end
              && (forall m: nat :: m >= end && m % l.alignment == 0 ==> l.size <= m)
    decreases t
  {
    if t.kind == StructType && t.size == 0 {
      var ms := LayAll(Ensure, t.members, |t.members|);
      forall i | 0 <= i < |ms| ensures Sized(ms[i]) && Complete(t.members[i]) {
        LayAt(Ensure, t.members, |t.members|, i);
        LayIsSized(t.members[i]);
      }
      hide LayAll;
      TailIsLeast(ms);
    } else {
      AlignMaskIsAlignUp(0, t.alignment);
    }
  }

  lemma {:induction false} TailIsLeast(ms: seq<Desc>)
    requires |ms| > 0 && AllSized(ms)
    ensures var a, end := MaxAlign(ms, |ms|, 1), EndOf(ms, |ms|);
            && end > 0 && IsPow2(a) && a >= 1
            && AlignOffset(end, a) >= end && AlignOffset(end, a) % a == 0
            && (forall m: nat :: m >= end && m % a == 0 ==> AlignOffset(end, a) <= m)
  {
    hide AlignMask, AlignUp, OffsetAt, IsPow2, AllSized;
    var a, end := MaxAlign(ms, |ms|, 1), EndOf(ms, |ms|);
    MaxAlignIsPow2(ms, |ms|);
    AlignMaskIsAlignUp(end, a);
    SizedAt(ms, |ms| - 1);
    forall m: nat | m >= end && m % a == 0 ensures AlignUp(end, a) <= m {
      AlignUpIsLeast(end, a, m);
    }
  }
}
