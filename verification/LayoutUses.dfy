/** What the layout passes leave behind is what the marshallers take for granted. */
module LayoutUses {
  import opened Bits
  import opened Types
  import opened Layout
  import P = Amd64Prepare
  import H = Arm64Hfa

  /** A tree of natural scalars whose structs declare nothing and are not empty. */
  predicate NaturalTree(t: Desc)
    decreases t
  {
    if t.kind == StructType then
      && t.size == 0 && t.alignment == 0 && |t.members| > 0
      && forall i :: 0 <= i < |t.members| ==> NaturalTree(t.members[i])
    else NaturalLeaf(t)
  }

  lemma {:induction false} NaturalIsLayable(t: Desc)
    requires NaturalTree(t)
    ensures Layable(t)
    decreases t
  {
    if t.kind == StructType {
      forall i | 0 <= i < |t.members| ensures Layable(t.members[i]) { NaturalIsLayable(t.members[i]); }
    } else {
      SmallPow2s();
    }
  }

  /** A tree of natural scalars, with or without their alignments, whose structs declare nothing. */
  predicate SparseTree(t: Desc)
    decreases t
  {
    if t.kind == StructType then
      && t.size == 0 && t.alignment == 0 && |t.members| > 0
      && forall i :: 0 <= i < |t.members| ==> SparseTree(t.members[i])
    else FixedWidth(t.kind) && t.size == Width(t.kind) && (t.alignment == 0 || t.alignment == t.size)
  }

  /** The same tree with the alignments written out. */
  function Written(t: Desc): (w: Desc)
    ensures w.kind == t.kind
    decreases t, 0
  {
    if t.kind == StructType then t.(members := WrittenAll(t.members, |t.members|)) else t.(alignment := t.size)
  }

  function WrittenAll(ms: seq<Desc>, n: nat): (ws: seq<Desc>)
    requires n <= |ms|
    ensures |ws| == n
    decreases ms, n
  {
    if n == 0 then [] else WrittenAll(ms, n - 1) + [Written(ms[n - 1])]
  }

  lemma {:induction false} WrittenAt(ms: seq<Desc>, n: nat, i: nat)
    requires i < n <= |ms|
    ensures WrittenAll(ms, n)[i] == Written(ms[i])
  {
    hide Written;
    if i < n - 1 { WrittenAt(ms, n - 1, i); }
  }

  /** The second pass supplies the alignments that were left out. */
  lemma {:induction false} AlignmentsAreSupplied(t: Desc)
    requires SparseTree(t)
    ensures NaturalTree(Written(t)) && Lay(Ensure, t) == Lay(Ensure, Written(t))
    decreases t
  {
    if t.kind == StructType {
      var n := |t.members|;
      var w := Written(t);
      forall i | 0 <= i < n
        ensures NaturalTree(w.members[i])
        ensures LayAll(Ensure, t.members, n)[i] == LayAll(Ensure, w.members, n)[i]
      {
        WrittenAt(t.members, n, i);
        AlignmentsAreSupplied(t.members[i]);
        LayAt(Ensure, t.members, n, i);
        LayAt(Ensure, w.members, n, i);
      }
      assert LayAll(Ensure, t.members, n) == LayAll(Ensure, w.members, n);
      hide LayAll, LayStruct;
    }
  }

  /** The layout of a natural tree is one the aggregate rules of arm64 can rely on. */
  lemma {:induction false} LayIsLaidOut(t: Desc)
    requires NaturalTree(t)
    ensures H.LaidOut(Lay(Ensure, t)) && H.NoEmptyStruct(Lay(Ensure, t))
    decreases t
  {
    hide AlignMask, AlignOffset, EndOf, MaxAlign;
    if t.kind == StructType {
      var ms := LayAll(Ensure, t.members, |t.members|);
      forall i | 0 <= i < |ms| ensures H.LaidOut(ms[i]) && H.NoEmptyStruct(ms[i]) {
        LayAt(Ensure, t.members, |t.members|, i);
        LayIsLaidOut(t.members[i]);
      }
    }
  }

  /** The layout of a natural tree is one the amd64 prediction can rely on: every member starts inside
      its struct. */
  lemma {:induction false} LayIsConsistent(t: Desc)
    requires NaturalTree(t)
    ensures P.Consistent(Lay(Ensure, t))
  {
    hide AlignMask, LayStruct, LayAll, OffsetAt, NaturalTree;
    if t.kind == StructType {
      NaturalBlank(t);
      NaturalIsLayable(t);
      LayIsSized(t);
      var l := Lay(Ensure, t);
      var ms := l.members;
      forall i | 0 <= i < |ms| ensures Offsets(ms)[i] < l.size {
        OffsetAtIsOffset(ms, i);
        MembersAreDisjoint(ms, i, |ms|);
        SizedAt(ms, i);
      }
      LayKeepsKind(t);
    } else {
      LeafIsConsistent(t);
    }
  }

  lemma {:induction false} NaturalBlank(t: Desc)
    requires NaturalTree(t) && t.kind == StructType
    ensures t.size == 0
  {
  }

  lemma {:induction false} LayKeepsKind(t: Desc)
    ensures Lay(Ensure, t).kind == t.kind
  {
  }

  lemma {:induction false} LeafIsConsistent(t: Desc)
    requires NaturalTree(t) && t.kind != StructType
    ensures P.Consistent(Lay(Ensure, t))
  {
  }
}
