/** The amd64 return of structs with nested structs: when the call side's look at direct members comes to the
    same classes as the ABI's look at leaves. */
module Amd64Nested {
  import opened Bits
  import opened Words
  import opened Types
  import opened Amd64Classify
  import opened Amd64Return

  /** Some leaf of t, which starts at o, has a byte from lo to hi. */
  predicate Touches(t: Desc, o: nat, lo: nat, hi: nat)
    decreases t
  {
    if t.kind == StructType then
      exists i :: 0 <= i < |t.members| && Touches(t.members[i], o + Offsets(t.members)[i], lo, hi)
    else o < hi && lo < o + t.size
  }

  /** Every such leaf is a float. */
  predicate OnlyFloats(t: Desc, o: nat, lo: nat, hi: nat)
    decreases t
  {
    if t.kind == StructType then
      forall i :: 0 <= i < |t.members| ==> OnlyFloats(t.members[i], o + Offsets(t.members)[i], lo, hi)
    else o < hi && lo < o + t.size ==> IsFloat(t.kind)
  }

  /** The ABI's class of an eightbyte, at any depth of nesting. */
  predicate LeavesAreSSE(t: Desc, lo: nat, hi: nat) {
    Touches(t, 0, lo, hi) && OnlyFloats(t, 0, lo, hi)
  }

  /** On flat structs this is the class of Amd64Return. */
  lemma {:induction false} FlatLeaves(t: Desc, lo: nat, hi: nat)
    requires NaturalFlat(t)
    ensures LeavesAreSSE(t, lo, hi) == AbiIsSSE(t, lo, hi)
  {
    forall i | 0 <= i < |t.members|
      ensures Touches(t.members[i], 0 + Offsets(t.members)[i], lo, hi) <==> Overlaps(t, i, lo, hi)
      ensures OnlyFloats(t.members[i], 0 + Offsets(t.members)[i], lo, hi)
              <==> (Overlaps(t, i, lo, hi) ==> IsFloat(t.members[i].kind))
    {
      assert NaturalLeaf(t.members[i]);
    }
    hide Overlaps, NaturalLeaf, Offsets;
  }

  /** Looking at direct members gives the classes that looking at leaves does. */
  predicate DirectAsLeaves(t: Desc) {
    && EightbyteIsSSE(t, 0, 8) == LeavesAreSSE(t, 0, 8)
    && EightbyteIsSSE(t, 8, t.size) == LeavesAreSSE(t, 8, t.size)
  }

  lemma {:induction false} FlatIsDirect(t: Desc)
    requires NaturalFlat(t) && 8 < t.size <= 16
    ensures DirectAsLeaves(t)
  {
    hide EightbyteIsSSE, LeavesAreSSE, AbiIsSSE, NaturalFlat;
    ClassifiesAsAbi(t, 0, 8);
    ClassifiesAsAbi(t, 8, t.size);
    FlatLeaves(t, 0, 8);
    FlatLeaves(t, 8, t.size);
  }

  /** A callee of the ABI returning v: each eightbyte in the next free register of its leaves' class. */
  predicate CalleeLeaves(t: Desc, v: seq<Byte>, r: Regs)
    requires |v| == t.size && 8 < t.size <= 16
  {
    var sse0, sse1 := LeavesAreSSE(t, 0, 8), LeavesAreSSE(t, 8, t.size);
    && Bytes(ResultWord(r, sse0, 0)) == v[..8]
    && Bytes(ResultWord(r, sse1, if sse0 == sse1 then 1 else 0))[..t.size - 8] == v[8..]
  }

  predicate ComesBack(t: Desc, v: seq<Byte>, r: Regs) {
    StoredResult(t, ClassifyReturn(t), r) == Stored(v)
  }

  lemma {:induction false} AgreeingComesBack(t: Desc, v: seq<Byte>, r: Regs)
    requires t.kind == StructType && 8 < t.size <= 16 && |v| == t.size
    requires DirectAsLeaves(t) && CalleeLeaves(t, v, r)
    ensures ComesBack(t, v, r)
  {
    hide EightbyteIsSSE, LeavesAreSSE, Bytes, StoredResult, ClassifyReturn, ResultWord;
    PairStored(t, r);
    assert v == v[..8] + v[8..];
  }

  /** The registers a callee leaves the two halves in, all others zero. */
  function Filled(sse0: bool, sse1: bool, first: Word, second: Word): Regs {
    if sse0 && sse1 then Regs(ZERO, ZERO, first, second)
    else if sse0 then Regs(second, ZERO, first, ZERO)
    else if sse1 then Regs(first, ZERO, second, ZERO)
    else Regs(first, second, ZERO, ZERO)
  }

  function OneAt(k: nat, n: nat): (v: seq<Byte>)
    requires k < n
    ensures |v| == n
  {
    Zeros(k) + [1] + Zeros(n - k - 1)
  }

  lemma {:induction false} FilledIsCallee(t: Desc, v: seq<Byte>)
    requires 8 < t.size <= 16 && |v| == t.size
    ensures CalleeLeaves(t, v, Filled(LeavesAreSSE(t, 0, 8), LeavesAreSSE(t, 8, t.size), Load(v[..8]),
                                      Load(v[8..])))
  {
    hide LeavesAreSSE, Bytes, Load;
    LoadedPrefix(v[..8]);
    LoadedPrefix(v[8..]);
  }

  lemma {:induction false} LoadedPrefix(bs: seq<Byte>)
    requires |bs| <= 8
    ensures Bytes(Load(bs))[..|bs|] == bs && (|bs| == 8 ==> Bytes(Load(bs)) == bs)
  {
  }

  /** Where the classes differ, the differing half is taken from a register that may hold anything. */
  lemma {:induction false} DifferingIsLost(t: Desc)
    requires t.kind == StructType && 8 < t.size <= 16 && !DirectAsLeaves(t)
    ensures exists v: seq<Byte>, r: Regs :: |v| == t.size && CalleeLeaves(t, v, r) && !ComesBack(t, v, r)
  {
    hide EightbyteIsSSE, LeavesAreSSE, Bytes, StoredResult, ClassifyReturn, Load, CalleeLeaves;
    var c0, a0, a1 := EightbyteIsSSE(t, 0, 8), LeavesAreSSE(t, 0, 8), LeavesAreSSE(t, 8, t.size);
    var k := if c0 != a0 then 0 else 8;
    var v := OneAt(k, t.size);
    var r := Filled(a0, a1, Load(v[..8]), Load(v[8..]));
    FilledIsCallee(t, v);
    PairStored(t, r);
    LoadedPrefix(v[..8]);
    LoadedPrefix(v[8..]);
    ZeroWord();
    assert v[k] == 1 && StoredResult(t, ClassifyReturn(t), r).bytes[k] == 0;
  }

  lemma {:induction false} ZeroWord()
    ensures forall j :: 0 <= j < 8 ==> Bytes(ZERO)[j] == 0
  {
  }

  /** A 9 to 16 byte struct, nested or not, is rebuilt from every conforming callee's registers exactly if its
      direct members give the classes its leaves do. */
  lemma {:induction false} NestedComesBackIff(t: Desc)
    requires t.kind == StructType && 8 < t.size <= 16
    ensures (forall v: seq<Byte>, r: Regs :: |v| == t.size && CalleeLeaves(t, v, r) ==> ComesBack(t, v, r))
            <==> DirectAsLeaves(t)
  {
    hide DirectAsLeaves, CalleeLeaves, ComesBack;
    if DirectAsLeaves(t) {
      forall v: seq<Byte>, r: Regs | |v| == t.size && CalleeLeaves(t, v, r) ensures ComesBack(t, v, r) {
        AgreeingComesBack(t, v, r);
      }
    } else {
      DifferingIsLost(t);
    }
  }

  /** A struct around a pair of doubles does not come back: nothing starts in the second eightbyte. */
  lemma {:induction false} NestedPairIsLost()
    ensures var d := Desc(8, 8, DoubleType, []);
            var pair := Desc(16, 8, StructType, [d, d]);
            !DirectAsLeaves(Desc(16, 8, StructType, [pair]))
  {
    var d := Desc(8, 8, DoubleType, []);
    var pair := Desc(16, 8, StructType, [d, d]);
    var t := Desc(16, 8, StructType, [pair]);
    hide AlignMask;
    assert AlignMask(0, 8) == 0 && AlignMask(8, 8) == 8 by {
      SmallPow2s();
      AlignMaskIsAlignUp(0, 8);
      AlignMaskIsAlignUp(8, 8);
    }
    assert Offsets([d, d])[1] == 8 by { OffsetStep([d, d], 0, 1); OffsetStep([d, d], 0, 0); }
    assert Offsets([pair])[0] == 0 by { OffsetStep([pair], 0, 0); }
    hide Offsets;
    assert Touches(d, 0 + 8, 8, 16);
    assert Touches(pair, 0, 8, 16);
    assert Touches(t.members[0], 0 + Offsets(t.members)[0], 8, 16);
    assert OnlyFloats(pair, 0, 8, 16);
    assert LeavesAreSSE(t, 8, 16) && !EightbyteIsSSE(t, 8, 16);
  }
}
