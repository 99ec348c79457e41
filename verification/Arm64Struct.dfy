/** What packing means for whole descriptors: an admitted struct stays in registers, and a flat struct
    of integers is passed as its memory image. */
module Arm64Struct {
  import opened Bits
  import opened Words
  import opened Types
  import opened Placement
  import opened Arm64Regs
  import opened Arm64Pack
  import opened Arm64Lossless

  lemma {:induction false} LeavesAreNatural(t: Desc, mem: seq<Byte>, ptr: nat)
    requires Natural(t) && InMemory(t, mem, ptr)
    ensures NaturalLeaves(LeavesOf(t, mem, ptr))
    decreases t, 0
  {
    hide GoodLeaf, OffsetAt;
    if t.kind == StructType {
      MembersAreNatural(t.members, mem, ptr, |t.members|);
    } else {
      LeafIsGood(t, mem, ptr);
    }
  }

  lemma {:induction false} LeafIsGood(t: Desc, mem: seq<Byte>, ptr: nat)
    requires t.kind != StructType && NaturalLeaf(t) && InMemory(t, mem, ptr)
    ensures GoodLeaf(Leaf(t.kind, t.alignment, mem[ptr..ptr + Width(t.kind)]))
  {
  }

  lemma {:induction false} MembersAreNatural(ms: seq<Desc>, mem: seq<Byte>, ptr: nat, n: nat)
    requires n <= |ms| && MembersIn(ms, mem, ptr, n)
    requires forall i :: 0 <= i < |ms| ==> Natural(ms[i])
    ensures NaturalLeaves(LeavesOfAll(ms, mem, ptr, n))
    decreases ms, n
  {
    hide GoodLeaf, OffsetAt, Natural, InMemory, LeavesOf;
    if n != 0 {
      MembersAreNatural(ms, mem, ptr, n - 1);
      LeavesAreNatural(ms[n - 1], mem, ptr + OffsetAt(ms, n - 1));
    }
  }

  /** Count equals place, for every naturally aligned descriptor tree. */
  lemma {:induction false} CountEqualsPlaceOf(t: Desc, mem: seq<Byte>)
    requires Natural(t) && InMemory(t, mem, 0)
    ensures Supported(t)
    ensures var (i, f) := RegUsage(ShapesOf(t));
            var cs := Classes(Packed(LeavesOf(t, mem, 0)));
            i == Count(cs, INTEGER) && f == Count(cs, SSE) && i + f == |cs|
  {
    hide RegUsage, Packed, Classes, Count, Shapes, ShapesOf, Natural, Supported, NaturalShapes;
    NaturalWalk(t);
    ShapesOfLeaves(t, mem, 0);
    LeavesAreNatural(t, mem, 0);
    CountEqualsPlace(LeavesOf(t, mem, 0));
  }

  /** From the descriptor and the words alone, every leaf value is recovered. */
  lemma {:induction false} StructIsRecovered(t: Desc, mem: seq<Byte>, i: nat)
    requires Natural(t) && InMemory(t, mem, 0) && i < |LeavesOf(t, mem, 0)|
    ensures i < |ShapesOf(t)| && FixedWidth(ShapesOf(t)[i].kind)
    ensures Unpack(ShapesOf(t), AllWords(Packed(LeavesOf(t, mem, 0))), i) == LeavesOf(t, mem, 0)[i].bytes
  {
    hide Packed, AllWords, ShapesOf, LeavesOf, Natural, Supported, InMemory, Unpack;
    NaturalWalk(t);
    ShapesOfLeaves(t, mem, 0);
    LeavesAreNatural(t, mem, 0);
    PackingIsLossless(LeavesOf(t, mem, 0), i);
  }

  predicate AllRegisterClasses(items: seq<Item>) {
    forall k :: 0 <= k < |items| ==> items[k].cls != MEMORY
  }

  /** Words that pass the fit test take no stack. */
  lemma {:induction false} NoSpill(base: seq<Item>, more: seq<Item>)
    requires |Place(base, GP_REGS).ints| + Count(Classes(more), INTEGER) <= GP_REGS
    requires |Place(base, GP_REGS).floats| + Count(Classes(more), SSE) <= FLOAT_REGS
    requires AllRegisterClasses(more)
    ensures var p, q := Place(base, GP_REGS), Place(base + more, GP_REGS);
            && q.stack == p.stack
            && |q.ints| == |p.ints| + Count(Classes(more), INTEGER)
            && |q.floats| == |p.floats| + Count(Classes(more), SSE)
    decreases |more|
  {
    hide Place, Classes, Count;
    if more == [] {
      assert base + more == base;
      CountNothing();
    } else {
      var n := |more| - 1;
      var x := more[n];
      assert more == more[..n] + [x];
      assert base + more == (base + more[..n]) + [x];
      CountOneMore(more[..n], x);
      NoSpill(base, more[..n]);
      PlaceStep(base + more[..n], x, GP_REGS);
    }
  }

  lemma {:induction false} StepInRegisters(p: Packer, l: Leaf)
    requires GoodLeaf(l) && AllRegisterClasses(p.out)
    ensures AllRegisterClasses(Step(p, l).out)
  {
    hide AlignMask, GoodLeaf, Or, Load, ShiftLeft;
  }

  lemma {:induction false} PackedInRegisters(ls: seq<Leaf>)
    requires GoodLeaves(ls)
    ensures AllRegisterClasses(Run(EMPTY, ls).out) && AllRegisterClasses(Packed(ls))
  {
    hide GoodLeaf, Step, Load, Bytes;
    if ls != [] {
      PackedInRegisters(ls[..|ls| - 1]);
      StepInRegisters(Run(EMPTY, ls[..|ls| - 1]), ls[|ls| - 1]);
    }
  }

  /** Register words are integer words or float words. */
  lemma {:induction false} TwoClasses(items: seq<Item>)
    requires AllRegisterClasses(items)
    ensures Count(Classes(items), INTEGER) + Count(Classes(items), SSE) == |items|
  {
    hide Count, Classes;
    if items == [] {
      CountNothing();
    } else {
      var n := |items| - 1;
      TwoClasses(items[..n]);
      CountOneMore(items[..n], items[n]);
      assert items == items[..n] + [items[n]];
    }
  }

  /** A struct that passes Execute's fit test is neither refused nor spilled, whatever its alignments. */
  lemma {:induction false} AdmittedStaysInRegisters(t: Desc, mem: seq<Byte>, base: seq<Item>)
    requires Supported(t) && InMemory(t, mem, 0)
    requires |Place(base, GP_REGS).ints| + RegUsage(ShapesOf(t)).0 <= GP_REGS
    requires |Place(base, GP_REGS).floats| + RegUsage(ShapesOf(t)).1 <= FLOAT_REGS
    ensures Place(base + Packed(LeavesOf(t, mem, 0)), GP_REGS).stack == Place(base, GP_REGS).stack
  {
    hide RegUsage, Packed, Classes, Count, ShapesOf, LeavesOf, Supported, InMemory, Place, Run, Shapes;
    var ls := LeavesOf(t, mem, 0);
    ShapesOfLeaves(t, mem, 0);
    CountCoversPlace(ls);
    PackedInRegisters(ls);
    NoSpill(base, Packed(ls));
  }

  /** A struct that counts as no register has no words. */
  lemma {:induction false} NoRegistersNoWords(t: Desc, mem: seq<Byte>)
    requires Supported(t) && InMemory(t, mem, 0) && RegUsage(ShapesOf(t)) == (0, 0)
    ensures Packed(LeavesOf(t, mem, 0)) == []
  {
    hide RegUsage, Packed, Classes, Count, ShapesOf, LeavesOf, Supported, InMemory, Run, Shapes;
    var ls := LeavesOf(t, mem, 0);
    ShapesOfLeaves(t, mem, 0);
    CountCoversPlace(ls);
    PackedInRegisters(ls);
    TwoClasses(Packed(ls));
  }

  /* ---- flat structs of integers ---- */

  function PadTo(bs: seq<Byte>, a: nat): (r: seq<Byte>)
    ensures |r| >= |bs|
  {
    bs + Zeros(if AlignMask(|bs|, a) >= |bs| then AlignMask(|bs|, a) - |bs| else 0)
  }

  /** The memory image of fields laid out one after the other, padding zeroed. */
  function Image(ls: seq<Leaf>): seq<Byte> {
    if ls == [] then [] else PadTo(Image(ls[..|ls| - 1]), ls[|ls| - 1].align) + ls[|ls| - 1].bytes
  }

  function Memory(items: seq<Item>): (bs: seq<Byte>)
    ensures |bs| == 8 * |items|
  {
    if items == [] then [] else Memory(items[..|items| - 1]) + Bytes(items[|items| - 1].word)
  }

  /** The words handed out and the used part of the word under construction. */
  function Written(p: Packer): (bs: seq<Byte>)
    requires p.shift <= 64
    ensures |bs| == 8 * |p.out| + p.shift / 8
  {
    Memory(p.out) + Bytes(p.val)[..p.shift / 8]
  }

  predicate AllIntegers(items: seq<Item>) {
    forall k :: 0 <= k < |items| ==> items[k].cls == INTEGER
  }

  lemma {:induction false} MemoryStep(out: seq<Item>, x: Item)
    ensures Memory(out + [x]) == Memory(out) + Bytes(x.word)
  {
    assert (out + [x])[..|out|] == out;
    hide Bytes;
  }

  /** A word under construction that no float32 entered. */
  predicate IntWord(p: Packer) {
    Tidy(p) && p.cls != CLASS_FLOAT && AllIntegers(p.out)
  }

  /** Flushing pads the image to the next word. */
  lemma {:induction false} FlushWrites(p: Packer)
    requires IntWord(p)
    ensures IntWord(Flush(p)) && Flush(p).shift == 0
    ensures Memory(Flush(p).out) == Written(p) + Zeros(if p.shift == 0 then 0 else 8 - p.shift / 8)
    ensures Written(Flush(p)) == Memory(Flush(p).out)
  {
    hide Bytes, Memory;
    FlushTidy(p);
    if p.cls != CLASS_NONE {
      MemoryStep(p.out, Item(INTEGER, p.val));
      var n := p.shift / 8;
      assert Bytes(p.val) == Bytes(p.val)[..n] + Zeros(8 - n);
      assert Written(p) + Zeros(8 - n) == Memory(p.out) + (Bytes(p.val)[..n] + Zeros(8 - n));
    }
  }

  /** Aligning the position in the word is aligning the offset in memory. */
  lemma {:induction false} RealignWrites(p: Packer, w: nat)
    requires w == 1 || w == 2 || w == 4 || w == 8
    requires IntWord(p)
    ensures IntWord(Realign(p, w)) && Realign(p, w).shift + 8 * w <= 64
    ensures Written(Realign(p, w)) == PadTo(Written(p), w)
    ensures w == 8 ==> Realign(p, w).cls == CLASS_NONE
  {
    hide Bytes, Memory, AlignMask, AllIntegers, Flush;
    AlignInWord(p.shift, w);
    RealignFits(p, w);
    AlignWhole(|p.out|, p.shift / 8, w);
    var s := AlignMask(p.shift, 8 * w);
    var q := p.(shift := s);
    assert Bytes(p.val)[..s / 8] == Bytes(p.val)[..p.shift / 8] + Zeros(s / 8 - p.shift / 8);
    assert Written(q) == PadTo(Written(p), w);
    if s >= 64 { FlushWrites(q); }
  }

  lemma {:induction false} AlignWhole(n: nat, b: nat, w: nat)
    requires w == 1 || w == 2 || w == 4 || w == 8
    requires b <= 8
    ensures AlignMask(8 * n + b, w) == 8 * n + AlignMask(b, w)
  {
    hide AlignMask, AlignUp;
    SmallPow2s();
    AlignMaskIsAlignUp(8 * n + b, w);
    AlignMaskIsAlignUp(b, w);
    var s := AlignUp(b, w);
    EightIsMultiple(8 * n, w, if w == 1 then 8 else if w == 2 then 4 else if w == 4 then 2 else 1);
    SumOfMultiples(8 * n, s, w);
    AlignUpUnique(8 * n + b, w, 8 * n + s);
  }

  lemma {:induction false} InsertWrites(p: Packer, bytes: seq<Byte>)
    requires IntWord(p) && p.shift + 8 * |bytes| <= 64 && |bytes| > 0
    ensures IntWord(Insert(p, bytes, CLASS_INT))
    ensures Written(Insert(p, bytes, CLASS_INT)) == Written(p) + bytes
  {
    hide Bytes, Memory, Or, Load, ShiftLeft, AllIntegers;
    InsertTidy(p, bytes, CLASS_INT);
    IntClass(p.cls);
    var q, n := Insert(p, bytes, CLASS_INT), p.shift / 8;
    forall j | 0 <= j < 8
      ensures Bytes(q.val)[j] == if n <= j < n + |bytes| then bytes[j - n] else Bytes(p.val)[j]
    {
      InsertBytes(p, bytes, CLASS_INT, j);
    }
    assert Bytes(q.val)[..n + |bytes|] == Bytes(p.val)[..n] + bytes;
  }

  lemma {:induction false} IntClass(c: nat)
    ensures BitOr(c, CLASS_INT) != CLASS_FLOAT
  {
    assert BitOr(c / 2, 1) >= 1 by { OrPositive(c / 2, 1); }
  }

  /** One integer field appends its bytes to the image. */
  lemma {:induction false} StepWrites(p: Packer, l: Leaf)
    requires GoodLeaf(l) && l.align == Width(l.kind) && !IsFloat(l.kind) && IntWord(p)
    ensures IntWord(Step(p, l))
    ensures Written(Step(p, l)) == PadTo(Written(p), l.align) + l.bytes
  {
    hide Realign, Insert, PadTo, Bytes, Memory, Load, Tidy;
    var w := Width(l.kind);
    RealignWrites(p, w);
    var q := Realign(p, w);
    if w == 8 {
      NoneAtZero(q);
      MemoryStep(q.out, Item(INTEGER, Load(l.bytes)));
      LoadBytes(l.bytes);
      ZeroTidy(q.out + [Item(INTEGER, Load(l.bytes))]);
      assert Bytes(q.val)[..0] == [] && Bytes(ZERO)[..0] == [];
    } else {
      InsertWrites(q, l.bytes);
    }
  }

  lemma {:induction false} ZeroTidy(out: seq<Item>)
    ensures Tidy(Packer(ZERO, 0, CLASS_NONE, out))
  {
    ZeroIsZero();
    hide Bytes;
  }

  lemma {:induction false} LoadBytes(bs: seq<Byte>)
    requires |bs| == 8
    ensures Bytes(Load(bs)) == bs
  {
    hide Bytes, Load;
  }

  predicate NoFloats(ls: seq<Leaf>) {
    forall i :: 0 <= i < |ls| ==> !IsFloat(ls[i].kind)
  }

  lemma {:induction false} RunWrites(ls: seq<Leaf>)
    requires NaturalLeaves(ls) && NoFloats(ls)
    ensures GoodLeaves(ls) && IntWord(Run(EMPTY, ls))
    ensures Written(Run(EMPTY, ls)) == Image(ls)
  {
    hide GoodLeaf, Step, Tidy, PadTo, Bytes, Memory;
    NaturalInit(ls, |ls|);
    if ls == [] {
      ZeroTidy([]);
    } else {
      var n := |ls| - 1;
      NaturalInit(ls, n);
      NaturalAt(ls, n);
      RunWrites(ls[..n]);
      StepWrites(Run(EMPTY, ls[..n]), ls[n]);
    }
  }

  /** The words are the image, padded to a whole number of words, all in integer registers. */
  lemma {:induction false} IntegersPackAsImage(ls: seq<Leaf>)
    requires NaturalLeaves(ls) && NoFloats(ls)
    ensures GoodLeaves(ls) && AllIntegers(Packed(ls))
    ensures 8 * |Packed(ls)| == |Image(ls)| + (8 - |Image(ls)| % 8) % 8
    ensures Memory(Packed(ls)) == Image(ls) + Zeros((8 - |Image(ls)| % 8) % 8)
  {
    hide GoodLeaf, Step, Tidy, PadTo, Bytes, Memory, Run, Flush, Image, AllIntegers, Written;
    var p := Run(EMPTY, ls);
    RunWrites(ls);
    TidyShift(p);
    FlushWrites(p);
    PaddingOf(|p.out|, p.shift / 8);
  }

  /** The bytes missing to a whole word after n words and b bytes. */
  lemma {:induction false} PaddingOf(n: nat, b: nat)
    requires b <= 8
    ensures (8 - (8 * n + b) % 8) % 8 == if b == 0 then 0 else 8 - b
  {
    if b < 8 { DivModUnique(8 * n + b, 8, n, b); } else { DivModUnique(8 * n + b, 8, n + 1, 0); }
  }

  lemma {:induction false} TidyShift(p: Packer)
    requires Tidy(p)
    ensures p.shift <= 64 && p.shift % 8 == 0
  {
  }

  /* ---- against the value in memory ---- */

  /** A struct of naturally aligned scalars. */
  predicate FlatScalars(t: Desc) {
    t.kind == StructType && ScalarMembers(t.members)
  }

  predicate ScalarMembers(ms: seq<Desc>) {
    forall i :: 0 <= i < |ms| ==> ScalarMember(ms[i])
  }

  predicate ScalarMember(m: Desc) {
    m.kind != StructType && NaturalLeaf(m)
  }

  predicate FlatIntegers(t: Desc) {
    FlatScalars(t) && forall i :: 0 <= i < |t.members| ==> !IsFloat(t.members[i].kind)
  }

  /** Byte j of the struct belongs to one of its first n members. */
  predicate Covered(ms: seq<Desc>, n: nat, j: nat) {
    exists i :: 0 <= i < n && i < |ms| && OffsetAt(ms, i) <= j < OffsetAt(ms, i) + ms[i].size
  }

  predicate IsImage(img: seq<Byte>, ms: seq<Desc>, mem: seq<Byte>, n: nat)
    requires n <= |ms|
  {
    && |img| == EndOf(ms, n) <= |mem|
    && forall j :: 0 <= j < |img| ==> img[j] == if Covered(ms, n, j) then mem[j] else 0
  }

  lemma {:induction false} ImageStep(ls: seq<Leaf>, l: Leaf)
    ensures Image(ls + [l]) == PadTo(Image(ls), l.align) + l.bytes
  {
    hide PadTo;
    assert (ls + [l])[..|ls|] == ls;
  }

  function MemberLeaf(m: Desc, mem: seq<Byte>, o: nat): Leaf
    requires o + m.size <= |mem|
  {
    Leaf(m.kind, m.alignment, mem[o..o + m.size])
  }

  /** A scalar member contributes one leaf. */
  lemma {:induction false} ScalarLeaf(m: Desc, mem: seq<Byte>, o: nat)
    requires ScalarMember(m) && InMemory(m, mem, o)
    ensures o + m.size <= |mem| && LeavesOf(m, mem, o) == [MemberLeaf(m, mem, o)]
    ensures GoodLeaf(MemberLeaf(m, mem, o)) && m.alignment == Width(m.kind)
  {
  }

  lemma {:induction false} OneMoreLeaf(ls: seq<Leaf>, l: Leaf)
    requires NaturalLeaves(ls) && GoodLeaf(l) && l.align == Width(l.kind)
    ensures NaturalLeaves(ls + [l])
  {
    hide GoodLeaf;
  }

  lemma {:induction false} ImageOfNone(ms: seq<Desc>, mem: seq<Byte>)
    ensures LeavesOfAll(ms, mem, 0, 0) == [] && IsImage(Image([]), ms, mem, 0)
  {
    hide Covered;
  }

  lemma {:induction false} ImageOfMembers(ms: seq<Desc>, mem: seq<Byte>, n: nat)
    requires n <= |ms| && MembersIn(ms, mem, 0, n) && ScalarMembers(ms)
    ensures var ls := LeavesOfAll(ms, mem, 0, n);
            NaturalLeaves(ls) && |ls| == n && forall i :: 0 <= i < n ==> ls[i].kind == ms[i].kind
    ensures IsImage(Image(LeavesOfAll(ms, mem, 0, n)), ms, mem, n)
    decreases n
  {
    hide Covered, OffsetAt, PadTo, GoodLeaf, LeavesOf, LeavesOfAll, InMemory, MembersIn, IsImage, ScalarMember, Image;
    if n == 0 {
      ImageOfNone(ms, mem);
    } else {
      LeavesOfAllStep(ms, mem, 0, n);
      ScalarLeaf(ms[n - 1], mem, OffsetAt(ms, n - 1));
      ImageOfMembers(ms, mem, n - 1);
      var ls, l := LeavesOfAll(ms, mem, 0, n - 1), MemberLeaf(ms[n - 1], mem, OffsetAt(ms, n - 1));
      OneMoreLeaf(ls, l);
      ImageStep(ls, l);
      OneMoreMember(Image(ls), ms, mem, n - 1);
    }
  }

  lemma {:induction false} OneMoreMember(img: seq<Byte>, ms: seq<Desc>, mem: seq<Byte>, i: nat)
    requires i < |ms| && ScalarMembers(ms) && OffsetAt(ms, i) + ms[i].size <= |mem|
    requires IsImage(img, ms, mem, i)
    ensures IsImage(PadTo(img, ms[i].alignment) + mem[OffsetAt(ms, i)..OffsetAt(ms, i) + ms[i].size], ms, mem, i + 1)
  {
    hide AlignMask, OffsetAt, Covered;
    var w, o := ms[i].size, OffsetAt(ms, i);
    NextOffset(ms, i);
    var all := PadTo(img, w) + mem[o..o + w];
    assert |PadTo(img, w)| == o;
    CoveredBefore(ms, i);
    forall j | 0 <= j < |all| ensures all[j] == if Covered(ms, i + 1, j) then mem[j] else 0 {
      CoveredStep(ms, i, j);
    }
  }

  lemma {:induction false} AlignsUp(v: nat, w: nat)
    requires w == 1 || w == 2 || w == 4 || w == 8
    ensures AlignMask(v, w) >= v
  {
    SmallPow2s();
    AlignMaskIsAlignUp(v, w);
  }

  lemma {:induction false} NextOffset(ms: seq<Desc>, i: nat)
    requires i < |ms| && ScalarMembers(ms)
    ensures OffsetAt(ms, i) == AlignMask(EndOf(ms, i), ms[i].size) >= EndOf(ms, i)
    ensures ms[i].alignment == ms[i].size
  {
    hide AlignMask;
    assert ScalarMember(ms[i]);
    AlignsUp(EndOf(ms, i), ms[i].size);
  }

  lemma {:induction false} CoveredStep(ms: seq<Desc>, i: nat, j: nat)
    requires i < |ms|
    ensures Covered(ms, i + 1, j) <==> Covered(ms, i, j) || OffsetAt(ms, i) <= j < OffsetAt(ms, i) + ms[i].size
  {
    hide OffsetAt;
  }

  /** No member reaches past the end of the last one placed. */
  lemma {:induction false} CoveredBefore(ms: seq<Desc>, n: nat)
    requires n <= |ms| && ScalarMembers(ms)
    ensures forall j: nat :: Covered(ms, n, j) ==> j < EndOf(ms, n)
  {
    hide OffsetAt, ScalarMembers;
    if n != 0 {
      CoveredBefore(ms, n - 1);
      NextOffset(ms, n - 1);
      hide Covered;
      forall j: nat | Covered(ms, n, j) ensures j < EndOf(ms, n) { CoveredStep(ms, n - 1, j); }
    }
  }

  /** The k-th word of a flat struct of integers is its k-th eightbyte, padding zeroed. */
  lemma {:induction false} FlatIntegersPackAsMemory(t: Desc, mem: seq<Byte>, k: nat)
    requires FlatIntegers(t) && InMemory(t, mem, 0)
    requires k < |Packed(LeavesOf(t, mem, 0))|
    ensures Packed(LeavesOf(t, mem, 0))[k].cls == INTEGER
    ensures forall b :: 0 <= b < 8 ==>
              Bytes(Packed(LeavesOf(t, mem, 0))[k].word)[b] ==
              if Covered(t.members, |t.members|, 8 * k + b) && 8 * k + b < |mem| then mem[8 * k + b] else 0
    ensures var end := EndOf(t.members, |t.members|);
            8 * |Packed(LeavesOf(t, mem, 0))| == end + (8 - end % 8) % 8
  {
    hide Packed, Image, Covered, Bytes, OffsetAt, Memory, InMemory, MembersIn, LeavesOf, LeavesOfAll,
         ScalarMembers, EndOf;
    hide GoodLeaf;
    var ls, n := LeavesOf(t, mem, 0), |t.members|;
    StructLeaves(t, mem);
    ImageOfMembers(t.members, mem, n);
    IntegersPackAsImage(ls);
    CoveredBefore(t.members, n);
    forall b | 0 <= b < 8
      ensures Bytes(Packed(ls)[k].word)[b] ==
              if Covered(t.members, n, 8 * k + b) && 8 * k + b < |mem| then mem[8 * k + b] else 0
    {
      MemoryAt(Packed(ls), k, b);
    }
  }

  lemma {:induction false} StructLeaves(t: Desc, mem: seq<Byte>)
    requires t.kind == StructType && InMemory(t, mem, 0)
    ensures MembersIn(t.members, mem, 0, |t.members|)
    ensures LeavesOf(t, mem, 0) == LeavesOfAll(t.members, mem, 0, |t.members|)
  {
    hide OffsetAt;
  }

  lemma {:induction false} MemoryAt(items: seq<Item>, k: nat, b: nat)
    requires k < |items| && b < 8
    ensures Memory(items)[8 * k + b] == Bytes(items[k].word)[b]
  {
    hide Bytes;
    if k < |items| - 1 { MemoryAt(items[..|items| - 1], k, b); }
  }
}
