/** placeStructRegisters and countStructRegUsage as the source runs them: walks that mutate the word
    under construction, and counters that mutate with them. */
module Arm64Place {
  import opened Bits
  import opened Words
  import opened Types
  import opened Placement
  import opened Arm64Regs
  import opened Arm64Pack

  /** The words as the allocator records them. */
  function Tagged(items: seq<Item>, exhausted: bool): seq<Item> {
    if exhausted then seq(|items|, i requires 0 <= i < |items| => Item(MEMORY, items[i].word)) else items
  }

  lemma {:induction false} TaggedAppend(a: seq<Item>, x: Item, exhausted: bool)
    ensures Tagged(a + [x], exhausted) == Tagged(a, exhausted) + [Item(Tag(x.cls, exhausted), x.word)]
  {
  }

  /** The words a run produces only grow. */
  lemma {:induction false} RunGrows(p: Packer, ls: seq<Leaf>)
    requires GoodLeaves(ls)
    ensures p.out <= Run(p, ls).out
  {
    hide GoodLeaf;
    if ls != [] {
      RunGrows(p, ls[..|ls| - 1]);
      StepGrows(Run(p, ls[..|ls| - 1]), ls[|ls| - 1]);
    }
  }

  lemma {:induction false} StepGrows(p: Packer, l: Leaf)
    requires GoodLeaf(l)
    ensures p.out <= Step(p, l).out
  {
    hide AlignMask;
  }

  /** The words handed out part-way through a step are those it starts with. */
  lemma {:induction false} StepPrefixes(p: Packer, l: Leaf)
    requires GoodLeaf(l)
    ensures var q := Realign(p, l.align);
            && q.out <= Step(p, l).out
            && (l.kind == FloatType && q.cls == CLASS_FLOAT ==> Flush(q).out <= Step(p, l).out)
  {
    hide Realign, Load, GoodLeaf;
  }

  /** More words never fit where fewer did not. */
  lemma {:induction false} FitsPrefix(base: seq<Item>, a: seq<Item>, b: seq<Item>, exhausted: bool)
    requires a <= b && Fits(base + Tagged(b, exhausted))
    ensures Fits(base + Tagged(a, exhausted))
  {
    var ta, tb := Tagged(a, exhausted), Tagged(b, exhausted);
    assert base + tb == (base + ta) + tb[|a|..];
    StackGrows(base + ta, tb[|a|..], GP_REGS);
  }

  class StructPacker {
    const regs: RegFile
    var val: Word
    var shift: nat
    var cls: nat
    var ok: bool
    ghost const base: seq<Item>
    ghost const exhausted: bool
    ghost var out: seq<Item>
    ghost var held: seq<Item>

    ghost predicate Valid()
      reads this, regs
    {
      regs.Holds(held) && regs.exhausted == exhausted && (ok ==> held == base + Tagged(out, exhausted))
    }

    /** These words fit on top of what the allocator held before the struct. */
    ghost predicate Room(words: seq<Item>) {
      Fits(base + Tagged(words, exhausted))
    }

    ghost function M(): Packer
      reads this
    {
      Packer(val, shift, cls, out)
    }

    /** The walk is in state p, or has given up on leaves that are not all supported or do not all fit. */
    ghost predicate Reached(p: Packer, supported: bool)
      reads this, regs
    {
      Valid() && if ok then supported && M() == p else supported ==> !Room(p.out)
    }

    constructor (regs: RegFile, ghost base: seq<Item>)
      requires regs.Holds(base)
      ensures this.regs == regs && this.base == base && exhausted == regs.exhausted
      ensures Valid() && ok && M() == EMPTY
    {
      this.regs, this.base, exhausted := regs, base, regs.exhausted;
      val, shift, cls, ok := ZERO, 0, CLASS_NONE, true;
      out, held := [], base;
      new;
      assert base + Tagged([], regs.exhausted) == base;
    }

    /** Hands one word to the allocator. */
    method Emit(sse: bool, x: Word)
      requires Valid() && ok
      modifies this`ok, this`out, this`held, regs
      ensures Valid()
      ensures out == old(out) + [Item(if sse then SSE else INTEGER, x)]
      ensures ok <==> Room(out)
    {
      hide Fits;
      ghost var y := Item(if sse then SSE else INTEGER, x);
      TaggedAppend(out, y, regs.exhausted);
      assert held + [Item(Tag(y.cls, regs.exhausted), x)] == base + Tagged(out + [y], regs.exhausted);
      if sse { ok := regs.AddFloat(x, held); } else { ok := regs.AddInt(x, held); }
      if ok { held := held + [Item(Tag(y.cls, regs.exhausted), x)]; }
      out := out + [y];
    }

    method FlushWord()
      requires Valid() && ok
      modifies this, regs
      ensures Valid()
      ensures M() == Flush(old(M()))
      ensures ok <==> Room(out)
    {
      if cls != CLASS_NONE {
        Emit(cls == CLASS_FLOAT, val);
      }
      val, shift, cls := ZERO, 0, CLASS_NONE;
    }

    /** Moves to the next position this alignment allows. */
    method AlignTo(align: nat)
      requires Valid() && ok
      modifies this, regs
      ensures Valid()
      ensures M() == Realign(old(M()), align)
      ensures ok || !Room(out)
    {
      hide AlignMask, Fits;
      shift := AlignMask(shift, 8 * align);
      if shift >= 64 {
        FlushWord();
        shift := 0;
      }
    }

    /** One scalar at ptr. */
    method PlaceLeaf(cur: Desc, mem: seq<Byte>, ptr: nat)
      requires Valid() && ok && cur.kind != StructType && InMemory(cur, mem, ptr)
      modifies this, regs
      ensures Reached(Run(old(M()), LeavesOf(cur, mem, ptr)), Supported(cur))
    {
      if FixedWidth(cur.kind) { OneLeaf(M(), cur, mem, ptr); }
      hide Run, LeavesOf;
      if FixedWidth(cur.kind) {
        PlaceField(Leaf(cur.kind, cur.alignment, mem[ptr..ptr + Width(cur.kind)]));
      } else {
        AlignTo(cur.alignment);
        ok := false;
      }
    }

    /** A field of fixed width, given by its bytes. */
    method PlaceField(l: Leaf)
      requires Valid() && ok && GoodLeaf(l)
      modifies this, regs
      ensures Reached(Step(old(M()), l), true)
    {
      hide Realign, Load, Bytes, Flush, Insert, BitOr, StructPacker.Room, StructPacker.Valid;
      ghost var done := Step(M(), l);
      StepPrefixes(M(), l);
      AlignTo(l.align);
      if !ok {
        GiveUp(out, done.out);
        return;
      }
      if l.kind == FloatType {
        PlaceFloat(l.bytes);
        if !ok { GiveUp(out, done.out); }
      } else if Width(l.kind) == 8 {
        PlaceWide(l.kind == DoubleType, l.bytes);
      } else {
        InsertField(l.bytes, CLASS_INT);
      }
    }

    /** An eight-byte field takes a word of its own. */
    method PlaceWide(sse: bool, bytes: seq<Byte>)
      requires Valid() && ok && |bytes| == 8
      modifies this, regs
      ensures Valid() && (ok || !Room(out))
      ensures M() == Packer(ZERO, 0, CLASS_NONE, old(out) + [Item(if sse then SSE else INTEGER, Load(bytes))])
    {
      hide Load, StructPacker.Room;
      Emit(sse, Load(bytes));
      shift, cls, val := 0, CLASS_NONE, ZERO;
    }

    /** Two float32 never share a word, unless an integer field came between them. */
    method PlaceFloat(bytes: seq<Byte>)
      requires Valid() && ok && |bytes| == 4
      modifies this, regs
      ensures Valid()
      ensures var p := old(M());
              var q := if p.cls == CLASS_FLOAT then Flush(p) else p;
              if ok then M() == Insert(q, bytes, CLASS_FLOAT)
              else out == q.out && !Room(out)
    {
      hide Fits, Insert;
      if cls == CLASS_FLOAT {
        FlushWord();
      }
      if ok { InsertField(bytes, CLASS_FLOAT); }
    }

    /** Or a field into the word. */
    method InsertField(bytes: seq<Byte>, c: nat)
      requires Valid() && |bytes| <= 8
      modifies this`val, this`shift, this`cls
      ensures Valid() && M() == Insert(old(M()), bytes, c)
    {
      val := Or(val, ShiftLeft(Load(bytes), shift));
      shift := shift + 8 * |bytes|;
      cls := BitOr(cls, c);
    }

    static lemma {:induction false} OneLeaf(p: Packer, cur: Desc, mem: seq<Byte>, ptr: nat)
      requires InMemory(cur, mem, ptr) && FixedWidth(cur.kind) && cur.kind != StructType
      ensures Run(p, LeavesOf(cur, mem, ptr)) == Step(p, Leaf(cur.kind, cur.alignment, mem[ptr..ptr + Width(cur.kind)]))
    {
      var ls := LeavesOf(cur, mem, ptr);
      assert ls[..0] == [];
      hide Step;
    }

    /** The recursive walk: structs visit their members at aligned offsets. */
    method Place(cur: Desc, mem: seq<Byte>, ptr: nat)
      requires Valid() && ok && InMemory(cur, mem, ptr)
      modifies this, regs
      ensures Reached(Run(old(M()), LeavesOf(cur, mem, ptr)), Supported(cur))
      decreases cur, 2
    {
      if cur.kind != StructType {
        PlaceLeaf(cur, mem, ptr);
      } else {
        StructLeaves(cur, mem, ptr);
        hide Run, GoodLeaf, InMemory, MembersIn, LeavesOf, LeavesOfAll, StructPacker.Room, StructPacker.Valid;
        PlaceMembers(cur, mem, ptr);
      }
    }

    method PlaceMembers(cur: Desc, mem: seq<Byte>, ptr: nat)
      requires Valid() && ok && cur.kind == StructType && MembersIn(cur.members, mem, ptr, |cur.members|)
      modifies this, regs
      ensures Reached(Run(old(M()), LeavesOfAll(cur.members, mem, ptr, |cur.members|)), Supported(cur))
      decreases cur, 1
    {
      hide Run, GoodLeaf, InMemory, AlignOffset, LeavesOf;
      hide LeavesOfAll, Supported, MembersIn, StructPacker.Room, StructPacker.Valid;
      NoMembers(cur.members, mem, ptr, M());
      SupportedStruct(cur);
      ghost var p := M();
      var offset: nat := 0;
      var i := 0;
      while i < |cur.members|
        invariant 0 <= i <= |cur.members|
        invariant Valid() && ok
        invariant SupportedUpTo(cur.members, i)
        invariant MembersIn(cur.members, mem, ptr, i)
        invariant M() == Run(p, LeavesOfAll(cur.members, mem, ptr, i))
        invariant offset == (if i == 0 then 0 else OffsetAt(cur.members, i - 1) + cur.members[i - 1].size)
      {
        MemberIn(cur.members, mem, ptr, i, |cur.members|);
        offset := AlignOffset(offset, cur.members[i].alignment);
        PlaceMember(cur, mem, ptr, i, offset, p);
        if !ok {
          if Supported(cur) { GiveUpMembers(p, cur.members, mem, ptr, i + 1); }
          return;
        }
        offset := offset + cur.members[i].size;
        i := i + 1;
      }
    }

    method PlaceMember(cur: Desc, mem: seq<Byte>, ptr: nat, i: nat, offset: nat, ghost p: Packer)
      requires Valid() && ok && cur.kind == StructType && i < |cur.members|
      requires MembersIn(cur.members, mem, ptr, i) && MembersIn(cur.members, mem, ptr, i + 1)
      requires offset == OffsetAt(cur.members, i) && M() == Run(p, LeavesOfAll(cur.members, mem, ptr, i))
      modifies this, regs
      ensures Reached(Run(p, LeavesOfAll(cur.members, mem, ptr, i + 1)), Supported(cur.members[i]))
      decreases cur, 0
    {
      NextMember(p, cur.members, mem, ptr, i);
      hide Run, GoodLeaf, InMemory, MembersIn, AlignOffset;
      hide LeavesOf, LeavesOfAll, OffsetAt, StructPacker.Room, StructPacker.Valid;
      Place(cur.members[i], mem, ptr + offset);
    }

    lemma {:induction false} GiveUpMembers(p: Packer, ms: seq<Desc>, mem: seq<Byte>, ptr: nat, m: nat)
      requires m <= |ms| && MembersIn(ms, mem, ptr, m) && MembersIn(ms, mem, ptr, |ms|)
      requires !Room(Run(p, LeavesOfAll(ms, mem, ptr, m)).out)
      ensures !Room(Run(p, LeavesOfAll(ms, mem, ptr, |ms|)).out)
    {
      LaterMembers(p, ms, mem, ptr, m, |ms|);
      GiveUp(Run(p, LeavesOfAll(ms, mem, ptr, m)).out, Run(p, LeavesOfAll(ms, mem, ptr, |ms|)).out);
    }

    /** After a refused word the rest of the struct does not fit either. */
    lemma {:induction false} GiveUp(a: seq<Item>, b: seq<Item>)
      requires a <= b && !Room(a)
      ensures !Room(b)
    {
      if Room(b) { FitsPrefix(base, a, b, exhausted); }
    }
  }

  lemma {:induction false} StructLeaves(t: Desc, mem: seq<Byte>, ptr: nat)
    requires InMemory(t, mem, ptr) && t.kind == StructType
    ensures MembersIn(t.members, mem, ptr, |t.members|)
    ensures LeavesOf(t, mem, ptr) == LeavesOfAll(t.members, mem, ptr, |t.members|)
  {
  }

  lemma {:induction false} SupportedStruct(t: Desc)
    requires t.kind == StructType
    ensures Supported(t) <==> SupportedUpTo(t.members, |t.members|)
  {
  }

  lemma {:induction false} NoMembers(ms: seq<Desc>, mem: seq<Byte>, ptr: nat, p: Packer)
    ensures MembersIn(ms, mem, ptr, 0) && Run(p, LeavesOfAll(ms, mem, ptr, 0)) == p
  {
  }

  lemma {:induction false} NextMember(p: Packer, ms: seq<Desc>, mem: seq<Byte>, ptr: nat, i: nat)
    requires i < |ms| && MembersIn(ms, mem, ptr, i) && MembersIn(ms, mem, ptr, i + 1)
    ensures InMemory(ms[i], mem, ptr + OffsetAt(ms, i))
    ensures Run(p, LeavesOfAll(ms, mem, ptr, i + 1)) ==
            Run(Run(p, LeavesOfAll(ms, mem, ptr, i)), LeavesOf(ms[i], mem, ptr + OffsetAt(ms, i)))
  {
    hide InMemory, Run, GoodLeaf, OffsetAt;
    RunAppend(p, LeavesOfAll(ms, mem, ptr, i), LeavesOf(ms[i], mem, ptr + OffsetAt(ms, i)));
  }

  lemma {:induction false} LaterMembers(p: Packer, ms: seq<Desc>, mem: seq<Byte>, ptr: nat, m: nat, n: nat)
    requires m <= n <= |ms| && MembersIn(ms, mem, ptr, m) && MembersIn(ms, mem, ptr, n)
    ensures Run(p, LeavesOfAll(ms, mem, ptr, m)).out <= Run(p, LeavesOfAll(ms, mem, ptr, n)).out
  {
    hide InMemory, Run, GoodLeaf, OffsetAt, LeavesOf, LeavesOfAll;
    if m < n {
      MemberIn(ms, mem, ptr, n - 1, n);
      hide MembersIn;
      LaterMembers(p, ms, mem, ptr, m, n - 1);
      NextMember(p, ms, mem, ptr, n - 1);
      RunGrows(Run(p, LeavesOfAll(ms, mem, ptr, n - 1)), LeavesOf(ms[n - 1], mem, ptr + OffsetAt(ms, n - 1)));
    }
  }

  /** placeStructRegisters: true exactly when every leaf is supported and every word found a place;
      then the allocator holds precisely the packed words of the struct. */
  method PlaceStructRegisters(regs: RegFile, desc: Desc, mem: seq<Byte>, ghost base: seq<Item>)
    returns (ok: bool, ghost held: seq<Item>)
    requires regs.Holds(base) && InMemory(desc, mem, 0)
    modifies regs
    ensures regs.Holds(held) && regs.exhausted == old(regs.exhausted)
    ensures ok <==> desc.kind == StructType && Supported(desc)
                    && Fits(base + Tagged(Packed(LeavesOf(desc, mem, 0)), regs.exhausted))
    ensures ok ==> held == base + Tagged(Packed(LeavesOf(desc, mem, 0)), regs.exhausted)
  {
    if desc.kind != StructType {
      return false, base;
    }
    hide Fits, GoodLeaf, InMemory, Tagged, RegFile.Holds, LeavesOf, Run;
    var packer := new StructPacker(regs, base);
    packer.Place(desc, mem, 0);
    if !packer.ok {
      if Supported(desc) {
        ghost var q := Run(EMPTY, LeavesOf(desc, mem, 0));
        packer.GiveUp(q.out, Flush(q).out);
      }
      return false, packer.held;
    }
    if packer.cls != CLASS_NONE {
      packer.FlushWord();
    }
    ok, held := packer.ok, packer.held;
  }
}
