/** Structs that mix floats and integers: exactly which of them reach the callee as their memory image in
    integer registers, as AAPCS64 section 6.8.2 wants it of everything that is no HFA. */
module Arm64Mixed {
  import opened Bits
  import opened Words
  import opened Types
  import opened Placement
  import opened Arm64Pack
  import opened Arm64Place
  import opened Arm64Lossless
  import opened Arm64Struct

  /** Where the i-th leaf is in the image. */
  function StartOf(ls: seq<Leaf>, i: nat): nat
    requires i < |ls|
  {
    |PadTo(Image(ls[..i]), ls[i].align)|
  }

  /** Some integer leaf is in the eightbyte in which leaf i starts. */
  predicate SharesWord(ls: seq<Leaf>, i: nat)
    requires i < |ls|
  {
    exists j :: 0 <= j < |ls| && !IsFloat(ls[j].kind) && StartOf(ls, j) / 8 == StartOf(ls, i) / 8
  }

  /** No float is alone, or with floats only, in its eightbyte. */
  predicate NoFloatWord(ls: seq<Leaf>) {
    forall i :: 0 <= i < |ls| && IsFloat(ls[i].kind) ==> SharesWord(ls, i)
  }

  /* ---- where leaves start ---- */

  lemma {:induction false} ImageGrows(ls: seq<Leaf>, i: nat)
    requires i < |ls|
    ensures |Image(ls[..i + 1])| == StartOf(ls, i) + |ls[i].bytes|
    ensures StartOf(ls, i) >= |Image(ls[..i])|
  {
    hide PadTo;
    assert ls[..i + 1] == ls[..i] + [ls[i]];
    ImageStep(ls[..i], ls[i]);
  }

  lemma {:induction false} ImageBefore(ls: seq<Leaf>, i: nat, n: nat)
    requires i < n <= |ls|
    ensures StartOf(ls, i) + |ls[i].bytes| <= |Image(ls[..n])|
    decreases n
  {
    hide Image, StartOf;
    ImageGrows(ls, n - 1);
    if i < n - 1 { ImageBefore(ls, i, n - 1); }
  }

  /** Leaves start one after the other. */
  lemma {:induction false} StartsOrdered(ls: seq<Leaf>, i: nat, j: nat)
    requires i < j < |ls|
    ensures StartOf(ls, i) + |ls[i].bytes| <= StartOf(ls, j)
  {
    hide Image, StartOf;
    ImageBefore(ls, i, j);
    ImageGrows(ls, j);
  }

  /* ---- one leaf, while no word goes to a float register ---- */

  /** The packer has written the image of the leaves so far, in integer words only. */
  predicate InStep(p: Packer, img: seq<Byte>) {
    Tidy(p) && AllIntegers(p.out) && Written(p) == img
  }

  lemma {:induction false} IntegersPrefix(a: seq<Item>, b: seq<Item>)
    requires a <= b && AllIntegers(b)
    ensures AllIntegers(a)
  {
    forall k | 0 <= k < |a| ensures a[k].cls == INTEGER { assert a[k] == b[k]; }
  }

  lemma {:induction false} FlushedIsFloat(p: Packer)
    requires p.cls == CLASS_FLOAT
    ensures !AllIntegers(Flush(p).out)
  {
    assert Flush(p).out[|p.out|].cls == SSE;
  }

  lemma {:induction false} IntWordIs(p: Packer, img: seq<Byte>)
    requires InStep(p, img) && p.cls != CLASS_FLOAT
    ensures IntWord(p)
  {
  }

  /** Aligning, when a pending float is not flushed. */
  lemma {:induction false} RealignInStep(p: Packer, w: nat, img: seq<Byte>)
    requires w == 1 || w == 2 || w == 4 || w == 8
    requires InStep(p, img) && AllIntegers(Realign(p, w).out)
    ensures InStep(Realign(p, w), PadTo(img, w)) && Realign(p, w).shift + 8 * w <= 64
    ensures p.cls == CLASS_FLOAT ==>
              w < 8 && Realign(p, w) == p.(shift := AlignMask(p.shift, 8 * w)) && Realign(p, w).shift < 64
    ensures p.cls != CLASS_FLOAT ==> Realign(p, w).cls != CLASS_FLOAT
    ensures w == 8 ==> Realign(p, w).cls == CLASS_NONE
  {
    hide Bytes, Memory, AlignMask, AllIntegers, Flush;
    RealignFits(p, w);
    if p.cls != CLASS_FLOAT {
      IntWordIs(p, img);
      RealignWrites(p, w);
    } else {
      AlignInWord(p.shift, w);
      AlignWhole(|p.out|, p.shift / 8, w);
      var s := AlignMask(p.shift, 8 * w);
      if s >= 64 { FlushedIsFloat(p.(shift := s)); }
      assert Bytes(p.val)[..s / 8] == Bytes(p.val)[..p.shift / 8] + Zeros(s / 8 - p.shift / 8);
    }
  }

  lemma {:induction false} InsertInStep(p: Packer, bytes: seq<Byte>, cls: nat, img: seq<Byte>)
    requires InStep(p, img) && p.shift + 8 * |bytes| <= 64 && |bytes| > 0 && cls > 0
    ensures InStep(Insert(p, bytes, cls), img + bytes)
  {
    hide Bytes, Memory, Or, Load, ShiftLeft, AllIntegers, BitOr;
    InsertTidy(p, bytes, cls);
    var q, n := Insert(p, bytes, cls), p.shift / 8;
    forall j | 0 <= j < 8
      ensures Bytes(q.val)[j] == if n <= j < n + |bytes| then bytes[j - n] else Bytes(p.val)[j]
    {
      InsertBytes(p, bytes, cls, j);
    }
    assert Bytes(q.val)[..n + |bytes|] == Bytes(p.val)[..n] + bytes;
  }

  lemma {:induction false} ClassOr(c: nat)
    ensures BitOr(c, CLASS_FLOAT) == CLASS_FLOAT <==> c == CLASS_NONE || c == CLASS_FLOAT
    ensures BitOr(c, CLASS_FLOAT) != CLASS_NONE && BitOr(c, CLASS_INT) != CLASS_NONE
    ensures BitOr(c, CLASS_INT) != CLASS_FLOAT
  {
    OrPositive(c, CLASS_FLOAT);
    OrPositive(c, CLASS_INT);
    IntClass(c);
    assert c / 2 != 0 ==> BitOr(c / 2, 0) == c / 2;
  }

  /** What one leaf does to the word under construction: q is the packer once aligned, r afterwards. */
  predicate LeafDone(p: Packer, q: Packer, r: Packer, l: Leaf, at: nat)
    requires GoodLeaf(l)
  {
    && |q.out| == at / 8
    && (p.cls == CLASS_FLOAT ==> q.cls == CLASS_FLOAT && !IsFloat(l.kind))
    && (q.cls != CLASS_NONE ==> q.cls == p.cls && q.out == p.out)
    && (IsFloat(l.kind) ==>
          && Width(l.kind) == 4 && q.cls != CLASS_FLOAT && r.out == q.out && r.cls != CLASS_NONE
          && (r.cls == CLASS_FLOAT <==> q.cls == CLASS_NONE))
    && (!IsFloat(l.kind) && Width(l.kind) < 8 ==> r.out == q.out && r.cls != CLASS_NONE && r.cls != CLASS_FLOAT)
    && (Width(l.kind) == 8 ==> r.cls == CLASS_NONE)
  }

  lemma {:induction false} RealignCases(p: Packer, w: nat)
    ensures Realign(p, w).cls != CLASS_NONE ==> Realign(p, w).cls == p.cls && Realign(p, w).out == p.out
  {
    hide AlignMask;
  }

  lemma {:induction false} StepInStep(p: Packer, l: Leaf, img: seq<Byte>)
    requires GoodLeaf(l) && l.align == Width(l.kind) && InStep(p, img) && AllIntegers(Step(p, l).out)
    ensures InStep(Step(p, l), PadTo(img, l.align) + l.bytes)
    ensures LeafDone(p, Realign(p, l.align), Step(p, l), l, |PadTo(img, l.align)|)
  {
    hide Realign, Insert, PadTo, Bytes, Memory, Load, Tidy, AllIntegers, InStep, BitOr, Flush;
    var w := Width(l.kind);
    var q := Realign(p, w);
    StepPrefixes(p, l);
    IntegersPrefix(q.out, Step(p, l).out);
    RealignInStep(p, w, img);
    RealignCases(p, w);
    WrittenWord(q, PadTo(img, w), w);
    ClassOr(q.cls);
    if w == 8 {
      WholeInStep(q, l, PadTo(img, w));
    } else if l.kind == FloatType {
      if q.cls == CLASS_FLOAT {
        FlushedIsFloat(q);
        IntegersPrefix(Flush(q).out, Step(p, l).out);
      } else {
        InsertInStep(q, l.bytes, CLASS_FLOAT, PadTo(img, w));
        InsertKeepsOut(q, l.bytes, CLASS_FLOAT);
      }
    } else {
      InsertInStep(q, l.bytes, CLASS_INT, PadTo(img, w));
      InsertKeepsOut(q, l.bytes, CLASS_INT);
    }
  }

  lemma {:induction false} InsertKeepsOut(p: Packer, bytes: seq<Byte>, cls: nat)
    requires |bytes| <= 8
    ensures Insert(p, bytes, cls).out == p.out && Insert(p, bytes, cls).cls == BitOr(p.cls, cls)
  {
    hide Or, Load, ShiftLeft, BitOr;
  }

  /** The position in the image is the position in the word under construction. */
  lemma {:induction false} WrittenWord(q: Packer, img: seq<Byte>, w: nat)
    requires InStep(q, img) && w > 0 && q.shift + 8 * w <= 64
    ensures |img| / 8 == |q.out|
  {
    hide Bytes, Memory;
    DivModUnique(|img|, 8, |q.out|, q.shift / 8);
  }

  /** An eight-byte leaf that is no float. */
  lemma {:induction false} WholeInStep(q: Packer, l: Leaf, img: seq<Byte>)
    requires GoodLeaf(l) && Width(l.kind) == 8 && InStep(q, img) && q.cls == CLASS_NONE
    requires AllIntegers(q.out + [Item(if IsFloat(l.kind) then SSE else INTEGER, Load(l.bytes))])
    ensures !IsFloat(l.kind)
    ensures InStep(Packer(ZERO, 0, CLASS_NONE, q.out + [Item(INTEGER, Load(l.bytes))]), img + l.bytes)
  {
    var x := Item(if IsFloat(l.kind) then SSE else INTEGER, Load(l.bytes));
    assert (q.out + [x])[|q.out|] == x;
    hide Bytes, Memory, Load, Tidy, Written;
    NoneAtZero(q);
    ZeroTidy(q.out + [x]);
    WholeWritten(q, x, l.bytes);
  }

  lemma {:induction false} WholeWritten(q: Packer, x: Item, bytes: seq<Byte>)
    requires q.shift == 0 && |bytes| == 8 && x.word == Load(bytes)
    ensures Written(Packer(ZERO, 0, CLASS_NONE, q.out + [x])) == Written(q) + bytes
  {
    hide Bytes, Memory, Load;
    MemoryStep(q.out, x);
    LoadBytes(bytes);
    assert Bytes(q.val)[..0] == [] && Bytes(ZERO)[..0] == [];
  }

  /* ---- if every word is an integer word, every float shares one ---- */

  /** The packer after the first n leaves. */
  function RunOf(ls: seq<Leaf>, n: nat): Packer
    requires NaturalLeaves(ls) && n <= |ls|
  {
    NaturalInit(ls, n);
    Run(EMPTY, ls[..n])
  }

  lemma {:induction false} RunStep(ls: seq<Leaf>, n: nat)
    requires NaturalLeaves(ls) && n < |ls|
    ensures GoodLeaf(ls[n]) && ls[n].align == Width(ls[n].kind)
    ensures RunOf(ls, n + 1) == Step(RunOf(ls, n), ls[n])
  {
    hide Step, GoodLeaf;
    NaturalInit(ls, n + 1);
    assert ls[..n + 1][..n] == ls[..n];
    NaturalAt(ls, n);
  }

  lemma {:induction false} OutGrows(ls: seq<Leaf>, n: nat)
    requires NaturalLeaves(ls) && n <= |ls|
    ensures GoodLeaves(ls) && RunOf(ls, n).out <= Packed(ls)
    decreases |ls| - n
  {
    hide Step, GoodLeaf, NaturalLeaves;
    NaturalInit(ls, |ls|);
    if n == |ls| {
      assert ls[..n] == ls;
    } else {
      RunStep(ls, n);
      StepGrows(RunOf(ls, n), ls[n]);
      OutGrows(ls, n + 1);
      hide RunOf;
    }
  }

  /** All words of the struct are integer words. */
  predicate AllInteger(ls: seq<Leaf>)
    requires NaturalLeaves(ls)
  {
    NaturalInit(ls, |ls|);
    AllIntegers(Packed(ls))
  }

  lemma {:induction false} IntegersSoFar(ls: seq<Leaf>, n: nat)
    requires NaturalLeaves(ls) && n <= |ls| && AllInteger(ls)
    ensures AllIntegers(RunOf(ls, n).out)
  {
    hide Packed, RunOf, NaturalLeaves, AllIntegers;
    OutGrows(ls, n);
    IntegersPrefix(RunOf(ls, n).out, Packed(ls));
  }

  lemma {:induction false} NothingWritten()
    ensures InStep(EMPTY, Image([]))
  {
    ZeroTidy([]);
  }

  /** The n-th step. */
  lemma {:induction false} NextLeaf(ls: seq<Leaf>, n: nat)
    requires NaturalLeaves(ls) && n < |ls| && InStep(RunOf(ls, n), Image(ls[..n])) && AllIntegers(RunOf(ls, n + 1).out)
    ensures InStep(RunOf(ls, n + 1), Image(ls[..n + 1]))
    ensures GoodLeaf(ls[n])
    ensures LeafDone(RunOf(ls, n), Realign(RunOf(ls, n), ls[n].align), RunOf(ls, n + 1), ls[n], StartOf(ls, n))
  {
    hide Step, GoodLeaf, RunOf, InStep, AllIntegers, PadTo, LeafDone, NaturalLeaves, Realign, Image;
    RunStep(ls, n);
    StepInStep(RunOf(ls, n), ls[n], Image(ls[..n]));
    assert ls[..n + 1] == ls[..n] + [ls[n]];
    ImageStep(ls[..n], ls[n]);
  }

  lemma {:induction false} RunInStep(ls: seq<Leaf>, n: nat)
    requires NaturalLeaves(ls) && n <= |ls| && AllInteger(ls)
    ensures InStep(RunOf(ls, n), Image(ls[..n]))
  {
    hide InStep, AllInteger, NaturalLeaves, LeafDone, AllIntegers;
    if n == 0 {
      NothingWritten();
    } else {
      hide RunOf;
      RunInStep(ls, n - 1);
      IntegersSoFar(ls, n);
      NextLeaf(ls, n - 1);
    }
  }

  /** Integer leaf j, among the first n, starts in word k. */
  predicate IntegerIn(ls: seq<Leaf>, j: nat, n: nat, k: nat) {
    j < n && j < |ls| && !IsFloat(ls[j].kind) && StartOf(ls, j) / 8 == k
  }

  predicate AnyInteger(ls: seq<Leaf>, n: nat, k: nat) {
    exists j :: 0 <= j < |ls| && IntegerIn(ls, j, n, k)
  }

  /** The integer leaf of a pending word, one leaf later. */
  lemma {:induction false} StillPending(ls: seq<Leaf>, n: nat, p: Packer, r: Packer)
    requires n < |ls| && GoodLeaf(ls[n]) && LeafDone(p, Realign(p, ls[n].align), r, ls[n], StartOf(ls, n))
    requires p.cls != CLASS_NONE && p.cls != CLASS_FLOAT ==> AnyInteger(ls, n, |p.out|)
    ensures r.cls != CLASS_NONE && r.cls != CLASS_FLOAT ==> AnyInteger(ls, n + 1, |r.out|)
  {
    hide StartOf, Realign;
    if r.cls != CLASS_NONE && r.cls != CLASS_FLOAT {
      if IsFloat(ls[n].kind) {
        var j :| 0 <= j < |ls| && IntegerIn(ls, j, n, |p.out|);
        assert |r.out| == |p.out|;
        assert IntegerIn(ls, j, n + 1, |r.out|);
      } else {
        assert IntegerIn(ls, n, n + 1, |r.out|);
      }
    }
  }

  /** A pending word that is no float word holds an integer leaf. */
  lemma {:induction false} PendingHasInteger(ls: seq<Leaf>, n: nat)
    requires NaturalLeaves(ls) && n <= |ls| && AllInteger(ls)
    ensures var p := RunOf(ls, n);
            p.cls != CLASS_NONE && p.cls != CLASS_FLOAT ==> AnyInteger(ls, n, |p.out|)
  {
    hide AllInteger, NaturalLeaves, AllIntegers, InStep, StartOf, Realign, LeafDone, AnyInteger, GoodLeaf;
    if n != 0 {
      hide RunOf;
      PendingHasInteger(ls, n - 1);
      RunInStep(ls, n - 1);
      IntegersSoFar(ls, n);
      NextLeaf(ls, n - 1);
      StillPending(ls, n - 1, RunOf(ls, n - 1), RunOf(ls, n));
    }
  }

  /** After n leaves the word of float leaf i has an integer leaf, or is pending without one. */
  lemma {:induction false} FloatShares(ls: seq<Leaf>, i: nat, n: nat)
    requires NaturalLeaves(ls) && i < n <= |ls| && AllInteger(ls) && IsFloat(ls[i].kind)
    ensures var p := RunOf(ls, n); SharesWord(ls, i) || (p.cls == CLASS_FLOAT && |p.out| == StartOf(ls, i) / 8)
    decreases n
  {
    hide AllInteger, NaturalLeaves, AllIntegers, InStep, StartOf, Realign, RunOf;
    RunInStep(ls, n - 1);
    IntegersSoFar(ls, n);
    NextLeaf(ls, n - 1);
    var p := RunOf(ls, n - 1);
    if i == n - 1 {
      PendingHasInteger(ls, i);
      if RunOf(ls, n).cls != CLASS_FLOAT {
        var j :| IntegerIn(ls, j, i, |p.out|);
        assert SharesWord(ls, i);
      }
    } else {
      FloatShares(ls, i, n - 1);
      if p.cls == CLASS_FLOAT && |p.out| == StartOf(ls, i) / 8 {
        assert IntegerIn(ls, n - 1, n, |p.out|);
      }
    }
  }

  lemma {:induction false} PackedIs(ls: seq<Leaf>)
    requires NaturalLeaves(ls)
    ensures GoodLeaves(ls) && Packed(ls) == Flush(RunOf(ls, |ls|)).out
  {
    hide GoodLeaf, Flush;
    NaturalInit(ls, |ls|);
    assert ls[..|ls|] == ls;
  }

  lemma {:induction false} NoPendingFloat(ls: seq<Leaf>)
    requires NaturalLeaves(ls) && AllInteger(ls)
    ensures RunOf(ls, |ls|).cls != CLASS_FLOAT
  {
    hide GoodLeaf, NaturalLeaves, Flush, RunOf, Packed, AllIntegers;
    PackedIs(ls);
    if RunOf(ls, |ls|).cls == CLASS_FLOAT { FlushedIsFloat(RunOf(ls, |ls|)); }
  }

  lemma {:induction false} IntegersShare(ls: seq<Leaf>)
    requires NaturalLeaves(ls) && AllInteger(ls)
    ensures NoFloatWord(ls)
  {
    hide AllInteger, NaturalLeaves, RunOf, SharesWord;
    NoPendingFloat(ls);
    forall i | 0 <= i < |ls| && IsFloat(ls[i].kind) ensures SharesWord(ls, i) { FloatShares(ls, i, |ls|); }
  }

  lemma {:induction false} FlushInStep(p: Packer, img: seq<Byte>)
    requires InStep(p, img) && p.cls != CLASS_FLOAT
    ensures 8 * |Flush(p).out| == |img| + (8 - |img| % 8) % 8
    ensures Memory(Flush(p).out) == img + Zeros((8 - |img| % 8) % 8)
  {
    hide Bytes, Memory, Flush, AllIntegers;
    IntWordIs(p, img);
    FlushWrites(p);
    PaddingOf(|p.out|, p.shift / 8);
  }

  /** And then the words are the image. */
  lemma {:induction false} IntegerWordsAreImage(ls: seq<Leaf>)
    requires NaturalLeaves(ls) && AllInteger(ls)
    ensures GoodLeaves(ls)
    ensures 8 * |Packed(ls)| == |Image(ls)| + (8 - |Image(ls)| % 8) % 8
    ensures Memory(Packed(ls)) == Image(ls) + Zeros((8 - |Image(ls)| % 8) % 8)
  {
    hide GoodLeaf, NaturalLeaves, AllInteger, PadTo, Bytes, Memory, Flush, Image, AllIntegers, Written, Tidy, InStep;
    hide Packed, RunOf;
    PackedIs(ls);
    assert ls[..|ls|] == ls;
    RunInStep(ls, |ls|);
    NoPendingFloat(ls);
    FlushInStep(RunOf(ls, |ls|), Image(ls));
  }

  /* ---- if every float shares a word, every word is an integer word ---- */

  /** A pending float word holds the last leaf, which is a float, and no integer so far. */
  predicate Alone(ls: seq<Leaf>, n: nat, p: Packer)
    requires n <= |ls|
  {
    p.cls == CLASS_FLOAT ==>
      0 < n && IsFloat(ls[n - 1].kind) && StartOf(ls, n - 1) / 8 == |p.out| && !AnyInteger(ls, n, |p.out|)
  }

  lemma {:induction false} SharesIs(ls: seq<Leaf>, i: nat) returns (j: nat)
    requires i < |ls| && SharesWord(ls, i)
    ensures j < |ls| && !IsFloat(ls[j].kind) && StartOf(ls, j) / 8 == StartOf(ls, i) / 8
  {
    hide StartOf;
    j :| 0 <= j < |ls| && !IsFloat(ls[j].kind) && StartOf(ls, j) / 8 == StartOf(ls, i) / 8;
  }

  lemma {:induction false} NotIn(ls: seq<Leaf>, j: nat, n: nat, k: nat)
    requires j < |ls| && !AnyInteger(ls, n, k)
    ensures j < n && !IsFloat(ls[j].kind) ==> StartOf(ls, j) / 8 != k
  {
    hide StartOf;
    assert !IntegerIn(ls, j, n, k);
  }

  lemma {:induction false} FloatBytes(ls: seq<Leaf>, i: nat)
    requires NaturalLeaves(ls) && i < |ls|
    ensures FixedWidth(ls[i].kind) && |ls[i].bytes| == Width(ls[i].kind)
    ensures |ls[i].bytes| >= 1 && (IsFloat(ls[i].kind) ==> |ls[i].bytes| >= 4)
  {
  }

  /** The integer a pending float waits for can only be the next leaf. */
  lemma {:induction false} NextIsInteger(ls: seq<Leaf>, n: nat, p: Packer)
    requires NaturalLeaves(ls) && NoFloatWord(ls) && n < |ls| && Alone(ls, n, p) && p.cls == CLASS_FLOAT
    requires |Image(ls[..n])| > 8 * |p.out|
    ensures !IsFloat(ls[n].kind) && StartOf(ls, n) / 8 == |p.out|
  {
    hide StartOf, NaturalLeaves, SharesWord, Image;
    var j := SharesIs(ls, n - 1);
    NotIn(ls, j, n, |p.out|);
    FloatBytes(ls, n - 1);
    FloatBytes(ls, n);
    StartsOrdered(ls, n - 1, n);
    if j > n { StartsOrdered(ls, n, j); }
  }

  lemma {:induction false} NothingAwaited(ls: seq<Leaf>, p: Packer)
    requires NoFloatWord(ls) && Alone(ls, |ls|, p)
    ensures p.cls != CLASS_FLOAT
  {
    hide StartOf, SharesWord;
    if p.cls == CLASS_FLOAT {
      var j := SharesIs(ls, |ls| - 1);
      NotIn(ls, j, |ls|, |p.out|);
    }
  }

  /** An eight-byte leaf has its eightbyte for itself. */
  lemma {:induction false} WholeIsAlone(ls: seq<Leaf>, n: nat)
    requires NaturalLeaves(ls) && n < |ls| && StartOf(ls, n) % 8 == 0 && Width(ls[n].kind) == 8 && IsFloat(ls[n].kind)
    ensures !SharesWord(ls, n)
  {
    hide StartOf, NaturalLeaves;
    FloatBytes(ls, n);
    forall j | 0 <= j < |ls| && !IsFloat(ls[j].kind) ensures StartOf(ls, j) / 8 != StartOf(ls, n) / 8 {
      FloatBytes(ls, j);
      if j < n { StartsOrdered(ls, j, n); } else { StartsOrdered(ls, n, j); }
    }
  }

  /** Where the next leaf goes, in the image and in the word. */
  lemma {:induction false} PadInWord(p: Packer, w: nat, img: seq<Byte>)
    requires w == 1 || w == 2 || w == 4 || w == 8
    requires InStep(p, img)
    ensures var s := AlignMask(p.shift, 8 * w);
            && |PadTo(img, w)| == 8 * |p.out| + s / 8 && s <= 64 && s % 8 == 0
            && (w == 8 ==> |PadTo(img, w)| % 8 == 0 && (p.shift != 0 ==> s == 64))
            && |img| == 8 * |p.out| + p.shift / 8
  {
    hide AlignMask, Bytes, Memory;
    AlignInWord(p.shift, w);
    AlignWhole(|p.out|, p.shift / 8, w);
    var s := AlignMask(p.shift, 8 * w);
    if w == 8 { DivModUnique(8 * |p.out| + s / 8, 8, |p.out| + s / 64, 0); }
  }

  /** An integer leaf in the word of a pending float, or any leaf but a double elsewhere, makes no float word. */
  lemma {:induction false} StepStaysInteger(p: Packer, l: Leaf, img: seq<Byte>)
    requires GoodLeaf(l) && l.align == Width(l.kind) && InStep(p, img)
    requires if p.cls == CLASS_FLOAT then !IsFloat(l.kind) && |PadTo(img, l.align)| / 8 == |p.out|
             else Width(l.kind) == 8 ==> !IsFloat(l.kind)
    ensures AllIntegers(Step(p, l).out)
  {
    hide Insert, PadTo, Bytes, Memory, Load, AlignMask, Realign;
    var w := Width(l.kind);
    var q := Realign(p, w);
    if p.cls == CLASS_FLOAT {
      PadInWord(p, w, img);
      NoFlush(p, w);
      InsertKeepsOut(q, l.bytes, CLASS_INT);
    } else {
      IntWordIs(p, img);
      RealignWrites(p, w);
      InsertKeepsOut(q, l.bytes, CLASS_FLOAT);
      InsertKeepsOut(q, l.bytes, CLASS_INT);
    }
  }

  lemma {:induction false} NoFlush(p: Packer, w: nat)
    requires AlignMask(p.shift, 8 * w) < 64
    ensures Realign(p, w).out == p.out && Realign(p, w).cls == p.cls
  {
    hide AlignMask;
  }

  lemma {:induction false} StaysInteger(ls: seq<Leaf>, n: nat)
    requires NaturalLeaves(ls) && n <= |ls| && NoFloatWord(ls)
    ensures InStep(RunOf(ls, n), Image(ls[..n])) && Alone(ls, n, RunOf(ls, n))
  {
    hide InStep, NaturalLeaves, NoFloatWord, Image, Alone;
    if n == 0 {
      NothingWritten();
      NothingPending(ls);
    } else {
      hide RunOf;
      StaysInteger(ls, n - 1);
      StaysOne(ls, n - 1);
    }
  }

  lemma {:induction false} NothingPending(ls: seq<Leaf>)
    requires NaturalLeaves(ls)
    ensures RunOf(ls, 0) == EMPTY && Alone(ls, 0, EMPTY)
  {
    hide NaturalLeaves, AnyInteger, StartOf;
  }

  lemma {:induction false} StaysOne(ls: seq<Leaf>, n: nat)
    requires NaturalLeaves(ls) && n < |ls| && NoFloatWord(ls)
    requires InStep(RunOf(ls, n), Image(ls[..n])) && Alone(ls, n, RunOf(ls, n))
    ensures InStep(RunOf(ls, n + 1), Image(ls[..n + 1])) && Alone(ls, n + 1, RunOf(ls, n + 1))
  {
    hide InStep, NaturalLeaves, LeafDone, AllIntegers, NoFloatWord, StartOf, RunOf, Alone, Image, Realign, Step;
    hide GoodLeaf;
    NextStays(ls, n, RunOf(ls, n));
    RunStep(ls, n);
    NextLeaf(ls, n);
    StepPrefixes(RunOf(ls, n), ls[n]);
    IntegersPrefix(Realign(RunOf(ls, n), ls[n].align).out, RunOf(ls, n + 1).out);
    AloneNext(ls, n, RunOf(ls, n), RunOf(ls, n + 1));
  }

  lemma {:induction false} NextStays(ls: seq<Leaf>, n: nat, p: Packer)
    requires NaturalLeaves(ls) && n < |ls| && NoFloatWord(ls) && InStep(p, Image(ls[..n])) && Alone(ls, n, p)
    ensures GoodLeaf(ls[n]) && AllIntegers(Step(p, ls[n]).out)
  {
    hide NaturalLeaves, AllIntegers, Step, GoodLeaf, Image, PadTo, InStep, Alone, SharesWord;
    NaturalAt(ls, n);
    var w, img := Width(ls[n].kind), Image(ls[..n]);
    PadInWord(p, w, img);
    if p.cls == CLASS_FLOAT {
      PendingStarted(p, img);
      NextIsInteger(ls, n, p);
    } else if w == 8 && IsFloat(ls[n].kind) {
      WholeIsAlone(ls, n);
    }
    StepStaysInteger(p, ls[n], img);
  }

  lemma {:induction false} PendingStarted(p: Packer, img: seq<Byte>)
    requires InStep(p, img) && p.cls != CLASS_NONE
    ensures |img| > 8 * |p.out|
  {
    hide Bytes, Memory;
  }

  lemma {:induction false} AloneNext(ls: seq<Leaf>, n: nat, p: Packer, r: Packer)
    requires NaturalLeaves(ls) && n < |ls| && InStep(p, Image(ls[..n])) && GoodLeaf(ls[n])
    requires AllIntegers(Realign(p, ls[n].align).out)
    requires LeafDone(p, Realign(p, ls[n].align), r, ls[n], StartOf(ls, n))
    ensures Alone(ls, n + 1, r)
  {
    hide NaturalLeaves, AllIntegers, Image, PadTo, InStep, Realign;
    if r.cls == CLASS_FLOAT {
      NaturalAt(ls, n);
      var q := Realign(p, ls[n].align);
      RealignInStep(p, ls[n].align, Image(ls[..n]));
      FreshStart(q, PadTo(Image(ls[..n]), ls[n].align));
      hide StartOf;
      forall j | 0 <= j < n ensures StartOf(ls, j) / 8 < |r.out| {
        FloatBytes(ls, j);
        StartsOrdered(ls, j, n);
      }
    }
  }

  lemma {:induction false} FreshStart(q: Packer, img: seq<Byte>)
    requires InStep(q, img) && q.cls == CLASS_NONE
    ensures |img| == 8 * |q.out|
  {
    hide Bytes, Memory;
  }

  lemma {:induction false} FlushIntegers(p: Packer)
    requires AllIntegers(p.out) && p.cls != CLASS_FLOAT
    ensures AllIntegers(Flush(p).out)
  {
  }

  lemma {:induction false} SharedAreInteger(ls: seq<Leaf>)
    requires NaturalLeaves(ls) && NoFloatWord(ls)
    ensures AllInteger(ls)
  {
    hide NaturalLeaves, NoFloatWord, Alone, RunOf, Packed, Flush, AllIntegers, Image;
    StaysInteger(ls, |ls|);
    NothingAwaited(ls, RunOf(ls, |ls|));
    FlushIntegers(RunOf(ls, |ls|));
    PackedIs(ls);
  }

  /** The words of a struct are all integer words exactly if no eightbyte holds floats only. */
  lemma {:induction false} IntegerWordsIff(ls: seq<Leaf>)
    requires NaturalLeaves(ls)
    ensures GoodLeaves(ls)
    ensures AllIntegers(Packed(ls)) <==> NoFloatWord(ls)
  {
    hide NaturalLeaves, NoFloatWord, Packed, AllIntegers;
    PackedIs(ls);
    if AllIntegers(Packed(ls)) { IntegersShare(ls); }
    if NoFloatWord(ls) { SharedAreInteger(ls); }
  }

  /* ---- flat structs ---- */

  /** Every float member has an integer member in the eightbyte in which it starts. */
  predicate FloatsShare(ms: seq<Desc>) {
    forall i :: 0 <= i < |ms| && IsFloat(ms[i].kind) ==> HasPartner(ms, i)
  }

  predicate HasPartner(ms: seq<Desc>, i: nat)
    requires i < |ms|
  {
    exists j :: 0 <= j < |ms| && !IsFloat(ms[j].kind) && OffsetAt(ms, j) / 8 == OffsetAt(ms, i) / 8
  }

  /** AAPCS64's form: the memory image in whole integer words, padding aside zeroed. */
  predicate IsMemoryImage(items: seq<Item>, ms: seq<Desc>, mem: seq<Byte>) {
    && AllIntegers(items)
    && 8 * |items| == EndOf(ms, |ms|) + (8 - EndOf(ms, |ms|) % 8) % 8
    && forall k, b :: 0 <= k < |items| && 0 <= b < 8 ==>
         Bytes(items[k].word)[b] ==
         if Covered(ms, |ms|, 8 * k + b) && 8 * k + b < |mem| then mem[8 * k + b] else 0
  }

  lemma {:induction false} LeavesPrefix(ms: seq<Desc>, mem: seq<Byte>, i: nat, n: nat)
    requires i <= n <= |ms| && MembersIn(ms, mem, 0, n) && ScalarMembers(ms)
    ensures MembersIn(ms, mem, 0, i) && |LeavesOfAll(ms, mem, 0, i)| == i && |LeavesOfAll(ms, mem, 0, n)| == n
    ensures LeavesOfAll(ms, mem, 0, n)[..i] == LeavesOfAll(ms, mem, 0, i)
    ensures i < n ==> LeavesOfAll(ms, mem, 0, n)[i].kind == ms[i].kind
    ensures i < n ==> LeavesOfAll(ms, mem, 0, n)[i].align == ms[i].alignment
    decreases n
  {
    hide OffsetAt, GoodLeaf, LeavesOf, LeavesOfAll, InMemory, MembersIn, IsImage, Image, ScalarMember;
    ImageOfMembers(ms, mem, n);
    if i < n {
      LeavesOfAllStep(ms, mem, 0, n);
      ScalarLeaf(ms[n - 1], mem, OffsetAt(ms, n - 1));
      LeavesPrefix(ms, mem, i, n - 1);
    }
  }

  /** Leaves start in the image where members are in memory. */
  lemma {:induction false} StartIsOffset(ms: seq<Desc>, mem: seq<Byte>, i: nat)
    requires i < |ms| && MembersIn(ms, mem, 0, |ms|) && ScalarMembers(ms)
    ensures var ls := LeavesOfAll(ms, mem, 0, |ms|);
            |ls| == |ms| && ls[i].kind == ms[i].kind && StartOf(ls, i) == OffsetAt(ms, i)
  {
    hide OffsetAt, GoodLeaf, LeavesOf, LeavesOfAll, InMemory, MembersIn, Image, AlignMask, ScalarMember, EndOf;
    hide Covered;
    LeavesPrefix(ms, mem, i, |ms|);
    ImageOfMembers(ms, mem, i);
    NextOffset(ms, i);
  }

  lemma {:induction false} SameSharing(ms: seq<Desc>, mem: seq<Byte>)
    requires MembersIn(ms, mem, 0, |ms|) && ScalarMembers(ms)
    ensures NoFloatWord(LeavesOfAll(ms, mem, 0, |ms|)) <==> FloatsShare(ms)
  {
    hide OffsetAt, GoodLeaf, LeavesOfAll, MembersIn, StartOf, ScalarMembers;
    var ls := LeavesOfAll(ms, mem, 0, |ms|);
    LeavesLength(ms, mem);
    forall i | 0 <= i < |ms| ensures ls[i].kind == ms[i].kind && StartOf(ls, i) == OffsetAt(ms, i) {
      StartIsOffset(ms, mem, i);
    }
    forall i | 0 <= i < |ms| ensures SharesWord(ls, i) <==> HasPartner(ms, i) {
    }
    hide SharesWord, HasPartner;
  }

  lemma {:induction false} LeavesLength(ms: seq<Desc>, mem: seq<Byte>)
    requires MembersIn(ms, mem, 0, |ms|) && ScalarMembers(ms)
    ensures |LeavesOfAll(ms, mem, 0, |ms|)| == |ms|
  {
    hide OffsetAt, GoodLeaf, LeavesOfAll, MembersIn, ScalarMembers;
    LeavesPrefix(ms, mem, 0, |ms|);
  }

  /** A flat struct of floats and integers is passed as its memory image in integer registers exactly if every
      float member has an integer member in its eightbyte. */
  lemma {:induction false} MemoryImageIff(t: Desc, mem: seq<Byte>)
    requires FlatScalars(t) && InMemory(t, mem, 0)
    ensures IsMemoryImage(Packed(LeavesOf(t, mem, 0)), t.members, mem) <==> FloatsShare(t.members)
  {
    hide OffsetAt, GoodLeaf, LeavesOf, LeavesOfAll, InMemory, MembersIn, Packed, NoFloatWord, AllIntegers, FloatsShare;
    hide NaturalLeaves, ScalarMembers, Image, IsImage, Bytes, Covered, EndOf, Memory;
    var ls, n := LeavesOf(t, mem, 0), |t.members|;
    Arm64Struct.StructLeaves(t, mem);
    ImageOfMembers(t.members, mem, n);
    IntegerWordsIff(ls);
    SameSharing(t.members, mem);
    if AllIntegers(Packed(ls)) { ImageInMemory(t.members, mem, ls); }
  }

  lemma {:induction false} ImageInMemory(ms: seq<Desc>, mem: seq<Byte>, ls: seq<Leaf>)
    requires ScalarMembers(ms) && MembersIn(ms, mem, 0, |ms|) && ls == LeavesOfAll(ms, mem, 0, |ms|)
    requires NaturalLeaves(ls) && GoodLeaves(ls) && AllIntegers(Packed(ls)) && IsImage(Image(ls), ms, mem, |ms|)
    ensures IsMemoryImage(Packed(ls), ms, mem)
  {
    hide OffsetAt, GoodLeaf, LeavesOfAll, MembersIn, Packed, AllIntegers, NaturalLeaves, ScalarMembers, Image, Bytes;
    hide Covered, EndOf, Memory;
    IntegerWordsAreImage(ls);
    CoveredBefore(ms, |ms|);
    forall k, b | 0 <= k < |Packed(ls)| && 0 <= b < 8
      ensures Bytes(Packed(ls)[k].word)[b] ==
              if Covered(ms, |ms|, 8 * k + b) && 8 * k + b < |mem| then mem[8 * k + b] else 0
    {
      MemoryAt(Packed(ls), k, b);
    }
  }

  /** A float in front of a 64-bit integer is not. */
  lemma {:induction false} FloatBeforeLong(mem: seq<Byte>)
    requires |mem| >= 16
    ensures var t := Desc(16, 8, StructType, [Desc(4, 4, FloatType, []), Desc(8, 8, SInt64Type, [])]);
            && FlatScalars(t) && InMemory(t, mem, 0)
            && !IsMemoryImage(Packed(LeavesOf(t, mem, 0)), t.members, mem)
  {
    var ms := [Desc(4, 4, FloatType, []), Desc(8, 8, SInt64Type, [])];
    var t := Desc(16, 8, StructType, ms);
    LongOffsets(ms);
    hide OffsetAt;
    assert MembersIn(ms, mem, 0, 0) && MembersIn(ms, mem, 0, 1) && MembersIn(ms, mem, 0, 2);
    assert !HasPartner(ms, 0);
    hide IsMemoryImage, LeavesOf, Packed;
    MemoryImageIff(t, mem);
  }

  lemma {:induction false} LongOffsets(ms: seq<Desc>)
    requires |ms| == 2 && ms[0].size == ms[0].alignment == 4 && ms[1].size == ms[1].alignment == 8
    ensures OffsetAt(ms, 0) == 0 && OffsetAt(ms, 1) == 8
  {
    SmallPow2s();
    AlignMaskIsAlignUp(0, 4);
    AlignUpFixed(0, 4);
    AlignMaskIsAlignUp(4, 8);
    AlignUpUnique(4, 8, 8);
    hide AlignMask, AlignUp;
    assert OffsetAt(ms, 0) == 0;
  }
}
