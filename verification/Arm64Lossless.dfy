/** Counting agrees with placing, and packing loses nothing: the counting walk names the word and the
    bit at which every leaf of a naturally aligned struct is found. */
module Arm64Lossless {
  import opened Bits
  import opened Words
  import opened Types
  import opened Placement
  import opened Arm64Pack

  predicate NaturalLeaves(ls: seq<Leaf>) {
    forall i :: 0 <= i < |ls| ==> GoodLeaf(ls[i]) && ls[i].align == Width(ls[i].kind)
  }

  lemma {:induction false} NaturalInit(ls: seq<Leaf>, n: nat)
    requires NaturalLeaves(ls) && n <= |ls|
    ensures NaturalLeaves(ls[..n]) && GoodLeaves(ls) && GoodLeaves(ls[..n])
    ensures Shapes(ls)[..n] == Shapes(ls[..n])
  {
  }

  /** Between leaves: a word under construction has a class, starts and ends on byte boundaries, and
      is zero above its position. */
  predicate Tidy(p: Packer) {
    && p.shift <= 64 && p.shift % 8 == 0
    && (p.cls == CLASS_NONE <==> p.shift == 0)
    && (p.cls == CLASS_NONE ==> p.val == ZERO)
    && ZeroFrom(p.val, p.shift / 8)
  }

  predicate ZeroFrom(w: Word, n: nat) {
    forall j :: n <= j < 8 ==> Bytes(w)[j] == 0
  }

  /** The counting walk is in the same position and has counted the words handed out. */
  predicate Tracks(c: Counter, p: Packer) {
    && c.shift == p.shift && c.cls == p.cls
    && c.ints == Count(Classes(p.out), INTEGER) && c.floats == Count(Classes(p.out), SSE)
    && c.ints + c.floats == |p.out|
  }

  /** Aligning by a natural width inside a word, in numbers. */
  lemma {:induction false} AlignInWord(shift: nat, w: nat)
    requires w == 1 || w == 2 || w == 4 || w == 8
    requires shift <= 64 && shift % 8 == 0
    ensures var s := AlignMask(shift, 8 * w);
            && shift <= s <= 64 && s % 8 == 0 && s < shift + 8 * w
            && (s == 0 <==> shift == 0)
            && (s < 64 ==> s + 8 * w <= 64)
            && (w == 8 ==> s == if shift == 0 then 0 else 64)
            && AlignMask(shift / 8, w) == s / 8
  {
    hide AlignMask, AlignUp;
    SmallPow2s();
    PowTimes8(w);
    AlignMaskIsAlignUp(shift, 8 * w);
    AlignMaskIsAlignUp(shift / 8, w);
    AlignUpScaled(shift / 8, w);
    AlignInEight(shift / 8, w);
  }

  lemma {:induction false} AlignInEight(v: nat, w: nat)
    requires w == 1 || w == 2 || w == 4 || w == 8
    requires v <= 8
    ensures var b := AlignUp(v, w);
            && v <= b <= 8 && b < v + w && (b == 0 <==> v == 0) && (b < 8 ==> b + w <= 8)
            && (w == 8 ==> b == if v == 0 then 0 else 8)
  {
    hide AlignUp;
    var b := AlignUp(v, w);
    AlignUpIsLeast(v, w, 8);
    if v == 0 { AlignUpFixed(0, w); }
    if b < 8 { MultiplesApart(b, w, 8); }
  }

  lemma {:induction false} CountOneMore(out: seq<Item>, x: Item)
    ensures Count(Classes(out + [x]), INTEGER) == Count(Classes(out), INTEGER) + (if x.cls == INTEGER then 1 else 0)
    ensures Count(Classes(out + [x]), SSE) == Count(Classes(out), SSE) + (if x.cls == SSE then 1 else 0)
  {
    assert Classes(out + [x])[..|out|] == Classes(out);
  }

  lemma {:induction false} FlushTracks(p: Packer, c: Counter)
    requires Tracks(c, p)
    ensures Tracks(CountFlush(c), Flush(p))
  {
    hide Count, Classes;
    CountOneMore(p.out, Item(if p.cls == CLASS_FLOAT then SSE else INTEGER, p.val));
  }

  /** The state a step works in after aligning. */
  function Aligned(c: Counter, align: nat): Counter {
    var shift := AlignMask(c.shift, 8 * align);
    if shift >= 64 then CountFlush(c.(shift := shift)) else c.(shift := shift)
  }

  lemma {:induction false} AlignTracks(p: Packer, c: Counter, w: nat)
    requires w == 1 || w == 2 || w == 4 || w == 8
    requires Tracks(c, p) && Tidy(p)
    ensures Tracks(Aligned(c, w), Realign(p, w)) && Tidy(Realign(p, w))
    ensures Realign(p, w).shift + 8 * w <= 64 && (w == 8 ==> Realign(p, w).cls == CLASS_NONE)
  {
    hide AlignMask, Count, Classes, Bytes;
    AlignInWord(p.shift, w);
    var s := AlignMask(p.shift, 8 * w);
    FlushTracks(p.(shift := s), c.(shift := s));
    assert ZeroFrom(ZERO, 0) by { ZeroIsZero(); }
  }

  lemma {:induction false} ZeroIsZero()
    ensures ZeroFrom(ZERO, 0)
  {
  }

  /** Counting and placing move together, although only counting flushes before eight-byte leaves. */
  lemma {:induction false} StepTracks(p: Packer, c: Counter, l: Leaf)
    requires GoodLeaf(l) && l.align == Width(l.kind)
    requires Tracks(c, p) && Tidy(p)
    ensures Tracks(CountStep(c, l.kind, l.align), Step(p, l)) && Tidy(Step(p, l))
  {
    hide AlignMask, Count, Classes, ZeroFrom, Realign, Load, Or, ShiftLeft, BitOr;
    var w := Width(l.kind);
    AlignTracks(p, c, w);
    ZeroIsZero();
    var q, d := Realign(p, w), Aligned(c, w);
    if w == 8 {
      CountOneMore(q.out, Item(if IsFloat(l.kind) then SSE else INTEGER, Load(l.bytes)));
    } else if l.kind == FloatType {
      FlushTracks(q, d);
      InsertTidy(if q.cls == CLASS_FLOAT then Flush(q) else q, l.bytes, CLASS_FLOAT);
    } else {
      InsertTidy(q, l.bytes, CLASS_INT);
    }
  }

  /** What inserting at the current position does to the bytes of the word. */
  lemma {:induction false} InsertBytes(p: Packer, bytes: seq<Byte>, cls: nat, j: nat)
    requires p.shift % 8 == 0 && p.shift + 8 * |bytes| <= 64 && |bytes| > 0 && ZeroFrom(p.val, p.shift / 8) && j < 8
    ensures Bytes(Insert(p, bytes, cls).val)[j] ==
            if p.shift / 8 <= j < p.shift / 8 + |bytes| then bytes[j - p.shift / 8] else Bytes(p.val)[j]
  {
    hide Bytes, FromBytes, Load;
    var n := p.shift / 8;
    var hi := ShiftLeft(Load(bytes), p.shift);
    assert Bytes(hi) == Zeros(n) + (bytes + Zeros(8 - |bytes|))[..8 - n];
    assert Bytes(hi)[j] == if n <= j < n + |bytes| then bytes[j - n] else 0;
    assert Bytes(Or(p.val, hi))[j] == OrByte(Bytes(p.val)[j], Bytes(hi)[j]);
  }

  lemma {:induction false} InsertTidy(p: Packer, bytes: seq<Byte>, cls: nat)
    requires Tidy(p) && p.shift + 8 * |bytes| <= 64 && |bytes| > 0 && cls > 0
    ensures Tidy(Insert(p, bytes, cls))
  {
    hide Bytes, Or, ShiftLeft, Load, BitOr;
    forall j | (p.shift + 8 * |bytes|) / 8 <= j < 8 ensures Bytes(Insert(p, bytes, cls).val)[j] == 0 {
      InsertBytes(p, bytes, cls, j);
    }
    OrPositive(p.cls, cls);
  }

  lemma {:induction false} OrPositive(x: nat, y: nat)
    requires y > 0
    ensures BitOr(x, y) > 0
  {
    if x != 0 && y / 2 != 0 { OrPositive(x / 2, y / 2); }
  }

  lemma {:induction false} EmptyTracks()
    ensures Tracks(COUNT_EMPTY, EMPTY) && Tidy(EMPTY)
  {
    ZeroIsZero();
    assert Classes([]) == [];
  }

  lemma {:induction false} RunTracks(ls: seq<Leaf>)
    requires NaturalLeaves(ls)
    ensures GoodLeaves(ls)
    ensures Tracks(CountRun(COUNT_EMPTY, Shapes(ls)), Run(EMPTY, ls)) && Tidy(Run(EMPTY, ls))
  {
    hide GoodLeaf, Step, CountStep, Tracks, Tidy;
    NaturalInit(ls, |ls|);
    if ls == [] {
      EmptyTracks();
    } else {
      var n := |ls| - 1;
      NaturalInit(ls, n);
      RunTracks(ls[..n]);
      NaturalAt(ls, n);
      StepTracks(Run(EMPTY, ls[..n]), CountRun(COUNT_EMPTY, Shapes(ls[..n])), ls[n]);
    }
  }

  lemma {:induction false} NaturalAt(ls: seq<Leaf>, i: nat)
    requires NaturalLeaves(ls) && i < |ls|
    ensures GoodLeaf(ls[i]) && ls[i].align == Width(ls[i].kind) && |ls[i].bytes| > 0
    ensures |Shapes(ls)| == |ls| && Shapes(ls)[i] == Shape(ls[i].kind, ls[i].align)
  {
  }

  /** Count equals place: countStructRegUsage's pair is the number of addInt and of addFloat calls. */
  lemma {:induction false} CountEqualsPlace(ls: seq<Leaf>)
    requires NaturalLeaves(ls)
    ensures GoodLeaves(ls)
    ensures RegUsage(Shapes(ls)) == (Count(Classes(Packed(ls)), INTEGER), Count(Classes(Packed(ls)), SSE))
    ensures RegUsage(Shapes(ls)).0 + RegUsage(Shapes(ls)).1 == |Packed(ls)|
  {
    RunTracks(ls);
    hide Run, CountRun, Flush, CountFlush;
    FlushTracks(Run(EMPTY, ls), CountRun(COUNT_EMPTY, Shapes(ls)));
  }

  /** Whatever the alignments, the counting walk is in the placer's position and has counted at least the
      words handed out. */
  predicate Covers(c: Counter, p: Packer) {
    && c.shift == p.shift && c.cls == p.cls
    && Count(Classes(p.out), INTEGER) <= c.ints && Count(Classes(p.out), SSE) <= c.floats
  }

  lemma {:induction false} FlushCovers(p: Packer, c: Counter)
    requires Covers(c, p)
    ensures Covers(CountFlush(c), Flush(p))
  {
    hide Count, Classes;
    CountOneMore(p.out, Item(if p.cls == CLASS_FLOAT then SSE else INTEGER, p.val));
  }

  lemma {:induction false} StepCovers(p: Packer, c: Counter, l: Leaf)
    requires GoodLeaf(l) && Covers(c, p)
    ensures Covers(CountStep(c, l.kind, l.align), Step(p, l))
  {
    hide AlignMask, Count, Classes, Or, Load, ShiftLeft, BitOr;
    var s := AlignMask(p.shift, 8 * l.align);
    FlushCovers(p.(shift := s), c.(shift := s));
    var q, d := Realign(p, l.align), Aligned(c, l.align);
    assert Covers(d, q);
    FlushCovers(q, d);
    CountOneMore(q.out, Item(if IsFloat(l.kind) then SSE else INTEGER, Load(l.bytes)));
  }

  lemma {:induction false} RunCovers(ls: seq<Leaf>)
    requires GoodLeaves(ls)
    ensures Covers(CountRun(COUNT_EMPTY, Shapes(ls)), Run(EMPTY, ls))
  {
    hide GoodLeaf, Step, CountStep, Covers;
    if ls == [] {
      EmptyCovers();
    } else {
      var n := |ls| - 1;
      GoodInit(ls, n);
      RunCovers(ls[..n]);
      StepCovers(Run(EMPTY, ls[..n]), CountRun(COUNT_EMPTY, Shapes(ls[..n])), ls[n]);
    }
  }

  lemma {:induction false} EmptyCovers()
    ensures Covers(COUNT_EMPTY, EMPTY)
  {
    CountNothing();
    hide Count, Classes;
  }

  lemma {:induction false} GoodInit(ls: seq<Leaf>, n: nat)
    requires GoodLeaves(ls) && n < |ls|
    ensures GoodLeaves(ls[..n]) && GoodLeaf(ls[n]) && Shapes(ls)[..n] == Shapes(ls[..n])
    ensures Shapes(ls)[n] == Shape(ls[n].kind, ls[n].align)
  {
  }

  /** Naturally aligned or not, counting never falls short of placing. */
  lemma {:induction false} CountCoversPlace(ls: seq<Leaf>)
    requires GoodLeaves(ls)
    ensures Count(Classes(Packed(ls)), INTEGER) <= RegUsage(Shapes(ls)).0
    ensures Count(Classes(Packed(ls)), SSE) <= RegUsage(Shapes(ls)).1
  {
    hide Run, CountRun, Flush, CountFlush, Count, Classes;
    RunCovers(ls);
    FlushCovers(Run(EMPTY, ls), CountRun(COUNT_EMPTY, Shapes(ls)));
  }

  /* ---- losslessness ---- */

  /** The word and the bit of the next field, as the counting walk sees it. */
  function Where(c: Counter, kind: Kind, align: nat): (nat, nat) {
    var d := Aligned(c, align);
    var e := if kind == FloatType && d.cls == CLASS_FLOAT then CountFlush(d) else d;
    (e.ints + e.floats, e.shift)
  }

  /** The bytes are in word k at bit s: handed out already, or in the word under construction. */
  predicate At(p: Packer, k: nat, s: nat, bytes: seq<Byte>) {
    && s % 8 == 0 && s + 8 * |bytes| <= 64
    && if k < |p.out| then Bytes(p.out[k].word)[s / 8..s / 8 + |bytes|] == bytes
       else k == |p.out| && s + 8 * |bytes| <= p.shift && Bytes(p.val)[s / 8..s / 8 + |bytes|] == bytes
  }

  lemma {:induction false} FlushKeeps(p: Packer, k: nat, s: nat, bytes: seq<Byte>)
    requires At(p, k, s, bytes) && |bytes| > 0 && (p.cls == CLASS_NONE ==> p.shift == 0)
    ensures At(Flush(p), k, s, bytes) && k < |Flush(p).out|
  {
    hide Bytes;
  }

  lemma {:induction false} RealignKeeps(p: Packer, w: nat, k: nat, s: nat, bytes: seq<Byte>)
    requires w == 1 || w == 2 || w == 4 || w == 8
    requires At(p, k, s, bytes) && |bytes| > 0 && Tidy(p)
    ensures At(Realign(p, w), k, s, bytes)
    ensures w == 8 ==> k < |Realign(p, w).out|
  {
    hide AlignMask, Bytes, ZeroFrom, Flush;
    AlignInWord(p.shift, w);
    var q := p.(shift := AlignMask(p.shift, 8 * w));
    assert At(q, k, s, bytes);
    FlushKeeps(q, k, s, bytes);
  }

  lemma {:induction false} SliceIs(a: seq<Byte>, b: seq<Byte>, lo: nat, hi: nat)
    requires lo <= hi <= |a| && |b| == hi - lo
    requires forall j :: lo <= j < hi ==> a[j] == b[j - lo]
    ensures a[lo..hi] == b
  {
  }

  lemma {:induction false} InsertKeeps(p: Packer, l: seq<Byte>, cls: nat, k: nat, s: nat, bytes: seq<Byte>)
    requires At(p, k, s, bytes) && Tidy(p) && p.shift + 8 * |l| <= 64 && |l| > 0
    ensures At(Insert(p, l, cls), k, s, bytes)
  {
    hide Bytes, Or, Load, ShiftLeft;
    if k == |p.out| {
      var q := Insert(p, l, cls);
      forall j | s / 8 <= j < s / 8 + |bytes| ensures Bytes(q.val)[j] == bytes[j - s / 8] {
        InsertBytes(p, l, cls, j);
        assert Bytes(p.val)[s / 8..s / 8 + |bytes|][j - s / 8] == Bytes(p.val)[j];
      }
      SliceIs(Bytes(q.val), bytes, s / 8, s / 8 + |bytes|);
    }
  }

  lemma {:induction false} InsertPuts(p: Packer, l: seq<Byte>, cls: nat)
    requires Tidy(p) && p.shift + 8 * |l| <= 64 && |l| > 0
    ensures At(Insert(p, l, cls), |p.out|, p.shift, l)
  {
    hide Bytes, Or, Load, ShiftLeft;
    var q := Insert(p, l, cls);
    var n := p.shift / 8;
    forall j | n <= j < n + |l| ensures Bytes(q.val)[j] == l[j - n] {
      InsertBytes(p, l, cls, j);
    }
    SliceIs(Bytes(q.val), l, n, n + |l|);
  }

  /** A step disturbs no field placed before it. */
  lemma {:induction false} StepKeeps(p: Packer, l: Leaf, k: nat, s: nat, bytes: seq<Byte>)
    requires GoodLeaf(l) && l.align == Width(l.kind) && Tidy(p)
    requires At(p, k, s, bytes) && |bytes| > 0
    ensures At(Step(p, l), k, s, bytes)
  {
    hide Realign, Bytes, Insert, ZeroFrom, Flush;
    var w := Width(l.kind);
    var q := Realign(p, w);
    RealignFits(p, w);
    RealignKeeps(p, w, k, s, bytes);
    if w == 8 {
    } else if l.kind == FloatType && q.cls == CLASS_FLOAT {
      FlushKeeps(q, k, s, bytes);
      FlushTidy(q);
      InsertKeeps(Flush(q), l.bytes, CLASS_FLOAT, k, s, bytes);
    } else {
      InsertKeeps(q, l.bytes, if l.kind == FloatType then CLASS_FLOAT else CLASS_INT, k, s, bytes);
    }
  }

  lemma {:induction false} FlushTidy(p: Packer)
    ensures Tidy(Flush(p)) && Flush(p).shift == 0
  {
    ZeroIsZero();
    hide Bytes;
  }

  lemma {:induction false} RealignFits(p: Packer, w: nat)
    requires w == 1 || w == 2 || w == 4 || w == 8
    requires Tidy(p)
    ensures Tidy(Realign(p, w)) && Realign(p, w).shift + 8 * w <= 64
    ensures w == 8 ==> Realign(p, w).cls == CLASS_NONE
  {
    hide AlignMask, Bytes, Flush;
    AlignInWord(p.shift, w);
    FlushTidy(p.(shift := AlignMask(p.shift, 8 * w)));
  }

  /** A step puts its field where the counting walk says. */
  lemma {:induction false} StepPuts(p: Packer, c: Counter, l: Leaf)
    requires GoodLeaf(l) && l.align == Width(l.kind) && Tidy(p) && Tracks(c, p)
    ensures var (k, s) := Where(c, l.kind, l.align); At(Step(p, l), k, s, l.bytes)
  {
    hide Realign, AlignMask, Bytes, Insert, ZeroFrom, Flush, Count, Classes, CountFlush, Aligned, Load, Tidy;
    var w := Width(l.kind);
    var q, d := Realign(p, w), Aligned(c, w);
    RealignFits(p, w);
    AlignTracks(p, c, w);
    if w == 8 {
      assert d.shift == 0 by { NoneAtZero(q); }
      LoadWhole(l.bytes);
    } else if l.kind == FloatType && q.cls == CLASS_FLOAT {
      FlushTracks(q, d);
      FlushTidy(q);
      InsertPuts(Flush(q), l.bytes, CLASS_FLOAT);
    } else {
      InsertPuts(q, l.bytes, if l.kind == FloatType then CLASS_FLOAT else CLASS_INT);
    }
  }

  lemma {:induction false} NoneAtZero(p: Packer)
    requires Tidy(p) && p.cls == CLASS_NONE
    ensures p.shift == 0
  {
  }

  lemma {:induction false} LoadWhole(bs: seq<Byte>)
    requires |bs| == 8
    ensures Bytes(Load(bs))[0..8] == bs
  {
    hide Bytes, Load;
  }

  /** Where the i-th leaf is found. */
  function Position(ss: seq<Shape>, i: nat): (nat, nat)
    requires i < |ss|
  {
    Where(CountRun(COUNT_EMPTY, ss[..i]), ss[i].kind, ss[i].align)
  }

  lemma {:induction false} PositionInit(ls: seq<Leaf>, n: nat, i: nat)
    requires NaturalLeaves(ls) && i < n <= |ls|
    ensures NaturalLeaves(ls[..n]) && Position(Shapes(ls[..n]), i) == Position(Shapes(ls), i)
  {
    hide CountRun, Where;
    NaturalInit(ls, n);
    assert Shapes(ls[..n])[..i] == Shapes(ls)[..i];
  }

  lemma {:induction false} RunHolds(ls: seq<Leaf>, i: nat)
    requires NaturalLeaves(ls) && i < |ls|
    ensures GoodLeaves(ls)
    ensures var (k, s) := Position(Shapes(ls), i); At(Run(EMPTY, ls), k, s, ls[i].bytes)
    decreases |ls|
  {
    hide At, Step, GoodLeaf, Tidy, Tracks, Where, CountRun, NaturalLeaves;
    var n := |ls| - 1;
    NaturalInit(ls, |ls|);
    NaturalInit(ls, n);
    NaturalAt(ls, n);
    RunTracks(ls[..n]);
    var p := Run(EMPTY, ls[..n]);
    if i == n {
      StepPuts(p, CountRun(COUNT_EMPTY, Shapes(ls[..n])), ls[n]);
    } else {
      PositionInit(ls, n, i);
      RunHolds(ls[..n], i);
      NaturalAt(ls, i);
      var (k, s) := Position(Shapes(ls), i);
      StepKeeps(p, ls[n], k, s, ls[i].bytes);
    }
  }

  /** What the words hold at the place of each leaf. */
  function Unpack(ss: seq<Shape>, words: seq<Word>, i: nat): seq<Byte>
    requires i < |ss| && FixedWidth(ss[i].kind)
  {
    var (k, s) := Position(ss, i);
    if k < |words| && s / 8 + Width(ss[i].kind) <= 8 then Bytes(words[k])[s / 8..s / 8 + Width(ss[i].kind)] else []
  }

  lemma {:induction false} ReadAt(p: Packer, k: nat, s: nat, bytes: seq<Byte>)
    requires At(p, k, s, bytes) && |bytes| > 0 && Tidy(p)
    ensures k < |Flush(p).out| && s / 8 + |bytes| <= 8
    ensures Bytes(AllWords(Flush(p).out)[k])[s / 8..s / 8 + |bytes|] == bytes
  {
    hide Bytes, Flush;
    FlushKeeps(p, k, s, bytes);
  }

  /** Packing loses nothing: from the shape of the struct alone, every leaf is read back. */
  lemma {:induction false} PackingIsLossless(ls: seq<Leaf>, i: nat)
    requires NaturalLeaves(ls) && i < |ls|
    ensures GoodLeaves(ls)
    ensures Unpack(Shapes(ls), AllWords(Packed(ls)), i) == ls[i].bytes
  {
    hide Run, CountRun, Position, Bytes, Flush, Tidy, Tracks, At, AllWords, NaturalLeaves;
    NaturalInit(ls, |ls|);
    NaturalAt(ls, i);
    RunHolds(ls, i);
    RunTracks(ls);
    var (k, s) := Position(Shapes(ls), i);
    ReadAt(Run(EMPTY, ls), k, s, ls[i].bytes);
  }
}
