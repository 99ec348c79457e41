/** What an amd64 callee finds where, by counting: how many words of each class come before a word says
    which register or stack slot it is in. */
module Amd64Slots {
  import opened Words
  import opened Types
  import opened Placement
  import opened Amd64Classify
  import opened Amd64Args
  import P = Amd64Prepare

  /** Scalars take one word, structs one for every eight bytes begun. */
  function WordCount(t: Desc): nat {
    if t.kind == StructType then P.CeilEighths(t.size) else 1
  }

  /** The class of t's k-th word. */
  function WordClass(t: Desc, k: nat): Class {
    if t.kind != StructType then (if IsFloat(t.kind) then SSE else INTEGER)
    else if t.size > 16 then MEMORY
    else if (if t.size <= 8 then AllFloats(t) else EightbyteIsSSE(t, 8 * k, P.EightbyteEnd(t, k))) then SSE
    else INTEGER
  }

  /** How many of t's first n words are of class c. */
  function WordsOf(t: Desc, n: nat, c: Class): nat {
    if n == 0 then 0 else WordsOf(t, n - 1, c) + (if WordClass(t, n - 1) == c then 1 else 0)
  }

  /** How many words of class c come before the i-th argument, the hidden result pointer included. */
  function Before(ret: Desc, ts: seq<Desc>, i: nat, c: Class): nat
    requires i <= |ts|
  {
    if i == 0 then (if c == INTEGER && ret.kind == StructType && ret.size > 16 then 1 else 0)
    else Before(ret, ts, i - 1, c) + WordsOf(ts[i - 1], WordCount(ts[i - 1]), c)
  }

  /** Where the callee looks for a word of class c after g INTEGER, f SSE and m MEMORY words: XMM0-7, then
      the six integer registers, then the stack. */
  function SlotOf(g: nat, f: nat, m: nat, c: Class): nat {
    if c == SSE && f < 8 then f
    else if c == INTEGER && g < 6 then 8 + g
    else 14 + P.Over(g, 6) + P.Over(f, 8) + m
  }

  /** w is what the callee expects as the k-th word of a value of type t: a scalar zero-extended, the k-th
      eight bytes of a struct, whatever follows its last byte, or the address of any other value. */
  predicate Carries(t: Desc, a: Arg, k: nat, w: Word) {
    if t.kind == StructType then
      forall b :: 0 <= b < 8 && 8 * k + b < t.size ==> 8 * k + b < |a.mem| && Bytes(w)[b] == a.mem[8 * k + b]
    else if FixedWidth(t.kind) then
      Width(t.kind) <= |a.mem| && Bytes(w) == a.mem[..Width(t.kind)] + Zeros(8 - Width(t.kind))
    else w == a.address
  }

  /** The k-th word of the i-th argument is where its class and the words before it put it. */
  predicate Arrives(floats: seq<Word>, regs: seq<Word>, ret: Desc, ts: seq<Desc>, a: Arg, i: nat, k: nat)
    requires i < |ts|
  {
    var frame := floats + regs;
    var slot := SlotOf(Before(ret, ts, i, INTEGER) + WordsOf(ts[i], k, INTEGER),
                       Before(ret, ts, i, SSE) + WordsOf(ts[i], k, SSE),
                       Before(ret, ts, i, MEMORY) + WordsOf(ts[i], k, MEMORY), WordClass(ts[i], k));
    slot < |frame| && Carries(ts[i], a, k, frame[slot])
  }

  /** Every word of every argument arrives. */
  predicate AllArrive(floats: seq<Word>, regs: seq<Word>, ret: Desc, ts: seq<Desc>, avalue: seq<Arg>) {
    forall i, k {:trigger Arrives(floats, regs, ret, ts, avalue[i], i, k)} ::
      0 <= i < |ts| && i < |avalue| && 0 <= k < WordCount(ts[i]) ==> Arrives(floats, regs, ret, ts, avalue[i], i, k)
  }

  /* ---- the words of a call ---- */

  lemma {:induction false} ClassesAre(t: Desc)
    ensures |ClassesOf(t)| == WordCount(t)
    ensures forall k :: 0 <= k < WordCount(t) ==> ClassesOf(t)[k] == WordClass(t, k)
  {
    hide AllFloats, EightbyteIsSSE;
  }

  lemma {:induction false} CountPrefix(t: Desc, n: nat, c: Class)
    requires n <= |ClassesOf(t)|
    ensures Count(ClassesOf(t)[..n], c) == WordsOf(t, n, c)
  {
    hide ClassesOf, WordClass;
    ClassesAre(t);
    if n != 0 {
      assert ClassesOf(t)[..n][..n - 1] == ClassesOf(t)[..n - 1];
      CountPrefix(t, n - 1, c);
    }
  }

  function Hidden(ret: Desc, rvalue: Word): seq<Item> {
    if ViaHiddenPointer(ret) then [Item(INTEGER, rvalue)] else []
  }

  lemma {:induction false} HiddenCount(ret: Desc, rvalue: Word, c: Class)
    ensures Count(Classes(Hidden(ret, rvalue)), c) == if ViaHiddenPointer(ret) && c == INTEGER then 1 else 0
  {
    if ViaHiddenPointer(ret) {
      assert Classes(Hidden(ret, rvalue)) == [INTEGER];
      P.CountOne(INTEGER, c);
    } else {
      CountNothing();
    }
  }

  /** The words before the i-th argument. */
  function Earlier(ret: Desc, rvalue: Word, ts: seq<Desc>, avalue: seq<Arg>, i: nat): seq<Item>
    requires i <= |ts| && i <= |avalue| && AllReadable(ts, avalue)
  {
    Hidden(ret, rvalue) + ArgsItems(ts, avalue, i)
  }

  lemma {:induction false} EarlierStep(ret: Desc, rvalue: Word, ts: seq<Desc>, avalue: seq<Arg>, i: nat)
    requires i < |ts| && i < |avalue| && AllReadable(ts, avalue)
    ensures Readable(ts[i], avalue[i])
    ensures Earlier(ret, rvalue, ts, avalue, i + 1) ==
            Earlier(ret, rvalue, ts, avalue, i) + ArgItems(ts[i], avalue[i])
  {
    hide Readable, AllReadable, ArgItems, ArgsItems;
    ReadableAt(ts, avalue, i);
    ArgsStep(ts, avalue, i + 1);
  }

  lemma {:induction false} BeforeIs(ret: Desc, rvalue: Word, ts: seq<Desc>, avalue: seq<Arg>, i: nat, c: Class)
    requires i <= |ts| && i <= |avalue| && AllReadable(ts, avalue)
    ensures Count(Classes(Earlier(ret, rvalue, ts, avalue, i)), c) == Before(ret, ts, i, c)
  {
    hide Readable, AllReadable, ArgItems, ArgsItems, ClassesOf, Count, Classes, WordsOf, WordCount, Hidden, Earlier;
    if i == 0 {
      NothingEarlier(ret, rvalue, ts, avalue);
      HiddenCount(ret, rvalue, c);
    } else {
      BeforeIs(ret, rvalue, ts, avalue, i - 1, c);
      EarlierStep(ret, rvalue, ts, avalue, i - 1);
      WholeArg(Earlier(ret, rvalue, ts, avalue, i - 1), ts[i - 1], avalue[i - 1], c);
    }
  }

  lemma {:induction false} NothingEarlier(ret: Desc, rvalue: Word, ts: seq<Desc>, avalue: seq<Arg>)
    requires AllReadable(ts, avalue)
    ensures Earlier(ret, rvalue, ts, avalue, 0) == Hidden(ret, rvalue)
  {
    hide AllReadable;
    NoArgs(ts, avalue);
  }

  /** All words of one more argument. */
  lemma {:induction false} WholeArg(items: seq<Item>, t: Desc, a: Arg, c: Class)
    requires Readable(t, a)
    ensures Count(Classes(items + ArgItems(t, a)), c) == Count(Classes(items), c) + WordsOf(t, WordCount(t), c)
  {
    hide Readable, ArgItems, ClassesOf, Count, Classes, WordsOf, WordCount;
    ArgItemsClasses(t, a);
    ClassesAre(t);
    OneMoreArg(items, t, a, |ArgItems(t, a)|, c);
    assert ArgItems(t, a)[..|ArgItems(t, a)|] == ArgItems(t, a);
  }

  /** The first k words of one more argument. */
  lemma {:induction false} OneMoreArg(items: seq<Item>, t: Desc, a: Arg, k: nat, c: Class)
    requires Readable(t, a) && k <= |ArgItems(t, a)|
    ensures |ArgItems(t, a)| == |ClassesOf(t)|
    ensures Count(Classes(items + ArgItems(t, a)[..k]), c) == Count(Classes(items), c) + WordsOf(t, k, c)
  {
    hide Readable, ArgItems, ClassesOf, Count, WordClass;
    ArgItemsClasses(t, a);
    var mine := ArgItems(t, a)[..k];
    assert Classes(mine) == ClassesOf(t)[..k];
    ClassesAppend(items, mine);
    P.CountAppend(Classes(items), Classes(mine), c);
    CountPrefix(t, k, c);
  }

  lemma {:induction false} ItemCarries(t: Desc, a: Arg, k: nat)
    requires Readable(t, a) && k < |ArgItems(t, a)|
    ensures ArgItems(t, a)[k].cls == WordClass(t, k) && Carries(t, a, k, ArgItems(t, a)[k].word)
  {
    ItemAt(t, a, k);
    hide AllFloats, EightbyteIsSSE, Bytes, FromBytes, ArgItems, Readable, Parts, WordClass, Carries, Load;
    if t.kind == StructType {
      StructPart(t, k);
      StructCarries(t, a, k, Parts(t)[k].width);
    } else {
      ScalarCarries(t, a);
    }
  }

  /** A load of at least the rest of the struct. */
  lemma {:induction false} StructCarries(t: Desc, a: Arg, k: nat, w: nat)
    requires t.kind == StructType && w <= 8 && 8 * k + w <= |a.mem| && (t.size - 8 * k <= w || w == 8)
    ensures Carries(t, a, k, Load(a.mem[8 * k..8 * k + w]))
  {
    hide Bytes, FromBytes;
    var v := a.mem[8 * k..8 * k + w];
    forall b | 0 <= b < 8 && 8 * k + b < t.size
      ensures 8 * k + b < |a.mem| && Bytes(Load(v))[b] == a.mem[8 * k + b]
    {
      assert (v + Zeros(8 - w))[b] == v[b] == a.mem[8 * k + b];
    }
  }

  lemma {:induction false} StructPart(t: Desc, k: nat)
    requires t.kind == StructType && k < |Parts(t)|
    ensures Parts(t)[k] == Part(WordClass(t, k), 8 * k, Parts(t)[k].width)
    ensures t.size - 8 * k <= Parts(t)[k].width || Parts(t)[k].width == 8
  {
    hide AllFloats, EightbyteIsSSE;
  }

  lemma {:induction false} ScalarCarries(t: Desc, a: Arg)
    requires t.kind != StructType && Readable(t, a)
    ensures |Parts(t)| == 1
    ensures Parts(t)[0].Part? ==> Parts(t)[0].width <= 8 && Parts(t)[0].off + Parts(t)[0].width <= |a.mem|
    ensures ItemOf(Parts(t)[0], a).cls == WordClass(t, 0) && Carries(t, a, 0, ItemOf(Parts(t)[0], a).word)
  {
    hide Bytes, FromBytes;
    assert Parts(t)[0] in Parts(t);
  }

  /* ---- the frame ---- */

  /** The place of the k-th word of the i-th argument among all words. */
  lemma {:induction false} AmongAll(ret: Desc, rvalue: Word, ts: seq<Desc>, avalue: seq<Arg>, i: nat, k: nat)
    requires AllReadable(ts, avalue) && i < |ts| && i < |avalue| && k < WordCount(ts[i])
    ensures Readable(ts[i], avalue[i]) && k < |ArgItems(ts[i], avalue[i])|
    ensures var all, items := CallItems(ret, rvalue, ts, avalue), Earlier(ret, rvalue, ts, avalue, i);
            var mine := ArgItems(ts[i], avalue[i]);
            && |items| + k < |all|
            && all[..|items| + k] == items + mine[..k] && all[|items| + k] == mine[k]
  {
    hide Readable, AllReadable, ArgItems, ClassesOf, WordCount, Earlier, CallItems;
    EarlierStep(ret, rvalue, ts, avalue, i);
    ClassesAre(ts[i]);
    ArgItemsClasses(ts[i], avalue[i]);
    EarlierGrows(ret, rvalue, ts, avalue, i + 1, Min(|ts|, |avalue|));
    CallIsEarlier(ret, rvalue, ts, avalue);
  }

  /** The frame of a call holds every word of every argument where counting puts it. */
  lemma {:induction false} WordArrives(floats: seq<Word>, regs: seq<Word>, ret: Desc, rvalue: Word, ts: seq<Desc>,
      avalue: seq<Arg>, i: nat, k: nat)
    requires AllReadable(ts, avalue) && i < |ts| && i < |avalue| && k < WordCount(ts[i])
    requires Holds(floats + regs, Place(CallItems(ret, rvalue, ts, avalue), GP_REGS), GP_REGS)
    ensures Arrives(floats, regs, ret, ts, avalue[i], i, k)
  {
    hide Readable, AllReadable, ArgItems, ArgsItems, ClassesOf, Count, Classes, WordClass, WordCount, Carries, Before,
         WordsOf, Place, AdvanceAll, Holds, Earlier, CallItems;
    AmongAll(ret, rvalue, ts, avalue, i, k);
    var t, items, all := ts[i], Earlier(ret, rvalue, ts, avalue, i), CallItems(ret, rvalue, ts, avalue);
    var at := |items| + k;
    ItemCarries(t, avalue[i], k);
    forall c: Class ensures Count(Classes(all[..at]), c) == Before(ret, ts, i, c) + WordsOf(t, k, c) {
      BeforeIs(ret, rvalue, ts, avalue, i, c);
      OneMoreArg(items, t, avalue[i], k, c);
    }
    FrameHolds(floats + regs, all, GP_REGS, at);
    P.StackFormula(Classes(all[..at]), GP_REGS);
  }

  lemma {:induction false} CallIsEarlier(ret: Desc, rvalue: Word, ts: seq<Desc>, avalue: seq<Arg>)
    requires AllReadable(ts, avalue)
    ensures CallItems(ret, rvalue, ts, avalue) == Earlier(ret, rvalue, ts, avalue, Min(|ts|, |avalue|))
  {
    hide AllReadable, ArgsItems;
  }

  lemma {:induction false} EarlierGrows(ret: Desc, rvalue: Word, ts: seq<Desc>, avalue: seq<Arg>, i: nat, n: nat)
    requires i <= n <= |ts| && n <= |avalue| && AllReadable(ts, avalue)
    ensures Earlier(ret, rvalue, ts, avalue, i) <= Earlier(ret, rvalue, ts, avalue, n)
  {
    hide AllReadable, ArgItems, Earlier, Readable;
    if i < n {
      EarlierGrows(ret, rvalue, ts, avalue, i, n - 1);
      EarlierStep(ret, rvalue, ts, avalue, n - 1);
    }
  }

  /** The whole frame. */
  lemma {:induction false} FrameArrives(floats: seq<Word>, regs: seq<Word>, ret: Desc, rvalue: Word, ts: seq<Desc>,
      avalue: seq<Arg>)
    requires AllReadable(ts, avalue) && |floats| == FLOAT_REGS
    requires Holds(floats + regs, Place(CallItems(ret, rvalue, ts, avalue), GP_REGS), GP_REGS)
    ensures AllArrive(floats, regs, ret, ts, avalue)
    ensures ret.kind == StructType && ret.size > 16 ==> |regs| > 0 && regs[0] == rvalue
  {
    hide AllReadable, Holds, Place, CallItems, Arrives, WordCount;
    forall i, k | 0 <= i < |ts| && i < |avalue| && 0 <= k < WordCount(ts[i])
      ensures Arrives(floats, regs, ret, ts, avalue[i], i, k)
    {
      WordArrives(floats, regs, ret, rvalue, ts, avalue, i, k);
    }
    if ret.kind == StructType && ret.size > 16 {
      HiddenIsFirst(ret, rvalue, ts, avalue);
      FrameHolds(floats + regs, CallItems(ret, rvalue, ts, avalue), GP_REGS, 0);
    }
  }

  lemma {:induction false} HiddenIsFirst(ret: Desc, rvalue: Word, ts: seq<Desc>, avalue: seq<Arg>)
    requires AllReadable(ts, avalue) && ret.kind == StructType && ret.size > 16
    ensures |CallItems(ret, rvalue, ts, avalue)| > 0
    ensures CallItems(ret, rvalue, ts, avalue)[0] == Item(INTEGER, rvalue)
    ensures AdvanceAll(START, Classes(CallItems(ret, rvalue, ts, avalue)[..0]), GP_REGS) == START
  {
    hide AllReadable;
  }

  predicate OnStack(slot: nat) {
    slot >= 14
  }

  /** A struct of two eightbytes comes apart, one in a register and one on the stack, exactly if only one of
      them finds a register; the ABI wants all of it in memory then. */
  lemma {:induction false} SplitIff(t: Desc, g: nat, f: nat, m: nat)
    requires t.kind == StructType && 8 < t.size <= 16
    ensures var c, d := WordClass(t, 0), WordClass(t, 1);
            OnStack(SlotOf(g, f, m, c))
            != OnStack(SlotOf(g + WordsOf(t, 1, INTEGER), f + WordsOf(t, 1, SSE), m + WordsOf(t, 1, MEMORY), d))
            <==> if c != d then (g >= 6) != (f >= 8) else if c == INTEGER then g == 5 else f == 7
  {
    hide AllFloats, EightbyteIsSSE;
    assert forall c :: WordsOf(t, 0, c) == 0;
  }
}
