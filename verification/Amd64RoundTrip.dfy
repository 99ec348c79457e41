/** The two amd64 directions undo each other: what Execute lays out, callbackWrap reads back. */
module Amd64RoundTrip {
  import opened Words
  import opened Types
  import opened Placement
  import opened Amd64Agree
  import K = Amd64Classify
  import A = Amd64Args
  import C = Amd64Call
  import B = Amd64Callback

  /** Where the call's cursors stand after the first n arguments. */
  function CallCursor(ts: seq<Desc>, n: nat): Cursor
    requires n <= |ts|
  {
    if n == 0 then START else AdvanceAll(CallCursor(ts, n - 1), K.ClassesOf(ts[n - 1]), A.GP_REGS)
  }

  /** No register of either file is left. */
  predicate Full(c: Cursor) {
    c.ints >= A.GP_REGS && c.floats >= FLOAT_REGS
  }

  /** The i-th parameter survives whatever its value: it is no float32, and where the two sides classify
      it differently both register files are full, so that both use the stack. */
  predicate Survives(ts: seq<Desc>, rs: seq<B.RType>, i: nat)
    requires i < |ts| && i < |rs|
  {
    rs[i].kind != B.RFloat32 && (Confused(rs[i]) ==> Full(CallCursor(ts, i)))
  }

  predicate SurviveUpTo(ts: seq<Desc>, rs: seq<B.RType>, n: nat)
    requires n <= |ts| && n <= |rs|
  {
    forall i :: 0 <= i < n ==> Survives(ts, rs, i)
  }

  ghost predicate AllCorrespond(ts: seq<Desc>, rs: seq<B.RType>) {
    |ts| == |rs| && forall i :: 0 <= i < |ts| ==> Corresponds(ts[i], rs[i])
  }

  /** Values for a call with these descriptors, received with these types. */
  ghost predicate AllGiven(ts: seq<Desc>, rs: seq<B.RType>, avalue: seq<Arg>) {
    && |ts| == |rs| <= |avalue| && A.AllReadable(ts, avalue)
    && forall i :: 0 <= i < |rs| ==> Given(rs[i], avalue[i])
  }

  /** The values of the first n arguments. */
  function Values(rs: seq<B.RType>, avalue: seq<Arg>, n: nat): (vs: seq<seq<Byte>>)
    requires n <= |rs| && n <= |avalue|
    ensures |vs| == n
  {
    if n == 0 then [] else Values(rs, avalue, n - 1) + [B.Prefix(avalue[n - 1].mem, rs[n - 1].size)]
  }

  lemma {:induction false} GivenAt(ts: seq<Desc>, rs: seq<B.RType>, avalue: seq<Arg>, i: nat)
    requires AllGiven(ts, rs, avalue) && i < |ts|
    ensures A.Readable(ts[i], avalue[i]) && Given(rs[i], avalue[i])
  {
    hide A.Readable, A.AllReadable;
    A.ReadableAt(ts, avalue, i);
  }

  lemma {:induction false} CorrespondsAt(ts: seq<Desc>, rs: seq<B.RType>, i: nat)
    requires |ts| == |rs| && AllCorrespond(ts, rs) && i < |ts|
    ensures Corresponds(ts[i], rs[i])
  {
    hide Corresponds;
  }

  /* ---- one argument, at a cursor ---- */

  /** A parameter both sides agree about, or reached with no register left, moves both sides' cursors
      alike and is fetched from the slots it was put in. */
  lemma {:induction false} SameSlots(t: Desc, r: B.RType, c: Cursor, f: seq<Word>)
    requires Corresponds(t, r) && (Confused(r) ==> Full(c))
    ensures AdvanceAll(c, K.ClassesOf(t), A.GP_REGS) == AdvanceAll(c, B.ClassesOf(r), A.GP_REGS)
    ensures B.Fetch(f, c, K.ClassesOf(t)) == B.Fetch(f, c, B.ClassesOf(r))
  {
    hide Corresponds, K.ClassesOf, B.ClassesOf, AdvanceAll, B.Fetch, Confused, B.At;
    if Confused(r) {
      ConfusedClasses(t, r);
      B.OneWord(f, c, INTEGER);
      B.OneWord(f, c, SSE);
    } else {
      ClassesAgreeIff(t, r);
    }
  }

  lemma {:induction false} CursorsAgree(ts: seq<Desc>, rs: seq<B.RType>, n: nat)
    requires |ts| == |rs| && AllCorrespond(ts, rs) && n <= |ts| && SurviveUpTo(ts, rs, n)
    ensures CallCursor(ts, n) == B.CursorAfterParams(rs, n)
  {
    hide Corresponds, K.ClassesOf, B.ClassesOf, AdvanceAll, Confused, Full, AllCorrespond;
    if n != 0 {
      CursorsAgree(ts, rs, n - 1);
      assert Survives(ts, rs, n - 1);
      CorrespondsAt(ts, rs, n - 1);
      SameSlots(ts[n - 1], rs[n - 1], CallCursor(ts, n - 1), []);
    }
  }

  /** The call's cursor arithmetic over the words it really places. */
  lemma {:induction false} CallCursorIs(ts: seq<Desc>, avalue: seq<Arg>, n: nat)
    requires n <= |ts| && n <= |avalue| && A.AllReadable(ts, avalue)
    ensures AdvanceAll(START, Classes(A.ArgsItems(ts, avalue, n)), A.GP_REGS) == CallCursor(ts, n)
  {
    hide A.Readable, A.AllReadable, A.ArgItems, A.ArgsItems, K.ClassesOf, AdvanceAll, Classes;
    if n == 0 {
      NoClasses(ts, avalue);
    } else {
      CallCursorIs(ts, avalue, n - 1);
      A.ReadableAt(ts, avalue, n - 1);
      A.ArgsStep(ts, avalue, n);
      A.ArgItemsClasses(ts[n - 1], avalue[n - 1]);
      var before, mine := A.ArgsItems(ts, avalue, n - 1), A.ArgItems(ts[n - 1], avalue[n - 1]);
      ClassesAppend(before, mine);
      AdvanceAppend(START, Classes(before), Classes(mine), A.GP_REGS);
    }
  }

  lemma {:induction false} NoClasses(ts: seq<Desc>, avalue: seq<Arg>)
    requires A.AllReadable(ts, avalue)
    ensures A.ArgsItems(ts, avalue, 0) == [] && AdvanceAll(START, Classes([]), A.GP_REGS) == START
  {
  }

  lemma {:induction false} ArgsPrefix(ts: seq<Desc>, avalue: seq<Arg>, m: nat, n: nat)
    requires 0 < m <= n <= |ts| && n <= |avalue| && A.AllReadable(ts, avalue)
    ensures A.Readable(ts[m - 1], avalue[m - 1])
    ensures A.ArgsItems(ts, avalue, m - 1) + A.ArgItems(ts[m - 1], avalue[m - 1]) <= A.ArgsItems(ts, avalue, n)
  {
    hide A.Readable, A.ArgItems, A.AllReadable, A.ArgsItems;
    A.ReadableAt(ts, avalue, n - 1);
    A.ArgsStep(ts, avalue, n);
    if m < n {
      ArgsPrefix(ts, avalue, m, n - 1);
      assert A.ArgsItems(ts, avalue, n - 1) <= A.ArgsItems(ts, avalue, n);
    }
  }

  /** Fetching by classes finds an argument's own words. */
  lemma {:induction false} FetchFindsWords(f: seq<Word>, all: seq<Item>, before: seq<Item>, mine: seq<Item>)
    requires Holds(f, Place(all, A.GP_REGS), A.GP_REGS)
    requires before + mine <= all
    ensures B.Fetch(f, AdvanceAll(START, Classes(before), A.GP_REGS), Classes(mine)) == AllWords(mine)
  {
    hide Place, Holds, Slot, Advance, AdvanceAll, B.Fetch, B.At;
    var c := AdvanceAll(START, Classes(before), A.GP_REGS);
    if mine == [] {
      assert Classes(mine) == [];
      B.NoWords(f, c);
    } else {
      var n := |mine| - 1;
      var init, i := mine[..n], |before| + n;
      assert before + init == (before + mine)[..i] == all[..i] && all[i] == (before + mine)[i];
      ClassesInit(mine);
      FetchFindsWords(f, all, before, init);
      FrameHolds(f, all, A.GP_REGS, i);
      ClassesAppend(before, init);
      AdvanceAppend(START, Classes(before), Classes(init), A.GP_REGS);
      FetchLast(f, c, Classes(mine));
      FoundAt(f, Slot(AdvanceAll(c, Classes(init), A.GP_REGS), mine[n].cls, A.GP_REGS));
    }
  }

  lemma {:induction false} FetchLast(f: seq<Word>, c: Cursor, cs: seq<Class>)
    requires cs != []
    ensures var n := |cs| - 1;
            B.Fetch(f, c, cs) ==
            B.Fetch(f, c, cs[..n]) + [B.At(f, Slot(AdvanceAll(c, cs[..n], A.GP_REGS), cs[n], A.GP_REGS))]
  {
    hide AdvanceAll, Slot, B.At;
  }

  lemma {:induction false} FoundAt(f: seq<Word>, i: nat)
    requires i < |f|
    ensures B.At(f, i) == f[i]
  {
  }

  /** What the decoder fetches for parameter i. */
  function Fetched(rs: seq<B.RType>, f: seq<Word>, i: nat): (ws: seq<Word>)
    requires i < |rs|
    ensures |ws| == |B.ClassesOf(rs[i])|
  {
    B.Fetch(f, B.CursorAfterParams(rs, i), B.ClassesOf(rs[i]))
  }

  lemma {:induction false} DecodeAt(rs: seq<B.RType>, n: nat, f: seq<Word>, narrow: Word -> seq<Byte>, i: nat)
    requires i < n <= |rs|
    ensures B.Decode(rs, n, f, narrow)[i] == B.Assemble(rs[i], Fetched(rs, f, i), narrow)
  {
    hide B.Assemble, B.Fetch, B.CursorAfterParams, B.ClassesOf;
    if i < n - 1 { DecodeAt(rs, n - 1, f, narrow, i); }
  }

  lemma {:induction false} ValuesAt(rs: seq<B.RType>, avalue: seq<Arg>, n: nat, i: nat)
    requires i < n <= |rs| && n <= |avalue|
    ensures Values(rs, avalue, n)[i] == B.Prefix(avalue[i].mem, rs[i].size)
  {
    hide B.Prefix;
    if i < n - 1 { ValuesAt(rs, avalue, n - 1, i); }
  }

  /** f holds the words of these arguments. */
  ghost predicate Framed(ts: seq<Desc>, avalue: seq<Arg>, f: seq<Word>) {
    && |ts| <= |avalue| && A.AllReadable(ts, avalue)
    && Holds(f, Place(A.ArgsItems(ts, avalue, |ts|), A.GP_REGS), A.GP_REGS)
  }

  /** Behind parameters that survive, a parameter's own words are found where both sides use one slot
      for them. */
  lemma {:induction false} FindsOwnWords(ts: seq<Desc>, rs: seq<B.RType>, avalue: seq<Arg>, f: seq<Word>, i: nat)
    requires |ts| == |rs| && AllCorrespond(ts, rs) && Framed(ts, avalue, f) && i < |ts| && SurviveUpTo(ts, rs, i)
    requires Confused(rs[i]) ==> Full(CallCursor(ts, i))
    ensures A.Readable(ts[i], avalue[i]) && Fetched(rs, f, i) == AllWords(A.ArgItems(ts[i], avalue[i]))
  {
    hide A.AllReadable, Place, Holds, B.ClassesOf, K.ClassesOf, B.Fetch, B.CursorAfterParams, A.ArgItems, A.Readable;
    hide Classes, AllWords, A.ArgsItems, AdvanceAll, Confused, Full, AllCorrespond, SurviveUpTo, Corresponds;
    ArgsPrefix(ts, avalue, i + 1, |ts|);
    CorrespondsAt(ts, rs, i);
    FetchFindsWords(f, A.ArgsItems(ts, avalue, |ts|), A.ArgsItems(ts, avalue, i), A.ArgItems(ts[i], avalue[i]));
    CallCursorIs(ts, avalue, i);
    CursorsAgree(ts, rs, i);
    A.ArgItemsClasses(ts[i], avalue[i]);
    SameSlots(ts[i], rs[i], CallCursor(ts, i), f);
  }

  lemma {:induction false} DecodeOne(ts: seq<Desc>, rs: seq<B.RType>, avalue: seq<Arg>, f: seq<Word>,
                                     narrow: Word -> seq<Byte>, i: nat)
    requires |ts| == |rs| && AllCorrespond(ts, rs) && AllGiven(ts, rs, avalue) && Framed(ts, avalue, f)
    requires i < |ts| && SurviveUpTo(ts, rs, i) && (Confused(rs[i]) ==> Full(CallCursor(ts, i)))
    ensures B.Assemble(rs[i], Fetched(rs, f, i), narrow) ==
            if rs[i].kind == B.RFloat32 then narrow(Load(B.Prefix(avalue[i].mem, 4)))
            else B.Prefix(avalue[i].mem, rs[i].size)
  {
    hide B.Assemble, A.ArgItems, A.Readable, AllWords, Fetched, Confused, Full, AllCorrespond, SurviveUpTo, Framed;
    hide AllGiven, Corresponds, CallCursor, Load;
    ReadableOf(ts, rs, avalue);
    GivenAt(ts, rs, avalue, i);
    CorrespondsAt(ts, rs, i);
    FindsOwnWords(ts, rs, avalue, f, i);
    AssembleOwnWords(ts[i], rs[i], avalue[i], narrow);
    if rs[i].kind == B.RFloat32 { FloatSize(ts[i], rs[i]); }
  }

  lemma {:induction false} FloatSize(t: Desc, r: B.RType)
    requires Corresponds(t, r) && r.kind == B.RFloat32
    ensures r.size == 4
  {
  }

  lemma {:induction false} DecodeFindsValues(ts: seq<Desc>, rs: seq<B.RType>, avalue: seq<Arg>, f: seq<Word>,
                                             narrow: Word -> seq<Byte>, n: nat)
    requires |ts| == |rs| && AllCorrespond(ts, rs) && AllGiven(ts, rs, avalue) && Framed(ts, avalue, f)
    requires n <= |ts| && SurviveUpTo(ts, rs, |ts|)
    ensures B.Decode(rs, n, f, narrow) == Values(rs, avalue, n)
  {
    hide Framed, B.Assemble, B.ClassesOf, B.Fetch, B.CursorAfterParams, AllCorrespond, AllGiven, B.Prefix,
         Confused, Full;
    hide CallCursor, Load;
    ReadableOf(ts, rs, avalue);
    if n != 0 {
      DecodeFindsValues(ts, rs, avalue, f, narrow, n - 1);
      assert Survives(ts, rs, n - 1);
      DecodeOne(ts, rs, avalue, f, narrow, n - 1);
    }
  }

  /* ---- whole lists ---- */

  /** The frame the assembly trampolines connect: float registers, integer registers, stack, and
      whatever lies above the arguments. */
  function FrameOf(p: Placed, above: seq<Word>): seq<Word>
    requires |p.floats| <= FLOAT_REGS && |p.ints| <= A.GP_REGS && |p.stack| <= A.STACK_SLOTS
  {
    Pad(p.floats, FLOAT_REGS) + Pad(p.ints, A.GP_REGS) + Pad(p.stack, A.STACK_SLOTS) + above
  }

  lemma {:induction false} FrameOfHolds(p: Placed, above: seq<Word>)
    requires |p.floats| <= FLOAT_REGS && |p.ints| <= A.GP_REGS && |p.stack| <= A.STACK_SLOTS
    ensures Holds(FrameOf(p, above), p, A.GP_REGS)
  {
  }

  /** The words of the call fit the nine stack slots. */
  predicate FitsStack(ts: seq<Desc>, avalue: seq<Arg>)
    requires |ts| <= |avalue| && A.AllReadable(ts, avalue)
  {
    |Place(A.ArgsItems(ts, avalue, |ts|), A.GP_REGS).stack| <= A.STACK_SLOTS
  }

  /** The frame of a call. */
  function CallFrame(ts: seq<Desc>, avalue: seq<Arg>, above: seq<Word>): seq<Word>
    requires |ts| <= |avalue| && A.AllReadable(ts, avalue) && FitsStack(ts, avalue)
  {
    FrameOf(Place(A.ArgsItems(ts, avalue, |ts|), A.GP_REGS), above)
  }

  lemma {:induction false} CallFrameHolds(ts: seq<Desc>, avalue: seq<Arg>, above: seq<Word>)
    requires |ts| <= |avalue| && A.AllReadable(ts, avalue) && FitsStack(ts, avalue)
    ensures Framed(ts, avalue, CallFrame(ts, avalue, above))
  {
    hide Place, Holds, FrameOf, A.AllReadable, A.ArgsItems;
    FrameOfHolds(Place(A.ArgsItems(ts, avalue, |ts|), A.GP_REGS), above);
  }

  /** Decoding what Execute laid out gives back every argument's bytes. */
  predicate ComesBack(ts: seq<Desc>, rs: seq<B.RType>, avalue: seq<Arg>, above: seq<Word>, narrow: Word -> seq<Byte>)
    requires |ts| == |rs| <= |avalue| && A.AllReadable(ts, avalue)
  {
    FitsStack(ts, avalue) && B.Decode(rs, |rs|, CallFrame(ts, avalue, above), narrow) == Values(rs, avalue, |rs|)
  }

  /** For every argument list that fits, in any mix and order, whose parameters survive. */
  lemma {:induction false} RoundTrip(ts: seq<Desc>, rs: seq<B.RType>, avalue: seq<Arg>, above: seq<Word>,
                                     narrow: Word -> seq<Byte>)
    requires |ts| == |rs| && AllCorrespond(ts, rs) && AllGiven(ts, rs, avalue) && SurviveUpTo(ts, rs, |ts|)
             && FitsStack(ts, avalue)
    ensures ComesBack(ts, rs, avalue, above, narrow)
  {
    hide FitsStack, CallFrame, SurviveUpTo, AllCorrespond, Framed, B.Decode, Values, A.AllReadable;
    CallFrameHolds(ts, avalue, above);
    DecodeFindsValues(ts, rs, avalue, CallFrame(ts, avalue, above), narrow, |ts|);
  }

  /** How many stack words a call needs does not depend on the values. */
  lemma {:induction false} FitsByTypes(ts: seq<Desc>, avalue: seq<Arg>)
    requires |ts| <= |avalue| && A.AllReadable(ts, avalue)
    ensures FitsStack(ts, avalue) <==> CallCursor(ts, |ts|).stack <= A.STACK_SLOTS
  {
    hide A.AllReadable, A.ArgsItems, Place, Classes, AdvanceAll, CallCursor;
    CallCursorIs(ts, avalue, |ts|);
    CursorAfter(A.ArgsItems(ts, avalue, |ts|), A.GP_REGS);
  }

  /* ---- the converse: a parameter that does not survive ---- */

  /** The narrowing of a float64 whose upper half is zero, a number far below the float32 range. */
  ghost predicate NarrowsTiny(narrow: Word -> seq<Byte>) {
    forall bs: seq<Byte> :: |bs| == 4 ==> narrow(Load(bs)) == Zeros(4)
  }

  /** A value of the type whose first byte is b and whose other bytes are zero. */
  function Probe(t: Desc, b: Byte): Arg {
    Arg(ZERO, [b] + Zeros(t.size + 8))
  }

  lemma {:induction false} ProbeReadable(t: Desc, r: B.RType, b: Byte)
    requires Corresponds(t, r) && b <= 1
    ensures A.Readable(t, Probe(t, b)) && Given(r, Probe(t, b))
  {
    hide K.AllFloats, K.EightbyteIsSSE;
  }

  /** All values zero, except that the first byte of argument i is b. */
  function Probes(ts: seq<Desc>, i: nat, b: Byte): (avalue: seq<Arg>)
    ensures |avalue| == |ts|
  {
    seq(|ts|, j requires 0 <= j < |ts| => Probe(ts[j], if j == i then b else 0))
  }

  lemma {:induction false} ProbesGiven(ts: seq<Desc>, rs: seq<B.RType>, i: nat, b: Byte)
    requires |ts| == |rs| && AllCorrespond(ts, rs) && b <= 1
    ensures AllGiven(ts, rs, Probes(ts, i, b))
  {
    hide Corresponds, A.Readable, Given, Probe;
    forall j | 0 <= j < |ts|
      ensures A.Readable(ts[j], Probes(ts, i, b)[j]) && Given(rs[j], Probes(ts, i, b)[j])
    {
      CorrespondsAt(ts, rs, j);
      ProbeReadable(ts[j], rs[j], if j == i then b else 0);
    }
  }

  /** Two lists of probes that differ in argument i, which has one word, place the same words but for
      that one. */
  lemma {:induction false} ProbesDiffer(ts: seq<Desc>, i: nat, n: nat)
    requires i < n <= |ts| && K.ClassesOf(ts[i]) == [INTEGER]
    requires A.AllReadable(ts, Probes(ts, i, 0)) && A.AllReadable(ts, Probes(ts, i, 1))
    ensures var a, b := A.ArgsItems(ts, Probes(ts, i, 0), n), A.ArgsItems(ts, Probes(ts, i, 1), n);
            var k := |A.ArgsItems(ts, Probes(ts, i, 0), i)|;
            && k < |a| && a[k].cls == INTEGER && |b| == |a| && b == a[k := Item(INTEGER, b[k].word)]
            && a[..k] == A.ArgsItems(ts, Probes(ts, i, 0), i)
  {
    hide A.Readable, A.AllReadable, A.ArgItems, A.ArgsItems, K.ClassesOf, Probe;
    var p, q := Probes(ts, i, 0), Probes(ts, i, 1);
    A.ReadableAt(ts, p, n - 1);
    A.ReadableAt(ts, q, n - 1);
    A.ArgsStep(ts, p, n);
    A.ArgsStep(ts, q, n);
    if n == i + 1 {
      SameBefore(ts, i, i);
      OneIntegerItem(ts[i], p[i]);
      OneIntegerItem(ts[i], q[i]);
    } else {
      ProbesDiffer(ts, i, n - 1);
      assert p[n - 1] == q[n - 1];
    }
  }

  lemma {:induction false} OneIntegerItem(t: Desc, a: Arg)
    requires A.Readable(t, a) && K.ClassesOf(t) == [INTEGER]
    ensures |A.ArgItems(t, a)| == 1 && A.ArgItems(t, a)[0].cls == INTEGER
  {
    hide A.Readable, A.ArgItems, K.ClassesOf;
    A.ArgItemsClasses(t, a);
    assert Classes(A.ArgItems(t, a))[0] == A.ArgItems(t, a)[0].cls;
  }

  lemma {:induction false} SameBefore(ts: seq<Desc>, i: nat, n: nat)
    requires n <= i < |ts| && A.AllReadable(ts, Probes(ts, i, 0)) && A.AllReadable(ts, Probes(ts, i, 1))
    ensures A.ArgsItems(ts, Probes(ts, i, 0), n) == A.ArgsItems(ts, Probes(ts, i, 1), n)
  {
    hide A.Readable, A.ArgItems, A.ArgsItems, A.AllReadable, Probe;
    var p, q := Probes(ts, i, 0), Probes(ts, i, 1);
    if n == 0 {
      NoClasses(ts, p);
      NoClasses(ts, q);
    } else {
      SameBefore(ts, i, n - 1);
      assert p[n - 1] == q[n - 1];
      A.ReadableAt(ts, p, n - 1);
      A.ArgsStep(ts, p, n);
      A.ArgsStep(ts, q, n);
    }
  }

  /** Changing a placed word changes its own slot of the frame only. */
  lemma {:induction false} OtherSlots(p: Placed, c: Cursor, w: Word, above: seq<Word>, j: nat)
    requires |p.floats| <= FLOAT_REGS && |p.ints| <= A.GP_REGS && |p.stack| <= A.STACK_SLOTS
    requires j != Slot(c, INTEGER, A.GP_REGS)
    ensures var q := Overwrite(p, c, INTEGER, w, A.GP_REGS);
            && |q.floats| == |p.floats| && |q.ints| == |p.ints| && |q.stack| == |p.stack|
            && |FrameOf(q, above)| == |FrameOf(p, above)|
            && (j < |FrameOf(p, above)| ==> FrameOf(q, above)[j] == FrameOf(p, above)[j])
  {
  }

  /** A confused struct reached with a free register: the callback reads a slot that does not depend on
      the struct's value. */
  lemma {:induction false} ConfusedIsNotRead(ts: seq<Desc>, rs: seq<B.RType>, above: seq<Word>, i: nat)
    requires |ts| == |rs| && AllCorrespond(ts, rs) && i < |ts| && SurviveUpTo(ts, rs, i)
    requires Confused(rs[i]) && !Full(CallCursor(ts, i))
    requires AllGiven(ts, rs, Probes(ts, i, 0)) && AllGiven(ts, rs, Probes(ts, i, 1))
    requires FitsStack(ts, Probes(ts, i, 0)) && FitsStack(ts, Probes(ts, i, 1))
    ensures Fetched(rs, CallFrame(ts, Probes(ts, i, 0), above), i)
            == Fetched(rs, CallFrame(ts, Probes(ts, i, 1), above), i)
  {
    hide A.AllReadable, Place, B.ClassesOf, K.ClassesOf, B.Fetch, B.CursorAfterParams, A.ArgsItems, Confused,
         AllCorrespond;
    hide SurviveUpTo, AdvanceAll, Classes, FrameOf, Given, Corresponds;
    var p, q := Probes(ts, i, 0), Probes(ts, i, 1);
    var c := CallCursor(ts, i);
    CorrespondsAt(ts, rs, i);
    ConfusedClasses(ts[i], rs[i]);
    CursorsAgree(ts, rs, i);
    ProbesDiffer(ts, i, |ts|);
    var a, b, k := A.ArgsItems(ts, p, |ts|), A.ArgsItems(ts, q, |ts|), |A.ArgsItems(ts, p, i)|;
    CallCursorIs(ts, p, i);
    CursorAfter(a[..k], A.GP_REGS);
    PlaceUpdate(a, k, b[k].word, A.GP_REGS);
    SlotsApart(c);
    OtherSlots(Place(a, A.GP_REGS), c, b[k].word, above, Slot(c, SSE, A.GP_REGS));
    B.OneWord(CallFrame(ts, p, above), c, SSE);
    B.OneWord(CallFrame(ts, q, above), c, SSE);
  }

  lemma {:induction false} SlotsApart(c: Cursor)
    requires !Full(c)
    ensures Slot(c, SSE, A.GP_REGS) != Slot(c, INTEGER, A.GP_REGS)
  {
  }

  /** Behind parameters that survive, one that does not loses some value. */
  lemma {:induction false} LosesSomeValue(ts: seq<Desc>, rs: seq<B.RType>, above: seq<Word>,
      narrow: Word -> seq<Byte>, i: nat)
    requires |ts| == |rs| && AllCorrespond(ts, rs) && NarrowsTiny(narrow) && CallCursor(ts, |ts|).stack <= A.STACK_SLOTS
    requires i < |ts| && SurviveUpTo(ts, rs, i) && !Survives(ts, rs, i)
    ensures exists avalue :: AllGiven(ts, rs, avalue) && !ComesBack(ts, rs, avalue, above, narrow)
  {
    hide FitsStack, CallFrame, SurviveUpTo, AllCorrespond, Framed, B.Decode, Values, A.AllReadable, CallCursor, Given;
    hide B.Assemble, Fetched, Confused, Full, Probes, NarrowsTiny;
    var p, q := Probes(ts, i, 0), Probes(ts, i, 1);
    forall b: Byte | b <= 1
      ensures AllGiven(ts, rs, Probes(ts, i, b)) && |Probes(ts, i, b)| == |ts| && A.AllReadable(ts, Probes(ts, i, b))
      ensures FitsStack(ts, Probes(ts, i, b))
    {
      ProbesGiven(ts, rs, i, b);
      ReadableOf(ts, rs, Probes(ts, i, b));
      FitsByTypes(ts, Probes(ts, i, b));
    }
    ProbeValues(ts, rs, i);
    DecodeAt(rs, |rs|, CallFrame(ts, p, above), narrow, i);
    DecodeAt(rs, |rs|, CallFrame(ts, q, above), narrow, i);
    if rs[i].kind == B.RFloat32 {
      NarrowedProbe(ts, rs, above, narrow, i);
      assert !ComesBack(ts, rs, q, above, narrow);
    } else {
      ConfusedIsNotRead(ts, rs, above, i);
      assert !ComesBack(ts, rs, p, above, narrow) || !ComesBack(ts, rs, q, above, narrow);
    }
  }

  lemma {:induction false} ReadableOf(ts: seq<Desc>, rs: seq<B.RType>, avalue: seq<Arg>)
    requires AllGiven(ts, rs, avalue)
    ensures |ts| == |rs| <= |avalue| && A.AllReadable(ts, avalue)
  {
  }

  /** The two probe lists have different values for parameter i, neither of them lost by its size. */
  lemma {:induction false} ProbeValues(ts: seq<Desc>, rs: seq<B.RType>, i: nat)
    requires |ts| == |rs| && AllCorrespond(ts, rs) && i < |ts| && (rs[i].kind == B.RFloat32 || Confused(rs[i]))
    ensures Values(rs, Probes(ts, i, 0), |rs|)[i] != Values(rs, Probes(ts, i, 1), |rs|)[i]
    ensures rs[i].kind == B.RFloat32 ==> Values(rs, Probes(ts, i, 1), |rs|)[i] != Zeros(4)
  {
    hide Confused, Corresponds;
    CorrespondsAt(ts, rs, i);
    if Confused(rs[i]) { ConfusedClasses(ts[i], rs[i]); } else { FloatSize(ts[i], rs[i]); }
    CorrespondsSized(ts[i], rs[i]);
    forall b: Byte | b <= 1
      ensures var v := Values(rs, Probes(ts, i, b), |rs|)[i]; |v| == rs[i].size && v[0] == b
    {
      ValuesAt(rs, Probes(ts, i, b), |rs|, i);
    }
  }

  lemma {:induction false} NarrowedProbe(ts: seq<Desc>, rs: seq<B.RType>, above: seq<Word>,
      narrow: Word -> seq<Byte>, i: nat)
    requires |ts| == |rs| && AllCorrespond(ts, rs) && NarrowsTiny(narrow) && i < |ts| && SurviveUpTo(ts, rs, i)
    requires rs[i].kind == B.RFloat32
    requires AllGiven(ts, rs, Probes(ts, i, 1)) && FitsStack(ts, Probes(ts, i, 1))
    ensures B.Assemble(rs[i], Fetched(rs, CallFrame(ts, Probes(ts, i, 1), above), i), narrow) == Zeros(4)
  {
    hide FitsStack, CallFrame, SurviveUpTo, AllCorrespond, Framed, CallCursor, B.Assemble, Fetched, Full, Load;
    hide A.AllReadable, Given;
    var q := Probes(ts, i, 1);
    assert !Confused(rs[i]);
    ReadableOf(ts, rs, q);
    CallFrameHolds(ts, q, above);
    DecodeOne(ts, rs, q, CallFrame(ts, q, above), narrow, i);
    assert |B.Prefix(q[i].mem, 4)| == 4;
  }

  /** The list-level round trip, exactly: every list of values comes back if and only if no parameter is
      a float32 and every small nested all-float struct is reached with both register files full. */
  lemma {:induction false} ListSurvivesIff(ts: seq<Desc>, rs: seq<B.RType>, above: seq<Word>, narrow: Word -> seq<Byte>)
    requires |ts| == |rs| && AllCorrespond(ts, rs) && NarrowsTiny(narrow) && CallCursor(ts, |ts|).stack <= A.STACK_SLOTS
    ensures (forall avalue :: AllGiven(ts, rs, avalue) ==> ComesBack(ts, rs, avalue, above, narrow))
            <==> SurviveUpTo(ts, rs, |ts|)
  {
    hide FitsStack, Survives, AllCorrespond, ComesBack, NarrowsTiny, CallCursor, A.AllReadable, Given;
    if SurviveUpTo(ts, rs, |ts|) {
      forall avalue | AllGiven(ts, rs, avalue) ensures ComesBack(ts, rs, avalue, above, narrow) {
        ReadableOf(ts, rs, avalue);
        FitsByTypes(ts, avalue);
        RoundTrip(ts, rs, avalue, above, narrow);
      }
    } else {
      var i := FirstLost(ts, rs, |ts|);
      LosesSomeValue(ts, rs, above, narrow, i);
    }
  }

  lemma {:induction false} FirstLost(ts: seq<Desc>, rs: seq<B.RType>, n: nat) returns (i: nat)
    requires n <= |ts| == |rs| && !SurviveUpTo(ts, rs, n)
    ensures i < n && SurviveUpTo(ts, rs, i) && !Survives(ts, rs, i)
  {
    hide Survives;
    if SurviveUpTo(ts, rs, n - 1) {
      i := n - 1;
    } else {
      i := FirstLost(ts, rs, n - 1);
    }
  }

  /** As the only argument a confused struct is read as zeros, whatever it holds: its word goes to RDI,
      and the callback reads XMM0. */
  lemma {:induction false} ConfusedAloneReadsZeros(t: Desc, r: B.RType, a: Arg, above: seq<Word>,
      narrow: Word -> seq<Byte>)
    requires Corresponds(t, r) && A.Readable(t, a) && Confused(r)
    ensures A.AllReadable([t], [a]) && FitsStack([t], [a])
    ensures B.Decode([r], 1, CallFrame([t], [a], above), narrow) == [Zeros(r.size)]
  {
    hide Corresponds, Confused, A.ArgItems, A.Readable, K.ClassesOf, B.ClassesOf, Place, B.Fetch, AdvanceAll, Bytes;
    ConfusedClasses(t, r);
    OneIntegerItem(t, a);
    var x := A.ArgItems(t, a)[0];
    assert A.ArgItems(t, a) == [x];
    assert A.ArgsItems([t], [a], 0) == [];
    assert A.ArgsItems([t], [a], 1) == [] + [x];
    NothingPlaced();
    PlaceStep([], x, A.GP_REGS);
    var f := CallFrame([t], [a], above);
    assert f[0] == ZERO;
    B.OneWord(f, START, SSE);
    assert B.Decode([r], 0, f, narrow) == [];
    ZeroBytes(r.size);
  }

  lemma {:induction false} NothingPlaced()
    ensures Place([], A.GP_REGS) == Placed([], [], [])
  {
  }

  lemma {:induction false} ZeroBytes(n: nat)
    requires n <= 8
    ensures B.Prefix(B.Flatten([ZERO]), n) == Zeros(n)
  {
    B.FlattenOne(ZERO);
  }

  method Trampoline(frame: C.CallFrame, above: seq<Word>, ghost items: seq<Item>) returns (f: seq<Word>)
    requires frame.Holds(items)
    ensures f == FrameOf(Place(items, A.GP_REGS), above)
  {
    f := frame.floats[..] + frame.sysargs[..] + above;
  }

  /** Execute, the trampolines and callbackWrap, end to end. */
  method CallThroughCallback(ret: Desc, ts: seq<Desc>, rs: seq<B.RType>, avalue: seq<Arg>,
                             above: seq<Word>, narrow: Word -> seq<Byte>)
    returns (out: C.Outcome, args: seq<seq<Byte>>)
    requires |ts| == |rs| && AllCorrespond(ts, rs) && AllGiven(ts, rs, avalue) && SurviveUpTo(ts, rs, |ts|)
             && !A.ViaHiddenPointer(ret)
    requires |above| == B.FRAME_WORDS - FLOAT_REGS - A.GP_REGS - A.STACK_SLOTS
    ensures out.Called? || out.Panicked?
    ensures out.Panicked? <==> CallCursor(ts, |ts|).stack > A.STACK_SLOTS
    ensures out.Called? ==> args == Values(rs, avalue, |rs|)
  {
    hide Place, A.ArgsItems, A.CallItems, B.Decode, B.CursorAfterParams, AdvanceAll, SurviveUpTo, AllCorrespond,
         CallCursor;
    hide Values, Classes;
    ghost var items := A.CallItems(ret, ZERO, ts, avalue);
    PlainItems(ret, ts, avalue);
    FitsByTypes(ts, avalue);
    var frame;
    out, frame := C.Execute(ret, ZERO, ts, avalue);
    args := [];
    if out.Called? {
      var f := Trampoline(frame, above, items);
      RoundTrip(ts, rs, avalue, above, narrow);
      CursorsAgree(ts, rs, |ts|);
      args := Receive(f, rs, narrow);
    }
  }

  lemma {:induction false} PlainItems(ret: Desc, ts: seq<Desc>, avalue: seq<Arg>)
    requires |ts| <= |avalue| && A.AllReadable(ts, avalue) && !A.ViaHiddenPointer(ret)
    ensures A.CallItems(ret, ZERO, ts, avalue) == A.ArgsItems(ts, avalue, |ts|)
  {
    hide A.AllReadable, A.ArgsItems;
  }

  method Receive(f: seq<Word>, rs: seq<B.RType>, narrow: Word -> seq<Byte>) returns (args: seq<seq<Byte>>)
    requires |f| == B.FRAME_WORDS && FLOAT_REGS + A.GP_REGS + B.CursorAfterParams(rs, |rs|).stack <= B.FRAME_WORDS
    ensures args == B.Decode(rs, |rs|, f, narrow)
  {
    hide B.CursorAfterParams, B.Decode;
    var reader := new B.Reader(f);
    args := reader.CallbackArgs(rs, narrow);
  }
}
