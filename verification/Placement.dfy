/** Where argument words go: registers first, then the stack, with separate integer and float
    register files. Both directions of the marshaller are proved against this module. */
module Placement {
  import opened Words

  datatype Class = INTEGER | SSE | MEMORY

  datatype Item = Item(cls: Class, word: Word)

  /** An argument: the address of its value and the memory readable from there. */
  datatype Arg = Arg(address: Word, mem: seq<Byte>)

  /** XMM0-7 on amd64, D0-D7 on arm64. */
  const FLOAT_REGS: nat := 8

  function Count(cs: seq<Class>, c: Class): nat {
    if cs == [] then 0
    else Count(cs[..|cs| - 1], c) + (if cs[|cs| - 1] == c then 1 else 0)
  }

  /** Whether a word of class c finds a register after the words cs. */
  predicate FindsRegister(cs: seq<Class>, c: Class, gp: nat) {
    match c
    case INTEGER => Count(cs, INTEGER) < gp
    case SSE => Count(cs, SSE) < FLOAT_REGS
    case MEMORY => false
  }

  function Classes(items: seq<Item>): (cs: seq<Class>)
    ensures |cs| == |items|
  {
    seq(|items|, i requires 0 <= i < |items| => items[i].cls)
  }

  lemma {:induction false} ClassesInit(items: seq<Item>)
    requires items != []
    ensures Classes(items)[..|items| - 1] == Classes(items[..|items| - 1])
  {
  }

  lemma {:induction false} ClassesAppend(a: seq<Item>, b: seq<Item>)
    ensures Classes(a + b) == Classes(a) + Classes(b)
  {
  }

  lemma {:induction false} CountNothing()
    ensures forall c :: Count(Classes([]), c) == 0
  {
    assert Classes([]) == [];
  }

  /** The words of class c, in order. */
  function Of(items: seq<Item>, c: Class): seq<Word> {
    if items == [] then []
    else
      Of(items[..|items| - 1], c) + (if items[|items| - 1].cls == c then [items[|items| - 1].word] else [])
  }

  /** The words that find no register, in order. */
  function Spilled(items: seq<Item>, gp: nat): seq<Word> {
    if items == [] then []
    else
      var init, last := items[..|items| - 1], items[|items| - 1];
      Spilled(init, gp) + (if FindsRegister(Classes(init), last.cls, gp) then [] else [last.word])
  }

  function Take<T>(s: seq<T>, n: nat): seq<T> {
    if |s| <= n then s else s[..n]
  }

  /** The specification of a placement: the first gp INTEGER words, the first eight SSE words,
      and everything else on the stack in argument order. */
  datatype Placed = Placed(ints: seq<Word>, floats: seq<Word>, stack: seq<Word>)

  function Place(items: seq<Item>, gp: nat): (p: Placed)
    ensures |p.ints| <= gp && |p.floats| <= FLOAT_REGS
  {
    Placed(Take(Of(items, INTEGER), gp), Take(Of(items, SSE), FLOAT_REGS), Spilled(items, gp))
  }

  lemma {:induction false} OfCount(items: seq<Item>, c: Class)
    ensures |Of(items, c)| == Count(Classes(items), c)
  {
    if items != [] {
      ClassesInit(items);
      OfCount(items[..|items| - 1], c);
    }
  }

  /** One more word extends exactly one of the three areas. */
  lemma {:induction false} PlaceStep(items: seq<Item>, x: Item, gp: nat)
    ensures Place(items + [x], gp) ==
            var p := Place(items, gp);
            if x.cls == INTEGER && |p.ints| < gp then p.(ints := p.ints + [x.word])
            else if x.cls == SSE && |p.floats| < FLOAT_REGS then p.(floats := p.floats + [x.word])
            else p.(stack := p.stack + [x.word])
  {
    var all := items + [x];
    assert all[..|all| - 1] == items;
    OfCount(items, INTEGER);
    OfCount(items, SSE);
  }

  /** Placing more words moves none of the words placed before. */
  lemma {:induction false} PlaceGrows(items: seq<Item>, more: seq<Item>, gp: nat)
    ensures var p, q := Place(items, gp), Place(items + more, gp);
            p.ints <= q.ints && p.floats <= q.floats && p.stack <= q.stack
  {
    if more == [] {
      assert items + more == items;
    } else {
      var init := more[..|more| - 1];
      PlaceGrows(items, init, gp);
      assert items + more == (items + init) + [more[|more| - 1]];
      PlaceStep(items + init, more[|more| - 1], gp);
      hide Place;
    }
  }

  lemma {:induction false} StackGrows(items: seq<Item>, more: seq<Item>, gp: nat)
    ensures |Place(items, gp).stack| <= |Place(items + more, gp).stack|
  {
    PlaceGrows(items, more, gp);
  }

  function AllWords(items: seq<Item>): (ws: seq<Word>)
    ensures |ws| == |items|
  {
    seq(|items|, i requires 0 <= i < |items| => items[i].word)
  }

  function Total(p: Placed): multiset<Word> {
    multiset(p.ints) + multiset(p.floats) + multiset(p.stack)
  }

  /** Conservation: every word lands exactly once. */
  lemma {:induction false} PlaceConserves(items: seq<Item>, gp: nat)
    ensures multiset(AllWords(items)) == Total(Place(items, gp))
  {
    if items == [] {
      assert AllWords(items) == [];
    } else {
      var init, last := items[..|items| - 1], items[|items| - 1];
      assert AllWords(items) == AllWords(init) + [last.word];
      hide Place, AllWords;
      PlaceConserves(init, gp);
      assert items == init + [last];
      PlaceStep(init, last, gp);
    }
  }

  /* ---- reading a placement back: cursors into [float registers][integer registers][stack] ---- */

  /** How many words of each area have been passed. */
  datatype Cursor = Cursor(ints: nat, floats: nat, stack: nat)

  const START := Cursor(0, 0, 0)

  function Advance(c: Cursor, cls: Class, gp: nat): Cursor {
    match cls
    case INTEGER => if c.ints < gp then c.(ints := c.ints + 1) else c.(stack := c.stack + 1)
    case SSE => if c.floats < FLOAT_REGS then c.(floats := c.floats + 1) else c.(stack := c.stack + 1)
    case MEMORY => c.(stack := c.stack + 1)
  }

  function AdvanceAll(c: Cursor, cs: seq<Class>, gp: nat): Cursor {
    if cs == [] then c else Advance(AdvanceAll(c, cs[..|cs| - 1], gp), cs[|cs| - 1], gp)
  }

  /** The frame slot of the next word of class cls. */
  function Slot(c: Cursor, cls: Class, gp: nat): nat {
    if cls == INTEGER && c.ints < gp then FLOAT_REGS + c.ints
    else if cls == SSE && c.floats < FLOAT_REGS then c.floats
    else FLOAT_REGS + gp + c.stack
  }

  function CursorOf(p: Placed): Cursor {
    Cursor(|p.ints|, |p.floats|, |p.stack|)
  }

  lemma {:induction false} AdvanceAppend(c: Cursor, a: seq<Class>, b: seq<Class>, gp: nat)
    ensures AdvanceAll(c, a + b, gp) == AdvanceAll(AdvanceAll(c, a, gp), b, gp)
  {
    if b == [] {
      assert a + b == a;
    } else {
      assert (a + b)[..|a + b| - 1] == a + b[..|b| - 1];
      AdvanceAppend(c, a, b[..|b| - 1], gp);
    }
  }

  /** The cursor arithmetic and the placement specification agree. */
  lemma {:induction false} CursorAfter(items: seq<Item>, gp: nat)
    ensures AdvanceAll(START, Classes(items), gp) == CursorOf(Place(items, gp))
  {
    if items != [] {
      var n := |items| - 1;
      ClassesInit(items);
      CursorAfter(items[..n], gp);
      assert items == items[..n] + [items[n]];
      PlaceStep(items[..n], items[n], gp);
      hide Place;
    }
  }

  /** f holds the placed words in their slots. */
  ghost predicate Holds(f: seq<Word>, p: Placed, gp: nat) {
    && |f| >= FLOAT_REGS + gp + |p.stack|
    && |p.floats| <= FLOAT_REGS && |p.ints| <= gp
    && (forall k :: 0 <= k < |p.floats| ==> f[k] == p.floats[k])
    && (forall k :: 0 <= k < |p.ints| ==> f[FLOAT_REGS + k] == p.ints[k])
    && (forall k :: 0 <= k < |p.stack| ==> f[FLOAT_REGS + gp + k] == p.stack[k])
  }

  /** What the decoder relies on: the word placed i-th is found in the slot its cursor names. */
  lemma {:induction false} FrameHolds(f: seq<Word>, items: seq<Item>, gp: nat, i: nat)
    requires i < |items|
    requires Holds(f, Place(items, gp), gp)
    ensures var slot := Slot(AdvanceAll(START, Classes(items[..i]), gp), items[i].cls, gp);
            slot < |f| && f[slot] == items[i].word
  {
    hide Place;
    var before, x := items[..i], items[i];
    var o, q, p := Place(before, gp), Place(before + [x], gp), Place(items, gp);
    assert items == (before + [x]) + items[i + 1..];
    PlaceGrows(before + [x], items[i + 1..], gp);
    PlaceStep(before, x, gp);
    CursorAfter(before, gp);
    if x.cls == INTEGER && |o.ints| < gp {
      assert q.ints[|o.ints|] == p.ints[|o.ints|];
    } else if x.cls == SSE && |o.floats| < FLOAT_REGS {
      assert q.floats[|o.floats|] == p.floats[|o.floats|];
    } else {
      assert q.stack[|o.stack|] == p.stack[|o.stack|];
    }
  }

  /** The words of a register file whose unused registers hold zero. */
  function Pad(ws: seq<Word>, n: nat): (r: seq<Word>)
    requires |ws| <= n
    ensures |r| == n
  {
    ws + seq(n - |ws|, _ => ZERO)
  }

  /** Another word in the place the cursor c names. */
  function Overwrite(p: Placed, c: Cursor, cls: Class, w: Word, gp: nat): Placed {
    if cls == INTEGER && c.ints < gp then (if c.ints < |p.ints| then p.(ints := p.ints[c.ints := w]) else p)
    else if cls == SSE && c.floats < FLOAT_REGS then
      (if c.floats < |p.floats| then p.(floats := p.floats[c.floats := w]) else p)
    else if c.stack < |p.stack| then p.(stack := p.stack[c.stack := w])
    else p
  }

  /** Where the k-th word goes depends on the words before it only, and nothing else is there. */
  lemma {:induction false} PlaceUpdate(items: seq<Item>, k: nat, w: Word, gp: nat)
    requires k < |items|
    ensures Place(items[k := Item(items[k].cls, w)], gp) ==
            Overwrite(Place(items, gp), CursorOf(Place(items[..k], gp)), items[k].cls, w, gp)
    decreases |items|
  {
    hide Place;
    var n := |items| - 1;
    var init, x := items[..n], items[n];
    assert items == init + [x];
    PlaceStep(init, x, gp);
    if k == n {
      assert items[k := Item(x.cls, w)] == init + [Item(x.cls, w)];
      PlaceStep(init, Item(x.cls, w), gp);
    } else {
      var init' := init[k := Item(items[k].cls, w)];
      assert items[k := Item(items[k].cls, w)] == init' + [x];
      assert init[..k] == items[..k];
      PlaceUpdate(init, k, w, gp);
      PlaceStep(init', x, gp);
      PlacedBefore(init, k, gp);
      AppendUpdates(Place(init, gp), CursorOf(Place(items[..k], gp)), items[k].cls, w, x, gp);
    }
  }

  /** The k-th word is inside its area once it has been placed. */
  lemma {:induction false} PlacedBefore(items: seq<Item>, k: nat, gp: nat)
    requires k < |items|
    ensures var c, p := CursorOf(Place(items[..k], gp)), Place(items, gp);
            if items[k].cls == INTEGER && c.ints < gp then c.ints < |p.ints|
            else if items[k].cls == SSE && c.floats < FLOAT_REGS then c.floats < |p.floats|
            else c.stack < |p.stack|
  {
    hide Place;
    PlaceStep(items[..k], items[k], gp);
    PlaceGrows(items[..k] + [items[k]], items[k + 1..], gp);
    assert items == (items[..k] + [items[k]]) + items[k + 1..];
  }

  /** One more word, as PlaceStep has it. */
  function Appended(p: Placed, x: Item, gp: nat): Placed {
    if x.cls == INTEGER && |p.ints| < gp then p.(ints := p.ints + [x.word])
    else if x.cls == SSE && |p.floats| < FLOAT_REGS then p.(floats := p.floats + [x.word])
    else p.(stack := p.stack + [x.word])
  }

  lemma {:induction false} AppendUpdates(p: Placed, c: Cursor, cls: Class, w: Word, x: Item, gp: nat)
    requires if cls == INTEGER && c.ints < gp then c.ints < |p.ints|
             else if cls == SSE && c.floats < FLOAT_REGS then c.floats < |p.floats|
             else c.stack < |p.stack|
    ensures Appended(Overwrite(p, c, cls, w, gp), x, gp) == Overwrite(Appended(p, x, gp), c, cls, w, gp)
  {
  }
}
