/** The amd64 call direction: the words of a call, in the order they are placed. */
module Amd64Args {
  import opened Words
  import opened Types
  import opened Placement
  import opened Amd64Classify

  const MAX_TOTAL_ARGS: nat := 15
  const GP_REGS: nat := 6
  const STACK_SLOTS: nat := MAX_TOTAL_ARGS - GP_REGS

  predicate Readable(t: Desc, a: Arg) {
    forall p :: p in Parts(t) && p.Part? ==> p.width <= 8 && p.off + p.width <= |a.mem|
  }

  function ItemOf(p: Part, a: Arg): Item
    requires p.Part? ==> p.width <= 8 && p.off + p.width <= |a.mem|
  {
    if p.Part? then Item(p.cls, Load(a.mem[p.off..p.off + p.width])) else Item(INTEGER, a.address)
  }

  /** The words of one argument, in the order they are placed. */
  function ArgItems(t: Desc, a: Arg): (items: seq<Item>)
    requires Readable(t, a)
    ensures |items| == |Parts(t)|
  {
    var ps := Parts(t);
    seq(|ps|, i requires 0 <= i < |ps| => ItemOf(ps[i], a))
  }

  lemma {:induction false} ItemAt(t: Desc, a: Arg, k: nat)
    requires Readable(t, a) && k < |Parts(t)|
    ensures var p := Parts(t)[k]; p.Part? ==> p.width <= 8 && p.off + p.width <= |a.mem|
    ensures ArgItems(t, a)[k] == ItemOf(Parts(t)[k], a)
  {
    hide Parts;
    assert Parts(t)[k] in Parts(t);
  }

  lemma {:induction false} ArgItemsClasses(t: Desc, a: Arg)
    requires Readable(t, a)
    ensures Classes(ArgItems(t, a)) == ClassesOf(t)
  {
  }

  predicate AllReadable(ts: seq<Desc>, avalue: seq<Arg>) {
    forall i :: 0 <= i < |ts| && i < |avalue| ==> Readable(ts[i], avalue[i])
  }

  lemma {:induction false} ReadableAt(ts: seq<Desc>, avalue: seq<Arg>, i: nat)
    requires AllReadable(ts, avalue) && i < |ts| && i < |avalue|
    ensures Readable(ts[i], avalue[i])
  {
    hide Readable;
  }

  /** The words of the first n arguments. */
  function ArgsItems(ts: seq<Desc>, avalue: seq<Arg>, n: nat): seq<Item>
    requires n <= |ts| && n <= |avalue| && AllReadable(ts, avalue)
  {
    if n == 0 then [] else ArgsItems(ts, avalue, n - 1) + ArgItems(ts[n - 1], avalue[n - 1])
  }

  lemma {:induction false} NoArgs(ts: seq<Desc>, avalue: seq<Arg>)
    requires AllReadable(ts, avalue)
    ensures ArgsItems(ts, avalue, 0) == []
  {
  }

  lemma {:induction false} ArgsStep(ts: seq<Desc>, avalue: seq<Arg>, n: nat)
    requires 0 < n <= |ts| && n <= |avalue| && AllReadable(ts, avalue) && Readable(ts[n - 1], avalue[n - 1])
    ensures ArgsItems(ts, avalue, n) == ArgsItems(ts, avalue, n - 1) + ArgItems(ts[n - 1], avalue[n - 1])
  {
    hide Readable, ArgItems;
  }

  function Min(a: nat, b: nat): nat {
    if a < b then a else b
  }

  predicate ViaHiddenPointer(ret: Desc) {
    ret.kind == StructType && ret.size > 16
  }

  /** Every word of a call: the hidden result pointer, then the arguments that have a value. */
  function CallItems(ret: Desc, rvalue: Word, ts: seq<Desc>, avalue: seq<Arg>): seq<Item>
    requires AllReadable(ts, avalue)
  {
    (if ViaHiddenPointer(ret) then [Item(INTEGER, rvalue)] else [])
    + ArgsItems(ts, avalue, Min(|ts|, |avalue|))
  }
}
