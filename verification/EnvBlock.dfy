/** Environment and argument blocks: scanning them, and rebuilding them for the re-exec. */
module EnvBlock {
  import opened BridgeText
  import opened Tags

  const PTR_ARR_CAP: nat := 4096

  function From(block: string, off: nat): string {
    if off <= |block| then block[off..] else ""
  }

  /** The NUL-delimited entries of a block; a last one without its NUL counts. */
  function Entries(block: string): (es: seq<string>)
    decreases |block|
  {
    if block == "" then [] else [CText(block)] + Entries(From(block, |CText(block)| + 1))
  }

  /** The block the kernel makes of a list of strings. */
  function Join(es: seq<string>): string {
    if es == [] then "" else es[0] + [NUL] + Join(es[1..])
  }

  predicate AllNoNul(es: seq<string>) {
    forall i :: 0 <= i < |es| ==> NoNul(es[i])
  }

  /** Blocks and lists of strings without NULs are the same thing. */
  lemma {:induction false} EntriesOfJoin(es: seq<string>)
    requires AllNoNul(es)
    ensures Entries(Join(es)) == es
  {
    if es != [] {
      var rest := [NUL] + Join(es[1..]);
      assert Join(es) == es[0] + rest;
      CTextIs(es[0], rest);
      assert From(Join(es), |es[0]| + 1) == Join(es[1..]);
      EntriesOfJoin(es[1..]);
    }
  }

  lemma {:induction false} EntriesHaveNoNul(block: string)
    ensures AllNoNul(Entries(block))
    decreases |block|
  {
    if block != "" { EntriesHaveNoNul(From(block, |CText(block)| + 1)); }
  }

  /** Bytes read into a buffer, and the memory that follows them. */
  datatype Read = Read(block: string, after: string)

  /** There is a NUL somewhere behind the buffer. */
  predicate Ends(r: Read) {
    |CText(r.after)| < |r.after|
  }

  /** The C string that starts at off in the buffer. Without a NUL in the buffer it runs on behind it. */
  function TextFrom(r: Read, off: nat): string
    requires off <= |r.block|
  {
    CText(r.block[off..] + r.after)
  }

  /** The C strings that start where the entries do. */
  function Strings(r: Read): (ss: seq<string>)
    ensures |ss| == |Entries(r.block)|
    decreases |r.block|
  {
    if r.block == "" then [] else [TextFrom(r, 0)] + Strings(r.(block := From(r.block, |CText(r.block)| + 1)))
  }

  lemma {:induction false} CTextTwice(t: string, after: string)
    requires NoNul(t)
    ensures CText(t + after) == t + CText(after)
  {
    if t == "" {
      assert t + after == after;
    } else {
      assert (t + after)[1..] == t[1..] + after;
      CTextTwice(t[1..], after);
    }
  }

  /** Only an entry that ends with the buffer runs on. */
  lemma {:induction false} TextIs(r: Read, off: nat)
    requires off <= |r.block|
    ensures var e := CText(r.block[off..]);
            TextFrom(r, off) == if off + |e| < |r.block| then e else e + CText(r.after)
  {
    hide CText;
    var s := r.block[off..];
    var e := CText(s);
    assert s == e + s[|e|..];
    if |e| < |s| {
      assert s[|e|] == NUL;
      assert s + r.after == e + (s[|e|..] + r.after);
      CTextIs(e, s[|e|..] + r.after);
    } else {
      assert s == e;
      CTextTwice(e, r.after);
    }
  }

  /** Those from off on. */
  function StringsFrom(r: Read, off: nat): seq<string> {
    Strings(r.(block := From(r.block, off)))
  }

  lemma {:induction false} StringsStep(r: Read, off: nat)
    requires off < |r.block|
    ensures StringsFrom(r, off) == [TextFrom(r, off)] + StringsFrom(r, off + |CText(r.block[off..])| + 1)
  {
    hide CText, Strings, TextFrom, From;
    var s := r.block[off..];
    StringsUnfold(r.(block := s));
    TextShift(r, off);
    FromFrom(r.block, off, |CText(s)| + 1);
  }

  lemma {:induction false} FromFrom(block: string, off: nat, n: nat)
    requires off <= |block|
    ensures From(block, off) == block[off..] && From(block[off..], n) == From(block, off + n)
  {
  }

  lemma {:induction false} TextShift(r: Read, off: nat)
    requires off <= |r.block|
    ensures TextFrom(r.(block := r.block[off..]), 0) == TextFrom(r, off)
  {
    hide CText;
    assert r.block[off..][0..] == r.block[off..];
  }

  lemma {:induction false} StringsUnfold(r: Read)
    requires r.block != ""
    ensures Strings(r) == [TextFrom(r, 0)] + StringsFrom(r, |CText(r.block)| + 1)
  {
    hide CText, TextFrom;
  }

  lemma {:induction false} StringsEnds(r: Read, off: nat)
    ensures StringsFrom(r, 0) == Strings(r) && (off >= |r.block| ==> StringsFrom(r, off) == [])
  {
    assert From(r.block, 0) == r.block;
    if off >= |r.block| { assert From(r.block, off) == ""; }
  }

  /** What the last record of key for pid names: seen in the entries, read from the strings. */
  function LastSeen(es: seq<string>, ss: seq<string>, key: string, pid: nat): Option<string>
    requires |es| == |ss|
  {
    if es == [] then None
    else
      var n := |es| - 1;
      match TagValue(es[n], key, pid)
      case Some(v) => Some(if v <= |ss[n]| then ss[n][v..] else "")
      case None => LastSeen(es[..n], ss[..n], key, pid)
  }

  lemma {:induction false} LastSeenStep(es: seq<string>, ss: seq<string>, e: string, s: string, key: string, pid: nat)
    requires |es| == |ss|
    ensures LastSeen(es + [e], ss + [s], key, pid) ==
            match TagValue(e, key, pid)
            case Some(v) => Some(if v <= |s| then s[v..] else "")
            case None => LastSeen(es, ss, key, pid)
  {
    hide TagValue;
    assert (es + [e])[..|es|] == es && (ss + [s])[..|ss|] == ss;
  }

  /** Entries that end in the buffer are their own strings. */
  lemma {:induction false} LastSeenSame(es: seq<string>, key: string, pid: nat)
    ensures LastSeen(es, es, key, pid) == LastTagged(es, key, pid)
  {
    hide TagValue;
    if es != [] { LastSeenSame(es[..|es| - 1], key, pid); }
  }

  /** What stands at off: the entry, and whatever follows it. */
  lemma {:induction false} EntryAt(block: string, off: nat)
    requires off < |block|
    ensures var e := CText(block[off..]);
            && NoNul(e) && off + |e| <= |block|
            && block[off..] == e + block[off + |e|..]
            && (off + |e| < |block| ==> block[off + |e|] == NUL)
            && Entries(block[off..]) == [e] + Entries(From(block, off + |e| + 1))
  {
    hide CText;
    var e := CText(block[off..]);
    assert From(block[off..], |e| + 1) == From(block, off + |e| + 1);
  }

  /** The scanners' inner loop: past the NUL that ends this entry. */
  method SkipEntry(block: string, off: nat) returns (next: nat)
    requires off < |block|
    ensures next == off + |CText(block[off..])| + 1
  {
    hide CText, Entries;
    EntryAt(block, off);
    ghost var e := CText(block[off..]);
    assert forall j :: 0 <= j < |e| ==> block[off + j] == block[off..][j] == e[j] != NUL;
    next := off;
    while next < |block| && block[next] != NUL
      invariant off <= next <= off + |e|
      invariant forall j :: off <= j < off + |e| ==> block[j] != NUL
    {
      next := next + 1;
    }
    next := next + 1;
  }

  /** The value of the last record of key for pid. */
  function LastTagged(es: seq<string>, key: string, pid: nat): Option<string> {
    if es == [] then None
    else
      var e := es[|es| - 1];
      match TagValue(e, key, pid)
      case Some(v) => Some(if v <= |e| then e[v..] else "")
      case None => LastTagged(es[..|es| - 1], key, pid)
  }

  lemma {:induction false} LastTaggedStep(es: seq<string>, e: string, key: string, pid: nat)
    ensures LastTagged(es + [e], key, pid) ==
            match TagValue(e, key, pid)
            case Some(v) => Some(if v <= |e| then e[v..] else "")
            case None => LastTagged(es, key, pid)
  {
    hide TagValue;
    assert (es + [e])[..|es|] == es;
  }

  /** taggedAt at an entry's start is a question about that entry alone. */
  lemma {:induction false} TagAtEntry(block: string, off: nat, key: string, pid: nat)
    requires off < |block| && IsKey(key)
    ensures TagValue(block[off..], key, pid) == TagValue(CText(block[off..]), key, pid)
  {
    hide CText, TagValue, Entries;
    EntryAt(block, off);
    var e := CText(block[off..]);
    KeyHasNoNul(key);
    TagInEntry(e, block[off + |e|..], key, pid);
  }

  lemma {:induction false} KeyHasNoNul(key: string)
    requires IsKey(key)
    ensures NoNul(key)
  {
    KeysAreDistinct(key, key, key);
  }

  /** The end of an entry's string starts as far into the entry. */
  lemma {:induction false} TextSuffix(r: Read, off: nat, v: nat)
    requires off < |r.block| && v <= |CText(r.block[off..])|
    ensures off + v <= |r.block| && v <= |TextFrom(r, off)| && TextFrom(r, off + v) == TextFrom(r, off)[v..]
  {
    hide CText, Entries, TextFrom, NoNul;
    EntryAt(r.block, off);
    var e := CText(r.block[off..]);
    SuffixInBlock(r.block, off, e, v);
    TextIs(r, off);
    TextIs(r, off + v);
    assert (e + CText(r.after))[v..] == e[v..] + CText(r.after);
  }

  /** A value found in the block is the rest of its entry's string. */
  lemma {:induction false} ValueInBlock(r: Read, off: nat, key: string, pid: nat)
    requires off < |r.block| && IsKey(key) && TagValue(r.block[off..], key, pid) != None
    ensures var v, t := TagValue(r.block[off..], key, pid).value, TextFrom(r, off);
            v <= |t| && off + v <= |r.block| && TextFrom(r, off + v) == t[v..]
  {
    hide CText, TagValue, Entries, IsKey, NoNul, TextFrom;
    TagAtEntry(r.block, off, key, pid);
    TagValueInside(CText(r.block[off..]), key, pid);
    TextSuffix(r, off, TagValue(r.block[off..], key, pid).value);
  }

  lemma {:induction false} SuffixInBlock(block: string, off: nat, e: string, v: nat)
    requires off + |e| <= |block| && NoNul(e) && v <= |e| && block[off..] == e + block[off + |e|..]
    requires off + |e| < |block| ==> block[off + |e|] == NUL
    ensures CText(block[off + v..]) == e[v..]
  {
    hide CText;
    assert block[off + v..] == block[off..][v..] == e[v..] + block[off + |e|..];
    CTextIs(e[v..], block[off + |e|..]);
  }

  lemma {:induction false} TagValueInside(e: string, key: string, pid: nat)
    requires TagValue(e, key, pid) != None
    ensures TagValue(e, key, pid).value <= |e|
  {
  }

  /** The bridge's one pass over its own environment: its guard, its parent's probe variable, and where
      the parent's recorded executable starts. after is whatever memory follows the buffer. */
  method ScanTags(block: string, ghost after: string, pid: nat, ppid: nat)
    returns (guarded: bool, probing: bool, parentExe: int)
    ensures guarded <==> LastTagged(Entries(block), GUARD_KEY, pid) != None
    ensures probing <==> LastTagged(Entries(block), PROBE_KEY, ppid) != None
    ensures match LastSeen(Entries(block), Strings(Read(block, after)), EXE_KEY, ppid)
            case None => parentExe == -1
            case Some(path) => 0 <= parentExe <= |block| && TextFrom(Read(block, after), parentExe) == path
  {
    hide CText, TagValue, Entries, LastTagged, LastSeen, Strings, StringsFrom, TextFrom, ExeFound;
    guarded, probing, parentExe := false, false, -1;
    ghost var r := Read(block, after);
    ghost var seen: seq<string>, texts: seq<string> := [], [];
    var off := 0;
    NothingSeen(r, pid, ppid);
    while off < |block|
      invariant |seen| == |texts| && seen + Entries(From(block, off)) == Entries(block)
      invariant texts + StringsFrom(r, off) == Strings(r)
      invariant guarded <==> LastTagged(seen, GUARD_KEY, pid) != None
      invariant probing <==> LastTagged(seen, PROBE_KEY, ppid) != None
      invariant ExeFound(r, seen, texts, ppid, parentExe)
    {
      ghost var e, t := CText(block[off..]), TextFrom(r, off);
      EntryAt(block, off);
      StringsStep(r, off);
      OneEntry(r, off, seen, texts, pid, ppid, parentExe);
      var g := TaggedAt(block, off, GUARD_KEY, pid);
      if g >= 0 { guarded := true; }
      var p := TaggedAt(block, off, PROBE_KEY, ppid);
      if p >= 0 { probing := true; }
      var v := TaggedAt(block, off, EXE_KEY, ppid);
      if v >= 0 { parentExe := v; }
      off := SkipEntry(block, off);
      seen, texts := seen + [e], texts + [t];
    }
    assert From(block, off) == "";
    NoEntries(after);
    StringsEnds(r, off);
    assert seen + [] == seen && texts + [] == texts;
    ExeFoundIs(r, seen, texts, ppid, parentExe);
  }

  ghost predicate ExeFound(r: Read, seen: seq<string>, texts: seq<string>, ppid: nat, parentExe: int)
    requires |seen| == |texts|
  {
    match LastSeen(seen, texts, EXE_KEY, ppid)
    case None => parentExe == -1
    case Some(path) => 0 <= parentExe <= |r.block| && TextFrom(r, parentExe) == path
  }

  lemma {:induction false} ExeFoundIs(r: Read, seen: seq<string>, texts: seq<string>, ppid: nat, parentExe: int)
    requires |seen| == |texts| && ExeFound(r, seen, texts, ppid, parentExe)
    ensures match LastSeen(seen, texts, EXE_KEY, ppid)
            case None => parentExe == -1
            case Some(path) => 0 <= parentExe <= |r.block| && TextFrom(r, parentExe) == path
  {
    hide LastSeen, TextFrom;
  }

  lemma {:induction false} NothingSeen(r: Read, pid: nat, ppid: nat)
    ensures [] + Entries(From(r.block, 0)) == Entries(r.block) && [] + StringsFrom(r, 0) == Strings(r)
    ensures LastTagged([], GUARD_KEY, pid) == None && LastTagged([], PROBE_KEY, ppid) == None
    ensures ExeFound(r, [], [], ppid, -1)
  {
    assert From(r.block, 0) == r.block;
  }

  lemma {:induction false} NoEntries(after: string)
    ensures Entries("") == [] && Strings(Read("", after)) == []
  {
  }

  lemma {:induction false} OneEntry(r: Read, off: nat, seen: seq<string>, texts: seq<string>, pid: nat, ppid: nat,
      parentExe: int)
    requires off < |r.block| && |seen| == |texts| && ExeFound(r, seen, texts, ppid, parentExe)
    ensures var e, t, s := CText(r.block[off..]), TextFrom(r, off), r.block[off..]; var all := seen + [e];
            && (LastTagged(all, GUARD_KEY, pid) != None <==>
                TagValue(s, GUARD_KEY, pid) != None || LastTagged(seen, GUARD_KEY, pid) != None)
            && (LastTagged(all, PROBE_KEY, ppid) != None <==>
                TagValue(s, PROBE_KEY, ppid) != None || LastTagged(seen, PROBE_KEY, ppid) != None)
            && ExeFound(r, all, texts + [t], ppid,
                        match TagValue(s, EXE_KEY, ppid) case None => parentExe case Some(v) => off + v)
  {
    hide CText, TagValue, Entries, LastTagged, LastSeen, TextFrom;
    var e, t := CText(r.block[off..]), TextFrom(r, off);
    TagAtEntry(r.block, off, GUARD_KEY, pid);
    TagAtEntry(r.block, off, PROBE_KEY, ppid);
    TagAtEntry(r.block, off, EXE_KEY, ppid);
    LastTaggedStep(seen, e, GUARD_KEY, pid);
    LastTaggedStep(seen, e, PROBE_KEY, ppid);
    LastSeenStep(seen, texts, e, t, EXE_KEY, ppid);
    if TagValue(r.block[off..], EXE_KEY, ppid) != None { ValueInBlock(r, off, EXE_KEY, ppid); }
  }
}
