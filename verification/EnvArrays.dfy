/** The pointer arrays passed to execve, built in place. */
module EnvArrays {
  import opened BridgeText
  import opened Tags
  import opened Staging
  import opened EnvBlock
  import opened EnvSight
  import opened EnvRebuild

  /** p points at the C string t: outside the staging buffer, or at one of the strings staged there. */
  ghost predicate Points(p: Ptr, t: string, texts: seq<string>) {
    match p
    case Null => false
    case Outside(mem) => |CText(mem)| < |mem| && CText(mem) == t
    case Staged(at) => NoNul(t) && exists j :: 0 <= j < |texts| && texts[j] == t && at == |Flat(texts[..j])|
  }

  /** Staging more strings moves no pointer. */
  lemma {:induction false} PointsStill(p: Ptr, t: string, texts: seq<string>, more: seq<string>)
    requires Points(p, t, texts) && texts <= more
    ensures Points(p, t, more)
  {
    hide CText, Flat;
    if p.Staged? {
      var j :| 0 <= j < |texts| && texts[j] == t && p.at == |Flat(texts[..j])|;
      assert more[..j] == texts[..j];
    }
  }

  /** What the callee of execve reads through such a pointer. */
  lemma {:induction false} PointsReads(b: Buffer, p: Ptr, t: string)
    requires b.Valid() && Points(p, t, b.texts)
    ensures b.Terminated(p) && b.TextAt(p) == t
  {
    hide CText, Flat;
    if p.Staged? {
      var j :| 0 <= j < |b.texts| && b.texts[j] == t && p.at == |Flat(b.texts[..j])|;
      b.StagedText(j);
    }
  }

  /** A string just staged. */
  lemma {:induction false} PointsStaged(texts: seq<string>, t: string)
    requires NoNul(t)
    ensures Points(Staged(|Flat(texts)|), t, texts + [t])
  {
    hide Flat;
    assert (texts + [t])[..|texts|] == texts && (texts + [t])[|texts|] == t;
  }

  /** A pointer array and the index of its next free cell. */
  class PtrArray {
    const cells: array<Ptr>
    var n: nat
    /** The strings pointed at. */
    ghost var strings: seq<string>

    /** The first n cells point at the strings, all others are NULL, and one NULL is left. */
    ghost predicate Valid(texts: seq<string>)
      reads this, cells
    {
      && n == |strings| < cells.Length == PTR_ARR_CAP
      && (forall k :: 0 <= k < n ==> Points(cells[k], strings[k], texts))
      && (forall k :: n <= k < cells.Length ==> cells[k] == Null)
    }

    constructor ()
      ensures Valid([]) && strings == [] && fresh(cells)
    {
      cells := new Ptr[PTR_ARR_CAP](_ => Null);
      n, strings := 0, [];
    }

    lemma {:induction false} StillValid(texts: seq<string>, more: seq<string>)
      requires Valid(texts) && texts <= more
      ensures Valid(more)
    {
      forall k | 0 <= k < n ensures Points(cells[k], strings[k], more) {
        PointsStill(cells[k], strings[k], texts, more);
      }
    }

    /** setPtr at the next free index. */
    method Append(p: Ptr, ghost t: string, ghost texts: seq<string>)
      requires Valid(texts) && Points(p, t, texts) && n + 1 < PTR_ARR_CAP
      modifies this, cells
      ensures Valid(texts) && strings == old(strings) + [t] && n == old(n) + 1
    {
      hide Points;
      cells[n] := p;
      n := n + 1;
      strings := strings + [t];
    }
  }

  lemma {:induction false} TaggedNoNul(key: string, pid: nat, val: string)
    requires IsKey(key) && NoNul(val)
    ensures NoNul(Tagged(key, pid, val))
  {
    hide Decimal;
    KeyHasNoNul(key);
    DigitsHaveNoNul(Decimal(pid));
  }

  /** A pointer into a buffer and what follows it. */
  function BlockPtr(r: Read, off: nat): Ptr
    requires off <= |r.block|
  {
    Outside(r.block[off..] + r.after)
  }

  lemma {:induction false} BlockPtrPoints(r: Read, off: nat, texts: seq<string>)
    requires off <= |r.block| && Ends(r)
    ensures Points(BlockPtr(r, off), TextFrom(r, off), texts)
  {
    hide CText;
    var e := CText(r.block[off..]);
    TextIs(r, off);
  }

  /** matchAt at the start of an entry. */
  method KeyAt(block: string, off: nat, key: string) returns (r: bool)
    requires off < |block| && IsKey(key)
    ensures r <==> key <= CText(block[off..])
  {
    hide CText, Entries, IsKey;
    EntryAt(block, off);
    ghost var e := CText(block[off..]);
    KeyHasNoNul(key);
    NoCrossing(e, block[off + |e|..], key);
    r := MatchAt(block, off, key);
  }

  /** isBridgeVar at the start of an entry. */
  method IsBridgeVarAt(block: string, off: nat) returns (r: bool)
    requires off < |block|
    ensures r <==> IsBridgeVar(CText(block[off..]))
  {
    hide CText;
    r := KeyAt(block, off, GUARD_KEY);
    if !r { r := KeyAt(block, off, PROBE_KEY); }
    if !r { r := KeyAt(block, off, EXE_KEY); }
    if !r { r := KeyAt(block, off, ARGV0_KEY); }
  }

  lemma {:induction false} NonBridgeStep(es: seq<string>, e: string)
    ensures NonBridge(es + [e]) == NonBridge(es) + (if IsBridgeVar(e) then [] else [e])
  {
    hide IsBridgeVar;
    assert (es + [e])[..|es|] == es;
  }

  lemma {:induction false} KeptPrefix(seen: seq<string>, rest: seq<string>)
    requires |NonBridge(seen)| <= ENV_ROOM && (rest == [] || |NonBridge(seen)| == ENV_ROOM)
    ensures Kept(seen + rest) == NonBridge(seen)
  {
    hide NonBridge;
    NonBridgeAppend(seen, rest);
    if rest == [] { assert seen + rest == seen; }
  }

  /** What an entry's string says about being a bridge variable, the entry says. */
  lemma {:induction false} SameVerdict(r: Read, off: nat)
    requires TailFits(r) && off < |r.block| && (off == 0 || r.block[off - 1] == NUL)
    ensures IsBridgeVar(TextFrom(r, off)) <==> IsBridgeVar(CText(r.block[off..]))
  {
    hide CText, TextFrom;
    TextIs(r, off);
  }

  lemma {:induction false} NextStarts(block: string, off: nat)
    requires off < |block|
    ensures var next := off + |CText(block[off..])| + 1; next < |block| ==> block[next - 1] == NUL
  {
    hide CText, Entries;
    EntryAt(block, off);
  }

  /** One entry of the copy loop. */
  method CopyEntry(env: Read, off: nat, envp: PtrArray, ghost texts: seq<string>, ghost seen: seq<string>)
    returns (next: nat, ghost seen': seq<string>)
    requires Ends(env) && TailFits(env) && off < |env.block| && (off == 0 || env.block[off - 1] == NUL)
    requires envp.Valid(texts) && envp.strings == NonBridge(seen) && envp.n < ENV_ROOM
    modifies envp, envp.cells
    ensures envp.Valid(texts) && envp.strings == NonBridge(seen') && envp.n <= ENV_ROOM
    ensures off < next && (next < |env.block| ==> env.block[next - 1] == NUL)
    ensures seen + StringsFrom(env, off) == seen' + StringsFrom(env, next)
  {
    hide CText, StringsFrom, NonBridge, IsBridgeVar, Points, TextFrom, TailFits, Ends;
    ghost var t := TextFrom(env, off);
    StringsStep(env, off);
    NonBridgeStep(seen, t);
    SameVerdict(env, off);
    NextStarts(env.block, off);
    var bridge := IsBridgeVarAt(env.block, off);
    if !bridge {
      BlockPtrPoints(env, off, texts);
      envp.Append(BlockPtr(env, off), t, texts);
    }
    next := SkipEntry(env.block, off);
    seen' := seen + [t];
    assert seen + ([t] + StringsFrom(env, next)) == seen' + StringsFrom(env, next);
  }

  /** The copy loop: everything that is not the bridge's own, in order, as far as there is room. */
  method CopyEnv(env: Read, envp: PtrArray, ghost texts: seq<string>)
    requires Ends(env) && TailFits(env) && envp.Valid(texts) && envp.strings == []
    modifies envp, envp.cells
    ensures envp.Valid(texts) && envp.strings == Kept(Strings(env))
  {
    hide Strings, StringsFrom, NonBridge, Points, Kept, TailFits, Ends;
    ghost var seen: seq<string> := [];
    var off := 0;
    StringsEnds(env, 0);
    assert [] + Strings(env) == Strings(env);
    NonBridgeOfNone();
    while off < |env.block| && envp.n < ENV_ROOM
      invariant off == 0 || off >= |env.block| || env.block[off - 1] == NUL
      invariant seen + StringsFrom(env, off) == Strings(env)
      invariant envp.Valid(texts) && envp.strings == NonBridge(seen) && envp.n <= ENV_ROOM
    {
      off, seen := CopyEntry(env, off, envp, texts, seen);
    }
    StringsEnds(env, off);
    KeptPrefix(seen, StringsFrom(env, off));
  }

  /** taggedEnv and, unless it failed, setPtr. */
  method AppendRecord(b: Buffer, envp: PtrArray, key: string, pid: nat, val: Ptr) returns (ok: bool)
    requires b.Valid() && envp.Valid(b.texts) && b.Terminated(val) && val != Null && pid < WORD && IsKey(key)
    requires envp.n + 1 < PTR_ARR_CAP
    modifies b, b.buf, envp, envp.cells
    ensures b.Valid() && envp.Valid(b.texts) && old(b.texts) <= b.texts
    ensures ok == Room(old(b.off), Tagged(key, pid, old(b.TextAt(val))))
    ensures envp.strings == old(envp.strings) + OneIf(ok, Tagged(key, pid, old(b.TextAt(val))))
    ensures b.off == old(b.off) + if ok then |Tagged(key, pid, old(b.TextAt(val)))| + 1 else 0
  {
    hide CText, Flat, Points, Decimal;
    ghost var before, t := b.texts, Tagged(key, pid, b.TextAt(val));
    TaggedNoNul(key, pid, b.TextAt(val));
    ghost var start := b.off;
    assert |Flat(before)| == start;
    var p := b.TaggedEnv(key, pid, val);
    ok := p != Null;
    if ok {
      PointsStaged(before, t);
      envp.StillValid(before, b.texts);
      envp.Append(p, t, b.texts);
      FlatStep(before, t);
    }
  }

  ghost function ExeOf(b: Buffer, realExe: Ptr): Option<string>
    requires b.Terminated(realExe)
    reads b, b.buf
  {
    if realExe == Null then None else Some(b.TextAt(realExe))
  }

  /** The name the program was invoked by, if its command line has one. */
  function Argv0Of(cmd: Read): Option<string> {
    if |cmd.block| > 0 && cmd.block[0] != NUL then Some(TextFrom(cmd, 0)) else None
  }

  lemma {:induction false} CmdTerminated(cmd: Read)
    requires Ends(cmd)
    ensures |CText(BlockPtr(cmd, 0).mem)| < |BlockPtr(cmd, 0).mem| && CText(BlockPtr(cmd, 0).mem) == TextFrom(cmd, 0)
  {
    hide CText;
    BlockPtrPoints(cmd, 0, []);
  }

  /** cstr("1"), then the guard; both fit, and what realExe points at is not disturbed. */
  method StageGuard(b: Buffer, envp: PtrArray, pid: nat, ghost realExe: Ptr)
    requires b.Valid() && envp.Valid(b.texts) && envp.n <= ENV_ROOM && pid < WORD
    requires !realExe.Staged? && b.Terminated(realExe) && AfterGuard(b.off, pid) <= STR_BUF_CAP
    modifies b, b.buf, envp, envp.cells
    ensures b.Valid() && envp.Valid(b.texts) && old(b.texts) <= b.texts && b.off == AfterGuard(old(b.off), pid)
    ensures envp.strings == old(envp.strings) + [GuardOf(pid)]
    ensures b.Terminated(realExe) && ExeOf(b, realExe) == old(ExeOf(b, realExe))
  {
    hide CText, Flat, Points, Decimal;
    ghost var before := b.texts;
    assert |Flat(before)| == b.off;
    FlatStep(before, "1");
    var one := b.Cstr("1");
    assert b.texts[|before|] == "1" && |Flat(b.texts)| == b.off;
    envp.StillValid(before, b.texts);
    b.StagedText(|before|);
    assert b.texts[..|before|] == before;
    var ok := AppendRecord(b, envp, GUARD_KEY, pid, one);
  }

  /** The executable's record, if there is a path. */
  method AddExe(b: Buffer, envp: PtrArray, pid: nat, realExe: Ptr, ghost off: nat, ghost kept: seq<string>)
    requires b.Valid() && envp.Valid(b.texts) && envp.n <= ENV_ROOM + 1 && pid < WORD && b.off == AfterGuard(off, pid)
    requires b.Terminated(realExe) && envp.strings == kept
    modifies b, b.buf, envp, envp.cells
    ensures b.Valid() && envp.Valid(b.texts) && old(b.texts) <= b.texts
    ensures envp.strings == kept + ExeRecord(off, pid, old(ExeOf(b, realExe)))
    ensures b.off == AfterExe(off, pid, old(ExeOf(b, realExe)))
  {
    hide CText, Flat, Points, Decimal, Tagged;
    if realExe != Null {
      var x := AppendRecord(b, envp, EXE_KEY, pid, realExe);
    } else {
      assert kept + [] == kept;
    }
  }

  /** The record of the invocation name, if there is one and room in the array. */
  method AddArgv0(b: Buffer, envp: PtrArray, pid: nat, cmd: Read, ghost off: nat, ghost exe: Option<string>,
      ghost before: seq<string>)
    requires b.Valid() && envp.Valid(b.texts) && pid < WORD && Ends(cmd)
    requires b.off == AfterExe(off, pid, exe) && envp.strings == before
    modifies b, b.buf, envp, envp.cells
    ensures b.Valid() && envp.Valid(b.texts) && old(b.texts) <= b.texts
    ensures envp.strings == before + Argv0Record(off, pid, exe, Argv0Of(cmd), |before|)
  {
    hide CText, Flat, Points, Decimal, Tagged, AfterExe, TextFrom;
    if |cmd.block| > 0 && cmd.block[0] != NUL && envp.n < PTR_ARR_CAP - 2 {
      CmdTerminated(cmd);
      var y := AppendRecord(b, envp, ARGV0_KEY, pid, BlockPtr(cmd, 0));
    } else {
      assert before + [] == before;
    }
  }

  /** The environment of the re-exec: the copied entries, the guard (whose value is staged first), and
      the two records where there is something to record. */
  method BuildEnvp(b: Buffer, env: Read, pid: nat, realExe: Ptr, cmd: Read) returns (envp: PtrArray)
    requires Ends(env) && TailFits(env) && Ends(cmd)
    requires b.Valid() && !realExe.Staged? && b.Terminated(realExe) && pid < WORD
    requires AfterGuard(b.off, pid) <= STR_BUF_CAP
    modifies b, b.buf
    ensures b.Valid() && old(b.texts) <= b.texts && fresh(envp) && fresh(envp.cells) && envp.Valid(b.texts)
    ensures envp.strings == RebuiltEnv(Strings(env), old(b.off), pid, old(ExeOf(b, realExe)), Argv0Of(cmd))
  {
    hide CText, Strings, Flat, Points, Decimal, NonBridge, Kept, ExeRecord, Argv0Record, AfterExe, GuardOf, Argv0Of;
    hide TailFits, Ends;
    ghost var off, exe := b.off, ExeOf(b, realExe);
    ghost var kept := Kept(Strings(env));
    envp := new PtrArray();
    envp.StillValid([], b.texts);
    CopyEnv(env, envp, b.texts);
    StageGuard(b, envp, pid, realExe);
    AddExe(b, envp, pid, realExe, off, kept + [GuardOf(pid)]);
    AddArgv0(b, envp, pid, cmd, off, exe, kept + [GuardOf(pid)] + ExeRecord(off, pid, exe));
  }
}
