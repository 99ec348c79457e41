/** reexecUniversal as the source runs it, against the protocol's decisions. */
module Reexec {
  import opened BridgeText
  import opened Tags
  import opened Staging
  import opened EnvBlock
  import opened EnvSight
  import opened EnvRebuild
  import opened EnvArrays
  import opened EnvLaunch
  import opened BridgePaths
  import P = Protocol

  /** How one pass ends: the probe's exit, a verdict about the libc, or the execve with its arrays, after
      a probe with an environment of its own or without. */
  datatype Outcome = ExitZero | Verdict(libc: bool) | Exec(argv: PtrArray, envp: PtrArray, probe: Option<PtrArray>)

  /** The process the bridge finds itself in, and what it has read. */
  ghost predicate Describes(host: HostTable, x: P.Proc, block: string, ppid: nat, link: Option<string>) {
    && x.phase == P.AtBridge && AllNoNul(x.env) && block == ReadBlock(x.env) && x.parent == ppid
    && (link.Some? ==> link.value == P.LinkText(x.exe, link.value) && P.NameOk(host, x.exe, link.value))
  }

  /** The readlink buffer: the answer and its NUL. */
  method LinkPtr(link: Option<string>) returns (exe: Ptr)
    requires link.Some? ==> NoNul(link.value)
    ensures GoodPath(exe) && PathOf(exe) == link
  {
    exe := Null;
    if link.Some? {
      CTextIs(link.value, [NUL]);
      exe := Outside(link.value + [NUL]);
    }
  }

  /** Whether /proc/self/exe is a host loader. */
  method IsHostLoader(b: Buffer, h: Host, exe: Ptr, link: Option<string>) returns (r: bool)
    requires b.Valid() && GoodPath(exe) && PathOf(exe) == link
    ensures r <==> link.Some? && IsLoaderPath(h.table, link.value)
  {
    hide CText, Base;
    r := SameBase(b, exe, h.table.glibcLoader);
    if !r { r := SameBase(b, exe, h.table.muslLoader); }
  }

  /** The path to record: the readlink answer, unless it names a memfd; then what the parent recorded,
      if anything. */
  method PickRealExe(b: Buffer, env: Read, exe: Ptr, parentExe: int, ghost link: Option<string>,
      ghost recorded: Option<string>)
    returns (realExe: Ptr)
    requires b.Valid() && Ends(env) && GoodPath(exe) && PathOf(exe) == link
    requires match recorded
             case None => parentExe == -1
             case Some(path) => 0 <= parentExe <= |env.block| && TextFrom(env, parentExe) == path
    ensures GoodPath(realExe)
    ensures PathOf(realExe) == if link.Some? && MEMFD_PREFIX <= link.value then recorded else link
  {
    hide CText;
    assert NoNul(MEMFD_PREFIX) by { PrefixHasNoNul(); }
    realExe := exe;
    var memfd := HasPrefixC(b, exe, MEMFD_PREFIX);
    if memfd {
      realExe := Null;
      if parentExe >= 0 {
        BlockPtrPoints(env, parentExe, []);
        realExe := BlockPtr(env, parentExe);
      }
    }
  }

  lemma {:induction false} PrefixHasNoNul()
    ensures NoNul(MEMFD_PREFIX)
  {
  }

  /* ---- the probe ---- */

  const LD_PRELOAD_KEY: string := "LD_PRELOAD="
  const PRELOAD_FILE: string := "/etc/ld.so.preload"

  predicate PreloadVar(e: string) {
    LD_PRELOAD_KEY <= e && |e| > |LD_PRELOAD_KEY|
  }

  predicate AnyPreload(es: seq<string>) {
    exists i :: 0 <= i < |es| && PreloadVar(es[i])
  }

  /** Some entry sets LD_PRELOAD to a text. */
  lemma {:induction false} AnyPreloadIff(es: seq<string>)
    ensures AnyPreload(es) <==> exists libs :: libs != "" && "LD_PRELOAD=" + libs in es
  {
    if AnyPreload(es) {
      var i :| 0 <= i < |es| && PreloadVar(es[i]);
      var libs := es[i][|LD_PRELOAD_KEY|..];
      assert es[i] == "LD_PRELOAD=" + libs && libs != "";
    }
    if exists libs :: libs != "" && "LD_PRELOAD=" + libs in es {
      var libs :| libs != "" && "LD_PRELOAD=" + libs in es;
      var i :| 0 <= i < |es| && es[i] == "LD_PRELOAD=" + libs;
      assert PreloadVar(es[i]);
    }
  }

  lemma {:induction false} AnyPreloadStep(e: string, rest: seq<string>)
    ensures AnyPreload([e] + rest) <==> PreloadVar(e) || AnyPreload(rest)
  {
    hide PreloadVar;
    if PreloadVar(e) { assert PreloadVar(([e] + rest)[0]); }
    if AnyPreload(rest) {
      var i :| 0 <= i < |rest| && PreloadVar(rest[i]);
      assert ([e] + rest)[i + 1] == rest[i];
    }
  }

  /** At an entry's start: LD_PRELOAD with a value that is not empty. */
  method PreloadVarAt(block: string, off: nat) returns (r: bool)
    requires off < |block|
    ensures r <==> PreloadVar(CText(block[off..]))
  {
    hide CText, Entries;
    EntryAt(block, off);
    ghost var e := CText(block[off..]);
    NoCrossing(e, block[off + |e|..], LD_PRELOAD_KEY);
    r := MatchAt(block, off, LD_PRELOAD_KEY);
    if r {
      var v := off + |LD_PRELOAD_KEY|;
      assert v < off + |e| ==> block[v] == block[off..][|LD_PRELOAD_KEY|] == e[|LD_PRELOAD_KEY|];
      r := v < |block| && block[v] != NUL;
    }
  }

  method ScanPreload(block: string) returns (r: bool)
    ensures r <==> AnyPreload(Entries(block))
  {
    hide CText, Entries, PreloadVar, AnyPreload;
    var off := 0;
    assert From(block, 0) == block;
    while off < |block|
      invariant AnyPreload(Entries(block)) <==> AnyPreload(Entries(From(block, off)))
    {
      EntryAt(block, off);
      AnyPreloadStep(CText(block[off..]), Entries(From(block, off + |CText(block[off..])| + 1)));
      var found := PreloadVarAt(block, off);
      if found {
        return true;
      }
      off := SkipEntry(block, off);
    }
    NoEntries("");
    NoPreload();
    return false;
  }

  /** needsPreloadProbe; fileHasText says whether the preload file could be read and is not empty. */
  method NeedsPreloadProbe(b: Buffer, block: string, fileHasText: bool) returns (r: bool)
    requires b.Valid()
    modifies b, b.buf
    ensures b.Valid() && old(b.texts) <= b.texts && old(b.off) <= b.off
    ensures r <==> AnyPreload(Entries(block)) || (fileHasText && Room(old(b.off), PRELOAD_FILE))
  {
    hide Entries, Flat, AnyPreload;
    var found := ScanPreload(block);
    if found {
      return true;
    }
    ghost var texts := b.texts;
    assert |Flat(texts)| == b.off;
    FlatStep(texts, PRELOAD_FILE);
    var pathC := b.Cstr(PRELOAD_FILE);
    assert |Flat(b.texts)| == b.off;
    return pathC != Null && fileHasText;
  }

  lemma {:induction false} NoPreload()
    ensures !AnyPreload([])
  {
  }

  /** The probe variable; nil exactly if it or its value finds no room. */
  method StageProbe(b: Buffer, pid: nat) returns (p: Ptr)
    requires b.Valid() && pid < WORD
    modifies b, b.buf
    ensures b.Valid() && old(b.texts) <= b.texts && old(b.off) <= b.off
    ensures p == Null <==> !(Room(old(b.off), "1") && Room(old(b.off) + 2, P.ProbeRecord(pid)))
    ensures p != Null ==> Points(p, P.ProbeRecord(pid), b.texts)
  {
    hide CText, Flat, Points, Decimal;
    ghost var before := b.texts;
    assert |Flat(before)| == b.off;
    FlatStep(before, "1");
    var one := b.Cstr("1");
    if one == Null {
      return Null;
    }
    ghost var texts := b.texts;
    assert |Flat(texts)| == b.off;
    b.StagedText(|before|);
    assert texts[..|before|] == before;
    TheKeys();
    TaggedNoNul(PROBE_KEY, pid, "1");
    p := b.TaggedEnv(PROBE_KEY, pid, one);
    if p != Null {
      PointsStaged(texts, P.ProbeRecord(pid));
      FlatStep(texts, P.ProbeRecord(pid));
      assert |Flat(b.texts)| == b.off;
    }
  }

  /** The forked child's copy of the array. */
  method Forked(envp: PtrArray, ghost texts: seq<string>) returns (c: PtrArray)
    requires envp.Valid(texts)
    ensures fresh(c) && fresh(c.cells) && c.Valid(texts) && c.strings == envp.strings
  {
    hide Points;
    c := new PtrArray();
    c.StillValid([], texts);
    while c.n < envp.n
      invariant fresh(c) && fresh(c.cells) && c.Valid(texts) && c.n <= envp.n && c.strings == envp.strings[..c.n]
    {
      c.Append(envp.cells[c.n], envp.strings[c.n], texts);
    }
  }

  /** The environment of the probe child, if the probe can be carried out: one more variable than the
      launch it tries out. */
  method ProbeHostLoader(b: Buffer, envp: PtrArray, pid: nat, forks: bool) returns (child: Option<PtrArray>)
    requires b.Valid() && pid < WORD && envp.Valid(b.texts) && envp.n < PTR_ARR_CAP - 1
    modifies b, b.buf
    ensures b.Valid() && old(b.texts) <= b.texts && old(b.off) <= b.off
    ensures child.Some? <==> forks && Room(old(b.off), "1") && Room(old(b.off) + 2, P.ProbeRecord(pid))
    ensures child.Some? ==>
              fresh(child.value) && fresh(child.value.cells) && child.value.Valid(b.texts)
              && child.value.strings == envp.strings + [P.ProbeRecord(pid)]
  {
    hide Points, Room, Tagged, P.ProbeRecord;
    ghost var texts := b.texts;
    var probe := StageProbe(b, pid);
    if probe == Null || envp.n + 1 >= PTR_ARR_CAP || !forks {
      return None;
    }
    envp.StillValid(texts, b.texts);
    var c := Forked(envp, b.texts);
    c.Append(probe, P.ProbeRecord(pid), b.texts);
    return Some(c);
  }

  lemma {:induction false} EnvpHasRoom(es: seq<string>, off: nat, pid: nat, exe: Option<string>, argv0: Option<string>)
    ensures |RebuiltEnv(es, off, pid, exe, argv0)| < PTR_ARR_CAP - 1
  {
    hide RebuiltEnv;
    RebuiltIs(es, off, pid, exe, argv0);
  }

  /** Asks whether a probe is needed and prepares it. */
  method Probe(b: Buffer, envp: PtrArray, block: string, pid: nat, fileHasText: bool, forks: bool)
    returns (probe: Option<PtrArray>)
    requires b.Valid() && pid < WORD && envp.Valid(b.texts) && envp.n < PTR_ARR_CAP - 1
    modifies b, b.buf
    ensures b.Valid() && old(b.texts) <= b.texts
    ensures probe.Some? ==>
              && forks && (fileHasText || AnyPreload(Entries(block)))
              && fresh(probe.value) && fresh(probe.value.cells) && probe.value.Valid(b.texts)
              && probe.value.strings == envp.strings + [P.ProbeRecord(pid)]
    ensures forks && AnyPreload(Entries(block)) && probe.None? ==>
              b.off + 2 + |P.ProbeRecord(pid)| + 1 > STR_BUF_CAP
  {
    hide Points, AnyPreload, P.ProbeRecord, CText, Entries;
    ghost var texts := b.texts;
    var needed := NeedsPreloadProbe(b, block, fileHasText);
    if !needed {
      return None;
    }
    envp.StillValid(texts, b.texts);
    probe := ProbeHostLoader(b, envp, pid, forks);
  }

  /** The two arrays of the launch, and the environment of the probe child if one is to be tried first. */
  method PrepareLaunch(b: Buffer, h: Host, loaderC: Ptr, libsC: Ptr, env: Read, cmd: Read, pid: nat, exe: Ptr,
      realExe: Ptr, fileHasText: bool, forks: bool)
    returns (argv: PtrArray, envp: PtrArray, probe: Option<PtrArray>, ghost off: nat)
    requires Ends(env) && TailFits(env) && Ends(cmd)
    requires b.Valid() && b.off <= 200 && GoodHost(h) && pid < WORD && GoodPath(exe) && GoodPath(realExe)
    requires Points(loaderC, LoaderOf(h), b.texts) && Points(libsC, LibsOf(h), b.texts)
    modifies b, b.buf
    ensures b.Valid()
    ensures argv.Valid(b.texts) && argv.strings == RebuiltArgv(h, PathOf(exe), Strings(cmd)) && off <= 500
    ensures LoaderLine(argv.strings, h, PathOf(exe), Strings(cmd))
    ensures envp.Valid(b.texts)
            && envp.strings == RebuiltEnv(Strings(env), off, pid, PathOf(realExe), Invoked(Strings(cmd)))
    ensures probe.Some? ==>
              && forks && (fileHasText || AnyPreload(Entries(env.block)))
              && probe.value.Valid(b.texts) && probe.value.strings == envp.strings + [P.ProbeRecord(pid)]
    ensures forks && AnyPreload(Entries(env.block)) && probe.None? ==>
              b.off + 2 + |P.ProbeRecord(pid)| + 1 > STR_BUF_CAP
  {
    hide CText, Entries, Strings, KnownHost, RebuiltEnv, RebuiltArgv, Points, AnyPreload, P.ProbeRecord, TailFits, Ends;
    hide LoaderLine, Invoked;
    argv, envp, off := BuildArrays(b, h, loaderC, libsC, env, cmd, pid, exe, realExe);
    ghost var texts := b.texts;
    EnvpHasRoom(Strings(env), off, pid, PathOf(realExe), Invoked(Strings(cmd)));
    probe := Probe(b, envp, env.block, pid, fileHasText, forks);
    argv.StillValid(texts, b.texts);
    envp.StillValid(texts, b.texts);
  }

  /* ---- one pass ---- */

  /** One pass through the bridge, with its scratch memory mapped and its environment read. It decides as the
      protocol does. What it hands to execve is the protocol's next environment, and to a probe child the same
      with the probe variable; on the command line the arguments it has read follow. resolved is the name the
      loader's file has. */
  method ReexecUniversal(h: Host, env: Read, cmd: Read, pid: nat, ppid: nat, link: Option<string>,
      fileHasText: bool, forks: bool, ghost x: P.Proc, ghost resolved: string)
    returns (out: Outcome, b: Buffer, ghost plan: P.Plan)
    requires GoodHost(h) && pid < WORD && (link.Some? ==> NoNul(link.value)) && P.LoaderFile(resolved)
    requires Describes(h.table, x, env.block, ppid, link) && Ends(env) && TailFits(env) && Ends(cmd)
    ensures b.Valid()
    ensures out == ExitZero <==> P.Probing(x)
    ensures out == Verdict(true) <==>
              && !P.Probing(x)
              && (P.Guarded(pid, x) || ((h.glibc || h.musl) && link.Some? && IsLoaderPath(h.table, link.value)))
    ensures out == Verdict(false) <==> P.Undecided(pid, x) && !h.glibc && !h.musl
    ensures out.Exec? ==>
              && plan.linkOk == link.Some? && plan.loader == resolved && P.GoesOn(P.World(h.table, map[]), pid, x, plan)
              && plan.argv0 == Invoked(Strings(cmd)) && (link.Some? ==> plan.name == link.value) && plan.off <= 500
              && plan.tail == CText(env.after)
              && out.argv.Valid(b.texts) && out.argv.strings == RebuiltArgv(h, link, Strings(cmd))
              && LoaderLine(out.argv.strings, h, link, Strings(cmd))
              && out.envp.Valid(b.texts) && out.envp.strings == P.NextEnv(pid, x, plan)
              && (out.probe.Some? ==>
                    && forks && (fileHasText || AnyPreload(Visible(x.env, ENV_BUF_CAP)))
                    && out.probe.value.Valid(b.texts)
                    && out.probe.value.strings == out.envp.strings + [P.ProbeRecord(pid)])
              && (forks && AnyPreload(Visible(x.env, ENV_BUF_CAP)) && out.probe.None? ==>
                    b.off + 2 + |P.ProbeRecord(pid)| + 1 > STR_BUF_CAP)
  {
    hide CText, Entries, KnownHost, RebuiltEnv, RebuiltArgv, Points, LastTagged, IsLoaderPath, Visible, ReadBlock;
    hide P.LoaderFile, TailOk, P.NextEnv, AnyPreload, P.ProbeRecord, TailFits, Ends, Strings, LastSeen, TextFrom;
    hide P.NameOk, LoaderLine, Invoked;
    plan := P.Plan(link.Some?, if link.Some? then link.value else "", CText(env.after), 0, Invoked(Strings(cmd)),
                   resolved);
    EntriesOfRead(x.env);
    TailFitsOk(x.env, env.after);
    b := new Buffer();
    assert Short("/proc/self/environ") by { FixedStringsAreShort(); }
    var environC := Stage(b, "/proc/self/environ");
    var guarded, probing, parentExe := ScanTags(env.block, env.after, pid, ppid);
    if probing {
      return ExitZero, b, plan;
    }
    if guarded {
      return Verdict(true), b, plan;
    }
    var loaderC, libsC := PickLoader(b, h);
    if loaderC == Null {
      return Verdict(false), b, plan;
    }
    var exe := LinkPtr(link);
    var byLoader := IsHostLoader(b, h, exe, link);
    if byLoader {
      return Verdict(true), b, plan;
    }
    ghost var recorded := LastSeen(Entries(env.block), Strings(env), EXE_KEY, ppid);
    var realExe := PickRealExe(b, env, exe, parentExe, link, recorded);
    var argv, envp, probe;
    ghost var off;
    argv, envp, probe, off := PrepareLaunch(b, h, loaderC, libsC, env, cmd, pid, exe, realExe, fileHasText, forks);
    plan := plan.(off := off);
    NextEnvIs(pid, x, plan, link, env);
    out := Exec(argv, envp, probe);
  }

  /** The pointers handed on stand for the protocol's next environment, even where the buffer ends inside an
      entry. */
  lemma {:induction false} NextEnvIs(pid: nat, x: P.Proc, plan: P.Plan, link: Option<string>, env: Read)
    requires AllNoNul(x.env) && env.block == ReadBlock(x.env)
    requires plan.linkOk == link.Some? && plan.tail == CText(env.after)
    requires link.Some? ==> link.value == P.LinkText(x.exe, plan.name)
    ensures P.NextEnv(pid, x, plan) ==
            RebuiltEnv(Strings(env), plan.off, pid,
                       if link.Some? && MEMFD_PREFIX <= link.value
                       then LastSeen(Entries(env.block), Strings(env), EXE_KEY, x.parent) else link,
                       plan.argv0)
  {
    hide Entries, Visible, ReadBlock, RebuiltEnv, Strings, Handed, LastSeen, CText;
    EntriesOfRead(x.env);
    StringsOfRead(x.env, env.after);
  }
}
