/** The strings and pointer arrays of one re-exec, in the order the bridge makes them. */
module EnvLaunch {
  import opened BridgeText
  import opened Tags
  import opened Staging
  import opened EnvBlock
  import opened EnvSight
  import opened EnvRebuild
  import opened EnvArrays

  datatype HostTable = HostTable(glibcLoader: string, glibcPreload: string, muslLoader: string, muslPreload: string)

  const AMD64: HostTable := HostTable("/lib64/ld-linux-x86-64.so.2", "libc.so.6 libpthread.so.0 libdl.so.2",
                                      "/lib/ld-musl-x86_64.so.1", "libc.musl-x86_64.so.1")
  const ARM64: HostTable := HostTable("/lib/ld-linux-aarch64.so.1", "libc.so.6 libpthread.so.0 libdl.so.2",
                                      "/lib/ld-musl-aarch64.so.1", "libc.musl-aarch64.so.1")

  predicate Short(s: string) {
    |s| <= 40 && NoNul(s)
  }

  predicate KnownHost(t: HostTable) {
    t == AMD64 || t == ARM64
  }

  lemma {:induction false} GlibcIsShort(t: HostTable)
    requires KnownHost(t)
    ensures Short(t.glibcLoader) && Short(t.glibcPreload)
  {
  }

  lemma {:induction false} MuslIsShort(t: HostTable)
    requires KnownHost(t)
    ensures Short(t.muslLoader) && Short(t.muslPreload)
  {
  }

  /** cstr for one of the short strings, while there is plenty of room. */
  method Stage(b: Buffer, s: string) returns (p: Ptr)
    requires b.Valid() && Short(s) && b.off + 41 <= STR_BUF_CAP
    modifies b, b.buf
    ensures b.Valid() && old(b.texts) <= b.texts && old(b.off) <= b.off <= old(b.off) + 41
    ensures p.Staged? && Points(p, s, b.texts)
  {
    hide Flat, CText, Points;
    ghost var before := b.texts;
    assert |Flat(before)| == b.off;
    PointsStaged(before, s);
    FlatStep(before, s);
    p := b.Cstr(s);
    assert |Flat(b.texts)| == b.off;
  }

  method StageFdPath(b: Buffer, fd: nat) returns (p: Ptr)
    requires b.Valid() && fd < WORD && b.off + 41 <= STR_BUF_CAP
    modifies b, b.buf
    ensures b.Valid() && old(b.texts) <= b.texts && old(b.off) <= b.off <= old(b.off) + 41
    ensures p.Staged? && Points(p, "/proc/self/fd/" + Decimal(fd), b.texts)
  {
    hide Flat, CText, Points, Decimal;
    DecimalLength(fd);
    ghost var before, s := b.texts, "/proc/self/fd/" + Decimal(fd);
    FdPathHasNoNul(fd);
    assert |Flat(before)| == b.off;
    PointsStaged(before, s);
    FlatStep(before, s);
    p := b.ProcFdPath(fd);
    assert |Flat(b.texts)| == b.off;
  }

  lemma {:induction false} FdPathHasNoNul(fd: nat)
    ensures NoNul("/proc/self/fd/" + Decimal(fd))
  {
    hide Decimal;
    DigitsHaveNoNul(Decimal(fd));
  }

  /** The memfd copy on glibc: no memfd at all, one that could not be filled, or its descriptor. */
  datatype Memfd = NoMemfd | CopyFailed | Copy(fd: nat)

  /** Which loader the host has, and what the kernel answered along the way. */
  datatype Host = Host(table: HostTable, glibc: bool, musl: bool, memfd: Memfd)

  predicate GoodHost(h: Host) {
    KnownHost(h.table) && (h.memfd.Copy? ==> h.memfd.fd < WORD)
  }

  function LoaderOf(h: Host): string {
    if h.glibc then h.table.glibcLoader else h.table.muslLoader
  }

  function LibsOf(h: Host): string {
    if h.glibc then h.table.glibcPreload else h.table.muslPreload
  }

  function ExePathOf(exe: Option<string>): string {
    if exe.Some? then exe.value else "/proc/self/exe"
  }

  /** The image the loader is told to run: on glibc the memfd copy when there is one, else the resolved
      path, else /proc/self/exe. */
  function ImageOf(h: Host, exe: Option<string>): string {
    if h.glibc && h.memfd.Copy? then "/proc/self/fd/" + Decimal(h.memfd.fd)
    else ExePathOf(exe)
  }

  /** The loader and its preload list; none when neither loader exists. */
  method PickLoader(b: Buffer, h: Host) returns (loaderC: Ptr, libsC: Ptr)
    requires b.Valid() && GoodHost(h) && b.off + 123 <= STR_BUF_CAP
    modifies b, b.buf
    ensures b.Valid() && old(b.texts) <= b.texts && old(b.off) <= b.off <= old(b.off) + 123
    ensures (h.glibc || h.musl) <==> loaderC != Null
    ensures loaderC != Null ==> Points(loaderC, LoaderOf(h), b.texts) && Points(libsC, LibsOf(h), b.texts)
  {
    hide Points, KnownHost, Short;
    GlibcIsShort(h.table);
    MuslIsShort(h.table);
    var g := Stage(b, h.table.glibcLoader);
    ghost var texts := b.texts;
    loaderC, libsC := Null, Null;
    if h.glibc {
      loaderC := g;
      libsC := Stage(b, h.table.glibcPreload);
      PointsStill(loaderC, LoaderOf(h), texts, b.texts);
    } else {
      var m := Stage(b, h.table.muslLoader);
      texts := b.texts;
      if h.musl {
        loaderC := m;
        libsC := Stage(b, h.table.muslPreload);
        PointsStill(loaderC, LoaderOf(h), texts, b.texts);
      }
    }
  }

  lemma {:induction false} FixedStringsAreShort()
    ensures Short("/proc/self/environ") && Short("/proc/self/exe") && Short("/proc/self/cmdline")
    ensures Short("--preload") && Short("goffi")
  {
  }

  /** The text of a pointer that does not point into the staging buffer. */
  function PathOf(p: Ptr): Option<string>
    requires !p.Staged?
  {
    if p == Null then None else Some(CText(p.mem))
  }

  predicate GoodPath(p: Ptr) {
    !p.Staged? && (p.Outside? ==> |CText(p.mem)| < |p.mem|)
  }

  lemma {:induction false} PathPoints(p: Ptr, texts: seq<string>)
    requires GoodPath(p) && p != Null
    ensures PathOf(p).Some? && Points(p, PathOf(p).value, texts)
  {
  }

  /** The readlink answer, or the link itself. */
  method PickExe(b: Buffer, exe: Ptr) returns (exeC: Ptr)
    requires b.Valid() && GoodPath(exe) && b.off + 82 <= STR_BUF_CAP
    modifies b, b.buf
    ensures b.Valid() && old(b.texts) <= b.texts && old(b.off) <= b.off <= old(b.off) + 82
    ensures Points(exeC, ExePathOf(PathOf(exe)), b.texts)
  {
    hide CText, Short, Points;
    FixedStringsAreShort();
    var pathC := Stage(b, "/proc/self/exe");
    exeC := exe;
    if exeC == Null {
      exeC := Stage(b, "/proc/self/exe");
    } else {
      PathPoints(exe, b.texts);
    }
  }

  /** The image to run, with the names the memfd copy needs. exe is the readlink answer, outside the
      buffer, or Null. */
  method PickImage(b: Buffer, h: Host, exe: Ptr) returns (exeC: Ptr)
    requires b.Valid() && GoodHost(h) && GoodPath(exe) && b.off + 205 <= STR_BUF_CAP
    modifies b, b.buf
    ensures b.Valid() && old(b.texts) <= b.texts && old(b.off) <= b.off <= old(b.off) + 205
    ensures Points(exeC, ImageOf(h, PathOf(exe)), b.texts)
  {
    hide CText, Decimal, KnownHost, Short, Points, PathOf;
    FixedStringsAreShort();
    ghost var path := PathOf(exe);
    exeC := PickExe(b, exe);
    ghost var texts := b.texts;
    if h.glibc {
      var nameC := Stage(b, "goffi");
      if h.memfd != NoMemfd {
        var selfC := Stage(b, "/proc/self/exe");
      }
      if h.memfd.Copy? {
        exeC := StageFdPath(b, h.memfd.fd);
        return;
      }
      PointsStill(exeC, ExePathOf(path), texts, b.texts);
    }
  }

  const ARGV_ROOM: nat := PTR_ARR_CAP - 5

  function Tail(es: seq<string>): seq<string> {
    if es == [] then [] else es[1..]
  }

  /** The loader's command line: itself, what to preload, the image, and the program's own arguments. */
  function RebuiltArgv(h: Host, exe: Option<string>, cmd: seq<string>): seq<string> {
    [LoaderOf(h), "--preload", LibsOf(h), ImageOf(h, exe)] + First(Tail(cmd), ARGV_ROOM)
  }

  /** The loader's command line string by string, with the names the two hosts have: the glibc loader and its
      libraries wherever that loader exists, else musl's; the image is the descriptor of a filled memfd, which
      only glibc needs, else the name readlink gave, else the link itself; then what the program was given. */
  predicate LoaderLine(argv: seq<string>, h: Host, exe: Option<string>, cmd: seq<string>)
    requires KnownHost(h.table)
  {
    && |argv| == 4 + (if |cmd| <= 1 then 0 else if |cmd| <= 4092 then |cmd| - 1 else 4091)
    && argv[0] == (if h.glibc then
                     if h.table == AMD64 then "/lib64/ld-linux-x86-64.so.2" else "/lib/ld-linux-aarch64.so.1"
                   else
                     if h.table == AMD64 then "/lib/ld-musl-x86_64.so.1" else "/lib/ld-musl-aarch64.so.1")
    && argv[1] == "--preload"
    && argv[2] == (if h.glibc then "libc.so.6 libpthread.so.0 libdl.so.2"
                   else if h.table == AMD64 then "libc.musl-x86_64.so.1" else "libc.musl-aarch64.so.1")
    && argv[3] == (if h.glibc && h.memfd.Copy? then "/proc/self/fd/" + Decimal(h.memfd.fd)
                   else if exe.Some? then exe.value else "/proc/self/exe")
    && forall k :: 4 <= k < |argv| ==> argv[k] == cmd[k - 3]
  }

  lemma {:induction false} LineIs(h: Host, exe: Option<string>, cmd: seq<string>)
    ensures KnownHost(h.table) ==> LoaderLine(RebuiltArgv(h, exe, cmd), h, exe, cmd)
  {
    hide Decimal;
  }

  /** The name the program was invoked by: the first string of its command line, if that has text. */
  function Invoked(cmd: seq<string>): Option<string> {
    if cmd == [] || cmd[0] == "" then None else Some(cmd[0])
  }

  lemma {:induction false} InvokedIs(cmd: Read)
    ensures Argv0Of(cmd) == Invoked(Strings(cmd))
  {
    hide CText;
    if cmd.block != "" {
      StringsUnfold(cmd);
      TextIs(cmd, 0);
      FirstIsText(cmd.block);
    }
  }

  lemma {:induction false} FirstIsText(s: string)
    requires s != ""
    ensures s[0] == NUL <==> CText(s) == ""
  {
  }

  lemma {:induction false} TailOfBlock(cmd: Read)
    ensures Tail(Strings(cmd)) == StringsFrom(cmd, if cmd.block == "" then 1 else |CText(cmd.block)| + 1)
  {
    hide CText, TextFrom, Strings, StringsFrom;
    StringsEnds(cmd, 1);
    if cmd.block != "" { StringsUnfold(cmd); }
  }

  /** The program's arguments after the first, as far as there is room. */
  method CopyArgs(cmd: Read, argv: PtrArray, ghost texts: seq<string>)
    requires Ends(cmd) && argv.Valid(texts) && argv.n == 4
    modifies argv, argv.cells
    ensures argv.Valid(texts) && argv.strings == old(argv.strings) + First(Tail(Strings(cmd)), ARGV_ROOM)
  {
    hide CText, Strings, StringsFrom, Points, First, Tail, Ends;
    ghost var head, all := argv.strings, Tail(Strings(cmd));
    TailOfBlock(cmd);
    var off := 1;
    if |cmd.block| > 0 {
      assert cmd.block[0..] == cmd.block;
      off := SkipEntry(cmd.block, 0);
    }
    ghost var seen: seq<string> := [];
    assert [] + all == all && head + [] == head;
    while off < |cmd.block| && argv.n < PTR_ARR_CAP - 1
      invariant seen + StringsFrom(cmd, off) == all
      invariant argv.Valid(texts) && argv.strings == head + seen && argv.n == 4 + |seen| <= PTR_ARR_CAP - 1
    {
      seen := CopyArg(cmd, off, argv, texts, head, seen);
      off := SkipEntry(cmd.block, off);
    }
    StringsEnds(cmd, off);
    FirstIs(seen, StringsFrom(cmd, off), ARGV_ROOM);
  }

  method CopyArg(cmd: Read, off: nat, argv: PtrArray, ghost texts: seq<string>, ghost head: seq<string>,
      ghost seen: seq<string>)
    returns (ghost seen': seq<string>)
    requires Ends(cmd) && argv.Valid(texts) && off < |cmd.block| && argv.n < PTR_ARR_CAP - 1
    requires argv.strings == head + seen
    modifies argv, argv.cells
    ensures argv.Valid(texts) && argv.strings == head + seen' && argv.n == old(argv.n) + 1 && |seen'| == |seen| + 1
    ensures seen + StringsFrom(cmd, off) == seen' + StringsFrom(cmd, off + |CText(cmd.block[off..])| + 1)
  {
    hide CText, StringsFrom, Points, TextFrom, Ends;
    StringsStep(cmd, off);
    BlockPtrPoints(cmd, off, texts);
    ghost var t := TextFrom(cmd, off);
    assert (head + seen) + [t] == head + (seen + [t]);
    argv.Append(BlockPtr(cmd, off), t, texts);
    seen' := seen + [t];
    ghost var rest := StringsFrom(cmd, off + |CText(cmd.block[off..])| + 1);
    assert seen + ([t] + rest) == seen' + rest;
  }

  lemma {:induction false} FirstIs(seen: seq<string>, rest: seq<string>, n: nat)
    requires |seen| <= n && (rest == [] || |seen| == n)
    ensures First(seen + rest, n) == seen
  {
  }

  /* ---- which arguments arrive ---- */

  /** What the re-executed program gets after its name, when it was started with args. The command line is
      read into a buffer as large as the environment's, and tail is the memory behind that. */
  function ProgramArgs(args: seq<string>, tail: string): seq<string> {
    First(Tail(Handed(args, tail)), ARGV_ROOM)
  }

  /** The loader's command line for a program started with args. */
  lemma {:induction false} ArgvFor(h: Host, exe: Option<string>, args: seq<string>, after: string)
    requires AllNoNul(args)
    ensures RebuiltArgv(h, exe, Strings(Read(ReadBlock(args), after))) ==
            [LoaderOf(h), "--preload", LibsOf(h), ImageOf(h, exe)] + ProgramArgs(args, CText(after))
  {
    hide Strings, CText, ReadBlock, Handed, ImageOf, First, Tail;
    StringsOfRead(args, after);
  }

  /** A program started under a name gets that name recorded, however long its other arguments are. */
  lemma {:induction false} InvokedAs(args: seq<string>, after: string)
    requires AllNoNul(args) && args != [] && |args[0]| < ENV_BUF_CAP
    ensures Invoked(Strings(Read(ReadBlock(args), after))) == if args[0] == "" then None else Some(args[0])
  {
    hide Strings, CText, ReadBlock, Join;
    StringsOfRead(args, after);
    var v := Visible(args, ENV_BUF_CAP);
    assert v == [args[0]] + Visible(args[1..], ENV_BUF_CAP - |args[0]| - 1);
    hide Visible;
    if |v| == 1 {
      JoinOne(args[0]);
      assert v == [args[0]];
    }
  }

  lemma {:induction false} CutLast(es: seq<string>, c: nat)
    requires |Visible(es, c)| == |es| && |Join(es)| > c
    ensures |Join(Visible(es, c))| > c
    decreases |es|
  {
    hide Join, Visible;
    NothingVisible(c);
    if es != [] {
      var e, rest := es[0], es[1..];
      assert es == [e] + rest;
      JoinStep(e, rest);
      VisibleStep(e, rest, c);
      if c <= |e| {
        JoinOfOne(e[..c]);
      } else {
        CutLast(rest, c - |e| - 1);
        JoinStep(e, Visible(rest, c - |e| - 1));
      }
    }
  }

  predicate Arrive(args: seq<string>, tail: string) {
    ProgramArgs(args, tail) == Tail(args)
  }

  /** Whatever stands behind the buffer, the program gets its arguments exactly if there are none, or if
      the command line is within the bytes read and the arguments within the array. */
  lemma {:induction false} ArgsArriveIff(args: seq<string>)
    ensures (forall tail :: Arrive(args, tail)) <==>
            |args| <= 1 || (|args| <= ARGV_ROOM + 1 && |Join(args)| <= ENV_BUF_CAP)
  {
    hide Join, Visible, Arrive;
    if |args| <= 1 {
      forall tail ensures Arrive(args, tail) { NoArguments(args, tail); }
    } else if |args| > ARGV_ROOM + 1 {
      TooMany(args, "");
    } else if |Join(args)| <= ENV_BUF_CAP {
      forall tail ensures Arrive(args, tail) { AllArrive(args, tail); }
    } else {
      TooLong(args);
    }
  }

  lemma {:induction false} NoArguments(args: seq<string>, tail: string)
    requires |args| <= 1
    ensures Arrive(args, tail)
  {
    hide Visible, Join;
    VisiblePrefix(args, ENV_BUF_CAP);
    NothingVisible(0);
  }

  lemma {:induction false} TooMany(args: seq<string>, tail: string)
    requires |args| > ARGV_ROOM + 1
    ensures !Arrive(args, tail)
  {
    hide Handed;
  }

  lemma {:induction false} AllArrive(args: seq<string>, tail: string)
    requires |args| <= ARGV_ROOM + 1 && |Join(args)| <= ENV_BUF_CAP
    ensures Arrive(args, tail)
  {
    hide Handed;
    HandedAll(args, tail, GUARD_KEY, 0);
  }

  /** The last argument cannot be right for two different memories behind the buffer. */
  lemma {:induction false} TooLong(args: seq<string>)
    requires 2 <= |args| <= ARGV_ROOM + 1 && |Join(args)| > ENV_BUF_CAP
    ensures !Arrive(args, "") || !Arrive(args, "x")
  {
    hide Visible, Join;
    NothingVisible(0);
    var v, n := Visible(args, ENV_BUF_CAP), |args| - 1;
    VisiblePrefix(args, ENV_BUF_CAP);
    if |v| == |args| {
      CutLast(args, ENV_BUF_CAP);
      assert Handed(args, "")[n] == v[n] + "" && Handed(args, "x")[n] == v[n] + "x";
      assert Arrive(args, "") ==> Tail(args)[n - 1] == Handed(args, "")[n];
      assert Arrive(args, "x") ==> Tail(args)[n - 1] == Handed(args, "x")[n];
      assert |v[n] + ""| != |v[n] + "x"|;
    }
  }

  /** Three arguments of 90000 bytes are too long. */
  lemma {:induction false} LongCommandLine()
    ensures var a := seq(90000, _ => 'a'); exists tail :: !Arrive(["p", a, a, a], tail)
  {
    hide Join, Arrive;
    var a := seq(90000, _ => 'a');
    JoinOfTwo([], "p");
    JoinOfTwo(["p"], a);
    JoinOfTwo(["p", a], a);
    JoinOfTwo(["p", a, a], a);
    assert [] + ["p"] == ["p"] && ["p"] + [a] == ["p", a];
    assert ["p", a] + [a] == ["p", a, a] && ["p", a, a] + [a] == ["p", a, a, a];
    ArgsArriveIff(["p", a, a, a]);
  }

  method BuildArgv(h: Host, loaderC: Ptr, preloadC: Ptr, libsC: Ptr, exeC: Ptr, cmd: Read,
                   ghost exe: Option<string>, ghost texts: seq<string>) returns (argv: PtrArray)
    requires Ends(cmd) && Points(loaderC, LoaderOf(h), texts) && Points(preloadC, "--preload", texts)
    requires Points(libsC, LibsOf(h), texts) && Points(exeC, ImageOf(h, exe), texts)
    ensures fresh(argv) && fresh(argv.cells) && argv.Valid(texts)
    ensures argv.strings == RebuiltArgv(h, exe, Strings(cmd))
    ensures KnownHost(h.table) ==> LoaderLine(argv.strings, h, exe, Strings(cmd))
  {
    hide Points, CText, Strings, Decimal, Ends, KnownHost, LoaderLine, LoaderOf, LibsOf, ImageOf, First, Tail;
    LineIs(h, exe, Strings(cmd));
    argv := new PtrArray();
    argv.StillValid([], texts);
    argv.Append(loaderC, LoaderOf(h), texts);
    argv.Append(preloadC, "--preload", texts);
    argv.Append(libsC, LibsOf(h), texts);
    argv.Append(exeC, ImageOf(h, exe), texts);
    CopyArgs(cmd, argv, texts);
  }

  /** From the choice of the image to execve: the remaining strings and both arrays. The strings before
      the guard always leave room for it, so the guard is never missing. exe is the readlink answer,
      realExe the path to record. */
  method BuildArrays(b: Buffer, h: Host, loaderC: Ptr, libsC: Ptr, env: Read, cmd: Read, pid: nat, exe: Ptr,
      realExe: Ptr)
    returns (argv: PtrArray, envp: PtrArray, ghost off: nat)
    requires Ends(env) && TailFits(env) && Ends(cmd)
    requires b.Valid() && b.off <= 200 && GoodHost(h) && pid < WORD && GoodPath(exe) && GoodPath(realExe)
    requires Points(loaderC, LoaderOf(h), b.texts) && Points(libsC, LibsOf(h), b.texts)
    modifies b, b.buf
    ensures b.Valid() && old(b.texts) <= b.texts && off <= 500
    ensures argv.Valid(b.texts) && argv.strings == RebuiltArgv(h, PathOf(exe), Strings(cmd))
    ensures LoaderLine(argv.strings, h, PathOf(exe), Strings(cmd))
    ensures envp.Valid(b.texts)
            && envp.strings == RebuiltEnv(Strings(env), off, pid, PathOf(realExe), Invoked(Strings(cmd)))
  {
    InvokedIs(cmd);
    hide LoaderLine, Argv0Of, Invoked;
    hide Points, CText, Strings, Decimal, KnownHost, RebuiltEnv, RebuiltArgv, ImageOf, Short, Ends, TailFits;
    FixedStringsAreShort();
    ghost var texts := b.texts;
    var exeC := PickImage(b, h, exe);
    ghost var texts' := b.texts;
    var cmdlineC := Stage(b, "/proc/self/cmdline");
    var preloadC := Stage(b, "--preload");
    PointsStill(loaderC, LoaderOf(h), texts, b.texts);
    PointsStill(libsC, LibsOf(h), texts, b.texts);
    PointsStill(exeC, ImageOf(h, PathOf(exe)), texts', b.texts);
    argv := BuildArgv(h, loaderC, preloadC, libsC, exeC, cmd, PathOf(exe), b.texts);
    texts := b.texts;
    off := b.off;
    GuardLength(pid);
    envp := BuildEnvp(b, env, pid, realExe, cmd);
    argv.StillValid(texts, b.texts);
  }
}
