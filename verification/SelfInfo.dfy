/** ffi.Executable: what a universal program is told about its own file. */
module SelfInfo {
  import opened BridgeText
  import opened Tags
  import opened EnvBlock
  import opened EnvSight
  import opened EnvRebuild
  import opened EnvLaunch
  import opened BridgePaths
  import opened Protocol
  import opened ProtocolSafety
  import opened ProtocolRoomy
  import opened ProtocolRecords

  /** os.Getenv: the value of the first entry with the key, "" if there is none. */
  function Getenv(env: seq<string>, key: string): string {
    if env == [] then ""
    else if key <= env[0] then env[0][|key|..]
    else Getenv(env[1..], key)
  }

  /** isLoaderOrMemfd, with the host's loader. */
  predicate IsLoaderOrMemfd(exe: string, loader: string) {
    MEMFD_PREFIX <= exe || (loader != "" && Base(exe) == Base(loader))
  }

  /** Executable, where os.Executable answers exe. */
  function Executable(env: seq<string>, pid: nat, ppid: nat, exe: string, loader: string): string {
    var raw := Getenv(env, EXE_KEY);
    if RecordedFor(raw, pid).Some? then RecordedFor(raw, pid).value
    else if IsLoaderOrMemfd(exe, loader) && RecordedFor(raw, ppid).Some? then RecordedFor(raw, ppid).value
    else exe
  }

  lemma {:induction false} GetenvSkip(a: seq<string>, b: seq<string>, key: string)
    requires NoneOfKey(a, key)
    ensures Getenv(a + b, key) == Getenv(b, key)
  {
    if a == [] {
      assert a + b == b;
    } else {
      assert (a + b)[1..] == a[1..] + b;
      GetenvSkip(a[1..], b, key);
    }
  }

  lemma {:induction false} GetenvNone(a: seq<string>, key: string)
    requires NoneOfKey(a, key)
    ensures Getenv(a, key) == ""
  {
    assert a + [] == a;
    GetenvSkip(a, [], key);
  }

  lemma {:induction false} OwnHaveNoPath(es: seq<string>)
    ensures NoneOfKey(NonBridge(es), EXE_KEY)
  {
    NonBridgeHas(es);
    hide NonBridge;
  }

  lemma {:induction false} GuardIsNoPath(pid: nat)
    ensures !(EXE_KEY <= GuardOf(pid))
  {
    hide Decimal;
    assert GUARD_KEY <= GuardOf(pid);
    assert GUARD_KEY[16] == 'R' && EXE_KEY[16] == 'E';
    if EXE_KEY <= GuardOf(pid) { KeysAreDistinct(EXE_KEY, GUARD_KEY, GuardOf(pid)); }
  }

  lemma {:induction false} RecordIsTagged(e: string, key: string, pid: nat)
    requires IsRecord(e, key, pid)
    ensures |key + Decimal(pid) + ":"| <= |e|
    ensures e == Tagged(key, pid, e[|key + Decimal(pid) + ":"|..])
  {
    hide Decimal;
    var h := key + Decimal(pid) + ":";
    assert e == h + e[|h|..];
  }

  /** In a rebuilt environment the variable's value is what the bridge's own parser finds. */
  lemma {:induction false} RebuiltGetenv(es: seq<string>, pid: nat)
    requires pid < WORD && RebuiltFor(es, pid)
    ensures match LastTagged(es, EXE_KEY, pid)
            case None => Getenv(es, EXE_KEY) == ""
            case Some(path) => Getenv(es, EXE_KEY) == Decimal(pid) + ":" + path
  {
    hide NonBridge, About, GuardOf, LastTagged, Tagged, Decimal, IsRecord, Getenv;
    var a := NonBridge(es);
    var n := |a|;
    var rest := es[n + 1..];
    var head := a + [GuardOf(pid)];
    OwnHaveNoPath(es);
    GuardIsNoPath(pid);
    assert es == head + rest && NoneOfKey(head, EXE_KEY);
    GetenvSkip(head, rest, EXE_KEY);
    if rest == [] || !(EXE_KEY <= rest[0]) {
      NoneInRest(rest, pid);
      GetenvNone(rest, EXE_KEY);
      LastTaggedAppend(head, rest, EXE_KEY, pid);
      NoneFound(head, EXE_KEY, pid);
    } else {
      PathInRest(head, rest, pid);
    }
  }

  lemma {:induction false} NoneInRest(rest: seq<string>, pid: nat)
    requires PathFirst(rest, pid) && (rest == [] || !(EXE_KEY <= rest[0]))
    ensures NoneOfKey(rest, EXE_KEY)
  {
    hide IsRecord;
    if rest != [] { assert rest == [rest[0]] + rest[1..]; }
  }

  lemma {:induction false} PathInRest(head: seq<string>, rest: seq<string>, pid: nat)
    requires pid < WORD && PathFirst(rest, pid) && rest != [] && EXE_KEY <= rest[0] && NoneOfKey(head, EXE_KEY)
    ensures LastTagged(head + rest, EXE_KEY, pid).Some?
    ensures Getenv(rest, EXE_KEY) == Decimal(pid) + ":" + LastTagged(head + rest, EXE_KEY, pid).value
  {
    hide LastTagged, Tagged, Decimal, IsRecord, TagValue;
    var e := rest[0];
    RecordIsTagged(e, EXE_KEY, pid);
    var v := e[|EXE_KEY + Decimal(pid) + ":"|..];
    assert head + rest == (head + [e]) + rest[1..];
    LastTaggedAppend(head + [e], rest[1..], EXE_KEY, pid);
    LastTaggedStep(head, e, EXE_KEY, pid);
    assert e + "" == e;
    FoundByItsPid(EXE_KEY, pid, v, "", pid);
    TaggedParts(EXE_KEY, pid, v);
  }

  lemma {:induction false} TaggedParts(key: string, pid: nat, v: string)
    ensures key <= Tagged(key, pid, v) && Tagged(key, pid, v)[|key|..] == Decimal(pid) + ":" + v
    ensures Tagged(key, pid, v)[|key| + |Decimal(pid)| + 1..] == v
  {
    hide Decimal;
    var d := Decimal(pid);
    assert Tagged(key, pid, v) == key + (d + ":" + v);
    assert Tagged(key, pid, v) == (key + d + ":") + v;
  }

  /** What Executable makes of a rebuilt environment: the owner reads its path, a child that inherited it the
      parent's if it runs under the loader or a memfd, and nobody reads anything if no path was recorded. */
  lemma {:induction false} ExecutableOf(es: seq<string>, owner: nat, pid: nat, ppid: nat, exe: string, loader: string)
    requires owner < WORD && owner <= INT_MAX && pid <= INT_MAX && ppid <= INT_MAX && RebuiltFor(es, owner)
    requires LastTagged(es, EXE_KEY, owner) != Some("")
    ensures Executable(es, pid, ppid, exe, loader) ==
            match LastTagged(es, EXE_KEY, owner)
            case None => exe
            case Some(path) =>
              if pid == owner || (ppid == owner && IsLoaderOrMemfd(exe, loader)) then path else exe
  {
    hide RebuiltFor, LastTagged, Decimal, RecordedFor, Getenv, IsLoaderOrMemfd;
    RebuiltGetenv(es, owner);
    match LastTagged(es, EXE_KEY, owner)
    case None =>
      EmptyIsNoRecord(pid);
      EmptyIsNoRecord(ppid);
    case Some(path) =>
      ReadBack(owner, path, pid);
      ReadBack(owner, path, ppid);
  }

  lemma {:induction false} EmptyIsNoRecord(want: int)
    ensures RecordedFor("", want) == None
  {
  }

  /** Over all runs in which recorded paths stay right: a process that its bridge has re-execed is told its own
      file exactly if the bridge has recorded one. */
  lemma {:induction false} OwnFileIff(host: HostTable, es: seq<Event>, pid: nat, loader: string)
    requires KnownHost(host) && AllRoomy(es) && NeverMisrecords(host, es) && pid in After(host, es).procs
    requires pid <= INT_MAX && After(host, es).procs[pid].parent <= INT_MAX
    requires After(host, es).procs[pid].reexecs > 0 && After(host, es).procs[pid].origin != ""
    ensures var x := After(host, es).procs[pid];
            && x.exe.Loader?
            && (IsLoaderPath(host, x.exe.path) ==>
                  (Executable(x.env, pid, x.parent, x.exe.path, loader) == x.origin
                   <==> LastTagged(x.env, EXE_KEY, pid) != None))
            && (LastTagged(x.env, EXE_KEY, pid) != None ==>
                  Executable(x.env, pid, x.parent, x.exe.path, loader) == x.origin)
  {
    hide KnownHost, After, AllRoomy, NeverMisrecords, Executable, LastTagged, IsLoaderPath, Inv;
    hide RebuiltFor, IsLoaderOrMemfd;
    AlwaysInv(host, es);
    var x := After(host, es).procs[pid];
    Reexeced(After(host, es), pid);
    RecordedPathsAreFiles(host, es, pid, pid);
    ExecutableOf(x.env, pid, pid, x.parent, x.exe.path, loader);
  }

  lemma {:induction false} Reexeced(w: World, pid: nat)
    requires Inv(w) && pid in w.procs && w.procs[pid].reexecs > 0
    ensures var x := w.procs[pid];
            pid < WORD && RebuiltFor(x.env, pid) && x.exe.Loader? && !IsLoaderPath(w.host, x.origin)
  {
    hide EnvKnown, PhaseOk, ProbeOk, HoldsProbe, AnyEscaped, KnownHost, RebuiltFor, IsLoaderPath, LoaderFile;
    assert ProcOk(w.host, w.procs, pid);
  }

  /** What the system calls a process is a loader or a memfd to it exactly if it runs under one, the loader
      being the one the host has. */
  lemma {:induction false} LoaderOrMemfdIff(host: HostTable, exe: Exe, name: string, loader: string)
    requires KnownHost(host) && (loader == host.glibcLoader || loader == host.muslLoader)
    requires NameOk(host, exe, name) && (exe.Loader? ==> LoaderFile(exe.path))
    ensures IsLoaderOrMemfd(LinkText(exe, name), loader) <==>
            exe.MemImage? || (exe.Loader? && Base(exe.path) == Base(loader))
  {
    hide Base;
    MemfdHasPrefix();
    LoaderInitial(host);
    assert loader != "" by { NoBase(); }
  }

  lemma {:induction false} NoBase()
    ensures Base("") == ""
  {
  }

  /** A process started from a re-execed one, with its environment, is told the file of its parent exactly if it
      runs under the host's loader or a memfd; any other program is told what the system says. */
  lemma {:induction false} ChildIsTold(host: HostTable, es: seq<Event>, pid: nat, name: string, loader: string)
    requires KnownHost(host) && AllRoomy(es) && NeverMisrecords(host, es) && pid in After(host, es).procs
    requires loader == host.glibcLoader || loader == host.muslLoader
    requires var w := After(host, es); var x := w.procs[pid];
             && x.parent in w.procs && x.parent != pid && pid <= INT_MAX && x.parent <= INT_MAX
             && w.procs[x.parent].reexecs > 0 && x.env == w.procs[x.parent].env && w.procs[x.parent].origin != ""
             && LastTagged(x.env, EXE_KEY, x.parent) != None
             && NameOk(host, x.exe, name) && (x.exe.Loader? ==> LoaderFile(x.exe.path))
    ensures var w := After(host, es); var x := w.procs[pid];
            Executable(x.env, pid, x.parent, LinkText(x.exe, name), loader) ==
            if x.exe.MemImage? || (x.exe.Loader? && Base(x.exe.path) == Base(loader)) then w.procs[x.parent].origin
            else LinkText(x.exe, name)
  {
    hide KnownHost, After, AllRoomy, NeverMisrecords, Executable, LastTagged, IsLoaderPath, Inv;
    hide RebuiltFor, IsLoaderOrMemfd, Base, NameOk, LoaderFile, LinkText;
    AlwaysInv(host, es);
    var w := After(host, es);
    var x := w.procs[pid];
    Reexeced(w, x.parent);
    RecordedPathsAreFiles(host, es, x.parent, x.parent);
    ExecutableOf(x.env, x.parent, pid, x.parent, LinkText(x.exe, name), loader);
    LoaderOrMemfdIff(host, x.exe, name, loader);
  }

  /** So a copy started by hand through the loader is told its parent's file, whatever program it is. */
  lemma {:induction false} HandStartedCopy(host: HostTable, es: seq<Event>, pid: nat, loader: string)
    requires KnownHost(host) && AllRoomy(es) && NeverMisrecords(host, es) && pid in After(host, es).procs
    requires loader == host.glibcLoader || loader == host.muslLoader
    requires var w := After(host, es); var x := w.procs[pid];
             && x.parent in w.procs && x.parent != pid && pid <= INT_MAX && x.parent <= INT_MAX
             && w.procs[x.parent].reexecs > 0 && x.env == w.procs[x.parent].env && w.procs[x.parent].origin != ""
             && LastTagged(x.env, EXE_KEY, x.parent) != None
             && x.exe.Loader? && LoaderFile(x.exe.path) && Base(x.exe.path) == Base(loader)
    ensures var w := After(host, es); var x := w.procs[pid];
            Executable(x.env, pid, x.parent, x.exe.path, loader) == w.procs[x.parent].origin
  {
    hide KnownHost, After, AllRoomy, NeverMisrecords, Executable, LastTagged, IsLoaderPath, Inv, Base, LoaderFile;
    ChildIsTold(host, es, pid, "", loader);
  }
}
