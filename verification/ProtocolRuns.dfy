/** Runs that show the conditions of the protocol's properties to be needed. */
module ProtocolRuns {
  import opened BridgeText
  import opened Tags
  import opened EnvBlock
  import opened EnvSight
  import opened EnvRebuild
  import opened EnvLaunch
  import opened BridgePaths
  import opened Protocol
  import opened ProtocolSafety
  import opened ProtocolRoomy

  /** Nothing unusual about the loader, the file's name, or the memory after the buffer. */
  predicate GoodPlan(plan: Plan) {
    plan.tail == "" && LoaderFile(plan.loader) && PlainPath(AMD64, plan.name)
  }

  /** A first launch from a file goes on. */
  lemma {:induction false} LaunchGoesOn(w: World, pid: nat, plan: Plan)
    requires Inv(w) && pid in w.procs && w.procs[pid].phase == AtBridge && w.procs[pid].reexecs == 0
    requires Clean(w.procs[pid].env) && plan.tail == "" && LoaderFile(plan.loader)
    requires w.procs[pid].exe.Disk? && PlainPath(w.host, plan.name)
    ensures GoesOn(w, pid, w.procs[pid], plan)
  {
    hide Inv, Visible, LastTagged, IsLoaderPath, TailOk, LoaderFile, GuardCut;
    var x := w.procs[pid];
    NoTail(x.env);
    GuardRecognised(w, pid);
    CleanHasNone(x.env);
    NoneVisible(x.env, PROBE_KEY, ENV_BUF_CAP);
    NoneFound(Visible(x.env, ENV_BUF_CAP), PROBE_KEY, x.parent);
  }

  lemma {:induction false} CleanHasNone(env: seq<string>)
    requires Clean(env)
    ensures NoneOfKey(env, PROBE_KEY) && NonBridge(env) == env
  {
    NonBridgeOfClean(env);
    hide NonBridge;
  }

  /** The state after launching pid 1 from a file on disk. */
  lemma {:induction false} Launched(path: string, env: seq<string>, plan: Plan)
    requires PlainPath(AMD64, path) && Clean(env) && GoodPlan(plan)
    ensures var w := After(AMD64, [Launch(1, path, env)]);
            && Inv(w) && w.host == AMD64 && w.procs == map[1 := NewProc(0, env, Disk(path), path)]
            && GoesOn(w, 1, w.procs[1], plan)
  {
    hide PlainPath, Clean, LoaderFile, GoesOn, Inv, KnownHost;
    assert KnownHost(AMD64) by { AmdIsKnown(); }
    assert [Launch(1, path, env)][..0] == [];
    AlwaysInv(AMD64, [Launch(1, path, env)]);
    LaunchGoesOn(After(AMD64, [Launch(1, path, env)]), 1, plan);
  }

  lemma {:induction false} AmdIsKnown()
    ensures KnownHost(AMD64)
  {
  }

  lemma {:induction false} Then(host: HostTable, es: seq<Event>, e: Event)
    requires Enabled(After(host, es), e)
    ensures After(host, es + [e]) == Apply(After(host, es), e)
  {
    hide Enabled, Apply, After;
    AfterStep(host, es, e);
  }

  /* ---- probe children that escape ---- */

  /** The state after pid 1 has been launched and has started the probe 2. */
  function ProbeRun(path: string, env: seq<string>, plan: Plan): seq<Event> {
    [Launch(1, path, env), StartProbe(1, 2, plan)]
  }

  lemma {:induction false} Probed(path: string, env: seq<string>, plan: Plan)
    requires PlainPath(AMD64, path) && Clean(env) && GoodPlan(plan)
    ensures var w := After(AMD64, ProbeRun(path, env, plan));
            && Inv(w) && w.host == AMD64 && 1 in w.procs && 2 in w.procs
            && w.procs[1].phase.Waiting? && w.procs[1].phase.next == NextEnv(1, NewProc(0, env, Disk(path), path), plan)
            && w.procs[2] == ProbeChild(1, w.procs[1].phase.next, plan.loader, path)
  {
    hide PlainPath, Clean, LoaderFile, GoesOn, Inv, KnownHost, NextEnv, After;
    Launched(path, env, plan);
    assert [Launch(1, path, env)] + [StartProbe(1, 2, plan)] == ProbeRun(path, env, plan);
    Then(AMD64, [Launch(1, path, env)], StartProbe(1, 2, plan));
    AmdIsKnown();
    AlwaysInv(AMD64, ProbeRun(path, env, plan));
  }

  lemma {:induction false} ChildGoesPast(w: World, pid: nat)
    requires Inv(w) && pid in w.procs && w.procs[pid].phase == AtBridge && w.procs[pid].reexecs == 0
    requires !Probing(w.procs[pid]) && w.procs[pid].probeOf.Some?
    requires w.procs[pid].exe.Loader? && IsLoaderPath(w.host, w.procs[pid].exe.path)
    ensures Enabled(w, SeeLoader(pid, "")) && Escaped(Apply(w, SeeLoader(pid, "")).procs, pid)
  {
    hide Inv, Probing, Guarded, IsLoaderPath, GuardCut;
    GuardRecognised(w, pid);
  }

  /** When the forker is killed while it waits, the probe child has another parent, takes its probe
      variable for somebody else's, and runs the program. */
  lemma {:induction false} OrphanedProbeEscapes(path: string, env: seq<string>, plan: Plan)
    requires PlainPath(AMD64, path) && Clean(env) && GoodPlan(plan)
    requires IsLoaderPath(AMD64, plan.loader)
    ensures Escaped(After(AMD64, ProbeRun(path, env, plan) + [Die(1, 0), SeeLoader(2, "")]).procs, 2)
  {
    hide PlainPath, Clean, LoaderFile, IsLoaderPath, Inv, KnownHost, After, NextEnv, Probing, ProbeCut,
         ProbeRecord, Escaped;
    var es := ProbeRun(path, env, plan);
    Probed(path, env, plan);
    Then(AMD64, es, Die(1, 0));
    var w := After(AMD64, es + [Die(1, 0)]);
    AmdIsKnown();
    AlwaysInv(AMD64, es + [Die(1, 0)]);
    hide HoldsProbe, AnyEscaped;
    ProbesStop(AMD64, es + [Die(1, 0)], 2);
    ChildGoesPast(w, 2);
    Then(AMD64, es + [Die(1, 0)], SeeLoader(2, ""));
    assert es + [Die(1, 0)] + [SeeLoader(2, "")] == es + [Die(1, 0), SeeLoader(2, "")];
  }

  /** The environment fills the buffer so far that not even the head of a guard for pid 1 is left room. */
  predicate FillsBuffer(env: seq<string>) {
    Clean(env) && |env| <= ENV_ROOM && |Join(env)| <= ENV_BUF_CAP < |Join(env)| + RecordHead(GUARD_KEY, 1)
  }

  lemma {:induction false} FilledGuardIsCut(env: seq<string>, off: nat, exe: Option<string>, argv0: Option<string>)
    requires FillsBuffer(env)
    ensures var next := RebuiltEnv(env, off, 1, exe, argv0);
            GuardCut(next, 1) && |Join(next)| > ENV_BUF_CAP
  {
    hide Join, NonBridge, RebuiltEnv, RecordHead, IsBridgeVar, ExeRecord, Argv0Record, Tagged, Clean;
    var rs := Records(env, off, 1, exe, argv0);
    OwnVariablesSurvive(env, off, 1, exe, argv0);
    CleanHasNone(env);
    RebuiltIs(env, off, 1, exe, argv0);
    JoinAppend(env, rs);
    JoinAppend([rs[0]], rs[1..]);
    assert rs == [rs[0]] + rs[1..];
    JoinOne(rs[0]);
    HeadFits(GUARD_KEY, 1, "1");
  }

  /** When the environment fills the buffer, the probe child does not see its variable, and runs the
      program while the bridge that forked it waits for it. */
  lemma {:induction false} CutProbeEscapes(path: string, env: seq<string>, plan: Plan)
    requires PlainPath(AMD64, path) && FillsBuffer(env) && GoodPlan(plan)
    requires IsLoaderPath(AMD64, plan.loader)
    ensures var w := After(AMD64, ProbeRun(path, env, plan) + [SeeLoader(2, "")]);
            Escaped(w.procs, 2) && 1 in w.procs && w.procs[1].phase.Waiting? && w.procs[1].phase.probe == 2
  {
    hide PlainPath, Clean, LoaderFile, IsLoaderPath, Inv, KnownHost, After, NextEnv, Probing, ProbeCut,
         ProbeRecord, Escaped;
    hide HoldsProbe, AnyEscaped, FillsBuffer;
    var es := ProbeRun(path, env, plan);
    assert Clean(env) by { FilledIsClean(env); }
    Probed(path, env, plan);
    var w := After(AMD64, es);
    AmdIsKnown();
    FilledProbeIsCut(path, env, plan);
    ProbesStop(AMD64, es, 2);
    ChildGoesPast(w, 2);
    Then(AMD64, es, SeeLoader(2, ""));
    WaitsForProbe(path, env, plan);
  }

  lemma {:induction false} FilledIsClean(env: seq<string>)
    requires FillsBuffer(env)
    ensures Clean(env)
  {
  }

  lemma {:induction false} FilledProbeIsCut(path: string, env: seq<string>, plan: Plan)
    requires FillsBuffer(env)
    ensures ProbeCut(NextEnv(1, NewProc(0, env, Disk(path), path), plan) + [ProbeRecord(1)], 1)
  {
    hide Join, ProbeRecord, RebuiltEnv, Handed, RealExe, RecordHead, Clean, GuardCut, Recorded;
    var x := NewProc(0, env, Disk(path), path);
    var next := NextEnv(1, x, plan);
    HandedAll(env, plan.tail, EXE_KEY, 0);
    FilledGuardIsCut(env, plan.off, RealExe(x, plan), plan.argv0);
    assert (next + [ProbeRecord(1)])[..|next + [ProbeRecord(1)]| - 1] == next;
  }

  lemma {:induction false} WaitsForProbe(path: string, env: seq<string>, plan: Plan)
    requires PlainPath(AMD64, path) && Clean(env) && GoodPlan(plan)
    ensures var w := After(AMD64, ProbeRun(path, env, plan));
            1 in w.procs && w.procs[1].phase.Waiting? && w.procs[1].phase.probe == 2
  {
    hide PlainPath, Clean, LoaderFile, GoesOn, Inv, NextEnv, After;
    Launched(path, env, plan);
    assert [Launch(1, path, env)] + [StartProbe(1, 2, plan)] == ProbeRun(path, env, plan);
    Then(AMD64, [Launch(1, path, env)], StartProbe(1, 2, plan));
  }

  /* ---- a second re-exec ---- */

  /** With the same environment the guard is cut off too: if readlink then fails, the re-execed process is
      re-execed again. */
  lemma {:induction false} ReexecTwice(path: string, env: seq<string>, plan: Plan, again: Plan)
    requires PlainPath(AMD64, path) && FillsBuffer(env)
    requires GoodPlan(plan) && GoodPlan(again) && !again.linkOk
    ensures var w := After(AMD64, [Launch(1, path, env), Reexec(1, plan), Reexec(1, again)]);
            1 in w.procs && w.procs[1].reexecs == 2
  {
    hide PlainPath, Clean, LoaderFile, Inv, KnownHost, After, NextEnv, GoesOn, GuardCut, TailOk, FillsBuffer;
    var es := [Launch(1, path, env)];
    assert Clean(env) by { FilledIsClean(env); }
    Launched(path, env, plan);
    Then(AMD64, es, Reexec(1, plan));
    var es2 := es + [Reexec(1, plan)];
    var w := After(AMD64, es2);
    AmdIsKnown();
    NextGuardIsCut(path, env, plan);
    NoTail(w.procs[1].env);
    hide Enabled;
    ReexecAgainIff(AMD64, es2, 1, again);
    Then(AMD64, es2, Reexec(1, again));
    assert es2 + [Reexec(1, again)] == [Launch(1, path, env), Reexec(1, plan), Reexec(1, again)];
  }

  lemma {:induction false} NextGuardIsCut(path: string, env: seq<string>, plan: Plan)
    requires FillsBuffer(env)
    ensures GuardCut(NextEnv(1, NewProc(0, env, Disk(path), path), plan), 1)
  {
    hide Join, RebuiltEnv, Handed, RealExe, RecordHead, Clean, GuardCut, Recorded;
    HandedAll(env, plan.tail, EXE_KEY, 0);
    FilledGuardIsCut(env, plan.off, RealExe(NewProc(0, env, Disk(path), path), plan), plan.argv0);
  }

  /** Such environments exist: three variables of 87373 bytes. */
  lemma {:induction false} BufferCanBeFilled()
    ensures var v := seq(87373, _ => 'v'); FillsBuffer([v, v, v])
  {
    hide Join, Decimal, IsBridgeVar;
    var v := seq(87373, _ => 'v');
    assert v[0] == 'v';
    NotABridgeVar(v);
    JoinOne(v);
    JoinOfTwo([v], v);
    JoinOfTwo([v, v], v);
    assert [v] + [v] == [v, v] && [v, v] + [v] == [v, v, v];
  }

  lemma {:induction false} NotABridgeVar(e: string)
    requires e != "" && e[0] == 'v'
    ensures !IsBridgeVar(e)
  {
    assert GUARD_KEY[0] == PROBE_KEY[0] == EXE_KEY[0] == ARGV0_KEY[0] == 'G';
  }

  /* ---- wrong paths ---- */

  /** What fits the readlink buffer. */
  predicate PathFits(path: string) {
    |path| < 4096
  }

  /** A bridge whose image is recorded under the name p leaves a record of p. */
  lemma {:induction false} LeavesRecord(es: seq<string>, pid: nat, p: string)
    requires pid < WORD && PathFits(p)
    ensures LastTagged(RebuiltEnv(es, 0, pid, Some(p), None), EXE_KEY, pid) == Some(p)
    ensures Room(AfterGuard(0, pid), Tagged(EXE_KEY, pid, p))
  {
    hide RebuiltEnv, LastTagged, Decimal;
    DecimalLength(pid);
    RecordsFound(es, 0, pid, Some(p), None, pid);
  }

  function Even(name: string): Plan {
    Plan(true, name, "", 0, None, AMD64.glibcLoader)
  }

  lemma {:induction false} EvenPlan(name: string)
    requires PlainPath(AMD64, name)
    ensures GoodPlan(Even(name)) && LoaderFile(AMD64.glibcLoader)
  {
    assert AMD64.glibcLoader[1] != MEMFD_PREFIX[1];
  }

  /** A program whose file no longer has the name it was started under records the name it has now. */
  lemma {:induction false} RenamedProgram(path: string, name: string)
    requires PlainPath(AMD64, path) && PlainPath(AMD64, name) && PathFits(name)
    ensures var w := After(AMD64, [Launch(1, path, []), Reexec(1, Even(name))]);
            1 in w.procs && LastTagged(w.procs[1].env, EXE_KEY, 1) == Some(name) && w.procs[1].origin == path
  {
    hide PlainPath, LoaderFile, IsLoaderPath, Inv, LastTagged, RebuiltEnv, PathFits, GoesOn, Handed, After;
    var e := Launch(1, path, []);
    assert [e] + [Reexec(1, Even(name))] == [e, Reexec(1, Even(name))];
    EvenPlan(name);
    Launched(path, [], Even(name));
    EmptyIsHanded("");
    PlainIsNoMemfd(AMD64, name);
    Then(AMD64, [e], Reexec(1, Even(name)));
    LeavesRecord([], 1, name);
  }

  /** When the file has been unlinked or replaced, readlink adds to its name, and no file has that name. */
  lemma {:induction false} DeletedIsPlain(path: string)
    requires PlainPath(AMD64, path)
    ensures PlainPath(AMD64, path + " (deleted)") && path + " (deleted)" != path
  {
    hide Base;
    var s := path + " (deleted)";
    BaseLast(s);
    BaseLast(AMD64.glibcLoader);
    BaseLast(AMD64.muslLoader);
    if |path| < |MEMFD_PREFIX| {
      NoBlank(|path|);
      assert s[|path|] == ' ';
    } else {
      assert s[..|MEMFD_PREFIX|] == path[..|MEMFD_PREFIX|];
    }
  }

  lemma {:induction false} NoBlank(i: nat)
    requires i < |MEMFD_PREFIX|
    ensures MEMFD_PREFIX[i] != ' '
  {
  }

  lemma {:induction false} BaseLast(s: string)
    requires s != "" && s[|s| - 1] != '/'
    ensures Base(s) != "" && Base(s)[|Base(s)| - 1] == s[|s| - 1]
  {
  }

  /** A program started by hand through a loader under a name that is not recognised records the loader as
      its own file. */
  lemma {:induction false} UnrecognisedLoader(path: string, ld: string)
    requires PlainPath(AMD64, path) && LoaderFile(ld) && !IsLoaderPath(AMD64, ld) && PathFits(ld)
    ensures var w := After(AMD64, [HandLaunch(1, path, ld, []), Reexec(1, Even(path))]);
            1 in w.procs && LastTagged(w.procs[1].env, EXE_KEY, 1) == Some(ld) && w.procs[1].origin == path
  {
    hide PlainPath, LoaderFile, IsLoaderPath, Inv, KnownHost, LastTagged, RebuiltEnv, PathFits, TailOk, Handed;
    var e := HandLaunch(1, path, ld, []);
    assert [e][..0] == [] && [e] + [Reexec(1, Even(path))] == [e, Reexec(1, Even(path))];
    var w := After(AMD64, [e]);
    hide After;
    AmdIsKnown();
    EvenPlan(path);
    AlwaysInv(AMD64, [e]);
    UndecidedAtFirst(w, 1);
    NoTail([]);
    EmptyIsHanded("");
    hide Undecided;
    NotMemfd(ld);
    Then(AMD64, [e], Reexec(1, Even(path)));
    LeavesRecord([], 1, ld);
  }

  lemma {:induction false} NotMemfd(ld: string)
    requires LoaderFile(ld)
    ensures !(MEMFD_PREFIX <= ld)
  {
  }

  lemma {:induction false} EmptyIsHanded(tail: string)
    ensures Handed([], tail) == [] && |Join([])| == 0
  {
  }

  lemma {:induction false} UndecidedAtFirst(w: World, pid: nat)
    requires Inv(w) && pid in w.procs && w.procs[pid].phase == AtBridge && w.procs[pid].reexecs == 0
    requires Clean(w.procs[pid].env)
    ensures Undecided(pid, w.procs[pid])
  {
    hide Inv, Visible, LastTagged, GuardCut;
    var x := w.procs[pid];
    GuardRecognised(w, pid);
    CleanHasNone(x.env);
    NoneVisible(x.env, PROBE_KEY, ENV_BUF_CAP);
    NoneFound(Visible(x.env, ENV_BUF_CAP), PROBE_KEY, x.parent);
  }

  /** On a host of glibc 2.31 the loader's link resolves to such a name. */
  lemma {:induction false} OldGlibcLoader()
    ensures var ld := "/lib/x86_64-linux-gnu/ld-2.31.so";
            LoaderFile(ld) && !IsLoaderPath(AMD64, ld) && PathFits(ld)
  {
    hide Base;
    var ld := "/lib/x86_64-linux-gnu/ld-2.31.so";
    assert MEMFD_PREFIX[1] != ld[1];
    assert forall i :: 21 < i < |ld| ==> ld[i] != '/';
    BaseFrom(ld, 21);
    Amd64GlibcBase();
    Amd64MuslBase();
  }

  /** The environment of a process started from path with none. */
  function EnvFor(pid: nat, path: string): seq<string> {
    RebuiltEnv([], 0, pid, Some(path), None)
  }

  /** Such a process after its bridge has re-execed it and let it pass. */
  function SettledProc(parent: nat, pid: nat, path: string): Proc {
    Passed(Execed(NewProc(parent, [], Disk(path), path), EnvFor(pid, path), AMD64.glibcLoader), true)
  }

  function Settling(pid: nat, path: string): seq<Event> {
    [Reexec(pid, Even(path)), SeeGuard(pid)]
  }

  lemma {:induction false} Settles(es: seq<Event>, parent: nat, pid: nat, path: string)
    requires AllRoomy(es) && PlainPath(AMD64, path) && pid in After(AMD64, es).procs
    requires After(AMD64, es).procs[pid] == NewProc(parent, [], Disk(path), path)
    ensures AllRoomy(es + Settling(pid, path))
    ensures After(AMD64, es + Settling(pid, path)) ==
            World(AMD64, After(AMD64, es).procs[pid := SettledProc(parent, pid, path)])
  {
    hide PlainPath, LoaderFile, IsLoaderPath, Inv, KnownHost, GoesOn, After, AllRoomy, LastTagged, Handed, RebuiltEnv;
    var e1, e2 := Reexec(pid, Even(path)), SeeGuard(pid);
    AmdIsKnown();
    EvenPlan(path);
    AlwaysInv(AMD64, es);
    LaunchGoesOn(After(AMD64, es), pid, Even(path));
    EmptyIsHanded("");
    Then(AMD64, es, e1);
    PlainIsNoMemfd(AMD64, path);
    RoomyMore(es, e1);
    RoomyMore(es + [e1], e2);
    AlwaysInv(AMD64, es + [e1]);
    hide WentOn, IsDead, Guarded, Probing, GuardCut;
    GuardRecognised(After(AMD64, es + [e1]), pid);
    RoomyRunsAreSafe(AMD64, es + [e1], pid);
    Then(AMD64, es + [e1], e2);
    assert es + [e1] + [e2] == es + Settling(pid, path);
  }

  lemma {:induction false} PlainIsNoMemfd(t: HostTable, path: string)
    requires PlainPath(t, path)
    ensures !(MEMFD_PREFIX <= path)
  {
  }

  lemma {:induction false} RoomyMore(es: seq<Event>, e: Event)
    requires AllRoomy(es) && RoomyEvent(e)
    ensures AllRoomy(es + [e])
  {
    hide RoomyEvent;
  }

  /** Process 1 runs p1, its child 2 runs p2, and both have been re-execed. */
  function TwoPrograms(p1: string, p2: string): seq<Event> {
    [Launch(1, p1, [])] + Settling(1, p1) + [Spawn(1, 2, p2, [], FromDisk)] + Settling(2, p2)
  }

  lemma {:induction false} TwoSettle(p1: string, p2: string)
    requires PlainPath(AMD64, p1) && PlainPath(AMD64, p2)
    ensures AllRoomy(TwoPrograms(p1, p2))
    ensures After(AMD64, TwoPrograms(p1, p2)) ==
            World(AMD64, map[1 := SettledProc(0, 1, p1), 2 := SettledProc(1, 2, p2)])
  {
    hide PlainPath, LoaderFile, IsLoaderPath, Inv, KnownHost, GoesOn, After, AllRoomy, RebuiltEnv, Settling;
    EvenPlan(p1);
    Launched(p1, [], Even(p1));
    var es := [Launch(1, p1, [])];
    EmptyIsHanded("");
    assert AllRoomy([]) by { NoEventsAreRoomy(); }
    RoomyMore([], es[0]);
    assert [] + [es[0]] == es;
    Settles(es, 0, 1, p1);
    var es2 := es + Settling(1, p1);
    var e := Spawn(1, 2, p2, [], FromDisk);
    Then(AMD64, es2, e);
    RoomyMore(es2, e);
    Settles(es2 + [e], 1, 2, p2);
  }

  lemma {:induction false} NoEventsAreRoomy()
    ensures AllRoomy([])
  {
  }

  /** When a program starts the memfd image of another program, which it can because the descriptor is
      inherited, the bridge of that image records the starter's file as its own. */
  lemma {:induction false} ImageOfAnother(p1: string, p2: string)
    requires PlainPath(AMD64, p1) && PlainPath(AMD64, p2) && PathFits(p2)
    ensures var w := After(AMD64, TwoPrograms(p1, p2) + [SpawnMem(2, 3, 1, EnvFor(2, p2)), Reexec(3, Even(p1))]);
            3 in w.procs && LastTagged(w.procs[3].env, EXE_KEY, 3) == Some(p2) && w.procs[3].origin == p1
  {
    hide PlainPath, LoaderFile, IsLoaderPath, Inv, KnownHost, After, AllRoomy, RebuiltEnv, TwoPrograms, PathFits;
    hide LastTagged, GoesOn, NextEnv, EnvFor;
    var es, e7, e8 := TwoPrograms(p1, p2), SpawnMem(2, 3, 1, EnvFor(2, p2)), Reexec(3, Even(p1));
    TwoSettle(p1, p2);
    Then(AMD64, es, e7);
    var w := After(AMD64, es + [e7]);
    AmdIsKnown();
    AlwaysInv(AMD64, es + [e7]);
    ForeignGoesOn(w, p1, p2);
    Then(AMD64, es + [e7], e8);
    ForeignNext(w.procs[3], p1, p2);
    LeavesRecord(EnvFor(2, p2), 3, p2);
    assert es + [e7] + [e8] == es + [e7, e8];
  }

  lemma {:induction false} ForeignGoesOn(w: World, p1: string, p2: string)
    requires PlainPath(AMD64, p1) && Inv(w) && w.host == AMD64 && 3 in w.procs
    requires w.procs[3].phase == AtBridge && w.procs[3].reexecs == 0
    requires w.procs[3].exe.MemImage? && w.procs[3].parent == 2 && w.procs[3].env == EnvFor(2, p2)
    ensures GoesOn(w, 3, w.procs[3], Even(p1))
  {
    hide Inv, LoaderFile, IsLoaderPath, KnownHost, Undecided, TailOk, EnvFor, RebuiltFor, Seen;
    AmdIsKnown();
    EvenPlan(p1);
    EnvForIsSeen(2, p2);
    UndecidedForeign(w);
    MemfdIsNoLoader(AMD64);
    NoTail(w.procs[3].env);
  }

  lemma {:induction false} ForeignNext(x: Proc, p1: string, p2: string)
    requires x.exe.MemImage? && x.parent == 2 && x.env == EnvFor(2, p2) && PathFits(p2)
    ensures NextEnv(3, x, Even(p1)) == RebuiltEnv(x.env, 0, 3, Some(p2), None)
  {
    hide LastTagged, Handed, Recorded, RebuiltEnv, PathFits, RebuiltFor, Seen;
    EnvForIsSeen(2, p2);
    WholeIsHanded(x.env, "", EXE_KEY, 2);
    LeavesRecord([], 2, p2);
    MemfdHasPrefix();
  }

  lemma {:induction false} EnvForIsSeen(pid: nat, path: string)
    requires pid < WORD
    ensures Seen(EnvFor(pid, path), 0) && RebuiltFor(EnvFor(pid, path), pid)
  {
    hide RebuiltEnv, RebuiltFor;
    EmptyIsHanded("");
    assert Seen([], 0);
    RebuiltIsSeen([], 0, pid, Some(path), None);
    RebuiltIsFor([], 0, pid, Some(path), None);
  }

  lemma {:induction false} UndecidedForeign(w: World)
    requires Inv(w) && 3 in w.procs && w.procs[3].phase == AtBridge && w.procs[3].reexecs == 0
    requires w.procs[3].parent == 2 && RebuiltFor(w.procs[3].env, 2)
    ensures Undecided(3, w.procs[3])
  {
    hide Inv, Visible, LastTagged, GuardCut, RebuiltFor;
    GuardRecognised(w, 3);
    GuardSeen(w.procs[3].env, 2, 2);
  }
}
