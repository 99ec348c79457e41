/** Runs in which no process is started with an environment too large for the bridge to read whole. */
module ProtocolRoomy {
  import opened BridgeText
  import opened Tags
  import opened Staging
  import opened EnvBlock
  import opened EnvSight
  import opened EnvRebuild
  import opened EnvLaunch
  import opened BridgePaths
  import opened Protocol
  import opened ProtocolSafety

  /** More than a probe variable takes. */
  const PROBE_ROOM: nat := 64

  /** What a launcher can check: the environment leaves room in the buffer for whatever the bridge adds. */
  predicate LeavesRoom(env: seq<string>) {
    |Join(env)| + STR_BUF_CAP + PROBE_ROOM <= ENV_BUF_CAP
  }

  predicate RoomyEvent(e: Event) {
    match e
    case Launch(_, _, env) => LeavesRoom(env)
    case HandLaunch(_, _, _, env) => LeavesRoom(env)
    case Spawn(_, _, _, env, _) => LeavesRoom(env)
    case SpawnMem(_, _, _, env) => LeavesRoom(env)
    case _ => true
  }

  predicate AllRoomy(es: seq<Event>) {
    forall i :: 0 <= i < |es| ==> RoomyEvent(es[i])
  }

  /** The block and c more bytes are within the bytes read, and the own entries leave room for all records. */
  predicate Seen(env: seq<string>, c: nat) {
    |Join(NonBridge(env))| + STR_BUF_CAP + PROBE_ROOM <= ENV_BUF_CAP && |Join(env)| + c <= ENV_BUF_CAP
  }

  /** It sees its whole environment, and is re-execed at most once. */
  predicate RoomOk(x: Proc) {
    && Seen(x.env, 0) && x.reexecs <= 1
    && (x.phase.Waiting? ==> x.reexecs == 0 && Seen(x.phase.next, PROBE_ROOM))
    && (x.probeOf.Some? ==> !ProbeCut(x.born, x.probeOf.value))
  }

  ghost predicate RoomInv(w: World) {
    forall pid {:trigger RoomOk(w.procs[pid])} :: pid in w.procs ==> RoomOk(w.procs[pid])
  }

  lemma {:induction false} RoomMeansSeen(env: seq<string>)
    requires LeavesRoom(env)
    ensures Seen(env, 0)
  {
    hide Join, NonBridge;
    NonBridgeIsShorter(env);
  }

  /** Rebuilding keeps the own entries and adds no more than the staging buffer holds. */
  lemma {:induction false} RebuiltIsSeen(es: seq<string>, off: nat, pid: nat, exe: Option<string>,
      argv0: Option<string>)
    requires pid < WORD && Seen(es, 0)
    ensures Seen(RebuiltEnv(es, off, pid, exe, argv0), PROBE_ROOM)
  {
    hide Join, NonBridge, RebuiltEnv, Kept;
    OwnVariablesSurvive(es, off, pid, exe, argv0);
    KeptIsShorter(es);
    RebuiltIsShort(es, off, pid, exe, argv0);
  }

  lemma {:induction false} NextIsSeen(pid: nat, x: Proc, plan: Plan)
    requires pid < WORD && Seen(x.env, 0)
    ensures Seen(NextEnv(pid, x, plan), PROBE_ROOM)
  {
    hide Seen, RebuiltEnv, RealExe, Handed;
    WholeIsHanded(x.env, plan.tail, EXE_KEY, x.parent);
    RebuiltIsSeen(x.env, plan.off, pid, RealExe(x, plan), plan.argv0);
  }

  lemma {:induction false} WholeIsHanded(env: seq<string>, tail: string, key: string, q: nat)
    requires Seen(env, 0)
    ensures Handed(env, tail) == env && Recorded(env, tail, key, q) == LastTagged(env, key, q)
  {
    hide Join, NonBridge, Handed, Recorded, LastTagged;
    HandedAll(env, tail, key, q);
  }

  lemma {:induction false} ProbeLength(pid: nat)
    requires pid < WORD
    ensures |ProbeRecord(pid)| < PROBE_ROOM && RecordHead(PROBE_KEY, pid) <= PROBE_ROOM
    ensures IsBridgeVar(ProbeRecord(pid))
  {
    hide Decimal;
    DecimalLength(pid);
    assert PROBE_KEY <= ProbeRecord(pid);
  }

  lemma {:induction false} ProbeChildSeen(pid: nat, next: seq<string>, loader: string, origin: string)
    requires pid < WORD && Seen(next, PROBE_ROOM)
    ensures RoomOk(ProbeChild(pid, next, loader, origin))
  {
    hide Join, NonBridge, ProbeRecord, RecordHead;
    var env := next + [ProbeRecord(pid)];
    ProbeLength(pid);
    JoinOfTwo(next, ProbeRecord(pid));
    NonBridgeAppend(next, [ProbeRecord(pid)]);
    NonBridgeOfOne(ProbeRecord(pid));
    assert NonBridge(next) + [] == NonBridge(next);
    assert env[..|env| - 1] == next;
  }

  lemma {:induction false} NonBridgeOfOne(e: string)
    requires IsBridgeVar(e)
    ensures NonBridge([e]) == []
  {
    assert [e][..0] == [];
  }

  /** In such a state a guard is never cut off. */
  lemma {:induction false} GuardIsSeen(env: seq<string>, pid: nat)
    requires pid < WORD && Seen(env, 0)
    ensures !GuardCut(env, pid)
  {
    hide Decimal, Join, NonBridge;
    DecimalLength(pid);
  }

  lemma {:induction false} PidSmall(w: World, pid: nat)
    requires Inv(w) && pid in w.procs
    ensures pid < WORD
  {
    hide EnvKnown, ImageOk, ReexecOk, PhaseOk, ProbeOk, HoldsProbe, AnyEscaped, KnownHost;
    assert ProcOk(w.host, w.procs, pid);
  }

  /** Whoever goes on has not been re-execed. */
  lemma {:induction false} FirstTime(w: World, pid: nat, plan: Plan)
    requires Inv(w) && RoomInv(w) && pid in w.procs && GoesOn(w, pid, w.procs[pid], plan)
    ensures w.procs[pid].reexecs == 0 && Seen(NextEnv(pid, w.procs[pid], plan), PROBE_ROOM)
  {
    hide Inv, Probing, Guarded, IsLoaderPath, TailOk, LoaderFile, Seen, NextEnv, GuardCut;
    PidSmall(w, pid);
    GuardRecognised(w, pid);
    assert RoomOk(w.procs[pid]);
    GuardIsSeen(w.procs[pid].env, pid);
    NextIsSeen(pid, w.procs[pid], plan);
  }

  lemma {:induction false} RoomMore(env: seq<string>)
    requires Seen(env, PROBE_ROOM)
    ensures Seen(env, 0)
  {
  }

  lemma {:induction false} OneChangeRoom(w: World, pid: nat, x: Proc)
    requires RoomInv(w) && RoomOk(x)
    ensures RoomInv(Set(w, pid, x))
  {
    hide RoomOk;
    var b := w.procs[pid := x];
    forall p | p in b ensures RoomOk(b[p]) {
      if p != pid { assert RoomOk(w.procs[p]); }
    }
  }

  lemma {:induction false} ExecHasRoom(w: World, e: Event)
    requires Inv(w) && RoomInv(w) && Enabled(w, e)
    requires e.Reexec? || e.StartProbe? || e.ProbePassed? || e.ProbeUnknown?
    ensures RoomInv(Apply(w, e))
  {
    hide Inv, GoesOn, Seen, NextEnv, ProbeCut, LoaderFile, ProbeRecord, RoomInv;
    assert RoomOk(w.procs[e.pid]) by { RoomAt(w, e.pid); }
    if e.Reexec? || e.StartProbe? {
      FirstTime(w, e.pid, e.plan);
      PidSmall(w, e.pid);
      var next := NextEnv(e.pid, w.procs[e.pid], e.plan);
      RoomMore(next);
      if e.Reexec? {
        OneChangeRoom(w, e.pid, Execed(w.procs[e.pid], next, e.plan.loader));
      } else {
        var y := w.procs[e.pid].(phase := Waiting(e.child, next));
        var c := ProbeChild(e.pid, next, e.plan.loader, w.procs[e.pid].origin);
        ProbeChildSeen(e.pid, next, e.plan.loader, w.procs[e.pid].origin);
        OneChangeRoom(w, e.pid, y);
        OneChangeRoom(Set(w, e.pid, y), e.child, c);
      }
    } else {
      RoomMore(w.procs[e.pid].phase.next);
      OneChangeRoom(w, e.pid, Execed(w.procs[e.pid], w.procs[e.pid].phase.next, e.loader));
    }
  }

  lemma {:induction false} RoomAt(w: World, pid: nat)
    requires RoomInv(w) && pid in w.procs
    ensures RoomOk(w.procs[pid])
  {
    hide RoomOk;
  }

  lemma {:induction false} RoomKeeps(w: World, e: Event)
    requires Inv(w) && RoomInv(w) && Enabled(w, e) && RoomyEvent(e)
    ensures RoomInv(Apply(w, e))
  {
    hide Inv, GoesOn, Seen, ProbeCut, Undecided, Probing, Guarded, PlainPath, IsLoaderPath, Inherits, Clean, LeavesRoom;
    hide RoomInv, LoaderFile;
    if e.Launch? || e.HandLaunch? || e.Spawn? || e.SpawnMem? {
      RoomMeansSeen(e.env);
      OneChangeRoom(w, e.pid, Apply(w, e).procs[e.pid]);
    } else if e.Die? {
      DieHasRoom(w, e.pid, e.heir);
    } else if e.Reexec? || e.StartProbe? || e.ProbePassed? || e.ProbeUnknown? {
      ExecHasRoom(w, e);
    } else {
      RoomAt(w, e.pid);
      OneChangeRoom(w, e.pid, Apply(w, e).procs[e.pid]);
    }
  }

  lemma {:induction false} DieHasRoom(w: World, pid: nat, heir: nat)
    requires RoomInv(w)
    ensures RoomInv(w.(procs := Reparented(w.procs, pid, heir)))
  {
    hide Seen, ProbeCut;
    var b := Reparented(w.procs, pid, heir);
    forall p | p in b ensures RoomOk(b[p]) { assert RoomOk(w.procs[p]); }
  }

  lemma {:induction false} AlwaysRoom(host: HostTable, es: seq<Event>)
    requires KnownHost(host) && AllRoomy(es)
    ensures RoomInv(After(host, es))
  {
    hide KnownHost, Enabled, Apply, Inv, RoomOk, RoomyEvent;
    if es != [] {
      AlwaysRoom(host, es[..|es| - 1]);
      AlwaysInv(host, es[..|es| - 1]);
      var w, e := After(host, es[..|es| - 1]), es[|es| - 1];
      if Enabled(w, e) { RoomKeeps(w, e); }
    }
  }

  /** While every process is started with an environment that leaves room: no pid is re-execed twice, a
      guard counts for exactly the processes their own bridge has re-execed, and a probe child gets past
      the bridge only if the bridge that forked it is gone, or if it could not read its environment. */
  lemma {:induction false} RoomyRunsAreSafe(host: HostTable, es: seq<Event>, pid: nat)
    requires KnownHost(host) && AllRoomy(es) && pid in After(host, es).procs
    ensures var w := After(host, es); var x := w.procs[pid];
            && x.reexecs <= 1
            && (Guarded(pid, x) <==> x.reexecs == 1)
            && (x.probeOf.Some? && WentOn(x) ==> IsDead(w.procs, x.probeOf.value))
  {
    hide KnownHost, After, Guarded, GuardCut, Probing, ProbeCut, HoldsProbe, AnyEscaped, Inv, Seen;
    AlwaysInv(host, es);
    AlwaysRoom(host, es);
    BridgeIsSafe(host, es, pid);
    ProbesStop(host, es, pid);
    PidSmall(After(host, es), pid);
    RoomAt(After(host, es), pid);
    GuardIsSeen(After(host, es).procs[pid].env, pid);
  }
}
