/** What the recorded paths name, in runs whose environments the bridge reads whole. */
module ProtocolRecords {
  import opened BridgeText
  import opened Tags
  import opened EnvBlock
  import opened EnvSight
  import opened EnvRebuild
  import opened EnvLaunch
  import opened BridgePaths
  import opened Protocol
  import opened ProtocolSafety
  import opened ProtocolRoomy

  /* ---- recorded paths ---- */

  /** e records the path v for pid q. */
  predicate Names(e: string, q: nat, v: string) {
    match TagValue(e, EXE_KEY, q)
    case None => false
    case Some(k) => k <= |e| && e[k..] == v
  }

  /** Whatever path the entry records is the file its process comes from. */
  ghost predicate EntryRight(procs: map<nat, Proc>, e: string) {
    forall q: nat, v: string :: q < WORD && Names(e, q, v) ==> q in procs && v == procs[q].origin
  }

  ghost predicate EnvRight(procs: map<nat, Proc>, env: seq<string>) {
    forall i {:trigger EntryRight(procs, env[i])} :: 0 <= i < |env| ==> EntryRight(procs, env[i])
  }

  ghost predicate ProcRight(procs: map<nat, Proc>, x: Proc) {
    EnvRight(procs, x.env) && (x.phase.Waiting? ==> EnvRight(procs, x.phase.next))
  }

  /** Every recorded path, in every environment there is or is about to be, is right. */
  ghost predicate AllRight(procs: map<nat, Proc>) {
    forall p {:trigger ProcRight(procs, procs[p])} :: p in procs ==> ProcRight(procs, procs[p])
  }

  lemma {:induction false} LastIsNamed(es: seq<string>, q: nat) returns (i: nat)
    requires LastTagged(es, EXE_KEY, q) != None
    ensures i < |es| && Names(es[i], q, LastTagged(es, EXE_KEY, q).value)
  {
    hide TagValue;
    i := |es| - 1;
    if TagValue(es[i], EXE_KEY, q) == None {
      i := LastIsNamed(es[..i], q);
    } else {
      TagValueInside(es[i], EXE_KEY, q);
    }
  }

  /** Whoever finds a path finds the right one. */
  lemma {:induction false} FoundIsRight(procs: map<nat, Proc>, env: seq<string>, q: nat)
    requires EnvRight(procs, env) && q < WORD && LastTagged(env, EXE_KEY, q) != None
    ensures q in procs && LastTagged(env, EXE_KEY, q) == Some(procs[q].origin)
  {
    hide Names, LastTagged;
    var i := LastIsNamed(env, q);
    assert EntryRight(procs, env[i]);
  }

  lemma {:induction false} NamesNeedsKey(e: string, q: nat, v: string)
    requires Names(e, q, v)
    ensures EXE_KEY <= e && IsBridgeVar(e) && TagValue(e, EXE_KEY, q) != None
  {
  }

  /** What a record of the bridge names. */
  lemma {:induction false} RecordNames(k: string, pid: nat, val: string, q: nat, v: string)
    requires IsKey(k) && pid < WORD && q < WORD
    ensures Names(Tagged(k, pid, val), q, v) <==> k == EXE_KEY && q == pid && v == val
  {
    hide Decimal, IsKey;
    var e := Tagged(k, pid, val);
    TheKeys();
    RecordIsAbout(k, pid, val);
    assert e + "" == e && val + "" == val;
    FoundByItsPid(k, pid, val, "", q);
  }

  lemma {:induction false} CleanIsRight(procs: map<nat, Proc>, e: string)
    requires !IsBridgeVar(e)
    ensures EntryRight(procs, e)
  {
    hide Names, IsBridgeVar;
    forall q: nat, v: string | Names(e, q, v) ensures false { NamesNeedsKey(e, q, v); }
  }

  lemma {:induction false} CleanEnvIsRight(procs: map<nat, Proc>, env: seq<string>)
    requires Clean(env)
    ensures EnvRight(procs, env)
  {
    hide EntryRight, IsBridgeVar;
    forall i | 0 <= i < |env| ensures EntryRight(procs, env[i]) { CleanIsRight(procs, env[i]); }
  }

  lemma {:induction false} InheritedIsRight(procs: map<nat, Proc>, child: seq<string>, parent: seq<string>)
    requires Inherits(child, parent) && EnvRight(procs, parent)
    ensures EnvRight(procs, child)
  {
    hide EntryRight, IsBridgeVar;
    forall i | 0 <= i < |child| ensures EntryRight(procs, child[i]) {
      if IsBridgeVar(child[i]) {
        var j :| 0 <= j < |parent| && parent[j] == child[i];
      } else {
        CleanIsRight(procs, child[i]);
      }
    }
  }

  lemma {:induction false} RightStill(a: map<nat, Proc>, b: map<nat, Proc>, env: seq<string>)
    requires Extends(a, b) && EnvRight(a, env)
    ensures EnvRight(b, env)
  {
    hide Names;
    forall i | 0 <= i < |env| ensures EntryRight(b, env[i]) { assert EntryRight(a, env[i]); }
  }

  lemma {:induction false} RecordRightIff(procs: map<nat, Proc>, k: string, pid: nat, val: string)
    requires IsKey(k) && pid < WORD && pid in procs
    ensures EntryRight(procs, Tagged(k, pid, val)) <==> (k == EXE_KEY ==> val == procs[pid].origin)
  {
    hide Names, Tagged, IsKey;
    var e := Tagged(k, pid, val);
    forall q: nat, v: string | q < WORD ensures Names(e, q, v) <==> k == EXE_KEY && q == pid && v == val {
      RecordNames(k, pid, val, q, v);
    }
    if k == EXE_KEY { assert Names(e, pid, val); }
  }

  /** A rebuilt environment is right exactly if the path recorded in it, if any, is. */
  lemma {:induction false} RebuiltRightIff(procs: map<nat, Proc>, es: seq<string>, off: nat, pid: nat,
      exe: Option<string>, argv0: Option<string>)
    requires pid < WORD && pid in procs
    ensures EnvRight(procs, RebuiltEnv(es, off, pid, exe, argv0)) <==>
            (ExeRecord(off, pid, exe) != [] ==> exe == Some(procs[pid].origin))
  {
    hide EntryRight, Room, LastTagged, Tagged, IsBridgeVar, RebuiltEnv, Kept, IsKey;
    RebuiltIs(es, off, pid, exe, argv0);
    KeptIsClean(es);
    TheKeys();
    var kept, rs, env := Kept(es), Records(es, off, pid, exe, argv0), RebuiltEnv(es, off, pid, exe, argv0);
    forall i | 0 <= i < |kept| ensures EntryRight(procs, kept[i]) { CleanIsRight(procs, kept[i]); }
    DistinctKeys();
    RecordRightIff(procs, GUARD_KEY, pid, "1");
    if exe.Some? { RecordRightIff(procs, EXE_KEY, pid, exe.value); }
    if argv0.Some? { RecordRightIff(procs, ARGV0_KEY, pid, argv0.value); }
    if ExeRecord(off, pid, exe) != [] { assert env[|kept| + 1] == Tagged(EXE_KEY, pid, exe.value); }
    assert forall i :: |kept| <= i < |env| ==> env[i] == rs[i - |kept|];
  }

  /* ---- when a bridge records a wrong path ---- */

  /** The file the bridge takes its image to come from when it was not started from there: the name
      readlink gives, if the file no longer has the name it was started under; the loader, if it runs under
      a name that is not recognised; the file of the parent, if it runs a memfd made by a bridge of another
      program. */
  function Mistaken(procs: map<nat, Proc>, x: Proc, name: string): Option<string> {
    match x.exe
    case Disk(_) => if name == x.origin then None else Some(name)
    case Loader(path) => if path == x.origin then None else Some(path)
    case MemImage(_) =>
      if x.parent in procs && LastTagged(x.env, EXE_KEY, x.parent) != None && procs[x.parent].origin != x.origin
      then Some(procs[x.parent].origin) else None
  }

  /** It goes on, readlink answers, and there is room to record the mistaken path. */
  predicate Misrecords(w: World, e: Event) {
    && (e.Reexec? || e.StartProbe?) && e.pid in w.procs && e.plan.linkOk
    && var path := Mistaken(w.procs, w.procs[e.pid], e.plan.name);
       path.Some? && Room(AfterGuard(e.plan.off, e.pid), Tagged(EXE_KEY, e.pid, path.value))
  }

  /** What the bridge takes for its file. */
  lemma {:induction false} RealExeIs(w: World, pid: nat, plan: Plan)
    requires Inv(w) && RoomInv(w) && pid in w.procs && ProcRight(w.procs, w.procs[pid]) && plan.linkOk
    requires NameOk(w.host, w.procs[pid].exe, plan.name)
    ensures var x := w.procs[pid]; var r, wrong := RealExe(x, plan), Mistaken(w.procs, x, plan.name);
            && (wrong.Some? ==> r == wrong && r != Some(x.origin))
            && (wrong.None? ==> r == None || r == Some(x.origin))
  {
    hide EnvKnown, ReexecOk, PhaseOk, ProbeOk, HoldsProbe, AnyEscaped, KnownHost, IsLoaderPath;
    hide EnvRight, LastTagged, Recorded, Seen, ProbeCut;
    var x := w.procs[pid];
    assert ProcOk(w.host, w.procs, pid);
    assert RoomOk(x);
    WholeIsHanded(x.env, plan.tail, EXE_KEY, x.parent);
    MemfdHasPrefix();
    if x.exe.MemImage? && LastTagged(x.env, EXE_KEY, x.parent) != None {
      ParentSmall(w, pid);
      FoundIsRight(w.procs, x.env, x.parent);
    }
  }

  lemma {:induction false} NextRightIff(w: World, procs: map<nat, Proc>, e: Event)
    requires Inv(w) && RoomInv(w) && Enabled(w, e) && (e.Reexec? || e.StartProbe?) && Extends(w.procs, procs)
    requires ProcRight(w.procs, w.procs[e.pid])
    ensures EnvRight(procs, NextEnv(e.pid, w.procs[e.pid], e.plan)) <==> !Misrecords(w, e)
  {
    hide Inv, RoomInv, RebuiltEnv, RealExe, Undecided, IsLoaderPath, NameOk, LoaderFile, TailOk, FreshPid;
    hide EnvRight, Mistaken, Room, Tagged, Handed, ProcRight;
    var pid, plan := e.pid, e.plan;
    var x := w.procs[pid];
    PidSmall(w, pid);
    RebuiltRightIff(procs, Handed(x.env, plan.tail), plan.off, pid, RealExe(x, plan), plan.argv0);
    if plan.linkOk { RealExeIs(w, pid, plan); } else { NoLinkNoPath(x, plan); }
  }

  lemma {:induction false} NoLinkNoPath(x: Proc, plan: Plan)
    requires !plan.linkOk
    ensures RealExe(x, plan) == None
  {
  }

  /* ---- one event at a time ---- */

  lemma {:induction false} ProcRightStill(a: map<nat, Proc>, b: map<nat, Proc>, x: Proc, y: Proc)
    requires Extends(a, b) && ProcRight(a, x) && y.env == x.env
    requires y.phase.Waiting? ==> y.phase == x.phase
    ensures ProcRight(b, y)
  {
    hide EnvRight, Extends;
    RightStill(a, b, x.env);
    if x.phase.Waiting? { RightStill(a, b, x.phase.next); }
  }

  lemma {:induction false} OneChangeRight(w: World, pid: nat, x: Proc)
    requires AllRight(w.procs) && Extends(w.procs, w.procs[pid := x])
    ensures AllRight(Set(w, pid, x).procs) <==> ProcRight(w.procs[pid := x], x)
  {
    hide ProcRight, Extends;
    var b := w.procs[pid := x];
    forall p | p in b && p != pid ensures ProcRight(b, b[p]) {
      assert ProcRight(w.procs, w.procs[p]);
      ProcRightStill(w.procs, b, w.procs[p], b[p]);
    }
    assert b[pid] == x;
  }

  lemma {:induction false} NewIsRight(w: World, e: Event)
    requires AllRight(w.procs) && Enabled(w, e) && (e.Launch? || e.HandLaunch? || e.Spawn? || e.SpawnMem?)
    ensures AllRight(Apply(w, e).procs)
  {
    hide EnvRight, PlainPath, LoaderFile, Inherits, Clean, Extends;
    var b := Apply(w, e).procs;
    ExtendsNew(w.procs, e.pid, b[e.pid]);
    if e.Launch? || e.HandLaunch? {
      CleanEnvIsRight(b, e.env);
    } else {
      assert ProcRight(w.procs, w.procs[e.parent]);
      InheritedIsRight(w.procs, e.env, w.procs[e.parent].env);
      RightStill(w.procs, b, e.env);
    }
    OneChangeRight(w, e.pid, b[e.pid]);
  }

  lemma {:induction false} DecisionIsRight(w: World, e: Event)
    requires Inv(w) && AllRight(w.procs) && Enabled(w, e)
    requires e.EnvUnreadable? || e.SeeProbe? || e.SeeGuard? || e.SeeLoader? || e.GiveUp?
             || e.ProbeFailed? || e.ExecFailed?
    ensures AllRight(Apply(w, e).procs)
  {
    hide EnvRight, Inv, IsLoaderPath, Extends, Probing, Guarded;
    var b := Apply(w, e).procs;
    ExtendsSame(w.procs, e.pid, b[e.pid]);
    ProcRightStill(w.procs, b, w.procs[e.pid], b[e.pid]);
    hide ProcRight;
    OneChangeRight(w, e.pid, b[e.pid]);
  }

  lemma {:induction false} DieIsRight(w: World, pid: nat, heir: nat)
    requires AllRight(w.procs) && Live(w, pid)
    ensures AllRight(Reparented(w.procs, pid, heir))
  {
    hide ProcRight, Extends;
    var b := Reparented(w.procs, pid, heir);
    DieExtends(w.procs, pid, heir);
    forall p | p in b ensures ProcRight(b, b[p]) { ProcRightStill(w.procs, b, w.procs[p], b[p]); }
  }

  lemma {:induction false} LateExecIsRight(w: World, e: Event)
    requires Inv(w) && AllRight(w.procs) && Enabled(w, e) && (e.ProbePassed? || e.ProbeUnknown?)
    ensures AllRight(Apply(w, e).procs)
  {
    hide EnvRight, Inv, LoaderFile, Extends;
    var x := w.procs[e.pid];
    var y := Execed(x, x.phase.next, e.loader);
    assert ProcRight(w.procs, x);
    ExtendsSame(w.procs, e.pid, y);
    RightStill(w.procs, w.procs[e.pid := y], x.phase.next);
    OneChangeRight(w, e.pid, y);
  }

  lemma {:induction false} ReexecRightIff(w: World, e: Event)
    requires Inv(w) && RoomInv(w) && AllRight(w.procs) && Enabled(w, e) && e.Reexec?
    ensures AllRight(Apply(w, e).procs) <==> !Misrecords(w, e)
  {
    hide EnvRight, Inv, RoomInv, LoaderFile, Extends, Misrecords, NextEnv, Probing, Guarded, TailOk, IsLoaderPath;
    var x := w.procs[e.pid];
    var y := Execed(x, NextEnv(e.pid, x, e.plan), e.plan.loader);
    var b := w.procs[e.pid := y];
    assert ProcRight(w.procs, x);
    ExtendsSame(w.procs, e.pid, y);
    NextRightIff(w, b, e);
    OneChangeRight(w, e.pid, y);
  }

  lemma {:induction false} ProbeRecordIsRight(procs: map<nat, Proc>, env: seq<string>, pid: nat)
    requires pid < WORD && pid in procs && EnvRight(procs, env)
    ensures EnvRight(procs, env + [ProbeRecord(pid)])
  {
    hide EntryRight, Tagged, IsKey;
    TheKeys();
    DistinctKeys();
    RecordRightIff(procs, PROBE_KEY, pid, "1");
  }

  lemma {:induction false} StartProbeRightIff(w: World, e: Event)
    requires Inv(w) && RoomInv(w) && AllRight(w.procs) && Enabled(w, e) && e.StartProbe?
    ensures AllRight(Apply(w, e).procs) <==> !Misrecords(w, e)
  {
    hide EnvRight, Inv, RoomInv, Extends, Misrecords, NextEnv, ProbeRecord, GoesOn, AllRight, RebuiltFor, MayGoOn;
    var pid, x := e.pid, w.procs[e.pid];
    var next := NextEnv(pid, x, e.plan);
    var y, c := x.(phase := Waiting(e.child, next)), ProbeChild(pid, next, e.plan.loader, x.origin);
    var w1 := Set(w, pid, y);
    assert x.phase == AtBridge && ProcRight(w.procs, x) by { AtBridgeRight(w, e); }
    assert Apply(w, e) == Set(w1, e.child, c);
    ExtendsSame(w.procs, pid, y);
    NextRightIff(w, w1.procs, e);
    RightStill(w.procs, w1.procs, x.env);
    OneChangeRight(w, pid, y);
    if !Misrecords(w, e) {
      ExtendsNew(w1.procs, e.child, c);
      PidSmall(w, pid);
      ProbeRecordIsRight(w1.procs, next, pid);
      RightStill(w1.procs, Set(w1, e.child, c).procs, c.env);
      OneChangeRight(w1, e.child, c);
    } else {
      GoingOn(w, pid, e.plan);
      WrongStays(w1, pid, e.child, c);
    }
  }

  lemma {:induction false} AtBridgeRight(w: World, e: Event)
    requires AllRight(w.procs) && Enabled(w, e) && e.StartProbe?
    ensures w.procs[e.pid].phase == AtBridge && ProcRight(w.procs, w.procs[e.pid])
  {
    hide ProcRight, Probing, Guarded, TailOk, IsLoaderPath, LoaderFile;
  }

  /** A wrong path does not become right by adding a process it is not about. */
  lemma {:induction false} WrongStays(w: World, pid: nat, child: nat, c: Proc)
    requires pid in w.procs && child !in w.procs && w.procs[pid].phase.Waiting?
    requires !EnvRight(w.procs, w.procs[pid].phase.next) && RebuiltFor(w.procs[pid].phase.next, pid) && child < WORD
    ensures !AllRight(w.procs[child := c])
  {
    hide Names, About, NonBridge, GuardOf;
    var b, next := w.procs[child := c], w.procs[pid].phase.next;
    assert b[pid] == w.procs[pid];
    if AllRight(b) {
      assert ProcRight(b, b[pid]);
      forall i | 0 <= i < |next| ensures EntryRight(w.procs, next[i]) {
        forall q: nat, v: string | q < WORD && Names(next[i], q, v) ensures q in w.procs && v == w.procs[q].origin {
          assert EntryRight(b, next[i]);
          OnlyAbout(next[i], q, v, pid);
        }
      }
    }
  }

  lemma {:induction false} OnlyAbout(e: string, q: nat, v: string, pid: nat)
    requires About(e, pid) && q < WORD && Names(e, q, v)
    ensures q == pid
  {
    hide Names;
    TheKeys();
    NamesNeedsKey(e, q, v);
  }

  /** If all recorded paths are right, they stay right exactly unless the event is a bridge that goes on
      mistaken about its image. */
  lemma {:induction false} RightStepIff(w: World, e: Event)
    requires Inv(w) && RoomInv(w) && AllRight(w.procs) && Enabled(w, e)
    ensures AllRight(Apply(w, e).procs) <==> !Misrecords(w, e)
  {
    hide Inv, RoomInv, AllRight, Enabled, Mistaken;
    match e
    case Reexec(_, _) => ReexecRightIff(w, e);
    case StartProbe(_, _, _) => StartProbeRightIff(w, e);
    case ProbePassed(_, _) => LateExecIsRight(w, e);
    case ProbeUnknown(_, _) => LateExecIsRight(w, e);
    case Die(pid, heir) =>
      assert Live(w, pid) by { DieIsLive(w, e); }
      DieIsRight(w, pid, heir);
    case Launch(_, _, _) => NewIsRight(w, e);
    case HandLaunch(_, _, _, _) => NewIsRight(w, e);
    case Spawn(_, _, _, _, _) => NewIsRight(w, e);
    case SpawnMem(_, _, _, _) => NewIsRight(w, e);
    case _ => DecisionIsRight(w, e);
  }

  lemma {:induction false} DieIsLive(w: World, e: Event)
    requires Enabled(w, e) && e.Die?
    ensures Live(w, e.pid)
  {
  }

  /* ---- whole runs ---- */

  /** All recorded paths are right, now and before. */
  ghost predicate AlwaysRight(host: HostTable, es: seq<Event>) {
    AllRight(After(host, es).procs) && (es != [] ==> AlwaysRight(host, es[..|es| - 1]))
  }

  predicate NeverMisrecords(host: HostTable, es: seq<Event>) {
    es == [] ||
    var before, e := es[..|es| - 1], es[|es| - 1];
    NeverMisrecords(host, before) && !(Enabled(After(host, before), e) && Misrecords(After(host, before), e))
  }

  /** In every run whose environments leave room, all recorded paths are right all the time exactly if no
      bridge goes on mistaken about its image. */
  lemma {:induction false} RecordsRightIff(host: HostTable, es: seq<Event>)
    requires KnownHost(host) && AllRoomy(es)
    ensures AlwaysRight(host, es) <==> NeverMisrecords(host, es)
  {
    hide KnownHost, Enabled, Apply, Inv, RoomInv, AllRight, Misrecords, RoomyEvent;
    if es == [] {
      NobodyIsRight();
    } else {
      var before, e := es[..|es| - 1], es[|es| - 1];
      RecordsRightIff(host, before);
      AlwaysInv(host, before);
      AlwaysRoom(host, before);
      var w := After(host, before);
      if AlwaysRight(host, before) && Enabled(w, e) { RightStepIff(w, e); }
    }
  }

  lemma {:induction false} NobodyIsRight()
    ensures AllRight(map[])
  {
  }

  /** Whoever then reads a record of an executable's path, in whatever process, reads the file on disk that
      the process it is about comes from: never the loader, never a memfd. */
  lemma {:induction false} RecordedPathsAreFiles(host: HostTable, es: seq<Event>, pid: nat, q: nat)
    requires KnownHost(host) && AllRoomy(es) && NeverMisrecords(host, es)
    requires pid in After(host, es).procs && q < WORD
    ensures var w := After(host, es);
            match LastTagged(w.procs[pid].env, EXE_KEY, q)
            case None => true
            case Some(path) => q in w.procs && path == w.procs[q].origin && PlainPath(host, path)
  {
    hide KnownHost, EnvKnown, HoldsProbe, LastTagged, AnyEscaped, After, NeverMisrecords, EnvRight;
    hide ReexecOk, PhaseOk, ProbeOk, PlainPath, LoaderFile;
    RecordsRightIff(host, es);
    AlwaysInv(host, es);
    var w := After(host, es);
    assert ProcRight(w.procs, w.procs[pid]);
    if LastTagged(w.procs[pid].env, EXE_KEY, q) != None {
      FoundIsRight(w.procs, w.procs[pid].env, q);
      assert ProcOk(host, w.procs, q);
    }
  }
}
