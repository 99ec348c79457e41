/** A discipline of launching under which no bridge is mistaken about its image. */
module ProtocolOrderly {
  import opened BridgeText
  import opened Tags
  import opened EnvBlock
  import opened EnvSight
  import opened EnvRebuild
  import opened EnvLaunch
  import opened BridgePaths
  import opened Protocol
  import opened ProtocolSafety
  import opened ProtocolRoomy
  import opened ProtocolRecords

  /** A program's file keeps the name it was started under until its bridge has asked for it. */
  predicate KeepsName(x: Proc, plan: Plan) {
    x.exe.Disk? && plan.linkOk ==> plan.name == x.origin
  }

  /** Programs keep their names, loaders run under a name the bridge recognises, and a memfd image is started
      only by a re-execed process, from a bridge of its own program. */
  predicate OrderlyStep(w: World, e: Event)
    requires Enabled(w, e)
  {
    match e
    case HandLaunch(_, _, loader, _) => IsLoaderPath(w.host, loader)
    case Spawn(_, _, _, _, how) => how.ByHand? ==> IsLoaderPath(w.host, how.loader)
    case SpawnMem(parent, _, maker, _) =>
      w.procs[parent].reexecs > 0 && w.procs[maker].origin == w.procs[parent].origin
    case Reexec(pid, plan) => KeepsName(w.procs[pid], plan)
    case StartProbe(pid, _, plan) => KeepsName(w.procs[pid], plan) && IsLoaderPath(w.host, plan.loader)
    case _ => true
  }

  predicate Orderly(host: HostTable, es: seq<Event>) {
    es == [] ||
    var before, e := es[..|es| - 1], es[|es| - 1];
    Orderly(host, before) && (Enabled(After(host, before), e) ==> OrderlyStep(After(host, before), e))
  }

  /** The entry names paths only for processes of the given file. */
  ghost predicate EntryOf(procs: map<nat, Proc>, origin: string, e: string) {
    forall q: nat :: q < WORD && TagValue(e, EXE_KEY, q) != None ==> q in procs && procs[q].origin == origin
  }

  ghost predicate EnvOf(procs: map<nat, Proc>, origin: string, env: seq<string>) {
    forall i {:trigger EntryOf(procs, origin, env[i])} :: 0 <= i < |env| ==> EntryOf(procs, origin, env[i])
  }

  ghost predicate OrderOk(host: HostTable, procs: map<nat, Proc>, x: Proc) {
    match x.exe
    case Disk(_) => true
    case Loader(path) => x.reexecs == 0 ==> IsLoaderPath(host, path)
    case MemImage(_) => EnvOf(procs, x.origin, x.env)
  }

  ghost predicate OrderInv(w: World) {
    forall pid {:trigger OrderOk(w.host, w.procs, w.procs[pid])} ::
      pid in w.procs ==> OrderOk(w.host, w.procs, w.procs[pid])
  }

  lemma {:induction false} EnvOfStill(a: map<nat, Proc>, b: map<nat, Proc>, origin: string, env: seq<string>)
    requires Extends(a, b) && EnvOf(a, origin, env)
    ensures EnvOf(b, origin, env)
  {
    hide TagValue;
    forall i | 0 <= i < |env| ensures EntryOf(b, origin, env[i]) { assert EntryOf(a, origin, env[i]); }
  }

  /** What the environment of a re-execed process says is about that process. */
  lemma {:induction false} RebuiltIsOf(procs: map<nat, Proc>, env: seq<string>, pid: nat)
    requires pid in procs && RebuiltFor(env, pid)
    ensures EnvOf(procs, procs[pid].origin, env)
  {
    hide TagValue, NonBridge, GuardOf, IsKey;
    TheKeys();
    forall i | 0 <= i < |env| ensures EntryOf(procs, procs[pid].origin, env[i]) { assert About(env[i], pid); }
  }

  lemma {:induction false} InheritedIsOf(procs: map<nat, Proc>, origin: string, child: seq<string>, parent: seq<string>)
    requires Inherits(child, parent) && EnvOf(procs, origin, parent)
    ensures EnvOf(procs, origin, child)
  {
    hide EntryOf, IsBridgeVar;
    forall i | 0 <= i < |child| ensures EntryOf(procs, origin, child[i]) {
      if IsBridgeVar(child[i]) {
        var j :| 0 <= j < |parent| && parent[j] == child[i];
      } else {
        CleanIsOf(procs, origin, child[i]);
      }
    }
  }

  lemma {:induction false} CleanIsOf(procs: map<nat, Proc>, origin: string, e: string)
    requires !IsBridgeVar(e)
    ensures EntryOf(procs, origin, e)
  {
    hide TagValue;
    forall q: nat | TagValue(e, EXE_KEY, q) != None ensures false { TagNeedsKey(e, EXE_KEY, q); }
  }

  lemma {:induction false} OrderStill(host: HostTable, a: map<nat, Proc>, b: map<nat, Proc>, x: Proc, y: Proc)
    requires Extends(a, b) && OrderOk(host, a, x)
    requires y.exe == x.exe && y.reexecs == x.reexecs && y.origin == x.origin && y.env == x.env
    ensures OrderOk(host, b, y)
  {
    hide EnvOf, IsLoaderPath, Extends;
    if x.exe.MemImage? { EnvOfStill(a, b, x.origin, x.env); }
  }

  lemma {:induction false} OneChangeOrdered(w: World, pid: nat, x: Proc)
    requires OrderInv(w) && Extends(w.procs, w.procs[pid := x]) && OrderOk(w.host, w.procs[pid := x], x)
    ensures OrderInv(Set(w, pid, x))
  {
    hide OrderOk, Extends;
    var b := w.procs[pid := x];
    forall p | p in b ensures OrderOk(w.host, b, b[p]) {
      if p != pid {
        assert OrderOk(w.host, w.procs, w.procs[p]);
        OrderStill(w.host, w.procs, b, w.procs[p], b[p]);
      }
    }
  }

  lemma {:induction false} MemImageOrdered(w: World, e: Event)
    requires Inv(w) && Enabled(w, e) && e.SpawnMem? && OrderlyStep(w, e)
    ensures OrderOk(w.host, w.procs, Apply(w, e).procs[e.pid])
  {
    hide EnvKnown, ImageOk, PhaseOk, ProbeOk, HoldsProbe, AnyEscaped, KnownHost, EnvOf, RebuiltFor, Inherits, Unaware;
    var x := w.procs[e.parent];
    assert ProcOk(w.host, w.procs, e.parent);
    RebuiltIsOf(w.procs, x.env, e.parent);
    InheritedIsOf(w.procs, x.origin, e.env, x.env);
  }

  lemma {:induction false} NewIsOrdered(w: World, e: Event)
    requires Inv(w) && OrderInv(w) && Enabled(w, e) && OrderlyStep(w, e)
    requires e.Launch? || e.HandLaunch? || e.Spawn? || e.SpawnMem?
    ensures OrderInv(Apply(w, e))
  {
    hide Inv, EnvOf, PlainPath, LoaderFile, IsLoaderPath, Inherits, Clean, Extends, OrderInv;
    var b := Apply(w, e).procs;
    ExtendsNew(w.procs, e.pid, b[e.pid]);
    if e.SpawnMem? {
      MemImageOrdered(w, e);
      EnvOfStill(w.procs, b, b[e.pid].origin, e.env);
    }
    OneChangeOrdered(w, e.pid, b[e.pid]);
  }

  lemma {:induction false} DecisionIsOrdered(w: World, e: Event)
    requires OrderInv(w) && Enabled(w, e)
    requires e.EnvUnreadable? || e.SeeProbe? || e.SeeGuard? || e.SeeLoader? || e.GiveUp?
             || e.ProbeFailed? || e.ExecFailed?
    requires Inv(w)
    ensures OrderInv(Apply(w, e))
  {
    hide Inv, EnvOf, IsLoaderPath, Extends, Probing, Guarded;
    var b := Apply(w, e).procs;
    ExtendsSame(w.procs, e.pid, b[e.pid]);
    OrderStill(w.host, w.procs, b, w.procs[e.pid], b[e.pid]);
    hide OrderInv;
    OneChangeOrdered(w, e.pid, b[e.pid]);
  }

  lemma {:induction false} ExecIsOrdered(w: World, e: Event)
    requires Inv(w) && OrderInv(w) && Enabled(w, e) && (e.Reexec? || e.ProbePassed? || e.ProbeUnknown?)
    ensures OrderInv(Apply(w, e))
  {
    hide Inv, IsLoaderPath, Extends, Probing, Guarded, TailOk, LoaderFile, NextEnv, OrderInv;
    var y := Apply(w, e).procs[e.pid];
    ExtendsSame(w.procs, e.pid, y);
    OneChangeOrdered(w, e.pid, y);
  }

  lemma {:induction false} ProbeIsOrdered(w: World, e: Event)
    requires Inv(w) && OrderInv(w) && Enabled(w, e) && e.StartProbe? && OrderlyStep(w, e)
    ensures OrderInv(Apply(w, e))
  {
    hide Inv, IsLoaderPath, Extends, Probing, Guarded, TailOk, LoaderFile, NextEnv, ProbeRecord, EnvOf;
    var pid, x := e.pid, w.procs[e.pid];
    var next := NextEnv(pid, x, e.plan);
    var y, c := x.(phase := Waiting(e.child, next)), ProbeChild(pid, next, e.plan.loader, x.origin);
    var w1 := Set(w, pid, y);
    ExtendsSame(w.procs, pid, y);
    OrderStill(w.host, w.procs, w1.procs, x, y);
    hide OrderInv;
    OneChangeOrdered(w, pid, y);
    ExtendsNew(w1.procs, e.child, c);
    OneChangeOrdered(w1, e.child, c);
  }

  lemma {:induction false} DieIsOrdered(w: World, e: Event)
    requires OrderInv(w) && Enabled(w, e) && e.Die?
    ensures OrderInv(Apply(w, e))
  {
    hide OrderOk, Extends;
    var b := Reparented(w.procs, e.pid, e.heir);
    DieExtends(w.procs, e.pid, e.heir);
    forall p | p in b ensures OrderOk(w.host, b, b[p]) {
      assert OrderOk(w.host, w.procs, w.procs[p]);
      OrderStill(w.host, w.procs, b, w.procs[p], b[p]);
    }
  }

  lemma {:induction false} OrderKeeps(w: World, e: Event)
    requires Inv(w) && OrderInv(w) && Enabled(w, e) && OrderlyStep(w, e)
    ensures OrderInv(Apply(w, e))
  {
    hide Inv, OrderInv, Enabled, OrderlyStep;
    match e
    case Launch(_, _, _) => NewIsOrdered(w, e);
    case HandLaunch(_, _, _, _) => NewIsOrdered(w, e);
    case Spawn(_, _, _, _, _) => NewIsOrdered(w, e);
    case SpawnMem(_, _, _, _) => NewIsOrdered(w, e);
    case Reexec(_, _) => ExecIsOrdered(w, e);
    case ProbePassed(_, _) => ExecIsOrdered(w, e);
    case ProbeUnknown(_, _) => ExecIsOrdered(w, e);
    case StartProbe(_, _, _) => ProbeIsOrdered(w, e);
    case Die(_, _) => DieIsOrdered(w, e);
    case _ => DecisionIsOrdered(w, e);
  }

  /** In an orderly state nobody goes on mistaken about its image. */
  lemma {:induction false} OrderedIsNotMistaken(w: World, e: Event)
    requires Inv(w) && RoomInv(w) && OrderInv(w) && Enabled(w, e) && OrderlyStep(w, e)
    ensures !Misrecords(w, e)
  {
    hide Inv, RoomInv, Probing, Guarded, TailOk, LoaderFile, IsLoaderPath, LastTagged, NextEnv, Room, EnvOf;
    if (e.Reexec? || e.StartProbe?) && e.plan.linkOk {
      var x := w.procs[e.pid];
      assert OrderOk(w.host, w.procs, x);
      FirstTime(w, e.pid, e.plan);
      if x.exe.MemImage? && LastTagged(x.env, EXE_KEY, x.parent) != None {
        ParentSmall(w, e.pid);
        RecordedIsOf(w.procs, x.origin, x.env, x.parent);
      }
    }
  }

  lemma {:induction false} RecordedIsOf(procs: map<nat, Proc>, origin: string, env: seq<string>, q: nat)
    requires EnvOf(procs, origin, env) && q < WORD && LastTagged(env, EXE_KEY, q) != None
    ensures q in procs && procs[q].origin == origin
  {
    hide TagValue, LastTagged;
    var i := FoundIsThere(env, EXE_KEY, q);
    assert EntryOf(procs, origin, env[i]);
  }

  lemma {:induction false} AlwaysOrdered(host: HostTable, es: seq<Event>)
    requires KnownHost(host) && AllRoomy(es) && Orderly(host, es)
    ensures OrderInv(After(host, es)) && NeverMisrecords(host, es)
  {
    hide KnownHost, Enabled, Apply, Inv, RoomInv, OrderOk, Misrecords, RoomyEvent, OrderlyStep;
    if es != [] {
      var before, e := es[..|es| - 1], es[|es| - 1];
      AlwaysOrdered(host, before);
      AlwaysInv(host, before);
      AlwaysRoom(host, before);
      if Enabled(After(host, before), e) {
        OrderKeeps(After(host, before), e);
        OrderedIsNotMistaken(After(host, before), e);
      }
    }
  }

  /** In every orderly run, every recorded path is at all times the file on disk that the process it is
      about comes from. */
  lemma {:induction false} OrderlyRecordsAreRight(host: HostTable, es: seq<Event>)
    requires KnownHost(host) && AllRoomy(es) && Orderly(host, es)
    ensures AlwaysRight(host, es)
  {
    hide KnownHost, AllRoomy, Orderly, OrderInv, AlwaysRight, NeverMisrecords, After;
    AlwaysOrdered(host, es);
    RecordsRightIff(host, es);
  }
}
