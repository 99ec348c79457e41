/** The re-exec bridge as a protocol between processes: every run of launches, spawns, bridge
    decisions, probes, execs and deaths. Environments are the byte strings the bridge reads and writes. */
module Protocol {
  import opened BridgeText
  import opened Tags
  import opened EnvBlock
  import opened EnvSight
  import opened EnvRebuild
  import opened EnvLaunch
  import opened BridgePaths

  /** What /proc/self/exe names: a file, the memfd image of process maker, or a loader, by the name
      readlink answers for it. */
  datatype Exe = Disk(path: string) | MemImage(maker: nat) | Loader(path: string)

  /** Before the bridge; waiting for a probe, with the environment for the exec that may follow; past
      the bridge with its verdict; gone, with exit status zero or not. */
  datatype Phase = AtBridge | Waiting(probe: nat, next: seq<string>) | Running(libc: bool) | Dead(ok: bool)

  /** A process. The last seven fields record history: the environment it was started with, whether its
      image was started through a loader, how often its bridge execed it, the file its image comes from,
      the bridge that forked it as a probe, whether it has got past the bridge, and whether it did so
      without reading its environment. */
  datatype Proc = Proc(parent: nat, env: seq<string>, exe: Exe, phase: Phase, born: seq<string>,
                       viaLoader: bool, reexecs: nat, origin: string, probeOf: Option<nat>, past: bool, blind: bool)

  datatype World = World(host: HostTable, procs: map<nat, Proc>)

  /** What one pass through the bridge meets: whether readlink succeeds, the name it gives for a file on
      disk, the memory after the environment buffer, the staging offset, the command line, and the name of
      the loader it would exec. */
  datatype Plan = Plan(linkOk: bool, name: string, tail: string, off: nat, argv0: Option<string>, loader: string)

  datatype How = FromDisk | ByHand(loader: string) | OtherProgram

  datatype Event =
    | Launch(pid: nat, path: string, env: seq<string>)
    | HandLaunch(pid: nat, path: string, loader: string, env: seq<string>)
    | Spawn(parent: nat, pid: nat, path: string, env: seq<string>, how: How)
    | SpawnMem(parent: nat, pid: nat, maker: nat, env: seq<string>)
    | EnvUnreadable(pid: nat)
    | SeeProbe(pid: nat)
    | SeeGuard(pid: nat)
    | SeeLoader(pid: nat, name: string)
    | GiveUp(pid: nat)
    | Reexec(pid: nat, plan: Plan)
    | StartProbe(pid: nat, child: nat, plan: Plan)
    | ProbePassed(pid: nat, loader: string)
    | ProbeUnknown(pid: nat, loader: string)
    | ProbeFailed(pid: nat)
    | ExecFailed(pid: nat)
    | Die(pid: nat, heir: nat)

  /** The readlink answer. A file on disk need not have the name it was started under any more. */
  function LinkText(exe: Exe, name: string): string {
    match exe
    case Disk(_) => name
    case MemImage(_) => MEMFD_TEXT
    case Loader(path) => path
  }

  /** A loader is a file, whatever its name. */
  predicate LoaderFile(path: string) {
    !(MEMFD_PREFIX <= path)
  }

  /** Unlinked, replaced or renamed, a program's file is named neither like a loader nor like a memfd. */
  predicate NameOk(host: HostTable, exe: Exe, name: string) {
    exe.Disk? ==> PlainPath(host, name)
  }

  /** A probe variable of the parent's is among the bytes read. */
  predicate Probing(x: Proc) {
    LastTagged(Visible(x.env, ENV_BUF_CAP), PROBE_KEY, x.parent) != None
  }

  /** A guard for its own pid is among the bytes read. */
  predicate Guarded(pid: nat, x: Proc) {
    LastTagged(Visible(x.env, ENV_BUF_CAP), GUARD_KEY, pid) != None
  }

  /** It sees itself neither as a probe nor as re-execed. */
  predicate Undecided(pid: nat, x: Proc) {
    x.phase == AtBridge && !Probing(x) && !Guarded(pid, x)
  }

  /** The path to record: the readlink answer, or for a memfd image what the parent recorded. */
  function RealExe(x: Proc, plan: Plan): Option<string> {
    if !plan.linkOk then None
    else if MEMFD_PREFIX <= LinkText(x.exe, plan.name) then Recorded(x.env, plan.tail, EXE_KEY, x.parent)
    else Some(LinkText(x.exe, plan.name))
  }

  function NextEnv(pid: nat, x: Proc, plan: Plan): seq<string> {
    RebuiltEnv(Handed(x.env, plan.tail), plan.off, pid, RealExe(x, plan), plan.argv0)
  }

  /** The bridge goes on to the re-exec. */
  predicate GoesOn(w: World, pid: nat, x: Proc, plan: Plan) {
    && Undecided(pid, x) && LoaderFile(plan.loader) && TailOk(x.env, plan.tail)
    && (plan.linkOk ==> NameOk(w.host, x.exe, plan.name) && !IsLoaderPath(w.host, LinkText(x.exe, plan.name)))
  }

  predicate FreshPid(w: World, pid: nat) {
    0 < pid < WORD && pid !in w.procs
  }

  predicate IsPast(w: World, pid: nat) {
    pid in w.procs && w.procs[pid].phase.Running?
  }

  /** A program may set and drop variables, but it makes up none of the bridge's. */
  predicate Inherits(child: seq<string>, parent: seq<string>) {
    forall i :: 0 <= i < |child| && IsBridgeVar(child[i]) ==> child[i] in parent
  }

  predicate Clean(env: seq<string>) {
    forall i :: 0 <= i < |env| ==> !IsBridgeVar(env[i])
  }

  predicate Live(w: World, pid: nat) {
    pid in w.procs && !w.procs[pid].phase.Dead?
  }

  /** SpawnMem: any process past the bridge may start any bridge's memfd image, since the descriptor is
      inherited by everybody below. */
  predicate Enabled(w: World, e: Event) {
    match e
    case Launch(pid, path, env) => FreshPid(w, pid) && PlainPath(w.host, path) && Clean(env)
    case HandLaunch(pid, path, loader, env) =>
      FreshPid(w, pid) && PlainPath(w.host, path) && LoaderFile(loader) && Clean(env)
    case Spawn(parent, pid, path, env, how) =>
      FreshPid(w, pid) && IsPast(w, parent) && PlainPath(w.host, path) && Inherits(env, w.procs[parent].env)
      && (how.ByHand? ==> LoaderFile(how.loader))
    case SpawnMem(parent, pid, maker, env) =>
      FreshPid(w, pid) && IsPast(w, parent) && maker in w.procs && Inherits(env, w.procs[parent].env)
    case EnvUnreadable(pid) => pid in w.procs && w.procs[pid].phase == AtBridge
    case SeeProbe(pid) => pid in w.procs && w.procs[pid].phase == AtBridge && Probing(w.procs[pid])
    case SeeGuard(pid) =>
      pid in w.procs && w.procs[pid].phase == AtBridge && !Probing(w.procs[pid]) && Guarded(pid, w.procs[pid])
    case SeeLoader(pid, name) =>
      pid in w.procs && Undecided(pid, w.procs[pid]) && NameOk(w.host, w.procs[pid].exe, name)
      && IsLoaderPath(w.host, LinkText(w.procs[pid].exe, name))
    case GiveUp(pid) => pid in w.procs && Undecided(pid, w.procs[pid])
    case Reexec(pid, plan) => pid in w.procs && GoesOn(w, pid, w.procs[pid], plan)
    case StartProbe(pid, child, plan) =>
      pid in w.procs && GoesOn(w, pid, w.procs[pid], plan) && FreshPid(w, child)
    case ProbePassed(pid, loader) =>
      pid in w.procs && w.procs[pid].phase.Waiting? && LoaderFile(loader)
      && w.procs[pid].phase.probe in w.procs && w.procs[w.procs[pid].phase.probe].phase == Dead(true)
    case ProbeUnknown(pid, loader) => pid in w.procs && w.procs[pid].phase.Waiting? && LoaderFile(loader)
    case ProbeFailed(pid) =>
      pid in w.procs && w.procs[pid].phase.Waiting?
      && w.procs[pid].phase.probe in w.procs && w.procs[w.procs[pid].phase.probe].phase == Dead(false)
    case ExecFailed(pid) => pid in w.procs && w.procs[pid].phase.Waiting?
    case Die(pid, heir) => Live(w, pid) && heir != pid && (heir == 0 || Live(w, heir))
  }

  function Set(w: World, pid: nat, x: Proc): World {
    w.(procs := w.procs[pid := x])
  }

  function Passed(x: Proc, libc: bool): Proc {
    x.(phase := Running(libc), past := true)
  }

  /** execve through the loader: the pid stays, the image and the environment are new. */
  function Execed(x: Proc, env: seq<string>, loader: string): Proc {
    x.(env := env, exe := Loader(loader), phase := AtBridge, viaLoader := true, reexecs := x.reexecs + 1)
  }

  function NewProc(parent: nat, env: seq<string>, exe: Exe, origin: string): Proc {
    Proc(parent, env, exe, AtBridge, env, exe.Loader?, 0, origin, None, false, false)
  }

  function Spawned(parent: nat, path: string, env: seq<string>, how: How): Proc {
    match how
    case FromDisk => NewProc(parent, env, Disk(path), path)
    case ByHand(loader) => NewProc(parent, env, Loader(loader), path)
    case OtherProgram => Passed(NewProc(parent, env, Disk(path), path), false)
  }

  function ProbeRecord(pid: nat): string {
    Tagged(PROBE_KEY, pid, "1")
  }

  /** The probe child: the very launch its forker is about to make, and the probe variable. */
  function ProbeChild(pid: nat, next: seq<string>, loader: string, origin: string): Proc {
    NewProc(pid, next + [ProbeRecord(pid)], Loader(loader), origin).(probeOf := Some(pid))
  }

  function ProbeStarted(w: World, pid: nat, child: nat, plan: Plan): World
    requires pid in w.procs
  {
    var x := w.procs[pid];
    var next := NextEnv(pid, x, plan);
    Set(Set(w, pid, x.(phase := Waiting(child, next))), child, ProbeChild(pid, next, plan.loader, x.origin))
  }

  function Reparented(procs: map<nat, Proc>, pid: nat, heir: nat): map<nat, Proc> {
    map p | p in procs ::
      if p == pid then procs[p].(phase := Dead(false))
      else if procs[p].parent == pid then procs[p].(parent := heir)
      else procs[p]
  }

  function Apply(w: World, e: Event): World
    requires Enabled(w, e)
  {
    match e
    case Launch(pid, path, env) => Set(w, pid, NewProc(0, env, Disk(path), path))
    case HandLaunch(pid, path, loader, env) => Set(w, pid, NewProc(0, env, Loader(loader), path))
    case Spawn(parent, pid, path, env, how) => Set(w, pid, Spawned(parent, path, env, how))
    case SpawnMem(parent, pid, maker, env) => Set(w, pid, NewProc(parent, env, MemImage(maker), w.procs[maker].origin))
    case EnvUnreadable(pid) => Set(w, pid, Passed(w.procs[pid], false).(blind := true))
    case SeeProbe(pid) => Set(w, pid, w.procs[pid].(phase := Dead(true)))
    case SeeGuard(pid) => Set(w, pid, Passed(w.procs[pid], true))
    case SeeLoader(pid, _) => Set(w, pid, Passed(w.procs[pid], true))
    case GiveUp(pid) => Set(w, pid, Passed(w.procs[pid], false))
    case Reexec(pid, plan) => Set(w, pid, Execed(w.procs[pid], NextEnv(pid, w.procs[pid], plan), plan.loader))
    case StartProbe(pid, child, plan) => ProbeStarted(w, pid, child, plan)
    case ProbePassed(pid, loader) => Set(w, pid, Execed(w.procs[pid], w.procs[pid].phase.next, loader))
    case ProbeUnknown(pid, loader) => Set(w, pid, Execed(w.procs[pid], w.procs[pid].phase.next, loader))
    case ProbeFailed(pid) => Set(w, pid, Passed(w.procs[pid], false))
    case ExecFailed(pid) => Set(w, pid, Passed(w.procs[pid], false))
    case Die(pid, heir) => w.(procs := Reparented(w.procs, pid, heir))
  }

  /** The state after a list of events; one that is not enabled does not happen. */
  function After(host: HostTable, es: seq<Event>): World {
    if es == [] then World(host, map[])
    else
      var w := After(host, es[..|es| - 1]);
      if Enabled(w, es[|es| - 1]) then Apply(w, es[|es| - 1]) else w
  }

  lemma {:induction false} HostStays(host: HostTable, es: seq<Event>)
    ensures After(host, es).host == host
  {
    hide Enabled;
    if es != [] { HostStays(host, es[..|es| - 1]); }
  }

  lemma {:induction false} AfterStep(host: HostTable, es: seq<Event>, e: Event)
    ensures After(host, es + [e]) == if Enabled(After(host, es), e) then Apply(After(host, es), e) else After(host, es)
  {
    hide Enabled, Apply;
    assert (es + [e])[..|es|] == es;
  }
}
