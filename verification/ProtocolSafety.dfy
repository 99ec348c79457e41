/** What every run of the bridge keeps, whatever the size of the environments. */
module ProtocolSafety {
  import opened BridgeText
  import opened Tags
  import opened EnvBlock
  import opened EnvSight
  import opened EnvRebuild
  import opened EnvLaunch
  import opened BridgePaths
  import opened Protocol

  /* ---- what environments say ---- */

  /** The entry's records are about processes that exist. */
  ghost predicate EntryKnown(pids: set<nat>, e: string) {
    forall key: string, q: nat :: IsKey(key) && q < WORD && TagValue(e, key, q) != None ==> q in pids
  }

  ghost predicate EnvKnown(pids: set<nat>, env: seq<string>) {
    forall i {:trigger EntryKnown(pids, env[i])} :: 0 <= i < |env| ==> EntryKnown(pids, env[i])
  }

  /** No record in it is about pid. */
  ghost predicate Unaware(env: seq<string>, pid: nat) {
    forall i, key: string :: 0 <= i < |env| && IsKey(key) ==> TagValue(env[i], key, pid) == None
  }

  predicate HoldsProbe(env: seq<string>) {
    exists i :: 0 <= i < |env| && PROBE_KEY <= env[i]
  }

  /** A record that is seen is a record of some entry. */
  lemma {:induction false} FoundIsThere(es: seq<string>, key: string, q: nat) returns (i: nat)
    requires LastTagged(es, key, q) != None
    ensures i < |es| && TagValue(es[i], key, q) != None
  {
    hide TagValue;
    i := |es| - 1;
    if TagValue(es[i], key, q) == None { i := FoundIsThere(es[..i], key, q); }
  }

  lemma {:induction false} SeenIsThere(es: seq<string>, key: string, q: nat, c: nat) returns (i: nat)
    requires LastTagged(Visible(es, c), key, q) != None
    ensures i < |es| && TagValue(es[i], key, q) != None
  {
    hide TagValue, LastTagged, Visible;
    i := FoundIsThere(Visible(es, c), key, q);
    VisiblePrefix(es, c);
    TagOfPrefix(Visible(es, c)[i], es[i], key, q);
  }

  lemma {:induction false} UnawareSeesNothing(es: seq<string>, pid: nat, key: string, c: nat)
    requires Unaware(es, pid) && IsKey(key)
    ensures LastTagged(Visible(es, c), key, pid) == None
  {
    hide TagValue, LastTagged, Visible, IsKey;
    if LastTagged(Visible(es, c), key, pid) != None { var i := SeenIsThere(es, key, pid, c); }
  }

  lemma {:induction false} StrangersAreUnaware(pids: set<nat>, env: seq<string>, pid: nat)
    requires EnvKnown(pids, env) && pid < WORD && pid !in pids
    ensures Unaware(env, pid)
  {
    hide TagValue, IsKey;
    forall i, key: string | 0 <= i < |env| && IsKey(key) ensures TagValue(env[i], key, pid) == None {
      assert EntryKnown(pids, env[i]);
    }
  }

  lemma {:induction false} AboutIsKnown(pids: set<nat>, e: string, pid: nat)
    requires About(e, pid) && pid in pids
    ensures EntryKnown(pids, e)
  {
    hide TagValue, IsKey;
  }

  lemma {:induction false} RebuiltIsKnown(pids: set<nat>, env: seq<string>, pid: nat)
    requires RebuiltFor(env, pid) && pid in pids
    ensures EnvKnown(pids, env) && !HoldsProbe(env)
  {
    hide About, EntryKnown, NonBridge, GuardOf, PathFirst;
    forall i | 0 <= i < |env| ensures EntryKnown(pids, env[i]) { AboutIsKnown(pids, env[i], pid); }
  }

  lemma {:induction false} KnownStill(a: set<nat>, b: set<nat>, env: seq<string>)
    requires a <= b && EnvKnown(a, env)
    ensures EnvKnown(b, env)
  {
    hide TagValue, IsKey;
    forall i | 0 <= i < |env| ensures EntryKnown(b, env[i]) { assert EntryKnown(a, env[i]); }
  }

  lemma {:induction false} CleanIsKnown(pids: set<nat>, e: string)
    requires !IsBridgeVar(e)
    ensures EntryKnown(pids, e) && !(PROBE_KEY <= e)
  {
    hide TagValue;
    forall key: string, q: nat | IsKey(key) && TagValue(e, key, q) != None ensures false { TagNeedsKey(e, key, q); }
  }

  lemma {:induction false} CleanEnvIsKnown(pids: set<nat>, env: seq<string>)
    requires Clean(env)
    ensures EnvKnown(pids, env) && !HoldsProbe(env)
  {
    hide EntryKnown, IsBridgeVar;
    forall i | 0 <= i < |env| ensures EntryKnown(pids, env[i]) && !(PROBE_KEY <= env[i]) { CleanIsKnown(pids, env[i]); }
  }

  /** A child's bridge variables are its parent's. */
  lemma {:induction false} InheritedIsKnown(pids: set<nat>, child: seq<string>, parent: seq<string>)
    requires Inherits(child, parent) && EnvKnown(pids, parent)
    ensures EnvKnown(pids, child) && (HoldsProbe(child) ==> HoldsProbe(parent))
  {
    hide EntryKnown, IsBridgeVar;
    forall i | 0 <= i < |child| ensures EntryKnown(pids, child[i]) {
      if IsBridgeVar(child[i]) {
        var j :| 0 <= j < |parent| && parent[j] == child[i];
      } else {
        CleanIsKnown(pids, child[i]);
      }
    }
    if HoldsProbe(child) {
      var i :| 0 <= i < |child| && PROBE_KEY <= child[i];
      if !IsBridgeVar(child[i]) { CleanIsKnown(pids, child[i]); }
    }
  }

  /* ---- the invariant ---- */

  predicate IsDead(procs: map<nat, Proc>, pid: nat) {
    pid in procs && procs[pid].phase.Dead?
  }

  /** A probe child that got past the bridge. */
  predicate Escaped(procs: map<nat, Proc>, c: nat) {
    c in procs && procs[c].probeOf.Some? && procs[c].past
  }

  ghost predicate AnyEscaped(procs: map<nat, Proc>) {
    exists c :: Escaped(procs, c)
  }

  ghost predicate ImageOk(host: HostTable, procs: map<nat, Proc>, x: Proc) {
    && PlainPath(host, x.origin)
    && match x.exe
       case Disk(path) => path == x.origin
       case Loader(path) => LoaderFile(path) && x.viaLoader
       case MemImage(m) => m in procs && procs[m].origin == x.origin
  }

  ghost predicate ReexecOk(pid: nat, x: Proc) {
    if x.reexecs == 0 then x.env == x.born && Unaware(x.env, pid)
    else x.viaLoader && x.exe.Loader? && RebuiltFor(x.env, pid)
  }

  ghost predicate PhaseOk(pid: nat, x: Proc) {
    match x.phase
    case AtBridge => !x.past
    case Waiting(_, next) => !x.past && RebuiltFor(next, pid)
    case Running(libc) => x.past && (libc ==> x.viaLoader)
    case Dead(_) => true
  }

  /** The environment of a probe child of f. */
  ghost predicate ProbeEnv(env: seq<string>, f: nat) {
    env != [] && env[|env| - 1] == ProbeRecord(f) && RebuiltFor(env[..|env| - 1], f)
  }

  /** The probe variable of f, at the end of the environment, is beyond the bytes read. */
  predicate ProbeCut(env: seq<string>, f: nat) {
    env != [] && |Join(env[..|env| - 1])| + RecordHead(PROBE_KEY, f) > ENV_BUF_CAP
  }

  /** It has read its environment and acted on not being a probe. */
  predicate WentOn(x: Proc) {
    x.reexecs > 0 || x.phase.Waiting? || (x.past && !x.blind)
  }

  ghost predicate ProbeOk(procs: map<nat, Proc>, pid: nat, x: Proc) {
    match x.probeOf
    case None => true
    case Some(f) =>
      && f in procs && f != pid
      && (x.parent == f || IsDead(procs, f))
      && ProbeEnv(x.born, f)
      && (WentOn(x) ==> IsDead(procs, f) || ProbeCut(x.born, f))
  }

  ghost predicate ProcOk(host: HostTable, procs: map<nat, Proc>, pid: nat)
    requires pid in procs
  {
    var x := procs[pid];
    && 0 < pid < WORD
    && (x.parent == 0 || x.parent in procs)
    && EnvKnown(procs.Keys, x.env)
    && ImageOk(host, procs, x)
    && ReexecOk(pid, x)
    && PhaseOk(pid, x)
    && ProbeOk(procs, pid, x)
    && (HoldsProbe(x.env) ==> x.probeOf.Some? || AnyEscaped(procs))
  }

  ghost predicate Inv(w: World) {
    && KnownHost(w.host)
    && forall pid {:trigger ProcOk(w.host, w.procs, pid)} :: pid in w.procs ==> ProcOk(w.host, w.procs, pid)
  }

  /** Processes are only added, keep their origin and their history, and stay dead. */
  ghost predicate Extends(a: map<nat, Proc>, b: map<nat, Proc>) {
    forall p :: p in a ==> p in b && b[p].origin == a[p].origin && b[p].probeOf == a[p].probeOf
                           && (a[p].past ==> b[p].past) && (a[p].phase.Dead? ==> b[p].phase.Dead?)
  }

  lemma {:induction false} EscapedStill(a: map<nat, Proc>, b: map<nat, Proc>)
    requires Extends(a, b) && AnyEscaped(a)
    ensures AnyEscaped(b)
  {
    var c :| Escaped(a, c);
    assert Escaped(b, c);
  }

  lemma {:induction false} KeysGrow(a: map<nat, Proc>, b: map<nat, Proc>)
    requires Extends(a, b)
    ensures a.Keys <= b.Keys
  {
  }

  /** What an event does not touch of a process stays in order. */
  lemma {:induction false} Adjusted(host: HostTable, a: map<nat, Proc>, b: map<nat, Proc>, pid: nat)
    requires Extends(a, b) && pid in a && ProcOk(host, a, pid)
    requires b[pid] == a[pid].(parent := b[pid].parent, phase := b[pid].phase)
    requires PhaseOk(pid, b[pid]) && ProbeOk(b, pid, b[pid]) && (b[pid].parent == 0 || b[pid].parent in b)
    ensures ProcOk(host, b, pid)
  {
    hide EnvKnown, Unaware, RebuiltFor, HoldsProbe, PlainPath, LoaderFile, AnyEscaped, PhaseOk, ProbeOk;
    KeysGrow(a, b);
    KnownStill(a.Keys, b.Keys, a[pid].env);
    if AnyEscaped(a) { EscapedStill(a, b); }
  }

  lemma {:induction false} Untouched(host: HostTable, a: map<nat, Proc>, b: map<nat, Proc>, pid: nat)
    requires Extends(a, b) && pid in a && ProcOk(host, a, pid) && b[pid] == a[pid]
    ensures ProcOk(host, b, pid)
  {
    hide EnvKnown, ImageOk, ReexecOk, PhaseOk, HoldsProbe, AnyEscaped, ProbeEnv, ProbeCut;
    Adjusted(host, a, b, pid);
  }

  /** Changing or adding one process. */
  lemma {:induction false} OneChange(w: World, pid: nat, x: Proc)
    requires Inv(w) && Extends(w.procs, w.procs[pid := x]) && ProcOk(w.host, w.procs[pid := x], pid)
    ensures Inv(Set(w, pid, x))
  {
    hide ProcOk, Extends, KnownHost;
    var b := w.procs[pid := x];
    forall p | p in b ensures ProcOk(w.host, b, p) {
      if p != pid { Untouched(w.host, w.procs, b, p); }
    }
  }

  /* ---- one event at a time ---- */

  lemma {:induction false} ExtendsNew(procs: map<nat, Proc>, pid: nat, x: Proc)
    requires pid !in procs
    ensures Extends(procs, procs[pid := x])
  {
  }

  lemma {:induction false} ExtendsSame(procs: map<nat, Proc>, pid: nat, x: Proc)
    requires pid in procs && !procs[pid].phase.Dead?
    requires x.origin == procs[pid].origin && x.probeOf == procs[pid].probeOf && (procs[pid].past ==> x.past)
    ensures Extends(procs, procs[pid := x])
  {
  }

  /** A new process whose environment speaks of known processes only. */
  lemma {:induction false} NewKeeps(w: World, pid: nat, x: Proc)
    requires Inv(w) && FreshPid(w, pid) && (x.parent == 0 || x.parent in w.procs)
    requires EnvKnown(w.procs.Keys, x.env) && x.born == x.env && x.reexecs == 0
    requires ImageOk(w.host, w.procs, x) && PhaseOk(pid, x) && ProbeOk(w.procs[pid := x], pid, x)
    requires HoldsProbe(x.env) ==> x.probeOf.Some? || AnyEscaped(w.procs)
    ensures Inv(Set(w, pid, x))
  {
    hide EnvKnown, Unaware, RebuiltFor, HoldsProbe, PlainPath, LoaderFile, AnyEscaped, PhaseOk, ProbeOk, KnownHost;
    var b := w.procs[pid := x];
    ExtendsNew(w.procs, pid, x);
    KeysGrow(w.procs, b);
    KnownStill(w.procs.Keys, b.Keys, x.env);
    StrangersAreUnaware(w.procs.Keys, x.env, pid);
    if AnyEscaped(w.procs) { EscapedStill(w.procs, b); }
    OneChange(w, pid, x);
  }

  lemma {:induction false} LaunchKeeps(w: World, pid: nat, exe: Exe, path: string, env: seq<string>)
    requires Inv(w) && FreshPid(w, pid) && PlainPath(w.host, path) && Clean(env)
    requires exe == Disk(path) || (exe.Loader? && LoaderFile(exe.path))
    ensures Inv(Set(w, pid, NewProc(0, env, exe, path)))
  {
    hide Inv, EnvKnown, HoldsProbe, PlainPath, LoaderFile, AnyEscaped, Clean;
    CleanEnvIsKnown(w.procs.Keys, env);
    NewKeeps(w, pid, NewProc(0, env, exe, path));
  }

  lemma {:induction false} SpawnKeeps(w: World, parent: nat, pid: nat, x: Proc)
    requires Inv(w) && FreshPid(w, pid) && IsPast(w, parent) && Inherits(x.env, w.procs[parent].env)
    requires x.parent == parent && x.born == x.env && x.reexecs == 0 && x.probeOf == None && PhaseOk(pid, x)
    requires ImageOk(w.host, w.procs, x)
    ensures Inv(Set(w, pid, x))
  {
    hide EnvKnown, ImageOk, ReexecOk, HoldsProbe, KnownHost, Inherits;
    assert ProcOk(w.host, w.procs, parent);
    InheritedIsKnown(w.procs.Keys, x.env, w.procs[parent].env);
    if HoldsProbe(x.env) && w.procs[parent].probeOf.Some? { assert Escaped(w.procs, parent); }
    NewKeeps(w, pid, x);
  }

  /** A process that only moves on to another phase. */
  lemma {:induction false} MoveKeeps(w: World, pid: nat, x: Proc)
    requires Inv(w) && pid in w.procs && !w.procs[pid].phase.Dead?
    requires x == w.procs[pid].(phase := x.phase, past := x.past, blind := x.blind) && (w.procs[pid].past ==> x.past)
    requires PhaseOk(pid, x) && ProbeOk(w.procs, pid, x)
    ensures Inv(Set(w, pid, x))
  {
    hide EnvKnown, Unaware, RebuiltFor, HoldsProbe, PlainPath, LoaderFile, AnyEscaped, KnownHost, PhaseOk;
    hide ProbeEnv, ProbeCut, WentOn;
    var b := w.procs[pid := x];
    assert ProcOk(w.host, w.procs, pid);
    ExtendsSame(w.procs, pid, x);
    assert b.Keys == w.procs.Keys;
    if AnyEscaped(w.procs) { EscapedStill(w.procs, b); }
    OneChange(w, pid, x);
  }

  /** An exec into an environment rebuilt for the process. */
  lemma {:induction false} ExecKeeps(w: World, pid: nat, env: seq<string>, loader: string)
    requires Inv(w) && pid in w.procs && !w.procs[pid].phase.Dead? && !w.procs[pid].past
    requires RebuiltFor(env, pid) && LoaderFile(loader) && MayGoOn(w.procs, w.procs[pid])
    ensures Inv(Set(w, pid, Execed(w.procs[pid], env, loader)))
  {
    hide EnvKnown, Unaware, RebuiltFor, HoldsProbe, PlainPath, LoaderFile, AnyEscaped, KnownHost;
    hide ProbeEnv, ProbeCut;
    var x := Execed(w.procs[pid], env, loader);
    var b := w.procs[pid := x];
    assert ProcOk(w.host, w.procs, pid);
    ExtendsSame(w.procs, pid, x);
    RebuiltIsKnown(b.Keys, env, pid);
    OneChange(w, pid, x);
  }

  /** If it was started as a probe, its forker is gone or the variable cut off. */
  predicate MayGoOn(procs: map<nat, Proc>, x: Proc) {
    x.probeOf.Some? ==> IsDead(procs, x.probeOf.value) || ProbeCut(x.born, x.probeOf.value)
  }

  /** The probe variable is recognised exactly by a child of its forker, and exactly if its head is
      within the bytes read. */
  lemma {:induction false} ProbeRecognised(env: seq<string>, f: nat, parent: nat)
    requires f < WORD && parent < WORD && ProbeEnv(env, f)
    ensures LastTagged(Visible(env, ENV_BUF_CAP), PROBE_KEY, parent) != None
            <==> parent == f && !ProbeCut(env, f)
  {
    hide LastTagged, Visible, Join, NonBridge, About, GuardOf, RecordHead, Tagged;
    var n := |env| - 1;
    assert env == env[..n] + [ProbeRecord(f)] && env == env[..n] + [ProbeRecord(f)] + [];
    if parent == f {
      RecordSeenIff(env[..n], PROBE_KEY, f, "1", [], ENV_BUF_CAP);
    } else {
      OthersRecord(env[..n], PROBE_KEY, f, "1", ENV_BUF_CAP, parent);
    }
  }

  lemma {:induction false} ParentSmall(w: World, pid: nat)
    requires Inv(w) && pid in w.procs
    ensures w.procs[pid].parent < WORD
  {
    hide EnvKnown, ImageOk, ReexecOk, PhaseOk, ProbeOk, HoldsProbe, AnyEscaped, KnownHost;
    assert ProcOk(w.host, w.procs, pid);
    var p := w.procs[pid].parent;
    if p != 0 { assert ProcOk(w.host, w.procs, p); }
  }

  /** A probe child that does not see itself as one has lost its forker or its variable. */
  lemma {:induction false} NotProbing(w: World, pid: nat)
    requires Inv(w) && pid in w.procs && (!Probing(w.procs[pid]) || w.procs[pid].reexecs > 0)
    ensures MayGoOn(w.procs, w.procs[pid])
  {
    hide EnvKnown, ImageOk, Unaware, RebuiltFor, PhaseOk, HoldsProbe, AnyEscaped, KnownHost;
    hide LastTagged, ProbeEnv, ProbeCut, Visible;
    var x := w.procs[pid];
    assert ProcOk(w.host, w.procs, pid);
    ParentSmall(w, pid);
    if x.probeOf.Some? && x.reexecs == 0 {
      var f := x.probeOf.value;
      assert ProcOk(w.host, w.procs, f);
      ProbeRecognised(x.env, f, x.parent);
    }
  }

  /** What a process at the bridge may do without going on. */
  lemma {:induction false} PassKeeps(w: World, pid: nat, x: Proc)
    requires Inv(w) && pid in w.procs && w.procs[pid].phase == AtBridge
    requires x == w.procs[pid].(phase := x.phase, past := x.past, blind := x.blind)
    requires x.phase == Dead(true) || (x.phase.Running? && x.past)
    requires x.phase == Running(true) ==> x.viaLoader
    requires x.phase.Running? && !x.blind ==> !Probing(w.procs[pid]) || w.procs[pid].reexecs > 0
    requires x.phase.Dead? ==> x.past == w.procs[pid].past && x.blind == w.procs[pid].blind
    ensures Inv(Set(w, pid, x))
  {
    hide EnvKnown, ImageOk, Unaware, RebuiltFor, HoldsProbe, AnyEscaped, KnownHost, Probing, ProbeEnv, ProbeCut;
    assert ProcOk(w.host, w.procs, pid);
    if x.phase.Running? && !x.blind { NotProbing(w, pid); }
    MoveKeeps(w, pid, x);
  }

  /** Only an image started through a loader is taken for the loader. */
  lemma {:induction false} LoaderIsSeen(w: World, pid: nat, name: string)
    requires Inv(w) && pid in w.procs && NameOk(w.host, w.procs[pid].exe, name)
    requires IsLoaderPath(w.host, LinkText(w.procs[pid].exe, name))
    ensures w.procs[pid].viaLoader
  {
    hide EnvKnown, HoldsProbe, IsLoaderPath, AnyEscaped, KnownHost, ReexecOk, PhaseOk, ProbeOk;
    assert ProcOk(w.host, w.procs, pid);
    MemfdIsNoLoader(w.host);
  }

  /** The guard is seen exactly by a process that its own bridge has re-execed, and exactly if the own
      entries and the head of the guard are within the bytes read. */
  lemma {:induction false} GuardRecognised(w: World, pid: nat)
    requires Inv(w) && pid in w.procs
    ensures var x := w.procs[pid];
            && (Guarded(pid, x) <==> x.reexecs > 0 && !GuardCut(x.env, pid))
            && (x.reexecs > 0 ==> x.viaLoader && !Probing(x))
  {
    hide EnvKnown, ImageOk, HoldsProbe, LastTagged, AnyEscaped, KnownHost, PhaseOk, ProbeOk, RebuiltFor;
    hide Visible, Join, NonBridge, RecordHead, Unaware;
    var x := w.procs[pid];
    assert ProcOk(w.host, w.procs, pid);
    if x.reexecs == 0 {
      UnawareSeesNothing(x.env, pid, GUARD_KEY, ENV_BUF_CAP);
    } else {
      ParentSmall(w, pid);
      GuardSeen(x.env, pid, x.parent);
    }
  }

  /** The guard of pid, after its own entries, is beyond the bytes read. */
  predicate GuardCut(env: seq<string>, pid: nat) {
    |Join(NonBridge(env))| + RecordHead(GUARD_KEY, pid) > ENV_BUF_CAP
  }

  lemma {:induction false} ChildKeeps(w: World, pid: nat, next: seq<string>, child: nat, loader: string)
    requires Inv(w) && pid in w.procs && RebuiltFor(next, pid) && FreshPid(w, child) && LoaderFile(loader)
    ensures Inv(Set(w, child, ProbeChild(pid, next, loader, w.procs[pid].origin)))
  {
    hide EnvKnown, RebuiltFor, HoldsProbe, PlainPath, LoaderFile, AnyEscaped, KnownHost;
    hide ReexecOk, ProbeRecord, About, EntryKnown;
    var x := ProbeChild(pid, next, loader, w.procs[pid].origin);
    assert ProcOk(w.host, w.procs, pid);
    assert x.env[..|next|] == next;
    ProbeEnvKnown(w.procs.Keys, next, pid);
    NewKeeps(w, child, x);
  }

  lemma {:induction false} ProbeEnvKnown(pids: set<nat>, next: seq<string>, pid: nat)
    requires RebuiltFor(next, pid) && pid in pids && pid < WORD
    ensures EnvKnown(pids, next + [ProbeRecord(pid)])
  {
    hide RebuiltFor, About, EntryKnown, Tagged;
    RebuiltIsKnown(pids, next, pid);
    RecordIsAbout(PROBE_KEY, pid, "1");
    AboutIsKnown(pids, ProbeRecord(pid), pid);
  }

  /** A bridge that goes on. */
  lemma {:induction false} GoingOn(w: World, pid: nat, plan: Plan)
    requires Inv(w) && pid in w.procs && GoesOn(w, pid, w.procs[pid], plan)
    ensures !w.procs[pid].past && RebuiltFor(NextEnv(pid, w.procs[pid], plan), pid) && MayGoOn(w.procs, w.procs[pid])
  {
    hide EnvKnown, ImageOk, ReexecOk, ProbeOk, RebuiltFor, HoldsProbe, IsLoaderPath, Probing, Guarded;
    hide LoaderFile, AnyEscaped, KnownHost, RebuiltEnv, RealExe, MayGoOn, TailOk;
    var x := w.procs[pid];
    assert ProcOk(w.host, w.procs, pid);
    RebuiltIsFor(Handed(x.env, plan.tail), plan.off, pid, RealExe(x, plan), plan.argv0);
    NotProbing(w, pid);
  }

  lemma {:induction false} StartProbeKeeps(w: World, pid: nat, child: nat, plan: Plan)
    requires Inv(w) && pid in w.procs && GoesOn(w, pid, w.procs[pid], plan) && FreshPid(w, child)
    ensures Inv(ProbeStarted(w, pid, child, plan))
  {
    hide Inv, RebuiltFor, IsLoaderPath, NextEnv, Probing, Guarded, ProbeRecord, TailOk, LoaderFile;
    GoingOn(w, pid, plan);
    var next := NextEnv(pid, w.procs[pid], plan);
    var x := w.procs[pid].(phase := Waiting(child, next));
    WaitKeeps(w, pid, child, next);
    ChildKeeps(Set(w, pid, x), pid, next, child, plan.loader);
  }

  lemma {:induction false} WaitKeeps(w: World, pid: nat, child: nat, next: seq<string>)
    requires Inv(w) && pid in w.procs && w.procs[pid].phase == AtBridge
    requires !w.procs[pid].past && RebuiltFor(next, pid) && MayGoOn(w.procs, w.procs[pid])
    ensures Inv(Set(w, pid, w.procs[pid].(phase := Waiting(child, next))))
  {
    hide EnvKnown, ImageOk, ReexecOk, RebuiltFor, HoldsProbe, AnyEscaped, KnownHost, ProbeEnv, ProbeCut;
    assert ProcOk(w.host, w.procs, pid);
    MoveKeeps(w, pid, w.procs[pid].(phase := Waiting(child, next)));
  }

  /** Only waiting bridges exec later, with what they decided before. */
  lemma {:induction false} WaitingOk(w: World, pid: nat)
    requires Inv(w) && pid in w.procs && w.procs[pid].phase.Waiting?
    ensures var x := w.procs[pid]; !x.past && RebuiltFor(x.phase.next, pid) && MayGoOn(w.procs, x)
    ensures Inv(Set(w, pid, Passed(w.procs[pid], false)))
  {
    hide EnvKnown, ImageOk, ReexecOk, RebuiltFor, HoldsProbe, AnyEscaped, KnownHost, ProbeEnv, ProbeCut;
    assert ProcOk(w.host, w.procs, pid);
    MoveKeeps(w, pid, Passed(w.procs[pid], false));
  }

  lemma {:induction false} DieExtends(procs: map<nat, Proc>, pid: nat, heir: nat)
    requires pid in procs && !procs[pid].phase.Dead?
    ensures Extends(procs, Reparented(procs, pid, heir))
  {
  }

  lemma {:induction false} DieKeepsOne(w: World, pid: nat, heir: nat, p: nat)
    requires Inv(w) && Live(w, pid) && heir != pid && (heir == 0 || Live(w, heir)) && p in w.procs
    ensures ProcOk(w.host, Reparented(w.procs, pid, heir), p)
  {
    hide EnvKnown, RebuiltFor, HoldsProbe, AnyEscaped, KnownHost, ImageOk, ReexecOk, Extends, ProbeEnv, ProbeCut;
    var b := Reparented(w.procs, pid, heir);
    assert ProcOk(w.host, w.procs, p);
    DieExtends(w.procs, pid, heir);
    Adjusted(w.host, w.procs, b, p);
  }

  lemma {:induction false} DieKeeps(w: World, pid: nat, heir: nat)
    requires Inv(w) && Live(w, pid) && heir != pid && (heir == 0 || Live(w, heir))
    ensures Inv(w.(procs := Reparented(w.procs, pid, heir)))
  {
    hide ProcOk, KnownHost;
    var b := Reparented(w.procs, pid, heir);
    forall p | p in b ensures ProcOk(w.host, b, p) { DieKeepsOne(w, pid, heir, p); }
  }

  lemma {:induction false} MemImageOk(w: World, maker: nat, x: Proc)
    requires Inv(w) && maker in w.procs && x.exe == MemImage(maker) && x.origin == w.procs[maker].origin
    ensures ImageOk(w.host, w.procs, x)
  {
    hide EnvKnown, ReexecOk, PhaseOk, ProbeOk, HoldsProbe, PlainPath, LoaderFile, AnyEscaped, KnownHost;
    assert ProcOk(w.host, w.procs, maker);
  }

  lemma {:induction false} NewProcessKeeps(w: World, e: Event)
    requires Inv(w) && Enabled(w, e) && (e.Launch? || e.HandLaunch? || e.Spawn? || e.SpawnMem?)
    ensures Inv(Apply(w, e))
  {
    hide Inv, PlainPath, LoaderFile, Inherits, Clean;
    match e
    case Launch(pid, path, env) => LaunchKeeps(w, pid, Disk(path), path, env);
    case HandLaunch(pid, path, loader, env) => LaunchKeeps(w, pid, Loader(loader), path, env);
    case Spawn(parent, pid, path, env, how) => SpawnKeeps(w, parent, pid, Spawned(parent, path, env, how));
    case SpawnMem(parent, pid, maker, env) =>
      var x := NewProc(parent, env, MemImage(maker), w.procs[maker].origin);
      MemImageOk(w, maker, x);
      SpawnKeeps(w, parent, pid, x);
  }

  lemma {:induction false} DecisionKeeps(w: World, e: Event)
    requires Inv(w) && Enabled(w, e) && (e.EnvUnreadable? || e.SeeProbe? || e.SeeGuard? || e.SeeLoader? || e.GiveUp?)
    ensures Inv(Apply(w, e))
  {
    hide Inv, PlainPath, IsLoaderPath, Probing, Guarded, GuardCut;
    var x := w.procs[e.pid];
    GuardRecognised(w, e.pid);
    if e.SeeLoader? { LoaderIsSeen(w, e.pid, e.name); }
    NotBlindAtBridge(w, e.pid);
    PassKeeps(w, e.pid, if e.EnvUnreadable? then Passed(x, false).(blind := true)
                        else if e.SeeProbe? then x.(phase := Dead(true))
                        else Passed(x, !e.GiveUp?));
  }

  lemma {:induction false} NotBlindAtBridge(w: World, pid: nat)
    requires Inv(w) && pid in w.procs && w.procs[pid].phase == AtBridge
    ensures !w.procs[pid].past
  {
    hide EnvKnown, ImageOk, ReexecOk, ProbeOk, HoldsProbe, AnyEscaped, KnownHost;
    assert ProcOk(w.host, w.procs, pid);
  }

  lemma {:induction false} ExecEventKeeps(w: World, e: Event)
    requires Inv(w) && Enabled(w, e)
    requires e.Reexec? || e.StartProbe? || e.ProbePassed? || e.ProbeUnknown? || e.ProbeFailed? || e.ExecFailed?
    ensures Inv(Apply(w, e))
  {
    hide Inv, IsLoaderPath, Probing, Guarded, RebuiltFor, NextEnv, ProbeStarted, IsDead, MayGoOn, TailOk, LoaderFile;
    match e
    case Reexec(pid, plan) =>
      GoingOn(w, pid, plan);
      ExecKeeps(w, pid, NextEnv(pid, w.procs[pid], plan), plan.loader);
    case StartProbe(pid, child, plan) => StartProbeKeeps(w, pid, child, plan);
    case ProbePassed(pid, loader) =>
      WaitingOk(w, pid);
      ExecKeeps(w, pid, w.procs[pid].phase.next, loader);
    case ProbeUnknown(pid, loader) =>
      WaitingOk(w, pid);
      ExecKeeps(w, pid, w.procs[pid].phase.next, loader);
    case ProbeFailed(pid) => WaitingOk(w, pid);
    case ExecFailed(pid) => WaitingOk(w, pid);
  }

  /** Every event keeps the invariant. */
  lemma {:induction false} EventKeeps(w: World, e: Event)
    requires Inv(w) && Enabled(w, e)
    ensures Inv(Apply(w, e))
  {
    hide Inv;
    if e.Launch? || e.HandLaunch? || e.Spawn? || e.SpawnMem? {
      NewProcessKeeps(w, e);
    } else if e.EnvUnreadable? || e.SeeProbe? || e.SeeGuard? || e.SeeLoader? || e.GiveUp? {
      DecisionKeeps(w, e);
    } else if e.Die? {
      DieKeeps(w, e.pid, e.heir);
    } else {
      ExecEventKeeps(w, e);
    }
  }

  /** The invariant holds after every run. */
  lemma {:induction false} AlwaysInv(host: HostTable, es: seq<Event>)
    requires KnownHost(host)
    ensures Inv(After(host, es)) && After(host, es).host == host
  {
    hide KnownHost, Enabled, Apply, ProcOk;
    HostStays(host, es);
    if es != [] {
      AlwaysInv(host, es[..|es| - 1]);
      var w, e := After(host, es[..|es| - 1]), es[|es| - 1];
      if Enabled(w, e) { EventKeeps(w, e); }
    }
  }

  /* ---- safety of every run ---- */

  /** A process for which the bridge returned true was started through a loader. A guard counts for a
      process exactly if its own bridge has re-execed it, so never for a child that inherited it, and
      exactly while the own entries leave the guard's head within the bytes read. */
  lemma {:induction false} BridgeIsSafe(host: HostTable, es: seq<Event>, pid: nat)
    requires KnownHost(host) && pid in After(host, es).procs
    ensures var x := After(host, es).procs[pid];
            && (x.phase == Running(true) ==> x.viaLoader)
            && (Guarded(pid, x) <==> x.reexecs > 0 && !GuardCut(x.env, pid))
  {
    hide KnownHost, EnvKnown, ReexecOk, ImageOk, ProbeOk, HoldsProbe, AnyEscaped, After, Guarded, GuardCut, Probing;
    AlwaysInv(host, es);
    assert ProcOk(host, After(host, es).procs, pid);
    GuardRecognised(After(host, es), pid);
  }

  /** A re-execed process is re-execed again exactly if its guard is cut off and readlink does not tell
      it that it is running the loader. */
  lemma {:induction false} ReexecAgainIff(host: HostTable, es: seq<Event>, pid: nat, plan: Plan)
    requires KnownHost(host) && pid in After(host, es).procs && After(host, es).procs[pid].reexecs > 0
    requires After(host, es).procs[pid].phase == AtBridge
    requires LoaderFile(plan.loader) && TailOk(After(host, es).procs[pid].env, plan.tail)
    requires plan.linkOk ==> NameOk(host, After(host, es).procs[pid].exe, plan.name)
    ensures var w := After(host, es); var x := w.procs[pid];
            Enabled(w, Reexec(pid, plan)) <==>
              GuardCut(x.env, pid) && !(plan.linkOk && IsLoaderPath(host, LinkText(x.exe, plan.name)))
  {
    hide KnownHost, Inv, After, Guarded, GuardCut, Probing, IsLoaderPath, TailOk, LoaderFile;
    AlwaysInv(host, es);
    GuardRecognised(After(host, es), pid);
  }

  /** As long as its image has not been replaced, a probe child sees its probe variable exactly if the
      bridge that forked it is still its parent and the head of the variable is within the bytes read.
      It never gets past the bridge unless that bridge is gone, the variable is cut off, or it could not
      read its environment. As long as none does, only probe children hold the variable. */
  lemma {:induction false} ProbesStop(host: HostTable, es: seq<Event>, pid: nat)
    requires KnownHost(host) && pid in After(host, es).procs
    ensures var w := After(host, es); var x := w.procs[pid];
            && (x.probeOf.Some? && x.reexecs == 0 ==>
                  (Probing(x) <==> x.parent == x.probeOf.value && !ProbeCut(x.born, x.probeOf.value)))
            && (x.probeOf.Some? && WentOn(x) ==> IsDead(w.procs, x.probeOf.value) || ProbeCut(x.born, x.probeOf.value))
            && (HoldsProbe(x.env) ==> x.probeOf.Some? || AnyEscaped(w.procs))
  {
    hide KnownHost, EnvKnown, ImageOk, HoldsProbe, LastTagged, AnyEscaped, After, PhaseOk, Unaware, RebuiltFor;
    hide ProbeEnv, ProbeCut, Visible;
    AlwaysInv(host, es);
    var w := After(host, es);
    var x := w.procs[pid];
    assert ProcOk(host, w.procs, pid);
    ParentSmall(w, pid);
    if x.probeOf.Some? && x.reexecs == 0 {
      assert ProcOk(host, w.procs, x.probeOf.value);
      ProbeRecognised(x.env, x.probeOf.value, x.parent);
    }
  }
}
