/** The environment and arguments the bridge hands to the host loader. */
module EnvRebuild {
  import opened BridgeText
  import opened Tags
  import opened Staging
  import opened EnvBlock
  import opened EnvSight

  const ENV_ROOM: nat := PTR_ARR_CAP - 4

  function NonBridge(es: seq<string>): seq<string> {
    if es == [] then []
    else NonBridge(es[..|es| - 1]) + (if IsBridgeVar(es[|es| - 1]) then [] else [es[|es| - 1]])
  }

  function First(s: seq<string>, n: nat): (r: seq<string>)
    ensures |r| <= n
  {
    if |s| <= n then s else s[..n]
  }

  /** The entries handed on. */
  function Kept(es: seq<string>): (r: seq<string>)
    ensures |r| <= ENV_ROOM
  {
    First(NonBridge(es), ENV_ROOM)
  }

  /** A string at staging offset off fits. */
  predicate Room(off: nat, s: string) {
    off + |s| + 1 <= STR_BUF_CAP
  }

  function OneIf(b: bool, s: string): (r: seq<string>)
    ensures |r| == if b then 1 else 0
  {
    if b then [s] else []
  }

  function GuardOf(pid: nat): string {
    Tagged(GUARD_KEY, pid, "1")
  }

  lemma {:induction false} GuardLength(pid: nat)
    requires pid < WORD
    ensures |GuardOf(pid)| <= 45
  {
    hide Decimal;
    DecimalLength(pid);
  }

  /** The staging offset after the guard, whose value "1" is staged first. */
  function AfterGuard(off: nat, pid: nat): nat {
    off + 2 + |GuardOf(pid)| + 1
  }

  function ExeRecord(off: nat, pid: nat, exe: Option<string>): seq<string> {
    if exe.None? then []
    else OneIf(Room(AfterGuard(off, pid), Tagged(EXE_KEY, pid, exe.value)), Tagged(EXE_KEY, pid, exe.value))
  }

  function AfterExe(off: nat, pid: nat, exe: Option<string>): nat {
    AfterGuard(off, pid) + if ExeRecord(off, pid, exe) == [] then 0 else |Tagged(EXE_KEY, pid, exe.value)| + 1
  }

  function Argv0Record(off: nat, pid: nat, exe: Option<string>, argv0: Option<string>, ei: nat): seq<string> {
    if argv0.Some? && ei < PTR_ARR_CAP - 2 then
      OneIf(Room(AfterExe(off, pid, exe), Tagged(ARGV0_KEY, pid, argv0.value)), Tagged(ARGV0_KEY, pid, argv0.value))
    else []
  }

  /** The environment of the re-executed process: the entries handed on, the guard, and the two records
      as far as the staging buffer (used up to off) and the pointer array have room. */
  function RebuiltEnv(es: seq<string>, off: nat, pid: nat, exe: Option<string>, argv0: Option<string>): seq<string> {
    var a := Kept(es) + [GuardOf(pid)];
    var b := a + ExeRecord(off, pid, exe);
    b + Argv0Record(off, pid, exe, argv0, |b|)
  }

  /* ---- what the rebuilt environment is like ---- */

  lemma {:induction false} NonBridgeAppend(a: seq<string>, b: seq<string>)
    ensures NonBridge(a + b) == NonBridge(a) + NonBridge(b)
  {
    hide IsBridgeVar;
    if b == [] {
      assert a + b == a;
    } else {
      assert (a + b)[..|a + b| - 1] == a + b[..|b| - 1];
      NonBridgeAppend(a, b[..|b| - 1]);
    }
  }

  lemma {:induction false} NonBridgeHas(es: seq<string>)
    ensures forall i :: 0 <= i < |NonBridge(es)| ==> !IsBridgeVar(NonBridge(es)[i])
  {
    hide IsBridgeVar;
    if es != [] { NonBridgeHas(es[..|es| - 1]); }
  }

  lemma {:induction false} NonBridgeOfClean(es: seq<string>)
    requires forall i :: 0 <= i < |es| ==> !IsBridgeVar(es[i])
    ensures NonBridge(es) == es
  {
    hide IsBridgeVar;
    if es != [] { NonBridgeOfClean(es[..|es| - 1]); }
  }

  lemma {:induction false} NonBridgeOfRecord(key: string, pid: nat, val: string)
    requires IsKey(key)
    ensures NonBridge([Tagged(key, pid, val)]) == [] && IsBridgeVar(Tagged(key, pid, val))
  {
    assert key <= Tagged(key, pid, val);
    assert [Tagged(key, pid, val)][..0] == [];
  }

  /** The records at the end of a rebuilt environment. */
  function Records(es: seq<string>, off: nat, pid: nat, exe: Option<string>, argv0: Option<string>): (r: seq<string>)
    ensures 1 <= |r| <= 3
  {
    var x := ExeRecord(off, pid, exe);
    [GuardOf(pid)] + x + Argv0Record(off, pid, exe, argv0, |Kept(es)| + 1 + |x|)
  }

  lemma {:induction false} RebuiltIs(es: seq<string>, off: nat, pid: nat, exe: Option<string>, argv0: Option<string>)
    ensures RebuiltEnv(es, off, pid, exe, argv0) == Kept(es) + Records(es, off, pid, exe, argv0)
    ensures |RebuiltEnv(es, off, pid, exe, argv0)| < PTR_ARR_CAP - 1
  {
    hide Kept, ExeRecord, Argv0Record, GuardOf;
    var x := ExeRecord(off, pid, exe);
    assert |Kept(es) + [GuardOf(pid)] + x| == |Kept(es)| + 1 + |x|;
    RecordsFit(es, off, pid, exe, argv0);
  }

  lemma {:induction false} RecordsFit(es: seq<string>, off: nat, pid: nat, exe: Option<string>, argv0: Option<string>)
    ensures |Kept(es)| + |Records(es, off, pid, exe, argv0)| < PTR_ARR_CAP - 1
  {
    hide Kept, GuardOf;
  }

  /** The program's own variables pass through, the first ENV_ROOM of them in their order, and at most
      three bridge variables are added, however many the block held. */
  lemma {:induction false} OwnVariablesSurvive(es: seq<string>, off: nat, pid: nat, exe: Option<string>,
      argv0: Option<string>)
    ensures NonBridge(RebuiltEnv(es, off, pid, exe, argv0)) == Kept(es)
    ensures |Kept(es)| < |RebuiltEnv(es, off, pid, exe, argv0)| <= |Kept(es)| + 3
  {
    hide Room;
    RebuiltIs(es, off, pid, exe, argv0);
    NonBridgeHas(es);
    NonBridgeOfClean(Kept(es));
    NonBridgeAppend(Kept(es), Records(es, off, pid, exe, argv0));
    NonBridgeOfRecords(es, off, pid, exe, argv0);
    assert Kept(es) + [] == Kept(es);
  }

  lemma {:induction false} NonBridgeOfRecords(es: seq<string>, off: nat, pid: nat, exe: Option<string>,
      argv0: Option<string>)
    ensures NonBridge(Records(es, off, pid, exe, argv0)) == []
  {
    hide NonBridge, Tagged, Room, Kept;
    var x := ExeRecord(off, pid, exe);
    var y := Argv0Record(off, pid, exe, argv0, |Kept(es)| + 1 + |x|);
    NonBridgeOfRecord(GUARD_KEY, pid, "1");
    if exe.Some? { NonBridgeOfRecord(EXE_KEY, pid, exe.value); }
    if argv0.Some? { NonBridgeOfRecord(ARGV0_KEY, pid, argv0.value); }
    NonBridgeOfNone();
    assert NonBridge(x) == [] && NonBridge(y) == [];
    NonBridgeAppend([GuardOf(pid)], x);
    NonBridgeAppend([GuardOf(pid)] + x, y);
  }

  lemma {:induction false} NonBridgeOfNone()
    ensures NonBridge([]) == []
  {
  }

  /* ---- how many bytes it takes ---- */

  lemma {:induction false} JoinOfTwo(a: seq<string>, e: string)
    ensures |Join(a + [e])| == |Join(a)| + |e| + 1
  {
    JoinAppend(a, [e]);
    JoinOne(e);
  }

  lemma {:induction false} NonBridgeIsShorter(es: seq<string>)
    ensures |Join(NonBridge(es))| <= |Join(es)|
  {
    hide Join, IsBridgeVar;
    if es != [] {
      var n := |es| - 1;
      NonBridgeIsShorter(es[..n]);
      assert es == es[..n] + [es[n]];
      JoinOfTwo(es[..n], es[n]);
      JoinOfTwo(NonBridge(es[..n]), es[n]);
      assert NonBridge(es[..n]) + [] == NonBridge(es[..n]);
    }
  }

  lemma {:induction false} KeptIsShorter(es: seq<string>)
    ensures |Join(Kept(es))| <= |Join(NonBridge(es))|
  {
    hide Join, NonBridge;
    var all := NonBridge(es);
    if |all| > ENV_ROOM {
      assert all == all[..ENV_ROOM] + all[ENV_ROOM..];
      JoinAppend(all[..ENV_ROOM], all[ENV_ROOM..]);
    }
  }

  lemma {:induction false} JoinOfOneIf(b: bool, e: string)
    ensures |Join(OneIf(b, e))| == if b then |e| + 1 else 0
  {
    if b { JoinOne(e); }
  }

  /** The records never take more than the staging buffer they are made in. */
  lemma {:induction false} RecordsAreShort(es: seq<string>, off: nat, pid: nat, exe: Option<string>,
      argv0: Option<string>)
    requires pid < WORD
    ensures |Join(Records(es, off, pid, exe, argv0))| <= STR_BUF_CAP
  {
    hide Join, Tagged, Kept, GuardOf;
    var x := ExeRecord(off, pid, exe);
    var y := Argv0Record(off, pid, exe, argv0, |Kept(es)| + 1 + |x|);
    GuardLength(pid);
    JoinAppend([GuardOf(pid)] + x, y);
    JoinAppend([GuardOf(pid)], x);
    JoinOne(GuardOf(pid));
    JoinOfNone();
    if exe.Some? {
      var r := Tagged(EXE_KEY, pid, exe.value);
      JoinOfOneIf(Room(AfterGuard(off, pid), r), r);
    }
    if argv0.Some? {
      var r := Tagged(ARGV0_KEY, pid, argv0.value);
      JoinOfOneIf(Room(AfterExe(off, pid, exe), r), r);
    }
  }

  lemma {:induction false} JoinOfNone()
    ensures Join([]) == ""
  {
  }

  lemma {:induction false} RebuiltIsShort(es: seq<string>, off: nat, pid: nat, exe: Option<string>,
      argv0: Option<string>)
    requires pid < WORD
    ensures |Join(RebuiltEnv(es, off, pid, exe, argv0))| <= |Join(NonBridge(es))| + STR_BUF_CAP
  {
    hide Join, Kept, Records, NonBridge, RebuiltEnv;
    RebuiltIs(es, off, pid, exe, argv0);
    JoinAppend(Kept(es), Records(es, off, pid, exe, argv0));
    KeptIsShorter(es);
    RecordsAreShort(es, off, pid, exe, argv0);
  }

  /* ---- generation after generation ---- */

  /** Each generation reads its environment and rebuilds it for the next. */
  datatype Generation = Generation(tail: string, off: nat, pid: nat, exe: Option<string>, argv0: Option<string>)

  function NextGeneration(es: seq<string>, g: Generation): seq<string> {
    RebuiltEnv(Handed(es, g.tail), g.off, g.pid, g.exe, g.argv0)
  }

  function AfterGenerations(es: seq<string>, gs: seq<Generation>): seq<string> {
    if gs == [] then es
    else NextGeneration(AfterGenerations(es, gs[..|gs| - 1]), gs[|gs| - 1])
  }

  /** The bytes an environment may have so that its own entries and all records are seen whole. */
  predicate RoomForRecords(es: seq<string>) {
    |Join(es)| + STR_BUF_CAP <= ENV_BUF_CAP
  }

  /** Over any number of generations, with any pids and records, nothing piles up: at most three bridge
      variables, and the own entries of a roomy environment unchanged. */
  lemma {:induction false} GenerationsStayBounded(es: seq<string>, gs: seq<Generation>)
    requires gs != []
    ensures var env := AfterGenerations(es, gs); |env| <= |NonBridge(env)| + 3 && |NonBridge(env)| <= ENV_ROOM
    ensures RoomForRecords(es) && (forall i :: 0 <= i < |gs| ==> gs[i].pid < WORD) ==>
              NonBridge(AfterGenerations(es, gs)) == Kept(es)
  {
    hide RebuiltEnv, NonBridge, Kept, Handed, RoomForRecords;
    var n := |gs| - 1;
    var g, before := gs[n], AfterGenerations(es, gs[..n]);
    OwnVariablesSurvive(Handed(before, g.tail), g.off, g.pid, g.exe, g.argv0);
    KeptIsFew(Handed(before, g.tail));
    if RoomForRecords(es) && forall i :: 0 <= i < |gs| ==> gs[i].pid < WORD {
      GenerationsFit(es, gs[..n]);
      HandedAll(before, g.tail, GUARD_KEY, 0);
      if n != 0 { KeptAgain(es, before); }
    }
  }

  lemma {:induction false} KeptIsFew(es: seq<string>)
    ensures |Kept(es)| <= ENV_ROOM
  {
  }

  /** The own entries stay within their bytes, so every generation fits the buffer. */
  lemma {:induction false} GenerationsFit(es: seq<string>, gs: seq<Generation>)
    requires RoomForRecords(es) && forall i :: 0 <= i < |gs| ==> gs[i].pid < WORD
    ensures |Join(AfterGenerations(es, gs))| <= ENV_BUF_CAP
    ensures gs != [] ==> NonBridge(AfterGenerations(es, gs)) == Kept(es)
  {
    hide RebuiltEnv, NonBridge, Kept, Handed, Join;
    if gs != [] {
      var n := |gs| - 1;
      var g, before := gs[n], AfterGenerations(es, gs[..n]);
      GenerationsFit(es, gs[..n]);
      HandedAll(before, g.tail, GUARD_KEY, 0);
      OwnVariablesSurvive(before, g.off, g.pid, g.exe, g.argv0);
      RebuiltIsShort(before, g.off, g.pid, g.exe, g.argv0);
      if n != 0 {
        KeptAgain(es, before);
        KeptIsShorter(es);
      }
      NonBridgeIsShorter(es);
    }
  }

  lemma {:induction false} KeptAgain(es: seq<string>, fs: seq<string>)
    requires NonBridge(fs) == Kept(es)
    ensures Kept(fs) == Kept(es)
  {
  }

  /* ---- what its readers find ---- */

  lemma {:induction false} NoRecordInClean(es: seq<string>, key: string, pid: nat)
    requires IsKey(key) && forall i :: 0 <= i < |es| ==> !IsBridgeVar(es[i])
    ensures LastTagged(es, key, pid) == None
  {
    if es != [] {
      NoRecordInClean(es[..|es| - 1], key, pid);
      hide LastTagged;
      LastTaggedStep(es[..|es| - 1], es[|es| - 1], key, pid);
      assert es == es[..|es| - 1] + [es[|es| - 1]];
    }
  }

  /** One more record: found under its own key by its own pid, and no concern of any other key or pid. */
  lemma {:induction false} LastTaggedRecord(es: seq<string>, key: string, pid: nat, val: string, k: string, q: nat)
    requires IsKey(key) && IsKey(k) && pid < WORD && q < WORD
    ensures LastTagged(es + [Tagged(key, pid, val)], k, q) ==
            (if k == key && q == pid then Some(val) else LastTagged(es, k, q))
  {
    hide LastTagged, Decimal, DigitRun;
    var e := Tagged(key, pid, val);
    LastTaggedStep(es, e, k, q);
    assert e + "" == e && val + "" == val;
    if k == key {
      FoundByItsPid(key, pid, val, "", q);
    } else {
      assert key <= e;
      if k <= e { KeysAreDistinct(k, key, e); }
    }
  }

  lemma {:induction false} OneIfFinds(es: seq<string>, b: bool, key: string, pid: nat, val: string, k: string, q: nat)
    requires IsKey(key) && IsKey(k) && pid < WORD && q < WORD
    ensures LastTagged(es + OneIf(b, Tagged(key, pid, val)), k, q) ==
            (if b && k == key && q == pid then Some(val) else LastTagged(es, k, q))
  {
    if b { LastTaggedRecord(es, key, pid, val, k, q); } else { assert es + [] == es; }
  }

  /** The invocation name is recorded. */
  predicate Argv0Recorded(es: seq<string>, off: nat, pid: nat, exe: Option<string>, argv0: Option<string>) {
    && argv0.Some? && Room(AfterExe(off, pid, exe), Tagged(ARGV0_KEY, pid, argv0.value))
    && !(|Kept(es)| == ENV_ROOM && ExeRecord(off, pid, exe) != [])
  }

  lemma {:induction false} Argv0RecordIff(es: seq<string>, off: nat, pid: nat, exe: Option<string>,
      argv0: Option<string>)
    ensures Argv0Record(off, pid, exe, argv0, |Kept(es)| + 1 + |ExeRecord(off, pid, exe)|) != []
            <==> Argv0Recorded(es, off, pid, exe, argv0)
  {
    hide Room, Kept, Tagged, AfterExe;
    assert |ExeRecord(off, pid, exe)| <= 1;
  }

  /** In a rebuilt environment the guard is there for exactly the pid it was rebuilt for, nobody finds a
      probe variable, and a recorded path or invocation name is that pid's. The name is there exactly if there
      is one, it fits the staging buffer, and a full array has not given its last place to the path. */
  lemma {:induction false} RecordsFound(es: seq<string>, off: nat, pid: nat, exe: Option<string>,
      argv0: Option<string>, q: nat)
    requires pid < WORD && q < WORD
    ensures var env := RebuiltEnv(es, off, pid, exe, argv0);
            && (LastTagged(env, GUARD_KEY, q) != None <==> q == pid)
            && LastTagged(env, PROBE_KEY, q) == None
            && LastTagged(env, EXE_KEY, q) == (if q == pid && ExeRecord(off, pid, exe) != [] then exe else None)
            && LastTagged(env, ARGV0_KEY, q) ==
               (if q == pid && Argv0Recorded(es, off, pid, exe, argv0) then argv0 else None)
  {
    hide Tagged, LastTagged, Room, IsBridgeVar;
    NonBridgeHas(es);
    var kept := Kept(es);
    forall k | IsKey(k) ensures LastTagged(kept, k, q) == None { NoRecordInClean(kept, k, q); }
    var a := kept + [GuardOf(pid)];
    var x := ExeRecord(off, pid, exe);
    var y := Argv0Record(off, pid, exe, argv0, |a + x|);
    DistinctKeys();
    Argv0RecordIff(es, off, pid, exe, argv0);
    forall k | IsKey(k)
      ensures LastTagged(a + x + y, k, q) ==
              if q != pid then None
              else if k == GUARD_KEY then Some("1")
              else if k == EXE_KEY && x != [] then exe
              else if k == ARGV0_KEY && y != [] then argv0
              else None
    {
      LastTaggedRecord(kept, GUARD_KEY, pid, "1", k, q);
      if exe.Some? {
        OneIfFinds(a, Room(AfterGuard(off, pid), Tagged(EXE_KEY, pid, exe.value)), EXE_KEY, pid, exe.value, k, q);
      } else {
        assert a + x == a;
      }
      if argv0.Some? && |a + x| < PTR_ARR_CAP - 2 {
        var fits := Room(AfterExe(off, pid, exe), Tagged(ARGV0_KEY, pid, argv0.value));
        OneIfFinds(a + x, fits, ARGV0_KEY, pid, argv0.value, k, q);
      } else {
        assert a + x + y == a + x;
      }
    }
  }

  /** With 4092 own entries the path is recorded and the invocation name is not. */
  lemma {:induction false} FullArrayLosesArgv0(e: string, pid: nat)
    requires !IsBridgeVar(e) && 0 < pid < WORD
    ensures var env := RebuiltEnv(seq(ENV_ROOM, _ => e), 0, pid, Some("/p"), Some("p"));
            LastTagged(env, EXE_KEY, pid) == Some("/p") && LastTagged(env, ARGV0_KEY, pid) == None
  {
    hide RebuiltEnv, LastTagged, IsBridgeVar, Decimal, NonBridge;
    var es := seq(ENV_ROOM, _ => e);
    NonBridgeOfClean(es);
    DecimalLength(pid);
    RecordsFound(es, 0, pid, Some("/p"), Some("p"), pid);
  }

  /** Records in the entry are about process pid alone. */
  ghost predicate About(e: string, pid: nat) {
    forall key: string, q: nat :: IsKey(key) && q < WORD && TagValue(e, key, q) != None ==> q == pid
  }

  predicate IsRecord(e: string, key: string, pid: nat) {
    key + Decimal(pid) + ":" <= e
  }

  /** The path's record comes first, if it comes at all. */
  predicate PathFirst(rest: seq<string>, pid: nat) {
    rest != [] ==> NoneOfKey(rest[1..], EXE_KEY) && (EXE_KEY <= rest[0] ==> IsRecord(rest[0], EXE_KEY, pid))
  }

  /** An environment as the bridge of pid leaves it: own entries, then its guard, then perhaps its path, then
      records without another guard or path; nothing about anybody else and no probe variable. */
  ghost predicate RebuiltFor(es: seq<string>, pid: nat) {
    var n := |NonBridge(es)|;
    && n < |es| && es[..n] == NonBridge(es) && es[n] == GuardOf(pid)
    && NoneOfKey(es[n + 1..], GUARD_KEY) && NoneOfKey(es, PROBE_KEY) && PathFirst(es[n + 1..], pid)
    && (forall i :: 0 <= i < |es| ==> About(es[i], pid))
  }

  lemma {:induction false} RecordIsAbout(key: string, pid: nat, val: string)
    requires IsKey(key) && pid < WORD
    ensures About(Tagged(key, pid, val), pid) && IsRecord(Tagged(key, pid, val), key, pid)
    ensures forall k :: IsKey(k) && k != key ==> !(k <= Tagged(key, pid, val))
  {
    hide Decimal, TagValue, IsKey;
    var e := Tagged(key, pid, val);
    assert key <= e && e + "" == e;
    forall k | IsKey(k) && k <= e ensures k == key { KeysAreDistinct(k, key, e); }
    forall k: string, q: nat | IsKey(k) && q < WORD && TagValue(e, k, q) != None ensures q == pid {
      TagNeedsKey(e, k, q);
      FoundByItsPid(key, pid, val, "", q);
    }
  }

  lemma {:induction false} TagNeedsKey(e: string, key: string, q: nat)
    requires TagValue(e, key, q) != None
    ensures key <= e
  {
  }

  lemma {:induction false} CleanIsAbout(e: string, pid: nat)
    requires !IsBridgeVar(e)
    ensures About(e, pid) && !(GUARD_KEY <= e) && !(PROBE_KEY <= e)
  {
    hide TagValue;
    forall k: string, q: nat | IsKey(k) && TagValue(e, k, q) != None ensures false { TagNeedsKey(e, k, q); }
  }

  lemma {:induction false} RebuiltIsFor(es: seq<string>, off: nat, pid: nat, exe: Option<string>, argv0: Option<string>)
    requires pid < WORD
    ensures RebuiltFor(RebuiltEnv(es, off, pid, exe, argv0), pid)
  {
    hide RebuiltEnv, About, NonBridge, Kept, IsBridgeVar, Room, Tagged, GuardOf, PathFirst;
    var env, kept, rs := RebuiltEnv(es, off, pid, exe, argv0), Kept(es), Records(es, off, pid, exe, argv0);
    RebuiltIs(es, off, pid, exe, argv0);
    OwnVariablesSurvive(es, off, pid, exe, argv0);
    RecordsAreAbout(es, off, pid, exe, argv0);
    RecordsPathFirst(es, off, pid, exe, argv0);
    KeptIsClean(es);
    forall i | 0 <= i < |kept| ensures About(kept[i], pid) && !(PROBE_KEY <= kept[i]) { CleanIsAbout(kept[i], pid); }
    assert env[..|kept|] == kept && env[|kept|] == rs[0] && env[|kept| + 1..] == rs[1..];
  }

  lemma {:induction false} KeptIsClean(es: seq<string>)
    ensures forall i :: 0 <= i < |Kept(es)| ==> !IsBridgeVar(Kept(es)[i])
  {
    hide IsBridgeVar;
    NonBridgeHas(es);
  }

  lemma {:induction false} TheKeys()
    ensures IsKey(GUARD_KEY) && IsKey(PROBE_KEY) && IsKey(EXE_KEY) && IsKey(ARGV0_KEY)
  {
  }

  lemma {:induction false} RecordsAreAbout(es: seq<string>, off: nat, pid: nat, exe: Option<string>,
      argv0: Option<string>)
    requires pid < WORD
    ensures var rs := Records(es, off, pid, exe, argv0);
            && rs[0] == GuardOf(pid) && NoneOfKey(rs[1..], GUARD_KEY) && NoneOfKey(rs, PROBE_KEY)
            && forall i :: 0 <= i < |rs| ==> About(rs[i], pid)
  {
    hide About, Room, Tagged, Kept, IsKey, IsRecord;
    DistinctKeys();
    TheKeys();
    RecordIsAbout(GUARD_KEY, pid, "1");
    if exe.Some? { RecordIsAbout(EXE_KEY, pid, exe.value); }
    if argv0.Some? { RecordIsAbout(ARGV0_KEY, pid, argv0.value); }
  }

  lemma {:induction false} RecordsPathFirst(es: seq<string>, off: nat, pid: nat, exe: Option<string>,
      argv0: Option<string>)
    requires pid < WORD
    ensures PathFirst(Records(es, off, pid, exe, argv0)[1..], pid)
  {
    hide About, Room, Tagged, Kept, IsKey, IsRecord;
    DistinctKeys();
    TheKeys();
    var rs, x := Records(es, off, pid, exe, argv0), ExeRecord(off, pid, exe);
    var y := Argv0Record(off, pid, exe, argv0, |Kept(es)| + 1 + |x|);
    assert rs[1..] == x + y;
    if exe.Some? { RecordIsAbout(EXE_KEY, pid, exe.value); }
    if argv0.Some? { RecordIsAbout(ARGV0_KEY, pid, argv0.value); }
  }

  /** The guard of a rebuilt environment is seen exactly when the own entries and its head are within
      the bytes read; nobody finds a probe variable in it. */
  lemma {:induction false} GuardSeen(es: seq<string>, pid: nat, q: nat)
    requires pid < WORD && q < WORD && RebuiltFor(es, pid)
    ensures LastTagged(Visible(es, ENV_BUF_CAP), GUARD_KEY, pid) != None
            <==> |Join(NonBridge(es))| + RecordHead(GUARD_KEY, pid) <= ENV_BUF_CAP
    ensures LastTagged(Visible(es, ENV_BUF_CAP), PROBE_KEY, q) == None
  {
    hide NonBridge, LastTagged, Visible, Join, RecordHead, About, IsBridgeVar, PathFirst;
    var a := NonBridge(es);
    NonBridgeHas(es);
    forall i | 0 <= i < |a| ensures !(GUARD_KEY <= a[i]) { CleanIsAbout(a[i], pid); }
    assert es == a + [GuardOf(pid)] + es[|a| + 1..];
    RecordSeenIff(a, GUARD_KEY, pid, "1", es[|a| + 1..], ENV_BUF_CAP);
    NoneVisible(es, PROBE_KEY, ENV_BUF_CAP);
    NoneFound(Visible(es, ENV_BUF_CAP), PROBE_KEY, q);
  }

  lemma {:induction false} DistinctKeys()
    ensures GUARD_KEY != PROBE_KEY && GUARD_KEY != EXE_KEY && GUARD_KEY != ARGV0_KEY
    ensures PROBE_KEY != EXE_KEY && PROBE_KEY != ARGV0_KEY && EXE_KEY != ARGV0_KEY
  {
    assert GUARD_KEY[16] == 'R' && PROBE_KEY[16] == 'P' && EXE_KEY[16] == 'E' && ARGV0_KEY[16] == 'A';
  }
}
