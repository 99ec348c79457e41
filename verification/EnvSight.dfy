/** How much of its environment the bridge sees: the first ENV_BUF_CAP bytes of the block. */
module EnvSight {
  import opened BridgeText
  import opened Tags
  import opened EnvBlock

  const ENV_BUF_CAP: nat := 0x4_0000

  /** What the first c bytes of the block of es show: whole entries, then perhaps the start of one. */
  function Visible(es: seq<string>, c: nat): seq<string> {
    if es == [] || c == 0 then []
    else if c <= |es[0]| then [es[0][..c]]
    else [es[0]] + Visible(es[1..], c - |es[0]| - 1)
  }

  /** The bytes readAll delivers of a process's environment. */
  function ReadBlock(es: seq<string>): string {
    if |Join(es)| <= ENV_BUF_CAP then Join(es) else Join(es)[..ENV_BUF_CAP]
  }

  /* ---- the definitions, one step at a time ---- */

  lemma {:induction false} EntriesStep(e: string, tail: string)
    requires NoNul(e) && (tail == "" || tail[0] == NUL) && e + tail != ""
    ensures Entries(e + tail) == [e] + Entries(if tail == "" then "" else tail[1..])
  {
    var s := e + tail;
    CTextIs(e, tail);
    assert From(s, |e| + 1) == if tail == "" then "" else tail[1..];
    hide CText;
  }

  lemma {:induction false} JoinStep(e: string, rest: seq<string>)
    ensures Join([e] + rest) == e + ([NUL] + Join(rest))
  {
    assert ([e] + rest)[1..] == rest;
  }

  lemma {:induction false} VisibleStep(e: string, rest: seq<string>, c: nat)
    ensures Visible([e] + rest, c) ==
            if c == 0 then [] else if c <= |e| then [e[..c]] else [e] + Visible(rest, c - |e| - 1)
  {
    assert ([e] + rest)[1..] == rest;
  }

  lemma {:induction false} NothingVisible(c: nat)
    ensures Visible([], c) == [] && Join([]) == "" && Entries("") == []
  {
  }

  /** Scanning the bytes read shows exactly the visible entries. */
  lemma {:induction false} EntriesOfPrefix(es: seq<string>, c: nat)
    requires AllNoNul(es) && c <= |Join(es)|
    ensures Entries(Join(es)[..c]) == Visible(es, c)
    decreases |es|
  {
    hide Entries, Join, Visible, NoNul;
    NothingVisible(c);
    if es != [] {
      var e, rest := es[0], es[1..];
      assert es == [e] + rest;
      JoinStep(e, rest);
      VisibleStep(e, rest, c);
      assert NoNul(e);
      if c <= |e| {
        PartOfEntry(e, [NUL] + Join(rest), c);
      } else {
        EntriesOfPrefix(rest, c - |e| - 1);
        WholeEntry(e, Join(rest), c);
      }
    }
  }

  lemma {:induction false} PartOfEntry(e: string, tail: string, c: nat)
    requires NoNul(e) && c <= |e|
    ensures Entries((e + tail)[..c]) == if c == 0 then [] else [e[..c]]
  {
    hide Entries;
    assert (e + tail)[..c] == e[..c] && e[..c] + "" == e[..c];
    NothingVisible(c);
    if c != 0 { EntriesStep(e[..c], ""); }
  }

  lemma {:induction false} WholeEntry(e: string, rest: string, c: nat)
    requires NoNul(e) && |e| < c <= |e| + 1 + |rest|
    ensures Entries((e + ([NUL] + rest))[..c]) == [e] + Entries(rest[..c - |e| - 1])
  {
    hide Entries;
    var tail := [NUL] + rest[..c - |e| - 1];
    assert (e + ([NUL] + rest))[..c] == e + tail && tail[1..] == rest[..c - |e| - 1];
    EntriesStep(e, tail);
  }

  lemma {:induction false} EntriesOfRead(es: seq<string>)
    requires AllNoNul(es)
    ensures Entries(ReadBlock(es)) == Visible(es, ENV_BUF_CAP)
  {
    hide Entries, Visible, Join;
    if |Join(es)| <= ENV_BUF_CAP {
      EntriesOfJoin(es);
      VisibleAll(es, ENV_BUF_CAP);
    } else {
      EntriesOfPrefix(es, ENV_BUF_CAP);
    }
  }

  /** A block that fits is seen whole. */
  lemma {:induction false} VisibleAll(es: seq<string>, c: nat)
    requires |Join(es)| <= c
    ensures Visible(es, c) == es
  {
    if es != [] { VisibleAll(es[1..], c - |es[0]| - 1); }
  }

  lemma {:induction false} JoinAppend(a: seq<string>, b: seq<string>)
    ensures Join(a + b) == Join(a) + Join(b)
  {
    if a == [] {
      assert a + b == b;
    } else {
      assert (a + b)[1..] == a[1..] + b;
      JoinAppend(a[1..], b);
    }
  }

  lemma {:induction false} JoinOne(e: string)
    ensures |Join([e])| == |e| + 1
  {
    assert [e][1..] == [];
  }

  lemma {:induction false} VisibleAppend(a: seq<string>, b: seq<string>, c: nat)
    ensures Visible(a + b, c) == if |Join(a)| <= c then a + Visible(b, c - |Join(a)|) else Visible(a, c)
  {
    hide Visible, Join;
    NothingVisible(c);
    if a == [] {
      assert a + b == b && a + Visible(b, c) == Visible(b, c);
    } else {
      var e, rest := a[0], a[1..];
      assert a == [e] + rest && a + b == [e] + (rest + b);
      JoinStep(e, rest);
      VisibleStep(e, rest, c);
      VisibleStep(e, rest + b, c);
      if |e| < c {
        VisibleAppend(rest, b, c - |e| - 1);
        assert forall v: seq<string> :: [e] + (rest + v) == ([e] + rest) + v;
      }
    }
  }

  /** Every visible entry is one of the entries, or the start of it. */
  lemma {:induction false} VisiblePrefix(es: seq<string>, c: nat)
    ensures |Visible(es, c)| <= |es|
    ensures forall i :: 0 <= i < |Visible(es, c)| ==> Visible(es, c)[i] <= es[i]
  {
    if es != [] && c != 0 && |es[0]| < c {
      VisiblePrefix(es[1..], c - |es[0]| - 1);
      var v := Visible(es[1..], c - |es[0]| - 1);
      forall i | 0 <= i < |Visible(es, c)| ensures Visible(es, c)[i] <= es[i] {
        if i > 0 { assert Visible(es, c)[i] == v[i - 1] <= es[1..][i - 1]; }
      }
    }
  }

  /* ---- records at the edge ---- */

  /** The bytes of a record that its readers need: key, pid and colon. */
  function RecordHead(key: string, pid: nat): nat {
    |key| + |Decimal(pid)| + 1
  }

  /** A run of digits that ends inside s ends there whatever follows s. */
  lemma {:induction false} DigitRunEnds(s: string, more: string)
    requires |DigitRun(s)| < |s|
    ensures DigitRun(s + more) == DigitRun(s)
  {
    var d := DigitRun(s);
    assert s == d + s[|d|..];
    assert s + more == d + (s[|d|..] + more);
    DigitRunIs(d, s[|d|..] + more);
  }

  /** What a prefix says, the whole entry says. */
  lemma {:induction false} TagOfPrefix(p: string, e: string, key: string, q: nat)
    requires p <= e && TagValue(p, key, q) != None
    ensures TagValue(e, key, q) == TagValue(p, key, q)
  {
    hide DigitRun, Value;
    var rest := p[|key|..];
    assert key <= e && e == p + e[|p|..];
    assert e[|key|..] == rest + e[|p|..];
    DigitRunEnds(rest, e[|p|..]);
  }

  /** The head of a record and part of its value. */
  lemma {:induction false} RecordPrefix(key: string, pid: nat, val: string, n: nat)
    requires n <= |val|
    ensures |Tagged(key, pid, val)| == RecordHead(key, pid) + |val|
    ensures Tagged(key, pid, val)[..RecordHead(key, pid) + n] == Tagged(key, pid, val[..n])
  {
    hide Decimal;
    var h := key + Decimal(pid) + ":";
    assert (h + val)[..|h| + n] == h + val[..n];
  }

  /** Part of the head of a record: no more than the key and digits. */
  lemma {:induction false} HeadPrefix(key: string, pid: nat, val: string, c: nat)
    requires |key| <= c < RecordHead(key, pid)
    ensures c <= |Tagged(key, pid, val)| && Tagged(key, pid, val)[..c][|key|..] == Decimal(pid)[..c - |key|]
  {
    hide Decimal;
    var d := Decimal(pid);
    assert Tagged(key, pid, val) == key + (d + (":" + val));
    assert (key + (d + (":" + val)))[..c] == key + d[..c - |key|];
  }

  /** A record cut short is recognised exactly while its head is whole. */
  lemma {:induction false} CutRecord(key: string, pid: nat, val: string, c: nat)
    requires pid < WORD && c <= |Tagged(key, pid, val)|
    ensures TagValue(Tagged(key, pid, val)[..c], key, pid) != None <==> RecordHead(key, pid) <= c
  {
    hide Decimal, Value, Tagged, DigitRun;
    var e, h := Tagged(key, pid, val), RecordHead(key, pid);
    RecordPrefix(key, pid, val, 0);
    if h <= c {
      RecordPrefix(key, pid, val, c - h);
      var t := Tagged(key, pid, val[..c - h]);
      assert t + "" == t;
      FoundByItsPid(key, pid, val[..c - h], "", pid);
    } else if |key| <= c {
      HeadPrefix(key, pid, val, c);
      AllDigitsRun(Decimal(pid)[..c - |key|]);
    }
  }

  lemma {:induction false} AllDigitsRun(d: string)
    requires AllDigits(d)
    ensures DigitRun(d) == d
  {
    assert d + "" == d;
    DigitRunIs(d, "");
  }

  predicate NoneOfKey(es: seq<string>, key: string) {
    forall i :: 0 <= i < |es| ==> !(key <= es[i])
  }

  lemma {:induction false} NoneFound(es: seq<string>, key: string, q: nat)
    requires NoneOfKey(es, key)
    ensures LastTagged(es, key, q) == None
  {
    if es != [] { NoneFound(es[..|es| - 1], key, q); }
  }

  lemma {:induction false} NoneVisible(es: seq<string>, key: string, c: nat)
    requires NoneOfKey(es, key)
    ensures NoneOfKey(Visible(es, c), key)
  {
    VisiblePrefix(es, c);
    forall i | 0 <= i < |Visible(es, c)| ensures !(key <= Visible(es, c)[i]) { assert !(key <= es[i]); }
  }

  lemma {:induction false} LastTaggedAppend(a: seq<string>, b: seq<string>, key: string, q: nat)
    requires NoneOfKey(b, key)
    ensures LastTagged(a + b, key, q) == LastTagged(a, key, q)
  {
    hide TagValue;
    if b == [] {
      assert a + b == a;
    } else {
      var n := |b| - 1;
      LastTaggedAppend(a, b[..n], key, q);
      assert a + b == (a + b[..n]) + [b[n]];
      NotTagged(b[n], key, q);
      LastTaggedStep(a + b[..n], b[n], key, q);
    }
  }

  lemma {:induction false} NotTagged(e: string, key: string, q: nat)
    requires !(key <= e)
    ensures TagValue(e, key, q) == None
  {
  }

  /** What is seen of an entry r between others, whose bytes start at |Join(a)|. */
  lemma {:induction false} VisibleAt(a: seq<string>, r: string, b: seq<string>, c: nat)
    ensures var n := |Join(a)|;
            Visible(a + [r] + b, c) ==
            if c <= n then Visible(a, c)
            else if c - n <= |r| then a + [r[..c - n]] + []
            else a + [r] + Visible(b, c - n - |r| - 1)
  {
    hide Join, Visible;
    var n := |Join(a)|;
    assert a + [r] + b == a + ([r] + b);
    VisibleAppend(a, [r] + b, c);
    VisibleAppend(a, [], c);
    assert a + [] == a;
    NothingVisible(0);
    if c >= n {
      VisibleStep(r, b, c - n);
      NothingVisible(c - n);
      if c > n {
        var d := c - n;
        if d <= |r| {
          assert a + [r[..d]] == a + [r[..d]] + [];
        } else {
          assert a + ([r] + Visible(b, d - |r| - 1)) == a + [r] + Visible(b, d - |r| - 1);
        }
      }
    }
  }

  /** Among entries without the key, one entry decides what is found. */
  lemma {:induction false} OneDecides(a: seq<string>, p: string, v: seq<string>, key: string, q: nat)
    requires NoneOfKey(a, key) && NoneOfKey(v, key)
    ensures LastTagged(a + [p] + v, key, q) != None <==> TagValue(p, key, q) != None
  {
    hide TagValue, LastTagged, NoneOfKey;
    LastTaggedAppend(a + [p], v, key, q);
    LastTaggedStep(a, p, key, q);
    NoneFound(a, key, q);
  }

  /** The only record of its key in an environment is seen exactly when the entries before it and its
      head are within the bytes read. */
  lemma {:induction false} RecordSeenIff(a: seq<string>, key: string, pid: nat, val: string, b: seq<string>, c: nat)
    requires pid < WORD && NoneOfKey(a, key) && NoneOfKey(b, key)
    ensures LastTagged(Visible(a + [Tagged(key, pid, val)] + b, c), key, pid) != None
            <==> |Join(a)| + RecordHead(key, pid) <= c
  {
    hide Join, TagValue, LastTagged, Tagged, RecordHead, NoneOfKey, Visible;
    var r, n := Tagged(key, pid, val), |Join(a)|;
    VisibleAt(a, r, b, c);
    HeadPositive(key, pid);
    HeadFits(key, pid, val);
    if c <= n {
      NoneVisible(a, key, c);
      NoneFound(Visible(a, c), key, pid);
    } else if c - n <= |r| {
      NoneOfNothing(key);
      OneDecides(a, r[..c - n], [], key, pid);
      CutRecord(key, pid, val, c - n);
    } else {
      NoneVisible(b, key, c - n - |r| - 1);
      OneDecides(a, r, Visible(b, c - n - |r| - 1), key, pid);
      CutRecord(key, pid, val, |r|);
      assert r[..|r|] == r;
    }
  }

  lemma {:induction false} NoneOfNothing(key: string)
    ensures NoneOfKey([], key)
  {
  }

  lemma {:induction false} HeadPositive(key: string, pid: nat)
    ensures RecordHead(key, pid) > 0
  {
  }

  lemma {:induction false} HeadFits(key: string, pid: nat, val: string)
    ensures RecordHead(key, pid) <= |Tagged(key, pid, val)|
  {
  }

  /** A record of the key for another pid is not mistaken for q's, however it is cut. */
  lemma {:induction false} OthersRecord(a: seq<string>, key: string, pid: nat, val: string, c: nat, q: nat)
    requires pid < WORD && q < WORD && q != pid && NoneOfKey(a, key)
    ensures LastTagged(Visible(a + [Tagged(key, pid, val)], c), key, q) == None
  {
    hide Join, TagValue, LastTagged, Tagged, NoneOfKey, Visible;
    var r, n := Tagged(key, pid, val), |Join(a)|;
    assert a + [r] == a + [r] + [];
    VisibleAt(a, r, [], c);
    NoneOfNothing(key);
    if c <= n {
      NoneVisible(a, key, c);
      NoneFound(Visible(a, c), key, q);
    } else {
      var p := if c - n <= |r| then r[..c - n] else r;
      if c - n > |r| { NothingVisible(c - n - |r| - 1); }
      OneDecides(a, p, [], key, q);
      assert r + "" == r;
      FoundByItsPid(key, pid, val, "", q);
      if TagValue(p, key, q) != None { TagOfPrefix(p, r, key, q); }
    }
  }

  /* ---- what the bridge's pointers stand for ---- */

  /** The buffer ends inside an entry: no NUL is left to end it. */
  predicate Unended(es: seq<string>) {
    |Join(Visible(es, ENV_BUF_CAP))| > ENV_BUF_CAP
  }

  /** The entries as C strings read from the buffer. An unended one runs on into tail, the memory that
      follows. */
  function Handed(es: seq<string>, tail: string): seq<string> {
    var v := Visible(es, ENV_BUF_CAP);
    if Unended(es) then v[..|v| - 1] + [v[|v| - 1] + tail] else v
  }

  /** What follows the buffer is a C string, and it completes no bridge variable out of an entry that
      was not seen to be one. */
  predicate TailOk(es: seq<string>, tail: string) {
    && NoNul(tail)
    && var v := Visible(es, ENV_BUF_CAP);
       Unended(es) && IsBridgeVar(v[|v| - 1] + tail) ==> IsBridgeVar(v[|v| - 1])
  }

  lemma {:induction false} NoTail(env: seq<string>)
    ensures TailOk(env, "")
  {
    var v := Visible(env, ENV_BUF_CAP);
    hide Visible, IsBridgeVar;
    if Unended(env) {
      assert Join([]) == "";
      assert v[|v| - 1] + "" == v[|v| - 1];
    }
  }

  /** The path in the last record of key seen for pid, as a C string. */
  function Recorded(es: seq<string>, tail: string, key: string, pid: nat): Option<string> {
    LastSeen(Visible(es, ENV_BUF_CAP), Handed(es, tail), key, pid)
  }

  /** Nothing is lost of a block that fits. */
  lemma {:induction false} HandedAll(es: seq<string>, tail: string, key: string, pid: nat)
    requires |Join(es)| <= ENV_BUF_CAP
    ensures !Unended(es) && Visible(es, ENV_BUF_CAP) == es && Handed(es, tail) == es
    ensures Recorded(es, tail, key, pid) == LastTagged(es, key, pid)
  {
    hide Visible, TagValue, Join, LastTagged, LastSeen;
    VisibleAll(es, ENV_BUF_CAP);
    LastSeenSame(es, key, pid);
  }

  /* ---- what was read, and what its pointers stand for ---- */

  /** The bytes read are the visible entries, each with its NUL, but for the last if it is cut. */
  lemma {:induction false} PrefixIsJoin(es: seq<string>, c: nat)
    requires c <= |Join(es)|
    ensures var v := Join(Visible(es, c)); c <= |v| <= c + 1 && Join(es)[..c] == v[..c]
    decreases |es|
  {
    hide Join, Visible;
    NothingVisible(c);
    if es != [] && c != 0 {
      var e, rest := es[0], es[1..];
      assert es == [e] + rest;
      JoinStep(e, rest);
      VisibleStep(e, rest, c);
      if c <= |e| {
        JoinOfOne(e[..c]);
      } else {
        var d := c - |e| - 1;
        PrefixIsJoin(rest, d);
        var v := Visible(rest, d);
        JoinStep(e, v);
        assert (e + ([NUL] + Join(rest)))[..c] == e + ([NUL] + Join(rest)[..d]);
        assert (e + ([NUL] + Join(v)))[..c] == e + ([NUL] + Join(v)[..d]);
      }
    } else if es != [] {
      VisibleStep(es[0], es[1..], 0);
      assert es == [es[0]] + es[1..];
    }
  }

  lemma {:induction false} JoinOfOne(e: string)
    ensures Join([e]) == e + [NUL]
  {
    assert [e][1..] == [] && Join([]) == "";
  }

  lemma {:induction false} ReadIsJoin(es: seq<string>)
    ensures var v := Join(Visible(es, ENV_BUF_CAP));
            ReadBlock(es) == if Unended(es) then v[..|v| - 1] else v
  {
    hide Join, Visible;
    if |Join(es)| <= ENV_BUF_CAP {
      VisibleAll(es, ENV_BUF_CAP);
    } else {
      PrefixIsJoin(es, ENV_BUF_CAP);
    }
  }

  lemma {:induction false} StringsOfEntry(e: string, rest: string, after: string)
    requires NoNul(e)
    ensures Strings(Read(e + ([NUL] + rest), after)) == [e] + Strings(Read(rest, after))
  {
    hide CText;
    var tail := [NUL] + rest;
    var r := Read(e + tail, after);
    CTextIs(e, tail);
    TextIs(r, 0);
    assert (e + tail)[0..] == e + tail;
    assert From(e + tail, |e| + 1) == rest;
  }

  lemma {:induction false} StringsOfLast(e: string, after: string)
    requires NoNul(e) && e != ""
    ensures Strings(Read(e, after)) == [e + CText(after)]
  {
    hide CText;
    assert e + "" == e && e[0..] == e;
    CTextIs(e, "");
    TextIs(Read(e, after), 0);
    assert From(e, |e| + 1) == "";
  }

  lemma {:induction false} StringsOfJoin(es: seq<string>, after: string)
    requires AllNoNul(es)
    ensures Strings(Read(Join(es), after)) == es
  {
    hide Join, NoNul, Strings;
    NothingVisible(0);
    if es == [] {
      NoEntries(after);
    } else {
      var e, rest := es[0], es[1..];
      assert es == [e] + rest;
      JoinStep(e, rest);
      StringsOfJoin(rest, after);
      StringsOfEntry(e, Join(rest), after);
    }
  }

  lemma {:induction false} StringsOfCut(es: seq<string>, last: string, after: string)
    requires AllNoNul(es) && NoNul(last) && last != ""
    ensures Strings(Read(Join(es) + last, after)) == es + [last + CText(after)]
  {
    hide Join, NoNul, Strings, CText;
    if es == [] {
      NothingVisible(0);
      assert "" + last == last;
      StringsOfLast(last, after);
    } else {
      var e, rest := es[0], es[1..];
      assert es == [e] + rest;
      JoinStep(e, rest);
      StringsOfCut(rest, last, after);
      assert e + ([NUL] + Join(rest)) + last == e + ([NUL] + (Join(rest) + last));
      StringsOfEntry(e, Join(rest) + last, after);
      assert [e] + (rest + [last + CText(after)]) == es + [last + CText(after)];
    }
  }

  lemma {:induction false} VisibleHasNoNul(es: seq<string>, c: nat)
    requires AllNoNul(es)
    ensures AllNoNul(Visible(es, c))
    ensures var v := Visible(es, c); v != [] && v[|v| - 1] == "" ==> |Join(v)| <= c
  {
    if es != [] && c > |es[0]| {
      var rest := Visible(es[1..], c - |es[0]| - 1);
      VisibleHasNoNul(es[1..], c - |es[0]| - 1);
      JoinStep(es[0], rest);
    }
  }

  lemma {:induction false} JoinEnds(es: seq<string>)
    requires es != []
    ensures Join(es) != "" && Join(es)[|Join(es)| - 1] == NUL
  {
    hide Join;
    var n := |es| - 1;
    assert es == es[..n] + [es[n]];
    JoinAppend(es[..n], [es[n]]);
    JoinOfOne(es[n]);
  }

  /** The bytes read of an environment that is cut: whole entries, and the start of one. */
  lemma {:induction false} CutBlock(es: seq<string>)
    requires AllNoNul(es) && Unended(es)
    ensures var v := Visible(es, ENV_BUF_CAP); var n := |v| - 1;
            && n >= 0 && ReadBlock(es) == Join(v[..n]) + v[n] && NoNul(v[n]) && v[n] != ""
            && (n > 0 ==> Join(v[..n]) != "" && Join(v[..n])[|Join(v[..n])| - 1] == NUL)
            && (n == 0 ==> Join(v[..n]) == "")
  {
    hide Join, Visible, ReadBlock, NoNul;
    var v := Visible(es, ENV_BUF_CAP);
    NothingVisible(0);
    ReadIsJoin(es);
    VisibleHasNoNul(es, ENV_BUF_CAP);
    var n := |v| - 1;
    assert v == v[..n] + [v[n]];
    JoinAppend(v[..n], [v[n]]);
    JoinOfOne(v[n]);
    assert Join(v) == Join(v[..n]) + v[n] + [NUL];
    if n > 0 { JoinEnds(v[..n]); }
  }

  /** The pointers into the buffer stand for exactly what Handed says. */
  lemma {:induction false} StringsOfRead(es: seq<string>, after: string)
    requires AllNoNul(es)
    ensures Strings(Read(ReadBlock(es), after)) == Handed(es, CText(after))
  {
    hide Join, Visible, NoNul, Strings, CText, ReadBlock, Unended;
    var v := Visible(es, ENV_BUF_CAP);
    ReadIsJoin(es);
    VisibleHasNoNul(es, ENV_BUF_CAP);
    if Unended(es) {
      CutBlock(es);
      var n := |v| - 1;
      StringsOfCut(v[..n], v[n], after);
    } else {
      StringsOfJoin(v, after);
    }
  }

  /** No entry is taken for a bridge variable's beginning that the memory behind the buffer completes. */
  predicate TailFits(r: Read) {
    forall off :: 0 <= off < |r.block| && (off == 0 || r.block[off - 1] == NUL) && IsBridgeVar(TextFrom(r, off)) ==>
      IsBridgeVar(CText(r.block[off..]))
  }

  lemma {:induction false} LastText(a: string, e: string, after: string)
    requires NoNul(e) && e != ""
    ensures var r := Read(a + e, after);
            CText(r.block[|a|..]) == e && TextFrom(r, |a|) == e + CText(after)
  {
    hide CText, TextFrom;
    var r := Read(a + e, after);
    assert r.block[|a|..] == e && e + "" == e;
    CTextIs(e, "");
    TextIs(r, |a|);
  }

  /** That is what TailOk says of the bytes read. */
  lemma {:induction false} TailFitsOk(es: seq<string>, after: string)
    requires AllNoNul(es) && TailFits(Read(ReadBlock(es), after))
    ensures TailOk(es, CText(after))
  {
    hide Join, Visible, NoNul, CText, ReadBlock, IsBridgeVar, TextFrom, Unended;
    assert NoNul(CText(after));
    if Unended(es) {
      var v := Visible(es, ENV_BUF_CAP);
      CutBlock(es);
      var n := |v| - 1;
      var a := Join(v[..n]);
      LastText(a, v[n], after);
      assert |a| < |ReadBlock(es)|;
    }
  }
}
