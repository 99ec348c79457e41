/** Pid-tagged environment records "<key><pid>:<value>": the bridge's own parser, and the one the ffi
    package reads the same records with. */
module Tags {
  import opened BridgeText

  datatype Option<T> = None | Some(value: T)

  const GUARD_KEY: string := "GOFFI_UNIVERSAL_REEXEC="
  const PROBE_KEY: string := "GOFFI_UNIVERSAL_PROBE="
  const EXE_KEY: string := "GOFFI_UNIVERSAL_EXE="
  const ARGV0_KEY: string := "GOFFI_UNIVERSAL_ARGV0="

  /** The variables the bridge writes. */
  predicate IsBridgeVar(e: string) {
    GUARD_KEY <= e || PROBE_KEY <= e || EXE_KEY <= e || ARGV0_KEY <= e
  }

  predicate IsKey(key: string) {
    key == GUARD_KEY || key == PROBE_KEY || key == EXE_KEY || key == ARGV0_KEY
  }

  /** No key contains a NUL, and no string starts with two of them. */
  lemma {:induction false} KeysAreDistinct(a: string, b: string, e: string)
    requires IsKey(a) && IsKey(b) && a <= e && b <= e
    ensures a == b && NoNul(a)
  {
    assert a[16] == e[16] && b[16] == e[16];
    assert GUARD_KEY[16] == 'R' && PROBE_KEY[16] == 'P' && EXE_KEY[16] == 'E' && ARGV0_KEY[16] == 'A';
  }

  /** The record of val for pid. */
  function Tagged(key: string, pid: nat, val: string): string {
    key + Decimal(pid) + ":" + val
  }

  /** The longest prefix of digits. */
  function DigitRun(s: string): (d: string)
    ensures d <= s && AllDigits(d)
    ensures |d| < |s| ==> !IsDigit(s[|d|])
  {
    if s == "" || !IsDigit(s[0]) then "" else [s[0]] + DigitRun(s[1..])
  }

  lemma {:induction false} DigitRunIs(d: string, rest: string)
    requires AllDigits(d) && (rest == "" || !IsDigit(rest[0]))
    ensures DigitRun(d + rest) == d
  {
    if d == "" {
      assert d + rest == rest;
    } else {
      assert (d + rest)[1..] == d[1..] + rest;
      DigitRunIs(d[1..], rest);
    }
  }

  /** Where the value starts in s when s is key's record for pid: the digits, taken modulo the machine
      word, denote pid and a colon follows them. */
  function TagValue(s: string, key: string, pid: nat): Option<nat> {
    if !(key <= s) then None
    else
      var rest := s[|key|..];
      var d := DigitRun(rest);
      if d == "" || Value(d) % WORD != pid || |d| == |rest| || rest[|d|] != ':' then None
      else Some(|key| + |d| + 1)
  }

  /** A record for pid is the key, at least one digit, the digits denoting pid modulo the machine word, a colon
      and any value. */
  lemma {:induction false} TagGrammar(s: string, key: string, pid: nat)
    ensures TagValue(s, key, pid) != None <==>
            exists d, val :: d != "" && AllDigits(d) && Value(d) % WORD == pid && s == key + d + ":" + val
  {
    hide Value;
    if TagValue(s, key, pid) != None {
      var rest := s[|key|..];
      var d := DigitRun(rest);
      var val := rest[|d| + 1..];
      assert rest == d + [rest[|d|]] + val;
      assert s == key + d + ":" + val;
    }
    if exists d, val :: d != "" && AllDigits(d) && Value(d) % WORD == pid && s == key + d + ":" + val {
      var d, val :| d != "" && AllDigits(d) && Value(d) % WORD == pid && s == key + d + ":" + val;
      assert s == key + (d + (":" + val));
      assert s[|key|..] == d + (":" + val);
      DigitRunIs(d, ":" + val);
    }
  }

  /* ---- scanning ---- */

  /** matchAt: whether the block continues with key at off. */
  method MatchAt(block: string, off: nat, key: string) returns (r: bool)
    requires off <= |block|
    ensures r <==> key <= block[off..]
  {
    if off + |key| > |block| {
      return false;
    }
    ghost var rest := block[off..];
    var i := 0;
    while i < |key|
      invariant 0 <= i <= |key| && rest[..i] == key[..i]
    {
      assert rest[i] == block[off + i];
      if block[off + i] != key[i] {
        return false;
      }
      assert rest[..i + 1] == rest[..i] + [rest[i]] && key[..i + 1] == key[..i] + [key[i]];
      i := i + 1;
    }
    assert key[..i] == key;
    assert key <= rest;
    return true;
  }

  lemma {:induction false} WrappingStep(v: nat, d: nat)
    requires d < 10
    ensures (10 * (v % WORD) + d) % WORD == (10 * v + d) % WORD
  {
    var q := v / WORD;
    assert v == WORD * q + v % WORD;
    assert 10 * v + d == WORD * (10 * q) + (10 * (v % WORD) + d);
    ModAdds(10 * q, 10 * (v % WORD) + d);
  }

  lemma {:induction false} ModAdds(q: nat, r: nat)
    ensures (WORD * q + r) % WORD == r % WORD
  {
  }

  /** taggedAt: -1, or where the value of key's record for pid starts in the block. The accumulator
      wraps at the machine word. */
  method TaggedAt(block: string, off: nat, key: string, pid: nat) returns (r: int)
    requires off <= |block|
    ensures r == match TagValue(block[off..], key, pid) case None => -1 case Some(v) => off + v
  {
    hide DigitRun, Value;
    var matches := MatchAt(block, off, key);
    if !matches {
      return -1;
    }
    ghost var rest := block[off..][|key|..];
    var v, p, digits := ParseRun(block, off + |key|);
    assert rest == block[off + |key|..];
    if digits == 0 || v != pid || p >= |block| || block[p] != ':' {
      return -1;
    }
    return p + 1;
  }

  method ParseRun(block: string, start: nat) returns (v: nat, p: nat, digits: nat)
    requires start <= |block|
    ensures p == start + |DigitRun(block[start..])| && digits == |DigitRun(block[start..])|
    ensures v == Value(DigitRun(block[start..])) % WORD
  {
    v, p, digits := 0, start, 0;
    ghost var rest := block[start..];
    while p < |block| && '0' <= block[p] <= '9'
      invariant start <= p <= |block| && digits == p - start
      invariant AllDigits(rest[..digits]) && v == Value(rest[..digits]) % WORD
    {
      assert rest[..digits + 1][..digits] == rest[..digits];
      WrappingStep(Value(rest[..digits]), DigitValue(block[p]));
      v := (v * 10 + (block[p] as int - '0' as int)) % WORD;
      p := p + 1;
      digits := digits + 1;
    }
    assert rest == rest[..digits] + rest[digits..];
    DigitRunIs(rest[..digits], rest[digits..]);
  }

  /* ---- round trip ---- */

  lemma {:induction false} RecordParts(key: string, pid: nat, val: string, tail: string)
    ensures var s := Tagged(key, pid, val) + tail;
            && key <= s && s[|key|..] == Decimal(pid) + (":" + val + tail)
            && DigitRun(s[|key|..]) == Decimal(pid)
  {
    var s := Tagged(key, pid, val) + tail;
    assert s[|key|..] == Decimal(pid) + (":" + val + tail);
    DigitRunIs(Decimal(pid), ":" + val + tail);
  }

  /** A record is found by exactly the number its tag denotes modulo the machine word, whatever follows it. */
  lemma {:induction false} TagIsModulo(key: string, pid: nat, val: string, tail: string, q: nat)
    ensures TagValue(Tagged(key, pid, val) + tail, key, q)
            == (if q == pid % WORD then Some(|key| + |Decimal(pid)| + 1) else None)
  {
    hide DigitRun, Decimal, Value;
    RecordParts(key, pid, val, tail);
    DecimalValue(pid);
  }

  /** So a record of a pid is found by that pid alone. */
  lemma {:induction false} FoundByItsPid(key: string, pid: nat, val: string, tail: string, q: nat)
    requires pid < WORD && q < WORD
    ensures TagValue(Tagged(key, pid, val) + tail, key, q)
            == (if q == pid then Some(|key| + |Decimal(pid)| + 1) else None)
    ensures (Tagged(key, pid, val) + tail)[|key| + |Decimal(pid)| + 1..] == val + tail
  {
    hide TagValue, Decimal;
    TagIsModulo(key, pid, val, tail, q);
    ModSmall(pid);
  }

  lemma {:induction false} ModSmall(n: nat)
    requires n < WORD
    ensures n % WORD == n
  {
  }

  /** Scanning a block is scanning its entries: a key is never matched across a NUL. */
  lemma {:induction false} NoCrossing(e: string, tail: string, key: string)
    requires NoNul(key) && (tail == "" || tail[0] == NUL)
    ensures key <= e + tail <==> key <= e
  {
    if tail != "" { assert (e + tail)[|e|] == NUL; }
  }

  lemma {:induction false} DigitRunBefore(rest: string, tail: string)
    requires tail == "" || !IsDigit(tail[0])
    ensures DigitRun(rest + tail) == DigitRun(rest)
  {
    var d := DigitRun(rest);
    assert rest == d + rest[|d|..];
    assert rest + tail == d + (rest[|d|..] + tail);
    DigitRunIs(d, rest[|d|..] + tail);
  }

  lemma {:induction false} TagInEntry(e: string, tail: string, key: string, pid: nat)
    requires NoNul(key) && NoNul(e) && (tail == "" || tail[0] == NUL)
    ensures TagValue(e + tail, key, pid) == TagValue(e, key, pid)
  {
    hide DigitRun, Value;
    NoCrossing(e, tail, key);
    if key <= e {
      var rest := e[|key|..];
      assert (e + tail)[|key|..] == rest + tail;
      DigitRunBefore(rest, tail);
    }
  }

  /* ---- the reader in the ffi package ---- */

  /** strings.Cut at the first colon. */
  function CutAt(s: string): (i: nat)
    ensures i <= |s| && (i < |s| ==> s[i] == ':')
    ensures forall j :: 0 <= j < i ==> s[j] != ':'
  {
    if s == "" || s[0] == ':' then 0 else 1 + CutAt(s[1..])
  }

  const INT_MAX: int := 0x7fff_ffff_ffff_ffff

  /** strconv.Atoi: an optional sign, digits, and a value that fits a 64-bit int. */
  function Atoi(s: string): Option<int> {
    var neg := s != "" && s[0] == '-';
    var d := if s != "" && (s[0] == '-' || s[0] == '+') then s[1..] else s;
    if d == "" || DigitRun(d) != d then None
    else
      var v: int := if neg then -(Value(d) as int) else Value(d);
      if -INT_MAX - 1 <= v <= INT_MAX then Some(v) else None
  }

  /** recordedFor, given the variable's value ("" when unset). */
  function RecordedFor(raw: string, want: int): Option<string> {
    var i := CutAt(raw);
    if i == |raw| || raw[i + 1..] == "" then None
    else
      match Atoi(raw[..i])
      case None => None
      case Some(pid) => if pid == want then Some(raw[i + 1..]) else None
  }

  lemma {:induction false} CutFirst(s: string, k: nat)
    requires k < |s| && s[k] == ':' && forall j :: 0 <= j < k ==> s[j] != ':'
    ensures CutAt(s) == k
  {
    if k != 0 { CutFirst(s[1..], k - 1); }
  }

  lemma {:induction false} CutIs(d: string, rest: string)
    requires AllDigits(d)
    ensures CutAt(d + ":" + rest) == |d|
  {
    var s := d + ":" + rest;
    forall j | 0 <= j < |d| ensures s[j] != ':' { assert IsDigit(d[j]); }
    CutFirst(s, |d|);
  }

  lemma {:induction false} AtoiOfDecimal(n: nat)
    ensures Atoi(Decimal(n)) == (if n <= INT_MAX then Some(n) else None)
  {
    var d := Decimal(n);
    assert IsDigit(d[0]);
    assert d + "" == d;
    DigitRunIs(d, "");
    DecimalValue(n);
  }

  /** The ffi package reads back what the bridge wrote, colons in the value included, exactly when the
      value is not empty, the pid fits a Go int, and it is the pid asked for. */
  lemma {:induction false} ReadBack(pid: nat, val: string, want: int)
    ensures RecordedFor(Decimal(pid) + ":" + val, want) ==
            (if val != "" && pid <= INT_MAX && want == pid then Some(val) else None)
  {
    var d := Decimal(pid);
    var raw := d + ":" + val;
    CutIs(d, val);
    assert raw[..|d|] == d && raw[|d| + 1..] == val;
    AtoiOfDecimal(pid);
    hide Atoi, Decimal, CutAt;
  }

  /** Both parsers agree on every record of a pid that fits a Go int and a value that is not empty. */
  lemma {:induction false} ParsersAgree(key: string, pid: nat, val: string, q: nat)
    requires pid <= INT_MAX && q <= INT_MAX && val != ""
    ensures var s := Tagged(key, pid, val);
            key <= s && (TagValue(s, key, q) != None <==> RecordedFor(s[|key|..], q) == Some(val))
  {
    hide TagValue, RecordedFor, Decimal;
    var s := Tagged(key, pid, val);
    assert s + "" == s;
    FoundByItsPid(key, pid, val, "", q);
    assert s[|key|..] == Decimal(pid) + ":" + val;
    ReadBack(pid, val, q);
  }
}
