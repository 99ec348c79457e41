/** The bridge's bump allocator for C strings. */
module Staging {
  import opened BridgeText

  const STR_BUF_CAP: nat := 8192

  /** A byte pointer: nil, into the staging buffer, or to memory outside it. */
  datatype Ptr = Null | Staged(at: nat) | Outside(mem: string)

  /** The strings one after the other, each with its NUL. */
  function Flat(texts: seq<string>): string {
    if texts == [] then "" else Flat(texts[..|texts| - 1]) + texts[|texts| - 1] + [NUL]
  }

  lemma {:induction false} FlatStep(texts: seq<string>, t: string)
    ensures Flat(texts + [t]) == Flat(texts) + t + [NUL]
  {
    assert (texts + [t])[..|texts|] == texts;
  }

  /** Earlier strings stay where they are. */
  lemma {:induction false} FlatGrows(texts: seq<string>, more: seq<string>)
    ensures Flat(texts) <= Flat(texts + more)
  {
    if more == [] {
      assert texts + more == texts;
    } else {
      var n := |more| - 1;
      FlatGrows(texts, more[..n]);
      assert texts + more == (texts + more[..n]) + [more[n]];
      FlatStep(texts + more[..n], more[n]);
    }
  }

  class Buffer {
    const buf: array<char>
    var off: nat
    /** What has been allocated, in order. */
    ghost var texts: seq<string>

    ghost predicate Valid()
      reads this, buf
    {
      buf.Length == STR_BUF_CAP && off <= STR_BUF_CAP && buf[..off] == Flat(texts)
    }

    /** The pointer can be read up to a NUL. */
    ghost predicate Terminated(p: Ptr)
      reads this, buf
    {
      match p
      case Null => true
      case Staged(at) => at <= off <= buf.Length && |CText(buf[at..off])| < off - at
      case Outside(mem) => |CText(mem)| < |mem|
    }

    ghost function TextAt(p: Ptr): string
      requires p != Null && Terminated(p)
      reads this, buf
    {
      if p.Staged? then CText(buf[p.at..off]) else CText(p.mem)
    }

    constructor ()
      ensures Valid() && texts == [] && off == 0 && fresh(buf)
    {
      buf := new char[STR_BUF_CAP](_ => NUL);
      off, texts := 0, [];
    }

    method Write(at: nat, s: string)
      requires at + |s| <= buf.Length
      modifies buf
      ensures buf[..at] == old(buf[..at]) && buf[at..at + |s|] == s
    {
      var i := 0;
      while i < |s|
        invariant 0 <= i <= |s|
        invariant buf[..at] == old(buf[..at]) && buf[at..at + i] == s[..i]
      {
        buf[at + i] := s[i];
        i := i + 1;
      }
    }

    /** Puts a string and its NUL at the offset; there is room. */
    method Put(s: string) returns (p: Ptr)
      requires Valid() && off + |s| + 1 <= STR_BUF_CAP
      modifies this, buf
      ensures Valid() && p == Staged(old(off)) && texts == old(texts) + [s]
    {
      FlatStep(texts, s);
      var start := off;
      Write(start, s + [NUL]);
      off := start + |s| + 1;
      texts := texts + [s];
      assert buf[..off] == buf[..start] + buf[start..off];
      p := Staged(start);
    }

    /** cstr: nil exactly when the string and its NUL do not fit, and then nothing has changed. */
    method Cstr(s: string) returns (p: Ptr)
      requires Valid()
      modifies this, buf
      ensures Valid()
      ensures p == Null <==> old(off) + |s| + 1 > STR_BUF_CAP
      ensures p == Null ==> off == old(off) && texts == old(texts) && buf[..] == old(buf[..])
      ensures p != Null ==> p == Staged(old(off)) && texts == old(texts) + [s]
    {
      if off + |s| + 1 > STR_BUF_CAP {
        return Null;
      }
      p := Put(s);
    }

    method Peek(p: Ptr, i: nat) returns (c: char)
      requires Valid() && p != Null && Terminated(p) && i <= |TextAt(p)|
      ensures c == if i < |TextAt(p)| then TextAt(p)[i] else NUL
    {
      hide CText, Flat;
      c := if p.Staged? then buf[p.at + i] else p.mem[i];
      if p.Staged? { assert buf[p.at..off][i] == c; }
    }

    /** The C string at p, its length found by scanning for the NUL. */
    method ReadC(p: Ptr) returns (s: string)
      requires Valid() && p != Null && Terminated(p)
      ensures s == TextAt(p)
    {
      ghost var t := TextAt(p);
      assert NoNul(t);
      hide CText, Flat;
      var valLen := 0;
      var c := Peek(p, 0);
      while c != NUL
        invariant 0 <= valLen <= |t| && (c == if valLen < |t| then t[valLen] else NUL)
        decreases |t| - valLen
      {
        valLen := valLen + 1;
        c := Peek(p, valLen);
      }
      s := if p.Staged? then buf[p.at..p.at + valLen] else p.mem[..valLen];
      if p.Staged? { assert buf[p.at..p.at + valLen] == buf[p.at..off][..valLen]; }
    }

    /** taggedEnv: "<key><pid>:<val>", or nil when val is nil or the string does not fit. The value is
        read before anything is written, so it may itself be in the buffer. */
    method TaggedEnv(key: string, pid: nat, val: Ptr) returns (p: Ptr)
      requires Valid() && pid < WORD && Terminated(val)
      modifies this, buf
      ensures Valid()
      ensures p == Null <==> val == Null
                             || old(off) + |key + Decimal(pid) + ":" + old(TextAt(val))| + 1 > STR_BUF_CAP
      ensures p == Null ==> off == old(off) && texts == old(texts) && buf[..] == old(buf[..])
      ensures p != Null ==>
                p == Staged(old(off)) && texts == old(texts) + [key + Decimal(pid) + ":" + old(TextAt(val))]
    {
      if val == Null {
        return Null;
      }
      var digs, di := PrintDecimal(pid);
      var v := ReadC(val);
      var s := key + digs[di..] + ":" + v;
      if off + |s| + 1 > STR_BUF_CAP {
        return Null;
      }
      p := Put(s);
    }

    /** procFdPath: "/proc/self/fd/<fd>". */
    method ProcFdPath(fd: nat) returns (p: Ptr)
      requires Valid() && fd < WORD
      modifies this, buf
      ensures Valid()
      ensures p == Null <==> old(off) + |"/proc/self/fd/" + Decimal(fd)| + 1 > STR_BUF_CAP
      ensures p == Null ==> off == old(off) && texts == old(texts) && buf[..] == old(buf[..])
      ensures p != Null ==> p == Staged(old(off)) && texts == old(texts) + ["/proc/self/fd/" + Decimal(fd)]
    {
      var digs, di := PrintDecimal(fd);
      p := Cstr("/proc/self/fd/" + digs[di..]);
    }

    /** Whatever was allocated is found where it was put, NUL-terminated, however much was allocated
        after it. */
    lemma {:induction false} StagedText(i: nat)
      requires Valid() && i < |texts| && NoNul(texts[i])
      ensures Terminated(Staged(|Flat(texts[..i])|)) && TextAt(Staged(|Flat(texts[..i])|)) == texts[i]
    {
      hide CText, Flat;
      var before := Flat(texts[..i]);
      FlatStep(texts[..i], texts[i]);
      assert texts[..i] + [texts[i]] == texts[..i + 1];
      FlatGrows(texts[..i + 1], texts[i + 1..]);
      assert texts[..i + 1] + texts[i + 1..] == texts;
      var all := Flat(texts);
      assert all[|before|..|before| + |texts[i]| + 1] == texts[i] + [NUL];
      var rest := all[|before| + |texts[i]|..];
      assert all[|before|..] == texts[i] + rest;
      CTextIs(texts[i], rest);
      assert buf[|before|..off] == buf[..off][|before|..];
    }
  }

  /** The regions of two strings, NULs included, do not meet. */
  lemma {:induction false} RegionsAreDisjoint(texts: seq<string>, i: nat, j: nat)
    requires i < j < |texts|
    ensures |Flat(texts[..i])| + |texts[i]| + 1 <= |Flat(texts[..j])|
  {
    FlatStep(texts[..i], texts[i]);
    assert texts[..i] + [texts[i]] == texts[..i + 1];
    FlatGrows(texts[..i + 1], texts[i + 1..j]);
    assert texts[..i + 1] + texts[i + 1..j] == texts[..j];
  }
}
