/** The bridge's file loops, for every pattern of short reads and writes the kernel may answer with. */
module ElfCopy {
  import opened Words
  import opened Elf

  const COPY_CHUNK: nat := 0x1_0000

  /** An open file and its position. */
  class InFile {
    const content: seq<Byte>
    var pos: nat

    ghost predicate Valid()
      reads this
    {
      pos <= |content|
    }

    constructor (content: seq<Byte>)
      ensures this.content == content && pos == 0 && Valid()
    {
      this.content, pos := content, 0;
    }

    /** read(2): an error, zero at the end of the file, or any positive number of bytes up to max. */
    method Read(buf: array<Byte>, off: nat, max: nat) returns (err: bool, n: nat)
      requires Valid() && off + max <= buf.Length
      modifies this, buf
      ensures Valid() && pos == old(pos) + n && n <= max
      ensures err ==> n == 0
      ensures !err && n == 0 ==> max == 0 || old(pos) == |content|
      ensures buf[..off] == old(buf[..off]) && buf[off..off + n] == content[old(pos)..pos]
    {
      err, n := *, 0;
      if err || pos == |content| || max == 0 {
        return;
      }
      var k: nat :| 1 <= k <= max && k <= |content| - pos;
      n := k;
      forall i | 0 <= i < n {
        buf[off + i] := content[pos + i];
      }
      pos := pos + n;
    }
  }

  class OutFile {
    var data: seq<Byte>

    constructor ()
      ensures data == []
    {
      data := [];
    }

    /** write(2): an error, or any number of bytes up to len. */
    method Write(buf: array<Byte>, off: nat, len: nat) returns (err: bool, w: nat)
      requires off + len <= buf.Length
      modifies this
      ensures w <= len && (err ==> w == 0)
      ensures data == old(data) + buf[off..off + w]
    {
      err, w := *, 0;
      if !err {
        var k: nat :| k <= len;
        w := k;
      }
      data := data + buf[off..off + w];
    }
  }

  /** readAll: -1 on an error, else the first capBytes bytes of the file, or all of it. */
  method ReadAll(f: InFile, base: array<Byte>, capBytes: nat) returns (total: int)
    requires f.Valid() && f.pos == 0 && capBytes <= base.Length
    modifies f, base
    ensures total == -1 || (0 <= total <= capBytes && total <= |f.content|)
    ensures total >= 0 ==> base[..total] == f.content[..total] && (total < capBytes ==> total == |f.content|)
  {
    total := 0;
    while total < capBytes
      invariant 0 <= total <= capBytes && f.Valid() && f.pos == total
      invariant base[..total] == f.content[..total]
      decreases capBytes - total
    {
      var err, n := f.Read(base, total, capBytes - total);
      if err {
        return -1;
      }
      if n == 0 {
        break;
      }
      assert base[..total + n] == base[..total] + base[total..total + n];
      total := total + n;
    }
  }

  /** The inner write loop: on success exactly the n bytes of the chunk are appended. */
  method WriteChunk(memfd: OutFile, buf: array<Byte>, n: nat) returns (ok: bool)
    requires n <= buf.Length
    modifies memfd
    ensures ok ==> memfd.data == old(memfd.data) + buf[..n]
  {
    var off := 0;
    while off < n
      invariant 0 <= off <= n && memfd.data == old(memfd.data) + buf[..off]
    {
      var err, w := memfd.Write(buf, off, n - off);
      if err || w == 0 {
        return false;
      }
      assert buf[..off] + buf[off..off + w] == buf[..off + w];
      off := off + w;
    }
    return true;
  }

  /** The program headers end below 2^64. */
  predicate NoWrapAround(content: seq<Byte>) {
    |content| >= 64 ==> EntryAt(TableOf(content), TableOf(content).num) < TWO64
  }

  lemma {:induction false} SameTable(content: seq<Byte>, n: nat)
    requires 64 <= n <= |content|
    ensures TableOf(content[..n]) == TableOf(content)
  {
  }

  /** The copy: the first chunk patched, everything else as it is. */
  predicate IsCopy(data: seq<Byte>, content: seq<Byte>, n: nat) {
    n <= |content| &&
    if n == 0 then content == [] && data == []
    else Patch(content[..n]).Patched? && data == Patch(content[..n]).img + content[n..]
  }

  /** copyExeToMemfd: on success the memfd holds the copy; n is the size of the first read. */
  method CopyExeToMemfd(exe: InFile, memfd: OutFile, buf: array<Byte>) returns (ok: bool, ghost first: nat)
    requires exe.Valid() && exe.pos == 0 && memfd.data == [] && buf.Length == COPY_CHUNK
    requires NoWrapAround(exe.content)
    modifies exe, memfd, buf
    ensures ok ==> IsCopy(memfd.data, exe.content, first)
  {
    hide Patch, TableOf, EntryAt;
    first := 0;
    var err, n := exe.Read(buf, 0, COPY_CHUNK);
    if err {
      return false, 0;
    }
    if n == 0 {
      return true, 0;
    }
    first := n;
    ok := PatchFirst(exe.content, buf, n);
    if ok {
      ok := WriteChunk(memfd, buf, n);
    }
    if ok {
      ok := CopyRest(exe, memfd, buf, Patch(exe.content[..n]).img, n);
    }
  }

  method PatchFirst(content: seq<Byte>, buf: array<Byte>, n: nat) returns (ok: bool)
    requires n <= |content| && n <= buf.Length && buf[..n] == content[..n] && NoWrapAround(content)
    modifies buf
    ensures ok <==> Patch(content[..n]).Patched?
    ensures ok ==> buf[..n] == Patch(content[..n]).img
  {
    if n >= 64 { SameTable(content, n); }
    hide Patch, TableOf, EntryAt;
    ok := PatchInterpInBuf(buf, n);
  }

  /** The chunks after the first. */
  method CopyRest(exe: InFile, memfd: OutFile, buf: array<Byte>, ghost head: seq<Byte>,
      ghost from: nat) returns (ok: bool)
    requires exe.Valid() && exe.pos == from && memfd.data == head && buf.Length == COPY_CHUNK
    modifies exe, memfd, buf
    ensures ok ==> memfd.data == head + exe.content[from..]
  {
    assert head + exe.content[from..from] == head;
    while true
      invariant exe.Valid() && from <= exe.pos && memfd.data == head + exe.content[from..exe.pos]
      decreases |exe.content| - exe.pos
    {
      ghost var before := exe.pos;
      var err, n := exe.Read(buf, 0, COPY_CHUNK);
      if err {
        return false;
      }
      if n == 0 {
        assert exe.content[from..exe.pos] == exe.content[from..];
        return true;
      }
      var written := WriteChunk(memfd, buf, n);
      if !written {
        return false;
      }
      assert exe.content[from..exe.pos] == exe.content[from..before] + exe.content[before..exe.pos];
    }
  }

  /* ---- what a successful copy is ---- */

  lemma {:induction false} PrefixEntry(content: seq<Byte>, n: nat, j: nat)
    requires n <= |content| && TableFits(content[..n]) && j < TableOf(content[..n]).num
    ensures TableFits(content) && TableOf(content) == TableOf(content[..n])
    ensures TypeOf(content[..n], j) == TypeOf(content, j)
    ensures LooksStripped(content[..n], j) ==> LooksStripped(content, j)
  {
    SameTable(content, n);
    EntryFits(content[..n], j);
    hide TableOf;
    SamePrefix(content, n, EntryAt(TableOf(content), j));
  }

  lemma {:induction false} SamePrefix(content: seq<Byte>, n: nat, at: nat)
    requires at + 16 <= n <= |content|
    ensures U32(content[..n], at) == U32(content, at) && U64(content[..n], at + 8) == U64(content, at + 8)
  {
  }

  lemma {:induction false} PrefixSetType(content: seq<Byte>, n: nat, k: nat)
    requires n <= |content| && TableFits(content[..n]) && k < TableOf(content[..n]).num
    ensures TableFits(content) && TableOf(content) == TableOf(content[..n])
    ensures SetType(content[..n], k, 3) + content[n..] == SetType(content, k, 3)
  {
    SameTable(content, n);
    EntryFits(content[..n], k);
    hide TableOf, EntryAt;
    var pe := EntryAt(TableOf(content), k);
    assert content == content[..n] + content[n..];
    assert content[..n][pe + 4..] + content[n..] == content[pe + 4..];
  }

  /** Whatever the kernel's answers, a successful copy of a stripped image is the image before stripping,
      provided no other PT_NULL entry points at a slash. */
  lemma {:induction false} CopyRestores(img: seq<Byte>, k: nat, data: seq<Byte>, n: nat)
    requires HasOneInterp(img, k) && forall j :: 0 <= j < TableOf(img).num && j != k ==> !LooksStripped(img, j)
    requires IsCopy(data, Strip(img), n)
    ensures data == img
  {
    var content := Strip(img);
    StripIsSetType(img, k);
    StrippedLooks(img, k);
    assert TypeOf(img, k) == PT_INTERP;
    SetTypeTwice(img, k, 3);
    hide SetType, TypeOf, LooksStripped, Strip;
    assert |content| == |img| >= 64;
    OnlyEntry(content, n, k);
    PrefixSetType(content, n, k);
  }

  /** In any first chunk that can be patched, the interpreter's entry is the one patched. */
  lemma {:induction false} OnlyEntry(content: seq<Byte>, n: nat, k: nat)
    requires 0 < n <= |content| && Patch(content[..n]).Patched? && TableFits(content) && k < TableOf(content).num
    requires forall j :: 0 <= j < TableOf(content).num ==> TypeOf(content, j) != PT_INTERP
    requires forall j :: 0 <= j < TableOf(content).num && j != k ==> !LooksStripped(content, j)
    ensures TableFits(content[..n]) && k < TableOf(content[..n]).num
    ensures Patch(content[..n]) == Patched(SetType(content[..n], k, 3))
  {
    var p := content[..n];
    SameTable(content, n);
    forall j | 0 <= j < TableOf(p).num
      ensures TypeOf(p, j) == TypeOf(content, j) && (LooksStripped(p, j) ==> LooksStripped(content, j))
    {
      PrefixEntry(content, n, j);
    }
    hide TypeOf, LooksStripped, SetType, U64, U32, U16;
    var f := FindStripped(p, 0);
    assert FindType(p, PT_INTERP, 0) == TableOf(p).num;
  }

  /** A copy of an image that still has its PT_INTERP entry is that image. */
  lemma {:induction false} CopyOfIntact(img: seq<Byte>, k: nat, data: seq<Byte>, n: nat)
    requires HasOneInterp(img, k) && IsCopy(data, img, n)
    ensures data == img
  {
    if n != 0 {
      var p := img[..n];
      SameTable(img, n);
      PrefixEntry(img, n, k);
      assert TypeOf(img, k) == PT_INTERP;
      IntactStaysIntact(p, k);
      assert img == p + img[n..];
    }
  }
}
