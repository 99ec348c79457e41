/** The program header edit: goffi-strip-interp clears the type of the PT_INTERP entry, and the bridge
    restores it in the first chunk of the copy it hands to glibc. ELF64, little-endian. */
module Elf {
  import opened Bits
  import opened Words
  import opened WordBits

  const PT_NULL: nat := 0
  const PT_INTERP: nat := 3
  const SLASH: Byte := 47
  const TWO64: nat := 0x1_0000_0000_0000_0000

  function U16(img: seq<Byte>, at: nat): nat
    requires at + 2 <= |img|
  {
    var lo: nat, hi: nat := img[at], img[at + 1];
    lo + 256 * hi
  }

  function U32(img: seq<Byte>, at: nat): nat
    requires at + 4 <= |img|
  {
    U16(img, at) + 0x1_0000 * U16(img, at + 2)
  }

  function U64(img: seq<Byte>, at: nat): nat
    requires at + 8 <= |img|
  {
    U32(img, at) + 0x1_0000_0000 * U32(img, at + 4)
  }

  /** The program header table: offset, entry size, number of entries. */
  datatype Table = Table(off: nat, size: nat, num: nat)

  function TableOf(img: seq<Byte>): Table
    requires |img| >= 64
  {
    Table(U64(img, 0x20), U16(img, 0x36), U16(img, 0x38))
  }

  /** Where entry i starts. */
  function EntryAt(t: Table, i: nat): nat {
    t.off + t.size * i
  }

  /** The table lies in the image and its end does not wrap around. */
  predicate TableFits(img: seq<Byte>) {
    |img| >= 64 && TableOf(img).size >= 56 && EntryAt(TableOf(img), TableOf(img).num) <= |img|
  }

  lemma {:induction false} EntryFits(img: seq<Byte>, i: nat)
    requires TableFits(img) && i < TableOf(img).num
    ensures EntryAt(TableOf(img), i) + 56 <= |img|
  {
    hide U64, U16;
    MulGap(TableOf(img).size, i, TableOf(img).num);
  }

  function TypeOf(img: seq<Byte>, i: nat): nat
    requires TableFits(img) && i < TableOf(img).num
  {
    EntryFits(img, i);
    U32(img, EntryAt(TableOf(img), i))
  }

  function OffsetOf(img: seq<Byte>, i: nat): nat
    requires TableFits(img) && i < TableOf(img).num
  {
    EntryFits(img, i);
    U64(img, EntryAt(TableOf(img), i) + 8)
  }

  /** A PT_NULL entry that points at a path. */
  predicate LooksStripped(img: seq<Byte>, i: nat)
    requires TableFits(img) && i < TableOf(img).num
  {
    TypeOf(img, i) == PT_NULL && OffsetOf(img, i) < |img| && img[OffsetOf(img, i)] == SLASH
  }

  /** The first entry from i on of the given type, or the number of entries. */
  function FindType(img: seq<Byte>, ty: nat, i: nat): (k: nat)
    requires TableFits(img) && i <= TableOf(img).num
    ensures i <= k <= TableOf(img).num
    ensures k < TableOf(img).num ==> TypeOf(img, k) == ty
    ensures forall j :: i <= j < k ==> TypeOf(img, j) != ty
    decreases TableOf(img).num - i
  {
    if i == TableOf(img).num || TypeOf(img, i) == ty then i else FindType(img, ty, i + 1)
  }

  function FindStripped(img: seq<Byte>, i: nat): (k: nat)
    requires TableFits(img) && i <= TableOf(img).num
    ensures i <= k <= TableOf(img).num
    ensures k < TableOf(img).num ==> LooksStripped(img, k)
    ensures forall j :: i <= j < k ==> !LooksStripped(img, j)
    decreases TableOf(img).num - i
  {
    if i == TableOf(img).num || LooksStripped(img, i) then i else FindStripped(img, i + 1)
  }

  /** The image with a new type in entry i. */
  function SetType(img: seq<Byte>, i: nat, ty: Byte): (r: seq<Byte>)
    requires TableFits(img) && i < TableOf(img).num
    ensures |r| == |img|
  {
    EntryFits(img, i);
    var pe := EntryAt(TableOf(img), i);
    img[..pe] + [ty, 0, 0, 0] + img[pe + 4..]
  }

  datatype Patched = Failed | Patched(img: seq<Byte>)

  /** What patching the first chunk of a file does. */
  function Patch(img: seq<Byte>): Patched {
    if !TableFits(img) then Failed
    else if FindType(img, PT_INTERP, 0) < TableOf(img).num then Patched(img)
    else
      var k := FindStripped(img, 0);
      if k < TableOf(img).num then Patched(SetType(img, k, 3)) else Failed
  }

  /** What stripping does: the first PT_INTERP entry, if any, becomes PT_NULL. */
  function Strip(img: seq<Byte>): seq<Byte>
    requires TableFits(img)
  {
    var k := FindType(img, PT_INTERP, 0);
    if k < TableOf(img).num then SetType(img, k, 0) else img
  }

  /* ---- the methods ---- */

  method StoreType(buf: array<Byte>, pe: nat, ty: Byte)
    requires pe + 4 <= buf.Length
    modifies buf
    ensures buf[..] == old(buf[..pe]) + [ty, 0, 0, 0] + old(buf[pe + 4..])
  {
    buf[pe] := ty;
    buf[pe + 1] := 0;
    buf[pe + 2] := 0;
    buf[pe + 3] := 0;
  }

  /** patchInterpInBuf on the n bytes read into buf. The table's end is compared after wrapping to the
      machine word; files whose table ends below 2^64 are the ones it is exact for. */
  method PatchInterpInBuf(buf: array<Byte>, n: nat) returns (ok: bool)
    requires n <= buf.Length
    requires n >= 64 ==> EntryAt(TableOf(buf[..n]), TableOf(buf[..n]).num) < TWO64
    modifies buf
    ensures buf[n..] == old(buf[n..])
    ensures match Patch(old(buf[..n]))
            case Failed => !ok && buf[..n] == old(buf[..n])
            case Patched(img) => ok && buf[..n] == img
  {
    hide U64, U16, FindType, FindStripped, TypeOf, SetType, LooksStripped;
    if n < 64 {
      return false;
    }
    var img := buf[..n];
    var phoff, phentsize, phnum := U64(img, 0x20), U16(img, 0x36), U16(img, 0x38);
    NoWrap(phoff + phentsize * phnum);
    if phentsize < 56 || (phoff + phentsize * phnum) % TWO64 > n {
      return false;
    }
    ok := RestoreType(buf, n, phoff, phentsize, phnum);
  }

  /** The two scans over a table that is in the buffer. */
  method RestoreType(buf: array<Byte>, n: nat, phoff: nat, phentsize: nat, phnum: nat) returns (ok: bool)
    requires n <= buf.Length && TableFits(buf[..n]) && TableOf(buf[..n]) == Table(phoff, phentsize, phnum)
    modifies buf
    ensures buf[n..] == old(buf[n..])
    ensures match Patch(old(buf[..n]))
            case Failed => !ok && buf[..n] == old(buf[..n])
            case Patched(img) => ok && buf[..n] == img
  {
    hide U64, U32, U16, FindType, FindStripped, TypeOf, LooksStripped;
    var img := buf[..n];
    var i := ScanForInterp(img, phoff, phentsize, phnum);
    if i < phnum {
      return true;
    }
    i := ScanForStripped(img, phoff, phentsize, phnum);
    if i < phnum {
      EntryFits(img, i);
      StoreType(buf, phoff + phentsize * i, 3);
      return true;
    }
    return false;
  }

  lemma {:induction false} NoWrap(x: nat)
    requires x < TWO64
    ensures x % TWO64 == x
  {
  }

  method ScanForInterp(img: seq<Byte>, phoff: nat, phentsize: nat, phnum: nat) returns (i: nat)
    requires TableFits(img) && TableOf(img) == Table(phoff, phentsize, phnum)
    ensures i == FindType(img, PT_INTERP, 0)
  {
    hide TableFits, U32, U64, U16;
    i := 0;
    while i < phnum
      invariant 0 <= i <= phnum && FindType(img, PT_INTERP, i) == FindType(img, PT_INTERP, 0)
    {
      EntryFits(img, i);
      if U32(img, phoff + phentsize * i) == PT_INTERP {
        return;
      }
      i := i + 1;
    }
  }

  method ScanForStripped(img: seq<Byte>, phoff: nat, phentsize: nat, phnum: nat) returns (i: nat)
    requires TableFits(img) && TableOf(img) == Table(phoff, phentsize, phnum)
    ensures i == FindStripped(img, 0)
  {
    hide TableFits, U32, U64, U16;
    i := 0;
    while i < phnum
      invariant 0 <= i <= phnum && FindStripped(img, i) == FindStripped(img, 0)
    {
      EntryFits(img, i);
      var pe := phoff + phentsize * i;
      if U32(img, pe) == PT_NULL {
        var poff := U64(img, pe + 8);
        if poff < |img| && img[poff] == SLASH {
          return;
        }
      }
      i := i + 1;
    }
  }

  /** stripInterp on a file whose header has been parsed: four bytes are overwritten in place. */
  method StripInterp(file: array<Byte>)
    requires TableFits(file[..])
    modifies file
    ensures file[..] == Strip(old(file[..]))
  {
    ghost var img := file[..];
    var t := TableOf(file[..]);
    hide TableFits, FindType, TypeOf, U64, U32, U16;
    var interpIdx := ScanForInterp(file[..], t.off, t.size, t.num);
    if interpIdx >= t.num {
      return;
    }
    EntryFits(img, interpIdx);
    StoreType(file, t.off + t.size * interpIdx, 0);
  }

  /* ---- the format ---- */

  /** The fields of an ELF64 header, in order. */
  datatype Header = Header(ident: seq<Byte>, typ: seq<Byte>, machine: seq<Byte>, version: seq<Byte>, entry: seq<Byte>,
                           phoff: seq<Byte>, shoff: seq<Byte>, flags: seq<Byte>, ehsize: seq<Byte>,
                           phentsize: seq<Byte>, phnum: seq<Byte>, shentsize: seq<Byte>, shnum: seq<Byte>,
                           shstrndx: seq<Byte>)

  /** Their widths in bytes. */
  predicate IsHeader(h: Header) {
    && |h.ident| == 16 && |h.typ| == 2 && |h.machine| == 2 && |h.version| == 4 && |h.entry| == 8
    && |h.phoff| == 8 && |h.shoff| == 8 && |h.flags| == 4 && |h.ehsize| == 2
    && |h.phentsize| == 2 && |h.phnum| == 2 && |h.shentsize| == 2 && |h.shnum| == 2 && |h.shstrndx| == 2
  }

  function HeaderBytes(h: Header): seq<Byte> {
    h.ident + h.typ + h.machine + h.version + h.entry + h.phoff + h.shoff + h.flags + h.ehsize
    + h.phentsize + h.phnum + h.shentsize + h.shnum + h.shstrndx
  }

  /** The fields of an ELF64 program header entry, in order. */
  datatype Entry = Entry(typ: seq<Byte>, flags: seq<Byte>, offset: seq<Byte>, vaddr: seq<Byte>, paddr: seq<Byte>,
                         filesz: seq<Byte>, memsz: seq<Byte>, align: seq<Byte>)

  predicate IsEntry(e: Entry) {
    && |e.typ| == 4 && |e.flags| == 4 && |e.offset| == 8 && |e.vaddr| == 8 && |e.paddr| == 8
    && |e.filesz| == 8 && |e.memsz| == 8 && |e.align| == 8
  }

  function EntryBytes(e: Entry): seq<Byte> {
    e.typ + e.flags + e.offset + e.vaddr + e.paddr + e.filesz + e.memsz + e.align
  }

  /** A two-byte field at its place. */
  lemma {:induction false} ReadU16(img: seq<Byte>, at: nat, bs: seq<Byte>)
    requires |bs| == 2 && at + 2 <= |img| && img[at..at + 2] == bs
    ensures U16(img, at) == Number(bs)
  {
    assert img[at..at + 2][0] == img[at] && img[at..at + 2][1] == img[at + 1];
    assert bs[1..][1..] == [] && bs[1..][0] == bs[1];
    assert Number(bs[1..]) == bs[1];
  }

  lemma {:induction false} ReadU32(img: seq<Byte>, at: nat, bs: seq<Byte>)
    requires |bs| == 4 && at + 4 <= |img| && img[at..at + 4] == bs
    ensures U32(img, at) == Number(bs)
  {
    hide U16, Number;
    assert img[at..at + 2] == bs[..2] && img[at + 2..at + 4] == bs[2..] && bs == bs[..2] + bs[2..];
    ReadU16(img, at, bs[..2]);
    ReadU16(img, at + 2, bs[2..]);
    NumberAppend(bs[..2], bs[2..]);
    assert Pow256(2) == 0x1_0000;
  }

  lemma {:induction false} ReadU64(img: seq<Byte>, at: nat, bs: seq<Byte>)
    requires |bs| == 8 && at + 8 <= |img| && img[at..at + 8] == bs
    ensures U64(img, at) == Number(bs)
  {
    hide U32, U16, Number;
    assert img[at..at + 4] == bs[..4] && img[at + 4..at + 8] == bs[4..] && bs == bs[..4] + bs[4..];
    ReadU32(img, at, bs[..4]);
    ReadU32(img, at + 4, bs[4..]);
    NumberAppend(bs[..4], bs[4..]);
    assert Pow256(2) == 0x1_0000 && Pow256(4) == 0x1_0000_0000;
  }

  lemma {:induction false} HeaderSlices(h: Header, rest: seq<Byte>)
    requires IsHeader(h)
    ensures var img := HeaderBytes(h) + rest;
            && |img| == 64 + |rest|
            && img[0x20..0x28] == h.phoff && img[0x36..0x38] == h.phentsize && img[0x38..0x3A] == h.phnum
  {
  }

  lemma {:induction false} EntrySlices(e: Entry)
    requires IsEntry(e)
    ensures |EntryBytes(e)| == 56 && EntryBytes(e)[0..4] == e.typ && EntryBytes(e)[8..16] == e.offset
  {
  }

  lemma {:induction false} SliceOfSlice(s: seq<Byte>, at: nat, n: nat, i: nat, j: nat)
    requires i <= j <= n && at + n <= |s|
    ensures s[at..at + n][i..j] == s[at + i..at + j]
  {
    var a, b := s[at..at + n][i..j], s[at + i..at + j];
    assert |a| == |b| && forall k :: 0 <= k < |a| ==> a[k] == b[k];
  }

  /** The table is the one the file header describes. */
  lemma {:induction false} TableOfHeader(h: Header, rest: seq<Byte>)
    requires IsHeader(h)
    ensures |HeaderBytes(h) + rest| == 64 + |rest|
    ensures TableOf(HeaderBytes(h) + rest) == Table(Number(h.phoff), Number(h.phentsize), Number(h.phnum))
  {
    hide U16, U32, U64, Number, HeaderBytes;
    HeaderSlices(h, rest);
    var img := HeaderBytes(h) + rest;
    ReadU64(img, 0x20, h.phoff);
    ReadU16(img, 0x36, h.phentsize);
    ReadU16(img, 0x38, h.phnum);
  }

  /** An entry has the type and the file offset its fields say. */
  lemma {:induction false} EntryFields(img: seq<Byte>, i: nat, e: Entry)
    requires TableFits(img) && i < TableOf(img).num && IsEntry(e)
    requires EntryAt(TableOf(img), i) + 56 <= |img|
    requires img[EntryAt(TableOf(img), i)..EntryAt(TableOf(img), i) + 56] == EntryBytes(e)
    ensures TypeOf(img, i) == Number(e.typ) && OffsetOf(img, i) == Number(e.offset)
    ensures LooksStripped(img, i) <==>
            Number(e.typ) == 0 && Number(e.offset) < |img| && img[Number(e.offset)] == 47
  {
    hide U16, U32, U64, Number, TableOf, EntryAt, EntryBytes;
    var pe := EntryAt(TableOf(img), i);
    EntrySlices(e);
    SliceOfSlice(img, pe, 56, 0, 4);
    SliceOfSlice(img, pe, 56, 8, 16);
    ReadU32(img, pe, e.typ);
    ReadU64(img, pe + 8, e.offset);
  }

  /* ---- strip, then restore ---- */

  /** The table does not overlap the header fields that describe it. */
  predicate WellFormed(img: seq<Byte>) {
    TableFits(img) && TableOf(img).off >= 64
  }

  lemma {:induction false} SameU64(a: seq<Byte>, b: seq<Byte>, at: nat)
    requires |a| == |b| && at + 8 <= |a| && forall j :: at <= j < at + 8 ==> a[j] == b[j]
    ensures U64(a, at) == U64(b, at)
  {
  }

  lemma {:induction false} SameU32(a: seq<Byte>, b: seq<Byte>, at: nat)
    requires |a| == |b| && at + 4 <= |a| && forall j :: at <= j < at + 4 ==> a[j] == b[j]
    ensures U32(a, at) == U32(b, at)
  {
  }

  lemma {:induction false} SameU16(a: seq<Byte>, b: seq<Byte>, at: nat)
    requires |a| == |b| && at + 2 <= |a| && a[at] == b[at] && a[at + 1] == b[at + 1]
    ensures U16(a, at) == U16(b, at)
  {
  }

  lemma {:induction false} EntriesApart(t: Table, i: nat, j: nat)
    requires i < j && t.size >= 56
    ensures EntryAt(t, i) + 56 <= EntryAt(t, j)
  {
    MulGap(t.size, i, j);
  }

  /** Setting the type of entry k leaves the table, all other entries and all offsets alone. */
  lemma {:induction false} SetTypeFrame(img: seq<Byte>, k: nat, ty: Byte)
    requires WellFormed(img) && k < TableOf(img).num
    ensures var r := SetType(img, k, ty);
            && WellFormed(r) && TableOf(r) == TableOf(img)
            && TypeOf(r, k) == ty
            && (forall j :: 0 <= j < TableOf(img).num && j != k ==> TypeOf(r, j) == TypeOf(img, j))
            && (forall j :: 0 <= j < TableOf(img).num ==> OffsetOf(r, j) == OffsetOf(img, j))
  {
    var r, t := SetType(img, k, ty), TableOf(img);
    EntryFits(img, k);
    var pe := EntryAt(t, k);
    KeepsHeader(img, k, ty);
    assert U32(r, pe) == ty by { OwnType(img, k, ty); }
    hide U64, U32, U16, SetType;
    forall j | 0 <= j < t.num
      ensures j != k ==> TypeOf(r, j) == TypeOf(img, j)
      ensures OffsetOf(r, j) == OffsetOf(img, j)
    {
      KeepsEntry(img, k, ty, j);
    }
  }

  lemma {:induction false} SetTypeAt(img: seq<Byte>, k: nat, ty: Byte, j: nat)
    requires TableFits(img) && k < TableOf(img).num && j < |img|
    ensures var pe := EntryAt(TableOf(img), k);
            SetType(img, k, ty)[j] == if j == pe then ty else if pe < j < pe + 4 then 0 else img[j]
  {
    EntryFits(img, k);
    hide U64, U16, TableFits;
  }

  lemma {:induction false} KeepsHeader(img: seq<Byte>, k: nat, ty: Byte)
    requires WellFormed(img) && k < TableOf(img).num
    ensures WellFormed(SetType(img, k, ty)) && TableOf(SetType(img, k, ty)) == TableOf(img)
  {
    hide SetType, U64, U16, U32;
    var r := SetType(img, k, ty);
    forall j | 0 <= j < 64 ensures r[j] == img[j] { SetTypeAt(img, k, ty, j); }
    SameU64(r, img, 0x20);
    SameU16(r, img, 0x36);
    SameU16(r, img, 0x38);
  }

  lemma {:induction false} OwnType(img: seq<Byte>, k: nat, ty: Byte)
    requires TableFits(img) && k < TableOf(img).num && |SetType(img, k, ty)| == |img|
    ensures EntryAt(TableOf(img), k) + 4 <= |img| && U32(SetType(img, k, ty), EntryAt(TableOf(img), k)) == ty
  {
    EntryFits(img, k);
    var pe := EntryAt(TableOf(img), k);
    SetTypeAt(img, k, ty, pe);
    SetTypeAt(img, k, ty, pe + 1);
    SetTypeAt(img, k, ty, pe + 2);
    SetTypeAt(img, k, ty, pe + 3);
    hide SetType;
  }

  lemma {:induction false} KeepsEntry(img: seq<Byte>, k: nat, ty: Byte, j: nat)
    requires WellFormed(img) && k < TableOf(img).num && j < TableOf(img).num
    requires WellFormed(SetType(img, k, ty)) && TableOf(SetType(img, k, ty)) == TableOf(img)
    ensures j != k ==> TypeOf(SetType(img, k, ty), j) == TypeOf(img, j)
    ensures OffsetOf(SetType(img, k, ty), j) == OffsetOf(img, j)
  {
    hide U64, U32, U16, SetType;
    var r, t := SetType(img, k, ty), TableOf(img);
    EntryFits(img, j);
    if j < k { EntriesApart(t, j, k); } else if k < j { EntriesApart(t, k, j); }
    var pe := EntryAt(t, j);
    forall x | pe <= x < pe + 56 && (j != k || x >= pe + 4) ensures r[x] == img[x] { SetTypeAt(img, k, ty, x); }
    SameU64(r, img, pe + 8);
    if j != k { SameU32(r, img, pe); }
  }

  /** Clearing the type and setting it again gives back the image. */
  lemma {:induction false} SetTypeTwice(img: seq<Byte>, k: nat, ty: Byte)
    requires WellFormed(img) && k < TableOf(img).num && TypeOf(img, k) == ty
    ensures WellFormed(SetType(img, k, 0)) && TableOf(SetType(img, k, 0)) == TableOf(img)
    ensures SetType(SetType(img, k, 0), k, ty) == img
  {
    KeepsHeader(img, k, 0);
    EntryFits(img, k);
    var pe := EntryAt(TableOf(img), k);
    var b: nat, c: nat, d: nat, e: nat := img[pe], img[pe + 1], img[pe + 2], img[pe + 3];
    assert b + 256 * c + 0x1_0000 * (d + 256 * e) == ty;
    assert c == 0 && d == 0 && e == 0 && b == ty;
    var r := SetType(img, k, 0);
    forall x | 0 <= x < |img| ensures SetType(r, k, ty)[x] == img[x] {
      SetTypeAt(img, k, 0, x);
      SetTypeAt(r, k, ty, x);
    }
    hide SetType;
    assert SetType(r, k, ty) == img;
  }

  /** An image with one PT_INTERP entry, whose path starts with a slash. */
  predicate HasOneInterp(img: seq<Byte>, k: nat) {
    && WellFormed(img) && k < TableOf(img).num
    && (forall j :: 0 <= j < TableOf(img).num ==> (TypeOf(img, j) == PT_INTERP <==> j == k))
    && OffsetOf(img, k) < |img| && img[OffsetOf(img, k)] == SLASH
  }

  lemma {:induction false} StripIsSetType(img: seq<Byte>, k: nat)
    requires HasOneInterp(img, k)
    ensures Strip(img) == SetType(img, k, 0)
  {
    hide OffsetOf, SetType, U64, U32, U16;
    assert TypeOf(img, k) == PT_INTERP;
    hide TypeOf;
  }

  lemma {:induction false} WellFormedFits(img: seq<Byte>)
    requires WellFormed(img)
    ensures TableFits(img)
  {
  }

  /** The slash a path starts with is not part of the type field that stripping clears. */
  lemma {:induction false} SlashSurvives(img: seq<Byte>, k: nat, x: nat)
    requires HasOneInterp(img, k) && x < |img|
    ensures SetType(img, k, 0)[x] == SLASH <==> img[x] == SLASH
  {
    SetTypeAt(img, k, 0, x);
    EntryFits(img, k);
    var pe := EntryAt(TableOf(img), k);
    var b: nat, c: nat, d: nat, e: nat := img[pe], img[pe + 1], img[pe + 2], img[pe + 3];
    assert TypeOf(img, k) == PT_INTERP;
    assert b + 256 * c + 0x1_0000 * (d + 256 * e) == 3;
    hide SetType, U64;
  }

  /** Stripping, seen by the patcher: the interpreter's entry looks stripped, and the others look as they
      did before. */
  lemma {:induction false} StrippedLooks(img: seq<Byte>, k: nat)
    requires HasOneInterp(img, k)
    ensures var r := SetType(img, k, 0);
            && TableFits(r) && TableOf(r) == TableOf(img) && LooksStripped(r, k)
            && (forall j :: 0 <= j < TableOf(img).num ==> TypeOf(r, j) != PT_INTERP)
            && (forall j :: 0 <= j < TableOf(img).num && j != k ==> (LooksStripped(r, j) <==> LooksStripped(img, j)))
  {
    SetTypeFrame(img, k, 0);
    WellFormedFits(SetType(img, k, 0));
    forall x | 0 <= x < |img| ensures SetType(img, k, 0)[x] == SLASH <==> img[x] == SLASH { SlashSurvives(img, k, x); }
    hide SetType, TypeOf, OffsetOf, TableFits;
  }

  /** Strip then restore is the identity exactly when no PT_NULL entry before the interpreter's points
      at a slash; otherwise that entry is patched instead. */
  lemma {:induction false} StripThenRestore(img: seq<Byte>, k: nat)
    requires HasOneInterp(img, k)
    ensures Patch(Strip(img)) == Patched(img) <==> forall j :: 0 <= j < k ==> !LooksStripped(img, j)
  {
    hide SetType, TypeOf, OffsetOf, TableFits, LooksStripped, Patch, WellFormed;
    StripIsSetType(img, k);
    var f := PatchesFirst(img, k);
    SetTypeTwice(img, k, 3);
    if f < k { RestoresAnother(img, k, f); }
  }

  lemma {:induction false} PatchesFirst(img: seq<Byte>, k: nat) returns (f: nat)
    requires HasOneInterp(img, k)
    ensures TypeOf(img, k) == PT_INTERP && f <= k && (f == k <==> forall j :: 0 <= j < k ==> !LooksStripped(img, j))
    ensures var r := SetType(img, k, 0); TableFits(r) && f < TableOf(r).num && Patch(r) == Patched(SetType(r, f, 3))
  {
    hide SetType, OffsetOf, U64, U32, U16;
    assert TypeOf(img, k) == PT_INTERP;
    hide TypeOf, LooksStripped;
    StrippedLooks(img, k);
    f := FindStripped(SetType(img, k, 0), 0);
    if f < k { assert LooksStripped(img, f); }
  }

  lemma {:induction false} RestoresAnother(img: seq<Byte>, k: nat, f: nat)
    requires HasOneInterp(img, k) && f < k
    ensures WellFormed(SetType(img, k, 0)) && f < TableOf(SetType(img, k, 0)).num
    ensures SetType(SetType(img, k, 0), f, 3) != img
  {
    var r := SetType(img, k, 0);
    SetTypeFrame(img, k, 0);
    SetTypeFrame(r, f, 3);
    assert TypeOf(img, k) == PT_INTERP;
    hide SetType, TypeOf;
    assert TypeOf(SetType(r, f, 3), k) == 0;
  }

  /** An image that still has its PT_INTERP entry is not changed. */
  lemma {:induction false} IntactStaysIntact(img: seq<Byte>, k: nat)
    requires TableFits(img) && k < TableOf(img).num && TypeOf(img, k) == PT_INTERP
    ensures Patch(img) == Patched(img)
  {
    hide TypeOf, U64, U32, U16;
    assert !(forall j :: 0 <= j < TableOf(img).num ==> TypeOf(img, j) != PT_INTERP);
  }
}
