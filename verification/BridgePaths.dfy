/** How the bridge recognises the host loader and its own memfd image in /proc/self/exe. */
module BridgePaths {
  import opened BridgeText
  import opened Staging
  import opened EnvLaunch

  /** The last path element. */
  function Base(s: string): string {
    if s == "" || s[|s| - 1] == '/' then "" else Base(s[..|s| - 1]) + [s[|s| - 1]]
  }

  predicate NoSlash(s: string) {
    forall i :: 0 <= i < |s| ==> s[i] != '/'
  }

  lemma {:induction false} BaseIs(dir: string, name: string)
    requires NoSlash(name) && (dir == "" || dir[|dir| - 1] == '/')
    ensures Base(dir + name) == name
  {
    if name == "" {
      assert dir + name == dir;
    } else {
      var s := dir + name;
      assert s[..|s| - 1] == dir + name[..|name| - 1];
      BaseIs(dir, name[..|name| - 1]);
    }
  }

  const MEMFD_PREFIX: string := "/memfd:"

  /** hasPrefixC on a C string; nil has no prefix. */
  method HasPrefixC(b: Buffer, p: Ptr, s: string) returns (r: bool)
    requires b.Valid() && b.Terminated(p) && NoNul(s)
    ensures r <==> p != Null && s <= b.TextAt(p)
  {
    hide CText, Flat;
    if p == Null {
      return false;
    }
    ghost var t := b.TextAt(p);
    var i := 0;
    while i < |s|
      invariant 0 <= i <= |s| && i <= |t| && s[..i] == t[..i]
    {
      var c := b.Peek(p, i);
      if c != s[i] {
        assert i < |t| ==> t[i] != s[i];
        return false;
      }
      i := i + 1;
    }
    return true;
  }

  /** Where the last path element of s starts. */
  method BaseStart(s: string) returns (start: nat)
    ensures start <= |s| && s[start..] == Base(s)
  {
    start := 0;
    var n := 0;
    while n < |s|
      invariant 0 <= n <= |s| && start <= n && NoSlash(s[start..n]) && (start == 0 || s[start - 1] == '/')
    {
      assert s[start..n + 1] == s[start..n] + [s[n]];
      if s[n] == '/' {
        start := n + 1;
      }
      n := n + 1;
    }
    assert s[..start] + s[start..] == s;
    BaseIs(s[..start], s[start..]);
  }

  /** sameBase: the two last path elements are equal; nil has none. */
  method SameBase(b: Buffer, p: Ptr, s: string) returns (r: bool)
    requires b.Valid() && b.Terminated(p)
    ensures r <==> p != Null && Base(b.TextAt(p)) == Base(s)
  {
    hide CText, Flat;
    if p == Null {
      return false;
    }
    var t := b.ReadC(p);
    var start := BaseStart(t);
    var sb := BaseStart(s);
    if |t| - start != |s| - sb {
      return false;
    }
    r := SameText(t, start, s, sb, |t| - start);
  }

  /** n characters of t from i on against those of s from j on. */
  method SameText(t: string, i: nat, s: string, j: nat, n: nat) returns (r: bool)
    requires i + n == |t| && j + n == |s|
    ensures r <==> t[i..] == s[j..]
  {
    ghost var a, b := t[i..], s[j..];
    var k := 0;
    while k < n
      invariant 0 <= k <= n && a[..k] == b[..k]
    {
      assert a[k] == t[i + k] && b[k] == s[j + k];
      if t[i + k] != s[j + k] {
        return false;
      }
      assert a[..k + 1] == a[..k] + [a[k]] && b[..k + 1] == b[..k] + [b[k]];
      k := k + 1;
    }
    assert a[..k] == a && b[..k] == b;
    return true;
  }

  /** What readlink answers for the host loader. */
  predicate IsLoaderPath(t: HostTable, s: string) {
    Base(s) == Base(t.glibcLoader) || Base(s) == Base(t.muslLoader)
  }

  /** What readlink answers for the memfd copy. */
  const MEMFD_TEXT: string := "/memfd:goffi (deleted)"

  /** A file on disk that is neither a loader nor named like a memfd. */
  predicate PlainPath(t: HostTable, s: string) {
    !(MEMFD_PREFIX <= s) && !IsLoaderPath(t, s)
  }

  lemma {:induction false} BaseFrom(s: string, k: nat)
    requires k < |s| && s[k] == '/' && forall i :: k < i < |s| ==> s[i] != '/'
    ensures Base(s) == s[k + 1..]
  {
    assert s == s[..k + 1] + s[k + 1..];
    BaseIs(s[..k + 1], s[k + 1..]);
  }

  /* The names of the loaders. */

  lemma {:induction false} Amd64GlibcBase()
    ensures Base(AMD64.glibcLoader) == "ld-linux-x86-64.so.2"
  {
    hide Base;
    assert "/lib64/" + "ld-linux-x86-64.so.2" == AMD64.glibcLoader;
    BaseIs("/lib64/", "ld-linux-x86-64.so.2");
  }

  lemma {:induction false} Amd64MuslBase()
    ensures Base(AMD64.muslLoader) == "ld-musl-x86_64.so.1"
  {
    hide Base;
    assert "/lib/" + "ld-musl-x86_64.so.1" == AMD64.muslLoader;
    BaseIs("/lib/", "ld-musl-x86_64.so.1");
  }

  lemma {:induction false} Arm64GlibcBase()
    ensures Base(ARM64.glibcLoader) == "ld-linux-aarch64.so.1"
  {
    hide Base;
    assert "/lib/" + "ld-linux-aarch64.so.1" == ARM64.glibcLoader;
    BaseIs("/lib/", "ld-linux-aarch64.so.1");
  }

  lemma {:induction false} Arm64MuslBase()
    ensures Base(ARM64.muslLoader) == "ld-musl-aarch64.so.1"
  {
    hide Base;
    assert "/lib/" + "ld-musl-aarch64.so.1" == ARM64.muslLoader;
    BaseIs("/lib/", "ld-musl-aarch64.so.1");
  }

  lemma {:induction false} MemfdBase()
    ensures Base(MEMFD_TEXT) != "" && Base(MEMFD_TEXT)[0] == 'm'
  {
    hide Base;
    BaseFrom(MEMFD_TEXT, 0);
  }

  lemma {:induction false} LoaderInitial(t: HostTable)
    requires KnownHost(t)
    ensures Base(t.glibcLoader) != "" && Base(t.glibcLoader)[0] == 'l'
    ensures Base(t.muslLoader) != "" && Base(t.muslLoader)[0] == 'l'
  {
    hide Base;
    if t == AMD64 {
      Amd64GlibcBase();
      Amd64MuslBase();
    } else {
      Arm64GlibcBase();
      Arm64MuslBase();
    }
  }

  /** In whatever directory, a file is taken for a loader exactly under the two names the host's loaders have. */
  lemma {:induction false} RecognisedIff(t: HostTable, dir: string, name: string)
    requires KnownHost(t) && NoSlash(name) && (dir == "" || dir[|dir| - 1] == '/')
    ensures IsLoaderPath(t, dir + name) <==>
            if t == AMD64 then name == "ld-linux-x86-64.so.2" || name == "ld-musl-x86_64.so.1"
            else name == "ld-linux-aarch64.so.1" || name == "ld-musl-aarch64.so.1"
  {
    hide Base;
    BaseIs(dir, name);
    Amd64GlibcBase();
    Amd64MuslBase();
    Arm64GlibcBase();
    Arm64MuslBase();
  }

  /** The memfd copy is not taken for a loader. */
  lemma {:induction false} MemfdIsNoLoader(t: HostTable)
    requires KnownHost(t)
    ensures !IsLoaderPath(t, MEMFD_TEXT)
  {
    hide Base, KnownHost;
    LoaderInitial(t);
    MemfdBase();
  }

  lemma {:induction false} MemfdHasPrefix()
    ensures MEMFD_PREFIX <= MEMFD_TEXT
  {
  }
}
