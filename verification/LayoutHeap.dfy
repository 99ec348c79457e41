/** Type descriptors as the objects they are: shared, and written by the layout passes. */
module LayoutHeap {
  import opened Bits
  import opened Types
  import opened Layout

  class TypeDescriptor {
    var size: nat
    var alignment: nat
    const kind: Kind
    const members: seq<TypeDescriptor>
    /** The tree as its author wrote it, and every descriptor reachable in it. */
    ghost const shape: Desc
    ghost const repr: set<TypeDescriptor>

    constructor (size: nat, alignment: nat, kind: Kind, members: seq<TypeDescriptor>, ghost shape: Desc,
                 ghost repr: set<TypeDescriptor>)
      requires shape.size == size && shape.alignment == alignment && shape.kind == kind
      requires |shape.members| == |members|
      requires forall i :: 0 <= i < |members| ==> members[i].shape == shape.members[i] && members[i].repr <= repr
      requires forall i :: 0 <= i < |members| ==> members[i] in repr
      requires forall d :: d in repr ==> d.Tree() && d.repr <= repr
      ensures this.size == size && this.alignment == alignment && this.shape == shape
      ensures this.repr == repr + {this} && Tree()
    {
      this.size, this.alignment, this.kind, this.members := size, alignment, kind, members;
      this.shape, this.repr := shape, repr + {this};
    }

    /** The object and its shape correspond, and the object is not below itself. */
    ghost predicate Local() {
      && this in repr && kind == shape.kind && |members| == |shape.members|
      && (forall i :: 0 <= i < |members| ==>
            members[i].shape == shape.members[i] && members[i] in repr && members[i] != this)
      && (forall d :: d in repr && d != this ==> d.repr <= repr - {this})
    }

    /** A finite tree of descriptors, in which subtrees may be shared. */
    ghost predicate Tree() {
      this in repr && forall d :: d in repr ==> d.Local()
    }

    /** Every member heads a tree of its own, without this descriptor. */
    lemma {:induction false} MemberTree(i: nat)
      requires Tree() && i < |members|
      ensures i < |shape.members| && members[i].shape == shape.members[i]
      ensures members[i].Tree() && members[i] in repr && members[i].repr <= repr - {this}
    {
      assert Local();
      assert members[i].Local();
    }

    /** The fields are those of the layout. */
    ghost predicate Laid(p: Pass)
      reads this
    {
      size == Lay(p, shape).size && alignment == Lay(p, shape).alignment
    }

    ghost predicate Declared()
      reads this
    {
      size == shape.size && alignment == shape.alignment
    }

    /** Between passes: a descriptor is as declared or laid out, and one that looks laid out to the
        pass was laid out with its whole tree. */
    ghost predicate Ok(p: Pass, done: set<TypeDescriptor>)
      reads this
    {
      && (Declared() || Laid(p))
      && (kind == StructType && !Kept(p, shape) && HasLayout(p, size, alignment) ==> this in done)
    }

    /** One round of initializeCompositeType's loop, on the fields it accumulates in. */
    method Absorb(m: TypeDescriptor)
      requires m != this
      modifies this
      ensures size == AlignMask(old(size), m.alignment) + m.size && alignment == Max(old(alignment), m.alignment)
    {
      hide AlignMask;
      size := AlignMask(size, m.alignment);
      size := size + m.size;
      if m.alignment > alignment {
        alignment := m.alignment;
      }
    }

    /** The tree the fields spell out. */
    ghost function View(p: Pass): Desc
      requires Tree()
      reads repr
      decreases shape, |members| + 1
    {
      if kind != StructType then Desc(size, alignment, kind, shape.members)
      else if Kept(p, shape) then shape
      else Desc(size, alignment, kind, ViewAll(p, |members|))
    }

    ghost function ViewAll(p: Pass, n: nat): (vs: seq<Desc>)
      requires Tree() && n <= |members|
      reads repr
      ensures |vs| == n
      decreases shape, n
    {
      if n == 0 then [] else ViewAll(p, n - 1) + [members[n - 1].View(p)]
    }
  }

  ghost predicate AllOk(p: Pass, s: set<TypeDescriptor>, done: set<TypeDescriptor>)
    reads s
  {
    forall d :: d in s ==> d.Ok(p, done)
  }

  ghost predicate AllLaid(p: Pass, s: set<TypeDescriptor>)
    reads s
  {
    forall d :: d in s ==> d.Laid(p)
  }

  /** With every struct the pass looks into, its members. */
  ghost predicate Downward(p: Pass, s: set<TypeDescriptor>) {
    forall d :: d in s && d.kind == StructType && !Kept(p, d.shape) ==>
                  forall i :: 0 <= i < |d.members| ==> d.members[i] in s
  }

  /** These descriptors are laid out, and so is everything below them that the pass looks at. */
  ghost predicate Settled(p: Pass, done: set<TypeDescriptor>)
    reads done
  {
    AllLaid(p, done) && Downward(p, done)
  }

  /** A settled tree reads as the layout of its shape. */
  lemma {:induction false} SettledView(p: Pass, t: TypeDescriptor, done: set<TypeDescriptor>)
    requires t.Tree() && t in done && Settled(p, done)
    ensures t.View(p) == Lay(p, t.shape)
    decreases t.shape, |t.members| + 1
  {
    hide AlignMask;
    if t.kind == StructType && !Kept(p, t.shape) {
      SettledViewAll(p, t, |t.members|, done);
    }
  }

  lemma {:induction false} SettledViewAll(p: Pass, t: TypeDescriptor, n: nat, done: set<TypeDescriptor>)
    requires t.Tree() && n <= |t.members| && Settled(p, done)
    requires forall i :: 0 <= i < |t.members| ==> t.members[i] in done
    ensures t.ViewAll(p, n) == LayAll(p, t.shape.members, n)
    decreases t.shape, n
  {
    hide Settled, Lay;
    if n != 0 {
      t.MemberTree(n - 1);
      SettledViewAll(p, t, n - 1, done);
      SettledView(p, t.members[n - 1], done);
    }
  }

  /** The part of done below t, while t itself is being recomputed. */
  lemma {:induction false} SettledBelow(p: Pass, t: TypeDescriptor, done: set<TypeDescriptor>)
    requires t.Tree() && Settled(p, done) && AllOk(p, t.repr, done)
    ensures Settled(p, done * (t.repr - {t})) && AllOk(p, t.repr - {t}, done * (t.repr - {t}))
    ensures AllLaid(p, done - t.repr) && Downward(p, done)
  {
    forall d, i | d in done * (t.repr - {t}) && d.kind == StructType && !Kept(p, d.shape) && 0 <= i < |d.members|
      ensures d.members[i] in done * (t.repr - {t})
    {
      assert d.Local();
    }
  }

  /** A scalar or a declared struct is laid out as it stands; any other struct was laid out before. */
  lemma {:induction false} NothingToDo(m: TypeDescriptor, done: set<TypeDescriptor>)
    requires m.Tree() && AllOk(Prepare, m.repr, done) && Settled(Prepare, done)
    requires m.kind != StructType || m.size != 0
    ensures AllOk(Prepare, m.repr, done + {m}) && Settled(Prepare, done + {m})
  {
    hide LayStruct, AlignMask;
    assert m.Local();
  }

  lemma {:induction false} BlankIsNotKept(m: TypeDescriptor, done: set<TypeDescriptor>)
    requires m.Tree() && AllOk(Prepare, m.repr, done) && m.size == 0
    ensures !Kept(Prepare, m.shape)
  {
    hide LayStruct, AlignMask;
    assert m.Ok(Prepare, done);
  }

  /** One member: its own layout first, if it has none. */
  method PrepareMember(m: TypeDescriptor, ghost done: set<TypeDescriptor>) returns (ghost done': set<TypeDescriptor>)
    requires m.Tree() && AllOk(Prepare, m.repr, done) && Settled(Prepare, done)
    modifies m.repr
    ensures AllOk(Prepare, m.repr, done') && Settled(Prepare, done')
    ensures done <= done' <= done + m.repr && m in done'
    decreases m.shape, 2
  {
    hide Lay, LayStruct, Settled;
    if m.size == 0 && m.kind == StructType {
      BlankIsNotKept(m, done);
      var ok;
      ok, done' := InitializeCompositeType(m, done);
    } else {
      NothingToDo(m, done);
      done' := done + {m};
    }
  }

  /** One member of t, leaving t alone. */
  method PrepareMemberOf(t: TypeDescriptor, i: nat, ghost below: set<TypeDescriptor>)
    returns (ghost below': set<TypeDescriptor>)
    requires t.Tree() && i < |t.members| && below <= t.repr - {t}
    requires AllOk(Prepare, t.repr - {t}, below) && Settled(Prepare, below)
    modifies t.repr - {t}
    ensures AllOk(Prepare, t.repr - {t}, below') && Settled(Prepare, below')
    ensures below <= below' <= t.repr - {t} && t.members[i] in below'
    ensures t.members[i].Laid(Prepare)
    decreases t.shape, 0
  {
    hide Settled, TypeDescriptor.Laid, TypeDescriptor.Declared;
    t.MemberTree(i);
    var m := t.members[i];
    below' := PrepareMember(m, below);
    assert m.Laid(Prepare) by { LaidIn(Prepare, m, below'); }
  }

  lemma {:induction false} LaidIn(p: Pass, m: TypeDescriptor, done: set<TypeDescriptor>)
    requires m in done && Settled(p, done)
    ensures m.Laid(p)
  {
  }

  /** Putting t back on top of what was done below it. */
  lemma {:induction false} SettledAbove(p: Pass, t: TypeDescriptor, done: set<TypeDescriptor>,
      below: set<TypeDescriptor>)
    requires t.Tree() && t.Laid(p) && Downward(p, done) && AllLaid(p, done - t.repr)
    requires Settled(p, below) && AllOk(p, t.repr - {t}, below) && done * (t.repr - {t}) <= below <= t.repr - {t}
    requires t.kind == StructType ==> forall j :: 0 <= j < |t.members| ==> t.members[j] in below
    ensures Settled(p, done + below + {t}) && AllOk(p, t.repr, done + below + {t})
  {
    hide TypeDescriptor.Laid, TypeDescriptor.Declared, Kept, HasLayout;
  }

  /** initializeCompositeType, called on a struct without a declared size: afterwards the whole tree is
      laid out. False is the error for anything but a struct. */
  method InitializeCompositeType(t: TypeDescriptor, ghost done: set<TypeDescriptor>)
    returns (ok: bool, ghost done': set<TypeDescriptor>)
    requires t.Tree() && !Kept(Prepare, t.shape) && AllOk(Prepare, t.repr, done) && Settled(Prepare, done)
    modifies t.repr
    ensures ok <==> t.kind == StructType
    ensures ok ==> t in done'
    ensures AllOk(Prepare, t.repr, done') && Settled(Prepare, done') && done <= done' <= done + t.repr
    decreases t.shape, 1
  {
    hide Lay, LayStruct, AlignMask, AllOk, TypeDescriptor.Ok, Downward, AllLaid, Kept;
    if t.kind != StructType {
      return false, done;
    }
    SettledBelow(Prepare, t, done);
    assert t.Local();
    ghost var below := done * (t.repr - {t});
    ghost var ls := LayAll(Prepare, t.shape.members, |t.members|);
    t.size, t.alignment := 0, 0;
    var i := 0;
    while i < |t.members|
      invariant 0 <= i <= |t.members|
      invariant Settled(Prepare, below) && AllOk(Prepare, t.repr - {t}, below) && AllLaid(Prepare, done - t.repr)
      invariant done * (t.repr - {t}) <= below <= t.repr - {t}
      invariant forall j :: 0 <= j < i ==> t.members[j] in below
      invariant t.size == MaskedEnd(ls, i) && t.alignment == MaxAlign(ls, i, 0)
    {
      var m := t.members[i];
      LayAt(Prepare, t.shape.members, |t.members|, i);
      below := PrepareMemberOf(t, i, below);
      t.Absorb(m);
      i := i + 1;
    }
    t.size := AlignMask(t.size, t.alignment);
    PreparedStruct(t, ls);
    SettledAbove(Prepare, t, done, below);
    ok, done' := true, done + below + {t};
  }

  lemma {:induction false} PreparedStruct(t: TypeDescriptor, ls: seq<Desc>)
    requires t.Tree() && t.kind == StructType && !Kept(Prepare, t.shape)
    requires ls == LayAll(Prepare, t.shape.members, |t.members|)
    requires t.alignment == MaxAlign(ls, |ls|, 0) && t.size == AlignMask(MaskedEnd(ls, |ls|), t.alignment)
    ensures t.Laid(Prepare)
  {
    hide AlignMask;
    assert t.Local();
  }

  lemma {:induction false} KeptAsIs(t: TypeDescriptor, done: set<TypeDescriptor>)
    requires t.Tree() && Settled(Ensure, done) && AllOk(Ensure, t.repr, done)
    requires t.kind == StructType && HasLayout(Ensure, t.size, t.alignment)
    ensures Settled(Ensure, done + {t}) && AllOk(Ensure, t.repr, done + {t})
  {
    hide LayStruct, AlignMask;
    assert t.Local();
    assert t.Ok(Ensure, done);
  }

  /** One member of t, leaving t alone. */
  method EnsureMemberOf(t: TypeDescriptor, i: nat, ghost below: set<TypeDescriptor>)
    returns (mSize: nat, mAlign: nat, ghost below': set<TypeDescriptor>)
    requires t.Tree() && i < |t.members| && below <= t.repr - {t}
    requires AllOk(Ensure, t.repr - {t}, below) && Settled(Ensure, below)
    modifies t.repr - {t}
    ensures AllOk(Ensure, t.repr - {t}, below') && Settled(Ensure, below')
    ensures below <= below' <= t.repr - {t} && t.members[i] in below'
    ensures var l := Lay(Ensure, t.members[i].shape); mSize == l.size && mAlign == l.alignment
    decreases t.shape, 0
  {
    hide Settled, TypeDescriptor.Declared, Lay;
    t.MemberTree(i);
    var m := t.members[i];
    mSize, mAlign, below' := EnsureStructLayout(m, below);
    assert m.Laid(Ensure) by { LaidIn(Ensure, m, below'); }
  }

  /** The fields the pass fills in are the layout's. */
  lemma {:induction false} EnsuredStruct(t: TypeDescriptor, ls: seq<Desc>, done: set<TypeDescriptor>)
    requires t.Tree() && t.kind == StructType && t.Ok(Ensure, done) && !HasLayout(Ensure, t.size, t.alignment)
    requires ls == LayAll(Ensure, t.shape.members, |t.members|)
    ensures var l, alignment := Lay(Ensure, t.shape), MaxAlign(ls, |ls|, 1);
            var size := AlignOffset(EndOf(ls, |ls|), alignment);
            && (if t.size == 0 then size else t.size) == l.size
            && (if t.alignment == 0 then alignment else t.alignment) == l.alignment
  {
    hide AlignMask, LayAll, EndOf;
    assert t.Local();
    AlignAtLeast(ls, |ls|, 1);
  }

  method EnsureScalar(t: TypeDescriptor, ghost done: set<TypeDescriptor>)
    requires t.Tree() && AllOk(Ensure, t.repr, done) && Settled(Ensure, done) && t.kind != StructType
    modifies t
    ensures t.Laid(Ensure) && Settled(Ensure, done + {t}) && AllOk(Ensure, t.repr, done + {t})
  {
    SettledBelow(Ensure, t, done);
    assert t.Ok(Ensure, done) && t.Local();
    if t.alignment == 0 {
      if t.size != 0 {
        t.alignment := t.size;
      } else {
        t.alignment := 1;
      }
    }
    hide LayStruct, AlignMask, Downward;
    assert t.Laid(Ensure);
    SettledAbove(Ensure, t, done, done * (t.repr - {t}));
  }

  method EnsureStruct(t: TypeDescriptor, ghost done: set<TypeDescriptor>) returns (ghost done': set<TypeDescriptor>)
    requires t.Tree() && AllOk(Ensure, t.repr, done) && Settled(Ensure, done)
    requires t.kind == StructType && !HasLayout(Ensure, t.size, t.alignment)
    modifies t.repr
    ensures AllOk(Ensure, t.repr, done') && Settled(Ensure, done')
    ensures done <= done' <= done + t.repr && t in done'
    decreases t.shape, 1, 0
  {
    hide Lay, LayStruct, AlignMask, AlignOffset, AllOk, Downward, AllLaid, Kept, LayAll;
    assert t.Local();
    assert t.Ok(Ensure, done) by { OkIn(Ensure, t, done); }
    SettledBelow(Ensure, t, done);
    ghost var below := done * (t.repr - {t});
    ghost var ls := LayAll(Ensure, t.shape.members, |t.members|);
    EnsuredStruct(t, ls, done);
    var offset, maxAlign := 0, 1;
    var i := 0;
    while i < |t.members|
      invariant 0 <= i <= |t.members|
      invariant t.size == old(t.size) && t.alignment == old(t.alignment)
      invariant Settled(Ensure, below) && AllOk(Ensure, t.repr - {t}, below) && AllLaid(Ensure, done - t.repr)
      invariant done * (t.repr - {t}) <= below <= t.repr - {t}
      invariant forall j :: 0 <= j < i ==> t.members[j] in below
      invariant offset == EndOf(ls, i) && maxAlign == MaxAlign(ls, i, 1)
    {
      LayAt(Ensure, t.shape.members, |t.members|, i);
      EnsuredAlign(t.shape.members[i]);
      var mSize, mAlign;
      mSize, mAlign, below := EnsureMemberOf(t, i, below);
      mAlign := if mAlign == 0 then 1 else mAlign;
      offset := AlignOffset(offset, mAlign);
      offset := offset + mSize;
      if mAlign > maxAlign {
        maxAlign := mAlign;
      }
      i := i + 1;
    }
    Fill(t, AlignOffset(offset, maxAlign), maxAlign);
    SettledAbove(Ensure, t, done, below);
    done' := done + below + {t};
  }

  lemma {:induction false} OkIn(p: Pass, t: TypeDescriptor, done: set<TypeDescriptor>)
    requires t in t.repr && AllOk(p, t.repr, done)
    ensures t.Ok(p, done)
  {
  }

  /** Only what is missing is filled in. */
  method Fill(t: TypeDescriptor, size: nat, alignment: nat)
    modifies t
    ensures t.size == (if old(t.size) == 0 then size else old(t.size))
    ensures t.alignment == (if old(t.alignment) == 0 then alignment else old(t.alignment))
  {
    if t.size == 0 {
      t.size := size;
    }
    if t.alignment == 0 {
      t.alignment := alignment;
    }
  }

  /** ensureStructLayout: afterwards the whole tree is laid out, and the caller gets the root's size and
      alignment. */
  method EnsureStructLayout(t: TypeDescriptor, ghost done: set<TypeDescriptor>)
    returns (size: nat, align: nat, ghost done': set<TypeDescriptor>)
    requires t.Tree() && AllOk(Ensure, t.repr, done) && Settled(Ensure, done)
    modifies t.repr
    ensures size == t.size && align == t.alignment && t in done'
    ensures old(t.kind == StructType && HasLayout(Ensure, t.size, t.alignment)) ==> unchanged(t.repr)
    ensures AllOk(Ensure, t.repr, done') && Settled(Ensure, done') && done <= done' <= done + t.repr
    decreases t.shape, 1
  {
    hide Lay, LayStruct, AlignMask, AllOk, Downward, Kept;
    assert t.Local();
    SettledBelow(Ensure, t, done);
    if t.kind != StructType {
      EnsureScalar(t, done);
      done' := done + {t};
    } else if t.size != 0 && t.alignment != 0 {
      KeptAsIs(t, done);
      done' := done + {t};
    } else {
      done' := EnsureStruct(t, done);
    }
    size, align := t.size, t.alignment;
  }

  /** Both passes, run on two copies of one complete tree, leave the same layout in the fields. */
  method LayOutBoth(a: TypeDescriptor, b: TypeDescriptor)
    requires a.Tree() && b.Tree() && a.shape == b.shape && a.repr !! b.repr
    requires a.shape.kind == StructType && !Kept(Prepare, a.shape) && Complete(a.shape)
    requires AllOk(Prepare, a.repr, {}) && AllOk(Ensure, b.repr, {})
    modifies a.repr, b.repr
    ensures a.size == b.size && a.alignment == b.alignment
    ensures a.View(Prepare) == b.View(Ensure) == Lay(Ensure, a.shape)
  {
    hide Lay, LayStruct, AllOk, Complete;
    assert a.Local();
    var ok, size, align;
    ghost var doneA, doneB;
    ok, doneA := InitializeCompositeType(a, {});
    SettledView(Prepare, a, doneA);
    size, align, doneB := EnsureStructLayout(b, {});
    SettledView(Ensure, b, doneB);
    PassesAgreeIff(a.shape);
    LaidIn(Prepare, a, doneA);
    LaidIn(Ensure, b, doneB);
  }

  /** What initializeCompositeType leaves behind is in order for ensureStructLayout too, when every
      descriptor in the tree is complete. */
  lemma {:induction false} PreparedIsOk(t: TypeDescriptor, done: set<TypeDescriptor>)
    requires t.Tree() && (forall d :: d in t.repr ==> Complete(d.shape)) && done <= t.repr
    requires AllOk(Prepare, t.repr, done) && Settled(Prepare, done)
    ensures AllOk(Ensure, t.repr, done) && Settled(Ensure, done)
  {
    hide Lay, LayStruct, AlignMask;
    forall d | d in t.repr
      ensures d.Ok(Ensure, done) && (d.Laid(Prepare) ==> d.Laid(Ensure))
      ensures d.kind == StructType && !Kept(Ensure, d.shape) ==> !Kept(Prepare, d.shape)
    {
      assert d.Local() && d.Ok(Prepare, done);
      PassesAgreeIff(d.shape);
      if d.kind == StructType { CompleteKept(d.shape); }
    }
  }

  lemma {:induction false} CompleteKept(t: Desc)
    requires Complete(t) && t.kind == StructType
    ensures Kept(Prepare, t) <==> Kept(Ensure, t)
  {
  }

  /** On a tree that initializeCompositeType laid out, ensureStructLayout changes nothing. */
  method EnsureAfterPrepare(t: TypeDescriptor, ghost done: set<TypeDescriptor>) returns (size: nat, align: nat)
    requires t.Tree() && t.kind == StructType && Layable(t.shape) && (forall d :: d in t.repr ==> Complete(d.shape))
    requires done <= t.repr && t in done && AllOk(Prepare, t.repr, done) && Settled(Prepare, done)
    modifies t.repr
    ensures unchanged(t.repr) && size == t.size && align == t.alignment
    ensures t.View(Ensure) == Lay(Ensure, t.shape)
  {
    hide Lay, LayStruct, AlignMask, AllOk, Settled, Complete, Layable;
    PreparedIsOk(t, done);
    LaidIn(Ensure, t, done);
    LayIsSized(t.shape);
    SizedHasLayout(Lay(Ensure, t.shape));
    ghost var done';
    size, align, done' := EnsureStructLayout(t, done);
    SettledView(Ensure, t, done');
  }

  lemma {:induction false} SizedHasLayout(t: Desc)
    requires Sized(t)
    ensures HasLayout(Ensure, t.size, t.alignment)
  {
    AlignMaskIsAlignUp(0, t.alignment);
  }

  /** The two passes in the order they run in on one tree: the first lays it out, the second finds
      nothing to do. */
  method PrepareThenEnsure(t: TypeDescriptor) returns (size: nat, align: nat)
    requires t.Tree() && Layable(t.shape) && t.shape.kind == StructType && !Kept(Prepare, t.shape)
    requires (forall d :: d in t.repr ==> Complete(d.shape)) && AllOk(Prepare, t.repr, {})
    modifies t.repr
    ensures size == t.size && align == t.alignment
    ensures t.View(Prepare) == t.View(Ensure) == Lay(Ensure, t.shape)
  {
    hide Lay, LayStruct, AllOk, Complete, Layable;
    assert t.Local();
    var ok;
    ghost var done;
    ok, done := InitializeCompositeType(t, {});
    SettledView(Prepare, t, done);
    PassesAgreeIff(t.shape);
    size, align := EnsureAfterPrepare(t, done);
  }
}
