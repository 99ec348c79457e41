/** The arm64 call direction: Execute's registers and stack slots. */
module Arm64Call {
  import opened Words
  import opened Types
  import opened Placement
  import opened Arm64Regs
  import opened Arm64Pack
  import opened Arm64Place
  import opened Arm64Count
  import opened Arm64Hfa
  import opened Arm64Args
  import S = Arm64Slots

  /** The allocator is in state s. */
  ghost predicate InState(regs: RegFile, s: State)
    reads regs
  {
    regs.Holds(s.items) && regs.exhausted == s.exhausted
  }

  lemma {:induction false} Cursors(regs: RegFile, s: State)
    requires InState(regs, s)
    ensures regs.gprIdx == IntsUsed(s) && regs.fprIdx == FloatsUsed(s) && Fits(s.items)
  {
  }

  /** addInt, its result ignored. */
  method PushInt(regs: RegFile, x: Word, ghost s: State)
    requires InState(regs, s)
    modifies regs
    ensures InState(regs, Push(s, Item(INTEGER, x)))
  {
    hide Fits, RegFile.Holds;
    var ok := regs.AddInt(x, s.items);
  }

  method PushFloat(regs: RegFile, x: Word, ghost s: State) returns (ok: bool)
    requires InState(regs, s)
    modifies regs
    ensures InState(regs, Push(s, Item(SSE, x))) && (ok <==> Push(s, Item(SSE, x)) != s)
  {
    hide Fits, RegFile.Holds;
    assert s.items + [Marked(Item(SSE, x), s.exhausted)] != s.items;
    ok := regs.AddFloat(x, s.items);
  }

  method AddScalar(regs: RegFile, t: Desc, a: Arg, ghost s: State)
    requires InState(regs, s) && t.kind != StructType && GoodArg(t, a)
    modifies regs
    ensures InState(regs, Push(s, ScalarItem(t, a)))
  {
    hide Push, InState, Load, SignLoad;
    if t.kind == FloatType || t.kind == DoubleType {
      var dropped := PushFloat(regs, Load(a.mem[..Width(t.kind)]), s);
    } else if !FixedWidth(t.kind) {
      PushInt(regs, a.address, s);
    } else if t.kind == SInt8Type || t.kind == SInt16Type || t.kind == SInt32Type {
      PushInt(regs, SignLoad(a.mem[..Width(t.kind)]), s);
    } else {
      PushInt(regs, Load(a.mem[..Width(t.kind)]), s);
    }
  }

  method AddHfaOverflow(regs: RegFile, t: Desc, a: Arg, ghost s: State)
    requires InState(regs, s) && t.size <= |a.mem|
    modifies regs
    ensures InState(regs, Overflow(s, a, 0, t.size / 4))
  {
    hide Push, InState, Load;
    ghost var now := s;
    var hfaOverflow, k := false, 0;
    while k < t.size / 4 && !hfaOverflow
      invariant 0 <= k <= t.size / 4
      invariant InState(regs, now)
      invariant if hfaOverflow then Push(now, Item(INTEGER, a.address)) == Overflow(s, a, 0, t.size / 4)
                else Overflow(now, a, k, t.size / 4) == Overflow(s, a, 0, t.size / 4)
    {
      var slot := Load(a.mem[4 * k..4 * k + 4]);
      var ok := PushFloat(regs, slot, now);
      now := Push(now, Item(SSE, slot));
      if !ok {
        hfaOverflow := true;
      }
      k := k + 1;
    }
    if hfaOverflow {
      PushInt(regs, a.address, now);
    }
  }

  /** A struct that passed the fit test: the placer's result is never negative. */
  method AddAdmitted(regs: RegFile, t: Desc, a: Arg, ghost s: State) returns (ok: bool)
    requires InState(regs, s) && t.kind == StructType && GoodArg(t, a) && Admits(s, t)
    modifies regs
    ensures ok && InState(regs, StructStep(s, t, a))
  {
    Cursors(regs, s);
    AdmittedFits(s, t, a);
    hide Fits, Admits, RegFile.Holds, Packed, LeavesOf, Tagged, Supported;
    ghost var held;
    ok, held := PlaceStructRegisters(regs, t, a.mem, s.items);
  }

  method AddStruct(regs: RegFile, t: Desc, a: Arg, ghost s: State)
    requires InState(regs, s) && t.kind == StructType && GoodArg(t, a)
    modifies regs
    ensures InState(regs, StructStep(s, t, a))
  {
    Cursors(regs, s);
    StructCases(s, t, a);
    hide InState, Push, StructStep, Overflow, IsHfa, RegUsage, ShapesOf, GoodArg, IntsUsed, FloatsUsed;
    var isHfa, hfaCount, elemKind := IsHomogeneousFloatAggregate(t);
    if isHfa {
      if regs.fprIdx + hfaCount <= FLOAT_REGS {
        var ok := AddAdmitted(regs, t, a, s);
        return;
      }
      AddHfaOverflow(regs, t, a, s);
      return;
    }
    if t.size <= 16 {
      var intCount, floatCount := CountStructRegUsage(t);
      if regs.gprIdx + intCount <= GP_REGS && regs.fprIdx + floatCount <= FLOAT_REGS {
        var ok := AddAdmitted(regs, t, a, s);
        return;
      }
    }
    PushInt(regs, a.address, s);
  }

  lemma {:induction false} StructCases(s: State, t: Desc, a: Arg)
    requires t.kind == StructType && GoodArg(t, a)
    ensures t.size <= |a.mem|
    ensures !Admits(s, t) ==>
              StructStep(s, t, a)
              == (if IsHfa(t) then Overflow(s, a, 0, t.size / 4) else Push(s, Item(INTEGER, a.address)))
  {
    hide Admits, Overflow, Push, IsHfa, Supported, InMemory;
  }

  /** Execute up to the jump: X8 carries the result address of a struct returned through memory, and
      the allocator ends in the state of the specification. Every argument is in the register or stack word
      its predecessors leave it, in the form the callee expects. The explicit limit check never fires. */
  method Execute(flags: nat, rvalue: Word, darwin: bool, fixedArgCount: nat, ts: seq<Desc>, avalue: seq<Arg>)
    returns (limitError: bool, regs: RegFile, r8: Word)
    requires AllGood(ts, avalue)
    ensures !limitError && fresh(regs)
    ensures r8 == if HasFlag(flags, RETURN_VIA_POINTER) then rvalue else ZERO
    ensures InState(regs, After(darwin, fixedArgCount, ts, avalue, if |ts| <= |avalue| then |ts| else |avalue|))
    ensures |regs.gpr| == 8 && |regs.fpr| == 8 && |regs.stackArgs| == 7
    ensures S.AllArrive(Placed(regs.gpr, regs.fpr, regs.stackArgs), darwin, fixedArgCount, ts, avalue)
    ensures regs.stackIdx ==
            S.Reached(darwin, fixedArgCount, ts, avalue, if |ts| <= |avalue| then |ts| else |avalue|).stack
  {
    hide InState, ArgStep, GoodArg, S.AllArrive;
    r8 := if HasFlag(flags, RETURN_VIA_POINTER) then rvalue else ZERO;
    regs := new RegFile();
    assert InState(regs, State([], false)) by { Initial(regs); }
    var idx := 0;
    while idx < |ts|
      invariant 0 <= idx <= |ts| && idx <= |avalue| && fresh(regs)
      invariant InState(regs, After(darwin, fixedArgCount, ts, avalue, idx))
    {
      if idx >= |avalue| {
        break;
      }
      ghost var s := After(darwin, fixedArgCount, ts, avalue, idx);
      if fixedArgCount > 0 && darwin && idx == fixedArgCount {
        Boundary(regs, s);
        s := s.(exhausted := true);
      }
      AddArgument(regs, ts[idx], avalue[idx], s);
      idx := idx + 1;
    }
    NeverOver(regs, After(darwin, fixedArgCount, ts, avalue, idx));
    limitError := regs.stackIdx > STACK_SLOTS;
    Held(regs, After(darwin, fixedArgCount, ts, avalue, idx));
    S.RegistersHoldAll(regs, darwin, fixedArgCount, ts, avalue, idx);
    S.StackReached(darwin, fixedArgCount, ts, avalue, idx);
  }

  method Boundary(regs: RegFile, ghost s: State)
    requires InState(regs, s)
    modifies regs
    ensures InState(regs, s.(exhausted := true))
  {
    regs.Exhaust(s.items);
  }

  method AddArgument(regs: RegFile, t: Desc, a: Arg, ghost s: State)
    requires InState(regs, s) && GoodArg(t, a)
    modifies regs
    ensures InState(regs, ArgStep(s, t, a))
  {
    hide InState, GoodArg, StructStep, Push, ScalarItem;
    if t.kind == StructType {
      AddStruct(regs, t, a, s);
    } else {
      AddScalar(regs, t, a, s);
    }
  }

  lemma {:induction false} Initial(regs: RegFile)
    requires regs.Holds([]) && !regs.exhausted
    ensures InState(regs, State([], false))
  {
  }

  lemma {:induction false} NeverOver(regs: RegFile, s: State)
    requires InState(regs, s)
    ensures regs.stackIdx <= STACK_SLOTS
  {
  }

  lemma {:induction false} Held(regs: RegFile, s: State)
    requires InState(regs, s)
    ensures regs.Holds(s.items) && |regs.gpr| == 8 && |regs.fpr| == 8 && |regs.stackArgs| == 7
    ensures regs.stackIdx == |Place(s.items, GP_REGS).stack|
  {
    hide Place;
  }
}
