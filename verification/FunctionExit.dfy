/** Leaving a compiled function: globals back in memory, the caller's registers back in place. */
module FunctionExit {
  import opened Word
  import opened Ir
  import opened IrFlow
  import opened IrMachine
  import opened Rv32
  import opened Frame
  import opened Control
  import opened TempRanges
  import opened Allocation
  import opened FrameCode
  import opened FrameEntry
  import opened FrameLayout
  import opened Body
  import opened Remainder
  import opened Homes
  import opened BodyFlow
  import opened AllocSim
  import opened StepSim
  import opened JumpSim
  import opened ChainSim
  import opened BodyRun
  import opened FunctionSim

  // --------------------------------------------------------------------------
  // The saved words
  // --------------------------------------------------------------------------

  /** The words that hold the caller's registers are protected while the body runs. */
  lemma SavedProtected(c: Unit, s0: State, u: State, x: int)
    requires StackRoom(c, s0) && NeedsFrame(c.f) && c.size >= WORD_BYTES * (2 + |c.f.usedCalleeSavedRegisters|)
    requires -(WORD_BYTES * (2 + |c.f.usedCalleeSavedRegisters|)) <= x <= -WORD_BYTES
    ensures Protected(c, HomeOf(c, s0, u), FrameAddress(s0, x))
  {
    hide FrameSize, FrameAddress;
    AddressApart(s0, x, -1);
  }

  /** The caller's registers are still in their words. */
  lemma StillSaved(c: Unit, s0: State, u: State, t: State)
    requires WellFormed(c) && StackRoom(c, s0) && NeedsFrame(c.f) && Entered(c.f, c.size, s0, u)
    requires FrameHeld(c, HomeOf(c, s0, u), t)
    ensures CallerSaved(c.f, s0, t) && R(t, Sp) == FrameAddress(s0, -c.size) && R(t, S(0)) == R(s0, Sp)
  {
    hide StackRoom, Wrap, RegistersHeld, Protected, Load, SaveOffset;
    assert c.size >= WORD_BYTES * (2 + |c.f.usedCalleeSavedRegisters|) by { FrameHolds(c, s0); }
    hide WellFormed, FrameSize;
    assert R(s0, Sp) + -c.size == R(s0, Sp) - c.size;
    SavedProtected(c, s0, u, -4);
    SavedProtected(c, s0, u, -8);
    forall i | 0 <= i < |c.f.usedCalleeSavedRegisters|
      ensures Protected(c, HomeOf(c, s0, u), FrameAddress(s0, SaveOffset(i)))
    {
      OffsetBound(c.f, i);
      SavedProtected(c, s0, u, SaveOffset(i));
    }
  }

  lemma OffsetBound(f: StackFrame, i: nat)
    requires i < |f.usedCalleeSavedRegisters|
    ensures -(WORD_BYTES * (2 + |f.usedCalleeSavedRegisters|)) <= SaveOffset(i) <= -WORD_BYTES
  {
  }

  lemma FrameHolds(c: Unit, s0: State)
    requires WellFormed(c) && StackRoom(c, s0)
    ensures NeedsFrame(c.f) ==> c.size >= WORD_BYTES * (2 + |c.f.usedCalleeSavedRegisters|)
    ensures !NeedsFrame(c.f) ==> c.size == 0 && c.f.usedCalleeSavedRegisters == [] && !c.f.hasCall
  {
    hide TablesOk, DefinitionsSafe, TempsOk, RegistersSafe, ScratchFree, IncomingKept, NoGlobalClash, SavedCovers,
         LabelsReadNothing, ParamsFirst, DistinctParams, FrameSize, NeedsFrame;
    SizeFacts(c.ir, c.f);
  }

  // --------------------------------------------------------------------------
  // Return
  // --------------------------------------------------------------------------

  /** What holds when the cached globals have been stored back. */
  ghost predicate StoredBack(c: Unit, h: Home, r: CallResult, t: State)
  {
    && FrameHeld(c, h, t) && GlobalsInMemory(h.syms, r.globals, t)
    && (r.value.Some? ==> R(t, A(0)) == r.value.value)
  }

  lemma StoresRun(c: Unit, constants: seq<i32>, globals: seq<string>, s0: State, u: State, r: CallResult, t: State)
    requires FunctionOk(c, constants, globals, s0) && ExitHolds(c, HomeOf(c, s0, u), r, t)
    ensures StoredBack(c, HomeOf(c, s0, u), r, Run(StoreGlobalsCode(c.f, globals), t))
  {
    hide WellFormed, ChainsSafe, TailsOk, GlobalsKnown, AfterCode, Run, StoreGlobalsCode, RegistersHeld, Load, Wrap,
         FrameSize, DistinctConstants;
    var h := HomeOf(c, s0, u);
    CachesDistinct(c);
    Listed(globals, c.f.globalRegAlloc.Keys);
    GlobalsStored(c.f, globals, t);
    var t' := Run(StoreGlobalsCode(c.f, globals), t);
    assert FrameHeld(c, h, t') by { StoresKeepFrame(c, h, globals, t, t'); }
    hide FrameHeld;
    forall g | g in h.syms ensures Load(t', h.syms[g]) == GlobalValue(r.globals, g) {
      assert Get(t, HomePlace(c.f, h, Global(g))) == GlobalValue(r.globals, g);
    }
  }

  lemma StoresKeepFrame(c: Unit, h: Home, globals: seq<string>, t: State, t': State)
    requires FrameHeld(c, h, t) && t'.syms == t.syms && (forall r :: Kept(r, false) ==> R(t', r) == R(t, r))
    requires forall a :: (forall g :: g in globals ==> g in h.syms && h.syms[g] != a) ==> Load(t', a) == Load(t, a)
    requires forall g :: g in globals ==> g in h.syms
    ensures FrameHeld(c, h, t')
  {
    hide Load;
    forall a | Protected(c, h, a) ensures Load(t', a) == Load(t, a) {
      assert !IsSymbolAddress(h, a);
    }
  }

  /** With the globals stored and the frame gone, the function has done its call. */
  lemma CallIsDone(c: Unit, s0: State, u: State, r: CallResult, t: State, y: State)
    requires WellFormed(c) && StackRoom(c, s0) && Entered(c.f, c.size, s0, u) && StoredBack(c, HomeOf(c, s0, u), r, t)
    requires if NeedsFrame(c.f) then Left(c.f, c.f.hasCall, s0, t, y) else y == t
    requires forall q :: q in c.f.usedCalleeSavedRegisters ==> q.S? && 2 <= q.n < 12
    ensures CallDone(s0.syms, r, s0, y) && R(y, Ra) == R(s0, Ra)
  {
    hide StackRoom, WellFormed, Load, Entered, HomeOf, Left, R, FrameHeld, NeedsFrame;
    FrameHolds(c, s0);
    RegistersBack(c, s0, u, r, t, y);
    SameMemory(t, y);
    HomeSymbols(c, s0, u);
    forall a | Unsigned(a) >= Unsigned(R(s0, Sp)) && (forall g :: g in s0.syms ==> s0.syms[g] != a)
      ensures Load(y, a) == Load(s0, a)
    {
      CallerMemory(c, s0, u, t, a);
    }
  }

  lemma CallerMemory(c: Unit, s0: State, u: State, t: State, a: i32)
    requires Entered(c.f, c.size, s0, u) && FrameHeld(c, HomeOf(c, s0, u), t)
    requires Unsigned(a) >= Unsigned(R(s0, Sp)) && (forall g :: g in s0.syms ==> s0.syms[g] != a)
    ensures Load(t, a) == Load(s0, a)
  {
    hide R, Load, RegistersHeld, CallerSaved, FrameAddress;
    HomeSymbols(c, s0, u);
    hide HomeOf;
    assert Protected(c, HomeOf(c, s0, u), a) by { AboveProtected(c, s0, u, a); }
    assert !InsideFrame(c.size, s0, a);
  }

  lemma AboveProtected(c: Unit, s0: State, u: State, a: i32)
    requires Unsigned(a) >= Unsigned(R(s0, Sp)) && (forall g :: g in s0.syms ==> s0.syms[g] != a)
    ensures Protected(c, HomeOf(c, s0, u), a)
  {
  }

  lemma RegistersBack(c: Unit, s0: State, u: State, r: CallResult, t: State, y: State)
    requires Entered(c.f, c.size, s0, u) && StoredBack(c, HomeOf(c, s0, u), r, t)
    requires if NeedsFrame(c.f) then Left(c.f, c.f.hasCall, s0, t, y) else y == t
    requires !NeedsFrame(c.f) ==> c.size == 0 && c.f.usedCalleeSavedRegisters == [] && !c.f.hasCall
    requires forall q :: q in c.f.usedCalleeSavedRegisters ==> q.S? && 2 <= q.n < 12
    ensures (forall n :: n < 12 ==> R(y, S(n)) == R(s0, S(n))) && R(y, Sp) == R(s0, Sp) && R(y, Ra) == R(s0, Ra)
    ensures R(y, A(0)) == R(t, A(0)) && y.mem == t.mem && y.syms == s0.syms
  {
    hide FrameSize, Load, GlobalsInMemory, Protected, CallerSaved, NeedsFrame;
    if !NeedsFrame(c.f) { NoMove(s0); }
    forall n | n < 12 ensures R(y, S(n)) == R(s0, S(n)) {
      if n >= 1 && S(n) !in c.f.usedCalleeSavedRegisters {
        assert R(t, S(n)) == R(u, S(n));
      }
    }
  }

  /** From the exit label to the return. */
  lemma AfterRun(c: Unit, constants: seq<i32>, globals: seq<string>, s0: State, u: State, r: CallResult, t: State,
                 p: seq<Instr>, calls: Calls)
    returns (m: nat, y: State)
    requires FunctionOk(c, constants, globals, s0) && Entered(c.f, c.size, s0, u) &&
             ExitHolds(c, HomeOf(c, s0, u), r, t)
    ensures Exec(p, c.after, t, m, calls) == Exit(Returns, y)
    ensures CallDone(s0.syms, r, s0, y) && R(y, Ra) == R(s0, Ra)
  {
    hide WellFormed, ChainsSafe, TailsOk, GlobalsKnown, StackRoom, Run, StoreGlobalsCode, LeaveCode, Entered,
         ExitHolds, R, StoredBack, NeedsFrame, CallDone, Left, HomeOf, CallerSaved, Exec, ExitLabel;
    var stores, leave := StoreGlobalsCode(c.f, globals),
                         if NeedsFrame(c.f) then LeaveCode(c.f, c.size, c.f.hasCall) else [];
    var first := [Lab(ExitLabel(c.name))];
    var t1 := Run(stores, t);
    y := Run(leave, t1);
    m := |first + stores + leave| + 1;
    StoresRun(c, constants, globals, s0, u, r, t);
    FrameLeft(c, constants, globals, s0, u, r, t1);
    CallIsDone(c, s0, u, r, t1, y);
    assert c.after == (first + stores + leave) + [Ret];
    RunAppend(first, stores, t);
    RunAppend(first + stores, leave, t);
    Run1(Lab(ExitLabel(c.name)), t);
    AfterStraight(c, globals);
    ExecStraight(p, first + stores + leave, [Ret], t, calls);
    ExecSplit(p, first + stores + leave + [Ret], t, |first + stores + leave|, 1, calls);
    ReturnLine(p, y, calls);
  }

  lemma ReturnLine(p: seq<Instr>, y: State, calls: Calls)
    ensures Exec(p, [Ret], y, 1, calls) == Exit(Returns, y)
  {
  }

  lemma AfterStraight(c: Unit, globals: seq<string>)
    ensures AllStraight([Lab(ExitLabel(c.name))] + StoreGlobalsCode(c.f, globals) +
                        (if NeedsFrame(c.f) then LeaveCode(c.f, c.size, c.f.hasCall) else []))
  {
    hide StoreGlobalsCode, LeaveCode;
    LoadsShape(c.f, [], globals);
    LeaveStraight(c.f, c.size, c.f.hasCall);
  }

  lemma LeaveStraight(f: StackFrame, size: int, restoreRa: bool)
    ensures AllStraight(LeaveCode(f, size, restoreRa))
  {
  }

  lemma FrameLeft(c: Unit, constants: seq<i32>, globals: seq<string>, s0: State, u: State, r: CallResult, t: State)
    requires FunctionOk(c, constants, globals, s0) && Entered(c.f, c.size, s0, u) &&
             StoredBack(c, HomeOf(c, s0, u), r, t)
    ensures var y := Run(if NeedsFrame(c.f) then LeaveCode(c.f, c.size, c.f.hasCall) else [], t);
            if NeedsFrame(c.f) then Left(c.f, c.f.hasCall, s0, t, y) else y == t
  {
    hide WellFormed, ChainsSafe, TailsOk, GlobalsKnown, StackRoom, Run, LeaveCode, Entered, FrameHeld, NeedsFrame,
         CallerSaved, HomeOf, Left, GlobalsInMemory, AfterCode, RoomFor, R, FrameAddress;
    RunEmpty(t);
    if NeedsFrame(c.f) {
      EnteredHere(c, constants, globals, s0);
      StillSaved(c, s0, u, t);
      LeaveRun(c.f, c.size, c.f.hasCall, s0, t);
    }
  }

  // --------------------------------------------------------------------------
  // The whole function
  // --------------------------------------------------------------------------

  /** Where the stack pointer is when a function entered in s0 makes its calls. */
  function CallerSp(c: Unit, s0: State): i32 { Wrap(R(s0, Sp) - c.size) }

  /** Main result: whenever the function has a result in the intermediate representation, the compiled
      function, entered as its callers enter it, returns that result, leaves the globals in memory, and
      gives back the caller's registers, return address and stack. Its own calls are only assumed to do the
      same where it makes them, below its frame. */
  lemma FunctionReturns(c: Unit, constants: seq<i32>, globals: seq<string>, calls: Calls, icalls: IrCalls,
                        args: Args, genv: Globals, s0: State, n: nat)
    returns (m: nat, y: State)
    requires FunctionOk(c, constants, globals, s0) && CallReady(s0.syms, args, genv, s0) &&
             CallsMatch(calls, icalls, s0.syms, CallerSp(c, s0))
    requires TrustOnRun(c, icalls, 0, Entry(args, genv))
    requires IrRun(c.ir, Loops(c), Leaves(c), icalls, 0, Entry(args, genv), n).Done?
    ensures var p := FunctionCode(c, constants, globals); Exec(p, p, s0, m, calls) == Exit(Returns, y)
    ensures CallDone(s0.syms, IrRun(c.ir, Loops(c), Leaves(c), icalls, 0, Entry(args, genv), n).result, s0, y)
    ensures R(y, Ra) == R(s0, Ra)
  {
    hide WellFormed, ChainsSafe, TailsOk, GlobalsKnown, StackRoom, CodeFrom, Exec, IrRun, Loops, Leaves, BeforeCode,
         AfterCode, CallDone, R, TrustOnRun, ExitHolds, CallsMatch, Run, BodyLabel, HomeOf, Entered, Setting, Related,
         FunctionOk, FunctionCode, CallReady;
    var p, before := FunctionCode(c, constants, globals), BeforeCode(c.name, c.f, c.size, constants, globals);
    var r := IrRun(c.ir, Loops(c), Leaves(c), icalls, 0, Entry(args, genv), n).result;
    var m1, u, w := BodyReached(c, constants, globals, calls, icalls, args, genv, s0);
    assert ChainsSafe(c) by { FunctionChains(c, constants, globals, s0); }
    var m2, t := BodyFollows(c, HomeOf(c, s0, u), p, before, calls, icalls, 0, Entry(args, genv), w, n);
    var m3, y' := AfterRun(c, constants, globals, s0, u, r, t, p, calls);
    ExecSplit(p, p, s0, m1, m2, calls);
    ExecSplit(p, p, s0, m1 + m2, m3, calls);
    m, y := m1 + m2 + m3, y';
  }

  /** From the entry to the first line of the body. */
  lemma BodyReached(c: Unit, constants: seq<i32>, globals: seq<string>, calls: Calls, icalls: IrCalls,
                    args: Args, genv: Globals, s0: State)
    returns (m: nat, u: State, w: State)
    requires FunctionOk(c, constants, globals, s0) && CallReady(s0.syms, args, genv, s0) &&
             CallsMatch(calls, icalls, s0.syms, CallerSp(c, s0))
    ensures Entered(c.f, c.size, s0, u)
    ensures var p, before := FunctionCode(c, constants, globals), BeforeCode(c.name, c.f, c.size, constants, globals);
            && Setting(c, HomeOf(c, s0, u), p, before, calls, icalls)
            && Exec(p, p, s0, m, calls) == Control.At(CodeFrom(c, 0), w)
            && Related(c, HomeOf(c, s0, u), 0, Entry(args, genv), w) && OnPath(c, 0)
  {
    hide WellFormed, ChainsSafe, TailsOk, StackRoom, CodeFrom, Exec, BeforeCode, AfterCode, R, Run, BodyLabel, HomeOf,
         Entered, OnlyIn, LayoutOk, CallsMatch, CallReady, HasBody, Related, IsStraight;
    var p, before := FunctionCode(c, constants, globals), BeforeCode(c.name, c.f, c.size, constants, globals);
    var v;
    u, v, w := EntryRun(c, constants, globals, s0);
    EntryRelated(c, s0, u, v, w, args, genv);
    HasItsBody(c, constants, globals, s0);
    assert LayoutOk(c, HomeOf(c, s0, u)) by { LayoutHere(c, s0, u); }
    assert GlobalsKnown(c, HomeOf(c, s0, u)) by { KnownFrom(c, s0, u); }
    assert HomeOf(c, s0, u).syms == s0.syms && HomeOf(c, s0, u).sp == CallerSp(c, s0) by { HomeSymbols(c, s0, u); }
    var lines := before + [Lab(BodyLabel(c.name))];
    assert p == lines + CodeFrom(c, 0);
    m := |lines|;
    BeforeShape(c, constants, globals);
    assert AllStraight(lines) by { StraightLabel(before, BodyLabel(c.name)); }
    ExecStraight(p, lines, CodeFrom(c, 0), s0, calls);
  }

  lemma FunctionChains(c: Unit, constants: seq<i32>, globals: seq<string>, s0: State)
    requires FunctionOk(c, constants, globals, s0)
    ensures ChainsSafe(c)
  {
  }

  lemma StraightLabel(code: seq<Instr>, l: string)
    requires AllStraight(code)
    ensures AllStraight(code + [Lab(l)])
  {
  }

  lemma LayoutHere(c: Unit, s0: State, u: State)
    requires WellFormed(c) && StackRoom(c, s0)
    ensures LayoutOk(c, HomeOf(c, s0, u))
  {
    hide TablesFor, StackRoom;
    LayoutFromFrame(c, s0, u);
  }

  lemma HomeSymbols(c: Unit, s0: State, u: State)
    ensures HomeOf(c, s0, u).syms == s0.syms && HomeOf(c, s0, u).top == R(s0, Sp) && HomeOf(c, s0, u).start == u
    ensures HomeOf(c, s0, u).sp == CallerSp(c, s0)
  {
  }

  lemma KnownFrom(c: Unit, s0: State, u: State)
    requires GlobalsKnown(c, HomeOf(c, s0, s0))
    ensures GlobalsKnown(c, HomeOf(c, s0, u))
  {
    hide Locals;
  }

  // --------------------------------------------------------------------------
  // A tail call to another function
  // --------------------------------------------------------------------------

  /** The caller's registers and stack are as at entry. */
  ghost predicate CallerRestored(s0: State, y: State)
  {
    && (forall n :: n < 12 ==> R(y, S(n)) == R(s0, S(n))) && R(y, Sp) == R(s0, Sp) && R(y, Ra) == R(s0, Ra)
    && forall a :: Unsigned(a) >= Unsigned(R(s0, Sp)) && (forall g :: g in s0.syms ==> s0.syms[g] != a) ==>
         Load(y, a) == Load(s0, a)
  }

  /** What the callee does for the function it was tail-called from, it has done for that function's
      caller. */
  lemma TailResult(s0: State, y: State, z: State, r: CallResult)
    requires y.syms == s0.syms && CallerRestored(s0, y) && CallDone(s0.syms, r, y, z)
    ensures CallDone(s0.syms, r, s0, z)
  {
    hide GlobalsInMemory, R, Load;
    forall a | Unsigned(a) >= Unsigned(R(s0, Sp)) && (forall g :: g in s0.syms ==> s0.syms[g] != a)
      ensures Load(z, a) == Load(s0, a)
    {
      assert Load(z, a) == Load(y, a) == Load(s0, a);
    }
  }

  /** Where the intermediate run reaches a tail call to another function, the compiled function gets to
      the jump with its frame gone, its arguments staged and its caller's state restored, return address
      included. */
  lemma FunctionTailCalls(c: Unit, constants: seq<i32>, globals: seq<string>, calls: Calls, icalls: IrCalls,
                          args: Args, genv: Globals, s0: State, n: nat)
    returns (m: nat, rest: seq<Instr>, y: State)
    requires FunctionOk(c, constants, globals, s0) && CallReady(s0.syms, args, genv, s0) &&
             CallsMatch(calls, icalls, s0.syms, CallerSp(c, s0))
    requires TrustOnRun(c, icalls, 0, Entry(args, genv))
    requires var x := IrRun(c.ir, Loops(c), Leaves(c), icalls, 0, Entry(args, genv), n);
             x.Goes? && x.i in Leaves(c) && forall k :: k in x.st.args ==> k < 8
    ensures var p := FunctionCode(c, constants, globals);
            var x := IrRun(c.ir, Loops(c), Leaves(c), icalls, 0, Entry(args, genv), n);
            && x.i < |c.ir|
            && Exec(p, p, s0, m, calls) == Control.At([J(NameOf(c.ir[x.i].src1))] + rest, y)
            && CallReady(s0.syms, x.st.args, x.st.globals, y) && CallerRestored(s0, y)
  {
    hide WellFormed, ChainsSafe, TailsOk, GlobalsKnown, StackRoom, CodeFrom, Exec, IrRun, Loops, Leaves, BeforeCode,
         AfterCode, R, Setting, Related, FunctionOk, FunctionCode, CallReady, TrustOnRun, CallsMatch, Run, BodyLabel,
         HomeOf, Entered, CallerRestored, LeaveCode, FusedAt, FusesChain, Alone;
    var p, before := FunctionCode(c, constants, globals), BeforeCode(c.name, c.f, c.size, constants, globals);
    var x := IrRun(c.ir, Loops(c), Leaves(c), icalls, 0, Entry(args, genv), n);
    var m1, u, w := BodyReached(c, constants, globals, calls, icalls, args, genv, s0);
    assert ChainsSafe(c) by { FunctionChains(c, constants, globals, s0); }
    var m2, t := BodyFollows(c, HomeOf(c, s0, u), p, before, calls, icalls, 0, Entry(args, genv), w, n);
    LeafShape(c, constants, globals, s0, x.i);
    var leave := LeaveCode(c.f, c.size, true);
    rest := CodeFrom(c, x.i + 1);
    y := Run(leave, t);
    TailLeft(c, constants, globals, s0, u, x.st, x.i, t);
    LeaveStraight(c.f, c.size, true);
    ExecStraight(p, leave, [J(NameOf(c.ir[x.i].src1))] + rest, t, calls);
    ExecSplit(p, p, s0, m1, m2, calls);
    ExecSplit(p, p, s0, m1 + m2, |leave|, calls);
    m := m1 + m2 + |leave|;
  }

  lemma LeafShape(c: Unit, constants: seq<i32>, globals: seq<string>, s0: State, i: nat)
    requires FunctionOk(c, constants, globals, s0) && i in Leaves(c)
    ensures i < |c.ir| && c.ir[i].op.CALL? && !MidFused(c, i)
    ensures CodeFrom(c, i) == LeaveCode(c.f, c.size, true) + ([J(NameOf(c.ir[i].src1))] + CodeFrom(c, i + 1))
  {
    hide WellFormed, GlobalsKnown, StackRoom, LeaveCode, AfterCode, UseCount, CodeFrom;
    CallsAlone(c, i);
    AloneCode(c, i);
    assert InstCode(c, i) == TailCode(c.f, c.size, NameOf(c.ir[i].src1)) by { hide Alone, FusesChain; }
  }

  lemma CallsAlone(c: Unit, i: nat)
    requires i < |c.ir| && c.ir[i].op.CALL?
    ensures Alone(c, i) && !MidFused(c, i)
  {
    if FusesChain(c, i) { ChainLines(c.ir, i, i); }
  }

  lemma TailLeft(c: Unit, constants: seq<i32>, globals: seq<string>, s0: State, u: State, st: IrState, i: nat, t: State)
    requires FunctionOk(c, constants, globals, s0) && Entered(c.f, c.size, s0, u) && i < |c.ir| && c.ir[i].op.CALL?
    requires Related(c, HomeOf(c, s0, u), i, st, t) && forall k :: k in st.args ==> k < 8
    ensures var y := Run(LeaveCode(c.f, c.size, true), t);
            CallReady(s0.syms, st.args, st.globals, y) && CallerRestored(s0, y)
  {
    hide WellFormed, ChainsSafe, TailsOk, GlobalsKnown, StackRoom, Run, LeaveCode, Entered, FrameHeld, CallerSaved,
         HomeOf, Left, GlobalsInMemory, AfterCode, RoomFor, R, FrameAddress, ConstantsHold, LocalsHold, ParamsHold,
         CallDone, CallReady, CallerRestored, NeedsFrame, GlobalsHold, ArgsHold, LayoutOk;
    var h := HomeOf(c, s0, u);
    EnteredHere(c, constants, globals, s0);
    LayoutHere(c, s0, u);
    assert HasCall(c.ir);
    CallerTables(c, h);
    assert NeedsFrame(c.f) by { CallingNeedsFrame(c.f); }
    StillSaved(c, s0, u, t);
    LeaveRun(c.f, c.size, true, s0, t);
    CallsAreMade(c, h, st, t);
    HomeSymbols(c, s0, u);
    var y := Run(LeaveCode(c.f, c.size, true), t);
    CallIsDone(c, s0, u, CallResult(None, st.globals), t, y) by { StoredNow(c, h, st, t); }
    ReadyAgain(c, s0, st, t, y);
  }

  lemma CallingNeedsFrame(f: StackFrame)
    requires f.hasCall
    ensures NeedsFrame(f)
  {
  }

  lemma StoredNow(c: Unit, h: Home, st: IrState, t: State)
    requires CallReady(h.syms, st.args, st.globals, t) && FrameHeld(c, h, t)
    ensures StoredBack(c, h, CallResult(None, st.globals), t)
  {
    hide GlobalsInMemory, FrameHeld;
  }

  lemma ReadyAgain(c: Unit, s0: State, st: IrState, t: State, y: State)
    requires CallReady(s0.syms, st.args, st.globals, t) && Left(c.f, true, s0, t, y) &&
             (forall k :: k in st.args ==> k < 8)
    requires forall r :: r in c.f.usedCalleeSavedRegisters ==> r.S? && 2 <= r.n < 12
    requires CallDone(s0.syms, CallResult(None, st.globals), s0, y) && R(y, Ra) == R(s0, Ra)
    ensures CallReady(s0.syms, st.args, st.globals, y) && CallerRestored(s0, y)
  {
    hide GlobalsInMemory, Load, R;
    forall k | k in st.args ensures Get(y, StagedAt(y, k)) == st.args[k] {
      assert Get(t, StagedAt(t, k)) == st.args[k];
      assert R(y, A(k)) == R(t, A(k));
    }
  }
}
