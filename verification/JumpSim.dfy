/** Branches, calls and returns against the lines emitted for them. */
module JumpSim {
  import opened Word
  import opened Ir
  import opened IrFlow
  import opened IrMachine
  import opened Rv32
  import opened Frame
  import opened Control
  import opened TempRanges
  import opened Allocation
  import opened Selection
  import opened Compare
  import opened FrameCode
  import opened Body
  import opened PlainCode
  import opened Homes
  import opened BodyFlow
  import opened AllocSim
  import opened BodySim
  import opened ArgSim
  import opened StepSim

  // --------------------------------------------------------------------------
  // Calls
  // --------------------------------------------------------------------------

  /** Nothing live across a call is in a register the callee may use, or below the stack pointer. */
  lemma SurvivesCall(c: Unit, h: Home, i: nat, w: string)
    requires WellFormed(c) && LayoutOk(c, h) && i < |c.ir| && c.ir[i].op.CALL? && LiveAfterInst(c.ir, i, w)
    ensures var q := HomePlace(c.f, h, Local(w));
            match q {
              case InReg(r) => r.S? && r.n < 12
              case InMem(a) => Unsigned(a) >= Unsigned(h.sp) && !IsSymbolAddress(h, a)
            }
  {
    hide TablesOk, DefinitionsSafe, IncomingKept, ScratchFree, LiveAfterInst, NoGlobalClash, LocalOffset, Locals,
         ParamsFirst, DistinctParams, Wrap, IsCandidate, RangesOf;
    if w in c.f.tempRegs { NoTempAcrossBlockEnd(c.ir, w, i); }
    VariableKept(c, h, Local(w), false);
    LiveIsLocal(c.ir, i, w);
    if RegForVar(c.f, w).None? {
      SlotAddress(c, h, w);
      assert FrameFits(c.ir, c.f);
    }
  }

  lemma CallsAreMade(c: Unit, h: Home, st: IrState, s: State)
    requires WellFormed(c) && HasCall(c.ir) && CoreHolds(c, h, st, s)
    ensures CallReady(h.syms, st.args, st.globals, s)
  {
    hide TablesOk, DefinitionsSafe, IncomingKept, ScratchFree, NoGlobalClash, LocalOffset, Locals, TempsOk, FrameFits,
         ParamsFirst, DistinctParams, LabelsReadNothing, SavedCovers, Protected, StackWord, ConstantsHold;
    forall g | g in h.syms ensures Load(s, h.syms[g]) == GlobalValue(st.globals, g) {
      assert HomePlace(c.f, h, Global(g)) == InMem(h.syms[g]);
    }
    forall k | k in st.args ensures Get(s, StagedAt(s, k)) == st.args[k] {
      assert StagedAt(s, k) == ArgPlace(h, k);
    }
  }

  /** A call keeps the frame, the constants and, with the globals it returns, the globals. */
  lemma CoreAfterCall(c: Unit, h: Home, st: IrState, s: State, u: State, r: CallResult)
    requires WellFormed(c) && LayoutOk(c, h) && HasCall(c.ir) && CoreHolds(c, h, st, s) && CallDone(h.syms, r, s, u)
    ensures CoreHolds(c, h, st.(globals := r.globals, args := map[]), u)
  {
    hide WellFormed, LayoutOk, GlobalsHold, FrameHeld, ConstantsHold, CallDone;
    CallerTables(c, h);
    assert FrameHeld(c, h, u) by { FrameAfterCall(c, h, s, u, r); }
    assert ConstantsHold(c.f, u) by { ConstantsAfterCall(c, h, s, u, r); }
    assert GlobalsHold(c, h, st.(globals := r.globals), u) by { GlobalsAfterCall(c, h, st, s, u, r); }
    GlobalsOnly(c, h, st.(globals := r.globals), u);
  }

  lemma GlobalsOnly(c: Unit, h: Home, st: IrState, u: State)
    requires GlobalsHold(c, h, st, u)
    ensures GlobalsHold(c, h, st.(args := map[]), u)
  {
    hide HomePlace;
  }

  /** In a function that calls, constants are in saved registers, globals in memory, and the protected
      words above the stack pointer. */
  lemma CallerTables(c: Unit, h: Home)
    requires WellFormed(c) && LayoutOk(c, h) && HasCall(c.ir)
    ensures forall k :: k in c.f.constantRegAlloc ==> c.f.constantRegAlloc[k].S?
    ensures c.f.globalRegAlloc == map[] && c.f.hasCall
    ensures forall a :: Protected(c, h, a) ==> Unsigned(a) >= Unsigned(h.sp)
  {
    hide TablesOk, DefinitionsSafe, IncomingKept, ScratchFree, NoGlobalClash, LocalOffset, Locals, TempsOk,
         ParamsFirst, DistinctParams, LabelsReadNothing, SavedCovers, StackWord;
  }

  lemma FrameAfterCall(c: Unit, h: Home, s: State, u: State, r: CallResult)
    requires FrameHeld(c, h, s) && CallDone(h.syms, r, s, u) && c.f.hasCall
    requires forall a :: Protected(c, h, a) ==> Unsigned(a) >= Unsigned(h.sp)
    ensures FrameHeld(c, h, u)
  {
    hide GlobalsInMemory;
    forall a | Protected(c, h, a) ensures Load(u, a) == Load(h.start, a) {
      assert !IsSymbolAddress(h, a);
    }
  }

  lemma ConstantsAfterCall(c: Unit, h: Home, s: State, u: State, r: CallResult)
    requires ConstantsHold(c.f, s) && CallDone(h.syms, r, s, u)
    requires forall k :: k in c.f.constantRegAlloc ==> c.f.constantRegAlloc[k].S?
    ensures ConstantsHold(c.f, u)
  {
  }

  lemma GlobalsAfterCall(c: Unit, h: Home, st: IrState, s: State, u: State, r: CallResult)
    requires CallDone(h.syms, r, s, u) && c.f.globalRegAlloc == map[]
    ensures GlobalsHold(c, h, st.(globals := r.globals), u)
  {
    forall g | g in h.syms ensures Get(u, HomePlace(c.f, h, Global(g))) == GlobalValue(r.globals, g) {
      assert HomePlace(c.f, h, Global(g)) == InMem(h.syms[g]);
    }
  }

  lemma OthersAfterCall(c: Unit, h: Home, i: nat, st: IrState, s: State, u: State, r: CallResult)
    requires WellFormed(c) && LayoutOk(c, h) && i < |c.ir| && c.ir[i].op.CALL? && FrameHeld(c, h, s)
    requires OthersHold(c, h, i, st, s) && CallDone(h.syms, r, s, u)
    ensures OthersHold(c, h, i, st.(globals := r.globals, args := map[]), u)
  {
    hide WellFormed, LayoutOk, HomePlace, LiveAfterInst, Protected, GlobalsInMemory, Defines;
    forall w | w in st.locals && LiveAfterInst(c.ir, i, w) && !Defines(c.ir[i], w)
      ensures Get(u, HomePlace(c.f, h, Local(w))) == st.locals[w]
    {
      SurvivesCall(c, h, i, w);
    }
  }

  lemma PointerHeld(c: Unit, h: Home, s: State)
    requires FrameHeld(c, h, s)
    ensures R(s, Sp) == h.sp
  {
  }

  lemma StepCall(c: Unit, h: Home, p: seq<Instr>, before: seq<Instr>, calls: Calls, icalls: IrCalls, i: nat,
                 st: IrState, s: State,
                 r: CallResult)
    returns (m: nat, t: State)
    requires Setting(c, h, p, before, calls, icalls) && Related(c, h, i, st, s) && i < |c.ir| && Alone(c, i)
    requires c.ir[i].op.CALL? && c.ir[i].src1.Func? && i !in c.tails && InText(c, i)
    requires icalls(c.ir[i].src1.name, st.args, st.globals) == Some(r)
    requires IsVariable(c.ir[i].dest) ==> r.value.Some?
    ensures var st' := st.(globals := r.globals, args := map[]);
            Matches(c, h, p, calls, i, s, i + 1,
                    if IsVariable(c.ir[i].dest) then Assign(st', c.ir[i].dest, r.value.value) else st', m, t)
  {
    hide WellFormed, LayoutOk, GlobalsKnown, HomePlace, Written, LocalsHold, ParamsHold, OthersHold, Run, StoreCode,
         HasBody, FusedAt, FusesChain, CodeFrom, Exec, Follows, GlobalsHold, ArgsHold, FrameHeld, ConstantsHold,
         GlobalsInMemory, Known, Plain;
    var name, dest := c.ir[i].src1.name, c.ir[i].dest;
    assert HasCall(c.ir);
    CallsAreMade(c, h, st, s);
    assert R(s, Sp) == h.sp by { PointerHeld(c, h, s); }
    var u := calls(name, s);
    assert CallDone(h.syms, r, s, u);
    CoreAfterCall(c, h, st, s, u, r);
    OthersFromLocals(c, h, i, st, s);
    OthersAfterCall(c, h, i, st, s, u, r);
    NextFollows(c.ir, i);
    var st' := st.(globals := r.globals, args := map[]);
    var store := if IsVariable(dest) then StoreCode(c.f, A(0), dest) else [];
    OperandPlain(c.f, dest, A(0));
    CallLine(c, p, i, s, calls, store);
    m, t := 1 + |store|, Run(store, u);
    if IsVariable(dest) {
      ResultStored(c, h, dest, i, u);
      CallLineKeepsSaved(c, i, name, store, u);
      DefinitionKeeps(c, h, i, st', u, t, r.value.value, false);
      NoneLeft(c, i, Assign(st', dest, r.value.value), h, i + 1, t);
    } else {
      RunEmpty(u);
      LocalsFromOthers(c, h, i, i + 1, st', u);
      NoneLeft(c, i, st', h, i + 1, t);
    }
  }

  lemma CallLineKeepsSaved(c: Unit, i: nat, name: string, store: seq<Instr>, u: State)
    requires WellFormed(c) && InText(c, i) && i < |c.ir| && Alone(c, i) && c.ir[i].op.CALL? && i !in c.tails
    requires store == if IsVariable(c.ir[i].dest) then StoreCode(c.f, A(0), c.ir[i].dest) else []
    ensures SavedSame(c.f, u, Run(store, u))
  {
    hide CodeFrom, Run, TablesFor, SavedSame, SavedCovers, Alone, StoreCode;
    AloneCode(c, i);
    assert forall l :: l in store ==> l in InstCode(c, i);
    hide InstCode;
    assert forall l :: l in store ==> l in CodeFrom(c, i);
    TextKeepsSaved(c, store, u);
  }

  lemma ResultStored(c: Unit, h: Home, dest: Operand, i: nat, u: State)
    requires WellFormed(c) && GlobalsKnown(c, h) && i < |c.ir| && dest == c.ir[i].dest && IsVariable(dest) &&
             FrameHeld(c, h, u)
    ensures Written(u, Run(StoreCode(c.f, A(0), dest), u), HomePlace(c.f, h, dest), R(u, A(0)), false)
  {
    hide WellFormed, Run, StoreCode, HomePlace, PlaceOf, FrameHeld, OperandOk, Known;
    KnownHere(c, h, i);
    KnownOk(c, h, dest);
    PlaceIsHome(c, h, u, dest);
    StoreCorrect(c.f, A(0), dest, u);
  }

  /** A call line, then straight code. */
  lemma CallLine(c: Unit, p: seq<Instr>, i: nat, s: State, calls: Calls, store: seq<Instr>)
    requires i < |c.ir| && c.ir[i].op.CALL? && c.ir[i].src1.Func? && i !in c.tails && Alone(c, i)
    requires store == if IsVariable(c.ir[i].dest) then StoreCode(c.f, A(0), c.ir[i].dest) else []
    requires AllPlain(StoreCode(c.f, A(0), c.ir[i].dest))
    ensures var u := calls(c.ir[i].src1.name, s);
            Exec(p, CodeFrom(c, i), s, 1 + |store|, calls) == At(CodeFrom(c, i + 1), Run(store, u))
  {
    hide StoreCode, Alone, Run, CodeFrom;
    var name := c.ir[i].src1.name;
    var u := calls(name, s);
    AloneCode(c, i);
    assert CodeFrom(c, i) == [Call(name)] + (store + CodeFrom(c, i + 1));
    assert ([Call(name)] + (store + CodeFrom(c, i + 1)))[1..] == store + CodeFrom(c, i + 1);
    ExecStraight(p, store, CodeFrom(c, i + 1), u, calls);
  }

  /** A self tail call: the staged arguments are the parameters of the next round. */
  lemma StepLoop(c: Unit, h: Home, p: seq<Instr>, before: seq<Instr>, calls: Calls, icalls: IrCalls, i: nat,
                 st: IrState, s: State)
    returns (m: nat, t: State)
    requires Setting(c, h, p, before, calls, icalls) && Related(c, h, i, st, s) && i < |c.ir| && Alone(c, i)
    requires i in Loops(c)
    ensures Matches(c, h, p, calls, i, s, 0, Entry(st.args, st.globals), m, t)
  {
    hide WellFormed, LayoutOk, GlobalsKnown, HomePlace, HasBody, CallsMatch, ConstantsHold, FrameHeld, BodyLabel,
         CodeFrom;
    m, t := 2, s;
    LoopLines(c, p, before, i, s, calls);
    assert ParamCount(c) <= 8;
    assert GlobalsHold(c, h, Entry(st.args, st.globals), s) by { hide GlobalValue; }
  }

  lemma LoopLines(c: Unit, p: seq<Instr>, before: seq<Instr>, i: nat, s: State, calls: Calls)
    requires HasBody(c, p, before) && i < |c.ir| && i in Loops(c) && c.ir[i].op.CALL? && Alone(c, i) && !c.draft
    ensures Exec(p, CodeFrom(c, i), s, 2, calls) == At(CodeFrom(c, 0), s)
  {
    hide HasBody, Alone, BodyLabel;
    BodyLands(c, p, before, s);
    LoopCode(c, i);
    hide CodeFrom, InstCode, Loops;
    ExecOne(p, Lab(BodyLabel(c.name)), CodeFrom(c, 0), s, calls);
  }

  lemma LoopCode(c: Unit, i: nat)
    requires i < |c.ir| && i in Loops(c) && c.ir[i].op.CALL? && Alone(c, i) && !c.draft
    ensures CodeFrom(c, i) == [J(BodyLabel(c.name))] + CodeFrom(c, i + 1)
  {
    hide BodyLabel, Alone, TailCode, CodeFrom;
    AloneCode(c, i);
    assert InstCode(c, i) == [J(BodyLabel(c.name))];
  }

  // --------------------------------------------------------------------------
  // Jumps and branches
  // --------------------------------------------------------------------------

  /** A jump line at the head of the code. */
  lemma StepJump(c: Unit, h: Home, p: seq<Instr>, before: seq<Instr>, calls: Calls, icalls: IrCalls, i: nat,
                 st: IrState, s: State)
    returns (m: nat, t: State)
    requires Setting(c, h, p, before, calls, icalls) && Related(c, h, i, st, s) && i < |c.ir| && Alone(c, i)
    requires c.ir[i].op.BRANCH? && c.ir[i].dest.Label? && LabelPosition(c.ir, c.ir[i].dest.name).Somewhere?
    ensures Matches(c, h, p, calls, i, s, LabelPosition(c.ir, c.ir[i].dest.name).at, st, m, t)
  {
    hide WellFormed, LayoutOk, GlobalsKnown, CoreHolds, LocalsHold, ParamsHold, OthersHold, HasBody, CallsMatch, Exec,
         CodeFrom;
    m, t := 1, s;
    var l := c.ir[i].dest.name;
    JumpLine(c, p, before, i, s, calls);
    OthersFromLocals(c, h, i, st, s);
    LocalsFromOthers(c, h, i, LabelPosition(c.ir, l).at, st, s);
    NoneLeft(c, i, st, h, LabelPosition(c.ir, l).at, s);
  }

  lemma JumpLine(c: Unit, p: seq<Instr>, before: seq<Instr>, i: nat, s: State, calls: Calls)
    requires WellFormed(c) && HasBody(c, p, before) && i < |c.ir| && Alone(c, i)
    requires c.ir[i].op.BRANCH? && c.ir[i].dest.Label? && LabelPosition(c.ir, c.ir[i].dest.name).Somewhere?
    ensures Exec(p, CodeFrom(c, i), s, 1, calls) == At(CodeFrom(c, LabelPosition(c.ir, c.ir[i].dest.name).at), s)
  {
    hide WellFormed, HasBody, Alone, Goto, CodeFrom;
    JumpLands(c, p, before, c.ir[i].dest, s);
    AloneCode(c, i);
    assert InstCode(c, i) == [J(c.ir[i].dest.name)];
    hide InstCode;
    assert ([J(c.ir[i].dest.name)] + CodeFrom(c, i + 1))[0] == J(c.ir[i].dest.name);
  }

  /** Where a branch on v leads. */
  function BranchTarget(ir: seq<IrInst>, i: nat, v: i32): nat
    requires i < |ir| && ir[i].dest.Label?
  {
    if (v == 0) == ir[i].op.BEQZ? && LabelPosition(ir, ir[i].dest.name).Somewhere? then
      LabelPosition(ir, ir[i].dest.name).at
    else i + 1
  }

  /** The branch line itself, when its register holds the condition. */
  lemma BranchLine(c: Unit, p: seq<Instr>, before: seq<Instr>, i: nat, r: Reg, v: i32, s: State, calls: Calls)
    requires WellFormed(c) && HasBody(c, p, before) && i < |c.ir| && (c.ir[i].op.BEQZ? || c.ir[i].op.BNEZ?)
    requires c.ir[i].dest.Label? && ((v == 0) == c.ir[i].op.BEQZ? ==> LabelPosition(c.ir, c.ir[i].dest.name).Somewhere?)
    requires R(s, r) == v
    ensures Exec(p, [BrZ(BranchTest(c.ir[i].op), r, NameOf(c.ir[i].dest))] + CodeFrom(c, i + 1), s, 1, calls) ==
            At(CodeFrom(c, BranchTarget(c.ir, i, v)), s)
  {
    hide WellFormed, HasBody, CodeFrom, Goto, R;
    var line := BrZ(BranchTest(c.ir[i].op), r, NameOf(c.ir[i].dest));
    assert ([line] + CodeFrom(c, i + 1))[1..] == CodeFrom(c, i + 1);
    if (v == 0) == c.ir[i].op.BEQZ? { JumpLands(c, p, before, c.ir[i].dest, s); }
  }

  lemma StepBranch(c: Unit, h: Home, p: seq<Instr>, before: seq<Instr>, calls: Calls, icalls: IrCalls, i: nat,
                   st: IrState, s: State,
                   v: i32)
    returns (m: nat, t: State)
    requires Setting(c, h, p, before, calls, icalls) && Related(c, h, i, st, s) && i < |c.ir| && Alone(c, i)
    requires (c.ir[i].op.BEQZ? || c.ir[i].op.BNEZ?) && c.ir[i].dest.Label? && Eval(st, c.ir[i].src1) == Some(v)
    requires (v == 0) == c.ir[i].op.BEQZ? ==> LabelPosition(c.ir, c.ir[i].dest.name).Somewhere?
    ensures Matches(c, h, p, calls, i, s, BranchTarget(c.ir, i, v), st, m, t)
  {
    hide WellFormed, LayoutOk, GlobalsKnown, LocalsHold, ParamsHold, OthersHold, HasBody, Alone, Run, ConditionCode,
         OperandOk, CallsMatch, TailsOk, BranchTarget, Eval, Exec, GlobalsHold, ArgsHold, FrameHeld, ConstantsHold, R,
         Val, CodeFrom;
    var o := c.ir[i].src1;
    EvalIsVal(c, h, i, st, s, o);
    t := Run(ConditionCode(c.f, o), s);
    m := |ConditionCode(c.f, o)| + 1;
    ConditionLoaded(c, o, s, v);
    RelatedSame(c, h, i, st, s, t);
    BranchLines(c, p, before, i, s, v, calls);
    BranchRelated(c, h, i, st, t, v);
  }

  function ConditionCode(f: StackFrame, o: Operand): seq<Instr>
  {
    if RegForOperand(f, o).Some? then [] else LoadCode(f, o, T(0))
  }

  function ConditionReg(f: StackFrame, o: Operand): Reg { RegForOperand(f, o).GetOr(T(0)) }

  lemma BranchLines(c: Unit, p: seq<Instr>, before: seq<Instr>, i: nat, s: State, v: i32, calls: Calls)
    requires WellFormed(c) && HasBody(c, p, before) && i < |c.ir| && Alone(c, i) &&
             (c.ir[i].op.BEQZ? || c.ir[i].op.BNEZ?)
    requires c.ir[i].dest.Label? && ((v == 0) == c.ir[i].op.BEQZ? ==> LabelPosition(c.ir, c.ir[i].dest.name).Somewhere?)
    requires AllPlain(ConditionCode(c.f, c.ir[i].src1))
    requires R(Run(ConditionCode(c.f, c.ir[i].src1), s), ConditionReg(c.f, c.ir[i].src1)) == v
    ensures Exec(p, CodeFrom(c, i), s, |ConditionCode(c.f, c.ir[i].src1)| + 1, calls) ==
            At(CodeFrom(c, BranchTarget(c.ir, i, v)), Run(ConditionCode(c.f, c.ir[i].src1), s))
  {
    hide WellFormed, HasBody, Alone, Run, BranchTarget, Exec, R, LoadCode, CodeFrom;
    var load := ConditionCode(c.f, c.ir[i].src1);
    var line := BrZ(BranchTest(c.ir[i].op), ConditionReg(c.f, c.ir[i].src1), NameOf(c.ir[i].dest));
    var rest := [line] + CodeFrom(c, i + 1);
    assert CodeFrom(c, i) == load + rest by {
      AloneCode(c, i);
      assert InstCode(c, i) == load + [line];
    }
    hide ConditionCode, ConditionReg, BranchTest;
    ExecStraight(p, load, rest, s, calls);
    ExecSplit(p, load + rest, s, |load|, 1, calls);
    BranchLine(c, p, before, i, ConditionReg(c.f, c.ir[i].src1), v, Run(load, s), calls);
  }

  lemma ConditionLoaded(c: Unit, o: Operand, s: State, v: i32)
    requires IsValue(o) && OperandOk(c.f, o) && ConstantsHold(c.f, s) && Val(c.f, s, o) == v
    ensures var t := Run(ConditionCode(c.f, o), s); SameBut(s, t, false) && R(t, ConditionReg(c.f, o)) == v
    ensures AllPlain(ConditionCode(c.f, o))
  {
    hide Run, LoadCode, LocalOffset, Plain;
    RunEmpty(s);
    LoadCorrect(c.f, o, T(0), s);
    OperandPlain(c.f, o, T(0));
  }

  lemma BranchRelated(c: Unit, h: Home, i: nat, st: IrState, t: State, v: i32)
    requires WellFormed(c) && Related(c, h, i, st, t) && i < |c.ir| && (c.ir[i].op.BEQZ? || c.ir[i].op.BNEZ?) &&
             c.ir[i].dest.Label?
    ensures Related(c, h, BranchTarget(c.ir, i, v), st, t)
  {
    hide WellFormed, CoreHolds, LocalsHold, ParamsHold, OthersHold;
    OthersFromLocals(c, h, i, st, t);
    LocalsFromOthers(c, h, i, BranchTarget(c.ir, i, v), st, t);
    NoneLeft(c, i, st, h, BranchTarget(c.ir, i, v), t);
  }

  /** A position that computes nothing. */
  lemma StepSkip(c: Unit, h: Home, p: seq<Instr>, before: seq<Instr>, calls: Calls, icalls: IrCalls, i: nat,
                 st: IrState, s: State)
    returns (m: nat, t: State)
    requires Setting(c, h, p, before, calls, icalls) && Related(c, h, i, st, s) && i < |c.ir| && Alone(c, i)
    requires !c.ir[i].dest.Local?
    requires c.ir[i].op.LABEL? || c.ir[i].op.FUNC_BEGIN? || c.ir[i].op.FUNC_END? || c.ir[i].op.GLOBAL_VAR_DECL? ||
             c.ir[i].op.LOCAL_VAR_DECL?
    ensures Matches(c, h, p, calls, i, s, i + 1, st, m, t)
  {
    hide WellFormed, LayoutOk, GlobalsKnown, CoreHolds, LocalsHold, ParamsHold, OthersHold, HasBody, Alone, CallsMatch,
         TailsOk, Exec;
    m, t := |InstCode(c, i)|, s;
    AloneCode(c, i);
    hide CodeFrom;
    LabelRun(c, i, s);
    hide InstCode;
    ExecStraight(p, InstCode(c, i), CodeFrom(c, i + 1), s, calls);
    OthersFromLocals(c, h, i, st, s);
    NextFollows(c.ir, i);
    LocalsFromOthers(c, h, i, i + 1, st, s);
    NoneLeft(c, i, st, h, i + 1, s);
  }

  lemma LabelRun(c: Unit, i: nat, s: State)
    requires i < |c.ir| && !c.ir[i].dest.Local?
    requires c.ir[i].op.LABEL? || c.ir[i].op.FUNC_BEGIN? || c.ir[i].op.FUNC_END? || c.ir[i].op.GLOBAL_VAR_DECL? ||
             c.ir[i].op.LOCAL_VAR_DECL?
    ensures Run(InstCode(c, i), s) == s
    ensures forall x :: x in InstCode(c, i) ==> IsStraight(x)
  {
    hide Run;
    RunEmpty(s);
    if c.ir[i].op.LABEL? { Run1(Lab(NameOf(c.ir[i].dest)), s); }
  }

  // --------------------------------------------------------------------------
  // Return
  // --------------------------------------------------------------------------

  /** What holds where the function leaves its body. */
  ghost predicate ExitHolds(c: Unit, h: Home, r: CallResult, t: State)
  {
    && FrameHeld(c, h, t) && (r.value.Some? ==> R(t, A(0)) == r.value.value)
    && forall g :: g in h.syms ==> Get(t, HomePlace(c.f, h, Global(g))) == GlobalValue(r.globals, g)
  }

  lemma StepReturn(c: Unit, h: Home, p: seq<Instr>, before: seq<Instr>, calls: Calls, icalls: IrCalls, i: nat,
                   st: IrState, s: State)
    returns (m: nat, t: State)
    requires Setting(c, h, p, before, calls, icalls) && Related(c, h, i, st, s) && i < |c.ir| && Alone(c, i)
    requires c.ir[i].op.RETURN? && !AfterTail(c, i) && (c.ir[i].dest.NoOperand? || Eval(st, c.ir[i].dest).Some?)
    ensures var value := if c.ir[i].dest.NoOperand? then None else Some(Eval(st, c.ir[i].dest).value);
            Exec(p, CodeFrom(c, i), s, m, calls) == At(c.after, t) && ExitHolds(c, h, CallResult(value, st.globals), t)
  {
    hide WellFormed, LayoutOk, GlobalsKnown, LocalsHold, ParamsHold, HasBody, Alone, CallsMatch, TailsOk, Run,
         LoadCode, OperandOk, Eval, AfterTail, Goto, HomePlace, Exec, Val, CodeFrom;
    var o := c.ir[i].dest;
    var load := if o.NoOperand? then [] else LoadCode(c.f, o, A(0));
    m, t := |load| + 1, Run(load, s);
    if !o.NoOperand? { EvalIsVal(c, h, i, st, s, o); }
    assert AllPlain(load) by { OperandPlain(c.f, o, A(0)); }
    assert CodeFrom(c, i) == load + ([J(ExitLabel(c.name))] + CodeFrom(c, i + 1)) by {
      AloneCode(c, i);
      assert InstCode(c, i) == load + [J(ExitLabel(c.name))];
    }
    hide CodeFrom;
    ExecStraight(p, load, [J(ExitLabel(c.name))] + CodeFrom(c, i + 1), s, calls);
    ExecSplit(p, load + ([J(ExitLabel(c.name))] + CodeFrom(c, i + 1)), s, |load|, 1, calls);
    ExitLands(c, p, before, t);
    ExitLine(c, p, i, t, calls);
    RunEmpty(s);
    if !o.NoOperand? {
      LoadCorrect(c.f, o, A(0), s);
      ReturnHeld(c, h, st, s, t, Val(c.f, s, o));
    }
  }

  lemma ExitLine(c: Unit, p: seq<Instr>, i: nat, t: State, calls: Calls)
    ensures Exec(p, [J(ExitLabel(c.name))] + CodeFrom(c, i + 1), t, 1, calls) == Goto(p, ExitLabel(c.name), t)
  {
    hide CodeFrom, HasLabel;
  }

  /** Loading the result into a0 disturbs no global and nothing of the frame. */
  lemma ReturnHeld(c: Unit, h: Home, st: IrState, s: State, t: State, v: i32)
    requires WellFormed(c) && CoreHolds(c, h, st, s) && Computed(s, t, A(0), v, false)
    ensures FrameHeld(c, h, t)
    ensures forall g :: g in h.syms ==> Get(t, HomePlace(c.f, h, Global(g))) == GlobalValue(st.globals, g)
  {
    hide TablesOk, DefinitionsSafe, IncomingKept, ScratchFree, NoGlobalClash, LocalOffset, Locals, TempsOk, FrameFits,
         ParamsFirst, DistinctParams, LabelsReadNothing, SavedCovers, Protected, ConstantsHold, ArgsHold;
    forall g | g in h.syms ensures Get(t, HomePlace(c.f, h, Global(g))) == GlobalValue(st.globals, g) {
      VariableHome(c, h, Global(g), false);
    }
  }
}
