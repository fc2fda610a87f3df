/** One instruction of the intermediate representation against the lines emitted for it. */
module StepSim {
  import opened Word
  import opened Ir
  import opened IrFlow
  import opened IrMachine
  import opened Rv32
  import opened Frame
  import opened Control
  import opened Liveness
  import opened TempRanges
  import opened Allocation
  import opened Body
  import opened PlainCode
  import opened Homes
  import opened BodyFlow
  import opened AllocSim
  import opened BodySim
  import opened ArgSim

  // --------------------------------------------------------------------------
  // What callees and tail calls promise
  // --------------------------------------------------------------------------

  ghost predicate GlobalsInMemory(syms: map<string, i32>, globals: Globals, s: State)
  {
    forall g :: g in syms ==> Load(s, syms[g]) == GlobalValue(globals, g)
  }

  /** Where a caller leaves argument k. */
  function StagedAt(s: State, k: nat): Place { if k < 8 then InReg(A(k)) else InMem(StackWord(R(s, Sp), k)) }

  /** The state a call is made in. */
  ghost predicate CallReady(syms: map<string, i32>, args: Args, globals: Globals, s: State)
  {
    && s.syms == syms && GlobalsInMemory(syms, globals, s)
    && forall k :: k in args ==> Get(s, StagedAt(s, k)) == args[k]
  }

  /** What a call leaves: the result in a0, the globals in memory, and the caller's registers and stack
      as they were. RISC-V ELF psABI, section 2.1. */
  ghost predicate CallDone(syms: map<string, i32>, r: CallResult, s: State, t: State)
  {
    && t.syms == syms && GlobalsInMemory(syms, r.globals, t)
    && (r.value.Some? ==> R(t, A(0)) == r.value.value)
    && (forall n :: n < 12 ==> R(t, S(n)) == R(s, S(n))) && R(t, Sp) == R(s, Sp)
    && forall a :: Unsigned(a) >= Unsigned(R(s, Sp)) && (forall g :: g in syms ==> syms[g] != a) ==>
         Load(t, a) == Load(s, a)
  }

  /** Every call that has an answer in the intermediate representation is carried out by the machine, when it
      is made with the stack pointer at sp. */
  ghost predicate CallsMatch(calls: Calls, icalls: IrCalls, syms: map<string, i32>, sp: i32)
  {
    forall name, s, args, globals ::
      R(s, Sp) == sp && CallReady(syms, args, globals, s) && icalls(name, args, globals).Some? ==>
        CallDone(syms, icalls(name, args, globals).value, s, calls(name, s))
  }

  /** Tail calls are calls after which only returns remain; a function that calls itself this way takes
      its parameters in registers. */
  ghost predicate TailsOk(c: Unit)
  {
    !c.draft && forall t :: t in c.tails ==>
      && t + 1 < |c.ir| && c.ir[t].op.CALL? && c.ir[t].src1.Func?
      && (forall j :: t < j < |c.ir| ==> c.ir[j].op.RETURN?)
      && (c.ir[t].src1.name == c.name ==> ParamCount(c) <= 8)
  }

  function Loops(c: Unit): set<nat> { set t | t in c.tails && t < |c.ir| && NameOf(c.ir[t].src1) == c.name }

  function Leaves(c: Unit): set<nat> { c.tails - Loops(c) }

  ghost predicate Setting(c: Unit, h: Home, p: seq<Instr>, before: seq<Instr>, calls: Calls, icalls: IrCalls)
  {
    && WellFormed(c) && LayoutOk(c, h) && GlobalsKnown(c, h) && TailsOk(c)
    && HasBody(c, p, before) && CallsMatch(calls, icalls, h.syms, h.sp)
  }

  /** What one step must establish. */
  ghost predicate Matches(c: Unit, h: Home, p: seq<Instr>, calls: Calls, i: nat, s: State, j: nat, st: IrState, m: nat,
                          t: State)
  {
    Exec(p, CodeFrom(c, i), s, m, calls) == At(CodeFrom(c, j), t) && Related(c, h, j, st, t)
  }

  lemma PlainStep(c: Unit, p: seq<Instr>, i: nat, s: State, calls: Calls)
    requires i < |c.ir| && Alone(c, i) && AllPlain(InstCode(c, i))
    ensures Exec(p, CodeFrom(c, i), s, |InstCode(c, i)|, calls) == At(CodeFrom(c, i + 1), Run(InstCode(c, i), s))
  {
    hide InstCode, Alone;
    AloneCode(c, i);
    hide CodeFrom;
    ExecStraight(p, InstCode(c, i), CodeFrom(c, i + 1), s, calls);
  }

  lemma NextFollows(ir: seq<IrInst>, i: nat)
    requires i < |ir| && !ir[i].op.BRANCH? && !ir[i].op.RETURN?
    ensures Follows(ir, i, i + 1)
  {
  }

  // --------------------------------------------------------------------------
  // Instructions that write a variable
  // --------------------------------------------------------------------------

  /** Any code that writes the destination's home takes the relation to the next instruction. */
  lemma DefinitionKeeps(c: Unit, h: Home, i: nat, st: IrState, s: State, t: State, v: i32, spill: bool)
    requires WellFormed(c) && LayoutOk(c, h) && GlobalsKnown(c, h) && SpillAllowed(c, spill)
    requires i < |c.ir| && Follows(c.ir, i, i + 1) && IsVariable(c.ir[i].dest) && !ReadsDest(c.ir[i].op)
    requires CoreHolds(c, h, st, s) && OthersHold(c, h, i, st, s)
    requires Written(s, t, HomePlace(c.f, h, c.ir[i].dest), v, spill) && SavedSame(c.f, s, t)
    requires IsCopy(c.ir[i]) ==> c.ir[i].src1.name in st.locals && st.locals[c.ir[i].src1.name] == v
    ensures CoreHolds(c, h, Assign(st, c.ir[i].dest, v), t) && LocalsHold(c, h, i + 1, Assign(st, c.ir[i].dest, v), t)
  {
    hide WellFormed, LayoutOk, HomePlace, Written, CoreHolds, OthersHold, LocalsHold, Follows, Known, SavedSame,
         FusedAt, FusesChain;
    assert Known(c, h, c.ir[i].dest) by { KnownHere(c, h, i); }
    CoreWritten(c, h, c.ir[i].dest, st, s, t, v, spill);
    LocalsWritten(c, h, i, i + 1, st, s, t, v, spill);
  }

  /** Running an instruction's own lines keeps the saved registers that are not on the save list. */
  lemma LinesKeepSaved(c: Unit, i: nat, code: seq<Instr>, rest: seq<Instr>, s: State)
    requires WellFormed(c) && InText(c, i) && CodeFrom(c, i) == code + rest
    ensures SavedSame(c.f, s, Run(code, s))
  {
    hide CodeFrom, Run, TablesFor, SavedSame, SavedCovers;
    assert forall l :: l in code ==> l in CodeFrom(c, i);
    TextKeepsSaved(c, code, s);
  }

  lemma AloneKeepsSaved(c: Unit, i: nat, s: State)
    requires WellFormed(c) && InText(c, i) && i < |c.ir| && Alone(c, i)
    ensures SavedSame(c.f, s, Run(InstCode(c, i), s))
  {
    hide CodeFrom, Run, WellFormed, InstCode, Alone, InText, SavedSame;
    AloneCode(c, i);
    LinesKeepSaved(c, i, InstCode(c, i), CodeFrom(c, i + 1), s);
  }

  lemma CopiedValue(inst: IrInst, st: IrState)
    requires Computes(inst, st).Some? && IsCopy(inst)
    ensures inst.src1.name in st.locals && st.locals[inst.src1.name] == Computes(inst, st).value
  {
  }

  lemma StepValue(c: Unit, h: Home, p: seq<Instr>, before: seq<Instr>, calls: Calls, icalls: IrCalls, i: nat,
                  st: IrState, s: State)
    returns (m: nat, t: State)
    requires Setting(c, h, p, before, calls, icalls) && Related(c, h, i, st, s) && i < |c.ir| && Alone(c, i)
    requires ComputesValue(c.ir[i]) && Computes(c.ir[i], st).Some? && NonnegHere(c, i, st) && InText(c, i)
    ensures Matches(c, h, p, calls, i, s, i + 1, Assign(st, c.ir[i].dest, Computes(c.ir[i], st).value), m, t)
  {
    hide WellFormed, LayoutOk, GlobalsKnown, HomePlace, Written, CoreHolds, LocalsHold, ParamsHold, OthersHold, Run,
         InstCode, Computes, CallsMatch, HasBody, FusedAt, FusesChain, CodeFrom, Exec, Follows, InText, SavedSame;
    var v := Computes(c.ir[i], st).value;
    var spill := ValueWritten(c, h, i, st, s);
    m, t := |InstCode(c, i)|, Run(InstCode(c, i), s);
    PlainStep(c, p, i, s, calls);
    OthersFromLocals(c, h, i, st, s);
    NextFollows(c.ir, i);
    if IsCopy(c.ir[i]) { CopiedValue(c.ir[i], st); }
    NoParamComputes(c.ir[i], st);
    AloneKeepsSaved(c, i, s);
    DefinitionKeeps(c, h, i, st, s, t, v, spill);
    NoneLeft(c, i, Assign(st, c.ir[i].dest, v), h, i + 1, t);
  }

  lemma NoParamComputes(inst: IrInst, st: IrState)
    requires Computes(inst, st).Some?
    ensures !DeclaresParam(inst) && !inst.src1.NoOperand?
  {
  }

  lemma StepDeclare(c: Unit, h: Home, p: seq<Instr>, before: seq<Instr>, calls: Calls, icalls: IrCalls, i: nat,
                    st: IrState, s: State)
    returns (m: nat, t: State)
    requires Setting(c, h, p, before, calls, icalls) && Related(c, h, i, st, s) && i < |c.ir| && Alone(c, i)
    requires DeclaresParam(c.ir[i]) && i in st.params && InText(c, i)
    ensures Matches(c, h, p, calls, i, s, i + 1, Assign(st, c.ir[i].dest, st.params[i]), m, t)
  {
    hide WellFormed, LayoutOk, GlobalsKnown, HomePlace, Written, CoreHolds, LocalsHold, ParamsHold, OthersHold, Run,
         ParamDeclCode, CallsMatch, HasBody, FusedAt, FusesChain, CodeFrom, Exec, Follows, InText, SavedSame;
    assert Known(c, h, c.ir[i].dest) by { KnownHere(c, h, i); }
    ParamDeclWritten(c, h, i, st, s);
    DeclIndex(c, i);
    assert InstCode(c, i) == ParamDeclCode(c.f, c.ir[i].dest, i);
    m, t := |InstCode(c, i)|, Run(InstCode(c, i), s);
    PlainStep(c, p, i, s, calls);
    OthersFromLocals(c, h, i, st, s);
    NextFollows(c.ir, i);
    AloneKeepsSaved(c, i, s);
    DefinitionKeeps(c, h, i, st, s, t, st.params[i], false);
    ParamsWritten(c, h, i, st, s, t, st.params[i], false);
  }

  lemma KnownHere(c: Unit, h: Home, i: nat)
    requires GlobalsKnown(c, h) && i < |c.ir|
    ensures Known(c, h, c.ir[i].dest) && Known(c, h, c.ir[i].src1) && Known(c, h, c.ir[i].src2)
  {
  }

  /** A local declared without a value: no code, and the old value is forgotten. */
  lemma StepForget(c: Unit, h: Home, p: seq<Instr>, before: seq<Instr>, calls: Calls, icalls: IrCalls, i: nat,
                   st: IrState, s: State)
    returns (m: nat, t: State)
    requires Setting(c, h, p, before, calls, icalls) && Related(c, h, i, st, s) && i < |c.ir| && Alone(c, i)
    requires c.ir[i].op.LOCAL_VAR_DECL? && c.ir[i].dest.Local? && c.ir[i].src1.NoOperand?
    ensures Matches(c, h, p, calls, i, s, i + 1, st.(locals := st.locals - {c.ir[i].dest.name}), m, t)
  {
    hide WellFormed, LayoutOk, HomePlace, Run, CallsMatch, HasBody, Alone, CodeFrom, Exec, PathLive;
    m, t := 0, s;
    RunEmpty(s);
    assert InstCode(c, i) == [];
    PlainStep(c, p, i, s, calls);
    var st' := st.(locals := st.locals - {c.ir[i].dest.name});
    OthersFromLocals(c, h, i, st, s);
    NextFollows(c.ir, i);
    Forgotten(c, h, i, st, s);
    NoneLeft(c, i, st', h, i + 1, s);
  }

  lemma Forgotten(c: Unit, h: Home, i: nat, st: IrState, s: State)
    requires i < |c.ir| && Follows(c.ir, i, i + 1) && OthersHold(c, h, i, st, s) && c.ir[i].dest.Local?
    ensures LocalsHold(c, h, i + 1, st.(locals := st.locals - {c.ir[i].dest.name}), s)
  {
    hide PathLive, HomePlace, Successors;
    forall v ensures !PathLive(c.ir, |c.ir|, v) { NothingLiveAtEnd(c.ir, v); }
  }

  // --------------------------------------------------------------------------
  // Arguments
  // --------------------------------------------------------------------------

  lemma StepArg(c: Unit, h: Home, p: seq<Instr>, before: seq<Instr>, calls: Calls, icalls: IrCalls, i: nat, st: IrState,
                s: State)
    returns (m: nat, t: State)
    requires Setting(c, h, p, before, calls, icalls) && Related(c, h, i, st, s) && i < |c.ir| && Alone(c, i)
    requires c.ir[i].op.PARAM? && c.ir[i].src1.Imm? && c.ir[i].src1.immVal >= 0 && Eval(st, c.ir[i].dest).Some?
    ensures Matches(c, h, p, calls, i, s, i + 1,
                    st.(args := st.args[c.ir[i].src1.immVal := Eval(st, c.ir[i].dest).value]), m, t)
  {
    hide WellFormed, LayoutOk, GlobalsKnown, HomePlace, Written, LocalsHold, ParamsHold, OthersHold, Run, ParamCode,
         Eval, CallsMatch, HasBody, Alone, CodeFrom, Exec, Follows, GlobalsHold, ArgsHold, FrameHeld, ConstantsHold,
         ArgPlace, Val;
    var k, v := c.ir[i].src1.immVal, Eval(st, c.ir[i].dest).value;
    EvalIsVal(c, h, i, st, s, c.ir[i].dest);
    assert HasCall(c.ir) && WORD_BYTES * (k - 7) <= c.f.outgoingArgumentBytes by { ArgFits(c, i); }
    ArgWritten(c, h, c.ir[i].dest, k, s);
    assert InstCode(c, i) == ParamCode(c.f, c.ir[i].dest, k);
    m, t := |InstCode(c, i)|, Run(InstCode(c, i), s);
    PlainStep(c, p, i, s, calls);
    CoreStaged(c, h, st, s, t, k, v);
    OthersFromLocals(c, h, i, st, s);
    OthersStaged(c, h, i, st, s, t, k, v);
    NextFollows(c.ir, i);
    var st' := st.(args := st.args[k := v]);
    assert OthersHold(c, h, i, st', t) by { ArgsDoNotMatter(c, h, i, st, st', t); }
    LocalsFromOthers(c, h, i, i + 1, st', t);
    NoneLeft(c, i, st', h, i + 1, t);
  }

  lemma ArgsDoNotMatter(c: Unit, h: Home, i: nat, st: IrState, st': IrState, t: State)
    requires i < |c.ir| && OthersHold(c, h, i, st, t) && st'.locals == st.locals
    ensures OthersHold(c, h, i, st', t)
  {
  }

  lemma ArgFits(c: Unit, i: nat)
    requires WellFormed(c) && i < |c.ir| && c.ir[i].op.PARAM? && c.ir[i].src1.Imm? && c.ir[i].src1.immVal >= 0
    ensures HasCall(c.ir) && WORD_BYTES * (c.ir[i].src1.immVal - 7) <= c.f.outgoingArgumentBytes
  {
    hide TablesOk, DefinitionsSafe, TempsOk, IncomingKept, ScratchFree, LabelsReadNothing, NoGlobalClash, Locals,
         RegistersSafe;
    if c.ir[i].src1.immVal >= 8 { ArgBound(c.ir, i, |c.ir|); }
  }

  lemma CoreStaged(c: Unit, h: Home, st: IrState, s: State, t: State, k: nat, v: i32)
    requires WellFormed(c) && LayoutOk(c, h) && HasCall(c.ir) && WORD_BYTES * (k - 7) <= c.f.outgoingArgumentBytes
    requires CoreHolds(c, h, st, s) && Written(s, t, ArgPlace(h, k), v, false)
    ensures CoreHolds(c, h, st.(args := st.args[k := v]), t)
  {
    hide WellFormed, LayoutOk, HomePlace, Protected, HasCall;
    ArgPlaceFree(c, h, k);
    hide ArgPlace;
    assert GlobalsHold(c, h, st.(args := st.args[k := v]), t) by {
      forall g | g in h.syms ensures Get(t, HomePlace(c.f, h, Global(g))) == GlobalValue(st.globals, g) {
        ArgApart(c, h, Global(g), k);
        VariableHome(c, h, Global(g), false);
        Untouched(s, t, ArgPlace(h, k), v, false, HomePlace(c.f, h, Global(g)));
      }
    }
    hide GlobalsHold;
    OtherArgs(c, h, st, s, t, k, v);
    hide ArgsHold;
    ConstantsStaged(c, h, s, t, k, v);
    hide ConstantsHold;
    FrameStaged(c, h, s, t, k, v);
  }

  lemma FrameStaged(c: Unit, h: Home, s: State, t: State, k: nat, v: i32)
    requires FrameHeld(c, h, s) && Written(s, t, ArgPlace(h, k), v, false)
    requires ArgPlace(h, k).InMem? ==> !Protected(c, h, ArgPlace(h, k).a)
    ensures FrameHeld(c, h, t)
  {
    hide Protected, StackWord;
  }

  lemma ConstantsStaged(c: Unit, h: Home, s: State, t: State, k: nat, v: i32)
    requires ConstantsHold(c.f, s) && Written(s, t, ArgPlace(h, k), v, false)
    requires forall x :: x in c.f.constantRegAlloc ==> ArgPlace(h, k) != InReg(c.f.constantRegAlloc[x])
    ensures ConstantsHold(c.f, t)
  {
    hide ArgPlace;
    forall x | x in c.f.constantRegAlloc ensures R(t, c.f.constantRegAlloc[x]) == x {
      Untouched(s, t, ArgPlace(h, k), v, false, InReg(c.f.constantRegAlloc[x]));
    }
  }

  lemma OtherArgs(c: Unit, h: Home, st: IrState, s: State, t: State, k: nat, v: i32)
    requires WellFormed(c) && LayoutOk(c, h) && HasCall(c.ir) && WORD_BYTES * (k - 7) <= c.f.outgoingArgumentBytes
    requires ArgsHold(c, h, st, s) && Written(s, t, ArgPlace(h, k), v, false)
    ensures ArgsHold(c, h, st.(args := st.args[k := v]), t)
  {
    hide WellFormed, LayoutOk, HasCall, Written, ArgPlace;
    forall x | x in st.args[k := v] ensures Get(t, ArgPlace(h, x)) == st.args[k := v][x] {
      if x == k {
        Hit(s, t, ArgPlace(h, k), v, false);
      } else {
        ArgPlacesDiffer(c, h, k, x);
        assert PlaceKept(ArgPlace(h, x), false) by { ArgKept(h, x); }
        Untouched(s, t, ArgPlace(h, k), v, false, ArgPlace(h, x));
      }
    }
  }

  lemma ArgKept(h: Home, k: nat)
    ensures PlaceKept(ArgPlace(h, k), false)
  {
  }

  lemma OthersStaged(c: Unit, h: Home, i: nat, st: IrState, s: State, t: State, k: nat, v: i32)
    requires WellFormed(c) && LayoutOk(c, h) && HasCall(c.ir) && WORD_BYTES * (k - 7) <= c.f.outgoingArgumentBytes
    requires i < |c.ir| && OthersHold(c, h, i, st, s) && Written(s, t, ArgPlace(h, k), v, false)
    ensures OthersHold(c, h, i, st, t)
  {
    hide WellFormed, LayoutOk, HomePlace, HasCall, Written, ArgPlace, LiveAfterInst;
    forall w | w in st.locals && LiveAfterInst(c.ir, i, w) && !Defines(c.ir[i], w)
      ensures Get(t, HomePlace(c.f, h, Local(w))) == st.locals[w]
    {
      LiveIsLocal(c.ir, i, w);
      ArgApart(c, h, Local(w), k);
      VariableHome(c, h, Local(w), false);
      Untouched(s, t, ArgPlace(h, k), v, false, HomePlace(c.f, h, Local(w)));
    }
  }
}
