/**
  What registers are live at each instruction of a function, and that the lines of every instruction keep to it:
  the kept registers and the caches, the homes of the locals that are live, the parameters not yet moved, and the
  arguments staged so far.
 */
module BodyLive {
  import opened Ir
  import opened IrFlow
  import opened Rv32
  import opened Frame
  import opened Liveness
  import opened TempRanges
  import opened Allocation
  import opened Selection
  import opened BinaryOp
  import opened Compare
  import opened FrameCode
  import opened Body
  import opened PlainCode
  import opened Homes
  import opened TailCall
  import opened Exposure
  import opened TextLive
  import BodyFlow

  // --------------------------------------------------------------------------
  // The input
  // --------------------------------------------------------------------------

  /** Instructions that compute are given values, and the others write no local. */
  predicate Shaped(inst: IrInst)
  {
    if IsArithmetic(inst.op) || inst.op.NOT? then BinaryShaped(inst)
    else if IsCompare(inst.op) then CompareShaped(inst) && IsVariable(inst.dest)
    else match inst.op
      case ASSIGN => IsVariable(inst.dest) && IsValue(inst.src1)
      case LOAD => IsVariable(inst.dest) && IsValue(inst.src1)
      case STORE => IsVariable(inst.dest) && IsValue(inst.src1)
      case LOCAL_VAR_DECL => inst.dest.Local? ==> inst.src1.NoOperand? || inst.src1.Param? || IsValue(inst.src1)
      case CALL => inst.src1.Func? && (inst.dest.NoOperand? || IsVariable(inst.dest))
      case PARAM => IsValue(inst.dest)
      case RETURN => inst.dest.NoOperand? || IsValue(inst.dest)
      case BEQZ => inst.dest.Label? && IsValue(inst.src1)
      case BNEZ => inst.dest.Label? && IsValue(inst.src1)
      case BRANCH => inst.dest.Label?
      case _ => !inst.dest.Local?
  }

  /** The argument registers that are staged, or still to be staged, for the call below. */
  function ArgsNeeded(ir: seq<IrInst>, sigs: Sigs, i: nat): set<Reg>
    decreases |ir| - i
  {
    if i >= |ir| then {}
    else if ir[i].op.CALL? then (if NameOf(ir[i].src1) in sigs then ArgRegs(sigs[NameOf(ir[i].src1)].params) else {})
    else if ir[i].op.PARAM? then
      ArgsNeeded(ir, sigs, i + 1) - (if 0 <= ArgIndex(ir[i]) < 8 then {A(ArgIndex(ir[i]))} else {})
    else {}
  }

  /** Every call names a function of the program, is given as many arguments as it has parameters right above it, and
      a variable for its value if and only if it has one. */
  predicate CallsTyped(ir: seq<IrInst>, sigs: Sigs)
  {
    && (forall i :: 0 <= i < |ir| && ir[i].op.CALL? ==>
          && NameOf(ir[i].src1) in sigs
          && (IsVariable(ir[i].dest) <==> sigs[NameOf(ir[i].src1)].valued))
    && (forall i :: 0 <= i < |ir| && (i == 0 || !ir[i - 1].op.PARAM?) ==> ArgsNeeded(ir, sigs, i) == {})
  }

  predicate DeclaresBare(inst: IrInst, v: string)
  {
    inst.op.LOCAL_VAR_DECL? && inst.dest == Local(v) && inst.src1.NoOperand?
  }

  /** No path reads a local before it has been given a value. */
  ghost predicate Initialised(ir: seq<IrInst>)
  {
    && (forall v :: !PathLive(ir, 0, v))
    && (forall i, v :: 0 <= i < |ir| && DeclaresBare(ir[i], v) ==> !PathLive(ir, i + 1, v))
  }

  /** What the input of one function has to be for its registers to be live where they should. */
  ghost predicate LiveInput(ir: seq<IrInst>, name: string, sigs: Sigs)
  {
    && name in sigs && sigs[name].params == ParamIndex(ir, |ir|) && ReturnsAlike(ir, sigs[name].valued)
    && (forall i :: 0 <= i < |ir| ==> Shaped(ir[i])) && CallsTyped(ir, sigs) && Initialised(ir)
    && (forall i :: 0 <= i < |ir| && (ir[i].op.BRANCH? || ir[i].op.BEQZ? || ir[i].op.BNEZ?) ==>
          LabelPosition(ir, NameOf(ir[i].dest)).Somewhere?)
  }

  // --------------------------------------------------------------------------
  // Live registers
  // --------------------------------------------------------------------------

  function Caches(f: StackFrame): set<Reg> { f.constantRegAlloc.Values + f.globalRegAlloc.Values }

  ghost function HomesLive(c: Unit, i: nat): set<Reg>
  {
    set v | v in Locals(c.ir) && PathLive(c.ir, i, v) && RegForVar(c.f, v).Some? :: RegForVar(c.f, v).value
  }

  /** The argument registers whose parameters are still to be moved at i. */
  function Pending(ir: seq<IrInst>, i: nat): set<Reg>
    requires i <= |ir|
  {
    set k: nat | ParamIndex(ir, i) <= k < ParamIndex(ir, |ir|) && k < 8 :: A(k)
  }

  ghost function LiveRegs(c: Unit, sigs: Sigs, i: nat): set<Reg>
    requires i <= |c.ir|
  {
    KEPT + Caches(c.f) + HomesLive(c, i) + Pending(c.ir, i) + ArgsNeeded(c.ir, sigs, i)
  }

  /** At the exit the caches are still to be stored, and the result may be in a0. */
  function ExitRegs(c: Unit, sigs: Sigs): set<Reg> { OutRegs(sigs, c.name) + Caches(c.f) }

  ghost function PlanOf(c: Unit, sigs: Sigs): Plan
  {
    Plan((l: string) => if l == BodyLabel(c.name) then LiveRegs(c, sigs, 0)
                        else if l == ExitLabel(c.name) then ExitRegs(c, sigs)
                        else match LabelPosition(c.ir, l)
                          case Somewhere(j) => (if j <= |c.ir| then LiveRegs(c, sigs, j) else {})
                          case Nowhere => InRegs(sigs, l),
         OutRegs(sigs, c.name))
  }

  // --------------------------------------------------------------------------
  // From one instruction to the next
  // --------------------------------------------------------------------------

  lemma LocalHome(c: Unit, sigs: Sigs, i: nat, o: Operand)
    requires i < |c.ir| && (o.Local? ==> o.name in UsedLocals(c.ir[i]))
    ensures OperandRegs(c.f, o) <= LiveRegs(c, sigs, i)
  {
    hide RegForVar, ArgsNeeded, PathLive;
    if o.Local? && RegForVar(c.f, o.name).Some? {
      PathHere(c.ir, i, o.name);
      UsedIsLocal(c.ir, i, o.name);
      assert RegForVar(c.f, o.name).value in HomesLive(c, i);
    }
  }

  lemma UsedIsLocal(ir: seq<IrInst>, i: nat, v: string)
    requires i < |ir| && v in UsedLocals(ir[i])
    ensures v in Locals(ir)
  {
    assert v in LocalName(ir[i].dest) + LocalName(ir[i].src1) + LocalName(ir[i].src2);
  }

  lemma BaseLive(c: Unit, sigs: Sigs, i: nat)
    requires i <= |c.ir|
    ensures Base(c.f) <= KEPT + Caches(c.f) <= LiveRegs(c, sigs, i)
  {
    hide HomesLive, Pending, ArgsNeeded;
  }

  lemma {:induction false} IndexUp(ir: seq<IrInst>, i: nat, j: nat)
    requires i <= j <= |ir|
    ensures ParamIndex(ir, i) <= ParamIndex(ir, j)
    decreases j
  {
    if i < j { IndexUp(ir, i, j - 1); }
  }

  /** Behind an instruction that declares no parameter all parameters have been declared. */
  lemma {:induction false} AllDeclared(ir: seq<IrInst>, i: nat, n: nat)
    requires ParamsFirst(ir) && i < n <= |ir| && !DeclaresParam(ir[i])
    ensures ParamIndex(ir, n) == ParamIndex(ir, i)
    decreases n
  {
    if n > i + 1 {
      AllDeclared(ir, i, n - 1);
      IndexAtMost(ir, i);
    }
  }

  lemma {:induction false} IndexAtMost(ir: seq<IrInst>, n: nat)
    requires n <= |ir|
    ensures ParamIndex(ir, n) <= n
  {
    if n > 0 { IndexAtMost(ir, n - 1); }
  }

  lemma NothingPending(ir: seq<IrInst>, i: nat)
    requires ParamsFirst(ir) && i < |ir| && !DeclaresParam(ir[i])
    ensures Pending(ir, i) == {} && Pending(ir, i + 1) == {}
  {
    hide ParamsFirst;
    AllDeclared(ir, i, |ir|);
    AllDeclared(ir, i, i + 1);
  }

  /** The lines of i write, or leave in place, what i defines; then what is live below i and not written by them is
      live at i. */
  lemma NextRegs(c: Unit, sigs: Sigs, i: nat, defs: set<Reg>)
    requires i + 1 < |c.ir| && i + 1 in Successors(c.ir, i) && CallsTyped(c.ir, sigs)
    requires DefinesLocal(c.ir[i]) && PathLive(c.ir, i + 1, c.ir[i].dest.name) ==>
               OperandRegs(c.f, c.ir[i].dest) <= defs + LiveRegs(c, sigs, i)
    requires c.ir[i].op.PARAM? && 0 <= ArgIndex(c.ir[i]) < 8 ==> A(ArgIndex(c.ir[i])) in defs + LiveRegs(c, sigs, i)
    ensures LiveRegs(c, sigs, i + 1) - defs <= LiveRegs(c, sigs, i)
  {
    hide PathLive, CallsTyped, Successors, ArgsNeeded, HomesLive, Pending, OperandRegs;
    PendingUp(c.ir, i);
    ArgsBelow(c.ir, sigs, i);
    HomesNext(c, i, defs + LiveRegs(c, sigs, i));
  }

  lemma PendingUp(ir: seq<IrInst>, i: nat)
    requires i + 1 <= |ir|
    ensures Pending(ir, i + 1) <= Pending(ir, i)
  {
    IndexUp(ir, i, i + 1);
  }

  lemma HomesNext(c: Unit, i: nat, regs: set<Reg>)
    requires i + 1 < |c.ir| && i + 1 in Successors(c.ir, i)
    requires DefinesLocal(c.ir[i]) && PathLive(c.ir, i + 1, c.ir[i].dest.name) ==>
             OperandRegs(c.f, c.ir[i].dest) <= regs
    ensures HomesLive(c, i + 1) <= HomesLive(c, i) + regs
  {
    hide RegForVar, PathLive, Successors;
    forall r | r in HomesLive(c, i + 1) ensures r in HomesLive(c, i) + regs {
      var v :| v in Locals(c.ir) && PathLive(c.ir, i + 1, v) && RegForVar(c.f, v).Some? && RegForVar(c.f, v).value == r;
      if Defines(c.ir[i], v) {
        assert c.ir[i].dest == Local(v) && OperandRegs(c.f, Local(v)) == {r};
      } else {
        PathBefore(c.ir, i, i + 1, v);
        assert r in HomesLive(c, i);
      }
    }
  }

  lemma ArgsBelow(ir: seq<IrInst>, sigs: Sigs, i: nat)
    requires i + 1 < |ir| && CallsTyped(ir, sigs)
    ensures !ir[i].op.PARAM? ==> ArgsNeeded(ir, sigs, i + 1) == {}
    ensures ir[i].op.PARAM? ==>
              ArgsNeeded(ir, sigs, i + 1) <= ArgsNeeded(ir, sigs, i) +
              (if 0 <= ArgIndex(ir[i]) < 8 then {A(ArgIndex(ir[i]))} else {})
  {
    assert !ir[i].op.PARAM? ==> ArgsNeeded(ir, sigs, i + 1) == {};
  }

  /** What is live where a jump goes is live at the jump. */
  lemma TargetRegs(c: Unit, sigs: Sigs, i: nat, j: nat)
    requires i < |c.ir| && j in Successors(c.ir, i) && ParamsFirst(c.ir) && !DefinesLocal(c.ir[i])
    requires c.ir[j].op.LABEL?
    ensures LiveRegs(c, sigs, j) <= LiveRegs(c, sigs, i)
  {
    NothingPending(c.ir, j);
    assert ArgsNeeded(c.ir, sigs, j) == {};
    hide RegForVar, PathLive, Successors, ArgsNeeded, Pending;
    forall r | r in HomesLive(c, j) ensures r in HomesLive(c, i) {
      var v :| v in Locals(c.ir) && PathLive(c.ir, j, v) && RegForVar(c.f, v).Some? && RegForVar(c.f, v).value == r;
      PathBefore(c.ir, i, j, v);
    }
  }

  // --------------------------------------------------------------------------
  // The lines of one instruction
  // --------------------------------------------------------------------------

  /** What the lines of i, followed by k, need is live at i. */
  ghost predicate LiveWithin(c: Unit, sigs: Sigs, i: nat, k: seq<Instr>)
    requires i <= |c.ir|
  {
    Ahead(sigs, PlanOf(c, sigs), k) <= LiveRegs(c, sigs, i)
  }

  /** The target of a tail call is no label of this function, and returns a value if this function does. */
  predicate LeavesFor(c: Unit, sigs: Sigs, callee: string)
  {
    && callee in sigs && c.name in sigs && (sigs[callee].valued <==> sigs[c.name].valued)
    && callee != BodyLabel(c.name) && callee != ExitLabel(c.name) && LabelPosition(c.ir, callee) == Nowhere
  }

  /** What every lemma below may rely on. */
  ghost predicate LiveUnit(c: Unit, sigs: Sigs)
  {
    && WellFormed(c) && LiveInput(c.ir, c.name, sigs)
    && (forall i :: i in c.tails ==> i < |c.ir| && IsTailCall(c.ir, i) && LeavesFor(c, sigs, NameOf(c.ir[i].src1)))
  }

  /** Straight code of an instruction that goes on to the next line. */
  lemma PlainWithin(c: Unit, sigs: Sigs, i: nat, code: seq<Instr>, k: seq<Instr>, regs: set<Reg>)
    requires i + 1 < |c.ir| && i + 1 in Successors(c.ir, i) && CallsTyped(c.ir, sigs)
    requires Reads(code, regs) && regs <= LiveRegs(c, sigs, i) && LiveWithin(c, sigs, i + 1, k)
    requires DefinesLocal(c.ir[i]) && PathLive(c.ir, i + 1, c.ir[i].dest.name) ==>
               OperandRegs(c.f, c.ir[i].dest) <= DefsOf(code) + regs
    requires c.ir[i].op.PARAM? && 0 <= ArgIndex(c.ir[i]) < 8 ==> A(ArgIndex(c.ir[i])) in DefsOf(code) + regs
    ensures LiveWithin(c, sigs, i, code + k)
  {
    hide Reads, LiveRegs, PlanOf, Ahead, OperandRegs, CallsTyped, Successors, PathLive;
    NextRegs(c, sigs, i, DefsOf(code));
    AheadWithin(sigs, PlanOf(c, sigs), code, k, regs, LiveRegs(c, sigs, i + 1), LiveRegs(c, sigs, i));
  }

  lemma SourcesWithin(c: Unit, sigs: Sigs, i: nat)
    requires i < |c.ir|
    ensures SourceRegs(c.f, c.ir[i].src1, c.ir[i].src2) <= LiveRegs(c, sigs, i)
    ensures Base(c.f) + OperandRegs(c.f, c.ir[i].src1) <= LiveRegs(c, sigs, i)
    ensures ReadsDest(c.ir[i].op) ==> Base(c.f) + OperandRegs(c.f, c.ir[i].dest) <= LiveRegs(c, sigs, i)
  {
    hide LiveRegs, OperandRegs;
    BaseLive(c, sigs, i);
    LocalHome(c, sigs, i, c.ir[i].src1);
    LocalHome(c, sigs, i, c.ir[i].src2);
    if ReadsDest(c.ir[i].op) { LocalHome(c, sigs, i, c.ir[i].dest); }
  }

  lemma NextLine(ir: seq<IrInst>, i: nat)
    requires i < |ir| && !ir[i].op.RETURN? && !ir[i].op.BRANCH? && ir[|ir| - 1].op.RETURN?
    ensures i + 1 < |ir| && i + 1 in Successors(ir, i)
  {
  }

  lemma ComputeWithin(c: Unit, sigs: Sigs, i: nat, k: seq<Instr>)
    requires LiveUnit(c, sigs) && i + 1 < |c.ir| && LiveWithin(c, sigs, i + 1, k)
    requires BinaryShaped(c.ir[i]) || CompareShaped(c.ir[i])
    ensures LiveWithin(c, sigs, i, InstCode(c, i) + k)
  {
    hide WellFormed, LiveWithin, LiveRegs, BinaryCode, CompareOpCode, SourceRegs, CallsTyped, Initialised, Settles,
         LabelPosition;
    var inst := c.ir[i];
    UnitTables(c);
    if BinaryShaped(inst) {
      BinaryReads(c.f, inst, i in c.nonneg);
    } else {
      CompareOpReads(c.f, inst);
    }
    SettledWithin(c, sigs, i, InstCode(c, i), k, SourceRegs(c.f, inst.src1, inst.src2));
  }

  /** Code that settles the destination from the sources. */
  lemma SettledWithin(c: Unit, sigs: Sigs, i: nat, code: seq<Instr>, k: seq<Instr>, regs: set<Reg>)
    requires LiveUnit(c, sigs) && i + 1 < |c.ir| && LiveWithin(c, sigs, i + 1, k) && !c.ir[i].op.RETURN? &&
             !c.ir[i].op.BRANCH?
    requires Settles(c.f, code, c.ir[i].dest, regs) && !c.ir[i].op.PARAM?
    requires regs <= SourceRegs(c.f, c.ir[i].src1, c.ir[i].src2)
    ensures LiveWithin(c, sigs, i, code + k)
  {
    hide WellFormed, LiveWithin, LiveRegs, SourceRegs, DefsOf, OperandRegs, PathLive, CallsTyped, Initialised, Reads,
         LabelPosition;
    SourcesWithin(c, sigs, i);
    NextLine(c.ir, i);
    PlainWithin(c, sigs, i, code, k, regs);
  }

  lemma UnitTables(c: Unit)
    requires WellFormed(c)
    ensures TablesOk(c.f) && TablesFor(c.ir, c.f)
  {
  }

  lemma MoveWithin(c: Unit, sigs: Sigs, i: nat, k: seq<Instr>)
    requires LiveUnit(c, sigs) && i + 1 < |c.ir| && LiveWithin(c, sigs, i + 1, k)
    requires IsVariable(c.ir[i].dest) && IsValue(c.ir[i].src1) && !ReadsDest(c.ir[i].op)
    requires !c.ir[i].op.RETURN? && !c.ir[i].op.BRANCH?
    ensures LiveWithin(c, sigs, i, MoveCode(c.f, c.ir[i].src1, c.ir[i].dest) + k)
  {
    hide WellFormed, LiveWithin, LiveRegs, MoveCode, CallsTyped, Initialised, Settles, OperandRegs, LabelPosition;
    var inst := c.ir[i];
    UnitTables(c);
    MoveReads(c.f, inst.src1, inst.dest);
    SettledWithin(c, sigs, i, MoveCode(c.f, inst.src1, inst.dest), k, Base(c.f) + OperandRegs(c.f, inst.src1));
  }

  /** No lines at all. */
  lemma SilentWithin(c: Unit, sigs: Sigs, i: nat, k: seq<Instr>)
    requires LiveUnit(c, sigs) && i + 1 < |c.ir| && LiveWithin(c, sigs, i + 1, k) && !c.ir[i].op.RETURN? &&
             !c.ir[i].op.BRANCH?
    requires DefinesLocal(c.ir[i]) ==> !PathLive(c.ir, i + 1, c.ir[i].dest.name)
    requires !c.ir[i].op.PARAM?
    ensures LiveWithin(c, sigs, i, k)
  {
    hide WellFormed, LiveWithin, LiveRegs, PathLive, CallsTyped, Initialised;
    NextLine(c.ir, i);
    NoLines({});
    PlainWithin(c, sigs, i, [], k, {});
    assert [] + k == k;
  }

  lemma DeclWithin(c: Unit, sigs: Sigs, i: nat, k: seq<Instr>)
    requires LiveUnit(c, sigs) && i + 1 < |c.ir| && LiveWithin(c, sigs, i + 1, k) && c.ir[i].op.LOCAL_VAR_DECL?
    ensures LiveWithin(c, sigs, i, DeclCode(c, i) + k)
  {
    hide WellFormed, LiveWithin, LiveRegs, MoveCode, ParamDeclCode, PathLive, CallsTyped, ParamIndex;
    var inst := c.ir[i];
    assert Shaped(inst);
    assert [] + k == k;
    if !inst.dest.Local? || inst.src1.NoOperand? {
      if inst.dest.Local? { assert DeclaresBare(inst, inst.dest.name); }
      SilentWithin(c, sigs, i, k);
    } else if inst.src1.Param? {
      ParamDeclWithin(c, sigs, i, k);
    } else {
      MoveWithin(c, sigs, i, k);
    }
  }

  lemma ParamDeclWithin(c: Unit, sigs: Sigs, i: nat, k: seq<Instr>)
    requires LiveUnit(c, sigs) && i + 1 < |c.ir| && LiveWithin(c, sigs, i + 1, k) && DeclaresParam(c.ir[i])
    ensures LiveWithin(c, sigs, i, ParamDeclCode(c.f, c.ir[i].dest, ParamIndex(c.ir, i)) + k)
  {
    hide WellFormed, LiveWithin, ParamDeclCode, DefsOf, OperandRegs, PathLive, CallsTyped, Initialised, Reads,
         ParamIndex, Base, LiveRegs, LabelPosition;
    var n := ParamIndex(c.ir, i);
    UnitTables(c);
    PendingLive(c, sigs, i);
    NextLine(c.ir, i);
    ParamDeclReads(c.f, c.ir[i].dest, n);
    PlainWithin(c, sigs, i, ParamDeclCode(c.f, c.ir[i].dest, n), k, Base(c.f) + (if n < 8 then {A(n)} else {}));
  }

  lemma PendingLive(c: Unit, sigs: Sigs, i: nat)
    requires i < |c.ir| && DeclaresParam(c.ir[i])
    ensures var n := ParamIndex(c.ir, i); Base(c.f) + (if n < 8 then {A(n)} else {}) <= LiveRegs(c, sigs, i)
  {
    hide HomesLive, ArgsNeeded, Base, Pending, ParamIndex;
    BaseLive(c, sigs, i);
    PendingHere(c.ir, i);
  }

  lemma PendingHere(ir: seq<IrInst>, i: nat)
    requires i < |ir| && DeclaresParam(ir[i])
    ensures ParamIndex(ir, i) < 8 ==> A(ParamIndex(ir, i)) in Pending(ir, i)
  {
    IndexUp(ir, i + 1, |ir|);
  }

  lemma ArgWithin(c: Unit, sigs: Sigs, i: nat, k: seq<Instr>)
    requires LiveUnit(c, sigs) && i + 1 < |c.ir| && LiveWithin(c, sigs, i + 1, k) && c.ir[i].op.PARAM?
    ensures LiveWithin(c, sigs, i, ParamCode(c.f, c.ir[i].dest, ArgIndex(c.ir[i])) + k)
  {
    hide WellFormed, LiveWithin, LiveRegs, ParamCode, DefsOf, OperandRegs, PathLive, CallsTyped, Initialised, Reads,
         Base;
    var inst := c.ir[i];
    assert Shaped(inst);
    UnitTables(c);
    SourcesWithin(c, sigs, i);
    NextLine(c.ir, i);
    ParamReads(c.f, inst.dest, ArgIndex(inst));
    PlainWithin(c, sigs, i, ParamCode(c.f, inst.dest, ArgIndex(inst)), k, Base(c.f) + OperandRegs(c.f, inst.dest));
  }

  // ---- calls ----

  /** In a function that calls something the caches are in saved registers. */
  lemma CallerBase(c: Unit)
    requires TablesFor(c.ir, c.f) && HasCall(c.ir)
    ensures Base(c.f) <= KEPT && Caches(c.f) <= KEPT
  {
    hide DefinitionsSafe, FrameFits, TempsOk, IncomingKept, ScratchFree, HasCall;
    forall k | k in c.f.constantRegAlloc ensures c.f.constantRegAlloc[k] in KEPT { SavedKept(c.f.constantRegAlloc[k]); }
  }

  lemma SavedKept(r: Reg)
    requires Allocatable(r) && r.S?
    ensures r in KEPT
  {
  }

  /** The locals live behind a call are in saved registers. */
  lemma HomesKept(c: Unit, i: nat)
    requires TablesFor(c.ir, c.f) && LabelsReadNothing(c.ir) && i + 1 < |c.ir| && c.ir[i].op.CALL?
    ensures HomesLive(c, i + 1) <= KEPT
  {
    hide DefinitionsSafe, FrameFits, IncomingKept, ScratchFree, PathLive, IsCandidate, TempRegisters;
    assert HasCall(c.ir);
    forall r | r in HomesLive(c, i + 1) ensures r in KEPT {
      var v :| v in Locals(c.ir) && PathLive(c.ir, i + 1, v) && RegForVar(c.f, v).Some? && RegForVar(c.f, v).value == r;
      assert i + 1 in Successors(c.ir, i);
      assert LiveAfterInst(c.ir, i, v);
      if v in c.f.tempRegs { NoTempAcrossBlockEnd(c.ir, v, i); }
      RegisterOk(c.f, Local(v));
      SavedKept(r);
    }
  }

  lemma BehindCall(c: Unit, sigs: Sigs, i: nat)
    requires LiveUnit(c, sigs) && i + 1 < |c.ir| && c.ir[i].op.CALL?
    ensures LiveRegs(c, sigs, i + 1) <= KEPT
  {
    hide TablesFor, HomesLive, Pending, ArgsNeeded, SavedCovers, Initialised, LabelPosition, Caches;
    assert HasCall(c.ir);
    CallerBase(c);
    HomesKept(c, i);
    NothingPending(c.ir, i);
    assert ArgsNeeded(c.ir, sigs, i + 1) == {};
  }

  /** What is needed behind a call is given back by it. */
  lemma ResultWithin(c: Unit, sigs: Sigs, i: nat, k: seq<Instr>)
    requires LiveUnit(c, sigs) && i + 1 < |c.ir| && c.ir[i].op.CALL? && LiveWithin(c, sigs, i + 1, k)
    ensures var store := if IsVariable(c.ir[i].dest) then StoreCode(c.f, A(0), c.ir[i].dest) else [];
            Ahead(sigs, PlanOf(c, sigs), store + k) <= OutRegs(sigs, NameOf(c.ir[i].src1))
  {
    hide WellFormed, LiveRegs, StoreCode, PlanOf, Ahead, DefsOf, Exposed, Plain, Initialised, LabelPosition, Base,
         ArgsNeeded;
    UnitTables(c);
    assert HasCall(c.ir);
    CallerBase(c);
    BehindCall(c, sigs, i);
    var dest := c.ir[i].dest;
    if IsVariable(dest) {
      StoreReads(c.f, A(0), dest);
      AheadWithin(sigs, PlanOf(c, sigs), StoreCode(c.f, A(0), dest), k, Base(c.f) + {A(0)}, KEPT, KEPT + {A(0)});
    } else {
      assert [] + k == k;
    }
  }

  lemma CallWithin(c: Unit, sigs: Sigs, i: nat, k: seq<Instr>)
    requires LiveUnit(c, sigs) && i + 1 < |c.ir| && c.ir[i].op.CALL? && i !in c.tails
    ensures LiveWithin(c, sigs, i, InstCode(c, i) + k)
  {
    hide WellFormed, PlanOf, StoreCode, HomesLive, Pending, Initialised, LabelPosition, Caches;
    var f := NameOf(c.ir[i].src1);
    var store := if IsVariable(c.ir[i].dest) then StoreCode(c.f, A(0), c.ir[i].dest) else [];
    assert InstCode(c, i) + k == [Instr.Call(f)] + (store + k);
    AheadLine(sigs, PlanOf(c, sigs), Instr.Call(f), store + k);
    assert InRegs(sigs, f) <= LiveRegs(c, sigs, i);
  }

  /** Where control enters nothing is live but the parameters. */
  lemma EntryRegs(c: Unit, sigs: Sigs)
    requires LiveInput(c.ir, c.name, sigs)
    ensures LiveRegs(c, sigs, 0) <= InRegs(sigs, c.name) + Caches(c.f)
  {
    hide PathLive, RegForVar, Caches;
    assert HomesLive(c, 0) == {};
    assert ArgsNeeded(c.ir, sigs, 0) == {};
    hide ArgsNeeded, HomesLive;
    assert Pending(c.ir, 0) <= ArgRegs(sigs[c.name].params);
  }

  lemma LeaveReads(f: StackFrame, size: int, restoreRa: bool)
    ensures Reads(LeaveCode(f, size, restoreRa), {X0, Ra, Sp, S(0)})
  {
    hide Exposed, DefsOf, Plain, AdjustSpCode;
    var regs := {X0, Ra, Sp, S(0)};
    var a, b := RestoreCode(f.usedCalleeSavedRegisters), if restoreRa then [Lw(Ra, -4, S(0))] else [];
    RestoresRead(f.usedCalleeSavedRegisters, regs);
    NoLines(regs);
    Line(Lw(Ra, -4, S(0)), regs);
    ReadsMore(b, regs, regs + DefsOf(a));
    Then(a, b, regs);
    Line(Lw(S(0), -8, S(0)), regs + DefsOf(a + b));
    Then(a + b, [Lw(S(0), -8, S(0))], regs);
    AdjustReads(size, regs);
    ReadsMore(AdjustSpCode(size), regs, regs + DefsOf(a + b + [Lw(S(0), -8, S(0))]));
    Then(a + b + [Lw(S(0), -8, S(0))], AdjustSpCode(size), regs);
  }

  lemma AdjustReads(amount: int, regs: set<Reg>)
    requires Sp in regs
    ensures Reads(AdjustSpCode(amount), regs) && Reads(SetFramePointerCode(amount), regs)
  {
    hide Exposed, DefsOf, Plain;
    Line(AluI(Addi, Sp, Sp, amount), regs);
    Line(AluI(Addi, S(0), Sp, amount), regs);
    TwoLines(Li(T(2), amount), Alu(Add, Sp, Sp, T(2)), regs);
    TwoLines(Li(T(2), amount), Alu(Add, S(0), Sp, T(2)), regs);
  }

  /** Lines each of which reads nothing else. */
  lemma {:induction false} LinesRead(code: seq<Instr>, regs: set<Reg>)
    requires forall i :: i in code ==> Works(i) && Uses(i) <= regs
    ensures Reads(code, regs)
    decreases |code|
  {
    hide Exposed, DefsOf, Plain, Uses, Works;
    if code == [] {
      NoLines(regs);
    } else {
      var i := code[0];
      assert i in code && code == [i] + code[1..];
      Line(i, regs);
      forall j | j in code[1..] ensures Works(j) && Uses(j) <= regs { assert j in code; }
      LinesRead(code[1..], regs);
      ReadsMore(code[1..], regs, regs + DefsOf([i]));
      Then([i], code[1..], regs);
    }
  }

  lemma RestoresRead(saved: seq<Reg>, regs: set<Reg>)
    requires S(0) in regs
    ensures Reads(RestoreCode(saved), regs)
  {
    hide Exposed, DefsOf, Plain;
    LinesRead(RestoreCode(saved), regs);
  }

  lemma PlanAway(c: Unit, sigs: Sigs, callee: string)
    requires LeavesFor(c, sigs, callee)
    ensures PlanOf(c, sigs).at(callee) == InRegs(sigs, callee)
  {
    hide LiveRegs, InRegs, ExitRegs, BodyLabel, ExitLabel;
  }

  lemma TailWithin(c: Unit, sigs: Sigs, i: nat, k: seq<Instr>)
    requires LiveUnit(c, sigs) && i < |c.ir| && i in c.tails && !c.draft
    ensures LiveWithin(c, sigs, i, InstCode(c, i) + k)
  {
    hide WellFormed, PlanOf, LeaveCode, HomesLive, Pending, Initialised, LabelPosition, Caches, BodyLabel, ExitLabel,
         Ahead, Reads, DefsOf, InRegs;
    var f := NameOf(c.ir[i].src1);
    TailNeeds(c, sigs, i);
    if f == c.name {
      AheadLine(sigs, PlanOf(c, sigs), J(BodyLabel(c.name)), k);
      PlanBody(c, sigs);
      EntryRegs(c, sigs);
    } else {
      PlanAway(c, sigs, f);
      AheadLine(sigs, PlanOf(c, sigs), J(f), k);
      LeaveReads(c.f, c.size, true);
      assert {X0, Ra, Sp, S(0)} <= LiveRegs(c, sigs, i);
      AheadWithin(sigs, PlanOf(c, sigs), LeaveCode(c.f, c.size, true), [J(f)] + k, {X0, Ra, Sp, S(0)}, InRegs(sigs, f),
                  LiveRegs(c, sigs, i));
      assert LeaveCode(c.f, c.size, true) + ([J(f)] + k) == InstCode(c, i) + k;
    }
  }

  /** A tail call's arguments are staged. */
  lemma TailNeeds(c: Unit, sigs: Sigs, i: nat)
    requires LiveUnit(c, sigs) && i < |c.ir| && i in c.tails
    ensures c.ir[i].op.CALL? && LeavesFor(c, sigs, NameOf(c.ir[i].src1))
    ensures InRegs(sigs, NameOf(c.ir[i].src1)) + Caches(c.f) <= LiveRegs(c, sigs, i)
  {
    hide WellFormed, HomesLive, Pending, Initialised, Caches, LeavesFor;
  }

  lemma PlanBody(c: Unit, sigs: Sigs)
    ensures PlanOf(c, sigs).at(BodyLabel(c.name)) == LiveRegs(c, sigs, 0)
    ensures PlanOf(c, sigs).at(ExitLabel(c.name)) == ExitRegs(c, sigs)
  {
    hide LiveRegs, ExitRegs;
    BodyFlow.ExitIsNotBody(c.name);
  }

  // ---- returns ----

  lemma ReturnWithin(c: Unit, sigs: Sigs, i: nat, k: seq<Instr>)
    requires LiveUnit(c, sigs) && i < |c.ir| && c.ir[i].op.RETURN? && !AfterTail(c, i)
    ensures LiveWithin(c, sigs, i, InstCode(c, i) + k)
  {
    hide WellFormed, PlanOf, HomesLive, Pending, Initialised, LabelPosition, BodyLabel, ExitLabel, Ahead, Reads,
         DefsOf, LoadCode, AfterTail, Base, OperandRegs, ArgsNeeded, CallsTyped;
    var o := c.ir[i].dest;
    assert Shaped(c.ir[i]);
    PlanBody(c, sigs);
    SourcesWithin(c, sigs, i);
    BaseLive(c, sigs, i);
    AheadLine(sigs, PlanOf(c, sigs), J(ExitLabel(c.name)), k);
    var jump := [J(ExitLabel(c.name))] + k;
    if o.NoOperand? {
      assert InstCode(c, i) + k == jump;
    } else {
      LoadReads(c.f, o, A(0));
      AheadWithin(sigs, PlanOf(c, sigs), LoadCode(c.f, o, A(0)), jump, Base(c.f) + OperandRegs(c.f, o),
                  ExitRegs(c, sigs),
                  LiveRegs(c, sigs, i));
      assert LoadCode(c.f, o, A(0)) + jump == InstCode(c, i) + k;
    }
  }

  // ---- jumps ----

  /** The plan at a jump's target is what is live there, and that is live at the jump. */
  lemma PlanAtTarget(c: Unit, sigs: Sigs, i: nat)
    requires LiveUnit(c, sigs) && i < |c.ir| && (c.ir[i].op.BRANCH? || c.ir[i].op.BEQZ? || c.ir[i].op.BNEZ?)
    ensures PlanOf(c, sigs).at(NameOf(c.ir[i].dest)) <= LiveRegs(c, sigs, i)
    ensures var l := NameOf(c.ir[i].dest);
            && LabelPosition(c.ir, l).Somewhere? && LabelPosition(c.ir, l).at in Successors(c.ir, i)
            && PlanOf(c, sigs).at(l) == LiveRegs(c, sigs, LabelPosition(c.ir, l).at)
  {
    hide TablesFor, SavedCovers, Initialised, CallsTyped, LiveRegs, ExitRegs, LeavesFor;
    assert Shaped(c.ir[i]);
    var l := NameOf(c.ir[i].dest);
    var j := LabelPosition(c.ir, l).at;
    FoundLabel(c.ir, l);
    TargetRegs(c, sigs, i, j);
  }

  lemma {:induction false} FoundLabel(ir: seq<IrInst>, l: string)
    requires LabelPosition(ir, l).Somewhere?
    ensures var j := LabelPosition(ir, l).at; j < |ir| && ir[j].op.LABEL? && ir[j].dest == Label(l)
  {
    var n := |ir| - 1;
    if !(ir[n].op.LABEL? && ir[n].dest == Label(l)) { FoundLabel(ir[..n], l); }
  }

  lemma JumpWithin(c: Unit, sigs: Sigs, i: nat, k: seq<Instr>)
    requires LiveUnit(c, sigs) && i < |c.ir| && c.ir[i].op.BRANCH?
    ensures LiveWithin(c, sigs, i, InstCode(c, i) + k)
  {
    hide LiveUnit, PlanOf, LiveRegs, Ahead;
    PlanAtTarget(c, sigs, i);
    AheadLine(sigs, PlanOf(c, sigs), J(NameOf(c.ir[i].dest)), k);
  }

  lemma LabelWithin(c: Unit, sigs: Sigs, i: nat, k: seq<Instr>)
    requires LiveUnit(c, sigs) && i + 1 < |c.ir| && c.ir[i].op.LABEL? && LiveWithin(c, sigs, i + 1, k)
    ensures LiveWithin(c, sigs, i, InstCode(c, i) + k)
  {
    hide WellFormed, PlanOf, LiveRegs, Ahead, Initialised, CallsTyped, PathLive;
    assert Shaped(c.ir[i]);
    SilentWithin(c, sigs, i, k);
    AheadLine(sigs, PlanOf(c, sigs), Lab(NameOf(c.ir[i].dest)), k);
  }

  lemma BranchWithin(c: Unit, sigs: Sigs, i: nat, k: seq<Instr>)
    requires LiveUnit(c, sigs) && i + 1 < |c.ir| && (c.ir[i].op.BEQZ? || c.ir[i].op.BNEZ?) &&
             LiveWithin(c, sigs, i + 1, k)
    ensures LiveWithin(c, sigs, i, BranchCode(c.f, c.ir[i]) + k)
  {
    hide WellFormed, PlanOf, LiveRegs, Ahead, Initialised, CallsTyped, LoadCode, LabelPosition, PathLive, Base;
    var inst := c.ir[i];
    var l := NameOf(inst.dest);
    assert Shaped(inst);
    PlanAtTarget(c, sigs, i);
    NextLine(c.ir, i);
    NextRegs(c, sigs, i, {});
    SourcesWithin(c, sigs, i);
    match RegForOperand(c.f, inst.src1)
    case Some(r) => AheadLine(sigs, PlanOf(c, sigs), BrZ(BranchTest(inst.op), r, l), k);
    case None =>
      UnitTables(c);
      LoadedBranch(sigs, PlanOf(c, sigs), c.f, inst, k, LiveRegs(c, sigs, i));
  }

  lemma LoadedBranch(sigs: Sigs, pl: Plan, f: StackFrame, inst: IrInst, k: seq<Instr>, live: set<Reg>)
    requires TablesOk(f) && IsValue(inst.src1) && RegForOperand(f, inst.src1).None?
    requires pl.at(NameOf(inst.dest)) <= live && Ahead(sigs, pl, k) <= live && Base(f) <= live
    ensures Ahead(sigs, pl, BranchCode(f, inst) + k) <= live
  {
    hide Ahead, LoadCode, Reads, DefsOf, Base, TablesOk;
    var load, b := LoadCode(f, inst.src1, T(0)), BrZ(BranchTest(inst.op), T(0), NameOf(inst.dest));
    LoadReads(f, inst.src1, T(0));
    NotScratch(f, inst.src1);
    AheadLine(sigs, pl, b, k);
    AheadWithin(sigs, pl, load, [b] + k, Base(f) + OperandRegs(f, inst.src1), {T(0)} + live, live);
    assert load + ([b] + k) == BranchCode(f, inst) + k;
  }
}
