/** A compiled body follows the intermediate representation, instruction by instruction. */
module BodySim {
  import opened Word
  import opened Ir
  import opened IrFlow
  import opened IrMachine
  import opened Rv32
  import opened Frame
  import opened Liveness
  import opened TempRanges
  import opened Allocation
  import opened Selection
  import opened BinaryOp
  import opened Compare
  import opened Body
  import opened PlainCode
  import opened Homes
  import opened AllocSim

  // --------------------------------------------------------------------------
  // Sources
  // --------------------------------------------------------------------------

  /** An operand instruction i reads. */
  predicate ReadBy(inst: IrInst, o: Operand)
  {
    o == inst.src1 || o == inst.src2 || (ReadsDest(inst.op) && o == inst.dest)
  }

  /** A source that has a value has it in the machine state. */
  lemma EvalIsVal(c: Unit, h: Home, i: nat, st: IrState, s: State, o: Operand)
    requires WellFormed(c) && GlobalsKnown(c, h) && Related(c, h, i, st, s) && i < |c.ir|
    requires ReadBy(c.ir[i], o) && Eval(st, o).Some?
    ensures IsValue(o) && OperandOk(c.f, o) && Val(c.f, s, o) == Eval(st, o).value
  {
    hide WellFormed, HomePlace, PathLive, Protected, LocalOffset, PlaceOf, TablesFor;
    if o.Local? { PathHere(c.ir, i, o.name); }
    if IsVariable(o) {
      PlaceIsHome(c, h, s, o);
      KnownOk(c, h, o);
    }
  }

  lemma KnownOk(c: Unit, h: Home, o: Operand)
    requires WellFormed(c) && Known(c, h, o)
    ensures OperandOk(c.f, o)
  {
    hide DefinitionsSafe, TempsOk, IncomingKept, RegistersSafe, ScratchFree, LocalOffset, Locals, RegForOperand,
         ParamsFirst, DistinctParams, NoGlobalClash, LabelsReadNothing, SavedCovers;
    if RegForOperand(c.f, o).Some? { RegisterOk(c.f, o); }
  }

  // --------------------------------------------------------------------------
  // Instructions that compute a value
  // --------------------------------------------------------------------------

  /** A result in the destination register, or in t0, settled in the destination's place. */
  lemma Settled(f: StackFrame, s: State, t: State, dest: Operand, v: i32, spill: bool)
    requires IsVariable(dest) && OperandOk(f, dest) && Computed(s, t, DestRegOrT0(f, dest), v, spill)
    ensures Written(s, Run(SettleCode(f, dest), t), PlaceOf(f, s, dest), v, spill)
  {
    hide Run, StoreCode, LocalOffset, Wrap;
    if RegForOperand(f, dest).Some? {
      RunEmpty(t);
    } else {
      StoreCorrect(f, T(0), dest, t);
    }
  }

  lemma MoveWritten(f: StackFrame, o: Operand, dest: Operand, s: State)
    requires IsValue(o) && IsVariable(dest) && OperandOk(f, o) && OperandOk(f, dest) && ConstantsHold(f, s)
    ensures Written(s, Run(MoveCode(f, o, dest), s), PlaceOf(f, s, dest), Val(f, s, o), false)
  {
    hide Run, LoadCode, SettleCode, PlaceOf;
    LoadCorrect(f, o, DestRegOrT0(f, dest), s);
    RunAppend(LoadCode(f, o, DestRegOrT0(f, dest)), SettleCode(f, dest), s);
    Settled(f, s, Run(LoadCode(f, o, DestRegOrT0(f, dest)), s), dest, Val(f, s, o), false);
  }

  /** No hoisted constant shares the register a result is computed in. */
  lemma ConstantsAway(c: Unit, dest: Operand)
    requires TablesFor(c.ir, c.f) && IsVariable(dest)
    ensures forall k :: k in c.f.constantRegAlloc ==> c.f.constantRegAlloc[k] != DestRegOrT0(c.f, dest)
  {
    hide DefinitionsSafe, TempsOk, IncomingKept, RegistersSafe, ScratchFree, FrameFits, RegForOperand;
  }

  lemma CompareWritten(c: Unit, inst: IrInst, s: State)
    requires TablesFor(c.ir, c.f) && CompareShaped(inst) && IsVariable(inst.dest) && OperandOk(c.f, inst.dest)
    requires OperandOk(c.f, inst.src1) && OperandOk(c.f, inst.src2) && ConstantsHold(c.f, s)
    ensures Written(s, Run(CompareOpCode(c.f, inst), s), PlaceOf(c.f, s, inst.dest),
                    Bit(Compares(inst.op, Val(c.f, s, inst.src1), Val(c.f, s, inst.src2))), false)
  {
    hide Run, CompareCode, SettleCode, PlaceOf, TablesFor, Compares;
    var dest := DestRegOrT0(c.f, inst.dest);
    ConstantsAway(c, inst.dest);
    CompareCorrect(c.f, inst, dest, s);
    RunAppend(CompareCode(c.f, inst, dest), SettleCode(c.f, inst.dest), s);
    Settled(c.f, s, Run(CompareCode(c.f, inst, dest), s), inst.dest,
            Bit(Compares(inst.op, Val(c.f, s, inst.src1), Val(c.f, s, inst.src2))), false);
  }

  /** The sequences that save a dividend in t3 do so only where nothing lives there. */
  lemma SpillIsAllowed(c: Unit, i: nat)
    requires TablesFor(c.ir, c.f) && i < |c.ir| && BinaryShaped(c.ir[i]) && OperandOk(c.f, c.ir[i].src1)
    ensures SpillAllowed(c, SpillsT3(c.f, c.ir[i]))
    ensures (forall k :: k in c.f.constantRegAlloc ==> Allocatable(c.f.constantRegAlloc[k])) ==>
              ConstantsKept(c.f, SpillsT3(c.f, c.ir[i]))
  {
    hide DefinitionsSafe, TempsOk, IncomingKept, RegistersSafe, FrameFits, TablesOk, RegForVar, MagicApplies;
  }

  predicate ComputesValue(inst: IrInst)
  {
    IsVariable(inst.dest) &&
    (IsMove(inst.op) || inst.op.NOT? || IsArithmetic(inst.op) || IsCompare(inst.op) ||
     (inst.op.LOCAL_VAR_DECL? && inst.dest.Local?))
  }

  /** What the non-negativity analysis must deliver: the first source is a local holding a value that
      is not negative. */
  predicate NonnegHere(c: Unit, i: nat, st: IrState)
  {
    i in c.nonneg && i < |c.ir| ==>
      c.ir[i].src1.Local? && (c.ir[i].src1.name in st.locals ==> st.locals[c.ir[i].src1.name] >= 0)
  }

  lemma ValueWritten(c: Unit, h: Home, i: nat, st: IrState, s: State) returns (spill: bool)
    requires WellFormed(c) && GlobalsKnown(c, h) && Related(c, h, i, st, s) && i < |c.ir|
    requires ComputesValue(c.ir[i]) && Computes(c.ir[i], st).Some? && NonnegHere(c, i, st)
    ensures SpillAllowed(c, spill)
    ensures Written(s, Run(InstCode(c, i), s), HomePlace(c.f, h, c.ir[i].dest), Computes(c.ir[i], st).value, spill)
    ensures AllPlain(InstCode(c, i))
  {
    hide WellFormed, Run, InstCode, Computes, Related, HomePlace, Written, Plain, GlobalsKnown, NonnegHere, SpillsT3;
    spill := false;
    NoSpillAllowed(c);
    if BinaryShaped(c.ir[i]) {
      spill := SpillsT3(c.f, c.ir[i]);
      BinaryWritten(c, h, i, st, s);
    } else if CompareShaped(c.ir[i]) {
      CompareDone(c, h, i, st, s);
    } else {
      MoveDone(c, h, i, st, s);
    }
  }

  lemma NoSpillAllowed(c: Unit)
    ensures SpillAllowed(c, false)
  {
  }

  lemma CompareDone(c: Unit, h: Home, i: nat, st: IrState, s: State)
    requires WellFormed(c) && GlobalsKnown(c, h) && Related(c, h, i, st, s) && i < |c.ir|
    requires CompareShaped(c.ir[i]) && IsVariable(c.ir[i].dest) && Computes(c.ir[i], st).Some?
    ensures Written(s, Run(InstCode(c, i), s), HomePlace(c.f, h, c.ir[i].dest), Computes(c.ir[i], st).value, false)
    ensures AllPlain(InstCode(c, i))
  {
    hide WellFormed, Run, CompareOpCode, HomePlace, PlaceOf, Protected, OperandOk, Plain, Val, Written, Compares,
         LocalsHold, GlobalsHold, ArgsHold, ParamsHold, TablesFor;
    var inst := c.ir[i];
    EvalIsVal(c, h, i, st, s, inst.src1);
    EvalIsVal(c, h, i, st, s, inst.src2);
    KnownOk(c, h, inst.dest);
    PlaceIsHome(c, h, s, inst.dest);
    WellFormedTables(c);
    CompareWritten(c, inst, s);
    CompareOpPlain(c.f, inst);
  }

  lemma MoveDone(c: Unit, h: Home, i: nat, st: IrState, s: State)
    requires WellFormed(c) && GlobalsKnown(c, h) && Related(c, h, i, st, s) && i < |c.ir|
    requires ComputesValue(c.ir[i]) && Computes(c.ir[i], st).Some?
    requires !BinaryShaped(c.ir[i]) && !CompareShaped(c.ir[i])
    ensures Written(s, Run(InstCode(c, i), s), HomePlace(c.f, h, c.ir[i].dest), Computes(c.ir[i], st).value, false)
    ensures AllPlain(InstCode(c, i))
  {
    hide WellFormed, Run, MoveCode, HomePlace, PlaceOf, Protected, OperandOk, Plain, Val, Written, LocalsHold,
         GlobalsHold, ArgsHold, ParamsHold;
    var inst := c.ir[i];
    EvalIsVal(c, h, i, st, s, inst.src1);
    if !inst.src2.NoOperand? && !(IsMove(inst.op) || inst.op.LOCAL_VAR_DECL?) { EvalIsVal(c, h, i, st, s, inst.src2); }
    KnownOk(c, h, inst.dest);
    PlaceIsHome(c, h, s, inst.dest);
    MoveWritten(c.f, inst.src1, inst.dest, s);
    MovePlain(c.f, inst.src1, inst.dest);
  }

  lemma WellFormedTables(c: Unit)
    requires WellFormed(c)
    ensures TablesFor(c.ir, c.f)
  {
  }

  lemma MovePlain(f: StackFrame, o: Operand, dest: Operand)
    ensures AllPlain(MoveCode(f, o, dest))
  {
    hide LoadCode, StoreCode;
    OperandPlain(f, o, DestRegOrT0(f, dest));
    OperandPlain(f, dest, T(0));
  }

  lemma CompareOpPlain(f: StackFrame, inst: IrInst)
    requires CompareShaped(inst)
    ensures AllPlain(CompareOpCode(f, inst))
  {
    hide CompareCode, StoreCode;
    ComparePlain(f, inst, DestRegOrT0(f, inst.dest));
    OperandPlain(f, inst.dest, T(0));
  }

  lemma BinaryWritten(c: Unit, h: Home, i: nat, st: IrState, s: State)
    requires WellFormed(c) && GlobalsKnown(c, h) && Related(c, h, i, st, s) && i < |c.ir|
    requires BinaryShaped(c.ir[i]) && Computes(c.ir[i], st).Some? && NonnegHere(c, i, st)
    ensures SpillAllowed(c, SpillsT3(c.f, c.ir[i]))
    ensures Written(s, Run(InstCode(c, i), s), HomePlace(c.f, h, c.ir[i].dest), Computes(c.ir[i], st).value,
                    SpillsT3(c.f, c.ir[i]))
    ensures AllPlain(InstCode(c, i))
  {
    hide WellFormed, Run, BinaryCode, HomePlace, PlaceOf, Protected, OperandOk, Plain, Val, Arithmetic, LocalsHold,
         GlobalsHold, ArgsHold, ParamsHold, SpillsT3;
    var inst := c.ir[i];
    EvalIsVal(c, h, i, st, s, inst.src1);
    if !inst.op.NOT? { EvalIsVal(c, h, i, st, s, inst.src2); }
    KnownOk(c, h, inst.dest);
    PlaceIsHome(c, h, s, inst.dest);
    assert TablesFor(c.ir, c.f) by { WellFormedTables(c); }
    SpillIsAllowed(c, i);
    ConstantsAway(c, inst.dest);
    BinaryCorrect(c.f, inst, i in c.nonneg, s);
    BinaryPlain(c.f, inst, i in c.nonneg);
  }
}
