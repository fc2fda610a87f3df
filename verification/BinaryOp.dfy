/** The whole of `emitBinaryOp`: operand placement, the operation, and the store of the result. */
module BinaryOp {
  import opened Word
  import opened Ir
  import opened Rv32
  import opened Frame
  import Magic
  import opened Selection
  import opened Binary

  predicate BinaryShaped(inst: IrInst)
  {
    && IsVariable(inst.dest)
    && IsValue(inst.src1)
    && (inst.op.NOT? || (IsArithmetic(inst.op) && IsValue(inst.src2)))
  }

  /** What the instruction computes from the values of its sources. */
  function BinaryValue(inst: IrInst, a: i32, b: i32): i32
    requires BinaryShaped(inst)
  {
    if inst.op.NOT? then Bit(a == 0) else Arithmetic(inst.op, a, b)
  }

  function AluFor(op: IrOp): AluOp
    requires IsArithmetic(op)
  {
    match op
    case ADD => AluOp.Add
    case SUB => AluOp.Sub
    case MUL => AluOp.Mul
    case DIV => AluOp.Div
    case MOD => AluOp.Rem
  }

  predicate IsSmallImm(o: Operand) { o.Imm? && Fits12(o.immVal) }

  /** The register the second source is read from; t1 when it must be loaded, and also when its
      own register is the destination, which loading the first source would overwrite. */
  function Src2Reg(f: StackFrame, o: Operand, dest: Reg): Reg
  {
    var r := if o.Imm? then RegForConstant(f, o.immVal) else RegForOperand(f, o);
    if r.Some? && r.value != dest then r.value else T(1)
  }

  function Src2Code(f: StackFrame, o: Operand, dest: Reg): seq<Instr>
  {
    if IsSmallImm(o) || Src2Reg(f, o, dest) != T(1) then [] else LoadCode(f, o, T(1))
  }

  function Src1Reg(f: StackFrame, o: Operand, dest: Reg): Reg
  {
    (if o.Imm? then RegForConstant(f, o.immVal) else RegForOperand(f, o)).GetOr(dest)
  }

  function Src1Code(f: StackFrame, o: Operand, dest: Reg): seq<Instr>
  {
    var r := if o.Imm? then RegForConstant(f, o.immVal) else RegForOperand(f, o);
    if r.Some? then [] else LoadCode(f, o, dest)
  }

  function WideCode(f: StackFrame, inst: IrInst, a: Reg, b: Reg, dest: Reg, nonneg: bool): seq<Instr>
    requires BinaryShaped(inst) && IsArithmetic(inst.op)
  {
    if inst.op.DIV? && inst.src2.Imm? && MagicApplies(inst.src2.immVal) then
      MagicDivCode(f, inst.src2.immVal, a, dest, nonneg)
    else if inst.op.MOD? && inst.src2.Imm? && MagicApplies(inst.src2.immVal) then
      MagicModCode(f, inst.src2.immVal, a, dest, nonneg)
    else [Alu(AluFor(inst.op), dest, a, b)]
  }

  /** Both sources are already in registers. */
  predicate BothInRegisters(f: StackFrame, inst: IrInst)
  {
    && IsVariable(inst.src1) && IsVariable(inst.src2)
    && RegForOperand(f, inst.src1).Some? && RegForOperand(f, inst.src2).Some?
  }

  /** An immediate minus the destination's own register. */
  predicate ImmediateMinusDest(f: StackFrame, inst: IrInst)
  {
    && inst.op.SUB? && inst.src1.Imm? && IsVariable(inst.src2)
    && RegForOperand(f, inst.src2) == Some(DestRegOrT0(f, inst.dest))
  }

  function GeneralCode(f: StackFrame, inst: IrInst, dest: Reg, localNonneg: bool): seq<Instr>
    requires BinaryShaped(inst) && IsArithmetic(inst.op)
  {
    var nonneg := localNonneg || (inst.src1.Imm? && inst.src1.immVal >= 0);
    var a, b := Src1Reg(f, inst.src1, dest), Src2Reg(f, inst.src2, dest);
    Src2Code(f, inst.src2, dest) + Src1Code(f, inst.src1, dest) +
    (if IsSmallImm(inst.src2) then
       SmallImmCode(f, inst.op, inst.src2.immVal, a, dest, localNonneg, nonneg)
     else WideCode(f, inst, a, b, dest, nonneg))
  }

  /** The code that leaves the result in the destination register, or in t0. */
  function OperationCode(f: StackFrame, inst: IrInst, localNonneg: bool): seq<Instr>
    requires BinaryShaped(inst)
  {
    var dest := DestRegOrT0(f, inst.dest);
    if inst.op.NOT? then LoadCode(f, inst.src1, dest) + [AluI(Sltiu, dest, dest, 1)]
    else if ImmediateMinusDest(f, inst) then
      if inst.src1.immVal == 0 then [Alu(Sub, dest, X0, dest)]
      else match RegForConstant(f, inst.src1.immVal) {
        case Some(c) => [Alu(Sub, dest, c, dest)]
        case None =>
          var t := if dest == T(0) then T(2) else T(0);
          [Li(t, inst.src1.immVal), Alu(Sub, dest, t, dest)]
      }
    else if BothInRegisters(f, inst) then
      [Alu(AluFor(inst.op), dest, RegForOperand(f, inst.src1).value, RegForOperand(f, inst.src2).value)]
    else GeneralCode(f, inst, dest, localNonneg)
  }

  function BinaryCode(f: StackFrame, inst: IrInst, localNonneg: bool): seq<Instr>
    requires BinaryShaped(inst)
  {
    OperationCode(f, inst, localNonneg) +
    (if RegForOperand(f, inst.dest).Some? then [] else StoreCode(f, T(0), inst.dest))
  }

  /** Whether the sequence saves its dividend in t3: a remainder through a multiplier whose
      dividend was loaded into t0. */
  predicate SpillsT3(f: StackFrame, inst: IrInst)
  {
    && inst.op.MOD? && inst.src2.Imm? && MagicApplies(inst.src2.immVal)
    && Src1Reg(f, inst.src1, DestRegOrT0(f, inst.dest)) == T(0)
  }

  /** What the generator may assume when it emits an instruction. */
  ghost predicate Ready(f: StackFrame, inst: IrInst, localNonneg: bool, s: State)
    requires BinaryShaped(inst)
  {
    && OperandOk(f, inst.dest) && OperandOk(f, inst.src1)
    && (inst.op.NOT? || OperandOk(f, inst.src2))
    && ConstantsHold(f, s) && ConstantsKept(f, SpillsT3(f, inst))
    && (forall c :: c in f.constantRegAlloc ==> f.constantRegAlloc[c] != DestRegOrT0(f, inst.dest))
    && (localNonneg ==> inst.src1.Local? && Val(f, s, inst.src1) >= 0)
  }

  // --------------------------------------------------------------------------
  // Correctness
  // --------------------------------------------------------------------------

  /** Values survive code that changes only scratch registers. */
  lemma ValSame(f: StackFrame, o: Operand, s: State, t: State)
    requires IsValue(o) && OperandOk(f, o) && SameBut(s, t, false)
    ensures Val(f, t, o) == Val(f, s, o)
    ensures IsVariable(o) ==> PlaceOf(f, t, o) == PlaceOf(f, s, o)
  {
  }

  lemma Src2Loaded(f: StackFrame, o: Operand, dest: Reg, s: State)
    requires IsValue(o) && OperandOk(f, o) && ConstantsHold(f, s)
    ensures var t := Run(Src2Code(f, o, dest), s);
            && SameBut(s, t, false)
            && (!IsSmallImm(o) ==> R(t, Src2Reg(f, o, dest)) == Val(f, s, o))
    ensures Src2Reg(f, o, dest) == T(1) || (Kept(Src2Reg(f, o, dest), false) && Src2Reg(f, o, dest) != dest)
  {
    RunEmpty(s);
    LoadCorrect(f, o, T(1), s);
  }

  lemma Src1Loaded(f: StackFrame, o: Operand, dest: Reg, s: State)
    requires IsValue(o) && OperandOk(f, o) && ConstantsHold(f, s)
    requires dest !in {X0, T(1), T(2)}
    ensures var t := Run(Src1Code(f, o, dest), s);
            && Computed(s, t, dest, R(t, dest), false)
            && R(t, Src1Reg(f, o, dest)) == Val(f, s, o)
            && R(t, T(1)) == R(s, T(1))
    ensures Src1Reg(f, o, dest) == dest || Allocatable(Src1Reg(f, o, dest))
  {
    RunEmpty(s);
    LoadCorrect(f, o, dest, s);
  }

  predicate ResultRegister(r: Reg) { r == T(0) || Allocatable(r) }

  /** After the operand loads, the two source registers hold the source values. */
  lemma SourcesLoaded(f: StackFrame, src1: Operand, src2: Operand, dest: Reg, s: State)
    requires IsValue(src1) && IsValue(src2) && OperandOk(f, src1) && OperandOk(f, src2)
    requires ConstantsHold(f, s) && ResultRegister(dest)
    requires forall c :: c in f.constantRegAlloc ==> f.constantRegAlloc[c] != dest
    ensures var t := Run(Src2Code(f, src2, dest) + Src1Code(f, src1, dest), s);
            && Computed(s, t, dest, R(t, dest), false)
            && R(t, Src1Reg(f, src1, dest)) == Val(f, s, src1)
            && (!IsSmallImm(src2) ==> R(t, Src2Reg(f, src2, dest)) == Val(f, s, src2))
            && ConstantsHold(f, t)
    ensures ResultRegister(Src1Reg(f, src1, dest))
  {
    hide Run, R, Src1Code, Src2Code, Src1Reg, Src2Reg;
    RunAppend(Src2Code(f, src2, dest), Src1Code(f, src1, dest), s);
    var s1 := Run(Src2Code(f, src2, dest), s);
    Src2Loaded(f, src2, dest, s);
    ValSame(f, src1, s, s1);
    Src1Loaded(f, src1, dest, s1);
  }

  lemma WideCorrect(f: StackFrame, inst: IrInst, a: Reg, b: Reg, dest: Reg, nonneg: bool, s: State)
    requires BinaryShaped(inst) && IsArithmetic(inst.op)
    requires ConstantsHold(f, s) && ResultRegister(dest) && ResultRegister(a)
    requires var spill := inst.op.MOD? && inst.src2.Imm? && MagicApplies(inst.src2.immVal) && a == T(0);
             ConstantsKept(f, spill)
    requires nonneg ==> R(s, a) >= 0
    requires inst.src2.Imm? ==> R(s, b) == inst.src2.immVal
    ensures var spill := inst.op.MOD? && inst.src2.Imm? && MagicApplies(inst.src2.immVal) && a == T(0);
            Computed(s, Run(WideCode(f, inst, a, b, dest, nonneg), s), dest,
                     Arithmetic(inst.op, R(s, a), R(s, b)), spill)
  {
    hide RvDiv, RvRem, Wrap, Run, MagicDivCode, MagicModCode;
    if inst.op.DIV? && inst.src2.Imm? && MagicApplies(inst.src2.immVal) {
      MagicDivCorrect(f, inst.src2.immVal, a, dest, nonneg, s);
    } else if inst.op.MOD? && inst.src2.Imm? && MagicApplies(inst.src2.immVal) {
      MagicModCorrect(f, inst.src2.immVal, a, dest, nonneg, s);
    } else {
      AluStep(inst.op, dest, a, b, s);
    }
  }

  lemma AluStep(op: IrOp, dest: Reg, a: Reg, b: Reg, s: State)
    requires IsArithmetic(op) && dest != X0
    ensures Computed(s, Run([Alu(AluFor(op), dest, a, b)], s), dest, Arithmetic(op, R(s, a), R(s, b)), false)
  {
    hide RvDiv, RvRem, Wrap;
    Run1(Alu(AluFor(op), dest, a, b), s);
  }

  lemma SmallImmCorrect(f: StackFrame, op: IrOp, imm: i32, a: Reg, dest: Reg, localNonneg: bool, nonneg: bool, s: State)
    requires IsArithmetic(op) && Fits12(imm)
    requires ConstantsHold(f, s) && ResultRegister(dest) && ResultRegister(a)
    requires ConstantsKept(f, op.MOD? && MagicApplies(imm) && a == T(0))
    requires localNonneg || nonneg ==> R(s, a) >= 0
    ensures Computed(s, Run(SmallImmCode(f, op, imm, a, dest, localNonneg, nonneg), s), dest,
                     Arithmetic(op, R(s, a), imm), op.MOD? && MagicApplies(imm) && a == T(0))
  {
    hide RvDiv, RvRem, Wrap, Run, Step, R, MulImmCode, DivImmCode, ModImmCode;
    match op
    case ADD => AddImmStep(a, dest, imm, s);
    case SUB => AddImmStep(a, dest, -(imm as int), s);
    case MUL => MulImmCorrect(f, imm, a, dest, s);
    case DIV => DivImmCorrect(f, imm, a, dest, localNonneg, nonneg, s);
    case MOD => ModImmCorrect(f, imm, a, dest, localNonneg, nonneg, s);
  }

  lemma AddImmStep(src: Reg, dest: Reg, imm: int, s: State)
    requires dest != X0
    ensures Computed(s, Run([AluI(Addi, dest, src, imm)], s), dest, Wrap(R(s, src) + imm), false)
  {
    hide Wrap;
    Run1(AluI(Addi, dest, src, imm), s);
  }

  lemma GeneralCorrect(f: StackFrame, inst: IrInst, localNonneg: bool, s: State)
    requires BinaryShaped(inst) && IsArithmetic(inst.op) && Ready(f, inst, localNonneg, s)
    ensures var dest := DestRegOrT0(f, inst.dest);
            Computed(s, Run(GeneralCode(f, inst, dest, localNonneg), s), dest,
                     Arithmetic(inst.op, Val(f, s, inst.src1), Val(f, s, inst.src2)), SpillsT3(f, inst))
  {
    hide Run, R, Src1Code, Src2Code, Src1Reg, Src2Reg, SmallImmCode, WideCode, Arithmetic;
    var dest := DestRegOrT0(f, inst.dest);
    var nonneg := localNonneg || (inst.src1.Imm? && inst.src1.immVal >= 0);
    var a, b := Src1Reg(f, inst.src1, dest), Src2Reg(f, inst.src2, dest);
    var loads := Src2Code(f, inst.src2, dest) + Src1Code(f, inst.src1, dest);
    SourcesLoaded(f, inst.src1, inst.src2, dest, s);
    var t := Run(loads, s);
    if IsSmallImm(inst.src2) {
      var imm := inst.src2.immVal;
      RunAppend(loads, SmallImmCode(f, inst.op, imm, a, dest, localNonneg, nonneg), s);
      SmallImmCorrect(f, inst.op, imm, a, dest, localNonneg, nonneg, t);
    } else {
      RunAppend(loads, WideCode(f, inst, a, b, dest, nonneg), s);
      WideCorrect(f, inst, a, b, dest, nonneg, t);
    }
  }

  lemma OperationCorrect(f: StackFrame, inst: IrInst, localNonneg: bool, s: State)
    requires BinaryShaped(inst) && Ready(f, inst, localNonneg, s)
    ensures Computed(s, Run(OperationCode(f, inst, localNonneg), s), DestRegOrT0(f, inst.dest),
                     BinaryValue(inst, Val(f, s, inst.src1), if inst.op.NOT? then 0 else Val(f, s, inst.src2)),
                     SpillsT3(f, inst))
  {
    hide Run, LoadCode, GeneralCode, Arithmetic, R;
    var dest := DestRegOrT0(f, inst.dest);
    if inst.op.NOT? {
      NotCorrect(f, inst.src1, dest, s);
    } else if ImmediateMinusDest(f, inst) {
      ImmediateMinusCorrect(f, inst, localNonneg, s);
    } else if BothInRegisters(f, inst) {
      AluStep(inst.op, dest, RegForOperand(f, inst.src1).value, RegForOperand(f, inst.src2).value, s);
    } else {
      GeneralCorrect(f, inst, localNonneg, s);
    }
  }

  lemma NotCorrect(f: StackFrame, o: Operand, dest: Reg, s: State)
    requires IsValue(o) && OperandOk(f, o) && ConstantsHold(f, s) && ResultRegister(dest)
    ensures Computed(s, Run(LoadCode(f, o, dest) + [AluI(Sltiu, dest, dest, 1)], s), dest,
                     Bit(Val(f, s, o) == 0), false)
  {
    hide Run, R, LoadCode;
    LoadCorrect(f, o, dest, s);
    RunAppend(LoadCode(f, o, dest), [AluI(Sltiu, dest, dest, 1)], s);
    ImmStep(Sltiu, dest, dest, 1, Run(LoadCode(f, o, dest), s));
  }

  lemma ImmediateMinusCorrect(f: StackFrame, inst: IrInst, localNonneg: bool, s: State)
    requires BinaryShaped(inst) && Ready(f, inst, localNonneg, s) && ImmediateMinusDest(f, inst)
    ensures Computed(s, Run(OperationCode(f, inst, localNonneg), s), DestRegOrT0(f, inst.dest),
                     Arithmetic(inst.op, Val(f, s, inst.src1), Val(f, s, inst.src2)), false)
  {
    hide Run, Wrap, GeneralCode;
    var dest := DestRegOrT0(f, inst.dest);
    var k := inst.src1.immVal;
    if k == 0 {
      NegateStep(dest, dest, s);
    } else {
      match RegForConstant(f, k)
      case Some(c) => AluStep(SUB, dest, c, dest, s);
      case None =>
        Run1(Li(T(0), k), s);
        RunAppend([Li(T(0), k)], [Alu(Sub, dest, T(0), dest)], s);
        assert [Li(T(0), k), Alu(Sub, dest, T(0), dest)] == [Li(T(0), k)] + [Alu(Sub, dest, T(0), dest)];
        AluStep(SUB, dest, T(0), dest, Run([Li(T(0), k)], s));
    }
  }

  /** Main result: on every machine state in which the operands are where the tables say, the
      emitted code stores the operation's value in the destination's place and changes nothing
      else but scratch registers, for every overlap of destination and sources. */
  lemma BinaryCorrect(f: StackFrame, inst: IrInst, localNonneg: bool, s: State)
    requires BinaryShaped(inst) && Ready(f, inst, localNonneg, s)
    ensures Written(s, Run(BinaryCode(f, inst, localNonneg), s), PlaceOf(f, s, inst.dest),
                    BinaryValue(inst, Val(f, s, inst.src1), if inst.op.NOT? then 0 else Val(f, s, inst.src2)),
                    SpillsT3(f, inst))
  {
    hide Run, OperationCode, StoreCode, BinaryValue, SpillsT3;
    OperationCorrect(f, inst, localNonneg, s);
    var t := Run(OperationCode(f, inst, localNonneg), s);
    if RegForOperand(f, inst.dest).Some? {
      assert OperationCode(f, inst, localNonneg) + [] == OperationCode(f, inst, localNonneg);
    } else {
      RunAppend(OperationCode(f, inst, localNonneg), StoreCode(f, T(0), inst.dest), s);
      StoreCorrect(f, T(0), inst.dest, t);
    }
  }

  /** The exact reach of the t3 hazard: when the sequence spills, t3 ends up holding the dividend. */
  lemma SpillOverwritesT3(f: StackFrame, inst: IrInst, localNonneg: bool, s: State)
    requires BinaryShaped(inst) && Ready(f, inst, localNonneg, s) && SpillsT3(f, inst)
    ensures RegForOperand(f, inst.dest).None?
    ensures R(Run(BinaryCode(f, inst, localNonneg), s), T(3)) == Val(f, s, inst.src1)
  {
    hide Run, R, Src1Code, Src2Code, LoadCode, StoreCode, MagicModCode;
    var dest := DestRegOrT0(f, inst.dest);
    var imm := inst.src2.immVal;
    var nonneg := localNonneg || (inst.src1.Imm? && inst.src1.immVal >= 0);
    var loads := Src2Code(f, inst.src2, dest) + Src1Code(f, inst.src1, dest);
    SpillPlaces(f, inst);
    SourcesLoaded(f, inst.src1, inst.src2, dest, s);
    var t := Run(loads, s);
    MagicModCorrect(f, imm, T(0), dest, nonneg, t);
    var op := OperationCode(f, inst, localNonneg);
    assert op == loads + MagicModCode(f, imm, T(0), dest, nonneg) by { NotPower(imm); }
    RunAppend(loads, MagicModCode(f, imm, T(0), dest, nonneg), s);
    RunAppend(op, StoreCode(f, T(0), inst.dest), s);
    StoreCorrect(f, T(0), inst.dest, Run(op, s));
  }

  /** Where t3 is not the destination it is kept exactly when the sequence does not spill, or t3 happens to hold the
      dividend already. */
  lemma SpillExactly(f: StackFrame, inst: IrInst, localNonneg: bool, s: State)
    requires BinaryShaped(inst) && Ready(f, inst, localNonneg, s) && RegForOperand(f, inst.dest) != Some(T(3))
    ensures R(Run(BinaryCode(f, inst, localNonneg), s), T(3)) == R(s, T(3)) <==>
            (SpillsT3(f, inst) ==> Val(f, s, inst.src1) == R(s, T(3)))
  {
    hide Run, BinaryCode, SpillsT3, Val, R, BinaryValue;
    BinaryCorrect(f, inst, localNonneg, s);
    if SpillsT3(f, inst) { SpillOverwritesT3(f, inst, localNonneg, s); }
  }

  lemma NotPower(imm: i32)
    requires MagicApplies(imm)
    ensures imm !in {-1, 0, 1} && !(imm > 0 && IsPowerOfTwo(imm))
  {
    CtzPow2(0);
  }

  lemma SpillPlaces(f: StackFrame, inst: IrInst)
    requires BinaryShaped(inst) && SpillsT3(f, inst)
    requires OperandOk(f, inst.src1) && OperandOk(f, inst.dest)
    requires forall c :: c in f.constantRegAlloc ==> Kept(f.constantRegAlloc[c], true)
    ensures RegForOperand(f, inst.dest).None? && DestRegOrT0(f, inst.dest) == T(0)
  {
  }

  // --------------------------------------------------------------------------
  // Which sequences an assembler accepts
  // --------------------------------------------------------------------------

  /** The guard of the failing branches: a subtraction of -2048 needs the immediate 2048, and a
      division or remainder by one, unless the dividend is known non-negative, a shift by 32. */
  predicate Assembles(inst: IrInst, localNonneg: bool)
  {
    !(inst.src2.Imm? &&
      ((inst.op.SUB? && inst.src2.immVal == -2048) ||
       ((inst.op.DIV? || inst.op.MOD?) && inst.src2.immVal == 1 && !localNonneg)))
  }

  lemma EncodableAppend(a: seq<Instr>, b: seq<Instr>)
    ensures AllEncodable(a + b) <==> AllEncodable(a) && AllEncodable(b)
  {
    forall i | AllEncodable(a + b) && i in a ensures Encodable(i) { assert i in a + b; }
    forall i | AllEncodable(a + b) && i in b ensures Encodable(i) { assert i in a + b; }
  }

  lemma OperandCodeEncodable(f: StackFrame, o: Operand, reg: Reg)
    requires OperandOk(f, o)
    ensures AllEncodable(LoadCode(f, o, reg)) && AllEncodable(StoreCode(f, reg, o))
  {
  }

  lemma MagicEncodable(f: StackFrame, imm: i32, src: Reg, dest: Reg, nonneg: bool)
    requires MagicApplies(imm)
    ensures AllEncodable(MagicDivCode(f, imm, src, dest, nonneg))
    ensures AllEncodable(MagicModCode(f, imm, src, dest, nonneg))
  {
    hide Wrap, Magic.IsMagic, Magic.MagicShift, Magic.Multiplier;
    var d := Abs(imm);
    Magic.MagicExists(d);
    assert AllEncodable(HighProductCode(f, Magic.Multiplier(d), Magic.MagicShift(d), src));
    assert AllEncodable(SignFixCode(imm, src, nonneg));
    assert AllEncodable(MagicQuotientCode(f, imm, src, nonneg));
  }

  lemma SmallImmEncodable(f: StackFrame, op: IrOp, imm: i32, src: Reg, dest: Reg, localNonneg: bool, nonneg: bool)
    requires IsArithmetic(op) && Fits12(imm)
    ensures AllEncodable(SmallImmCode(f, op, imm, src, dest, localNonneg, nonneg)) <==>
            !((op.SUB? && imm == -2048) || ((op.DIV? || op.MOD?) && imm == 1 && !localNonneg))
  {
    hide MulImmCode, DivImmCode, ModImmCode;
    match op
    case ADD =>
    case SUB => assert AluI(Addi, dest, src, -(imm as int)) in [AluI(Addi, dest, src, -(imm as int))];
    case MUL => MulImmEncodable(f, imm, src, dest);
    case DIV => DivImmEncodable(f, imm, src, dest, localNonneg, nonneg);
    case MOD => ModImmEncodable(f, imm, src, dest, localNonneg, nonneg);
  }

  lemma MulImmEncodable(f: StackFrame, imm: i32, src: Reg, dest: Reg)
    requires Fits12(imm)
    ensures AllEncodable(MulImmCode(f, imm, src, dest))
  {
    hide IsPowerOfTwo, Ctz;
    if imm > 0 && IsPowerOfTwo(imm) { SmallPower(imm); }
    if imm < 0 && IsPowerOfTwo(-(imm as int)) { SmallPower(-(imm as int)); }
  }

  lemma DivImmEncodable(f: StackFrame, imm: i32, src: Reg, dest: Reg, localNonneg: bool, nonneg: bool)
    requires Fits12(imm)
    ensures AllEncodable(DivImmCode(f, imm, src, dest, localNonneg, nonneg)) <==> !(imm == 1 && !localNonneg)
  {
    hide MagicDivCode;
    CtzPow2(0);
    if imm > 0 && IsPowerOfTwo(imm) {
      SmallPower(imm);
      EncodableAppend(BiasCode(src, Ctz(imm)), [AluI(Srai, dest, T(1), Ctz(imm))]);
      BiasEncodable(src, Ctz(imm));
    } else if MagicApplies(imm) {
      MagicEncodable(f, imm, src, dest, nonneg);
    }
  }

  lemma BiasEncodable(src: Reg, k: nat)
    requires k <= 11
    ensures AllEncodable(BiasCode(src, k)) <==> k != 0
  {
    assert AluI(Srli, T(1), T(1), 32 - k) in BiasCode(src, k);
  }

  lemma ModImmEncodable(f: StackFrame, imm: i32, src: Reg, dest: Reg, localNonneg: bool, nonneg: bool)
    requires Fits12(imm)
    ensures AllEncodable(ModImmCode(f, imm, src, dest, localNonneg, nonneg)) <==> !(imm == 1 && !localNonneg)
  {
    hide MagicModCode;
    CtzPow2(0);
    if imm > 0 && IsPowerOfTwo(imm) {
      SmallPower(imm);
      EncodableAppend(BiasCode(src, Ctz(imm)),
                      [AluI(Srai, T(1), T(1), Ctz(imm)), AluI(Slli, T(1), T(1), Ctz(imm)), Alu(Sub, dest, src, T(1))]);
      BiasEncodable(src, Ctz(imm));
    } else if MagicApplies(imm) {
      MagicEncodable(f, imm, src, dest, nonneg);
    }
  }

  /** The emitted code assembles exactly when the instruction avoids the two encoding corners. */
  lemma BinaryEncodable(f: StackFrame, inst: IrInst, localNonneg: bool)
    requires BinaryShaped(inst)
    requires OperandOk(f, inst.dest) && OperandOk(f, inst.src1) && (inst.op.NOT? || OperandOk(f, inst.src2))
    ensures AllEncodable(BinaryCode(f, inst, localNonneg)) <==> Assembles(inst, localNonneg)
  {
    hide LoadCode, StoreCode, SmallImmCode, WideCode;
    var dest := DestRegOrT0(f, inst.dest);
    var op := OperationCode(f, inst, localNonneg);
    EncodableAppend(op, if RegForOperand(f, inst.dest).Some? then [] else StoreCode(f, T(0), inst.dest));
    OperandCodeEncodable(f, inst.dest, T(0));
    OperandCodeEncodable(f, inst.src1, dest);
    if inst.op.NOT? {
      EncodableAppend(LoadCode(f, inst.src1, dest), [AluI(Sltiu, dest, dest, 1)]);
    } else if !ImmediateMinusDest(f, inst) && !BothInRegisters(f, inst) {
      GeneralEncodable(f, inst, dest, localNonneg);
    }
  }

  lemma GeneralEncodable(f: StackFrame, inst: IrInst, dest: Reg, localNonneg: bool)
    requires BinaryShaped(inst) && IsArithmetic(inst.op)
    requires OperandOk(f, inst.src1) && OperandOk(f, inst.src2)
    ensures AllEncodable(GeneralCode(f, inst, dest, localNonneg)) <==> Assembles(inst, localNonneg)
  {
    hide LoadCode, SmallImmCode, MagicDivCode, MagicModCode;
    var nonneg := localNonneg || (inst.src1.Imm? && inst.src1.immVal >= 0);
    var a, b := Src1Reg(f, inst.src1, dest), Src2Reg(f, inst.src2, dest);
    var loads := Src2Code(f, inst.src2, dest) + Src1Code(f, inst.src1, dest);
    OperandCodeEncodable(f, inst.src1, dest);
    OperandCodeEncodable(f, inst.src2, T(1));
    EncodableAppend(Src2Code(f, inst.src2, dest), Src1Code(f, inst.src1, dest));
    if IsSmallImm(inst.src2) {
      EncodableAppend(loads, SmallImmCode(f, inst.op, inst.src2.immVal, a, dest, localNonneg, nonneg));
      SmallImmEncodable(f, inst.op, inst.src2.immVal, a, dest, localNonneg, nonneg);
    } else {
      EncodableAppend(loads, WideCode(f, inst, a, b, dest, nonneg));
      if inst.src2.Imm? && MagicApplies(inst.src2.immVal) {
        MagicEncodable(f, inst.src2.immVal, a, dest, nonneg);
      }
    }
  }
}
