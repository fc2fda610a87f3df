/** Comparisons, and the comparison fused with the branch that consumes it. */
module Compare {
  import opened Word
  import opened Ir
  import opened Rv32
  import opened Frame
  import opened Selection
  import opened Binary
  import opened BinaryOp

  predicate CompareShaped(inst: IrInst)
  {
    IsCompare(inst.op) && IsValue(inst.src1) && IsValue(inst.src2)
  }

  function SmallCompareCode(f: StackFrame, op: IrOp, imm: i32, a: Reg, dest: Reg): seq<Instr>
    requires IsCompare(op)
  {
    match op
    case LT => [AluI(Slti, dest, a, imm)]
    case GT => ConstantCode(f, imm) + [Alu(Slt, dest, ConstantReg(f, imm), a)]
    case LE => [AluI(Slti, dest, a, imm + 1)]
    case GE => [AluI(Slti, dest, a, imm), AluI(Xori, dest, dest, 1)]
    case EQ => ConstantCode(f, imm) + [Alu(Sub, dest, a, ConstantReg(f, imm)), Seqz(dest, dest)]
    case NE => ConstantCode(f, imm) + [Alu(Sub, dest, a, ConstantReg(f, imm)), Snez(dest, dest)]
  }

  function WideCompareCode(op: IrOp, a: Reg, b: Reg, dest: Reg): seq<Instr>
    requires IsCompare(op)
  {
    match op
    case LT => [Alu(Slt, dest, a, b)]
    case GT => [Alu(Slt, dest, b, a)]
    case LE => [Alu(Slt, dest, b, a), AluI(Xori, dest, dest, 1)]
    case GE => [Alu(Slt, dest, a, b), AluI(Xori, dest, dest, 1)]
    case EQ => [Alu(Sub, dest, a, b), Seqz(dest, dest)]
    case NE => [Alu(Sub, dest, a, b), Snez(dest, dest)]
  }

  /** The comparison's 0 or 1 in a chosen register. */
  function CompareCode(f: StackFrame, inst: IrInst, dest: Reg): seq<Instr>
    requires CompareShaped(inst)
  {
    var a, b := Src1Reg(f, inst.src1, dest), Src2Reg(f, inst.src2, dest);
    Src2Code(f, inst.src2, dest) + Src1Code(f, inst.src1, dest) +
    (if IsSmallImm(inst.src2) then SmallCompareCode(f, inst.op, inst.src2.immVal, a, dest)
     else WideCompareCode(inst.op, a, b, dest))
  }

  ghost predicate CompareReady(f: StackFrame, inst: IrInst, dest: Reg, s: State)
    requires CompareShaped(inst)
  {
    && OperandOk(f, inst.src1) && OperandOk(f, inst.src2) && ConstantsHold(f, s)
    && ResultRegister(dest)
    && (forall c :: c in f.constantRegAlloc ==> f.constantRegAlloc[c] != dest)
  }

  lemma FlipStep(i: Instr, dest: Reg, b: bool, s: State)
    requires dest != X0 && Computed(s, Run([i], s), dest, Bit(b), false)
    ensures Computed(s, Run([i, AluI(Xori, dest, dest, 1)], s), dest, Bit(!b), false)
  {
    hide Run, R, ImmValue, Step;
    RunAppend([i], [AluI(Xori, dest, dest, 1)], s);
    assert [i, AluI(Xori, dest, dest, 1)] == [i] + [AluI(Xori, dest, dest, 1)];
    ImmStep(Xori, dest, dest, 1, Run([i], s));
    FlippedBit(Bit(b));
  }

  lemma SetLess(dest: Reg, a: Reg, b: Reg, s: State)
    requires dest != X0
    ensures Computed(s, Run([Alu(Slt, dest, a, b)], s), dest, Bit(R(s, a) < R(s, b)), false)
  {
    AluRun(Slt, dest, a, b, s);
  }

  lemma SetEqual(dest: Reg, a: Reg, b: Reg, s: State)
    requires dest != X0
    ensures Computed(s, Run([Alu(Sub, dest, a, b), Seqz(dest, dest)], s), dest, Bit(R(s, a) == R(s, b)), false)
    ensures Computed(s, Run([Alu(Sub, dest, a, b), Snez(dest, dest)], s), dest, Bit(R(s, a) != R(s, b)), false)
  {
    hide Wrap, Run;
    ZeroDifference(R(s, a), R(s, b));
    Run2(Alu(Sub, dest, a, b), Seqz(dest, dest), s);
    Run2(Alu(Sub, dest, a, b), Snez(dest, dest), s);
  }

  lemma WideCompareCorrect(op: IrOp, a: Reg, b: Reg, dest: Reg, s: State)
    requires IsCompare(op) && dest != X0
    ensures Computed(s, Run(WideCompareCode(op, a, b, dest), s), dest, Bit(Compares(op, R(s, a), R(s, b))), false)
  {
    hide Run, R;
    SetLess(dest, a, b, s);
    SetLess(dest, b, a, s);
    SetEqual(dest, a, b, s);
    match op
    case LE => FlipStep(Alu(Slt, dest, b, a), dest, R(s, b) < R(s, a), s);
    case GE => FlipStep(Alu(Slt, dest, a, b), dest, R(s, a) < R(s, b), s);
    case _ =>
  }

  lemma SetLessImm(dest: Reg, a: Reg, imm: int, s: State)
    requires dest != X0
    ensures Computed(s, Run([AluI(Slti, dest, a, imm)], s), dest, Bit(R(s, a) < imm), false)
  {
    Run1(AluI(Slti, dest, a, imm), s);
  }

  lemma SmallCompareCorrect(f: StackFrame, op: IrOp, imm: i32, a: Reg, dest: Reg, s: State)
    requires IsCompare(op) && Fits12(imm) && ConstantsHold(f, s)
    requires ResultRegister(a) && ResultRegister(dest)
    ensures Computed(s, Run(SmallCompareCode(f, op, imm, a, dest), s), dest,
                     Bit(Compares(op, R(s, a), imm)), false)
  {
    hide Run, R, ConstantCode, ConstantReg;
    var c, r := ConstantCode(f, imm), ConstantReg(f, imm);
    ConstantCorrect(f, imm, a, s);
    var t := Run(c, s);
    match op
    case LT => SetLessImm(dest, a, imm, s);
    case LE => SetLessImm(dest, a, imm + 1, s);
    case GE =>
      SetLessImm(dest, a, imm, s);
      FlipStep(AluI(Slti, dest, a, imm), dest, R(s, a) < imm, s);
    case GT =>
      RunAppend(c, [Alu(Slt, dest, r, a)], s);
      SetLess(dest, r, a, t);
    case EQ =>
      RunAppend(c, [Alu(Sub, dest, a, r), Seqz(dest, dest)], s);
      SetEqual(dest, a, r, t);
    case NE =>
      RunAppend(c, [Alu(Sub, dest, a, r), Snez(dest, dest)], s);
      SetEqual(dest, a, r, t);
  }

  /** A comparison leaves its truth value in the chosen register, for every placement of the
      operands and all six relations. */
  lemma CompareCorrect(f: StackFrame, inst: IrInst, dest: Reg, s: State)
    requires CompareShaped(inst) && CompareReady(f, inst, dest, s)
    ensures Computed(s, Run(CompareCode(f, inst, dest), s), dest,
                     Bit(Compares(inst.op, Val(f, s, inst.src1), Val(f, s, inst.src2))), false)
  {
    hide Run, R, Src1Code, Src2Code, Src1Reg, Src2Reg, SmallCompareCode, WideCompareCode, Compares;
    var a, b := Src1Reg(f, inst.src1, dest), Src2Reg(f, inst.src2, dest);
    var loads := Src2Code(f, inst.src2, dest) + Src1Code(f, inst.src1, dest);
    SourcesLoaded(f, inst.src1, inst.src2, dest, s);
    var t := Run(loads, s);
    if IsSmallImm(inst.src2) {
      RunAppend(loads, SmallCompareCode(f, inst.op, inst.src2.immVal, a, dest), s);
      SmallCompareCorrect(f, inst.op, inst.src2.immVal, a, dest, t);
    } else {
      RunAppend(loads, WideCompareCode(inst.op, a, b, dest), s);
      WideCompareCorrect(inst.op, a, b, dest, t);
    }
  }

  function BranchTest(op: IrOp): ZeroTest { if op.BEQZ? then Eqz else Nez }

  /** Whether the comparison at the head of a pair is consumed by the branch after it alone. */
  predicate Fuses(inst: IrInst, br: IrInst, uses: nat)
  {
    && (br.op.BEQZ? || br.op.BNEZ?) && br.src1.Local? && inst.dest.Local?
    && br.src1.name == inst.dest.name && uses == 1
  }

  /** The fused pair: after the comparison in t0 the emitted branch is taken exactly when the
      branch on the stored comparison result would be. */
  lemma FusedBranchTaken(f: StackFrame, inst: IrInst, br: IrInst, s: State)
    requires CompareShaped(inst) && CompareReady(f, inst, T(0), s)
    requires br.op.BEQZ? || br.op.BNEZ?
    ensures var v := Bit(Compares(inst.op, Val(f, s, inst.src1), Val(f, s, inst.src2)));
            var t := Run(CompareCode(f, inst, T(0)), s);
            && SameBut(s, t, false)
            && (ZeroHolds(BranchTest(br.op), R(t, T(0))) <==> if br.op.BEQZ? then v == 0 else v != 0)
  {
    hide Run, CompareCode, Compares;
    CompareCorrect(f, inst, T(0), s);
  }

  lemma SmallCompareEncodable(f: StackFrame, op: IrOp, imm: i32, a: Reg, dest: Reg)
    requires IsCompare(op) && Fits12(imm)
    ensures AllEncodable(SmallCompareCode(f, op, imm, a, dest)) <==> !(op.LE? && imm == 2047)
  {
    if op.LE? { assert AluI(Slti, dest, a, imm + 1) in SmallCompareCode(f, op, imm, a, dest); }
  }

  /** The one comparison an assembler refuses: at most 2047, which needs the immediate 2048. */
  lemma CompareEncodable(f: StackFrame, inst: IrInst, dest: Reg)
    requires CompareShaped(inst) && OperandOk(f, inst.src1) && OperandOk(f, inst.src2)
    ensures AllEncodable(CompareCode(f, inst, dest)) <==>
            !(inst.op.LE? && inst.src2.Imm? && inst.src2.immVal == 2047)
  {
    hide LoadCode, SmallCompareCode;
    var a, b := Src1Reg(f, inst.src1, dest), Src2Reg(f, inst.src2, dest);
    var loads := Src2Code(f, inst.src2, dest) + Src1Code(f, inst.src1, dest);
    OperandCodeEncodable(f, inst.src1, dest);
    OperandCodeEncodable(f, inst.src2, T(1));
    EncodableAppend(Src2Code(f, inst.src2, dest), Src1Code(f, inst.src1, dest));
    if IsSmallImm(inst.src2) {
      EncodableAppend(loads, SmallCompareCode(f, inst.op, inst.src2.immVal, a, dest));
      SmallCompareEncodable(f, inst.op, inst.src2.immVal, a, dest);
    } else {
      EncodableAppend(loads, WideCompareCode(inst.op, a, b, dest));
    }
  }
}
