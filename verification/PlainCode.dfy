/** Value-computing code never branches, calls or defines a label. */
module PlainCode {
  import opened Ir
  import opened Rv32
  import opened Frame
  import opened Control
  import opened Selection
  import opened Binary
  import opened BinaryOp
  import opened Compare
  import opened Body
  import opened Remainder

  predicate Plain(i: Instr) { IsStraight(i) && !i.Lab? }

  predicate AllPlain(code: seq<Instr>) { forall i :: i in code ==> Plain(i) }

  /** The lines comparisons are made of. */
  predicate IsTest(i: Instr)
  {
    match i
    case Alu(op, _, _, _) => op == Slt
    case AluI(op, _, _, _) => op == Slti || op == Xori
    case Seqz(_, _) => true
    case Snez(_, _) => true
    case _ => false
  }

  /** A plain line that tests nothing. */
  predicate Tame(i: Instr) { Plain(i) && !IsTest(i) }

  predicate AllTame(code: seq<Instr>) { forall i :: i in code ==> Tame(i) }

  lemma OperandPlain(f: StackFrame, o: Operand, reg: Reg)
    ensures AllTame(LoadCode(f, o, reg)) && AllTame(StoreCode(f, reg, o)) && AllTame(SettleCode(f, o))
    ensures forall base, offset :: AllTame(LoadAddressCode(reg, base, offset)) &&
              AllTame(StoreAddressCode(reg, base, offset))
  {
  }

  lemma SmallImmPlain(f: StackFrame, op: IrOp, imm: Word.i32, a: Reg, dest: Reg, localNonneg: bool, nonneg: bool)
    requires IsArithmetic(op)
    ensures AllTame(SmallImmCode(f, op, imm, a, dest, localNonneg, nonneg))
  {
    hide Word.Ctz, Word.IsPowerOfTwo, MagicDivCode, MagicModCode, MagicApplies;
    if MagicApplies(imm) {
      MagicPlain(f, imm, a, dest, nonneg);
    }
  }

  lemma MagicPlain(f: StackFrame, imm: Word.i32, a: Reg, dest: Reg, nonneg: bool)
    requires MagicApplies(imm)
    ensures AllTame(MagicDivCode(f, imm, a, dest, nonneg)) && AllTame(MagicModCode(f, imm, a, dest, nonneg))
  {
    hide Word.Wrap, MagicQuotientCode, Tame;
    assert AllTame(MagicQuotientCode(f, imm, a, nonneg)) by { QuotientPlain(f, imm, a, nonneg); }
    assert Tame(Mv(dest, T(2))) && Tame(Mv(T(3), T(0))) by { MovesPlain(dest); }
    assert AllTame(ConstantCode(f, imm)) by { ConstantPlain(f, imm); }
    var b := if a == T(0) then T(3) else a;
    assert Tame(Alu(Mul, T(2), T(2), ConstantReg(f, imm))) && Tame(Alu(Sub, dest, b, T(2))) by {
      AluPlain(Mul, T(2), T(2), ConstantReg(f, imm));
      AluPlain(Sub, dest, b, T(2));
    }
  }

  lemma MovesPlain(dest: Reg)
    ensures Tame(Mv(dest, T(2))) && Tame(Mv(T(3), T(0)))
  {
  }

  lemma AluPlain(op: AluOp, rd: Reg, a: Reg, b: Reg)
    requires op != Slt
    ensures Tame(Alu(op, rd, a, b))
  {
  }

  lemma ConstantPlain(f: StackFrame, imm: Word.i32)
    ensures AllTame(ConstantCode(f, imm))
  {
  }

  lemma QuotientPlain(f: StackFrame, imm: Word.i32, a: Reg, nonneg: bool)
    requires imm != 0
    ensures AllTame(MagicQuotientCode(f, imm, a, nonneg))
  {
    hide Word.Wrap, Magic.Multiplier, Magic.MagicShift;
    var d := Word.Abs(imm);
    assert AllTame(HighProductCode(f, Magic.Multiplier(d), Magic.MagicShift(d), a));
    assert AllTame(SignFixCode(imm, a, nonneg));
  }

  lemma BinaryPlain(f: StackFrame, inst: IrInst, localNonneg: bool)
    requires BinaryShaped(inst)
    ensures AllTame(BinaryCode(f, inst, localNonneg))
  {
    hide LoadCode, StoreCode, SmallImmCode, WideCode, GeneralCode;
    OperandPlain(f, inst.dest, T(0));
    OperandPlain(f, inst.src1, DestRegOrT0(f, inst.dest));
    if IsArithmetic(inst.op) { GeneralPlain(f, inst, DestRegOrT0(f, inst.dest), localNonneg); }
  }

  lemma GeneralPlain(f: StackFrame, inst: IrInst, dest: Reg, localNonneg: bool)
    requires BinaryShaped(inst) && IsArithmetic(inst.op)
    ensures AllTame(GeneralCode(f, inst, dest, localNonneg))
  {
    hide LoadCode, SmallImmCode, MagicDivCode, MagicModCode, MagicApplies;
    var nonneg := localNonneg || (inst.src1.Imm? && inst.src1.immVal >= 0);
    var a, b := Src1Reg(f, inst.src1, dest), Src2Reg(f, inst.src2, dest);
    OperandPlain(f, inst.src1, dest);
    OperandPlain(f, inst.src2, T(1));
    if IsSmallImm(inst.src2) {
      SmallImmPlain(f, inst.op, inst.src2.immVal, a, dest, localNonneg, nonneg);
    } else if inst.src2.Imm? && MagicApplies(inst.src2.immVal) {
      MagicPlain(f, inst.src2.immVal, a, dest, nonneg);
    }
  }

  lemma ComparePlain(f: StackFrame, inst: IrInst, dest: Reg)
    requires CompareShaped(inst)
    ensures AllPlain(CompareCode(f, inst, dest))
  {
    hide LoadCode, SmallCompareCode, WideCompareCode;
    OperandPlain(f, inst.src1, dest);
    OperandPlain(f, inst.src2, T(1));
    ComparisonPlain(f, inst.op, if inst.src2.Imm? then inst.src2.immVal else 0, Src1Reg(f, inst.src1, dest),
                    Src2Reg(f, inst.src2, dest), dest);
  }

  lemma ComparisonPlain(f: StackFrame, op: IrOp, imm: Word.i32, a: Reg, b: Reg, dest: Reg)
    requires IsCompare(op)
    ensures AllPlain(SmallCompareCode(f, op, imm, a, dest)) && AllPlain(WideCompareCode(op, a, b, dest))
  {
  }

  lemma ChainPlain(c: Unit, i: nat)
    requires FusesChain(c, i)
    ensures AllTame(ChainCode(c, i))
  {
    hide LoadCode, StoreCode, BinaryCode, MatchNormalized, Word.IsPowerOfTwo, Word.Ctz;
    ChainEnds(c.ir, i);
    var n := MatchNormalized(c.ir, i).value;
    OperandPlain(c.f, n.source, DestRegOrT0(c.f, n.destination));
    OperandPlain(c.f, n.destination, T(0));
    if !Word.IsPowerOfTwo(n.modulus) {
      BinaryPlain(c.f, IrInst(MOD, n.destination, n.source, Imm(n.modulus)), i in c.nonneg);
    }
  }
}
