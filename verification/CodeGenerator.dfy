/** The generator itself: an object that appends lines to its output, instruction by instruction. */
module CodeGenerator {
  import opened Word
  import opened Ir
  import opened IrFlow
  import opened Rv32
  import opened Frame
  import opened Magic
  import opened Coloring
  import opened TempRanges
  import opened Allocation
  import opened Selection
  import opened Binary
  import opened BinaryOp
  import opened Compare
  import opened FrameCode
  import opened Remainder
  import opened Body
  import opened Homes
  import opened FunctionSim
  import opened NonNeg
  import opened NonNegPass
  import opened TailCall
  import opened Peephole
  import opened SavedRegisters
  import opened WholeProgram
  import Generated
  import EmittedProgram

  /** The instructions whose first source the table says is not negative. */
  function NonnegLines(ir: seq<IrInst>, table: Ranges): set<nat>
  {
    set i: nat | i < |ir| && ir[i].src1.Local? && IsNonNegative(table, ir[i].src1.name, i)
  }

  lemma Then(out: seq<Instr>, a: seq<Instr>, b: seq<Instr>)
    ensures (out + a) + b == out + (a + b)
  {
  }

  /** The dividend minus the quotient times the divisor. */
  function RemainderTail(f: StackFrame, imm: i32, src: Reg, dest: Reg): seq<Instr>
  {
    ConstantCode(f, imm) + [Alu(Mul, T(2), T(2), ConstantReg(f, imm)),
                            Alu(Sub, dest, if src == T(0) then T(3) else src, T(2))]
  }

  lemma ModParts(f: StackFrame, imm: i32, src: Reg, dest: Reg, nonnegative: bool)
    requires MagicApplies(imm)
    ensures MagicModCode(f, imm, src, dest, nonnegative) ==
            (if src == T(0) then [Mv(T(3), T(0))] else []) + MagicQuotientCode(f, imm, src, nonnegative) +
            RemainderTail(f, imm, src, dest)
  {
    hide MagicQuotientCode, ConstantCode, ConstantReg;
  }

  class Generator {
    var frame: StackFrame
    var nonNegativeRanges: Ranges
    var currentInstIndex: nat
    var currentParamIndex: nat
    var tailCalls: set<nat>
    var irUseCount: map<string, nat>
    var out: seq<Instr>

    constructor ()
      ensures out == []
    {
      frame := StackFrame(false, false, 0, 0, map[], map[], map[], map[], map[], map[], []);
      nonNegativeRanges, currentInstIndex, currentParamIndex, tailCalls, irUseCount := map[], 0, 0, {}, map[];
      out := [];
    }

    method Emit(i: Instr)
      modifies this`out
      ensures out == old(out) + [i]
    {
      out := out + [i];
    }

    method EmitAll(code: seq<Instr>)
      modifies this`out
      ensures out == old(out) + code
    {
      out := out + code;
    }

    // ------------------------------------------------------------------------
    // Operands
    // ------------------------------------------------------------------------

    method EmitLoadImmediate(value: i32, reg: Reg)
      modifies this`out
      ensures out == old(out) + LoadImmediateCode(frame, value, reg)
    {
      var constant := RegForConstant(frame, value);
      if constant.Some? {
        if reg != constant.value { Emit(Mv(reg, constant.value)); }
        return;
      }
      Emit(Li(reg, value));
    }

    method EmitLoadFromAddress(reg: Reg, base: Reg, offset: int)
      modifies this`out
      ensures out == old(out) + LoadAddressCode(reg, base, offset)
    {
      if Fits12(offset) {
        Emit(Lw(reg, offset, base));
        return;
      }
      var scratch := if reg == T(2) then T(1) else T(2);
      Emit(Li(scratch, offset));
      Emit(Alu(Add, scratch, base, scratch));
      Emit(Lw(reg, 0, scratch));
      assert out == old(out) + LoadAddressCode(reg, base, offset);
    }

    method EmitStoreToAddress(reg: Reg, base: Reg, offset: int)
      modifies this`out
      ensures out == old(out) + StoreAddressCode(reg, base, offset)
    {
      if Fits12(offset) {
        Emit(Sw(reg, offset, base));
        return;
      }
      var scratch := if reg == T(2) then T(1) else T(2);
      Emit(Li(scratch, offset));
      Emit(Alu(Add, scratch, base, scratch));
      Emit(Sw(reg, 0, scratch));
      assert out == old(out) + StoreAddressCode(reg, base, offset);
    }

    method LoadOperand(o: Operand, reg: Reg)
      modifies this`out
      ensures out == old(out) + LoadCode(frame, o, reg)
    {
      match o
      case Imm(v) => EmitLoadImmediate(v, reg);
      case Local(name) =>
        var home := RegForVar(frame, name);
        if home.Some? {
          if reg != home.value { Emit(Mv(reg, home.value)); }
        } else {
          EmitLoadFromAddress(reg, S(0), LocalOffset(frame, name));
        }
      case Global(name) =>
        if name in frame.globalRegAlloc {
          if reg != frame.globalRegAlloc[name] { Emit(Mv(reg, frame.globalRegAlloc[name])); }
        } else {
          Emit(La(T(2), name));
          Emit(Lw(reg, 0, T(2)));
          assert out == old(out) + [La(T(2), name), Lw(reg, 0, T(2))];
        }
      case Label(name) => Emit(La(reg, name));
      case Func(name) => Emit(La(reg, name));
      case _ =>
    }

    method StoreOperand(reg: Reg, o: Operand)
      modifies this`out
      ensures out == old(out) + StoreCode(frame, reg, o)
    {
      match o
      case Local(name) =>
        var home := RegForVar(frame, name);
        if home.Some? {
          if reg != home.value { Emit(Mv(home.value, reg)); }
        } else {
          EmitStoreToAddress(reg, S(0), LocalOffset(frame, name));
        }
      case Global(name) =>
        if name in frame.globalRegAlloc {
          if reg != frame.globalRegAlloc[name] { Emit(Mv(frame.globalRegAlloc[name], reg)); }
        } else {
          Emit(La(T(2), name));
          Emit(Sw(reg, 0, T(2)));
          assert out == old(out) + [La(T(2), name), Sw(reg, 0, T(2))];
        }
      case _ =>
    }

    /** Stores a result computed in t0, unless it was computed in the destination's own register. */
    method Settle(dest: Operand)
      modifies this`out
      ensures out == old(out) + SettleCode(frame, dest)
    {
      if RegForOperand(frame, dest).None? { StoreOperand(T(0), dest); }
    }

    /** A constant as second source: its hoisted copy, or t1. */
    method ConstantRegister(c: i32) returns (reg: Reg)
      modifies this`out
      ensures out == old(out) + ConstantCode(frame, c) && reg == ConstantReg(frame, c)
    {
      var hoisted := RegForConstant(frame, c);
      if hoisted.Some? { return hoisted.value; }
      Emit(Li(T(1), c));
      return T(1);
    }

    // ------------------------------------------------------------------------
    // Division and remainder through a multiplier
    // ------------------------------------------------------------------------

    method EmitHighProduct(magic: int, shift: nat, src: Reg)
      modifies this`out
      ensures out == old(out) + HighProductCode(frame, magic, shift, src)
    {
      hide Wrap, ConstantCode, ConstantReg;
      var reg := ConstantRegister(Wrap(magic));
      Emit(Alu(Rv32.Mulh, T(2), src, reg));
      Then(old(out), ConstantCode(frame, Wrap(magic)), [Alu(Rv32.Mulh, T(2), src, reg)]);
      ghost var out1 := out;
      if Wrap(magic) < 0 { Emit(Alu(Add, T(2), T(2), src)); }
      ghost var fix := if Wrap(magic) < 0 then [Alu(Add, T(2), T(2), src)] else [];
      assert out == out1 + fix;
      if shift > 0 { Emit(AluI(Srai, T(2), T(2), shift)); }
      ghost var shr := if shift > 0 then [AluI(Srai, T(2), T(2), shift)] else [];
      assert out == out1 + fix + shr;
      ghost var head := ConstantCode(frame, Wrap(magic)) + [Alu(Rv32.Mulh, T(2), src, reg)];
      Then(old(out), head, fix);
      Then(old(out), head + fix, shr);
    }

    method EmitSignFix(imm: i32, src: Reg, sourceNonnegative: bool)
      modifies this`out
      ensures out == old(out) + SignFixCode(imm, src, sourceNonnegative)
    {
      if !sourceNonnegative {
        Emit(AluI(Srai, T(0), src, 31));
        Emit(Alu(Sub, T(2), T(2), T(0)));
      }
      ghost var round := if sourceNonnegative then [] else [AluI(Srai, T(0), src, 31), Alu(Sub, T(2), T(2), T(0))];
      assert out == old(out) + round;
      if imm < 0 { Emit(Alu(Sub, T(2), X0, T(2))); }
      Then(old(out), round, if imm < 0 then [Alu(Sub, T(2), X0, T(2))] else []);
    }

    /** The quotient of src by the constant, in t2, for a constant that has a multiplier. */
    method EmitQuotient(imm: i32, magic: int, shift: int, src: Reg, sourceNonnegative: bool)
      requires imm != 0 && magic == Multiplier(Abs(imm)) && shift == MagicShift(Abs(imm))
      modifies this`out
      ensures out == old(out) + MagicQuotientCode(frame, imm, src, sourceNonnegative)
    {
      hide Multiplier, MagicShift, HighProductCode, SignFixCode;
      EmitHighProduct(magic, shift, src);
      EmitSignFix(imm, src, sourceNonnegative);
      Then(old(out), HighProductCode(frame, magic, shift, src), SignFixCode(imm, src, sourceNonnegative));
    }

    method EmitMagicDiv(imm: i32, src: Reg, dest: Reg, sourceNonnegative: bool) returns (ok: bool)
      modifies this`out
      ensures ok <==> MagicApplies(imm)
      ensures out == old(out) + (if ok then MagicDivCode(frame, imm, src, dest, sourceNonnegative) else [])
    {
      hide MagicQuotientCode, Multiplier, MagicShift, IsMagic;
      if imm == INT_MIN { return false; }
      var found, magic, shift := ComputeSignedDivMagic(if imm < 0 then -(imm as int) else imm);
      if !found { return false; }
      EmitQuotient(imm, magic, shift, src, sourceNonnegative);
      if dest != T(2) { Emit(Mv(dest, T(2))); }
      return true;
    }

    method EmitRemainder(imm: i32, src: Reg, dest: Reg)
      modifies this`out
      ensures out == old(out) + RemainderTail(frame, imm, src, dest)
    {
      hide ConstantCode, ConstantReg;
      var divisor := ConstantRegister(imm);
      Emit(Alu(Mul, T(2), T(2), divisor));
      Emit(Alu(Sub, dest, if src == T(0) then T(3) else src, T(2)));
      assert out == old(out) + RemainderTail(frame, imm, src, dest);
    }

    method EmitMagicMod(imm: i32, src: Reg, dest: Reg, sourceNonnegative: bool) returns (ok: bool)
      modifies this`out
      ensures ok <==> MagicApplies(imm)
      ensures out == old(out) + (if ok then MagicModCode(frame, imm, src, dest, sourceNonnegative) else [])
    {
      hide MagicQuotientCode, Multiplier, MagicShift, IsMagic, RemainderTail, MagicModCode;
      if imm == INT_MIN { return false; }
      var found, magic, shift := ComputeSignedDivMagic(if imm < 0 then -(imm as int) else imm);
      if !found { return false; }
      if src == T(0) { Emit(Mv(T(3), T(0))); }
      ghost var save := if src == T(0) then [Mv(T(3), T(0))] else [];
      assert out == old(out) + save;
      EmitQuotient(imm, magic, shift, src, sourceNonnegative);
      ghost var quotient := MagicQuotientCode(frame, imm, src, sourceNonnegative);
      Then(old(out), save, quotient);
      EmitRemainder(imm, src, dest);
      Then(old(out), save + quotient, RemainderTail(frame, imm, src, dest));
      ModParts(frame, imm, src, dest, sourceNonnegative);
      return true;
    }

    // ------------------------------------------------------------------------
    // Arithmetic
    // ------------------------------------------------------------------------

    method EmitMulImm(imm: i32, src: Reg, dest: Reg)
      modifies this`out
      ensures out == old(out) + MulImmCode(frame, imm, src, dest)
    {
      hide IsPowerOfTwo, Ctz, ConstantCode, ConstantReg;
      if imm > 0 && IsPowerOfTwo(imm) {
        Emit(AluI(Slli, dest, src, Ctz(imm)));
      } else if imm == 3 {
        EmitAll([AluI(Slli, T(1), src, 1), Alu(Add, dest, T(1), src)]);
      } else if imm == 5 {
        EmitAll([AluI(Slli, T(1), src, 2), Alu(Add, dest, T(1), src)]);
      } else if imm == 7 {
        EmitAll([AluI(Slli, T(1), src, 3), Alu(Sub, dest, T(1), src)]);
      } else if imm == 9 {
        EmitAll([AluI(Slli, T(1), src, 3), Alu(Add, dest, T(1), src)]);
      } else if imm == 15 {
        EmitAll([AluI(Slli, T(1), src, 4), Alu(Sub, dest, T(1), src)]);
      } else if imm == -1 {
        Emit(Alu(Sub, dest, X0, src));
      } else if imm < 0 && IsPowerOfTwo(-(imm as int)) {
        EmitAll([AluI(Slli, dest, src, Ctz(-(imm as int))), Alu(Sub, dest, X0, dest)]);
      } else {
        EmitWithConstant(Mul, imm, src, dest);
      }
    }

    /** An operation whose second source is a constant in a register. */
    method EmitWithConstant(op: AluOp, imm: i32, src: Reg, dest: Reg)
      modifies this`out
      ensures out == old(out) + (ConstantCode(frame, imm) + [Alu(op, dest, src, ConstantReg(frame, imm))])
    {
      hide ConstantCode, ConstantReg;
      var reg := ConstantRegister(imm);
      Emit(Alu(op, dest, src, reg));
      Then(old(out), ConstantCode(frame, imm), [Alu(op, dest, src, reg)]);
    }

    method EmitDivImm(imm: i32, src: Reg, dest: Reg, localNonneg: bool, nonneg: bool)
      modifies this`out
      ensures out == old(out) + DivImmCode(frame, imm, src, dest, localNonneg, nonneg)
    {
      hide IsPowerOfTwo, Ctz, ConstantCode, ConstantReg, MagicApplies, MagicDivCode;
      if imm > 0 && IsPowerOfTwo(imm) {
        if localNonneg {
          Emit(AluI(Srai, dest, src, Ctz(imm)));
          return;
        }
        EmitAll(BiasCode(src, Ctz(imm)));
        Emit(AluI(Srai, dest, T(1), Ctz(imm)));
        Then(old(out), BiasCode(src, Ctz(imm)), [AluI(Srai, dest, T(1), Ctz(imm))]);
      } else if imm == -1 {
        Emit(Alu(Sub, dest, X0, src));
      } else {
        var ok := false;
        if imm != 0 && imm != 1 { ok := EmitMagicDiv(imm, src, dest, nonneg); }
        if !ok { EmitWithConstant(Div, imm, src, dest); }
      }
    }

    method EmitModImm(imm: i32, src: Reg, dest: Reg, localNonneg: bool, nonneg: bool)
      modifies this`out
      ensures out == old(out) + ModImmCode(frame, imm, src, dest, localNonneg, nonneg)
    {
      hide IsPowerOfTwo, Ctz, ConstantCode, ConstantReg, MagicApplies, MagicModCode;
      if imm > 0 && IsPowerOfTwo(imm) {
        if localNonneg {
          Emit(AluI(Andi, dest, src, imm - 1));
          return;
        }
        var shift := Ctz(imm);
        EmitAll(BiasCode(src, shift));
        EmitAll([AluI(Srai, T(1), T(1), shift), AluI(Slli, T(1), T(1), shift), Alu(Sub, dest, src, T(1))]);
        Then(old(out), BiasCode(src, shift), [AluI(Srai, T(1), T(1), shift), AluI(Slli, T(1), T(1), shift),
                                              Alu(Sub, dest, src, T(1))]);
      } else if imm == 1 || imm == -1 {
        Emit(Li(dest, 0));
      } else {
        var ok := false;
        if imm != 0 { ok := EmitMagicMod(imm, src, dest, nonneg); }
        if !ok { EmitWithConstant(Rem, imm, src, dest); }
      }
    }

    method EmitSmallImm(op: IrOp, imm: i32, src: Reg, dest: Reg, localNonneg: bool, nonneg: bool)
      requires IsArithmetic(op)
      modifies this`out
      ensures out == old(out) + SmallImmCode(frame, op, imm, src, dest, localNonneg, nonneg)
    {
      hide MulImmCode, DivImmCode, ModImmCode;
      match op
      case ADD => Emit(AluI(Addi, dest, src, imm));
      case SUB => Emit(AluI(Addi, dest, src, -(imm as int)));
      case MUL => EmitMulImm(imm, src, dest);
      case DIV => EmitDivImm(imm, src, dest, localNonneg, nonneg);
      case MOD => EmitModImm(imm, src, dest, localNonneg, nonneg);
    }

    method EmitWide(inst: IrInst, a: Reg, b: Reg, dest: Reg, nonneg: bool)
      requires BinaryShaped(inst) && IsArithmetic(inst.op)
      modifies this`out
      ensures out == old(out) + WideCode(frame, inst, a, b, dest, nonneg)
    {
      hide MagicApplies, MagicDivCode, MagicModCode;
      var ok := false;
      if inst.src2.Imm? {
        if inst.op.DIV? {
          ok := EmitMagicDiv(inst.src2.immVal, a, dest, nonneg);
        } else if inst.op.MOD? {
          ok := EmitMagicMod(inst.src2.immVal, a, dest, nonneg);
        }
      }
      if !ok { Emit(Alu(AluFor(inst.op), dest, a, b)); }
    }

    /** Where the second source is read from, loaded if need be. */
    method PlaceSource2(o: Operand, dest: Reg) returns (reg: Reg)
      modifies this`out
      ensures out == old(out) + Src2Code(frame, o, dest) && reg == Src2Reg(frame, o, dest)
    {
      hide LoadCode;
      var home := if o.Imm? then RegForConstant(frame, o.immVal) else RegForOperand(frame, o);
      reg := if home.Some? && home.value != dest then home.value else T(1);
      if !IsSmallImm(o) && reg == T(1) { LoadOperand(o, T(1)); }
    }

    method PlaceSource1(o: Operand, dest: Reg) returns (reg: Reg)
      modifies this`out
      ensures out == old(out) + Src1Code(frame, o, dest) && reg == Src1Reg(frame, o, dest)
    {
      hide LoadCode;
      var home := if o.Imm? then RegForConstant(frame, o.immVal) else RegForOperand(frame, o);
      if home.Some? { return home.value; }
      LoadOperand(o, dest);
      return dest;
    }

    method EmitGeneral(inst: IrInst, dest: Reg, localNonneg: bool)
      requires BinaryShaped(inst) && IsArithmetic(inst.op)
      modifies this`out
      ensures out == old(out) + GeneralCode(frame, inst, dest, localNonneg)
    {
      hide Src1Code, Src2Code, Src1Reg, Src2Reg, SmallImmCode, WideCode;
      var b := PlaceSource2(inst.src2, dest);
      var a := PlaceSource1(inst.src1, dest);
      Then(old(out), Src2Code(frame, inst.src2, dest), Src1Code(frame, inst.src1, dest));
      ghost var loads := Src2Code(frame, inst.src2, dest) + Src1Code(frame, inst.src1, dest);
      var nonneg := localNonneg || (inst.src1.Imm? && inst.src1.immVal >= 0);
      if IsSmallImm(inst.src2) {
        EmitSmallImm(inst.op, inst.src2.immVal, a, dest, localNonneg, nonneg);
        Then(old(out), loads, SmallImmCode(frame, inst.op, inst.src2.immVal, a, dest, localNonneg, nonneg));
      } else {
        EmitWide(inst, a, b, dest, nonneg);
        Then(old(out), loads, WideCode(frame, inst, a, b, dest, nonneg));
      }
    }

    method EmitOperation(inst: IrInst, dest: Reg, localNonneg: bool)
      requires BinaryShaped(inst) && dest == DestRegOrT0(frame, inst.dest)
      modifies this`out
      ensures out == old(out) + OperationCode(frame, inst, localNonneg)
    {
      hide LoadCode, GeneralCode;
      if inst.op.NOT? {
        LoadOperand(inst.src1, dest);
        Emit(AluI(Sltiu, dest, dest, 1));
        Then(old(out), LoadCode(frame, inst.src1, dest), [AluI(Sltiu, dest, dest, 1)]);
        return;
      }
      if ImmediateMinusDest(frame, inst) {
        if inst.src1.immVal == 0 {
          Emit(Alu(Sub, dest, X0, dest));
        } else {
          var hoisted := RegForConstant(frame, inst.src1.immVal);
          if hoisted.Some? {
            Emit(Alu(Sub, dest, hoisted.value, dest));
          } else {
            var t := if dest == T(0) then T(2) else T(0);
            EmitAll([Li(t, inst.src1.immVal), Alu(Sub, dest, t, dest)]);
          }
        }
        return;
      }
      if BothInRegisters(frame, inst) {
        Emit(Alu(AluFor(inst.op), dest, RegForOperand(frame, inst.src1).value, RegForOperand(frame, inst.src2).value));
        return;
      }
      EmitGeneral(inst, dest, localNonneg);
    }

    /** A non-negative local as first source, as far as the analysis knows. */
    predicate LocalNonneg(inst: IrInst)
      reads this`nonNegativeRanges, this`currentInstIndex
    {
      inst.src1.Local? && IsNonNegative(nonNegativeRanges, inst.src1.name, currentInstIndex)
    }

    method EmitBinaryOp(inst: IrInst)
      requires BinaryShaped(inst)
      modifies this`out
      ensures out == old(out) + BinaryCode(frame, inst, LocalNonneg(inst))
    {
      hide OperationCode, StoreCode, IsNonNegative;
      var localNonneg := false;
      if inst.src1.Local? { localNonneg := LookUp(nonNegativeRanges, inst.src1.name, currentInstIndex); }
      EmitOperation(inst, DestRegOrT0(frame, inst.dest), localNonneg);
      Settle(inst.dest);
      Then(old(out), OperationCode(frame, inst, localNonneg), SettleCode(frame, inst.dest));
    }

    // ------------------------------------------------------------------------
    // Comparisons
    // ------------------------------------------------------------------------

    method EmitSmallCompare(op: IrOp, imm: i32, a: Reg, dest: Reg)
      requires IsCompare(op)
      modifies this`out
      ensures out == old(out) + SmallCompareCode(frame, op, imm, a, dest)
    {
      hide ConstantCode, ConstantReg;
      match op
      case LT => Emit(AluI(Slti, dest, a, imm));
      case GT =>
        var c := ConstantRegister(imm);
        Emit(Alu(Slt, dest, c, a));
        Then(old(out), ConstantCode(frame, imm), [Alu(Slt, dest, c, a)]);
      case LE => Emit(AluI(Slti, dest, a, imm + 1));
      case GE => EmitAll([AluI(Slti, dest, a, imm), AluI(Xori, dest, dest, 1)]);
      case EQ =>
        var c := ConstantRegister(imm);
        EmitAll([Alu(Sub, dest, a, c), Seqz(dest, dest)]);
        Then(old(out), ConstantCode(frame, imm), [Alu(Sub, dest, a, c), Seqz(dest, dest)]);
      case NE =>
        var c := ConstantRegister(imm);
        EmitAll([Alu(Sub, dest, a, c), Snez(dest, dest)]);
        Then(old(out), ConstantCode(frame, imm), [Alu(Sub, dest, a, c), Snez(dest, dest)]);
    }

    method EmitCompareInto(inst: IrInst, dest: Reg)
      requires CompareShaped(inst)
      modifies this`out
      ensures out == old(out) + CompareCode(frame, inst, dest)
    {
      hide Src1Code, Src2Code, Src1Reg, Src2Reg, SmallCompareCode, WideCompareCode;
      var b := PlaceSource2(inst.src2, dest);
      var a := PlaceSource1(inst.src1, dest);
      ghost var loads := Src2Code(frame, inst.src2, dest) + Src1Code(frame, inst.src1, dest);
      Then(old(out), Src2Code(frame, inst.src2, dest), Src1Code(frame, inst.src1, dest));
      if IsSmallImm(inst.src2) {
        EmitSmallCompare(inst.op, inst.src2.immVal, a, dest);
        Then(old(out), loads, SmallCompareCode(frame, inst.op, inst.src2.immVal, a, dest));
      } else {
        EmitAll(WideCompareCode(inst.op, a, b, dest));
        Then(old(out), loads, WideCompareCode(inst.op, a, b, dest));
      }
    }

    method EmitCompareOp(inst: IrInst)
      requires CompareShaped(inst)
      modifies this`out
      ensures out == old(out) + CompareOpCode(frame, inst)
    {
      hide CompareCode, StoreCode;
      EmitCompareInto(inst, DestRegOrT0(frame, inst.dest));
      Settle(inst.dest);
      Then(old(out), CompareCode(frame, inst, DestRegOrT0(frame, inst.dest)), SettleCode(frame, inst.dest));
    }

    // ------------------------------------------------------------------------
    // Other instructions
    // ------------------------------------------------------------------------

    method EmitMove(o: Operand, dest: Operand)
      modifies this`out
      ensures out == old(out) + MoveCode(frame, o, dest)
    {
      hide LoadCode, StoreCode;
      LoadOperand(o, DestRegOrT0(frame, dest));
      Settle(dest);
      Then(old(out), LoadCode(frame, o, DestRegOrT0(frame, dest)), SettleCode(frame, dest));
    }

    /** Declares a local; a parameter takes the next place among the parameters. */
    method EmitDeclaration(inst: IrInst)
      modifies this`out, this`currentParamIndex
      ensures var param := inst.dest.Local? && inst.src1.Param?;
              && currentParamIndex == old(currentParamIndex) + (if param then 1 else 0)
              && out == old(out) +
                   if !inst.dest.Local? || inst.src1.NoOperand? then []
                   else if param then ParamDeclCode(frame, inst.dest, old(currentParamIndex))
                   else MoveCode(frame, inst.src1, inst.dest)
    {
      hide LoadAddressCode, StoreCode, MoveCode;
      if !inst.dest.Local? || inst.src1.NoOperand? { return; }
      if !inst.src1.Param? {
        EmitMove(inst.src1, inst.dest);
        return;
      }
      var k, r := currentParamIndex, DestRegOrT0(frame, inst.dest);
      ghost var fetch := if k >= 8 then LoadAddressCode(r, S(0), WORD_BYTES * (k - 8)) else if r != A(k) then
                         [Mv(r, A(k))] else [];
      if k >= 8 {
        EmitLoadFromAddress(r, S(0), WORD_BYTES * (k - 8));
      } else if r != A(k) {
        Emit(Mv(r, A(k)));
      }
      assert out == old(out) + fetch;
      Settle(inst.dest);
      Then(old(out), fetch, SettleCode(frame, inst.dest));
      currentParamIndex := k + 1;
    }

    method EmitParam(o: Operand, k: int)
      requires k >= 0
      modifies this`out
      ensures out == old(out) + ParamCode(frame, o, k)
    {
      hide LoadCode, StoreAddressCode;
      if k < 8 {
        LoadOperand(o, A(k));
        return;
      }
      LoadOperand(o, T(0));
      EmitStoreToAddress(T(0), Sp, WORD_BYTES * (k - 8));
      Then(old(out), LoadCode(frame, o, T(0)), StoreAddressCode(T(0), Sp, WORD_BYTES * (k - 8)));
    }

    method EmitCall(inst: IrInst)
      modifies this`out
      ensures out == old(out) + ([Call(NameOf(inst.src1))] + if IsVariable(inst.dest) then
                                 StoreCode(frame, A(0), inst.dest) else [])
    {
      hide StoreCode;
      Emit(Call(NameOf(inst.src1)));
      if IsVariable(inst.dest) { StoreOperand(A(0), inst.dest); }
      Then(old(out), [Call(NameOf(inst.src1))],
           if IsVariable(inst.dest) then StoreCode(frame, A(0), inst.dest) else []);
    }

    /** A tail call: back to the body for the function itself, otherwise out of the frame and away. */
    method EmitTailCall(name: string, size: int, callee: string)
      modifies this`out
      ensures out == old(out) + if callee == name then [J(BodyLabel(name))] else TailCode(frame, size, callee)
    {
      hide BodyLabel, RestoreCode, AdjustSpCode;
      if callee == name {
        Emit(J(BodyLabel(name)));
        return;
      }
      EmitAll(LeaveCode(frame, size, true));
      Emit(J(callee));
      Then(old(out), LeaveCode(frame, size, true), [J(callee)]);
    }

    method EmitReturn(name: string, o: Operand)
      modifies this`out
      ensures out == old(out) + ((if o.NoOperand? then [] else LoadCode(frame, o, A(0))) + [J(ExitLabel(name))])
    {
      hide LoadCode, ExitLabel;
      if !o.NoOperand? { LoadOperand(o, A(0)); }
      Emit(J(ExitLabel(name)));
      Then(old(out), if o.NoOperand? then [] else LoadCode(frame, o, A(0)), [J(ExitLabel(name))]);
    }

    method EmitBranch(inst: IrInst)
      modifies this`out
      ensures out == old(out) + BranchCode(frame, inst)
    {
      hide LoadCode;
      var home := RegForOperand(frame, inst.src1);
      if home.Some? {
        Emit(BrZ(BranchTest(inst.op), home.value, NameOf(inst.dest)));
        return;
      }
      LoadOperand(inst.src1, T(0));
      Emit(BrZ(BranchTest(inst.op), T(0), NameOf(inst.dest)));
      Then(old(out), LoadCode(frame, inst.src1, T(0)), [BrZ(BranchTest(inst.op), T(0), NameOf(inst.dest))]);
    }

    method EmitChain(n: Normalized)
      requires n.modulus > 1 && IsVariable(n.destination) && IsValue(n.source)
      modifies this`out
      ensures out == old(out) + FusedRemainderCode(frame, n, n.source.Local? &&
                                                   IsNonNegative(nonNegativeRanges, n.source.name, currentInstIndex))
    {
      hide LoadCode, StoreCode, BinaryCode, IsPowerOfTwo, Ctz, IsNonNegative;
      if IsPowerOfTwo(n.modulus) {
        WordPower(n.modulus);
        var dest, clear := DestRegOrT0(frame, n.destination), 32 - Ctz(n.modulus);
        ghost var shifts := [AluI(Slli, dest, dest, clear), AluI(Srli, dest, dest, clear)];
        LoadOperand(n.source, dest);
        EmitAll([AluI(Slli, dest, dest, clear), AluI(Srli, dest, dest, clear)]);
        Then(old(out), LoadCode(frame, n.source, dest), shifts);
        Settle(n.destination);
        Then(old(out), LoadCode(frame, n.source, dest) + shifts, SettleCode(frame, n.destination));
      } else {
        EmitBinaryOp(IrInst(MOD, n.destination, n.source, Imm(n.modulus)));
      }
    }

    // ------------------------------------------------------------------------
    // The body
    // ------------------------------------------------------------------------

    /** The function being generated, as the proofs about its code see it. */
    ghost function UnitOf(name: string, ir: seq<IrInst>, size: int, draft: bool, after: seq<Instr>): Unit
      reads this`frame, this`nonNegativeRanges, this`tailCalls
    {
      Unit(name, ir, frame, size, NonnegLines(ir, nonNegativeRanges), tailCalls, draft, after)
    }

    ghost predicate UsesCounted(ir: seq<IrInst>)
      reads this`irUseCount
    {
      forall v :: (if v in irUseCount then irUseCount[v] else 0) == UseCount(ir, v, |ir|)
    }

    /** One instruction on its own, other than a return after a tail call. */
    method EmitAlone(name: string, ir: seq<IrInst>, size: int, draft: bool, ghost after: seq<Instr>, i: nat)
      requires i < |ir| && currentParamIndex == ParamIndex(ir, i) && currentInstIndex == i
      requires (ir[i].op.PARAM? && ir[i].src1.Imm? ==> ir[i].src1.immVal >= 0)
      requires !(ir[i].op.RETURN? && AfterTail(UnitOf(name, ir, size, draft, after), i))
      modifies this`out, this`currentParamIndex
      ensures currentParamIndex == ParamIndex(ir, i + 1)
      ensures out == old(out) + InstCode(UnitOf(name, ir, size, draft, after), i)
    {
      hide BinaryCode, CompareOpCode, MoveCode, ParamDeclCode, ParamCode, TailCode, BranchCode, LoadCode, StoreCode,
           IsNonNegative, BodyLabel, ExitLabel;
      var inst := ir[i];
      if BinaryShaped(inst) {
        EmitBinaryOp(inst);
      } else if CompareShaped(inst) {
        EmitCompareOp(inst);
      } else {
        match inst.op
        case ASSIGN => if IsVariable(inst.dest) { EmitMove(inst.src1, inst.dest); }
        case LOAD => if IsVariable(inst.dest) { EmitMove(inst.src1, inst.dest); }
        case STORE => if IsVariable(inst.dest) { EmitMove(inst.src1, inst.dest); }
        case LOCAL_VAR_DECL => EmitDeclaration(inst);
        case PARAM => EmitParam(inst.dest, if inst.src1.Imm? then inst.src1.immVal else 0);
        case CALL =>
          if i !in tailCalls {
            EmitCall(inst);
          } else if draft {
            Emit(J(NameOf(inst.src1)));
          } else {
            EmitTailCall(name, size, NameOf(inst.src1));
          }
        case RETURN => EmitReturn(name, inst.dest);
        case LABEL => Emit(Lab(NameOf(inst.dest)));
        case BRANCH => Emit(J(NameOf(inst.dest)));
        case BEQZ => EmitBranch(inst);
        case BNEZ => EmitBranch(inst);
        case _ =>
      }
    }

    /** What `generateInstruction` emits at i, and how many instructions it covers. */
    method GenerateInstruction(name: string, ir: seq<IrInst>, size: int, draft: bool, ghost after: seq<Instr>, i: nat)
      returns (n: nat)
      requires i < |ir| && currentParamIndex == ParamIndex(ir, i) && ArgsIndexed(ir) && UsesCounted(ir)
      requires !(ir[i].op.RETURN? && AfterTail(UnitOf(name, ir, size, draft, after), i))
      modifies this`out, this`currentParamIndex, this`currentInstIndex
      ensures n >= 1 && i + n <= |ir| && currentParamIndex == ParamIndex(ir, i + n)
      ensures var c := UnitOf(name, ir, size, draft, after);
              && (forall k :: i < k < i + n ==> !ir[k].op.CALL?) && (n > 1 ==> !ir[i].op.CALL?)
              && old(out) + CodeFrom(c, i) == out + CodeFrom(c, i + n)
    {
      hide CodeFrom, InstCode, FusedCode, ChainCode, FusesChain, IsNonNegative, NonnegLines, MatchNormalized,
           ChainLength, FusedRemainderCode, WorthFusing, UseCount, DeclaresParam;
      currentInstIndex := i;
      ghost var c := UnitOf(name, ir, size, draft, after);
      var chain := CheckChain(ir, i);
      assert chain <==> FusesChain(c, i) by { ChainTest(c, nonNegativeRanges, i); }
      if chain {
        ChainEnds(ir, i);
        var shape := MatchNormalized(ir, i).value;
        ChainBody(c, nonNegativeRanges, i);
        EmitChain(shape);
        ChainHead(c, i);
        Then(old(out), ChainCode(c, i), CodeFrom(c, i + shape.length));
        ChainNoParams(ir, i, shape.length);
        return shape.length;
      }
      if CompareShaped(ir[i]) && i + 1 < |ir| && FusesHere(ir, i) {
        assert FusedAt(c, i);
        hide FusedAt, FusesHere;
        EmitFusedPair(c, ir, i);
        FusedHead(c, i);
        Then(old(out), FusedCode(c, i), CodeFrom(c, i + 2));
        FusedNoParams(c, i);
        return 2;
      }
      assert Alone(c, i);
      hide FusedAt, FusesHere, Alone;
      EmitAlone(name, ir, size, draft, after, i);
      AloneCode(c, i);
      Then(old(out), InstCode(c, i), CodeFrom(c, i + 1));
      return 1;
    }

    method EmitFusedPair(ghost c: Unit, ir: seq<IrInst>, i: nat)
      requires c.ir == ir && c.f == frame && FusedAt(c, i) && i + 1 < |ir| && CompareShaped(ir[i])
      modifies this`out
      ensures out == old(out) + FusedCode(c, i)
    {
      hide CompareCode, FusedAt;
      var inst, br := ir[i], ir[i + 1];
      EmitCompareInto(inst, T(0));
      Emit(BrZ(BranchTest(br.op), T(0), NameOf(br.dest)));
      Then(old(out), CompareCode(frame, inst, T(0)), [BrZ(BranchTest(br.op), T(0), NameOf(br.dest))]);
    }

    /** The comparison at i is used by the branch below it and nowhere else. */
    predicate FusesHere(ir: seq<IrInst>, i: nat)
      requires i + 1 < |ir|
      reads this`irUseCount
    {
      ir[i].dest.Local? && Fuses(ir[i], ir[i + 1],
                                 if ir[i].dest.name in irUseCount then irUseCount[ir[i].dest.name] else 0)
    }

    method CheckChain(ir: seq<IrInst>, i: nat) returns (b: bool)
      requires i < |ir|
      ensures b <==> (MatchNormalized(ir, i).Some? && IsValue(MatchNormalized(ir, i).value.source) &&
                      WorthFusing(ir, nonNegativeRanges, i))
    {
      hide IsNonNegative, IsPowerOfTwo, MatchNormalized;
      if MatchNormalized(ir, i).None? { return false; }
      ChainEnds(ir, i);
      var n := MatchNormalized(ir, i).value;
      if !IsValue(n.source) { return false; }
      var live := false;
      if n.intermediate != n.destination { live := IntermediateLive(ir, i + n.length, NameOf(n.intermediate)); }
      var nonneg := n.source.Imm? && n.source.immVal >= 0;
      if n.source.Local? { nonneg := LookUp(nonNegativeRanges, n.source.name, i); }
      return !live && (IsPowerOfTwo(n.modulus) || nonneg);
    }

    /** All instructions in turn. */
    method GenerateBody(name: string, ir: seq<IrInst>, size: int, draft: bool, ghost after: seq<Instr>)
      requires ArgsIndexed(ir) && UsesCounted(ir) && forall t :: t in tailCalls ==> t < |ir| && ir[t].op.CALL?
      modifies this`out, this`currentParamIndex, this`currentInstIndex
      ensures out + after == old(out) + CodeFrom(UnitOf(name, ir, size, draft, after), 0)
    {
      hide CodeFrom, IsNonNegative, NonnegLines;
      currentParamIndex := 0;
      var seenTailCall := false;
      var i := 0;
      ghost var c := UnitOf(name, ir, size, draft, after);
      while i < |ir|
        invariant 0 <= i <= |ir| && currentParamIndex == ParamIndex(ir, i)
        invariant seenTailCall <==> AfterTail(c, i)
        invariant out + CodeFrom(c, i) == old(out) + CodeFrom(c, 0)
      {
        if ir[i].op.RETURN? && seenTailCall {
          SkippedReturn(c, i);
          i := i + 1;
        } else {
          var n := GenerateInstruction(name, ir, size, draft, after, i);
          if i in tailCalls { seenTailCall := true; }
          i := i + n;
        }
      }
      NothingLeft(c, i);
    }

    method CountUses(ir: seq<IrInst>)
      modifies this`irUseCount
      ensures UsesCounted(ir)
    {
      irUseCount := map[];
      for i := 0 to |ir|
        invariant forall v :: (if v in irUseCount then irUseCount[v] else 0) == UseCount(ir, v, i)
      {
        if ir[i].src1.Local? { irUseCount := Bumped(irUseCount, ir[i].src1.name); }
        if ir[i].src2.Local? { irUseCount := Bumped(irUseCount, ir[i].src2.name); }
        if ReadsDest(ir[i].op) && ir[i].dest.Local? { irUseCount := Bumped(irUseCount, ir[i].dest.name); }
      }
    }

    // ------------------------------------------------------------------------
    // The function
    // ------------------------------------------------------------------------

    method EmitPrologue(size: int)
      modifies this`out
      ensures out == old(out) + PrologueCode(frame, size)
    {
      hide AdjustSpCode, StoreAddressCode, SetFramePointerCode, SaveCode;
      if size == 0 { return; }
      EmitAll(AdjustSpCode(-size));
      ghost var ra := if frame.hasCall then StoreAddressCode(Ra, Sp, size - 4) else [];
      if frame.hasCall { EmitStoreToAddress(Ra, Sp, size - 4); }
      assert out == old(out) + AdjustSpCode(-size) + ra;
      Then(old(out), AdjustSpCode(-size), ra);
      EmitStoreToAddress(S(0), Sp, size - 8);
      Then(old(out), AdjustSpCode(-size) + ra, StoreAddressCode(S(0), Sp, size - 8));
      EmitAll(SetFramePointerCode(size));
      Then(old(out), AdjustSpCode(-size) + ra + StoreAddressCode(S(0), Sp, size - 8), SetFramePointerCode(size));
      EmitAll(SaveCode(frame.usedCalleeSavedRegisters));
      Then(old(out), AdjustSpCode(-size) + ra + StoreAddressCode(S(0), Sp, size - 8) + SetFramePointerCode(size),
           SaveCode(frame.usedCalleeSavedRegisters));
    }

    method EmitEpilogue(size: int)
      modifies this`out
      ensures out == old(out) + EpilogueCode(frame, size)
    {
      hide LeaveCode;
      if NeedsFrame(frame) { EmitAll(LeaveCode(frame, size, frame.hasCall)); }
      Emit(Ret);
      Then(old(out), if NeedsFrame(frame) then LeaveCode(frame, size, frame.hasCall) else [], [Ret]);
    }

    /** The second pass: the whole text of the function, its body between prologue and epilogue. */
    method EmitFunction(name: string, ir: seq<IrInst>, size: int, constants: seq<i32>, globals: seq<string>)
      requires ArgsIndexed(ir) && UsesCounted(ir) && forall t :: t in tailCalls ==> t < |ir| && ir[t].op.CALL?
      modifies this`out, this`currentParamIndex, this`currentInstIndex
      ensures var after := AfterCode(name, frame, size, globals);
              out == old(out) + FunctionCode(UnitOf(name, ir, size, false, after), constants, globals)
    {
      hide PrologueCode, EpilogueCode, LoadConstantsCode, LoadGlobalsCode, StoreGlobalsCode, CodeFrom, BodyLabel,
           ExitLabel, UsesCounted, ArgsIndexed, NonnegLines, IsNonNegative;
      ghost var after := AfterCode(name, frame, size, globals);
      ghost var c := UnitOf(name, ir, size, false, after);
      EmitEntry(name, size, constants, globals);
      Emit(Lab(BodyLabel(name)));
      ghost var head := BeforeCode(name, frame, size, constants, globals) + [Lab(BodyLabel(name))];
      Then(old(out), BeforeCode(name, frame, size, constants, globals), [Lab(BodyLabel(name))]);
      ghost var out1 := out;
      GenerateBody(name, ir, size, false, after);
      EmitExit(name, size, globals);
      assert out == out1 + CodeFrom(c, 0);
      Then(old(out), head, CodeFrom(c, 0));
      Then(BeforeCode(name, frame, size, constants, globals), [Lab(BodyLabel(name))], CodeFrom(c, 0));
    }

    method EmitEntry(name: string, size: int, constants: seq<i32>, globals: seq<string>)
      modifies this`out
      ensures out == old(out) + BeforeCode(name, frame, size, constants, globals)
    {
      hide PrologueCode, LoadConstantsCode, LoadGlobalsCode;
      Emit(Lab(name));
      EmitPrologue(size);
      Then(old(out), [Lab(name)], PrologueCode(frame, size));
      EmitAll(LoadConstantsCode(frame, constants));
      Then(old(out), [Lab(name)] + PrologueCode(frame, size), LoadConstantsCode(frame, constants));
      EmitAll(LoadGlobalsCode(frame, globals));
      Then(old(out), [Lab(name)] + PrologueCode(frame, size) + LoadConstantsCode(frame, constants),
           LoadGlobalsCode(frame, globals));
    }

    method EmitExit(name: string, size: int, globals: seq<string>)
      modifies this`out
      ensures out == old(out) + AfterCode(name, frame, size, globals)
    {
      hide EpilogueCode, StoreGlobalsCode, ExitLabel;
      Emit(Lab(ExitLabel(name)));
      EmitAll(StoreGlobalsCode(frame, globals));
      Then(old(out), [Lab(ExitLabel(name))], StoreGlobalsCode(frame, globals));
      EmitEpilogue(size);
      Then(old(out), [Lab(ExitLabel(name))] + StoreGlobalsCode(frame, globals), EpilogueCode(frame, size));
    }

    /** `generateFunction`: the analyses, a draft of the body to see which saved registers it uses, and the
        function itself, through the peephole pass. */
    method GenerateFunction(name: string, ir: seq<IrInst>, tempOrder: seq<string>, varOrder: seq<string>,
                            partners: Graph,
                            globalOrder: seq<string>, ranked: seq<i32>)
      returns (size: int, constants: seq<i32>, globals: seq<string>, ghost draft: Unit)
      requires LabelsReadNothing(ir) && ArgsIndexed(ir)
      requires DistinctNames(tempOrder) && DistinctNames(varOrder) && DistinctNames(globalOrder)
      requires forall i, j :: 0 <= i < j < |ranked| ==> ranked[i] != ranked[j]
      requires (set v | v in varOrder) == Locals(ir) && |varOrder| < 0x400_0000
      requires (set g | g in globalOrder) == NamedGlobals(ir)
      modifies this
      ensures forall v, i: nat :: i < |ir| ==> (IsNonNegative(nonNegativeRanges, v, i) <==> ClaimedNonneg(ir, v, i))
      ensures var f := Compiled(UnitOf(name, ir, size, false, AfterCode(name, frame, size, globals)), constants,
                                globals);
              out == old(out) + EmittedProgram.EmittedText(f) && Generated.Produces(f, draft)
    {
      hide TablesFor, Locals, IsNonNegative, ClaimedNonneg, IsTailCall, CodeFrom, Peep, FunctionCode, UsesCounted,
           NonnegLines, LabelsReadNothing, FrameSize, SavedListed, DistinctRegs, Named, ScratchWindows, SavedCovers,
           CachesNamed, AfterCode;
      frame := AnalyzeStackFrame(ir, tempOrder, varOrder, partners, globalOrder, ranked);
      tailCalls := DetectTailCalls(ir);
      forall t | t in tailCalls ensures t < |ir| && ir[t].op.CALL? { TailIsCall(ir, t); }
      nonNegativeRanges := AnalyzeNonNegativeVars(ir);
      CountUses(ir);
      var before := out;
      out := [];
      GenerateBody(name, ir, 0, true, []);
      draft := UnitOf(name, ir, 0, true, []);
      assert out + [] == out && [] + CodeFrom(draft, 0) == CodeFrom(draft, 0);
      var text := ApplyPeephole(out);
      var used := ScanUsedSRegisters(text);
      Rescanned(ir, frame, used);
      frame := frame.(usedCalleeSavedRegisters := used);
      size := FrameSizeBytes(frame);
      constants := KeysInSomeOrder(frame.constantRegAlloc.Keys);
      globals := KeysInSomeOrder(frame.globalRegAlloc.Keys);
      out := [];
      EmitFunction(name, ir, size, constants, globals);
      ghost var c := UnitOf(name, ir, size, false, AfterCode(name, frame, size, globals));
      assert out == FunctionCode(c, constants, globals);
      ListFromDraft(c, draft, name, size, globals);
      NonnegClaimed(ir, nonNegativeRanges);
      text := ApplyPeephole(out);
      out := before + text;
    }
  }

  lemma NonnegClaimed(ir: seq<IrInst>, table: Ranges)
    requires forall v, i: nat :: i < |ir| ==> (IsNonNegative(table, v, i) <==> ClaimedNonneg(ir, v, i))
    ensures forall i: nat :: i in NonnegLines(ir, table) ==>
              i < |ir| && ir[i].src1.Local? && ClaimedNonneg(ir, ir[i].src1.name, i)
  {
    hide IsNonNegative, ClaimedNonneg;
  }

  /** The list the generated unit saves, against the draft it was read from. */
  lemma ListFromDraft(c: Unit, draft: Unit, name: string, size: int, globals: seq<string>)
    requires Drafted(c, draft) && draft.after == [] && c.after == AfterCode(name, c.f, size, globals)
    requires TablesFor(c.ir, c.f) && ListsNamed(c.f.usedCalleeSavedRegisters, Peep(CodeFrom(draft, 0)))
    ensures ScratchWindows(CodeFrom(draft, 0)) ==> (SavedCovers(c) <==> CachesNamed(c.f, Peep(CodeFrom(draft, 0))))
  {
    hide CodeFrom, Peep, Drafted, ListsNamed, SavedCovers, CachesNamed, ScratchWindows, CoveredBy, InTables, AfterCode,
         TablesOk, DefinitionsSafe, RegistersSafe, FrameFits, TempsOk, ScratchFree, IncomingKept;
    AfterCovered(name, c.f, size, globals);
    if ScratchWindows(CodeFrom(draft, 0)) { ScanCovers(c, draft); }
  }

  lemma TailIsCall(ir: seq<IrInst>, t: nat)
    requires IsTailCall(ir, t)
    ensures t < |ir| && ir[t].op.CALL?
  {
  }

  method KeysInSomeOrder<K(==)>(keys: set<K>) returns (order: seq<K>)
    ensures Lists(order, keys)
  {
    order := [];
    var rest := keys;
    while rest != {}
      invariant rest <= keys && forall k :: k in order <==> k in keys - rest
      decreases |rest|
    {
      var k :| k in rest;
      rest := rest - {k};
      order := order + [k];
    }
  }

  /** The saved registers the text names, each once. */
  method ScanUsedSRegisters(lines: seq<Instr>) returns (used: seq<Reg>)
    ensures |used| <= 10 && DistinctRegs(used)
    ensures ListsNamed(used, lines)
  {
    hide DistinctRegs, ArgumentRegs;
    var seen: set<Reg> := {};
    for k := 0 to |lines|
      invariant forall r :: r in seen <==> exists m :: 0 <= m < k && r in ArgumentRegs(lines[m])
    {
      seen := seen + ArgumentRegs(lines[k]);
    }
    BankDistinct();
    used := KeepUsed(Bank(true, 2, 12), seen);
  }

  /** A new save list leaves everything the tables promise. */
  lemma Rescanned(ir: seq<IrInst>, f: StackFrame, used: seq<Reg>)
    requires TablesFor(ir, f) && |used| <= 10
    ensures TablesFor(ir, f.(usedCalleeSavedRegisters := used))
  {
    var g := f.(usedCalleeSavedRegisters := used);
    forall o ensures RegForOperand(g, o) == RegForOperand(f, o) { }
    forall v ensures RegForVar(g, v) == RegForVar(f, v) { }
    hide RegForVar, RegForOperand;
    RescannedPlaces(ir, f, g);
    RescannedSizes(ir, f, g);
  }

  lemma RescannedPlaces(ir: seq<IrInst>, f: StackFrame, g: StackFrame)
    requires TablesFor(ir, f) && g == f.(usedCalleeSavedRegisters := g.usedCalleeSavedRegisters)
    requires (forall o :: RegForOperand(g, o) == RegForOperand(f, o)) && forall v :: RegForVar(g, v) == RegForVar(f, v)
    ensures DefinitionsSafe(ir, g) && ScratchFree(ir, g) && RegistersSafe(ir, g) && IncomingKept(ir, g)
  {
    hide RegForVar, RegForOperand, Disturbs, TempsOk, FrameFits, TablesOk, Incoming;
    forall i, d, w | 0 <= i < |ir| && Disturbs(ir, i, d, w) ensures PlacesDiffer(g, d, w) {
      assert PlacesDiffer(f, d, w);
    }
  }

  lemma RescannedSizes(ir: seq<IrInst>, f: StackFrame, g: StackFrame)
    requires TablesFor(ir, f) && g == f.(usedCalleeSavedRegisters := g.usedCalleeSavedRegisters) &&
             |g.usedCalleeSavedRegisters| <= 10
    requires (forall o :: RegForOperand(g, o) == RegForOperand(f, o)) && forall v :: RegForVar(g, v) == RegForVar(f, v)
    ensures TablesOk(g) && FrameFits(ir, g)
  {
    hide RegForVar, RegForOperand, DefinitionsSafe, ScratchFree, RegistersSafe, IncomingKept, TempsOk, Locals,
         OverflowArgs;
    forall v | v in g.localOffsets ensures FitsInt32(LocalOffset(g, v)) {
      assert RegForVar(f, v).Some? || RegForVar(f, v).None?;
    }
  }

  function Bumped(m: map<string, nat>, v: string): map<string, nat> { m[v := (if v in m then m[v] else 0) + 1] }

  /** Arguments are numbered from 0. */
  predicate ArgsIndexed(ir: seq<IrInst>)
  {
    forall i :: 0 <= i < |ir| && ir[i].op.PARAM? && ir[i].src1.Imm? ==> ir[i].src1.immVal >= 0
  }

  /** The tests made on a chain before it is fused. */
  predicate WorthFusing(ir: seq<IrInst>, table: Ranges, i: nat)
    requires MatchNormalized(ir, i).Some?
  {
    var n := MatchNormalized(ir, i).value;
    && (n.intermediate == n.destination || !ScanLive(ir, i + n.length, NameOf(n.intermediate)))
    && (IsPowerOfTwo(n.modulus) || (n.source.Imm? && n.source.immVal >= 0) ||
        (n.source.Local? && IsNonNegative(table, n.source.name, i)))
  }

  lemma ChainTest(c: Unit, table: Ranges, i: nat)
    requires i < |c.ir| && c.nonneg == NonnegLines(c.ir, table)
    ensures FusesChain(c, i) <==>
            MatchNormalized(c.ir, i).Some? && IsValue(MatchNormalized(c.ir, i).value.source) &&
            WorthFusing(c.ir, table, i)
  {
    hide IsNonNegative, IsPowerOfTwo, MatchNormalized, ScanLive;
    if MatchNormalized(c.ir, i).Some? { ChainEnds(c.ir, i); }
  }

  lemma ChainBody(c: Unit, table: Ranges, i: nat)
    requires FusesChain(c, i) && c.nonneg == NonnegLines(c.ir, table)
    ensures var n := MatchNormalized(c.ir, i).value;
            && n.modulus > 1 && IsVariable(n.destination) && IsValue(n.source) && n.length == ChainLength(c, i)
            && ChainCode(c, i) == FusedRemainderCode(c.f, n, n.source.Local? && IsNonNegative(table, n.source.name, i))
  {
    hide IsNonNegative, IsPowerOfTwo, MatchNormalized, ScanLive, FusedRemainderCode;
    ChainEnds(c.ir, i);
  }

  lemma {:induction false} SameIndex(ir: seq<IrInst>, a: nat, b: nat)
    requires a <= b <= |ir| && forall k :: a <= k < b ==> !DeclaresParam(ir[k])
    ensures ParamIndex(ir, b) == ParamIndex(ir, a)
  {
    if a < b { SameIndex(ir, a, b - 1); }
  }

  lemma ChainNoParams(ir: seq<IrInst>, a: nat, n: nat)
    requires MatchNormalized(ir, a).Some? && n == MatchNormalized(ir, a).value.length
    ensures ParamIndex(ir, a + n) == ParamIndex(ir, a) && forall k :: a <= k < a + n ==> !ir[k].op.CALL?
  {
    hide MatchNormalized;
    forall k | a <= k < a + n ensures k < |ir| && !DeclaresParam(ir[k]) && !ir[k].op.CALL? { ChainLines(ir, a, k); }
    SameIndex(ir, a, a + n);
  }

  lemma FusedNoParams(c: Unit, i: nat)
    requires FusedAt(c, i)
    ensures i + 2 <= |c.ir| && ParamIndex(c.ir, i + 2) == ParamIndex(c.ir, i) && !c.ir[i].op.CALL? &&
            !c.ir[i + 1].op.CALL?
  {
    SameIndex(c.ir, i, i + 2);
  }

  /** A return after a tail call has no lines. */
  lemma SkippedReturn(c: Unit, i: nat)
    requires i < |c.ir| && c.ir[i].op.RETURN? && AfterTail(c, i)
    ensures CodeFrom(c, i) == CodeFrom(c, i + 1) && ParamIndex(c.ir, i + 1) == ParamIndex(c.ir, i) &&
            AfterTail(c, i + 1)
  {
    if FusesChain(c, i) { ChainLines(c.ir, i, i); }
    assert InstCode(c, i) == [];
  }
}
