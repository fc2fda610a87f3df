/**
  The save list. It is read off the text of a draft body, after the peephole pass and before the frame is final;
  here it is shown to name every saved register the final body changes.
 */
module SavedRegisters {
  import opened Word
  import opened Ir
  import opened IrFlow
  import opened Rv32
  import opened Frame
  import Magic
  import opened Selection
  import opened Binary
  import opened BinaryOp
  import opened Compare
  import opened FrameCode
  import opened Remainder
  import opened Body
  import opened Homes
  import opened FunctionSim
  import opened Peephole
  import opened PeepholeProof

  // ---- the same writes, whatever the save list ----

  ghost predicate Writes(code: seq<Instr>, r: Reg) { exists l :: l in code && r in Defs(l) && !IsNoOp(l) }

  /** The two texts change the same saved registers. */
  ghost predicate SameWrites(a: seq<Instr>, b: seq<Instr>) { forall n: nat :: Writes(a, S(n)) <==> Writes(b, S(n)) }

  /** Two frames that differ in their save lists only. */
  predicate SameTables(f: StackFrame, g: StackFrame)
  {
    g == f.(usedCalleeSavedRegisters := g.usedCalleeSavedRegisters)
  }

  lemma WritesAppend(a: seq<Instr>, b: seq<Instr>)
    ensures forall r: Reg :: Writes(a + b, r) <==> Writes(a, r) || Writes(b, r)
  {
    forall r: Reg ensures Writes(a + b, r) <==> Writes(a, r) || Writes(b, r) {
      if Writes(a, r) {
        var l :| l in a && r in Defs(l) && !IsNoOp(l);
        assert l in a + b;
      }
      if Writes(b, r) {
        var l :| l in b && r in Defs(l) && !IsNoOp(l);
        assert l in a + b;
      }
    }
  }

  lemma SameAppend(a: seq<Instr>, b: seq<Instr>, a': seq<Instr>, b': seq<Instr>)
    requires SameWrites(a, a') && SameWrites(b, b')
    ensures SameWrites(a + b, a' + b')
  {
    hide Writes;
    WritesAppend(a, b);
    WritesAppend(a', b');
  }

  lemma WritesOne(l: Instr)
    ensures forall r: Reg :: Writes([l], r) <==> r in Defs(l) && !IsNoOp(l)
  {
    forall r: Reg | r in Defs(l) && !IsNoOp(l) ensures Writes([l], r) { assert l in [l]; }
  }

  /** Where the address is far the lines differ, but not the saved registers they change. */
  lemma AddressWrites(reg: Reg, base: Reg, x: int)
    ensures forall n: nat :: Writes(LoadAddressCode(reg, base, x), S(n)) <==> reg == S(n)
    ensures forall n: nat :: !Writes(StoreAddressCode(reg, base, x), S(n))
  {
    hide Writes;
    var t := AddressScratch(reg);
    var far := [Li(t, x)] + [Alu(Add, t, base, t)];
    WritesOne(Li(t, x));
    WritesOne(Alu(Add, t, base, t));
    WritesAppend([Li(t, x)], [Alu(Add, t, base, t)]);
    WritesOne(Lw(reg, x, base));
    WritesOne(Lw(reg, 0, t));
    WritesOne(Sw(reg, x, base));
    WritesOne(Sw(reg, 0, t));
    WritesAppend(far, [Lw(reg, 0, t)]);
    WritesAppend(far, [Sw(reg, 0, t)]);
    assert LoadAddressCode(reg, base, x) == if Fits12(x) then [Lw(reg, x, base)] else far + [Lw(reg, 0, t)];
    assert StoreAddressCode(reg, base, x) == if Fits12(x) then [Sw(reg, x, base)] else far + [Sw(reg, 0, t)];
  }

  lemma OperandSame(f: StackFrame, g: StackFrame, o: Operand, reg: Reg)
    requires SameTables(f, g)
    ensures RegForOperand(f, o) == RegForOperand(g, o)
    ensures SameWrites(LoadCode(f, o, reg), LoadCode(g, o, reg)) &&
            SameWrites(StoreCode(f, reg, o), StoreCode(g, reg, o))
  {
    hide Writes, LocalOffset, LoadAddressCode, StoreAddressCode;
    if o.Local? {
      AddressWrites(reg, S(0), LocalOffset(f, o.name));
      AddressWrites(reg, S(0), LocalOffset(g, o.name));
    }
  }

  lemma SourcesSame(f: StackFrame, g: StackFrame, o: Operand, dest: Reg)
    requires SameTables(f, g)
    ensures Src1Reg(f, o, dest) == Src1Reg(g, o, dest) && Src2Reg(f, o, dest) == Src2Reg(g, o, dest)
    ensures SameWrites(Src1Code(f, o, dest), Src1Code(g, o, dest)) &&
            SameWrites(Src2Code(f, o, dest), Src2Code(g, o, dest))
  {
    hide Writes, LoadCode;
    OperandSame(f, g, o, dest);
    OperandSame(f, g, o, T(1));
  }

  lemma ConstantsSame(f: StackFrame, g: StackFrame)
    requires SameTables(f, g)
    ensures forall c :: RegForConstant(f, c) == RegForConstant(g, c) && ConstantCode(f, c) == ConstantCode(g, c) &&
              ConstantReg(f, c) == ConstantReg(g, c)
  {
  }

  lemma MagicSame(f: StackFrame, g: StackFrame, imm: i32, src: Reg, dest: Reg, nonneg: bool)
    requires SameTables(f, g) && MagicApplies(imm)
    ensures MagicDivCode(f, imm, src, dest, nonneg) == MagicDivCode(g, imm, src, dest, nonneg)
    ensures MagicModCode(f, imm, src, dest, nonneg) == MagicModCode(g, imm, src, dest, nonneg)
  {
    hide ConstantCode, ConstantReg, Wrap, MagicApplies;
    ConstantsSame(f, g);
  }

  lemma ImmSame(f: StackFrame, g: StackFrame, op: IrOp, imm: i32, src: Reg, dest: Reg, localNonneg: bool, nonneg: bool)
    requires SameTables(f, g) && IsArithmetic(op)
    ensures SmallImmCode(f, op, imm, src, dest, localNonneg, nonneg) ==
            SmallImmCode(g, op, imm, src, dest, localNonneg, nonneg)
  {
    hide ConstantCode, ConstantReg, MagicDivCode, MagicModCode, MagicApplies, IsPowerOfTwo, Ctz, BiasCode;
    ConstantsSame(f, g);
    if MagicApplies(imm) { MagicSame(f, g, imm, src, dest, nonneg); }
  }

  lemma GeneralSame(f: StackFrame, g: StackFrame, inst: IrInst, dest: Reg, localNonneg: bool)
    requires SameTables(f, g) && BinaryShaped(inst) && IsArithmetic(inst.op)
    ensures SameWrites(GeneralCode(f, inst, dest, localNonneg), GeneralCode(g, inst, dest, localNonneg))
  {
    hide Writes, Src1Code, Src2Code, Src1Reg, Src2Reg, SmallImmCode, MagicDivCode, MagicModCode, MagicApplies;
    var nonneg := localNonneg || (inst.src1.Imm? && inst.src1.immVal >= 0);
    var a, b := Src1Reg(f, inst.src1, dest), Src2Reg(f, inst.src2, dest);
    SourcesSame(f, g, inst.src1, dest);
    SourcesSame(f, g, inst.src2, dest);
    SameAppend(Src2Code(f, inst.src2, dest), Src1Code(f, inst.src1, dest), Src2Code(g, inst.src2, dest),
               Src1Code(g, inst.src1, dest));
    var op := if IsSmallImm(inst.src2) then SmallImmCode(f, inst.op, inst.src2.immVal, a, dest, localNonneg, nonneg)
              else WideCode(f, inst, a, b, dest, nonneg);
    if IsSmallImm(inst.src2) {
      ImmSame(f, g, inst.op, inst.src2.immVal, a, dest, localNonneg, nonneg);
    } else if inst.src2.Imm? && MagicApplies(inst.src2.immVal) {
      MagicSame(f, g, inst.src2.immVal, a, dest, nonneg);
    }
    SameAppend(Src2Code(f, inst.src2, dest) + Src1Code(f, inst.src1, dest), op,
               Src2Code(g, inst.src2, dest) + Src1Code(g, inst.src1, dest), op);
  }

  lemma OperationSame(f: StackFrame, g: StackFrame, inst: IrInst, localNonneg: bool)
    requires SameTables(f, g) && BinaryShaped(inst)
    ensures SameWrites(OperationCode(f, inst, localNonneg), OperationCode(g, inst, localNonneg))
  {
    hide Writes, LoadCode, GeneralCode;
    var dest := DestRegOrT0(f, inst.dest);
    OperandSame(f, g, inst.dest, dest);
    OperandSame(f, g, inst.src1, dest);
    OperandSame(f, g, inst.src2, dest);
    ConstantsSame(f, g);
    if inst.op.NOT? {
      var last := [AluI(Sltiu, dest, dest, 1)];
      SameAppend(LoadCode(f, inst.src1, dest), last, LoadCode(g, inst.src1, dest), last);
    } else {
      GeneralSame(f, g, inst, dest, localNonneg);
    }
  }

  lemma BinarySame(f: StackFrame, g: StackFrame, inst: IrInst, localNonneg: bool)
    requires SameTables(f, g) && BinaryShaped(inst)
    ensures SameWrites(BinaryCode(f, inst, localNonneg), BinaryCode(g, inst, localNonneg))
  {
    hide Writes, OperationCode, StoreCode;
    OperationSame(f, g, inst, localNonneg);
    OperandSame(f, g, inst.dest, T(0));
    var a := if RegForOperand(f, inst.dest).Some? then [] else StoreCode(f, T(0), inst.dest);
    var b := if RegForOperand(g, inst.dest).Some? then [] else StoreCode(g, T(0), inst.dest);
    SameAppend(OperationCode(f, inst, localNonneg), a, OperationCode(g, inst, localNonneg), b);
  }

  lemma CompareSame(f: StackFrame, g: StackFrame, inst: IrInst, dest: Reg)
    requires SameTables(f, g) && CompareShaped(inst)
    ensures SameWrites(CompareCode(f, inst, dest), CompareCode(g, inst, dest))
  {
    hide Writes, Src1Code, Src2Code, Src1Reg, Src2Reg, WideCompareCode, ConstantCode, ConstantReg;
    var a, b := Src1Reg(f, inst.src1, dest), Src2Reg(f, inst.src2, dest);
    SourcesSame(f, g, inst.src1, dest);
    SourcesSame(f, g, inst.src2, dest);
    ConstantsSame(f, g);
    SameAppend(Src2Code(f, inst.src2, dest), Src1Code(f, inst.src1, dest), Src2Code(g, inst.src2, dest),
               Src1Code(g, inst.src1, dest));
    var op := if IsSmallImm(inst.src2) then SmallCompareCode(f, inst.op, inst.src2.immVal, a, dest)
              else WideCompareCode(inst.op, a, b, dest);
    SameAppend(Src2Code(f, inst.src2, dest) + Src1Code(f, inst.src1, dest), op,
               Src2Code(g, inst.src2, dest) + Src1Code(g, inst.src1, dest), op);
  }

  lemma SettleSame(f: StackFrame, g: StackFrame, dest: Operand)
    requires SameTables(f, g)
    ensures SameWrites(SettleCode(f, dest), SettleCode(g, dest)) && DestRegOrT0(f, dest) == DestRegOrT0(g, dest)
  {
    hide Writes, StoreCode;
    OperandSame(f, g, dest, T(0));
  }

  lemma MoveSame(f: StackFrame, g: StackFrame, o: Operand, dest: Operand)
    requires SameTables(f, g)
    ensures SameWrites(MoveCode(f, o, dest), MoveCode(g, o, dest))
  {
    hide Writes, LoadCode, SettleCode;
    SettleSame(f, g, dest);
    OperandSame(f, g, o, DestRegOrT0(f, dest));
    SameAppend(LoadCode(f, o, DestRegOrT0(f, dest)), SettleCode(f, dest), LoadCode(g, o, DestRegOrT0(f, dest)),
               SettleCode(g, dest));
  }

  // ---- the draft and the final body ----

  /** cd is the draft of c: the same body over the same tables, its save list not yet known. */
  predicate Drafted(c: Unit, cd: Unit)
  {
    c.name == cd.name && c.ir == cd.ir && c.nonneg == cd.nonneg && c.tails == cd.tails && SameTables(c.f, cd.f) &&
    !c.draft && cd.draft
  }

  /** Whatever saved register the first text changes, the second changes too, or it is on the save list. */
  ghost predicate CoveredBy(f: StackFrame, a: seq<Instr>, b: seq<Instr>)
  {
    forall n: nat :: n >= 1 && Writes(a, S(n)) ==> Writes(b, S(n)) || S(n) in f.usedCalleeSavedRegisters
  }

  lemma CoveredAppend(f: StackFrame, a: seq<Instr>, b: seq<Instr>, a': seq<Instr>, b': seq<Instr>)
    requires CoveredBy(f, a, a') && CoveredBy(f, b, b')
    ensures CoveredBy(f, a + b, a' + b')
  {
    hide Writes;
    WritesAppend(a, b);
    WritesAppend(a', b');
  }

  lemma NoneWritten()
    ensures forall r: Reg :: !Writes([], r)
  {
  }

  lemma {:induction false} RestoresListed(regs: seq<Reg>, n: nat)
    requires n >= 1 && Writes(RestoreCode(regs), S(n))
    ensures S(n) in regs
  {
    var l :| l in RestoreCode(regs) && S(n) in Defs(l) && !IsNoOp(l);
    var i :| 0 <= i < |regs| && RestoreCode(regs)[i] == l;
    assert l == Lw(regs[i], SaveOffset(i), S(0));
  }

  lemma LeaveCovered(f: StackFrame, size: int, restoreRa: bool, b: seq<Instr>)
    ensures CoveredBy(f, LeaveCode(f, size, restoreRa), b)
  {
    hide Writes, RestoreCode;
    var regs := f.usedCalleeSavedRegisters;
    var ra := if restoreRa then [Lw(Ra, -4, S(0))] else [];
    var fp := [Lw(S(0), -8, S(0))];
    forall n: nat | n >= 1 && Writes(LeaveCode(f, size, restoreRa), S(n)) ensures S(n) in regs {
      WritesAppend(RestoreCode(regs), ra);
      WritesAppend(RestoreCode(regs) + ra, fp);
      WritesAppend(RestoreCode(regs) + ra + fp, AdjustSpCode(size));
      NoneWritten();
      WritesOne(Lw(Ra, -4, S(0)));
      WritesOne(Lw(S(0), -8, S(0)));
      AdjustWrites(size);
      RestoresListed(regs, n);
    }
  }

  lemma AdjustWrites(amount: int)
    ensures forall n: nat :: !Writes(AdjustSpCode(amount), S(n))
  {
  }

  lemma CoveredSame(f: StackFrame, a: seq<Instr>, b: seq<Instr>)
    requires SameWrites(a, b)
    ensures CoveredBy(f, a, b)
  {
    hide Writes;
  }

  lemma ParamDeclSame(f: StackFrame, g: StackFrame, dest: Operand, k: nat)
    requires SameTables(f, g)
    ensures SameWrites(ParamDeclCode(f, dest, k), ParamDeclCode(g, dest, k))
  {
    hide Writes, SettleCode, LoadAddressCode;
    SettleSame(f, g, dest);
    var r := DestRegOrT0(f, dest);
    var a := if k >= 8 then LoadAddressCode(r, S(0), WORD_BYTES * (k - 8)) else if r != A(k) then [Mv(r, A(k))] else [];
    SameAppend(a, SettleCode(f, dest), a, SettleCode(g, dest));
  }

  lemma ParamSame(f: StackFrame, g: StackFrame, o: Operand, k: int)
    requires SameTables(f, g)
    ensures SameWrites(ParamCode(f, o, k), ParamCode(g, o, k))
  {
    hide Writes, LoadCode, StoreAddressCode;
    if 0 <= k < 8 { OperandSame(f, g, o, A(k)); }
    if k >= 8 {
      OperandSame(f, g, o, T(0));
      var st := StoreAddressCode(T(0), Sp, WORD_BYTES * (k - 8));
      SameAppend(LoadCode(f, o, T(0)), st, LoadCode(g, o, T(0)), st);
    }
  }

  lemma BranchSame(f: StackFrame, g: StackFrame, inst: IrInst)
    requires SameTables(f, g)
    ensures SameWrites(BranchCode(f, inst), BranchCode(g, inst))
  {
    hide Writes, LoadCode;
    OperandSame(f, g, inst.src1, T(0));
    var b := [BrZ(BranchTest(inst.op), T(0), NameOf(inst.dest))];
    SameAppend(LoadCode(f, inst.src1, T(0)), b, LoadCode(g, inst.src1, T(0)), b);
  }

  lemma CompareOpSame(f: StackFrame, g: StackFrame, inst: IrInst)
    requires SameTables(f, g) && CompareShaped(inst)
    ensures SameWrites(CompareOpCode(f, inst), CompareOpCode(g, inst))
  {
    hide Writes, CompareCode, SettleCode;
    SettleSame(f, g, inst.dest);
    var d := DestRegOrT0(f, inst.dest);
    CompareSame(f, g, inst, d);
    SameAppend(CompareCode(f, inst, d), SettleCode(f, inst.dest), CompareCode(g, inst, d), SettleCode(g, inst.dest));
  }

  lemma CallCovered(c: Unit, cd: Unit, i: nat)
    requires Drafted(c, cd) && i < |c.ir|
    ensures CoveredBy(c.f, CallCode(c, i), CallCode(cd, i))
  {
    hide Writes, StoreCode, LeaveCode;
    var callee := NameOf(c.ir[i].src1);
    if i !in c.tails {
      OperandSame(c.f, cd.f, c.ir[i].dest, A(0));
      var a := if IsVariable(c.ir[i].dest) then StoreCode(c.f, A(0), c.ir[i].dest) else [];
      var b := if IsVariable(c.ir[i].dest) then StoreCode(cd.f, A(0), c.ir[i].dest) else [];
      SameAppend([Call(callee)], a, [Call(callee)], b);
      CoveredSame(c.f, CallCode(c, i), CallCode(cd, i));
    } else {
      LeaveCovered(c.f, c.size, true, []);
      JumpWrites(callee);
      JumpWrites(BodyLabel(c.name));
      CoveredAppend(c.f, LeaveCode(c.f, c.size, true), [J(callee)], [], [J(callee)]);
      assert [] + [J(callee)] == [J(callee)];
    }
  }

  lemma JumpWrites(l: string)
    ensures forall r: Reg :: !Writes([J(l)], r)
  {
    WritesOne(J(l));
  }

  lemma ReturnSame(c: Unit, cd: Unit, i: nat)
    requires Drafted(c, cd) && i < |c.ir|
    ensures SameWrites(ReturnCode(c, i), ReturnCode(cd, i))
  {
    hide Writes, LoadCode;
    OperandSame(c.f, cd.f, c.ir[i].dest, A(0));
    var j := [J(ExitLabel(c.name))];
    SameAppend(LoadCode(c.f, c.ir[i].dest, A(0)), j, LoadCode(cd.f, c.ir[i].dest, A(0)), j);
    assert [] + j == j;
  }

  lemma InstCovered(c: Unit, cd: Unit, i: nat)
    requires Drafted(c, cd) && i < |c.ir|
    ensures CoveredBy(c.f, InstCode(c, i), InstCode(cd, i))
  {
    hide CoveredBy, SameWrites, BinaryCode, CompareOpCode, MoveCode, ParamDeclCode, ParamCode, CallCode, ReturnCode,
         BranchCode;
    var inst := c.ir[i];
    if inst.op.CALL? && !BinaryShaped(inst) && !CompareShaped(inst) {
      CallCovered(c, cd, i);
    } else {
      InstSame(c, cd, i);
      CoveredSame(c.f, InstCode(c, i), InstCode(cd, i));
    }
  }

  lemma InstSame(c: Unit, cd: Unit, i: nat)
    requires Drafted(c, cd) && i < |c.ir| && !c.ir[i].op.CALL?
    ensures SameWrites(InstCode(c, i), InstCode(cd, i))
  {
    hide SameWrites, BinaryCode, CompareOpCode, MoveCode, ParamDeclCode, ParamCode, CallCode, ReturnCode, BranchCode;
    var inst := c.ir[i];
    if BinaryShaped(inst) {
      BinarySame(c.f, cd.f, inst, i in c.nonneg);
    } else if CompareShaped(inst) {
      CompareOpSame(c.f, cd.f, inst);
    } else {
      MoveSame(c.f, cd.f, inst.src1, inst.dest);
      ParamDeclSame(c.f, cd.f, inst.dest, ParamIndex(c.ir, i));
      ParamSame(c.f, cd.f, inst.dest, if inst.src1.Imm? then inst.src1.immVal else 0);
      ReturnSame(c, cd, i);
      BranchSame(c.f, cd.f, inst);
      SameSelf([]);
      SameSelf([Lab(NameOf(inst.dest))]);
      SameSelf([J(NameOf(inst.dest))]);
    }
  }

  lemma SameSelf(a: seq<Instr>)
    ensures SameWrites(a, a)
  {
  }

  lemma ChainSame(c: Unit, cd: Unit, i: nat)
    requires Drafted(c, cd) && FusesChain(c, i) && FusesChain(cd, i)
    ensures SameWrites(ChainCode(c, i), ChainCode(cd, i))
  {
    hide Writes, LoadCode, SettleCode, BinaryCode, MatchNormalized, IsPowerOfTwo, Ctz, FusesChain;
    ChainShape(c, i);
    var n := MatchNormalized(c.ir, i).value;
    if IsPowerOfTwo(n.modulus) {
      var dest := DestRegOrT0(c.f, n.destination);
      SettleSame(c.f, cd.f, n.destination);
      OperandSame(c.f, cd.f, n.source, dest);
      var two := [AluI(Slli, dest, dest, 32 - Ctz(n.modulus)), AluI(Srli, dest, dest, 32 - Ctz(n.modulus))];
      SameAppend(LoadCode(c.f, n.source, dest), two, LoadCode(cd.f, n.source, dest), two);
      SameAppend(LoadCode(c.f, n.source, dest) + two, SettleCode(c.f, n.destination),
                 LoadCode(cd.f, n.source, dest) + two, SettleCode(cd.f, n.destination));
    } else {
      BinarySame(c.f, cd.f, IrInst(MOD, n.destination, n.source, Imm(n.modulus)), i in c.nonneg);
    }
  }

  lemma ChainShape(c: Unit, i: nat)
    requires FusesChain(c, i)
    ensures MatchNormalized(c.ir, i).Some?
    ensures var n := MatchNormalized(c.ir, i).value; n.modulus > 1 && IsVariable(n.destination) && IsValue(n.source)
  {
    ChainEnds(c.ir, i);
  }

  lemma FusedSame(c: Unit, cd: Unit, i: nat)
    requires Drafted(c, cd) && FusedAt(c, i) && FusedAt(cd, i)
    ensures SameWrites(FusedCode(c, i), FusedCode(cd, i))
  {
    hide Writes, CompareCode;
    CompareSame(c.f, cd.f, c.ir[i], T(0));
    var b := [BrZ(BranchTest(c.ir[i + 1].op), T(0), NameOf(c.ir[i + 1].dest))];
    SameAppend(CompareCode(c.f, c.ir[i], T(0)), b, CompareCode(cd.f, c.ir[i], T(0)), b);
  }

  /** The final body changes no saved register that neither the draft changes nor the list holds. */
  lemma {:induction false} BodyCovered(c: Unit, cd: Unit, i: nat)
    requires Drafted(c, cd) && CoveredBy(c.f, c.after, cd.after)
    ensures CoveredBy(c.f, CodeFrom(c, i), CodeFrom(cd, i))
    decreases |c.ir| - i
  {
    hide CoveredBy, SameWrites, InstCode, FusedCode, ChainCode, MatchNormalized, UseCount, ScanLive;
    if i >= |c.ir| {
    } else if FusesChain(c, i) {
      assert FusesChain(cd, i) && ChainLength(c, i) == ChainLength(cd, i);
      var n := ChainLength(c, i);
      ChainSame(c, cd, i);
      CoveredSame(c.f, ChainCode(c, i), ChainCode(cd, i));
      BodyCovered(c, cd, i + n);
      CoveredAppend(c.f, ChainCode(c, i), CodeFrom(c, i + n), ChainCode(cd, i), CodeFrom(cd, i + n));
    } else if FusedAt(c, i) {
      assert FusedAt(cd, i) && !FusesChain(cd, i);
      FusedSame(c, cd, i);
      CoveredSame(c.f, FusedCode(c, i), FusedCode(cd, i));
      BodyCovered(c, cd, i + 2);
      CoveredAppend(c.f, FusedCode(c, i), CodeFrom(c, i + 2), FusedCode(cd, i), CodeFrom(cd, i + 2));
    } else {
      assert !FusedAt(cd, i) && !FusesChain(cd, i);
      InstCovered(c, cd, i);
      BodyCovered(c, cd, i + 1);
      CoveredAppend(c.f, InstCode(c, i), CodeFrom(c, i + 1), InstCode(cd, i), CodeFrom(cd, i + 1));
    }
  }

  // ---- only the destination's register ----

  /** The only saved register the text changes, if any, is r. */
  ghost predicate OnlyWrites(code: seq<Instr>, r: Reg) { forall n: nat :: Writes(code, S(n)) ==> S(n) == r }

  lemma OnlyAppend(a: seq<Instr>, b: seq<Instr>, r: Reg)
    requires OnlyWrites(a, r) && OnlyWrites(b, r)
    ensures OnlyWrites(a + b, r)
  {
    hide Writes;
    WritesAppend(a, b);
  }

  lemma OnlyNone(code: seq<Instr>, t: Reg, r: Reg)
    requires OnlyWrites(code, t) && !t.S?
    ensures OnlyWrites(code, r)
  {
  }

  lemma OperandOnly(f: StackFrame, o: Operand, reg: Reg)
    ensures OnlyWrites(LoadCode(f, o, reg), reg)
    ensures OnlyWrites(StoreCode(f, reg, o), DestRegOrT0(f, o))
  {
    hide LocalOffset, LoadAddressCode, StoreAddressCode;
    if o.Local? { AddressWrites(reg, S(0), LocalOffset(f, o.name)); }
  }

  lemma MagicOnly(f: StackFrame, imm: i32, src: Reg, dest: Reg, nonneg: bool)
    requires imm != 0 && MagicApplies(imm)
    ensures OnlyWrites(MagicDivCode(f, imm, src, dest, nonneg), dest) &&
            OnlyWrites(MagicModCode(f, imm, src, dest, nonneg), dest)
  {
    hide Wrap, MagicApplies, Magic.Multiplier, Magic.MagicShift, Abs;
    assert OnlyWrites(ConstantCode(f, imm), dest);
    assert OnlyWrites(MagicQuotientCode(f, imm, src, nonneg), dest);
    hide MagicQuotientCode, ConstantCode, Writes;
    OnlyLine(Mv(dest, T(2)), dest);
    OnlyAppend(MagicQuotientCode(f, imm, src, nonneg), [Mv(dest, T(2))], dest);
    ModOnly(f, imm, src, dest, nonneg);
  }

  lemma OnlyLine(l: Instr, r: Reg)
    requires forall n: nat :: S(n) in Defs(l) ==> S(n) == r
    ensures OnlyWrites([l], r)
  {
  }

  lemma ModOnly(f: StackFrame, imm: i32, src: Reg, dest: Reg, nonneg: bool)
    requires imm != 0 && MagicApplies(imm) && OnlyWrites(MagicQuotientCode(f, imm, src, nonneg), dest) &&
             OnlyWrites(ConstantCode(f, imm), dest)
    ensures OnlyWrites(MagicModCode(f, imm, src, dest, nonneg), dest)
  {
    hide MagicQuotientCode, ConstantCode, Writes, MagicApplies;
    var keep := if src == T(0) then [Mv(T(3), T(0))] else [];
    var mul := Alu(Mul, T(2), T(2), ConstantReg(f, imm));
    var last := Alu(Sub, dest, if src == T(0) then T(3) else src, T(2));
    NoneWritten();
    OnlyLine(Mv(T(3), T(0)), dest);
    OnlyLine(mul, dest);
    OnlyLine(last, dest);
    OnlyAppend(keep, MagicQuotientCode(f, imm, src, nonneg), dest);
    OnlyAppend(keep + MagicQuotientCode(f, imm, src, nonneg), ConstantCode(f, imm), dest);
    OnlyAppend(keep + MagicQuotientCode(f, imm, src, nonneg) + ConstantCode(f, imm), [mul], dest);
    OnlyAppend(keep + MagicQuotientCode(f, imm, src, nonneg) + ConstantCode(f, imm) + [mul], [last], dest);
  }

  lemma ImmOnly(f: StackFrame, op: IrOp, imm: i32, src: Reg, dest: Reg, localNonneg: bool, nonneg: bool)
    requires IsArithmetic(op)
    ensures OnlyWrites(SmallImmCode(f, op, imm, src, dest, localNonneg, nonneg), dest)
  {
    hide MagicDivCode, MagicModCode, MagicApplies, IsPowerOfTwo, Ctz;
    if imm != 0 && MagicApplies(imm) { MagicOnly(f, imm, src, dest, nonneg); }
  }

  lemma GeneralOnly(f: StackFrame, inst: IrInst, dest: Reg, localNonneg: bool)
    requires BinaryShaped(inst) && IsArithmetic(inst.op)
    ensures OnlyWrites(GeneralCode(f, inst, dest, localNonneg), dest)
  {
    hide Writes, Src1Code, Src2Code, Src1Reg, Src2Reg, SmallImmCode, MagicDivCode, MagicModCode, MagicApplies;
    var nonneg := localNonneg || (inst.src1.Imm? && inst.src1.immVal >= 0);
    var a, b := Src1Reg(f, inst.src1, dest), Src2Reg(f, inst.src2, dest);
    SourcesOnly(f, inst.src1, inst.src2, dest);
    if IsSmallImm(inst.src2) {
      ImmOnly(f, inst.op, inst.src2.immVal, a, dest, localNonneg, nonneg);
    } else {
      OnlyLine(Alu(AluFor(inst.op), dest, a, b), dest);
      if inst.src2.Imm? && MagicApplies(inst.src2.immVal) { MagicOnly(f, inst.src2.immVal, a, dest, nonneg); }
    }
    OnlyAppend(Src2Code(f, inst.src2, dest) + Src1Code(f, inst.src1, dest),
               if IsSmallImm(inst.src2) then SmallImmCode(f, inst.op, inst.src2.immVal, a, dest, localNonneg, nonneg)
               else WideCode(f, inst, a, b, dest, nonneg), dest);
  }

  lemma SourcesOnly(f: StackFrame, o1: Operand, o2: Operand, dest: Reg)
    ensures OnlyWrites(Src2Code(f, o2, dest) + Src1Code(f, o1, dest), dest)
  {
    hide Writes, LoadCode;
    NoneWritten();
    OperandOnly(f, o1, dest);
    OperandOnly(f, o2, T(1));
    OnlyNone(LoadCode(f, o2, T(1)), T(1), dest);
    OnlyAppend(Src2Code(f, o2, dest), Src1Code(f, o1, dest), dest);
  }

  lemma BinaryOnly(f: StackFrame, inst: IrInst, localNonneg: bool)
    requires BinaryShaped(inst)
    ensures OnlyWrites(BinaryCode(f, inst, localNonneg), DestRegOrT0(f, inst.dest))
  {
    hide Writes, LoadCode, GeneralCode, StoreCode;
    var dest := DestRegOrT0(f, inst.dest);
    NoneWritten();
    OperandOnly(f, inst.dest, T(0));
    OperandOnly(f, inst.src1, dest);
    if inst.op.NOT? {
      OnlyLine(AluI(Sltiu, dest, dest, 1), dest);
      OnlyAppend(LoadCode(f, inst.src1, dest), [AluI(Sltiu, dest, dest, 1)], dest);
    } else {
      GeneralOnly(f, inst, dest, localNonneg);
      if ImmediateMinusDest(f, inst) || BothInRegisters(f, inst) { DirectOnly(f, inst, dest); }
    }
    OnlyAppend(OperationCode(f, inst, localNonneg),
               if RegForOperand(f, inst.dest).Some? then [] else StoreCode(f, T(0), inst.dest), dest);
  }

  lemma DirectOnly(f: StackFrame, inst: IrInst, dest: Reg)
    requires BinaryShaped(inst) && dest == DestRegOrT0(f, inst.dest) && !inst.op.NOT?
    requires ImmediateMinusDest(f, inst) || BothInRegisters(f, inst)
    ensures OnlyWrites(OperationCode(f, inst, false), dest) && OnlyWrites(OperationCode(f, inst, true), dest)
  {
    hide RegForOperand;
  }

  lemma CompareOnly(f: StackFrame, inst: IrInst, dest: Reg)
    requires CompareShaped(inst)
    ensures OnlyWrites(CompareCode(f, inst, dest), dest)
  {
    hide Src1Code, Src2Code, Src1Reg, Src2Reg;
    var a, b := Src1Reg(f, inst.src1, dest), Src2Reg(f, inst.src2, dest);
    var op := if IsSmallImm(inst.src2) then SmallCompareCode(f, inst.op, inst.src2.immVal, a, dest)
              else WideCompareCode(inst.op, a, b, dest);
    assert OnlyWrites(op, dest);
    hide Writes;
    SourcesOnly(f, inst.src1, inst.src2, dest);
    OnlyAppend(Src2Code(f, inst.src2, dest) + Src1Code(f, inst.src1, dest), op, dest);
  }

  lemma MoveOnly(f: StackFrame, o: Operand, dest: Operand)
    ensures OnlyWrites(SettleCode(f, dest), DestRegOrT0(f, dest)) &&
            OnlyWrites(MoveCode(f, o, dest), DestRegOrT0(f, dest))
  {
    hide Writes, LoadCode, StoreCode;
    NoneWritten();
    var d := DestRegOrT0(f, dest);
    OperandOnly(f, o, d);
    OperandOnly(f, dest, T(0));
    OnlyAppend(LoadCode(f, o, d), SettleCode(f, dest), d);
  }

  /** The registers an instruction's own lines may change: its destination's, or those on the list. */
  ghost predicate InTables(f: StackFrame, code: seq<Instr>)
  {
    forall n: nat :: n >= 1 && Writes(code, S(n)) ==> 2 <= n < 12 || S(n) in f.usedCalleeSavedRegisters
  }

  lemma InTablesOnly(f: StackFrame, code: seq<Instr>, dest: Operand)
    requires OnlyWrites(code, DestRegOrT0(f, dest)) && TablesOk(f)
    ensures InTables(f, code)
  {
    hide Writes, LocalOffset;
  }

  lemma InTablesAppend(f: StackFrame, a: seq<Instr>, b: seq<Instr>)
    requires InTables(f, a) && InTables(f, b)
    ensures InTables(f, a + b)
  {
    hide Writes;
    WritesAppend(a, b);
  }

  lemma InTablesNone(f: StackFrame, code: seq<Instr>, t: Reg)
    requires OnlyWrites(code, t) && !t.S?
    ensures InTables(f, code)
  {
  }

  lemma OtherInTables(c: Unit, i: nat)
    requires TablesOk(c.f) && i < |c.ir| && !BinaryShaped(c.ir[i]) && !CompareShaped(c.ir[i])
    ensures InTables(c.f, InstCode(c, i))
  {
    hide Writes, MoveCode, ParamDeclCode, ParamCode, CallCode, ReturnCode, BranchCode, TablesOk, InTables;
    var inst := c.ir[i];
    EmptyInTables(c.f);
    MoveOnly(c.f, inst.src1, inst.dest);
    InTablesOnly(c.f, MoveCode(c.f, inst.src1, inst.dest), inst.dest);
    match inst.op
    case LOCAL_VAR_DECL =>
      ParamDeclOnly(c.f, inst.dest, ParamIndex(c.ir, i));
      InTablesOnly(c.f, ParamDeclCode(c.f, inst.dest, ParamIndex(c.ir, i)), inst.dest);
    case PARAM => ParamNone(c.f, inst.dest, if inst.src1.Imm? then inst.src1.immVal else 0);
    case CALL => CallInTables(c, i);
    case RETURN => ReturnNone(c, i);
    case BEQZ => BranchNone(c.f, inst);
    case BNEZ => BranchNone(c.f, inst);
    case LABEL =>
      OnlyLine(Lab(NameOf(inst.dest)), T(0));
      InTablesNone(c.f, [Lab(NameOf(inst.dest))], T(0));
    case BRANCH =>
      OnlyLine(J(NameOf(inst.dest)), T(0));
      InTablesNone(c.f, [J(NameOf(inst.dest))], T(0));
    case _ =>
  }

  lemma EmptyInTables(f: StackFrame)
    ensures InTables(f, [])
  {
  }

  lemma ParamDeclOnly(f: StackFrame, dest: Operand, k: nat)
    ensures OnlyWrites(ParamDeclCode(f, dest, k), DestRegOrT0(f, dest))
  {
    hide Writes, LoadAddressCode, SettleCode;
    var r := DestRegOrT0(f, dest);
    MoveOnly(f, dest, dest);
    NoneWritten();
    AddressWrites(r, S(0), WORD_BYTES * (k - 8));
    OnlyLine(Mv(r, A(k)), r);
    OnlyAppend(if k >= 8 then LoadAddressCode(r, S(0), WORD_BYTES * (k - 8)) else if r != A(k) then [Mv(r, A(k))]
               else [],
               SettleCode(f, dest), r);
  }

  lemma ParamNone(f: StackFrame, o: Operand, k: int)
    ensures InTables(f, ParamCode(f, o, k))
  {
    hide Writes, LoadCode, StoreAddressCode;
    NoneWritten();
    if 0 <= k < 8 { OperandOnly(f, o, A(k)); }
    if k >= 8 {
      OperandOnly(f, o, T(0));
      AddressWrites(T(0), Sp, WORD_BYTES * (k - 8));
      WritesAppend(LoadCode(f, o, T(0)), StoreAddressCode(T(0), Sp, WORD_BYTES * (k - 8)));
    }
  }

  lemma ReturnNone(c: Unit, i: nat)
    requires i < |c.ir|
    ensures InTables(c.f, ReturnCode(c, i))
  {
    hide Writes, LoadCode;
    NoneWritten();
    JumpWrites(ExitLabel(c.name));
    OperandOnly(c.f, c.ir[i].dest, A(0));
    WritesAppend(LoadCode(c.f, c.ir[i].dest, A(0)), [J(ExitLabel(c.name))]);
    WritesAppend([], [J(ExitLabel(c.name))]);
  }

  lemma BranchNone(f: StackFrame, inst: IrInst)
    ensures InTables(f, BranchCode(f, inst))
  {
    hide Writes, LoadCode;
    OperandOnly(f, inst.src1, T(0));
    var r := RegForOperand(f, inst.src1).GetOr(T(0));
    var b := BrZ(BranchTest(inst.op), r, NameOf(inst.dest));
    OnlyLine(b, T(0));
    OnlyAppend(LoadCode(f, inst.src1, T(0)), [b], T(0));
  }

  lemma CallInTables(c: Unit, i: nat)
    requires i < |c.ir| && TablesOk(c.f)
    ensures InTables(c.f, CallCode(c, i))
  {
    hide Writes, StoreCode, LeaveCode, TablesOk;
    NoneWritten();
    var callee := NameOf(c.ir[i].src1);
    JumpWrites(callee);
    JumpWrites(BodyLabel(c.name));
    if i !in c.tails {
      OnlyLine(Call(callee), T(0));
      InTablesNone(c.f, [Call(callee)], T(0));
      OperandOnly(c.f, c.ir[i].dest, A(0));
      InTablesOnly(c.f, StoreCode(c.f, A(0), c.ir[i].dest), c.ir[i].dest);
      EmptyInTables(c.f);
      InTablesAppend(c.f, [Call(callee)], if IsVariable(c.ir[i].dest) then StoreCode(c.f, A(0), c.ir[i].dest) else []);
    } else {
      LeaveCovered(c.f, c.size, true, []);
      WritesAppend(LeaveCode(c.f, c.size, true), [J(callee)]);
    }
  }

  lemma InstInTables(c: Unit, i: nat)
    requires TablesOk(c.f) && i < |c.ir|
    ensures InTables(c.f, InstCode(c, i))
  {
    hide Writes, BinaryCode, CompareCode, TablesOk, InTables;
    var inst := c.ir[i];
    if BinaryShaped(inst) {
      BinaryOnly(c.f, inst, i in c.nonneg);
      InTablesOnly(c.f, InstCode(c, i), inst.dest);
    } else if CompareShaped(inst) {
      CompareOnly(c.f, inst, DestRegOrT0(c.f, inst.dest));
      MoveOnly(c.f, inst.dest, inst.dest);
      hide SettleCode;
      OnlyAppend(CompareCode(c.f, inst, DestRegOrT0(c.f, inst.dest)), SettleCode(c.f, inst.dest),
                 DestRegOrT0(c.f, inst.dest));
      InTablesOnly(c.f, InstCode(c, i), inst.dest);
    } else {
      OtherInTables(c, i);
    }
  }

  lemma ChainInTables(c: Unit, i: nat)
    requires TablesOk(c.f) && FusesChain(c, i)
    ensures InTables(c.f, ChainCode(c, i))
  {
    hide Writes, LoadCode, SettleCode, BinaryCode, MatchNormalized, IsPowerOfTwo, Ctz, FusesChain, TablesOk;
    ChainShape(c, i);
    var n := MatchNormalized(c.ir, i).value;
    var dest := DestRegOrT0(c.f, n.destination);
    if IsPowerOfTwo(n.modulus) {
      var a, b := AluI(Slli, dest, dest, 32 - Ctz(n.modulus)), AluI(Srli, dest, dest, 32 - Ctz(n.modulus));
      OperandOnly(c.f, n.source, dest);
      MoveOnly(c.f, n.source, n.destination);
      OnlyLine(a, dest);
      OnlyLine(b, dest);
      OnlyAppend([a], [b], dest);
      OnlyAppend(LoadCode(c.f, n.source, dest), [a] + [b], dest);
      OnlyAppend(LoadCode(c.f, n.source, dest) + ([a] + [b]), SettleCode(c.f, n.destination), dest);
      assert [a] + [b] == [a, b];
    } else {
      BinaryOnly(c.f, IrInst(MOD, n.destination, n.source, Imm(n.modulus)), i in c.nonneg);
    }
    InTablesOnly(c.f, ChainCode(c, i), n.destination);
  }

  lemma FusedInTables(c: Unit, i: nat)
    requires FusedAt(c, i)
    ensures InTables(c.f, FusedCode(c, i))
  {
    hide Writes, CompareCode, UseCount;
    CompareOnly(c.f, c.ir[i], T(0));
    var b := BrZ(BranchTest(c.ir[i + 1].op), T(0), NameOf(c.ir[i + 1].dest));
    OnlyLine(b, T(0));
    OnlyAppend(CompareCode(c.f, c.ir[i], T(0)), [b], T(0));
    InTablesNone(c.f, FusedCode(c, i), T(0));
  }

  lemma {:induction false} BodyInTables(c: Unit, i: nat)
    requires TablesOk(c.f) && InTables(c.f, c.after)
    ensures InTables(c.f, CodeFrom(c, i))
    decreases |c.ir| - i
  {
    hide InTables, InstCode, FusedCode, ChainCode, ChainLength, FusedAt, FusesChain, TablesOk;
    if i >= |c.ir| {
    } else if FusesChain(c, i) {
      ChainInTables(c, i);
      BodyInTables(c, i + ChainLength(c, i));
      InTablesAppend(c.f, ChainCode(c, i), CodeFrom(c, i + ChainLength(c, i)));
    } else if FusedAt(c, i) {
      FusedInTables(c, i);
      BodyInTables(c, i + 2);
      InTablesAppend(c.f, FusedCode(c, i), CodeFrom(c, i + 2));
    } else {
      InstInTables(c, i);
      BodyInTables(c, i + 1);
      InTablesAppend(c.f, InstCode(c, i), CodeFrom(c, i + 1));
    }
  }

  lemma {:induction false} StoresNone(f: StackFrame, order: seq<string>)
    ensures forall n: nat :: !Writes(StoreGlobalsCode(f, order), S(n))
    decreases |order|
  {
    hide Writes;
    NoneWritten();
    if order != [] {
      var n := |order| - 1;
      var la, sw := La(T(2), order[n]), Sw(if order[n] in f.globalRegAlloc then f.globalRegAlloc[order[n]] else X0, 0,
                                           T(2));
      StoresNone(f, order[..n]);
      WritesOne(la);
      WritesOne(sw);
      WritesAppend([la], [sw]);
      assert [la] + [sw] == [la, sw];
      WritesAppend(StoreGlobalsCode(f, order[..n]), [la, sw]);
    }
  }

  /** What follows the body changes only the registers on the list. */
  lemma AfterCovered(name: string, f: StackFrame, size: int, globals: seq<string>)
    ensures CoveredBy(f, AfterCode(name, f, size, globals), []) && InTables(f, AfterCode(name, f, size, globals))
  {
    hide Writes, StoreGlobalsCode, LeaveCode, NeedsFrame;
    var first := [Lab(ExitLabel(name))];
    var leave := if NeedsFrame(f) then LeaveCode(f, size, f.hasCall) else [];
    NoneWritten();
    StoresNone(f, globals);
    LeaveCovered(f, size, f.hasCall, []);
    WritesOne(Lab(ExitLabel(name)));
    WritesOne(Ret);
    WritesAppend(leave, [Ret]);
    WritesAppend(first, StoreGlobalsCode(f, globals));
    WritesAppend(first + StoreGlobalsCode(f, globals), leave + [Ret]);
  }

  // ---- what the scan sees ----

  /** The registers a line names as arguments of their own; a memory operand's base is not one. */
  function ArgumentRegs(i: Instr): set<Reg>
  {
    match i
    case Li(rd, _) => {rd}
    case La(rd, _) => {rd}
    case Mv(rd, rs) => {rd, rs}
    case Alu(_, rd, a, b) => {rd, a, b}
    case AluI(_, rd, rs, _) => {rd, rs}
    case Seqz(rd, rs) => {rd, rs}
    case Snez(rd, rs) => {rd, rs}
    case Lw(rd, _, _) => {rd}
    case Sw(rs, _, _) => {rs}
    case BrZ(_, rs, _) => {rs}
    case Br(_, a, b, _) => {a, b}
    case _ => {}
  }

  predicate Named(lines: seq<Instr>, r: Reg) { exists k :: 0 <= k < |lines| && r in ArgumentRegs(lines[k]) }

  /** No window the scan takes drops a truth value held in a saved register. */
  predicate ScratchWindows(k: seq<Instr>)
    decreases |k|
  {
    k != [] ==> WindowOnScratch(k) && ScratchWindows(k[Consumed(k)..])
  }

  predicate WindowOnScratch(k: seq<Instr>)
    requires k != []
  {
    match Choose(k)
    case Rewrite(pat) => !TruthReg(pat, k).S?
    case _ => true
  }

  lemma NamedAppend(a: seq<Instr>, b: seq<Instr>, r: Reg)
    ensures Named(a, r) || Named(b, r) ==> Named(a + b, r)
  {
    if Named(a, r) {
      var k :| 0 <= k < |a| && r in ArgumentRegs(a[k]);
      assert (a + b)[k] == a[k];
    }
    if Named(b, r) {
      var k :| 0 <= k < |b| && r in ArgumentRegs(b[k]);
      assert (a + b)[|a| + k] == b[k];
    }
  }

  lemma ProducedNames(k: seq<Instr>, n: nat)
    requires k != [] && WindowOnScratch(k)
    requires Writes(k[..Consumed(k)], S(n))
    ensures Named(Produced(k), S(n))
  {
    if Choose(k).Rewrite? {
      WindowQuiet(k, n);
    } else {
      hide Matches, Replacement;
      var l :| l in k[..Consumed(k)] && S(n) in Defs(l) && !IsNoOp(l);
      if Choose(k).KeepStore? {
        assert l == k[0] || l == k[1];
        assert S(n) in ArgumentRegs(k[0]) && Produced(k)[0] == k[0];
      } else {
        assert l == k[0] && Produced(k) == if Choose(k).DropOne? then [] else [k[0]];
      }
    }
  }

  /** A window that is rewritten changes no saved register. */
  lemma WindowQuiet(k: seq<Instr>, n: nat)
    requires k != [] && Choose(k).Rewrite? && WindowOnScratch(k)
    ensures !Writes(k[..Consumed(k)], S(n))
  {
    hide Defs, IsNoOp;
    forall l | l in k[..Consumed(k)] ensures S(n) !in Defs(l) {
      var j :| 0 <= j < Consumed(k) && l == k[j];
      WindowWrites(k, Choose(k).pat, j);
    }
  }

  lemma WindowWrites(k: seq<Instr>, pat: Pattern, j: nat)
    requires k != [] && Matches(pat, k) && j < Length(pat)
    ensures Defs(k[j]) <= {TruthReg(pat, k), T(1)}
  {
  }

  /** The peephole pass keeps the name of every saved register the text changes. */
  lemma {:induction false} PeepNames(k: seq<Instr>, n: nat)
    requires ScratchWindows(k) && Writes(k, S(n))
    ensures Named(Peep(k), S(n))
    decreases |k|
  {
    hide Writes, Named, Choose, Produced, Matches;
    NoneWritten();
    var m := Consumed(k);
    assert k == k[..m] + k[m..];
    WritesAppend(k[..m], k[m..]);
    PeepUnfold(k);
    if Writes(k[..m], S(n)) {
      ProducedNames(k, n);
    } else {
      PeepNames(k[m..], n);
    }
    NamedAppend(Produced(k), Peep(k[m..]), S(n));
  }

  lemma ProducedNamesOnly(k: seq<Instr>, r: Reg)
    requires k != [] && Named(Produced(k), r)
    ensures Named(k[..Consumed(k)], r)
  {
    var p, w := Produced(k), k[..Consumed(k)];
    var j :| 0 <= j < |p| && r in ArgumentRegs(p[j]);
    assert forall x :: 0 <= x < |w| ==> w[x] == k[x];
    if Choose(k).Rewrite? && j == 1 { assert w[0] == k[0]; }
  }

  /** And it names no register that the text did not name. */
  lemma {:induction false} PeepNamesOnly(k: seq<Instr>, r: Reg)
    requires Named(Peep(k), r)
    ensures Named(k, r)
    decreases |k|
  {
    hide Named, Choose, Produced;
    if k == [] {
      PeepEmpty();
      NoneNamed(r);
    } else {
      var m := Consumed(k);
      assert k == k[..m] + k[m..];
      PeepUnfold(k);
      NamedSplit(Produced(k), Peep(k[m..]), r);
      if Named(Produced(k), r) {
        ProducedNamesOnly(k, r);
      } else {
        PeepNamesOnly(k[m..], r);
      }
      NamedAppend(k[..m], k[m..], r);
    }
  }

  lemma NoneNamed(r: Reg)
    ensures !Named([], r)
  {
  }

  lemma NamedSplit(a: seq<Instr>, b: seq<Instr>, r: Reg)
    requires Named(a + b, r)
    ensures Named(a, r) || Named(b, r)
  {
    var k :| 0 <= k < |a + b| && r in ArgumentRegs((a + b)[k]);
    if k < |a| { assert (a + b)[k] == a[k]; } else { assert (a + b)[k] == b[k - |a|]; }
  }

  /** Every cached constant and global in a saved register is named in the text. */
  ghost predicate CachesNamed(f: StackFrame, text: seq<Instr>)
  {
    && (forall k :: k in f.constantRegAlloc && f.constantRegAlloc[k].S? ==> Named(text, f.constantRegAlloc[k]))
    && (forall g :: g in f.globalRegAlloc && f.globalRegAlloc[g].S? ==> Named(text, f.globalRegAlloc[g]))
  }

  /** The list the scan makes of a text. */
  ghost predicate ListsNamed(used: seq<Reg>, text: seq<Instr>)
  {
    forall r :: r in used <==> r.S? && 2 <= r.n < 12 && Named(text, r)
  }

  /**
    The save list the scan makes of the draft covers the final body: it holds every saved register the body
    changes, and it holds those of the cached constants and globals exactly when the draft names them.
   */
  lemma ScanCovers(c: Unit, cd: Unit)
    requires Drafted(c, cd) && ListsNamed(c.f.usedCalleeSavedRegisters, Peep(CodeFrom(cd, 0)))
    requires CoveredBy(c.f, c.after, cd.after) && InTables(c.f, c.after) && ScratchWindows(CodeFrom(cd, 0)) &&
             TablesOk(c.f)
    ensures SavedCovers(c) <==> CachesNamed(c.f, Peep(CodeFrom(cd, 0)))
  {
    hide CodeFrom, ScratchWindows, Peep, Drafted, Named, IsNoOp, Defs;
    BodyCovered(c, cd, 0);
    BodyInTables(c, 0);
    forall l | l in CodeFrom(c, 0) ensures WritesSaved(c.f, l) {
      if !IsNoOp(l) {
        forall r | r in Defs(l) && r.S? && r.n >= 1 ensures r in c.f.usedCalleeSavedRegisters {
          assert r == S(r.n) && Writes(CodeFrom(c, 0), r);
          if Writes(CodeFrom(cd, 0), r) {
            PeepNames(CodeFrom(cd, 0), r.n);
          }
        }
      }
    }
  }
}
