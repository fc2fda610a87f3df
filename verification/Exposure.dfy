/**
  What the lines of one instruction of the intermediate representation read from registers they have not written:
  the registers of its operands and those that are always live, and no scratch register.
 */
module Exposure {
  import opened Word
  import opened Ir
  import opened Rv32
  import opened Frame
  import opened Selection
  import opened Binary
  import opened BinaryOp
  import opened Compare
  import opened Remainder
  import opened Body
  import opened PlainCode
  import Magic

  /** The registers straight-line code reads before it writes them. */
  function Exposed(code: seq<Instr>): set<Reg>
  {
    if code == [] then {} else Uses(code[0]) + (Exposed(code[1..]) - Defs(code[0]))
  }

  /** The registers straight-line code writes. */
  function DefsOf(code: seq<Instr>): set<Reg>
  {
    if code == [] then {} else Defs(code[0]) + DefsOf(code[1..])
  }

  lemma {:induction false} ExposedJoin(a: seq<Instr>, b: seq<Instr>)
    ensures Exposed(a + b) == Exposed(a) + (Exposed(b) - DefsOf(a)) && DefsOf(a + b) == DefsOf(a) + DefsOf(b)
  {
    if a == [] {
      assert a + b == b;
    } else {
      assert (a + b)[1..] == a[1..] + b;
      ExposedJoin(a[1..], b);
    }
  }

  /** Code that computes values and reads at most these registers before it writes them. */
  predicate Reads(code: seq<Instr>, regs: set<Reg>) { AllPlain(code) && Exposed(code) <= regs }

  /** The second part may also read what the first one wrote. */
  lemma Then(a: seq<Instr>, b: seq<Instr>, regs: set<Reg>)
    requires Reads(a, regs) && Reads(b, regs + DefsOf(a))
    ensures Reads(a + b, regs) && DefsOf(a + b) == DefsOf(a) + DefsOf(b)
  {
    hide Plain;
    ExposedJoin(a, b);
  }

  lemma ReadsMore(code: seq<Instr>, regs: set<Reg>, more: set<Reg>)
    requires Reads(code, regs) && regs <= more
    ensures Reads(code, more)
  {
  }

  predicate Works(i: Instr) { i.Li? || i.La? || i.Mv? || i.Alu? || i.AluI? || i.Seqz? || i.Snez? || i.Lw? || i.Sw? }

  lemma Line(i: Instr, regs: set<Reg>)
    requires Works(i) && Uses(i) <= regs
    ensures Reads([i], regs) && DefsOf([i]) == Defs(i)
  {
    assert [i][1..] == [];
  }

  lemma TwoLines(i: Instr, j: Instr, regs: set<Reg>)
    requires Works(i) && Works(j) && Uses(i) <= regs && Uses(j) <= regs + Defs(i)
    ensures Reads([i, j], regs) && DefsOf([i, j]) == Defs(i) + Defs(j)
  {
    hide Plain, Uses, Defs, Works;
    Line(i, regs);
    Line(j, regs + Defs(i));
    Then([i], [j], regs);
    assert [i] + [j] == [i, j];
  }

  lemma ThreeLines(i: Instr, j: Instr, k: Instr, regs: set<Reg>)
    requires Works(i) && Works(j) && Works(k) && Uses(i) <= regs && Uses(j) <= regs + Defs(i)
    requires Uses(k) <= regs + Defs(i) + Defs(j)
    ensures Reads([i, j, k], regs) && DefsOf([i, j, k]) == Defs(i) + Defs(j) + Defs(k)
  {
    hide Plain, Uses, Defs, Works;
    TwoLines(i, j, regs);
    Line(k, regs + (Defs(i) + Defs(j)));
    ReadsMore([k], regs + (Defs(i) + Defs(j)), regs + DefsOf([i, j]));
    Then([i, j], [k], regs);
    assert [i, j] + [k] == [i, j, k];
  }

  lemma NoLines(regs: set<Reg>)
    ensures Reads([], regs) && DefsOf([]) == {}
  {
  }

  /** The last line writes r and nothing else. */
  predicate EndsWith(code: seq<Instr>, r: Reg) { code != [] && Defs(code[|code| - 1]) == {r} }

  lemma {:induction false} EndsWritten(code: seq<Instr>, r: Reg)
    requires EndsWith(code, r)
    ensures r in DefsOf(code)
    decreases |code|
  {
    if |code| > 1 { EndsWritten(code[1..], r); }
  }

  // ---- what is always live in the body ----

  /** The zero register, the pointers, and the registers of hoisted constants and cached globals. */
  function Base(f: StackFrame): set<Reg>
  {
    {X0, Sp, S(0)} + f.constantRegAlloc.Values + f.globalRegAlloc.Values
  }

  /** The register an operand is read from, if it has one. */
  function OperandRegs(f: StackFrame, o: Operand): set<Reg>
  {
    match RegForOperand(f, o)
    case Some(r) => {r}
    case None => {}
  }

  const SCRATCH: set<Reg> := {T(0), T(1), T(2)}

  lemma NotScratch(f: StackFrame, o: Operand)
    requires TablesOk(f)
    ensures OperandRegs(f, o) !! SCRATCH && Base(f) !! SCRATCH
    ensures DestRegOrT0(f, o) == T(0) || DestRegOrT0(f, o) !in SCRATCH
    ensures RegForOperand(f, o).Some? <==> DestRegOrT0(f, o) != T(0)
  {
    hide LocalOffset;
  }

  // ---- operands ----

  lemma AddressReads(reg: Reg, base: Reg, x: int, regs: set<Reg>)
    requires base in regs
    ensures Reads(LoadAddressCode(reg, base, x), regs) && reg in DefsOf(LoadAddressCode(reg, base, x))
    ensures reg in regs ==> Reads(StoreAddressCode(reg, base, x), regs)
  {
    hide Plain, Exposed, DefsOf;
    var t := AddressScratch(reg);
    ThreeLines(Li(t, x), Alu(Add, t, base, t), Lw(reg, 0, t), regs);
    Line(Lw(reg, x, base), regs);
    if reg in regs {
      ThreeLines(Li(t, x), Alu(Add, t, base, t), Sw(reg, 0, t), regs);
      Line(Sw(reg, x, base), regs);
    }
  }

  lemma LoadReads(f: StackFrame, o: Operand, reg: Reg)
    ensures Reads(LoadCode(f, o, reg), Base(f) + OperandRegs(f, o))
    ensures IsValue(o) ==> reg in DefsOf(LoadCode(f, o, reg)) + Base(f) + OperandRegs(f, o)
  {
    hide Plain, LocalOffset, LoadAddressCode, Exposed, DefsOf;
    var regs := Base(f) + OperandRegs(f, o);
    NoLines(regs);
    match o
    case Imm(v) =>
      Line(Li(reg, v), regs);
      if v in f.constantRegAlloc { Line(Mv(reg, f.constantRegAlloc[v]), regs); }
    case Local(name) =>
      AddressReads(reg, S(0), LocalOffset(f, name), regs);
      if RegForVar(f, name).Some? { Line(Mv(reg, RegForVar(f, name).value), regs); }
    case Global(name) =>
      if name in f.globalRegAlloc { Line(Mv(reg, f.globalRegAlloc[name]), regs); }
      TwoLines(La(T(2), name), Lw(reg, 0, T(2)), regs);
    case Label(name) => Line(La(reg, name), regs);
    case Func(name) => Line(La(reg, name), regs);
    case _ =>
  }

  lemma StoreReads(f: StackFrame, reg: Reg, o: Operand)
    requires reg != T(2)
    ensures Reads(StoreCode(f, reg, o), Base(f) + {reg})
    ensures OperandRegs(f, o) <= DefsOf(StoreCode(f, reg, o)) + {reg}
  {
    hide Plain, LocalOffset, StoreAddressCode, Exposed, DefsOf;
    var regs := Base(f) + {reg};
    NoLines(regs);
    match o
    case Local(name) =>
      AddressReads(reg, S(0), LocalOffset(f, name), regs);
      if RegForVar(f, name).Some? { Line(Mv(RegForVar(f, name).value, reg), regs); }
    case Global(name) =>
      if name in f.globalRegAlloc { Line(Mv(f.globalRegAlloc[name], reg), regs); }
      TwoLines(La(T(2), name), Sw(reg, 0, T(2)), regs);
    case _ =>
  }

  /** Everything the two sources may be read from. */
  function SourceRegs(f: StackFrame, o1: Operand, o2: Operand): set<Reg>
  {
    Base(f) + OperandRegs(f, o1) + OperandRegs(f, o2)
  }

  /** The loads read nothing else, and afterwards both source registers hold their source. */
  lemma SourcesRead(f: StackFrame, o1: Operand, o2: Operand, dest: Reg)
    requires IsValue(o1) && IsValue(o2)
    ensures var code := Src2Code(f, o2, dest) + Src1Code(f, o1, dest);
            && Reads(code, SourceRegs(f, o1, o2))
            && Src1Reg(f, o1, dest) in SourceRegs(f, o1, o2) + DefsOf(code)
            && (!IsSmallImm(o2) ==> Src2Reg(f, o2, dest) in SourceRegs(f, o1, o2) + DefsOf(code))
  {
    hide Plain, LoadCode, Exposed, DefsOf;
    var regs := SourceRegs(f, o1, o2);
    NoLines(regs);
    LoadReads(f, o1, dest);
    LoadReads(f, o2, T(1));
    var a, b := Src2Code(f, o2, dest), Src1Code(f, o1, dest);
    assert Reads(a, regs) && Reads(b, regs + DefsOf(a));
    Then(a, b, regs);
  }

  // ---- operations ----

  lemma ConstantReads(f: StackFrame, c: i32, regs: set<Reg>)
    requires Base(f) <= regs
    ensures Reads(ConstantCode(f, c), regs) && ConstantReg(f, c) in regs + DefsOf(ConstantCode(f, c))
  {
    hide Plain, Exposed, DefsOf;
    NoLines(regs);
    Line(Li(T(1), c), regs);
  }

  /** A constant, then one line that reads it. */
  lemma ConstantThenReads(f: StackFrame, c: i32, op: AluOp, src: Reg, dest: Reg, regs: set<Reg>)
    requires Base(f) + {src} <= regs
    ensures Reads(ConstantCode(f, c) + [Alu(op, dest, src, ConstantReg(f, c))], regs)
    ensures Reads(ConstantCode(f, c) + [Alu(op, dest, ConstantReg(f, c), src)], regs)
    ensures dest in DefsOf(ConstantCode(f, c) + [Alu(op, dest, src, ConstantReg(f, c))])
  {
    hide Plain, Exposed, DefsOf, ConstantCode, ConstantReg, Base;
    var r, code := ConstantReg(f, c), ConstantCode(f, c);
    ConstantReads(f, c, regs);
    Line(Alu(op, dest, src, r), regs + DefsOf(code));
    Line(Alu(op, dest, r, src), regs + DefsOf(code));
    Then(code, [Alu(op, dest, src, r)], regs);
    Then(code, [Alu(op, dest, r, src)], regs);
  }

  lemma MulReads(f: StackFrame, imm: i32, src: Reg, dest: Reg, regs: set<Reg>)
    requires Base(f) + {src} <= regs
    ensures Reads(MulImmCode(f, imm, src, dest), regs)
  {
    hide Plain, Exposed, DefsOf, ConstantCode, ConstantReg, IsPowerOfTwo, Ctz;
    ConstantThenReads(f, imm, AluOp.Mul, src, dest, regs);
    ShiftThenReads(src, dest, 1, regs);
    ShiftThenReads(src, dest, 2, regs);
    ShiftThenReads(src, dest, 3, regs);
    ShiftThenReads(src, dest, 4, regs);
    Line(AluI(Slli, dest, src, Ctz(if imm > 0 then imm else 1)), regs);
    Line(Alu(Sub, dest, X0, src), regs);
    if imm < 0 { TwoLines(AluI(Slli, dest, src, Ctz(-(imm as int))), Alu(Sub, dest, X0, dest), regs); }
  }

  lemma ShiftThenReads(src: Reg, dest: Reg, k: int, regs: set<Reg>)
    requires src in regs
    ensures Reads([AluI(Slli, T(1), src, k), Alu(Add, dest, T(1), src)], regs)
    ensures Reads([AluI(Slli, T(1), src, k), Alu(Sub, dest, T(1), src)], regs)
  {
    hide Plain, Exposed, DefsOf;
    TwoLines(AluI(Slli, T(1), src, k), Alu(Add, dest, T(1), src), regs);
    TwoLines(AluI(Slli, T(1), src, k), Alu(Sub, dest, T(1), src), regs);
  }

  lemma BiasReads(src: Reg, k: nat, regs: set<Reg>)
    requires src in regs
    ensures Reads(BiasCode(src, k), regs) && T(1) in DefsOf(BiasCode(src, k))
  {
    hide Plain, Exposed, DefsOf;
    ThreeLines(AluI(Srai, T(1), src, 31), AluI(Srli, T(1), T(1), 32 - k), Alu(Add, T(1), src, T(1)), regs);
  }

  lemma QuotientReads(f: StackFrame, imm: i32, src: Reg, nonneg: bool, regs: set<Reg>)
    requires Base(f) + {src} <= regs && imm != 0
    ensures Reads(MagicQuotientCode(f, imm, src, nonneg), regs) &&
            T(2) in DefsOf(MagicQuotientCode(f, imm, src, nonneg))
  {
    hide Plain, Exposed, DefsOf, ConstantCode, ConstantReg, Wrap, Magic.Multiplier, Magic.MagicShift, SignFixCode;
    var magic, shift := Wrap(Magic.Multiplier(Abs(imm))), Magic.MagicShift(Abs(imm));
    ConstantThenReads(f, magic, AluOp.Mulh, src, T(2), regs);
    var head := ConstantCode(f, magic) + [Alu(AluOp.Mulh, T(2), src, ConstantReg(f, magic))];
    var fix := if magic < 0 then [Alu(Add, T(2), T(2), src)] else [];
    var down := if shift > 0 then [AluI(Srai, T(2), T(2), shift)] else [];
    NoLines(regs + DefsOf(head));
    Line(Alu(Add, T(2), T(2), src), regs + DefsOf(head));
    Then(head, fix, regs);
    NoLines(regs + DefsOf(head + fix));
    Line(AluI(Srai, T(2), T(2), shift), regs + DefsOf(head + fix));
    Then(head + fix, down, regs);
    SignReads(imm, src, nonneg, regs + DefsOf(head + fix + down));
    Then(head + fix + down, SignFixCode(imm, src, nonneg), regs);
  }

  lemma SignReads(imm: i32, src: Reg, nonneg: bool, regs: set<Reg>)
    requires {src, T(2), X0} <= regs
    ensures Reads(SignFixCode(imm, src, nonneg), regs)
  {
    hide Plain, Exposed, DefsOf;
    var a := if nonneg then [] else [AluI(Srai, T(0), src, 31), Alu(Sub, T(2), T(2), T(0))];
    NoLines(regs);
    TwoLines(AluI(Srai, T(0), src, 31), Alu(Sub, T(2), T(2), T(0)), regs);
    NoLines(regs + DefsOf(a));
    Line(Alu(Sub, T(2), X0, T(2)), regs + DefsOf(a));
    Then(a, if imm < 0 then [Alu(Sub, T(2), X0, T(2))] else [], regs);
  }

  lemma MagicReads(f: StackFrame, imm: i32, src: Reg, dest: Reg, nonneg: bool, regs: set<Reg>)
    requires Base(f) + {src} <= regs && MagicApplies(imm)
    ensures Reads(MagicDivCode(f, imm, src, dest, nonneg), regs) && Reads(MagicModCode(f, imm, src, dest, nonneg), regs)
  {
    hide Plain, Exposed, DefsOf, ConstantCode, ConstantReg, MagicQuotientCode, Base;
    assert imm != 0;
    hide MagicApplies;
    var q := MagicQuotientCode(f, imm, src, nonneg);
    QuotientReads(f, imm, src, nonneg, regs);
    Line(Mv(dest, T(2)), regs + DefsOf(q));
    Then(q, [Mv(dest, T(2))], regs);
    assert q + [] == q;
    ModReads(f, imm, src, dest, nonneg, regs);
  }

  lemma ModReads(f: StackFrame, imm: i32, src: Reg, dest: Reg, nonneg: bool, regs: set<Reg>)
    requires Base(f) + {src} <= regs && imm != 0 && MagicApplies(imm)
    ensures Reads(MagicModCode(f, imm, src, dest, nonneg), regs)
  {
    hide Plain, Exposed, DefsOf, ConstantCode, ConstantReg, MagicQuotientCode, MagicApplies, Base;
    var q := MagicQuotientCode(f, imm, src, nonneg);
    var keep := if src == T(0) then [Mv(T(3), T(0))] else [];
    var mul := ConstantCode(f, imm) + [Alu(Mul, T(2), T(2), ConstantReg(f, imm))];
    var back := Alu(Sub, dest, if src == T(0) then T(3) else src, T(2));
    NoLines(regs);
    Line(Mv(T(3), T(0)), regs + {T(0)});
    assert Reads(keep, regs);
    QuotientReads(f, imm, src, nonneg, regs + DefsOf(keep));
    Then(keep, q, regs);
    ConstantThenReads(f, imm, AluOp.Mul, T(2), T(2), regs + DefsOf(keep + q));
    Then(keep + q, mul, regs);
    Line(back, regs + DefsOf(keep + q + mul));
    Then(keep + q + mul, [back], regs);
    assert keep + q + mul + [back] == MagicModCode(f, imm, src, dest, nonneg);
  }

  lemma ImmReads(f: StackFrame, op: IrOp, imm: i32, src: Reg, dest: Reg, localNonneg: bool, nonneg: bool,
                 regs: set<Reg>)
    requires IsArithmetic(op) && Base(f) + {src} <= regs
    ensures Reads(SmallImmCode(f, op, imm, src, dest, localNonneg, nonneg), regs)
  {
    hide Plain, Exposed, DefsOf, MulImmCode, DivImmCode, ModImmCode, Base;
    match op
    case ADD => Line(AluI(Addi, dest, src, imm), regs);
    case SUB => Line(AluI(Addi, dest, src, -(imm as int)), regs);
    case MUL => MulReads(f, imm, src, dest, regs);
    case DIV => DivReads(f, imm, src, dest, localNonneg, nonneg, regs);
    case MOD => RemReads(f, imm, src, dest, localNonneg, nonneg, regs);
  }

  lemma DivReads(f: StackFrame, imm: i32, src: Reg, dest: Reg, localNonneg: bool, nonneg: bool, regs: set<Reg>)
    requires Base(f) + {src} <= regs
    ensures Reads(DivImmCode(f, imm, src, dest, localNonneg, nonneg), regs)
  {
    hide Plain, Exposed, DefsOf, ConstantCode, ConstantReg, MagicDivCode, MagicModCode, MagicApplies, IsPowerOfTwo,
         Ctz, BiasCode;
    if imm > 0 && IsPowerOfTwo(imm) {
      var k := Ctz(imm);
      Line(AluI(Srai, dest, src, k), regs);
      BiasReads(src, k, regs);
      Line(AluI(Srai, dest, T(1), k), regs + DefsOf(BiasCode(src, k)));
      Then(BiasCode(src, k), [AluI(Srai, dest, T(1), k)], regs);
    } else {
      Line(Alu(Sub, dest, X0, src), regs);
      if MagicApplies(imm) { MagicReads(f, imm, src, dest, nonneg, regs); }
      ConstantThenReads(f, imm, AluOp.Div, src, dest, regs);
    }
  }

  lemma RemReads(f: StackFrame, imm: i32, src: Reg, dest: Reg, localNonneg: bool, nonneg: bool, regs: set<Reg>)
    requires Base(f) + {src} <= regs
    ensures Reads(ModImmCode(f, imm, src, dest, localNonneg, nonneg), regs)
  {
    hide Plain, Exposed, DefsOf, ConstantCode, ConstantReg, MagicDivCode, MagicModCode, MagicApplies, IsPowerOfTwo,
         Ctz, BiasCode, Base;
    if imm > 0 && IsPowerOfTwo(imm) {
      var k := Ctz(imm);
      var down, up, sub := AluI(Srai, T(1), T(1), k), AluI(Slli, T(1), T(1), k), Alu(Sub, dest, src, T(1));
      Line(AluI(Andi, dest, src, imm - 1), regs);
      BiasReads(src, k, regs);
      ThreeLines(down, up, sub, regs + DefsOf(BiasCode(src, k)));
      Then(BiasCode(src, k), [down, up, sub], regs);
    } else {
      Line(Li(dest, 0), regs);
      if MagicApplies(imm) { MagicReads(f, imm, src, dest, nonneg, regs); }
      ConstantThenReads(f, imm, AluOp.Rem, src, dest, regs);
    }
  }

  lemma WideReads(f: StackFrame, inst: IrInst, a: Reg, b: Reg, dest: Reg, nonneg: bool, regs: set<Reg>)
    requires BinaryShaped(inst) && IsArithmetic(inst.op) && Base(f) + {a, b} <= regs
    ensures Reads(WideCode(f, inst, a, b, dest, nonneg), regs)
  {
    hide Plain, Exposed, DefsOf, MagicDivCode, MagicModCode, MagicApplies, Base;
    Line(Alu(AluFor(inst.op), dest, a, b), regs);
    if inst.src2.Imm? && MagicApplies(inst.src2.immVal) { MagicReads(f, inst.src2.immVal, a, dest, nonneg, regs); }
  }

  lemma GeneralReads(f: StackFrame, inst: IrInst, dest: Reg, localNonneg: bool)
    requires BinaryShaped(inst) && IsArithmetic(inst.op)
    ensures Reads(GeneralCode(f, inst, dest, localNonneg), SourceRegs(f, inst.src1, inst.src2))
  {
    hide Plain, Exposed, DefsOf, LoadCode, SmallImmCode, WideCode, RegForOperand, RegForConstant, Src1Reg, Src2Reg,
         Src1Code, Src2Code;
    var nonneg := localNonneg || (inst.src1.Imm? && inst.src1.immVal >= 0);
    var a, b := Src1Reg(f, inst.src1, dest), Src2Reg(f, inst.src2, dest);
    var loads, regs := Src2Code(f, inst.src2, dest) + Src1Code(f, inst.src1, dest), SourceRegs(f, inst.src1, inst.src2);
    SourcesRead(f, inst.src1, inst.src2, dest);
    if IsSmallImm(inst.src2) {
      ImmReads(f, inst.op, inst.src2.immVal, a, dest, localNonneg, nonneg, regs + DefsOf(loads));
      Then(loads, SmallImmCode(f, inst.op, inst.src2.immVal, a, dest, localNonneg, nonneg), regs);
    } else {
      WideReads(f, inst, a, b, dest, nonneg, regs + DefsOf(loads));
      Then(loads, WideCode(f, inst, a, b, dest, nonneg), regs);
    }
  }

  lemma OperationReads(f: StackFrame, inst: IrInst, localNonneg: bool)
    requires BinaryShaped(inst)
    ensures Reads(OperationCode(f, inst, localNonneg), SourceRegs(f, inst.src1, inst.src2))
  {
    hide Plain, Exposed, DefsOf, LoadCode, GeneralCode;
    var dest, regs := DestRegOrT0(f, inst.dest), SourceRegs(f, inst.src1, inst.src2);
    if inst.op.NOT? {
      var load := LoadCode(f, inst.src1, dest);
      LoadReads(f, inst.src1, dest);
      Line(AluI(Sltiu, dest, dest, 1), regs + DefsOf(load));
      Then(load, [AluI(Sltiu, dest, dest, 1)], regs);
    } else if ImmediateMinusDest(f, inst) {
      var k := inst.src1.immVal;
      var t := if dest == T(0) then T(2) else T(0);
      Line(Alu(Sub, dest, X0, dest), regs);
      if k in f.constantRegAlloc { Line(Alu(Sub, dest, f.constantRegAlloc[k], dest), regs); }
      TwoLines(Li(t, k), Alu(Sub, dest, t, dest), regs);
    } else if BothInRegisters(f, inst) {
      Line(Alu(AluFor(inst.op), dest, RegForOperand(f, inst.src1).value, RegForOperand(f, inst.src2).value), regs);
    } else {
      GeneralReads(f, inst, dest, localNonneg);
    }
  }

  // ---- results ----

  lemma SmallImmEnds(f: StackFrame, op: IrOp, imm: i32, src: Reg, dest: Reg, localNonneg: bool, nonneg: bool)
    requires IsArithmetic(op) && dest != T(2)
    ensures EndsWith(SmallImmCode(f, op, imm, src, dest, localNonneg, nonneg), dest)
  {
    hide ConstantCode, ConstantReg, MagicQuotientCode, MagicApplies, IsPowerOfTwo, Ctz, BiasCode;
  }

  lemma OperationEnds(f: StackFrame, inst: IrInst, localNonneg: bool)
    requires BinaryShaped(inst) && DestRegOrT0(f, inst.dest) != T(2)
    ensures EndsWith(OperationCode(f, inst, localNonneg), DestRegOrT0(f, inst.dest))
  {
    hide LoadCode, SmallImmCode, MagicQuotientCode, MagicApplies, RegForOperand, RegForConstant, ConstantCode,
         ConstantReg, Src1Code, Src2Code, Src1Reg, Src2Reg;
    var dest := DestRegOrT0(f, inst.dest);
    if IsArithmetic(inst.op) && IsSmallImm(inst.src2) {
      SmallImmEnds(f, inst.op, inst.src2.immVal, Src1Reg(f, inst.src1, dest), dest, localNonneg,
                   localNonneg || (inst.src1.Imm? && inst.src1.immVal >= 0));
    }
  }

  /** The register of a destination is written, or was read for its own value. */
  predicate Settles(f: StackFrame, code: seq<Instr>, dest: Operand, regs: set<Reg>)
  {
    Reads(code, regs) && OperandRegs(f, dest) <= DefsOf(code) + regs
  }

  /** Code that leaves its result in the destination's register or in t0, and the store from t0. */
  lemma SettledReads(f: StackFrame, code: seq<Instr>, dest: Operand, regs: set<Reg>)
    requires TablesOk(f) && Reads(code, regs) && Base(f) <= regs && DestRegOrT0(f, dest) in DefsOf(code) + regs &&
             T(0) !in regs
    ensures Settles(f, code + SettleCode(f, dest), dest, regs)
  {
    hide Plain, TablesOk, Exposed, DefsOf, StoreCode, RegForOperand;
    NotScratch(f, dest);
    if RegForOperand(f, dest).Some? {
      assert code + SettleCode(f, dest) == code;
    } else {
      StoreReads(f, T(0), dest);
      ReadsMore(StoreCode(f, T(0), dest), Base(f) + {T(0)}, regs + DefsOf(code));
      Then(code, StoreCode(f, T(0), dest), regs);
    }
  }

  lemma SourcesNotScratch(f: StackFrame, o1: Operand, o2: Operand)
    requires TablesOk(f)
    ensures SourceRegs(f, o1, o2) !! SCRATCH
  {
    hide RegForOperand, TablesOk;
    NotScratch(f, o1);
    NotScratch(f, o2);
  }

  lemma BinaryReads(f: StackFrame, inst: IrInst, localNonneg: bool)
    requires TablesOk(f) && BinaryShaped(inst)
    ensures Settles(f, BinaryCode(f, inst, localNonneg), inst.dest, SourceRegs(f, inst.src1, inst.src2))
  {
    hide Plain, TablesOk, Exposed, DefsOf, StoreCode, RegForOperand, OperationCode, Base;
    OperationReads(f, inst, localNonneg);
    NotScratch(f, inst.dest);
    OperationEnds(f, inst, localNonneg);
    EndsWritten(OperationCode(f, inst, localNonneg), DestRegOrT0(f, inst.dest));
    SourcesNotScratch(f, inst.src1, inst.src2);
    SettledReads(f, OperationCode(f, inst, localNonneg), inst.dest, SourceRegs(f, inst.src1, inst.src2));
  }

  // ---- comparisons ----

  lemma WideCompareReads(op: IrOp, a: Reg, b: Reg, dest: Reg, regs: set<Reg>)
    requires IsCompare(op) && {a, b} <= regs
    ensures Reads(WideCompareCode(op, a, b, dest), regs) && EndsWith(WideCompareCode(op, a, b, dest), dest)
  {
    hide Plain, Exposed, DefsOf;
    Line(Alu(Slt, dest, a, b), regs);
    Line(Alu(Slt, dest, b, a), regs);
    TwoLines(Alu(Slt, dest, a, b), AluI(Xori, dest, dest, 1), regs);
    TwoLines(Alu(Slt, dest, b, a), AluI(Xori, dest, dest, 1), regs);
    TwoLines(Alu(Sub, dest, a, b), Seqz(dest, dest), regs);
    TwoLines(Alu(Sub, dest, a, b), Snez(dest, dest), regs);
  }

  lemma SmallCompareReads(f: StackFrame, op: IrOp, imm: i32, a: Reg, dest: Reg, regs: set<Reg>)
    requires IsCompare(op) && Base(f) + {a} <= regs
    ensures Reads(SmallCompareCode(f, op, imm, a, dest), regs) && EndsWith(SmallCompareCode(f, op, imm, a, dest), dest)
  {
    hide Plain, Exposed, DefsOf, ConstantCode, ConstantReg, Base;
    Line(AluI(Slti, dest, a, imm), regs);
    Line(AluI(Slti, dest, a, imm + 1), regs);
    TwoLines(AluI(Slti, dest, a, imm), AluI(Xori, dest, dest, 1), regs);
    ConstantThenReads(f, imm, Slt, a, dest, regs);
    var code, sub := ConstantCode(f, imm), Alu(Sub, dest, a, ConstantReg(f, imm));
    ConstantReads(f, imm, regs);
    TwoLines(sub, Seqz(dest, dest), regs + DefsOf(code));
    TwoLines(sub, Snez(dest, dest), regs + DefsOf(code));
    Then(code, [sub, Seqz(dest, dest)], regs);
    Then(code, [sub, Snez(dest, dest)], regs);
  }

  lemma CompareReads(f: StackFrame, inst: IrInst, dest: Reg)
    requires CompareShaped(inst)
    ensures Reads(CompareCode(f, inst, dest), SourceRegs(f, inst.src1, inst.src2))
    ensures EndsWith(CompareCode(f, inst, dest), dest) && dest in DefsOf(CompareCode(f, inst, dest))
  {
    hide Plain, Exposed, DefsOf, LoadCode, SmallCompareCode, WideCompareCode, RegForOperand, RegForConstant, Src1Reg,
         Src2Reg, Src1Code, Src2Code;
    var a, b := Src1Reg(f, inst.src1, dest), Src2Reg(f, inst.src2, dest);
    var loads, regs := Src2Code(f, inst.src2, dest) + Src1Code(f, inst.src1, dest), SourceRegs(f, inst.src1, inst.src2);
    SourcesRead(f, inst.src1, inst.src2, dest);
    if IsSmallImm(inst.src2) {
      SmallCompareReads(f, inst.op, inst.src2.immVal, a, dest, regs + DefsOf(loads));
      Then(loads, SmallCompareCode(f, inst.op, inst.src2.immVal, a, dest), regs);
    } else {
      WideCompareReads(inst.op, a, b, dest, regs + DefsOf(loads));
      Then(loads, WideCompareCode(inst.op, a, b, dest), regs);
    }
    EndsWritten(CompareCode(f, inst, dest), dest);
  }

  lemma CompareOpReads(f: StackFrame, inst: IrInst)
    requires TablesOk(f) && CompareShaped(inst)
    ensures Settles(f, CompareOpCode(f, inst), inst.dest, SourceRegs(f, inst.src1, inst.src2))
  {
    hide Exposed, DefsOf, Plain, TablesOk, CompareCode, SettleCode, DestRegOrT0, Base;
    CompareReads(f, inst, DestRegOrT0(f, inst.dest));
    SourcesNotScratch(f, inst.src1, inst.src2);
    SettledReads(f, CompareCode(f, inst, DestRegOrT0(f, inst.dest)), inst.dest, SourceRegs(f, inst.src1, inst.src2));
  }

  // ---- moves ----

  lemma MoveReads(f: StackFrame, o: Operand, dest: Operand)
    requires TablesOk(f) && IsValue(o)
    ensures Settles(f, MoveCode(f, o, dest), dest, Base(f) + OperandRegs(f, o))
  {
    hide Plain, TablesOk, Exposed, DefsOf, LoadCode, SettleCode, DestRegOrT0, RegForOperand, Base;
    LoadReads(f, o, DestRegOrT0(f, dest));
    NotScratch(f, o);
    SettledReads(f, LoadCode(f, o, DestRegOrT0(f, dest)), dest, Base(f) + OperandRegs(f, o));
  }

  /** A parameter is read from its argument register, or from the caller's frame. */
  lemma ParamDeclReads(f: StackFrame, dest: Operand, k: nat)
    requires TablesOk(f)
    ensures Settles(f, ParamDeclCode(f, dest, k), dest, Base(f) + (if k < 8 then {A(k)} else {}))
  {
    hide Plain, TablesOk, Exposed, DefsOf, LoadAddressCode, SettleCode, RegForOperand;
    var r, regs := DestRegOrT0(f, dest), Base(f) + (if k < 8 then {A(k)} else {});
    var fetch := if k >= 8 then LoadAddressCode(r, S(0), WORD_BYTES * (k - 8)) else if r != A(k) then [Mv(r, A(k))]
                 else [];
    NotScratch(f, dest);
    NoLines(regs);
    AddressReads(r, S(0), WORD_BYTES * (k - 8), regs);
    if k < 8 { Line(Mv(r, A(k)), regs); }
    SettledReads(f, fetch, dest, regs);
  }

  /** An argument is staged in its register, or in the stack area for arguments. */
  lemma ParamReads(f: StackFrame, o: Operand, k: int)
    requires TablesOk(f) && IsValue(o)
    ensures Reads(ParamCode(f, o, k), Base(f) + OperandRegs(f, o))
    ensures 0 <= k < 8 ==> A(k) in DefsOf(ParamCode(f, o, k)) + Base(f) + OperandRegs(f, o)
  {
    hide Plain, TablesOk, Exposed, DefsOf, LoadCode, StoreAddressCode, RegForOperand;
    var regs := Base(f) + OperandRegs(f, o);
    NoLines(regs);
    if k < 8 {
      if k >= 0 { LoadReads(f, o, A(k)); }
    } else {
      LoadReads(f, o, T(0));
      NotScratch(f, o);
      AddressReads(T(0), Sp, WORD_BYTES * (k - 8), regs + DefsOf(LoadCode(f, o, T(0))));
      Then(LoadCode(f, o, T(0)), StoreAddressCode(T(0), Sp, WORD_BYTES * (k - 8)), regs);
    }
  }

  lemma ChainReads(c: Unit, i: nat)
    requires TablesOk(c.f) && FusesChain(c, i)
    ensures var n := MatchNormalized(c.ir, i).value;
            Settles(c.f, ChainCode(c, i), n.destination, Base(c.f) + OperandRegs(c.f, n.source))
  {
    hide Plain, TablesOk, Exposed, DefsOf, LoadCode, SettleCode, BinaryCode, DestRegOrT0, MatchNormalized,
         IsPowerOfTwo, Ctz, ScanLive, RegForOperand, Base;
    ChainEnds(c.ir, i);
    var n := MatchNormalized(c.ir, i).value;
    var dest, clear, regs := DestRegOrT0(c.f, n.destination), 32 - Ctz(n.modulus),
                             Base(c.f) + OperandRegs(c.f, n.source);
    if IsPowerOfTwo(n.modulus) {
      var load, left, right := LoadCode(c.f, n.source, dest), AluI(Slli, dest, dest, clear),
                               AluI(Srli, dest, dest, clear);
      LoadReads(c.f, n.source, dest);
      NotScratch(c.f, n.source);
      TwoLines(left, right, regs + DefsOf(load));
      Then(load, [left, right], regs);
      SettledReads(c.f, load + [left, right], n.destination, regs);
    } else {
      var rem := IrInst(MOD, n.destination, n.source, Imm(n.modulus));
      BinaryReads(c.f, rem, i in c.nonneg);
      ImmediateRegs(c.f, n.modulus);
    }
  }

  lemma ImmediateRegs(f: StackFrame, k: i32)
    ensures OperandRegs(f, Imm(k)) == {}
  {
  }
}
