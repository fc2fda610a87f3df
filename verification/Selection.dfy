/** Instruction selection: the lines each operation becomes, and what they compute. */
module Selection {
  import opened Word
  import opened Ir
  import opened Rv32
  import opened Frame
  import opened Magic
  import opened MagicWords

  // --------------------------------------------------------------------------
  // Operands
  // --------------------------------------------------------------------------

  function LoadImmediateCode(f: StackFrame, value: i32, reg: Reg): seq<Instr>
  {
    match RegForConstant(f, value)
    case Some(c) => if reg != c then [Mv(reg, c)] else []
    case None => [Li(reg, value)]
  }

  function AddressScratch(reg: Reg): Reg { if reg == T(2) then T(1) else T(2) }

  function LoadAddressCode(reg: Reg, base: Reg, offset: int): seq<Instr>
  {
    var t := AddressScratch(reg);
    if Fits12(offset) then [Lw(reg, offset, base)]
    else [Li(t, offset), Alu(Add, t, base, t), Lw(reg, 0, t)]
  }

  function StoreAddressCode(reg: Reg, base: Reg, offset: int): seq<Instr>
  {
    var t := AddressScratch(reg);
    if Fits12(offset) then [Sw(reg, offset, base)]
    else [Li(t, offset), Alu(Add, t, base, t), Sw(reg, 0, t)]
  }

  function LoadCode(f: StackFrame, o: Operand, reg: Reg): seq<Instr>
  {
    match o
    case Imm(v) => LoadImmediateCode(f, v, reg)
    case Local(name) =>
      (match RegForVar(f, name)
       case Some(r) => if reg != r then [Mv(reg, r)] else []
       case None => LoadAddressCode(reg, S(0), LocalOffset(f, name)))
    case Global(name) =>
      if name in f.globalRegAlloc then
        if reg != f.globalRegAlloc[name] then [Mv(reg, f.globalRegAlloc[name])] else []
      else [La(T(2), name), Lw(reg, 0, T(2))]
    case Label(name) => [La(reg, name)]
    case Func(name) => [La(reg, name)]
    case _ => []
  }

  function StoreCode(f: StackFrame, reg: Reg, o: Operand): seq<Instr>
  {
    match o
    case Local(name) =>
      (match RegForVar(f, name)
       case Some(r) => if reg != r then [Mv(r, reg)] else []
       case None => StoreAddressCode(reg, S(0), LocalOffset(f, name)))
    case Global(name) =>
      if name in f.globalRegAlloc then
        if reg != f.globalRegAlloc[name] then [Mv(f.globalRegAlloc[name], reg)] else []
      else [La(T(2), name), Sw(reg, 0, T(2))]
    case _ => []
  }

  function DestRegOrT0(f: StackFrame, dest: Operand): Reg
  {
    match RegForOperand(f, dest)
    case Some(r) => r
    case None => T(0)
  }

  /** Where a result still in t0 goes; a result computed in its own register is already there. */
  function SettleCode(f: StackFrame, dest: Operand): seq<Instr>
  {
    if RegForOperand(f, dest).Some? then [] else StoreCode(f, T(0), dest)
  }

  lemma LoadAddressCorrect(reg: Reg, base: Reg, offset: int, s: State)
    requires FitsInt32(offset) && reg != X0 && !(base.T? && base.n <= 2)
    ensures Computed(s, Run(LoadAddressCode(reg, base, offset), s), reg,
                     Load(s, Wrap(R(s, base) + offset)), false)
    ensures reg != T(1) && reg != T(2) ==>
              R(Run(LoadAddressCode(reg, base, offset), s), T(1)) == R(s, T(1))
  {
    hide Run, Wrap;
    if Fits12(offset) {
      Run1(Lw(reg, offset, base), s);
    } else {
      FarAddress(AddressScratch(reg), base, offset, s);
      FarLoad(reg, AddressScratch(reg), base, offset, s);
    }
  }

  /** A far offset is added to the base in a scratch register. */
  lemma FarAddress(t: Reg, base: Reg, offset: int, s: State)
    requires FitsInt32(offset) && t in {T(1), T(2)} && !(base.T? && base.n <= 2)
    ensures Computed(s, Run([Li(t, offset), Alu(Add, t, base, t)], s), t, Wrap(R(s, base) + offset), false)
    ensures forall r :: r != t ==> R(Run([Li(t, offset), Alu(Add, t, base, t)], s), r) == R(s, r)
  {
    hide Wrap;
    Run2(Li(t, offset), Alu(Add, t, base, t), s);
  }

  lemma FarLoad(reg: Reg, t: Reg, base: Reg, offset: int, s: State)
    requires reg != X0
    ensures Run([Li(t, offset), Alu(Add, t, base, t), Lw(reg, 0, t)], s) ==
            Step(Lw(reg, 0, t), Run([Li(t, offset), Alu(Add, t, base, t)], s))
  {
    hide Step;
    Run3(Li(t, offset), Alu(Add, t, base, t), Lw(reg, 0, t), s);
    Run2(Li(t, offset), Alu(Add, t, base, t), s);
  }

  lemma FarStore(reg: Reg, t: Reg, base: Reg, offset: int, s: State)
    ensures Run([Li(t, offset), Alu(Add, t, base, t), Sw(reg, 0, t)], s) ==
            Step(Sw(reg, 0, t), Run([Li(t, offset), Alu(Add, t, base, t)], s))
  {
    hide Step;
    Run3(Li(t, offset), Alu(Add, t, base, t), Sw(reg, 0, t), s);
    Run2(Li(t, offset), Alu(Add, t, base, t), s);
  }

  lemma StoreAddressCorrect(reg: Reg, base: Reg, offset: int, s: State)
    requires FitsInt32(offset) && !(base.T? && base.n <= 2)
    ensures Written(s, Run(StoreAddressCode(reg, base, offset), s),
                    InMem(Wrap(R(s, base) + offset)), R(s, reg), false)
  {
    hide Run, Wrap;
    if Fits12(offset) {
      Run1(Sw(reg, offset, base), s);
    } else {
      FarAddress(AddressScratch(reg), base, offset, s);
      FarStore(reg, AddressScratch(reg), base, offset, s);
    }
  }

  lemma LoadImmediateCorrect(f: StackFrame, v: i32, reg: Reg, s: State)
    requires ConstantsHold(f, s) && reg != X0
    ensures Computed(s, Run(LoadImmediateCode(f, v, reg), s), reg, v, false)
    ensures reg != T(1) ==> R(Run(LoadImmediateCode(f, v, reg), s), T(1)) == R(s, T(1))
  {
    match RegForConstant(f, v)
    case Some(c) => Run1(Mv(reg, c), s);
    case None => Run1(Li(reg, v), s);
  }

  /** Loading an operand leaves its value in the register and changes only t2 besides. */
  lemma LoadCorrect(f: StackFrame, o: Operand, reg: Reg, s: State)
    requires IsValue(o) && OperandOk(f, o) && ConstantsHold(f, s)
    requires reg != X0 && reg != T(2)
    ensures Computed(s, Run(LoadCode(f, o, reg), s), reg, Val(f, s, o), false)
    ensures reg != T(1) ==> R(Run(LoadCode(f, o, reg), s), T(1)) == R(s, T(1))
  {
    hide Wrap, Sra, Srl, Sll;
    match RegForOperand(f, o)
    case Some(r) =>
      Run1(Mv(reg, r), s);
    case None =>
      match o {
        case Imm(v) => LoadImmediateCorrect(f, v, reg, s);
        case Local(name) => LoadAddressCorrect(reg, S(0), LocalOffset(f, name), s);
        case Global(name) => LoadGlobalCorrect(name, reg, s);
      }
  }

  lemma LoadGlobalCorrect(name: string, reg: Reg, s: State)
    requires reg != X0
    ensures Computed(s, Run([La(T(2), name), Lw(reg, 0, T(2))], s), reg, Load(s, SymAddr(s, name)), false)
    ensures reg !in {T(1), T(2)} ==>
              R(Run([La(T(2), name), Lw(reg, 0, T(2))], s), T(1)) == R(s, T(1))
  {
    Run2(La(T(2), name), Lw(reg, 0, T(2)), s);
  }

  /** Storing a register writes the variable's place and changes only t2 besides. */
  lemma StoreCorrect(f: StackFrame, reg: Reg, o: Operand, s: State)
    requires IsVariable(o) && OperandOk(f, o) && reg != T(2)
    ensures Written(s, Run(StoreCode(f, reg, o), s), PlaceOf(f, s, o), R(s, reg), false)
  {
    hide Wrap, LocalOffset;
    match RegForOperand(f, o)
    case Some(r) =>
      Run1(Mv(r, reg), s);
    case None =>
      if o.Local? {
        StoreAddressCorrect(reg, S(0), LocalOffset(f, o.name), s);
      } else {
        Run2(La(T(2), o.name), Sw(reg, 0, T(2)), s);
      }
  }

  // --------------------------------------------------------------------------
  // Constants as second source
  // --------------------------------------------------------------------------

  /** A constant wanted in some register: its hoisted copy, or t1 loaded on the spot. */
  function ConstantReg(f: StackFrame, c: i32): Reg { RegForConstant(f, c).GetOr(T(1)) }

  function ConstantCode(f: StackFrame, c: i32): seq<Instr>
  {
    if RegForConstant(f, c).Some? then [] else [Li(T(1), c)]
  }

  lemma ConstantCorrect(f: StackFrame, c: i32, other: Reg, s: State)
    requires ConstantsHold(f, s) && other != T(1)
    ensures var t := Run(ConstantCode(f, c), s);
            R(t, ConstantReg(f, c)) == c && SameBut(s, t, false) && R(t, other) == R(s, other)
  {
    Run1(Li(T(1), c), s);
  }

  // --------------------------------------------------------------------------
  // Division and remainder through a multiplier
  // --------------------------------------------------------------------------

  function HighProductCode(f: StackFrame, magic: int, shift: nat, src: Reg): seq<Instr>
  {
    ConstantCode(f, Wrap(magic)) + [Alu(Rv32.Mulh, T(2), src, ConstantReg(f, Wrap(magic)))] +
    (if Wrap(magic) < 0 then [Alu(Add, T(2), T(2), src)] else []) +
    (if shift > 0 then [AluI(Srai, T(2), T(2), shift)] else [])
  }

  function SignFixCode(imm: i32, src: Reg, nonnegative: bool): seq<Instr>
  {
    (if nonnegative then [] else [AluI(Srai, T(0), src, 31), Alu(Sub, T(2), T(2), T(0))]) +
    (if imm < 0 then [Alu(Sub, T(2), X0, T(2))] else [])
  }

  function MagicQuotientCode(f: StackFrame, imm: i32, src: Reg, nonnegative: bool): seq<Instr>
    requires imm != 0
  {
    HighProductCode(f, Multiplier(Abs(imm)), MagicShift(Abs(imm)), src) +
    SignFixCode(imm, src, nonnegative)
  }

  predicate MagicApplies(imm: i32) { imm != INT_MIN && HasMagic(Abs(imm)) }

  function MagicDivCode(f: StackFrame, imm: i32, src: Reg, dest: Reg, nonnegative: bool): seq<Instr>
    requires MagicApplies(imm)
  {
    MagicQuotientCode(f, imm, src, nonnegative) +
    (if dest != T(2) then [Mv(dest, T(2))] else [])
  }

  function MagicModCode(f: StackFrame, imm: i32, src: Reg, dest: Reg, nonnegative: bool): seq<Instr>
    requires MagicApplies(imm)
  {
    (if src == T(0) then [Mv(T(3), T(0))] else []) +
    MagicQuotientCode(f, imm, src, nonnegative) +
    ConstantCode(f, imm) + [Alu(Mul, T(2), T(2), ConstantReg(f, imm))] +
    [Alu(Sub, dest, if src == T(0) then T(3) else src, T(2))]
  }

  lemma HighProductCorrect(f: StackFrame, magic: int, shift: nat, src: Reg, s: State)
    requires ConstantsHold(f, s) && 0 < magic < TWO32 && shift <= 30
    requires src !in {X0, T(1), T(2)}
    ensures var t := Run(HighProductCode(f, magic, shift, src), s);
            && Computed(s, t, T(2), ShiftedHigh(R(s, src), magic, shift), false)
            && R(t, src) == R(s, src)
  {
    hide Run, Step, R, Wrap, Sra;
    var w := Wrap(magic);
    var c := ConstantCode(f, w);
    var mul := [Alu(Rv32.Mulh, T(2), src, ConstantReg(f, w))];
    var fix := if w < 0 then [Alu(Add, T(2), T(2), src)] else [];
    var shr := if shift > 0 then [AluI(Srai, T(2), T(2), shift)] else [];
    ConstantCorrect(f, w, src, s);
    RunAppend(c, mul, s);
    RunAppend(c + mul, fix, s);
    RunAppend(c + mul + fix, shr, s);
    var s1 := Run(c, s);
    var s2 := Run(mul, s1);
    MulhStep(src, ConstantReg(f, w), s1);
    CorrectionStep(src, w, s2);
    ShiftStep(src, shift, Run(fix, s2));
  }

  lemma MulhStep(src: Reg, c: Reg, s: State)
    requires src != T(2)
    ensures var t := Run([Alu(Rv32.Mulh, T(2), src, c)], s);
            && Computed(s, t, T(2), Word.Mulh(R(s, src), R(s, c)), false)
            && R(t, src) == R(s, src)
  {
    Run1(Alu(Rv32.Mulh, T(2), src, c), s);
  }

  lemma CorrectionStep(src: Reg, w: i32, s: State)
    requires src != T(2)
    ensures var t := Run(if w < 0 then [Alu(Add, T(2), T(2), src)] else [], s);
            && Computed(s, t, T(2), if w < 0 then Wrap(R(s, T(2)) + R(s, src)) else R(s, T(2)), false)
            && R(t, src) == R(s, src)
  {
    hide Wrap, Sra, Srl, Sll;
    if w < 0 { Run1(Alu(Add, T(2), T(2), src), s); }
  }

  lemma ShiftStep(src: Reg, shift: nat, s: State)
    requires src != T(2)
    ensures var t := Run(if shift > 0 then [AluI(Srai, T(2), T(2), shift)] else [], s);
            && Computed(s, t, T(2), if shift > 0 then Sra(R(s, T(2)), shift) else R(s, T(2)), false)
            && R(t, src) == R(s, src)
  {
    hide Wrap, Sra, Srl, Sll;
    if shift > 0 { Run1(AluI(Srai, T(2), T(2), shift), s); }
  }

  lemma SignFixCorrect(imm: i32, src: Reg, nonnegative: bool, s: State)
    requires src !in {X0, T(2)}
    ensures Computed(s, Run(SignFixCode(imm, src, nonnegative), s), T(2),
                     Negated(WithSign(R(s, T(2)), R(s, src), nonnegative), imm < 0), false)
  {
    var a := if nonnegative then [] else [AluI(Srai, T(0), src, 31), Alu(Sub, T(2), T(2), T(0))];
    RoundingStep(src, nonnegative, s);
    RunAppend(a, if imm < 0 then [Alu(Sub, T(2), X0, T(2))] else [], s);
    NegationStep(imm, Run(a, s));
  }

  lemma RoundingStep(src: Reg, nonnegative: bool, s: State)
    requires src !in {X0, T(2)}
    ensures Computed(s, Run(if nonnegative then [] else [AluI(Srai, T(0), src, 31), Alu(Sub, T(2), T(2), T(0))], s),
                     T(2), WithSign(R(s, T(2)), R(s, src), nonnegative), false)
  {
    hide Wrap, Sra, Srl, Sll;
    if !nonnegative { Run2(AluI(Srai, T(0), src, 31), Alu(Sub, T(2), T(2), T(0)), s); }
  }

  lemma NegationStep(imm: i32, s: State)
    ensures Computed(s, Run(if imm < 0 then [Alu(Sub, T(2), X0, T(2))] else [], s), T(2),
                     Negated(R(s, T(2)), imm < 0), false)
  {
    hide Wrap, Sra, Srl, Sll;
    if imm < 0 { Run1(Alu(Sub, T(2), X0, T(2)), s); }
  }

  lemma MagicQuotientCorrect(f: StackFrame, imm: i32, src: Reg, nonnegative: bool, s: State)
    requires MagicApplies(imm) && ConstantsHold(f, s)
    requires src !in {X0, T(1), T(2)}
    requires nonnegative ==> R(s, src) >= 0
    ensures var t := Run(MagicQuotientCode(f, imm, src, nonnegative), s);
            && Computed(s, t, T(2), RvDiv(R(s, src), imm), false)
            && Wrap(R(s, src) - Wrap(R(t, T(2)) * imm)) == RvRem(R(s, src), imm)
  {
    hide Wrap, Sra, Run, R, ShiftedHigh, WithSign, RvDiv, RvRem, Multiplier, MagicShift, HighProductCode, SignFixCode;
    var d := Abs(imm);
    var x := R(s, src);
    MagicExists(d);
    WordQuotient(d, Multiplier(d), MagicShift(d), x, nonnegative);
    SignedDivisor(imm, WithSign(ShiftedHigh(x, Multiplier(d), MagicShift(d)), x, nonnegative), x);
    HighProductCorrect(f, Multiplier(d), MagicShift(d), src, s);
    var a := HighProductCode(f, Multiplier(d), MagicShift(d), src);
    RunAppend(a, SignFixCode(imm, src, nonnegative), s);
    SignFixCorrect(imm, src, nonnegative, Run(a, s));
  }

  /** Division by every constant the search accepts, for every dividend, in any two registers. */
  lemma MagicDivCorrect(f: StackFrame, imm: i32, src: Reg, dest: Reg, nonnegative: bool, s: State)
    requires MagicApplies(imm) && ConstantsHold(f, s)
    requires src !in {X0, T(1), T(2)} && dest != X0
    requires nonnegative ==> R(s, src) >= 0
    ensures Computed(s, Run(MagicDivCode(f, imm, src, dest, nonnegative), s), dest,
                     RvDiv(R(s, src), imm), false)
  {
    MagicQuotientCorrect(f, imm, src, nonnegative, s);
    var q := MagicQuotientCode(f, imm, src, nonnegative);
    RunAppend(q, if dest != T(2) then [Mv(dest, T(2))] else [], s);
    Run1(Mv(dest, T(2)), Run(q, s));
  }

  /** Remainder by every constant the search accepts. A dividend in t0 is saved in t3, which is
      then lost to whatever lived there. */
  lemma MagicModCorrect(f: StackFrame, imm: i32, src: Reg, dest: Reg, nonnegative: bool, s: State)
    requires MagicApplies(imm) && ConstantsHold(f, s) && ConstantsKept(f, src == T(0))
    requires src !in {X0, T(1), T(2)} && dest !in {X0, T(2)}
    requires nonnegative ==> R(s, src) >= 0
    ensures var t := Run(MagicModCode(f, imm, src, dest, nonnegative), s);
            && Computed(s, t, dest, RvRem(R(s, src), imm), src == T(0))
            && (src == T(0) && dest != T(3) ==> R(t, T(3)) == R(s, src))
  {
    hide Run, Step, R, Wrap, MagicQuotientCode, ConstantCode;
    var save := if src == T(0) then [Mv(T(3), T(0))] else [];
    var kept := if src == T(0) then T(3) else src;
    var q := MagicQuotientCode(f, imm, src, nonnegative);
    var c := ConstantCode(f, imm);
    var mul, sub := [Alu(Mul, T(2), T(2), ConstantReg(f, imm))], [Alu(Sub, dest, kept, T(2))];
    var s1 := Run(save, s);
    SaveStep(src, s);
    MagicQuotientCorrect(f, imm, src, nonnegative, s1);
    var s2 := Run(q, s1);
    ConstantCorrect(f, imm, T(2), s2);
    RunAppend(save, q, s);
    RunAppend(save + q, c, s);
    RunAppend(save + q + c, mul, s);
    RunAppend(save + q + c + mul, sub, s);
    var s3 := Run(c, s2);
    RemainderStep(imm, src, kept, dest, ConstantReg(f, imm), s, s1, s2, s3);
  }

  lemma SaveStep(src: Reg, s: State)
    ensures var t := Run(if src == T(0) then [Mv(T(3), T(0))] else [], s);
            && SameBut(s, t, src == T(0)) && R(t, src) == R(s, src)
            && R(t, if src == T(0) then T(3) else src) == R(s, src)
  {
    if src == T(0) { Run1(Mv(T(3), T(0)), s); }
  }

  lemma RemainderStep(imm: i32, src: Reg, kept: Reg, dest: Reg, creg: Reg, s: State, s1: State, s2: State, s3: State)
    requires src !in {X0, T(1), T(2)} && dest !in {X0, T(2)} && creg != T(2)
    requires kept == if src == T(0) then T(3) else src
    requires SameBut(s, s1, src == T(0)) && R(s1, kept) == R(s, src)
    requires SameBut(s1, s2, false) && SameBut(s2, s3, false)
    requires R(s3, creg) == imm && R(s3, T(2)) == R(s2, T(2))
    ensures var t := Run([Alu(Sub, dest, kept, T(2))], Run([Alu(Mul, T(2), T(2), creg)], s3));
            && Computed(s, t, dest, Wrap(R(s, src) - Wrap(R(s2, T(2)) * imm)), src == T(0))
            && (src == T(0) && dest != T(3) ==> R(t, T(3)) == R(s, src))
  {
    hide Run, R, AluValue;
    AluRun(AluOp.Mul, T(2), T(2), creg, s3);
    AluRun(AluOp.Sub, dest, kept, T(2), Run([Alu(Mul, T(2), T(2), creg)], s3));
    ProductValue(R(s2, T(2)), imm, R(s, src));
  }

  lemma ProductValue(q: i32, imm: i32, x: i32)
    ensures AluValue(AluOp.Sub, x, AluValue(AluOp.Mul, q, imm)) == Wrap(x - Wrap(q * imm))
  {
  }

  /** A register-register line computes its value and touches no other register. */
  lemma AluRun(op: AluOp, rd: Reg, a: Reg, b: Reg, s: State)
    requires rd != X0
    ensures var t := Run([Alu(op, rd, a, b)], s);
            && Computed(s, t, rd, AluValue(op, R(s, a), R(s, b)), false)
            && forall r :: r != rd ==> R(t, r) == R(s, r)
  {
    hide AluValue;
    Run1(Alu(op, rd, a, b), s);
  }
}
