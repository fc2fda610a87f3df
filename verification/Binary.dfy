/** `emitBinaryOp` with a small immediate: each operation by a constant of twelve bits. */
module Binary {
  import opened Word
  import opened Ir
  import opened Rv32
  import opened Frame
  import opened Shifts
  import opened Selection

  // --------------------------------------------------------------------------
  // A small immediate as second source
  // --------------------------------------------------------------------------

  function MulImmCode(f: StackFrame, imm: i32, src: Reg, dest: Reg): seq<Instr>
  {
    if imm > 0 && IsPowerOfTwo(imm) then [AluI(Slli, dest, src, Ctz(imm))]
    else if imm == 3 then [AluI(Slli, T(1), src, 1), Alu(Add, dest, T(1), src)]
    else if imm == 5 then [AluI(Slli, T(1), src, 2), Alu(Add, dest, T(1), src)]
    else if imm == 7 then [AluI(Slli, T(1), src, 3), Alu(Sub, dest, T(1), src)]
    else if imm == 9 then [AluI(Slli, T(1), src, 3), Alu(Add, dest, T(1), src)]
    else if imm == 15 then [AluI(Slli, T(1), src, 4), Alu(Sub, dest, T(1), src)]
    else if imm == -1 then [Alu(Sub, dest, X0, src)]
    else if imm < 0 && IsPowerOfTwo(-(imm as int)) then
      [AluI(Slli, dest, src, Ctz(-(imm as int))), Alu(Sub, dest, X0, dest)]
    else ConstantCode(f, imm) + [Alu(Mul, dest, src, ConstantReg(f, imm))]
  }

  /** The bias of a negative dividend, added to the dividend, in t1. */
  function BiasCode(src: Reg, shift: nat): seq<Instr>
  {
    [AluI(Srai, T(1), src, 31), AluI(Srli, T(1), T(1), 32 - shift), Alu(Add, T(1), src, T(1))]
  }

  function DivImmCode(f: StackFrame, imm: i32, src: Reg, dest: Reg, localNonneg: bool, nonneg: bool): seq<Instr>
  {
    if imm > 0 && IsPowerOfTwo(imm) then
      if localNonneg then [AluI(Srai, dest, src, Ctz(imm))]
      else BiasCode(src, Ctz(imm)) + [AluI(Srai, dest, T(1), Ctz(imm))]
    else if imm == -1 then [Alu(Sub, dest, X0, src)]
    else if imm != 0 && imm != 1 && MagicApplies(imm) then MagicDivCode(f, imm, src, dest, nonneg)
    else ConstantCode(f, imm) + [Alu(Div, dest, src, ConstantReg(f, imm))]
  }

  function ModImmCode(f: StackFrame, imm: i32, src: Reg, dest: Reg, localNonneg: bool, nonneg: bool): seq<Instr>
  {
    if imm > 0 && IsPowerOfTwo(imm) then
      if localNonneg then [AluI(Andi, dest, src, imm - 1)]
      else BiasCode(src, Ctz(imm)) +
           [AluI(Srai, T(1), T(1), Ctz(imm)), AluI(Slli, T(1), T(1), Ctz(imm)), Alu(Sub, dest, src, T(1))]
    else if imm == 1 then [Li(dest, 0)]
    else if imm == -1 then [Li(dest, 0)]
    else if imm != 0 && MagicApplies(imm) then MagicModCode(f, imm, src, dest, nonneg)
    else ConstantCode(f, imm) + [Alu(Rem, dest, src, ConstantReg(f, imm))]
  }

  function SmallImmCode(f: StackFrame, op: IrOp, imm: i32, src: Reg, dest: Reg, localNonneg: bool,
                        nonneg: bool): seq<Instr>
    requires IsArithmetic(op)
  {
    match op
    case ADD => [AluI(Addi, dest, src, imm)]
    case SUB => [AluI(Addi, dest, src, -(imm as int))]
    case MUL => MulImmCode(f, imm, src, dest)
    case DIV => DivImmCode(f, imm, src, dest, localNonneg, nonneg)
    case MOD => ModImmCode(f, imm, src, dest, localNonneg, nonneg)
  }

  lemma SmallPower(imm: i32)
    requires 0 < imm <= 2048 && IsPowerOfTwo(imm)
    ensures imm == Pow2(Ctz(imm)) && Ctz(imm) <= 11
    ensures imm == 1 <==> Ctz(imm) == 0
  {
    PowerOfTwoTest(imm);
    assert Pow2(12) == 4096;
    if Ctz(imm) > 11 { Pow2Mono(12, Ctz(imm)); }
  }

  /** Shift-and-add multiplication. */
  lemma MulImmCorrect(f: StackFrame, imm: i32, src: Reg, dest: Reg, s: State)
    requires Fits12(imm) && ConstantsHold(f, s)
    requires src !in {X0, T(1), T(2)} && dest !in {X0, T(1), T(2)}
    ensures Computed(s, Run(MulImmCode(f, imm, src, dest), s), dest, Wrap(R(s, src) * imm), false)
  {
    hide Wrap, Sra, Srl, Pow2, Run, Step, R, AluValue, ConstantCode;
    var x := R(s, src);
    if imm > 0 && IsPowerOfTwo(imm) {
      SmallPower(imm);
      ImmStep(Slli, src, dest, Ctz(imm), s);
    } else if imm in {3, 5, 9} {
      var k := if imm == 3 then 1 else if imm == 5 then 2 else 3;
      ShiftAdd(x, k);
      ShiftThen(Add, k, src, dest, s);
    } else if imm == 7 || imm == 15 {
      var k := if imm == 7 then 3 else 4;
      ShiftAdd(x, k);
      ShiftThen(Sub, k, src, dest, s);
    } else if imm == -1 {
      NegateStep(src, dest, s);
    } else if imm < 0 && IsPowerOfTwo(-(imm as int)) {
      var k := Ctz(-(imm as int));
      SmallPower(-(imm as int));
      ShiftNegate(x, imm, k);
      ImmStep(Slli, src, dest, k, s);
      RunAppend([AluI(Slli, dest, src, k)], [Alu(Sub, dest, X0, dest)], s);
      assert [AluI(Slli, dest, src, k), Alu(Sub, dest, X0, dest)] ==
             [AluI(Slli, dest, src, k)] + [Alu(Sub, dest, X0, dest)];
      NegateStep(dest, dest, Run([AluI(Slli, dest, src, k)], s));
    } else {
      ConstantThen(f, imm, Mul, src, dest, s);
      MulValue(x, imm);
    }
  }

  lemma MulValue(a: i32, b: i32)
    ensures AluValue(Mul, a, b) == Wrap(a * b)
  {
  }

  lemma ImmStep(op: ImmOp, src: Reg, dest: Reg, imm: nat, s: State)
    requires dest != X0
    ensures Computed(s, Run([AluI(op, dest, src, imm)], s), dest, ImmValue(op, R(s, src), imm), false)
  {
    hide ImmValue;
    Run1(AluI(op, dest, src, imm), s);
  }

  lemma NegateStep(src: Reg, dest: Reg, s: State)
    requires dest != X0
    ensures Computed(s, Run([Alu(Sub, dest, X0, src)], s), dest, Wrap(0 - R(s, src)), false)
  {
    Run1(Alu(Sub, dest, X0, src), s);
  }

  lemma ShiftAdd(x: i32, k: nat)
    requires k <= 4
    ensures Wrap(Sll(x, k) + x) == Wrap(x * (Pow2(k) + 1))
    ensures Wrap(Sll(x, k) - x) == Wrap(x * (Pow2(k) - 1))
    ensures Pow2(k) == if k == 0 then 1 else if k == 1 then 2 else if k == 2 then 4 else if k == 3 then 8 else 16
  {
    hide Wrap;
    WrapAddWrap(x * Pow2(k), x);
    Distribute(Pow2(k), 1, x);
  }

  lemma ShiftNegate(x: i32, imm: int, k: nat)
    requires imm == -Pow2(k)
    ensures Wrap(0 - Sll(x, k)) == Wrap(x * imm)
  {
    hide Wrap;
    WrapAddWrap(x * Pow2(k), 0);
    assert x * imm == -(x * Pow2(k));
  }

  lemma ShiftThen(op: AluOp, k: nat, src: Reg, dest: Reg, s: State)
    requires op == Add || op == Sub
    requires src !in {X0, T(1), T(2)} && dest !in {X0, T(1), T(2)}
    ensures Computed(s, Run([AluI(Slli, T(1), src, k), Alu(op, dest, T(1), src)], s), dest,
                     if op == Add then Wrap(Sll(R(s, src), k) + R(s, src))
                     else Wrap(Sll(R(s, src), k) - R(s, src)), false)
  {
    hide Wrap, Sra, Srl, Sll;
    Run2(AluI(Slli, T(1), src, k), Alu(op, dest, T(1), src), s);
  }

  lemma ConstantThen(f: StackFrame, c: i32, op: AluOp, src: Reg, dest: Reg, s: State)
    requires ConstantsHold(f, s) && src !in {X0, T(1), T(2)} && dest !in {X0, T(1), T(2)}
    ensures Computed(s, Run(ConstantCode(f, c) + [Alu(op, dest, src, ConstantReg(f, c))], s), dest,
                     AluValue(op, R(s, src), c), false)
  {
    hide AluValue;
    ConstantCorrect(f, c, src, s);
    var i := Alu(op, dest, src, ConstantReg(f, c));
    RunAppend(ConstantCode(f, c), [i], s);
    Run1(i, Run(ConstantCode(f, c), s));
  }

  lemma BiasCorrect(src: Reg, k: nat, s: State)
    requires src !in {X0, T(1)} && k <= 32
    ensures var t := Run(BiasCode(src, k), s);
            && SameBut(s, t, false) && R(t, src) == R(s, src)
            && R(t, T(1)) == Wrap(R(s, src) + Srl(Sra(R(s, src), 31), 32 - k))
  {
    hide Wrap, Sra, Srl, Sll;
    Run3(AluI(Srai, T(1), src, 31), AluI(Srli, T(1), T(1), 32 - k), Alu(Add, T(1), src, T(1)), s);
  }

  /** Division by a power of two: a bare shift for a non-negative dividend, a biased one otherwise. */
  lemma DivPowerCorrect(imm: i32, src: Reg, dest: Reg, s: State)
    requires 0 < imm <= 2047 && IsPowerOfTwo(imm)
    requires src !in {X0, T(1), T(2)} && dest !in {X0, T(1), T(2)}
    ensures R(s, src) >= 0 ==>
              Computed(s, Run([AluI(Srai, dest, src, Ctz(imm))], s), dest, RvDiv(R(s, src), imm), false)
    ensures Computed(s, Run(BiasCode(src, Ctz(imm)) + [AluI(Srai, dest, T(1), Ctz(imm))], s), dest,
                     RvDiv(R(s, src), imm), false)
  {
    hide Wrap, Srl, Sll, Run, Step, R, BiasCode, Pow2;
    var k := Ctz(imm);
    SmallPower(imm);
    BiasedShift(R(s, src), k);
    PositiveShift(R(s, src), k);
    BiasCorrect(src, k, s);
    ImmStep(Srai, src, dest, k, s);
    RunAppend(BiasCode(src, k), [AluI(Srai, dest, T(1), k)], s);
    ImmStep(Srai, T(1), dest, k, Run(BiasCode(src, k), s));
  }

  lemma PositiveShift(x: i32, k: nat)
    ensures x >= 0 ==> Sra(x, k) == TruncDiv(x, Pow2(k))
  {
  }

  lemma DivImmCorrect(f: StackFrame, imm: i32, src: Reg, dest: Reg, localNonneg: bool, nonneg: bool, s: State)
    requires Fits12(imm) && ConstantsHold(f, s)
    requires src !in {X0, T(1), T(2)} && dest !in {X0, T(1), T(2)}
    requires localNonneg || nonneg ==> R(s, src) >= 0
    ensures Computed(s, Run(DivImmCode(f, imm, src, dest, localNonneg, nonneg), s), dest,
                     RvDiv(R(s, src), imm), false)
  {
    hide Sra, Srl, Sll;
    if imm > 0 && IsPowerOfTwo(imm) {
      DivPowerCorrect(imm, src, dest, s);
    } else if imm == -1 {
      NegateStep(src, dest, s);
    } else if imm != 0 && imm != 1 && MagicApplies(imm) {
      MagicDivCorrect(f, imm, src, dest, nonneg, s);
    } else {
      ConstantThen(f, imm, Div, src, dest, s);
    }
  }

  /** Remainder by a power of two: a mask for a non-negative dividend. */
  lemma ModPowerCorrect(imm: i32, src: Reg, dest: Reg, s: State)
    requires 0 < imm <= 2047 && IsPowerOfTwo(imm)
    requires src !in {X0, T(1), T(2)} && dest !in {X0, T(1), T(2)}
    ensures R(s, src) >= 0 ==>
              Computed(s, Run([AluI(Andi, dest, src, imm - 1)], s), dest, RvRem(R(s, src), imm), false)
    ensures Computed(s, Run(BiasCode(src, Ctz(imm)) +
                            [AluI(Srai, T(1), T(1), Ctz(imm)), AluI(Slli, T(1), T(1), Ctz(imm)),
                             Alu(Sub, dest, src, T(1))], s),
                     dest, RvRem(R(s, src), imm), false)
  {
    hide RvRem, Run, R, BiasCode, Pow2, Computed;
    SmallPower(imm);
    if R(s, src) >= 0 { Masked(R(s, src), imm, Ctz(imm)); }
    ImmStep(Andi, src, dest, imm - 1, s);
    ModBiased(imm, src, dest, s);
  }

  lemma ModBiased(imm: i32, src: Reg, dest: Reg, s: State)
    requires 0 < imm <= 2047 && IsPowerOfTwo(imm)
    requires src !in {X0, T(1), T(2)} && dest !in {X0, T(1), T(2)}
    ensures Computed(s, Run(BiasCode(src, Ctz(imm)) +
                            [AluI(Srai, T(1), T(1), Ctz(imm)), AluI(Slli, T(1), T(1), Ctz(imm)),
                             Alu(Sub, dest, src, T(1))], s),
                     dest, RvRem(R(s, src), imm), false)
  {
    hide Wrap, Sra, Srl, Sll, Run, Step, R, BiasCode, Pow2;
    var k := Ctz(imm);
    var x := R(s, src);
    SmallPower(imm);
    BiasedShift(x, k);
    BiasedRemainder(x, k);
    BiasCorrect(src, k, s);
    ShiftBackStep(k, src, dest, Run(BiasCode(src, k), s));
    RunAppend(BiasCode(src, k),
              [AluI(Srai, T(1), T(1), k), AluI(Slli, T(1), T(1), k), Alu(Sub, dest, src, T(1))], s);
  }

  lemma Masked(x: i32, imm: i32, k: nat)
    requires x >= 0 && 0 < imm == Pow2(k)
    ensures ImmValue(Andi, x, imm - 1) == RvRem(x, imm)
  {
    hide RvRem, Pow2, BitAnd;
    MaskIsRemainder(x, k);
    RemainderOfNonneg(x, imm);
  }

  lemma RemainderOfNonneg(x: i32, d: i32)
    requires x >= 0 && d > 0
    ensures RvRem(x, d) == x % d && 0 <= x % d < d
  {
    TruncDivRemainder(x, d);
    DivModUnique(x, d, TruncDiv(x, d), TruncRem(x, d));
  }

  lemma ShiftBackStep(k: nat, src: Reg, dest: Reg, s: State)
    requires src !in {X0, T(1), T(2)} && dest !in {X0, T(1), T(2)}
    ensures Computed(s, Run([AluI(Srai, T(1), T(1), k), AluI(Slli, T(1), T(1), k), Alu(Sub, dest, src, T(1))], s),
                     dest, Wrap(R(s, src) - Sll(Sra(R(s, T(1)), k), k)), false)
  {
    hide Wrap, Sra, Srl, Sll;
    Run3(AluI(Srai, T(1), T(1), k), AluI(Slli, T(1), T(1), k), Alu(Sub, dest, src, T(1)), s);
  }

  lemma RemainderByUnit(x: i32)
    ensures RvRem(x, 1) == 0 && RvRem(x, -1) == 0 && Wrap(0) == 0
  {
  }

  lemma ModImmCorrect(f: StackFrame, imm: i32, src: Reg, dest: Reg, localNonneg: bool, nonneg: bool, s: State)
    requires Fits12(imm) && ConstantsHold(f, s) && ConstantsKept(f, MagicApplies(imm) && src == T(0))
    requires src !in {X0, T(1), T(2)} && dest !in {X0, T(1), T(2)}
    requires localNonneg || nonneg ==> R(s, src) >= 0
    ensures Computed(s, Run(ModImmCode(f, imm, src, dest, localNonneg, nonneg), s), dest,
                     RvRem(R(s, src), imm), MagicApplies(imm) && src == T(0))
  {
    hide Sra, Srl, Sll, Wrap, IsPowerOfTwo, MagicModCode, MagicApplies, RvRem, Run;
    if imm > 0 && IsPowerOfTwo(imm) {
      ModPowerCorrect(imm, src, dest, s);
    } else if imm == 1 || imm == -1 {
      RemainderByUnit(R(s, src));
      Run1(Li(dest, 0), s);
    } else if imm != 0 && MagicApplies(imm) {
      MagicModCorrect(f, imm, src, dest, nonneg, s);
    } else {
      ConstantThen(f, imm, Rem, src, dest, s);
    }
  }
}
