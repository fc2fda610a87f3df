/**
  Where the peephole pass finds its windows in a function's text: at a comparison fused with its branch, and at a
  comparison that stays on its own and whose register the next line that is emitted tests.
 */
module Windows {
  import opened Ir
  import opened IrFlow
  import opened Rv32
  import opened Frame
  import opened Control
  import opened Selection
  import opened BinaryOp
  import opened Compare
  import opened FrameCode
  import opened Remainder
  import opened Body
  import opened PlainCode
  import opened Exposure
  import opened Peephole
  import opened PeepholeProof

  // ---- where a window can start and end ----

  /** No window starts with such a line. */
  predicate Inert(i: Instr) { !IsTest(i) && !IsAlu(i, Sub) && !(i.Li? && i.rd == T(1)) }

  /** A line that stands only behind the first line of a comparison. */
  predicate Follows(i: Instr) { i.Seqz? || i.Snez? || IsAluI(i, Xori) }

  predicate Opens(k: seq<Instr>) { k != [] && Follows(k[0]) }

  /** The last line does not put a constant into t1. */
  predicate EndsOk(a: seq<Instr>) { a != [] ==> !(a[|a| - 1].Li? && a[|a| - 1].rd == T(1)) }

  lemma NoBranchInside(a: seq<Instr>)
    requires AllPlain(a)
    ensures forall x :: 0 <= x < |a| ==> !a[x].BrZ?
  {
    hide AllPlain;
    forall x | 0 <= x < |a| ensures !a[x].BrZ? { PlainLine(a, a[x]); }
  }

  lemma PlainLine(a: seq<Instr>, i: Instr)
    requires AllPlain(a) && i in a
    ensures !i.BrZ?
  {
  }

  /** A window that starts in plain code ends at the branch right behind it, and the code ends with the line that
      computes what the branch tests. */
  lemma WindowReach(a: seq<Instr>, r: seq<Instr>, m: nat, pat: Pattern)
    requires AllPlain(a) && EndsOk(a) && !Opens(r) && m < |a| && Matches(pat, (a + r)[m..])
    ensures Length(pat) == |a| - m + 1 && r != [] && r[0].BrZ? && r[0] == (a + r)[m..][Length(pat) - 1]
    ensures var last := a[|a| - 1];
            IsTest(last) && last.rd == r[0].rs && (pat.EqualityImm? ==> |a| > 1 && (last.Seqz? || last.Snez?))
    ensures pat.EqualityImm? ==> (a + r)[m..][1] == a[|a| - 2]
  {
    var k, n := (a + r)[m..], Length(pat);
    assert forall x :: 0 <= x < |k| ==> k[x] == (a + r)[m + x];
    assert k[n - 1].BrZ?;
    NoBranchInside(a);
    if m + n - 1 > |a| { assert false; }
  }

  lemma InertNoWindow(k: seq<Instr>)
    requires k != [] && Inert(k[0])
    ensures !Choose(k).Rewrite?
  {
  }

  // ---- the two kinds of window ----

  predicate IsBranch(inst: IrInst) { inst.op.BEQZ? || inst.op.BNEZ? }

  /** Comparison i is tested by branch j: fused with it, or standing right above it in the text. */
  ghost predicate TestedBy(c: Unit, i: nat, j: nat, truth: Reg)
  {
    && i < j < |c.ir| && CompareShaped(c.ir[i]) && IsBranch(c.ir[j])
    && if FusedAt(c, i) then j == i + 1 && truth == T(0)
       else
         && RegForOperand(c.f, c.ir[i].dest) == Some(truth) && RegForOperand(c.f, c.ir[j].src1) == Some(truth)
         && (forall l :: i < l < j ==> Alone(c, l) && InstCode(c, l) == [])
  }

  /** The window at the head of k comes from comparison i and branch j, and what follows is what follows j. */
  ghost predicate ComesFrom(c: Unit, i: nat, j: nat, pat: Pattern, k: seq<Instr>)
    requires Matches(pat, k)
  {
    && WellUsed(pat, k) && TestedBy(c, i, j, TruthReg(pat, k))
    && k[Length(pat) - 1].target == NameOf(c.ir[j].dest) && k[Length(pat)..] == CodeFrom(c, j + 1)
  }

  ghost predicate WindowKnown(c: Unit, k: seq<Instr>)
    requires k != []
  {
    Choose(k).Rewrite? ==> Matches(Choose(k).pat, k) && exists i, j :: ComesFrom(c, i, j, Choose(k).pat, k)
  }

  /** Every window in the text k is one of those. */
  ghost predicate AllKnown(c: Unit, k: seq<Instr>) { forall m :: 0 <= m < |k| ==> WindowKnown(c, k[m..]) }

  lemma KnownAppend(c: Unit, a: seq<Instr>, k: seq<Instr>)
    requires AllKnown(c, k) && forall m :: 0 <= m < |a| ==> WindowKnown(c, (a + k)[m..])
    ensures AllKnown(c, a + k)
  {
    hide WindowKnown;
    forall m | 0 <= m < |a + k| ensures WindowKnown(c, (a + k)[m..]) {
      if m >= |a| { assert (a + k)[m..] == k[m - |a|..]; }
    }
  }

  lemma InertKnown(c: Unit, a: seq<Instr>, k: seq<Instr>)
    requires AllKnown(c, k) && forall i :: i in a ==> Inert(i)
    ensures AllKnown(c, a + k) && (!Opens(k) ==> !Opens(a + k))
  {
    hide Choose, ComesFrom;
    forall m | 0 <= m < |a| ensures WindowKnown(c, (a + k)[m..]) {
      assert (a + k)[m..][0] == a[m] && a[m] in a;
      InertNoWindow((a + k)[m..]);
    }
    KnownAppend(c, a, k);
    if a != [] { assert a[0] in a; } else { assert a + k == k; }
  }

  /** Value code that ends with no test. */
  lemma PlainKnown(c: Unit, a: seq<Instr>, k: seq<Instr>)
    requires AllKnown(c, k) && !Opens(k) && AllPlain(a) && EndsOk(a) && (a != [] ==> !IsTest(a[|a| - 1]))
    ensures AllKnown(c, a + k)
  {
    hide Choose, ComesFrom, Matches;
    forall m | 0 <= m < |a| ensures WindowKnown(c, (a + k)[m..]) {
      var w := (a + k)[m..];
      if Choose(w).Rewrite? {
        Chosen(w);
        WindowReach(a, k, m, Choose(w).pat);
      }
    }
    KnownAppend(c, a, k);
  }

  lemma Chosen(k: seq<Instr>)
    requires k != [] && Choose(k).Rewrite?
    ensures Matches(Choose(k).pat, k)
  {
  }

  lemma TameKnown(c: Unit, a: seq<Instr>, k: seq<Instr>)
    requires AllKnown(c, k) && !Opens(k) && AllTame(a) && EndsOk(a)
    ensures AllKnown(c, a + k) && !Opens(a + k)
  {
    hide WindowKnown, Plain;
    assert AllPlain(a);
    if a == [] {
      assert a + k == k;
    } else {
      assert a[|a| - 1] in a && a[0] in a;
      assert Tame(a[|a| - 1]) && Tame(a[0]);
      PlainKnown(c, a, k);
    }
  }

  /** Code that leaves a truth value in dest, and whose equality compares no t1. */
  predicate Decides(a: seq<Instr>, dest: Reg)
  {
    && a != [] && IsTest(a[|a| - 1]) && a[|a| - 1].rd == dest && !Follows(a[0])
    && (a[|a| - 1].Seqz? || a[|a| - 1].Snez? ==> |a| > 1 && IsAlu(a[|a| - 2], Sub) && a[|a| - 2].rs1 != T(1))
  }

  lemma SmallDecides(f: StackFrame, op: IrOp, imm: Word.i32, a: Reg, dest: Reg)
    requires IsCompare(op) && a != T(1)
    ensures Decides(SmallCompareCode(f, op, imm, a, dest), dest)
  {
    hide RegForConstant, ConstantReg;
  }

  lemma WideDecides(op: IrOp, a: Reg, b: Reg, dest: Reg)
    requires IsCompare(op) && a != T(1)
    ensures Decides(WideCompareCode(op, a, b, dest), dest)
  {
  }

  lemma DecidesBehind(loads: seq<Instr>, a: seq<Instr>, dest: Reg)
    requires Decides(a, dest) && AllTame(loads)
    ensures Decides(loads + a, dest)
  {
    if loads != [] { assert loads[0] in loads && (loads + a)[0] == loads[0]; }
  }

  lemma CompareDecides(f: StackFrame, inst: IrInst, dest: Reg)
    requires BanksOk(f) && CompareShaped(inst) && dest != T(1)
    ensures Decides(CompareCode(f, inst, dest), dest)
  {
    hide LoadCode, RegForOperand, RegForConstant, Src1Reg, Src2Reg, SmallCompareCode, WideCompareCode, BanksOk,
         Decides, Tame;
    OperandPlain(f, inst.src1, dest);
    OperandPlain(f, inst.src2, T(1));
    SourceNotT1(f, inst.src1, dest);
    var loads := Src2Code(f, inst.src2, dest) + Src1Code(f, inst.src1, dest);
    var a, b := Src1Reg(f, inst.src1, dest), Src2Reg(f, inst.src2, dest);
    if IsSmallImm(inst.src2) {
      SmallDecides(f, inst.op, inst.src2.immVal, a, dest);
      DecidesBehind(loads, SmallCompareCode(f, inst.op, inst.src2.immVal, a, dest), dest);
    } else {
      WideDecides(inst.op, a, b, dest);
      DecidesBehind(loads, WideCompareCode(inst.op, a, b, dest), dest);
    }
  }

  lemma SourceNotT1(f: StackFrame, o: Operand, dest: Reg)
    requires BanksOk(f) && dest != T(1)
    ensures Src1Reg(f, o, dest) != T(1)
  {
    hide LocalOffset;
  }

  /** A window that starts in comparison i is that of i and j, if the text goes on with branch j. */
  lemma CompareKnown(c: Unit, i: nat, dest: Reg, j: nat, k: seq<Instr>)
    requires BanksOk(c.f) && i < |c.ir| && CompareShaped(c.ir[i]) && dest != T(1) && dest != X0
    requires AllKnown(c, k) && !Opens(k)
    requires k != [] && k[0].BrZ? && k[0].rs == dest ==>
               TestedBy(c, i, j, dest) && k[0].target == NameOf(c.ir[j].dest) && k[1..] == CodeFrom(c, j + 1)
    ensures AllKnown(c, CompareCode(c.f, c.ir[i], dest) + k) && !Opens(CompareCode(c.f, c.ir[i], dest) + k)
  {
    hide Choose, Matches, CompareCode, TestedBy, CodeFrom, Plain, BanksOk;
    var a := CompareCode(c.f, c.ir[i], dest);
    CompareDecides(c.f, c.ir[i], dest);
    ComparePlain(c.f, c.ir[i], dest);
    forall m | 0 <= m < |a| ensures WindowKnown(c, (a + k)[m..]) {
      var w := (a + k)[m..];
      if Choose(w).Rewrite? {
        Chosen(w);
        WindowReach(a, k, m, Choose(w).pat);
        assert w[Length(Choose(w).pat)..] == k[1..];
        assert ComesFrom(c, i, j, Choose(w).pat, w);
      }
    }
    KnownAppend(c, a, k);
  }

  // ---- the lines of one instruction ----

  lemma EndsJoin(a: seq<Instr>, b: seq<Instr>)
    requires EndsOk(a) && EndsOk(b) && AllTame(a) && AllTame(b)
    ensures EndsOk(a + b) && AllTame(a + b)
  {
    hide Tame;
  }

  lemma EndsElsewhere(a: seq<Instr>, r: Reg)
    requires EndsWith(a, r) && r != T(1)
    ensures EndsOk(a)
  {
  }

  lemma LoadsEnd(f: StackFrame, o: Operand, reg: Reg)
    requires reg != T(1)
    ensures AllTame(LoadCode(f, o, reg)) && EndsOk(LoadCode(f, o, reg))
    ensures forall base, x :: AllTame(LoadAddressCode(reg, base, x)) && EndsOk(LoadAddressCode(reg, base, x))
  {
    hide LocalOffset, Tame;
    OperandPlain(f, o, reg);
  }

  lemma StoresEnd(f: StackFrame, o: Operand, reg: Reg)
    ensures AllTame(StoreCode(f, reg, o)) && EndsOk(StoreCode(f, reg, o))
    ensures AllTame(SettleCode(f, o)) && EndsOk(SettleCode(f, o))
    ensures forall base, x :: AllTame(StoreAddressCode(reg, base, x)) && EndsOk(StoreAddressCode(reg, base, x))
  {
    hide LocalOffset, Tame;
    OperandPlain(f, o, reg);
  }

  /** The destination of an operation is never t1. */
  lemma DestNotT1(f: StackFrame, o: Operand)
    requires BanksOk(f)
    ensures DestRegOrT0(f, o) !in {X0, T(1), T(2)}
  {
    hide LocalOffset;
  }

  lemma BinaryEnds(f: StackFrame, inst: IrInst, localNonneg: bool)
    requires BanksOk(f) && BinaryShaped(inst)
    ensures AllTame(BinaryCode(f, inst, localNonneg)) && EndsOk(BinaryCode(f, inst, localNonneg))
    ensures BinaryCode(f, inst, localNonneg) != []
  {
    hide Tame, BanksOk, StoreCode, OperationCode, RegForOperand;
    BinaryPlain(f, inst, localNonneg);
    DestNotT1(f, inst.dest);
    OperationEnds(f, inst, localNonneg);
    StoresEnd(f, inst.dest, T(0));
    EndsElsewhere(OperationCode(f, inst, localNonneg), DestRegOrT0(f, inst.dest));
  }

  lemma MoveEnds(f: StackFrame, o: Operand, dest: Operand)
    requires BanksOk(f)
    ensures AllTame(MoveCode(f, o, dest)) && EndsOk(MoveCode(f, o, dest))
  {
    hide Tame, BanksOk, LoadCode, SettleCode, DestRegOrT0, EndsOk;
    DestNotT1(f, dest);
    LoadsEnd(f, o, DestRegOrT0(f, dest));
    StoresEnd(f, dest, T(0));
    EndsJoin(LoadCode(f, o, DestRegOrT0(f, dest)), SettleCode(f, dest));
  }

  lemma ParamDeclEnds(f: StackFrame, dest: Operand, k: nat)
    requires BanksOk(f)
    ensures AllTame(ParamDeclCode(f, dest, k)) && EndsOk(ParamDeclCode(f, dest, k))
  {
    hide Tame, BanksOk, LoadAddressCode, SettleCode, DestRegOrT0, EndsOk;
    var r := DestRegOrT0(f, dest);
    var fetch := if k >= 8 then LoadAddressCode(r, S(0), WORD_BYTES * (k - 8)) else if r != A(k) then [Mv(r, A(k))]
                 else [];
    DestNotT1(f, dest);
    LoadsEnd(f, dest, r);
    StoresEnd(f, dest, T(0));
    MoveEnd(r, A(k));
    EndsJoin(fetch, SettleCode(f, dest));
  }

  lemma MoveEnd(rd: Reg, rs: Reg)
    ensures AllTame([Mv(rd, rs)]) && EndsOk([Mv(rd, rs)]) && AllTame([]) && EndsOk([])
  {
  }

  lemma ParamEnds(f: StackFrame, o: Operand, k: int)
    ensures AllTame(ParamCode(f, o, k)) && EndsOk(ParamCode(f, o, k))
  {
    hide Tame, LoadCode, StoreAddressCode, EndsOk;
    MoveEnd(T(0), T(0));
    if k < 8 {
      if k >= 0 { LoadsEnd(f, o, A(k)); }
    } else {
      LoadsEnd(f, o, T(0));
      StoresEnd(f, o, T(0));
      EndsJoin(LoadCode(f, o, T(0)), StoreAddressCode(T(0), Sp, WORD_BYTES * (k - 8)));
    }
  }

  lemma ChainKnown(c: Unit, i: nat, k: seq<Instr>)
    requires BanksOk(c.f) && FusesChain(c, i) && AllKnown(c, k) && !Opens(k)
    ensures AllKnown(c, ChainCode(c, i) + k) && !Opens(ChainCode(c, i) + k) && ChainCode(c, i) != []
    ensures !ChainCode(c, i)[0].BrZ?
  {
    hide Tame, BanksOk, LoadCode, SettleCode, BinaryCode, DestRegOrT0, MatchNormalized, Word.IsPowerOfTwo, Word.Ctz,
         ScanLive, RegForOperand, AllKnown, Opens, EndsOk;
    ChainEnds(c.ir, i);
    ChainPlain(c, i);
    var n := MatchNormalized(c.ir, i).value;
    if Word.IsPowerOfTwo(n.modulus) {
      PowerEnds(c.f, n.source, n.destination, 32 - Word.Ctz(n.modulus));
    } else {
      BinaryEnds(c.f, IrInst(MOD, n.destination, n.source, Imm(n.modulus)), i in c.nonneg);
    }
    TameKnown(c, ChainCode(c, i), k);
    assert Tame(ChainCode(c, i)[0]);
    TameNoBranch(ChainCode(c, i)[0]);
  }

  lemma TameNoBranch(i: Instr)
    requires Tame(i)
    ensures !i.BrZ?
  {
  }

  lemma PowerEnds(f: StackFrame, o: Operand, dest: Operand, clear: int)
    requires BanksOk(f)
    ensures var r := DestRegOrT0(f, dest);
            EndsOk(LoadCode(f, o, r) + [AluI(Slli, r, r, clear), AluI(Srli, r, r, clear)] + SettleCode(f, dest))
  {
    hide Tame, BanksOk, LoadCode, SettleCode, DestRegOrT0;
    StoresEnd(f, dest, T(0));
  }

  lemma LeaveInert(f: StackFrame, size: int, restoreRa: bool)
    ensures forall i :: i in LeaveCode(f, size, restoreRa) ==> Inert(i)
  {
  }

  /** A line that moves control, or a label, in front of k. */
  lemma ControlKnown(c: Unit, i: Instr, k: seq<Instr>)
    requires (!IsStraight(i) || i.Lab?) && AllKnown(c, k)
    ensures AllKnown(c, [i] + k) && !Opens([i] + k)
  {
    hide WindowKnown;
    InertKnown(c, [i], k);
  }

  lemma CallKnown(c: Unit, i: nat, k: seq<Instr>)
    requires i < |c.ir| && AllKnown(c, k) && !Opens(k)
    ensures AllKnown(c, CallCode(c, i) + k) && !Opens(CallCode(c, i) + k)
  {
    hide AllKnown, Opens, StoreCode, LeaveCode, BodyLabel, Inert, AllTame, EndsOk;
    var callee := NameOf(c.ir[i].src1);
    var store := if IsVariable(c.ir[i].dest) then StoreCode(c.f, A(0), c.ir[i].dest) else [];
    assert [] + k == k;
    StoresEnd(c.f, c.ir[i].dest, A(0));
    if IsVariable(c.ir[i].dest) { TameKnown(c, store, k); }
    ControlKnown(c, Instr.Call(callee), store + k);
    assert [Instr.Call(callee)] + (store + k) == [Instr.Call(callee)] + store + k;
    ControlKnown(c, J(callee), k);
    ControlKnown(c, J(BodyLabel(c.name)), k);
    LeaveInert(c.f, c.size, true);
    InertKnown(c, LeaveCode(c.f, c.size, true), [J(callee)] + k);
    assert LeaveCode(c.f, c.size, true) + ([J(callee)] + k) == TailCode(c.f, c.size, callee) + k;
  }

  lemma ReturnKnown(c: Unit, i: nat, k: seq<Instr>)
    requires i < |c.ir| && AllKnown(c, k) && !Opens(k)
    ensures AllKnown(c, ReturnCode(c, i) + k) && !Opens(ReturnCode(c, i) + k)
  {
    hide AllKnown, Opens, LoadCode, ExitLabel, AllTame, EndsOk, AfterTail;
    assert [] + k == k;
    var jump := [J(ExitLabel(c.name))] + k;
    ControlKnown(c, J(ExitLabel(c.name)), k);
    LoadsEnd(c.f, c.ir[i].dest, A(0));
    TameKnown(c, LoadCode(c.f, c.ir[i].dest, A(0)), jump);
    assert LoadCode(c.f, c.ir[i].dest, A(0)) + jump == LoadCode(c.f, c.ir[i].dest, A(0)) + [J(ExitLabel(c.name))] + k;
    assert [] + [J(ExitLabel(c.name))] + k == jump;
  }

  lemma BranchKnown(c: Unit, inst: IrInst, k: seq<Instr>)
    requires AllKnown(c, k) && !Opens(k)
    ensures AllKnown(c, BranchCode(c.f, inst) + k) && !Opens(BranchCode(c.f, inst) + k)
  {
    hide AllKnown, Opens, LoadCode, AllTame, EndsOk, RegForOperand;
    var l := NameOf(inst.dest);
    match RegForOperand(c.f, inst.src1)
    case Some(r) => ControlKnown(c, BrZ(BranchTest(inst.op), r, l), k);
    case None =>
      var b := BrZ(BranchTest(inst.op), T(0), l);
      ControlKnown(c, b, k);
      LoadsEnd(c.f, inst.src1, T(0));
      TameKnown(c, LoadCode(c.f, inst.src1, T(0)), [b] + k);
      assert LoadCode(c.f, inst.src1, T(0)) + ([b] + k) == BranchCode(c.f, inst) + k;
  }

  /** Any instruction but a comparison. */
  lemma OtherKnown(c: Unit, i: nat, k: seq<Instr>)
    requires BanksOk(c.f) && i < |c.ir| && !CompareShaped(c.ir[i]) && AllKnown(c, k) && !Opens(k)
    ensures AllKnown(c, InstCode(c, i) + k) && !Opens(InstCode(c, i) + k)
  {
    hide AllKnown, Opens, BanksOk, BinaryCode, MoveCode, ParamDeclCode, ParamCode, CallCode, ReturnCode, BranchCode,
         AllTame, EndsOk, ParamIndex;
    var inst := c.ir[i];
    assert [] + k == k;
    if BinaryShaped(inst) {
      BinaryEnds(c.f, inst, i in c.nonneg);
      TameKnown(c, InstCode(c, i), k);
    } else {
      MoveEnds(c.f, inst.src1, inst.dest);
      TameKnown(c, MoveCode(c.f, inst.src1, inst.dest), k);
      match inst.op
      case LOCAL_VAR_DECL =>
        ParamDeclEnds(c.f, inst.dest, ParamIndex(c.ir, i));
        TameKnown(c, ParamDeclCode(c.f, inst.dest, ParamIndex(c.ir, i)), k);
      case PARAM =>
        ParamEnds(c.f, inst.dest, if inst.src1.Imm? then inst.src1.immVal else 0);
        TameKnown(c, InstCode(c, i), k);
      case CALL => CallKnown(c, i, k);
      case RETURN => ReturnKnown(c, i, k);
      case LABEL => ControlKnown(c, Lab(NameOf(inst.dest)), k);
      case BRANCH => ControlKnown(c, J(NameOf(inst.dest)), k);
      case BEQZ => BranchKnown(c, inst, k);
      case BNEZ => BranchKnown(c, inst, k);
      case _ =>
  }
  }

  // ---- the branch below a comparison ----

  /** Comparisons have a variable for their result, and branches a value to test. */
  predicate Formed(ir: seq<IrInst>)
  {
    forall i :: 0 <= i < |ir| ==>
      (CompareShaped(ir[i]) ==> IsVariable(ir[i].dest)) && (IsBranch(ir[i]) ==> IsValue(ir[i].src1))
  }

  predicate StartsWithBranch(k: seq<Instr>) { k != [] && k[0].BrZ? }

  /** An instruction whose lines start with a branch is a branch on a register. */
  lemma BranchFirst(c: Unit, i: nat, k: seq<Instr>)
    requires BanksOk(c.f) && Formed(c.ir) && i < |c.ir|
    requires InstCode(c, i) != [] && StartsWithBranch(InstCode(c, i) + k)
    ensures IsBranch(c.ir[i]) && RegForOperand(c.f, c.ir[i].src1) == Some((InstCode(c, i) + k)[0].rs)
    ensures (InstCode(c, i) + k)[0].target == NameOf(c.ir[i].dest) && InstCode(c, i) == [(InstCode(c, i) + k)[0]]
  {
    hide BanksOk, BinaryCode, CompareCode, MoveCode, ParamDeclCode, ParamCode, LoadCode, StoreCode, LeaveCode,
         SettleCode, AllTame, RegForOperand, ParamIndex, EndsOk, BodyLabel, ExitLabel, AfterTail;
    var inst, code := c.ir[i], InstCode(c, i);
    assert (code + k)[0] == code[0];
    if BinaryShaped(inst) {
      BinaryEnds(c.f, inst, i in c.nonneg);
      TameFirst(code);
    } else if CompareShaped(inst) {
      DestNotT1(c.f, inst.dest);
      CompareDecides(c.f, inst, DestRegOrT0(c.f, inst.dest));
      ComparePlain(c.f, inst, DestRegOrT0(c.f, inst.dest));
      PlainFirst(CompareCode(c.f, inst, DestRegOrT0(c.f, inst.dest)));
    } else {
      MovesFirst(c, i);
      match inst.op
      case CALL =>
        LeaveFirst(c.f, c.size, true);
      case RETURN =>
        LoadsEnd(c.f, inst.dest, A(0));
        TameFirst(LoadCode(c.f, inst.dest, A(0)));
      case BEQZ => if RegForOperand(c.f, inst.src1).None? { LoadedFirst(c.f, inst.src1); }
      case BNEZ => if RegForOperand(c.f, inst.src1).None? { LoadedFirst(c.f, inst.src1); }
      case _ =>
    }
  }

  lemma LoadedFirst(f: StackFrame, o: Operand)
    requires BanksOk(f) && IsValue(o) && RegForOperand(f, o).None?
    ensures LoadCode(f, o, T(0)) != [] && !LoadCode(f, o, T(0))[0].BrZ?
  {
    hide LocalOffset, AllTame, EndsOk;
    LoadsEnd(f, o, T(0));
    TameFirst(LoadCode(f, o, T(0)));
  }

  lemma TameFirst(code: seq<Instr>)
    requires AllTame(code)
    ensures code != [] ==> !code[0].BrZ?
  {
    if code != [] { assert Tame(code[0]); }
  }

  lemma PlainFirst(code: seq<Instr>)
    requires AllPlain(code)
    ensures code != [] ==> !code[0].BrZ?
  {
    if code != [] { assert Plain(code[0]); }
  }

  lemma LeaveFirst(f: StackFrame, size: int, restoreRa: bool)
    ensures LeaveCode(f, size, restoreRa) != [] && !LeaveCode(f, size, restoreRa)[0].BrZ?
  {
  }

  lemma MovesFirst(c: Unit, i: nat)
    requires BanksOk(c.f) && i < |c.ir|
    ensures !StartsWithBranch(MoveCode(c.f, c.ir[i].src1, c.ir[i].dest))
    ensures !StartsWithBranch(ParamDeclCode(c.f, c.ir[i].dest, ParamIndex(c.ir, i)))
    ensures forall k :: !StartsWithBranch(ParamCode(c.f, c.ir[i].dest, k))
  {
    hide BanksOk, MoveCode, ParamDeclCode, ParamCode, AllTame, ParamIndex, EndsOk;
    MoveEnds(c.f, c.ir[i].src1, c.ir[i].dest);
    TameFirst(MoveCode(c.f, c.ir[i].src1, c.ir[i].dest));
    ParamDeclEnds(c.f, c.ir[i].dest, ParamIndex(c.ir, i));
    TameFirst(ParamDeclCode(c.f, c.ir[i].dest, ParamIndex(c.ir, i)));
    forall k ensures !StartsWithBranch(ParamCode(c.f, c.ir[i].dest, k)) {
      ParamEnds(c.f, c.ir[i].dest, k);
      TameFirst(ParamCode(c.f, c.ir[i].dest, k));
    }
  }

  /** The branch the text goes on with, behind instructions that have no lines. */
  lemma {:induction false} BranchBelow(c: Unit, i: nat) returns (j: nat)
    requires BanksOk(c.f) && Formed(c.ir) && i <= |c.ir| && !StartsWithBranch(c.after) &&
             StartsWithBranch(CodeFrom(c, i))
    ensures i <= j < |c.ir| && IsBranch(c.ir[j]) && RegForOperand(c.f, c.ir[j].src1) == Some(CodeFrom(c, i)[0].rs)
    ensures CodeFrom(c, i)[0].target == NameOf(c.ir[j].dest) && CodeFrom(c, i)[1..] == CodeFrom(c, j + 1)
    ensures forall l :: i <= l < j ==> Alone(c, l) && InstCode(c, l) == []
    decreases |c.ir| - i
  {
    hide BanksOk, CodeFrom, FusedAt, FusesChain, ChainCode, FusedCode, InstCode, RegForOperand, CompareCode, AllPlain;
    if i >= |c.ir| {
      NothingLeft(c, i);
      assert false;
    } else if FusesChain(c, i) {
      ChainHead(c, i);
      ChainFirst(c, i);
      assert false;
    } else if FusedAt(c, i) {
      FusedHead(c, i);
      FusedFirst(c, i);
      assert false;
    } else {
      AloneCode(c, i);
      var code, rest := InstCode(c, i), CodeFrom(c, i + 1);
      if code == [] {
        assert code + rest == rest;
        j := BranchBelow(c, i + 1);
      } else {
        BranchFirst(c, i, rest);
        assert (code + rest)[1..] == rest;
        j := i;
      }
    }
  }

  lemma FusedFirst(c: Unit, i: nat)
    requires BanksOk(c.f) && FusedAt(c, i)
    ensures FusedCode(c, i) != [] && !FusedCode(c, i)[0].BrZ?
  {
    hide BanksOk, CompareCode, AllPlain;
    CompareDecides(c.f, c.ir[i], T(0));
    ComparePlain(c.f, c.ir[i], T(0));
    PlainFirst(CompareCode(c.f, c.ir[i], T(0)));
  }

  lemma ChainFirst(c: Unit, i: nat)
    requires BanksOk(c.f) && FusesChain(c, i)
    ensures ChainCode(c, i) != [] && !ChainCode(c, i)[0].BrZ?
  {
    hide BanksOk, ChainCode, FusesChain;
    assert AllKnown(c, []);
    ChainKnown(c, i, []);
  }

  // ---- the whole body ----

  /** A comparison on its own. */
  lemma AloneKnown(c: Unit, i: nat, k: seq<Instr>)
    requires BanksOk(c.f) && Formed(c.ir) && i < |c.ir| && Alone(c, i) && CompareShaped(c.ir[i])
    requires k == CodeFrom(c, i + 1) && !StartsWithBranch(c.after) && AllKnown(c, k) && !Opens(k)
    ensures AllKnown(c, InstCode(c, i) + k) && !Opens(InstCode(c, i) + k)
  {
    hide BanksOk, AllKnown, Opens, CompareCode, CodeFrom, StoreCode, FusedAt, FusesChain, InstCode;
    var inst := c.ir[i];
    var dest := DestRegOrT0(c.f, inst.dest);
    AloneCompare(c, i);
    DestNotT1(c.f, inst.dest);
    if RegForOperand(c.f, inst.dest).Some? {
      assert InstCode(c, i) + k == CompareCode(c.f, inst, dest) + k;
      if StartsWithBranch(k) {
        var j := BranchBelow(c, i + 1);
        CompareKnown(c, i, dest, j, k);
      } else {
        CompareKnown(c, i, dest, i, k);
      }
    } else {
      StoredEnds(c, i);
      PlainKnown(c, InstCode(c, i), k);
      HeadStays(InstCode(c, i), k);
    }
  }

  lemma HeadStays(a: seq<Instr>, k: seq<Instr>)
    requires a != [] && !Follows(a[0])
    ensures !Opens(a + k)
  {
    assert (a + k)[0] == a[0];
  }

  /** A truth value that goes to memory is not the last thing computed. */
  lemma StoredEnds(c: Unit, i: nat)
    requires BanksOk(c.f) && i < |c.ir| && CompareShaped(c.ir[i]) && IsVariable(c.ir[i].dest)
    requires RegForOperand(c.f, c.ir[i].dest).None?
    ensures var a := InstCode(c, i); AllPlain(a) && EndsOk(a) && a != [] && !IsTest(a[|a| - 1]) && !Follows(a[0])
  {
    hide BanksOk, CompareCode, StoreAddressCode, LocalOffset, Plain;
    var inst := c.ir[i];
    AloneCompare(c, i);
    hide InstCode;
    CompareDecides(c.f, inst, T(0));
    ComparePlain(c.f, inst, T(0));
    StoresEnd(c.f, inst.dest, T(0));
    var store := SettleCode(c.f, inst.dest);
    assert store != [] by { StoreLines(c.f, inst.dest); }
    assert store[|store| - 1] in store && Tame(store[|store| - 1]);
  }

  lemma StoreLines(f: StackFrame, dest: Operand)
    requires IsVariable(dest) && RegForOperand(f, dest).None?
    ensures SettleCode(f, dest) != []
  {
    hide LocalOffset;
  }

  lemma AloneCompare(c: Unit, i: nat)
    requires i < |c.ir| && CompareShaped(c.ir[i])
    ensures InstCode(c, i) == CompareCode(c.f, c.ir[i], DestRegOrT0(c.f, c.ir[i].dest)) + SettleCode(c.f, c.ir[i].dest)
  {
  }

  lemma FusedKnown(c: Unit, i: nat, k: seq<Instr>)
    requires BanksOk(c.f) && FusedAt(c, i) && k == CodeFrom(c, i + 2) && AllKnown(c, k)
    ensures AllKnown(c, FusedCode(c, i) + k) && !Opens(FusedCode(c, i) + k)
  {
    hide BanksOk, AllKnown, Opens, CompareCode, CodeFrom, UseCount;
    var br := c.ir[i + 1];
    var b := BrZ(BranchTest(br.op), T(0), NameOf(br.dest));
    ControlKnown(c, b, k);
    assert ([b] + k)[1..] == k;
    assert TestedBy(c, i, i + 1, T(0));
    CompareKnown(c, i, T(0), i + 1, [b] + k);
    assert CompareCode(c.f, c.ir[i], T(0)) + ([b] + k) == FusedCode(c, i) + k;
  }

  /** Main result: in the lines of a body every window of the peephole pass is a comparison and the branch that tests
      it. */
  lemma {:induction false} BodyKnown(c: Unit, i: nat)
    requires BanksOk(c.f) && Formed(c.ir)
    requires AllKnown(c, c.after) && !Opens(c.after) && !StartsWithBranch(c.after)
    ensures AllKnown(c, CodeFrom(c, i)) && !Opens(CodeFrom(c, i))
    decreases |c.ir| - i
  {
    hide BanksOk, CodeFrom, FusedAt, FusesChain, ChainCode, FusedCode, InstCode, AllKnown, Opens;
    if i >= |c.ir| {
      NothingLeft(c, i);
    } else if FusesChain(c, i) {
      ChainHead(c, i);
      BodyKnown(c, i + ChainLength(c, i));
      ChainKnown(c, i, CodeFrom(c, i + ChainLength(c, i)));
    } else if FusedAt(c, i) {
      FusedHead(c, i);
      BodyKnown(c, i + 2);
      FusedKnown(c, i, CodeFrom(c, i + 2));
    } else {
      AloneCode(c, i);
      BodyKnown(c, i + 1);
      if CompareShaped(c.ir[i]) { AloneKnown(c, i, CodeFrom(c, i + 1)); } else { OtherKnown(c, i, CodeFrom(c, i + 1)); }
    }
  }
}
