/** The fused compare-and-branch after the peephole pass: which window each relation becomes, and when the
    lines that come out branch as the comparison says. */
module FusedPeephole {
  import opened Word
  import opened Ir
  import opened Rv32
  import opened Frame
  import opened Control
  import opened Selection
  import opened BinaryOp
  import opened Compare
  import opened Peephole
  import opened PeepholeProof
  import opened PeepholeRuns

  /** The comparison proper, after the loads. */
  function CoreCode(f: StackFrame, inst: IrInst): (code: seq<Instr>)
    requires CompareShaped(inst)
    ensures 1 <= |code| <= 2
  {
    var a := Src1Reg(f, inst.src1, T(0));
    if IsSmallImm(inst.src2) then
      var v := inst.src2.immVal;
      if inst.op.GE? then [AluI(Slti, T(0), a, v), AluI(Xori, T(0), T(0), 1)]
      else if inst.op.LT? then [AluI(Slti, T(0), a, v)]
      else if inst.op.LE? then [AluI(Slti, T(0), a, v + 1)]
      else WideCompareCode(inst.op, a, ConstantReg(f, v), T(0))
    else WideCompareCode(inst.op, a, Src2Reg(f, inst.src2, T(0)), T(0))
  }

  function LoadLines(f: StackFrame, inst: IrInst): seq<Instr>
    requires CompareShaped(inst)
  {
    Src2Code(f, inst.src2, T(0)) + Src1Code(f, inst.src1, T(0)) +
    (if IsSmallImm(inst.src2) && (inst.op.GT? || inst.op.EQ? || inst.op.NE?) then ConstantCode(f, inst.src2.immVal)
     else [])
  }

  lemma CompareParts(f: StackFrame, inst: IrInst)
    requires CompareShaped(inst)
    ensures CompareCode(f, inst, T(0)) == LoadLines(f, inst) + CoreCode(f, inst)
  {
    hide Src2Code, Src1Code;
  }

  // ---- the loads pass through the scan ----

  predicate IsLoad(i: Instr) {
    i.Li? || i.La? || i.Lw? || (i.Alu? && i.aop == Add)
  }

  predicate AllLoads(code: seq<Instr>) { forall i :: i in code ==> IsLoad(i) }

  lemma LoadsAreLoads(f: StackFrame, inst: IrInst)
    requires CompareShaped(inst) && OperandOk(f, inst.src1) && OperandOk(f, inst.src2)
    requires forall c :: c in f.constantRegAlloc ==> f.constantRegAlloc[c] != T(0)
    ensures AllLoads(LoadLines(f, inst))
  {
    hide LocalOffset;
    OperandLoads(f, inst.src2);
    OperandLoads(f, inst.src1);
  }

  lemma OperandLoads(f: StackFrame, o: Operand)
    requires IsValue(o) && OperandOk(f, o) && forall c :: c in f.constantRegAlloc ==> f.constantRegAlloc[c] != T(0)
    ensures AllLoads(Src2Code(f, o, T(0))) && AllLoads(Src1Code(f, o, T(0)))
  {
    hide LocalOffset;
    match o
    case Imm(v) =>
    case Local(name) =>
    case Global(name) =>
  }

  predicate OpensWindow(loads: seq<Instr>, k: seq<Instr>) {
    loads != [] && MatchesEqualityImm([loads[|loads| - 1]] + k)
  }

  /** No window starts in the loads, except one for an immediate in t1 that the last of them loads. */
  lemma {:induction false} PeepLoads(loads: seq<Instr>, k: seq<Instr>)
    requires AllLoads(loads) && !OpensWindow(loads, k)
    ensures Peep(loads + k) == loads + Peep(k)
    decreases |loads|
  {
    hide Peep, MatchesEqualityImm;
    if loads == [] {
      assert loads + k == k;
    } else {
      var i, rest := loads[0], loads[1..];
      assert i in loads;
      assert loads == [i] + rest && loads + k == [i] + (rest + k);
      assert AllLoads(rest) by { assert forall j :: j in rest ==> j in loads; }
      if rest == [] {
        assert rest + k == k && loads == [i];
      } else {
        assert rest[0] in loads && (rest + k)[0] == rest[0];
        assert rest[|rest| - 1] == loads[|loads| - 1];
        NoSub(i, rest + k);
      }
      LoadCopied(i, rest + k);
      PeepLoads(rest, k);
    }
  }

  lemma NoSub(i: Instr, k: seq<Instr>)
    requires k != [] && IsLoad(k[0])
    ensures !MatchesEqualityImm([i] + k)
  {
    assert ([i] + k)[1] == k[0];
  }

  lemma LoadCopied(i: Instr, k: seq<Instr>)
    requires IsLoad(i) && !MatchesEqualityImm([i] + k)
    ensures Peep([i] + k) == [i] + Peep(k)
  {
    hide Peep, MatchesEqualityImm;
    assert Choose([i] + k) == Copy;
    PeepUnfold([i] + k);
    assert ([i] + k)[1..] == k;
  }

  // ---- the window at the comparison ----

  /** A rewritten window behind loads that stay: what comes out decides as the replacement does. */
  lemma WindowRuns(loads: seq<Instr>, pat: Pattern, k: seq<Instr>, s: State, q: seq<Instr>, calls: Calls)
    returns (m: nat, t: State)
    requires AllLoads(loads) && !OpensWindow(loads, k) && k != [] && Choose(k) == Rewrite(pat) && Matches(pat, k) &&
             WellUsed(pat, k)
    ensures SameOutside(Run(loads, s), t, Dropped(pat, k))
    ensures Exec(q, Peep(loads + k), s, m, calls) ==
            BranchTo(q, NewDecision(pat, k, Run(loads, s)), k[Length(pat) - 1].target, Peep(k[Length(pat)..]), t)
  {
    hide Peep, Run, Replacement, Matches, Choose, Dropped, Compared, TruthReg, OpensWindow, R;
    WindowStraight(pat, k);
    var r, u, rest := Replacement(pat, k), Run(loads, s), k[Length(pat)..];
    PeepLoads(loads, k);
    PeepUnfold(k);
    ReplacementFrame(pat, k, u, u);
    t := Run(r[..|r| - 1], u);
    assert r == r[..|r| - 1] + [r[|r| - 1]];
    assert Peep(loads + k) == (loads + r[..|r| - 1]) + [r[|r| - 1]] + Peep(rest);
    RunAppend(loads, r[..|r| - 1], s);
    assert forall i :: i in loads ==> IsStraight(i);
    ExecBranch(q, loads + r[..|r| - 1], r[|r| - 1], Peep(rest), s, calls);
    m := |loads + r[..|r| - 1]| + 1;
  }

  /** A comparison no window takes: it is copied, and decides as written. */
  lemma CopiedRuns(loads: seq<Instr>, core: seq<Instr>, b: Instr, rest: seq<Instr>, s: State, q: seq<Instr>,
                   calls: Calls)
    returns (m: nat)
    requires AllLoads(loads) && !OpensWindow(loads, core + [b] + rest) && b.BrZ?
    requires (forall i :: i in core ==> IsStraight(i)) && Peep(core + [b] + rest) == core + [b] + Peep(rest)
    ensures var t := Run(loads + core, s);
            Exec(q, Peep(loads + (core + [b] + rest)), s, m, calls) ==
            BranchTo(q, BranchHolds(b, t), b.target, Peep(rest), t)
  {
    hide Peep, Run, OpensWindow, R;
    PeepLoads(loads, core + [b] + rest);
    assert loads + (core + [b] + Peep(rest)) == (loads + core) + [b] + Peep(rest);
    assert forall i :: i in loads + core ==> IsStraight(i);
    ExecBranch(q, loads + core, b, Peep(rest), s, calls);
    m := |loads + core| + 1;
  }

  /** The part of the comparison a window covers, and the loads before it. */
  datatype Cut = Cut(loads: seq<Instr>, core: seq<Instr>, choice: Choice)

  function CutOf(f: StackFrame, inst: IrInst, last: bool): Cut
    requires CompareShaped(inst)
  {
    var loads, core := LoadLines(f, inst), CoreCode(f, inst);
    var n := |loads| - 1;
    if core[0].Alu? then
      if core[0].aop == Sub && n >= 0 && loads[n].Li? && loads[n].rd == T(1) && -2047 <= loads[n].imm <= 2048 &&
        core[0].rs2 == T(1) then
        Cut(loads[..n], [loads[n]] + core, Rewrite(EqualityImm))
      else
        Cut(loads, core, Rewrite(if core[0].aop == Sub then Equality else if |core| == 1 then Less else NotLess))
    else if |core| == 2 then Cut(loads, core, if core[0].imm == -2048 then Copy else Rewrite(NotLessImm))
    else Cut(loads, core, if (core[0].imm == 0 || core[0].imm == 1) && !last then Rewrite(SignTest) else Copy)
  }

  predicate CutFits(c: Cut, b: Instr, rest: seq<Instr>)
  {
    var k := c.core + [b] + rest;
    && AllLoads(c.loads) && !OpensWindow(c.loads, k) && Choose(k) == c.choice
    && (c.choice.Rewrite? ==>
          Length(c.choice.pat) == |c.core| + 1 && Matches(c.choice.pat, k) && WellUsed(c.choice.pat, k))
    && (!c.choice.Rewrite? ==> (forall i :: i in c.core ==> IsStraight(i)) && Peep(k) == c.core + [b] + Peep(rest))
  }

  predicate ZeroBranch(b: Instr) { b.BrZ? && b.rs == T(0) && (b.ztest == Eqz || b.ztest == Nez) }

  predicate Starts(k: seq<Instr>, lines: seq<Instr>)
  {
    |k| >= |lines| && forall i :: 0 <= i < |lines| ==> k[i] == lines[i]
  }

  lemma OrderWindow(a: Reg, b: Reg, flip: bool, br: Instr, k: seq<Instr>)
    requires ZeroBranch(br)
    requires Starts(k, [Alu(Slt, T(0), a, b)] + (if flip then [AluI(Xori, T(0), T(0), 1)] else []) + [br])
    ensures var pat := if flip then NotLess else Less; Choose(k) == Rewrite(pat) && Matches(pat, k) && WellUsed(pat, k)
  {
    assert k[0] == Alu(Slt, T(0), a, b);
    assert flip ==> k[1] == AluI(Xori, T(0), T(0), 1) && k[2] == br;
    assert !flip ==> k[1] == br;
  }

  lemma EqualityHere(a: Reg, b: Reg, test: Instr, br: Instr, k: seq<Instr>)
    requires ZeroBranch(br) && TestsZero(test, T(0)) && Starts(k, [Alu(Sub, T(0), a, b), test, br])
    ensures Choose(k) == Rewrite(Equality) && Matches(Equality, k) && WellUsed(Equality, k)
  {
    assert k[0] == Alu(Sub, T(0), a, b) && k[1] == test && k[2] == br;
  }

  lemma EqualityImmHere(v: int, a: Reg, test: Instr, br: Instr, k: seq<Instr>)
    requires ZeroBranch(br) && TestsZero(test, T(0)) && -2047 <= v <= 2048 && a != T(1)
    requires Starts(k, [Li(T(1), v), Alu(Sub, T(0), a, T(1)), test, br])
    ensures Choose(k) == Rewrite(EqualityImm) && Matches(EqualityImm, k) && WellUsed(EqualityImm, k)
  {
    assert k[0] == Li(T(1), v) && k[1] == Alu(Sub, T(0), a, T(1)) && k[2] == test && k[3] == br;
  }

  lemma OrderImmHere(v: int, a: Reg, br: Instr, k: seq<Instr>)
    requires ZeroBranch(br) && Starts(k, [AluI(Slti, T(0), a, v), AluI(Xori, T(0), T(0), 1), br])
    ensures v != -2048 ==> Choose(k) == Rewrite(NotLessImm) && Matches(NotLessImm, k) && WellUsed(NotLessImm, k)
    ensures v == -2048 ==> Choose(k) == Copy
    ensures Choose(k[1..]) == Copy
  {
    assert k[0] == AluI(Slti, T(0), a, v) && k[1] == AluI(Xori, T(0), T(0), 1) && k[2] == br;
    assert k[1..][0] == k[1];
  }

  lemma SignHere(v: int, a: Reg, br: Instr, k: seq<Instr>)
    requires ZeroBranch(br) && Starts(k, [AluI(Slti, T(0), a, v), br])
    ensures (v == 0 || v == 1) && |k| > 2 ==>
            Choose(k) == Rewrite(SignTest) && Matches(SignTest, k) && WellUsed(SignTest, k)
    ensures !((v == 0 || v == 1) && |k| > 2) ==> Choose(k) == Copy
  {
    assert k[0] == AluI(Slti, T(0), a, v) && k[1] == br;
  }

  /** Lines none of which the scan changes. */
  lemma {:induction false} PeepCopies(core: seq<Instr>, b: Instr, rest: seq<Instr>)
    requires b.BrZ?
    requires forall i :: 0 <= i < |core| ==> Choose(core[i..] + [b] + rest) == Copy
    ensures Peep(core + [b] + rest) == core + [b] + Peep(rest)
    decreases |core|
  {
    hide Peep, Choose;
    if core == [] {
      assert [] + [b] + rest == [b] + rest && ([b] + rest)[1..] == rest;
      BranchCopied(b, rest);
      PeepUnfold([b] + rest);
    } else {
      var k, more := core + [b] + rest, core[1..];
      assert core[0..] + [b] + rest == k;
      PeepUnfold(k);
      assert k[1..] == more + [b] + rest && core == [core[0]] + more;
      forall i | 0 <= i < |more| ensures Choose(more[i..] + [b] + rest) == Copy {
        assert more[i..] == core[i + 1..];
      }
      PeepCopies(more, b, rest);
    }
  }

  lemma BranchCopied(b: Instr, rest: seq<Instr>)
    requires b.BrZ?
    ensures Choose([b] + rest) == Copy
  {
  }

  /** The two shapes of a comparison through an order test or a difference of registers. */
  predicate AluShape(core: seq<Instr>, a: Reg)
  {
    && |core| >= 1 && core[0].Alu? && core[0].rd == T(0)
    && (if core[0].aop == Sub then core[0].rs1 == a && |core| == 2 && TestsZero(core[1], T(0))
        else core[0].aop == Slt && (core[1..] == [] || core[1..] == [AluI(Xori, T(0), T(0), 1)]))
  }

  lemma CoreShape(f: StackFrame, inst: IrInst)
    requires CompareShaped(inst) && CoreCode(f, inst)[0].Alu?
    ensures AluShape(CoreCode(f, inst), Src1Reg(f, inst.src1, T(0)))
  {
    hide Src1Reg, Src2Reg, ConstantReg;
  }

  lemma AluCut(f: StackFrame, inst: IrInst, b: Instr, rest: seq<Instr>)
    requires CompareShaped(inst) && ZeroBranch(b) && AllLoads(LoadLines(f, inst)) && Src1Reg(f, inst.src1, T(0)) != T(1)
    requires CoreCode(f, inst)[0].Alu?
    ensures var c := CutOf(f, inst, rest == []);
            CutFits(c, b, rest) && c.loads + c.core == LoadLines(f, inst) + CoreCode(f, inst)
  {
    hide CoreCode, Src1Reg, LoadLines, Peep, Choose, Matches, WellUsed;
    CoreShape(f, inst);
    var c := CutOf(f, inst, rest == []);
    var loads, core := LoadLines(f, inst), CoreCode(f, inst);
    var k := c.core + [b] + rest;
    if c.choice == Rewrite(EqualityImm) {
      var n := |loads| - 1;
      assert loads == loads[..n] + [loads[n]];
      EqualityImmHere(loads[n].imm, core[0].rs1, core[1], b, k);
      assert forall i :: i in c.loads ==> i in loads;
    } else if core[0].aop == Sub {
      EqualityHere(core[0].rs1, core[0].rs2, core[1], b, k);
    } else {
      assert core == [core[0]] + core[1..];
      OrderWindow(core[0].rs1, core[0].rs2, |core| == 2, b, k);
    }
  }

  lemma ImmediateCut(f: StackFrame, inst: IrInst, b: Instr, rest: seq<Instr>)
    requires CompareShaped(inst) && ZeroBranch(b) && AllLoads(LoadLines(f, inst))
    requires !CoreCode(f, inst)[0].Alu?
    ensures var c := CutOf(f, inst, rest == []);
            CutFits(c, b, rest) && c.loads + c.core == LoadLines(f, inst) + CoreCode(f, inst)
  {
    hide Src1Code, Src2Code, Peep, Src2Reg, Choose, Matches, WellUsed, ConstantReg, Src1Reg, LoadLines;
    var c := CutOf(f, inst, rest == []);
    var core := CoreCode(f, inst);
    var k := c.core + [b] + rest;
    assert core[0..] + [b] + rest == k;
    if |core| == 2 {
      OrderImmHere(core[0].imm, core[0].rs, b, k);
      assert core[1..] + [b] + rest == k[1..];
    } else {
      SignHere(core[0].imm, core[0].rs, b, k);
    }
    if c.choice == Copy { PeepCopies(core, b, rest); }
  }

  lemma CutIsRight(f: StackFrame, inst: IrInst, b: Instr, rest: seq<Instr>)
    requires CompareShaped(inst) && OperandOk(f, inst.src1) && OperandOk(f, inst.src2) && ZeroBranch(b)
    requires forall c :: c in f.constantRegAlloc ==> f.constantRegAlloc[c] !in {T(0), T(1)}
    ensures var c := CutOf(f, inst, rest == []);
            CutFits(c, b, rest) && c.loads + c.core == LoadLines(f, inst) + CoreCode(f, inst)
  {
    hide OperandOk, CutOf, CutFits, LoadLines, CoreCode, Src1Reg;
    LoadsAreLoads(f, inst);
    SourceNotT1(f, inst.src1);
    if CoreCode(f, inst)[0].Alu? {
      AluCut(f, inst, b, rest);
    } else {
      ImmediateCut(f, inst, b, rest);
    }
  }

  lemma SourceNotT1(f: StackFrame, o: Operand)
    requires IsValue(o) && OperandOk(f, o)
    requires forall c :: c in f.constantRegAlloc ==> f.constantRegAlloc[c] !in {T(0), T(1)}
    ensures Src1Reg(f, o, T(0)) != T(1)
  {
  }

  // ---- the decision ----

  /** The order comparison against a small immediate, whose window subtracts, and where that wraps. */
  predicate Wraps(f: StackFrame, inst: IrInst, s: State)
    requires CompareShaped(inst)
  {
    && inst.op.GE? && IsSmallImm(inst.src2) && inst.src2.immVal != -2048
    && !FitsInt32(Val(f, s, inst.src1) - inst.src2.immVal)
  }

  predicate TakenInIr(f: StackFrame, inst: IrInst, br: IrInst, s: State)
    requires CompareShaped(inst)
  {
    var v := Bit(Compares(inst.op, Val(f, s, inst.src1), Val(f, s, inst.src2)));
    if br.op.BEQZ? then v == 0 else v != 0
  }

  /** The decision of the window found, in the state its loads leave. */
  predicate CutDecides(c: Cut, b: Instr, rest: seq<Instr>, s: State)
    requires CutFits(c, b, rest) && b.BrZ?
  {
    if c.choice.Rewrite? then NewDecision(c.choice.pat, c.core + [b] + rest, Run(c.loads, s))
    else BranchHolds(b, Run(c.loads + c.core, s))
  }

  lemma CutRuns(c: Cut, b: Instr, rest: seq<Instr>, s: State, q: seq<Instr>, calls: Calls)
    returns (m: nat, t: State)
    requires CutFits(c, b, rest) && ZeroBranch(b)
    ensures Exec(q, Peep(c.loads + c.core + [b] + rest), s, m, calls) ==
            BranchTo(q, CutDecides(c, b, rest, s), b.target, Peep(rest), t)
    ensures SameOutside(Run(c.loads + c.core, s), t, {T(0), T(1)})
  {
    hide Peep, Run, OpensWindow, R, Matches, WellUsed, Choose, Exec, NewDecision, BranchHolds;
    var k := c.core + [b] + rest;
    assert c.loads + c.core + [b] + rest == c.loads + k;
    if c.choice.Rewrite? {
      var pat := c.choice.pat;
      assert k[Length(pat) - 1] == b && k[Length(pat)..] == rest && k[..Length(pat) - 1] == c.core;
      m, t := WindowRuns(c.loads, pat, k, s, q, calls);
      RunAppend(c.loads, c.core, s);
      DroppedSame(pat, k, Run(c.loads, s), Run(c.loads + c.core, s), t);
    } else {
      m := CopiedRuns(c.loads, c.core, b, rest, s, q, calls);
      t := Run(c.loads + c.core, s);
    }
  }

  lemma DroppedSame(pat: Pattern, k: seq<Instr>, u: State, v: State, t: State)
    requires Matches(pat, k) && WellUsed(pat, k) && TruthReg(pat, k) == T(0)
    requires v == Run(k[..Length(pat) - 1], u) && SameOutside(u, t, Dropped(pat, k))
    ensures SameOutside(v, t, {T(0), T(1)})
  {
    hide Run, R, OldDecision, NewDecision;
    match pat
    case Less => LessWindow(k, u);
    case Equality => EqualityWindow(k, u);
    case NotLess => NotLessWindow(k, u);
    case EqualityImm => EqualityImmWindow(k, u);
    case NotLessImm => NotLessImmWindow(k, u);
    case SignTest => SignTestWindow(k, u);
  }

  /** Whether the replacement decides as the window did. */
  lemma CutAgrees(c: Cut, b: Instr, rest: seq<Instr>, s: State)
    requires CutFits(c, b, rest) && ZeroBranch(b)
    ensures c.choice != Rewrite(NotLessImm) ==>
              CutDecides(c, b, rest, s) == BranchHolds(b, Run(c.loads + c.core, s))
    ensures c.choice == Rewrite(NotLessImm) && Fits12(c.core[0].imm) ==>
              (CutDecides(c, b, rest, s) == BranchHolds(b, Run(c.loads + c.core, s)) <==>
               FitsInt32(R(Run(c.loads, s), c.core[0].rs) - c.core[0].imm))
  {
    hide Run, R, BranchHolds, Choose, OpensWindow, Peep, NewDecision, WellUsed, Matches;
    if c.choice.Rewrite? {
      var pat, k, u := c.choice.pat, c.core + [b] + rest, Run(c.loads, s);
      assert k[Length(pat) - 1] == b && k[..Length(pat) - 1] == c.core;
      RunAppend(c.loads, c.core, s);
      assert OldDecision(pat, k, u) == BranchHolds(b, Run(c.loads + c.core, s));
      if pat == NotLessImm {
        ImmAgrees(k, u);
      } else {
        WindowDecides(pat, k, u);
      }
    }
  }

  lemma ImmAgrees(k: seq<Instr>, u: State)
    requires Matches(NotLessImm, k) && WellUsed(NotLessImm, k)
    ensures Fits12(k[0].imm) ==>
              (OldDecision(NotLessImm, k, u) == NewDecision(NotLessImm, k, u) <==> FitsInt32(R(u, k[0].rs) - k[0].imm))
  {
    hide OldDecision, NewDecision, R;
    NotLessImmWindow(k, u);
  }

  /** When the window found is the one that subtracts, and what it subtracts. */
  lemma SubtractingCut(f: StackFrame, inst: IrInst, last: bool)
    requires CompareShaped(inst)
    ensures var c := CutOf(f, inst, last);
            && (c.choice == Rewrite(NotLessImm) <==> inst.op.GE? && IsSmallImm(inst.src2) && inst.src2.immVal != -2048)
            && (c.choice == Rewrite(NotLessImm) ==>
                  c.core[0] == AluI(Slti, T(0), Src1Reg(f, inst.src1, T(0)), inst.src2.immVal) &&
                  c.loads == LoadLines(f, inst))
  {
    hide LoadLines, Src1Reg, Src2Reg, ConstantReg;
  }

  /**
    Main result: the emitted comparison and branch, put through the peephole pass, run to the branch of the
    intermediate representation. It is taken exactly when the comparison says so, for all six relations and every
    placement of the operands, except that a comparison at least a small immediate is decided rightly if and only
    if the difference fits in 32 bits. Only scratch registers change.
   */
  lemma FusedAfterPeephole(f: StackFrame, inst: IrInst, br: IrInst, target: string, rest: seq<Instr>, s: State,
                           q: seq<Instr>, calls: Calls)
    returns (m: nat, taken: bool, t: State)
    requires CompareShaped(inst) && CompareReady(f, inst, T(0), s) && (br.op.BEQZ? || br.op.BNEZ?)
    requires forall c :: c in f.constantRegAlloc ==> f.constantRegAlloc[c] != T(1)
    ensures var code := CompareCode(f, inst, T(0)) + [BrZ(BranchTest(br.op), T(0), target)] + rest;
            Exec(q, Peep(code), s, m, calls) == BranchTo(q, taken, target, Peep(rest), t)
    ensures SameBut(s, t, false)
    ensures taken == TakenInIr(f, inst, br, s) <==> !Wraps(f, inst, s)
  {
    hide CompareCode, CutOf, CutFits, LoadLines, CoreCode, Peep, Exec, Run, R, OperandOk, Compares, SameOutside,
         Src1Reg, Val, ConstantsHold;
    var b := BrZ(BranchTest(br.op), T(0), target);
    var c := CutOf(f, inst, rest == []);
    CompareParts(f, inst);
    CutIsRight(f, inst, b, rest);
    assert c.loads + c.core == CompareCode(f, inst, T(0));
    taken := CutDecides(c, b, rest, s);
    m, t := CutRuns(c, b, rest, s, q, calls);
    FusedBranchTaken(f, inst, br, s);
    SameAfter(s, Run(CompareCode(f, inst, T(0)), s), t);
    SubtractingCut(f, inst, rest == []);
    CutAgrees(c, b, rest, s);
    if c.choice == Rewrite(NotLessImm) { SourceRead(f, inst, s); }
  }

  lemma SameAfter(s: State, u: State, t: State)
    requires SameBut(s, u, false) && SameOutside(u, t, {T(0), T(1)})
    ensures SameBut(s, t, false)
  {
  }

  lemma SourceRead(f: StackFrame, inst: IrInst, s: State)
    requires CompareShaped(inst) && CompareReady(f, inst, T(0), s) && inst.op.GE? && IsSmallImm(inst.src2)
    ensures R(Run(LoadLines(f, inst), s), Src1Reg(f, inst.src1, T(0))) == Val(f, s, inst.src1)
  {
    hide Run, R, Src1Code, Src2Code, Src1Reg, Src2Reg, OperandOk, Val;
    SourcesLoaded(f, inst.src1, inst.src2, T(0), s);
    assert LoadLines(f, inst) == Src2Code(f, inst.src2, T(0)) + Src1Code(f, inst.src1, T(0));
  }
}
