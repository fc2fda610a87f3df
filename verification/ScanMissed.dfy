/** A loop in which the value a fused chain no longer computes is read again above the chain, where the scan for later
    uses does not look. */
module ScanMissed {
  import opened Word
  import opened Ir
  import opened IrFlow
  import opened IrMachine
  import opened Rv32
  import opened Frame
  import opened Control
  import opened Allocation
  import opened FrameCode
  import opened Remainder
  import opened Body
  import opened FunctionSim
  import opened NormRem
  import opened LeafUnits
  import BinaryOp
  import BodyFlow
  import Liveness

  /** t = 9; n = 2; L: x = t; t = x % 4; t = t + 4; z = t % 4; n = n - 1; if n goto L; return x */
  function TwicePastChain(): seq<IrInst>
  {
    [IrInst(ASSIGN, Local("t"), Imm(9), NoOperand),
     IrInst(ASSIGN, Local("n"), Imm(2), NoOperand),
     IrInst(LABEL, Label("L"), NoOperand, NoOperand),
     IrInst(ASSIGN, Local("x"), Local("t"), NoOperand),
     IrInst(MOD, Local("t"), Local("x"), Imm(4)),
     IrInst(ADD, Local("t"), Local("t"), Imm(4)),
     IrInst(MOD, Local("z"), Local("t"), Imm(4)),
     IrInst(SUB, Local("n"), Local("n"), Imm(1)),
     IrInst(BNEZ, Label("L"), Local("n"), NoOperand),
     IrInst(RETURN, Local("x"), NoOperand, NoOperand)]
  }

  /** Each local is used in a block that does not define it, or never, so none is block-local. */
  function Registers(): map<string, Reg> { map["x" := A(0), "t" := A(1), "n" := A(2), "z" := A(3)] }

  function MissedUnit(): Unit { LeafUnit("f", TwicePastChain(), Registers(), map[]) }

  lemma NamesDiffer()
    ensures "x" != "t" && "x" != "n" && "x" != "z" && "t" != "n" && "t" != "z" && "n" != "z"
  {
    assert "x"[0] != "t"[0] && "x"[0] != "n"[0] && "x"[0] != "z"[0];
    assert "t"[0] != "n"[0] && "t"[0] != "z"[0] && "n"[0] != "z"[0];
  }

  lemma MissedLocals()
    ensures Locals(TwicePastChain()) <= {"x", "t", "n", "z"}
  {
    var ir := TwicePastChain();
    forall v | v in Locals(ir) ensures v in {"x", "t", "n", "z"} {
      var i :| 0 <= i < |ir| && v in LocalName(ir[i].dest) + LocalName(ir[i].src1) + LocalName(ir[i].src2);
    }
  }

  lemma MissedOwn(ir: seq<IrInst>)
    requires ir == TwicePastChain()
    ensures OwnRegisters(ir, Registers(), map[])
  {
    hide Locals, Incoming, ParamIndex, TwicePastChain, Registers;
    MissedLocals();
    MissedShape(ir);
    RegistersDiffer();
    NothingComesIn(ir, 10);
  }

  lemma MissedShape(ir: seq<IrInst>)
    requires ir == TwicePastChain()
    ensures |ir| == 10 && forall i :: 0 <= i < |ir| ==> !ir[i].op.PARAM? && !ir[i].op.CALL? && !DeclaresParam(ir[i])
  {
  }

  lemma RegistersDiffer()
    ensures forall u, v :: u in Registers() && v in Registers() && u != v ==> Registers()[u] != Registers()[v]
    ensures forall v :: v in Registers() ==> Registers()[v].A? && Registers()[v].n <= 7
    ensures Registers().Keys == {"x", "t", "n", "z"}
  {
    NamesDiffer();
  }

  lemma MissedTables()
    ensures TablesFor(TwicePastChain(), LeafFrame(Registers(), map[])) && FrameSize(LeafFrame(Registers(), map[])) == 0
  {
    hide Locals, TablesFor, FrameSize, Incoming, ParamIndex, OwnRegisters;
    MissedOwn(TwicePastChain());
    LeafTables(TwicePastChain(), Registers(), map[]);
  }

  // ---- the text ----

  lemma ChainHere()
    ensures MatchNormalized(TwicePastChain(), 4) == Some(Normalized(Local("x"), Local("z"), Local("t"), 4, 3))
  {
    var ir := TwicePastChain();
    assert MatchRaw(ir, 4) == Some(RawRemainder(Local("x"), Local("t"), 4, 1));
    assert MatchRaw(ir, 6) == Some(RawRemainder(Local("t"), Local("z"), 4, 1));
  }

  lemma ScanFinds()
    ensures !ScanLive(TwicePastChain(), 7, "t")
  {
    var ir := TwicePastChain();
    NamesDiffer();
    assert !ScanLive(ir, 10, "t");
    assert !ScanLive(ir, 9, "t");
    assert !ScanLive(ir, 8, "t");
  }

  lemma FourIsPower()
    ensures IsPowerOfTwo(4) && Ctz(4) == 2
  {
  }

  /** The chain is fused: two shifts of a copy. */
  lemma ChainFused()
    ensures FusesChain(MissedUnit(), 4) && ChainLength(MissedUnit(), 4) == 3
    ensures ChainCode(MissedUnit(), 4) == [Mv(A(3), A(0)), AluI(Slli, A(3), A(3), 30), AluI(Srli, A(3), A(3), 30)]
  {
    hide MatchNormalized, ScanLive, IsPowerOfTwo, Ctz, BinaryOp.BinaryCode;
    ChainHere();
    ScanFinds();
    FourIsPower();
    NamesDiffer();
  }

  lemma NoChainElsewhere(i: nat)
    requires i < 10 && i != 4
    ensures Alone(MissedUnit(), i)
  {
    hide MatchNormalized, UseCount;
    if FusesChain(MissedUnit(), i) {
      ChainOpens(TwicePastChain(), i);
      ChainLines(TwicePastChain(), i, i);
      ChainLines(TwicePastChain(), i, i + 1);
      ChainLines(TwicePastChain(), i, i + 2);
    }
  }

  lemma MissedLines()
    ensures var c := MissedUnit();
            InstCode(c, 0) == [Li(A(1), 9)] && InstCode(c, 1) == [Li(A(2), 2)]
  {
    hide BinaryOp.BinaryCode;
    NamesDiffer();
  }

  lemma MissedMoves()
    ensures var c := MissedUnit();
            InstCode(c, 2) == [Lab("L")] && InstCode(c, 3) == [Mv(A(0), A(1))]
  {
    hide BinaryOp.BinaryCode;
    NamesDiffer();
  }

  lemma MissedCount()
    ensures InstCode(MissedUnit(), 7) == [AluI(Addi, A(2), A(2), -1)]
  {
    hide IsPowerOfTwo, Ctz;
    NamesDiffer();
  }

  lemma MissedLast()
    ensures InstCode(MissedUnit(), 8) == [BrZ(Nez, A(2), "L")] && InstCode(MissedUnit(), 9) == [J(ExitLabel("f"))]
  {
    hide BinaryOp.BinaryCode, ExitLabel;
    NamesDiffer();
  }

  /** The lines of one pass through the loop, up to its branch. */
  function LoopLines(): seq<Instr>
  {
    [Lab("L"), Mv(A(0), A(1)), Mv(A(3), A(0)), AluI(Slli, A(3), A(3), 30), AluI(Srli, A(3), A(3), 30),
     AluI(Addi, A(2), A(2), -1)]
  }

  /** The lines behind the loop. */
  function LastLines(): seq<Instr> { [J(ExitLabel("f")), Lab(ExitLabel("f")), Ret] }

  function FirstLines(): seq<Instr> { [Lab("f"), Lab(BodyLabel("f")), Li(A(1), 9), Li(A(2), 2)] }

  /** Its whole text. */
  function MissedText(): seq<Instr> { FirstLines() + (LoopLines() + ([BrZ(Nez, A(2), "L")] + LastLines())) }

  lemma MissedCode()
    ensures FunctionCode(MissedUnit(), [], []) == MissedText()
  {
    hide InstCode, Alone, CodeFrom, FusesChain, ChainCode, ExitLabel, BodyLabel, FunctionCode;
    var c := MissedUnit();
    LeafText("f", TwicePastChain(), Registers(), map[]);
    MissedLines();
    MissedMoves();
    MissedCount();
    MissedLast();
    forall i: nat | i < 10 && i != 4 ensures CodeFrom(c, i) == InstCode(c, i) + CodeFrom(c, i + 1) {
      NoChainElsewhere(i);
      AloneCode(c, i);
    }
    ChainFused();
    ChainHead(c, 4);
    NothingLeft(c, 10);
    assert CodeFrom(c, 9) == LastLines();
    assert CodeFrom(c, 8) == [BrZ(Nez, A(2), "L")] + LastLines();
    assert CodeFrom(c, 2) == LoopLines() + CodeFrom(c, 8);
    assert CodeFrom(c, 0) == [Li(A(1), 9), Li(A(2), 2)] + CodeFrom(c, 2);
  }

  // ---- the machine ----

  /** One pass through the loop leaves t alone, and counts n down. */
  lemma LoopPass(p: seq<Instr>, s: State, calls: Calls)
    requires p == MissedText()
    ensures var t := Run(LoopLines(), s);
            && R(t, A(0)) == R(s, A(1)) && R(t, A(1)) == R(s, A(1)) && R(t, A(2)) == Wrap(R(s, A(2)) - 1)
            && Exec(p, LoopLines() + ([BrZ(Nez, A(2), "L")] + LastLines()), s, 7, calls) ==
               if R(t, A(2)) != 0 then At(LoopLines() + ([BrZ(Nez, A(2), "L")] + LastLines()), t)
               else At(LastLines(), t)
  {
    hide Exec, ExitLabel, BodyLabel, Run, R, MissedText, LoopLines, LastLines;
    var branch := [BrZ(Nez, A(2), "L")] + LastLines();
    var t := Run(LoopLines(), s);
    LoopState(s);
    LoopStraight();
    ExecStraight(p, LoopLines(), branch, s, calls);
    ExecSplit(p, LoopLines() + branch, s, 6, 1, calls);
    LoopFound();
    BranchStep(p, LastLines(), t, calls);
  }

  lemma LoopStraight()
    ensures |LoopLines()| == 6 && forall i :: i in LoopLines() ==> IsStraight(i)
  {
  }

  lemma LoopState(s: State)
    ensures var t := Run(LoopLines(), s);
            R(t, A(0)) == R(s, A(1)) && R(t, A(1)) == R(s, A(1)) && R(t, A(2)) == Wrap(R(s, A(2)) - 1)
  {
    hide Run, Wrap, Sll, Srl;
    var a, b := [Lab("L"), Mv(A(0), A(1)), Mv(A(3), A(0))], [AluI(Slli, A(3), A(3), 30), AluI(Srli, A(3), A(3), 30)];
    var d := [AluI(Addi, A(2), A(2), -1)];
    assert LoopLines() == a + b + d;
    RunAppend(a + b, d, s);
    RunAppend(a, b, s);
    Run3(Lab("L"), Mv(A(0), A(1)), Mv(A(3), A(0)), s);
    Run2(AluI(Slli, A(3), A(3), 30), AluI(Srli, A(3), A(3), 30), Run(a, s));
    Run1(AluI(Addi, A(2), A(2), -1), Run(a + b, s));
  }

  lemma BranchStep(p: seq<Instr>, k: seq<Instr>, t: State, calls: Calls)
    ensures Exec(p, [BrZ(Nez, A(2), "L")] + k, t, 1, calls) == if R(t, A(2)) != 0 then Goto(p, "L", t) else At(k, t)
  {
    assert ([BrZ(Nez, A(2), "L")] + k)[1..] == k;
    assert Exec(p, k, t, 0, calls) == At(k, t);
  }

  lemma LabelsDiffer()
    ensures ExitLabel("f") != "L" && BodyLabel("f") != "L" && "f" != "L" && ExitLabel("f") != BodyLabel("f")
    ensures ExitLabel("f") != "f"
  {
    BodyFlow.ExitIsNotBody("f");
    assert |ExitLabel("f")| > 1 && |BodyLabel("f")| > 1;
    assert "f"[0] != "L"[0];
  }

  lemma LoopFound()
    ensures HasLabel(MissedText(), "L")
    ensures After(MissedText(), "L") == LoopLines() + ([BrZ(Nez, A(2), "L")] + LastLines())
  {
    hide ExitLabel, BodyLabel, After, HasLabel;
    LabelsDiffer();
    var loop := LoopLines() + ([BrZ(Nez, A(2), "L")] + LastLines());
    AfterAppend(FirstLines(), loop, "L");
    assert loop == [Lab("L")] + loop[1..];
    BodyFlow.LandsHere("L", loop[1..]);
  }

  lemma ExitAt()
    ensures HasLabel(MissedText(), ExitLabel("f")) && After(MissedText(), ExitLabel("f")) == [Lab(ExitLabel("f")), Ret]
  {
    hide ExitLabel, BodyLabel, After, HasLabel;
    LabelsDiffer();
    var a := FirstLines() + LoopLines() + [BrZ(Nez, A(2), "L"), J(ExitLabel("f"))];
    ExitFound(a, ExitLabel("f"));
    assert a + [Lab(ExitLabel("f")), Ret] == MissedText();
  }

  lemma FirstRuns(p: seq<Instr>, k: seq<Instr>, s: State, calls: Calls)
    ensures Exec(p, FirstLines() + k, s, 4, calls) == At(k, W(W(s, A(1), 9), A(2), 2))
  {
    hide Exec, ExitLabel, BodyLabel;
    ExecStraight(p, FirstLines(), k, s, calls);
    assert FirstLines() == [Lab("f"), Lab(BodyLabel("f"))] + [Li(A(1), 9), Li(A(2), 2)];
    RunAppend([Lab("f"), Lab(BodyLabel("f"))], [Li(A(1), 9), Li(A(2), 2)], s);
    Run2(Lab("f"), Lab(BodyLabel("f")), s);
    Run2(Li(A(1), 9), Li(A(2), 2), s);
  }

  /** The text returns 9. */
  lemma MachineReturns(s: State, calls: Calls)
    ensures var x := Exec(MissedText(), MissedText(), s, 21, calls);
            x.Exit? && x.how == Returns && R(x.s, A(0)) == 9
  {
    hide Exec, ExitLabel, BodyLabel, Run, R, W, MissedText, LoopLines, LastLines, FirstLines, After, HasLabel;
    var p, loop := MissedText(), LoopLines() + ([BrZ(Nez, A(2), "L")] + LastLines());
    var s1 := W(W(s, A(1), 9), A(2), 2);
    var s2 := Run(LoopLines(), s1);
    var s3 := Run(LoopLines(), s2);
    assert p == FirstLines() + loop by { TextParts(); }
    assert R(s1, A(1)) == 9 && R(s1, A(2)) == 2 by { StartValues(s); }
    FirstRuns(p, loop, s, calls);
    ExecSplit(p, p, s, 4, 17, calls);
    LoopPass(p, s1, calls);
    ExecSplit(p, loop, s1, 7, 10, calls);
    LoopPass(p, s2, calls);
    ExecSplit(p, loop, s2, 7, 3, calls);
    ExitAt();
    assert LastLines() == [J(ExitLabel("f"))] + [Lab(ExitLabel("f")), Ret] by { LastParts(); }
    LeafReturns(p, ExitLabel("f"), [Lab(ExitLabel("f")), Ret], s3, calls);
  }

  lemma TextParts()
    ensures MissedText() == FirstLines() + (LoopLines() + ([BrZ(Nez, A(2), "L")] + LastLines()))
  {
  }

  lemma LastParts()
    ensures LastLines() == [J(ExitLabel("f"))] + [Lab(ExitLabel("f")), Ret]
  {
    hide ExitLabel;
  }

  lemma StartValues(s: State)
    ensures R(W(W(s, A(1), 9), A(2), 2), A(1)) == 9 && R(W(W(s, A(1), 9), A(2), 2), A(2)) == 2
  {
  }

  // ---- the intermediate representation ----

  predicate Holds(st: IrState, t: i32, n: i32)
  {
    "t" in st.locals && st.locals["t"] == t && "n" in st.locals && st.locals["n"] == n
  }

  /** What one pass through the loop makes of the locals. */
  function Passed(st: IrState, t: i32, n: i32): IrState
  {
    var r := Wrap(RvRem(t, 4) + 4);
    var x := Assign(st, Local("x"), t);
    Assign(Assign(Assign(Assign(x, Local("t"), RvRem(t, 4)), Local("t"), r), Local("z"), RvRem(r, 4)), Local("n"),
           Wrap(n - 1))
  }

  lemma FirstSteps(icalls: IrCalls, st: IrState, t: i32, n: i32)
    requires Holds(st, t, n)
    ensures var ir, x := TwicePastChain(), Assign(st, Local("x"), t);
            && IrStep(ir, {}, icalls, 2, st) == Goes(3, st) && IrStep(ir, {}, icalls, 3, st) == Goes(4, x)
            && IrStep(ir, {}, icalls, 4, x) == Goes(5, Assign(x, Local("t"), RvRem(t, 4)))
  {
    hide RvRem;
    NamesDiffer();
  }

  lemma SumSteps(icalls: IrCalls, st: IrState, a: i32)
    requires "t" in st.locals && st.locals["t"] == a
    ensures var ir, r := TwicePastChain(), Wrap(a + 4);
            && IrStep(ir, {}, icalls, 5, st) == Goes(6, Assign(st, Local("t"), r))
            && IrStep(ir, {}, icalls, 6, Assign(st, Local("t"), r)) ==
               Goes(7, Assign(Assign(st, Local("t"), r), Local("z"), RvRem(r, 4)))
  {
    hide RvRem, Wrap;
    NamesDiffer();
  }

  lemma CountStep(icalls: IrCalls, st: IrState, n: i32)
    requires "n" in st.locals && st.locals["n"] == n
    ensures IrStep(TwicePastChain(), {}, icalls, 7, st) == Goes(8, Assign(st, Local("n"), Wrap(n - 1)))
  {
    hide Wrap;
    NamesDiffer();
  }

  /** Six instructions of the loop. */
  lemma IrPass(icalls: IrCalls, st: IrState, t: i32, n: i32, k: nat)
    requires Holds(st, t, n) && k >= 6
    ensures IrRun(TwicePastChain(), {}, {}, icalls, 2, st, k) ==
            IrRun(TwicePastChain(), {}, {}, icalls, 8, Passed(st, t, n), k - 6)
  {
    hide IrRun, IrStep, RvRem, Wrap;
    var ir := TwicePastChain();
    NamesDiffer();
    var r := Wrap(RvRem(t, 4) + 4);
    var s1 := Assign(st, Local("x"), t);
    var s2 := Assign(s1, Local("t"), RvRem(t, 4));
    var s3 := Assign(s2, Local("t"), r);
    var s4 := Assign(s3, Local("z"), RvRem(r, 4));
    FirstSteps(icalls, st, t, n);
    SumSteps(icalls, s2, RvRem(t, 4));
    CountStep(icalls, s4, n);
    RunTakes(ir, {}, {}, icalls, 2, st, k, 3, st);
    RunTakes(ir, {}, {}, icalls, 3, st, k - 1, 4, s1);
    RunTakes(ir, {}, {}, icalls, 4, s1, k - 2, 5, s2);
    RunTakes(ir, {}, {}, icalls, 5, s2, k - 3, 6, s3);
    RunTakes(ir, {}, {}, icalls, 6, s3, k - 4, 7, s4);
    RunTakes(ir, {}, {}, icalls, 7, s4, k - 5, 8, Passed(st, t, n));
  }

  lemma StartSteps(icalls: IrCalls, st: IrState)
    ensures var ir, s1 := TwicePastChain(), Assign(st, Local("t"), 9);
            && IrStep(ir, {}, icalls, 0, st) == Goes(1, s1)
            && IrStep(ir, {}, icalls, 1, s1) == Goes(2, Assign(s1, Local("n"), 2))
  {
  }

  lemma BranchSteps(icalls: IrCalls, st: IrState, n: i32, x: i32)
    requires "n" in st.locals && st.locals["n"] == n && "x" in st.locals && st.locals["x"] == x
    ensures IrStep(TwicePastChain(), {}, icalls, 8, st) == Goes(if n != 0 then 2 else 9, st)
    ensures IrStep(TwicePastChain(), {}, icalls, 9, st) == Done(CallResult(Some(x), st.globals))
  {
    hide LabelPosition;
    assert LabelPosition(TwicePastChain(), "L") == Somewhere(2) by { LabelIsAt(TwicePastChain(), "L", 2, 10); }
  }

  lemma PassedValues(st: IrState, t: i32, n: i32)
    ensures var u := Passed(st, t, n);
            && Holds(u, Wrap(RvRem(t, 4) + 4), Wrap(n - 1)) && "x" in u.locals && u.locals["x"] == t
            && u.globals == st.globals
  {
    hide RvRem, Wrap;
    NamesDiffer();
  }

  lemma NineModFour()
    ensures Wrap(RvRem(9, 4) + 4) == 5 && Wrap(2 - 1) == 1 && Wrap(1 - 1) == 0
  {
  }

  /** The intermediate representation returns 5. */
  lemma IrReturns(icalls: IrCalls, st: IrState)
    ensures IrRun(TwicePastChain(), {}, {}, icalls, 0, st, 17) == Done(CallResult(Some(5), st.globals))
  {
    hide IrRun, IrStep, RvRem, Wrap, Passed;
    var ir := TwicePastChain();
    NamesDiffer();
    NineModFour();
    var s1 := Assign(st, Local("t"), 9);
    var s2 := Assign(s1, Local("n"), 2);
    var s3 := Passed(s2, 9, 2);
    var s4 := Passed(s3, 5, 1);
    StartSteps(icalls, st);
    RunTakes(ir, {}, {}, icalls, 0, st, 17, 1, s1);
    RunTakes(ir, {}, {}, icalls, 1, s1, 16, 2, s2);
    IrPass(icalls, s2, 9, 2, 15);
    PassedValues(s2, 9, 2);
    BranchSteps(icalls, s3, 1, 9);
    RunTakes(ir, {}, {}, icalls, 8, s3, 9, 2, s3);
    IrPass(icalls, s3, 5, 1, 8);
    PassedValues(s3, 5, 1);
    BranchSteps(icalls, s4, 0, 5);
    RunTakes(ir, {}, {}, icalls, 8, s4, 2, 9, s4);
    RunEnds(ir, {}, {}, icalls, 9, s4, 1, CallResult(Some(5), st.globals));
  }

  /**
    The scan below the chain finds no use of its intermediate value, and the chain is fused; but a jump it does not
    follow leads to a use. The function's value is 5, and its text returns 9.
   */
  lemma ScanMissed(icalls: IrCalls, st: IrState, s: State, calls: Calls)
    ensures TablesFor(MissedUnit().ir, MissedUnit().f) && MissedUnit().size == FrameSize(MissedUnit().f)
    ensures FusesChain(MissedUnit(), 4) && !ScanLive(TwicePastChain(), 7, "t") && JumpsToUse(TwicePastChain(), 7, "t")
    ensures IrRun(TwicePastChain(), {}, {}, icalls, 0, st, 17) == Done(CallResult(Some(5), st.globals))
    ensures var p := FunctionCode(MissedUnit(), [], []);
            && Exec(p, p, s, 21, calls).Exit? && Exec(p, p, s, 21, calls).how == Returns
            && R(Exec(p, p, s, 21, calls).s, A(0)) == 9
  {
    hide Exec, IrRun, FunctionCode, TablesFor, FrameSize, R, FusesChain, ScanLive, JumpsToUse;
    MissedTables();
    ChainFused();
    ScanFinds();
    UsedAbove();
    MissedCode();
    IrReturns(icalls, st);
    MachineReturns(s, calls);
  }

  lemma WaysBack()
    ensures var ir := TwicePastChain();
            && 3 in Successors(ir, 2) && 2 in Successors(ir, 8) && 8 in Successors(ir, 7)
            && !Defines(ir[2], "t") && !Defines(ir[8], "t") && !Defines(ir[7], "t")
            && "t" in UsedLocals(ir[3])
  {
    hide LabelPosition;
    NamesDiffer();
    assert LabelPosition(TwicePastChain(), "L") == Somewhere(2) by { LabelIsAt(TwicePastChain(), "L", 2, 10); }
  }

  lemma UsedAbove()
    ensures JumpsToUse(TwicePastChain(), 7, "t")
  {
    hide JumpsToUse, ScanLive, Successors, Defines, UsedLocals, Liveness.PathLive;
    var ir := TwicePastChain();
    ScanFinds();
    WaysBack();
    Liveness.PathHere(ir, 3, "t");
    Liveness.PathBefore(ir, 2, 3, "t");
    Liveness.PathBefore(ir, 8, 2, "t");
    Liveness.PathBefore(ir, 7, 8, "t");
    ScanExactly(ir, 7, "t");
  }
}
