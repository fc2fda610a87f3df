/** A comparison that is not fused with the branch below it, and whose result is still wanted: the pass loses it. */
module TruthLost {
  import opened Word
  import opened Ir
  import opened IrFlow
  import opened IrMachine
  import opened Rv32
  import opened Frame
  import opened Control
  import opened Liveness
  import opened TempRanges
  import opened Allocation
  import opened FrameCode
  import opened Remainder
  import opened Body
  import opened Homes
  import opened FunctionSim
  import opened NonNeg
  import opened NonNegSound
  import opened TailCall
  import opened Peephole
  import opened TextLive
  import opened BodyLive
  import opened DeadTests
  import opened WholeProgram
  import opened Generated
  import opened LeafUnits
  import BinaryOp
  import BodyFlow

  /** `int f(int a, int b) { int x = a < b; if (x) {} return x; }` */
  function TestedThenReturned(): seq<IrInst>
  {
    [IrInst(LOCAL_VAR_DECL, Local("a"), Param("a"), NoOperand),
     IrInst(LOCAL_VAR_DECL, Local("b"), Param("b"), NoOperand),
     IrInst(LT, Local("x"), Local("a"), Local("b")),
     IrInst(BEQZ, Label("L"), Local("x"), NoOperand),
     IrInst(LABEL, Label("L"), NoOperand, NoOperand),
     IrInst(RETURN, Local("x"), NoOperand, NoOperand)]
  }

  /** Both parameters are needed in the first block only, and get t-registers; the result is coloured a0. */
  function LostFrame(): StackFrame
  {
    StackFrame(false, false, 0, 0, map["a" := -1, "b" := -1, "x" := -1], map[], map["x" := A(0)], map[],
               map["a" := T(3), "b" := T(4)], map[], [])
  }

  function LostUnit(): Unit
  {
    Unit("f", TestedThenReturned(), LostFrame(), 0, {}, {}, false, AfterCode("f", LostFrame(), 0, []))
  }

  lemma NamesDiffer()
    ensures "x" != "a" && "x" != "b" && "a" != "b"
  {
    assert "x"[0] != "a"[0] && "x"[0] != "b"[0] && "a"[0] != "b"[0];
  }

  // ---- the tables ----

  lemma FirstBlock(ir: seq<IrInst>)
    requires ir == TestedThenReturned()
    ensures BlockOf(ir, 0) == BlockOf(ir, 1) == BlockOf(ir, 2) == 0
  {
    assert BlockOf(ir, 0) == 0 && BlockOf(ir, 1) == 0;
  }

  lemma LostTemps(ir: seq<IrInst>, f: StackFrame)
    requires ir == TestedThenReturned() && f == LostFrame()
    ensures TempsOk(ir, f.tempRegs)
  {
    hide BlockOf, IsCandidate, SomeOverlap;
    FirstBlock(ir);
    NamesDiffer();
    SpanCandidate(ir, "a", 0, 2);
    SpanCandidate(ir, "b", 1, 2);
    assert T(3) in TempRegisters(ir) && T(4) in TempRegisters(ir);
  }

  lemma LostLocals()
    ensures Locals(TestedThenReturned()) == {"x", "a", "b"}
  {
    var ir := TestedThenReturned();
    forall v | v in Locals(ir) ensures v in {"x", "a", "b"} {
      var i :| 0 <= i < |ir| && v in LocalName(ir[i].dest) + LocalName(ir[i].src1) + LocalName(ir[i].src2);
      assert i == 0 || i == 1 || i == 2 || i == 3 || i == 4 || i == 5;
    }
    assert "x" in LocalName(ir[2].dest) + LocalName(ir[2].src1) + LocalName(ir[2].src2);
    assert "a" in LocalName(ir[2].dest) + LocalName(ir[2].src1) + LocalName(ir[2].src2);
    assert "b" in LocalName(ir[2].dest) + LocalName(ir[2].src1) + LocalName(ir[2].src2);
  }

  lemma LostCounts(ir: seq<IrInst>)
    requires ir == TestedThenReturned()
    ensures ParamIndex(ir, 0) == 0 && ParamIndex(ir, 1) == 1 && ParamIndex(ir, 6) == 2 && OverflowArgs(ir, 6) == 0
    ensures Incoming(ir, 6) == map["a" := 0, "b" := 1]
  {
    assert ParamIndex(ir, 2) == 2 && ParamIndex(ir, 4) == 2;
    assert OverflowArgs(ir, 2) == 0 && OverflowArgs(ir, 4) == 0;
    assert Incoming(ir, 1) == map["a" := 0];
    assert Incoming(ir, 2) == map["a" := 0, "b" := 1];
    assert Incoming(ir, 4) == Incoming(ir, 2);
  }

  lemma LostDefinitions(ir: seq<IrInst>, f: StackFrame)
    requires ir == TestedThenReturned() && f == LostFrame()
    ensures DefinitionsSafe(ir, f)
  {
    hide Locals, LiveAfterInst;
    NamesDiffer();
    LostLocals();
    forall i, d, w | 0 <= i < |ir| && Disturbs(ir, i, d, w) ensures PlacesDiffer(f, d, w) {
      DefinedIsLocal(ir, i, d);
      LiveIsLocal(ir, i, w);
    }
  }

  lemma LostRegisters(ir: seq<IrInst>, f: StackFrame)
    requires f == LostFrame()
    ensures TablesOk(f) && RegistersSafe(ir, f)
  {
    NamesDiffer();
  }

  lemma LostFits(ir: seq<IrInst>, f: StackFrame)
    requires ir == TestedThenReturned() && f == LostFrame()
    ensures FrameFits(ir, f)
  {
    hide Locals, ParamIndex, OverflowArgs;
    NamesDiffer();
    LostLocals();
    LostCounts(ir);
  }

  /** The analysis may place the locals so; no frame is needed. */
  lemma LostTables()
    ensures TablesFor(TestedThenReturned(), LostFrame()) && FrameSize(LostFrame()) == 0
  {
    hide DefinitionsSafe, Locals, Incoming, ParamIndex, OverflowArgs, FrameFits, RegistersSafe, TablesOk, TempsOk;
    var ir, f := TestedThenReturned(), LostFrame();
    LostCounts(ir);
    LostRegisters(ir, f);
    LostFits(ir, f);
    LostDefinitions(ir, f);
    LostTemps(ir, f);
  }

  // ---- the text ----

  function LostCode(): seq<seq<Instr>>
  {
    [[Mv(T(3), A(0))], [Mv(T(4), A(1))], [Alu(Slt, A(0), T(3), T(4))], [BrZ(Eqz, A(0), "L")], [Lab("L")],
     [J(ExitLabel("f"))]]
  }

  lemma DeclLines()
    ensures InstCode(LostUnit(), 0) == [Mv(T(3), A(0))] && InstCode(LostUnit(), 1) == [Mv(T(4), A(1))]
  {
    hide ParamIndex, BinaryOp.BinaryCode;
    LostCounts(TestedThenReturned());
    NamesDiffer();
  }

  lemma CompareLine()
    ensures InstCode(LostUnit(), 2) == [Alu(Slt, A(0), T(3), T(4))]
  {
    hide BinaryOp.BinaryCode;
    NamesDiffer();
  }

  lemma LastLines(i: nat)
    requires 3 <= i < 6
    ensures InstCode(LostUnit(), i) == LostCode()[i]
  {
    hide BinaryOp.BinaryCode, ExitLabel;
    NamesDiffer();
  }

  lemma LostLine(i: nat)
    requires i < 6
    ensures Alone(LostUnit(), i) && InstCode(LostUnit(), i) == LostCode()[i]
  {
    hide UseCount, ExitLabel, FusesChain, InstCode;
    NoChain(i);
    UsedTwice();
    if i < 2 { DeclLines(); } else if i == 2 { CompareLine(); } else { LastLines(i); }
  }

  lemma NoChain(i: nat)
    requires i < 6
    ensures !FusesChain(LostUnit(), i)
  {
    hide MatchNormalized;
    if FusesChain(LostUnit(), i) { ChainLines(TestedThenReturned(), i, i); }
  }

  /** The branch and the return both read x, so the comparison is not fused. */
  lemma UsedTwice()
    ensures UseCount(TestedThenReturned(), "x", 6) == 2
  {
    NamesDiffer();
    assert UseCount(TestedThenReturned(), "x", 2) == 0;
    assert UseCount(TestedThenReturned(), "x", 4) == 1;
  }

  /** The lines from the label L on. */
  function LostTail(): seq<Instr> { [Lab("L"), J(ExitLabel("f")), Lab(ExitLabel("f")), Ret] }

  function LostHead(): seq<Instr> { [Lab("f"), Lab(BodyLabel("f")), Mv(T(3), A(0)), Mv(T(4), A(1))] }

  /** Its whole text, as generated. */
  function LostText(): seq<Instr>
  {
    LostHead() + ([Alu(Slt, A(0), T(3), T(4)), BrZ(Eqz, A(0), "L")] + LostTail())
  }

  lemma LostBody()
    ensures CodeFrom(LostUnit(), 0) == LostText()[2..]
  {
    hide InstCode, Alone, CodeFrom, ExitLabel, BodyLabel;
    var c := LostUnit();
    forall i: nat | i < 6 ensures CodeFrom(c, i) == LostCode()[i] + CodeFrom(c, i + 1) {
      LostLine(i);
      AloneCode(c, i);
    }
    NothingLeft(c, 6);
    LostAfter();
    assert CodeFrom(c, 4 + 1) == [J(ExitLabel("f")), Lab(ExitLabel("f")), Ret];
    assert CodeFrom(c, 3 + 1) == LostTail();
    assert CodeFrom(c, 2 + 1) == [BrZ(Eqz, A(0), "L")] + LostTail();
    assert CodeFrom(c, 1 + 1) == [Alu(Slt, A(0), T(3), T(4)), BrZ(Eqz, A(0), "L")] + LostTail();
    assert CodeFrom(c, 0 + 1) == [Mv(T(4), A(1)), Alu(Slt, A(0), T(3), T(4)), BrZ(Eqz, A(0), "L")] + LostTail();
  }

  lemma LostAfter()
    ensures LostUnit().after == [Lab(ExitLabel("f")), Ret]
  {
    hide ExitLabel;
  }

  lemma LostWhole()
    ensures FunctionCode(LostUnit(), [], []) == LostText()
  {
    hide CodeFrom, ExitLabel, BodyLabel;
    LostBody();
    var c := LostUnit();
    assert BeforeCode("f", c.f, 0, [], []) == [Lab("f")];
    BeforeShape(c, [], []);
  }

  // ---- what the pass makes of it ----

  /** The comparison is gone. */
  function LostEmitted(): seq<Instr>
  {
    LostHead() + [Br(Ge, T(3), T(4), "L"), Lab("L"), Lab(ExitLabel("f")), Ret]
  }

  lemma CopyPeep(i: Instr, k: seq<Instr>)
    requires i.Lab? || (i.Mv? && i.rd != i.rs)
    ensures Peep([i] + k) == [i] + Peep(k)
  {
    hide Peep;
    PeepUnfold([i] + k);
    assert ([i] + k)[1..] == k;
  }

  lemma ExitPeep(l: string)
    ensures Peep([J(l), Lab(l), Ret]) == [Lab(l), Ret]
  {
    hide Peep;
    var k := [J(l), Lab(l), Ret];
    PeepUnfold(k);
    assert k[1..] == [Lab(l)] + [Ret];
    CopyPeep(Lab(l), [Ret]);
    PeepUnfold([Ret]);
    assert [Ret][1..] == [];
    PeepEmpty();
  }

  lemma ComparePeep(k: seq<Instr>)
    ensures Peep([Alu(Slt, A(0), T(3), T(4)), BrZ(Eqz, A(0), "L")] + k) == [Br(Ge, T(3), T(4), "L")] + Peep(k)
  {
    hide Peep;
    var lines := [Alu(Slt, A(0), T(3), T(4)), BrZ(Eqz, A(0), "L")] + k;
    PeepUnfold(lines);
    assert lines[2..] == k;
  }

  lemma LostPeep()
    ensures Peep(LostText()) == LostEmitted()
  {
    hide Peep, ExitLabel, BodyLabel;
    var e := [J(ExitLabel("f")), Lab(ExitLabel("f")), Ret];
    ExitPeep(ExitLabel("f"));
    CopyPeep(Lab("L"), e);
    assert LostTail() == [Lab("L")] + e;
    ComparePeep(LostTail());
    var k := [Alu(Slt, A(0), T(3), T(4)), BrZ(Eqz, A(0), "L")] + LostTail();
    CopyPeep(Mv(T(4), A(1)), k);
    CopyPeep(Mv(T(3), A(0)), [Mv(T(4), A(1))] + k);
    CopyPeep(Lab(BodyLabel("f")), [Mv(T(3), A(0))] + ([Mv(T(4), A(1))] + k));
    CopyPeep(Lab("f"), [Lab(BodyLabel("f"))] + ([Mv(T(3), A(0))] + ([Mv(T(4), A(1))] + k)));
    assert LostText() == [Lab("f")] + ([Lab(BodyLabel("f"))] + ([Mv(T(3), A(0))] + ([Mv(T(4), A(1))] + k)));
  }

  // ---- runs ----

  /** Both parameters bound, then the comparison. */
  function Bound(args: Args, globals: Globals): IrState
    requires 0 in args && 1 in args
  {
    Assign(Assign(Entry(args, globals), Local("a"), args[0]), Local("b"), args[1])
  }

  function Compared(args: Args, globals: Globals): IrState
    requires 0 in args && 1 in args
  {
    Assign(Bound(args, globals), Local("x"), Bit(args[0] < args[1]))
  }

  lemma BindSteps(icalls: IrCalls, args: Args, globals: Globals)
    requires 0 in args && 1 in args
    ensures var ir, s1 := TestedThenReturned(), Assign(Entry(args, globals), Local("a"), args[0]);
            && IrStep(ir, {}, icalls, 0, Entry(args, globals)) == Goes(1, s1)
            && IrStep(ir, {}, icalls, 1, s1) == Goes(2, Bound(args, globals))
  {
    hide ParamIndex, LabelPosition, Computes;
    LostCounts(TestedThenReturned());
  }

  lemma CompareStep(icalls: IrCalls, args: Args, globals: Globals)
    requires 0 in args && 1 in args
    ensures IrStep(TestedThenReturned(), {}, icalls, 2, Bound(args, globals)) == Goes(3, Compared(args, globals))
  {
    hide ParamIndex, LabelPosition;
    NamesDiffer();
  }

  lemma LastSteps(icalls: IrCalls, args: Args, globals: Globals)
    requires 0 in args && 1 in args
    ensures var ir, s3, b := TestedThenReturned(), Compared(args, globals), Bit(args[0] < args[1]);
            && IrStep(ir, {}, icalls, 3, s3) == Goes(4, s3) && IrStep(ir, {}, icalls, 4, s3) == Goes(5, s3)
            && IrStep(ir, {}, icalls, 5, s3) == Done(CallResult(Some(b), globals))
  {
    hide ParamIndex, LabelPosition;
    assert LabelPosition(TestedThenReturned(), "L") == Somewhere(4) by { LabelIsAt(TestedThenReturned(), "L", 4, 6); }
  }

  /** The intermediate representation returns the comparison. */
  lemma LostIr(icalls: IrCalls, args: Args, globals: Globals)
    requires 0 in args && 1 in args
    ensures IrRun(TestedThenReturned(), {}, {}, icalls, 0, Entry(args, globals), 6) ==
            Done(CallResult(Some(Bit(args[0] < args[1])), globals))
  {
    hide IrStep, IrRun, Bound, Compared;
    var ir, s0 := TestedThenReturned(), Entry(args, globals);
    var s1, s2, s3 := Assign(s0, Local("a"), args[0]), Bound(args, globals), Compared(args, globals);
    BindSteps(icalls, args, globals);
    CompareStep(icalls, args, globals);
    LastSteps(icalls, args, globals);
    RunTakes(ir, {}, {}, icalls, 0, s0, 6, 1, s1);
    RunTakes(ir, {}, {}, icalls, 1, s1, 5, 2, s2);
    RunTakes(ir, {}, {}, icalls, 2, s2, 4, 3, s3);
    RunTakes(ir, {}, {}, icalls, 3, s3, 3, 4, s3);
    RunTakes(ir, {}, {}, icalls, 4, s3, 2, 5, s3);
    RunEnds(ir, {}, {}, icalls, 5, s3, 1, CallResult(Some(Bit(args[0] < args[1])), globals));
  }

  lemma LabelsDiffer()
    ensures ExitLabel("f") != "L" && BodyLabel("f") != "L" && "f" != "L" && ExitLabel("f") != BodyLabel("f")
    ensures ExitLabel("f") != "f" && BodyLabel("f") != "f"
  {
    BodyFlow.ExitIsNotBody("f");
    assert |ExitLabel("f")| > 1 && |BodyLabel("f")| > 1;
    assert "f"[0] != "L"[0];
  }

  /** Both parameters in their t-registers. */
  function Moved(s: State): State { W(W(s, T(3), R(s, A(0))), T(4), R(s, A(1))) }

  lemma HeadRuns(p: seq<Instr>, k: seq<Instr>, s: State, calls: Calls)
    ensures Exec(p, LostHead() + k, s, 4, calls) == At(k, Moved(s))
  {
    hide Exec, ExitLabel, BodyLabel;
    ExecStraight(p, LostHead(), k, s, calls);
    assert LostHead() == [Lab("f"), Lab(BodyLabel("f"))] + [Mv(T(3), A(0)), Mv(T(4), A(1))];
    RunAppend([Lab("f"), Lab(BodyLabel("f"))], [Mv(T(3), A(0)), Mv(T(4), A(1))], s);
    Run2(Lab("f"), Lab(BodyLabel("f")), s);
    Run2(Mv(T(3), A(0)), Mv(T(4), A(1)), s);
  }

  lemma BranchEitherWay(p: seq<Instr>, tail: seq<Instr>, t: State, calls: Calls)
    requires HasLabel(p, "L") && After(p, "L") == tail
    ensures Exec(p, [BrZ(Eqz, A(0), "L")] + tail, t, 1, calls) == At(tail, t)
    ensures Exec(p, [Br(Ge, T(3), T(4), "L")] + tail, t, 1, calls) == At(tail, t)
  {
    assert ([BrZ(Eqz, A(0), "L")] + tail)[1..] == tail && ([Br(Ge, T(3), T(4), "L")] + tail)[1..] == tail;
  }

  /** From the label on both texts return what a0 holds. */
  lemma TailReturns(p: seq<Instr>, t: State, calls: Calls)
    requires HasLabel(p, ExitLabel("f")) && After(p, ExitLabel("f")) == [Lab(ExitLabel("f")), Ret]
    ensures Exec(p, LostTail(), t, 4, calls) == Exit(Returns, t)
    ensures Exec(p, [Lab("L"), Lab(ExitLabel("f")), Ret], t, 3, calls) == Exit(Returns, t)
  {
    hide ExitLabel;
    var last := [Lab(ExitLabel("f")), Ret];
    assert last[1..] == [Ret] && LostTail()[1..][0] == J(ExitLabel("f"));
    assert Exec(p, [Ret], t, 1, calls) == Exit(Returns, t);
    assert Exec(p, last, t, 2, calls) == Exit(Returns, t);
    assert Exec(p, LostTail()[1..], t, 3, calls) == Exit(Returns, t);
    assert [Lab("L"), Lab(ExitLabel("f")), Ret][1..] == last;
  }

  lemma LabelsFound()
    ensures var p := LostText();
            && HasLabel(p, "L") && After(p, "L") == LostTail()
            && HasLabel(p, ExitLabel("f")) && After(p, ExitLabel("f")) == [Lab(ExitLabel("f")), Ret]
    ensures var q := LostEmitted();
            && HasLabel(q, "L") && After(q, "L") == [Lab("L"), Lab(ExitLabel("f")), Ret]
            && HasLabel(q, ExitLabel("f")) && After(q, ExitLabel("f")) == [Lab(ExitLabel("f")), Ret]
  {
    hide ExitLabel, BodyLabel, After, HasLabel;
    LabelsDiffer();
    var last := [Lab(ExitLabel("f")), Ret];
    BodyFlow.LandsHere("L", [J(ExitLabel("f"))] + last);
    BodyFlow.LandsHere("L", last);
    BodyFlow.LandsHere(ExitLabel("f"), [Ret]);
    assert [Lab(ExitLabel("f"))] + [Ret] == last && [Lab("L")] + ([J(ExitLabel("f"))] + last) == LostTail();
    var lines := LostHead() + [Alu(Slt, A(0), T(3), T(4)), BrZ(Eqz, A(0), "L")];
    AfterAppend(lines, LostTail(), "L");
    assert lines + LostTail() == LostText();
    AfterAppend(lines + [Lab("L"), J(ExitLabel("f"))], last, ExitLabel("f"));
    assert lines + [Lab("L"), J(ExitLabel("f"))] + last == LostText();
    var emitted := LostHead() + [Br(Ge, T(3), T(4), "L")];
    AfterAppend(emitted, [Lab("L")] + last, "L");
    assert emitted + ([Lab("L")] + last) == LostEmitted() && [Lab("L")] + last == [Lab("L"), Lab(ExitLabel("f")), Ret];
    AfterAppend(emitted + [Lab("L")], last, ExitLabel("f"));
    assert emitted + [Lab("L")] + last == LostEmitted();
  }

  /** Before the pass: the comparison, then the return, whichever way the branch goes. */
  lemma TextReturns(s: State, calls: Calls)
    ensures Exec(LostText(), LostText(), s, 10, calls) == Exit(Returns, Step(Alu(Slt, A(0), T(3), T(4)), Moved(s)))
  {
    hide ExitLabel, Exec, Step, R, W, LostText, LostTail, After, HasLabel, LostHead, Moved;
    LabelsFound();
    var p, u := LostText(), Step(Alu(Slt, A(0), T(3), T(4)), Moved(s));
    var branch := [BrZ(Eqz, A(0), "L")] + LostTail();
    var compare := [Alu(Slt, A(0), T(3), T(4))] + branch;
    assert p == LostHead() + compare by { TextParts(); }
    HeadRuns(p, compare, s, calls);
    ExecSplit(p, p, s, 4, 6, calls);
    ExecOne(p, Alu(Slt, A(0), T(3), T(4)), branch, Moved(s), calls);
    ExecSplit(p, compare, Moved(s), 1, 5, calls);
    BranchEitherWay(p, LostTail(), u, calls);
    ExecSplit(p, branch, u, 1, 4, calls);
    TailReturns(p, u, calls);
  }

  lemma TextParts()
    ensures LostText() == LostHead() + ([Alu(Slt, A(0), T(3), T(4))] + ([BrZ(Eqz, A(0), "L")] + LostTail()))
    ensures LostEmitted() == LostHead() + ([Br(Ge, T(3), T(4), "L")] + [Lab("L"), Lab(ExitLabel("f")), Ret])
  {
    hide ExitLabel, BodyLabel;
  }

  /** After it nothing computes the comparison any more. */
  lemma EmittedReturns(s: State, calls: Calls)
    ensures Exec(LostEmitted(), LostEmitted(), s, 8, calls) == Exit(Returns, Moved(s))
  {
    hide ExitLabel, Exec, Step, R, W, LostEmitted, LostTail, After, HasLabel, LostHead, Moved;
    LabelsFound();
    var q, tail := LostEmitted(), [Lab("L"), Lab(ExitLabel("f")), Ret];
    TextParts();
    HeadRuns(q, [Br(Ge, T(3), T(4), "L")] + tail, s, calls);
    ExecSplit(q, q, s, 4, 4, calls);
    BranchEitherWay(q, tail, Moved(s), calls);
    ExecSplit(q, [Br(Ge, T(3), T(4), "L")] + tail, Moved(s), 1, 3, calls);
    TailReturns(q, Moved(s), calls);
  }

  lemma Results(s: State)
    ensures R(Step(Alu(Slt, A(0), T(3), T(4)), Moved(s)), A(0)) == Bit(R(s, A(0)) < R(s, A(1)))
    ensures R(Moved(s), A(0)) == R(s, A(0))
  {
  }

  /** The comparison's result is wanted behind the branch that tests it. */
  lemma StillWanted()
    ensures !TestsDead(TestedThenReturned())
  {
    var ir := TestedThenReturned();
    assert LabelPosition(ir, "L") == Somewhere(4) by { LabelIsAt(ir, "L", 4, 6); }
    assert 4 in Successors(ir, 3) && 5 in Successors(ir, 4);
    assert UsePath(ir, "x", [4, 5]);
    assert PathLive(ir, 4, "x");
    assert Adjacent(ir, 2, 3) && "x" in Holders(ir, 2, 3);
  }

  // ---- everything else the input has to be ----

  function LostLiveIn(): seq<Names> { [{}, {"a"}, {"a", "b"}, {"x"}, {"x"}, {"x"}] }

  function LostLiveOut(): seq<Names> { [{"a"}, {"a", "b"}, {"x"}, {"x"}, {"x"}, {}] }

  lemma LostNext(i: nat)
    requires i < 6
    ensures Successors(TestedThenReturned(), i) == if i == 5 then [] else if i == 3 then [4, 4] else [i + 1]
    ensures LabelPosition(TestedThenReturned(), "L") == Somewhere(4)
  {
    assert LabelPosition(TestedThenReturned(), "L") == Somewhere(4) by { LabelIsAt(TestedThenReturned(), "L", 4, 6); }
    hide LabelPosition;
  }

  lemma LostSolved(i: nat)
    requires i < 6
    ensures Solved(TestedThenReturned(), LostLiveIn(), LostLiveOut(), i)
  {
    hide LiveAfter, Successors;
    NamesDiffer();
    LostNext(i);
    if i == 3 {
      NextEither(TestedThenReturned(), LostLiveIn(), 4, 4);
    } else {
      NextAlone(TestedThenReturned(), LostLiveIn(), if i == 5 then 0 else i + 1);
    }
  }

  lemma LostInitialised()
    ensures Initialised(TestedThenReturned())
  {
    hide PathLive, Solved;
    forall v ensures !PathLive(TestedThenReturned(), 0, v) {
      if PathLive(TestedThenReturned(), 0, v) {
        forall k | 0 <= k < 6 ensures Solved(TestedThenReturned(), LostLiveIn(), LostLiveOut(), k) { LostSolved(k); }
        LiveInSolution(TestedThenReturned(), LostLiveIn(), LostLiveOut(), 0, v);
      }
    }
  }

  lemma LostShaped()
    ensures ReturnsAlike(TestedThenReturned(), true) && forall i :: 0 <= i < 6 ==> Shaped(TestedThenReturned()[i])
  {
  }

  lemma LostTyped(sigs: Sigs)
    ensures CallsTyped(TestedThenReturned(), sigs)
  {
    forall i: nat | i < 6 ensures ArgsNeeded(TestedThenReturned(), sigs, i) == {} {}
  }

  lemma LostLive(sigs: Sigs)
    requires "f" in sigs && sigs["f"] == Sig(2, true)
    ensures LiveInput(TestedThenReturned(), "f", sigs)
  {
    hide Initialised, CallsTyped, LabelPosition, ParamIndex, Shaped, ReturnsAlike;
    LostShaped();
    LostTyped(sigs);
    LostInitialised();
    LostNext(3);
    LostCounts(TestedThenReturned());
  }

  lemma LostAnalysable()
    ensures Analysable(TestedThenReturned())
  {
    hide MatchNormalized, CounterLoop;
    forall i | 0 <= i < 6
      ensures CounterLoop(TestedThenReturned(), i).None? && MatchNormalized(TestedThenReturned(), i).None?
    {
      if MatchNormalized(TestedThenReturned(), i).Some? { ChainOpens(TestedThenReturned(), i); }
      NoCounter(i);
    }
  }

  lemma NoCounter(s: nat)
    requires s < 6
    ensures CounterLoop(TestedThenReturned(), s).None?
  {
    NamesDiffer();
  }

  lemma LostDeclared(syms: map<string, i32>)
    ensures forall i :: 0 <= i < 6 ==>
              Declared(TestedThenReturned(), syms, TestedThenReturned()[i].dest) &&
              Declared(TestedThenReturned(), syms, TestedThenReturned()[i].src1) &&
              Declared(TestedThenReturned(), syms, TestedThenReturned()[i].src2)
  {
    hide Locals;
    LostLocals();
  }

  lemma LostParams(ir: seq<IrInst>)
    requires ir == TestedThenReturned()
    ensures ParamsFirst(ir) && DistinctParams(ir)
  {
    hide ParamIndex;
    NamesDiffer();
    LostCounts(ir);
  }

  lemma LostLabels(ir: seq<IrInst>)
    requires ir == TestedThenReturned()
    ensures LabelsReadNothing(ir) && UniqueIrLabels(ir) && StagedTogether(ir) && |ir| == 6
    ensures forall i :: 0 <= i < |ir| && ir[i].op.LABEL? ==>
              ir[i].dest.Label? && ir[i].dest.name !in {BodyLabel("f"), ExitLabel("f"), "f"}
    ensures forall i :: 0 <= i < |ir| ==> !ir[i].op.PARAM? && !ir[i].op.CALL?
  {
    hide ExitLabel, BodyLabel;
    LabelsDiffer();
  }

  lemma LostInput(syms: map<string, i32>)
    ensures InputOk(TestedThenReturned(), "f", syms)
  {
    hide ParamIndex, Analysable, Declared, BodyLabel, ExitLabel, ParamsFirst, DistinctParams, TestedThenReturned,
         UniqueIrLabels, LabelsReadNothing, StagedTogether;
    LostLabels(TestedThenReturned());
    LostCounts(TestedThenReturned());
    LostParams(TestedThenReturned());
    LostAnalysable();
    LostDeclared(syms);
  }

  /**
    A call of the function returns whether its first argument is below its second, and so does its text before the
    peephole pass; the text that is emitted returns the first argument. The result is wanted behind the branch that
    tests it, which is what `TestsDead` rules out; the input is in every other way what the main results ask for.
   */
  lemma TruthLost(args: Args, globals: Globals, icalls: IrCalls, s: State, calls: Calls, sigs: Sigs)
    requires "f" in sigs && sigs["f"] == Sig(2, true)
    requires 0 in args && 1 in args && R(s, A(0)) == args[0] && R(s, A(1)) == args[1]
    ensures !TestsDead(LostUnit().ir) && InputOk(LostUnit().ir, "f", s.syms) && LiveInput(LostUnit().ir, "f", sigs)
    ensures TablesFor(LostUnit().ir, LostUnit().f) && LostUnit().size == FrameSize(LostUnit().f)
    ensures LostUnit().after == AfterCode("f", LostUnit().f, LostUnit().size, [])
    ensures IrRun(LostUnit().ir, {}, {}, icalls, 0, Entry(args, globals), 6) ==
            Done(CallResult(Some(Bit(args[0] < args[1])), globals))
    ensures var p := FunctionCode(LostUnit(), [], []);
            && Exec(p, p, s, 10, calls).Exit? && Exec(p, p, s, 10, calls).how == Returns
            && R(Exec(p, p, s, 10, calls).s, A(0)) == Bit(args[0] < args[1])
    ensures var q := Peep(FunctionCode(LostUnit(), [], []));
            && Exec(q, q, s, 8, calls).Exit? && Exec(q, q, s, 8, calls).how == Returns
            && R(Exec(q, q, s, 8, calls).s, A(0)) == args[0]
  {
    hide ExitLabel, BodyLabel, Exec, CodeFrom, Peep, TablesFor, FunctionCode, IrRun, R, Step, TestsDead, FrameSize,
         AfterCode, Moved, InputOk, LiveInput;
    LostTables();
    LostInput(s.syms);
    LostLive(sigs);
    LostWhole();
    LostPeep();
    StillWanted();
    LostIr(icalls, args, globals);
    TextReturns(s, calls);
    EmittedReturns(s, calls);
    Results(s);
  }
}
