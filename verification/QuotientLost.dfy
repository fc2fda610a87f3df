/** A fused chain whose quotient is read below it: the matcher does not ask, and nothing computes the quotient. */
module QuotientLost {
  import opened Word
  import opened Ir
  import opened IrFlow
  import opened IrMachine
  import opened Rv32
  import opened Frame
  import opened Control
  import opened TempRanges
  import opened Allocation
  import opened FrameCode
  import opened Remainder
  import opened Body
  import opened FunctionSim
  import opened LeafUnits
  import BinaryOp
  import BodyFlow

  /** x = 9; q = x / 4; p = q * 4; r = x - p; r = r + 4; z = r % 4; return q */
  function QuotientReturned(): seq<IrInst>
  {
    [IrInst(ASSIGN, Local("x"), Imm(9), NoOperand),
     IrInst(DIV, Local("q"), Local("x"), Imm(4)),
     IrInst(MUL, Local("p"), Local("q"), Imm(4)),
     IrInst(SUB, Local("r"), Local("x"), Local("p")),
     IrInst(ADD, Local("r"), Local("r"), Imm(4)),
     IrInst(MOD, Local("z"), Local("r"), Imm(4)),
     IrInst(RETURN, Local("q"), NoOperand, NoOperand)]
  }

  function Temps(): map<string, Reg> { map["x" := T(4), "q" := T(5), "p" := T(6)] }

  function Registers(): map<string, Reg> { map["r" := A(0), "z" := A(1)] }

  function QuotientUnit(): Unit { LeafUnit("f", QuotientReturned(), Registers(), Temps()) }

  lemma NamesDiffer()
    ensures "x" != "q" && "x" != "p" && "x" != "r" && "x" != "z" && "q" != "p" && "q" != "r" && "q" != "z"
    ensures "p" != "r" && "p" != "z" && "r" != "z"
  {
    assert "x"[0] != "q"[0] && "x"[0] != "p"[0] && "x"[0] != "r"[0] && "x"[0] != "z"[0];
    assert "q"[0] != "p"[0] && "q"[0] != "r"[0] && "q"[0] != "z"[0];
    assert "p"[0] != "r"[0] && "p"[0] != "z"[0] && "r"[0] != "z"[0];
  }

  // ---- the tables ----

  lemma OneBlock(ir: seq<IrInst>)
    requires ir == QuotientReturned()
    ensures forall k :: 0 <= k <= 6 ==> BlockOf(ir, k) == 0
  {
    assert BlockOf(ir, 0) == 0 && BlockOf(ir, 1) == 0 && BlockOf(ir, 2) == 0 && BlockOf(ir, 3) == 0;
    assert BlockOf(ir, 4) == 0 && BlockOf(ir, 5) == 0 && BlockOf(ir, 6) == 0;
  }

  lemma Candidates(ir: seq<IrInst>)
    requires ir == QuotientReturned()
    ensures IsCandidate(ir, "x") && IsCandidate(ir, "q") && IsCandidate(ir, "p")
  {
    hide BlockOf, IsCandidate;
    NamesDiffer();
    OneBlock(ir);
    SpanCandidate(ir, "x", 0, 3);
    SpanCandidate(ir, "q", 1, 6);
    SpanCandidate(ir, "p", 2, 3);
  }

  lemma QuotientLocals()
    ensures Locals(QuotientReturned()) <= {"x", "q", "p", "r", "z"}
  {
    var ir := QuotientReturned();
    forall v | v in Locals(ir) ensures v in {"x", "q", "p", "r", "z"} {
      var i :| 0 <= i < |ir| && v in LocalName(ir[i].dest) + LocalName(ir[i].src1) + LocalName(ir[i].src2);
    }
  }

  lemma RegistersDiffer()
    ensures forall u, v :: u in Temps() && v in Temps() && u != v ==> Temps()[u] != Temps()[v]
    ensures forall u, v :: u in Registers() && v in Registers() && u != v ==> Registers()[u] != Registers()[v]
    ensures Registers().Keys !! Temps().Keys && Registers().Keys + Temps().Keys == {"x", "q", "p", "r", "z"}
    ensures forall v :: v in Temps() ==> Temps()[v] in {T(4), T(5), T(6)} && v in {"x", "q", "p"}
    ensures forall v :: v in Registers() ==> Registers()[v].A? && Registers()[v].n <= 7
  {
    NamesDiffer();
  }

  lemma QuotientShape(ir: seq<IrInst>)
    requires ir == QuotientReturned()
    ensures |ir| == 7 && forall i :: 0 <= i < |ir| ==> !DeclaresParam(ir[i]) && !ir[i].op.PARAM? && !ir[i].op.CALL?
  {
  }

  lemma OwnHere()
    ensures OwnRegisters(QuotientReturned(), Registers(), Temps())
  {
    hide Locals, Registers, Temps, Incoming, ParamIndex, QuotientReturned;
    RegistersDiffer();
    QuotientLocals();
    QuotientShape(QuotientReturned());
    NothingComesIn(QuotientReturned(), 7);
  }

  lemma ModuloHere(ir: seq<IrInst>)
    requires ir == QuotientReturned()
    ensures forall r :: r in {T(4), T(5), T(6)} ==> r in TempRegisters(ir)
  {
    assert ir[5].op.MOD?;
    assert TempRegisters(ir)[0] == T(4) && TempRegisters(ir)[1] == T(5) && TempRegisters(ir)[2] == T(6);
  }

  lemma QuotientTables()
    ensures TablesFor(QuotientReturned(), LeafFrame(Registers(), Temps())) &&
            FrameSize(LeafFrame(Registers(), Temps())) == 0
  {
    hide OwnRegisters, TablesFor, FrameSize, IsCandidate, QuotientReturned, Temps, TempRegisters;
    OwnHere();
    RegistersDiffer();
    ModuloHere(QuotientReturned());
    Candidates(QuotientReturned());
    LeafTables(QuotientReturned(), Registers(), Temps());
  }

  // ---- the text ----

  lemma ChainHere()
    ensures MatchNormalized(QuotientReturned(), 1) == Some(Normalized(Local("x"), Local("z"), Local("r"), 4, 5))
  {
    var ir := QuotientReturned();
    assert MatchRaw(ir, 1) == Some(RawRemainder(Local("x"), Local("r"), 4, 3));
    assert MatchRaw(ir, 5) == Some(RawRemainder(Local("r"), Local("z"), 4, 1));
  }

  lemma FourIsPower()
    ensures IsPowerOfTwo(4) && Ctz(4) == 2
  {
  }

  lemma ScanFinds()
    ensures !ScanLive(QuotientReturned(), 6, "r")
  {
    NamesDiffer();
    assert !ScanLive(QuotientReturned(), 7, "r");
  }

  lemma ChainFused()
    ensures FusesChain(QuotientUnit(), 1) && ChainLength(QuotientUnit(), 1) == 5
    ensures ChainCode(QuotientUnit(), 1) == [Mv(A(1), T(4)), AluI(Slli, A(1), A(1), 30), AluI(Srli, A(1), A(1), 30)]
  {
    hide MatchNormalized, ScanLive, IsPowerOfTwo, Ctz, BinaryOp.BinaryCode;
    ChainHere();
    ScanFinds();
    FourIsPower();
    NamesDiffer();
  }

  lemma AloneHere(i: nat)
    requires i == 0 || i == 6
    ensures Alone(QuotientUnit(), i)
  {
    hide MatchNormalized, UseCount;
    if FusesChain(QuotientUnit(), i) { ChainOpens(QuotientReturned(), i); }
  }

  lemma QuotientLines()
    ensures InstCode(QuotientUnit(), 0) == [Li(T(4), 9)]
    ensures InstCode(QuotientUnit(), 6) == [Mv(A(0), T(5)), J(ExitLabel("f"))]
  {
    hide BinaryOp.BinaryCode, ExitLabel;
    NamesDiffer();
  }

  function QuotientLinesAll(): seq<Instr>
  {
    [Lab("f"), Lab(BodyLabel("f")), Li(T(4), 9), Mv(A(1), T(4)), AluI(Slli, A(1), A(1), 30), AluI(Srli, A(1), A(1), 30),
     Mv(A(0), T(5))]
  }

  lemma QuotientCode()
    ensures FunctionCode(QuotientUnit(), [], []) ==
            QuotientLinesAll() + ([J(ExitLabel("f"))] + [Lab(ExitLabel("f")), Ret])
  {
    hide InstCode, Alone, CodeFrom, FusesChain, ChainCode, ExitLabel, BodyLabel, FunctionCode;
    var c := QuotientUnit();
    LeafText("f", QuotientReturned(), Registers(), Temps());
    QuotientLines();
    AloneHere(0);
    AloneHere(6);
    AloneCode(c, 0);
    AloneCode(c, 6);
    ChainFused();
    ChainHead(c, 1);
    NothingLeft(c, 7);
    assert CodeFrom(c, 6) == [Mv(A(0), T(5))] + ([J(ExitLabel("f"))] + [Lab(ExitLabel("f")), Ret]);
  }

  // ---- runs ----

  lemma LinesRun(s: State)
    ensures R(Run(QuotientLinesAll(), s), A(0)) == R(s, T(5))
  {
    hide Run, Sll, Srl, ExitLabel, BodyLabel;
    var a, b := [Lab("f"), Lab(BodyLabel("f")), Li(T(4), 9)], [Mv(A(1), T(4)), AluI(Slli, A(1), A(1), 30)];
    var d := [AluI(Srli, A(1), A(1), 30), Mv(A(0), T(5))];
    assert QuotientLinesAll() == a + b + d;
    RunAppend(a + b, d, s);
    RunAppend(a, b, s);
    Run3(Lab("f"), Lab(BodyLabel("f")), Li(T(4), 9), s);
    Run2(Mv(A(1), T(4)), AluI(Slli, A(1), A(1), 30), Run(a, s));
    Run2(AluI(Srli, A(1), A(1), 30), Mv(A(0), T(5)), Run(a + b, s));
  }

  /** The text returns whatever t5 held on entry. */
  lemma MachineReturns(p: seq<Instr>, s: State, calls: Calls)
    requires p == QuotientLinesAll() + ([J(ExitLabel("f"))] + [Lab(ExitLabel("f")), Ret])
    ensures Exec(p, p, s, 10, calls) == Exit(Returns, Run(QuotientLinesAll(), s))
  {
    hide Exec, Run, ExitLabel, BodyLabel, R;
    var rest := [Lab(ExitLabel("f")), Ret];
    var t := Run(QuotientLinesAll(), s);
    ExecStraight(p, QuotientLinesAll(), [J(ExitLabel("f"))] + rest, s, calls);
    ExecSplit(p, p, s, 7, 3, calls);
    ExitAt(p);
    LeafReturns(p, ExitLabel("f"), rest, t, calls);
  }

  lemma ExitAt(p: seq<Instr>)
    requires p == QuotientLinesAll() + ([J(ExitLabel("f"))] + [Lab(ExitLabel("f")), Ret])
    ensures HasLabel(p, ExitLabel("f")) && After(p, ExitLabel("f")) == [Lab(ExitLabel("f")), Ret]
  {
    hide After, HasLabel;
    BodyFlow.ExitIsNotBody("f");
    assert |ExitLabel("f")| > 1;
    hide ExitLabel, BodyLabel;
    var a := QuotientLinesAll() + [J(ExitLabel("f"))];
    ExitFound(a, ExitLabel("f"));
    assert a + [Lab(ExitLabel("f")), Ret] == p;
  }

  /** The locals after the chain. */
  function Computed(st: IrState): IrState
  {
    var a := Assign(Assign(st, Local("x"), 9), Local("q"), 2);
    Assign(Assign(Assign(Assign(a, Local("p"), 8), Local("r"), 1), Local("r"), 5), Local("z"), 1)
  }

  lemma FirstSteps(icalls: IrCalls, st: IrState)
    ensures var ir, x := QuotientReturned(), Assign(st, Local("x"), 9);
            && IrStep(ir, {}, icalls, 0, st) == Goes(1, x)
            && IrStep(ir, {}, icalls, 1, x) == Goes(2, Assign(x, Local("q"), 2))
  {
    NamesDiffer();
    assert RvDiv(9, 4) == 2;
  }

  lemma ProductSteps(icalls: IrCalls, st: IrState)
    requires "x" in st.locals && st.locals["x"] == 9 && "q" in st.locals && st.locals["q"] == 2
    ensures var ir, p := QuotientReturned(), Assign(st, Local("p"), 8);
            && IrStep(ir, {}, icalls, 2, st) == Goes(3, p)
            && IrStep(ir, {}, icalls, 3, p) == Goes(4, Assign(p, Local("r"), 1))
  {
    NamesDiffer();
  }

  lemma LastSteps(icalls: IrCalls, st: IrState)
    requires "r" in st.locals && st.locals["r"] == 1 && "q" in st.locals && st.locals["q"] == 2
    ensures var ir, r := QuotientReturned(), Assign(st, Local("r"), 5);
            && IrStep(ir, {}, icalls, 4, st) == Goes(5, r)
            && IrStep(ir, {}, icalls, 5, r) == Goes(6, Assign(r, Local("z"), 1))
            && IrStep(ir, {}, icalls, 6, Assign(r, Local("z"), 1)) == Done(CallResult(Some(2), st.globals))
  {
    NamesDiffer();
    assert RvRem(5, 4) == 1;
  }

  /** The intermediate representation returns 2. */
  lemma IrReturns(icalls: IrCalls, st: IrState)
    ensures IrRun(QuotientReturned(), {}, {}, icalls, 0, st, 7) == Done(CallResult(Some(2), st.globals))
  {
    hide IrRun, IrStep;
    var ir := QuotientReturned();
    NamesDiffer();
    var s1 := Assign(st, Local("x"), 9);
    var s2 := Assign(s1, Local("q"), 2);
    var s3 := Assign(s2, Local("p"), 8);
    var s4 := Assign(s3, Local("r"), 1);
    var s5 := Assign(s4, Local("r"), 5);
    var s6 := Assign(s5, Local("z"), 1);
    FirstSteps(icalls, st);
    ProductSteps(icalls, s2);
    LastSteps(icalls, s4);
    RunTakes(ir, {}, {}, icalls, 0, st, 7, 1, s1);
    RunTakes(ir, {}, {}, icalls, 1, s1, 6, 2, s2);
    RunTakes(ir, {}, {}, icalls, 2, s2, 5, 3, s3);
    RunTakes(ir, {}, {}, icalls, 3, s3, 4, 4, s4);
    RunTakes(ir, {}, {}, icalls, 4, s4, 3, 5, s5);
    RunTakes(ir, {}, {}, icalls, 5, s5, 2, 6, s6);
    RunEnds(ir, {}, {}, icalls, 6, s6, 1, CallResult(Some(2), st.globals));
  }

  /** The chain is fused although its quotient is returned: the function's value is 2, and its text returns what t5 held
      on entry. */
  lemma QuotientLost(icalls: IrCalls, st: IrState, s: State, calls: Calls)
    ensures TablesFor(QuotientUnit().ir, QuotientUnit().f) && QuotientUnit().size == FrameSize(QuotientUnit().f)
    ensures FusesChain(QuotientUnit(), 1) && Local("q") in ChainTemps(QuotientReturned(), 1)
    ensures IrRun(QuotientReturned(), {}, {}, icalls, 0, st, 7) == Done(CallResult(Some(2), st.globals))
    ensures var p := FunctionCode(QuotientUnit(), [], []);
            && Exec(p, p, s, 10, calls).Exit? && Exec(p, p, s, 10, calls).how == Returns
            && R(Exec(p, p, s, 10, calls).s, A(0)) == R(s, T(5))
  {
    hide Exec, IrRun, FunctionCode, TablesFor, FrameSize, R, FusesChain;
    QuotientTables();
    ChainFused();
    ChainHere();
    QuotientCode();
    IrReturns(icalls, st);
    MachineReturns(FunctionCode(QuotientUnit(), [], []), s, calls);
    LinesRun(s);
  }
}
