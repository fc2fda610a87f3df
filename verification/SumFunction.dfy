/** An ordinary function with a parameter and a loop that meets every condition of the main results. */
module SumFunction {
  import opened Word
  import opened Ir
  import opened IrFlow
  import opened Rv32
  import opened Liveness
  import opened TempRanges
  import opened Allocation
  import opened BinaryOp
  import opened FrameCode
  import opened Remainder
  import opened Body
  import opened Homes
  import opened FunctionSim
  import opened ChainSim
  import opened NonNeg
  import opened NonNegSound
  import opened TailCall
  import opened Peephole
  import opened SavedRegisters
  import opened TextLive
  import opened BodyLive
  import opened DeadTests
  import opened WholeProgram
  import opened Generated
  import opened GeneratedProgram
  import opened LeafUnits

  /** `int sum(int n) { int s = 0; while (n > 0) { s = s + n; n = n - 1; } return s; }` */
  function SumIr(): seq<IrInst>
  {
    [IrInst(LOCAL_VAR_DECL, Local("n"), Param("n"), NoOperand),
     IrInst(ASSIGN, Local("s"), Imm(0), NoOperand),
     IrInst(LABEL, Label("H"), NoOperand, NoOperand),
     IrInst(GT, Local("t"), Local("n"), Imm(0)),
     IrInst(BEQZ, Label("E"), Local("t"), NoOperand),
     IrInst(ADD, Local("s"), Local("s"), Local("n")),
     IrInst(SUB, Local("n"), Local("n"), Imm(1)),
     IrInst(BRANCH, Label("H"), NoOperand, NoOperand),
     IrInst(LABEL, Label("E"), NoOperand, NoOperand),
     IrInst(RETURN, Local("s"), NoOperand, NoOperand)]
  }

  function SumRegisters(): map<string, Reg> { map["n" := A(0), "s" := A(1)] }

  function SumTemps(): map<string, Reg> { map["t" := T(3)] }

  function SumUnit(): Unit { LeafUnit("sum", SumIr(), SumRegisters(), SumTemps()) }

  function SumDraft(): Unit { Unit("sum", SumIr(), LeafFrame(SumRegisters(), SumTemps()), 0, {}, {}, true, []) }

  function SumCompiled(): Compiled { Compiled(SumUnit(), [], []) }

  lemma NamesDiffer()
    ensures "n" != "s" && "n" != "t" && "s" != "t" && "H" != "E"
  {
    assert "n"[0] != "s"[0] && "n"[0] != "t"[0] && "s"[0] != "t"[0] && "H"[0] != "E"[0];
  }

  // ---- the tables ----

  lemma SumShape(ir: seq<IrInst>)
    requires ir == SumIr()
    ensures |ir| == 10 && (forall i :: 0 <= i < |ir| ==> !ir[i].op.PARAM? && !ir[i].op.CALL? && !ir[i].op.MOD?)
    ensures forall i :: 0 <= i < |ir| && DeclaresParam(ir[i]) ==> i == 0
  {
  }

  lemma SumParams(ir: seq<IrInst>)
    requires ir == SumIr()
    ensures ParamIndex(ir, 0) == 0 && ParamIndex(ir, 10) == 1 && Incoming(ir, 10) == map["n" := 0]
  {
    ParamsFrom(ir, 10);
  }

  lemma {:induction false} ParamsFrom(ir: seq<IrInst>, n: nat)
    requires ir == SumIr() && 1 <= n <= 10
    ensures ParamIndex(ir, n) == 1 && Incoming(ir, n) == map["n" := 0]
  {
    if n > 1 {
      ParamsFrom(ir, n - 1);
    } else {
      assert ParamIndex(ir, 0) == 0 && Incoming(ir, 0) == map[];
    }
  }

  lemma SumLocals()
    ensures Locals(SumIr()) == {"n", "s", "t"}
  {
    var ir := SumIr();
    forall v | v in Locals(ir) ensures v in {"n", "s", "t"} {
      var i :| 0 <= i < |ir| && v in LocalName(ir[i].dest) + LocalName(ir[i].src1) + LocalName(ir[i].src2);
    }
    assert "n" in LocalName(ir[3].dest) + LocalName(ir[3].src1) + LocalName(ir[3].src2);
    assert "t" in LocalName(ir[3].dest) + LocalName(ir[3].src1) + LocalName(ir[3].src2);
    assert "s" in LocalName(ir[1].dest) + LocalName(ir[1].src1) + LocalName(ir[1].src2);
  }

  lemma SumRegistersDiffer()
    ensures forall u, v :: u in SumRegisters() && v in SumRegisters() && u != v ==>
              SumRegisters()[u] != SumRegisters()[v]
    ensures SumRegisters().Keys == {"n", "s"} && SumTemps().Keys == {"t"} && SumTemps()["t"] == T(3)
    ensures SumRegisters()["n"] == A(0) && SumRegisters()["s"] == A(1) && SumRegisters().Keys !! SumTemps().Keys
  {
    NamesDiffer();
  }

  lemma SumOwn()
    ensures OwnRegisters(SumIr(), SumRegisters(), SumTemps())
  {
    hide Locals, Incoming, ParamIndex, SumIr, SumRegisters, SumTemps;
    SumShape(SumIr());
    SumParams(SumIr());
    SumLocals();
    SumRegistersDiffer();
  }

  lemma SumCandidate(ir: seq<IrInst>)
    requires ir == SumIr()
    ensures IsCandidate(ir, "t") && T(3) in TempRegisters(ir)
  {
    hide IsCandidate;
    NamesDiffer();
    assert BlockOf(ir, 2) == 0;
    assert BlockOf(ir, 3) == 1 && BlockOf(ir, 4) == 1;
    hide BlockOf;
    SpanCandidate(ir, "t", 3, 4);
    assert TempRegisters(ir)[0] == T(3);
  }

  lemma SumTables()
    ensures TablesFor(SumIr(), LeafFrame(SumRegisters(), SumTemps())) &&
            FrameSize(LeafFrame(SumRegisters(), SumTemps())) == 0
  {
    hide OwnRegisters, TablesFor, FrameSize, IsCandidate, SumIr, TempRegisters, SumTemps;
    SumOwn();
    SumRegistersDiffer();
    SumCandidate(SumIr());
    LeafTables(SumIr(), SumRegisters(), SumTemps());
  }

  // ---- the lines ----

  lemma NoChainHere(c: Unit, i: nat)
    requires c.ir == SumIr()
    ensures !FusesChain(c, i) && MatchNormalized(c.ir, i).None?
  {
    hide MatchNormalized;
    if MatchNormalized(c.ir, i).Some? { ChainOpens(c.ir, i); }
  }

  lemma TestedOnce()
    ensures UseCount(SumIr(), "t", 10) == 1
  {
    NamesDiffer();
    assert UseCount(SumIr(), "t", 2) == 0;
    assert UseCount(SumIr(), "t", 4) == 0;
    assert UseCount(SumIr(), "t", 6) == 1;
    assert UseCount(SumIr(), "t", 8) == 1;
  }

  lemma SumFused(c: Unit)
    requires c.ir == SumIr() && c.f == LeafFrame(SumRegisters(), SumTemps())
    ensures FusedAt(c, 3) && FusedCode(c, 3) == [Li(T(1), 0), Alu(Slt, T(0), T(1), A(0)), BrZ(Eqz, T(0), "E")]
  {
    hide UseCount, BinaryCode, MatchNormalized;
    NamesDiffer();
    TestedOnce();
  }

  lemma SumAlone(c: Unit, i: nat)
    requires c.ir == SumIr() && i < 10 && i != 3
    ensures Alone(c, i)
  {
    hide UseCount, FusesChain;
    NoChainHere(c, i);
  }

  lemma FirstLines(c: Unit)
    requires c.ir == SumIr() && c.f == LeafFrame(SumRegisters(), SumTemps())
    ensures InstCode(c, 0) == []
  {
    hide BinaryCode, ParamIndex;
    NamesDiffer();
    SumParams(SumIr());
  }

  lemma SecondLines(c: Unit)
    requires c.ir == SumIr() && c.f == LeafFrame(SumRegisters(), SumTemps())
    ensures InstCode(c, 1) == [Li(A(1), 0)] && InstCode(c, 2) == [Lab("H")]
  {
    hide BinaryCode;
    NamesDiffer();
  }

  lemma SumLine(c: Unit)
    requires c.ir == SumIr() && c.f == LeafFrame(SumRegisters(), SumTemps())
    ensures InstCode(c, 5) == [Alu(Add, A(1), A(1), A(0))]
  {
    hide IsPowerOfTwo, Ctz, GeneralCode;
    NamesDiffer();
  }

  lemma CountLine(c: Unit)
    requires c.ir == SumIr() && c.f == LeafFrame(SumRegisters(), SumTemps())
    ensures InstCode(c, 6) == [AluI(Addi, A(0), A(0), -1)]
  {
    hide IsPowerOfTwo, Ctz;
    NamesDiffer();
  }

  lemma LastLines(c: Unit)
    requires c.ir == SumIr() && c.f == LeafFrame(SumRegisters(), SumTemps()) && c.tails == {}
    ensures InstCode(c, 7) == [J("H")] && InstCode(c, 8) == [Lab("E")]
    ensures InstCode(c, 9) == [Mv(A(0), A(1)), J(ExitLabel(c.name))]
  {
    hide BinaryCode, ExitLabel;
    NamesDiffer();
  }

  function SumBody(): seq<Instr>
  {
    [Li(A(1), 0), Lab("H"), Li(T(1), 0), Alu(Slt, T(0), T(1), A(0)), BrZ(Eqz, T(0), "E"), Alu(Add, A(1), A(1), A(0)),
     AluI(Addi, A(0), A(0), -1), J("H"), Lab("E"), Mv(A(0), A(1)), J(ExitLabel("sum"))]
  }

  lemma LoopEnd(c: Unit)
    requires c.name == "sum" && c.ir == SumIr() && c.f == LeafFrame(SumRegisters(), SumTemps()) && c.tails == {}
    ensures CodeFrom(c, 5) == SumBody()[5..] + c.after
  {
    hide InstCode, Alone, CodeFrom, SumIr, ExitLabel, SumRegisters, SumTemps;
    SumShape(SumIr());
    forall i: nat | 5 <= i < 10 ensures CodeFrom(c, i) == InstCode(c, i) + CodeFrom(c, i + 1) {
      SumAlone(c, i);
      AloneCode(c, i);
    }
    SumLine(c);
    CountLine(c);
    LastLines(c);
    NothingLeft(c, 10);
    assert CodeFrom(c, 9) == [Mv(A(0), A(1)), J(ExitLabel("sum"))] + c.after;
    assert CodeFrom(c, 7) == [J("H"), Lab("E"), Mv(A(0), A(1)), J(ExitLabel("sum"))] + c.after;
  }

  lemma SumCode(c: Unit)
    requires c.name == "sum" && c.ir == SumIr() && c.f == LeafFrame(SumRegisters(), SumTemps()) && c.tails == {}
    ensures CodeFrom(c, 0) == SumBody() + c.after
  {
    hide InstCode, Alone, CodeFrom, FusedAt, FusedCode, SumIr, ExitLabel, SumRegisters, SumTemps;
    SumShape(SumIr());
    LoopEnd(c);
    SumFused(c);
    FusedHead(c, 3);
    FirstLines(c);
    SecondLines(c);
    forall i: nat | i < 3 ensures CodeFrom(c, i) == InstCode(c, i) + CodeFrom(c, i + 1) {
      SumAlone(c, i);
      AloneCode(c, i);
    }
    assert CodeFrom(c, 2) == [Lab("H")] + CodeFrom(c, 3);
    assert SumBody() == [Li(A(1), 0), Lab("H"), Li(T(1), 0), Alu(Slt, T(0), T(1), A(0)), BrZ(Eqz, T(0), "E")] +
           SumBody()[5..];
  }

  // ---- what the generator produces ----

  predicate NoSavedRegister(i: Instr) { forall r :: r in ArgumentRegs(i) + Defs(i) ==> !r.S? }

  lemma BodyPlain()
    ensures forall i :: i in SumBody() ==> NoSavedRegister(i)
  {
    hide ExitLabel;
  }

  lemma DraftNames(r: Reg)
    ensures r.S? ==> !Named(Peep(CodeFrom(SumDraft(), 0)), r)
  {
    hide CodeFrom, Peep, SumBody, NoSavedRegister;
    SumCode(SumDraft());
    BodyPlain();
    assert SumBody() + [] == SumBody();
    if r.S? && Named(Peep(CodeFrom(SumDraft(), 0)), r) {
      PeepNamesOnly(SumBody(), r);
      NamedNotPlain(SumBody(), r);
    }
  }

  lemma NamedNotPlain(k: seq<Instr>, r: Reg)
    requires r.S? && Named(k, r)
    ensures exists i :: i in k && !NoSavedRegister(i)
  {
    var j :| 0 <= j < |k| && r in ArgumentRegs(k[j]);
    assert !NoSavedRegister(k[j]);
  }

  lemma SumAfter()
    ensures SumUnit().after == [Lab(ExitLabel("sum")), Ret]
  {
    hide CodeFrom, ExitLabel, BodyLabel, SumIr, FunctionCode, SumRegisters, SumTemps;
    LeafText("sum", SumIr(), SumRegisters(), SumTemps());
  }

  lemma SumSaved()
    ensures SavedCovers(SumUnit())
  {
    hide CodeFrom, SumBody, SumIr, AfterCode;
    SumCode(SumUnit());
    SumAfter();
    BodyPlain();
    forall l | l in CodeFrom(SumUnit(), 0) ensures WritesSaved(SumUnit().f, l) {
      if l in SumBody() { assert NoSavedRegister(l); }
    }
  }

  lemma NoTail(i: nat)
    ensures !IsTailCall(SumIr(), i)
  {
  }

  lemma SumProduced()
    ensures Produces(SumCompiled(), SumDraft())
  {
    hide CodeFrom, Peep, SumIr, AfterCode, TablesFor, FrameSize, SavedCovers, ScratchWindows, IsTailCall,
         ClaimedNonneg, Named, SumRegisters, SumTemps;
    SumTables();
    SumSaved();
    forall r: Reg ensures !(r.S? && 2 <= r.n < 12 && Named(Peep(CodeFrom(SumDraft(), 0)), r)) { DraftNames(r); }
    forall i: nat ensures !IsTailCall(SumUnit().ir, i) { NoTail(i); }
  }

  // ---- what the input has to be ----

  /** Where each local is live. */
  function SumLiveIn(): seq<Names>
  {
    [{}, {"n"}, {"n", "s"}, {"n", "s"}, {"t", "n", "s"}, {"n", "s"}, {"n", "s"}, {"n", "s"}, {"s"}, {"s"}]
  }

  function SumLiveOut(): seq<Names>
  {
    [{"n"}, {"n", "s"}, {"n", "s"}, {"t", "n", "s"}, {"n", "s"}, {"n", "s"}, {"n", "s"}, {"n", "s"}, {"s"}, {}]
  }

  lemma SumTargets()
    ensures LabelPosition(SumIr(), "H") == Somewhere(2) && LabelPosition(SumIr(), "E") == Somewhere(8)
  {
    NamesDiffer();
    LabelIsAt(SumIr(), "H", 2, 10);
    LabelIsAt(SumIr(), "E", 8, 10);
  }

  lemma SumSuccessors()
    ensures var ir := SumIr();
            && Successors(ir, 0) == [1] && Successors(ir, 1) == [2] && Successors(ir, 2) == [3] &&
               Successors(ir, 3) == [4]
            && Successors(ir, 4) == [8, 5] && Successors(ir, 5) == [6] && Successors(ir, 6) == [7] &&
               Successors(ir, 7) == [2]
            && Successors(ir, 8) == [9] && Successors(ir, 9) == []
  {
    hide LabelPosition;
    SumTargets();
  }

  lemma SumAfterwards(i: nat)
    requires i < 10
    ensures SumLiveOut()[i] == LiveAfter(SumIr(), SumLiveIn(), Successors(SumIr(), i))
  {
    hide Successors, LiveAfter, SumIr;
    SumShape(SumIr());
    SumSuccessors();
    if i == 4 {
      NextEither(SumIr(), SumLiveIn(), 8, 5);
    } else {
      NextAlone(SumIr(), SumLiveIn(), if i == 7 then 2 else if i == 9 then 0 else i + 1);
    }
  }

  lemma SumTransfers(i: nat)
    requires i < 10
    ensures SumLiveIn()[i] == Transfer(SumIr()[i], SumLiveOut()[i])
  {
    NamesDiffer();
  }

  lemma SumSolved(i: nat)
    requires i < 10
    ensures Solved(SumIr(), SumLiveIn(), SumLiveOut(), i)
  {
    hide Successors, LiveAfter, SumLiveIn, SumLiveOut, Transfer, SumIr;
    SumShape(SumIr());
    assert |SumLiveIn()| == |SumLiveOut()| == 10 by { Lengths(); }
    SumAfterwards(i);
    SumTransfers(i);
  }

  lemma Lengths()
    ensures |SumLiveIn()| == |SumLiveOut()| == 10
  {
  }

  lemma SumLive(i: nat, v: string)
    requires PathLive(SumIr(), i, v)
    ensures i < 10 && v in SumLiveIn()[i]
  {
    hide Solved, SumIr;
    SumShape(SumIr());
    forall k | 0 <= k < 10 ensures Solved(SumIr(), SumLiveIn(), SumLiveOut(), k) { SumSolved(k); }
    LiveInSolution(SumIr(), SumLiveIn(), SumLiveOut(), i, v);
  }

  lemma SumDead()
    ensures TestsDead(SumIr())
  {
    hide PathLive, Successors, SumLiveIn;
    var ir := SumIr();
    SumSuccessors();
    forall i: nat, j: nat | Adjacent(ir, i, j) ensures i == 3 && j == 4 {}
    assert Holders(ir, 3, 4) == {"t"};
    forall w, s | w in Holders(ir, 3, 4) && s in Successors(ir, 4) ensures !PathLive(ir, s, w) {
      if PathLive(ir, s, w) {
        SumLive(s, w);
        NotTested(s);
      }
    }
  }

  lemma NotTested(s: nat)
    requires s == 8 || s == 5
    ensures "t" !in SumLiveIn()[s]
  {
    NamesDiffer();
  }

  lemma SumShaped()
    ensures (forall i :: 0 <= i < 10 ==> Shaped(SumIr()[i])) && ReturnsAlike(SumIr(), true)
  {
  }

  lemma SumTyped(sigs: Sigs)
    ensures CallsTyped(SumIr(), sigs)
  {
    var ir := SumIr();
    forall i: nat | i < 10 ensures ArgsNeeded(ir, sigs, i) == {} {}
  }

  lemma SumInitialised()
    ensures Initialised(SumIr())
  {
    hide PathLive, SumIr;
    forall v ensures !PathLive(SumIr(), 0, v) { if PathLive(SumIr(), 0, v) { SumLive(0, v); } }
    NoBare();
  }

  lemma NoBare()
    ensures forall i, v :: 0 <= i < |SumIr()| ==> !DeclaresBare(SumIr()[i], v)
  {
  }

  lemma SumLiveInput(sigs: Sigs)
    requires "sum" in sigs && sigs["sum"] == Sig(1, true)
    ensures LiveInput(SumIr(), "sum", sigs)
  {
    hide Initialised, CallsTyped, LabelPosition, ParamIndex, Shaped, ReturnsAlike;
    SumShaped();
    SumTyped(sigs);
    SumInitialised();
    SumTargets();
    SumParams(SumIr());
  }

  lemma SumAnalysable()
    ensures Analysable(SumIr())
  {
    hide MatchNormalized, CounterLoop;
    forall i | 0 <= i < 10 ensures CounterLoop(SumIr(), i).None? && MatchNormalized(SumIr(), i).None? {
      NoChainHere(SumUnit(), i);
      NoCounter(i);
    }
  }

  lemma NoCounter(s: nat)
    requires s < 10
    ensures CounterLoop(SumIr(), s).None?
  {
    NamesDiffer();
  }

  lemma SumLabels()
    ensures var ir := SumIr();
            && LabelsReadNothing(ir) && UniqueIrLabels(ir) && StagedTogether(ir)
            && forall i :: 0 <= i < |ir| && ir[i].op.LABEL? ==>
                 ir[i].dest.Label? && ir[i].dest.name !in {BodyLabel("sum"), ExitLabel("sum"), "sum"}
  {
    NamesDiffer();
    assert |BodyLabel("sum")| > 1 && |ExitLabel("sum")| > 1 && |"sum"| > 1;
    hide BodyLabel, ExitLabel;
  }

  lemma SumDeclared(syms: map<string, i32>)
    ensures forall i :: 0 <= i < 10 ==>
              Declared(SumIr(), syms, SumIr()[i].dest) && Declared(SumIr(), syms, SumIr()[i].src1) &&
              Declared(SumIr(), syms, SumIr()[i].src2)
  {
    hide Locals;
    SumLocals();
  }

  lemma SumInput(syms: map<string, i32>)
    ensures InputOk(SumIr(), "sum", syms)
  {
    hide ParamIndex, Analysable, LabelsReadNothing, UniqueIrLabels, StagedTogether, IsTailCall, Declared, SumIr,
         BodyLabel, ExitLabel;
    SumShape(SumIr());
    SumLabels();
    SumParams(SumIr());
    SumAnalysable();
    SumDeclared(syms);
    forall i: nat ensures !IsTailCall(SumIr(), i) { NoTail(i); }
  }

  // ---- the choices ----

  lemma SumChoices()
    ensures EmitChoices(SumCompiled(), SumDraft())
  {
    hide CodeFrom, Peep, SumIr, AfterCode, MatchNormalized, FusedAt, Adjacent, Incoming, FusesChain;
    SumShape(SumIr());
    forall i: nat ensures !FusesChain(SumUnit(), i) { NoChainHere(SumUnit(), i); }
    assert ChainsSafe(SumUnit());
    SumTestsFused();
  }

  lemma SumTestsFused()
    ensures NoSavedTests(SumUnit())
  {
    hide FusedAt, AfterCode;
    SumFused(SumUnit());
    forall i: nat, j: nat | Adjacent(SumUnit().ir, i, j) ensures i == 3 && j == 4 {}
  }

  lemma SumReady(syms: map<string, i32>, sigs: Sigs)
    requires "sum" in sigs && sigs["sum"] == Sig(1, true)
    ensures Produces(SumCompiled(), SumDraft()) && EmitOk(SumIr(), "sum", syms, sigs)
    ensures EmitChoices(SumCompiled(), SumDraft())
  {
    hide Produces, InputOk, LiveInput, TestsDead, EmitChoices;
    SumProduced();
    SumInput(syms);
    SumLiveInput(sigs);
    SumDead();
    SumChoices();
  }
}
