/** A local in t3, and a chain that becomes a remainder which saves its dividend there. */
module DividendSaved {
  import opened Word
  import opened Ir
  import opened IrFlow
  import opened IrMachine
  import opened Rv32
  import opened Frame
  import opened Control
  import opened TempRanges
  import opened Allocation
  import opened Selection
  import opened BinaryOp
  import opened FrameCode
  import opened Remainder
  import opened Body
  import opened PlainCode
  import opened FunctionSim
  import opened LeafUnits
  import BodyFlow

  /** h(); w = 5; q = 100 / 7; p = q * 7; r = 100 - p; r = r + 7; u = r / 7; v = u * 7; g = r - v; return w */
  function ChainBetween(): seq<IrInst>
  {
    [IrInst(CALL, NoOperand, Func("h"), NoOperand),
     IrInst(ASSIGN, Local("w"), Imm(5), NoOperand),
     IrInst(DIV, Local("q"), Imm(100), Imm(7)),
     IrInst(MUL, Local("p"), Local("q"), Imm(7)),
     IrInst(SUB, Local("r"), Imm(100), Local("p")),
     IrInst(ADD, Local("r"), Local("r"), Imm(7)),
     IrInst(DIV, Local("u"), Local("r"), Imm(7)),
     IrInst(MUL, Local("v"), Local("u"), Imm(7)),
     IrInst(SUB, Global("g"), Local("r"), Local("v")),
     IrInst(RETURN, Local("w"), NoOperand, NoOperand)]
  }

  /** First come, first served: no MOD is written out, so t3 is among the block-local registers. */
  function Temps(): map<string, Reg>
  {
    map["w" := T(3), "q" := T(4), "p" := T(5), "r" := T(4), "u" := T(5), "v" := T(6)]
  }

  function SavedFrame(): StackFrame
  {
    StackFrame(true, false, 0, 0, map["w" := -1, "q" := -1, "p" := -1, "r" := -1, "u" := -1, "v" := -1], map[], map[],
               map[], Temps(), map[], [])
  }

  function SavedUnit(): Unit
  {
    Unit("f", ChainBetween(), SavedFrame(), 16, {}, {}, false, AfterCode("f", SavedFrame(), 16, []))
  }

  lemma NamesDiffer()
    ensures "w" != "q" && "w" != "p" && "w" != "r" && "w" != "u" && "w" != "v" && "q" != "p" && "q" != "r" && "q" != "u"
    ensures "q" != "v" && "p" != "r" && "p" != "u" && "p" != "v" && "r" != "u" && "r" != "v" && "u" != "v"
  {
    assert "w"[0] != "q"[0] && "w"[0] != "p"[0] && "w"[0] != "r"[0] && "w"[0] != "u"[0] && "w"[0] != "v"[0];
    assert "q"[0] != "p"[0] && "q"[0] != "r"[0] && "q"[0] != "u"[0] && "q"[0] != "v"[0];
    assert "p"[0] != "r"[0] && "p"[0] != "u"[0] && "p"[0] != "v"[0];
    assert "r"[0] != "u"[0] && "r"[0] != "v"[0] && "u"[0] != "v"[0];
  }

  // ---- the tables ----

  lemma SecondBlock(ir: seq<IrInst>)
    requires ir == ChainBetween()
    ensures forall k :: 1 <= k <= 9 ==> BlockOf(ir, k) == 1
  {
    assert BlockOf(ir, 1) == 1 && BlockOf(ir, 2) == 1 && BlockOf(ir, 3) == 1 && BlockOf(ir, 4) == 1;
    assert BlockOf(ir, 5) == 1 && BlockOf(ir, 6) == 1 && BlockOf(ir, 7) == 1 && BlockOf(ir, 8) == 1 &&
           BlockOf(ir, 9) == 1;
  }

  /** Where each local is mentioned. */
  function First(name: string): nat
  {
    if name == "w" then 1 else if name == "q" then 2 else if name == "p" then 3 else if name == "r" then 4
    else if name == "u" then 6 else 7
  }

  function Last(name: string): nat
  {
    if name == "w" then 9 else if name == "q" then 3 else if name == "p" then 4 else if name == "r" then 8
    else if name == "u" then 7 else 8
  }

  lemma Candidate(ir: seq<IrInst>, name: string)
    requires ir == ChainBetween() && name in {"w", "q", "p", "r", "u", "v"}
    ensures IsCandidate(ir, name)
    ensures forall k :: 0 <= k < |RangesOf(ir, name)| ==>
              First(name) <= RangesOf(ir, name)[k].start && RangesOf(ir, name)[k].end <= Last(name)
  {
    hide BlockOf, IsCandidate, RangesOf;
    NamesDiffer();
    SecondBlock(ir);
    SpanCandidate(ir, name, First(name), Last(name));
  }

  lemma Disjoint(ir: seq<IrInst>, a: string, b: string)
    requires ir == ChainBetween() && a in {"w", "q", "p", "r", "u", "v"} && b in {"w", "q", "p", "r", "u", "v"}
    requires Last(a) < First(b) && IsCandidate(ir, a) && IsCandidate(ir, b)
    ensures !SomeOverlap(RangesOf(ir, a), RangesOf(ir, b)) && !SomeOverlap(RangesOf(ir, b), RangesOf(ir, a))
  {
    hide IsCandidate, First, Last, ChainBetween;
    Candidate(ir, a);
    Candidate(ir, b);
  }

  lemma SavedTemps(ir: seq<IrInst>)
    requires ir == ChainBetween()
    ensures TempsOk(ir, Temps())
  {
    hide IsCandidate, SomeOverlap, RangesOf, ChainBetween;
    NamesDiffer();
    forall name | name in Temps() ensures IsCandidate(ir, name) { Candidate(ir, name); }
    Disjoint(ir, "q", "r");
    Disjoint(ir, "p", "u");
    NoModulo(ir);
  }

  lemma NoModulo(ir: seq<IrInst>)
    requires ir == ChainBetween()
    ensures TempRegisters(ir) == [T(3), T(4), T(5), T(6)]
    ensures forall r :: r in {T(3), T(4), T(5), T(6)} ==> r in TempRegisters(ir)
  {
    assert TempRegisters(ir)[0] == T(3) && TempRegisters(ir)[1] == T(4) && TempRegisters(ir)[2] == T(5) &&
      TempRegisters(ir)[3] == T(6);
  }

  lemma SavedLocals()
    ensures Locals(ChainBetween()) <= {"w", "q", "p", "r", "u", "v"}
  {
    var ir := ChainBetween();
    forall x | x in Locals(ir) ensures x in {"w", "q", "p", "r", "u", "v"} {
      var i :| 0 <= i < |ir| && x in LocalName(ir[i].dest) + LocalName(ir[i].src1) + LocalName(ir[i].src2);
    }
  }

  lemma NothingStaged(ir: seq<IrInst>)
    requires ir == ChainBetween()
    ensures ParamIndex(ir, 10) == 0 && OverflowArgs(ir, 10) == 0 && Incoming(ir, 10) == map[]
  {
    NothingComesIn(ir, 10);
  }

  lemma SavedPlaces(name: string)
    requires name in {"w", "q", "p", "r", "u", "v"}
    ensures name in Temps() && RegForVar(SavedFrame(), name) == Frame.Some(Temps()[name])
  {
    NamesDiffer();
  }

  lemma SavedDefinitions(ir: seq<IrInst>)
    requires ir == ChainBetween()
    ensures DefinitionsSafe(ir, SavedFrame())
  {
    hide Locals, LiveAfterInst, TempsOk, Temps, RegForVar, IsCopy;
    SavedLocals();
    SavedTemps(ir);
    assert LabelsReadNothing(ir);
    forall i, d, w | 0 <= i < |ir| && Disturbs(ir, i, d, w) ensures PlacesDiffer(SavedFrame(), d, w) {
      DefinedIsLocal(ir, i, d);
      LiveIsLocal(ir, i, w);
      SavedPlaces(d);
      SavedPlaces(w);
      TempsSound(ir, Temps(), i, d, w);
    }
  }

  lemma SavedRegistersOk(ir: seq<IrInst>)
    ensures TablesOk(SavedFrame()) && RegistersSafe(ir, SavedFrame())
  {
    NamesDiffer();
  }

  lemma SavedFits(ir: seq<IrInst>)
    requires ir == ChainBetween()
    ensures FrameFits(ir, SavedFrame())
  {
    hide Locals, ParamIndex, OverflowArgs, ChainBetween;
    NamesDiffer();
    SavedLocals();
    NothingStaged(ir);
    assert |ir| == 10 by { Length(ir); }
  }

  lemma Length(ir: seq<IrInst>)
    requires ir == ChainBetween()
    ensures |ir| == 10 && HasCall(ir) && forall i :: 0 <= i < |ir| ==> !ir[i].op.MOD?
  {
    assert ir[0].op.CALL?;
  }

  /** The analysis may place the locals so. */
  lemma SavedTables()
    ensures TablesFor(ChainBetween(), SavedFrame())
  {
    hide DefinitionsSafe, Locals, Incoming, ParamIndex, OverflowArgs, FrameFits, RegistersSafe, TablesOk, TempsOk,
         ChainBetween, HasCall;
    var ir := ChainBetween();
    Length(ir);
    NothingStaged(ir);
    SavedRegistersOk(ir);
    SavedFits(ir);
    SavedDefinitions(ir);
    SavedTemps(ir);
  }

  lemma SavedSize()
    ensures FrameSize(SavedFrame()) == 16
  {
    hide Temps;
    assert MaxSlot(SavedFrame().localOffsets) == -1 by { AllInRegisters(SavedFrame().localOffsets); }
  }

  lemma AllInRegisters(offsets: map<string, int>)
    requires forall name :: name in offsets ==> offsets[name] == -1
    ensures MaxSlot(offsets) == -1
  {
  }

  // ---- the chain ----

  lemma ChainHere()
    ensures MatchNormalized(ChainBetween(), 2) == Some(Normalized(Imm(100), Global("g"), Local("r"), 7, 7))
  {
    var ir := ChainBetween();
    assert MatchRaw(ir, 2) == Some(RawRemainder(Imm(100), Local("r"), 7, 3));
    assert MatchRaw(ir, 6) == Some(RawRemainder(Local("r"), Global("g"), 7, 3));
  }

  lemma ScanFinds()
    ensures !ScanLive(ChainBetween(), 9, "r")
  {
    NamesDiffer();
    assert !ScanLive(ChainBetween(), 10, "r");
  }

  function BySeven(): IrInst { IrInst(MOD, Global("g"), Imm(100), Imm(7)) }

  lemma SevenIsNoPower()
    ensures !IsPowerOfTwo(7) && MagicApplies(7)
  {
    assert BitAnd(1, 0) == 0 && BitAnd(3, 3) == 3;
    assert BitAnd(7, 6) != 0;
  }

  lemma ChainFused()
    ensures FusesChain(SavedUnit(), 2) && ChainLength(SavedUnit(), 2) == 7
    ensures ChainCode(SavedUnit(), 2) == BinaryCode(SavedFrame(), BySeven(), false)
  {
    hide MatchNormalized, ScanLive, IsPowerOfTwo, Ctz, BinaryCode;
    ChainHere();
    ScanFinds();
    SevenIsNoPower();
  }

  /** The remainder saves its dividend, and every state is ready for it. */
  lemma RemainderSpills(s: State)
    ensures SpillsT3(SavedFrame(), BySeven()) && Ready(SavedFrame(), BySeven(), false, s)
    ensures R(Run(BinaryCode(SavedFrame(), BySeven(), false), s), T(3)) == 100
    ensures AllPlain(BinaryCode(SavedFrame(), BySeven(), false))
  {
    hide BinaryCode, Run, R, MagicApplies, Temps;
    SevenIsNoPower();
    SpillOverwritesT3(SavedFrame(), BySeven(), false, s);
    BinaryPlain(SavedFrame(), BySeven(), false);
  }

  lemma AloneHere(i: nat)
    requires i in {0, 1, 9}
    ensures Alone(SavedUnit(), i)
  {
    hide MatchNormalized, UseCount;
    if FusesChain(SavedUnit(), i) { ChainOpens(ChainBetween(), i); }
  }

  lemma FirstLines()
    ensures InstCode(SavedUnit(), 0) == [Call("h")] && InstCode(SavedUnit(), 1) == [Li(T(3), 5)]
  {
    hide BinaryCode, Temps;
    SavedPlaces("w");
    HomeOfW();
  }

  lemma LastLines()
    ensures InstCode(SavedUnit(), 9) == [Mv(A(0), T(3)), J(ExitLabel("f"))]
  {
    hide BinaryCode, ExitLabel, Temps;
    SavedPlaces("w");
    HomeOfW();
  }

  lemma HomeOfW()
    ensures "w" in Temps() && Temps()["w"] == T(3)
  {
    NamesDiffer();
  }

  function Before(): seq<Instr>
  {
    [Lab("f"), AluI(Addi, Sp, Sp, -16), Sw(Ra, 12, Sp), Sw(S(0), 8, Sp), AluI(Addi, S(0), Sp, 16), Lab(BodyLabel("f"))]
  }

  function Middle(): seq<Instr> { [Li(T(3), 5)] + BinaryCode(SavedFrame(), BySeven(), false) + [Mv(A(0), T(3))] }

  function Behind(): seq<Instr> { [Lab(ExitLabel("f")), Lw(Ra, -4, S(0)), Lw(S(0), -8, S(0)), AluI(Addi, Sp, Sp, 16)] }

  function SavedText(): seq<Instr>
  {
    Before() + ([Call("h")] + (Middle() + ([J(ExitLabel("f"))] + (Behind() + [Ret]))))
  }

  lemma SavedAfter()
    ensures SavedUnit().after == Behind() + [Ret]
    ensures BeforeCode("f", SavedFrame(), 16, [], []) + [Lab(BodyLabel("f"))] == Before()
  {
    hide ExitLabel, BodyLabel, Temps;
    var f := SavedFrame();
    assert StoreGlobalsCode(f, []) == [] && LoadGlobalsCode(f, []) == [] && LoadConstantsCode(f, []) == [];
    assert EpilogueCode(f, 16) == [Lw(Ra, -4, S(0)), Lw(S(0), -8, S(0)), AluI(Addi, Sp, Sp, 16), Ret];
    assert PrologueCode(f, 16) == [AluI(Addi, Sp, Sp, -16), Sw(Ra, 12, Sp), Sw(S(0), 8, Sp), AluI(Addi, S(0), Sp, 16)];
  }

  lemma SavedCode()
    ensures FunctionCode(SavedUnit(), [], []) == SavedText()
  {
    hide InstCode, Alone, CodeFrom, FusesChain, ChainCode, ExitLabel, BodyLabel, BinaryCode, BeforeCode, AfterCode,
         Behind, Before;
    var c := SavedUnit();
    FirstLines();
    LastLines();
    SavedAfter();
    AloneHere(0);
    AloneHere(1);
    AloneHere(9);
    AloneCode(c, 0);
    AloneCode(c, 1);
    AloneCode(c, 9);
    ChainFused();
    ChainHead(c, 2);
    NothingLeft(c, 10);
    var jump := [J(ExitLabel("f"))] + (Behind() + [Ret]);
    assert CodeFrom(c, 9) == [Mv(A(0), T(3))] + jump;
    assert CodeFrom(c, 1) == Middle() + jump;
    assert CodeFrom(c, 0) == [Call("h")] + (Middle() + jump);
  }

  // ---- runs ----

  lemma MiddleState(s: State)
    ensures R(Run(Middle(), s), A(0)) == 100
    ensures forall i :: i in Middle() ==> IsStraight(i)
  {
    hide Run, BinaryCode, R;
    var b := BinaryCode(SavedFrame(), BySeven(), false);
    RemainderSpills(Run([Li(T(3), 5)], s));
    RunAppend([Li(T(3), 5)], b, s);
    RunAppend([Li(T(3), 5)] + b, [Mv(A(0), T(3))], s);
    MoveRuns(Run([Li(T(3), 5)] + b, s));
    StraightMiddle(b);
  }

  lemma StraightMiddle(b: seq<Instr>)
    requires AllPlain(b)
    ensures forall i :: i in [Li(T(3), 5)] + b + [Mv(A(0), T(3))] ==> IsStraight(i)
  {
    forall i | i in b ensures IsStraight(i) { assert Plain(i); }
  }

  lemma MoveRuns(s: State)
    ensures R(Run([Mv(A(0), T(3))], s), A(0)) == R(s, T(3))
  {
    Run1(Mv(A(0), T(3)), s);
  }

  lemma BehindState(s: State)
    ensures R(Run(Behind(), s), A(0)) == R(s, A(0))
  {
    hide Run, Load, Wrap, ExitLabel;
    assert Behind() == [Lab(ExitLabel("f")), Lw(Ra, -4, S(0))] + [Lw(S(0), -8, S(0)), AluI(Addi, Sp, Sp, 16)];
    RunAppend([Lab(ExitLabel("f")), Lw(Ra, -4, S(0))], [Lw(S(0), -8, S(0)), AluI(Addi, Sp, Sp, 16)], s);
    Run2(Lab(ExitLabel("f")), Lw(Ra, -4, S(0)), s);
    Run2(Lw(S(0), -8, S(0)), AluI(Addi, Sp, Sp, 16), Run([Lab(ExitLabel("f")), Lw(Ra, -4, S(0))], s));
  }

  lemma EndsStraight()
    ensures (forall i :: i in Before() ==> IsStraight(i)) && (forall i :: i in Behind() ==> IsStraight(i))
    ensures forall l :: Lab(l) in Before() ==> l == "f" || l == BodyLabel("f")
  {
    hide ExitLabel, BodyLabel;
  }

  lemma MiddleUnlabelled(l: string)
    ensures Lab(l) !in Middle()
  {
    hide BinaryCode;
    RemainderSpills(State(map[], map[], map[]));
    var b := BinaryCode(SavedFrame(), BySeven(), false);
    if Lab(l) in b { assert Plain(Lab(l)); }
  }

  lemma ExitAt()
    ensures HasLabel(SavedText(), ExitLabel("f")) && After(SavedText(), ExitLabel("f")) == Behind() + [Ret]
  {
    hide After, HasLabel, Middle;
    BodyFlow.ExitIsNotBody("f");
    assert |ExitLabel("f")| > 1;
    hide ExitLabel, BodyLabel;
    EndsStraight();
    MiddleUnlabelled(ExitLabel("f"));
    var a := Before() + [Call("h")] + Middle() + [J(ExitLabel("f"))];
    AfterAppend(a, Behind() + [Ret], ExitLabel("f"));
    assert a + (Behind() + [Ret]) == SavedText();
    BodyFlow.LandsHere(ExitLabel("f"), (Behind() + [Ret])[1..]);
    assert [Lab(ExitLabel("f"))] + (Behind() + [Ret])[1..] == Behind() + [Ret];
  }

  /** Whatever h does, the text returns 100. */
  lemma MachineReturns(s: State, calls: Calls) returns (n: nat)
    ensures var x := Exec(SavedText(), SavedText(), s, n, calls);
            x.Exit? && x.how == Returns && R(x.s, A(0)) == 100
  {
    hide Exec, Run, R, After, HasLabel, Before, Middle, Behind, ExitLabel, SavedText;
    var p, last := SavedText(), Behind() + [Ret];
    var jump := [J(ExitLabel("f"))] + last;
    var body := [Call("h")] + (Middle() + jump);
    assert p == Before() + body by { TextParts(); }
    var s1 := Run(Before(), s);
    var s2 := calls("h", s1);
    var s3 := Run(Middle(), s2);
    EndsStraight();
    MiddleState(s2);
    BehindState(s3);
    ExitAt();
    ExecStraight(p, Before(), body, s, calls);
    CallTakes(p, Middle() + jump, s1, calls);
    ExecStraight(p, Middle(), jump, s2, calls);
    JumpTakes(p, ExitLabel("f"), last, s3, calls);
    ExecStraight(p, Behind(), [Ret], s3, calls);
    ReturnTakes(p, Run(Behind(), s3), calls);
    ExecSplit(p, last, s3, |Behind()|, 1, calls);
    ExecSplit(p, jump, s3, 1, |Behind()| + 1, calls);
    ExecSplit(p, Middle() + jump, s2, |Middle()|, 1 + (|Behind()| + 1), calls);
    ExecSplit(p, body, s1, 1, |Middle()| + (1 + (|Behind()| + 1)), calls);
    ExecSplit(p, p, s, |Before()|, 1 + (|Middle()| + (1 + (|Behind()| + 1))), calls);
    n := |Before()| + (1 + (|Middle()| + (1 + (|Behind()| + 1))));
  }

  lemma TextParts()
    ensures SavedText() == Before() + ([Call("h")] + (Middle() + ([J(ExitLabel("f"))] + (Behind() + [Ret]))))
  {
  }

  lemma CallTakes(p: seq<Instr>, k: seq<Instr>, s: State, calls: Calls)
    ensures Exec(p, [Call("h")] + k, s, 1, calls) == At(k, calls("h", s))
  {
    assert ([Call("h")] + k)[1..] == k;
    assert Exec(p, k, calls("h", s), 0, calls) == At(k, calls("h", s));
  }

  // ---- the intermediate representation ----

  lemma CallSteps(icalls: IrCalls, st: IrState, r: CallResult)
    requires icalls("h", st.args, st.globals) == Some(r)
    ensures var ir, s1 := ChainBetween(), st.(globals := r.globals, args := map[]);
            && IrStep(ir, {}, icalls, 0, st) == Goes(1, s1)
            && IrStep(ir, {}, icalls, 1, s1) == Goes(2, Assign(s1, Local("w"), 5))
  {
  }

  lemma QuotientStep(icalls: IrCalls, st: IrState)
    ensures IrStep(ChainBetween(), {}, icalls, 2, st) == Goes(3, Assign(st, Local("q"), 14))
  {
    assert RvDiv(100, 7) == 14;
  }

  lemma ProductSteps(icalls: IrCalls, st: IrState)
    requires "q" in st.locals && st.locals["q"] == 14
    ensures var ir, p := ChainBetween(), Assign(st, Local("p"), 98);
            && IrStep(ir, {}, icalls, 3, st) == Goes(4, p)
            && IrStep(ir, {}, icalls, 4, p) == Goes(5, Assign(p, Local("r"), 2))
            && IrStep(ir, {}, icalls, 5, Assign(p, Local("r"), 2)) ==
               Goes(6, Assign(Assign(p, Local("r"), 2), Local("r"), 9))
  {
    NamesDiffer();
  }

  lemma LastSteps(icalls: IrCalls, st: IrState)
    requires "r" in st.locals && st.locals["r"] == 9
    ensures var ir, u := ChainBetween(), Assign(st, Local("u"), 1);
            && IrStep(ir, {}, icalls, 6, st) == Goes(7, u)
            && IrStep(ir, {}, icalls, 7, u) == Goes(8, Assign(u, Local("v"), 7))
            && IrStep(ir, {}, icalls, 8, Assign(u, Local("v"), 7)) ==
               Goes(9, Assign(Assign(u, Local("v"), 7), Global("g"), 2))
  {
    NamesDiffer();
    assert RvDiv(9, 7) == 1;
  }

  lemma ReturnStep(icalls: IrCalls, st: IrState)
    requires "w" in st.locals && st.locals["w"] == 5
    ensures IrStep(ChainBetween(), {}, icalls, 9, st) == Done(CallResult(Some(5), st.globals))
  {
  }

  /** From the call to the first sum. */
  lemma FirstHalf(icalls: IrCalls, st: IrState, r: CallResult, n: nat)
    requires icalls("h", st.args, st.globals) == Some(r) && n >= 6
    ensures var s2 := Assign(st.(globals := r.globals, args := map[]), Local("w"), 5);
            var s5 := Assign(Assign(Assign(s2, Local("q"), 14), Local("p"), 98), Local("r"), 2);
            IrRun(ChainBetween(), {}, {}, icalls, 0, st, n) ==
            IrRun(ChainBetween(), {}, {}, icalls, 6, Assign(s5, Local("r"), 9), n - 6)
  {
    hide IrRun, IrStep, ChainBetween;
    var ir := ChainBetween();
    assert |ir| == 10 by { Length(ir); }
    var s1 := st.(globals := r.globals, args := map[]);
    var s2 := Assign(s1, Local("w"), 5);
    var s3 := Assign(s2, Local("q"), 14);
    var s4 := Assign(s3, Local("p"), 98);
    var s5 := Assign(s4, Local("r"), 2);
    CallSteps(icalls, st, r);
    QuotientStep(icalls, s2);
    ProductSteps(icalls, s3);
    RunTakes(ir, {}, {}, icalls, 0, st, n, 1, s1);
    RunTakes(ir, {}, {}, icalls, 1, s1, n - 1, 2, s2);
    RunTakes(ir, {}, {}, icalls, 2, s2, n - 2, 3, s3);
    RunTakes(ir, {}, {}, icalls, 3, s3, n - 3, 4, s4);
    RunTakes(ir, {}, {}, icalls, 4, s4, n - 4, 5, s5);
    RunTakes(ir, {}, {}, icalls, 5, s5, n - 5, 6, Assign(s5, Local("r"), 9));
  }

  lemma SecondHalf(icalls: IrCalls, st: IrState)
    requires "r" in st.locals && st.locals["r"] == 9 && "w" in st.locals && st.locals["w"] == 5
    ensures IrRun(ChainBetween(), {}, {}, icalls, 6, st, 4) == Done(CallResult(Some(5), st.globals["g" := 2]))
  {
    hide IrRun, IrStep, ChainBetween;
    var ir := ChainBetween();
    assert |ir| == 10 by { Length(ir); }
    NamesDiffer();
    var s7 := Assign(st, Local("u"), 1);
    var s8 := Assign(s7, Local("v"), 7);
    var s9 := Assign(s8, Global("g"), 2);
    LastSteps(icalls, st);
    ReturnStep(icalls, s9);
    RunTakes(ir, {}, {}, icalls, 6, st, 4, 7, s7);
    RunTakes(ir, {}, {}, icalls, 7, s7, 3, 8, s8);
    RunTakes(ir, {}, {}, icalls, 8, s8, 2, 9, s9);
    RunEnds(ir, {}, {}, icalls, 9, s9, 1, CallResult(Some(5), st.globals["g" := 2]));
  }

  /** If h returns, the intermediate representation returns 5. */
  lemma IrReturns(icalls: IrCalls, st: IrState, r: CallResult)
    requires icalls("h", st.args, st.globals) == Some(r)
    ensures IrRun(ChainBetween(), {}, {}, icalls, 0, st, 10) == Done(CallResult(Some(5), r.globals["g" := 2]))
  {
    hide IrRun, IrStep, ChainBetween;
    NamesDiffer();
    FirstHalf(icalls, st, r, 10);
    var s2 := Assign(st.(globals := r.globals, args := map[]), Local("w"), 5);
    var s5 := Assign(Assign(Assign(s2, Local("q"), 14), Local("p"), 98), Local("r"), 2);
    SecondHalf(icalls, Assign(s5, Local("r"), 9));
  }

  /**
    The chain becomes a remainder that saves its dividend in t3, where a local is live: the function's value is 5, and
    its text returns 100.
   */
  lemma DividendSaved(icalls: IrCalls, st: IrState, r: CallResult, s: State, calls: Calls) returns (n: nat)
    requires icalls("h", st.args, st.globals) == Some(r)
    ensures TablesFor(SavedUnit().ir, SavedUnit().f) && SavedUnit().size == FrameSize(SavedUnit().f)
    ensures FusesChain(SavedUnit(), 2) && SpillsT3(SavedUnit().f, BySeven()) && SavedUnit().f.tempRegs["w"] == T(3)
    ensures IrRun(ChainBetween(), {}, {}, icalls, 0, st, 10) == Done(CallResult(Some(5), r.globals["g" := 2]))
    ensures var p := FunctionCode(SavedUnit(), [], []);
            && Exec(p, p, s, n, calls).Exit? && Exec(p, p, s, n, calls).how == Returns
            && R(Exec(p, p, s, n, calls).s, A(0)) == 100
  {
    hide Exec, IrRun, FunctionCode, TablesFor, FrameSize, R, FusesChain, SpillsT3, SavedText;
    SavedTables();
    SavedSize();
    ChainFused();
    RemainderSpills(s);
    SavedCode();
    SavedPlaces("w");
    IrReturns(icalls, st, r);
    n := MachineReturns(s, calls);
  }
}
