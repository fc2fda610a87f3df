/** A whole program with a call, a loop, a parameter and a saved register, and what its emitted texts return. */
module SumProgram {
  import opened Word
  import opened Ir
  import opened IrFlow
  import opened IrMachine
  import opened Rv32
  import opened Frame
  import opened Liveness
  import opened TempRanges
  import opened Allocation
  import opened BinaryOp
  import opened FrameCode
  import opened Remainder
  import opened Body
  import opened Homes
  import opened FunctionSim
  import opened ChainSim
  import opened NonNeg
  import opened NonNegSound
  import opened TailCall
  import opened Peephole
  import opened PeepholeRuns
  import opened SavedRegisters
  import opened TextLive
  import opened BodyLive
  import opened DeadTests
  import opened WholeProgram
  import opened EmittedProgram
  import opened Generated
  import opened GeneratedProgram
  import opened LeafUnits
  import opened SumFunction
  import Sim = StepSim

  /** `int total() { return sum(10) + 1; }` */
  function TotalIr(): seq<IrInst>
  {
    [IrInst(PARAM, Imm(10), Imm(0), NoOperand),
     IrInst(CALL, Local("r"), Func("sum"), NoOperand),
     IrInst(ADD, Local("q"), Local("r"), Imm(1)),
     IrInst(RETURN, Local("q"), NoOperand, NoOperand)]
  }

  function TotalRegisters(): map<string, nat> { map["r" := 2] }

  function TotalTemps(): map<string, Reg> { map["q" := T(3)] }

  function TotalFrame(used: seq<Reg>): StackFrame
  {
    StackFrame(true, false, 0, 0, map["r" := -1, "q" := -1], TotalRegisters(), map[], map[], TotalTemps(), map[], used)
  }

  function TotalUnit(): Unit
  {
    Unit("total", TotalIr(), TotalFrame([S(2)]), 16, {}, {}, false, AfterCode("total", TotalFrame([S(2)]), 16, []))
  }

  function TotalDraft(): Unit { Unit("total", TotalIr(), TotalFrame([]), 0, {}, {}, true, []) }

  function TotalCompiled(): Compiled { Compiled(TotalUnit(), [], []) }

  lemma LocalsDiffer()
    ensures "r" != "q"
  {
    assert "r"[0] != "q"[0];
  }

  // ---- the tables ----

  lemma TotalShape(ir: seq<IrInst>)
    requires ir == TotalIr()
    ensures |ir| == 4 && HasCall(ir) && (forall i :: 0 <= i < 4 ==>
                                           !DeclaresParam(ir[i]) && !ir[i].op.LABEL? && !ir[i].op.MOD?)
  {
    assert ir[1].op.CALL?;
  }

  lemma TotalLocals()
    ensures Locals(TotalIr()) <= {"r", "q"}
  {
    var ir := TotalIr();
    forall v | v in Locals(ir) ensures v in {"r", "q"} {
      var i :| 0 <= i < |ir| && v in LocalName(ir[i].dest) + LocalName(ir[i].src1) + LocalName(ir[i].src2);
    }
  }

  lemma TotalParams(ir: seq<IrInst>)
    requires ir == TotalIr()
    ensures ParamIndex(ir, 4) == 0 && OverflowArgs(ir, 4) == 0 && Incoming(ir, 4) == map[]
  {
    assert ParamIndex(ir, 2) == 0 && OverflowArgs(ir, 2) == 0 && Incoming(ir, 2) == map[];
  }

  lemma TotalCandidate(ir: seq<IrInst>)
    requires ir == TotalIr()
    ensures TempsOk(ir, TotalTemps()) && LabelsReadNothing(ir)
  {
    hide IsCandidate;
    LocalsDiffer();
    assert BlockOf(ir, 2) == BlockOf(ir, 3);
    hide BlockOf;
    SpanCandidate(ir, "q", 2, 3);
    assert TempRegisters(ir)[0] == T(3);
  }

  lemma TotalPlaces(name: string, used: seq<Reg>)
    requires name in {"r", "q"}
    ensures RegForVar(TotalFrame(used), name) == Frame.Some(if name == "r" then S(2) else T(3))
  {
    LocalsDiffer();
  }

  lemma TotalDefinitions(ir: seq<IrInst>, used: seq<Reg>)
    requires ir == TotalIr()
    ensures DefinitionsSafe(ir, TotalFrame(used))
  {
    hide Locals, LiveAfterInst, RegForVar, IsCopy, TotalIr;
    TotalLocals();
    TotalCandidate(ir);
    forall i, d, w | 0 <= i < |ir| && Disturbs(ir, i, d, w) ensures PlacesDiffer(TotalFrame(used), d, w) {
      DefinedIsLocal(ir, i, d);
      LiveIsLocal(ir, i, w);
      TotalPlaces(d, used);
      TotalPlaces(w, used);
    }
  }

  lemma TotalTables(used: seq<Reg>)
    requires |used| <= 1
    ensures TablesFor(TotalIr(), TotalFrame(used))
  {
    hide DefinitionsSafe, Locals, Incoming, ParamIndex, OverflowArgs, TempsOk, HasCall, TotalIr;
    LocalsDiffer();
    TotalShape(TotalIr());
    TotalParams(TotalIr());
    TotalLocals();
    TotalDefinitions(TotalIr(), used);
    TotalCandidate(TotalIr());
  }

  lemma TotalSize()
    ensures FrameSize(TotalFrame([S(2)])) == 16
  {
    var offsets := TotalFrame([S(2)]).localOffsets;
    assert forall name :: name in offsets ==> offsets[name] == -1;
    assert MaxSlot(offsets) == -1;
  }

  // ---- the lines ----

  lemma TotalNoChain(c: Unit, i: nat)
    requires c.ir == TotalIr()
    ensures !FusesChain(c, i) && MatchNormalized(c.ir, i).None?
  {
    hide MatchNormalized;
    if MatchNormalized(c.ir, i).Some? { ChainOpens(c.ir, i); }
  }

  lemma TotalAlone(c: Unit, i: nat)
    requires c.ir == TotalIr() && i < 4
    ensures Alone(c, i)
  {
    hide UseCount, FusesChain;
    TotalNoChain(c, i);
  }

  predicate TotalHas(c: Unit, used: seq<Reg>)
  {
    c.name == "total" && c.ir == TotalIr() && c.f == TotalFrame(used) && c.tails == {}
  }

  lemma TotalLine(c: Unit, used: seq<Reg>)
    requires TotalHas(c, used)
    ensures InstCode(c, 2) == [AluI(Addi, T(3), S(2), 1)]
  {
    hide IsPowerOfTwo, Ctz;
    LocalsDiffer();
  }

  lemma TotalLines(c: Unit, used: seq<Reg>)
    requires TotalHas(c, used)
    ensures InstCode(c, 0) == [Li(A(0), 10)] && InstCode(c, 1) == [Call("sum"), Mv(S(2), A(0))]
  {
    hide BinaryCode;
    LocalsDiffer();
  }

  lemma TotalLast(c: Unit, used: seq<Reg>)
    requires TotalHas(c, used)
    ensures InstCode(c, 3) == [Mv(A(0), T(3)), J(ExitLabel("total"))]
  {
    hide BinaryCode, ExitLabel;
    LocalsDiffer();
  }

  function TotalBody(): seq<Instr>
  {
    [Li(A(0), 10), Call("sum"), Mv(S(2), A(0)), AluI(Addi, T(3), S(2), 1), Mv(A(0), T(3)), J(ExitLabel("total"))]
  }

  lemma TotalCode(c: Unit, used: seq<Reg>)
    requires TotalHas(c, used)
    ensures CodeFrom(c, 0) == TotalBody() + c.after
  {
    hide InstCode, Alone, CodeFrom, TotalIr, ExitLabel, TotalFrame;
    TotalShape(TotalIr());
    forall i: nat | i < 4 ensures CodeFrom(c, i) == InstCode(c, i) + CodeFrom(c, i + 1) {
      TotalAlone(c, i);
      AloneCode(c, i);
    }
    TotalLines(c, used);
    TotalLine(c, used);
    TotalLast(c, used);
    NothingLeft(c, 4);
    assert CodeFrom(c, 2) == [AluI(Addi, T(3), S(2), 1), Mv(A(0), T(3)), J(ExitLabel("total"))] + c.after;
  }

  // ---- what the generator produces ----

  /** Every window ends in a branch on a register. */
  lemma {:induction false} NoBranchNoWindow(k: seq<Instr>)
    requires forall l :: l in k ==> !l.BrZ?
    ensures ScratchWindows(k)
    decreases |k|
  {
    hide IsAluI;
    if k != [] { NoBranchNoWindow(k[Consumed(k)..]); }
  }

  lemma TotalNames(r: Reg)
    ensures var p := CodeFrom(TotalDraft(), 0);
            ScratchWindows(p) && (r.S? && 2 <= r.n < 12 && Named(Peep(p), r) <==> r == S(2))
  {
    hide CodeFrom, Peep, ScratchWindows, TotalBody, Named, TotalFrame, TotalIr;
    var p := TotalBody();
    TotalCode(TotalDraft(), []);
    assert p + [] == p;
    TotalBodyLines(r);
    NoBranchNoWindow(p);
    PeepNames(p, 2);
    if Named(Peep(p), r) { PeepNamesOnly(p, r); }
  }

  lemma TotalBodyLines(r: Reg)
    ensures forall l :: l in TotalBody() ==> !l.BrZ? && (r.S? && r.n >= 1 && r in Defs(l) ==> r == S(2))
    ensures Writes(TotalBody(), S(2)) && (r.S? && Named(TotalBody(), r) ==> r == S(2))
  {
    hide ExitLabel;
    assert TotalBody()[2] == Mv(S(2), A(0));
    assert Mv(S(2), A(0)) in TotalBody() && S(2) in Defs(Mv(S(2), A(0))) && !IsNoOp(Mv(S(2), A(0)));
  }

  lemma TotalEnd()
    ensures TotalUnit().after == [Lab(ExitLabel("total")), Lw(S(2), -12, S(0)), Lw(Ra, -4, S(0)), Lw(S(0), -8, S(0)),
                                  AluI(Addi, Sp, Sp, 16), Ret]
  {
    hide ExitLabel, TotalIr;
    assert RestoreCode([S(2)]) == [Lw(S(2), -12, S(0))];
    assert LeaveCode(TotalFrame([S(2)]), 16, true) ==
           [Lw(S(2), -12, S(0)), Lw(Ra, -4, S(0)), Lw(S(0), -8, S(0)), AluI(Addi, Sp, Sp, 16)];
    assert StoreGlobalsCode(TotalFrame([S(2)]), []) == [];
  }

  lemma TotalSaved()
    ensures SavedCovers(TotalUnit())
  {
    hide CodeFrom, TotalBody, TotalIr, AfterCode, ExitLabel;
    TotalCode(TotalUnit(), [S(2)]);
    TotalEnd();
    forall l | l in CodeFrom(TotalUnit(), 0) ensures WritesSaved(TotalUnit().f, l) {
      if l in TotalBody() {
        forall r | r in Defs(l) && r.S? && r.n >= 1 ensures r == S(2) { TotalBodyLines(r); }
      }
    }
  }

  lemma TotalNoTail(i: nat)
    ensures !IsTailCall(TotalIr(), i)
  {
  }

  lemma TotalProduced()
    ensures Produces(TotalCompiled(), TotalDraft())
  {
    hide CodeFrom, Peep, TotalIr, AfterCode, TablesFor, FrameSize, SavedCovers, ScratchWindows, IsTailCall,
         ClaimedNonneg, Named;
    TotalTables([S(2)]);
    TotalSize();
    TotalSaved();
    forall r: Reg ensures r in [S(2)] <==> r.S? && 2 <= r.n < 12 && Named(Peep(CodeFrom(TotalDraft(), 0)), r) {
      TotalNames(r);
    }
    forall i: nat ensures !IsTailCall(TotalUnit().ir, i) { TotalNoTail(i); }
  }

  // ---- what the input has to be ----

  function TotalLiveIn(): seq<Names> { [{}, {}, {"r"}, {"q"}] }

  function TotalLiveOut(): seq<Names> { [{}, {"r"}, {"q"}, {}] }

  lemma TotalSolved(i: nat)
    requires i < 4
    ensures Solved(TotalIr(), TotalLiveIn(), TotalLiveOut(), i)
  {
    hide LiveAfter;
    LocalsDiffer();
    var next := if i == 3 then 0 else i + 1;
    NextAlone(TotalIr(), TotalLiveIn(), next);
    assert Successors(TotalIr(), i) == if i == 3 then [] else [i + 1];
  }

  lemma TotalInitialised()
    ensures Initialised(TotalIr())
  {
    hide PathLive, Solved;
    forall v ensures !PathLive(TotalIr(), 0, v) {
      if PathLive(TotalIr(), 0, v) {
        forall k | 0 <= k < 4 ensures Solved(TotalIr(), TotalLiveIn(), TotalLiveOut(), k) { TotalSolved(k); }
        LiveInSolution(TotalIr(), TotalLiveIn(), TotalLiveOut(), 0, v);
      }
    }
  }

  function BothSigs(): Sigs { map["sum" := Sig(1, true), "total" := Sig(0, true)] }

  lemma TotalShaped()
    ensures ReturnsAlike(TotalIr(), true) && forall i :: 0 <= i < 4 ==> Shaped(TotalIr()[i])
  {
  }

  lemma TotalTyped()
    ensures CallsTyped(TotalIr(), BothSigs())
  {
    var ir, sigs := TotalIr(), BothSigs();
    assert "sum" in sigs && sigs["sum"] == Sig(1, true) by { FunctionsDiffer(); }
    hide BothSigs;
    assert ArgsNeeded(ir, sigs, 1) == ArgRegs(1) == {A(0)};
    assert ArgsNeeded(ir, sigs, 0) == {} && ArgsNeeded(ir, sigs, 2) == {} && ArgsNeeded(ir, sigs, 3) == {};
  }

  lemma TotalLive()
    ensures LiveInput(TotalIr(), "total", BothSigs())
  {
    hide Initialised, CallsTyped, ParamIndex, Shaped, ReturnsAlike;
    TotalShape(TotalIr());
    TotalTyped();
    TotalShaped();
    TotalInitialised();
    TotalParams(TotalIr());
  }

  lemma TotalDead()
    ensures TestsDead(TotalIr())
  {
    forall i: nat, j: nat ensures !Adjacent(TotalIr(), i, j) {}
  }

  lemma TotalAnalysable()
    ensures Analysable(TotalIr())
  {
    hide MatchNormalized, CounterLoop;
    forall i | 0 <= i < 4 ensures CounterLoop(TotalIr(), i).None? && MatchNormalized(TotalIr(), i).None? {
      TotalNoChain(TotalUnit(), i);
      TotalNoCounter(i);
    }
  }

  lemma TotalNoCounter(s: nat)
    requires s < 4
    ensures CounterLoop(TotalIr(), s).None?
  {
  }

  lemma TotalDeclared(syms: map<string, i32>)
    ensures forall i :: 0 <= i < 4 ==>
              Declared(TotalIr(), syms, TotalIr()[i].dest) && Declared(TotalIr(), syms, TotalIr()[i].src1) &&
              Declared(TotalIr(), syms, TotalIr()[i].src2)
  {
    var ir := TotalIr();
    assert "r" in LocalName(ir[1].dest) + LocalName(ir[1].src1) + LocalName(ir[1].src2);
    assert "q" in LocalName(ir[2].dest) + LocalName(ir[2].src1) + LocalName(ir[2].src2);
    assert "r" in Locals(ir) && "q" in Locals(ir);
    hide Locals;
  }

  lemma TotalInput(syms: map<string, i32>)
    ensures InputOk(TotalIr(), "total", syms)
  {
    hide ParamIndex, Analysable, IsTailCall, Declared, BodyLabel, ExitLabel;
    TotalParams(TotalIr());
    TotalAnalysable();
    TotalDeclared(syms);
    TotalShape(TotalIr());
    forall i: nat ensures !IsTailCall(TotalIr(), i) { TotalNoTail(i); }
  }

  lemma TotalChoices()
    ensures EmitChoices(TotalCompiled(), TotalDraft())
  {
    hide CodeFrom, Peep, TotalIr, AfterCode, FusedAt, Adjacent, Incoming, FusesChain;
    forall i: nat ensures !FusesChain(TotalUnit(), i) { TotalNoChain(TotalUnit(), i); }
    assert ChainsSafe(TotalUnit());
    forall i: nat, j: nat ensures !Adjacent(TotalUnit().ir, i, j) { TotalNotAdjacent(i, j); }
  }

  lemma TotalNotAdjacent(i: nat, j: nat)
    ensures !Adjacent(TotalIr(), i, j)
  {
  }

  // ---- the program ----

  function Both(): Program { map["sum" := SumCompiled(), "total" := TotalCompiled()] }

  function Drafts(): map<string, Unit> { map["sum" := SumDraft(), "total" := TotalDraft()] }

  lemma FunctionsDiffer()
    ensures "sum" != "total"
  {
    assert "sum"[0] != "total"[0];
  }

  /** Both functions are as the main results ask. */
  lemma BothGenerated(syms: map<string, i32>)
    ensures GeneratedAll(Both(), Drafts(), syms, BothSigs())
  {
    hide Produces, EmitChoices, InputOk, LiveInput, TestsDead, SumIr, TotalIr;
    FunctionsDiffer();
    SumReady(syms, BothSigs());
    TotalProduced();
    TotalInput(syms);
    TotalLive();
    TotalDead();
    TotalChoices();
  }

  lemma NoArgsOnStack(syms: map<string, i32>, lo: int, hi: int)
    requires 0 <= lo && hi <= TWO32
    requires forall g, g' :: g in syms && g' in syms && g != g' ==> syms[g] != syms[g']
    requires forall g :: g in syms ==> !(lo <= Unsigned(syms[g]) < hi)
    ensures StackOk(Both(), syms, lo, hi, 0)
  {
    hide ParamIndex, SumIr, TotalIr, AfterCode;
    FunctionsDiffer();
    SumParams(SumIr());
    TotalParams(TotalIr());
    SumShape(SumIr());
    TotalShape(TotalIr());
  }

  // ---- the intermediate representation ----

  /** n + (n - 1) + ... + 1 */
  function Down(n: nat): nat { if n == 0 then 0 else n + Down(n - 1) }

  predicate SumHolds(st: IrState, v: i32, k: nat)
  {
    "s" in st.locals && st.locals["s"] == v && "n" in st.locals && st.locals["n"] == k
  }

  /** One test of the loop. */
  lemma SumTests(calls: IrCalls, st: IrState, v: i32, k: nat) returns (st': IrState)
    requires SumHolds(st, v, k) && k <= INT_MAX
    ensures IrStep(SumIr(), {}, calls, 2, st) == Goes(3, st) && IrStep(SumIr(), {}, calls, 3, st) == Goes(4, st')
    ensures IrStep(SumIr(), {}, calls, 4, st') == Goes(if k == 0 then 8 else 5, st')
    ensures SumHolds(st', v, k) && st'.globals == st.globals
  {
    hide LabelPosition;
    NamesDiffer();
    SumTargets();
    st' := Assign(st, Local("t"), Bit(k > 0));
  }

  /** Its body. */
  lemma SumAdds(calls: IrCalls, st: IrState, v: i32, k: nat) returns (mid: IrState, st': IrState)
    requires SumHolds(st, v, k) && 0 < k <= INT_MAX
    ensures IrStep(SumIr(), {}, calls, 5, st) == Goes(6, mid) && IrStep(SumIr(), {}, calls, 6, mid) == Goes(7, st')
    ensures IrStep(SumIr(), {}, calls, 7, st') == Goes(2, st')
    ensures SumHolds(st', Wrap(v + k), k - 1) && st'.globals == st.globals
  {
    hide LabelPosition;
    NamesDiffer();
    SumTargets();
    mid := Assign(st, Local("s"), Wrap(v + k));
    st' := Assign(mid, Local("n"), k - 1);
  }

  lemma SumStops(calls: IrCalls, st: IrState, v: i32)
    requires SumHolds(st, v, 0)
    ensures IrStep(SumIr(), {}, calls, 8, st) == Goes(9, st)
    ensures IrStep(SumIr(), {}, calls, 9, st) == Done(CallResult(Some(v), st.globals))
  {
    NamesDiffer();
  }

  /** From the head of the loop the rest is added. */
  lemma {:induction false} SumLoops(calls: IrCalls, st: IrState, v: i32, k: nat) returns (m: nat)
    requires SumHolds(st, v, k) && k <= INT_MAX
    ensures IrRun(SumIr(), {}, {}, calls, 2, st, m) == Done(CallResult(Some(Wrap(v + Down(k))), st.globals))
    decreases k
  {
    hide IrStep, SumHolds, Wrap, SumIr;
    SumShape(SumIr());
    var tested := SumTests(calls, st, v, k);
    if k == 0 {
      SumStops(calls, tested, v);
      m := 5;
      RunEnds(SumIr(), {}, {}, calls, 9, tested, 1, CallResult(Some(v), st.globals));
      RunTakes(SumIr(), {}, {}, calls, 8, tested, 2, 9, tested);
      RunTakes(SumIr(), {}, {}, calls, 4, tested, 3, 8, tested);
      assert Wrap(v) == v;
    } else {
      var mid, next := SumAdds(calls, tested, v, k);
      var rest := SumLoops(calls, next, Wrap(v + k), k - 1);
      WrapAddWrap(v + k, Down(k - 1));
      m := rest + 6;
      RunTakes(SumIr(), {}, {}, calls, 7, next, rest + 1, 2, next);
      RunTakes(SumIr(), {}, {}, calls, 6, mid, rest + 2, 7, next);
      RunTakes(SumIr(), {}, {}, calls, 5, tested, rest + 3, 6, mid);
      RunTakes(SumIr(), {}, {}, calls, 4, tested, rest + 4, 5, tested);
    }
    RunTakes(SumIr(), {}, {}, calls, 3, st, m - 1, 4, tested);
    RunTakes(SumIr(), {}, {}, calls, 2, st, m, 3, st);
  }

  lemma SumEnters(calls: IrCalls, args: Args, globals: Globals) returns (a: IrState)
    requires 0 in args
    ensures IrStep(SumIr(), {}, calls, 0, Entry(args, globals)) == Goes(1, a)
    ensures "n" in a.locals && a.locals["n"] == args[0] && a.globals == globals
  {
    hide ParamIndex, LabelPosition, Computes;
    SumParams(SumIr());
    a := Assign(Entry(args, globals), Local("n"), args[0]);
  }

  lemma SumStarts(calls: IrCalls, a: IrState) returns (b: IrState)
    requires "n" in a.locals
    ensures IrStep(SumIr(), {}, calls, 1, a) == Goes(2, b) && b.globals == a.globals
    ensures a.locals["n"] >= 0 ==> SumHolds(b, 0, a.locals["n"])
  {
    hide LabelPosition;
    NamesDiffer();
    b := Assign(a, Local("s"), 0);
  }

  lemma SumRuns(calls: IrCalls, args: Args, globals: Globals) returns (m: nat)
    requires 0 in args && args[0] >= 0
    ensures IrRun(SumIr(), {}, {}, calls, 0, Entry(args, globals), m) ==
            Done(CallResult(Some(Wrap(Down(args[0]))), globals))
  {
    hide IrStep, SumHolds, Wrap, SumIr;
    SumShape(SumIr());
    var a := SumEnters(calls, args, globals);
    var b := SumStarts(calls, a);
    var rest := SumLoops(calls, b, 0, args[0]);
    m := rest + 2;
    RunTakes(SumIr(), {}, {}, calls, 1, a, rest + 1, 2, b);
    RunTakes(SumIr(), {}, {}, calls, 0, Entry(args, globals), m, 1, a);
  }

  /** A run that is done stays so. */
  lemma {:induction false} DoneStays(ir: seq<IrInst>, calls: IrCalls, i: nat, st: IrState, m: nat, n: nat)
    requires IrRun(ir, {}, {}, calls, i, st, m).Done? && m <= n
    ensures IrRun(ir, {}, {}, calls, i, st, n) == IrRun(ir, {}, {}, calls, i, st, m)
    decreases m
  {
    hide IrStep;
    if i < |ir| {
      match IrStep(ir, {}, calls, i, st)
      case Goes(j, st') => DoneStays(ir, calls, j, st', m - 1, n - 1);
      case _ =>
    }
  }

  /** With nothing claimed and no chain there is nothing to trust. */
  lemma Trusted(c: Unit, calls: IrCalls, args: Args, globals: Globals)
    requires c.nonneg == {} && forall i: nat :: !FusesChain(c, i)
    ensures Defined(c, calls, args, globals)
  {
    hide IrRun, FusesChain, Sim.Loops, Sim.Leaves, NoOverflowOnRun;
  }

  /** A body that runs to a result makes its call return that. */
  lemma RunsTo(depth: nat, stack: nat, name: string, c: Unit, args: Args, globals: Globals, m: nat, r: CallResult)
    requires depth > 0 && name in Both() && Both()[name].c == c && 0 <= c.size <= stack && c.tails == {} &&
             c.nonneg == {}
    requires forall i: nat :: !FusesChain(c, i)
    requires IrRun(c.ir, {}, {}, IrCallsAt(Both(), depth - 1, stack - c.size), 0, Entry(args, globals), m) == Done(r)
    ensures IrCall(Both(), depth, stack, name, args, globals) == Some(r)
  {
    hide Defined, IrRun, Both, IrCallsAt, FusesChain;
    var below := IrCallsAt(Both(), depth - 1, stack - c.size);
    assert Sim.Loops(c) == {} && Sim.Leaves(c) == {};
    Trusted(c, below, args, globals);
    assert Ends(c, below, args, globals, m);
    forall n: nat | Ends(c, below, args, globals, n)
      ensures IrRun(c.ir, {}, {}, below, 0, Entry(args, globals), n) == Done(r)
    {
      if n <= m { DoneStays(c.ir, below, 0, Entry(args, globals), n, m); }
      else { DoneStays(c.ir, below, 0, Entry(args, globals), m, n); }
    }
  }

  lemma SumCall(depth: nat, stack: nat, args: Args, globals: Globals)
    requires depth > 0 && 0 in args && args[0] >= 0
    ensures IrCall(Both(), depth, stack, "sum", args, globals) == Some(CallResult(Some(Wrap(Down(args[0]))), globals))
  {
    hide IrCall, IrRun, SumIr, AfterCode, FusesChain, Wrap, Down;
    FunctionsDiffer();
    forall i: nat ensures !FusesChain(SumUnit(), i) { NoChainHere(SumUnit(), i); }
    var m := SumRuns(IrCallsAt(Both(), depth - 1, stack), args, globals);
    RunsTo(depth, stack, "sum", SumUnit(), args, globals, m, CallResult(Some(Wrap(Down(args[0]))), globals));
  }

  lemma TotalSteps(calls: IrCalls, globals: Globals) returns (a: IrState, b: IrState, c: IrState)
    requires calls("sum", map[0 := 10], globals) == Some(CallResult(Some(55), globals))
    ensures IrStep(TotalIr(), {}, calls, 0, Entry(map[], globals)) == Goes(1, a) &&
            IrStep(TotalIr(), {}, calls, 1, a) == Goes(2, b)
    ensures IrStep(TotalIr(), {}, calls, 2, b) == Goes(3, c)
    ensures IrStep(TotalIr(), {}, calls, 3, c) == Done(CallResult(Some(56), globals))
  {
    a := Entry(map[], globals).(args := map[0 := 10]);
    b := Entry(map[], globals).(locals := map["r" := 55]);
    c := b.(locals := b.locals["q" := 56]);
    assert Entry(map[], globals).args[0 := 10] == map[0 := 10];
  }

  lemma TenDown()
    ensures Wrap(Down(10)) == 55
  {
    assert Down(5) == 15;
  }

  lemma TotalCall(depth: nat, stack: nat, globals: Globals)
    requires depth > 1 && stack >= 16
    ensures IrCall(Both(), depth, stack, "total", map[], globals) == Some(CallResult(Some(56), globals))
  {
    hide IrCall, IrRun, TotalIr, AfterCode, FusesChain, Wrap, Down, IrStep;
    FunctionsDiffer();
    TotalShape(TotalIr());
    TenDown();
    SumCall(depth - 1, stack - 16, map[0 := 10], globals);
    var below := IrCallsAt(Both(), depth - 1, stack - 16);
    var a, b, c := TotalSteps(below, globals);
    RunEnds(TotalIr(), {}, {}, below, 3, c, 1, CallResult(Some(56), globals));
    RunTakes(TotalIr(), {}, {}, below, 2, b, 2, 3, c);
    RunTakes(TotalIr(), {}, {}, below, 1, a, 3, 2, b);
    RunTakes(TotalIr(), {}, {}, below, 0, Entry(map[], globals), 4, 1, a);
    forall i: nat ensures !FusesChain(TotalUnit(), i) { TotalNoChain(TotalUnit(), i); }
    RunsTo(depth, stack, "total", TotalUnit(), map[], globals, 4, CallResult(Some(56), globals));
  }

  // ---- the emitted texts ----

  lemma SumText()
    ensures NothingSubtracts(Text(SumCompiled()))
  {
    hide CodeFrom, ExitLabel, BodyLabel, SumIr, FunctionCode, SumRegisters, SumTemps, SumBody;
    LeafText("sum", SumIr(), SumRegisters(), SumTemps());
    SumCode(SumUnit());
    var p := Text(SumCompiled());
    assert p == [Lab("sum"), Lab(BodyLabel("sum"))] + (SumBody() + [Lab(ExitLabel("sum")), Ret]);
    forall k | IsSuffix(k, p) ensures !MatchesNotLessImm(k) {
      if k != [] {
        assert k[0] in p;
        SumBodyLine(k[0]);
      }
    }
  }

  lemma SumBodyLine(l: Instr)
    ensures l in SumBody() ==> !IsAluI(l, Slti)
  {
    hide ExitLabel;
  }

  lemma TotalText()
    ensures NothingSubtracts(Text(TotalCompiled()))
  {
    hide CodeFrom, ExitLabel, BodyLabel, TotalIr, TotalBody, AfterCode, LoadConstantsCode, LoadGlobalsCode;
    TotalEnd();
    TotalCode(TotalUnit(), [S(2)]);
    TotalStart();
    NoneLoaded(TotalFrame([S(2)]));
    var p := Text(TotalCompiled());
    forall k | IsSuffix(k, p) ensures !MatchesNotLessImm(k) {
      if k != [] {
        assert k[0] in p;
        TotalBodyLine(k[0]);
      }
    }
  }

  lemma TotalStart()
    ensures PrologueCode(TotalFrame([S(2)]), 16) ==
            [AluI(Addi, Sp, Sp, -16), Sw(Ra, 12, Sp), Sw(S(0), 8, Sp), AluI(Addi, S(0), Sp, 16), Sw(S(2), -12, S(0))]
  {
  }

  lemma NoneLoaded(f: StackFrame)
    ensures LoadConstantsCode(f, []) == [] && LoadGlobalsCode(f, []) == []
  {
  }

  lemma TotalBodyLine(l: Instr)
    ensures l in TotalBody() ==> !IsAluI(l, Slti)
  {
    hide ExitLabel;
  }

  lemma NothingOverflows(depth: nat, name: string, s: State)
    ensures Fits(Both(), depth, name, s)
  {
    hide NothingSubtracts, Text, SumCompiled, TotalCompiled, Fits;
    FunctionsDiffer();
    SumText();
    TotalText();
    FitsAlways(Both(), depth, name, s);
  }

  ghost predicate CallerKept(s: State, t: State)
  {
    R(t, Sp) == R(s, Sp) && forall n :: n < 12 ==> R(t, S(n)) == R(s, S(n))
  }

  /** Entered at `sum` with n that is not negative in a0, the emitted texts add up the numbers to n, wrapped. */
  lemma SumReturned(s: State)
    requires s.syms == map[] && R(s, A(0)) >= 0
    ensures var t := EmittedCall(Both(), 1, "sum", s);
            R(t, A(0)) == Wrap(Down(R(s, A(0)))) && CallerKept(s, t)
  {
    hide GeneratedAll, StackOk, IrCall, EmittedCall, R, Both, Fits, Down, Wrap, BothSigs, Drafts;
    var args: Args := map[0 := R(s, A(0))];
    BothGenerated(map[]);
    NoArgsOnStack(map[], 0, TWO32);
    NothingOverflows(1, "sum", s);
    SumCall(1, 0, args, map[]);
    assert Sim.CallReady(map[], args, map[], s);
    GeneratedCarried(Both(), Drafts(), BothSigs(), map[], 0, TWO32, 0, 1, 0, "sum", s, args, map[]);
  }

  /** Entered at `total` with 16 bytes of stack they return 56. */
  lemma TotalReturned(s: State)
    requires s.syms == map[] && Unsigned(R(s, Sp)) >= 16
    ensures var t := EmittedCall(Both(), 2, "total", s); R(t, A(0)) == 56 && CallerKept(s, t)
  {
    hide GeneratedAll, StackOk, IrCall, EmittedCall, R, Both, Fits, BothSigs, Drafts;
    BothGenerated(map[]);
    NoArgsOnStack(map[], 0, TWO32);
    NothingOverflows(2, "total", s);
    TotalCall(2, 16, map[]);
    assert Sim.CallReady(map[], map[], map[], s);
    GeneratedCarried(Both(), Drafts(), BothSigs(), map[], 0, TWO32, 0, 2, 16, "total", s, map[], map[]);
  }
}
