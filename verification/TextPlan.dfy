/** The liveness plan of a function fits its whole text, but for the windows of the peephole pass. */
module TextPlan {
  import opened Ir
  import opened IrFlow
  import opened Rv32
  import opened Control
  import opened Frame
  import opened Liveness
  import opened Allocation
  import opened Selection
  import opened BinaryOp
  import opened Compare
  import opened FrameCode
  import opened Remainder
  import opened Body
  import opened PlainCode
  import opened Homes
  import opened BodyFlow
  import opened StepSim
  import opened ChainSim
  import opened FunctionSim
  import opened Exposure
  import opened TextLive
  import opened BodyLive
  import opened TextLabels
  import Run = BodyRun

  // ---- instructions fused with others ----

  lemma FusedWithin(c: Unit, sigs: Sigs, i: nat, k: seq<Instr>)
    requires LiveUnit(c, sigs) && FusedAt(c, i) && i + 2 < |c.ir| && LiveWithin(c, sigs, i + 2, k)
    ensures LiveWithin(c, sigs, i, FusedCode(c, i) + k)
  {
    hide WellFormed, PlanOf, LiveRegs, Ahead, Initialised, CallsTyped, CompareCode, Reads, DefsOf, SourceRegs,
         LabelPosition, PathLive, Plain, Exposed, Base;
    Run.FusedShape(c, i);
    var br := c.ir[i + 1];
    var l := NameOf(br.dest);
    PlanAtTarget(c, sigs, i + 1);
    SourcesWithin(c, sigs, i);
    CompareReads(c.f, c.ir[i], T(0));
    FusedRegs(c, sigs, i, i + 2);
    FusedRegs(c, sigs, i, LabelPosition(c.ir, l).at);
    var code, b := CompareCode(c.f, c.ir[i], T(0)), BrZ(BranchTest(br.op), T(0), l);
    AheadLine(sigs, PlanOf(c, sigs), b, k);
    AheadWithin(sigs, PlanOf(c, sigs), code, [b] + k, SourceRegs(c.f, c.ir[i].src1, c.ir[i].src2),
                {T(0)} + LiveRegs(c, sigs, i), LiveRegs(c, sigs, i));
    assert code + ([b] + k) == FusedCode(c, i) + k;
  }

  /** What is live behind a fused pair is live before it. */
  lemma FusedRegs(c: Unit, sigs: Sigs, i: nat, j: nat)
    requires LiveUnit(c, sigs) && FusedAt(c, i) && j < |c.ir| && j in Successors(c.ir, i + 1)
    requires j == i + 2 || c.ir[j].op.LABEL?
    ensures LiveRegs(c, sigs, j) <= LiveRegs(c, sigs, i)
  {
    hide TablesFor, SavedCovers, Initialised, HomesLive, Pending, FusedAt, Caches, LabelPosition, Successors;
    Run.FusedShape(c, i);
    NothingBehind(c.ir, sigs, i + 1, j);
    assert Shaped(c.ir[i + 1]);
    FusedHomes(c, i, j);
  }

  /** Behind a branch no parameter is still to be moved and no argument is staged. */
  lemma NothingBehind(ir: seq<IrInst>, sigs: Sigs, i: nat, j: nat)
    requires ParamsFirst(ir) && CallsTyped(ir, sigs) && i < |ir| && (ir[i].op.BEQZ? || ir[i].op.BNEZ?)
    requires j < |ir| && (j == i + 1 || ir[j].op.LABEL?)
    ensures Pending(ir, j) == {} && ArgsNeeded(ir, sigs, j) == {}
  {
    hide Pending;
    NothingPending(ir, i);
    if j != i + 1 { NothingPending(ir, j); }
  }

  lemma FusedHomes(c: Unit, i: nat, j: nat)
    requires FusedAt(c, i) && j < |c.ir| && j in Successors(c.ir, i + 1) && !DefinesLocal(c.ir[i + 1])
    ensures HomesLive(c, j) <= HomesLive(c, i)
  {
    hide PathLive, RegForVar, FusedAt, Successors;
    Run.FusedShape(c, i);
    forall r | r in HomesLive(c, j) ensures r in HomesLive(c, i) {
      var v :| v in Locals(c.ir) && PathLive(c.ir, j, v) && RegForVar(c.f, v).Some? && RegForVar(c.f, v).value == r;
      Run.FusedDead(c, i, j);
      PathBefore(c.ir, i + 1, j, v);
      FusedNext(c, i);
      PathBefore(c.ir, i, i + 1, v);
    }
  }

  lemma FusedNext(c: Unit, i: nat)
    requires FusedAt(c, i)
    ensures i + 1 in Successors(c.ir, i) && i + 1 < |c.ir|
  {
  }

  lemma ChainWithin(c: Unit, sigs: Sigs, i: nat, k: seq<Instr>)
    requires LiveUnit(c, sigs) && ChainsSafe(c) && FusesChain(c, i) && i + ChainLength(c, i) < |c.ir|
    requires LiveWithin(c, sigs, i + ChainLength(c, i), k)
    ensures LiveWithin(c, sigs, i, ChainCode(c, i) + k)
  {
    hide WellFormed, PlanOf, LiveRegs, Ahead, LiveInput, ChainCode, Reads, DefsOf, Base, MatchNormalized, FusesChain,
         ChainSafe, OperandRegs;
    UnitTables(c);
    ChainReads(c, i);
    ChainFacts(c, i);
    var n := MatchNormalized(c.ir, i).value;
    SourcesWithin(c, sigs, i);
    ChainRegs(c, sigs, i);
    AheadWithin(sigs, PlanOf(c, sigs), ChainCode(c, i), k, Base(c.f) + OperandRegs(c.f, n.source),
                LiveRegs(c, sigs, i + n.length), LiveRegs(c, sigs, i));
  }

  lemma ChainFacts(c: Unit, i: nat)
    requires FusesChain(c, i)
    ensures i < |c.ir| && MatchNormalized(c.ir, i).Some? && ChainLength(c, i) == MatchNormalized(c.ir, i).value.length
    ensures MatchNormalized(c.ir, i).value.source == c.ir[i].src1
  {
    ChainEnds(c.ir, i);
  }

  /** What is live behind a chain, but for its destination, is live before it. */
  lemma ChainRegs(c: Unit, sigs: Sigs, i: nat)
    requires LiveUnit(c, sigs) && ChainsSafe(c) && FusesChain(c, i) && i + ChainLength(c, i) < |c.ir|
    ensures LiveRegs(c, sigs, i + ChainLength(c, i)) - OperandRegs(c.f, MatchNormalized(c.ir, i).value.destination)
            <= LiveRegs(c, sigs, i)
  {
    hide TablesFor, SavedCovers, Initialised, HomesLive, Pending, Caches, LabelPosition, ChainSafe, MatchNormalized,
         OperandRegs, FusesChain;
    ChainFacts(c, i);
    var n := MatchNormalized(c.ir, i).value;
    ChainLines(c.ir, i, i + n.length - 1);
    ChainEnds(c.ir, i);
    NothingPending(c.ir, i + n.length - 1);
    assert ArgsNeeded(c.ir, sigs, i + n.length) == {};
    ChainHomes(c, i);
  }

  lemma ChainHomes(c: Unit, i: nat)
    requires ChainsSafe(c) && FusesChain(c, i) && i + ChainLength(c, i) < |c.ir|
    ensures HomesLive(c, i + ChainLength(c, i)) <=
            HomesLive(c, i) + OperandRegs(c.f, MatchNormalized(c.ir, i).value.destination)
  {
    hide PathLive, RegForVar, MatchNormalized, ChainTemps, FusesChain, ChainApart, SpillsT3, T3Free;
    ChainFacts(c, i);
    var n := MatchNormalized(c.ir, i).value;
    assert ChainSafe(c, i);
    forall r | r in HomesLive(c, i + n.length) ensures r in HomesLive(c, i) + OperandRegs(c.f, n.destination) {
      var v :| v in Locals(c.ir) && PathLive(c.ir, i + n.length, v) && RegForVar(c.f, v).Some? &&
      RegForVar(c.f, v).value == r;
      if Local(v) != n.destination { LiveAcross(c.ir, i, i, v); }
    }
  }

  // ---- the body ----

  /** An instruction on its own, other than a return or a jump, goes on to the next line. */
  lemma InstWithin(c: Unit, sigs: Sigs, i: nat, k: seq<Instr>)
    requires LiveUnit(c, sigs) && !c.draft && i < |c.ir| && !AfterTail(c, i)
    requires i + 1 < |c.ir| && !AfterTail(c, i + 1) ==> LiveWithin(c, sigs, i + 1, k)
    ensures LiveWithin(c, sigs, i, InstCode(c, i) + k)
  {
    hide WellFormed, LiveWithin, BinaryCode, CompareOpCode, MoveCode, DeclCode, ParamCode, CallCode, ReturnCode,
         BranchCode, LabelPosition, CallsTyped, Initialised;
    var inst := c.ir[i];
    assert Shaped(inst);
    if i in c.tails {
      TailWithin(c, sigs, i, k);
    } else if inst.op.RETURN? {
      ReturnWithin(c, sigs, i, k);
    } else if inst.op.BRANCH? {
      JumpWithin(c, sigs, i, k);
    } else {
      NextLine(c.ir, i);
      assert !AfterTail(c, i + 1);
      if BinaryShaped(inst) || CompareShaped(inst) {
        ComputeWithin(c, sigs, i, k);
      } else {
        OtherWithin(c, sigs, i, k);
      }
    }
  }

  lemma OtherWithin(c: Unit, sigs: Sigs, i: nat, k: seq<Instr>)
    requires LiveUnit(c, sigs) && i + 1 < |c.ir| && i !in c.tails && LiveWithin(c, sigs, i + 1, k)
    requires !BinaryShaped(c.ir[i]) && !CompareShaped(c.ir[i]) && !c.ir[i].op.RETURN? && !c.ir[i].op.BRANCH?
    ensures LiveWithin(c, sigs, i, InstCode(c, i) + k)
  {
    hide WellFormed, LiveWithin, MoveCode, DeclCode, ParamCode, CallCode, BranchCode, LabelPosition, CallsTyped,
         Initialised;
    var inst := c.ir[i];
    assert Shaped(inst) && [] + k == k;
    match inst.op
    case ASSIGN => MoveWithin(c, sigs, i, k);
    case LOAD => MoveWithin(c, sigs, i, k);
    case STORE => MoveWithin(c, sigs, i, k);
    case LOCAL_VAR_DECL => DeclWithin(c, sigs, i, k);
    case PARAM => ArgWithin(c, sigs, i, k);
    case CALL => CallWithin(c, sigs, i, k);
    case LABEL => LabelWithin(c, sigs, i, k);
    case BEQZ => BranchWithin(c, sigs, i, k);
    case BNEZ => BranchWithin(c, sigs, i, k);
    case FUNC_BEGIN => SilentWithin(c, sigs, i, k);
    case FUNC_END => SilentWithin(c, sigs, i, k);
    case GLOBAL_VAR_DECL => SilentWithin(c, sigs, i, k);
    case _ =>
  }

  lemma {:induction false} BodyWithin(c: Unit, sigs: Sigs, i: nat)
    requires LiveUnit(c, sigs) && TailsOk(c) && ChainsSafe(c) && i < |c.ir| && !AfterTail(c, i)
    ensures LiveWithin(c, sigs, i, CodeFrom(c, i))
    decreases |c.ir| - i
  {
    hide LiveUnit, LiveWithin, CodeFrom, FusedAt, FusesChain, ChainCode, ChainLength, FusedCode, InstCode, TailsOk,
         ChainsSafe, AfterTail, MatchNormalized, WellFormed;
    if FusesChain(c, i) {
      var n := ChainLength(c, i);
      ChainHead(c, i);
      ChainGoesOn(c, sigs, i);
      BodyWithin(c, sigs, i + n);
      ChainWithin(c, sigs, i, CodeFrom(c, i + n));
    } else if FusedAt(c, i) {
      FusedHead(c, i);
      FusedGoesOn(c, sigs, i);
      BodyWithin(c, sigs, i + 2);
      FusedWithin(c, sigs, i, CodeFrom(c, i + 2));
    } else {
      AloneCode(c, i);
      if i + 1 < |c.ir| && !AfterTail(c, i + 1) { BodyWithin(c, sigs, i + 1); }
      assert !c.draft by { NoDraft(c); }
      InstWithin(c, sigs, i, CodeFrom(c, i + 1));
    }
  }

  lemma NoDraft(c: Unit)
    requires TailsOk(c)
    ensures !c.draft
  {
  }

  lemma ChainGoesOn(c: Unit, sigs: Sigs, i: nat)
    requires LiveUnit(c, sigs) && TailsOk(c) && FusesChain(c, i) && !AfterTail(c, i)
    ensures i + ChainLength(c, i) < |c.ir| && !AfterTail(c, i + ChainLength(c, i))
  {
    hide WellFormed, Initialised, CallsTyped, MatchNormalized, LabelPosition;
    var n := ChainLength(c, i);
    ChainLines(c.ir, i, i + n - 1);
    if AfterTail(c, i + n) {
      var t :| t in c.tails && t < i + n;
      ChainLines(c.ir, i, t);
    }
  }

  lemma FusedGoesOn(c: Unit, sigs: Sigs, i: nat)
    requires LiveUnit(c, sigs) && TailsOk(c) && FusedAt(c, i) && !AfterTail(c, i)
    ensures i + 2 < |c.ir| && !AfterTail(c, i + 2)
  {
    hide WellFormed, Initialised, CallsTyped, LabelPosition, UseCount;
  }

  // ---- before and after the body ----

  lemma {:induction false} CachesRead(f: StackFrame, globals: seq<string>, regs: set<Reg>)
    requires Base(f) <= regs
    ensures Reads(LoadGlobalsCode(f, globals), regs) && Reads(StoreGlobalsCode(f, globals), regs)
    ensures forall g :: g in globals && g in f.globalRegAlloc ==>
              f.globalRegAlloc[g] in DefsOf(LoadGlobalsCode(f, globals))
    decreases |globals|
  {
    hide Exposed, DefsOf, Plain;
    if globals == [] {
      NoLines(regs);
    } else {
      var n := |globals| - 1;
      var g := globals[n];
      var r := if g in f.globalRegAlloc then f.globalRegAlloc[g] else X0;
      assert r in Base(f);
      hide Base;
      assert globals == globals[..n] + [g];
      CachesRead(f, globals[..n], regs);
      var loads, stores := LoadGlobalsCode(f, globals[..n]), StoreGlobalsCode(f, globals[..n]);
      TwoLines(La(T(2), g), Lw(r, 0, T(2)), regs + DefsOf(loads));
      TwoLines(La(T(2), g), Sw(r, 0, T(2)), regs + DefsOf(stores));
      Then(loads, [La(T(2), g), Lw(r, 0, T(2))], regs);
      Then(stores, [La(T(2), g), Sw(r, 0, T(2))], regs);
    }
  }

  lemma {:induction false} ConstantsRead(f: StackFrame, order: seq<Word.i32>, n: nat)
    requires n <= |order|
    ensures Reads(LoadConstantsCode(f, order)[..n], {})
    ensures forall k :: k in order[..n] && k in f.constantRegAlloc ==>
              f.constantRegAlloc[k] in DefsOf(LoadConstantsCode(f, order)[..n])
  {
    hide Exposed, DefsOf, Plain;
    var code := LoadConstantsCode(f, order);
    if n == 0 {
      assert code[..0] == [] && order[..0] == [];
      NoLines({});
    } else {
      ConstantsRead(f, order, n - 1);
      assert code[..n] == code[..n - 1] + [code[n - 1]] && order[..n] == order[..n - 1] + [order[n - 1]];
      Line(code[n - 1], {});
      ReadsMore([code[n - 1]], {}, {} + DefsOf(code[..n - 1]));
      Then(code[..n - 1], [code[n - 1]], {});
    }
  }

  lemma AllConstantsRead(f: StackFrame, order: seq<Word.i32>)
    ensures Reads(LoadConstantsCode(f, order), {})
    ensures forall k :: k in order && k in f.constantRegAlloc ==>
              f.constantRegAlloc[k] in DefsOf(LoadConstantsCode(f, order))
  {
    hide Reads, DefsOf;
    ConstantsRead(f, order, |order|);
    assert LoadConstantsCode(f, order)[..|order|] == LoadConstantsCode(f, order) && order[..|order|] == order;
  }

  predicate SavedOnly(regs: seq<Reg>) { forall r :: r in regs ==> r.S? && r.n < 12 }

  lemma SavesRead(saved: seq<Reg>)
    requires SavedOnly(saved)
    ensures Reads(SaveCode(saved), KEPT)
  {
    hide Exposed, DefsOf, Plain;
    forall i | i in SaveCode(saved) ensures Works(i) && Uses(i) <= KEPT {
      var j :| 0 <= j < |saved| && i == SaveCode(saved)[j];
      assert saved[j] in saved;
    }
    LinesRead(SaveCode(saved), KEPT);
  }

  lemma PrologueReads(f: StackFrame, size: int)
    requires SavedOnly(f.usedCalleeSavedRegisters)
    ensures Reads(PrologueCode(f, size), KEPT)
  {
    hide Exposed, DefsOf, Plain, StoreAddressCode, AdjustSpCode, SetFramePointerCode;
    NoLines(KEPT);
    if size != 0 {
      AdjustReads(-size, KEPT);
      AdjustReads(size, KEPT);
      AddressReads(Ra, Sp, size - 4, KEPT);
      AddressReads(S(0), Sp, size - 8, KEPT);
      SavesRead(f.usedCalleeSavedRegisters);
      var a, b := AdjustSpCode(-size), if f.hasCall then StoreAddressCode(Ra, Sp, size - 4) else [];
      var d, e := StoreAddressCode(S(0), Sp, size - 8), SetFramePointerCode(size);
      Both(a, b, KEPT);
      Both(a + b, d, KEPT);
      Both(a + b + d, e, KEPT);
      Both(a + b + d + e, SaveCode(f.usedCalleeSavedRegisters), KEPT);
    }
  }

  lemma Both(a: seq<Instr>, b: seq<Instr>, regs: set<Reg>)
    requires Reads(a, regs) && Reads(b, regs)
    ensures Reads(a + b, regs) && DefsOf(a + b) == DefsOf(a) + DefsOf(b)
  {
    hide Exposed, DefsOf, Plain;
    Then(a, b, regs);
  }

  /** From the exit label on no more is needed than the caches and the result. */
  lemma AfterWithin(c: Unit, sigs: Sigs, globals: seq<string>)
    requires c.after == AfterCode(c.name, c.f, c.size, globals)
    ensures Ahead(sigs, PlanOf(c, sigs), c.after) <= ExitRegs(c, sigs)
  {
    hide PlanOf, LeaveCode, StoreGlobalsCode, ExitLabel, NeedsFrame, Ahead, DefsOf, Reads, InRegs, Caches, Base;
    var pl, leave := PlanOf(c, sigs), if NeedsFrame(c.f) then LeaveCode(c.f, c.size, c.f.hasCall) else [];
    var stores := StoreGlobalsCode(c.f, globals);
    var regs := {X0, Ra, Sp, S(0)};
    PlanRet(c, sigs);
    NoLines(regs);
    LeaveReads(c.f, c.size, c.f.hasCall);
    AheadLine(sigs, pl, Ret, []);
    assert [Ret] + [] == [Ret];
    assert leave + [Ret] == EpilogueCode(c.f, c.size);
    AheadWithin(sigs, pl, leave, [Ret], regs, OutRegs(sigs, c.name), ExitRegs(c, sigs));
    ExitBase(c, sigs);
    CachesRead(c.f, globals, Base(c.f));
    AheadWithin(sigs, pl, stores, EpilogueCode(c.f, c.size), Base(c.f), ExitRegs(c, sigs), ExitRegs(c, sigs));
    AheadLine(sigs, pl, Lab(ExitLabel(c.name)), stores + EpilogueCode(c.f, c.size));
    assert c.after == [Lab(ExitLabel(c.name))] + (stores + EpilogueCode(c.f, c.size));
  }

  lemma ExitBase(c: Unit, sigs: Sigs)
    ensures Base(c.f) <= ExitRegs(c, sigs)
  {
  }

  lemma PlanRet(c: Unit, sigs: Sigs)
    ensures PlanOf(c, sigs).ret == OutRegs(sigs, c.name)
  {
    hide OutRegs;
  }

  /** The body may start once the caches are loaded: at the entry no more is needed than the convention says. */
  lemma BeforeWithin(c: Unit, sigs: Sigs, constants: seq<Word.i32>, globals: seq<string>, k: seq<Instr>)
    requires LiveInput(c.ir, c.name, sigs) && SavedOnly(c.f.usedCalleeSavedRegisters)
    requires Lists(constants, c.f.constantRegAlloc.Keys) && Lists(globals, c.f.globalRegAlloc.Keys)
    requires Ahead(sigs, PlanOf(c, sigs), k) <= LiveRegs(c, sigs, 0)
    ensures Ahead(sigs, PlanOf(c, sigs), BeforeCode(c.name, c.f, c.size, constants, globals) + k) <= InRegs(sigs,
        c.name)
  {
    hide PlanOf, PrologueCode, LoadConstantsCode, LoadGlobalsCode, Ahead, DefsOf, Reads, LiveInput, LiveRegs;
    var pl := PlanOf(c, sigs);
    var a, b, d := PrologueCode(c.f, c.size), LoadConstantsCode(c.f, constants), LoadGlobalsCode(c.f, globals);
    EntryRegs(c, sigs);
    PrologueReads(c.f, c.size);
    AllConstantsRead(c.f, constants);
    CachesRead(c.f, globals, Base(c.f));
    CachesWritten(c.f, constants, globals);
    var code := a + (b + d);
    LoadsRead(c.f, constants, globals);
    ReadsMore(b + d, KEPT, KEPT + DefsOf(a));
    Then(a, b + d, KEPT);
    assert KEPT <= InRegs(sigs, c.name);
    AheadWithin(sigs, pl, code, k, KEPT, LiveRegs(c, sigs, 0), InRegs(sigs, c.name));
    AheadLine(sigs, pl, Lab(c.name), code + k);
    assert BeforeCode(c.name, c.f, c.size, constants, globals) + k == [Lab(c.name)] + (code + k);
  }

  /** The loads of the caches read only the pointers. */
  lemma LoadsRead(f: StackFrame, constants: seq<Word.i32>, globals: seq<string>)
    ensures Reads(LoadConstantsCode(f, constants) + LoadGlobalsCode(f, globals), KEPT)
  {
    hide DefsOf, Exposed, Plain, LoadConstantsCode, LoadGlobalsCode;
    AllConstantsRead(f, constants);
    GlobalLoadsRead(f, globals);
    ReadsMore(LoadConstantsCode(f, constants), {}, KEPT);
    ReadsMore(LoadGlobalsCode(f, globals), {}, KEPT);
    Both(LoadConstantsCode(f, constants), LoadGlobalsCode(f, globals), KEPT);
  }

  lemma {:induction false} GlobalLoadsRead(f: StackFrame, globals: seq<string>)
    ensures Reads(LoadGlobalsCode(f, globals), {})
    decreases |globals|
  {
    hide Exposed, DefsOf, Plain;
    if globals == [] {
      NoLines({});
    } else {
      var n := |globals| - 1;
      var r := if globals[n] in f.globalRegAlloc then f.globalRegAlloc[globals[n]] else X0;
      GlobalLoadsRead(f, globals[..n]);
      TwoLines(La(T(2), globals[n]), Lw(r, 0, T(2)), {});
      Both(LoadGlobalsCode(f, globals[..n]), [La(T(2), globals[n]), Lw(r, 0, T(2))], {});
    }
  }

  lemma CachesWritten(f: StackFrame, constants: seq<Word.i32>, globals: seq<string>)
    requires Lists(constants, f.constantRegAlloc.Keys) && Lists(globals, f.globalRegAlloc.Keys)
    ensures Caches(f) <= DefsOf(LoadConstantsCode(f, constants) + LoadGlobalsCode(f, globals))
  {
    hide DefsOf, Exposed, Plain, LoadConstantsCode, LoadGlobalsCode, Base;
    AllConstantsRead(f, constants);
    CachesRead(f, globals, Base(f));
    ExposedJoin(LoadConstantsCode(f, constants), LoadGlobalsCode(f, globals));
    Listed(constants, f.constantRegAlloc.Keys);
    Listed(globals, f.globalRegAlloc.Keys);
  }

  // ---- calls ----

  predicate NoCalls(code: seq<Instr>) { forall i :: i in code ==> !i.Call? }

  lemma PlainNoCalls(code: seq<Instr>)
    requires AllPlain(code)
    ensures NoCalls(code)
  {
  }

  lemma OperandNoCalls(f: StackFrame, o: Operand, reg: Reg)
    ensures NoCalls(LoadCode(f, o, reg)) && NoCalls(StoreCode(f, reg, o)) && NoCalls(SettleCode(f, o))
    ensures forall base, x :: NoCalls(LoadAddressCode(reg, base, x)) && NoCalls(StoreAddressCode(reg, base, x))
  {
  }

  lemma LeaveNoCalls(f: StackFrame, size: int, restoreRa: bool)
    ensures NoCalls(LeaveCode(f, size, restoreRa))
  {
  }

  lemma InstNoCalls(c: Unit, i: nat)
    requires i < |c.ir| && (!c.ir[i].op.CALL? || i in c.tails)
    ensures NoCalls(InstCode(c, i))
  {
    hide LoadCode, StoreCode, BinaryCode, CompareCode, LoadAddressCode, StoreAddressCode, Plain;
    var inst := c.ir[i];
    if BinaryShaped(inst) {
      BinaryPlain(c.f, inst, i in c.nonneg);
      PlainNoCalls(BinaryCode(c.f, inst, i in c.nonneg));
    } else if CompareShaped(inst) {
      ComparePlain(c.f, inst, DestRegOrT0(c.f, inst.dest));
      OperandNoCalls(c.f, inst.dest, T(0));
      PlainNoCalls(CompareCode(c.f, inst, DestRegOrT0(c.f, inst.dest)));
    } else {
      OtherNoCalls(c, i);
    }
  }

  lemma OtherNoCalls(c: Unit, i: nat)
    requires i < |c.ir| && (!c.ir[i].op.CALL? || i in c.tails) && !BinaryShaped(c.ir[i]) && !CompareShaped(c.ir[i])
    ensures NoCalls(InstCode(c, i))
  {
    hide LoadCode, StoreCode, LoadAddressCode, StoreAddressCode, LeaveCode, AfterTail, RegForOperand;
    var inst := c.ir[i];
    OperandNoCalls(c.f, inst.dest, T(0));
    OperandNoCalls(c.f, inst.dest, A(0));
    OperandNoCalls(c.f, inst.src1, DestRegOrT0(c.f, inst.dest));
    OperandNoCalls(c.f, inst.src1, T(0));
    OperandNoCalls(c.f, inst.dest, DestRegOrT0(c.f, inst.dest));
    match inst.op
    case PARAM => if inst.src1.Imm? && inst.src1.immVal >= 0 { OperandNoCalls(c.f, inst.dest, A(inst.src1.immVal)); }
    case CALL => LeaveNoCalls(c.f, c.size, true);
    case _ =>
  }

  lemma FusedNoCalls(c: Unit, i: nat)
    requires FusedAt(c, i)
    ensures NoCalls(FusedCode(c, i))
  {
    hide CompareCode, Plain;
    ComparePlain(c.f, c.ir[i], T(0));
    PlainNoCalls(CompareCode(c.f, c.ir[i], T(0)));
  }

  lemma ChainNoCalls(c: Unit, i: nat)
    requires FusesChain(c, i)
    ensures NoCalls(ChainCode(c, i))
  {
    hide Plain;
    ChainPlain(c, i);
    PlainNoCalls(ChainCode(c, i));
  }

  lemma {:induction false} BodyGivesBack(c: Unit, sigs: Sigs, i: nat)
    requires LiveUnit(c, sigs) && TailsOk(c) && ChainsSafe(c) && CallsGiveBack(sigs, PlanOf(c, sigs), c.after)
    ensures CallsGiveBack(sigs, PlanOf(c, sigs), CodeFrom(c, i))
    decreases |c.ir| - i
  {
    hide LiveUnit, LiveWithin, CodeFrom, FusedAt, FusesChain, ChainCode, ChainLength, FusedCode, InstCode, TailsOk,
         ChainsSafe, AfterTail, MatchNormalized, WellFormed, CallsGiveBack, PlanOf;
    if i >= |c.ir| {
      NothingLeft(c, i);
    } else if FusesChain(c, i) {
      ChainHead(c, i);
      BodyGivesBack(c, sigs, i + ChainLength(c, i));
      ChainNoCalls(c, i);
      PlainGivesBack(sigs, PlanOf(c, sigs), ChainCode(c, i), CodeFrom(c, i + ChainLength(c, i)));
    } else if FusedAt(c, i) {
      FusedHead(c, i);
      BodyGivesBack(c, sigs, i + 2);
      FusedNoCalls(c, i);
      PlainGivesBack(sigs, PlanOf(c, sigs), FusedCode(c, i), CodeFrom(c, i + 2));
    } else {
      AloneCode(c, i);
      BodyGivesBack(c, sigs, i + 1);
      if c.ir[i].op.CALL? && i !in c.tails {
        CallGivesBack(c, sigs, i);
      } else {
        InstNoCalls(c, i);
        PlainGivesBack(sigs, PlanOf(c, sigs), InstCode(c, i), CodeFrom(c, i + 1));
      }
    }
  }

  lemma CallGivesBack(c: Unit, sigs: Sigs, i: nat)
    requires LiveUnit(c, sigs) && TailsOk(c) && ChainsSafe(c) && i < |c.ir| && c.ir[i].op.CALL? && i !in c.tails
    requires CallsGiveBack(sigs, PlanOf(c, sigs), CodeFrom(c, i + 1))
    ensures CallsGiveBack(sigs, PlanOf(c, sigs), InstCode(c, i) + CodeFrom(c, i + 1))
  {
    hide LiveUnit, PlanOf, StoreCode, CodeFrom, Ahead, TailsOk, ChainsSafe, OutRegs, InstCode, CallsGiveBack,
         LiveWithin;
    var f, k := NameOf(c.ir[i].src1), CodeFrom(c, i + 1);
    var store := if IsVariable(c.ir[i].dest) then StoreCode(c.f, A(0), c.ir[i].dest) else [];
    BelowCall(c, sigs, i);
    ResultWithin(c, sigs, i, k);
    OperandNoCalls(c.f, c.ir[i].dest, A(0));
    PlainGivesBack(sigs, PlanOf(c, sigs), store, k);
    CallGives(sigs, PlanOf(c, sigs), f, store + k);
    CallLines(c, i);
    assert [Instr.Call(f)] + (store + k) == InstCode(c, i) + k;
  }

  lemma BelowCall(c: Unit, sigs: Sigs, i: nat)
    requires LiveUnit(c, sigs) && TailsOk(c) && ChainsSafe(c) && i < |c.ir| && c.ir[i].op.CALL? && i !in c.tails
    ensures i + 1 < |c.ir| && LiveWithin(c, sigs, i + 1, CodeFrom(c, i + 1))
  {
    hide WellFormed, Initialised, CallsTyped, CodeFrom, ChainsSafe, LiveWithin, LeavesFor, LabelPosition, Shaped;
    NextLine(c.ir, i);
    CallBeforeTail(c, i);
    hide TailsOk;
    BodyWithin(c, sigs, i + 1);
  }

  lemma CallLines(c: Unit, i: nat)
    requires i < |c.ir| && c.ir[i].op.CALL? && i !in c.tails
    ensures InstCode(c, i) == [Instr.Call(NameOf(c.ir[i].src1))] +
                              (if IsVariable(c.ir[i].dest) then StoreCode(c.f, A(0), c.ir[i].dest) else [])
  {
    hide StoreCode;
  }

  lemma CallGives(sigs: Sigs, pl: Plan, f: string, k: seq<Instr>)
    requires CallsGiveBack(sigs, pl, k) && Ahead(sigs, pl, k) <= OutRegs(sigs, f)
    ensures CallsGiveBack(sigs, pl, [Instr.Call(f)] + k)
  {
    hide Ahead, OutRegs;
    assert ([Instr.Call(f)] + k)[1..] == k;
  }

  /** No call stands behind a tail call. */
  lemma CallBeforeTail(c: Unit, i: nat)
    requires TailsOk(c) && i < |c.ir| && c.ir[i].op.CALL? && i !in c.tails
    ensures !AfterTail(c, i + 1)
  {
  }

  lemma AfterNoCalls(c: Unit, globals: seq<string>)
    requires c.after == AfterCode(c.name, c.f, c.size, globals)
    ensures NoCalls(c.after)
  {
    hide LeaveCode, StoreGlobalsCode, ExitLabel, NeedsFrame;
    LoadsShape(c.f, [], globals);
    LeaveNoCalls(c.f, c.size, c.f.hasCall);
  }

  lemma TextGivesBack(c: Unit, sigs: Sigs, constants: seq<Word.i32>, globals: seq<string>)
    requires LiveUnit(c, sigs) && TailsOk(c) && ChainsSafe(c) && c.after == AfterCode(c.name, c.f, c.size, globals)
    ensures CallsGiveBack(sigs, PlanOf(c, sigs), FunctionCode(c, constants, globals))
  {
    hide LiveUnit, CodeFrom, TailsOk, ChainsSafe, AfterCode, CallsGiveBack, PlanOf, BodyLabel, BeforeCode;
    var pl := PlanOf(c, sigs);
    AfterNoCalls(c, globals);
    NoCallsGiveBack(sigs, pl, c.after);
    BodyGivesBack(c, sigs, 0);
    BeforeShape(c, constants, globals);
    PlainGivesBack(sigs, pl, [Lab(BodyLabel(c.name))], CodeFrom(c, 0));
    PlainGivesBack(sigs, pl, BeforeCode(c.name, c.f, c.size, constants, globals),
                   [Lab(BodyLabel(c.name))] + CodeFrom(c, 0));
  }

  lemma NoCallsGiveBack(sigs: Sigs, pl: Plan, code: seq<Instr>)
    requires NoCalls(code)
    ensures CallsGiveBack(sigs, pl, code)
  {
    assert CallsGiveBack(sigs, pl, []);
    PlainGivesBack(sigs, pl, code, []);
    assert code + [] == code;
  }

  // ---- labels ----

  /** What the proofs below know of a function's text. */
  ghost predicate TextOf(c: Unit, constants: seq<Word.i32>, globals: seq<string>)
  {
    && c.after == AfterCode(c.name, c.f, c.size, globals) && SavedOnly(c.f.usedCalleeSavedRegisters)
    && Lists(constants, c.f.constantRegAlloc.Keys) && Lists(globals, c.f.globalRegAlloc.Keys)
    && (forall i :: 0 <= i < |c.ir| && c.ir[i].op.LABEL? && c.ir[i].dest.Label? ==> c.ir[i].dest.name != c.name)
  }

  lemma HasItsText(c: Unit, constants: seq<Word.i32>, globals: seq<string>)
    requires WellFormed(c) && TextOf(c, constants, globals)
    ensures HasBody(c, FunctionCode(c, constants, globals), BeforeCode(c.name, c.f, c.size, constants, globals))
  {
    hide TablesFor, SavedCovers, BeforeCode, CodeFrom, BodyLabel, ExitLabel;
    BeforeShape(c, constants, globals);
    NameIsNoLabel(c.name);
  }

  /** The plan at a label of the body, or at a name defined elsewhere. */
  lemma PlanAtLabel(c: Unit, sigs: Sigs, l: string)
    requires l != BodyLabel(c.name) && l != ExitLabel(c.name)
    ensures LabelPosition(c.ir, l) == Nowhere ==> PlanOf(c, sigs).at(l) == InRegs(sigs, l)
    ensures LabelPosition(c.ir, l).Somewhere? ==>
              LabelPosition(c.ir, l).at < |c.ir| &&
              PlanOf(c, sigs).at(l) == LiveRegs(c, sigs, LabelPosition(c.ir, l).at)
  {
    hide LiveRegs, InRegs, BodyLabel, ExitLabel;
    if LabelPosition(c.ir, l).Somewhere? { FoundLabel(c.ir, l); }
  }

  lemma TextAtLabel(c: Unit, sigs: Sigs, constants: seq<Word.i32>, globals: seq<string>, l: string)
    requires LiveUnit(c, sigs) && TailsOk(c) && ChainsSafe(c) && TextOf(c, constants, globals)
    ensures var p, pl := FunctionCode(c, constants, globals), PlanOf(c, sigs);
            if HasLabel(p, l) then Ahead(sigs, pl, After(p, l)) <= pl.at(l) else InRegs(sigs, l) <= pl.at(l)
  {
    hide WellFormed, LiveInput, TailsOk, ChainsSafe, Ahead, PlanOf, LiveRegs, InRegs, BodyLabel, ExitLabel, CodeFrom,
         BeforeCode, HasBody, After, HasLabel, LeavesFor, AfterCode, ExitRegs;
    var p, before := FunctionCode(c, constants, globals), BeforeCode(c.name, c.f, c.size, constants, globals);
    HasItsText(c, constants, globals);
    PlanBody(c, sigs);
    if l == BodyLabel(c.name) {
      BodyAt(c, sigs, p, before);
    } else if l == ExitLabel(c.name) {
      ExitAt(c, sigs, p, before, globals);
    } else {
      PlanAtLabel(c, sigs, l);
      if LabelPosition(c.ir, l).Somewhere? {
        InnerAt(c, sigs, p, before, l);
      } else if HasLabel(p, l) {
        NameAt(c, sigs, constants, globals, l);
      }
    }
  }

  lemma StartLive(c: Unit, sigs: Sigs)
    requires LiveUnit(c, sigs) && TailsOk(c) && ChainsSafe(c)
    ensures LiveWithin(c, sigs, 0, CodeFrom(c, 0)) && |c.ir| > 0
  {
    hide WellFormed, ChainsSafe, LiveWithin, CodeFrom, Initialised, CallsTyped;
    BodyWithin(c, sigs, 0);
  }

  lemma BodyAt(c: Unit, sigs: Sigs, p: seq<Instr>, before: seq<Instr>)
    requires LiveUnit(c, sigs) && TailsOk(c) && ChainsSafe(c) && HasBody(c, p, before)
    ensures HasLabel(p, BodyLabel(c.name))
    ensures Ahead(sigs, PlanOf(c, sigs), After(p, BodyLabel(c.name))) <= PlanOf(c, sigs).at(BodyLabel(c.name))
  {
    hide LiveUnit, TailsOk, ChainsSafe, Ahead, PlanOf, LiveRegs, BodyLabel, CodeFrom, After;
    StartLive(c, sigs);
    PlanBody(c, sigs);
    AheadLine(sigs, PlanOf(c, sigs), Lab(BodyLabel(c.name)), CodeFrom(c, 0));
    AfterAppend(before, [Lab(BodyLabel(c.name))] + CodeFrom(c, 0), BodyLabel(c.name));
    LandsHere(BodyLabel(c.name), CodeFrom(c, 0));
  }

  lemma ExitAt(c: Unit, sigs: Sigs, p: seq<Instr>, before: seq<Instr>, globals: seq<string>)
    requires WellFormed(c) && HasBody(c, p, before) && c.after == AfterCode(c.name, c.f, c.size, globals)
    ensures HasLabel(p, ExitLabel(c.name))
    ensures Ahead(sigs, PlanOf(c, sigs), After(p, ExitLabel(c.name))) <= PlanOf(c, sigs).at(ExitLabel(c.name))
  {
    hide WellFormed, Ahead, PlanOf, LiveRegs, BodyLabel, ExitLabel, CodeFrom, After, HasLabel, HasBody, AfterCode,
         ExitRegs;
    ExitLands(c, p, before, AnyState());
    AfterWithin(c, sigs, globals);
    PlanBody(c, sigs);
  }

  function AnyState(): State { State(map[], map[], map[]) }

  lemma InnerAt(c: Unit, sigs: Sigs, p: seq<Instr>, before: seq<Instr>, l: string)
    requires LiveUnit(c, sigs) && TailsOk(c) && ChainsSafe(c) && HasBody(c, p, before)
    requires LabelPosition(c.ir, l).Somewhere? && l != BodyLabel(c.name) && l != ExitLabel(c.name)
    ensures HasLabel(p, l) && Ahead(sigs, PlanOf(c, sigs), After(p, l)) <= PlanOf(c, sigs).at(l)
  {
    hide WellFormed, LiveInput, ChainsSafe, Ahead, PlanOf, LiveRegs, BodyLabel, ExitLabel, CodeFrom, After, HasLabel,
         HasBody, LabelPosition, LeavesFor;
    PlanAtLabel(c, sigs, l);
    FoundLabel(c.ir, l);
    var j := LabelPosition(c.ir, l).at;
    JumpLands(c, p, before, Label(l), AnyState());
    assert !AfterTail(c, j);
    BodyWithin(c, sigs, j);
  }

  lemma NameAt(c: Unit, sigs: Sigs, constants: seq<Word.i32>, globals: seq<string>, l: string)
    requires LiveUnit(c, sigs) && TailsOk(c) && ChainsSafe(c) && TextOf(c, constants, globals)
    requires HasLabel(FunctionCode(c, constants, globals), l) && LabelPosition(c.ir, l) == Nowhere
    requires l != BodyLabel(c.name) && l != ExitLabel(c.name)
    ensures Ahead(sigs, PlanOf(c, sigs), After(FunctionCode(c, constants, globals), l)) <= PlanOf(c, sigs).at(l)
  {
    hide WellFormed, LiveInput, ChainsSafe, TailsOk, Ahead, PlanOf, LiveRegs, InRegs, BodyLabel, ExitLabel,
         LabelPosition, LeavesFor, CodeFrom, After, AfterCode;
    PlanAtLabel(c, sigs, l);
    var p := FunctionCode(c, constants, globals);
    assert l == c.name by { OnlyItsName(c, constants, globals, l); }
    assert p[0] == Lab(c.name);
    var rest := p[1..];
    assert p == [Lab(c.name)] + rest;
    LandsHere(c.name, rest);
    TextWithin(c, sigs, constants, globals);
  }

  /** At the entry no more is live than the convention says. */
  lemma TextWithin(c: Unit, sigs: Sigs, constants: seq<Word.i32>, globals: seq<string>)
    requires LiveUnit(c, sigs) && TailsOk(c) && ChainsSafe(c) && TextOf(c, constants, globals)
    ensures Ahead(sigs, PlanOf(c, sigs), FunctionCode(c, constants, globals)) <= InRegs(sigs, c.name)
  {
    hide WellFormed, LiveInput, ChainsSafe, TailsOk, Ahead, PlanOf, LiveRegs, InRegs, BodyLabel, LeavesFor, CodeFrom,
         BeforeCode, AfterCode, SavedOnly;
    StartLive(c, sigs);
    AheadLine(sigs, PlanOf(c, sigs), Lab(BodyLabel(c.name)), CodeFrom(c, 0));
    BeforeWithin(c, sigs, constants, globals, [Lab(BodyLabel(c.name))] + CodeFrom(c, 0));
  }

  lemma OnlyItsName(c: Unit, constants: seq<Word.i32>, globals: seq<string>, l: string)
    requires WellFormed(c) && c.after == AfterCode(c.name, c.f, c.size, globals)
    requires HasLabel(FunctionCode(c, constants, globals), l) && LabelPosition(c.ir, l) == Nowhere
    requires l != BodyLabel(c.name) && l != ExitLabel(c.name)
    ensures l == c.name
  {
    hide TablesFor, SavedCovers, BeforeCode, CodeFrom, BodyLabel, ExitLabel, AfterCode, LabelPosition;
    BeforeShape(c, constants, globals);
    AfterLabels(c, globals);
    if Lab(l) in CodeFrom(c, 0) {
      LabelOrigin(c, 0, l);
      var j :| 0 <= j < |c.ir| && c.ir[j].op.LABEL? && c.ir[j].dest == Label(l);
      NamedSomewhere(c.ir, j, l);
    }
  }

  lemma {:induction false} NamedSomewhere(ir: seq<IrInst>, j: nat, l: string)
    requires j < |ir| && ir[j].op.LABEL? && ir[j].dest == Label(l)
    ensures LabelPosition(ir, l).Somewhere?
  {
    var n := |ir| - 1;
    if !(ir[n].op.LABEL? && ir[n].dest == Label(l)) { NamedSomewhere(ir[..n], j, l); }
  }
}
