/**
  When the windows of the peephole pass lose nothing: a comparison tested by the next line that is emitted must not
  be wanted behind that test. The condition is read off the intermediate representation.
 */
module DeadTests {
  import opened Ir
  import opened IrFlow
  import opened Rv32
  import opened Frame
  import opened Liveness
  import opened TempRanges
  import opened Allocation
  import opened Control
  import opened Selection
  import opened BinaryOp
  import opened Compare
  import opened FrameCode
  import opened Body
  import opened Homes
  import Sim = StepSim
  import opened ChainSim
  import opened FunctionSim
  import opened IrMachine
  import opened Peephole
  import opened PeepholeProof
  import opened PeepholeRuns
  import opened TextLive
  import opened BodyLive
  import opened TextLabels
  import opened TextPlan
  import opened Windows
  import opened SavedRegisters

  // ---- the condition ----

  predicate CopiesLocal(inst: IrInst)
  {
    (IsMove(inst.op) || inst.op.LOCAL_VAR_DECL?) && inst.dest.Local? && inst.src1.Local?
  }

  /** An instruction that may come to no lines: a copy whose two locals share a register, a declaration, a marker. */
  predicate Silent(inst: IrInst)
  {
    CopiesLocal(inst) || (IsMove(inst.op) && inst.dest.Global? && inst.src1 == inst.dest) ||
    (inst.op.LOCAL_VAR_DECL? && (!inst.dest.Local? || inst.src1.NoOperand?)) ||
    inst.op.FUNC_BEGIN? || inst.op.FUNC_END? || inst.op.GLOBAL_VAR_DECL? || inst.op.PARAM?
  }

  /** Comparison i and branch j with nothing between them that must come to lines. */
  predicate Adjacent(ir: seq<IrInst>, i: nat, j: nat)
  {
    && i < j < |ir| && CompareShaped(ir[i]) && IsBranch(ir[j]) && forall l :: i < l < j ==> Silent(ir[l])
  }

  /** The locals that hold the result of comparison i at j: its destination, and the copies made since. */
  function Holders(ir: seq<IrInst>, i: nat, j: nat): set<string>
    requires i < j <= |ir|
    decreases j
  {
    if j == i + 1 then LocalName(ir[i].dest)
    else
      var held, inst := Holders(ir, i, j - 1), ir[j - 1];
      if !DefinesLocal(inst) then held
      else if CopiesLocal(inst) && inst.src1.name in held then held + {inst.dest.name}
      else held - {inst.dest.name}
  }

  /** Nothing that holds the result of comparison i at branch j is wanted behind j. */
  ghost predicate HoldersDead(ir: seq<IrInst>, i: nat, j: nat)
    requires i < j < |ir|
  {
    forall w, s :: w in Holders(ir, i, j) && s in Successors(ir, j) ==> !PathLive(ir, s, w)
  }

  /** No result of a comparison is tested by the branch next to it and wanted behind that branch; a global that may be
      cached is not tested so at all. */
  ghost predicate TestsDead(ir: seq<IrInst>)
  {
    forall i: nat, j: nat :: Adjacent(ir, i, j) ==>
      && (ir[j].src1.Local? && ir[j].src1.name in Holders(ir, i, j) ==> HoldersDead(ir, i, j))
      && (ir[i].dest.Global? && ir[j].src1 == ir[i].dest ==> HasCall(ir))
  }

  /** What the choice of registers must come to: a comparison that is not fused is not tested so in a saved register. */
  ghost predicate NoSavedTests(c: Unit)
  {
    forall i: nat, j: nat :: Adjacent(c.ir, i, j) && !FusedAt(c, i) && RegForOperand(c.f, c.ir[i].dest).Some? &&
                             RegForOperand(c.f, c.ir[j].src1) == RegForOperand(c.f, c.ir[i].dest) ==>
      !RegForOperand(c.f, c.ir[i].dest).value.S?
  }

  // ---- what holds the result ----

  /** The last instructions are those behind a tail call. */
  predicate TailsLast(c: Unit)
  {
    forall t, j :: t in c.tails && t < j < |c.ir| ==> c.ir[j].op.RETURN?
  }

  /** An instruction in front of a branch and behind a comparison, whose lines are none, is one of the silent ones; a
      copy among them is within one register. */
  lemma NoLineSilent(c: Unit, i: nat, l: nat, j: nat)
    requires BanksOk(c.f) && RegistersSafe(c.ir, c.f) && ParamsFirst(c.ir) && TailsLast(c)
    requires i < l < j < |c.ir| && CompareShaped(c.ir[i]) && IsBranch(c.ir[j]) && Shaped(c.ir[l]) &&
             InstCode(c, l) == []
    ensures Silent(c.ir[l])
    ensures CopiesLocal(c.ir[l]) ==> RegForVar(c.f, c.ir[l].src1.name) == RegForVar(c.f, c.ir[l].dest.name)
    ensures DefinesLocal(c.ir[l]) ==> CopiesLocal(c.ir[l]) || DeclaresBare(c.ir[l], c.ir[l].dest.name)
  {
    hide BanksOk, RegistersSafe, BinaryCode, CompareCode, MoveCode, ParamDeclCode, LeaveCode, StoreCode, LoadCode,
         TailsLast, ParamIndex, BodyLabel, ExitLabel, RegForVar, LoadAddressCode;
    var inst := c.ir[l];
    if BinaryShaped(inst) {
      BinaryEnds(c.f, inst, l in c.nonneg);
    } else if CompareShaped(inst) {
      DestNotT1(c.f, inst.dest);
      CompareDecides(c.f, inst, DestRegOrT0(c.f, inst.dest));
    } else if inst.op.RETURN? {
      NoReturnHere(c, l, j);
    } else if IsMove(inst.op) {
      MoveLines(c, inst.src1, inst.dest);
    } else if inst.op.LOCAL_VAR_DECL? {
      NoParamHere(c.ir, i, l);
      if inst.dest.Local? && !inst.src1.NoOperand? { MoveLines(c, inst.src1, inst.dest); }
    } else if IsBranch(inst) {
      if RegForOperand(c.f, inst.src1).None? { LoadedFirst(c.f, inst.src1); }
    }
  }

  lemma NoReturnHere(c: Unit, l: nat, j: nat)
    requires TailsLast(c) && l < j < |c.ir| && IsBranch(c.ir[j])
    ensures !AfterTail(c, l)
  {
  }

  lemma NoParamHere(ir: seq<IrInst>, i: nat, l: nat)
    requires ParamsFirst(ir) && i < l < |ir| && CompareShaped(ir[i])
    ensures !DeclaresParam(ir[l])
  {
    AllDeclared(ir, i, l);
    AllDeclared(ir, i, l + 1);
  }

  /** A move without lines is within one register. */
  lemma MoveLines(c: Unit, o: Operand, dest: Operand)
    requires BanksOk(c.f) && RegistersSafe(c.ir, c.f) && IsValue(o) && IsVariable(dest)
    requires MoveCode(c.f, o, dest) == []
    ensures RegForOperand(c.f, dest).Some? && RegForOperand(c.f, o) == RegForOperand(c.f, dest)
    ensures (o.Local? && dest.Local?) || (dest.Global? && o == dest)
  {
    hide LocalOffset, StoreAddressCode;
    if RegForOperand(c.f, dest).None? { StoreLines(c.f, dest); }
  }

  /** Along silent lines a local in the register of the comparison's result that is wanted holds that result. */
  lemma {:induction false} OnlyHolders(c: Unit, i: nat, j: nat, l: nat, w: string)
    requires BanksOk(c.f) && RegistersSafe(c.ir, c.f) && DefinitionsSafe(c.ir, c.f) && ParamsFirst(c.ir) && TailsLast(c)
    requires Initialised(c.ir) && (forall k :: 0 <= k < |c.ir| ==> Shaped(c.ir[k]))
    requires i < l <= j < |c.ir| && CompareShaped(c.ir[i]) && c.ir[i].dest.Local? && IsBranch(c.ir[j])
    requires RegForVar(c.f, c.ir[i].dest.name).Some?
    requires forall k :: i < k < j ==> InstCode(c, k) == []
    requires PathLive(c.ir, l, w) && RegForVar(c.f, w) == RegForVar(c.f, c.ir[i].dest.name)
    ensures w in Holders(c.ir, i, l)
    decreases l
  {
    hide BanksOk, RegistersSafe, DefinitionsSafe, ParamsFirst, TailsLast, InstCode, PathLive, RegForVar, Shaped;
    if l == i + 1 {
      assert l in Successors(c.ir, i) by { CompareGoesOn(c.ir, i); }
      assert LiveAfterInst(c.ir, i, w);
      if w != c.ir[i].dest.name { Elsewhere(c.ir, c.f, i, w); }
    } else {
      var k := l - 1;
      assert Shaped(c.ir[k]) && InstCode(c, k) == [];
      NoLineSilent(c, i, k, j);
      assert l in Successors(c.ir, k) by { SilentGoesOn(c.ir, k); }
      if Defines(c.ir[k], w) {
        assert !DeclaresBare(c.ir[k], w);
        PathHere(c.ir, k, c.ir[k].src1.name);
        OnlyHolders(c, i, j, k, c.ir[k].src1.name);
      } else {
        PathBefore(c.ir, k, l, w);
        OnlyHolders(c, i, j, k, w);
      }
    }
  }

  lemma Elsewhere(ir: seq<IrInst>, f: StackFrame, i: nat, w: string)
    requires DefinitionsSafe(ir, f) && i < |ir| && CompareShaped(ir[i]) && ir[i].dest.Local?
    requires LiveAfterInst(ir, i, w) && w != ir[i].dest.name
    ensures PlacesDiffer(f, ir[i].dest.name, w)
  {
    hide PathLive, RegForVar, LiveAfterInst;
    assert Disturbs(ir, i, ir[i].dest.name, w);
  }

  lemma CompareGoesOn(ir: seq<IrInst>, i: nat)
    requires i + 1 < |ir| && CompareShaped(ir[i])
    ensures i + 1 in Successors(ir, i) && !IsCopy(ir[i])
  {
  }

  lemma SilentGoesOn(ir: seq<IrInst>, i: nat)
    requires i + 1 < |ir| && Silent(ir[i])
    ensures i + 1 in Successors(ir, i)
  {
  }

  // ---- the register of a truth value is dead behind its test ----

  /** What the result of a test needs: its unit is as expected, and the tests of its input are dead. */
  ghost predicate SafeTests(c: Unit, sigs: Sigs)
  {
    LiveUnit(c, sigs) && Sim.TailsOk(c) && TestsDead(c.ir) && NoSavedTests(c)
  }

  lemma TailsStand(c: Unit)
    requires Sim.TailsOk(c)
    ensures TailsLast(c)
  {
  }

  /** No home of a local that is live behind branch j is the register the branch tests. */
  lemma TruthNoHome(c: Unit, sigs: Sigs, i: nat, j: nat, r: Reg, s: nat)
    requires SafeTests(c, sigs) && TestedBy(c, i, j, r) && s in Successors(c.ir, j)
    ensures r !in HomesLive(c, s)
  {
    hide WellFormed, InstCode, FusedAt, FusesChain, CallsTyped, Initialised, TestsDead, NoSavedTests, PathLive,
         RegForVar, LabelPosition, Sim.TailsOk, Successors, LeavesFor, HoldersDead;
    UnitTables(c);
    if FusedAt(c, i) {
      HomesReal(c, s);
    } else {
      SafeParts(c, sigs);
      TestedAdjacent(c, i, j, r);
      forall w | w in Locals(c.ir) && PathLive(c.ir, s, w) && RegForVar(c.f, w) == Some(r) ensures false {
        DeadWhereTested(c, sigs, i, j, r, s, w);
      }
    }
  }

  lemma HomesReal(c: Unit, s: nat)
    requires TablesOk(c.f)
    ensures HomesLive(c, s) !! {T(0), T(1), T(2)}
  {
    hide LocalOffset, PathLive;
  }

  lemma SafeParts(c: Unit, sigs: Sigs)
    requires SafeTests(c, sigs)
    ensures BanksOk(c.f) && RegistersSafe(c.ir, c.f) && DefinitionsSafe(c.ir, c.f) && ParamsFirst(c.ir) && TailsLast(c)
    ensures Initialised(c.ir) && TestsDead(c.ir) && (forall k :: 0 <= k < |c.ir| ==> Shaped(c.ir[k]))
    ensures c.f.hasCall == HasCall(c.ir) && NoSavedTests(c)
  {
    hide BanksOk, RegistersSafe, DefinitionsSafe, FrameFits, TempsOk, ScratchFree, IncomingKept, Initialised,
         TestsDead, Shaped, NoSavedTests;
    TailsStand(c);
  }

  lemma TestedAdjacent(c: Unit, i: nat, j: nat, r: Reg)
    requires BanksOk(c.f) && RegistersSafe(c.ir, c.f) && ParamsFirst(c.ir) && TailsLast(c)
    requires (forall k :: 0 <= k < |c.ir| ==> Shaped(c.ir[k])) && TestedBy(c, i, j, r) && !FusedAt(c, i)
    ensures Adjacent(c.ir, i, j)
  {
    hide BanksOk, RegistersSafe, ParamsFirst, TailsLast, InstCode, Shaped, FusedAt, FusesChain;
    forall l | i < l < j ensures Silent(c.ir[l]) {
      assert Shaped(c.ir[l]);
      NoLineSilent(c, i, l, j);
    }
  }

  /** The result and what the branch tests are the same local's, or copies of it. */
  lemma DeadWhereTested(c: Unit, sigs: Sigs, i: nat, j: nat, r: Reg, s: nat, w: string)
    requires SafeTests(c, sigs) && TestedBy(c, i, j, r) && !FusedAt(c, i) && Adjacent(c.ir, i, j) &&
             s in Successors(c.ir, j)
    requires RegForVar(c.f, w) == Some(r)
    ensures !PathLive(c.ir, s, w)
  {
    hide SafeTests, BanksOk, RegistersSafe, DefinitionsSafe, ParamsFirst, TailsLast, Initialised, InstCode, FusedAt,
         FusesChain, PathLive, RegForVar, Holders, Successors, Adjacent;
    SafeParts(c, sigs);
    if PathLive(c.ir, s, w) {
      LocalsTested(c, i, j, r, w);
      assert Shaped(c.ir[j]);
      PathBefore(c.ir, j, s, w);
      OnlyHolders(c, i, j, j, w);
      PathHere(c.ir, j, c.ir[j].src1.name);
      OnlyHolders(c, i, j, j, c.ir[j].src1.name);
    }
  }

  /** A local in the tested register: then the comparison and the branch name locals too. */
  lemma LocalsTested(c: Unit, i: nat, j: nat, r: Reg, w: string)
    requires TestedBy(c, i, j, r) && !FusedAt(c, i) && RegistersSafe(c.ir, c.f) && RegForVar(c.f, w) == Some(r)
    ensures c.ir[i].dest.Local? && c.ir[j].src1.Local? && RegForVar(c.f, c.ir[i].dest.name) == Some(r)
    ensures RegForVar(c.f, c.ir[j].src1.name) == Some(r)
  {
    hide RegForVar, InstCode, FusedAt, FusesChain;
  }

  /** Neither the tested register nor t1 is live where branch j leads. */
  lemma TruthDead(c: Unit, sigs: Sigs, i: nat, j: nat, r: Reg, s: nat)
    requires SafeTests(c, sigs) && TestedBy(c, i, j, r) && s in Successors(c.ir, j) && (s == j + 1 || c.ir[s].op.LABEL?)
    ensures {r, T(1)} !! LiveRegs(c, sigs, s)
  {
    hide SafeTests, TestedBy, HomesLive, Pending, ArgsNeeded, Caches;
    TruthNoHome(c, sigs, i, j, r, s);
    TruthNotKept(c, sigs, i, j, r);
    NothingWaiting(c, sigs, i, j, r, s);
    HomesNotT1(c, sigs, s);
  }

  lemma HomesNotT1(c: Unit, sigs: Sigs, s: nat)
    requires SafeTests(c, sigs)
    ensures T(1) !in HomesLive(c, s)
  {
    hide LiveInput, Sim.TailsOk, TestsDead, NoSavedTests, HomesLive;
    UnitTables(c);
    HomesReal(c, s);
  }

  lemma NothingWaiting(c: Unit, sigs: Sigs, i: nat, j: nat, r: Reg, s: nat)
    requires SafeTests(c, sigs) && TestedBy(c, i, j, r) && s < |c.ir| && (s == j + 1 || c.ir[s].op.LABEL?)
    ensures Pending(c.ir, s) == {} && ArgsNeeded(c.ir, sigs, s) == {}
  {
    hide TablesFor, SavedCovers, Initialised, FusedAt, InstCode, FusesChain, TestsDead, NoSavedTests, Pending,
         Sim.TailsOk, Shaped;
    NothingBehind(c.ir, sigs, j, s);
  }

  lemma TruthNotKept(c: Unit, sigs: Sigs, i: nat, j: nat, r: Reg)
    requires SafeTests(c, sigs) && TestedBy(c, i, j, r)
    ensures {r, T(1)} !! KEPT + Caches(c.f)
  {
    hide SafeTests, FusedAt, InstCode, FusesChain, BanksOk, RegistersSafe, DefinitionsSafe, ParamsFirst, TailsLast,
         Initialised, TestsDead, Shaped, NoSavedTests;
    SafeParts(c, sigs);
    ScratchNoCache(c.f);
    if !FusedAt(c, i) {
      TestedAdjacent(c, i, j, r);
      TestedReal(c, i, j, r);
    }
  }

  lemma ScratchNoCache(f: StackFrame)
    requires BanksOk(f)
    ensures {T(0), T(1)} !! KEPT + Caches(f)
  {
  }

  /** The tested register is one of those handed out, and no cache. */
  lemma TestedReal(c: Unit, i: nat, j: nat, r: Reg)
    requires BanksOk(c.f) && RegistersSafe(c.ir, c.f) && TestsDead(c.ir) && c.f.hasCall == HasCall(c.ir)
    requires TestedBy(c, i, j, r) && !FusedAt(c, i) && Adjacent(c.ir, i, j) && NoSavedTests(c)
    ensures r !in KEPT + Caches(c.f) && !r.S?
  {
    hide FusedAt, InstCode, FusesChain, Adjacent, LocalOffset;
    assert Allocatable(r);
  }

  // ---- the plan fits ----

  lemma TestedGoesOn(c: Unit, sigs: Sigs, i: nat, j: nat, r: Reg)
    requires SafeTests(c, sigs) && TestedBy(c, i, j, r)
    ensures j + 1 < |c.ir| && j + 1 in Successors(c.ir, j) && !AfterTail(c, j + 1)
  {
    hide WellFormed, CallsTyped, Initialised, TestsDead, NoSavedTests, Shaped, FusedAt, FusesChain, InstCode,
         LabelPosition;
    NextLine(c.ir, j);
  }

  /** A window that comes from a comparison and its branch loses nothing live. */
  lemma WindowLosesNothing(c: Unit, sigs: Sigs, i: nat, j: nat, pat: Pattern, k: seq<Instr>)
    requires SafeTests(c, sigs) && ChainsSafe(c) && Matches(pat, k) && ComesFrom(c, i, j, pat, k)
    ensures Dropped(pat, k) !! (PlanOf(c, sigs).at(k[Length(pat) - 1].target) +
                                Ahead(sigs, PlanOf(c, sigs), k[Length(pat)..]))
  {
    hide LiveUnit, TestsDead, NoSavedTests, Sim.TailsOk, ChainsSafe, TestedBy, Matches, WellUsed, CodeFrom, PlanOf,
         LiveRegs, Ahead, Successors, LabelPosition, AfterTail;
    var r := TruthReg(pat, k);
    assert IsBranch(c.ir[j]) && i < j < |c.ir| by { BranchOf(c, i, j, r); }
    TestedGoesOn(c, sigs, i, j, r);
    PlanAtTarget(c, sigs, j);
    var s := LabelPosition(c.ir, NameOf(c.ir[j].dest)).at;
    FoundLabel(c.ir, NameOf(c.ir[j].dest));
    TruthDead(c, sigs, i, j, r, j + 1);
    TruthDead(c, sigs, i, j, r, s);
    BodyWithin(c, sigs, j + 1);
  }

  lemma BranchOf(c: Unit, i: nat, j: nat, r: Reg)
    requires TestedBy(c, i, j, r)
    ensures i < j < |c.ir| && IsBranch(c.ir[j])
  {
    hide FusedAt, InstCode, FusesChain;
  }

  /** What is before and after the body has no windows. */
  lemma AfterKnown(c: Unit, globals: seq<string>)
    requires c.after == AfterCode(c.name, c.f, c.size, globals)
    ensures AllKnown(c, c.after) && !Opens(c.after) && !StartsWithBranch(c.after)
  {
    hide LeaveCode, StoreGlobalsCode, ExitLabel, NeedsFrame, Inert, WindowKnown;
    LeaveInert(c.f, c.size, c.f.hasCall);
    StoresInert(c.f, globals);
    SinglesInert();
    assert AllKnown(c, []);
    InertKnown(c, c.after, []);
    assert c.after + [] == c.after;
  }

  lemma SinglesInert()
    ensures Inert(Ret) && forall l :: Inert(Lab(l))
  {
  }

  lemma {:induction false} StoresInert(f: StackFrame, globals: seq<string>)
    ensures forall i :: i in StoreGlobalsCode(f, globals) ==> Inert(i)
    ensures forall i :: i in LoadGlobalsCode(f, globals) ==> Inert(i)
    decreases |globals|
  {
    if globals != [] {
      StoresInert(f, globals[..|globals| - 1]);
    }
  }

  lemma BeforeInert(c: Unit, constants: seq<Word.i32>, globals: seq<string>)
    requires BanksOk(c.f) && Lists(constants, c.f.constantRegAlloc.Keys)
    ensures forall i :: i in BeforeCode(c.name, c.f, c.size, constants, globals) ==> Inert(i)
  {
    hide PrologueCode, LoadConstantsCode, LoadGlobalsCode, Inert;
    SinglesInert();
    PrologueInert(c.f, c.size);
    StoresInert(c.f, globals);
    ConstantsInert(c.f, constants);
  }

  lemma PrologueInert(f: StackFrame, size: int)
    ensures forall i :: i in PrologueCode(f, size) ==> Inert(i)
  {
  }

  lemma ConstantsInert(f: StackFrame, constants: seq<Word.i32>)
    requires BanksOk(f) && Lists(constants, f.constantRegAlloc.Keys)
    ensures forall i :: i in LoadConstantsCode(f, constants) ==> Inert(i)
  {
  }

  lemma TextKnown(c: Unit, constants: seq<Word.i32>, globals: seq<string>)
    requires BanksOk(c.f) && Formed(c.ir) && TextOf(c, constants, globals)
    ensures AllKnown(c, FunctionCode(c, constants, globals))
  {
    hide BanksOk, Formed, CodeFrom, AfterCode, BeforeCode, WindowKnown, Opens, BodyLabel, Inert, Lists;
    AfterKnown(c, globals);
    BodyKnown(c, 0);
    ControlKnown(c, Lab(BodyLabel(c.name)), CodeFrom(c, 0));
    BeforeInert(c, constants, globals);
    InertKnown(c, BeforeCode(c.name, c.f, c.size, constants, globals), [Lab(BodyLabel(c.name))] + CodeFrom(c, 0));
    BeforeShape(c, constants, globals);
  }

  lemma FormedInput(c: Unit, sigs: Sigs)
    requires LiveUnit(c, sigs)
    ensures Formed(c.ir)
  {
    hide WellFormed, CallsTyped, Initialised, LeavesFor, LabelPosition;
    forall i | 0 <= i < |c.ir|
      ensures (CompareShaped(c.ir[i]) ==> IsVariable(c.ir[i].dest)) && (IsBranch(c.ir[i]) ==> IsValue(c.ir[i].src1))
    {
      assert Shaped(c.ir[i]);
    }
  }

  lemma TextSafe(c: Unit, sigs: Sigs, constants: seq<Word.i32>, globals: seq<string>, k: seq<Instr>)
    requires SafeTests(c, sigs) && ChainsSafe(c) && TextOf(c, constants, globals)
    requires IsSuffix(k, FunctionCode(c, constants, globals)) && k != []
    ensures WindowSafe(sigs, PlanOf(c, sigs), k)
  {
    hide LiveUnit, TestsDead, NoSavedTests, Sim.TailsOk, ChainsSafe, FunctionCode, PlanOf, Ahead, ComesFrom, Choose,
         Matches, WellUsed, Dropped, Length, TextOf, BanksOk, Formed;
    SafeParts(c, sigs);
    FormedInput(c, sigs);
    TextKnown(c, constants, globals);
    var p := FunctionCode(c, constants, globals);
    assert WindowKnown(c, p[|p| - |k|..]);
    if Choose(k).Rewrite? {
      var i: nat, j: nat :| ComesFrom(c, i, j, Choose(k).pat, k);
      UsedWell(c, i, j, Choose(k).pat, k);
      WindowLosesNothing(c, sigs, i, j, Choose(k).pat, k);
    }
  }

  lemma UsedWell(c: Unit, i: nat, j: nat, pat: Pattern, k: seq<Instr>)
    requires Matches(pat, k) && ComesFrom(c, i, j, pat, k)
    ensures WellUsed(pat, k)
  {
    hide WellUsed, TestedBy, CodeFrom;
  }

  /**
    Main result: if no comparison's result is wanted behind the branch that stands next to it, then the liveness of a
    function's registers fits its whole text, and the peephole pass drops nothing that is live.
   */
  lemma TextFits(c: Unit, sigs: Sigs, constants: seq<Word.i32>, globals: seq<string>)
    requires LiveUnit(c, sigs) && Sim.TailsOk(c) && ChainsSafe(c) && TextOf(c, constants, globals)
    requires TestsDead(c.ir) && NoSavedTests(c)
    ensures PlanFits(sigs, PlanOf(c, sigs), FunctionCode(c, constants, globals))
    ensures Ahead(sigs, PlanOf(c, sigs), FunctionCode(c, constants, globals)) <= InRegs(sigs, c.name)
  {
    hide LiveInput, Sim.TailsOk, ChainsSafe, TestsDead, NoSavedTests, FunctionCode, PlanOf, Ahead, InRegs, WindowSafe,
         UniqueLabels, CallsGiveBack, WellFormed, LeavesFor, AfterCode, Lists, After;
    var p, pl := FunctionCode(c, constants, globals), PlanOf(c, sigs);
    LabelsDefinedOnce(c, constants, globals);
    TextGivesBack(c, sigs, constants, globals);
    TextWithin(c, sigs, constants, globals);
    forall l ensures if HasLabel(p, l) then Ahead(sigs, pl, After(p, l)) <= pl.at(l) else InRegs(sigs, l) <= pl.at(l) {
      TextAtLabel(c, sigs, constants, globals, l);
    }
    forall k | IsSuffix(k, p) && k != [] ensures WindowSafe(sigs, pl, k) { TextSafe(c, sigs, constants, globals, k); }
  }

  // ---- the draft ----

  /** A text all of whose windows are known, and test no saved register, loses no truth value in one. */
  lemma {:induction false} KnownScratch(c: Unit, k: seq<Instr>)
    requires AllKnown(c, k) && forall i, j, r :: TestedBy(c, i, j, r) ==> !r.S?
    ensures ScratchWindows(k)
    decreases |k|
  {
    hide Choose, Peephole.Matches, TestedBy, WellUsed, CodeFrom, TruthReg;
    if k != [] {
      assert k[0..] == k;
      assert WindowKnown(c, k[0..]);
      var rest := k[Consumed(k)..];
      forall m | 0 <= m < |rest| ensures WindowKnown(c, rest[m..]) {
        assert rest[m..] == k[Consumed(k) + m..];
      }
      KnownScratch(c, rest);
    }
  }

  /** In the draft, too, no truth value is lost in a saved register. */
  lemma DraftScratch(c: Unit, draft: Unit)
    requires Drafted(c, draft) && draft.after == [] && BanksOk(c.f) && RegistersSafe(c.ir, c.f) && ParamsFirst(c.ir)
    requires TailsLast(c) && (forall k :: 0 <= k < |c.ir| ==> Shaped(c.ir[k])) && Formed(c.ir) && NoSavedTests(c)
    ensures ScratchWindows(CodeFrom(draft, 0))
  {
    hide CodeFrom, ScratchWindows, TestedBy, Shaped, Formed, FusedAt, FusesChain, NoSavedTests, BanksOk, RegistersSafe,
         ParamsFirst, Adjacent, WindowKnown;
    SameBanks(c, draft);
    assert AllKnown(draft, []);
    BodyKnown(draft, 0);
    forall i, j, r | TestedBy(draft, i, j, r) ensures !r.S? { DraftTest(draft, i, j, r); }
    KnownScratch(draft, CodeFrom(draft, 0));
  }

  lemma SameBanks(c: Unit, draft: Unit)
    requires Drafted(c, draft) && BanksOk(c.f) && RegistersSafe(c.ir, c.f) && NoSavedTests(c)
    ensures BanksOk(draft.f) && RegistersSafe(draft.ir, draft.f) && NoSavedTests(draft)
  {
    hide RegForVar, RegForOperand, NoSavedTests;
    forall v ensures RegForVar(draft.f, v) == RegForVar(c.f, v) { SameRegisters(c.f, draft.f, v); }
    forall o ensures RegForOperand(draft.f, o) == RegForOperand(c.f, o) { SameRegister(c.f, draft.f, o); }
    SameTests(c, draft);
  }

  lemma SameTests(c: Unit, draft: Unit)
    requires draft.ir == c.ir && NoSavedTests(c) && forall o :: RegForOperand(draft.f, o) == RegForOperand(c.f, o)
    ensures NoSavedTests(draft)
  {
    hide FusedAt, Silent, RegForOperand, IsBranch, CompareShaped;
    forall i: nat, j: nat | Adjacent(draft.ir, i, j) && !FusedAt(draft, i) &&
      RegForOperand(draft.f, draft.ir[i].dest).Some? &&
                            RegForOperand(draft.f, draft.ir[j].src1) == RegForOperand(draft.f, draft.ir[i].dest)
      ensures !RegForOperand(draft.f, draft.ir[i].dest).value.S?
    {
      SameFused(c, draft, i);
      assert Adjacent(c.ir, i, j);
    }
  }

  lemma SameRegisters(f: StackFrame, g: StackFrame, v: string)
    requires SameTables(f, g)
    ensures RegForVar(g, v) == RegForVar(f, v)
  {
  }

  lemma SameRegister(f: StackFrame, g: StackFrame, o: Operand)
    requires SameTables(f, g)
    ensures RegForOperand(g, o) == RegForOperand(f, o)
  {
  }

  lemma SameFused(c: Unit, draft: Unit, i: nat)
    requires draft.ir == c.ir
    ensures FusedAt(draft, i) == FusedAt(c, i)
  {
  }

  lemma DraftTest(draft: Unit, i: nat, j: nat, r: Reg)
    requires BanksOk(draft.f) && RegistersSafe(draft.ir, draft.f) && ParamsFirst(draft.ir) && TailsLast(draft)
    requires (forall k :: 0 <= k < |draft.ir| ==> Shaped(draft.ir[k])) && NoSavedTests(draft) &&
             TestedBy(draft, i, j, r)
    ensures !r.S?
  {
    hide BanksOk, RegistersSafe, ParamsFirst, TailsLast, Shaped, InstCode, FusedAt, FusesChain, Adjacent;
    if !FusedAt(draft, i) { TestedAdjacent(draft, i, j, r); }
  }
}
