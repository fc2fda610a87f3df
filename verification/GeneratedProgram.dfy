/** From the generator's input to the text it emits: whole programs of generated functions. */
module GeneratedProgram {
  import opened Word
  import opened Ir
  import opened IrFlow
  import opened IrMachine
  import opened Rv32
  import opened Frame
  import opened TempRanges
  import opened Allocation
  import opened Compare
  import opened FrameCode
  import opened Body
  import opened Homes
  import opened ChainSim
  import opened FunctionSim
  import opened NonNeg
  import opened NonNegSound
  import opened TailCall
  import opened Peephole
  import opened SavedRegisters
  import opened TextLive
  import opened BodyLive
  import opened TextPlan
  import opened TextExits
  import opened Windows
  import opened DeadTests
  import opened WholeProgram
  import opened EmittedProgram
  import opened Generated
  import Sim = StepSim

  /** What a whole program needs of the input of one function besides: registers are live where they should be, and no
      comparison's result is wanted behind the branch that stands next to it. */
  ghost predicate EmitOk(ir: seq<IrInst>, name: string, syms: map<string, i32>, sigs: Sigs)
  {
    InputOk(ir, name, syms) && LiveInput(ir, name, sigs) && TestsDead(ir)
  }

  lemma UnitParts(f: Compiled, draft: Unit, syms: map<string, i32>, sigs: Sigs)
    requires Produces(f, draft) && EmitOk(f.c.ir, f.c.name, syms, sigs)
    ensures BanksOk(f.c.f) && RegistersSafe(f.c.ir, f.c.f) && ParamsFirst(f.c.ir) && TailsLast(f.c)
    ensures (forall k :: 0 <= k < |f.c.ir| ==> Shaped(f.c.ir[k])) && Formed(f.c.ir)
  {
    hide DefinitionsSafe, FrameFits, TempsOk, ScratchFree, IncomingKept, SavedCovers, CachesNamed, CodeFrom, Peep,
         FrameSize, AfterCode, ListsNamed, Drafted, BanksOk, RegistersSafe, ParamsFirst, Initialised, CallsTyped,
         TestsDead, ClaimedNonneg;
    forall t, j | t in f.c.tails && t < j < |f.c.ir| ensures f.c.ir[j].op.RETURN? { assert IsTailCall(f.c.ir, t); }
    forall i | 0 <= i < |f.c.ir|
      ensures (CompareShaped(f.c.ir[i]) ==> IsVariable(f.c.ir[i].dest)) &&
              (IsBranch(f.c.ir[i]) ==> IsValue(f.c.ir[i].src1))
    {
      assert Shaped(f.c.ir[i]);
    }
  }

  /** A tail call is to a function of the program that does as this one does. */
  lemma TailLeaves(f: Compiled, draft: Unit, syms: map<string, i32>, sigs: Sigs, i: nat)
    requires Produces(f, draft) && EmitOk(f.c.ir, f.c.name, syms, sigs) && i in f.c.tails
    ensures i < |f.c.ir| && IsTailCall(f.c.ir, i) && LeavesFor(f.c, sigs, NameOf(f.c.ir[i].src1))
  {
    hide TablesFor, SavedCovers, CachesNamed, CodeFrom, Peep, FrameSize, AfterCode, ListsNamed, Drafted, ParamsFirst,
         Initialised, TestsDead, ClaimedNonneg, BodyLabel, ExitLabel, LabelsReadNothing, UniqueIrLabels,
         DistinctParams, Analysable;
    var ir, l := f.c.ir, NameOf(f.c.ir[i].src1);
    assert IsTailCall(ir, i) && !NamesLabel(ir, f.c.name, l);
    if LabelPosition(ir, l).Somewhere? {
      FoundLabel(ir, l);
    }
  }

  /** A generated function has all that the liveness of its text rests on. */
  lemma GeneratedLive(f: Compiled, draft: Unit, syms: map<string, i32>, sigs: Sigs)
    requires Produces(f, draft) && EmitOk(f.c.ir, f.c.name, syms, sigs) && WellFormed(f.c)
    ensures LiveUnit(f.c, sigs)
  {
    hide Produces, InputOk, LiveInput, TestsDead, WellFormed, IsTailCall, LeavesFor;
    forall i: nat | i in f.c.tails
      ensures i < |f.c.ir| && IsTailCall(f.c.ir, i) && LeavesFor(f.c, sigs, NameOf(f.c.ir[i].src1))
    {
      TailLeaves(f, draft, syms, sigs, i);
    }
  }

  lemma TextHere(f: Compiled, name: string, syms: map<string, i32>)
    requires UnitOk(f, name, syms)
    ensures TextOf(f.c, f.constants, f.globals) && Sim.TailsOk(f.c) && ChainsSafe(f.c) && WellFormed(f.c) &&
            f.c.name == name
  {
    hide WellFormed, Sim.TailsOk, ChainsSafe, FunctionCode, AfterCode, FrameSize, IsTailCall, ClaimedNonneg,
         Sim.Leaves, Text;
  }

  lemma TypedHere(f: Compiled, sigs: Sigs)
    requires LiveUnit(f.c, sigs)
    ensures Typed(sigs, f.c.name, f.c)
  {
    hide WellFormed, CallsTyped, Initialised, Shaped, LabelPosition, BodyLabel, ExitLabel, IsTailCall;
  }

  /** What the choices made for a whole program must come to besides: no comparison is tested in a saved register. */
  ghost predicate EmitChoices(f: Compiled, draft: Unit) { ChoicesOk(f, draft) && NoSavedTests(f.c) }

  /** A generated function's text has a liveness that fits it, and in which the peephole pass drops nothing. */
  lemma GeneratedText(f: Compiled, draft: Unit, syms: map<string, i32>, sigs: Sigs)
    requires Produces(f, draft) && EmitOk(f.c.ir, f.c.name, syms, sigs) && EmitChoices(f, draft)
    ensures UnitOk(f, f.c.name, syms) && Typed(sigs, f.c.name, f.c)
    ensures Planned(sigs, f.c.name, Text(f), PlanOf(f.c, sigs))
  {
    hide InputOk, LiveInput, TestsDead, NoSavedTests, WellFormed, UnitOk, Typed, ScratchWindows, CodeFrom, CachesNamed,
         Peep, ChainsSafe, NoGlobalClash, LiveUnit, PlanFits, FunctionCode, LeavesAlike, Ahead, InRegs, OutRegs,
         PlanOf, TextOf, AfterCode, BanksOk, RegistersSafe, Shaped, Formed, Sim.TailsOk, Drafted, TablesFor,
         SavedCovers, ListsNamed, FrameSize;
    UnitParts(f, draft, syms, sigs);
    DraftScratch(f.c, draft);
    GeneratedUnit(f, draft, syms);
    TextHere(f, f.c.name, syms);
    GeneratedLive(f, draft, syms, sigs);
    TypedHere(f, sigs);
    TextFits(f.c, sigs, f.constants, f.globals);
    TextLeavesAlike(f.c, sigs, f.constants, f.globals);
    PlanRet(f.c, sigs);
  }

  /** Every function of the program was generated, from an input as expected. */
  ghost predicate GeneratedAll(prog: Program, drafts: map<string, Unit>, syms: map<string, i32>, sigs: Sigs)
  {
    forall name :: name in prog ==>
      && name in drafts && prog[name].c.name == name && Produces(prog[name], drafts[name])
      && EmitOk(prog[name].c.ir, name, syms, sigs) && EmitChoices(prog[name], drafts[name])
  }

  /**
    Main result, from the generator's input to the text it emits: in a program all of whose functions the generator
    produced, every call that has a result in the intermediate representation, at any depth and within the stack
    there is, is carried out by running the emitted texts, if no subtraction overflows on its run.
   */
  lemma GeneratedCarried(prog: Program, drafts: map<string, Unit>, sigs: Sigs, syms: map<string, i32>, lo: int, hi: int,
                         room: int, depth: nat, stack: nat, name: string, s: State, args: Args, globals: Globals)
    requires GeneratedAll(prog, drafts, syms, sigs) && StackOk(prog, syms, lo, hi, room)
    requires StackLeft(lo, hi, room, stack, R(s, Sp)) && Fits(prog, depth, name, s)
    requires Sim.CallReady(syms, args, globals, s) && IrCall(prog, depth, stack, name, args, globals).Some?
    ensures Sim.CallDone(syms, IrCall(prog, depth, stack, name, args, globals).value, s,
                         EmittedCall(prog, depth, name, s))
  {
    hide Produces, EmitOk, EmitChoices, Text, UnitOk, StackOk, StackLeft, Sim.CallDone, Sim.CallReady, Fits, IrCall,
         EmittedCall, Planned, Typed, PlanOf;
    forall n | n in prog
      ensures UnitOk(prog[n], n, syms) && Typed(sigs, n, prog[n].c) && exists pl :: Planned(sigs, n, Text(prog[n]), pl)
    {
      GeneratedText(prog[n], drafts[n], syms, sigs);
    }
    EmittedCarried(prog, sigs, syms, lo, hi, room, depth, stack, name, s, args, globals);
  }

  /** Where no text has a comparison that becomes a subtraction, that holds of every call. */
  lemma GeneratedMatch(prog: Program, drafts: map<string, Unit>, sigs: Sigs, syms: map<string, i32>, lo: int, hi: int,
                       room: int, depth: nat, stack: nat, sp: i32)
    requires GeneratedAll(prog, drafts, syms, sigs) && StackOk(prog, syms, lo, hi, room) &&
             StackLeft(lo, hi, room, stack, sp)
    requires forall f :: f in prog ==> NothingSubtracts(Text(prog[f]))
    ensures Sim.CallsMatch(EmittedCalls(prog, depth), IrCallsAt(prog, depth, stack), syms, sp)
  {
    hide GeneratedAll, Text, StackOk, StackLeft, Sim.CallDone, Sim.CallReady, Fits, IrCall, EmittedCall,
         NothingSubtracts, R;
    var icalls := IrCallsAt(prog, depth, stack);
    forall name, s, args, globals | R(s, Sp) == sp && Sim.CallReady(syms, args, globals, s) &&
      icalls(name, args, globals).Some?
      ensures Sim.CallDone(syms, icalls(name, args, globals).value, s, EmittedCalls(prog, depth)(name, s))
    {
      FitsAlways(prog, depth, name, s);
      GeneratedCarried(prog, drafts, sigs, syms, lo, hi, room, depth, stack, name, s, args, globals);
    }
  }
}
