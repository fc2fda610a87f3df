/** What the generator produces for one function, and when that is a function whose calls can be relied on. */
module Generated {
  import opened Word
  import opened Ir
  import opened IrFlow
  import opened Rv32
  import opened Frame
  import opened TempRanges
  import opened Allocation
  import opened FrameCode
  import opened Peephole
  import opened Body
  import opened Homes
  import opened StepSim
  import opened ChainSim
  import opened FunctionSim
  import opened NonNeg
  import opened NonNegSound
  import opened TailCall
  import opened SavedRegisters
  import opened TextLabels
  import opened WholeProgram

  /** A function's unit as it leaves the generator; `draft` is the first pass, from which the save list was read. */
  ghost predicate Produces(f: Compiled, draft: Unit)
  {
    var c := f.c;
    && TablesFor(c.ir, c.f) && c.size == FrameSize(c.f) && c.after == AfterCode(c.name, c.f, c.size, f.globals)
    && (forall i: nat :: i in c.tails <==> IsTailCall(c.ir, i))
    && (forall i: nat :: i in c.nonneg ==>
          i < |c.ir| && c.ir[i].src1.Local? && ClaimedNonneg(c.ir, c.ir[i].src1.name, i))
    && Lists(f.constants, c.f.constantRegAlloc.Keys) && Lists(f.globals, c.f.globalRegAlloc.Keys)
    && Drafted(c, draft) && draft.after == [] && ListsNamed(c.f.usedCalleeSavedRegisters, Peep(CodeFrom(draft, 0)))
    && (ScratchWindows(CodeFrom(draft, 0)) ==> (SavedCovers(c) <==> CachesNamed(c.f, Peep(CodeFrom(draft, 0)))))
  }

  /** What a function's intermediate representation is expected to be, `syms` being the program's globals. */
  ghost predicate InputOk(ir: seq<IrInst>, name: string, syms: map<string, i32>)
  {
    && LabelsReadNothing(ir) && UniqueIrLabels(ir) && ParamsFirst(ir) && DistinctParams(ir) && StagedTogether(ir)
    && (forall i :: 0 <= i < |ir| && ir[i].op.LABEL? ==>
          ir[i].dest.Label? && ir[i].dest.name !in {BodyLabel(name), ExitLabel(name), name})
    && (forall i :: 0 <= i < |ir| && ir[i].op.PARAM? ==> HasCall(ir))
    && (forall i: nat :: IsTailCall(ir, i) && ir[i].src1.name == name ==> ParamIndex(ir, |ir|) <= 8)
    && (forall i: nat :: IsTailCall(ir, i) ==> !NamesLabel(ir, name, ir[i].src1.name))
    && (forall i :: 0 <= i < |ir| ==>
          Declared(ir, syms, ir[i].dest) && Declared(ir, syms, ir[i].src1) && Declared(ir, syms, ir[i].src2))
    && Analysable(ir) && WORD_BYTES * ParamIndex(ir, |ir|) <= INT_MAX
  }

  predicate Declared(ir: seq<IrInst>, syms: map<string, i32>, o: Operand)
  {
    (o.Local? ==> o.name in Locals(ir)) && (o.Global? ==> o.name in syms)
  }

  /** A label of the function other than its own name. */
  predicate NamesLabel(ir: seq<IrInst>, name: string, l: string)
  {
    l == BodyLabel(name) || l == ExitLabel(name) ||
    exists j :: 0 <= j < |ir| && ir[j].op.LABEL? && ir[j].dest == Label(l)
  }

  /** What the choices made must come to besides: no cached global takes the register of an arriving parameter, for
      which `ParamsStay` of the input is enough; the cached values are named in the draft, the chains that were fused
      could be, and the frame is no larger than a word can say. */
  ghost predicate ChoicesOk(f: Compiled, draft: Unit)
  {
    && CachesNamed(f.c.f, Peep(CodeFrom(draft, 0))) && ChainsSafe(f.c) && f.c.size <= INT_MAX &&
       NoGlobalClash(f.c.ir, f.c.f)
  }

  lemma GeneratedWellFormed(f: Compiled, draft: Unit, syms: map<string, i32>)
    requires Produces(f, draft) && InputOk(f.c.ir, f.c.name, syms) && ChoicesOk(f, draft)
    requires ScratchWindows(CodeFrom(draft, 0))
    ensures WellFormed(f.c)
  {
    hide TablesFor, SavedCovers, CachesNamed, ScratchWindows, CodeFrom, Peep, FrameSize, AfterCode, IsTailCall,
         ClaimedNonneg, ListsNamed, Drafted, ChainsSafe, Analysable, StagedTogether, NamesLabel, Incoming, BodyLabel,
         ExitLabel, Locals;
  }

  /** A call that leaves for another function names no label of this one. */
  lemma LeavesElsewhere(f: Compiled, draft: Unit, syms: map<string, i32>, i: nat)
    requires Produces(f, draft) && InputOk(f.c.ir, f.c.name, syms) && i in Leaves(f.c) && i < |f.c.ir|
    ensures Lab(NameOf(f.c.ir[i].src1)) !in Text(f)
  {
    hide TablesFor, SavedCovers, CachesNamed, ScratchWindows, CodeFrom, Peep, FrameSize, AfterCode, ClaimedNonneg,
         ListsNamed, Drafted, Analysable, StagedTogether, BodyLabel, ExitLabel, BeforeCode, Locals;
    var l := NameOf(f.c.ir[i].src1);
    assert IsTailCall(f.c.ir, i);
    BeforeShape(f.c, f.constants, f.globals);
    AfterLabels(f.c, f.globals);
    if Lab(l) in CodeFrom(f.c, 0) { LabelOrigin(f.c, 0, l); }
  }

  /** Main result: what the generator produces from such an input is a function of a whole program, if the draft loses
      no truth value in a saved register. */
  lemma GeneratedUnit(f: Compiled, draft: Unit, syms: map<string, i32>)
    requires Produces(f, draft) && InputOk(f.c.ir, f.c.name, syms) && ChoicesOk(f, draft)
    requires ScratchWindows(CodeFrom(draft, 0))
    ensures UnitOk(f, f.c.name, syms)
  {
    hide TablesFor, WellFormed, CachesNamed, ScratchWindows, CodeFrom, Peep, FrameSize, AfterCode, IsTailCall,
         ClaimedNonneg, ChainsSafe, SameTables, Analysable, StagedTogether, NamesLabel, Text, Named, Locals, TailsOk,
         Leaves;
    var c := f.c;
    GeneratedWellFormed(f, draft, syms);
    forall g | g in c.f.globalRegAlloc ensures g in syms { CachedDeclared(f, draft, syms, g); }
    forall i | i in Loops(c) ensures ParamCount(c) <= 8 { LoopIsTail(f, draft, i); }
    DetectedOk(c);
    forall i | i in Leaves(c) && i < |c.ir| ensures Lab(NameOf(c.ir[i].src1)) !in Text(f) {
      LeavesElsewhere(f, draft, syms, i);
    }
    forall i | i in c.nonneg && i < |c.ir| ensures !c.ir[i].op.LABEL? { LabelNotClaimed(f, draft, i); }
  }

  lemma CachedDeclared(f: Compiled, draft: Unit, syms: map<string, i32>, g: string)
    requires Produces(f, draft) && InputOk(f.c.ir, f.c.name, syms) && g in f.c.f.globalRegAlloc
    ensures g in syms
  {
    hide CodeFrom, Peep, FrameSize, AfterCode, ClaimedNonneg, ListsNamed, Drafted, SavedCovers, CachesNamed,
         IsTailCall, Locals, TablesOk, DefinitionsSafe, RegistersSafe, FrameFits, TempsOk, ScratchFree, IncomingKept;
    var ir := f.c.ir;
    var i :| 0 <= i < |ir| && g in GlobalName(ir[i].dest) + GlobalName(ir[i].src1) + GlobalName(ir[i].src2);
    assert Declared(ir, syms, ir[i].dest) && Declared(ir, syms, ir[i].src1) && Declared(ir, syms, ir[i].src2);
  }

  lemma LoopIsTail(f: Compiled, draft: Unit, i: nat)
    requires Produces(f, draft) && i in Loops(f.c)
    ensures IsTailCall(f.c.ir, i) && f.c.ir[i].src1.name == f.c.name
  {
    hide TablesFor, CodeFrom, Peep, FrameSize, AfterCode, ClaimedNonneg, ListsNamed, Drafted, SavedCovers, CachesNamed;
  }

  lemma LabelNotClaimed(f: Compiled, draft: Unit, i: nat)
    requires Produces(f, draft) && LabelsReadNothing(f.c.ir) && i in f.c.nonneg && i < |f.c.ir|
    ensures !f.c.ir[i].op.LABEL?
  {
    hide TablesFor, CodeFrom, Peep, FrameSize, AfterCode, ClaimedNonneg, ListsNamed, Drafted, SavedCovers, CachesNamed,
         IsTailCall;
  }
}
