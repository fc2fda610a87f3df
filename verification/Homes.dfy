/** Where every value of a running function lives, and why writing one of them leaves the others. */
module Homes {
  import opened Word
  import opened Ir
  import opened IrFlow
  import opened Rv32
  import opened Frame
  import opened TempRanges
  import opened Allocation
  import opened Body

  /** One activation: its frame pointer and stack pointer, the stack pointer it was entered with, the
      addresses of the global symbols, and the state the body starts in. */
  datatype Home = Home(fp: i32, sp: i32, top: i32, syms: map<string, i32>, start: State)

  function SymbolHome(h: Home, g: string): i32 { if g in h.syms then h.syms[g] else 0 }

  function HomePlace(f: StackFrame, h: Home, o: Operand): Place
    requires IsVariable(o)
  {
    match RegForOperand(f, o)
    case Some(r) => InReg(r)
    case None => if o.Local? then InMem(Wrap(h.fp + LocalOffset(f, o.name))) else InMem(SymbolHome(h, o.name))
  }

  /** The stack word of argument k, from the ninth on, in the area that starts at `base`. */
  function StackWord(base: i32, k: nat): i32 { Wrap(base + WORD_BYTES * (k - 8)) }

  /** Where argument k is staged for a call. */
  function ArgPlace(h: Home, k: nat): Place { if k < 8 then InReg(A(k)) else InMem(StackWord(h.sp, k)) }

  /** Where parameter k arrives. */
  function ParamPlace(h: Home, k: nat): Place { if k < 8 then InReg(A(k)) else InMem(StackWord(h.fp, k)) }

  function ParamCount(c: Unit): nat { ParamIndex(c.ir, |c.ir|) }

  ghost predicate IsSymbolAddress(h: Home, a: i32) { exists g :: g in h.syms && h.syms[g] == a }

  /** Memory the body must leave alone: the saved words at the top of its frame and everything the
      caller has on the stack. */
  ghost predicate Protected(c: Unit, h: Home, a: i32)
  {
    Unsigned(a) >= Unsigned(h.top) - WORD_BYTES * (2 + |c.f.usedCalleeSavedRegisters|) && !IsSymbolAddress(h, a)
  }

  /** The stack areas and the globals do not run into each other. */
  ghost predicate LayoutOk(c: Unit, h: Home)
  {
    && (forall v :: v in c.f.localOffsets && RegForVar(c.f, v).None? ==>
          var a := Unsigned(h.fp) + LocalOffset(c.f, v);
          Unsigned(h.sp) + c.f.outgoingArgumentBytes <= a <
          Unsigned(h.top) - WORD_BYTES * (2 + |c.f.usedCalleeSavedRegisters|))
    && Unsigned(h.sp) + c.f.outgoingArgumentBytes <= Unsigned(h.top) && c.f.outgoingArgumentBytes <= INT_MAX
    && WORD_BYTES * ParamCount(c) <= INT_MAX
    && (c.f.hasCall ==> Unsigned(h.sp) + c.f.outgoingArgumentBytes <=
                        Unsigned(h.top) - WORD_BYTES * (2 + |c.f.usedCalleeSavedRegisters|))
    && (forall k: nat :: 8 <= k < ParamCount(c) ==> Protected(c, h, StackWord(h.fp, k)))
    && (forall g, g' :: g in h.syms && g' in h.syms && g != g' ==> h.syms[g] != h.syms[g'])
    && (forall g :: g in h.syms ==> !(Unsigned(h.sp) <= Unsigned(h.syms[g]) < Unsigned(h.top)))
  }

  ghost predicate ParamsFirst(ir: seq<IrInst>)
  {
    forall i :: 0 <= i < |ir| && DeclaresParam(ir[i]) ==> ParamIndex(ir, i) == i
  }

  ghost predicate DistinctParams(ir: seq<IrInst>)
  {
    forall i, j :: 0 <= i < j < |ir| && DeclaresParam(ir[i]) && DeclaresParam(ir[j]) ==> ir[i].dest != ir[j].dest
  }

  /** A cached global does not take the register of a parameter that still has to be moved away. */
  ghost predicate NoGlobalClash(ir: seq<IrInst>, f: StackFrame)
  {
    forall g, p :: g in f.globalRegAlloc && p in Incoming(ir, |ir|) ==> f.globalRegAlloc[g] != A(Incoming(ir, |ir|)[p])
  }

  predicate UniqueIrLabels(ir: seq<IrInst>)
  {
    forall i, j :: 0 <= i < j < |ir| && ir[i].op.LABEL? && ir[j].op.LABEL? ==> ir[i].dest != ir[j].dest
  }

  /** The saved registers a line changes are on the save list. */
  predicate WritesSaved(f: StackFrame, l: Instr)
  {
    IsNoOp(l) || forall r :: r in Defs(l) && r.S? && r.n >= 1 ==> r in f.usedCalleeSavedRegisters
  }

  /** The lines from instruction i on are lines of the text: i is not inside a fused pair or chain. */
  predicate InText(c: Unit, i: nat) { forall l :: l in CodeFrom(c, i) ==> l in CodeFrom(c, 0) }

  /** Every saved register the body's text writes, and every one that caches a constant or a global, is on
      the save list. */
  ghost predicate SavedCovers(c: Unit)
  {
    && (forall l :: l in CodeFrom(c, 0) ==> WritesSaved(c.f, l))
    && (forall k :: k in c.f.constantRegAlloc && c.f.constantRegAlloc[k].S? ==>
          c.f.constantRegAlloc[k] in c.f.usedCalleeSavedRegisters)
    && (forall g :: g in c.f.globalRegAlloc && c.f.globalRegAlloc[g].S? ==>
          c.f.globalRegAlloc[g] in c.f.usedCalleeSavedRegisters)
  }

  /** What the body of a function is expected to be: labels are unique and read nothing, parameters are
      declared first and once, arguments are staged only for calls. */
  ghost predicate WellFormed(c: Unit)
  {
    && TablesFor(c.ir, c.f)
    && LabelsReadNothing(c.ir) && UniqueIrLabels(c.ir)
    && (forall i :: 0 <= i < |c.ir| && c.ir[i].op.LABEL? ==>
          c.ir[i].dest.Label? && c.ir[i].dest.name !in {BodyLabel(c.name), ExitLabel(c.name)})
    && ParamsFirst(c.ir) && DistinctParams(c.ir) && NoGlobalClash(c.ir, c.f) && SavedCovers(c)
    && (forall i :: 0 <= i < |c.ir| && c.ir[i].op.PARAM? ==> HasCall(c.ir))
  }

  /** The operands of an instruction belong to the function or name known globals. */
  predicate Known(c: Unit, h: Home, o: Operand)
  {
    (o.Local? ==> o.name in Locals(c.ir)) && (o.Global? ==> o.name in h.syms)
  }

  ghost predicate GlobalsKnown(c: Unit, h: Home)
  {
    forall i :: 0 <= i < |c.ir| ==> Known(c, h, c.ir[i].dest) && Known(c, h, c.ir[i].src1) && Known(c, h, c.ir[i].src2)
  }

  // --------------------------------------------------------------------------
  // Places
  // --------------------------------------------------------------------------

  /** Registers the function does not save are not touched. */
  ghost predicate RegistersHeld(c: Unit, h: Home, s: State)
  {
    && (forall n :: 1 <= n < 12 && S(n) !in c.f.usedCalleeSavedRegisters ==> R(s, S(n)) == R(h.start, S(n)))
    && (!c.f.hasCall ==> R(s, Ra) == R(h.start, Ra))
  }

  /** The saved registers that are not on the save list are the same in both states. */
  ghost predicate SavedSame(f: StackFrame, s: State, t: State)
  {
    forall n :: 1 <= n < 12 && S(n) !in f.usedCalleeSavedRegisters ==> R(t, S(n)) == R(s, S(n))
  }

  /** The text writes no saved register that is not on the save list. */
  lemma TextKeepsSaved(c: Unit, code: seq<Instr>, s: State)
    requires SavedCovers(c) && forall l :: l in code ==> l in CodeFrom(c, 0)
    ensures SavedSame(c.f, s, Run(code, s))
  {
    hide CodeFrom, Defs, R;
    forall n | 1 <= n < 12 && S(n) !in c.f.usedCalleeSavedRegisters ensures R(Run(code, s), S(n)) == R(s, S(n)) {
      forall l | l in code ensures IsNoOp(l) || S(n) !in Defs(l) { assert WritesSaved(c.f, l); }
      UnwrittenKept(code, |code|, s, S(n));
    }
  }

  ghost predicate FrameHeld(c: Unit, h: Home, s: State)
  {
    && R(s, S(0)) == h.fp && R(s, Sp) == h.sp && s.syms == h.syms && RegistersHeld(c, h, s)
    && forall a :: Protected(c, h, a) ==> Load(s, a) == Load(h.start, a)
  }

  lemma PlaceIsHome(c: Unit, h: Home, s: State, o: Operand)
    requires IsVariable(o) && FrameHeld(c, h, s)
    ensures PlaceOf(c.f, s, o) == HomePlace(c.f, h, o)
  {
    hide RegForOperand, LocalOffset, Wrap, RegistersHeld, Protected;
  }

  /** A place written holds the value; every other place off the scratch registers is untouched. */
  lemma Hit(s: State, t: State, p: Place, v: i32, spill: bool)
    requires Written(s, t, p, v, spill)
    ensures Get(t, p) == v
  {
  }

  predicate PlaceKept(q: Place, spill: bool) { q.InReg? ==> Kept(q.r, spill) }

  lemma Untouched(s: State, t: State, p: Place, v: i32, spill: bool, q: Place)
    requires Written(s, t, p, v, spill) && p != q && PlaceKept(q, spill)
    ensures Get(t, q) == Get(s, q)
  {
  }

  /** Nothing lives in t3. */
  ghost predicate T3Free(f: StackFrame)
  {
    && (forall v :: v in f.tempRegs ==> f.tempRegs[v] != T(3))
    && (forall k :: k in f.constantRegAlloc ==> f.constantRegAlloc[k] != T(3))
  }

  /** t3 may be lost only when nothing lives there. */
  ghost predicate SpillAllowed(c: Unit, spill: bool) { spill ==> T3Free(c.f) }

  /** The registers variables live in are never scratch. */
  lemma VariableKept(c: Unit, h: Home, o: Operand, spill: bool)
    requires TablesFor(c.ir, c.f) && IsVariable(o) && SpillAllowed(c, spill)
    ensures PlaceKept(HomePlace(c.f, h, o), spill)
    ensures HomePlace(c.f, h, o).InReg? ==> Allocatable(HomePlace(c.f, h, o).r)
  {
    hide DefinitionsSafe, FrameFits, TempsOk, IncomingKept;
    match RegForOperand(c.f, o)
    case None =>
    case Some(r) =>
      RegisterOk(c.f, o);
      if spill { VariableNotT3(c, o); }
  }

  lemma VariableNotT3(c: Unit, o: Operand)
    requires TablesFor(c.ir, c.f) && IsVariable(o) && T3Free(c.f)
    ensures RegForOperand(c.f, o) != Some(T(3))
  {
    hide TablesOk, DefinitionsSafe, FrameFits, TempsOk, IncomingKept;
  }

  // --------------------------------------------------------------------------
  // Apartness
  // --------------------------------------------------------------------------

  /** Different frame-relative offsets are different words. */
  lemma SlotApart(base: i32, x: int, y: int)
    requires 0 <= Unsigned(base) + x < TWO32 && 0 <= Unsigned(base) + y < TWO32 && x != y
    ensures Wrap(base + x) != Wrap(base + y)
    ensures Unsigned(Wrap(base + x)) == Unsigned(base) + x
  {
  }

  lemma SlotAddress(c: Unit, h: Home, v: string)
    requires LayoutOk(c, h) && TablesFor(c.ir, c.f) && v in Locals(c.ir) && RegForVar(c.f, v).None?
    ensures HomePlace(c.f, h, Local(v)).InMem?
    ensures Unsigned(HomePlace(c.f, h, Local(v)).a) == Unsigned(h.fp) + LocalOffset(c.f, v)
    ensures Unsigned(h.sp) + c.f.outgoingArgumentBytes <= Unsigned(HomePlace(c.f, h, Local(v)).a) <
            Unsigned(h.top) - WORD_BYTES * (2 + |c.f.usedCalleeSavedRegisters|)
  {
    hide TablesOk, DefinitionsSafe, TempsOk, IncomingKept, RegistersSafe, ScratchFree, LocalOffset;
    assert v in c.f.localOffsets by { hide LocalOffset, RegForVar, OverflowArgs; }
    SlotApart(h.fp, LocalOffset(c.f, v), LocalOffset(c.f, v) + 1);
  }

  /** A definition's place is not that of anything live after it, except what it copies. */
  lemma LocalsApart(c: Unit, h: Home, i: nat, d: string, w: string)
    requires WellFormed(c) && LayoutOk(c, h) && i < |c.ir| && Disturbs(c.ir, i, d, w)
    ensures HomePlace(c.f, h, Local(d)) != HomePlace(c.f, h, Local(w))
  {
    assert PlacesDiffer(c.f, d, w);
    DisturbsLocals(c.ir, i, d, w);
    hide Disturbs, TablesOk, TempsOk, DefinitionsSafe, Wrap, Locals, LayoutOk, LabelsReadNothing, ParamsFirst,
         DistinctParams, NoGlobalClash, SavedCovers;
    if RegForVar(c.f, d).None? && RegForVar(c.f, w).None? {
      SlotAddress(c, h, d);
      SlotAddress(c, h, w);
    }
  }

  lemma LocalGlobalApart(c: Unit, h: Home, v: string, g: string)
    requires WellFormed(c) && LayoutOk(c, h) && v in Locals(c.ir) && g in h.syms
    ensures HomePlace(c.f, h, Local(v)) != HomePlace(c.f, h, Global(g))
  {
    hide TablesOk, TempsOk, DefinitionsSafe, Wrap, Locals, LabelsReadNothing, ParamsFirst, DistinctParams,
         NoGlobalClash, SavedCovers, LocalOffset;
    if RegForVar(c.f, v).None? { SlotAddress(c, h, v); }
  }

  lemma GlobalsApart(c: Unit, h: Home, g: string, g': string)
    requires WellFormed(c) && LayoutOk(c, h) && g in h.syms && g' in h.syms && g != g'
    ensures HomePlace(c.f, h, Global(g)) != HomePlace(c.f, h, Global(g'))
  {
    hide TablesOk, TempsOk, DefinitionsSafe, Wrap, Locals, LabelsReadNothing, ParamsFirst, DistinctParams,
         NoGlobalClash, SavedCovers, LocalOffset;
  }

  /** In a function that calls, no variable takes a register or stack word of a staged argument. */
  lemma ArgApart(c: Unit, h: Home, o: Operand, k: nat)
    requires WellFormed(c) && LayoutOk(c, h) && IsVariable(o) && Known(c, h, o)
    requires HasCall(c.ir) && WORD_BYTES * (k - 7) <= c.f.outgoingArgumentBytes
    ensures HomePlace(c.f, h, o) != ArgPlace(h, k)
  {
    hide TablesOk, DefinitionsSafe, Wrap, Locals, LabelsReadNothing, ParamsFirst, DistinctParams, NoGlobalClash,
         SavedCovers, LocalOffset;
    if k >= 8 { SlotApart(h.sp, WORD_BYTES * (k - 8), WORD_BYTES * (k - 8) + 1); }
    if o.Local? && RegForVar(c.f, o.name).None? { SlotAddress(c, h, o.name); }
  }

  /** A variable's stack word or symbol is never protected memory. */
  lemma HomeNotProtected(c: Unit, h: Home, o: Operand)
    requires WellFormed(c) && LayoutOk(c, h) && IsVariable(o) && Known(c, h, o)
    ensures HomePlace(c.f, h, o).InMem? ==> !Protected(c, h, HomePlace(c.f, h, o).a)
  {
    hide TablesOk, DefinitionsSafe, Wrap, Locals, LabelsReadNothing, ParamsFirst, DistinctParams, NoGlobalClash,
         SavedCovers, LocalOffset;
    if o.Local? && RegForVar(c.f, o.name).None? { SlotAddress(c, h, o.name); }
  }
}
