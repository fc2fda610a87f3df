/** The running code against the intermediate representation: the relation every step keeps. */
module AllocSim {
  import opened Word
  import opened Ir
  import opened IrFlow
  import opened IrMachine
  import opened Rv32
  import opened Frame
  import opened Liveness
  import opened TempRanges
  import opened Allocation
  import opened Body
  import opened Homes

  // --------------------------------------------------------------------------
  // The relation
  // --------------------------------------------------------------------------

  /** Every local that holds a value and is live at i has that value in its home. */
  ghost predicate LocalsHold(c: Unit, h: Home, i: nat, st: IrState, s: State)
  {
    forall v :: v in st.locals && PathLive(c.ir, i, v) ==> Get(s, HomePlace(c.f, h, Local(v))) == st.locals[v]
  }

  /** The same for the locals live after instruction i, its destination aside. */
  ghost predicate OthersHold(c: Unit, h: Home, i: nat, st: IrState, s: State)
    requires i < |c.ir|
  {
    forall v :: v in st.locals && LiveAfterInst(c.ir, i, v) && !Defines(c.ir[i], v) ==>
      Get(s, HomePlace(c.f, h, Local(v))) == st.locals[v]
  }

  ghost predicate GlobalsHold(c: Unit, h: Home, st: IrState, s: State)
  {
    forall g :: g in h.syms ==> Get(s, HomePlace(c.f, h, Global(g))) == GlobalValue(st.globals, g)
  }

  ghost predicate ArgsHold(c: Unit, h: Home, st: IrState, s: State)
  {
    forall k :: k in st.args ==>
      HasCall(c.ir) && WORD_BYTES * (k - 7) <= c.f.outgoingArgumentBytes && Get(s, ArgPlace(h, k)) == st.args[k]
  }

  /** Parameters not yet declared at i are still where they arrived. */
  ghost predicate ParamsHold(c: Unit, h: Home, i: nat, st: IrState, s: State)
  {
    forall k :: k in st.params && i <= k < ParamCount(c) ==> Get(s, ParamPlace(h, k)) == st.params[k]
  }

  /** Everything but the locals and the undeclared parameters. */
  ghost predicate CoreHolds(c: Unit, h: Home, st: IrState, s: State)
  {
    FrameHeld(c, h, s) && ConstantsHold(c.f, s) && GlobalsHold(c, h, st, s) && ArgsHold(c, h, st, s)
  }

  ghost predicate Related(c: Unit, h: Home, i: nat, st: IrState, s: State)
  {
    CoreHolds(c, h, st, s) && LocalsHold(c, h, i, st, s) && ParamsHold(c, h, i, st, s)
  }

  // --------------------------------------------------------------------------
  // Writing one home
  // --------------------------------------------------------------------------

  lemma FrameWritten(c: Unit, h: Home, o: Operand, s: State, t: State, v: i32, spill: bool)
    requires WellFormed(c) && LayoutOk(c, h) && IsVariable(o) && Known(c, h, o) && SpillAllowed(c, spill)
    requires FrameHeld(c, h, s) && Written(s, t, HomePlace(c.f, h, o), v, spill) && SavedSame(c.f, s, t)
    ensures FrameHeld(c, h, t)
  {
    hide WellFormed, LayoutOk, Protected, HomePlace, RegistersHeld;
    VariableHome(c, h, o, spill);
    HomeNotProtected(c, h, o);
    RegistersWritten(c, h, o, s, t, v, spill);
  }

  lemma RegistersWritten(c: Unit, h: Home, o: Operand, s: State, t: State, v: i32, spill: bool)
    requires IsVariable(o) && RegistersHeld(c, h, s) && SavedSame(c.f, s, t)
    requires Written(s, t, HomePlace(c.f, h, o), v, spill)
    requires HomePlace(c.f, h, o).InReg? ==> Allocatable(HomePlace(c.f, h, o).r)
    ensures RegistersHeld(c, h, t)
  {
    hide LocalOffset, Wrap, SymbolHome, RegForOperand;
  }

  lemma VariableHome(c: Unit, h: Home, o: Operand, spill: bool)
    requires WellFormed(c) && IsVariable(o) && SpillAllowed(c, spill)
    ensures PlaceKept(HomePlace(c.f, h, o), spill)
    ensures HomePlace(c.f, h, o).InReg? ==> Allocatable(HomePlace(c.f, h, o).r)
  {
    hide TablesFor;
    VariableKept(c, h, o, spill);
  }

  lemma ConstantsWritten(c: Unit, h: Home, o: Operand, s: State, t: State, v: i32, spill: bool)
    requires WellFormed(c) && IsVariable(o) && SpillAllowed(c, spill)
    requires ConstantsHold(c.f, s) && Written(s, t, HomePlace(c.f, h, o), v, spill)
    ensures ConstantsHold(c.f, t)
  {
    hide RegForOperand;
    forall k | k in c.f.constantRegAlloc ensures R(t, c.f.constantRegAlloc[k]) == k {
      ConstantElsewhere(c, h, o, k, spill);
      Untouched(s, t, HomePlace(c.f, h, o), v, spill, InReg(c.f.constantRegAlloc[k]));
    }
  }

  lemma ConstantElsewhere(c: Unit, h: Home, o: Operand, k: i32, spill: bool)
    requires WellFormed(c) && IsVariable(o) && SpillAllowed(c, spill) && k in c.f.constantRegAlloc
    requires Allocatable(c.f.constantRegAlloc[k])
    ensures HomePlace(c.f, h, o) != InReg(c.f.constantRegAlloc[k])
    ensures Kept(c.f.constantRegAlloc[k], spill)
  {
    hide RegForOperand, DefinitionsSafe, FrameFits, TempsOk, IncomingKept, LabelsReadNothing, ParamsFirst,
         DistinctParams, NoGlobalClash, SavedCovers, RegistersSafe;
  }

  lemma GlobalsWritten(c: Unit, h: Home, o: Operand, st: IrState, s: State, t: State, v: i32, spill: bool)
    requires WellFormed(c) && LayoutOk(c, h) && IsVariable(o) && Known(c, h, o) && SpillAllowed(c, spill)
    requires GlobalsHold(c, h, st, s) && Written(s, t, HomePlace(c.f, h, o), v, spill)
    ensures GlobalsHold(c, h, Assign(st, o, v), t)
  {
    hide WellFormed, LayoutOk, HomePlace, Written;
    forall g | g in h.syms
      ensures Get(t, HomePlace(c.f, h, Global(g))) == GlobalValue(Assign(st, o, v).globals, g)
    {
      if o == Global(g) {
        Hit(s, t, HomePlace(c.f, h, o), v, spill);
      } else {
        if o.Local? { LocalGlobalApart(c, h, o.name, g); } else { GlobalsApart(c, h, o.name, g); }
        VariableHome(c, h, Global(g), spill);
        Untouched(s, t, HomePlace(c.f, h, o), v, spill, HomePlace(c.f, h, Global(g)));
      }
    }
  }

  lemma ArgsWritten(c: Unit, h: Home, o: Operand, st: IrState, s: State, t: State, v: i32, spill: bool)
    requires WellFormed(c) && LayoutOk(c, h) && IsVariable(o) && Known(c, h, o)
    requires ArgsHold(c, h, st, s) && Written(s, t, HomePlace(c.f, h, o), v, spill)
    ensures ArgsHold(c, h, Assign(st, o, v), t)
  {
    hide WellFormed, LayoutOk, HomePlace, Written, HasCall;
    forall k | k in st.args ensures Get(t, ArgPlace(h, k)) == st.args[k] {
      ArgApart(c, h, o, k);
      Untouched(s, t, HomePlace(c.f, h, o), v, spill, ArgPlace(h, k));
    }
  }

  lemma CoreWritten(c: Unit, h: Home, o: Operand, st: IrState, s: State, t: State, v: i32, spill: bool)
    requires WellFormed(c) && LayoutOk(c, h) && IsVariable(o) && Known(c, h, o) && SpillAllowed(c, spill)
    requires CoreHolds(c, h, st, s) && Written(s, t, HomePlace(c.f, h, o), v, spill) && SavedSame(c.f, s, t)
    ensures CoreHolds(c, h, Assign(st, o, v), t)
  {
    hide WellFormed, LayoutOk, HomePlace, Written, FrameHeld, ConstantsHold, GlobalsHold, ArgsHold, SavedSame;
    FrameWritten(c, h, o, s, t, v, spill);
    ConstantsWritten(c, h, o, s, t, v, spill);
    GlobalsWritten(c, h, o, st, s, t, v, spill);
    ArgsWritten(c, h, o, st, s, t, v, spill);
  }

  // --------------------------------------------------------------------------
  // Liveness across a step
  // --------------------------------------------------------------------------

  /** What is live after i and not written there was live at i. */
  lemma OthersFromLocals(c: Unit, h: Home, i: nat, st: IrState, s: State)
    requires i < |c.ir| && LocalsHold(c, h, i, st, s)
    ensures OthersHold(c, h, i, st, s)
  {
    hide PathLive, Defines, HomePlace;
    forall v | v in st.locals && LiveAfterInst(c.ir, i, v) && !Defines(c.ir[i], v)
      ensures Get(s, HomePlace(c.f, h, Local(v))) == st.locals[v]
    {
      var j :| j in Successors(c.ir, i) && PathLive(c.ir, j, v);
      PathBefore(c.ir, i, j, v);
    }
  }

  /** Control may go from i to j, the end of the body included. */
  predicate Follows(ir: seq<IrInst>, i: nat, j: nat)
    requires i < |ir|
  {
    j in Successors(ir, i) || j == i + 1 == |ir|
  }

  lemma NothingLiveAtEnd(ir: seq<IrInst>, v: string)
    ensures !PathLive(ir, |ir|, v)
  {
  }

  /** After an instruction that writes no local, the others are all there is. */
  lemma LocalsFromOthers(c: Unit, h: Home, i: nat, j: nat, st: IrState, s: State)
    requires i < |c.ir| && Follows(c.ir, i, j) && OthersHold(c, h, i, st, s) && !DefinesLocal(c.ir[i])
    ensures LocalsHold(c, h, j, st, s)
  {
    hide PathLive, HomePlace, Successors;
    forall v ensures !PathLive(c.ir, |c.ir|, v) { NothingLiveAtEnd(c.ir, v); }
  }

  /** Writing the destination's home, with the value of its source when it is a copy, leaves every
      live local in its home. */
  lemma LocalsWritten(c: Unit, h: Home, i: nat, j: nat, st: IrState, s: State, t: State, v: i32, spill: bool)
    requires WellFormed(c) && LayoutOk(c, h) && SpillAllowed(c, spill)
    requires i < |c.ir| && Follows(c.ir, i, j) && IsVariable(c.ir[i].dest) && !ReadsDest(c.ir[i].op)
    requires OthersHold(c, h, i, st, s) && Written(s, t, HomePlace(c.f, h, c.ir[i].dest), v, spill)
    requires IsCopy(c.ir[i]) ==> c.ir[i].src1.name in st.locals && st.locals[c.ir[i].src1.name] == v
    requires Known(c, h, c.ir[i].dest)
    ensures LocalsHold(c, h, j, Assign(st, c.ir[i].dest, v), t)
  {
    hide WellFormed, LayoutOk, HomePlace, Written, PathLive, Successors, Known, LiveAfterInst;
    var d := c.ir[i].dest;
    var st' := Assign(st, d, v);
    forall w | w in st'.locals && PathLive(c.ir, j, w) ensures Get(t, HomePlace(c.f, h, Local(w))) == st'.locals[w] {
      if d == Local(w) {
        Hit(s, t, HomePlace(c.f, h, d), v, spill);
      } else {
        NothingLiveAtEnd(c.ir, w);
        assert LiveAfterInst(c.ir, i, w) by { LiveNext(c.ir, i, j, w); }
        OtherWritten(c, h, i, st, s, t, v, spill, w);
      }
    }
  }

  lemma LiveNext(ir: seq<IrInst>, i: nat, j: nat, w: string)
    requires i < |ir| && j in Successors(ir, i) && PathLive(ir, j, w)
    ensures LiveAfterInst(ir, i, w)
  {
  }

  lemma OtherWritten(c: Unit, h: Home, i: nat, st: IrState, s: State, t: State, v: i32, spill: bool, w: string)
    requires WellFormed(c) && LayoutOk(c, h) && SpillAllowed(c, spill)
    requires i < |c.ir| && IsVariable(c.ir[i].dest) && !ReadsDest(c.ir[i].op) && Known(c, h, c.ir[i].dest)
    requires OthersHold(c, h, i, st, s) && Written(s, t, HomePlace(c.f, h, c.ir[i].dest), v, spill)
    requires IsCopy(c.ir[i]) ==> c.ir[i].src1.name in st.locals && st.locals[c.ir[i].src1.name] == v
    requires w in st.locals && LiveAfterInst(c.ir, i, w) && c.ir[i].dest != Local(w)
    ensures Get(t, HomePlace(c.f, h, Local(w))) == st.locals[w]
  {
    hide WellFormed, LayoutOk, HomePlace, Written, LiveAfterInst;
    var d := c.ir[i].dest;
    VariableHome(c, h, Local(w), spill);
    if HomePlace(c.f, h, d) == HomePlace(c.f, h, Local(w)) {
      Hit(s, t, HomePlace(c.f, h, d), v, spill);
      if d.Global? {
        LiveIsLocal(c.ir, i, w);
        LocalGlobalApart(c, h, w, d.name);
      } else if !(IsCopy(c.ir[i]) && c.ir[i].src1.name == w) {
        LocalsApart(c, h, i, d.name, w);
      }
    } else {
      Untouched(s, t, HomePlace(c.f, h, d), v, spill, HomePlace(c.f, h, Local(w)));
    }
  }

  // --------------------------------------------------------------------------
  // Scratch registers
  // --------------------------------------------------------------------------

  /** Code that changes only t0, t1 and t2 keeps the whole relation. */
  lemma RelatedSame(c: Unit, h: Home, i: nat, st: IrState, s: State, t: State)
    requires WellFormed(c) && Related(c, h, i, st, s) && SameBut(s, t, false)
    ensures Related(c, h, i, st, t)
  {
    hide WellFormed, HomePlace, PathLive, HasCall;
    forall o | IsVariable(o) ensures Get(t, HomePlace(c.f, h, o)) == Get(s, HomePlace(c.f, h, o)) {
      VariableHome(c, h, o, false);
      SameElsewhere(s, t, HomePlace(c.f, h, o));
    }
  }

  lemma SameElsewhere(s: State, t: State, q: Place)
    requires SameBut(s, t, false) && PlaceKept(q, false)
    ensures Get(t, q) == Get(s, q)
  {
  }
}
