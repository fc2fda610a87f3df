/** A whole compiled function, from its entry label to its return: it does what its callers rely on. */
module FunctionSim {
  import opened Word
  import opened Ir
  import opened IrFlow
  import opened IrMachine
  import opened Rv32
  import opened Frame
  import opened Control
  import opened TempRanges
  import opened Allocation
  import opened Selection
  import opened FrameCode
  import opened FrameEntry
  import opened FrameLayout
  import opened Body
  import opened Homes
  import opened BodyFlow
  import opened AllocSim
  import opened ArgSim
  import opened StepSim
  import opened ChainSim

  // --------------------------------------------------------------------------
  // Caching at entry and exit
  // --------------------------------------------------------------------------

  /** Every hoisted constant into its register, in any order. */
  function LoadConstantsCode(f: StackFrame, order: seq<i32>): seq<Instr>
  {
    seq(|order|, i requires 0 <= i < |order| =>
      Li(if order[i] in f.constantRegAlloc then f.constantRegAlloc[order[i]] else X0, order[i]))
  }

  /** Every cached global into its register, in any order. */
  function LoadGlobalsCode(f: StackFrame, order: seq<string>): seq<Instr>
  {
    if order == [] then []
    else
      var n := |order| - 1;
      LoadGlobalsCode(f, order[..n]) +
      [La(T(2), order[n]), Lw(if order[n] in f.globalRegAlloc then f.globalRegAlloc[order[n]] else X0, 0, T(2))]
  }

  /** Every cached global back into memory, in any order. */
  function StoreGlobalsCode(f: StackFrame, order: seq<string>): seq<Instr>
  {
    if order == [] then []
    else
      var n := |order| - 1;
      StoreGlobalsCode(f, order[..n]) +
      [La(T(2), order[n]), Sw(if order[n] in f.globalRegAlloc then f.globalRegAlloc[order[n]] else X0, 0, T(2))]
  }

  predicate Lists<K(==)>(order: seq<K>, keys: set<K>)
  {
    (set k | k in order) == keys
  }

  /** The text before the body label. */
  function BeforeCode(name: string, f: StackFrame, size: int, constants: seq<i32>, globals: seq<string>): seq<Instr>
  {
    [Lab(name)] + PrologueCode(f, size) + LoadConstantsCode(f, constants) + LoadGlobalsCode(f, globals)
  }

  /** The text after the body. */
  function AfterCode(name: string, f: StackFrame, size: int, globals: seq<string>): seq<Instr>
  {
    [Lab(ExitLabel(name))] + StoreGlobalsCode(f, globals) + EpilogueCode(f, size)
  }

  function FunctionCode(c: Unit, constants: seq<i32>, globals: seq<string>): seq<Instr>
  {
    BeforeCode(c.name, c.f, c.size, constants, globals) + ([Lab(BodyLabel(c.name))] + CodeFrom(c, 0))
  }

  // --------------------------------------------------------------------------
  // Loading
  // --------------------------------------------------------------------------

  /** t is s with different values in some registers of `regs` and in scratch registers. */
  ghost predicate OnlyIn(s: State, t: State, regs: set<Reg>)
  {
    t.mem == s.mem && t.syms == s.syms && forall r :: Kept(r, false) && r !in regs ==> R(t, r) == R(s, r)
  }

  ghost predicate DistinctConstants(f: StackFrame)
  {
    && (forall k :: k in f.constantRegAlloc ==> Allocatable(f.constantRegAlloc[k]))
    && (forall k, l :: k in f.constantRegAlloc && l in f.constantRegAlloc && k != l ==>
          f.constantRegAlloc[k] != f.constantRegAlloc[l])
  }

  lemma {:induction false} ConstantsLoaded(f: StackFrame, order: seq<i32>, n: nat, s: State)
    requires n <= |order| && DistinctConstants(f) && (forall k :: k in order ==> k in f.constantRegAlloc)
    ensures var t := RunTo(LoadConstantsCode(f, order), n, s);
            && OnlyIn(s, t, f.constantRegAlloc.Values)
            && forall k :: k in order[..n] ==> R(t, f.constantRegAlloc[k]) == k
  {
    hide Step, R, Allocatable;
    if n == 0 {
      assert order[..0] == [];
    } else {
      ConstantsLoaded(f, order, n - 1, s);
      var t := RunTo(LoadConstantsCode(f, order), n - 1, s);
      var k := order[n - 1];
      assert order[..n] == order[..n - 1] + [k];
      assert RunTo(LoadConstantsCode(f, order), n, s) == Step(Li(f.constantRegAlloc[k], k), t);
      hide RunTo, LoadConstantsCode;
      assert f.constantRegAlloc[k] in f.constantRegAlloc.Values && f.constantRegAlloc[k] != X0 by { NotZero(f, k); }
      LoadOne(f.constantRegAlloc[k], k, t);
    }
  }

  lemma NotZero(f: StackFrame, k: i32)
    requires DistinctConstants(f) && k in f.constantRegAlloc
    ensures f.constantRegAlloc[k] in f.constantRegAlloc.Values && f.constantRegAlloc[k] != X0
  {
  }

  lemma LoadOne(r: Reg, k: i32, t: State)
    requires r != X0
    ensures var u := Step(Li(r, k), t);
            u.mem == t.mem && u.syms == t.syms && R(u, r) == k && forall q :: q != r ==> R(u, q) == R(t, q)
  {
    hide Wrap;
    assert Wrap(k) == k;
  }

  ghost predicate DistinctGlobals(f: StackFrame)
  {
    && (forall g :: g in f.globalRegAlloc ==> Allocatable(f.globalRegAlloc[g]))
    && (forall g, h :: g in f.globalRegAlloc && h in f.globalRegAlloc && g != h ==>
          f.globalRegAlloc[g] != f.globalRegAlloc[h])
  }

  lemma {:induction false} GlobalsLoaded(f: StackFrame, order: seq<string>, s: State)
    requires DistinctGlobals(f) && (forall g :: g in order ==> g in f.globalRegAlloc)
    ensures var t := Run(LoadGlobalsCode(f, order), s);
            && OnlyIn(s, t, f.globalRegAlloc.Values)
            && forall g :: g in order ==> R(t, f.globalRegAlloc[g]) == Load(s, SymAddr(s, g))
  {
    hide Run;
    if order == [] {
      RunEmpty(s);
    } else {
      var n := |order| - 1;
      var g := order[n];
      GlobalsLoaded(f, order[..n], s);
      var t := Run(LoadGlobalsCode(f, order[..n]), s);
      RunAppend(LoadGlobalsCode(f, order[..n]), [La(T(2), g), Lw(f.globalRegAlloc[g], 0, T(2))], s);
      LoadGlobalCorrect(g, f.globalRegAlloc[g], t);
      assert order == order[..n] + [g];
      assert f.globalRegAlloc[g] in f.globalRegAlloc.Values;
    }
  }

  /** Storing back writes each cached global's register to its symbol and nothing else. */
  lemma {:induction false} GlobalsStored(f: StackFrame, order: seq<string>, s: State)
    requires DistinctGlobals(f) && (forall g :: g in order ==> g in f.globalRegAlloc && g in s.syms)
    requires forall g, h :: g in s.syms && h in s.syms && g != h ==> s.syms[g] != s.syms[h]
    ensures var t := Run(StoreGlobalsCode(f, order), s);
            && t.syms == s.syms && (forall r :: Kept(r, false) ==> R(t, r) == R(s, r))
            && (forall g :: g in order ==> Load(t, s.syms[g]) == R(s, f.globalRegAlloc[g]))
            && forall a :: (forall g :: g in order ==> s.syms[g] != a) ==> Load(t, a) == Load(s, a)
  {
    hide Run, R;
    if order == [] {
      RunEmpty(s);
    } else {
      var n := |order| - 1;
      var g := order[n];
      assert order == order[..n] + [g];
      assert Kept(f.globalRegAlloc[g], false);
      hide DistinctGlobals, Load;
      GlobalsStored(f, order[..n], s);
      var t := Run(StoreGlobalsCode(f, order[..n]), s);
      RunAppend(StoreGlobalsCode(f, order[..n]), [La(T(2), g), Sw(f.globalRegAlloc[g], 0, T(2))], s);
      StoreOne(f.globalRegAlloc[g], g, t);
    }
  }

  lemma StoreOne(r: Reg, g: string, t: State)
    requires Kept(r, false) && g in t.syms
    ensures var u := Run([La(T(2), g), Sw(r, 0, T(2))], t);
            && u.syms == t.syms && (forall q :: Kept(q, false) ==> R(u, q) == R(t, q))
            && Load(u, t.syms[g]) == R(t, r) && forall a :: a != t.syms[g] ==> Load(u, a) == Load(t, a)
  {
    Run2(La(T(2), g), Sw(r, 0, T(2)), t);
  }

  // --------------------------------------------------------------------------
  // Entry
  // --------------------------------------------------------------------------

  /** A function as the generator lays it out, entered on a stack with room for its frame. */
  ghost predicate FunctionOk(c: Unit, constants: seq<i32>, globals: seq<string>, s0: State)
  {
    && WellFormed(c) && TailsOk(c) && ChainsSafe(c) && GlobalsKnown(c, HomeOf(c, s0, s0)) && StackRoom(c, s0)
    && c.after == AfterCode(c.name, c.f, c.size, globals)
    && Lists(constants, c.f.constantRegAlloc.Keys) && Lists(globals, c.f.globalRegAlloc.Keys)
    && (forall g :: g in c.f.globalRegAlloc ==> g in s0.syms)
    && (forall r :: r in c.f.usedCalleeSavedRegisters ==> r.S? && 2 <= r.n < 12)
    && (forall i :: 0 <= i < |c.ir| && c.ir[i].op.LABEL? && c.ir[i].dest.Label? ==> c.ir[i].dest.name != c.name)
  }

  predicate AllStraight(code: seq<Instr>) { forall i :: i in code ==> IsStraight(i) }

  lemma BeforeShape(c: Unit, constants: seq<i32>, globals: seq<string>)
    ensures AllStraight(BeforeCode(c.name, c.f, c.size, constants, globals))
    ensures forall l :: l != c.name ==> Lab(l) !in BeforeCode(c.name, c.f, c.size, constants, globals)
  {
    hide StoreAddressCode, AdjustSpCode, SetFramePointerCode, SaveCode, LoadGlobalsCode, LoadConstantsCode;
    PrologueShape(c.f, c.size);
    LoadsShape(c.f, constants, globals);
  }

  ghost predicate Bare(code: seq<Instr>) { AllStraight(code) && forall l :: Lab(l) !in code }

  lemma PrologueShape(f: StackFrame, size: int)
    ensures Bare(PrologueCode(f, size))
  {
    assert Bare(StoreAddressCode(Ra, Sp, size - 4)) && Bare(StoreAddressCode(S(0), Sp, size - 8));
    assert Bare(AdjustSpCode(-size)) && Bare(SetFramePointerCode(size)) && Bare(SaveCode(f.usedCalleeSavedRegisters));
    hide StoreAddressCode, AdjustSpCode, SetFramePointerCode, SaveCode;
  }

  lemma {:induction false} LoadsShape(f: StackFrame, constants: seq<i32>, globals: seq<string>)
    ensures Bare(LoadConstantsCode(f, constants)) && Bare(LoadGlobalsCode(f, globals)) &&
            Bare(StoreGlobalsCode(f, globals))
    decreases |globals|
  {
    if globals != [] { LoadsShape(f, constants, globals[..|globals| - 1]); }
  }

  lemma NameIsNoLabel(name: string)
    ensures name != BodyLabel(name) && name != ExitLabel(name)
  {
    assert |BodyLabel(name)| > |name| && |ExitLabel(name)| > |name|;
  }

  lemma HasItsBody(c: Unit, constants: seq<i32>, globals: seq<string>, s0: State)
    requires FunctionOk(c, constants, globals, s0)
    ensures HasBody(c, FunctionCode(c, constants, globals), BeforeCode(c.name, c.f, c.size, constants, globals))
  {
    hide WellFormed, ChainsSafe, TailsOk, GlobalsKnown, StackRoom, BeforeCode, CodeFrom, BodyLabel, ExitLabel;
    BeforeShape(c, constants, globals);
    NameIsNoLabel(c.name);
  }

  /** The lines before the body, run. */
  lemma EntryRun(c: Unit, constants: seq<i32>, globals: seq<string>, s0: State)
    returns (u: State, v: State, w: State)
    requires FunctionOk(c, constants, globals, s0)
    ensures w == Run(BeforeCode(c.name, c.f, c.size, constants, globals) + [Lab(BodyLabel(c.name))], s0)
    ensures Entered(c.f, c.size, s0, u)
    ensures OnlyIn(u, v, c.f.constantRegAlloc.Values) && forall k :: k in c.f.constantRegAlloc ==>
            R(v, c.f.constantRegAlloc[k]) == k
    ensures OnlyIn(v, w, c.f.globalRegAlloc.Values)
    ensures forall g :: g in c.f.globalRegAlloc ==> R(w, c.f.globalRegAlloc[g]) == Load(v, SymAddr(v, g))
  {
    hide Run, PrologueCode, LoadConstantsCode, LoadGlobalsCode, WellFormed, ChainsSafe, TailsOk, GlobalsKnown,
         StackRoom, Entered, OnlyIn, RoomFor, BodyLabel, AfterCode, Load, SymAddr, R;
    var a, b, k, g := [Lab(c.name)], PrologueCode(c.f, c.size), LoadConstantsCode(c.f, constants),
                      LoadGlobalsCode(c.f, globals);
    Run1(Lab(c.name), s0);
    RunAppend(a, b, s0);
    RunAppend(a + b, k, s0);
    RunAppend(a + b + k, g, s0);
    RunAppend(a + b + k + g, [Lab(BodyLabel(c.name))], s0);
    u := Run(b, s0);
    v := Run(k, u);
    w := Run(g, v);
    Run1(Lab(BodyLabel(c.name)), w);
    EnteredHere(c, constants, globals, s0);
    CachesLoaded(c, constants, globals, s0, u);
  }

  lemma EnteredHere(c: Unit, constants: seq<i32>, globals: seq<string>, s0: State)
    requires FunctionOk(c, constants, globals, s0)
    ensures RoomFor(c.f, c.size, s0) && Entered(c.f, c.size, s0, Run(PrologueCode(c.f, c.size), s0))
  {
    hide Run, PrologueCode, TailsOk, GlobalsKnown, Entered, DefinitionsSafe, TablesOk, TempsOk, RegistersSafe,
         ScratchFree, IncomingKept, NoGlobalClash, SavedCovers, LabelsReadNothing, ParamsFirst, DistinctParams,
         FrameSize, AfterCode;
    SizeFacts(c.ir, c.f);
    PrologueRun(c.f, c.size, s0);
  }

  lemma CachesLoaded(c: Unit, constants: seq<i32>, globals: seq<string>, s0: State, u: State)
    requires FunctionOk(c, constants, globals, s0)
    ensures var v := Run(LoadConstantsCode(c.f, constants), u);
            && OnlyIn(u, v, c.f.constantRegAlloc.Values)
            && (forall k :: k in c.f.constantRegAlloc ==> R(v, c.f.constantRegAlloc[k]) == k)
            && var w := Run(LoadGlobalsCode(c.f, globals), v);
            && OnlyIn(v, w, c.f.globalRegAlloc.Values)
            && forall g :: g in c.f.globalRegAlloc ==> R(w, c.f.globalRegAlloc[g]) == Load(v, SymAddr(v, g))
  {
    hide LoadConstantsCode, LoadGlobalsCode, TailsOk, GlobalsKnown, OnlyIn, WellFormed, StackRoom, AfterCode, R, Load,
         SymAddr;
    CachesDistinct(c);
    Listed(constants, c.f.constantRegAlloc.Keys);
    Listed(globals, c.f.globalRegAlloc.Keys);
    ConstantsLoaded(c.f, constants, |constants|, u);
    assert constants[..|constants|] == constants && Run(LoadConstantsCode(c.f, constants), u) ==
           RunTo(LoadConstantsCode(c.f, constants), |constants|, u) by { OneLineEach(c.f, constants); }
    GlobalsLoaded(c.f, globals, Run(LoadConstantsCode(c.f, constants), u));
  }

  lemma OneLineEach(f: StackFrame, constants: seq<i32>)
    ensures |LoadConstantsCode(f, constants)| == |constants|
  {
  }

  lemma Listed<K>(order: seq<K>, keys: set<K>)
    requires Lists(order, keys)
    ensures forall k :: k in order <==> k in keys
  {
  }

  lemma CachesDistinct(c: Unit)
    requires WellFormed(c)
    ensures DistinctConstants(c.f) && DistinctGlobals(c.f)
    ensures forall k, g :: k in c.f.constantRegAlloc && g in c.f.globalRegAlloc ==>
              c.f.constantRegAlloc[k] != c.f.globalRegAlloc[g]
  {
    hide DefinitionsSafe, TempsOk, ScratchFree, IncomingKept, NoGlobalClash, SavedCovers, LabelsReadNothing,
         ParamsFirst, DistinctParams, FrameFits;
    forall k, g | k in c.f.constantRegAlloc && g in c.f.globalRegAlloc
      ensures c.f.constantRegAlloc[k] != c.f.globalRegAlloc[g]
    {
      assert RegForOperand(c.f, Global(g)) == Some(c.f.globalRegAlloc[g]);
    }
  }

  /** What the loads before the body amount to. */
  ghost predicate Loaded(c: Unit, s0: State, u: State, v: State, w: State)
  {
    && Entered(c.f, c.size, s0, u)
    && OnlyIn(u, v, c.f.constantRegAlloc.Values) &&
       (forall k :: k in c.f.constantRegAlloc ==> R(v, c.f.constantRegAlloc[k]) == k)
    && OnlyIn(v, w, c.f.globalRegAlloc.Values)
    && forall g :: g in c.f.globalRegAlloc ==> R(w, c.f.globalRegAlloc[g]) == Load(v, SymAddr(v, g))
  }

  /** Registers that hold neither a constant nor a cached global are as the prologue left them. */
  lemma NotCached(c: Unit, s0: State, u: State, v: State, w: State, r: Reg)
    requires Loaded(c, s0, u, v, w) && Kept(r, false)
    requires r !in c.f.constantRegAlloc.Values && r !in c.f.globalRegAlloc.Values
    ensures R(w, r) == R(u, r)
  {
    hide Entered, Load, SymAddr;
  }

  lemma EntryMemory(c: Unit, s0: State, u: State, v: State, w: State)
    requires Loaded(c, s0, u, v, w)
    ensures w.mem == u.mem && w.syms == s0.syms && v.mem == u.mem && v.syms == s0.syms
  {
    hide Load, SymAddr, R;
  }

  lemma EntryConstants(c: Unit, s0: State, u: State, v: State, w: State)
    requires WellFormed(c) && Loaded(c, s0, u, v, w)
    ensures ConstantsHold(c.f, w)
  {
    hide WellFormed, Entered, Load, SymAddr;
    CachesDistinct(c);
    forall k | k in c.f.constantRegAlloc ensures R(w, c.f.constantRegAlloc[k]) == k {
      assert c.f.constantRegAlloc[k] !in c.f.globalRegAlloc.Values;
      assert Kept(c.f.constantRegAlloc[k], false);
    }
  }

  lemma EntryGlobals(c: Unit, s0: State, u: State, v: State, w: State, st: IrState)
    requires StackRoom(c, s0) && Loaded(c, s0, u, v, w) && GlobalsInMemory(s0.syms, st.globals, s0)
    requires forall g :: g in c.f.globalRegAlloc ==> g in s0.syms
    ensures GlobalsHold(c, HomeOf(c, s0, u), st, w)
  {
    hide OnlyIn, FrameAddress, FrameSize;
    EntryMemory(c, s0, u, v, w);
    SameMemory(u, v);
    SameMemory(u, w);
    forall g | g in s0.syms ensures Get(w, HomePlace(c.f, HomeOf(c, s0, u), Global(g))) == GlobalValue(st.globals, g) {
      assert !InsideFrame(c.size, s0, s0.syms[g]);
    }
  }

  lemma EntryFrame(c: Unit, s0: State, u: State, v: State, w: State)
    requires WellFormed(c) && Loaded(c, s0, u, v, w)
    ensures FrameHeld(c, HomeOf(c, s0, u), w)
  {
    hide WellFormed, Load, SymAddr, OnlyIn, FrameSize, Wrap;
    EntryMemory(c, s0, u, v, w);
    hide Loaded;
    forall r | r == S(0) || r == Sp || r == Ra || (r.S? && r !in c.f.usedCalleeSavedRegisters)
      ensures R(w, r) == R(u, r)
    {
      UncachedRegister(c, r);
      NotCached(c, s0, u, v, w, r);
    }
    SameMemory(u, w);
    assert R(u, Sp) == FrameAddress(s0, -c.size) by { EnteredPointers(c, s0, u, v, w); }
    assert R(u, S(0)) == HomeOf(c, s0, u).fp by { EnteredPointers(c, s0, u, v, w); }
  }

  lemma EnteredPointers(c: Unit, s0: State, u: State, v: State, w: State)
    requires Loaded(c, s0, u, v, w)
    ensures R(u, Sp) == FrameAddress(s0, -c.size) == HomeOf(c, s0, u).sp && R(u, S(0)) == HomeOf(c, s0, u).fp
  {
    hide OnlyIn, Wrap;
    assert R(s0, Sp) + -c.size == R(s0, Sp) - c.size;
  }

  /** The pointers, ra and the registers not on the save list hold no constant and no global. */
  lemma UncachedRegister(c: Unit, r: Reg)
    requires WellFormed(c) && (r == S(0) || r == Sp || r == Ra || (r.S? && r !in c.f.usedCalleeSavedRegisters))
    ensures r !in c.f.constantRegAlloc.Values && r !in c.f.globalRegAlloc.Values && Kept(r, false)
  {
    hide DefinitionsSafe, TempsOk, ScratchFree, IncomingKept, NoGlobalClash, LabelsReadNothing, ParamsFirst,
         DistinctParams, FrameFits;
  }

  /** The parameters are still where the caller put them. */
  lemma EntryParams(c: Unit, s0: State, u: State, v: State, w: State, st: IrState)
    requires WellFormed(c) && StackRoom(c, s0) && Loaded(c, s0, u, v, w)
    requires forall k :: k in st.params ==> Get(s0, StagedAt(s0, k)) == st.params[k]
    ensures ParamsHold(c, HomeOf(c, s0, u), 0, st, w)
  {
    hide WellFormed, StackRoom, Load, SymAddr, OnlyIn, FrameSize, Wrap, StackWord, Entered;
    EntryMemory(c, s0, u, v, w);
    forall k | k in st.params && k < ParamCount(c)
      ensures Get(w, ParamPlace(HomeOf(c, s0, u), k)) == st.params[k]
    {
      if k < 8 {
        ArgumentRegister(c, k);
        NotCached(c, s0, u, v, w, A(k));
        ArgumentEntered(c, s0, u, k);
      } else {
        SameMemory(u, w);
        StackParam(c, s0, u, k);
      }
    }
  }

  lemma ArgumentEntered(c: Unit, s0: State, u: State, k: nat)
    requires Entered(c.f, c.size, s0, u)
    ensures R(u, A(k)) == R(s0, A(k))
  {
    hide FrameAddress;
  }

  lemma StackParam(c: Unit, s0: State, u: State, k: nat)
    requires WellFormed(c) && StackRoom(c, s0) && Entered(c.f, c.size, s0, u) && 8 <= k < ParamCount(c)
    ensures HomeOf(c, s0, u).fp == R(s0, Sp)
    ensures Load(u, StackWord(R(s0, Sp), k)) == Load(s0, StackWord(R(s0, Sp), k))
  {
    hide TablesOk, DefinitionsSafe, TempsOk, RegistersSafe, ScratchFree, IncomingKept, NoGlobalClash, SavedCovers,
         LabelsReadNothing, ParamsFirst, DistinctParams, FrameSize, FrameAddress, FrameFits;
    IncomingProtected(c, s0, u, k);
    AboveTop(R(s0, Sp), WORD_BYTES * (k - 8));
  }

  /** An argument register with a parameter in it is not used for a constant or a global. */
  lemma ArgumentRegister(c: Unit, k: nat)
    requires WellFormed(c) && k < ParamCount(c) && k < 8
    ensures A(k) !in c.f.constantRegAlloc.Values && A(k) !in c.f.globalRegAlloc.Values
  {
    hide TablesOk, DefinitionsSafe, TempsOk, ScratchFree, SavedCovers, LabelsReadNothing, FrameFits, Incoming,
         ParamIndex, HasCall;
    PrefixDeclares(c.ir, |c.ir|, k);
    IncomingAt(c.ir, k, |c.ir|);
  }

  lemma EntryRelated(c: Unit, s0: State, u: State, v: State, w: State, args: Args, globals: Globals)
    requires WellFormed(c) && StackRoom(c, s0) && Loaded(c, s0, u, v, w) && CallReady(s0.syms, args, globals, s0)
    requires forall g :: g in c.f.globalRegAlloc ==> g in s0.syms
    ensures Related(c, HomeOf(c, s0, u), 0, Entry(args, globals), w)
  {
    hide WellFormed, StackRoom, Loaded, FrameHeld, ConstantsHold, GlobalsHold, ParamsHold, HomePlace, HomeOf;
    EntryFrame(c, s0, u, v, w);
    EntryConstants(c, s0, u, v, w);
    EntryGlobals(c, s0, u, v, w, Entry(args, globals));
    EntryParams(c, s0, u, v, w, Entry(args, globals));
  }
}
