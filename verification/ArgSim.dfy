/** Parameters coming in and arguments going out. */
module ArgSim {
  import opened Word
  import opened Ir
  import opened IrFlow
  import opened IrMachine
  import opened Rv32
  import opened Frame
  import opened TempRanges
  import opened Allocation
  import opened Selection
  import opened Body
  import opened PlainCode
  import opened Homes
  import opened AllocSim
  import opened BodySim

  // --------------------------------------------------------------------------
  // Parameter declarations come first
  // --------------------------------------------------------------------------

  lemma {:induction false} IndexBound(ir: seq<IrInst>, n: nat)
    requires n <= |ir|
    ensures ParamIndex(ir, n) <= n
  {
    if n > 0 { IndexBound(ir, n - 1); }
  }

  lemma {:induction false} IndexFull(ir: seq<IrInst>, n: nat, i: nat)
    requires i < n <= |ir| && ParamIndex(ir, n) == n
    ensures DeclaresParam(ir[i])
  {
    IndexBound(ir, n - 1);
    if i < n - 1 { IndexFull(ir, n - 1, i); }
  }

  /** The declared parameters are exactly the first instructions. */
  lemma {:induction false} PrefixDeclares(ir: seq<IrInst>, n: nat, i: nat)
    requires ParamsFirst(ir) && n <= |ir| && i < ParamIndex(ir, n)
    ensures i < n && DeclaresParam(ir[i])
  {
    IndexBound(ir, n);
    if DeclaresParam(ir[n - 1]) {
      assert ParamIndex(ir, n) == n;
      IndexFull(ir, n, i);
    } else {
      PrefixDeclares(ir, n - 1, i);
    }
  }

  /** After an instruction that declares no parameter, and at every label, none is left. */
  lemma NoneLeft(c: Unit, i: nat, st: IrState, h: Home, j: nat, s: State)
    requires WellFormed(c) && i < |c.ir| && !DeclaresParam(c.ir[i]) && (j == i + 1 || (j < |c.ir| && c.ir[j].op.LABEL?))
    ensures ParamsHold(c, h, j, st, s)
  {
    hide TablesFor;
    if j < ParamCount(c) {
      PrefixDeclares(c.ir, |c.ir|, j);
      PrefixDeclares(c.ir, |c.ir|, j - 1);
    }
  }

  lemma {:induction false} IncomingAt(ir: seq<IrInst>, i: nat, n: nat)
    requires DistinctParams(ir) && i < n <= |ir| && DeclaresParam(ir[i]) && ParamIndex(ir, i) < 8
    ensures ir[i].dest.name in Incoming(ir, n) && Incoming(ir, n)[ir[i].dest.name] == ParamIndex(ir, i)
  {
    if i < n - 1 { IncomingAt(ir, i, n - 1); }
  }

  /** Declaring parameter i does not take the place of a later one. */
  lemma ParamApart(c: Unit, h: Home, i: nat, k: nat)
    requires WellFormed(c) && LayoutOk(c, h) && i < |c.ir| && DeclaresParam(c.ir[i]) && i < k < ParamCount(c)
    requires Known(c, h, c.ir[i].dest)
    ensures HomePlace(c.f, h, c.ir[i].dest) != ParamPlace(h, k)
  {
    var p := c.ir[i].dest;
    if k >= 8 {
      hide WellFormed, LayoutOk;
      HomeNotProtected(c, h, p);
      LayoutParams(c, h, k);
    } else {
      hide TablesOk, DefinitionsSafe, TempsOk, IncomingKept, ScratchFree, LabelsReadNothing, NoGlobalClash,
           SavedCovers, LocalOffset, Locals, LayoutOk, FrameFits, Incoming;
      IncomingAt(c.ir, i, |c.ir|);
    }
  }

  lemma LayoutParams(c: Unit, h: Home, k: nat)
    requires LayoutOk(c, h) && 8 <= k < ParamCount(c)
    ensures Protected(c, h, StackWord(h.fp, k))
  {
  }

  lemma ParamsWritten(c: Unit, h: Home, i: nat, st: IrState, s: State, t: State, v: i32, spill: bool)
    requires WellFormed(c) && LayoutOk(c, h) && i < |c.ir| && DeclaresParam(c.ir[i]) && Known(c, h, c.ir[i].dest)
    requires ParamsHold(c, h, i, st, s) && Written(s, t, HomePlace(c.f, h, c.ir[i].dest), v, spill)
    ensures ParamsHold(c, h, i + 1, Assign(st, c.ir[i].dest, v), t)
  {
    hide WellFormed, LayoutOk, HomePlace, Written, Known;
    forall k | k in st.params && i + 1 <= k < ParamCount(c) ensures Get(t, ParamPlace(h, k)) == st.params[k] {
      ParamApart(c, h, i, k);
      Untouched(s, t, HomePlace(c.f, h, c.ir[i].dest), v, spill, ParamPlace(h, k));
    }
  }

  /** A parameter declaration brings the parameter to its home. */
  lemma ParamDeclWritten(c: Unit, h: Home, i: nat, st: IrState, s: State)
    requires WellFormed(c) && LayoutOk(c, h) && i < |c.ir| && DeclaresParam(c.ir[i]) && Known(c, h, c.ir[i].dest)
    requires Related(c, h, i, st, s) && i in st.params
    ensures Written(s, Run(ParamDeclCode(c.f, c.ir[i].dest, i), s), HomePlace(c.f, h, c.ir[i].dest), st.params[i],
                    false)
    ensures AllPlain(ParamDeclCode(c.f, c.ir[i].dest, i))
  {
    hide WellFormed, Run, SettleCode, HomePlace, PlaceOf, Protected, OperandOk, LoadAddressCode, LocalsHold,
         GlobalsHold, ArgsHold, Known, Wrap;
    var dest := c.ir[i].dest;
    var r := DestRegOrT0(c.f, dest);
    DeclIndex(c, i);
    KnownOk(c, h, dest);
    PlaceIsHome(c, h, s, dest);
    var fetch := if i >= 8 then LoadAddressCode(r, S(0), WORD_BYTES * (i - 8)) else if r != A(i) then [Mv(r, A(i))]
                 else [];
    assert Computed(s, Run(fetch, s), r, st.params[i], false) by { Fetched(c, h, i, st, s); }
    RunAppend(fetch, SettleCode(c.f, dest), s);
    Settled(c.f, s, Run(fetch, s), dest, st.params[i], false);
    OperandPlain(c.f, dest, r);
  }

  lemma DeclIndex(c: Unit, i: nat)
    requires WellFormed(c) && i < |c.ir| && DeclaresParam(c.ir[i])
    ensures ParamIndex(c.ir, i) == i < ParamCount(c)
  {
    hide ParamsFirst, ParamIndex;
    IndexAt(c.ir, i);
  }

  lemma IndexAt(ir: seq<IrInst>, i: nat)
    requires ParamsFirst(ir) && i < |ir| && DeclaresParam(ir[i])
    ensures ParamIndex(ir, i) == i < ParamIndex(ir, |ir|)
  {
    IndexMono(ir, i + 1, |ir|);
  }

  lemma {:induction false} IndexMono(ir: seq<IrInst>, m: nat, n: nat)
    requires m <= n <= |ir|
    ensures ParamIndex(ir, m) <= ParamIndex(ir, n)
  {
    if m < n { IndexMono(ir, m, n - 1); }
  }

  lemma Fetched(c: Unit, h: Home, i: nat, st: IrState, s: State)
    requires LayoutOk(c, h) && i < ParamCount(c) && i < |c.ir| && OperandOk(c.f, c.ir[i].dest)
    requires FrameHeld(c, h, s) && ParamsHold(c, h, i, st, s) && i in st.params
    ensures var r := DestRegOrT0(c.f, c.ir[i].dest);
            var fetch := if i >= 8 then LoadAddressCode(r, S(0), WORD_BYTES * (i - 8)) else if r != A(i) then
                         [Mv(r, A(i))] else [];
            Computed(s, Run(fetch, s), r, st.params[i], false)
  {
    hide Run, Protected, LoadAddressCode, RegForOperand, Wrap;
    var r := DestRegOrT0(c.f, c.ir[i].dest);
    if i >= 8 {
      LoadAddressCorrect(r, S(0), WORD_BYTES * (i - 8), s);
    } else if r != A(i) {
      Run1(Mv(r, A(i)), s);
    } else {
      RunEmpty(s);
    }
  }

  // --------------------------------------------------------------------------
  // Outgoing arguments
  // --------------------------------------------------------------------------

  lemma {:induction false} ArgBound(ir: seq<IrInst>, i: nat, n: nat)
    requires i < n <= |ir| && ir[i].op.PARAM? && ir[i].src1.Imm? && ir[i].src1.immVal >= 8
    ensures ir[i].src1.immVal - 7 <= OverflowArgs(ir, n)
  {
    if i < n - 1 { ArgBound(ir, i, n - 1); }
  }

  /** Staging an argument writes its place. */
  lemma ArgWritten(c: Unit, h: Home, o: Operand, k: nat, s: State)
    requires WellFormed(c) && LayoutOk(c, h) && FrameHeld(c, h, s) && ConstantsHold(c.f, s)
    requires IsValue(o) && OperandOk(c.f, o) && WORD_BYTES * (k - 7) <= c.f.outgoingArgumentBytes
    ensures Written(s, Run(ParamCode(c.f, o, k), s), ArgPlace(h, k), Val(c.f, s, o), false)
    ensures AllPlain(ParamCode(c.f, o, k))
  {
    hide WellFormed, Run, LoadCode, StoreAddressCode, Protected, OperandOk, Wrap, Val;
    if k < 8 {
      LoadCorrect(c.f, o, A(k), s);
      OperandPlain(c.f, o, A(k));
    } else {
      LoadCorrect(c.f, o, T(0), s);
      var t := Run(LoadCode(c.f, o, T(0)), s);
      RunAppend(LoadCode(c.f, o, T(0)), StoreAddressCode(T(0), Sp, WORD_BYTES * (k - 8)), s);
      StoreAddressCorrect(T(0), Sp, WORD_BYTES * (k - 8), t);
      OperandPlain(c.f, o, T(0));
    }
  }

  lemma ArgPlacesDiffer(c: Unit, h: Home, k: nat, k': nat)
    requires LayoutOk(c, h) && k != k'
    requires WORD_BYTES * (k - 7) <= c.f.outgoingArgumentBytes && WORD_BYTES * (k' - 7) <= c.f.outgoingArgumentBytes
    ensures ArgPlace(h, k) != ArgPlace(h, k')
  {
    hide Wrap, LocalOffset, Protected;
    if k >= 8 && k' >= 8 { SlotApart(h.sp, WORD_BYTES * (k - 8), WORD_BYTES * (k' - 8)); }
  }

  /** No argument place is protected or holds a constant. */
  lemma ArgPlaceFree(c: Unit, h: Home, k: nat)
    requires LayoutOk(c, h) && WellFormed(c) && HasCall(c.ir) && WORD_BYTES * (k - 7) <= c.f.outgoingArgumentBytes
    ensures ArgPlace(h, k).InMem? ==> !Protected(c, h, ArgPlace(h, k).a)
    ensures forall x :: x in c.f.constantRegAlloc ==> ArgPlace(h, k) != InReg(c.f.constantRegAlloc[x])
  {
    hide TablesOk, DefinitionsSafe, TempsOk, IncomingKept, ScratchFree, LabelsReadNothing, NoGlobalClash, SavedCovers,
         LocalOffset, Locals, FrameFits, Incoming, Wrap, ParamsFirst, DistinctParams, SavedCovers;
    if k >= 8 { SlotApart(h.sp, WORD_BYTES * (k - 8), WORD_BYTES * (k - 8) + 1); }
  }
}
