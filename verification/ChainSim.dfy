/** A fused chain against the instructions it replaces. */
module ChainSim {
  import opened Word
  import opened Ir
  import opened IrFlow
  import opened IrMachine
  import opened Rv32
  import opened Frame
  import opened Control
  import opened Liveness
  import opened TempRanges
  import opened Allocation
  import opened BinaryOp
  import opened Remainder
  import opened NormRem
  import opened Body
  import opened PlainCode
  import opened Homes
  import opened BodyFlow
  import opened AllocSim
  import opened BodySim
  import opened ArgSim
  import opened StepSim

  function ChainAt(c: Unit, i: nat): Normalized
    requires FusesChain(c, i)
  {
    MatchNormalized(c.ir, i).value
  }

  lemma ChainFacts(c: Unit, i: nat)
    requires FusesChain(c, i)
    ensures MatchNormalized(c.ir, i).Some? && i < |c.ir| && IsValue(ChainAt(c, i).source)
    ensures var n := ChainAt(c, i);
            && n.modulus > 1 && n.length == ChainLength(c, i) && i + n.length <= |c.ir| && n.length >= 3 &&
               n.intermediate.Local?
            && n.source == c.ir[i].src1 && n.destination == c.ir[i + n.length - 1].dest && IsVariable(n.destination)
  {
    ChainEnds(c.ir, i);
  }

  /** The single remainder that replaces a chain whose modulus is no power of two. */
  function SingleRemainder(n: Normalized): IrInst { IrInst(MOD, n.destination, n.source, Imm(n.modulus)) }

  /** What the matcher does not check: the temporaries differ from the dividends and are dead after the
      chain, and a dividend that must be kept in t3 finds it free. */
  ghost predicate ChainsSafe(c: Unit)
  {
    forall i :: 0 <= i < |c.ir| && FusesChain(c, i) ==> ChainSafe(c, i)
  }

  ghost predicate ChainSafe(c: Unit, i: nat)
    requires FusesChain(c, i)
  {
    var n := ChainAt(c, i);
    && ChainApart(c.ir, i)
    && (forall v :: Local(v) in ChainTemps(c.ir, i) && Local(v) != n.destination ==> !PathLive(c.ir, i + n.length, v))
    && (forall o :: o in ChainTemps(c.ir, i) ==> o.Local?)
    && (SpillsT3(c.f, SingleRemainder(n)) ==> T3Free(c.f))
  }

  /** The addition of a chain that becomes a single remainder does not overflow. */
  predicate ChainFits(c: Unit, i: nat, st: IrState)
  {
    FusesChain(c, i) && !IsPowerOfTwo(ChainAt(c, i).modulus) && Eval(st, ChainAt(c, i).source).Some? &&
    ChainAt(c, i).modulus > 1 ==>
      FitsInt32(RvRem(Eval(st, ChainAt(c, i).source).value, ChainAt(c, i).modulus) + ChainAt(c, i).modulus)
  }

  // --------------------------------------------------------------------------
  // The code
  // --------------------------------------------------------------------------

  lemma ChainWritten(c: Unit, h: Home, i: nat, st: IrState, s: State) returns (spill: bool)
    requires WellFormed(c) && GlobalsKnown(c, h) && Related(c, h, i, st, s) && FusesChain(c, i) && ChainSafe(c, i)
    requires NonnegHere(c, i, st) && ChainFits(c, i, st) && Eval(st, ChainAt(c, i).source).Some?
    ensures ChainAt(c, i).modulus > 1 && IsVariable(ChainAt(c, i).destination) && SpillAllowed(c, spill)
    ensures Known(c, h, ChainAt(c, i).destination)
    ensures Written(s, Run(ChainCode(c, i), s), HomePlace(c.f, h, ChainAt(c, i).destination),
                    NormalValue(Eval(st, ChainAt(c, i).source).value, ChainAt(c, i).modulus), spill)
  {
    hide WellFormed, GlobalsKnown, Related, Run, FusedRemainderCode, HomePlace, PlaceOf, Eval, Val, MatchNormalized,
         ChainTemps, PathLive, ChainApart, IsPowerOfTwo, NormalValue, RvRem, OperandOk, Known, SpillsT3, T3Free,
         Written, ScanLive;
    ChainFacts(c, i);
    var n := ChainAt(c, i);
    EvalIsVal(c, h, i, st, s, n.source);
    KnownHere(c, h, i + n.length - 1);
    KnownOk(c, h, n.destination);
    assert FrameHeld(c, h, s) && ConstantsHold(c.f, s) by { RelatedParts(c, h, i, st, s); }
    PlaceIsHome(c, h, s, n.destination);
    spill := false;
    if IsPowerOfTwo(n.modulus) {
      FusedPowerCorrect(c.f, n, i in c.nonneg, s);
    } else {
      spill := SpillsT3(c.f, SingleRemainder(n));
      assert Val(c.f, s, n.source) >= 0 by { SourceNotNegative(c, i, st); }
      assert Ready(c.f, SingleRemainder(n), i in c.nonneg, s) by { SingleReady(c, h, i, st, s); }
      FusedSingleCorrect(c.f, n, i in c.nonneg, s);
    }
  }

  lemma RelatedParts(c: Unit, h: Home, i: nat, st: IrState, s: State)
    requires Related(c, h, i, st, s)
    ensures FrameHeld(c, h, s) && ConstantsHold(c.f, s)
  {
  }

  lemma SourceNotNegative(c: Unit, i: nat, st: IrState)
    requires FusesChain(c, i) && NonnegHere(c, i, st) && Eval(st, ChainAt(c, i).source).Some? &&
             !IsPowerOfTwo(ChainAt(c, i).modulus)
    ensures Eval(st, ChainAt(c, i).source).value >= 0
  {
    hide IsPowerOfTwo, MatchNormalized, ScanLive;
    ChainFacts(c, i);
  }

  lemma SingleReady(c: Unit, h: Home, i: nat, st: IrState, s: State)
    requires WellFormed(c) && FusesChain(c, i) && ChainSafe(c, i) && ChainAt(c, i).modulus > 1 && NonnegHere(c, i, st)
    requires OperandOk(c.f, ChainAt(c, i).source) && OperandOk(c.f, ChainAt(c, i).destination) && ConstantsHold(c.f, s)
    requires IsVariable(ChainAt(c, i).destination) && ChainAt(c, i).source == c.ir[i].src1
    requires Eval(st, ChainAt(c, i).source).Some? &&
             Val(c.f, s, ChainAt(c, i).source) == Eval(st, ChainAt(c, i).source).value
    ensures Ready(c.f, SingleRemainder(ChainAt(c, i)), i in c.nonneg, s)
  {
    hide WellFormed, OperandOk, MatchNormalized, SpillsT3, Val, PathLive, ChainApart, ChainTemps, RegForOperand,
         ScanLive;
    WellFormedTables(c);
    hide TablesFor;
    ConstantsAway(c, ChainAt(c, i).destination);
    assert OperandOk(c.f, Imm(ChainAt(c, i).modulus)) by { ImmOk(c.f, ChainAt(c, i).modulus); }
  }

  lemma ImmOk(f: StackFrame, v: i32)
    ensures OperandOk(f, Imm(v))
  {
  }

  // --------------------------------------------------------------------------
  // What is live across the chain
  // --------------------------------------------------------------------------

  /** A local live after the chain and not written in it was live before it. */
  lemma {:induction false} LiveAcross(ir: seq<IrInst>, a: nat, i: nat, v: string)
    requires MatchNormalized(ir, a).Some? && a <= i <= a + MatchNormalized(ir, a).value.length
    requires PathLive(ir, a + MatchNormalized(ir, a).value.length, v)
    requires Local(v) !in ChainTemps(ir, a) + {MatchNormalized(ir, a).value.destination}
    ensures PathLive(ir, i, v)
    decreases a + MatchNormalized(ir, a).value.length - i
  {
    hide MatchNormalized, PathLive, ChainTemps;
    if i < a + MatchNormalized(ir, a).value.length {
      LiveAcross(ir, a, i + 1, v);
      ChainLines(ir, a, i);
      ChainDests(ir, a, i);
      if i + 1 < |ir| {
        assert i + 1 in Successors(ir, i) by { LineBelow(ir, i); }
        PathBefore(ir, i, i + 1, v);
      } else {
        NothingLiveAtEnd(ir, v);
      }
    }
  }

  lemma LineBelow(ir: seq<IrInst>, i: nat)
    requires i + 1 < |ir| && IsArithmetic(ir[i].op)
    ensures Successors(ir, i) == [i + 1]
  {
  }

  /** Seen from the last line of the chain, everything else is in its home. */
  lemma OthersAtEnd(c: Unit, h: Home, i: nat, st: IrState, s: State)
    requires FusesChain(c, i) && ChainSafe(c, i) && LocalsHold(c, h, i, st, s)
    ensures ChainLength(c, i) >= 1 && OthersHold(c, h, i + ChainLength(c, i) - 1, st, s)
  {
    hide MatchNormalized, PathLive, ChainTemps, HomePlace, ChainApart, SpillsT3, FusesChain, T3Free;
    ChainFacts(c, i);
    var n := ChainAt(c, i);
    var last := i + n.length - 1;
    forall v | v in st.locals && LiveAfterInst(c.ir, last, v) && !Defines(c.ir[last], v)
      ensures Get(s, HomePlace(c.f, h, Local(v))) == st.locals[v]
    {
      var j :| j in Successors(c.ir, last) && PathLive(c.ir, j, v);
      ChainLines(c.ir, i, last);
      if last + 1 < |c.ir| { LineBelow(c.ir, last); }
      assert j == i + n.length;
      LiveAcross(c.ir, i, i, v);
    }
  }

  /** Values that matter after the chain agree with what its replacement assigns. */
  lemma ChainLocals(c: Unit, h: Home, i: nat, st: IrState, st': IrState, t: State, v: i32)
    requires FusesChain(c, i) && ChainSafe(c, i) && IsVariable(ChainAt(c, i).destination)
    requires Became(st, st', ChainAt(c, i).destination, v, ChainTemps(c.ir, i))
    requires LocalsHold(c, h, i + ChainLength(c, i), Assign(st, ChainAt(c, i).destination, v), t)
    ensures LocalsHold(c, h, i + ChainLength(c, i), st', t)
  {
    hide MatchNormalized, PathLive, ChainTemps, HomePlace, ChainApart, SpillsT3, FusesChain, T3Free;
    var d := ChainAt(c, i).destination;
    forall w | w in st'.locals && PathLive(c.ir, i + ChainLength(c, i), w)
      ensures Get(t, HomePlace(c.f, h, Local(w))) == st'.locals[w]
    {
      if Local(w) != d {
        assert Eval(st', Local(w)) == Eval(st, Local(w));
      } else {
        assert Eval(st', d) == Some(v);
      }
    }
  }

  lemma ChainCore(c: Unit, h: Home, i: nat, st: IrState, st': IrState, t: State, v: i32)
    requires FusesChain(c, i) && ChainSafe(c, i) && IsVariable(ChainAt(c, i).destination)
    requires Became(st, st', ChainAt(c, i).destination, v, ChainTemps(c.ir, i))
    requires CoreHolds(c, h, Assign(st, ChainAt(c, i).destination, v), t)
    ensures CoreHolds(c, h, st', t)
  {
    hide MatchNormalized, PathLive, ChainTemps, HomePlace, ChainApart, SpillsT3, FusesChain, T3Free, FrameHeld,
         ConstantsHold, HasCall, ArgPlace;
    var d := ChainAt(c, i).destination;
    forall g | g in h.syms ensures GlobalValue(st'.globals, g) == GlobalValue(Assign(st, d, v).globals, g) {
      if Global(g) != d {
        assert Eval(st', Global(g)) == Eval(st, Global(g));
      } else {
        assert Eval(st', d) == Some(v);
      }
    }
  }

  /** The chain and its replacement lead to related states. */
  lemma StepChain(c: Unit, h: Home, p: seq<Instr>, before: seq<Instr>, calls: Calls, icalls: IrCalls, i: nat,
                  st: IrState, s: State)
    returns (st': IrState, m: nat, t: State)
    requires Setting(c, h, p, before, calls, icalls) && Related(c, h, i, st, s) && FusesChain(c, i) && ChainSafe(c, i)
    requires NonnegHere(c, i, st) && ChainFits(c, i, st) && Eval(st, ChainAt(c, i).source).Some? && InText(c, i)
    ensures IrRun(c.ir, Loops(c), Leaves(c), icalls, i, st, ChainLength(c, i)) == Goes(i + ChainLength(c, i), st')
    ensures Matches(c, h, p, calls, i, s, i + ChainLength(c, i), st', m, t)
  {
    hide WellFormed, LayoutOk, GlobalsKnown, HasBody, CallsMatch, FusesChain, ChainSafe, NonnegHere, ChainFits, Eval,
         CoreHolds, LocalsHold, ParamsHold, OthersHold, Run, ChainCode, CodeFrom, Exec, IrRun, MatchNormalized,
         Written, HomePlace, Assign, NormalValue, Became, ChainTemps, Loops, Leaves, InText, SavedSame;
    var n := ChainAt(c, i);
    ChainFacts(c, i);
    var x := Eval(st, n.source).value;
    var v := NormalValue(x, n.modulus);
    assert ChainApart(c.ir, i) && NoneOf(Leaves(c), i, i + n.length) by { ChainRunnable(c, i); }
    st' := ChainRun(c.ir, Loops(c), Leaves(c), icalls, i, st, x);
    var spill := ChainWritten(c, h, i, st, s);
    m, t := |ChainCode(c, i)|, Run(ChainCode(c, i), s);
    ChainPlain(c, i);
    PlainIsStraight(ChainCode(c, i));
    ChainHead(c, i);
    ExecStraight(p, ChainCode(c, i), CodeFrom(c, i + n.length), s, calls);
    var last := i + n.length - 1;
    ChainLines(c.ir, i, last);
    OthersAtEnd(c, h, i, st, s);
    NextFollows(c.ir, last);
    LinesKeepSaved(c, i, ChainCode(c, i), CodeFrom(c, i + n.length), s);
    DefinitionKeeps(c, h, last, st, s, t, v, spill);
    ChainLocals(c, h, i, st, st', t, v);
    ChainCore(c, h, i, st, st', t, v);
    NoneLeft(c, last, st', h, last + 1, t);
  }

  lemma PlainIsStraight(code: seq<Instr>)
    requires AllPlain(code)
    ensures forall x :: x in code ==> IsStraight(x)
  {
  }

  lemma ChainRunnable(c: Unit, i: nat)
    requires TailsOk(c) && FusesChain(c, i) && ChainSafe(c, i)
    ensures ChainApart(c.ir, i) && NoneOf(Leaves(c), i, i + ChainLength(c, i))
  {
    hide MatchNormalized, ChainTemps, PathLive, SpillsT3, T3Free;
    forall k | k in Leaves(c) ensures !(i <= k < i + ChainLength(c, i)) {
      if i <= k < i + ChainLength(c, i) { ChainLines(c.ir, i, k); }
    }
  }
}
