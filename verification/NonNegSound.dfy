/** The claims of the non-negativity analysis hold in every run without signed overflow. */
module NonNegSound {
  import opened Word
  import opened Ir
  import opened IrFlow
  import opened IrMachine
  import opened Frame
  import opened Body
  import opened Remainder
  import opened NormRem
  import opened NonNeg
  import opened StepSim
  import opened ChainSim
  import opened BodyRun

  // --------------------------------------------------------------------------
  // Hypotheses
  // --------------------------------------------------------------------------

  /** The addition or subtraction at an instruction does not overflow. */
  predicate NoOverflow(inst: IrInst, st: IrState)
  {
    Eval(st, inst.src1).Some? && Eval(st, inst.src2).Some? ==>
      && (inst.op.ADD? ==> FitsInt32(Eval(st, inst.src1).value + Eval(st, inst.src2).value))
      && (inst.op.SUB? ==> FitsInt32(Eval(st, inst.src1).value - Eval(st, inst.src2).value))
  }

  /** Control enters the lines of a reversed loop only through its opening BRANCH. */
  predicate EnteredByBranch(ir: seq<IrInst>)
  {
    forall s, q, p :: 0 <= s < |ir| && 0 <= q < |ir| && CounterLoop(ir, s).Some? && p in Successors(ir, q) ==>
      (s < p <= CounterLoop(ir, s).value.last ==> s <= q <= CounterLoop(ir, s).value.last)
  }

  /** In every chain the temporaries differ from the dividends. */
  predicate ChainsApart(ir: seq<IrInst>)
  {
    forall a :: 0 <= a < |ir| && MatchNormalized(ir, a).Some? ==> ChainApart(ir, a)
  }

  predicate Analysable(ir: seq<IrInst>) { EnteredByBranch(ir) && ChainsApart(ir) }

  // --------------------------------------------------------------------------
  // Facts inside a chain
  // --------------------------------------------------------------------------

  /** What holds at pos while a raw remainder that starts at a is under way. */
  ghost predicate RawHolds(ir: seq<IrInst>, a: nat, pos: nat, st: IrState, positive: bool)
    requires MatchRaw(ir, a).Some?
  {
    var raw := MatchRaw(ir, a).value;
    Eval(st, raw.source).Some? ==>
      var x := Eval(st, raw.source).value;
      && (positive ==> x >= 1)
      && (pos == a + 1 && raw.length == 3 ==> Eval(st, ir[a].dest) == Some(RvDiv(x, raw.modulus)))
      && (pos == a + 2 && raw.length == 3 ==> Eval(st, ir[a + 1].dest) == Some(RvDiv(x, raw.modulus) * raw.modulus))
  }

  /** One step of a store. */
  ghost predicate Stored(ir: seq<IrInst>, i: nat, st: IrState, st': IrState)
    requires i < |ir|
  {
    IsVariable(ir[i].dest) && Computes(ir[i], st).Some? && st' == Assign(st, ir[i].dest, Computes(ir[i], st).value)
  }

  lemma RawContinues(ir: seq<IrInst>, a: nat, pos: nat, st: IrState, st': IrState, positive: bool)
    requires MatchRaw(ir, a).Some? && TempsApart(ir, a) && a <= pos < a + MatchRaw(ir, a).value.length - 1
    requires RawHolds(ir, a, pos, st, positive) && Stored(ir, pos, st, st')
    ensures RawHolds(ir, a, pos + 1, st', positive)
  {
    hide Assign, RvDiv, Wrap;
    var raw := MatchRaw(ir, a).value;
    var m := raw.modulus;
    var v := Computes(ir[pos], st).value;
    AssignEval(st, ir[pos].dest, v);
    assert Eval(st', raw.source) == Eval(st, raw.source);
    if Eval(st, raw.source).Some? {
      var x := Eval(st, raw.source).value;
      RemainderParts(x, m);
      if pos == a {
        DividedValue(ir[a], st, x, m);
      } else {
        ProductComputes(ir[a + 1], ir[a], st, RvDiv(x, m), m);
      }
    }
  }

  lemma DividedValue(inst: IrInst, st: IrState, x: i32, m: i32)
    requires inst.op.DIV? && inst.src2 == Imm(m) && Eval(st, inst.src1) == Some(x)
    ensures Computes(inst, st) == Some(RvDiv(x, m))
  {
  }

  /** The last line of a raw remainder leaves a value below the modulus, and not below 0 for a positive
      dividend. */
  lemma RawEnds(ir: seq<IrInst>, a: nat, st: IrState, st': IrState, positive: bool)
    requires MatchRaw(ir, a).Some?
    requires var pos := a + MatchRaw(ir, a).value.length - 1;
             RawHolds(ir, a, pos, st, positive) && Stored(ir, pos, st, st')
    ensures var raw := MatchRaw(ir, a).value; Eval(st', raw.destination).Some?
    ensures var raw := MatchRaw(ir, a).value;
            var d := Eval(st', raw.destination).value;
            -raw.modulus < d < raw.modulus && (positive ==> d >= 0)
  {
    hide Assign, RvDiv, RvRem, Wrap;
    var raw := MatchRaw(ir, a).value;
    var pos := a + raw.length - 1;
    AssignEval(st, ir[pos].dest, Computes(ir[pos], st).value);
    FirstSource(ir[pos], st);
    var x := Eval(st, raw.source).value;
    RemainderParts(x, raw.modulus);
    if raw.length == 1 {
      ComputesFrom(ir[pos], st, x, raw.modulus);
    } else {
      ComputesFrom(ir[pos], st, x, RvDiv(x, raw.modulus) * raw.modulus);
    }
  }

  lemma FirstSource(inst: IrInst, st: IrState)
    requires Computes(inst, st).Some?
    ensures Eval(st, inst.src1).Some?
  {
  }

  /** Where i stands in the chain that starts at a. */
  ghost predicate ChainHolds(ir: seq<IrInst>, a: nat, i: nat, st: IrState)
    requires MatchNormalized(ir, a).Some?
  {
    var n := MatchNormalized(ir, a).value;
    var at := a + MatchRaw(ir, a).value.length;
    && (a < i < at ==> RawHolds(ir, a, i, st, false))
    && (i == at ==> Eval(st, n.intermediate).Some? && -n.modulus < Eval(st, n.intermediate).value < n.modulus)
    && (at < i < a + n.length ==> RawHolds(ir, at + 1, i, st, true))
  }

  /** Every line of the chain keeps the facts; its last leaves a value that is not negative. */
  lemma ChainContinues(ir: seq<IrInst>, a: nat, i: nat, st: IrState, st': IrState)
    requires MatchNormalized(ir, a).Some? && ChainApart(ir, a) && a <= i < a + MatchNormalized(ir, a).value.length
    requires ChainHolds(ir, a, i, st) && i < |ir| && Stored(ir, i, st, st') && NoOverflow(ir[i], st)
    ensures ChainHolds(ir, a, i + 1, st')
    ensures i == a + MatchNormalized(ir, a).value.length - 1 ==>
              Eval(st', ir[i].dest).Some? && Eval(st', ir[i].dest).value >= 0
  {
    hide RawHolds, Assign, Computes, Eval, NoOverflow;
    var n := MatchNormalized(ir, a).value;
    var first := MatchRaw(ir, a).value;
    var at := a + first.length;
    var second := MatchRaw(ir, at + 1).value;
    if i < at {
      if i == a { RawStarts(ir, a, st, false); }
      if i < at - 1 { RawContinues(ir, a, i, st, st', false); } else { RawEnds(ir, a, st, st', false); }
    } else if i == at {
      SumPositive(ir, a, st, st');
    } else {
      if i < a + n.length - 1 {
        RawContinues(ir, at + 1, i, st, st', true);
      } else {
        RawEnds(ir, at + 1, st, st', true);
      }
    }
  }

  lemma RawStarts(ir: seq<IrInst>, a: nat, st: IrState, positive: bool)
    requires MatchRaw(ir, a).Some? && !positive
    ensures RawHolds(ir, a, a, st, positive)
  {
  }

  lemma SumPositive(ir: seq<IrInst>, a: nat, st: IrState, st': IrState)
    requires MatchNormalized(ir, a).Some?
    requires var at := a + MatchRaw(ir, a).value.length;
             ChainHolds(ir, a, at, st) && Stored(ir, at, st, st') && NoOverflow(ir[at], st)
    ensures RawHolds(ir, a + MatchRaw(ir, a).value.length + 1, a + MatchRaw(ir, a).value.length + 1, st', true)
  {
    hide Assign, RvDiv, RawHolds;
    var n := MatchNormalized(ir, a).value;
    var at := a + MatchRaw(ir, a).value.length;
    var t := Eval(st, n.intermediate).value;
    ComputesFrom(ir[at], st, t, n.modulus);
    AssignEval(st, n.intermediate, Wrap(t + n.modulus));
    AtStart(ir, at + 1, st');
  }

  lemma AtStart(ir: seq<IrInst>, a: nat, st: IrState)
    requires MatchRaw(ir, a).Some? && Eval(st, MatchRaw(ir, a).value.source).Some? &&
             Eval(st, MatchRaw(ir, a).value.source).value >= 1
    ensures RawHolds(ir, a, a, st, true)
  {
  }

  // --------------------------------------------------------------------------
  // The invariant of a run
  // --------------------------------------------------------------------------

  ghost predicate NotBelowZero(st: IrState, v: string) { v in st.locals ==> st.locals[v] >= 0 }

  /** Between the opening BRANCH of a reversed loop and its branch back. */
  predicate InLoop(ir: seq<IrInst>, s: nat, i: nat)
  {
    s < |ir| && CounterLoop(ir, s).Some? && s < i <= CounterLoop(ir, s).value.last
  }

  ghost predicate Sound(ir: seq<IrInst>, i: nat, st: IrState)
  {
    && (forall v :: AlwaysNonneg(ir, v) ==> NotBelowZero(st, v))
    && (i < |ir| ==>
          && (forall a :: MatchNormalized(ir, a).Some? ==> ChainHolds(ir, a, i, st))
          && (forall s :: InLoop(ir, s, i) ==> NotBelowZero(st, CounterLoop(ir, s).value.name))
          && (!ir[i].op.LABEL? ==> forall v :: StartsNonneg(ir, i, v) ==> NotBelowZero(st, v))
          && (!ir[i].op.LABEL? ==> forall v :: v in KnownAt(ir, i) ==> NotBelowZero(st, v)))
  }

  lemma SoundAtStart(ir: seq<IrInst>, args: Args, globals: Globals)
    ensures Sound(ir, 0, Entry(args, globals))
  {
    hide AlwaysNonneg, CounterLoop, MatchNormalized;
    forall a | MatchNormalized(ir, a).Some? ensures ChainHolds(ir, a, 0, Entry(args, globals)) {
      ChainFar(ir, a, 0, Entry(args, globals));
    }
  }

  lemma ChainFar(ir: seq<IrInst>, a: nat, i: nat, st: IrState)
    requires MatchNormalized(ir, a).Some? && !(a < i < a + MatchNormalized(ir, a).value.length)
    ensures ChainHolds(ir, a, i, st)
  {
    hide RawHolds;
  }

  /** How one instruction changes the locals: not at all, or only its destination. */
  ghost predicate OnlyDest(inst: IrInst, st: IrState, st': IrState)
  {
    && (forall v :: v in st'.locals && inst.dest != Local(v) ==> v in st.locals && st'.locals[v] == st.locals[v])
    && (ReadsDest(inst.op) ==> st'.locals == st.locals)
    && (inst.op.LOCAL_VAR_DECL? && inst.src1.NoOperand? && inst.dest.Local? ==> inst.dest.name !in st'.locals)
  }

  /** A step that does not start the function over. */
  ghost predicate Moves(ir: seq<IrInst>, i: nat, st: IrState, j: nat, st': IrState)
    requires i < |ir|
  {
    && (j in Successors(ir, i) || j == i + 1 == |ir|) && OnlyDest(ir[i], st, st')
    && (ir[i].dest.Local? && !ReadsDest(ir[i].op) && !ir[i].op.CALL? && !ir[i].op.LOCAL_VAR_DECL? ==>
        Stored(ir, i, st, st') && j == i + 1)
    && (IsArithmetic(ir[i].op) ==> Stored(ir, i, st, st') && j == i + 1)
    && (SetsConstant(ir[i]) && ir[i].dest.Local? ==> Stored(ir, i, st, st') && j == i + 1)
  }

  lemma StepMoves(ir: seq<IrInst>, loops: set<nat>, calls: IrCalls, i: nat, st: IrState)
    requires i < |ir| && IrStep(ir, loops, calls, i, st).Goes?
    ensures var x := IrStep(ir, loops, calls, i, st);
            (x.i == 0 && x.st.locals == map[]) || Moves(ir, i, st, x.i, x.st)
  {
    if ir[i].op.CALL? && i in loops {
      hide LabelPosition;
    } else {
      hide IrStep, Successors, OnlyDest, Stored;
      StepLeads(ir, loops, calls, i, st);
      StepChanges(ir, loops, calls, i, st);
      StepStores(ir, loops, calls, i, st);
    }
  }

  lemma StepLeads(ir: seq<IrInst>, loops: set<nat>, calls: IrCalls, i: nat, st: IrState)
    requires i < |ir| && IrStep(ir, loops, calls, i, st).Goes? && !(ir[i].op.CALL? && i in loops)
    ensures var j := IrStep(ir, loops, calls, i, st).i; j in Successors(ir, i) || j == i + 1 == |ir|
  {
    hide Computes, LabelPosition, ParamIndex;
  }

  lemma StepChanges(ir: seq<IrInst>, loops: set<nat>, calls: IrCalls, i: nat, st: IrState)
    requires i < |ir| && IrStep(ir, loops, calls, i, st).Goes? && !(ir[i].op.CALL? && i in loops)
    ensures OnlyDest(ir[i], st, IrStep(ir, loops, calls, i, st).st)
  {
    hide Computes, LabelPosition, ParamIndex;
  }

  lemma StepStores(ir: seq<IrInst>, loops: set<nat>, calls: IrCalls, i: nat, st: IrState)
    requires i < |ir| && IrStep(ir, loops, calls, i, st).Goes?
    ensures var x := IrStep(ir, loops, calls, i, st);
            && (ir[i].dest.Local? && !ReadsDest(ir[i].op) && !ir[i].op.CALL? && !ir[i].op.LOCAL_VAR_DECL? ==>
                  Stored(ir, i, st, x.st) && x.i == i + 1)
            && (IsArithmetic(ir[i].op) || (SetsConstant(ir[i]) && ir[i].dest.Local?) ==>
                  Stored(ir, i, st, x.st) && x.i == i + 1)
  {
    hide Computes, LabelPosition, ParamIndex;
  }

  // --------------------------------------------------------------------------
  // The invariant is kept
  // --------------------------------------------------------------------------

  lemma ChainsKept(ir: seq<IrInst>, i: nat, st: IrState, j: nat, st': IrState, a: nat)
    requires Analysable(ir) && i < |ir| && j < |ir| && Moves(ir, i, st, j, st') && NoOverflow(ir[i], st)
    requires MatchNormalized(ir, a).Some? && ChainHolds(ir, a, i, st)
    ensures ChainHolds(ir, a, j, st')
  {
    hide MatchNormalized, ChainHolds, EnteredByBranch, CounterLoop, OnlyDest, NoOverflow, Stored, ChainApart;
    if a < j < a + MatchNormalized(ir, a).value.length {
      ChainLines(ir, a, j);
      OnlyFromLineAbove(ir, i, j);
      ChainLines(ir, a, i);
      ChainContinues(ir, a, i, st, st');
    } else {
      ChainFar(ir, a, j, st');
    }
  }

  /** A local all of whose definitions are non-negative. */
  lemma AlwaysKept(ir: seq<IrInst>, i: nat, st: IrState, j: nat, st': IrState, v: string)
    requires Analysable(ir) && i < |ir| && Moves(ir, i, st, j, st') && NoOverflow(ir[i], st) && AlwaysNonneg(ir, v)
    requires NotBelowZero(st, v) && forall a :: MatchNormalized(ir, a).Some? ==> ChainHolds(ir, a, i, st)
    ensures NotBelowZero(st', v)
  {
    hide MatchNormalized, ChainHolds, EnteredByBranch, CounterLoop, NoOverflow, EndsChain;
    if ir[i].dest == Local(v) && RealDef(ir[i], v) {
      if SetsConstant(ir[i]) { ConstantStored(ir, i, st, st', v); } else { ChainEndKept(ir, i, st, j, st', v); }
    }
  }

  lemma ConstantStored(ir: seq<IrInst>, i: nat, st: IrState, st': IrState, v: string)
    requires i < |ir| && SetsConstant(ir[i]) && ir[i].dest == Local(v) && Stored(ir, i, st, st')
    ensures NotBelowZero(st', v)
  {
  }

  lemma ChainEndKept(ir: seq<IrInst>, i: nat, st: IrState, j: nat, st': IrState, v: string)
    requires Analysable(ir) && i < |ir| && Moves(ir, i, st, j, st') && NoOverflow(ir[i], st) && EndsChain(ir, i)
    requires ir[i].dest == Local(v) && forall a :: MatchNormalized(ir, a).Some? ==> ChainHolds(ir, a, i, st)
    ensures NotBelowZero(st', v)
  {
    hide MatchNormalized, ChainHolds, EnteredByBranch, CounterLoop, NoOverflow, ChainApart;
    var a :| 0 <= a < |ir| && MatchNormalized(ir, a).Some? && i == a + MatchNormalized(ir, a).value.length - 1;
    ChainLines(ir, a, i);
    ChainContinues(ir, a, i, st, st');
  }

  /** A counter going up by a constant, without overflow. */
  lemma CounterKept(ir: seq<IrInst>, i: nat, st: IrState, j: nat, st': IrState, s: nat)
    requires Analysable(ir) && i < |ir| && j < |ir| && Moves(ir, i, st, j, st') && NoOverflow(ir[i], st)
    requires InLoop(ir, s, j)
    requires InLoop(ir, s, i) ==> NotBelowZero(st, CounterLoop(ir, s).value.name)
    requires !ir[i].op.LABEL? ==> forall v :: StartsNonneg(ir, i, v) ==> NotBelowZero(st, v)
    ensures NotBelowZero(st', CounterLoop(ir, s).value.name)
  {
    var v := CounterLoop(ir, s).value.name;
    CounterShape(ir, s);
    hide CounterLoop, ChainsApart, StartsNonneg, NoOverflow, Stored, MatchNormalized;
    assert s <= i <= CounterLoop(ir, s).value.last;
    if i > s && ir[i].dest == Local(v) && !ReadsDest(ir[i].op) {
      CounterLines(ir, s, i);
      Incremented(ir, i, st, st', v);
    }
  }

  lemma CounterShape(ir: seq<IrInst>, s: nat)
    requires s < |ir| && CounterLoop(ir, s).Some?
    ensures s + 1 < |ir| && ir[s].op.BRANCH? && ir[s].dest.Label? && ir[s + 1].op.LABEL?
    ensures StartsNonneg(ir, s, CounterLoop(ir, s).value.name)
  {
  }

  lemma CounterLines(ir: seq<IrInst>, s: nat, i: nat)
    requires InLoop(ir, s, i) && ir[i].dest == Local(CounterLoop(ir, s).value.name) && !ir[i].op.LABEL? &&
             !ir[i].op.BNEZ?
    ensures Increments(ir[i], CounterLoop(ir, s).value.name)
  {
    hide StartsNonneg;
    FoundBranchBack(ir, FindLabel(ir, s + 2, ir[s].dest.name) + 1, NameOf(ir[s + 1].dest));
  }

  lemma {:induction false} FoundBranchBack(ir: seq<IrInst>, from: nat, name: string)
    requires from <= |ir|
    ensures FindBranchBack(ir, from, name) < |ir| ==> ir[FindBranchBack(ir, from, name)].op.BNEZ?
    decreases |ir| - from
  {
    if from < |ir| { FoundBranchBack(ir, from + 1, name); }
  }

  lemma Incremented(ir: seq<IrInst>, i: nat, st: IrState, st': IrState, v: string)
    requires i < |ir| && Increments(ir[i], v) && ir[i].dest == Local(v) && Stored(ir, i, st, st') &&
             NoOverflow(ir[i], st)
    requires NotBelowZero(st, v)
    ensures NotBelowZero(st', v)
  {
  }

  /** What a constant set above is still worth here. */
  lemma StartKept(ir: seq<IrInst>, i: nat, st: IrState, j: nat, st': IrState, v: string)
    requires i < |ir| && j < |ir| && Moves(ir, i, st, j, st') && !ir[j].op.LABEL? && StartsNonneg(ir, j, v)
    requires !ir[i].op.LABEL? ==> (StartsNonneg(ir, i, v) ==> NotBelowZero(st, v))
    ensures NotBelowZero(st', v)
  {
    OnlyFromLineAbove(ir, i, j);
    if ir[i].dest == Local(v) { ConstantStored(ir, i, st, st', v); }
  }

  /** A source the analysis trusts has no negative value. */
  lemma SourceHolds(ir: seq<IrInst>, i: nat, st: IrState, o: Operand)
    requires i < |ir| && Sound(ir, i, st) && !ir[i].op.LABEL? && SourceNonneg(ir, KnownAt(ir, i), o, i) &&
             Eval(st, o).Some?
    ensures Eval(st, o).value >= 0
  {
    hide AlwaysNonneg, CounterLoop, ChainHolds, MatchNormalized, KnownAt, StartsNonneg;
    if o.Local? && CountsAt(ir, o.name, i) {
      var s :| 0 <= s < |ir| && CounterLoop(ir, s).Some? && CounterLoop(ir, s).value.name == o.name &&
               s + 2 <= i <= CounterLoop(ir, s).value.last;
      assert InLoop(ir, s, i);
    }
  }

  /** The value a trusted definition computes. */
  lemma MadeNonneg(ir: seq<IrInst>, i: nat, st: IrState, j: nat, st': IrState, v: string)
    requires Analysable(ir) && i < |ir| && Moves(ir, i, st, j, st') && NoOverflow(ir[i], st) && Sound(ir, i, st)
    requires ir[i].dest == Local(v) && !EndsWindow(ir[i].op) && MakesNonneg(ir, KnownAt(ir, i), i)
    ensures NotBelowZero(st', v)
  {
    hide AlwaysNonneg, CounterLoop, MatchNormalized, KnownAt, StartsNonneg, Analysable, ChainHolds, EndsChain,
         SourceNonneg, Eval;
    if EndsChain(ir, i) {
      ChainEndKept(ir, i, st, j, st', v);
    } else if SetsConstant(ir[i]) {
      ConstantStored(ir, i, st, st', v);
    } else {
      FirstSource(ir[i], st);
      SourceHolds(ir, i, st, ir[i].src1);
      if ir[i].op.ADD? {
        SecondSource(ir[i], st);
        SourceHolds(ir, i, st, ir[i].src2);
      }
      FromSources(ir[i], st, v);
    }
  }

  lemma SecondSource(inst: IrInst, st: IrState)
    requires Computes(inst, st).Some? && inst.op.ADD?
    ensures Eval(st, inst.src2).Some?
  {
  }

  lemma FromSources(inst: IrInst, st: IrState, v: string)
    requires Computes(inst, st).Some? && Eval(st, inst.src1).Some? && Eval(st, inst.src1).value >= 0 &&
             NoOverflow(inst, st)
    requires inst.op.ASSIGN? || (inst.op.ADD? && Eval(st, inst.src2).Some? && Eval(st, inst.src2).value >= 0) ||
             ((inst.op.DIV? || inst.op.MOD?) && inst.src2.Imm? && inst.src2.immVal > 0)
    ensures Computes(inst, st).value >= 0
  {
    hide RvDiv, RvRem;
    if inst.op.DIV? || inst.op.MOD? {
      QuotientNonneg(Eval(st, inst.src1).value, inst.src2.immVal);
    }
  }

  lemma QuotientNonneg(a: i32, m: i32)
    requires a >= 0 && m > 0
    ensures RvDiv(a, m) >= 0 && RvRem(a, m) >= 0
  {
    if m > 1 { RemainderParts(a, m); }
  }

  lemma WindowKept(ir: seq<IrInst>, i: nat, st: IrState, j: nat, st': IrState, v: string)
    requires Analysable(ir) && i < |ir| && j < |ir| && Moves(ir, i, st, j, st') && NoOverflow(ir[i], st) &&
             Sound(ir, i, st)
    requires !ir[j].op.LABEL? && v in KnownAt(ir, j)
    ensures NotBelowZero(st', v)
  {
    hide AlwaysNonneg, CounterLoop, MatchNormalized, StartsNonneg, Analysable, ChainHolds, MakesNonneg, NoOverflow,
         Stored;
    OnlyFromLineAbove(ir, i, j);
    if ir[i].dest == Local(v) {
      assert MakesNonneg(ir, KnownAt(ir, i), i);
      hide KnownAt;
      MadeNonneg(ir, i, st, j, st', v);
    }
  }

  /** Every step without overflow keeps the invariant. */
  lemma SoundStep(ir: seq<IrInst>, loops: set<nat>, calls: IrCalls, i: nat, st: IrState)
    requires Analysable(ir) && i < |ir| && Sound(ir, i, st) && NoOverflow(ir[i], st) &&
             IrStep(ir, loops, calls, i, st).Goes?
    ensures Sound(ir, IrStep(ir, loops, calls, i, st).i, IrStep(ir, loops, calls, i, st).st)
  {
    var x := IrStep(ir, loops, calls, i, st);
    StepMoves(ir, loops, calls, i, st);
    hide IrStep, Analysable, NoOverflow, Moves, AlwaysNonneg, CounterLoop, MatchNormalized, StartsNonneg, KnownAt,
         ChainHolds;
    var j, st' := x.i, x.st;
    if Moves(ir, i, st, j, st') {
      forall v | AlwaysNonneg(ir, v) ensures NotBelowZero(st', v) { AlwaysKept(ir, i, st, j, st', v); }
      if j < |ir| {
        forall a | MatchNormalized(ir, a).Some? ensures ChainHolds(ir, a, j, st') { ChainsKept(ir, i, st, j, st', a); }
        forall s | InLoop(ir, s, j) ensures NotBelowZero(st', CounterLoop(ir, s).value.name) {
          CounterKept(ir, i, st, j, st', s);
        }
        if !ir[j].op.LABEL? {
          forall v | StartsNonneg(ir, j, v) ensures NotBelowZero(st', v) { StartKept(ir, i, st, j, st', v); }
          forall v | v in KnownAt(ir, j) ensures NotBelowZero(st', v) { WindowKept(ir, i, st, j, st', v); }
        }
      }
    } else {
      SoundAgain(ir, st');
    }
  }

  lemma SoundAgain(ir: seq<IrInst>, st: IrState)
    requires st.locals == map[]
    ensures Sound(ir, 0, st)
  {
    hide AlwaysNonneg, CounterLoop, MatchNormalized;
    forall a | MatchNormalized(ir, a).Some? ensures ChainHolds(ir, a, 0, st) { ChainFar(ir, a, 0, st); }
  }

  // --------------------------------------------------------------------------
  // Soundness
  // --------------------------------------------------------------------------

  /** Where a local claimed non-negative is read as the first source, it is not negative. */
  lemma ClaimHolds(ir: seq<IrInst>, i: nat, st: IrState, v: string)
    requires i < |ir| && Sound(ir, i, st) && ir[i].src1 == Local(v) && ClaimedNonneg(ir, v, i)
    requires !ir[i].op.LABEL?
    ensures NotBelowZero(st, v)
  {
    hide AlwaysNonneg, CounterLoop, MatchNormalized, StartsNonneg, KnownAt, ChainHolds, EndsChain;
    if v in st.locals {
      if EndsChain(ir, i) {
        ChainReads(ir, i, st, v);
      } else {
        assert SourceNonneg(ir, KnownAt(ir, i), Local(v), i);
        SourceHolds(ir, i, st, Local(v));
      }
    }
  }

  lemma ChainReads(ir: seq<IrInst>, i: nat, st: IrState, v: string)
    requires i < |ir| && Sound(ir, i, st) && ir[i].src1 == Local(v) && EndsChain(ir, i) && v in st.locals
    ensures st.locals[v] >= 0
  {
    hide AlwaysNonneg, CounterLoop, StartsNonneg, KnownAt, RvDiv;
    var a :| 0 <= a < |ir| && MatchNormalized(ir, a).Some? && i == a + MatchNormalized(ir, a).value.length - 1;
    assert ChainHolds(ir, a, i, st);
  }

  /** No overflow along the run from i. */
  ghost predicate NoOverflowOnRun(ir: seq<IrInst>, loops: set<nat>, leaves: set<nat>, calls: IrCalls, i: nat,
                                  st: IrState)
  {
    forall k: nat ::
      IrRun(ir, loops, leaves, calls, i, st, k).Goes? && IrRun(ir, loops, leaves, calls, i, st, k).i < |ir| ==>
      NoOverflow(ir[IrRun(ir, loops, leaves, calls, i, st, k).i], IrRun(ir, loops, leaves, calls, i, st, k).st)
  }

  lemma NoOverflowNext(ir: seq<IrInst>, loops: set<nat>, leaves: set<nat>, calls: IrCalls, i: nat, st: IrState)
    requires i < |ir| && i !in leaves && NoOverflowOnRun(ir, loops, leaves, calls, i, st) &&
             IrStep(ir, loops, calls, i, st).Goes?
    ensures NoOverflow(ir[i], st)
    ensures var x := IrStep(ir, loops, calls, i, st); NoOverflowOnRun(ir, loops, leaves, calls, x.i, x.st)
  {
    hide IrStep, NoOverflow;
    assert IrRun(ir, loops, leaves, calls, i, st, 0) == Goes(i, st);
    var x := IrStep(ir, loops, calls, i, st);
    forall k: nat | IrRun(ir, loops, leaves, calls, x.i, x.st, k).Goes? &&
      IrRun(ir, loops, leaves, calls, x.i, x.st, k).i < |ir|
      ensures NoOverflow(ir[IrRun(ir, loops, leaves, calls, x.i, x.st, k).i],
                         IrRun(ir, loops, leaves, calls, x.i, x.st, k).st)
    {
      assert IrRun(ir, loops, leaves, calls, i, st, k + 1) == IrRun(ir, loops, leaves, calls, x.i, x.st, k);
    }
  }

  /** The invariant holds wherever the run goes. */
  lemma {:induction false} SoundOnRun(ir: seq<IrInst>, loops: set<nat>, leaves: set<nat>, calls: IrCalls, i: nat,
                                      st: IrState, n: nat)
    requires Analysable(ir) && Sound(ir, i, st) && NoOverflowOnRun(ir, loops, leaves, calls, i, st)
    requires IrRun(ir, loops, leaves, calls, i, st, n).Goes?
    ensures Sound(ir, IrRun(ir, loops, leaves, calls, i, st, n).i, IrRun(ir, loops, leaves, calls, i, st, n).st)
    decreases n
  {
    hide IrStep, Sound, Analysable, NoOverflowOnRun;
    if n > 0 && i !in leaves {
      NoOverflowNext(ir, loops, leaves, calls, i, st);
      SoundStep(ir, loops, calls, i, st);
      var x := IrStep(ir, loops, calls, i, st);
      SoundOnRun(ir, loops, leaves, calls, x.i, x.st, n - 1);
    }
  }

  /** No overflow in a chain's addition means the single remainder that replaces the chain is right. */
  lemma ChainAddition(c: Unit, icalls: IrCalls, i: nat, st: IrState)
    requires ChainsApart(c.ir) && TailsOk(c) && NoOverflowOnRun(c.ir, Loops(c), Leaves(c), icalls, i, st)
    ensures ChainFits(c, i, st)
  {
    hide TailsOk, IrRun, MatchNormalized, IsPowerOfTwo, RvRem, Loops, Eval, Became;
    if FusesChain(c, i) && Eval(st, ChainAt(c, i).source).Some? {
      ChainFacts(c, i);
      ChainStarts(c.ir, i);
      var n, first := ChainAt(c, i), MatchRaw(c.ir, i).value;
      var at := i + first.length;
      var x := Eval(st, n.source).value;
      assert ChainApart(c.ir, i);
      assert NoneOf(Leaves(c), i, i + first.length) by { ChainCalls(c, i); }
      hide Leaves, NoneOf;
      var st1 := RawRun(c.ir, Loops(c), Leaves(c), icalls, i, st, x);
      assert NoOverflow(c.ir[at], st1);
      BecameValue(st, st1, first.destination, RvRem(x, n.modulus), RawTemps(c.ir, i));
      SumFits(c.ir[at], st1, RvRem(x, n.modulus), n.modulus);
    }
  }

  lemma BecameValue(st: IrState, st': IrState, dest: Operand, v: i32, temps: set<Operand>)
    requires IsVariable(dest) && Became(st, st', dest, v, temps)
    ensures Eval(st', dest) == Some(v)
  {
  }

  lemma SumFits(inst: IrInst, st: IrState, r: i32, m: i32)
    requires inst.op.ADD? && Eval(st, inst.src1) == Some(r) && inst.src2 == Imm(m) && NoOverflow(inst, st)
    ensures FitsInt32(r + m)
  {
  }

  lemma ChainStarts(ir: seq<IrInst>, a: nat)
    requires MatchNormalized(ir, a).Some?
    ensures MatchRaw(ir, a).Some?
    ensures var n, first := MatchNormalized(ir, a).value, MatchRaw(ir, a).value;
            var at := a + first.length;
            && at < |ir| && at + 1 < a + n.length + 1 && ir[at].op.ADD? && ir[at].src1 == n.intermediate &&
               ir[at].src2 == Imm(n.modulus)
            && first.destination == n.intermediate && first.modulus == n.modulus && first.source == n.source
  {
  }

  lemma ChainCalls(c: Unit, i: nat)
    requires TailsOk(c) && FusesChain(c, i) && MatchRaw(c.ir, i).Some?
    ensures NoneOf(Leaves(c), i, i + MatchRaw(c.ir, i).value.length)
  {
    hide MatchNormalized;
    ChainFacts(c, i);
    ChainStarts(c.ir, i);
    forall k | k in Leaves(c) ensures !(i <= k < i + MatchRaw(c.ir, i).value.length) {
      if i <= k < i + MatchRaw(c.ir, i).value.length { ChainLines(c.ir, i, k); }
    }
  }

  /** No overflow along a run is no overflow along the rest of it. */
  lemma NoOverflowLater(ir: seq<IrInst>, loops: set<nat>, leaves: set<nat>, calls: IrCalls, i: nat, st: IrState, k: nat,
                        j: nat, st': IrState)
    requires NoOverflowOnRun(ir, loops, leaves, calls, i, st) &&
             IrRun(ir, loops, leaves, calls, i, st, k) == Goes(j, st')
    ensures NoOverflowOnRun(ir, loops, leaves, calls, j, st')
  {
    hide NoOverflow, IrRun;
    forall n: nat | IrRun(ir, loops, leaves, calls, j, st', n).Goes? &&
      IrRun(ir, loops, leaves, calls, j, st', n).i < |ir|
      ensures NoOverflow(ir[IrRun(ir, loops, leaves, calls, j, st', n).i],
                         IrRun(ir, loops, leaves, calls, j, st', n).st)
    {
      RunSplit(ir, loops, leaves, calls, i, st, k, n, j, st');
    }
  }

  /** Main result: in every run without signed overflow, wherever the analysis claims the first source of
      an instruction is not negative, it is not negative there. This is what the code for divisions and
      remainders relies on. */
  lemma AnalysisSound(c: Unit, icalls: IrCalls, args: Args, globals: Globals)
    requires Analysable(c.ir) && TailsOk(c) &&
             NoOverflowOnRun(c.ir, Loops(c), Leaves(c), icalls, 0, Entry(args, globals))
    requires forall i :: i in c.nonneg && i < |c.ir| ==>
               c.ir[i].src1.Local? && !c.ir[i].op.LABEL? && ClaimedNonneg(c.ir, c.ir[i].src1.name, i)
    ensures TrustOnRun(c, icalls, 0, Entry(args, globals))
  {
    hide EnteredByBranch, ChainsApart, NoOverflowOnRun, Sound, ClaimedNonneg, Loops, Leaves, IrRun, TailsOk, ChainFits;
    SoundAtStart(c.ir, args, globals);
    forall k: nat | IrRun(c.ir, Loops(c), Leaves(c), icalls, 0, Entry(args, globals), k).Goes?
      ensures var x := IrRun(c.ir, Loops(c), Leaves(c), icalls, 0, Entry(args, globals), k); TrustHere(c, x.i, x.st)
    {
      SoundOnRun(c.ir, Loops(c), Leaves(c), icalls, 0, Entry(args, globals), k);
      var x := IrRun(c.ir, Loops(c), Leaves(c), icalls, 0, Entry(args, globals), k);
      if x.i in c.nonneg && x.i < |c.ir| { ClaimHolds(c.ir, x.i, x.st, c.ir[x.i].src1.name); }
      NoOverflowLater(c.ir, Loops(c), Leaves(c), icalls, 0, Entry(args, globals), k, x.i, x.st);
      ChainAddition(c, icalls, x.i, x.st);
    }
  }

  /** A loop that is also entered past its opening BRANCH: the counter is claimed non-negative at line 5,
      where a run reads -5. */
  function SideEntry(): seq<IrInst>
  {
    var i, y, c, none := Local("i"), Local("y"), Local("c"), NoOperand;
    [IrInst(ASSIGN, i, Imm(-5), none), IrInst(BNEZ, Label("b"), Imm(1), none), IrInst(ASSIGN, i, Imm(0), none),
     IrInst(BRANCH, Label("c"), none, none), IrInst(LABEL, Label("b"), none, none), IrInst(DIV, y, i, Imm(4)),
     IrInst(ADD, i, i, Imm(1)), IrInst(LABEL, Label("c"), none, none), IrInst(LT, c, i, Imm(10)),
     IrInst(BNEZ, Label("b"), c, none)]
  }

  lemma SideEntryClaimed()
    ensures |SideEntry()| == 10 && ClaimedNonneg(SideEntry(), "i", 5) && !EnteredByBranch(SideEntry())
  {
    hide CounterLoop, ClaimedNonneg, InWindow, AlwaysNonneg, Successors;
    var ir := SideEntry();
    SideEntryLoop();
    SideEntrySeeded(ir);
    assert 4 in Successors(ir, 1) by { SideEntryJump(); }
  }

  lemma SideEntryLoop()
    ensures CounterLoop(SideEntry(), 3) == Some(Counter("i", 9))
  {
    var ir := SideEntry();
    assert FindLabel(ir, 7, "c") == 7 && FindLabel(ir, 6, "c") == 7 && FindLabel(ir, 5, "c") == 7;
    assert FindBranchBack(ir, 9, "b") == 9 && FindBranchBack(ir, 8, "b") == 9;
    assert StartsNonneg(ir, 3, "i");
  }

  lemma SideEntrySeeded(ir: seq<IrInst>)
    requires |ir| == 10 && CounterLoop(ir, 3) == Some(Counter("i", 9))
    ensures ClaimedNonneg(ir, "i", 5)
  {
    hide CounterLoop, InWindow, AlwaysNonneg;
    assert CountsAt(ir, "i", 5);
  }

  lemma SideEntryJump()
    ensures 4 in Successors(SideEntry(), 1)
  {
    LabelIsAt(SideEntry(), "b", 4, 10);
  }

  lemma SideEntryRuns(calls: IrCalls)
    ensures IrRun(SideEntry(), {}, {}, calls, 0, Entry(map[], map[]), 3) ==
            Goes(5, IrState(map[], map["i" := -5], map[], map[]))
  {
    var ir := SideEntry();
    LabelIsAt(ir, "b", 4, 10);
    var st0 := Entry(map[], map[]);
    var st := IrState(map[], map["i" := -5], map[], map[]);
    assert IrStep(ir, {}, calls, 0, st0) == Goes(1, st);
    assert IrStep(ir, {}, calls, 1, st) == Goes(4, st);
    assert IrStep(ir, {}, calls, 4, st) == Goes(5, st);
    hide IrStep;
    assert IrRun(ir, {}, {}, calls, 5, st, 0) == Goes(5, st);
    assert IrRun(ir, {}, {}, calls, 4, st, 1) == Goes(5, st);
    assert IrRun(ir, {}, {}, calls, 1, st, 2) == Goes(5, st);
  }
}
