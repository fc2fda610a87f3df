/** Whole runs of a compiled body. */
module BodyRun {
  import opened Word
  import opened Ir
  import opened IrFlow
  import opened IrMachine
  import opened Rv32
  import opened Frame
  import opened Control
  import opened Liveness
  import opened Allocation
  import opened Compare
  import opened Remainder
  import opened NormRem
  import opened Body
  import opened PlainCode
  import opened Homes
  import opened BodyFlow
  import opened AllocSim
  import opened BodySim
  import opened ArgSim
  import opened StepSim
  import opened JumpSim
  import opened ChainSim

  // --------------------------------------------------------------------------
  // A comparison fused with its branch
  // --------------------------------------------------------------------------

  predicate Uses(inst: IrInst, v: string)
  {
    inst.src1 == Local(v) || inst.src2 == Local(v) || (ReadsDest(inst.op) && inst.dest == Local(v))
  }

  lemma {:induction false} UsesCounted(ir: seq<IrInst>, v: string, a: nat, n: nat)
    requires a < n <= |ir| && Uses(ir[a], v)
    ensures UseCount(ir, v, n) >= 1
  {
    if a < n - 1 { UsesCounted(ir, v, a, n - 1); }
  }

  lemma {:induction false} TwoUses(ir: seq<IrInst>, v: string, a: nat, b: nat, n: nat)
    requires a < b < n <= |ir| && Uses(ir[a], v) && Uses(ir[b], v)
    ensures UseCount(ir, v, n) >= 2
  {
    if b < n - 1 { TwoUses(ir, v, a, b, n - 1); } else { UsesCounted(ir, v, a, b); }
  }

  lemma OneUse(ir: seq<IrInst>, v: string, k: nat, u: nat)
    requires UseCount(ir, v, |ir|) == 1 && k < |ir| && u < |ir| && Uses(ir[k], v) && Uses(ir[u], v)
    ensures u == k
  {
    if u < k { TwoUses(ir, v, u, k, |ir|); }
    if u > k { TwoUses(ir, v, k, u, |ir|); }
  }

  /** A local defined at i and read only by the next line, which is no label, is dead after it. */
  lemma DeadAfter(ir: seq<IrInst>, i: nat, j: nat, d: string)
    requires i + 1 < |ir| && Defines(ir[i], d) && !ir[i + 1].op.LABEL? && j in Successors(ir, i + 1)
    requires forall u :: 0 <= u < |ir| && d in UsedLocals(ir[u]) ==> u == i + 1
    ensures !PathLive(ir, j, d)
  {
    if PathLive(ir, j, d) {
      var path :| UsePath(ir, d, path) && path[0] == j;
      hide Successors, UsedLocals, Defines;
      var n := |path|;
      assert path[n - 1] == i + 1;
      if n > 1 {
        assert path[(n - 2) + 1] in Successors(ir, path[n - 2]) && !Defines(ir[path[n - 2]], d);
        OnlyFromLineAbove(ir, path[n - 2], i + 1);
      }
      OnlyFromLineAbove(ir, i + 1, j);
    }
  }

  /** The result of a fused comparison is dead after its branch. */
  lemma FusedDead(c: Unit, i: nat, j: nat)
    requires FusedAt(c, i) && j in Successors(c.ir, i + 1)
    ensures !PathLive(c.ir, j, c.ir[i].dest.name)
  {
    hide PathLive, UseCount, Successors;
    var d := c.ir[i].dest.name;
    forall u | 0 <= u < |c.ir| && d in UsedLocals(c.ir[u]) ensures u == i + 1 {
      OneUse(c.ir, d, i + 1, u);
    }
    DeadAfter(c.ir, i, j, d);
  }

  /** The comparison's result is not stored, and nothing misses it. */
  lemma FusedLocals(c: Unit, h: Home, i: nat, j: nat, st: IrState, t: State, v: i32)
    requires FusedAt(c, i) && Follows(c.ir, i + 1, j) && c.ir[i + 1].dest.Label? && LocalsHold(c, h, i, st, t)
    ensures LocalsHold(c, h, j, Assign(st, c.ir[i].dest, v), t)
  {
    hide PathLive, HomePlace, FusedAt, FusesChain;
    FusedShape(c, i);
    var d := c.ir[i].dest;
    var st' := Assign(st, d, v);
    forall w | w in st'.locals && PathLive(c.ir, j, w) ensures Get(t, HomePlace(c.f, h, Local(w))) == st'.locals[w] {
      NothingLiveAtEnd(c.ir, w);
      if w == d.name { FusedDead(c, i, j); }
      PathBefore(c.ir, i + 1, j, w);
      PathBefore(c.ir, i, i + 1, w);
    }
  }

  lemma FusedShape(c: Unit, i: nat)
    requires FusedAt(c, i)
    ensures i + 1 < |c.ir| && CompareShaped(c.ir[i]) && c.ir[i].dest.Local?
    ensures (c.ir[i + 1].op.BEQZ? || c.ir[i + 1].op.BNEZ?) && c.ir[i + 1].src1 == c.ir[i].dest
    ensures i + 1 in Successors(c.ir, i)
  {
  }

  lemma StepFused(c: Unit, h: Home, p: seq<Instr>, before: seq<Instr>, calls: Calls, icalls: IrCalls, i: nat,
                  st: IrState, s: State,
                  v: i32)
    returns (m: nat, t: State)
    requires Setting(c, h, p, before, calls, icalls) && Related(c, h, i, st, s) && i < |c.ir| && FusedAt(c, i)
    requires Computes(c.ir[i], st) == Some(v) && c.ir[i + 1].dest.Label?
    requires (v == 0) == c.ir[i + 1].op.BEQZ? ==> LabelPosition(c.ir, c.ir[i + 1].dest.name).Somewhere?
    ensures Matches(c, h, p, calls, i, s, BranchTarget(c.ir, i + 1, v), Assign(st, c.ir[i].dest, v), m, t)
  {
    hide WellFormed, LayoutOk, GlobalsKnown, LocalsHold, ParamsHold, HasBody, FusedAt, FusesChain, Run, CompareCode,
         CallsMatch, TailsOk, BranchTarget, Exec, GlobalsHold, ArgsHold, FrameHeld, ConstantsHold, BranchTest, R, Val,
         Plain, Computes, Follows;
    var inst := c.ir[i];
    FusedShape(c, i);
    m, t := |CompareCode(c.f, inst, T(0))| + 1, Run(CompareCode(c.f, inst, T(0)), s);
    assert SameBut(s, t, false) && R(t, T(0)) == v by { FusedComputed(c, h, i, st, s, v); }
    RelatedSame(c, h, i, st, s, t);
    FusedLines(c, p, before, i, s, v, calls);
    var st' := Assign(st, inst.dest, v);
    var j := BranchTarget(c.ir, i + 1, v);
    BranchGoes(c.ir, i + 1, v);
    FusedLocals(c, h, i, j, st, t, v);
    assert GlobalsHold(c, h, st', t) && ArgsHold(c, h, st', t) by { OnlyLocals(c, h, st, st', t); }
    NoneLeft(c, i + 1, st', h, j, t);
  }

  lemma OnlyLocals(c: Unit, h: Home, st: IrState, st': IrState, t: State)
    requires GlobalsHold(c, h, st, t) && ArgsHold(c, h, st, t) && st'.globals == st.globals && st'.args == st.args
    ensures GlobalsHold(c, h, st', t) && ArgsHold(c, h, st', t)
  {
    hide HomePlace, HasCall, ArgPlace;
  }

  lemma BranchGoes(ir: seq<IrInst>, k: nat, v: i32)
    requires k < |ir| && (ir[k].op.BEQZ? || ir[k].op.BNEZ?) && ir[k].dest.Label?
    ensures var j := BranchTarget(ir, k, v); Follows(ir, k, j) && (j == k + 1 || (j < |ir| && ir[j].op.LABEL?))
    ensures !DeclaresParam(ir[k])
  {
  }

  lemma FusedComputed(c: Unit, h: Home, i: nat, st: IrState, s: State, v: i32)
    requires WellFormed(c) && GlobalsKnown(c, h) && Related(c, h, i, st, s) && i < |c.ir|
    requires CompareShaped(c.ir[i]) && Computes(c.ir[i], st) == Some(v)
    ensures var t := Run(CompareCode(c.f, c.ir[i], T(0)), s); SameBut(s, t, false) && R(t, T(0)) == v
  {
    hide WellFormed, GlobalsKnown, LocalsHold, ParamsHold, GlobalsHold, ArgsHold, FrameHeld, Run, CompareCode, R,
         OperandOk, Val, Compares, Known;
    var inst := c.ir[i];
    EvalIsVal(c, h, i, st, s, inst.src1);
    EvalIsVal(c, h, i, st, s, inst.src2);
    CompareCorrect(c.f, inst, T(0), s);
  }

  lemma FusedLines(c: Unit, p: seq<Instr>, before: seq<Instr>, i: nat, s: State, v: i32, calls: Calls)
    requires WellFormed(c) && HasBody(c, p, before) && FusedAt(c, i) && c.ir[i + 1].dest.Label?
    requires (v == 0) == c.ir[i + 1].op.BEQZ? ==> LabelPosition(c.ir, c.ir[i + 1].dest.name).Somewhere?
    requires R(Run(CompareCode(c.f, c.ir[i], T(0)), s), T(0)) == v
    ensures Exec(p, CodeFrom(c, i), s, |CompareCode(c.f, c.ir[i], T(0))| + 1, calls) ==
            At(CodeFrom(c, BranchTarget(c.ir, i + 1, v)), Run(CompareCode(c.f, c.ir[i], T(0)), s))
  {
    hide WellFormed, HasBody, FusedAt, FusesChain, Run, CompareCode, BranchTarget, Exec, BranchTest, R, Plain;
    FusedShape(c, i);
    var compare := CompareCode(c.f, c.ir[i], T(0));
    var rest := [BrZ(BranchTest(c.ir[i + 1].op), T(0), NameOf(c.ir[i + 1].dest))] + CodeFrom(c, i + 2);
    FusedHead(c, i);
    hide CodeFrom;
    assert CodeFrom(c, i) == compare + rest;
    ComparePlain(c.f, c.ir[i], T(0));
    assert forall x :: x in compare ==> IsStraight(x) by { PlainIsStraight(compare); }
    ExecStraight(p, compare, rest, s, calls);
    ExecSplit(p, compare + rest, s, |compare|, 1, calls);
    BranchLine(c, p, before, i + 1, T(0), v, Run(compare, s), calls);
  }

  // --------------------------------------------------------------------------
  // One step, whatever it is
  // --------------------------------------------------------------------------

  /** Positions a run can come to: not after a tail call, and not inside a fused pair or chain. */
  predicate OnPath(c: Unit, i: nat) { !AfterTail(c, i) && InText(c, i) }

  lemma LabelInText(c: Unit, j: nat)
    requires WellFormed(c) && j < |c.ir| && c.ir[j].op.LABEL?
    ensures InText(c, j)
  {
    hide CodeFrom, TablesFor, SavedCovers;
    LabelLands(c, 0, j);
    AfterSuffix(CodeFrom(c, 0), c.ir[j].dest.name);
  }

  lemma AfterSuffix(p: seq<Instr>, l: string)
    ensures forall i :: i in After(p, l) ==> i in p
  {
    AfterHead(p, l);
  }

  lemma NextInText(c: Unit, i: nat)
    requires InText(c, i) && i < |c.ir|
    ensures InText(c, i + if FusesChain(c, i) then ChainLength(c, i) else if FusedAt(c, i) then 2 else 1)
  {
    hide InstCode, FusedCode, ChainCode, ChainLength, FusedAt, FusesChain;
  }

  /** Code that follows a tail call is never reached. */
  lemma NotAfterTail(c: Unit, i: nat, j: nat)
    requires TailsOk(c) && i < |c.ir| && !AfterTail(c, i) && i !in c.tails
    requires j == i + 1 || (j < |c.ir| && c.ir[j].op.LABEL?)
    ensures !AfterTail(c, j)
  {
  }

  /** Every step that goes on is matched. */
  lemma StepMatches(c: Unit, h: Home, p: seq<Instr>, before: seq<Instr>, calls: Calls, icalls: IrCalls, i: nat,
                    st: IrState, s: State)
    returns (m: nat, t: State)
    requires Setting(c, h, p, before, calls, icalls) && Related(c, h, i, st, s) && i < |c.ir| && Alone(c, i)
    requires i !in Leaves(c) && NonnegHere(c, i, st) && InText(c, i)
    requires IrStep(c.ir, Loops(c), icalls, i, st).Goes?
    ensures var x := IrStep(c.ir, Loops(c), icalls, i, st); Matches(c, h, p, calls, i, s, x.i, x.st, m, t)
  {
    hide Setting, Related, Matches, FusedAt, FusesChain, Computes, Eval, NonnegHere, InText;
    var inst := c.ir[i];
    match inst.op
    case BRANCH => m, t := StepJump(c, h, p, before, calls, icalls, i, st, s);
    case BEQZ => m, t := StepBranch(c, h, p, before, calls, icalls, i, st, s, Eval(st, inst.src1).value);
    case BNEZ => m, t := StepBranch(c, h, p, before, calls, icalls, i, st, s, Eval(st, inst.src1).value);
    case PARAM => m, t := StepArg(c, h, p, before, calls, icalls, i, st, s);
    case CALL =>
      if i in Loops(c) {
        m, t := StepLoop(c, h, p, before, calls, icalls, i, st, s);
      } else {
        m, t := StepCall(c, h, p, before, calls, icalls, i, st, s, icalls(inst.src1.name, st.args, st.globals).value);
      }
    case LOCAL_VAR_DECL =>
      if !inst.dest.Local? {
        m, t := StepSkip(c, h, p, before, calls, icalls, i, st, s);
      } else if inst.src1.Param? {
        assert ParamIndex(c.ir, i) == i by { SettingIndex(c, h, p, before, calls, icalls, i); }
        m, t := StepDeclare(c, h, p, before, calls, icalls, i, st, s);
      } else if inst.src1.NoOperand? {
        m, t := StepForget(c, h, p, before, calls, icalls, i, st, s);
      } else {
        m, t := StepValue(c, h, p, before, calls, icalls, i, st, s);
      }
    case LABEL => m, t := StepSkip(c, h, p, before, calls, icalls, i, st, s);
    case FUNC_BEGIN => m, t := StepSkip(c, h, p, before, calls, icalls, i, st, s);
    case FUNC_END => m, t := StepSkip(c, h, p, before, calls, icalls, i, st, s);
    case GLOBAL_VAR_DECL => m, t := StepSkip(c, h, p, before, calls, icalls, i, st, s);
    case _ => m, t := StepValue(c, h, p, before, calls, icalls, i, st, s);
  }

  lemma SettingIndex(c: Unit, h: Home, p: seq<Instr>, before: seq<Instr>, calls: Calls, icalls: IrCalls, i: nat)
    requires Setting(c, h, p, before, calls, icalls) && i < |c.ir| && DeclaresParam(c.ir[i])
    ensures ParamIndex(c.ir, i) == i
  {
    hide WellFormed, LayoutOk, GlobalsKnown, TailsOk, HasBody, CallsMatch;
    DeclIndex(c, i);
  }

  // --------------------------------------------------------------------------
  // Whole runs
  // --------------------------------------------------------------------------

  /** What the non-negativity analysis promises of a state the run comes to at i, and what a chain that
      becomes a single remainder needs of it. */
  predicate TrustHere(c: Unit, i: nat, st: IrState) { NonnegHere(c, i, st) && ChainFits(c, i, st) }

  ghost predicate TrustOnRun(c: Unit, icalls: IrCalls, i: nat, st: IrState)
  {
    forall k: nat :: IrRun(c.ir, Loops(c), Leaves(c), icalls, i, st, k).Goes? ==>
      TrustHere(c, IrRun(c.ir, Loops(c), Leaves(c), icalls, i, st, k).i,
                IrRun(c.ir, Loops(c), Leaves(c), icalls, i, st, k).st)
  }

  lemma TrustNext(c: Unit, icalls: IrCalls, i: nat, st: IrState)
    requires i < |c.ir| && i !in Leaves(c) && TrustOnRun(c, icalls, i, st)
    requires IrStep(c.ir, Loops(c), icalls, i, st).Goes?
    ensures TrustHere(c, i, st)
    ensures var x := IrStep(c.ir, Loops(c), icalls, i, st); TrustOnRun(c, icalls, x.i, x.st)
  {
    hide IrStep, TrustHere, Loops, Leaves;
    assert IrRun(c.ir, Loops(c), Leaves(c), icalls, i, st, 0) == Goes(i, st);
    var x := IrStep(c.ir, Loops(c), icalls, i, st);
    forall k: nat | IrRun(c.ir, Loops(c), Leaves(c), icalls, x.i, x.st, k).Goes?
      ensures TrustHere(c, IrRun(c.ir, Loops(c), Leaves(c), icalls, x.i, x.st, k).i,
                           IrRun(c.ir, Loops(c), Leaves(c), icalls, x.i, x.st, k).st)
    {
      assert IrRun(c.ir, Loops(c), Leaves(c), icalls, i, st, k + 1) ==
             IrRun(c.ir, Loops(c), Leaves(c), icalls, x.i, x.st, k);
    }
  }

  /** Inside a chain, and between a comparison and the branch it was fused with, there is no machine
      position. */
  predicate MidFused(c: Unit, j: nat)
  {
    (j > 0 && FusedAt(c, j - 1)) || exists i :: 0 <= i < j && FusesChain(c, i) && j < i + ChainLength(c, i)
  }

  ghost predicate RunMatched(c: Unit, h: Home, p: seq<Instr>, calls: Calls, i: nat, s: State, x: IrNext, m: nat,
                             t: State)
  {
    match x
    case Done(r) => Exec(p, CodeFrom(c, i), s, m, calls) == Control.At(c.after, t) && ExitHolds(c, h, r, t)
    case Goes(j, st) => MidFused(c, j) || Matches(c, h, p, calls, i, s, j, st, m, t)
    case Stuck => true
  }

  lemma Compose(c: Unit, h: Home, p: seq<Instr>, calls: Calls, i: nat, s: State, j: nat, st: IrState, m: nat, t: State,
                x: IrNext, m': nat, t': State)
    requires Matches(c, h, p, calls, i, s, j, st, m, t) && RunMatched(c, h, p, calls, j, t, x, m', t')
    ensures RunMatched(c, h, p, calls, i, s, x, m + m', t')
  {
    hide CodeFrom, Exec, Related, ExitHolds, MidFused;
    ExecSplit(p, CodeFrom(c, i), s, m, m', calls);
  }

  /** Main result: the compiled body follows every run of the intermediate representation, its loops,
      calls and self tail calls included. Wherever the run is, every live local, every global, every
      staged argument and every constant is in its home; where it returns, the result is in a0. */
  lemma {:induction false} BodyFollows(c: Unit, h: Home, p: seq<Instr>, before: seq<Instr>, calls: Calls,
                                       icalls: IrCalls,
                                       i: nat, st: IrState, s: State, n: nat)
    returns (m: nat, t: State)
    requires Setting(c, h, p, before, calls, icalls) && Related(c, h, i, st, s) && OnPath(c, i) && ChainsSafe(c)
    requires TrustOnRun(c, icalls, i, st)
    ensures RunMatched(c, h, p, calls, i, s, IrRun(c.ir, Loops(c), Leaves(c), icalls, i, st, n), m, t)
    decreases n
  {
    hide Setting, Related, IrStep, Loops, Leaves, FusedAt, FusesChain, AfterTail, InText, TrustOnRun, IrRun,
         RunMatched, CodeFrom, Exec, ExitHolds;
    m, t := 0, s;
    if n == 0 || i in Leaves(c) || i >= |c.ir| {
      NoStep(c, h, p, calls, icalls, i, st, s, n);
      return;
    }
    if FusesChain(c, i) {
      m, t := ChainStep(c, h, p, before, calls, icalls, i, st, s, n);
      return;
    }
    if FusedAt(c, i) {
      m, t := FusedRun(c, h, p, before, calls, icalls, i, st, s, n);
      return;
    }
    RunUnfold(c, icalls, i, st, n);
    match IrStep(c.ir, Loops(c), icalls, i, st)
    case Stuck =>
      StuckMatched(c, h, p, calls, i, s, m, t);
    case Done(r) =>
      ReturnStep(c, icalls, i, st);
      m, t := StepReturn(c, h, p, before, calls, icalls, i, st, s);
      DoneMatched(c, h, p, calls, i, s, r, m, t);
    case Goes(j, st') =>
      TrustNext(c, icalls, i, st);
      var m1, t1 := StepMatches(c, h, p, before, calls, icalls, i, st, s);
      assert OnPath(c, j) by { ReachedByStep(c, h, p, before, calls, icalls, i, st); }
      var m2, t2 := BodyFollows(c, h, p, before, calls, icalls, j, st', t1, n - 1);
      Compose(c, h, p, calls, i, s, j, st', m1, t1, IrRun(c.ir, Loops(c), Leaves(c), icalls, j, st', n - 1), m2, t2);
      m, t := m1 + m2, t2;
  }

  lemma RunUnfold(c: Unit, icalls: IrCalls, i: nat, st: IrState, n: nat)
    requires n > 0 && i < |c.ir| && i !in Leaves(c)
    ensures IrRun(c.ir, Loops(c), Leaves(c), icalls, i, st, n) ==
            match IrStep(c.ir, Loops(c), icalls, i, st) {
              case Goes(j, st') => IrRun(c.ir, Loops(c), Leaves(c), icalls, j, st', n - 1)
              case x => x
            }
  {
    hide IrStep, Loops, Leaves;
  }

  lemma StuckMatched(c: Unit, h: Home, p: seq<Instr>, calls: Calls, i: nat, s: State, m: nat, t: State)
    ensures RunMatched(c, h, p, calls, i, s, Stuck, m, t)
  {
  }

  lemma DoneMatched(c: Unit, h: Home, p: seq<Instr>, calls: Calls, i: nat, s: State, r: CallResult, m: nat, t: State)
    requires Exec(p, CodeFrom(c, i), s, m, calls) == Control.At(c.after, t) && ExitHolds(c, h, r, t)
    ensures RunMatched(c, h, p, calls, i, s, Done(r), m, t)
  {
  }

  /** Where no step is taken, the machine takes none. */
  lemma NoStep(c: Unit, h: Home, p: seq<Instr>, calls: Calls, icalls: IrCalls, i: nat, st: IrState, s: State, n: nat)
    requires Related(c, h, i, st, s) && (n == 0 || i in Leaves(c) || i >= |c.ir|)
    ensures RunMatched(c, h, p, calls, i, s, IrRun(c.ir, Loops(c), Leaves(c), icalls, i, st, n), 0, s)
  {
    hide Related, Loops, Leaves, ExitHolds, IrStep, FusedAt, FusesChain;
    EndHolds(c, h, i, st, s);
  }

  lemma EndHolds(c: Unit, h: Home, i: nat, st: IrState, s: State)
    requires Related(c, h, i, st, s)
    ensures ExitHolds(c, h, CallResult(None, st.globals), s)
  {
    hide HomePlace, Protected;
  }

  lemma ReturnStep(c: Unit, icalls: IrCalls, i: nat, st: IrState)
    requires i < |c.ir| && IrStep(c.ir, Loops(c), icalls, i, st).Done?
    ensures c.ir[i].op.RETURN? && (c.ir[i].dest.NoOperand? || Eval(st, c.ir[i].dest).Some?)
    ensures IrStep(c.ir, Loops(c), icalls, i, st).result ==
            CallResult(if c.ir[i].dest.NoOperand? then None else Some(Eval(st, c.ir[i].dest).value), st.globals)
  {
    hide Loops;
  }

  lemma ReachedByStep(c: Unit, h: Home, p: seq<Instr>, before: seq<Instr>, calls: Calls, icalls: IrCalls, i: nat,
                      st: IrState)
    requires Setting(c, h, p, before, calls, icalls) && i < |c.ir| && Alone(c, i) && i !in Leaves(c) && OnPath(c, i)
    requires IrStep(c.ir, Loops(c), icalls, i, st).Goes?
    ensures OnPath(c, IrStep(c.ir, Loops(c), icalls, i, st).i)
  {
    hide WellFormed, LayoutOk, GlobalsKnown, HasBody, CallsMatch, InText, FusedAt, FusesChain, IrStep, Loops, Leaves;
    var j := IrStep(c.ir, Loops(c), icalls, i, st).i;
    StepGoesOn(c, icalls, i, st);
    if i in c.tails {
      assert i in Loops(c) by { TailLoops(c, i); }
      FirstInText(c);
    } else {
      NotAfterTail(c, i, j);
      NextInText(c, i);
      if j != i + 1 { LabelInText(c, j); }
    }
  }

  lemma FirstInText(c: Unit)
    ensures InText(c, 0)
  {
  }

  lemma TailLoops(c: Unit, i: nat)
    requires i in c.tails && i !in Leaves(c)
    ensures i in Loops(c)
  {
  }

  lemma StepGoesOn(c: Unit, icalls: IrCalls, i: nat, st: IrState)
    requires i < |c.ir| && IrStep(c.ir, Loops(c), icalls, i, st).Goes?
    ensures var j := IrStep(c.ir, Loops(c), icalls, i, st).i;
            if i in Loops(c) && c.ir[i].op.CALL? then j == 0 else j == i + 1 || (j < |c.ir| && c.ir[j].op.LABEL?)
    ensures i in Loops(c) ==> i in c.tails
    ensures i in Loops(c) && TailsOk(c) ==> c.ir[i].op.CALL?
  {
    hide Computes;
  }

  /** A fused pair takes two steps at once. */
  lemma {:induction false} FusedRun(c: Unit, h: Home, p: seq<Instr>, before: seq<Instr>, calls: Calls, icalls: IrCalls,
                                    i: nat, st: IrState, s: State, n: nat)
    returns (m: nat, t: State)
    requires Setting(c, h, p, before, calls, icalls) && Related(c, h, i, st, s) && OnPath(c, i)
    requires TrustOnRun(c, icalls, i, st) && FusedAt(c, i) && i !in Leaves(c) && n > 0 && ChainsSafe(c)
    ensures RunMatched(c, h, p, calls, i, s, IrRun(c.ir, Loops(c), Leaves(c), icalls, i, st, n), m, t)
    decreases n, 0
  {
    hide Setting, Related, IrStep, Loops, Leaves, FusedAt, FusesChain, AfterTail, InText, TrustOnRun, BranchTarget,
         Computes, IrRun, RunMatched, CodeFrom, Exec;
    FusedShape(c, i);
    FusedFirst(c, icalls, i, st);
    RunUnfold(c, icalls, i, st, n);
    m, t := 0, s;
    if Computes(c.ir[i], st).None? {
      StuckMatched(c, h, p, calls, i, s, m, t);
      return;
    }
    var v := Computes(c.ir[i], st).value;
    var st' := Assign(st, c.ir[i].dest, v);
    FusedSecond(c, h, p, before, calls, icalls, i, st', v);
    if n == 1 {
      PairCut(c, h, p, calls, icalls, i, st', s);
      return;
    }
    RunUnfold(c, icalls, i + 1, st', n - 1);
    if IrStep(c.ir, Loops(c), icalls, i + 1, st').Stuck? {
      StuckMatched(c, h, p, calls, i, s, m, t);
      return;
    }
    var j := BranchTarget(c.ir, i + 1, v);
    TrustNext(c, icalls, i, st);
    TrustNext(c, icalls, i + 1, st');
    var m1, t1 := StepFused(c, h, p, before, calls, icalls, i, st, s, v);
    assert OnPath(c, j) by { FusedReached(c, h, p, before, calls, icalls, i, v); }
    var m2, t2 := BodyFollows(c, h, p, before, calls, icalls, j, st', t1, n - 2);
    Compose(c, h, p, calls, i, s, j, st', m1, t1, IrRun(c.ir, Loops(c), Leaves(c), icalls, j, st', n - 2), m2, t2);
    m, t := m1 + m2, t2;
  }

  /** A fused chain takes its instructions all at once. */
  lemma {:induction false} ChainStep(c: Unit, h: Home, p: seq<Instr>, before: seq<Instr>, calls: Calls, icalls: IrCalls,
                                     i: nat, st: IrState, s: State, n: nat)
    returns (m: nat, t: State)
    requires Setting(c, h, p, before, calls, icalls) && Related(c, h, i, st, s) && OnPath(c, i) && ChainsSafe(c)
    requires TrustOnRun(c, icalls, i, st) && FusesChain(c, i) && i !in Leaves(c) && n > 0
    ensures RunMatched(c, h, p, calls, i, s, IrRun(c.ir, Loops(c), Leaves(c), icalls, i, st, n), m, t)
    decreases n, 0
  {
    hide Setting, Related, IrStep, Loops, Leaves, FusesChain, AfterTail, InText, TrustOnRun, IrRun, RunMatched,
         CodeFrom, Exec, ChainAt, ChainLength, ChainSafe, Eval, Matches;
    ChainFacts(c, i);
    m, t := 0, s;
    if Eval(st, ChainAt(c, i).source).None? {
      ChainStuck(c, icalls, i, st, n);
      StuckMatched(c, h, p, calls, i, s, m, t);
      return;
    }
    assert ChainSafe(c, i);
    TrustNow(c, icalls, i, st);
    var k := ChainLength(c, i);
    var st', m1, t1 := StepChain(c, h, p, before, calls, icalls, i, st, s);
    if n < k {
      ChainCut(c, h, p, calls, icalls, i, st, s, n, st');
      return;
    }
    RunSplit(c.ir, Loops(c), Leaves(c), icalls, i, st, k, n - k, i + k, st');
    TrustLater(c, icalls, i, st, k, i + k, st');
    assert OnPath(c, i + k) by { ChainNoTail(c, h, p, before, calls, icalls, i); }
    assert Related(c, h, i + k, st', t1) by { MatchesRelated(c, h, p, calls, i, s, i + k, st', m1, t1); }
    var m2, t2 := BodyFollows(c, h, p, before, calls, icalls, i + k, st', t1, n - k);
    Compose(c, h, p, calls, i, s, i + k, st', m1, t1, IrRun(c.ir, Loops(c), Leaves(c), icalls, i + k, st', n - k), m2,
            t2);
    m, t := m1 + m2, t2;
  }

  lemma MatchesRelated(c: Unit, h: Home, p: seq<Instr>, calls: Calls, i: nat, s: State, j: nat, st: IrState, m: nat,
                       t: State)
    requires Matches(c, h, p, calls, i, s, j, st, m, t)
    ensures Related(c, h, j, st, t)
  {
  }

  lemma TrustNow(c: Unit, icalls: IrCalls, i: nat, st: IrState)
    requires TrustOnRun(c, icalls, i, st)
    ensures NonnegHere(c, i, st) && ChainFits(c, i, st)
  {
    hide NonnegHere, ChainFits, IrStep, Loops, Leaves;
    assert IrRun(c.ir, Loops(c), Leaves(c), icalls, i, st, 0) == Goes(i, st);
  }

  lemma TrustLater(c: Unit, icalls: IrCalls, i: nat, st: IrState, k: nat, j: nat, st': IrState)
    requires TrustOnRun(c, icalls, i, st) && IrRun(c.ir, Loops(c), Leaves(c), icalls, i, st, k) == Goes(j, st')
    ensures TrustOnRun(c, icalls, j, st')
  {
    hide TrustHere, IrRun, Loops, Leaves;
    forall n: nat | IrRun(c.ir, Loops(c), Leaves(c), icalls, j, st', n).Goes?
      ensures TrustHere(c, IrRun(c.ir, Loops(c), Leaves(c), icalls, j, st', n).i,
                           IrRun(c.ir, Loops(c), Leaves(c), icalls, j, st', n).st)
    {
      RunSplit(c.ir, Loops(c), Leaves(c), icalls, i, st, k, n, j, st');
    }
  }

  /** Without a dividend the chain is stuck at once. */
  lemma ChainStuck(c: Unit, icalls: IrCalls, i: nat, st: IrState, n: nat)
    requires FusesChain(c, i) && Eval(st, ChainAt(c, i).source).None? && n > 0 && i !in Leaves(c)
    ensures IrRun(c.ir, Loops(c), Leaves(c), icalls, i, st, n).Stuck?
  {
    hide Loops, Leaves, FusesChain, MatchNormalized, Eval;
    ChainFacts(c, i);
    ChainLines(c.ir, i, i);
    assert Computes(c.ir[i], st).None?;
    assert IrStep(c.ir, Loops(c), icalls, i, st).Stuck?;
  }

  lemma {:induction false} ChainCut(c: Unit, h: Home, p: seq<Instr>, calls: Calls, icalls: IrCalls, i: nat, st: IrState,
                                    s: State, n: nat,
                                    st': IrState)
    requires FusesChain(c, i) && 0 < n < ChainLength(c, i)
    requires IrRun(c.ir, Loops(c), Leaves(c), icalls, i, st, ChainLength(c, i)) == Goes(i + ChainLength(c, i), st')
    ensures RunMatched(c, h, p, calls, i, s, IrRun(c.ir, Loops(c), Leaves(c), icalls, i, st, n), 0, s)
  {
    hide FusesChain, ChainLength, Matches, IrRun, Loops, Leaves;
    ChainPositions(c, icalls, i, st, n, st');
  }

  /** After n instructions of a chain that runs through, control is n lines below its start. */
  lemma {:induction false} ChainPositions(c: Unit, icalls: IrCalls, i: nat, st: IrState, n: nat, st': IrState)
    requires FusesChain(c, i) && n <= ChainLength(c, i)
    requires IrRun(c.ir, Loops(c), Leaves(c), icalls, i, st, ChainLength(c, i)) == Goes(i + ChainLength(c, i), st')
    ensures IrRun(c.ir, Loops(c), Leaves(c), icalls, i, st, n).Goes? &&
            IrRun(c.ir, Loops(c), Leaves(c), icalls, i, st, n).i == i + n
  {
    hide FusesChain, ChainLength, Loops, Leaves, IrStep;
    var k := ChainLength(c, i);
    if n == 0 {
      assert IrRun(c.ir, Loops(c), Leaves(c), icalls, i, st, 0) == Goes(i, st);
    } else {
      ChainPositions(c, icalls, i, st, n - 1, st');
      var x := IrRun(c.ir, Loops(c), Leaves(c), icalls, i, st, n - 1);
      hide IrRun;
      RunSplit(c.ir, Loops(c), Leaves(c), icalls, i, st, n - 1, 1, x.i, x.st);
      RunSplit(c.ir, Loops(c), Leaves(c), icalls, i, st, n - 1, k - (n - 1), x.i, x.st);
      ChainLineStep(c, icalls, i, x.i, x.st, k - (n - 1));
    }
  }

  lemma ChainLineStep(c: Unit, icalls: IrCalls, i: nat, j: nat, st: IrState, n: nat)
    requires FusesChain(c, i) && i <= j < i + ChainLength(c, i) && n > 0
    requires IrRun(c.ir, Loops(c), Leaves(c), icalls, j, st, n).Goes? &&
             IrRun(c.ir, Loops(c), Leaves(c), icalls, j, st, n).i != j
    ensures IrRun(c.ir, Loops(c), Leaves(c), icalls, j, st, 1).Goes? &&
            IrRun(c.ir, Loops(c), Leaves(c), icalls, j, st, 1).i == j + 1
  {
    hide Loops, Leaves, FusesChain, MatchNormalized, Computes;
    ChainFacts(c, i);
    ChainLines(c.ir, i, j);
    var x := IrStep(c.ir, Loops(c), icalls, j, st);
    assert x.Stuck? || (x.Goes? && x.i == j + 1);
    if x.Goes? { assert IrRun(c.ir, Loops(c), Leaves(c), icalls, x.i, x.st, 0) == Goes(x.i, x.st); }
  }

  /** No tail call lies in a chain. */
  lemma ChainNoTail(c: Unit, h: Home, p: seq<Instr>, before: seq<Instr>, calls: Calls, icalls: IrCalls, i: nat)
    requires Setting(c, h, p, before, calls, icalls) && FusesChain(c, i) && OnPath(c, i)
    ensures OnPath(c, i + ChainLength(c, i))
  {
    hide WellFormed, LayoutOk, GlobalsKnown, HasBody, CallsMatch, FusesChain, MatchNormalized, InText;
    ChainFacts(c, i);
    NextInText(c, i);
    forall t | t in c.tails ensures !(t < i + ChainLength(c, i)) {
      if i <= t < i + ChainLength(c, i) { ChainLines(c.ir, i, t); }
    }
  }

  lemma PairCut(c: Unit, h: Home, p: seq<Instr>, calls: Calls, icalls: IrCalls, i: nat, st: IrState, s: State)
    requires FusedAt(c, i)
    ensures RunMatched(c, h, p, calls, i, s, IrRun(c.ir, Loops(c), Leaves(c), icalls, i + 1, st, 0), 0, s)
  {
    hide FusedAt, FusesChain, Matches, Loops, Leaves, IrStep;
  }

  lemma FusedFirst(c: Unit, icalls: IrCalls, i: nat, st: IrState)
    requires FusedAt(c, i)
    ensures IrStep(c.ir, Loops(c), icalls, i, st) ==
            if Computes(c.ir[i], st).None? then Stuck
              else Goes(i + 1, Assign(st, c.ir[i].dest, Computes(c.ir[i], st).value))
  {
    hide Computes, Loops, UseCount;
  }

  lemma FusedSecond(c: Unit, h: Home, p: seq<Instr>, before: seq<Instr>, calls: Calls, icalls: IrCalls, i: nat,
                    st: IrState, v: i32)
    requires Setting(c, h, p, before, calls, icalls) && FusedAt(c, i)
    requires c.ir[i].dest.Local? && c.ir[i].dest.name in st.locals && st.locals[c.ir[i].dest.name] == v
    ensures i + 1 !in Leaves(c)
    ensures var x := IrStep(c.ir, Loops(c), icalls, i + 1, st);
            x.Stuck? ||
            (c.ir[i + 1].dest.Label? && x == Goes(BranchTarget(c.ir, i + 1, v), st) &&
             ((v == 0) == c.ir[i + 1].op.BEQZ? ==> LabelPosition(c.ir, c.ir[i + 1].dest.name).Somewhere?))
  {
    hide WellFormed, LayoutOk, GlobalsKnown, HasBody, CallsMatch, UseCount;
  }

  lemma FusedReached(c: Unit, h: Home, p: seq<Instr>, before: seq<Instr>, calls: Calls, icalls: IrCalls, i: nat, v: i32)
    requires Setting(c, h, p, before, calls, icalls) && FusedAt(c, i) && OnPath(c, i) && c.ir[i + 1].dest.Label?
    requires (v == 0) == c.ir[i + 1].op.BEQZ? ==> LabelPosition(c.ir, c.ir[i + 1].dest.name).Somewhere?
    ensures OnPath(c, BranchTarget(c.ir, i + 1, v))
  {
    hide WellFormed, LayoutOk, GlobalsKnown, HasBody, CallsMatch, UseCount, InText, FusesChain, BranchTarget;
    NotAfterTail(c, i, i + 1);
    BranchGoes(c.ir, i + 1, v);
    NotAfterTail(c, i + 1, BranchTarget(c.ir, i + 1, v));
    NoChainAtCompare(c, i);
    NextInText(c, i);
    if BranchTarget(c.ir, i + 1, v) != i + 2 { LabelInText(c, BranchTarget(c.ir, i + 1, v)); }
  }
}
