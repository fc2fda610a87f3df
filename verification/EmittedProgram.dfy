/**
  The text actually emitted, after the peephole pass: one function, and whole programs. What is promised of it holds
  as long as no subtraction that the pass puts in place of a comparison overflows on the run.
 */
module EmittedProgram {
  import opened Word
  import opened Ir
  import opened IrFlow
  import opened IrMachine
  import opened Rv32
  import opened Frame
  import opened Control
  import opened Peephole
  import opened PeepholeProof
  import opened PeepholeRuns
  import opened Body
  import opened FunctionSim
  import opened TailCall
  import opened TextLive
  import opened TextExits
  import opened WholeProgram
  import Run = BodyRun
  import Sim = StepSim
  import Whole = FunctionExit

  function EmittedText(f: Compiled): seq<Instr> { Peep(Text(f)) }

  /** Calls carried out by the callees' emitted texts, nested to the given depth. */
  ghost function EmittedCall(prog: Program, depth: nat, name: string, s: State): State
    decreases depth, 0
  {
    if depth == 0 || name !in prog then Lost(s)
    else match Outcome(EmittedText(prog[name]), s, EmittedCalls(prog, depth - 1))
      case Exit(Returns, y) => y
      case Exit(JumpsOut(callee), y) => EmittedCall(prog, depth - 1, callee, y)
      case _ => Lost(s)
  }

  ghost function EmittedCalls(prog: Program, depth: nat): Calls
    decreases depth, 1
  {
    (name: string, s: State) => EmittedCall(prog, depth, name, s)
  }

  // --------------------------------------------------------------------------
  // Runs on which no subtraction overflows
  // --------------------------------------------------------------------------

  /** On the run of a call, before the pass, no comparison that becomes a subtraction overflows, nor in the calls it
      makes. */
  ghost predicate Fits(prog: Program, depth: nat, name: string, s: State)
    decreases depth, 1
  {
    depth == 0 || name !in prog || forall n: nat :: FitsAfter(prog, depth, name, s, n)
  }

  /** After n lines of that run. */
  ghost predicate FitsAfter(prog: Program, depth: nat, name: string, s: State, n: nat)
    requires depth > 0 && name in prog
    decreases depth, 0
  {
    match Exec(Text(prog[name]), Text(prog[name]), s, n, MachineCalls(prog, depth - 1))
    case At(k, t) => SubtractionFits(k, t) && (k != [] && k[0].Call? ==> Fits(prog, depth - 1, k[0].callee, t))
    case Exit(JumpsOut(f), t) => Fits(prog, depth - 1, f, t)
    case Exit(_, _) => true
  }

  // --------------------------------------------------------------------------
  // Where a run goes
  // --------------------------------------------------------------------------

  lemma {:induction false} RunStaysInText(p: seq<Instr>, k: seq<Instr>, s: State, n: nat, calls: Calls)
    requires IsSuffix(k, p) && Exec(p, k, s, n, calls).At?
    ensures IsSuffix(Exec(p, k, s, n, calls).k, p)
    decreases n
  {
    if n > 0 {
      StaysInText(p, k, s, calls);
      RunStaysInText(p, Advance(p, k, s, calls).k, Advance(p, k, s, calls).s, n - 1, calls);
    }
  }

  lemma StaysInText(p: seq<Instr>, k: seq<Instr>, s: State, calls: Calls)
    requires IsSuffix(k, p) && Advance(p, k, s, calls).At?
    ensures IsSuffix(Advance(p, k, s, calls).k, p)
  {
    hide Step, R;
    SuffixOfSuffix(k, p, 1);
    if k[0].J? || k[0].BrZ? || k[0].Br? { AfterSuffix(p, k[0].target); }
  }

  /** A text is left for another function at a line that jumps there. */
  lemma {:induction false} LeftAtJump(p: seq<Instr>, k: seq<Instr>, s: State, n: nat, calls: Calls)
    requires IsSuffix(k, p) && Exec(p, k, s, n, calls).Exit? && Exec(p, k, s, n, calls).how.JumpsOut?
    ensures var l := Exec(p, k, s, n, calls).how.target;
            !HasLabel(p, l) && exists i :: i in p && Jumps(i) && i.target == l
    decreases n
  {
    hide Step, R, HasLabel;
    var x := Advance(p, k, s, calls);
    if x.At? {
      StaysInText(p, k, s, calls);
      LeftAtJump(p, x.k, x.s, n - 1, calls);
    } else {
      assert k[0] == p[|p| - |k|];
      assert k[0] in p && Jumps(k[0]);
    }
  }

  // --------------------------------------------------------------------------
  // One text
  // --------------------------------------------------------------------------

  /** The plan fits the text, and is what the callers of this function and those it jumps to may rely on. */
  ghost predicate Planned(sigs: Sigs, name: string, p: seq<Instr>, pl: Plan)
  {
    && PlanFits(sigs, pl, p) && Ahead(sigs, pl, p) <= InRegs(sigs, name) && pl.ret == OutRegs(sigs, name)
    && LeavesAlike(sigs, name, p)
  }

  /** The same way out in agreeing states, or none. */
  ghost predicate OutcomesAgree(x: Next, y: Next, atExit: Exits)
  {
    match (x, y)
    case (Exit(how, s), Exit(how', t)) => how == how' && Agree(s, t, atExit(how))
    case (At(_, _), At(_, _)) => true
    case _ => false
  }

  lemma EntryAgrees(sigs: Sigs, name: string, p: seq<Instr>, pl: Plan, s: State, t: State)
    requires Ahead(sigs, pl, p) <= InRegs(sigs, name) && Agree(s, t, InRegs(sigs, name))
    ensures Agree(s, t, Live(sigs, pl, p)(|p|))
  {
    hide Ahead, R, Live, InRegs;
    LiveAt(sigs, pl, p, p);
  }

  /** A text leaves with the calls of one program as its emitted form does with those of the other. */
  lemma OutcomesAlike(sigs: Sigs, name: string, p: seq<Instr>, pl: Plan, s: State, t: State, a: Calls, b: Calls)
    requires Planned(sigs, name, p, pl) && Agree(s, t, InRegs(sigs, name)) && RunFits(p, p, s, Live(sigs, pl, p), a, b)
    ensures OutcomesAgree(Outcome(p, s, a), Outcome(Peep(p), t, b), ExitsOf(sigs, pl))
  {
    hide Exec, Peep, PlanFits, LeavesAlike, Agree, OutcomesAgree, Ahead, InRegs, OutRegs, RunFits, Prepared, Live,
         ExitsOf, Match;
    var live, exits := Live(sigs, pl, p), ExitsOf(sigs, pl);
    TextPrepared(sigs, pl, p);
    EntryAgrees(sigs, name, p, pl, s, t);
    if exists n: nat :: LeavesAfter(Peep(p), t, b, n) {
      var n: nat :| LeavesAfter(Peep(p), t, b, n);
      LeavesToo(p, s, t, live, exits, a, b, n);
    }
    if exists m: nat :: LeavesAfter(p, s, a, m) {
      var m: nat :| LeavesAfter(p, s, a, m);
      var n := OutputFollowsInput(p, p, s, t, m, live, exits, a, b);
      MatchedExit(p, Exec(p, p, s, m, a), Exec(Peep(p), Peep(p), t, n, b), live, exits);
      OneOutcome(p, s, a, m);
      OneOutcome(Peep(p), t, b, n);
    } else {
      NoOutcome(p, Peep(p), s, t, exits);
    }
  }

  lemma LeavesToo(p: seq<Instr>, s: State, t: State, live: Annotation, exits: Exits, a: Calls, b: Calls, n: nat)
    requires Prepared(p, live, exits) && Agree(s, t, live(|p|)) && RunFits(p, p, s, live, a, b) &&
             LeavesAfter(Peep(p), t, b, n)
    ensures exists m: nat :: LeavesAfter(p, s, a, m)
  {
    hide Exec, Peep, Agree, RunFits, Prepared, Match;
    var m := InputFollowsOutput(p, p, s, t, n, live, exits, a, b);
    MatchedExit(p, Exec(p, p, s, m, a), Exec(Peep(p), Peep(p), t, n, b), live, exits);
    assert LeavesAfter(p, s, a, m);
  }

  lemma MatchedExit(p: seq<Instr>, x: Next, y: Next, live: Annotation, exits: Exits)
    requires Match(p, x, y, live, exits) && (x.Exit? || y.Exit?)
    ensures x.Exit? && y.Exit? && OutcomesAgree(x, y, exits)
  {
    hide Agree;
  }

  lemma NoOutcome(p: seq<Instr>, q: seq<Instr>, s: State, t: State, exits: Exits)
    ensures OutcomesAgree(At(p, s), At(q, t), exits)
  {
  }

  lemma AgreesWithItself(s: State, regs: set<Reg>)
    ensures Agree(s, s, regs)
  {
  }

  // --------------------------------------------------------------------------
  // Whole programs
  // --------------------------------------------------------------------------

  ghost predicate TextsReady(prog: Program, sigs: Sigs)
  {
    forall name :: name in prog ==> exists pl :: Planned(sigs, name, Text(prog[name]), pl)
  }

  lemma LostAgree(sigs: Sigs, name: string, s: State, t: State)
    requires Agree(s, t, InRegs(sigs, name))
    ensures Agree(Lost(s), Lost(t), OutRegs(sigs, name))
  {
  }

  /** Every call on the run has its counterpart in the emitted program, by the theorem at the depth below. */
  lemma {:induction false} RunFollows(prog: Program, sigs: Sigs, depth: nat, name: string, pl: Plan, s: State)
    requires TextsReady(prog, sigs) && depth > 0 && name in prog && Planned(sigs, name, Text(prog[name]), pl)
    requires Fits(prog, depth, name, s)
    ensures var p := Text(prog[name]);
            RunFits(p, p, s, Live(sigs, pl, p), MachineCalls(prog, depth - 1), EmittedCalls(prog, depth - 1))
    decreases depth, 0
  {
    hide TextsReady, Exec, Text, PlanFits, LeavesAlike, Agree, Ahead, InRegs, OutRegs, CallFollows, SubtractionFits,
         Live, MachineCall, EmittedCall;
    var p, live := Text(prog[name]), Live(sigs, pl, Text(prog[name]));
    var a, b := MachineCalls(prog, depth - 1), EmittedCalls(prog, depth - 1);
    forall n: nat | Exec(p, p, s, n, a).At?
      ensures SubtractionFits(Exec(p, p, s, n, a).k, Exec(p, p, s, n, a).s)
      ensures CallFollows(Exec(p, p, s, n, a).k, Exec(p, p, s, n, a).s, live, a, b)
    {
      var x := Exec(p, p, s, n, a);
      assert FitsAfter(prog, depth, name, s, n);
      RunStaysInText(p, p, s, n, a);
      if x.k != [] && x.k[0].Call? {
        forall t | Agree(x.s, t, InRegs(sigs, x.k[0].callee))
          ensures Agree(a(x.k[0].callee, x.s), b(x.k[0].callee, t), OutRegs(sigs, x.k[0].callee))
        {
          CallAgrees(prog, sigs, depth - 1, x.k[0].callee, x.s, t);
        }
      }
      CallHere(sigs, pl, p, x.k, x.s, a, b);
    }
  }

  /**
    Main result: at every depth of calls, the emitted program leaves a call on whose run no subtraction overflows in a
    state that agrees with the one the program before the peephole pass leaves, on memory and on what the caller may
    read.
   */
  lemma {:induction false} CallAgrees(prog: Program, sigs: Sigs, depth: nat, name: string, s: State, t: State)
    requires TextsReady(prog, sigs) && Agree(s, t, InRegs(sigs, name)) && Fits(prog, depth, name, s)
    ensures Agree(MachineCall(prog, depth, name, s), EmittedCall(prog, depth, name, t), OutRegs(sigs, name))
    decreases depth, 1
  {
    hide Outcome, Agree, TextsReady, MachineCalls, EmittedCalls, Peep, Text, Fits, PlanFits, LeavesAlike, Ahead,
         InRegs, OutRegs, RunFits, Live, Exec, Lost;
    LostAgree(sigs, name, s, t);
    if depth > 0 && name in prog {
      var p := Text(prog[name]);
      var pl :| Planned(sigs, name, p, pl) by { ReadyAt(prog, sigs, name); }
      var a, b := MachineCalls(prog, depth - 1), EmittedCalls(prog, depth - 1);
      RunFollows(prog, sigs, depth, name, pl, s);
      OutcomesAlike(sigs, name, p, pl, s, t, a, b);
      var x, y := Outcome(p, s, a), Outcome(Peep(p), t, b);
      if x.Exit? && x.how.JumpsOut? {
        JumpFits(prog, sigs, depth, name, s);
        CallAgrees(prog, sigs, depth - 1, x.how.target, x.s, y.s);
      }
    }
  }

  lemma ReadyAt(prog: Program, sigs: Sigs, name: string)
    requires TextsReady(prog, sigs) && name in prog
    ensures exists pl :: Planned(sigs, name, Text(prog[name]), pl)
  {
  }

  /** A call that ends in a jump to another function goes on with a call that fits, of a function like it. */
  lemma JumpFits(prog: Program, sigs: Sigs, depth: nat, name: string, s: State)
    requires depth > 0 && name in prog && Fits(prog, depth, name, s) && LeavesAlike(sigs, name, Text(prog[name]))
    requires var x := Outcome(Text(prog[name]), s, MachineCalls(prog, depth - 1)); x.Exit? && x.how.JumpsOut?
    ensures var x := Outcome(Text(prog[name]), s, MachineCalls(prog, depth - 1));
            Fits(prog, depth - 1, x.how.target, x.s) && OutRegs(sigs, x.how.target) == OutRegs(sigs, name)
  {
    hide Exec, Text, OutRegs, MachineCalls;
    var p, calls := Text(prog[name]), MachineCalls(prog, depth - 1);
    var m: nat :| LeavesAfter(p, s, calls, m);
    OneOutcome(p, s, calls, m);
    assert FitsAfter(prog, depth, name, s, m);
    LeftAtJump(p, p, s, m, calls);
  }

  // --------------------------------------------------------------------------
  // What calls return
  // --------------------------------------------------------------------------

  /** A function returns a value where its signature says so, and ends only in calls that do as it does. */
  predicate Typed(sigs: Sigs, name: string, c: Unit)
  {
    && name in sigs && ReturnsAlike(c.ir, sigs[name].valued)
    && (forall i :: i in c.tails && i < |c.ir| ==>
          NameOf(c.ir[i].src1) in sigs && (sigs[NameOf(c.ir[i].src1)].valued <==> sigs[name].valued))
  }

  ghost predicate ProgramTyped(prog: Program, sigs: Sigs)
  {
    forall name :: name in prog ==> Typed(sigs, name, prog[name].c)
  }

  /** A run that comes to a value came to a return that has one. */
  lemma {:induction false} DoneValue(ir: seq<IrInst>, loops: set<nat>, leaves: set<nat>, icalls: IrCalls, i: nat,
                                     st: IrState,
                                     n: nat, valued: bool)
    requires ReturnsAlike(ir, valued) && IrRun(ir, loops, leaves, icalls, i, st, n).Done?
    requires IrRun(ir, loops, leaves, icalls, i, st, n).result.value.Some?
    ensures valued
    decreases n
  {
    hide Computes, IrMachine.Jump;
    match IrStep(ir, loops, icalls, i, st)
    case Goes(j, st') => DoneValue(ir, loops, leaves, icalls, j, st', n - 1, valued);
    case Done(_) => DoneAtReturn(ir, loops, icalls, i, st);
  }

  lemma DoneAtReturn(ir: seq<IrInst>, loops: set<nat>, icalls: IrCalls, i: nat, st: IrState)
    requires i < |ir| && IrStep(ir, loops, icalls, i, st).Done? && IrStep(ir, loops, icalls, i, st).result.value.Some?
    ensures ir[i].op.RETURN? && !ir[i].dest.NoOperand?
  {
    hide Computes, LabelPosition, ParamIndex;
  }

  lemma {:induction false} ValuedCall(prog: Program, sigs: Sigs, depth: nat, stack: nat, name: string, args: Args,
                                      globals: Globals)
    requires ProgramTyped(prog, sigs) && IrCall(prog, depth, stack, name, args, globals).Some?
    requires IrCall(prog, depth, stack, name, args, globals).value.value.Some?
    ensures name in sigs && sigs[name].valued
    decreases depth
  {
    hide Defined, IrRun, IrCallsAt, ReturnsAlike;
    var c := prog[name].c;
    var below := IrCallsAt(prog, depth - 1, stack - c.size);
    assert Typed(sigs, name, c);
    var n: nat :| Ends(c, below, args, globals, n) &&
                  IrCall(prog, depth, stack, name, args, globals) ==
                  match IrRun(c.ir, Sim.Loops(c), Sim.Leaves(c), below, 0, Entry(args, globals), n) {
                    case Done(r) => Some(r)
                    case Goes(i, st) => IrCall(prog, depth - 1, stack, NameOf(c.ir[i].src1), st.args, st.globals)
                    case Stuck => None
                  };
    match IrRun(c.ir, Sim.Loops(c), Sim.Leaves(c), below, 0, Entry(args, globals), n)
    case Done(r) => DoneValue(c.ir, Sim.Loops(c), Sim.Leaves(c), below, 0, Entry(args, globals), n, sigs[name].valued);
    case Goes(i, st) => ValuedCall(prog, sigs, depth - 1, stack, NameOf(c.ir[i].src1), st.args, st.globals);
  }

  /** What agrees with a finished call on what its caller may read has finished it too. */
  lemma DoneAgrees(sigs: Sigs, name: string, syms: map<string, i32>, r: CallResult, s: State, y: State, z: State)
    requires Sim.CallDone(syms, r, s, y) && Agree(y, z, OutRegs(sigs, name))
    requires r.value.Some? ==> name in sigs && sigs[name].valued
    ensures Sim.CallDone(syms, r, s, z) && R(z, Ra) == R(y, Ra)
  {
    hide R;
    forall n | n < 12 ensures R(z, S(n)) == R(s, S(n)) {
      assert S(n) in KEPT;
    }
    assert Sp in KEPT && Ra in KEPT;
    forall a ensures Load(z, a) == Load(y, a) {}
  }

  /**
    Main result: every call that has a result in the intermediate representation, at any depth and within the stack
    there is, is carried out by running the emitted texts, if no subtraction overflows on its run.
   */
  lemma EmittedCarried(prog: Program, sigs: Sigs, syms: map<string, i32>, lo: int, hi: int, room: int, depth: nat,
                       stack: nat,
                       name: string, s: State, args: Args, globals: Globals)
    requires ProgramOk(prog, syms, lo, hi, room) && StackLeft(lo, hi, room, stack, R(s, Sp))
    requires TextsReady(prog, sigs) && ProgramTyped(prog, sigs) && Fits(prog, depth, name, s)
    requires Sim.CallReady(syms, args, globals, s) && IrCall(prog, depth, stack, name, args, globals).Some?
    ensures Sim.CallDone(syms, IrCall(prog, depth, stack, name, args, globals).value, s,
                         EmittedCall(prog, depth, name, s))
  {
    hide ProgramOk, StackLeft, TextsReady, ProgramTyped, MachineCall, IrCall, R, Sim.CallDone, EmittedCall,
         Sim.CallReady, Agree, Fits, InRegs, OutRegs;
    CallCarried(prog, syms, lo, hi, room, depth, stack, name, s, args, globals);
    AgreesWithItself(s, InRegs(sigs, name));
    CallAgrees(prog, sigs, depth, name, s, s);
    var r := IrCall(prog, depth, stack, name, args, globals).value;
    if r.value.Some? { ValuedCall(prog, sigs, depth, stack, name, args, globals); }
    DoneAgrees(sigs, name, syms, r, s, MachineCall(prog, depth, name, s), EmittedCall(prog, depth, name, s));
  }

  // --------------------------------------------------------------------------
  // Texts in which nothing subtracts
  // --------------------------------------------------------------------------

  /** No comparison in the text becomes a subtraction. */
  ghost predicate NothingSubtracts(p: seq<Instr>) { forall k :: IsSuffix(k, p) ==> !MatchesNotLessImm(k) }

  /** Then nothing can overflow, on any run. */
  lemma {:induction false} FitsAlways(prog: Program, depth: nat, name: string, s: State)
    requires forall f :: f in prog ==> NothingSubtracts(Text(prog[f]))
    ensures Fits(prog, depth, name, s)
    decreases depth
  {
    hide MatchesNotLessImm, Exec, Text, MachineCalls;
    if depth > 0 && name in prog {
      var p, calls := Text(prog[name]), MachineCalls(prog, depth - 1);
      forall n: nat ensures FitsAfter(prog, depth, name, s, n) {
        match Exec(p, p, s, n, calls)
        case At(k, t) =>
          RunStaysInText(p, p, s, n, calls);
          if k != [] && k[0].Call? { FitsAlways(prog, depth - 1, k[0].callee, t); }
        case Exit(how, t) =>
          if how.JumpsOut? { FitsAlways(prog, depth - 1, how.target, t); }
      }
    }
  }

  // --------------------------------------------------------------------------
  // One function with whatever calls
  // --------------------------------------------------------------------------

  /** On the run from k the order comparisons that become subtractions do not overflow. */
  ghost predicate SubtractionsFit(p: seq<Instr>, k: seq<Instr>, s: State, calls: Calls)
  {
    forall n: nat :: Exec(p, k, s, n, calls).At? ==>
      SubtractionFits(Exec(p, k, s, n, calls).k, Exec(p, k, s, n, calls).s)
  }

  lemma AgreeingFollow(sigs: Sigs, pl: Plan, p: seq<Instr>, s: State, calls: Calls)
    requires PlanFits(sigs, pl, p) && Agreeing(sigs, calls, calls) && SubtractionsFit(p, p, s, calls)
    ensures RunFits(p, p, s, Live(sigs, pl, p), calls, calls)
  {
    hide PlanFits, Exec, SubtractionFits, CallFollows, Live, Agree, InRegs, OutRegs;
    forall n: nat | Exec(p, p, s, n, calls).At?
      ensures CallFollows(Exec(p, p, s, n, calls).k, Exec(p, p, s, n, calls).s, Live(sigs, pl, p), calls, calls)
    {
      RunStaysInText(p, p, s, n, calls);
      CallHere(sigs, pl, p, Exec(p, p, s, n, calls).k, Exec(p, p, s, n, calls).s, calls, calls);
    }
  }

  /** One function, emitted: entered as its callers enter it, it leaves as its text does before the pass. */
  lemma EmittedLeaves(sigs: Sigs, name: string, p: seq<Instr>, pl: Plan, calls: Calls, s: State, n: nat)
    returns (m: nat)
    requires Planned(sigs, name, p, pl) && Agreeing(sigs, calls, calls)
    requires SubtractionsFit(p, p, s, calls) && Exec(p, p, s, n, calls).Exit?
    ensures m <= n && OutcomesAgree(Exec(p, p, s, n, calls), Exec(Peep(p), Peep(p), s, m, calls), ExitsOf(sigs, pl))
  {
    hide Exec, Peep, PlanFits, LeavesAlike, Agreeing, SubtractionsFit, Live, Prepared, Agree, RunFits, ExitsOf,
         OutcomesAgree, Match;
    TextPrepared(sigs, pl, p);
    AgreesWithItself(s, Live(sigs, pl, p)(|p|));
    AgreeingFollow(sigs, pl, p, s, calls);
    m := OutputFollowsInput(p, p, s, s, n, Live(sigs, pl, p), ExitsOf(sigs, pl), calls, calls);
    MatchedExit(p, Exec(p, p, s, n, calls), Exec(Peep(p), Peep(p), s, m, calls), Live(sigs, pl, p), ExitsOf(sigs, pl));
  }

  /** With calls that depend on no more than a caller may hand over, and if no subtraction overflows, the emitted text
      of a function returns what the intermediate representation does. */
  lemma EmittedReturns(f: Compiled, sigs: Sigs, pl: Plan, calls: Calls, icalls: IrCalls, args: Args, genv: Globals,
                       s0: State, n: nat)
    returns (m: nat, y: State)
    requires FunctionOk(f.c, f.constants, f.globals, s0) && Planned(sigs, f.c.name, Text(f), pl) &&
             Agreeing(sigs, calls, calls)
    requires Sim.CallReady(s0.syms, args, genv, s0) && Sim.CallsMatch(calls, icalls, s0.syms, Whole.CallerSp(f.c, s0))
    requires Run.TrustOnRun(f.c, icalls, 0, Entry(args, genv)) && SubtractionsFit(Text(f), Text(f), s0, calls)
    requires IrRun(f.c.ir, Sim.Loops(f.c), Sim.Leaves(f.c), icalls, 0, Entry(args, genv), n).Done?
    requires Typed(sigs, f.c.name, f.c)
    ensures Exec(EmittedText(f), EmittedText(f), s0, m, calls) == Exit(Returns, y)
    ensures Sim.CallDone(s0.syms, IrRun(f.c.ir, Sim.Loops(f.c), Sim.Leaves(f.c), icalls, 0, Entry(args, genv),
                                        n).result, s0, y)
    ensures R(y, Ra) == R(s0, Ra)
  {
    hide Agreeing, Sim.CallReady, Sim.CallsMatch, Run.TrustOnRun, SubtractionsFit, IrRun, Exec, Sim.CallDone, R, Peep,
         FunctionCode, PlanFits, LeavesAlike, Ahead, InRegs, OutRegs, Agree, FunctionOk, ReturnsAlike;
    var before, z := Whole.FunctionReturns(f.c, f.constants, f.globals, calls, icalls, args, genv, s0, n);
    m := EmittedLeaves(sigs, f.c.name, Text(f), pl, calls, s0, before);
    y := Exec(EmittedText(f), EmittedText(f), s0, m, calls).s;
    var r := IrRun(f.c.ir, Sim.Loops(f.c), Sim.Leaves(f.c), icalls, 0, Entry(args, genv), n).result;
    if r.value.Some? {
      DoneValue(f.c.ir, Sim.Loops(f.c), Sim.Leaves(f.c), icalls, 0, Entry(args, genv), n, sigs[f.c.name].valued);
    }
    DoneAgrees(sigs, f.c.name, s0.syms, r, s0, z, y);
  }
}
