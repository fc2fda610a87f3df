/**
  Whole programs: every function compiled, every call carried out by the callee's own compiled text. What a
  function assumes of its calls at one depth is proved of its callees at the depth below, within the stack there is.
 */
module WholeProgram {
  import opened Word
  import opened Ir
  import opened IrFlow
  import opened IrMachine
  import opened Rv32
  import opened Frame
  import opened Control
  import opened FrameCode
  import opened FrameLayout
  import opened Body
  import opened Homes
  import opened StepSim
  import opened ChainSim
  import opened BodyRun
  import opened FunctionSim
  import opened FunctionExit
  import opened NonNeg
  import opened NonNegSound
  import opened TailCall

  /** A compiled function, with the orders in which its cached constants and globals are loaded. */
  datatype Compiled = Compiled(c: Unit, constants: seq<i32>, globals: seq<string>)

  type Program = map<string, Compiled>

  function Text(f: Compiled): seq<Instr> { FunctionCode(f.c, f.constants, f.globals) }

  // ---- the machine ----

  ghost predicate LeavesAfter(p: seq<Instr>, s: State, calls: Calls, m: nat) { Exec(p, p, s, m, calls).Exit? }

  /** Where a text entered at its first line leaves, if it ever does. */
  ghost function Outcome(p: seq<Instr>, s: State, calls: Calls): Next
  {
    if exists m: nat :: LeavesAfter(p, s, calls, m) then
      var m: nat :| LeavesAfter(p, s, calls, m); Exec(p, p, s, m, calls)
    else At(p, s)
  }

  /** What is made of a call that does not come back: there is no result. */
  function Lost(s: State): State { W(s, A(0), 0) }

  /** Calls carried out by the callees' texts, nested to the given depth; a jump to another function's name
      enters that function. */
  ghost function MachineCall(prog: Program, depth: nat, name: string, s: State): State
    decreases depth, 0
  {
    if depth == 0 || name !in prog then Lost(s)
    else match Outcome(Text(prog[name]), s, MachineCalls(prog, depth - 1))
      case Exit(Returns, y) => y
      case Exit(JumpsOut(callee), y) => MachineCall(prog, depth - 1, callee, y)
      case _ => Lost(s)
  }

  ghost function MachineCalls(prog: Program, depth: nat): Calls
    decreases depth, 1
  {
    (name: string, s: State) => MachineCall(prog, depth, name, s)
  }

  // ---- the intermediate representation ----

  /** A run is defined when no signed operation overflows, or when nothing the non-negativity analysis concluded
      is wrong of it. */
  ghost predicate Defined(c: Unit, icalls: IrCalls, args: Args, globals: Globals)
  {
    NoOverflowOnRun(c.ir, Loops(c), Leaves(c), icalls, 0, Entry(args, globals)) ||
    TrustOnRun(c, icalls, 0, Entry(args, globals))
  }

  /** The run of a body has come to a result or to a tail call of another function. */
  ghost predicate Ends(c: Unit, icalls: IrCalls, args: Args, globals: Globals, n: nat)
  {
    var x := IrRun(c.ir, Loops(c), Leaves(c), icalls, 0, Entry(args, globals), n);
    x.Done? || (x.Goes? && x.i in Leaves(c) && x.i < |c.ir|)
  }

  /** What a call returns, within a depth of calls and a number of bytes of stack. */
  ghost function IrCall(prog: Program, depth: nat, stack: nat, name: string, args: Args,
                        globals: Globals): Option<CallResult>
    decreases depth, 0
  {
    if depth == 0 || name !in prog || prog[name].c.size < 0 || prog[name].c.size > stack then None
    else
      var c := prog[name].c;
      var below := IrCallsAt(prog, depth - 1, stack - c.size);
      if Defined(c, below, args, globals) && exists n: nat :: Ends(c, below, args, globals, n) then
        var n: nat :| Ends(c, below, args, globals, n);
        match IrRun(c.ir, Loops(c), Leaves(c), below, 0, Entry(args, globals), n)
        case Done(r) => Some(r)
        case Goes(i, st) => IrCall(prog, depth - 1, stack, NameOf(c.ir[i].src1), st.args, st.globals)
        case Stuck => None
      else None
  }

  ghost function IrCallsAt(prog: Program, depth: nat, stack: nat): IrCalls
    decreases depth, 1
  {
    (name: string, args: Args, globals: Globals) => IrCall(prog, depth, stack, name, args, globals)
  }

  // ---- arguments at a tail call ----

  /** The arguments of a call are staged right above it. */
  predicate StagedTogether(ir: seq<IrInst>)
  {
    forall i :: 0 <= i < |ir| && ir[i].op.PARAM? ==> i + 1 < |ir| && (ir[i + 1].op.PARAM? || ir[i + 1].op.CALL?)
  }

  /** The arguments staged by the PARAM lines right above i. */
  function ParamsAbove(ir: seq<IrInst>, i: nat): set<int>
    requires i <= |ir|
  {
    if i > 0 && ir[i - 1].op.PARAM? then ParamsAbove(ir, i - 1) + {ArgIndex(ir[i - 1])} else {}
  }

  ghost predicate ArgsAbove(ir: seq<IrInst>, i: nat, args: Args)
  {
    if i <= |ir| then forall k :: k in args ==> k in ParamsAbove(ir, i) else args == map[]
  }

  lemma ArgsStep(ir: seq<IrInst>, loops: set<nat>, icalls: IrCalls, i: nat, st: IrState)
    requires StagedTogether(ir) && i < |ir| && ArgsAbove(ir, i, st.args) && IrStep(ir, loops, icalls, i, st).Goes?
    ensures var x := IrStep(ir, loops, icalls, i, st); ArgsAbove(ir, x.i, x.st.args)
  {
    hide Computes, LabelPosition, ParamIndex;
    if !ir[i].op.PARAM? && !ir[i].op.CALL? {
      assert st.args == map[] by { assert ParamsAbove(ir, i) == {}; }
    }
  }

  lemma {:induction false} ArgsOnRun(ir: seq<IrInst>, loops: set<nat>, leaves: set<nat>, icalls: IrCalls, i: nat,
                                     st: IrState, n: nat)
    requires StagedTogether(ir) && ArgsAbove(ir, i, st.args) && IrRun(ir, loops, leaves, icalls, i, st, n).Goes?
    ensures var x := IrRun(ir, loops, leaves, icalls, i, st, n); ArgsAbove(ir, x.i, x.st.args)
    decreases n
  {
    hide IrStep, ArgsAbove, StagedTogether;
    if n > 0 && i !in leaves && i < |ir| {
      var x := IrStep(ir, loops, icalls, i, st);
      ArgsStep(ir, loops, icalls, i, st);
      ArgsOnRun(ir, loops, leaves, icalls, x.i, x.st, n - 1);
    }
  }

  lemma {:induction false} FewAbove(ir: seq<IrInst>, i: nat)
    requires i <= |ir| && !OverflowAbove(ir, i)
    ensures forall k :: k in ParamsAbove(ir, i) ==> k < 8
  {
    if i > 0 && ir[i - 1].op.PARAM? { FewAbove(ir, i - 1); }
  }

  // ---- the program ----

  /** What holds of each compiled function, wherever it is called from. */
  ghost predicate UnitOk(f: Compiled, name: string, syms: map<string, i32>)
  {
    var c := f.c;
    && c.name == name && WellFormed(c) && TailsOk(c) && ChainsSafe(c) && Analysable(c.ir) && StagedTogether(c.ir)
    && (forall i :: 0 <= i < |c.ir| ==>
          KnownIn(c, syms, c.ir[i].dest) && KnownIn(c, syms, c.ir[i].src1) && KnownIn(c, syms, c.ir[i].src2))
    && c.size == FrameSize(c.f) && c.size <= INT_MAX && WORD_BYTES * ParamCount(c) <= INT_MAX
    && c.after == AfterCode(c.name, c.f, c.size, f.globals)
    && Lists(f.constants, c.f.constantRegAlloc.Keys) && Lists(f.globals, c.f.globalRegAlloc.Keys)
    && (forall g :: g in c.f.globalRegAlloc ==> g in syms)
    && (forall r :: r in c.f.usedCalleeSavedRegisters ==> r.S? && 2 <= r.n < 12)
    && (forall i :: 0 <= i < |c.ir| && c.ir[i].op.LABEL? && c.ir[i].dest.Label? ==> c.ir[i].dest.name != c.name)
    && (forall i: nat :: i in c.tails ==> IsTailCall(c.ir, i))
    && (forall i :: i in c.nonneg && i < |c.ir| ==>
          c.ir[i].src1.Local? && !c.ir[i].op.LABEL? && ClaimedNonneg(c.ir, c.ir[i].src1.name, i))
    && (forall i :: i in Leaves(c) && i < |c.ir| ==> Lab(NameOf(c.ir[i].src1)) !in Text(f))
  }

  predicate KnownIn(c: Unit, syms: map<string, i32>, o: Operand)
  {
    (o.Local? ==> o.name in Locals(c.ir)) && (o.Global? ==> o.name in syms)
  }

  /** The stack: no global lies in it, and every function's stack arguments fit above any call. */
  ghost predicate StackOk(prog: Program, syms: map<string, i32>, lo: int, hi: int, room: int)
  {
    && 0 <= lo && hi <= TWO32
    && (forall g, g' :: g in syms && g' in syms && g != g' ==> syms[g] != syms[g'])
    && (forall g :: g in syms ==> !(lo <= Unsigned(syms[g]) < hi))
    && (forall name :: name in prog ==> WORD_BYTES * StackArgs(prog[name].c) <= room)
  }

  ghost predicate ProgramOk(prog: Program, syms: map<string, i32>, lo: int, hi: int, room: int)
  {
    StackOk(prog, syms, lo, hi, room) && forall name :: name in prog ==> UnitOk(prog[name], name, syms)
  }

  /** At sp there are `stack` bytes of stack left below, and room for incoming arguments above. */
  predicate StackLeft(lo: int, hi: int, room: int, stack: nat, sp: i32)
  {
    lo + stack <= Unsigned(sp) && Unsigned(sp) + room <= hi
  }

  lemma FunctionReady(prog: Program, syms: map<string, i32>, lo: int, hi: int, room: int, stack: nat, name: string,
                      s: State)
    requires ProgramOk(prog, syms, lo, hi, room) && name in prog && StackLeft(lo, hi, room, stack, R(s, Sp)) &&
             s.syms == syms
    requires 0 <= prog[name].c.size <= stack
    ensures FunctionOk(prog[name].c, prog[name].constants, prog[name].globals, s)
    ensures StackLeft(lo, hi, room, stack - prog[name].c.size, CallerSp(prog[name].c, s))
  {
    hide WellFormed, TailsOk, ChainsSafe, Analysable, Locals, FunctionCode, AfterCode, FrameSize, Leaves, IsTailCall,
         ClaimedNonneg, StackRoom, GlobalsKnown, KnownIn, Text, StackOk, StackLeft, CallerSp;
    var c := prog[name].c;
    assert UnitOk(prog[name], name, syms);
    GlobalsHere(c, syms, s);
    RoomHere(prog, syms, lo, hi, room, stack, name, s);
  }

  lemma GlobalsHere(c: Unit, syms: map<string, i32>, s: State)
    requires s.syms == syms
    requires forall i :: 0 <= i < |c.ir| ==>
               KnownIn(c, syms, c.ir[i].dest) && KnownIn(c, syms, c.ir[i].src1) && KnownIn(c, syms, c.ir[i].src2)
    ensures GlobalsKnown(c, HomeOf(c, s, s))
  {
    hide Locals;
  }

  lemma RoomHere(prog: Program, syms: map<string, i32>, lo: int, hi: int, room: int, stack: nat, name: string, s: State)
    requires StackOk(prog, syms, lo, hi, room) && name in prog && StackLeft(lo, hi, room, stack, R(s, Sp)) &&
             s.syms == syms
    requires 0 <= prog[name].c.size <= stack && prog[name].c.size == FrameSize(prog[name].c.f) &&
             prog[name].c.size <= INT_MAX
    requires WORD_BYTES * ParamCount(prog[name].c) <= INT_MAX
    ensures StackRoom(prog[name].c, s)
    ensures StackLeft(lo, hi, room, stack - prog[name].c.size, CallerSp(prog[name].c, s))
  {
    hide FrameSize, ParamCount;
    SpOf(R(s, Sp), prog[name].c.size);
  }

  /** A text has at most one outcome. */
  lemma OneOutcome(p: seq<Instr>, s: State, calls: Calls, m: nat)
    requires Exec(p, p, s, m, calls).Exit?
    ensures Outcome(p, s, calls) == Exec(p, p, s, m, calls)
  {
    hide Exec;
    assert LeavesAfter(p, s, calls, m);
    forall m': nat | LeavesAfter(p, s, calls, m') ensures Exec(p, p, s, m', calls) == Exec(p, p, s, m, calls) {
      if m <= m' { ExecSplit(p, p, s, m, m' - m, calls); } else { ExecSplit(p, p, s, m', m - m', calls); }
    }
  }

  lemma TrustFromDefined(f: Compiled, name: string, syms: map<string, i32>, icalls: IrCalls, args: Args,
                         globals: Globals)
    requires UnitOk(f, name, syms) && Defined(f.c, icalls, args, globals)
    ensures TrustOnRun(f.c, icalls, 0, Entry(args, globals))
  {
    hide WellFormed, TailsOk, ChainsSafe, Analysable, NoOverflowOnRun, TrustOnRun, FunctionCode, AfterCode, FrameSize,
         Leaves, IsTailCall, ClaimedNonneg, Loops;
    if NoOverflowOnRun(f.c.ir, Loops(f.c), Leaves(f.c), icalls, 0, Entry(args, globals)) {
      AnalysisSound(f.c, icalls, args, globals);
    }
  }

  lemma JumpsOutNow(p: seq<Instr>, s: State, calls: Calls, m: nat, l: string, rest: seq<Instr>, y: State)
    requires Exec(p, p, s, m, calls) == Control.At([J(l)] + rest, y) && Lab(l) !in p
    ensures Exec(p, p, s, m + 1, calls) == Exit(JumpsOut(l), y)
  {
    ExecSplit(p, p, s, m, 1, calls);
    assert Advance(p, [J(l)] + rest, y, calls) == Exit(JumpsOut(l), y);
  }

  /** One call: the callee's text does for its caller what the intermediate representation says. */
  lemma {:induction false} CallCarried(prog: Program, syms: map<string, i32>, lo: int, hi: int, room: int, depth: nat,
                                       stack: nat,
                                       name: string, s: State, args: Args, globals: Globals)
    requires ProgramOk(prog, syms, lo, hi, room) && StackLeft(lo, hi, room, stack, R(s, Sp))
    requires CallReady(syms, args, globals, s) && IrCall(prog, depth, stack, name, args, globals).Some?
    ensures CallDone(syms, IrCall(prog, depth, stack, name, args, globals).value, s, MachineCall(prog, depth, name, s))
    decreases depth, 0
  {
    hide ProgramOk, UnitOk, StackLeft, CallReady, CallDone, FunctionOk, TrustOnRun, Defined, IrRun, Exec, R,
         FunctionCode, Loops, Leaves, MachineCalls, IrCallsAt, Outcome, CallsMatch, CallerRestored;
    var f := prog[name];
    var c, p := f.c, Text(f);
    var below, calls := IrCallsAt(prog, depth - 1, stack - c.size), MachineCalls(prog, depth - 1);
    assert s.syms == syms by { ReadySyms(syms, args, globals, s); }
    assert UnitOk(f, name, syms) by { UnitAt(prog, syms, lo, hi, room, name); }
    FunctionReady(prog, syms, lo, hi, room, stack, name, s);
    CallsCarried(prog, syms, lo, hi, room, depth - 1, stack - c.size, CallerSp(c, s));
    var n: nat :| Ends(c, below, args, globals, n) &&
                  IrCall(prog, depth, stack, name, args, globals) ==
                  match IrRun(c.ir, Loops(c), Leaves(c), below, 0, Entry(args, globals), n) {
                    case Done(r) => Some(r)
                    case Goes(i, st) => IrCall(prog, depth - 1, stack, NameOf(c.ir[i].src1), st.args, st.globals)
                    case Stuck => None
                  };
    TrustFromDefined(f, name, syms, below, args, globals);
    match IrRun(c.ir, Loops(c), Leaves(c), below, 0, Entry(args, globals), n)
    case Done(r) =>
      var m, y := FunctionReturns(c, f.constants, f.globals, calls, below, args, globals, s, n);
      OneOutcome(p, s, calls, m);
    case Goes(i, st) =>
      assert forall k :: k in st.args ==> k < 8 by { LeafArgs(f, name, syms, below, args, globals, n); }
      var m, rest, y := FunctionTailCalls(c, f.constants, f.globals, calls, below, args, globals, s, n);
      var callee := NameOf(c.ir[i].src1);
      assert Lab(callee) !in p by { LeafElsewhere(f, name, syms, i); }
      JumpsOutNow(p, s, calls, m, callee, rest, y);
      OneOutcome(p, s, calls, m + 1);
      assert R(y, Sp) == R(s, Sp) && y.syms == syms by { RestoredSp(syms, st.args, st.globals, s, y); }
      CallCarried(prog, syms, lo, hi, room, depth - 1, stack, callee, y, st.args, st.globals);
      TailResult(s, y, MachineCall(prog, depth - 1, callee, y),
                 IrCall(prog, depth - 1, stack, callee, st.args, st.globals).value);
  }

  lemma ReadySyms(syms: map<string, i32>, args: Args, globals: Globals, s: State)
    requires CallReady(syms, args, globals, s)
    ensures s.syms == syms
  {
  }

  lemma RestoredSp(syms: map<string, i32>, args: Args, globals: Globals, s: State, y: State)
    requires CallReady(syms, args, globals, y) && CallerRestored(s, y)
    ensures R(y, Sp) == R(s, Sp) && y.syms == syms
  {
  }

  lemma UnitAt(prog: Program, syms: map<string, i32>, lo: int, hi: int, room: int, name: string)
    requires ProgramOk(prog, syms, lo, hi, room) && name in prog
    ensures UnitOk(prog[name], name, syms)
  {
  }

  lemma LeafElsewhere(f: Compiled, name: string, syms: map<string, i32>, i: nat)
    requires UnitOk(f, name, syms) && i in Leaves(f.c) && i < |f.c.ir|
    ensures Lab(NameOf(f.c.ir[i].src1)) !in Text(f)
  {
    hide WellFormed, TailsOk, ChainsSafe, Analysable, FunctionCode, AfterCode, FrameSize, Leaves, IsTailCall,
         ClaimedNonneg, Text;
  }

  lemma LeafArgs(f: Compiled, name: string, syms: map<string, i32>, icalls: IrCalls, args: Args, globals: Globals,
                 n: nat)
    requires UnitOk(f, name, syms)
    requires var x := IrRun(f.c.ir, Loops(f.c), Leaves(f.c), icalls, 0, Entry(args, globals), n);
             x.Goes? && x.i in Leaves(f.c) && x.i < |f.c.ir|
    ensures forall k :: k in IrRun(f.c.ir, Loops(f.c), Leaves(f.c), icalls, 0, Entry(args, globals), n).st.args ==>
              k < 8
  {
    hide WellFormed, TailsOk, ChainsSafe, Analysable, FunctionCode, AfterCode, FrameSize, ClaimedNonneg, Text, IrRun,
         StagedTogether, Loops;
    var x := IrRun(f.c.ir, Loops(f.c), Leaves(f.c), icalls, 0, Entry(args, globals), n);
    ArgsOnRun(f.c.ir, Loops(f.c), Leaves(f.c), icalls, 0, Entry(args, globals), n);
    assert IsTailCall(f.c.ir, x.i);
    FewAbove(f.c.ir, x.i);
  }

  /**
    Main result: in a program whose functions are compiled as the generator compiles them, every call that has a
    result in the intermediate representation, at any depth of calls and within the stack there is, is carried out
    by running the callees' own texts: the result is in a0, the globals are in memory, and the caller's registers
    and stack are as they were.
   */
  lemma {:induction false} CallsCarried(prog: Program, syms: map<string, i32>, lo: int, hi: int, room: int, depth: nat,
                                        stack: nat, sp: i32)
    requires ProgramOk(prog, syms, lo, hi, room) && StackLeft(lo, hi, room, stack, sp)
    ensures CallsMatch(MachineCalls(prog, depth), IrCallsAt(prog, depth, stack), syms, sp)
    decreases depth, 1
  {
    hide ProgramOk, StackLeft, CallReady, CallDone, MachineCall, IrCall, R;
    forall name, s, args, globals | R(s, Sp) == sp && CallReady(syms, args, globals, s) &&
                                    IrCallsAt(prog, depth, stack)(name, args, globals).Some?
      ensures CallDone(syms, IrCallsAt(prog, depth, stack)(name, args, globals).value, s,
                       MachineCalls(prog, depth)(name, s))
    {
      CallCarried(prog, syms, lo, hi, room, depth, stack, name, s, args, globals);
    }
  }
}
