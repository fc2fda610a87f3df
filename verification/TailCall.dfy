/** Tail calls: which calls qualify, and why a function may start over instead of calling itself. */
module TailCall {
  import opened Ir
  import opened IrMachine
  import opened Frame
  import opened Body
  import opened Homes
  import opened StepSim

  // --------------------------------------------------------------------------
  // Detection
  // --------------------------------------------------------------------------

  function ArgIndex(inst: IrInst): int { if inst.src1.Imm? then inst.src1.immVal else 0 }

  /** One of the PARAM lines right above i passes an argument on the stack. */
  predicate OverflowAbove(ir: seq<IrInst>, i: nat)
    requires i <= |ir|
  {
    i > 0 && ir[i - 1].op.PARAM? && (ArgIndex(ir[i - 1]) >= 8 || OverflowAbove(ir, i - 1))
  }

  /** The line after i returns exactly what the call at i produces. */
  predicate ReturnsResult(call: IrInst, ret: IrInst)
  {
    ret.op.RETURN? && ((call.dest.Local? && ret.dest == call.dest) || (call.dest.NoOperand? && ret.dest.NoOperand?))
  }

  predicate IsTailCall(ir: seq<IrInst>, i: nat)
  {
    && i + 1 < |ir| && ir[i].op.CALL? && ir[i].src1.Func? && ReturnsResult(ir[i], ir[i + 1])
    && (forall j :: i + 1 < j < |ir| ==> ir[j].op.RETURN?)
    && !OverflowAbove(ir, i)
  }

  method OnlyReturns(ir: seq<IrInst>, from: nat) returns (b: bool)
    ensures b <==> forall j :: from <= j < |ir| ==> ir[j].op.RETURN?
  {
    var j := from;
    while j < |ir|
      invariant from <= j && forall k :: from <= k < j && k < |ir| ==> ir[k].op.RETURN?
    {
      if !ir[j].op.RETURN? { return false; }
      j := j + 1;
    }
    return true;
  }

  method HasOverflow(ir: seq<IrInst>, i: nat) returns (b: bool)
    requires i <= |ir|
    ensures b <==> OverflowAbove(ir, i)
  {
    var j := i;
    while j > 0
      invariant 0 <= j <= i
      invariant OverflowAbove(ir, i) <==> OverflowAbove(ir, j)
    {
      if !ir[j - 1].op.PARAM? { return false; }
      if ArgIndex(ir[j - 1]) >= 8 { return true; }
      j := j - 1;
    }
    return false;
  }

  method DetectTailCalls(ir: seq<IrInst>) returns (tails: set<nat>)
    ensures forall i: nat :: i in tails <==> IsTailCall(ir, i)
  {
    tails := {};
    var i := 0;
    while i + 1 < |ir|
      invariant 0 <= i
      invariant forall t: nat :: t in tails <==> t < i && IsTailCall(ir, t)
    {
      if ir[i].op.CALL? && ir[i].src1.Func? && ReturnsResult(ir[i], ir[i + 1]) {
        var trailing := OnlyReturns(ir, i + 2);
        var overflow := HasOverflow(ir, i);
        if trailing && !overflow { tails := tails + {i}; }
      }
      i := i + 1;
    }
  }

  /** What detection finds is what the generated code relies on. */
  lemma DetectedOk(c: Unit)
    requires !c.draft && forall i: nat :: i in c.tails <==> IsTailCall(c.ir, i)
    requires forall i :: i in Loops(c) ==> ParamCount(c) <= 8
    ensures TailsOk(c)
  {
    forall t | t in c.tails
      ensures t + 1 < |c.ir| && c.ir[t].op.CALL? && c.ir[t].src1.Func?
      ensures forall j :: t < j < |c.ir| ==> c.ir[j].op.RETURN?
      ensures c.ir[t].src1.name == c.name ==> ParamCount(c) <= 8
    {
      assert IsTailCall(c.ir, t);
      assert c.ir[t].src1.name == c.name ==> t in Loops(c);
    }
  }

  // --------------------------------------------------------------------------
  // Recursion
  // --------------------------------------------------------------------------

  /** A function that may call itself; `loops` are its self tail calls. */
  datatype Function = Function(name: string, ir: seq<IrInst>, loops: set<nat>)

  function Answer(x: IrNext): Option<CallResult> { if x.Done? then Some(x.result) else None }

  /** Calls with at most `depth` activations of the function itself, each of at most `steps`
      instructions; other callees are given. */
  ghost function CallsAt(f: Function, others: IrCalls, depth: nat, steps: nat): IrCalls
    decreases depth
  {
    if depth == 0 then
      (name: string, args: Args, globals: Globals) => if name != f.name then others(name, args, globals) else None
    else
      var below := CallsAt(f, others, depth - 1, steps);
      (name: string, args: Args, globals: Globals) =>
        if name != f.name then others(name, args, globals)
        else OwnAnswer(f, below, args, globals, steps)
  }

  /** One activation of the function, its own calls answered by `below`. */
  ghost function OwnAnswer(f: Function, below: IrCalls, args: Args, globals: Globals, steps: nat): Option<CallResult>
  {
    Answer(IrRun(f.ir, {}, {}, below, 0, Entry(args, globals), steps))
  }

  lemma OwnCall(f: Function, others: IrCalls, depth: nat, steps: nat, args: Args, globals: Globals)
    ensures CallsAt(f, others, depth, steps)(f.name, args, globals) ==
            if depth == 0 then None else OwnAnswer(f, CallsAt(f, others, depth - 1, steps), args, globals, steps)
  {
  }

  ghost predicate Extends(more: IrCalls, less: IrCalls)
  {
    forall name, args, globals :: less(name, args, globals).Some? ==>
      more(name, args, globals) == less(name, args, globals)
  }

  lemma StepExtends(ir: seq<IrInst>, loops: set<nat>, less: IrCalls, more: IrCalls, i: nat, st: IrState)
    requires i < |ir| && Extends(more, less) && !IrStep(ir, loops, less, i, st).Stuck?
    ensures IrStep(ir, loops, more, i, st) == IrStep(ir, loops, less, i, st)
  {
    hide Computes, BranchOn, Jump, Declare;
    if ir[i].op.CALL? && ir[i].src1.Func? && i !in loops {
      assert less(ir[i].src1.name, st.args, st.globals).Some?;
    }
  }

  /** A run that finishes finishes alike with more answers and more time. */
  lemma {:induction false} RunExtends(ir: seq<IrInst>, loops: set<nat>, less: IrCalls, more: IrCalls, i: nat,
                                      st: IrState,
                                      n: nat, m: nat)
    requires Extends(more, less) && n <= m && IrRun(ir, loops, {}, less, i, st, n).Done?
    ensures IrRun(ir, loops, {}, more, i, st, m) == IrRun(ir, loops, {}, less, i, st, n)
    decreases n
  {
    hide IrStep;
    if i < |ir| && n > 0 {
      StepExtends(ir, loops, less, more, i, st);
      match IrStep(ir, loops, less, i, st)
      case Goes(j, st') => RunExtends(ir, loops, less, more, j, st', n - 1, m - 1);
      case _ =>
    }
  }

  lemma {:induction false} DeeperExtends(f: Function, others: IrCalls, d: nat, k: nat, d': nat, k': nat)
    requires d <= d' && k <= k'
    ensures Extends(CallsAt(f, others, d', k'), CallsAt(f, others, d, k))
    decreases d
  {
    if d > 0 {
      DeeperExtends(f, others, d - 1, k, d' - 1, k');
      forall args, globals | CallsAt(f, others, d, k)(f.name, args, globals).Some?
        ensures CallsAt(f, others, d', k')(f.name, args, globals) == CallsAt(f, others, d, k)(f.name, args, globals)
      {
        OwnCall(f, others, d, k, args, globals);
        OwnCall(f, others, d', k', args, globals);
        RunExtends(f.ir, {}, CallsAt(f, others, d - 1, k), CallsAt(f, others, d' - 1, k'), 0, Entry(args, globals), k,
                   k');
      }
    }
  }

  // --------------------------------------------------------------------------
  // The loop and the recursion
  // --------------------------------------------------------------------------

  /** The function either always returns a value or never does, as its declared type says, and its
      body ends in a return. */
  predicate ReturnsAlike(ir: seq<IrInst>, hasValue: bool)
  {
    && ir != [] && ir[|ir| - 1].op.RETURN?
    && forall i :: 0 <= i < |ir| && ir[i].op.RETURN? ==> (ir[i].dest.NoOperand? <==> !hasValue)
  }

  predicate LoopsAreTails(f: Function)
  {
    forall i :: i in f.loops ==> IsTailCall(f.ir, i) && f.ir[i].src1.name == f.name
  }

  lemma StepStays(ir: seq<IrInst>, loops: set<nat>, calls: IrCalls, i: nat, st: IrState)
    requires i < |ir| && (ir[i].op.RETURN? || i + 1 < |ir|)
    ensures IrStep(ir, loops, calls, i, st).Goes? ==> IrStep(ir, loops, calls, i, st).i < |ir|
  {
    hide Computes;
  }

  /** Every result has a value, or none has. */
  lemma {:induction false} ResultsAlike(ir: seq<IrInst>, loops: set<nat>, calls: IrCalls, i: nat, st: IrState, n: nat,
                                        hasValue: bool)
    requires ReturnsAlike(ir, hasValue) && i < |ir| && IrRun(ir, loops, {}, calls, i, st, n).Done?
    ensures IrRun(ir, loops, {}, calls, i, st, n).result.value.Some? <==> hasValue
    decreases n
  {
    hide IrStep;
    StepStays(ir, loops, calls, i, st);
    match IrStep(ir, loops, calls, i, st)
    case Goes(j, st') => ResultsAlike(ir, loops, calls, j, st', n - 1, hasValue);
    case Done(r) => DoneAlike(ir, loops, calls, i, st, hasValue);
    case Stuck =>
  }

  lemma DoneAlike(ir: seq<IrInst>, loops: set<nat>, calls: IrCalls, i: nat, st: IrState, hasValue: bool)
    requires ReturnsAlike(ir, hasValue) && i < |ir| && IrStep(ir, loops, calls, i, st).Done?
    ensures IrStep(ir, loops, calls, i, st).result.value.Some? <==> hasValue
  {
    assert ir[i].op.RETURN? by { OnlyReturnEnds(ir, loops, calls, i, st); }
  }

  lemma OnlyReturnEnds(ir: seq<IrInst>, loops: set<nat>, calls: IrCalls, i: nat, st: IrState)
    requires i < |ir| && IrStep(ir, loops, calls, i, st).Done?
    ensures ir[i].op.RETURN?
  {
    hide Computes;
  }

  /** The two steps of CALL and RETURN pass the callee's result on. */
  lemma TailPassesOn(f: Function, calls: IrCalls, i: nat, st: IrState, r: CallResult, n: nat, hasValue: bool)
    requires LoopsAreTails(f) && i in f.loops && ReturnsAlike(f.ir, hasValue) && n >= 2
    requires calls(f.name, st.args, st.globals) == Some(r) && (r.value.Some? <==> hasValue)
    ensures IrRun(f.ir, {}, {}, calls, i, st, n) == Done(r)
  {
    var call, ret := f.ir[i], f.ir[i + 1];
    assert IsTailCall(f.ir, i);
    var st' := st.(globals := r.globals, args := map[]);
    var next := if hasValue then Assign(st', call.dest, r.value.value) else st';
    assert IrStep(f.ir, {}, calls, i, st) == Goes(i + 1, next);
    assert IrStep(f.ir, {}, calls, i + 1, next) == Done(r);
    hide IrStep;
    assert IrRun(f.ir, {}, {}, calls, i + 1, next, n - 1) == Done(r);
  }

  /** Backwards: if a tail call and its return finish, the callee had the same result. */
  lemma TailCameFrom(f: Function, calls: IrCalls, i: nat, st: IrState, n: nat, hasValue: bool)
    requires LoopsAreTails(f) && i in f.loops && ReturnsAlike(f.ir, hasValue)
    requires IrRun(f.ir, {}, {}, calls, i, st, n).Done?
    ensures calls(f.name, st.args, st.globals).Some?
    ensures var r := calls(f.name, st.args, st.globals).value;
            (r.value.Some? <==> hasValue) ==> IrRun(f.ir, {}, {}, calls, i, st, n) == Done(r)
  {
    assert IsTailCall(f.ir, i);
    var x := IrStep(f.ir, {}, calls, i, st);
    assert x == AfterCall(f.ir[i], i, st, calls(f.name, st.args, st.globals));
    hide IrStep;
    match x
    case Goes(j, st') => ReturnStep(f, calls, i, st', n - 1);
    case _ =>
  }

  lemma ReturnStep(f: Function, calls: IrCalls, i: nat, st: IrState, n: nat)
    requires i < |f.ir| - 1 && f.ir[i + 1].op.RETURN? && IrRun(f.ir, {}, {}, calls, i + 1, st, n).Done?
    ensures IrRun(f.ir, {}, {}, calls, i + 1, st, n) ==
            Done(CallResult(if f.ir[i + 1].dest.NoOperand? then None else Eval(st, f.ir[i + 1].dest), st.globals))
  {
  }

  lemma SameElsewhere(ir: seq<IrInst>, loops: set<nat>, calls: IrCalls, i: nat, st: IrState)
    requires i < |ir| && i !in loops
    ensures IrStep(ir, loops, calls, i, st) == IrStep(ir, {}, calls, i, st)
  {
    hide Computes, Jump, BranchOn, Declare;
  }

  /** Whatever the recursion computes, at any depth, the loop computes. */
  lemma {:induction false} LoopFollowsRecursion(f: Function, others: IrCalls, d: nat, k: nat, i: nat, st: IrState,
                                                n: nat, hasValue: bool)
    returns (m: nat)
    requires LoopsAreTails(f) && ReturnsAlike(f.ir, hasValue) && i < |f.ir|
    requires IrRun(f.ir, {}, {}, CallsAt(f, others, d, k), i, st, n).Done?
    ensures IrRun(f.ir, f.loops, {}, CallsAt(f, others, d, k), i, st, m) ==
            IrRun(f.ir, {}, {}, CallsAt(f, others, d, k), i, st, n)
    decreases d, n
  {
    hide IrStep, CallsAt;
    var calls := CallsAt(f, others, d, k);
    if i in f.loops {
      TailCameFrom(f, calls, i, st, n, hasValue);
      SelfAnswer(f, others, d, k, st.args, st.globals);
      var less := CallsAt(f, others, d - 1, k);
      assert f.ir != [];
      ResultsAlike(f.ir, {}, less, 0, Entry(st.args, st.globals), k, hasValue);
      var m' := LoopFollowsRecursion(f, others, d - 1, k, 0, Entry(st.args, st.globals), k, hasValue);
      DeeperExtends(f, others, d - 1, k, d, k);
      RunExtends(f.ir, f.loops, less, calls, 0, Entry(st.args, st.globals), m', m');
      LoopStep(f, calls, i, st);
      m := m' + 1;
    } else {
      SameElsewhere(f.ir, f.loops, calls, i, st);
      StepStays(f.ir, {}, calls, i, st) by { assert f.ir[|f.ir| - 1].op.RETURN?; }
      match IrStep(f.ir, {}, calls, i, st)
      case Goes(j, st') =>
        var m' := LoopFollowsRecursion(f, others, d, k, j, st', n - 1, hasValue);
        m := m' + 1;
      case Done(_) => m := 1;
      case Stuck => m := 0;
    }
  }

  lemma LoopStep(f: Function, calls: IrCalls, i: nat, st: IrState)
    requires LoopsAreTails(f) && i in f.loops
    ensures i < |f.ir| && IrStep(f.ir, f.loops, calls, i, st) == Goes(0, Entry(st.args, st.globals))
  {
    assert IsTailCall(f.ir, i);
  }

  /** An answer of the function itself comes from a run one level down. */
  lemma SelfAnswer(f: Function, others: IrCalls, d: nat, k: nat, args: Args, globals: Globals)
    requires CallsAt(f, others, d, k)(f.name, args, globals).Some?
    ensures d > 0
    ensures IrRun(f.ir, {}, {}, CallsAt(f, others, d - 1, k), 0, Entry(args, globals), k) ==
            Done(CallsAt(f, others, d, k)(f.name, args, globals).value)
  {
    OwnCall(f, others, d, k, args, globals);
  }

  /** And whatever the loop computes, in any number of rounds, some depth of recursion computes. */
  lemma {:induction false} RecursionFollowsLoop(f: Function, others: IrCalls, d: nat, k: nat, i: nat, st: IrState,
                                                m: nat, hasValue: bool)
    returns (d': nat, k': nat, n: nat)
    requires LoopsAreTails(f) && ReturnsAlike(f.ir, hasValue) && i < |f.ir|
    requires IrRun(f.ir, f.loops, {}, CallsAt(f, others, d, k), i, st, m).Done?
    ensures d <= d' && k <= k'
    ensures IrRun(f.ir, {}, {}, CallsAt(f, others, d', k'), i, st, n) ==
            IrRun(f.ir, f.loops, {}, CallsAt(f, others, d, k), i, st, m)
    decreases m
  {
    hide IrStep, CallsAt;
    var calls := CallsAt(f, others, d, k);
    if i in f.loops {
      LoopStep(f, calls, i, st);
      var d1, k1, n1 := RecursionFollowsLoop(f, others, d, k, 0, Entry(st.args, st.globals), m - 1, hasValue);
      var r := IrRun(f.ir, {}, {}, CallsAt(f, others, d1, k1), 0, Entry(st.args, st.globals), n1).result;
      ResultsAlike(f.ir, {}, CallsAt(f, others, d1, k1), 0, Entry(st.args, st.globals), n1, hasValue);
      d', k', n := d1 + 1, if k1 < n1 then n1 else k1, 2;
      DeeperExtends(f, others, d1, k1, d1, k');
      RunExtends(f.ir, {}, CallsAt(f, others, d1, k1), CallsAt(f, others, d1, k'), 0, Entry(st.args, st.globals), n1,
                 k');
      AnswerFrom(f, others, d', k', st.args, st.globals, r);
      TailPassesOn(f, CallsAt(f, others, d', k'), i, st, r, n, hasValue);
    } else {
      SameElsewhere(f.ir, f.loops, calls, i, st);
      StepStays(f.ir, f.loops, calls, i, st) by { assert f.ir[|f.ir| - 1].op.RETURN?; }
      match IrStep(f.ir, f.loops, calls, i, st)
      case Goes(j, st') =>
        var n';
        d', k', n' := RecursionFollowsLoop(f, others, d, k, j, st', m - 1, hasValue);
        DeeperExtends(f, others, d, k, d', k');
        StepExtends(f.ir, {}, calls, CallsAt(f, others, d', k'), i, st);
        n := n' + 1;
      case Done(_) =>
        d', k', n := d, k, 1;
      case Stuck =>
        d', k', n := d, k, 0;
    }
  }

  lemma AnswerFrom(f: Function, others: IrCalls, d: nat, k: nat, args: Args, globals: Globals, r: CallResult)
    requires d > 0 && IrRun(f.ir, {}, {}, CallsAt(f, others, d - 1, k), 0, Entry(args, globals), k) == Done(r)
    ensures CallsAt(f, others, d, k)(f.name, args, globals) == Some(r)
  {
    OwnCall(f, others, d, k, args, globals);
  }

  /** Some depth of recursion produces r. */
  ghost predicate RecursionYields(f: Function, others: IrCalls, args: Args, globals: Globals, r: CallResult)
  {
    exists d: nat, k: nat, n: nat :: IrRun(f.ir, {}, {}, CallsAt(f, others, d, k), 0, Entry(args, globals), n) ==
      Done(r)
  }

  /** Some number of rounds produces r. */
  ghost predicate LoopYields(f: Function, others: IrCalls, args: Args, globals: Globals, r: CallResult)
  {
    exists d: nat, k: nat, m: nat :: IrRun(f.ir, f.loops, {}, CallsAt(f, others, d, k), 0, Entry(args, globals), m) ==
      Done(r)
  }

  /** Main result: starting over with the staged arguments and calling oneself have the same return value
      and leave the same globals, for every depth. */
  lemma SelfTailCallIsLoop(f: Function, others: IrCalls, args: Args, globals: Globals, r: CallResult, hasValue: bool)
    requires LoopsAreTails(f) && ReturnsAlike(f.ir, hasValue)
    ensures RecursionYields(f, others, args, globals, r) <==> LoopYields(f, others, args, globals, r)
  {
    hide IrRun, CallsAt, LoopsAreTails;
    var st := Entry(args, globals);
    if RecursionYields(f, others, args, globals, r) {
      var d: nat, k: nat, n: nat :| IrRun(f.ir, {}, {}, CallsAt(f, others, d, k), 0, st, n) == Done(r);
      var m := LoopFollowsRecursion(f, others, d, k, 0, st, n, hasValue);
    }
    if LoopYields(f, others, args, globals, r) {
      var d: nat, k: nat, m: nat :| IrRun(f.ir, f.loops, {}, CallsAt(f, others, d, k), 0, st, m) == Done(r);
      var d', k', n := RecursionFollowsLoop(f, others, d, k, 0, st, m, hasValue);
    }
  }
}
