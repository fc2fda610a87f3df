/** What a function body in the intermediate representation does when it runs. A local holds a value
    only once it has been written: reading it earlier is stuck. Calls are an oracle that may have
    no answer, for a callee that does not return. */
module IrMachine {
  import opened Word
  import opened Ir
  import opened IrFlow
  import opened Frame

  type Globals = map<string, i32>

  type Args = map<nat, i32>

  datatype CallResult = CallResult(value: Option<i32>, globals: Globals)

  type IrCalls = (string, Args, Globals) -> Option<CallResult>

  /** `params` are the arguments the function was called with, `args` those staged for a call. */
  datatype IrState = IrState(params: Args, locals: map<string, i32>, globals: Globals, args: Args)

  datatype IrNext = Goes(i: nat, st: IrState) | Done(result: CallResult) | Stuck

  function Entry(params: Args, globals: Globals): IrState { IrState(params, map[], globals, map[]) }

  function GlobalValue(globals: Globals, name: string): i32 { if name in globals then globals[name] else 0 }

  function Eval(st: IrState, o: Operand): Option<i32>
  {
    match o
    case Imm(v) => Some(v)
    case Local(name) => if name in st.locals then Some(st.locals[name]) else None
    case Global(name) => Some(GlobalValue(st.globals, name))
    case _ => None
  }

  function Assign(st: IrState, o: Operand, v: i32): IrState
    requires IsVariable(o)
  {
    if o.Local? then st.(locals := st.locals[o.name := v]) else st.(globals := st.globals[o.name := v])
  }

  predicate IsMove(op: IrOp) { op.ASSIGN? || op.LOAD? || op.STORE? }

  /** The value an instruction computes for its destination. */
  function Computes(inst: IrInst, st: IrState): Option<i32>
  {
    match Eval(st, inst.src1)
    case None => None
    case Some(a) =>
      if IsMove(inst.op) || inst.op.LOCAL_VAR_DECL? then Some(a)
      else if inst.op.NOT? then Some(Bit(a == 0))
      else match Eval(st, inst.src2)
        case None => None
        case Some(b) =>
          if IsArithmetic(inst.op) then Some(Arithmetic(inst.op, a, b))
          else if IsCompare(inst.op) then Some(Bit(Compares(inst.op, a, b)))
          else None
  }

  function Jump(ir: seq<IrInst>, target: Operand, st: IrState): IrNext
  {
    if !target.Label? then Stuck
    else match LabelPosition(ir, target.name)
      case Nowhere => Stuck
      case Somewhere(j) => Goes(j, st)
  }

  /** A position that computes nothing. A local as its operand would count as written there. */
  function Skip(inst: IrInst, i: nat, st: IrState): IrNext { if inst.dest.Local? then Stuck else Goes(i + 1, st) }

  function BranchOn(ir: seq<IrInst>, inst: IrInst, i: nat, st: IrState): IrNext
  {
    if !inst.dest.Label? then Stuck
    else match Eval(st, inst.src1)
      case None => Stuck
      case Some(v) => if (v == 0) == inst.op.BEQZ? then Jump(ir, inst.dest, st) else Goes(i + 1, st)
  }

  function Store(inst: IrInst, i: nat, st: IrState): IrNext
  {
    if !IsVariable(inst.dest) then Stuck
    else match Computes(inst, st)
      case None => Stuck
      case Some(v) => Goes(i + 1, Assign(st, inst.dest, v))
  }

  /** A declaration binds a parameter, stores an initial value, or leaves the local without one. */
  function Declare(ir: seq<IrInst>, i: nat, st: IrState): IrNext
    requires i < |ir|
  {
    var inst := ir[i];
    if !inst.dest.Local? then Goes(i + 1, st)
    else if inst.src1.Param? then
      var k := ParamIndex(ir, i);
      if k in st.params then Goes(i + 1, Assign(st, inst.dest, st.params[k])) else Stuck
    else if inst.src1.NoOperand? then Goes(i + 1, st.(locals := st.locals - {inst.dest.name}))
    else Store(inst, i, st)
  }

  function AfterCall(inst: IrInst, i: nat, st: IrState, answer: Option<CallResult>): IrNext
  {
    match answer
    case None => Stuck
    case Some(r) =>
      var st' := st.(globals := r.globals, args := map[]);
      if !IsVariable(inst.dest) then Goes(i + 1, st')
      else if r.value.None? then Stuck
      else Goes(i + 1, Assign(st', inst.dest, r.value.value))
  }

  /** One instruction. At the calls in `loops` the function starts over with the staged arguments
      instead of calling itself. */
  function IrStep(ir: seq<IrInst>, loops: set<nat>, calls: IrCalls, i: nat, st: IrState): IrNext
    requires i < |ir|
  {
    var inst := ir[i];
    match inst.op
    case BRANCH => Jump(ir, inst.dest, st)
    case BEQZ => BranchOn(ir, inst, i, st)
    case BNEZ => BranchOn(ir, inst, i, st)
    case RETURN =>
      if inst.dest.NoOperand? then Done(CallResult(None, st.globals))
      else (match Eval(st, inst.dest)
        case None => Stuck
        case Some(v) => Done(CallResult(Some(v), st.globals)))
    case PARAM =>
      if !inst.src1.Imm? || inst.src1.immVal < 0 then Stuck
      else (match Eval(st, inst.dest)
        case None => Stuck
        case Some(v) => Goes(i + 1, st.(args := st.args[inst.src1.immVal := v])))
    case CALL =>
      if !inst.src1.Func? then Stuck
      else if i in loops then Goes(0, Entry(st.args, st.globals))
      else AfterCall(inst, i, st, calls(inst.src1.name, st.args, st.globals))
    case LOCAL_VAR_DECL => Declare(ir, i, st)
    case LABEL => Skip(inst, i, st)
    case FUNC_BEGIN => Skip(inst, i, st)
    case FUNC_END => Skip(inst, i, st)
    case GLOBAL_VAR_DECL => Skip(inst, i, st)
    case _ => Store(inst, i, st)
  }

  /** At most n instructions; the run pauses at the positions in `leaves`, and running off the end
      returns nothing. */
  function IrRun(ir: seq<IrInst>, loops: set<nat>, leaves: set<nat>, calls: IrCalls, i: nat, st: IrState,
                 n: nat): IrNext
    decreases n
  {
    if n == 0 || i in leaves then Goes(i, st)
    else if i >= |ir| then Done(CallResult(None, st.globals))
    else match IrStep(ir, loops, calls, i, st)
      case Goes(j, st') => IrRun(ir, loops, leaves, calls, j, st', n - 1)
      case x => x
  }

  lemma RunTakes(ir: seq<IrInst>, loops: set<nat>, leaves: set<nat>, calls: IrCalls, i: nat, st: IrState, n: nat,
                 j: nat,
                 st': IrState)
    requires i < |ir| && i !in leaves && n > 0 && IrStep(ir, loops, calls, i, st) == Goes(j, st')
    ensures IrRun(ir, loops, leaves, calls, i, st, n) == IrRun(ir, loops, leaves, calls, j, st', n - 1)
  {
    hide IrStep;
  }

  lemma RunEnds(ir: seq<IrInst>, loops: set<nat>, leaves: set<nat>, calls: IrCalls, i: nat, st: IrState, n: nat,
                r: CallResult)
    requires i < |ir| && i !in leaves && n > 0 && IrStep(ir, loops, calls, i, st) == Done(r)
    ensures IrRun(ir, loops, leaves, calls, i, st, n) == Done(r)
  {
    hide IrStep;
  }
}
