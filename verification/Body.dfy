/** The lines of a function body: each instruction's code in turn, comparisons fused with the branch
    that consumes them. */
module Body {
  import opened Word
  import opened Ir
  import opened IrFlow
  import opened Rv32
  import opened Frame
  import opened Selection
  import opened BinaryOp
  import opened Compare
  import opened FrameCode
  import opened Remainder

  /** One function being generated. `nonneg` are the instructions whose first source is known to be
      non-negative, `tails` the tail calls, `after` the lines that follow the body. A draft is the first
      pass, made to see which saved registers the body uses: a tail call is only its jump there. */
  datatype Unit = Unit(name: string, ir: seq<IrInst>, f: StackFrame, size: int, nonneg: set<nat>, tails: set<nat>,
                       draft: bool, after: seq<Instr>)

  function BodyLabel(name: string): string { ".L_" + name + "_body" }

  function ExitLabel(name: string): string { ".L_" + name + "_exit" }

  function NameOf(o: Operand): string { if o.Imm? || o.NoOperand? then "" else o.name }

  function MoveCode(f: StackFrame, o: Operand, dest: Operand): seq<Instr>
  {
    LoadCode(f, o, DestRegOrT0(f, dest)) + SettleCode(f, dest)
  }

  /** Parameter k from its argument register, or from the caller's frame. */
  function ParamDeclCode(f: StackFrame, dest: Operand, k: nat): seq<Instr>
  {
    var r := DestRegOrT0(f, dest);
    (if k >= 8 then LoadAddressCode(r, S(0), WORD_BYTES * (k - 8)) else if r != A(k) then [Mv(r, A(k))] else []) +
    SettleCode(f, dest)
  }

  function DeclCode(c: Unit, i: nat): seq<Instr>
    requires i < |c.ir|
  {
    var inst := c.ir[i];
    if !inst.dest.Local? || inst.src1.NoOperand? then []
    else if inst.src1.Param? then ParamDeclCode(c.f, inst.dest, ParamIndex(c.ir, i))
    else MoveCode(c.f, inst.src1, inst.dest)
  }

  function CompareOpCode(f: StackFrame, inst: IrInst): seq<Instr>
    requires CompareShaped(inst)
  {
    CompareCode(f, inst, DestRegOrT0(f, inst.dest)) + SettleCode(f, inst.dest)
  }

  function ParamCode(f: StackFrame, o: Operand, k: int): seq<Instr>
  {
    if k < 8 then (if k >= 0 then LoadCode(f, o, A(k)) else [])
    else LoadCode(f, o, T(0)) + StoreAddressCode(T(0), Sp, WORD_BYTES * (k - 8))
  }

  function CallCode(c: Unit, i: nat): seq<Instr>
    requires i < |c.ir|
  {
    var callee := NameOf(c.ir[i].src1);
    if i !in c.tails then [Call(callee)] + (if IsVariable(c.ir[i].dest) then StoreCode(c.f, A(0), c.ir[i].dest) else [])
    else if c.draft then [J(callee)]
    else if callee == c.name then [J(BodyLabel(c.name))]
    else TailCode(c.f, c.size, callee)
  }

  /** A RETURN that follows a tail call is not reached and produces nothing. */
  predicate AfterTail(c: Unit, i: nat) { exists t :: t in c.tails && t < i }

  function ReturnCode(c: Unit, i: nat): seq<Instr>
    requires i < |c.ir|
  {
    if AfterTail(c, i) then []
    else (if c.ir[i].dest.NoOperand? then [] else LoadCode(c.f, c.ir[i].dest, A(0))) + [J(ExitLabel(c.name))]
  }

  function BranchCode(f: StackFrame, inst: IrInst): seq<Instr>
  {
    match RegForOperand(f, inst.src1)
    case Some(r) => [BrZ(BranchTest(inst.op), r, NameOf(inst.dest))]
    case None => LoadCode(f, inst.src1, T(0)) + [BrZ(BranchTest(inst.op), T(0), NameOf(inst.dest))]
  }

  /** The lines of instruction i on its own. */
  function InstCode(c: Unit, i: nat): seq<Instr>
    requires i < |c.ir|
  {
    var inst := c.ir[i];
    if BinaryShaped(inst) then BinaryCode(c.f, inst, i in c.nonneg)
    else if CompareShaped(inst) then CompareOpCode(c.f, inst)
    else match inst.op
      case ASSIGN => if IsVariable(inst.dest) then MoveCode(c.f, inst.src1, inst.dest) else []
      case LOAD => if IsVariable(inst.dest) then MoveCode(c.f, inst.src1, inst.dest) else []
      case STORE => if IsVariable(inst.dest) then MoveCode(c.f, inst.src1, inst.dest) else []
      case LOCAL_VAR_DECL => DeclCode(c, i)
      case PARAM => ParamCode(c.f, inst.dest, if inst.src1.Imm? then inst.src1.immVal else 0)
      case CALL => CallCode(c, i)
      case RETURN => ReturnCode(c, i)
      case LABEL => [Lab(NameOf(inst.dest))]
      case BRANCH => [J(NameOf(inst.dest))]
      case BEQZ => BranchCode(c.f, inst)
      case BNEZ => BranchCode(c.f, inst)
      case _ => []
  }

  /** How often the body reads v. */
  function UseCount(ir: seq<IrInst>, v: string, n: nat): nat
    requires n <= |ir|
  {
    if n == 0 then 0
    else UseCount(ir, v, n - 1) + (if ir[n - 1].src1 == Local(v) then 1 else 0) +
         (if ir[n - 1].src2 == Local(v) then 1 else 0) +
         (if ReadsDest(ir[n - 1].op) && ir[n - 1].dest == Local(v) then 1 else 0)
  }

  /** Instruction i is a comparison whose result only the branch after it reads. */
  predicate FusedAt(c: Unit, i: nat)
  {
    && i + 1 < |c.ir| && CompareShaped(c.ir[i]) && c.ir[i].dest.Local?
    && Fuses(c.ir[i], c.ir[i + 1], UseCount(c.ir, c.ir[i].dest.name, |c.ir|))
  }

  function FusedCode(c: Unit, i: nat): seq<Instr>
    requires FusedAt(c, i)
  {
    CompareCode(c.f, c.ir[i], T(0)) + [BrZ(BranchTest(c.ir[i + 1].op), T(0), NameOf(c.ir[i + 1].dest))]
  }

  /** A chain `((x % m) + m) % m` starts at i and is replaced as a whole: its intermediate is not wanted
      below, and the modulus is a power of two or the dividend is known non-negative. */
  predicate FusesChain(c: Unit, i: nat)
  {
    && i < |c.ir| && MatchNormalized(c.ir, i).Some? && IsValue(MatchNormalized(c.ir, i).value.source)
    && var n := MatchNormalized(c.ir, i).value;
       && (n.intermediate == n.destination || !ScanLive(c.ir, i + n.length, NameOf(n.intermediate)))
       && (IsPowerOfTwo(n.modulus) || (n.source.Imm? && n.source.immVal >= 0) || (n.source.Local? && i in c.nonneg))
  }

  function ChainCode(c: Unit, i: nat): seq<Instr>
    requires FusesChain(c, i)
  {
    ChainEnds(c.ir, i);
    FusedRemainderCode(c.f, MatchNormalized(c.ir, i).value, i in c.nonneg)
  }

  function ChainLength(c: Unit, i: nat): (n: nat)
    requires FusesChain(c, i)
    ensures n >= 3 && i + n <= |c.ir|
  {
    MatchNormalized(c.ir, i).value.length
  }

  /** Instruction i is not replaced together with others. */
  predicate Alone(c: Unit, i: nat) { !FusedAt(c, i) && !FusesChain(c, i) }

  /** The lines from instruction i to the end of the body, and what follows it. */
  function CodeFrom(c: Unit, i: nat): seq<Instr>
    decreases |c.ir| - i
  {
    if i >= |c.ir| then c.after
    else if FusesChain(c, i) then ChainCode(c, i) + CodeFrom(c, i + ChainLength(c, i))
    else if FusedAt(c, i) then FusedCode(c, i) + CodeFrom(c, i + 2)
    else InstCode(c, i) + CodeFrom(c, i + 1)
  }

  lemma NothingLeft(c: Unit, i: nat)
    requires i >= |c.ir|
    ensures CodeFrom(c, i) == c.after
  {
  }

  lemma AloneCode(c: Unit, i: nat)
    requires i < |c.ir| && Alone(c, i)
    ensures CodeFrom(c, i) == InstCode(c, i) + CodeFrom(c, i + 1)
  {
    hide FusedAt, FusesChain, InstCode;
  }

  lemma ChainHead(c: Unit, i: nat)
    requires FusesChain(c, i)
    ensures CodeFrom(c, i) == ChainCode(c, i) + CodeFrom(c, i + ChainLength(c, i))
  {
    hide ChainCode, MatchNormalized, ChainLength;
  }

  lemma FusedHead(c: Unit, i: nat)
    requires FusedAt(c, i)
    ensures CodeFrom(c, i) == FusedCode(c, i) + CodeFrom(c, i + 2) && !FusesChain(c, i)
  {
    hide FusedCode, UseCount;
    NoChainAtCompare(c, i);
    hide FusedAt, FusesChain;
  }

  lemma NoChainAtCompare(c: Unit, i: nat)
    requires FusedAt(c, i)
    ensures !FusesChain(c, i)
  {
    if FusesChain(c, i) { ChainLines(c.ir, i, i); }
  }
}
