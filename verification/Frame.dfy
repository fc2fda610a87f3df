/** The per-function allocation tables and the stack frame they imply. */
module Frame {
  import opened Word
  import opened Ir
  import opened Rv32

  datatype Option<+T> = None | Some(value: T) {
    function GetOr(default: T): T { if Some? then value else default }
  }

  datatype StackFrame = StackFrame(
    hasCall: bool,
    hasStackParameters: bool,
    localBytes: int,
    outgoingArgumentBytes: int,
    localOffsets: map<string, int>,
    regAlloc: map<string, nat>,
    leafRegAlloc: map<string, Reg>,
    globalRegAlloc: map<string, Reg>,
    tempRegs: map<string, Reg>,
    constantRegAlloc: map<i32, Reg>,
    usedCalleeSavedRegisters: seq<Reg>)

  const WORD_BYTES := 4
  const STACK_ALIGNMENT := 16

  /** The register bound to a local variable, if any. */
  function RegForVar(f: StackFrame, name: string): Option<Reg>
  {
    if name in f.leafRegAlloc then Some(f.leafRegAlloc[name])
    else if name in f.regAlloc then Some(S(f.regAlloc[name]))
    else if name in f.tempRegs then Some(f.tempRegs[name])
    else None
  }

  /** The register copy of a local or cached global operand. */
  function RegForOperand(f: StackFrame, o: Operand): Option<Reg>
  {
    match o
    case Local(name) => RegForVar(f, name)
    case Global(name) => if name in f.globalRegAlloc then Some(f.globalRegAlloc[name]) else None
    case _ => None
  }

  function RegForConstant(f: StackFrame, c: i32): Option<Reg>
  {
    if c in f.constantRegAlloc then Some(f.constantRegAlloc[c]) else None
  }

  /** Offset of a spilled local from the frame pointer. */
  function LocalOffset(f: StackFrame, name: string): int
  {
    if name !in f.localOffsets || f.localOffsets[name] < 0 then 0
    else -(WORD_BYTES * (2 + |f.usedCalleeSavedRegisters| + f.localOffsets[name] + 1))
  }

  /** The registers the allocator hands out: never x0, ra, sp, the frame pointer, s1 or t0-t2. */
  predicate Allocatable(r: Reg)
  {
    match r
    case A(n) => n <= 7
    case S(n) => 2 <= n <= 11
    case T(n) => 3 <= n <= 6
    case _ => false
  }

  /** Where a variable lives while the function body runs. */
  datatype Place = InReg(r: Reg) | InMem(a: i32)

  function PlaceOf(f: StackFrame, s: State, o: Operand): Place
    requires IsVariable(o)
  {
    match RegForOperand(f, o)
    case Some(r) => InReg(r)
    case None =>
      if o.Local? then InMem(Wrap(R(s, S(0)) + LocalOffset(f, o.name))) else InMem(SymAddr(s, o.name))
  }

  function Get(s: State, p: Place): i32
  {
    match p
    case InReg(r) => R(s, r)
    case InMem(a) => Load(s, a)
  }

  /** The value an operand has in a machine state. */
  function Val(f: StackFrame, s: State, o: Operand): i32
    requires IsValue(o)
  {
    if o.Imm? then o.immVal else Get(s, PlaceOf(f, s, o))
  }

  /** t is s with v in place p, up to scratch registers. */
  ghost predicate Written(s: State, t: State, p: Place, v: i32, spill: bool)
  {
    match p
    case InReg(r) => Computed(s, t, r, v, spill)
    case InMem(a) => Stored(s, t, a, v, spill)
  }

  /** Allocated registers are allocatable, and hoisted constants do not share a register with a variable. */
  ghost predicate BanksOk(f: StackFrame)
  {
    && (forall v :: v in f.leafRegAlloc ==> Allocatable(f.leafRegAlloc[v]))
    && (forall v :: v in f.regAlloc ==> 2 <= f.regAlloc[v] <= 11)
    && (forall v :: v in f.tempRegs ==> Allocatable(f.tempRegs[v]))
    && (forall g :: g in f.globalRegAlloc ==> Allocatable(f.globalRegAlloc[g]))
    && (forall c :: c in f.constantRegAlloc ==> Allocatable(f.constantRegAlloc[c]))
    && (forall c, o :: c in f.constantRegAlloc && IsVariable(o) && RegForOperand(f, o).Some? ==>
          RegForOperand(f, o).value != f.constantRegAlloc[c])
  }

  /** What the emitters rely on: besides, offsets are machine integers. */
  ghost predicate TablesOk(f: StackFrame)
  {
    BanksOk(f) && forall v :: v in f.localOffsets ==> FitsInt32(LocalOffset(f, v))
  }

  /** An operand of the function being generated: its local has an offset, its register is real. */
  predicate OperandOk(f: StackFrame, o: Operand)
  {
    && (o.Local? ==> o.name in f.localOffsets && FitsInt32(LocalOffset(f, o.name)))
    && (RegForOperand(f, o).Some? ==> Allocatable(RegForOperand(f, o).value))
  }

  lemma RegisterOk(f: StackFrame, o: Operand)
    requires TablesOk(f) && RegForOperand(f, o).Some?
    ensures Allocatable(RegForOperand(f, o).value)
  {
  }

  /** No hoisted constant lives in a scratch register. */
  ghost predicate ConstantsKept(f: StackFrame, spill: bool)
  {
    forall c :: c in f.constantRegAlloc ==> Kept(f.constantRegAlloc[c], spill)
  }

  /** The registers of the hoisted constants hold their constants. */
  ghost predicate ConstantsHold(f: StackFrame, s: State)
  {
    forall c :: c in f.constantRegAlloc ==>
      R(s, f.constantRegAlloc[c]) == c && Allocatable(f.constantRegAlloc[c])
  }
}
