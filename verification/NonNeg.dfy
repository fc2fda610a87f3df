/** Which locals cannot be negative, and where: the analysis and the facts it rests on. */
module NonNeg {
  import opened Word
  import opened Ir
  import opened IrFlow
  import opened Frame
  import opened Body
  import opened Remainder

  // --------------------------------------------------------------------------
  // Locals whose every definition is non-negative
  // --------------------------------------------------------------------------

  /** Instruction f ends a chain `((x % m) + m) % m`. */
  predicate EndsChain(ir: seq<IrInst>, f: nat)
  {
    exists a :: 0 <= a < |ir| && MatchNormalized(ir, a).Some? && f == a + MatchNormalized(ir, a).value.length - 1
  }

  /** A definition that puts a value into v. */
  predicate RealDef(inst: IrInst, v: string)
  {
    inst.dest == Local(v) && !(inst.op.LOCAL_VAR_DECL? && inst.src1.NoOperand?) && !ReadsDest(inst.op)
  }

  predicate SetsConstant(inst: IrInst)
  {
    (inst.op.ASSIGN? || inst.op.LOCAL_VAR_DECL?) && inst.src1.Imm? && inst.src1.immVal >= 0
  }

  predicate AlwaysNonneg(ir: seq<IrInst>, v: string)
  {
    && (exists i :: 0 <= i < |ir| && RealDef(ir[i], v))
    && forall i :: 0 <= i < |ir| && RealDef(ir[i], v) ==> SetsConstant(ir[i]) || EndsChain(ir, i)
  }

  // --------------------------------------------------------------------------
  // Counters of reversed loops
  // --------------------------------------------------------------------------

  /** The first label of that name at or below `from`; the length of the body when there is none. */
  function FindLabel(ir: seq<IrInst>, from: nat, name: string): nat
    decreases |ir| - from
  {
    if from >= |ir| || (ir[from].op.LABEL? && NameOf(ir[from].dest) == name) then from
      else FindLabel(ir, from + 1, name)
  }

  function FindBranchBack(ir: seq<IrInst>, from: nat, name: string): nat
    decreases |ir| - from
  {
    if from >= |ir| || (ir[from].op.BNEZ? && NameOf(ir[from].dest) == name) then from
      else FindBranchBack(ir, from + 1, name)
  }

  predicate StopsScan(op: IrOp)
  {
    op.LABEL? || op.BRANCH? || op.BEQZ? || op.BNEZ? || op.CALL? || op.FUNC_BEGIN?
  }

  /** The nearest definition of v above `at`, with no control transfer in between, sets a constant that is
      not negative. */
  predicate StartsNonneg(ir: seq<IrInst>, at: nat, v: string)
    requires at <= |ir|
  {
    at > 0 &&
    if ir[at - 1].dest == Local(v) then SetsConstant(ir[at - 1])
    else !StopsScan(ir[at - 1].op) && StartsNonneg(ir, at - 1, v)
  }

  /** v := v + c or v := v - c, moving up. */
  predicate Increments(inst: IrInst, v: string)
  {
    && (inst.op.ADD? || inst.op.SUB?) && inst.src1 == Local(v) && inst.src2.Imm?
    && (if inst.op.ADD? then inst.src2.immVal else Wrap(-(inst.src2.immVal as int))) > 0
  }

  predicate OnlyIncrements(ir: seq<IrInst>, from: nat, to: nat, v: string)
    requires to <= |ir|
  {
    forall k :: from <= k < to && ir[k].dest == Local(v) ==> Increments(ir[k], v)
  }

  /** A loop that starts at its condition: BRANCH to it at s, the body from s + 1, and the branch back at
      `last`, with the comparison of the counter right above it. */
  datatype Counter = Counter(name: string, last: nat)

  function CounterLoop(ir: seq<IrInst>, s: nat): (r: Option<Counter>)
    ensures r.Some? ==> s + 1 < r.value.last < |ir|
  {
    if s + 1 >= |ir| || !ir[s].op.BRANCH? || !ir[s].dest.Label? || !ir[s + 1].op.LABEL? then None
    else
      var ci := FindLabel(ir, s + 2, ir[s].dest.name);
      if ci >= |ir| then None
      else
        var bi := FindBranchBack(ir, ci + 1, NameOf(ir[s + 1].dest));
        if bi >= |ir| || bi <= ci + 1 || !(ir[bi - 1].op.LT? || ir[bi - 1].op.LE?) || !ir[bi - 1].src1.Local? then None
        else
          var v := ir[bi - 1].src1.name;
          if bi > s + 1 && StartsNonneg(ir, s, v) &&
            OnlyIncrements(ir, s + 2, bi, v) then Some(Counter(v, bi)) else None
  }

  /** v counts some reversed loop and i lies in its body or its condition. */
  predicate CountsAt(ir: seq<IrInst>, v: string, i: nat)
  {
    exists s :: 0 <= s < |ir| && CounterLoop(ir, s).Some? && CounterLoop(ir, s).value.name == v &&
                s + 2 <= i <= CounterLoop(ir, s).value.last
  }

  predicate Seeded(ir: seq<IrInst>, v: string, i: nat) { AlwaysNonneg(ir, v) || CountsAt(ir, v, i) }

  // --------------------------------------------------------------------------
  // Straight-line windows
  // --------------------------------------------------------------------------

  predicate EndsWindow(op: IrOp)
  {
    op.LABEL? || op.BRANCH? || op.BEQZ? || op.BNEZ? || op.CALL? || op.RETURN? || op.FUNC_BEGIN? || op.FUNC_END?
  }

  predicate SourceNonneg(ir: seq<IrInst>, known: set<string>, o: Operand, i: nat)
  {
    (o.Imm? && o.immVal >= 0) || (o.Local? && (o.name in known || Seeded(ir, o.name, i)))
  }

  /** Instruction i puts a value that is not negative into its local destination, given what is known. */
  predicate MakesNonneg(ir: seq<IrInst>, known: set<string>, i: nat)
    requires i < |ir|
  {
    var inst := ir[i];
    inst.dest.Local? &&
    (EndsChain(ir, i) || SetsConstant(inst) ||
     (inst.op.ASSIGN? && inst.src1.Local? && SourceNonneg(ir, known, inst.src1, i)) ||
     (inst.op.ADD? && SourceNonneg(ir, known, inst.src1, i) && SourceNonneg(ir, known, inst.src2, i)) ||
     ((inst.op.DIV? || inst.op.MOD?) && SourceNonneg(ir, known, inst.src1, i) && inst.src2.Imm? &&
      inst.src2.immVal > 0))
  }

  /** The locals known not to be negative when control comes to i along straight-line code. */
  function KnownAt(ir: seq<IrInst>, i: nat): set<string>
    requires i <= |ir|
  {
    if i == 0 then {}
    else
      var known := KnownAt(ir, i - 1);
      if EndsWindow(ir[i - 1].op) then {}
      else
        (known - LocalName(ir[i - 1].dest)) +
        (if MakesNonneg(ir, known, i - 1) then LocalName(ir[i - 1].dest) else {})
  }

  /** i lies in a window of v: from a definition that is not negative to the line before the next
      definition or block end. */
  predicate InWindow(ir: seq<IrInst>, v: string, i: nat)
    requires i < |ir|
  {
    !EndsWindow(ir[i].op) &&
    (if ir[i].dest == Local(v) then MakesNonneg(ir, KnownAt(ir, i), i) else v in KnownAt(ir, i))
  }

  /** Everything the analysis claims. */
  predicate ClaimedNonneg(ir: seq<IrInst>, v: string, i: nat)
    requires i < |ir|
  {
    Seeded(ir, v, i) || InWindow(ir, v, i)
  }
}
