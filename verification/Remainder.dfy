/** The remainder that is never negative, `((x % m) + m) % m`: the shapes it takes in the intermediate
    representation and the shorter code that replaces them. */
module Remainder {
  import opened Word
  import opened Ir
  import opened IrFlow
  import opened Rv32
  import opened Frame
  import opened Selection
  import opened BinaryOp

  // --------------------------------------------------------------------------
  // The shapes
  // --------------------------------------------------------------------------

  /** A remainder by a constant above 1, as one MOD or as DIV, MUL and SUB. */
  datatype RawRemainder = RawRemainder(source: Operand, destination: Operand, modulus: i32, length: nat)

  datatype Normalized = Normalized(source: Operand, destination: Operand, intermediate: Operand, modulus: i32,
                                   length: nat)

  predicate ProductOf(product: IrInst, first: IrInst)
  {
    product.op.MUL? && product.dest.Local? &&
    ((product.src1 == first.dest && product.src2 == first.src2) ||
     (product.src2 == first.dest && product.src1 == first.src2))
  }

  function MatchRaw(ir: seq<IrInst>, a: nat): (r: Option<RawRemainder>)
    ensures r.Some? ==> r.value.length in {1, 3} && a + r.value.length <= |ir| && r.value.modulus > 1
  {
    if a >= |ir| then None
    else if ir[a].op.MOD? && ir[a].src2.Imm? && ir[a].src2.immVal > 1 && IsVariable(ir[a].dest) then
      Some(RawRemainder(ir[a].src1, ir[a].dest, ir[a].src2.immVal, 1))
    else if a + 2 >= |ir| || !ir[a].op.DIV? || !ir[a].dest.Local? || !ir[a].src2.Imm? ||
      ir[a].src2.immVal <= 1 then None
    else if !ProductOf(ir[a + 1], ir[a]) || !ir[a + 2].op.SUB? || !IsVariable(ir[a + 2].dest) ||
            ir[a + 2].src1 != ir[a].src1 || ir[a + 2].src2 != ir[a + 1].dest then None
    else Some(RawRemainder(ir[a].src1, ir[a + 2].dest, ir[a].src2.immVal, 3))
  }

  function MatchNormalized(ir: seq<IrInst>, a: nat): (r: Option<Normalized>)
    ensures r.Some? ==> a + r.value.length <= |ir| && r.value.length >= 3
  {
    match MatchRaw(ir, a)
    case None => None
    case Some(first) =>
      var at := a + first.length;
      if at >= |ir| || !ir[at].op.ADD? || !ir[at].dest.Local? || ir[at].dest != first.destination ||
         ir[at].src1 != first.destination || ir[at].src2 != Imm(first.modulus) then None
      else match MatchRaw(ir, at + 1)
        case None => None
        case Some(second) =>
          if second.modulus != first.modulus || second.source != ir[at].dest then None
          else Some(Normalized(first.source, second.destination, ir[at].dest, first.modulus,
                               first.length + 1 + second.length))
  }

  /** A line inside a chain computes a value into a variable. */
  lemma ChainLines(ir: seq<IrInst>, a: nat, i: nat)
    requires MatchNormalized(ir, a).Some? && a <= i < a + MatchNormalized(ir, a).value.length
    ensures i < |ir| && IsArithmetic(ir[i].op) && IsVariable(ir[i].dest)
  {
  }

  lemma ChainOpens(ir: seq<IrInst>, a: nat)
    requires MatchNormalized(ir, a).Some?
    ensures a < |ir| && (ir[a].op.MOD? || ir[a].op.DIV?)
  {
  }

  lemma ChainEnds(ir: seq<IrInst>, a: nat)
    requires MatchNormalized(ir, a).Some?
    ensures var n := MatchNormalized(ir, a).value;
            && n.modulus > 1 && a + n.length <= |ir| && n.length >= 3 && n.intermediate.Local?
            && n.source == ir[a].src1 && n.destination == ir[a + n.length - 1].dest && IsVariable(n.destination)
  {
  }

  /** The quotient and the product do not overwrite the dividend. The matcher does not check this. */
  predicate TempsApart(ir: seq<IrInst>, a: nat)
    requires MatchRaw(ir, a).Some?
  {
    MatchRaw(ir, a).value.length == 3 ==> ir[a].dest != ir[a].src1 && ir[a + 1].dest != ir[a].src1
  }

  predicate ChainApart(ir: seq<IrInst>, a: nat)
    requires MatchNormalized(ir, a).Some?
  {
    TempsApart(ir, a) && TempsApart(ir, a + MatchRaw(ir, a).value.length + 1)
  }

  /** The variables a raw remainder writes besides its destination. */
  function RawTemps(ir: seq<IrInst>, a: nat): set<Operand>
    requires MatchRaw(ir, a).Some?
  {
    if MatchRaw(ir, a).value.length == 3 then {ir[a].dest, ir[a + 1].dest} else {}
  }

  function ChainTemps(ir: seq<IrInst>, a: nat): set<Operand>
    requires MatchNormalized(ir, a).Some?
  {
    RawTemps(ir, a) + RawTemps(ir, a + MatchRaw(ir, a).value.length + 1) + {MatchNormalized(ir, a).value.intermediate}
  }

  /** Every line of a chain writes a temporary or the destination. */
  lemma ChainDests(ir: seq<IrInst>, a: nat, i: nat)
    requires MatchNormalized(ir, a).Some? && a <= i < a + MatchNormalized(ir, a).value.length
    ensures i < |ir| && ir[i].dest in ChainTemps(ir, a) + {MatchNormalized(ir, a).value.destination}
  {
  }

  // --------------------------------------------------------------------------
  // The code
  // --------------------------------------------------------------------------

  function FusedRemainderCode(f: StackFrame, n: Normalized, localNonneg: bool): seq<Instr>
    requires n.modulus > 1 && IsVariable(n.destination) && IsValue(n.source)
  {
    if IsPowerOfTwo(n.modulus) then
      var dest, clear := DestRegOrT0(f, n.destination), 32 - Ctz(n.modulus);
      LoadCode(f, n.source, dest) + [AluI(Slli, dest, dest, clear), AluI(Srli, dest, dest, clear)] +
      SettleCode(f, n.destination)
    else BinaryCode(f, IrInst(MOD, n.destination, n.source, Imm(n.modulus)), localNonneg)
  }

  // --------------------------------------------------------------------------
  // Is the intermediate still wanted?
  // --------------------------------------------------------------------------

  /** A use of v at or below `from` before the next line that writes it, in the order of the text. */
  predicate ScanLive(ir: seq<IrInst>, from: nat, v: string)
    decreases |ir| - from
  {
    from < |ir| && (v in UsedLocals(ir[from]) || (ir[from].dest != Local(v) && ScanLive(ir, from + 1, v)))
  }

  method IntermediateLive(ir: seq<IrInst>, from: nat, v: string) returns (live: bool)
    ensures live <==> ScanLive(ir, from, v)
  {
    var position := from;
    while position < |ir|
      invariant from <= position
      invariant ScanLive(ir, from, v) <==> ScanLive(ir, position, v)
    {
      if v in UsedLocals(ir[position]) { return true; }
      if ir[position].dest == Local(v) { return false; }
      position := position + 1;
    }
    return false;
  }
}
