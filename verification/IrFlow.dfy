/** Control flow of a function body in the intermediate representation. */
module IrFlow {
  import opened Ir

  datatype Found = Nowhere | Somewhere(at: nat)

  /** The position a label name maps to; a later definition overwrites an earlier one. */
  function LabelPosition(ir: seq<IrInst>, name: string): (f: Found)
    ensures f.Somewhere? ==> f.at < |ir| && ir[f.at].op.LABEL? && ir[f.at].dest == Label(name)
  {
    if ir == [] then Nowhere
    else
      var n := |ir| - 1;
      if ir[n].op.LABEL? && ir[n].dest == Label(name) then Somewhere(n)
      else LabelPosition(ir[..n], name)
  }

  /** The last label of that name is the one a jump goes to. */
  lemma {:induction false} LabelIsAt(ir: seq<IrInst>, name: string, at: nat, n: nat)
    requires at < n <= |ir| && ir[at].op.LABEL? && ir[at].dest == Label(name)
    requires forall k :: at < k < n && ir[k].op.LABEL? ==> ir[k].dest != Label(name)
    ensures LabelPosition(ir[..n], name) == Somewhere(at)
    ensures n == |ir| ==> LabelPosition(ir, name) == Somewhere(at)
  {
    assert ir[..n][..n - 1] == ir[..n - 1];
    if at < n - 1 { LabelIsAt(ir, name, at, n - 1); }
    if n == |ir| { assert ir[..n] == ir; }
  }

  function TargetOf(ir: seq<IrInst>, o: Operand): (r: seq<nat>)
    ensures forall j :: j in r ==> j < |ir|
  {
    if !o.Label? then []
    else match LabelPosition(ir, o.name)
      case Nowhere => []
      case Somewhere(j) => [j]
  }

  /** Where control may go from instruction i. */
  function Successors(ir: seq<IrInst>, i: nat): (r: seq<nat>)
    requires i < |ir|
    ensures forall j :: j in r ==> j < |ir|
  {
    var next := if i + 1 < |ir| then [i + 1] else [];
    match ir[i].op
    case BRANCH => TargetOf(ir, ir[i].dest)
    case BEQZ => TargetOf(ir, ir[i].dest) + next
    case BNEZ => TargetOf(ir, ir[i].dest) + next
    case RETURN => []
    case _ => next
  }

  function LocalName(o: Operand): set<string> { if o.Local? then {o.name} else {} }

  /** A position that is no label is reached only from the line above. */
  lemma OnlyFromLineAbove(ir: seq<IrInst>, q: nat, p: nat)
    requires q < |ir| && p < |ir| && p in Successors(ir, q) && !ir[p].op.LABEL?
    ensures p == q + 1
  {
  }

  /** RETURN and PARAM read their first operand instead of writing it. */
  predicate ReadsDest(op: IrOp) { op.RETURN? || op.PARAM? }

  function UsedLocals(inst: IrInst): set<string>
  {
    LocalName(inst.src1) + LocalName(inst.src2) + (if ReadsDest(inst.op) then LocalName(inst.dest) else {})
  }

  predicate DefinesLocal(inst: IrInst) { inst.dest.Local? && !ReadsDest(inst.op) }

  predicate Defines(inst: IrInst, v: string) { DefinesLocal(inst) && inst.dest.name == v }

  predicate IsCopy(inst: IrInst) { inst.op.ASSIGN? && inst.src1.Local? }

  /** Every local named in the body. */
  function Locals(ir: seq<IrInst>): set<string>
  {
    set i, v | 0 <= i < |ir| && v in LocalName(ir[i].dest) + LocalName(ir[i].src1) + LocalName(ir[i].src2) :: v
  }

  function GlobalName(o: Operand): set<string> { if o.Global? then {o.name} else {} }

  /** Every global named in the body. */
  function NamedGlobals(ir: seq<IrInst>): set<string>
  {
    set i, g | 0 <= i < |ir| && g in GlobalName(ir[i].dest) + GlobalName(ir[i].src1) + GlobalName(ir[i].src2) :: g
  }

  predicate HasCall(ir: seq<IrInst>) { exists i :: 0 <= i < |ir| && ir[i].op.CALL? }

  predicate DeclaresParam(inst: IrInst) { inst.op.LOCAL_VAR_DECL? && inst.dest.Local? && inst.src1.Param? }

  /** Number of parameters declared before instruction n. */
  function ParamIndex(ir: seq<IrInst>, n: nat): nat
    requires n <= |ir|
  {
    if n == 0 then 0 else ParamIndex(ir, n - 1) + (if DeclaresParam(ir[n - 1]) then 1 else 0)
  }
}
