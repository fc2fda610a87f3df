/** The three-address intermediate representation. */
module Ir {
  import opened Word

  datatype Operand =
    | Imm(immVal: i32)
    | Local(name: string)
    | Global(name: string)
    | Label(name: string)
    | Func(name: string)
    | Param(name: string)
    | NoOperand

  datatype IrOp =
    | ADD | SUB | MUL | DIV | MOD
    | NOT
    | LT | GT | LE | GE | EQ | NE
    | ASSIGN | LOAD | STORE
    | CALL | RETURN | PARAM
    | LABEL | BRANCH | BEQZ | BNEZ
    | FUNC_BEGIN | FUNC_END | GLOBAL_VAR_DECL | LOCAL_VAR_DECL

  datatype IrInst = IrInst(op: IrOp, dest: Operand, src1: Operand, src2: Operand)

  predicate IsArithmetic(op: IrOp) { op.ADD? || op.SUB? || op.MUL? || op.DIV? || op.MOD? }

  predicate IsCompare(op: IrOp) { op.LT? || op.GT? || op.LE? || op.GE? || op.EQ? || op.NE? }

  predicate IsVariable(o: Operand) { o.Local? || o.Global? }

  predicate IsValue(o: Operand) { o.Imm? || o.Local? || o.Global? }

  /** What an arithmetic instruction computes: wrapping words, and the target's division. */
  function Arithmetic(op: IrOp, a: i32, b: i32): i32
    requires IsArithmetic(op)
  {
    match op
    case ADD => Wrap(a + b)
    case SUB => Wrap(a - b)
    case MUL => Wrap(a * b)
    case DIV => RvDiv(a, b)
    case MOD => RvRem(a, b)
  }

  predicate Compares(op: IrOp, a: i32, b: i32)
    requires IsCompare(op)
  {
    match op
    case LT => a < b
    case GT => a > b
    case LE => a <= b
    case GE => a >= b
    case EQ => a == b
    case NE => a != b
  }

  function Bit(b: bool): i32 { if b then 1 else 0 }
}
