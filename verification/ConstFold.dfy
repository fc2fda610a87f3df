/** Folding constant expressions at compile time, against short-circuit evaluation. */
module ConstFold {
  import opened Ast
  import opened Scoping
  import opened Word

  /** C++ leaves signed overflow undefined; here the folded word wraps. */
  function FoldBinary(op: BinOp, x: i32, y: i32): Option<i32> {
    match op
    case ADD => Some(Wrap(x + y))
    case SUB => Some(Wrap(x - y))
    case MUL => Some(Wrap(x * y))
    case DIV => if y == 0 then None else Some(Wrap(TruncDiv(x, y)))
    case MOD => if y == 0 then None else Some(Wrap(TruncRem(x, y)))
    case LT => Some(Truth(x < y))
    case GT => Some(Truth(x > y))
    case LE => Some(Truth(x <= y))
    case GE => Some(Truth(x >= y))
    case EQ => Some(Truth(x == y))
    case NE => Some(Truth(x != y))
    case AND => Some(Truth(x != 0 && y != 0))
    case OR => Some(Truth(x != 0 || y != 0))
    case ASSIGN => None
  }

  function FoldUnary(op: UnaryOp, x: i32): i32 {
    match op
    case POS => x
    case NEG => Wrap(0 - x)
    case NOT => Truth(x == 0)
  }

  function Truth(b: bool): i32 { if b then 1 else 0 }

  /** The value of an expression whose names are looked up in the open scopes; both operands are always folded. */
  function Fold(stack: seq<ScopeMap>, e: Expr): Option<i32> {
    match e
    case IntLiteral(v) => Some(v)
    case VarExpr(x, _) =>
      var s := Lookup(stack, x);
      if s.Some? && s.value.isConst then Some(s.value.constValue) else None
    case BinaryExpr(op, lhs, rhs) =>
      var x, y := Fold(stack, lhs), Fold(stack, rhs);
      if x.Some? && y.Some? then FoldBinary(op, x.value, y.value) else None
    case UnaryExpr(op, operand) =>
      var x := Fold(stack, operand);
      if x.Some? then Some(FoldUnary(op, x.value)) else None
    case CallExpr(_, _, _) => None
  }

  /** The same value read from the facts recorded at the variables, with no scopes at hand. */
  function FoldRecorded(e: Expr): Option<i32> {
    match e
    case IntLiteral(v) => Some(v)
    case VarExpr(_, r) => if r.isConst then Some(r.constValue) else None
    case BinaryExpr(op, lhs, rhs) =>
      var x, y := FoldRecorded(lhs), FoldRecorded(rhs);
      if x.Some? && y.Some? then FoldBinary(op, x.value, y.value) else None
    case UnaryExpr(op, operand) =>
      var x := FoldRecorded(operand);
      if x.Some? then Some(FoldUnary(op, x.value)) else None
    case CallExpr(_, _, _) => None
  }

  predicate IsConstExpr(stack: seq<ScopeMap>, e: Expr) {
    match e
    case IntLiteral(_) => true
    case VarExpr(x, _) => Lookup(stack, x).Some? && Lookup(stack, x).value.isConst
    case BinaryExpr(_, lhs, rhs) => IsConstExpr(stack, lhs) && IsConstExpr(stack, rhs)
    case UnaryExpr(_, operand) => IsConstExpr(stack, operand)
    case CallExpr(_, _, _) => false
  }

  // ---- the reference: short-circuit evaluation over unbounded integers ----

  function Apply(op: BinOp, x: int, y: int): Option<int> {
    match op
    case ADD => Some(x + y)
    case SUB => Some(x - y)
    case MUL => Some(x * y)
    case DIV => if y == 0 then None else Some(TruncDiv(x, y))
    case MOD => if y == 0 then None else Some(TruncRem(x, y))
    case LT => Some(Truth(x < y))
    case GT => Some(Truth(x > y))
    case LE => Some(Truth(x <= y))
    case GE => Some(Truth(x >= y))
    case EQ => Some(Truth(x == y))
    case NE => Some(Truth(x != y))
    case _ => None
  }

  function Eval(stack: seq<ScopeMap>, e: Expr): Option<int> {
    match e
    case IntLiteral(v) => Some(v)
    case VarExpr(x, _) =>
      var s := Lookup(stack, x);
      if s.Some? && s.value.isConst then Some(s.value.constValue) else None
    case BinaryExpr(op, lhs, rhs) =>
      var x := Eval(stack, lhs);
      if x.None? then None
      else if op.AND? && x.value == 0 then Some(0)
      else if op.OR? && x.value != 0 then Some(1)
      else
        var y := Eval(stack, rhs);
        if y.None? then None
        else if op.AND? || op.OR? then Some(Truth(y.value != 0))
        else Apply(op, x.value, y.value)
    case UnaryExpr(op, operand) =>
      var x := Eval(stack, operand);
      if x.None? then None else
        Some(match op case POS => x.value case NEG => -x.value case NOT => Truth(x.value == 0))
    case CallExpr(_, _, _) => None
  }

  // ---- when folding succeeds, and when its value is right ----

  predicate NoAssignment(e: Expr) {
    match e
    case BinaryExpr(op, lhs, rhs) => !op.ASSIGN? && NoAssignment(lhs) && NoAssignment(rhs)
    case UnaryExpr(_, operand) => NoAssignment(operand)
    case _ => true
  }

  /** No divisor anywhere in the expression folds to zero, not even one evaluation would skip. */
  predicate NoZeroDivisor(stack: seq<ScopeMap>, e: Expr) {
    match e
    case BinaryExpr(op, lhs, rhs) =>
      && NoZeroDivisor(stack, lhs) && NoZeroDivisor(stack, rhs)
      && (op.DIV? || op.MOD? ==> Fold(stack, rhs) != Some(0))
    case UnaryExpr(_, operand) => NoZeroDivisor(stack, operand)
    case _ => true
  }

  /** No operation in the expression leaves the range of `int`; INT_MIN % -1 counts as leaving it. */
  predicate NoOverflow(stack: seq<ScopeMap>, e: Expr) {
    match e
    case BinaryExpr(op, lhs, rhs) =>
      && NoOverflow(stack, lhs) && NoOverflow(stack, rhs)
      && var x, y := Fold(stack, lhs), Fold(stack, rhs);
         x.Some? && y.Some? ==> OpFits(op, x.value, y.value)
    case UnaryExpr(op, operand) =>
      && NoOverflow(stack, operand)
      && (op.NEG? && Fold(stack, operand).Some? ==> FitsInt32(0 - Fold(stack, operand).value))
    case _ => true
  }

  predicate OpFits(op: BinOp, x: i32, y: i32) {
    match op
    case ADD => FitsInt32(x + y)
    case SUB => FitsInt32(x - y)
    case MUL => FitsInt32(x * y)
    case DIV => y == 0 || FitsInt32(TruncDiv(x, y))
    case MOD => y == 0 || FitsInt32(TruncDiv(x, y))
    case _ => true
  }

  /** Folding succeeds exactly on constant expressions with no assignment and no zero divisor in them. */
  lemma {:induction false} FoldsExactly(stack: seq<ScopeMap>, e: Expr)
    ensures Fold(stack, e).Some? <==> IsConstExpr(stack, e) && NoAssignment(e) && NoZeroDivisor(stack, e)
  {
    match e
    case BinaryExpr(op, lhs, rhs) =>
      FoldsExactly(stack, lhs);
      FoldsExactly(stack, rhs);
    case UnaryExpr(op, operand) =>
      FoldsExactly(stack, operand);
    case _ =>
  }

  lemma FoldBinaryApplies(op: BinOp, x: i32, y: i32)
    requires OpFits(op, x, y) && !op.AND? && !op.OR?
    ensures FoldBinary(op, x, y).Some? ==> Apply(op, x, y) == Some(FoldBinary(op, x, y).value)
  {
    hide TruncDiv;
    if op.MOD? && y != 0 {
      TruncDivUnique(x, y, TruncDiv(x, y));
      assert FitsInt32(TruncRem(x, y));
    }
  }

  /** With no overflow, the folded value is the one short-circuit evaluation gives. */
  lemma {:induction false} FoldEvaluates(stack: seq<ScopeMap>, e: Expr)
    requires Fold(stack, e).Some? && NoOverflow(stack, e)
    ensures Eval(stack, e) == Some(Fold(stack, e).value)
  {
    hide Apply;
    match e
    case BinaryExpr(op, lhs, rhs) =>
      FoldEvaluates(stack, lhs);
      FoldEvaluates(stack, rhs);
      if !op.AND? && !op.OR? {
        FoldBinaryApplies(op, Fold(stack, lhs).value, Fold(stack, rhs).value);
      }
    case UnaryExpr(op, operand) =>
      FoldEvaluates(stack, operand);
    case _ =>
  }

  /** Evaluation may skip a division by zero that folding rejects: `0 && 1 / 0`. */
  lemma FoldingIsStricter(stack: seq<ScopeMap>)
    ensures
      var e := BinaryExpr(AND, IntLiteral(0), BinaryExpr(DIV, IntLiteral(1), IntLiteral(0)));
      Eval(stack, e) == Some(0) && Fold(stack, e).None? && IsConstExpr(stack, e)
  {
    var d := BinaryExpr(DIV, IntLiteral(1), IntLiteral(0));
    assert Fold(stack, d).None? && IsConstExpr(stack, d);
    assert Eval(stack, IntLiteral(0)) == Some(0);
  }
}
