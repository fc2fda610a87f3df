/** The syntax tree, with the fields that semantic analysis fills in. */
module Ast {
  import opened Word

  datatype Option<T> = None | Some(value: T)

  datatype Type = INT | VOID

  datatype BinOp = ADD | SUB | MUL | DIV | MOD | LT | GT | LE | GE | EQ | NE | AND | OR | ASSIGN

  datatype UnaryOp = POS | NEG | NOT

  /** What analysis records at a variable: the facts of the declaration the name resolves to. */
  datatype Resolution = Resolution(typ: Type, isConst: bool, constValue: i32, isGlobal: bool, isFunc: bool)

  datatype Expr =
    | IntLiteral(value: i32)
    | VarExpr(name: string, resolved: Resolution)
    | BinaryExpr(op: BinOp, lhs: Expr, rhs: Expr)
    | UnaryExpr(uop: UnaryOp, operand: Expr)
    | CallExpr(funcName: string, args: seq<Expr>, retType: Type)

  datatype Decl = Decl(
    name: string, varType: Type, isConst: bool, init: Option<Expr>,
    constValue: i32, isGlobalDecl: bool)

  datatype Stmt =
    | Block(stmts: seq<Stmt>)
    | ExprStmt(expr: Option<Expr>)
    | DeclStmt(decls: seq<Decl>)
    | IfStmt(condition: Expr, thenBranch: Stmt, elseBranch: Option<Stmt>)
    | WhileStmt(condition: Expr, body: Stmt)
    | BreakStmt
    | ContinueStmt
    | ReturnStmt(result: Option<Expr>)

  datatype FuncParam = FuncParam(name: string, typ: Type)

  datatype FuncDef = FuncDef(name: string, retType: Type, params: seq<FuncParam>, body: Option<seq<Stmt>>)

  datatype GlobalDecl = Function(def: FuncDef) | Variable(decl: Decl)

  /** The type analysis records at an expression's root. */
  function TypeOf(e: Expr): Type {
    match e
    case VarExpr(_, r) => r.typ
    case CallExpr(_, _, t) => t
    case BinaryExpr(op, lhs, _) => if op.ASSIGN? then TypeOf(lhs) else INT
    case _ => INT
  }

  // ---- `a` is `e` up to the fields that analysis fills in ----

  predicate Annotates(a: Expr, e: Expr) {
    match e
    case IntLiteral(_) => a == e
    case VarExpr(x, _) => a.VarExpr? && a.name == x
    case BinaryExpr(op, l, r) => a.BinaryExpr? && a.op == op && Annotates(a.lhs, l) && Annotates(a.rhs, r)
    case UnaryExpr(op, x) => a.UnaryExpr? && a.uop == op && Annotates(a.operand, x)
    case CallExpr(f, args, _) =>
      && a.CallExpr? && a.funcName == f && |a.args| == |args|
      && forall k :: 0 <= k < |args| ==> Annotates(a.args[k], args[k])
  }

  predicate AnnotatesOption(a: Option<Expr>, e: Option<Expr>) {
    match e
    case None => a.None?
    case Some(x) => a.Some? && Annotates(a.value, x)
  }

  predicate AnnotatesDecl(a: Decl, d: Decl) {
    a.name == d.name && a.varType == d.varType && a.isConst == d.isConst && AnnotatesOption(a.init, d.init)
  }

  predicate AnnotatesDecls(a: seq<Decl>, ds: seq<Decl>) {
    |a| == |ds| && forall k :: 0 <= k < |ds| ==> AnnotatesDecl(a[k], ds[k])
  }

  predicate AnnotatesStmt(a: Stmt, s: Stmt) {
    match s
    case Block(ss) => a.Block? && |a.stmts| == |ss| && forall k :: 0 <= k < |ss| ==> AnnotatesStmt(a.stmts[k], ss[k])
    case ExprStmt(e) => a.ExprStmt? && AnnotatesOption(a.expr, e)
    case DeclStmt(ds) => a.DeclStmt? && AnnotatesDecls(a.decls, ds)
    case IfStmt(c, t, None) => a.IfStmt? && Annotates(a.condition, c) && AnnotatesStmt(a.thenBranch, t) &&
      a.elseBranch.None?
    case IfStmt(c, t, Some(f)) =>
      && a.IfStmt? && Annotates(a.condition, c) && AnnotatesStmt(a.thenBranch, t)
      && a.elseBranch.Some? && AnnotatesStmt(a.elseBranch.value, f)
    case WhileStmt(c, b) => a.WhileStmt? && Annotates(a.condition, c) && AnnotatesStmt(a.body, b)
    case ReturnStmt(e) => a.ReturnStmt? && AnnotatesOption(a.result, e)
    case _ => a == s
  }

  predicate AnnotatesStmts(a: seq<Stmt>, ss: seq<Stmt>) {
    |a| == |ss| && forall k :: 0 <= k < |ss| ==> AnnotatesStmt(a[k], ss[k])
  }

  predicate AnnotatesFunc(a: FuncDef, f: FuncDef) {
    && a.name == f.name && a.retType == f.retType && a.params == f.params
    && a.body.Some? == f.body.Some?
    && (f.body.Some? ==> AnnotatesStmts(a.body.value, f.body.value))
  }

  predicate AnnotatesGlobal(a: GlobalDecl, g: GlobalDecl) {
    match g
    case Function(f) => a.Function? && AnnotatesFunc(a.def, f)
    case Variable(d) => a.Variable? && AnnotatesDecl(a.decl, d)
  }

  predicate AnnotatesUnit(a: seq<GlobalDecl>, gs: seq<GlobalDecl>) {
    |a| == |gs| && forall k :: 0 <= k < |gs| ==> AnnotatesGlobal(a[k], gs[k])
  }
}
