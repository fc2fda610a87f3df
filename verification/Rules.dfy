/** The static rules: which scope events a program gives rise to, and what else must hold of the annotated tree. */
module Rules {
  import opened Ast
  import opened Scoping
  import opened ConstFold

  // ---- events, in the order the program text is read ----

  function Events(e: Expr): seq<Event>
    decreases e
  {
    match e
    case IntLiteral(_) => []
    case VarExpr(x, r) => [Use(x, r)]
    case BinaryExpr(op, lhs, rhs) =>
      Events(lhs) + Events(rhs) + (if op.ASSIGN? && lhs.VarExpr? then [Store(lhs.name)] else [])
    case UnaryExpr(_, operand) => Events(operand)
    case CallExpr(f, args, t) => [Call(f, |args|, t)] + ArgEvents(args)
  }

  function ArgEvents(es: seq<Expr>): seq<Event>
    decreases es
  {
    if es == [] then [] else ArgEvents(es[..|es| - 1]) + Events(es[|es| - 1])
  }

  function OptionEvents(e: Option<Expr>): seq<Event> {
    if e.Some? then Events(e.value) else []
  }

  function SymbolOf(d: Decl): Symbol {
    var value := if d.isConst && d.init.Some? then d.constValue else 0;
    Symbol(d.name, d.varType, d.isConst, false, d.isGlobalDecl, false, value, [])
  }

  function ParamSymbol(p: FuncParam): Symbol {
    Symbol(p.name, p.typ, false, false, false, true, 0, [])
  }

  function FuncSymbol(f: FuncDef): Symbol {
    Symbol(f.name, f.retType, false, true, true, false, 0,
           seq(|f.params|, i requires 0 <= i < |f.params| => f.params[i].typ))
  }

  /** A declared name is visible only after its initialiser. */
  function DeclEvents(d: Decl): seq<Event> {
    OptionEvents(d.init) + [Declare(SymbolOf(d))]
  }

  function DeclsEvents(ds: seq<Decl>): seq<Event> {
    if ds == [] then [] else DeclsEvents(ds[..|ds| - 1]) + DeclEvents(ds[|ds| - 1])
  }

  function StmtEvents(s: Stmt): seq<Event>
    decreases s
  {
    match s
    case Block(ss) => [Enter] + StmtsEvents(ss) + [Leave]
    case ExprStmt(e) => OptionEvents(e)
    case DeclStmt(ds) => DeclsEvents(ds)
    case IfStmt(c, t, None) => Events(c) + StmtEvents(t)
    case IfStmt(c, t, Some(f)) => Events(c) + StmtEvents(t) + StmtEvents(f)
    case WhileStmt(c, b) => Events(c) + StmtEvents(b)
    case ReturnStmt(e) => OptionEvents(e)
    case _ => []
  }

  function StmtsEvents(ss: seq<Stmt>): seq<Event>
    decreases ss
  {
    if ss == [] then [] else StmtsEvents(ss[..|ss| - 1]) + StmtEvents(ss[|ss| - 1])
  }

  function ParamsEvents(ps: seq<FuncParam>): seq<Event> {
    if ps == [] then [] else ParamsEvents(ps[..|ps| - 1]) + [Declare(ParamSymbol(ps[|ps| - 1]))]
  }

  /** Parameters and the body's own declarations share one scope. */
  function FuncEvents(f: FuncDef): seq<Event> {
    [Enter] + ParamsEvents(f.params) + (if f.body.Some? then StmtsEvents(f.body.value) else []) + [Leave]
  }

  function GlobalEvents(g: GlobalDecl): seq<Event> {
    match g
    case Function(f) => FuncEvents(f)
    case Variable(d) => DeclEvents(d)
  }

  function GlobalsEvents(gs: seq<GlobalDecl>): seq<Event> {
    if gs == [] then [] else GlobalsEvents(gs[..|gs| - 1]) + GlobalEvents(gs[|gs| - 1])
  }

  /** Every function is declared before anything else, wherever its definition stands. */
  function Hoisted(gs: seq<GlobalDecl>): seq<Event> {
    if gs == [] then [] else
      Hoisted(gs[..|gs| - 1]) +
      (match gs[|gs| - 1] case Function(f) => [Declare(FuncSymbol(f))] case Variable(_) => [])
  }

  function UnitEvents(gs: seq<GlobalDecl>): seq<Event> {
    Hoisted(gs) + GlobalsEvents(gs)
  }

  // ---- the rules that are not about scope ----

  predicate ExprRules(e: Expr) {
    match e
    case BinaryExpr(op, lhs, rhs) =>
      && ExprRules(lhs) && ExprRules(rhs)
      && (if op.ASSIGN? then lhs.VarExpr? else TypeOf(lhs) != VOID && TypeOf(rhs) != VOID)
    case UnaryExpr(_, operand) => ExprRules(operand) && TypeOf(operand) != VOID
    case CallExpr(_, args, _) => forall k :: 0 <= k < |args| ==> ExprRules(args[k])
    case _ => true
  }

  predicate OptionRules(e: Option<Expr>) { e.Some? ==> ExprRules(e.value) }

  /** An initialiser has a value; that of a constant or of a global folds to the recorded constant. */
  predicate DeclRules(d: Decl) {
    d.init.Some? ==>
      && ExprRules(d.init.value) && TypeOf(d.init.value) != VOID
      && (d.isConst || d.isGlobalDecl ==> FoldRecorded(d.init.value) == Some(d.constValue))
  }

  predicate DeclsRules(ds: seq<Decl>) { forall k :: 0 <= k < |ds| ==> DeclRules(ds[k]) }

  predicate StmtRules(s: Stmt, ret: Type, loops: nat) {
    match s
    case Block(ss) => forall k :: 0 <= k < |ss| ==> StmtRules(ss[k], ret, loops)
    case ExprStmt(e) => OptionRules(e)
    case DeclStmt(ds) => DeclsRules(ds)
    case IfStmt(c, t, None) => ExprRules(c) && StmtRules(t, ret, loops)
    case IfStmt(c, t, Some(f)) => ExprRules(c) && StmtRules(t, ret, loops) && StmtRules(f, ret, loops)
    case WhileStmt(c, b) => ExprRules(c) && StmtRules(b, ret, loops + 1)
    case ReturnStmt(None) => ret == VOID
    case ReturnStmt(Some(v)) => ret == INT && ExprRules(v) && TypeOf(v) != VOID
    case _ => loops > 0
  }

  predicate StmtsRules(ss: seq<Stmt>, ret: Type, loops: nat) {
    forall k :: 0 <= k < |ss| ==> StmtRules(ss[k], ret, loops)
  }

  predicate GlobalRules(g: GlobalDecl) {
    match g
    case Function(f) => f.body.Some? ==> StmtsRules(f.body.value, f.retType, 0)
    case Variable(d) => DeclRules(d)
  }

  predicate UnitRules(gs: seq<GlobalDecl>) { forall k :: 0 <= k < |gs| ==> GlobalRules(gs[k]) }

  // ---- expressions leave the scopes alone ----

  predicate Still(t: seq<Event>) {
    forall k :: 0 <= k < |t| ==> !t[k].Enter? && !t[k].Leave? && !t[k].Declare?
  }

  lemma {:induction false} StillRuns(stack: seq<ScopeMap>, t: seq<Event>)
    requires stack != [] && Still(t)
    ensures Run(stack, t) == stack
  {
    if t != [] {
      StillRuns(stack, t[..|t| - 1]);
    }
  }

  lemma {:induction false} ExprStill(e: Expr)
    ensures Still(Events(e))
    decreases e
  {
    match e
    case BinaryExpr(_, lhs, rhs) =>
      ExprStill(lhs);
      ExprStill(rhs);
    case UnaryExpr(_, operand) => ExprStill(operand);
    case CallExpr(_, args, _) => ArgsStill(args);
    case _ =>
  }

  lemma {:induction false} ArgsStill(es: seq<Expr>)
    ensures Still(ArgEvents(es))
    decreases es
  {
    if es != [] {
      ArgsStill(es[..|es| - 1]);
      ExprStill(es[|es| - 1]);
    }
  }

  /** An expression's events, then more: the scopes the second part sees are those the first part saw. */
  lemma ExprThen(stack: seq<ScopeMap>, e: Expr, u: seq<Event>)
    requires stack != []
    ensures Run(stack, Events(e)) == stack
    ensures Run(stack, Events(e) + u) == Run(stack, u)
    ensures Resolves(stack, Events(e) + u) == (Resolves(stack, Events(e)) && Resolves(stack, u))
  {
    ExprStill(e);
    StillRuns(stack, Events(e));
    Concatenates(stack, Events(e), u);
  }

  lemma {:induction false} ArgsRun(stack: seq<ScopeMap>, es: seq<Expr>)
    requires stack != []
    ensures Run(stack, ArgEvents(es)) == stack
  {
    ArgsStill(es);
    StillRuns(stack, ArgEvents(es));
  }

  /** Where every use is recorded as its scope demands, the recorded facts fold to what the scopes fold to. */
  lemma {:induction false} RecordedFolds(stack: seq<ScopeMap>, e: Expr)
    requires stack != [] && Resolves(stack, Events(e))
    ensures FoldRecorded(e) == Fold(stack, e)
  {
    hide FoldBinary, Lookup, Resolves, Events;
    match e
    case VarExpr(x, r) => VariableRecorded(stack, x, r);
    case BinaryExpr(op, lhs, rhs) =>
      OperandsResolve(stack, op, lhs, rhs);
      RecordedFolds(stack, lhs);
      RecordedFolds(stack, rhs);
    case UnaryExpr(op, operand) =>
      assert Events(e) == Events(operand) by { UnaryEvents(op, operand); }
      RecordedFolds(stack, operand);
    case _ =>
  }

  lemma UnaryEvents(op: UnaryOp, operand: Expr)
    ensures Events(UnaryExpr(op, operand)) == Events(operand)
  {
  }

  lemma VariableRecorded(stack: seq<ScopeMap>, x: string, r: Resolution)
    requires stack != [] && Resolves(stack, Events(VarExpr(x, r)))
    ensures Lookup(stack, x).Some? && r == ResolutionOf(Lookup(stack, x).value)
  {
    OneEvent(stack, Use(x, r));
  }

  lemma OperandsResolve(stack: seq<ScopeMap>, op: BinOp, lhs: Expr, rhs: Expr)
    requires stack != [] && Resolves(stack, Events(BinaryExpr(op, lhs, rhs)))
    ensures Resolves(stack, Events(lhs)) && Resolves(stack, Events(rhs))
  {
    hide Resolves, Run;
    var store := if op.ASSIGN? && lhs.VarExpr? then [Store(lhs.name)] else [];
    assert Events(BinaryExpr(op, lhs, rhs)) == Events(lhs) + (Events(rhs) + store);
    ExprThen(stack, lhs, Events(rhs) + store);
    ExprThen(stack, rhs, store);
  }

  lemma OneEvent(stack: seq<ScopeMap>, e: Event)
    requires stack != []
    ensures Resolves(stack, [e]) == Permits(stack, e)
    ensures Run(stack, [e]) == After(stack, e)
  {
    assert [e][..0] == [];
    assert Resolves(stack, []);
    assert Run(stack, []) == stack;
  }
}
