/**
  The semantic analyzer. It walks the tree once, keeping the table of open scopes, and returns the tree with its
  annotations filled in. `Analyze` reports no error exactly when the annotated program obeys the scope rules, as
  positions in the program text state them, and the static rules.
 */
module SemanticAnalyzer {
  import opened Word
  import opened Ast
  import opened Scoping
  import opened ConstFold
  import opened Rules
  import opened SymbolTable

  datatype Fault =
    | FunctionRedefined | ParameterRedeclared | VariableRedeclared
    | UndefinedVariable | UndefinedFunction | ArgumentCount
    | AssignToConst | AssignToNonVariable | VoidOperand
    | BreakOutsideLoop | ContinueOutsideLoop
    | ValueFromVoid | MissingValue | ReturnsVoid
    | VoidInitializer | NotConstant

  class Analyzer {
    var symTable: Table
    var errors: seq<Fault>
    var currentFuncRetType: Type
    var whileDepth: nat

    constructor ()
      ensures Valid() && errors == [] && fresh(symTable) && fresh(symTable.scopes)
    {
      symTable := new Table();
      errors := [];
      currentFuncRetType := INT;
      whileDepth := 0;
    }

    ghost predicate Valid()
      reads this, symTable
    {
      symTable.Valid()
    }

    ghost function Stack(): (s: seq<ScopeMap>)
      requires Valid()
      reads this, symTable, symTable.scopes
      ensures s != []
    {
      symTable.Stack()
    }

    method Error(f: Fault)
      modifies this`errors
      ensures errors == old(errors) + [f]
    {
      errors := errors + [f];
    }

    // ---- folding ----

    method IsConst(e: Expr) returns (r: bool)
      requires Valid()
      ensures r == IsConstExpr(Stack(), e)
      decreases e
    {
      match e
      case IntLiteral(_) => return true;
      case VarExpr(x, _) =>
        var sym := symTable.Lookup(x);
        return sym.Some? && sym.value.isConst;
      case BinaryExpr(_, lhs, rhs) =>
        r := IsConst(lhs);
        if r { r := IsConst(rhs); }
      case UnaryExpr(_, operand) => r := IsConst(operand);
      case CallExpr(_, _, _) => return false;
    }

    method TryConstFold(e: Expr) returns (result: Option<i32>)
      requires Valid()
      ensures result == Fold(Stack(), e)
      decreases e
    {
      match e
      case IntLiteral(v) => return Some(v);
      case VarExpr(x, _) =>
        var sym := symTable.Lookup(x);
        return if sym.Some? && sym.value.isConst then Some(sym.value.constValue) else None;
      case BinaryExpr(op, lhs, rhs) =>
        var x := TryConstFold(lhs);
        if x.None? { return None; }
        var y := TryConstFold(rhs);
        if y.None? { return None; }
        return FoldBinary(op, x.value, y.value);
      case UnaryExpr(op, operand) =>
        var x := TryConstFold(operand);
        if x.None? { return None; }
        return Some(FoldUnary(op, x.value));
      case CallExpr(_, _, _) => return None;
    }

    // ---- expressions ----

    /**
      Annotates the expression. The scopes are only read. No error is added exactly when every name in it is
      recorded with what its scope makes visible and the operand rules hold.
     */
    method AnalyzeExpr(e: Expr) returns (t: Type, a: Expr)
      requires Valid()
      modifies this`errors
      ensures Annotates(a, e) && t == TypeOf(a)
      ensures old(errors) <= errors
      ensures errors == old(errors) <==> AcceptsExpr(Stack(), a)
      ensures ExprOnly(Stack(), e, a)
      decreases e, 1
    {
      hide ExprOnly;
      match e
      case IntLiteral(v) =>
        LiteralOnly(Stack(), v);
        return INT, e;
      case VarExpr(x, r) =>
        var sym := symTable.Lookup(x);
        a := VarExpr(x, if sym.Some? then ResolutionOf(sym.value) else r.(typ := INT));
        t := TypeOf(a);
        OneEvent(Stack(), Use(x, a.resolved));
        VariableOnly(Stack(), x, r, a);
        if sym.None? {
          Error(UndefinedVariable);
        }
      case BinaryExpr(op, lhs, rhs) =>
        t, a := AnalyzeBinary(e);
      case UnaryExpr(op, operand) =>
        var ot, oa := AnalyzeExpr(operand);
        UnaryOnly(Stack(), op, operand, oa);
        if ot == VOID {
          Error(VoidOperand);
        }
        return INT, UnaryExpr(op, oa);
      case CallExpr(_, _, _) =>
        t, a := AnalyzeCall(e);
    }

    method AnalyzeBinary(e: Expr) returns (t: Type, a: Expr)
      requires Valid() && e.BinaryExpr?
      modifies this`errors
      ensures Annotates(a, e) && t == TypeOf(a)
      ensures old(errors) <= errors
      ensures errors == old(errors) <==> AcceptsExpr(Stack(), a)
      ensures ExprOnly(Stack(), e, a)
      decreases e, 0
    {
      hide AcceptsExpr, ExprOnly;
      var lt, la := AnalyzeExpr(e.lhs);
      var rt, ra := AnalyzeExpr(e.rhs);
      a := BinaryExpr(e.op, la, ra);
      AcceptsBinary(Stack(), e.op, la, ra);
      BinaryOnly(Stack(), e.op, e.lhs, e.rhs, la, ra);
      if e.op.ASSIGN? {
        if la.VarExpr? {
          var sym := symTable.Lookup(la.name);
          if sym.Some? && sym.value.isConst {
            Error(AssignToConst);
          }
        } else {
          Error(AssignToNonVariable);
        }
        return lt, a;
      }
      if lt == VOID || rt == VOID {
        Error(VoidOperand);
      }
      return INT, a;
    }

    method AnalyzeCall(e: Expr) returns (t: Type, a: Expr)
      requires Valid() && e.CallExpr?
      modifies this`errors
      ensures Annotates(a, e) && t == TypeOf(a)
      ensures old(errors) <= errors
      ensures errors == old(errors) <==> AcceptsExpr(Stack(), a)
      ensures ExprOnly(Stack(), e, a)
      decreases e, 0
    {
      hide AcceptsExpr, AcceptsArgs, ExprOnly, ArgsOnly;
      var sym := symTable.LookupFunction(e.funcName);
      if sym.None? {
        Error(UndefinedFunction);
        a := e.(retType := INT);
        RejectsCall(Stack(), e.funcName, e.args, INT);
        NoCallAccepted(Stack(), e.funcName, e.args, e.retType, a);
        ArgsKept(e.args);
        return INT, a;
      }
      if |e.args| != |sym.value.paramTypes| {
        Error(ArgumentCount);
      }
      ghost var before := errors;
      var args := [];
      AcceptsNoArgs(Stack());
      NoArgsOnly(Stack());
      for i := 0 to |e.args|
        invariant |args| == i && forall k :: 0 <= k < i ==> Annotates(args[k], e.args[k])
        invariant before <= errors
        invariant errors == before <==> AcceptsArgs(Stack(), args)
        invariant ArgsOnly(Stack(), e.args[..i], args)
      {
        var _, arg := AnalyzeExpr(e.args[i]);
        AcceptsMore(Stack(), args, arg);
        MoreArgsOnly(Stack(), e.args[..i], e.args[i], args, arg);
        assert e.args[..i + 1] == e.args[..i] + [e.args[i]];
        args := args + [arg];
      }
      assert e.args[..|e.args|] == e.args;
      a := CallExpr(e.funcName, args, sym.value.typ);
      AcceptsCall(Stack(), e.funcName, args, sym.value.typ);
      CallOnly(Stack(), e.funcName, e.args, e.retType, args, a);
      return sym.value.typ, a;
    }

    // ---- declarations ----

    /** The initialiser is analyzed in the scopes as they are, and folded where a constant is asked for. */
    method AnalyzeInit(d: Decl, global: bool) returns (a: Decl, sym: Symbol)
      requires Valid()
      modifies this`errors
      ensures AnnotatesDecl(a, d) && a.isGlobalDecl == global
      ensures old(errors) <= errors
      ensures errors == old(errors) <==> InitFits(Stack(), a)
      ensures InitOnly(Stack(), d, a)
      ensures sym.name == d.name && (errors == old(errors) ==> sym == SymbolOf(a))
    {
      hide AcceptsExpr, Fold, ExprOnly, InitOnly;
      a := d.(isGlobalDecl := global);
      sym := Symbol(d.name, d.varType, d.isConst, false, global, false, 0, []);
      if d.init.Some? {
        var t, init := AnalyzeExpr(d.init.value);
        a := a.(init := Some(init));
        if t == VOID {
          Error(VoidInitializer);
        }
        if d.isConst {
          var folded := TryConstFold(init);
          if folded.Some? {
            sym := sym.(constValue := folded.value);
            a := a.(constValue := folded.value);
          } else {
            Error(NotConstant);
          }
        } else if global {
          var folded := TryConstFold(init);
          if folded.Some? {
            a := a.(constValue := folded.value);
          } else {
            Error(NotConstant);
          }
        }
      }
      InitKnown(Stack(), d, a);
    }

    /**
      A name already declared in this scope is refused; otherwise the declaration is added after its initialiser
      has been analyzed, so the initialiser sees the outer name. Only the innermost scope can change.
     */
    method AnalyzeDecl(d: Decl) returns (a: Decl)
      requires Valid()
      modifies this`errors, symTable.scopes[|symTable.scopes| - 1]
      ensures Valid() && symTable.scopes == old(symTable.scopes)
      ensures AnnotatesDecl(a, d)
      ensures old(errors) <= errors
      ensures errors == old(errors) <==> AcceptsDecl(old(Stack()), a)
      ensures DeclOnly(old(Stack()), d, a)
      ensures Grows(old(Stack()), Stack())
      ensures errors == old(errors) ==> Stack() == Run(old(Stack()), DeclEvents(a))
    {
      hide InitFits, AcceptsDecl, Run, Grows, After, SymbolOf, DeclEvents, Permits, DeclOnly, InitOnly;
      ghost var before := Stack();
      var twin := symTable.LookupCurrent(d.name);
      if twin.Some? {
        Error(VariableRedeclared);
        DeclParts(before, d);
        GrowsAdded(before, SymbolOf(d));
        TwinRejected(before, d);
        SameAnnotatesDecl(d);
        TwinOnly(before, d);
        return d;
      }
      var global := symTable.IsGlobalScope();
      var sym: Symbol;
      a, sym := AnalyzeInit(d, global);
      FreshPermitted(before, a);
      DeclParts(before, a);
      FreshOnly(before, d, a);
      GrowsAdded(before, sym);
      var _ := symTable.AddSymbol(sym);
    }

    method AnalyzeDecls(ds: seq<Decl>) returns (a: seq<Decl>)
      requires Valid()
      modifies this`errors, symTable.scopes[|symTable.scopes| - 1]
      ensures Valid() && symTable.scopes == old(symTable.scopes)
      ensures AnnotatesDecls(a, ds)
      ensures old(errors) <= errors
      ensures errors == old(errors) <==> AcceptsDecls(old(Stack()), a)
      ensures DeclsOnly(old(Stack()), ds, a)
      ensures Grows(old(Stack()), Stack())
      ensures errors == old(errors) ==> Stack() == Run(old(Stack()), DeclsEvents(a))
    {
      hide AcceptsDecl, AcceptsDecls, Run, DeclEvents, DeclsEvents, AnnotatesDecl, DeclOnly, DeclsOnly;
      ghost var before := Stack();
      a := [];
      NoDecls(before);
      NoDeclsOnly(before);
      for i := 0 to |ds|
        invariant Valid() && symTable.scopes == old(symTable.scopes)
        invariant |a| == i && forall k :: 0 <= k < i ==> AnnotatesDecl(a[k], ds[k])
        invariant old(errors) <= errors
        invariant errors == old(errors) <==> AcceptsDecls(before, a)
        invariant Grows(before, Stack())
        invariant errors == old(errors) ==> Stack() == Run(before, DeclsEvents(a))
        invariant DeclsOnly(before, ds[..i], a)
      {
        var d := AnalyzeDecl(ds[i]);
        MoreDecls(before, a, d);
        MoreDeclsOnly(before, ds[..i], ds[i], a, d);
        assert ds[..i + 1] == ds[..i] + [ds[i]];
        a := a + [d];
      }
      assert ds[..|ds|] == ds;
    }

    // ---- statements ----

    /**
      Whatever the statement and whatever errors it holds, every enclosing scope and the loop depth are left as
      found; the innermost scope may only have gained the names of the declarations it holds directly.
     */
    method AnalyzeStmt(s: Stmt) returns (a: Stmt)
      requires Valid()
      modifies this`errors, this`whileDepth, symTable, symTable.scopes[|symTable.scopes| - 1]
      ensures Valid() && symTable.scopes == old(symTable.scopes)
      ensures whileDepth == old(whileDepth)
      ensures AnnotatesStmt(a, s)
      ensures old(errors) <= errors
      ensures errors == old(errors) <==> AcceptsStmt(old(Stack()), a, currentFuncRetType, whileDepth)
      ensures StmtOnly(old(Stack()), s, a, currentFuncRetType, whileDepth)
      ensures Grows(old(Stack()), Stack())
      ensures s.Block? ==> Stack() == old(Stack())
      ensures errors == old(errors) ==> Stack() == Run(old(Stack()), StmtEvents(a))
      decreases s, 1
    {
      hide AcceptsExpr, AcceptsDecls, AcceptsStmt, AcceptsStmts, Run, ExprOnly, DeclsOnly, StmtOnly;
      ghost var before := Stack();
      match s
      case Block(ss) =>
        var body := AnalyzeBlock(ss);
        a := Block(body);
      case ExprStmt(e) =>
        a := s;
        if e.Some? {
          var _, x := AnalyzeExpr(e.value);
          a := ExprStmt(Some(x));
        }
        ExprStmtOnly(before, e, a.expr, currentFuncRetType, whileDepth);
        SimpleParts(before, a, currentFuncRetType, whileDepth);
      case DeclStmt(ds) =>
        var decls := AnalyzeDecls(ds);
        a := DeclStmt(decls);
        DeclStmtOnly(before, ds, decls, currentFuncRetType, whileDepth);
        SimpleParts(before, a, currentFuncRetType, whileDepth);
      case IfStmt(_, _, _) =>
        a := AnalyzeIf(s);
      case WhileStmt(c, b) =>
        var _, x := AnalyzeExpr(c);
        whileDepth := whileDepth + 1;
        var y := AnalyzeStmt(b);
        whileDepth := whileDepth - 1;
        a := WhileStmt(x, y);
        WhileParts(before, x, y, currentFuncRetType, whileDepth);
        WhileOnly(before, c, b, x, y, currentFuncRetType, whileDepth);
      case BreakStmt =>
        if whileDepth == 0 { Error(BreakOutsideLoop); }
        a := s;
        JumpOnly(before, s, currentFuncRetType, whileDepth);
        SimpleParts(before, a, currentFuncRetType, whileDepth);
      case ContinueStmt =>
        if whileDepth == 0 { Error(ContinueOutsideLoop); }
        a := s;
        JumpOnly(before, s, currentFuncRetType, whileDepth);
        SimpleParts(before, a, currentFuncRetType, whileDepth);
      case ReturnStmt(v) =>
        a := AnalyzeReturn(v);
    }

    method AnalyzeReturn(v: Option<Expr>) returns (a: Stmt)
      requires Valid()
      modifies this`errors
      ensures AnnotatesStmt(a, ReturnStmt(v))
      ensures old(errors) <= errors
      ensures errors == old(errors) <==> AcceptsStmt(Stack(), a, currentFuncRetType, whileDepth)
      ensures StmtOnly(Stack(), ReturnStmt(v), a, currentFuncRetType, whileDepth)
      ensures Stack() == Run(Stack(), StmtEvents(a))
    {
      hide AcceptsExpr, AcceptsStmt, Run, ExprOnly, StmtOnly;
      if v.Some? {
        if currentFuncRetType == VOID {
          Error(ValueFromVoid);
        }
        var t, x := AnalyzeExpr(v.value);
        if t == VOID {
          Error(ReturnsVoid);
        }
        a := ReturnStmt(Some(x));
      } else {
        if currentFuncRetType == INT {
          Error(MissingValue);
        }
        a := ReturnStmt(None);
      }
      SimpleParts(Stack(), a, currentFuncRetType, whileDepth);
      ExprStmtOnly(Stack(), v, a.result, currentFuncRetType, whileDepth);
    }

    method AnalyzeIf(s: Stmt) returns (a: Stmt)
      requires Valid() && s.IfStmt?
      modifies this`errors, this`whileDepth, symTable, symTable.scopes[|symTable.scopes| - 1]
      ensures Valid() && symTable.scopes == old(symTable.scopes)
      ensures whileDepth == old(whileDepth)
      ensures AnnotatesStmt(a, s)
      ensures old(errors) <= errors
      ensures errors == old(errors) <==> AcceptsStmt(old(Stack()), a, currentFuncRetType, whileDepth)
      ensures StmtOnly(old(Stack()), s, a, currentFuncRetType, whileDepth)
      ensures Grows(old(Stack()), Stack())
      ensures errors == old(errors) ==> Stack() == Run(old(Stack()), StmtEvents(a))
      decreases s, 0
    {
      hide AcceptsExpr, AcceptsStmt, Run, ExprOnly, StmtOnly;
      ghost var before := Stack();
      var _, c := AnalyzeExpr(s.condition);
      var t := AnalyzeStmt(s.thenBranch);
      if s.elseBranch.None? {
        a := IfStmt(c, t, None);
        IfParts(before, c, t, currentFuncRetType, whileDepth);
        IfOnly(before, s.condition, s.thenBranch, c, t, currentFuncRetType, whileDepth);
      } else {
        var f := AnalyzeStmt(s.elseBranch.value);
        a := IfStmt(c, t, Some(f));
        IfElseParts(before, c, t, f, currentFuncRetType, whileDepth);
        IfElseOnly(before, s.condition, s.thenBranch, s.elseBranch.value, c, t, f, currentFuncRetType, whileDepth);
      }
    }

    /** A block opens a scope of its own and closes it again: the scopes are exactly as before. */
    method AnalyzeBlock(ss: seq<Stmt>) returns (a: seq<Stmt>)
      requires Valid()
      modifies this`errors, this`whileDepth, symTable
      ensures Valid() && symTable.scopes == old(symTable.scopes)
      ensures whileDepth == old(whileDepth)
      ensures AnnotatesStmts(a, ss)
      ensures old(errors) <= errors
      ensures errors == old(errors) <==> AcceptsStmt(old(Stack()), Block(a), currentFuncRetType, whileDepth)
      ensures StmtOnly(old(Stack()), Block(ss), Block(a), currentFuncRetType, whileDepth)
      ensures Stack() == old(Stack())
      ensures errors == old(errors) ==> Stack() == Run(old(Stack()), StmtEvents(Block(a)))
      decreases ss, 1
    {
      hide AcceptsStmt, AcceptsStmts, Run, StmtsEvents, StmtOnly, StmtsOnly;
      ghost var before := Stack();
      symTable.EnterScope();
      a := AnalyzeStmts(ss);
      BlockParts(before, a, Stack(), currentFuncRetType, whileDepth);
      BlockOnly(before, ss, a, currentFuncRetType, whileDepth);
      symTable.ExitScope();
    }

    method AnalyzeStmts(ss: seq<Stmt>) returns (a: seq<Stmt>)
      requires Valid()
      modifies this`errors, this`whileDepth, symTable, symTable.scopes[|symTable.scopes| - 1]
      ensures Valid() && symTable.scopes == old(symTable.scopes)
      ensures whileDepth == old(whileDepth)
      ensures AnnotatesStmts(a, ss)
      ensures old(errors) <= errors
      ensures errors == old(errors) <==> AcceptsStmts(old(Stack()), a, currentFuncRetType, whileDepth)
      ensures StmtsOnly(old(Stack()), ss, a, currentFuncRetType, whileDepth)
      ensures Grows(old(Stack()), Stack())
      ensures errors == old(errors) ==> Stack() == Run(old(Stack()), StmtsEvents(a))
      decreases ss, 0
    {
      hide AcceptsStmt, AcceptsStmts, Run, StmtEvents, StmtsEvents, AnnotatesStmt, StmtOnly, StmtsOnly;
      ghost var before := Stack();
      a := [];
      NoStmts(before, currentFuncRetType, whileDepth);
      NoStmtsOnly(before, currentFuncRetType, whileDepth);
      for i := 0 to |ss|
        invariant Valid() && symTable.scopes == old(symTable.scopes)
        invariant whileDepth == old(whileDepth)
        invariant |a| == i && forall k :: 0 <= k < i ==> AnnotatesStmt(a[k], ss[k])
        invariant old(errors) <= errors
        invariant errors == old(errors) <==> AcceptsStmts(before, a, currentFuncRetType, whileDepth)
        invariant Grows(before, Stack())
        invariant errors == old(errors) ==> Stack() == Run(before, StmtsEvents(a))
        invariant StmtsOnly(before, ss[..i], a, currentFuncRetType, whileDepth)
      {
        var s := AnalyzeStmt(ss[i]);
        MoreStmts(before, a, s, currentFuncRetType, whileDepth);
        MoreStmtsOnly(before, ss[..i], ss[i], a, s, currentFuncRetType, whileDepth);
        assert ss[..i + 1] == ss[..i] + [ss[i]];
        a := a + [s];
      }
      assert ss[..|ss|] == ss;
    }

    // ---- functions and the whole unit ----

    method DeclareParams(params: seq<FuncParam>)
      requires Valid() && |symTable.scopes| > 1
      modifies this`errors, symTable.scopes[|symTable.scopes| - 1]
      ensures Valid() && symTable.scopes == old(symTable.scopes)
      ensures old(errors) <= errors
      ensures errors == old(errors) <==> Resolves(old(Stack()), ParamsEvents(params))
      ensures Grows(old(Stack()), Stack())
      ensures Stack() == Run(old(Stack()), ParamsEvents(params))
    {
      hide Resolves, Run, After, ParamSymbol;
      ghost var before := Stack();
      NoParams(before);
      for i := 0 to |params|
        invariant Valid() && symTable.scopes == old(symTable.scopes)
        invariant old(errors) <= errors
        invariant errors == old(errors) <==> Resolves(before, ParamsEvents(params[..i]))
        invariant Grows(before, Stack())
        invariant Stack() == Run(before, ParamsEvents(params[..i]))
      {
        var sym := Symbol(params[i].name, params[i].typ, false, false, false, true, 0, []);
        ParamIs(params[i]);
        MoreParams(before, params[..i], params[i]);
        assert params[..i + 1] == params[..i] + [params[i]];
        GrowsAdded(Stack(), sym);
        var added := symTable.AddSymbol(sym);
        if !added {
          Error(ParameterRedeclared);
        }
      }
      assert params[..|params|] == params;
    }

    /** Parameters and body live in one scope, which is gone afterwards. */
    method AnalyzeFuncDef(f: FuncDef) returns (a: FuncDef)
      requires Valid()
      modifies this`errors, this`whileDepth, this`currentFuncRetType, symTable
      ensures Valid() && symTable.scopes == old(symTable.scopes) && Stack() == old(Stack())
      ensures AnnotatesFunc(a, f)
      ensures old(errors) <= errors
      ensures errors == old(errors) <==> AcceptsGlobal(Stack(), Function(a))
      ensures GlobalOnly(Stack(), Function(f), Function(a))
      ensures errors == old(errors) ==> Stack() == Run(Stack(), FuncEvents(a))
    {
      hide Run, Resolves, ParamsEvents, StmtsEvents, FuncEvents, AcceptsStmts, AcceptsGlobal, Grows, AnnotatesStmt,
           StmtsOnly, GlobalOnly;
      currentFuncRetType := f.retType;
      whileDepth := 0;
      ghost var before := Stack();
      symTable.EnterScope();
      DeclareParams(f.params);
      ghost var declared := Stack();
      GrowsSame(declared);
      a := f;
      if f.body.Some? {
        var body := AnalyzeStmts(f.body.value);
        a := a.(body := Some(body));
      }
      FuncParts(before, a, declared, Stack());
      FuncOnly(before, f, a, declared);
      symTable.ExitScope();
    }

    method AnalyzeGlobalDecl(g: GlobalDecl) returns (a: GlobalDecl)
      requires Valid() && |symTable.scopes| == 1
      modifies this`errors, this`whileDepth, this`currentFuncRetType, symTable, symTable.scopes[0]
      ensures Valid() && symTable.scopes == old(symTable.scopes)
      ensures AnnotatesGlobal(a, g)
      ensures old(errors) <= errors
      ensures errors == old(errors) <==> AcceptsGlobal(old(Stack()), a)
      ensures GlobalOnly(old(Stack()), g, a)
      ensures errors == old(errors) ==> Stack() == Run(old(Stack()), GlobalEvents(a))
    {
      hide Run, AcceptsDecl, FuncEvents, DeclEvents, AcceptsGlobal, GlobalOnly, DeclOnly;
      match g
      case Function(f) =>
        var b := AnalyzeFuncDef(f);
        a := Function(b);
      case Variable(d) =>
        ghost var before := Stack();
        var b := AnalyzeDecl(d);
        a := Variable(b);
        VariableParts(before, b);
        VariableDeclOnly(before, d, b);
    }

    /** The first pass: every function enters the global scope, and one defined twice is refused. */
    method CollectGlobals(unit: seq<GlobalDecl>)
      requires Valid() && Stack() == [map[]] && errors == []
      modifies this`errors, symTable.scopes[0]
      ensures Valid() && symTable.scopes == old(symTable.scopes)
      ensures errors == [] <==> Resolves([map[]], Hoisted(unit))
      ensures errors == [] ==> Stack() == Run([map[]], Hoisted(unit))
    {
      hide Resolves, Run, Hoisted, FuncSymbol;
      NoneHoisted();
      for i := 0 to |unit|
        invariant Valid() && symTable.scopes == old(symTable.scopes)
        invariant errors == [] <==> Resolves([map[]], Hoisted(unit[..i]))
        invariant errors == [] ==> Stack() == Run([map[]], Hoisted(unit[..i]))
        invariant |Stack()| == 1 && forall x :: x in Stack()[0] ==> Stack()[0][x].isFunction
      {
        MoreHoisted(unit[..i], unit[i]);
        assert unit[..i + 1] == unit[..i] + [unit[i]];
        if unit[i].Function? {
          var def := unit[i].def;
          FunctionPermitted(Stack(), def);
          var known := symTable.LookupFunction(def.name);
          if known.Some? {
            Error(FunctionRedefined);
          } else {
            var types := [];
            for k := 0 to |def.params|
              invariant types == seq(k, j requires 0 <= j < k => def.params[j].typ)
            {
              types := types + [def.params[k].typ];
            }
            FunctionIs(def, types);
            var _ := symTable.AddSymbol(Symbol(def.name, def.retType, false, true, true, false, 0, types));
          }
        }
      }
      assert unit[..|unit|] == unit;
    }

    /**
      The whole analysis. It reports no error exactly when the unit can be annotated so that it is well scoped, event
      by event in program order, and obeys the static rules; the annotations it returns are such ones then.
     */
    method Analyze(unit: seq<GlobalDecl>) returns (ok: bool, a: seq<GlobalDecl>)
      modifies this
      ensures Valid() && ok == (errors == [])
      ensures AnnotatesUnit(a, unit)
      ensures ok <==> WellScoped(UnitEvents(a)) && UnitRules(a)
      ensures ok <==> Annotatable(unit)
      ensures ok ==> symTable.Stack() == Run([map[]], UnitEvents(a))
    {
      hide Resolves, Run, Hoisted, GlobalEvents, GlobalsEvents, AcceptsGlobal, AnnotatesGlobal, WellScoped, GlobalOnly,
           GlobalsOnly, Annotatable;
      errors := [];
      symTable := new Table();
      CollectGlobals(unit);
      ghost var collected, before := errors, Stack();
      a := [];
      NoGlobals(before);
      NoGlobalsOnly(before);
      for i := 0 to |unit|
        invariant Valid() && |symTable.scopes| == 1 && fresh(symTable) && fresh(symTable.scopes)
        invariant |a| == i && forall k :: 0 <= k < i ==> AnnotatesGlobal(a[k], unit[k])
        invariant collected <= errors
        invariant errors == collected <==> AcceptsGlobals(before, a)
        invariant errors == collected ==> Stack() == Run(before, GlobalsEvents(a))
        invariant GlobalsOnly(before, unit[..i], a)
      {
        var g := AnalyzeGlobalDecl(unit[i]);
        MoreGlobals(before, a, g);
        MoreGlobalsOnly(before, unit[..i], unit[i], a, g);
        assert unit[..i + 1] == unit[..i] + [unit[i]];
        a := a + [g];
      }
      assert unit[..|unit|] == unit;
      SameHoisted(a, unit);
      UnitParts(a, before);
      ScopedExactly(UnitEvents(a));
      UnitDecided(unit, a, before);
      ok := errors == [];
    }
  }

  /** The scopes and the operand rules accept an annotated expression. */
  predicate AcceptsExpr(stack: seq<ScopeMap>, a: Expr)
    requires stack != []
  {
    Resolves(stack, Events(a)) && ExprRules(a)
  }

  predicate AcceptsArgs(stack: seq<ScopeMap>, args: seq<Expr>)
    requires stack != []
  {
    Resolves(stack, ArgEvents(args)) && forall k :: 0 <= k < |args| ==> ExprRules(args[k])
  }

  lemma AcceptsBinary(stack: seq<ScopeMap>, op: BinOp, l: Expr, r: Expr)
    requires stack != []
    ensures AcceptsExpr(stack, BinaryExpr(op, l, r)) ==
            (AcceptsExpr(stack, l) && AcceptsExpr(stack, r) && BinaryFits(stack, op, l, r))
  {
    var store := if op.ASSIGN? && l.VarExpr? then [Store(l.name)] else [];
    assert Events(BinaryExpr(op, l, r)) == Events(l) + (Events(r) + store);
    ExprThen(stack, l, Events(r) + store);
    ExprThen(stack, r, store);
    if op.ASSIGN? && l.VarExpr? { OneEvent(stack, Store(l.name)); }
  }

  predicate BinaryFits(stack: seq<ScopeMap>, op: BinOp, l: Expr, r: Expr)
    requires stack != []
  {
    if op.ASSIGN? then l.VarExpr? && Permits(stack, Store(l.name))
    else TypeOf(l) != VOID && TypeOf(r) != VOID
  }

  lemma AcceptsMore(stack: seq<ScopeMap>, args: seq<Expr>, a: Expr)
    requires stack != []
    ensures AcceptsArgs(stack, args + [a]) == (AcceptsArgs(stack, args) && AcceptsExpr(stack, a))
  {
    var more := args + [a];
    assert more[..|more| - 1] == args;
    ArgsRun(stack, args);
    Concatenates(stack, ArgEvents(args), Events(a));
    assert more[|args|] == a;
  }

  lemma AcceptsCall(stack: seq<ScopeMap>, f: string, args: seq<Expr>, t: Type)
    requires stack != []
    ensures AcceptsExpr(stack, CallExpr(f, args, t)) == (Permits(stack, Call(f, |args|, t)) && AcceptsArgs(stack, args))
  {
    OneEvent(stack, Call(f, |args|, t));
    Concatenates(stack, [Call(f, |args|, t)], ArgEvents(args));
  }

  lemma RejectsCall(stack: seq<ScopeMap>, f: string, args: seq<Expr>, t: Type)
    requires stack != [] && Scoping.LookupFunction(stack, f).None?
    ensures !AcceptsExpr(stack, CallExpr(f, args, t))
  {
    AcceptsCall(stack, f, args, t);
  }

  lemma {:induction false} SameAnnotates(e: Expr)
    ensures Annotates(e, e)
    decreases e
  {
    match e
    case BinaryExpr(_, l, r) =>
      SameAnnotates(l);
      SameAnnotates(r);
    case UnaryExpr(_, x) => SameAnnotates(x);
    case CallExpr(_, args, _) => ArgsKept(args);
    case _ =>
  }

  lemma ArgsKept(args: seq<Expr>)
    ensures forall k :: 0 <= k < |args| ==> Annotates(args[k], args[k])
    decreases args
  {
    forall k | 0 <= k < |args| ensures Annotates(args[k], args[k]) {
      SameAnnotates(args[k]);
    }
  }

  lemma AcceptsNoArgs(stack: seq<ScopeMap>)
    requires stack != []
    ensures AcceptsArgs(stack, [])
  {
  }

  // ---- declarations ----

  /** Every scope but the innermost is the same; the innermost still holds what it held. */
  predicate Grows(before: seq<ScopeMap>, now: seq<ScopeMap>)
    requires before != []
  {
    && |now| == |before| && now[..|now| - 1] == before[..|before| - 1]
    && forall x :: x in Top(before) ==> x in Top(now) && Top(now)[x] == Top(before)[x]
  }

  lemma GrowsSame(stack: seq<ScopeMap>)
    requires stack != []
    ensures Grows(stack, stack)
  {
  }

  lemma GrowsAdded(stack: seq<ScopeMap>, sym: Symbol)
    requires stack != []
    ensures Grows(stack, After(stack, Declare(sym))) && Grows(stack, stack)
  {
  }

  predicate AcceptsDecl(stack: seq<ScopeMap>, d: Decl)
    requires stack != []
  {
    Resolves(stack, DeclEvents(d)) && DeclRules(d)
  }

  predicate AcceptsDecls(stack: seq<ScopeMap>, ds: seq<Decl>)
    requires stack != []
  {
    Resolves(stack, DeclsEvents(ds)) && DeclsRules(ds)
  }

  predicate InitFits(stack: seq<ScopeMap>, d: Decl)
    requires stack != []
  {
    d.init.Some? ==>
      && AcceptsExpr(stack, d.init.value) && TypeOf(d.init.value) != VOID
      && (d.isConst || d.isGlobalDecl ==> Fold(stack, d.init.value) == Some(d.constValue))
  }

  lemma DeclParts(stack: seq<ScopeMap>, d: Decl)
    requires stack != []
    ensures AcceptsDecl(stack, d) == (Permits(stack, Declare(SymbolOf(d))) && InitFits(stack, d))
    ensures Run(stack, DeclEvents(d)) == After(stack, Declare(SymbolOf(d)))
  {
    hide Run, Resolves, Fold, FoldRecorded, After;
    var e := [Declare(SymbolOf(d))];
    OneEvent(stack, e[0]);
    if d.init.Some? {
      ExprThen(stack, d.init.value, e);
      if Resolves(stack, Events(d.init.value)) { RecordedFolds(stack, d.init.value); }
    } else {
      assert DeclEvents(d) == e;
    }
  }

  lemma FreshPermitted(stack: seq<ScopeMap>, d: Decl)
    requires stack != [] && d.name !in Top(stack) && d.isGlobalDecl == (|stack| == 1)
    ensures Permits(stack, Declare(SymbolOf(d)))
  {
  }

  lemma TwinRejected(stack: seq<ScopeMap>, d: Decl)
    requires stack != [] && d.name in Top(stack)
    ensures !Permits(stack, Declare(SymbolOf(d)))
  {
  }

  lemma SameAnnotatesDecl(d: Decl)
    ensures AnnotatesDecl(d, d)
  {
    if d.init.Some? { SameAnnotates(d.init.value); }
  }

  lemma NoDecls(stack: seq<ScopeMap>)
    requires stack != []
    ensures AcceptsDecls(stack, []) && Run(stack, DeclsEvents([])) == stack
  {
  }

  lemma MoreDecls(stack: seq<ScopeMap>, ds: seq<Decl>, d: Decl)
    requires stack != []
    ensures AcceptsDecls(stack, ds + [d]) ==
            (AcceptsDecls(stack, ds) && AcceptsDecl(Run(stack, DeclsEvents(ds)), d))
    ensures Run(stack, DeclsEvents(ds + [d])) == Run(Run(stack, DeclsEvents(ds)), DeclEvents(d))
  {
    hide Run, Resolves, DeclRules;
    var more := ds + [d];
    assert more[..|more| - 1] == ds && more[|ds|] == d;
    Concatenates(stack, DeclsEvents(ds), DeclEvents(d));
  }

  // ---- statements ----

  predicate AcceptsStmt(stack: seq<ScopeMap>, s: Stmt, ret: Type, loops: nat)
    requires stack != []
  {
    Resolves(stack, StmtEvents(s)) && StmtRules(s, ret, loops)
  }

  predicate AcceptsStmts(stack: seq<ScopeMap>, ss: seq<Stmt>, ret: Type, loops: nat)
    requires stack != []
  {
    Resolves(stack, StmtsEvents(ss)) && StmtsRules(ss, ret, loops)
  }

  predicate SimpleFits(stack: seq<ScopeMap>, s: Stmt, ret: Type, loops: nat)
    requires stack != []
  {
    match s
    case ExprStmt(e) => e.Some? ==> AcceptsExpr(stack, e.value)
    case DeclStmt(ds) => AcceptsDecls(stack, ds)
    case ReturnStmt(None) => ret == VOID
    case ReturnStmt(Some(v)) => ret == INT && AcceptsExpr(stack, v) && TypeOf(v) != VOID
    case _ => loops > 0
  }

  /** The statements with no statements inside them. */
  lemma SimpleParts(stack: seq<ScopeMap>, s: Stmt, ret: Type, loops: nat)
    requires stack != [] && !s.Block? && !s.IfStmt? && !s.WhileStmt?
    ensures AcceptsStmt(stack, s, ret, loops) == SimpleFits(stack, s, ret, loops)
    ensures Run(stack, StmtEvents(s)) == if s.DeclStmt? then Run(stack, DeclsEvents(s.decls)) else stack
  {
    match s
    case ExprStmt(Some(e)) => ExprThen(stack, e, []);
    case ReturnStmt(Some(e)) => ExprThen(stack, e, []);
    case _ =>
  }

  lemma WhileParts(stack: seq<ScopeMap>, c: Expr, b: Stmt, ret: Type, loops: nat)
    requires stack != []
    ensures AcceptsStmt(stack, WhileStmt(c, b), ret, loops) ==
            (AcceptsExpr(stack, c) && AcceptsStmt(stack, b, ret, loops + 1))
    ensures Run(stack, StmtEvents(WhileStmt(c, b))) == Run(stack, StmtEvents(b))
  {
    hide Run, Resolves, ExprRules, Events;
    ExprThen(stack, c, StmtEvents(b));
  }

  lemma IfParts(stack: seq<ScopeMap>, c: Expr, t: Stmt, ret: Type, loops: nat)
    requires stack != []
    ensures AcceptsStmt(stack, IfStmt(c, t, None), ret, loops) ==
            (AcceptsExpr(stack, c) && AcceptsStmt(stack, t, ret, loops))
    ensures Run(stack, StmtEvents(IfStmt(c, t, None))) == Run(stack, StmtEvents(t))
  {
    hide Run, Resolves, ExprRules, Events;
    ExprThen(stack, c, StmtEvents(t));
  }

  lemma IfElseParts(stack: seq<ScopeMap>, c: Expr, t: Stmt, f: Stmt, ret: Type, loops: nat)
    requires stack != []
    ensures AcceptsStmt(stack, IfStmt(c, t, Some(f)), ret, loops) ==
            (AcceptsExpr(stack, c) && AcceptsStmt(stack, t, ret, loops) &&
             AcceptsStmt(Run(stack, StmtEvents(t)), f, ret, loops))
    ensures Run(stack, StmtEvents(IfStmt(c, t, Some(f)))) == Run(Run(stack, StmtEvents(t)), StmtEvents(f))
  {
    hide Run, Resolves, ExprRules, Events;
    ExprThen(stack, c, StmtEvents(t) + StmtEvents(f));
    Concatenates(stack, StmtEvents(t), StmtEvents(f));
    assert Events(c) + StmtEvents(t) + StmtEvents(f) == Events(c) + (StmtEvents(t) + StmtEvents(f));
  }

  /** A block's statements run in a fresh scope; closing it gives back the scopes there were. */
  lemma BlockParts(stack: seq<ScopeMap>, ss: seq<Stmt>, inner: seq<ScopeMap>, ret: Type, loops: nat)
    requires stack != [] && Grows(stack + [map[]], inner)
    ensures AcceptsStmt(stack, Block(ss), ret, loops) == AcceptsStmts(stack + [map[]], ss, ret, loops)
    ensures inner == Run(stack + [map[]], StmtsEvents(ss)) ==> Run(stack, StmtEvents(Block(ss))) == stack
    ensures After(inner, Leave) == stack
  {
    EnclosedRuns(stack, StmtsEvents(ss));
    hide Run, Resolves;
    assert (stack + [map[]])[..|stack|] == stack;
  }

  lemma EnclosedRuns(stack: seq<ScopeMap>, u: seq<Event>)
    requires stack != []
    ensures Resolves(stack, [Enter] + u + [Leave]) == Resolves(stack + [map[]], u)
    ensures Run(stack, [Enter] + u + [Leave]) == After(Run(stack + [map[]], u), Leave)
  {
    hide Run, Resolves;
    OneEvent(stack, Enter);
    Concatenates(stack, [Enter], u);
    Concatenates(stack, [Enter] + u, [Leave]);
    OneEvent(Run(stack, [Enter] + u), Leave);
  }

  lemma NoStmts(stack: seq<ScopeMap>, ret: Type, loops: nat)
    requires stack != []
    ensures AcceptsStmts(stack, [], ret, loops) && Run(stack, StmtsEvents([])) == stack
  {
  }

  lemma MoreStmts(stack: seq<ScopeMap>, ss: seq<Stmt>, s: Stmt, ret: Type, loops: nat)
    requires stack != []
    ensures AcceptsStmts(stack, ss + [s], ret, loops) ==
            (AcceptsStmts(stack, ss, ret, loops) && AcceptsStmt(Run(stack, StmtsEvents(ss)), s, ret, loops))
    ensures Run(stack, StmtsEvents(ss + [s])) == Run(Run(stack, StmtsEvents(ss)), StmtEvents(s))
  {
    hide Run, Resolves, StmtRules, StmtEvents;
    var more := ss + [s];
    assert more[..|more| - 1] == ss && more[|ss|] == s;
    Concatenates(stack, StmtsEvents(ss), StmtEvents(s));
  }

  // ---- functions and the whole unit ----

  predicate AcceptsGlobal(stack: seq<ScopeMap>, g: GlobalDecl)
    requires stack != []
  {
    Resolves(stack, GlobalEvents(g)) && GlobalRules(g)
  }

  predicate AcceptsGlobals(stack: seq<ScopeMap>, gs: seq<GlobalDecl>)
    requires stack != []
  {
    Resolves(stack, GlobalsEvents(gs)) && UnitRules(gs)
  }

  lemma NoParams(stack: seq<ScopeMap>)
    requires stack != []
    ensures Resolves(stack, ParamsEvents([])) && Run(stack, ParamsEvents([])) == stack
  {
  }

  lemma ParamIs(p: FuncParam)
    ensures ParamSymbol(p) == Symbol(p.name, p.typ, false, false, false, true, 0, [])
  {
  }

  lemma MoreParams(stack: seq<ScopeMap>, ps: seq<FuncParam>, p: FuncParam)
    requires stack != [] && |Run(stack, ParamsEvents(ps))| > 1
    ensures var now := Run(stack, ParamsEvents(ps));
            Resolves(stack, ParamsEvents(ps + [p])) == (Resolves(stack, ParamsEvents(ps)) && p.name !in Top(now)) &&
            Run(stack, ParamsEvents(ps + [p])) == After(now, Declare(ParamSymbol(p)))
  {
    hide Run, Resolves, After;
    var more := ps + [p];
    var e := Declare(ParamSymbol(p));
    assert more[..|more| - 1] == ps && more[|ps|] == p;
    Concatenates(stack, ParamsEvents(ps), [e]);
    OneEvent(Run(stack, ParamsEvents(ps)), e);
  }

  lemma FuncParts(stack: seq<ScopeMap>, f: FuncDef, declared: seq<ScopeMap>, inner: seq<ScopeMap>)
    requires stack != [] && declared == Run(stack + [map[]], ParamsEvents(f.params))
    requires Grows(stack + [map[]], declared) && Grows(declared, inner)
    ensures AcceptsGlobal(stack, Function(f)) ==
            (Resolves(stack + [map[]], ParamsEvents(f.params)) &&
             (f.body.Some? ==> AcceptsStmts(declared, f.body.value, f.retType, 0)))
    ensures (if f.body.Some? then inner == Run(declared, StmtsEvents(f.body.value)) else inner == declared)
              ==> Run(stack, FuncEvents(f)) == stack
    ensures After(inner, Leave) == stack
  {
    hide Run, Resolves;
    var body := if f.body.Some? then StmtsEvents(f.body.value) else [];
    var u := ParamsEvents(f.params) + body;
    assert FuncEvents(f) == [Enter] + u + [Leave];
    EnclosedRuns(stack, u);
    Concatenates(stack + [map[]], ParamsEvents(f.params), body);
    NoEvents(declared);
    assert (stack + [map[]])[..|stack|] == stack;
  }

  lemma NoEvents(stack: seq<ScopeMap>)
    requires stack != []
    ensures Resolves(stack, []) && Run(stack, []) == stack
  {
  }

  lemma VariableParts(stack: seq<ScopeMap>, d: Decl)
    requires stack != []
    ensures AcceptsGlobal(stack, Variable(d)) == AcceptsDecl(stack, d)
  {
  }

  lemma NoneHoisted()
    ensures Resolves([map[]], Hoisted([])) && Run([map[]], Hoisted([])) == [map[]]
  {
  }

  lemma MoreHoisted(gs: seq<GlobalDecl>, g: GlobalDecl)
    ensures var now := Run([map[]], Hoisted(gs));
            Resolves([map[]], Hoisted(gs + [g])) ==
            (Resolves([map[]], Hoisted(gs)) && (g.Function? ==> Permits(now, Declare(FuncSymbol(g.def))))) &&
            Run([map[]], Hoisted(gs + [g])) == if g.Function? then After(now, Declare(FuncSymbol(g.def))) else now
  {
    hide Run, Resolves, After, Permits, FuncSymbol;
    var more := gs + [g];
    var u := match g case Function(f) => [Declare(FuncSymbol(f))] case Variable(_) => [];
    assert more[..|more| - 1] == gs && more[|gs|] == g;
    Concatenates([map[]], Hoisted(gs), u);
    if g.Function? {
      OneEvent(Run([map[]], Hoisted(gs)), u[0]);
    } else {
      NoEvents(Run([map[]], Hoisted(gs)));
    }
  }

  lemma FunctionPermitted(stack: seq<ScopeMap>, f: FuncDef)
    requires |stack| == 1 && forall x :: x in stack[0] ==> stack[0][x].isFunction
    ensures Permits(stack, Declare(FuncSymbol(f))) == Scoping.LookupFunction(stack, f.name).None?
    ensures FuncSymbol(f).name == f.name && FuncSymbol(f).isFunction
  {
  }

  lemma FunctionIs(f: FuncDef, types: seq<Type>)
    requires |types| == |f.params| && forall k :: 0 <= k < |types| ==> types[k] == f.params[k].typ
    ensures FuncSymbol(f) == Symbol(f.name, f.retType, false, true, true, false, 0, types)
  {
    assert types == FuncSymbol(f).paramTypes;
  }

  lemma NoGlobals(stack: seq<ScopeMap>)
    requires stack != []
    ensures AcceptsGlobals(stack, []) && Run(stack, GlobalsEvents([])) == stack
  {
  }

  lemma MoreGlobals(stack: seq<ScopeMap>, gs: seq<GlobalDecl>, g: GlobalDecl)
    requires stack != []
    ensures AcceptsGlobals(stack, gs + [g]) ==
            (AcceptsGlobals(stack, gs) && AcceptsGlobal(Run(stack, GlobalsEvents(gs)), g))
    ensures Run(stack, GlobalsEvents(gs + [g])) == Run(Run(stack, GlobalsEvents(gs)), GlobalEvents(g))
  {
    hide Run, Resolves, GlobalRules, GlobalEvents;
    var more := gs + [g];
    assert more[..|more| - 1] == gs && more[|gs|] == g;
    Concatenates(stack, GlobalsEvents(gs), GlobalEvents(g));
  }

  /** Annotating a unit does not change what its functions declare. */
  lemma {:induction false} SameHoisted(a: seq<GlobalDecl>, gs: seq<GlobalDecl>)
    requires AnnotatesUnit(a, gs)
    ensures Hoisted(a) == Hoisted(gs)
  {
    if gs != [] {
      var n := |gs| - 1;
      assert AnnotatesGlobal(a[n], gs[n]);
      SameHoisted(a[..n], gs[..n]);
    }
  }

  lemma UnitParts(gs: seq<GlobalDecl>, collected: seq<ScopeMap>)
    requires collected != []
    requires Resolves([map[]], Hoisted(gs)) ==> collected == Run([map[]], Hoisted(gs))
    ensures Resolves([map[]], Hoisted(gs)) && AcceptsGlobals(collected, gs) <==>
            Resolves([map[]], UnitEvents(gs)) && UnitRules(gs)
    ensures Resolves([map[]], Hoisted(gs)) ==> Run([map[]], UnitEvents(gs)) == Run(collected, GlobalsEvents(gs))
  {
    hide Run, Resolves, UnitRules;
    Concatenates([map[]], Hoisted(gs), GlobalsEvents(gs));
  }

  // ---- no other annotation is accepted where this one is not ----

  /** The only annotation of e that can be accepted is a. */
  ghost predicate ExprOnly(stack: seq<ScopeMap>, e: Expr, a: Expr)
    requires stack != []
  {
    forall b :: Annotates(b, e) && AcceptsExpr(stack, b) ==> b == a
  }

  ghost predicate ArgsOnly(stack: seq<ScopeMap>, es: seq<Expr>, a: seq<Expr>)
    requires stack != []
  {
    forall b :: AnnotatesArgs(b, es) && AcceptsArgs(stack, b) ==> b == a
  }

  predicate AnnotatesArgs(a: seq<Expr>, es: seq<Expr>)
  {
    |a| == |es| && forall k :: 0 <= k < |es| ==> Annotates(a[k], es[k])
  }

  lemma LiteralOnly(stack: seq<ScopeMap>, v: i32)
    requires stack != []
    ensures ExprOnly(stack, IntLiteral(v), IntLiteral(v))
  {
  }

  lemma VariableOnly(stack: seq<ScopeMap>, x: string, r: Resolution, a: Expr)
    requires stack != []
    requires Lookup(stack, x).Some? ==> a == VarExpr(x, ResolutionOf(Lookup(stack, x).value))
    ensures ExprOnly(stack, VarExpr(x, r), a)
  {
    hide Resolves, Lookup;
    forall b | Annotates(b, VarExpr(x, r)) && AcceptsExpr(stack, b) ensures b == a {
      OneEvent(stack, Use(x, b.resolved));
      assert Events(b) == [Use(x, b.resolved)];
    }
  }

  lemma UnaryOnly(stack: seq<ScopeMap>, op: UnaryOp, e: Expr, a: Expr)
    requires stack != [] && ExprOnly(stack, e, a)
    ensures ExprOnly(stack, UnaryExpr(op, e), UnaryExpr(op, a))
  {
    hide Resolves;
    forall b | Annotates(b, UnaryExpr(op, e)) && AcceptsExpr(stack, b) ensures b == UnaryExpr(op, a) {
      assert AcceptsExpr(stack, b.operand);
    }
  }

  lemma BinaryOnly(stack: seq<ScopeMap>, op: BinOp, l: Expr, r: Expr, la: Expr, ra: Expr)
    requires stack != [] && ExprOnly(stack, l, la) && ExprOnly(stack, r, ra)
    ensures ExprOnly(stack, BinaryExpr(op, l, r), BinaryExpr(op, la, ra))
  {
    hide AcceptsExpr, BinaryFits;
    forall b | Annotates(b, BinaryExpr(op, l, r)) && AcceptsExpr(stack, b) ensures b == BinaryExpr(op, la, ra) {
      AcceptsBinary(stack, op, b.lhs, b.rhs);
    }
  }

  lemma NoArgsOnly(stack: seq<ScopeMap>)
    requires stack != []
    ensures ArgsOnly(stack, [], [])
  {
  }

  lemma MoreArgsOnly(stack: seq<ScopeMap>, es: seq<Expr>, e: Expr, args: seq<Expr>, a: Expr)
    requires stack != [] && ArgsOnly(stack, es, args) && ExprOnly(stack, e, a)
    ensures ArgsOnly(stack, es + [e], args + [a])
  {
    hide AcceptsExpr, AcceptsArgs, Annotates;
    forall b | AnnotatesArgs(b, es + [e]) && AcceptsArgs(stack, b) ensures b == args + [a] {
      var n := |es|;
      assert b == b[..n] + [b[n]];
      AcceptsMore(stack, b[..n], b[n]);
      forall k | 0 <= k < n ensures Annotates(b[..n][k], es[k]) { assert (es + [e])[k] == es[k]; }
      assert (es + [e])[n] == e;
    }
  }

  lemma CallOnly(stack: seq<ScopeMap>, f: string, es: seq<Expr>, t: Type, args: seq<Expr>, a: Expr)
    requires stack != [] && ArgsOnly(stack, es, args) && Scoping.LookupFunction(stack, f).Some?
    requires a == CallExpr(f, args, Scoping.LookupFunction(stack, f).value.typ)
    ensures ExprOnly(stack, CallExpr(f, es, t), a)
  {
    hide AcceptsExpr, AcceptsArgs, Scoping.LookupFunction;
    forall b | Annotates(b, CallExpr(f, es, t)) && AcceptsExpr(stack, b) ensures b == a {
      AcceptsCall(stack, f, b.args, b.retType);
      assert AnnotatesArgs(b.args, es);
    }
  }

  lemma NoCallAccepted(stack: seq<ScopeMap>, f: string, es: seq<Expr>, t: Type, a: Expr)
    requires stack != [] && Scoping.LookupFunction(stack, f).None?
    ensures ExprOnly(stack, CallExpr(f, es, t), a)
  {
    hide AcceptsExpr, Scoping.LookupFunction;
    forall b | Annotates(b, CallExpr(f, es, t)) ensures !AcceptsExpr(stack, b) {
      RejectsCall(stack, f, b.args, b.retType);
    }
  }

  /** If some annotation of d is accepted, then so is a, and it declares the same. */
  ghost predicate DeclOnly(stack: seq<ScopeMap>, d: Decl, a: Decl)
    requires stack != []
  {
    forall b :: AnnotatesDecl(b, d) && AcceptsDecl(stack, b) ==> AcceptsDecl(stack, a) && DeclEvents(b) == DeclEvents(a)
  }

  ghost predicate InitOnly(stack: seq<ScopeMap>, d: Decl, a: Decl)
    requires stack != []
  {
    forall b :: AnnotatesDecl(b, d) && InitFits(stack, b) && b.isGlobalDecl == a.isGlobalDecl ==>
      InitFits(stack, a) && b.init == a.init && SymbolOf(b) == SymbolOf(a)
  }

  lemma InitKnown(stack: seq<ScopeMap>, d: Decl, a: Decl)
    requires stack != [] && AnnotatesDecl(a, d)
    requires d.init.Some? ==> ExprOnly(stack, d.init.value, a.init.value)
    requires d.init.Some? && (d.isConst || a.isGlobalDecl) && Fold(stack, a.init.value).Some? ==>
               a.constValue == Fold(stack, a.init.value).value
    ensures InitOnly(stack, d, a)
  {
    hide AcceptsExpr, Fold, Annotates;
  }

  lemma TwinOnly(stack: seq<ScopeMap>, d: Decl)
    requires stack != [] && d.name in Top(stack)
    ensures DeclOnly(stack, d, d)
  {
    hide AcceptsDecl, SymbolOf, InitFits, DeclEvents, Permits, Annotates;
    forall b | AnnotatesDecl(b, d) ensures !AcceptsDecl(stack, b) {
      DeclParts(stack, b);
      TwinRejected(stack, b);
    }
  }

  lemma FreshOnly(stack: seq<ScopeMap>, d: Decl, a: Decl)
    requires stack != [] && d.name !in Top(stack) && AnnotatesDecl(a, d) && a.isGlobalDecl == (|stack| == 1)
    requires InitOnly(stack, d, a)
    ensures DeclOnly(stack, d, a)
  {
    hide AcceptsDecl, InitFits, Annotates, Run;
    FreshPermitted(stack, a);
    DeclParts(stack, a);
    forall b | AnnotatesDecl(b, d) && AcceptsDecl(stack, b)
      ensures AcceptsDecl(stack, a) && DeclEvents(b) == DeclEvents(a)
    {
      DeclParts(stack, b);
    }
  }

  ghost predicate DeclsOnly(stack: seq<ScopeMap>, ds: seq<Decl>, a: seq<Decl>)
    requires stack != []
  {
    forall b :: AnnotatesDecls(b, ds) && AcceptsDecls(stack, b) ==>
      AcceptsDecls(stack, a) && DeclsEvents(b) == DeclsEvents(a)
  }

  lemma NoDeclsOnly(stack: seq<ScopeMap>)
    requires stack != []
    ensures DeclsOnly(stack, [], [])
  {
  }

  lemma MoreDeclsOnly(stack: seq<ScopeMap>, ds: seq<Decl>, d: Decl, as': seq<Decl>, a: Decl)
    requires stack != [] && DeclsOnly(stack, ds, as')
    requires AcceptsDecls(stack, as') ==> DeclOnly(Run(stack, DeclsEvents(as')), d, a)
    ensures DeclsOnly(stack, ds + [d], as' + [a])
  {
    hide AcceptsDecl, AcceptsDecls, AnnotatesDecl, DeclEvents, Run;
    MoreDecls(stack, as', a);
    forall b | AnnotatesDecls(b, ds + [d]) && AcceptsDecls(stack, b)
      ensures AcceptsDecls(stack, as' + [a]) && DeclsEvents(b) == DeclsEvents(as' + [a])
    {
      var n := |ds|;
      assert b == b[..n] + [b[n]];
      MoreDecls(stack, b[..n], b[n]);
      forall k | 0 <= k < n ensures AnnotatesDecl(b[..n][k], ds[k]) { assert (ds + [d])[k] == ds[k]; }
      assert (ds + [d])[n] == d;
      assert (as' + [a])[..|as'|] == as';
    }
  }

  /** If some annotation of s is accepted, then so is a, and it leaves the same scopes. */
  ghost predicate StmtOnly(stack: seq<ScopeMap>, s: Stmt, a: Stmt, ret: Type, loops: nat)
    requires stack != []
  {
    forall b :: AnnotatesStmt(b, s) && AcceptsStmt(stack, b, ret, loops) ==>
      AcceptsStmt(stack, a, ret, loops) && StmtEvents(b) == StmtEvents(a)
  }

  ghost predicate StmtsOnly(stack: seq<ScopeMap>, ss: seq<Stmt>, a: seq<Stmt>, ret: Type, loops: nat)
    requires stack != []
  {
    forall b :: AnnotatesStmts(b, ss) && AcceptsStmts(stack, b, ret, loops) ==>
      AcceptsStmts(stack, a, ret, loops) && StmtsEvents(b) == StmtsEvents(a)
  }

  lemma ExprStmtOnly(stack: seq<ScopeMap>, e: Option<Expr>, a: Option<Expr>, ret: Type, loops: nat)
    requires stack != [] && AnnotatesOption(a, e) && (e.Some? ==> ExprOnly(stack, e.value, a.value))
    ensures StmtOnly(stack, ExprStmt(e), ExprStmt(a), ret, loops)
    ensures StmtOnly(stack, ReturnStmt(e), ReturnStmt(a), ret, loops)
  {
    hide AcceptsExpr, AcceptsStmt, Annotates, Run;
    forall b | AnnotatesStmt(b, ExprStmt(e)) && AcceptsStmt(stack, b, ret, loops)
      ensures AcceptsStmt(stack, ExprStmt(a), ret, loops) && StmtEvents(b) == StmtEvents(ExprStmt(a))
    {
      SimpleParts(stack, b, ret, loops);
    }
    forall b | AnnotatesStmt(b, ReturnStmt(e)) && AcceptsStmt(stack, b, ret, loops)
      ensures AcceptsStmt(stack, ReturnStmt(a), ret, loops) && StmtEvents(b) == StmtEvents(ReturnStmt(a))
    {
      SimpleParts(stack, b, ret, loops);
    }
  }

  lemma DeclStmtOnly(stack: seq<ScopeMap>, ds: seq<Decl>, a: seq<Decl>, ret: Type, loops: nat)
    requires stack != [] && DeclsOnly(stack, ds, a)
    ensures StmtOnly(stack, DeclStmt(ds), DeclStmt(a), ret, loops)
  {
    hide AcceptsDecls, AcceptsStmt, AnnotatesDecls, Run, DeclsEvents;
    SimpleParts(stack, DeclStmt(a), ret, loops);
    forall b | AnnotatesStmt(b, DeclStmt(ds)) && AcceptsStmt(stack, b, ret, loops)
      ensures AcceptsStmt(stack, DeclStmt(a), ret, loops) && StmtEvents(b) == StmtEvents(DeclStmt(a))
    {
      SimpleParts(stack, b, ret, loops);
    }
  }

  lemma JumpOnly(stack: seq<ScopeMap>, s: Stmt, ret: Type, loops: nat)
    requires stack != [] && (s.BreakStmt? || s.ContinueStmt?)
    ensures StmtOnly(stack, s, s, ret, loops)
  {
  }

  lemma WhileOnly(stack: seq<ScopeMap>, c: Expr, s: Stmt, x: Expr, y: Stmt, ret: Type, loops: nat)
    requires stack != [] && ExprOnly(stack, c, x) && StmtOnly(stack, s, y, ret, loops + 1)
    ensures StmtOnly(stack, WhileStmt(c, s), WhileStmt(x, y), ret, loops)
  {
    hide AcceptsExpr, AcceptsStmt, Run;
    WhileParts(stack, x, y, ret, loops);
    forall b | AnnotatesStmt(b, WhileStmt(c, s)) && AcceptsStmt(stack, b, ret, loops)
      ensures AcceptsStmt(stack, WhileStmt(x, y), ret, loops) && StmtEvents(b) == StmtEvents(WhileStmt(x, y))
    {
      WhileParts(stack, b.condition, b.body, ret, loops);
    }
  }

  lemma IfOnly(stack: seq<ScopeMap>, c: Expr, t: Stmt, x: Expr, y: Stmt, ret: Type, loops: nat)
    requires stack != [] && ExprOnly(stack, c, x) && StmtOnly(stack, t, y, ret, loops)
    ensures StmtOnly(stack, IfStmt(c, t, None), IfStmt(x, y, None), ret, loops)
  {
    hide AcceptsExpr, AcceptsStmt, Run;
    IfParts(stack, x, y, ret, loops);
    forall b | AnnotatesStmt(b, IfStmt(c, t, None)) && AcceptsStmt(stack, b, ret, loops)
      ensures AcceptsStmt(stack, IfStmt(x, y, None), ret, loops) && StmtEvents(b) == StmtEvents(IfStmt(x, y, None))
    {
      IfParts(stack, b.condition, b.thenBranch, ret, loops);
    }
  }

  lemma IfElseOnly(stack: seq<ScopeMap>, c: Expr, t: Stmt, f: Stmt, x: Expr, y: Stmt, z: Stmt, ret: Type, loops: nat)
    requires stack != [] && ExprOnly(stack, c, x) && StmtOnly(stack, t, y, ret, loops)
    requires AcceptsExpr(stack, x) && AcceptsStmt(stack, y, ret, loops) ==>
             StmtOnly(Run(stack, StmtEvents(y)), f, z, ret, loops)
    ensures StmtOnly(stack, IfStmt(c, t, Some(f)), IfStmt(x, y, Some(z)), ret, loops)
  {
    hide AcceptsExpr, AcceptsStmt, Run;
    IfElseParts(stack, x, y, z, ret, loops);
    forall b | AnnotatesStmt(b, IfStmt(c, t, Some(f))) && AcceptsStmt(stack, b, ret, loops)
      ensures AcceptsStmt(stack, IfStmt(x, y, Some(z)), ret, loops) &&
              StmtEvents(b) == StmtEvents(IfStmt(x, y, Some(z)))
    {
      IfElseParts(stack, b.condition, b.thenBranch, b.elseBranch.value, ret, loops);
    }
  }

  lemma BlockOnly(stack: seq<ScopeMap>, ss: seq<Stmt>, a: seq<Stmt>, ret: Type, loops: nat)
    requires stack != [] && StmtsOnly(stack + [map[]], ss, a, ret, loops)
    ensures StmtOnly(stack, Block(ss), Block(a), ret, loops)
  {
    hide AcceptsStmt, AcceptsStmts, Run, StmtsEvents, AnnotatesStmt;
    GrowsSame(stack + [map[]]);
    BlockParts(stack, a, stack + [map[]], ret, loops);
    forall b | BlockAnnotates(b, ss) && AcceptsStmt(stack, b, ret, loops)
      ensures AcceptsStmt(stack, Block(a), ret, loops) && StmtEvents(b) == StmtEvents(Block(a))
    {
      BlockParts(stack, b.stmts, stack + [map[]], ret, loops);
    }
    BlockForms(ss);
  }

  predicate BlockAnnotates(b: Stmt, ss: seq<Stmt>) { b.Block? && AnnotatesStmts(b.stmts, ss) }

  lemma BlockForms(ss: seq<Stmt>)
    ensures forall b :: AnnotatesStmt(b, Block(ss)) <==> BlockAnnotates(b, ss)
  {
  }

  lemma NoStmtsOnly(stack: seq<ScopeMap>, ret: Type, loops: nat)
    requires stack != []
    ensures StmtsOnly(stack, [], [], ret, loops)
  {
  }

  lemma MoreStmtsOnly(stack: seq<ScopeMap>, ss: seq<Stmt>, s: Stmt, as': seq<Stmt>, a: Stmt, ret: Type, loops: nat)
    requires stack != [] && StmtsOnly(stack, ss, as', ret, loops)
    requires AcceptsStmts(stack, as', ret, loops) ==> StmtOnly(Run(stack, StmtsEvents(as')), s, a, ret, loops)
    ensures StmtsOnly(stack, ss + [s], as' + [a], ret, loops)
  {
    hide AcceptsStmt, AcceptsStmts, AnnotatesStmt, StmtEvents, Run;
    MoreStmts(stack, as', a, ret, loops);
    forall b | AnnotatesStmts(b, ss + [s]) && AcceptsStmts(stack, b, ret, loops)
      ensures AcceptsStmts(stack, as' + [a], ret, loops) && StmtsEvents(b) == StmtsEvents(as' + [a])
    {
      var n := |ss|;
      assert b == b[..n] + [b[n]];
      MoreStmts(stack, b[..n], b[n], ret, loops);
      forall k | 0 <= k < n ensures AnnotatesStmt(b[..n][k], ss[k]) { assert (ss + [s])[k] == ss[k]; }
      assert (ss + [s])[n] == s;
      assert (as' + [a])[..|as'|] == as';
    }
  }

  ghost predicate GlobalOnly(stack: seq<ScopeMap>, g: GlobalDecl, a: GlobalDecl)
    requires stack != []
  {
    forall b :: AnnotatesGlobal(b, g) && AcceptsGlobal(stack, b) ==>
      AcceptsGlobal(stack, a) && GlobalEvents(b) == GlobalEvents(a)
  }

  lemma FuncOnly(stack: seq<ScopeMap>, f: FuncDef, a: FuncDef, declared: seq<ScopeMap>)
    requires stack != [] && declared == Run(stack + [map[]], ParamsEvents(f.params)) && Grows(stack + [map[]], declared)
    requires AnnotatesFunc(a, f)
    requires f.body.Some? ==> StmtsOnly(declared, f.body.value, a.body.value, f.retType, 0)
    ensures GlobalOnly(stack, Function(f), Function(a))
  {
    hide AcceptsGlobal, AcceptsStmts, Run, StmtsEvents, AnnotatesStmts, Resolves, ParamsEvents, Grows;
    GrowsSame(declared);
    FuncParts(stack, a, declared, declared);
    forall b | AnnotatesGlobal(b, Function(f)) && AcceptsGlobal(stack, b)
      ensures AcceptsGlobal(stack, Function(a)) && GlobalEvents(b) == GlobalEvents(Function(a))
    {
      FuncParts(stack, b.def, declared, declared);
    }
  }

  lemma VariableDeclOnly(stack: seq<ScopeMap>, d: Decl, a: Decl)
    requires stack != [] && DeclOnly(stack, d, a)
    ensures GlobalOnly(stack, Variable(d), Variable(a))
  {
    hide AcceptsGlobal, AcceptsDecl, AnnotatesDecl, DeclEvents;
    VariableParts(stack, a);
    forall b | AnnotatesGlobal(b, Variable(d)) && AcceptsGlobal(stack, b)
      ensures AcceptsGlobal(stack, Variable(a)) && GlobalEvents(b) == GlobalEvents(Variable(a))
    {
      VariableParts(stack, b.decl);
    }
  }

  ghost predicate GlobalsOnly(stack: seq<ScopeMap>, gs: seq<GlobalDecl>, a: seq<GlobalDecl>)
    requires stack != []
  {
    forall b :: AnnotatesUnit(b, gs) && AcceptsGlobals(stack, b) ==>
      AcceptsGlobals(stack, a) && GlobalsEvents(b) == GlobalsEvents(a)
  }

  lemma NoGlobalsOnly(stack: seq<ScopeMap>)
    requires stack != []
    ensures GlobalsOnly(stack, [], [])
  {
  }

  lemma MoreGlobalsOnly(stack: seq<ScopeMap>, gs: seq<GlobalDecl>, g: GlobalDecl, as': seq<GlobalDecl>, a: GlobalDecl)
    requires stack != [] && GlobalsOnly(stack, gs, as')
    requires AcceptsGlobals(stack, as') ==> GlobalOnly(Run(stack, GlobalsEvents(as')), g, a)
    ensures GlobalsOnly(stack, gs + [g], as' + [a])
  {
    hide AcceptsGlobal, AcceptsGlobals, AnnotatesGlobal, GlobalEvents, Run;
    MoreGlobals(stack, as', a);
    forall b | AnnotatesUnit(b, gs + [g]) && AcceptsGlobals(stack, b)
      ensures AcceptsGlobals(stack, as' + [a]) && GlobalsEvents(b) == GlobalsEvents(as' + [a])
    {
      var n := |gs|;
      assert b == b[..n] + [b[n]];
      MoreGlobals(stack, b[..n], b[n]);
      forall k | 0 <= k < n ensures AnnotatesGlobal(b[..n][k], gs[k]) { assert (gs + [g])[k] == gs[k]; }
      assert (gs + [g])[n] == g;
      assert (as' + [a])[..|as'|] == as';
    }
  }

  /** Some annotation of the unit obeys the scope rules and the static rules. */
  ghost predicate Annotatable(unit: seq<GlobalDecl>)
  {
    exists b :: AnnotatesUnit(b, unit) && WellScoped(UnitEvents(b)) && UnitRules(b)
  }

  /** Where the analyser's own annotation is the only one that can be accepted, it decides for all. */
  lemma UnitDecided(unit: seq<GlobalDecl>, a: seq<GlobalDecl>, collected: seq<ScopeMap>)
    requires collected != [] && AnnotatesUnit(a, unit) && GlobalsOnly(collected, unit, a)
    requires Resolves([map[]], Hoisted(unit)) ==> collected == Run([map[]], Hoisted(unit))
    ensures WellScoped(UnitEvents(a)) && UnitRules(a) <==> Annotatable(unit)
  {
    hide Resolves, Run, Hoisted, GlobalsEvents, UnitRules, AnnotatesUnit, AcceptsGlobals, WellScoped, UnitEvents;
    SameHoisted(a, unit);
    UnitParts(a, collected);
    ScopedExactly(UnitEvents(a));
    forall b | AnnotatesUnit(b, unit) && WellScoped(UnitEvents(b)) && UnitRules(b)
      ensures WellScoped(UnitEvents(a)) && UnitRules(a)
    {
      SameHoisted(b, unit);
      UnitParts(b, collected);
      ScopedExactly(UnitEvents(b));
    }
  }
}
