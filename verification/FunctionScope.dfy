/** Calls in an accepted program: whatever the order of definitions, each one finds the function it names. */
module FunctionScope {
  import opened Ast
  import opened Scoping
  import opened Rules

  /** Nothing in the trace declares a function. */
  predicate NoFunctions(t: seq<Event>) {
    forall k :: 0 <= k < |t| && t[k].Declare? ==> !t[k].sym.isFunction
  }

  lemma OptionPlain(e: Option<Expr>)
    ensures NoFunctions(OptionEvents(e))
  {
    if e.Some? { ExprStill(e.value); }
  }

  lemma {:induction false} DeclsPlain(ds: seq<Decl>)
    ensures NoFunctions(DeclsEvents(ds))
  {
    if ds != [] {
      DeclsPlain(ds[..|ds| - 1]);
      OptionPlain(ds[|ds| - 1].init);
    }
  }

  lemma {:induction false} StmtPlain(s: Stmt)
    ensures NoFunctions(StmtEvents(s))
    decreases s
  {
    match s
    case Block(ss) => StmtsPlain(ss);
    case ExprStmt(e) => OptionPlain(e);
    case DeclStmt(ds) => DeclsPlain(ds);
    case IfStmt(c, t, None) => ExprStill(c); StmtPlain(t);
    case IfStmt(c, t, Some(f)) => ExprStill(c); StmtPlain(t); StmtPlain(f);
    case WhileStmt(c, b) => ExprStill(c); StmtPlain(b);
    case ReturnStmt(e) => OptionPlain(e);
    case _ =>
  }

  lemma {:induction false} StmtsPlain(ss: seq<Stmt>)
    ensures NoFunctions(StmtsEvents(ss))
    decreases ss
  {
    if ss != [] {
      StmtsPlain(ss[..|ss| - 1]);
      StmtPlain(ss[|ss| - 1]);
    }
  }

  lemma {:induction false} ParamsPlain(ps: seq<FuncParam>)
    ensures NoFunctions(ParamsEvents(ps))
  {
    if ps != [] { ParamsPlain(ps[..|ps| - 1]); }
  }

  lemma {:induction false} GlobalsPlain(gs: seq<GlobalDecl>)
    ensures NoFunctions(GlobalsEvents(gs))
  {
    if gs != [] {
      GlobalsPlain(gs[..|gs| - 1]);
      match gs[|gs| - 1]
      case Function(f) =>
        ParamsPlain(f.params);
        if f.body.Some? { StmtsPlain(f.body.value); }
      case Variable(d) => OptionPlain(d.init);
    }
  }

  ghost predicate Defines(gs: seq<GlobalDecl>, f: string, count: nat, t: Type) {
    exists i :: 0 <= i < |gs| && gs[i].Function? && gs[i].def.name == f && |gs[i].def.params| == count &&
      gs[i].def.retType == t
  }

  lemma {:induction false} HoistedDefines(gs: seq<GlobalDecl>, k: nat)
    requires k < |Hoisted(gs)|
    ensures var e := Hoisted(gs)[k];
            e.Declare? && Defines(gs, e.sym.name, |e.sym.paramTypes|, e.sym.typ)
  {
    var rest, g := gs[..|gs| - 1], gs[|gs| - 1];
    if k < |Hoisted(rest)| {
      HoistedDefines(rest, k);
      var e := Hoisted(rest)[k];
      var i :| 0 <= i < |rest| && rest[i].Function? && rest[i].def.name == e.sym.name
               && |rest[i].def.params| == |e.sym.paramTypes| && rest[i].def.retType == e.sym.typ;
      assert gs[i] == rest[i];
    } else {
      assert g.Function?;
    }
  }

  /**
    In a well-scoped unit every call, wherever it stands and whatever local names surround it, names a function
    that the unit defines, before or after, with as many parameters as there are arguments and the recorded type.
   */
  lemma CallsFindDefinitions(gs: seq<GlobalDecl>, k: nat)
    requires WellScoped(UnitEvents(gs)) && k < |UnitEvents(gs)| && UnitEvents(gs)[k].Call?
    ensures var e := UnitEvents(gs)[k]; Defines(gs, e.name, e.count, e.retType)
  {
    hide Defines;
    var t := UnitEvents(gs);
    var e := t[k];
    assert Scoped(t[..k], e);
    assert CallsGlobal(t[..k], e.name, e.count, e.retType);
    var i: nat :| VisibleAs(t[..k], i, e.name) && t[..k][i].sym.isFunction
                  && |t[..k][i].sym.paramTypes| == e.count && t[..k][i].sym.typ == e.retType;
    assert t[..k][i] == t[i];
    GlobalsPlain(gs);
    assert forall j :: |Hoisted(gs)| <= j < |t| ==> t[j] == GlobalsEvents(gs)[j - |Hoisted(gs)|];
    HoistedDefines(gs, i);
  }
}
