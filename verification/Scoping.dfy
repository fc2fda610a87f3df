/**
  Lexical scope, twice. A program is read as a trace of events: scopes opening and closing, names declared and
  used. Once a stack of maps runs over the trace, as the symbol table does; once visibility is defined from
  positions in the trace alone. `ScopedExactly` is the theorem that the two agree.
 */
module Scoping {
  import opened Ast
  import opened Word

  datatype Symbol = Symbol(
    name: string, typ: Type, isConst: bool, isFunction: bool, isGlobal: bool, isParam: bool,
    constValue: i32, paramTypes: seq<Type>)

  type ScopeMap = map<string, Symbol>

  datatype Event =
    | Enter
    | Leave
    | Declare(sym: Symbol)
    | Use(name: string, resolved: Resolution)
    | Store(name: string)
    | Call(name: string, count: nat, retType: Type)

  function ResolutionOf(s: Symbol): Resolution {
    Resolution(s.typ, s.isConst, s.constValue, s.isGlobal, s.isFunction)
  }

  // ---- the stack of maps ----

  function Lookup(stack: seq<ScopeMap>, x: string): Option<Symbol> {
    if stack == [] then None
    else if x in stack[|stack| - 1] then Some(stack[|stack| - 1][x])
    else Lookup(stack[..|stack| - 1], x)
  }

  function LookupFunction(stack: seq<ScopeMap>, f: string): Option<Symbol> {
    if stack != [] && f in stack[0] && stack[0][f].isFunction then Some(stack[0][f]) else None
  }

  function Top(stack: seq<ScopeMap>): ScopeMap
    requires stack != []
  {
    stack[|stack| - 1]
  }

  function Added(stack: seq<ScopeMap>, s: Symbol): seq<ScopeMap>
    requires stack != []
  {
    if s.name in Top(stack) then stack else stack[|stack| - 1 := Top(stack)[s.name := s]]
  }

  function After(stack: seq<ScopeMap>, e: Event): (r: seq<ScopeMap>)
    requires stack != []
    ensures r != []
  {
    match e
    case Enter => stack + [map[]]
    case Leave => if |stack| > 1 then stack[..|stack| - 1] else stack
    case Declare(s) => Added(stack, s)
    case _ => stack
  }

  predicate Permits(stack: seq<ScopeMap>, e: Event)
    requires stack != []
  {
    match e
    case Declare(s) => s.name !in Top(stack) && s.isGlobal == (|stack| == 1)
    case Use(x, r) => Lookup(stack, x).Some? && r == ResolutionOf(Lookup(stack, x).value)
    case Store(x) => Lookup(stack, x).Some? ==> !Lookup(stack, x).value.isConst
    case Call(f, n, t) =>
      && LookupFunction(stack, f).Some?
      && |LookupFunction(stack, f).value.paramTypes| == n
      && LookupFunction(stack, f).value.typ == t
    case _ => true
  }

  function Run(stack: seq<ScopeMap>, t: seq<Event>): (r: seq<ScopeMap>)
    requires stack != []
    ensures r != []
  {
    if t == [] then stack else After(Run(stack, t[..|t| - 1]), t[|t| - 1])
  }

  predicate Resolves(stack: seq<ScopeMap>, t: seq<Event>)
    requires stack != []
  {
    t == [] || (Resolves(stack, t[..|t| - 1]) && Permits(Run(stack, t[..|t| - 1]), t[|t| - 1]))
  }

  lemma {:induction false} Concatenates(stack: seq<ScopeMap>, t: seq<Event>, u: seq<Event>)
    requires stack != []
    ensures Run(stack, t + u) == Run(Run(stack, t), u)
    ensures Resolves(stack, t + u) == (Resolves(stack, t) && Resolves(Run(stack, t), u))
  {
    if u == [] {
      assert t + u == t;
    } else {
      Concatenates(stack, t, u[..|u| - 1]);
      assert (t + u)[..|t + u| - 1] == t + u[..|u| - 1];
    }
  }

  // ---- visibility by position ----

  /** How many scopes are open after the trace; the outermost one never closes. */
  function Depth(t: seq<Event>): (d: nat)
    ensures d >= 1
  {
    if t == [] then 1 else
      var d := Depth(t[..|t| - 1]);
      match t[|t| - 1]
      case Enter => d + 1
      case Leave => if d > 1 then d - 1 else d
      case _ => d
  }

  /** How many scopes are open just before the event at `i`. */
  function Level(t: seq<Event>, i: nat): (l: nat)
    ensures i <= |t| ==> l >= 1
  {
    if i <= |t| then Depth(t[..i]) else 0
  }

  /** The declaration at `i` is still visible when the trace ends: its scope has not been closed since. */
  ghost predicate Visible(t: seq<Event>, i: nat): (b: bool)
    ensures b ==> i < |t| && t[i].Declare?
  {
    i < |t| && t[i].Declare? && forall k :: i < k <= |t| ==> Level(t, k) >= Level(t, i)
  }

  ghost predicate VisibleAs(t: seq<Event>, i: nat, x: string) {
    Visible(t, i) && t[i].sym.name == x
  }

  /** The innermost visible declaration of `x`: the last one still visible. */
  ghost predicate Innermost(t: seq<Event>, i: nat, x: string): (b: bool)
    ensures b ==> i < |t| && t[i].Declare?
  {
    VisibleAs(t, i, x) && forall j: nat :: i < j < |t| ==> !VisibleAs(t, j, x)
  }

  ghost predicate SomeInnermost(t: seq<Event>, x: string, r: Resolution) {
    exists i: nat :: Innermost(t, i, x) && r == ResolutionOf(t[i].sym)
  }

  ghost predicate DeclaredHere(t: seq<Event>, x: string) {
    exists i: nat :: VisibleAs(t, i, x) && Level(t, i) == Depth(t)
  }

  ghost predicate ConstTarget(t: seq<Event>, x: string) {
    exists i: nat :: Innermost(t, i, x) && t[i].sym.isConst
  }

  ghost predicate CallsGlobal(t: seq<Event>, f: string, n: nat, typ: Type) {
    exists i: nat ::
      && VisibleAs(t, i, f) && Level(t, i) == 1
      && t[i].sym.isFunction && |t[i].sym.paramTypes| == n && t[i].sym.typ == typ
  }

  /** What the scope rules ask of the event that follows the trace `t`. */
  ghost predicate Scoped(t: seq<Event>, e: Event) {
    match e
    case Declare(s) => !DeclaredHere(t, s.name) && s.isGlobal == (Depth(t) == 1)
    case Use(x, r) => SomeInnermost(t, x, r)
    case Store(x) => !ConstTarget(t, x)
    case Call(f, n, typ) => CallsGlobal(t, f, n, typ)
    case _ => true
  }

  ghost predicate WellScoped(t: seq<Event>) {
    forall k :: 0 <= k < |t| ==> Scoped(t[..k], t[k])
  }

  // ---- the two agree ----

  /** The stack holds the symbol declared at `i`, at that declaration's level. */
  ghost predicate Held(t: seq<Event>, stack: seq<ScopeMap>, i: nat)
    requires Visible(t, i)
  {
    Level(t, i) <= |stack| && var m := stack[Level(t, i) - 1]; t[i].sym.name in m && m[t[i].sym.name] == t[i].sym
  }

  ghost predicate AllHeld(t: seq<Event>, stack: seq<ScopeMap>) {
    forall i: nat :: Visible(t, i) ==> Held(t, stack, i)
  }

  ghost predicate AllDeclared(t: seq<Event>, stack: seq<ScopeMap>) {
    forall l: nat, x :: l < |stack| && x in stack[l] ==> HasHolder(t, l, x)
  }

  ghost predicate NoneTwice(t: seq<Event>) {
    forall i: nat, j: nat ::
      i < j && Visible(t, i) && Visible(t, j) && t[i].sym.name == t[j].sym.name ==> Level(t, i) != Level(t, j)
  }

  /** The stack's levels are the scopes still open, each holding exactly its visible declarations. */
  ghost predicate Mirrors(t: seq<Event>, stack: seq<ScopeMap>) {
    |stack| == Depth(t) && AllHeld(t, stack) && AllDeclared(t, stack) && NoneTwice(t)
  }

  ghost predicate HasHolder(t: seq<Event>, l: nat, x: string) {
    exists i: nat :: VisibleAs(t, i, x) && Level(t, i) == l + 1
  }

  lemma LevelStep(t: seq<Event>, e: Event)
    ensures forall i: nat :: i <= |t| ==> Level(t + [e], i) == Level(t, i)
    ensures Level(t, |t|) == Depth(t) && Level(t + [e], |t| + 1) == Depth(t + [e])
  {
    assert forall i: nat :: i <= |t| ==> (t + [e])[..i] == t[..i];
    assert t[..|t|] == t && (t + [e])[..|t| + 1] == t + [e];
  }

  lemma VisibleStep(t: seq<Event>, e: Event)
    ensures forall i: nat :: i < |t| ==> (Visible(t + [e], i) <==> Visible(t, i) && Depth(t + [e]) >= Level(t, i))
    ensures Visible(t + [e], |t|) ==> e.Declare?
    ensures e.Declare? ==> Visible(t + [e], |t|)
    ensures forall i: nat :: Visible(t, i) ==> Level(t, i) <= Depth(t)
  {
    hide Level, Depth;
    LevelStep(t, e);
    if e.Declare? {
      DeclareDepth(t, e);
    }
  }

  lemma DeclareDepth(t: seq<Event>, e: Event)
    requires e.Declare?
    ensures Depth(t + [e]) == Depth(t)
  {
    assert (t + [e])[..|t|] == t;
  }

  lemma MirrorsDeclare(t: seq<Event>, stack: seq<ScopeMap>, s: Symbol)
    requires Mirrors(t, stack) && stack != [] && s.name !in Top(stack)
    ensures Mirrors(t + [Declare(s)], Added(stack, s))
  {
    hide Visible, Level, Depth, AllHeld, AllDeclared, NoneTwice;
    var e := Declare(s);
    var u, r := t + [e], Added(stack, s);
    DeclareDepth(t, e);
    LevelStep(t, e);
    VisibleStep(t, e);
    assert AllHeld(u, r) by { DeclareHeld(t, stack, s); }
    assert AllDeclared(u, r) by { DeclareDeclared(t, stack, s); }
    assert NoneTwice(u) by { DeclareOnce(t, stack, s); }
  }

  lemma DeclareHeld(t: seq<Event>, stack: seq<ScopeMap>, s: Symbol)
    requires |stack| == Depth(t) && AllHeld(t, stack) && s.name !in Top(stack)
    ensures AllHeld(t + [Declare(s)], Added(stack, s))
  {
    hide Visible, Level, Depth;
    var e := Declare(s);
    DeclareDepth(t, e);
    LevelStep(t, e);
    VisibleStep(t, e);
    forall i: nat | Visible(t + [e], i) ensures Held(t + [e], Added(stack, s), i) {
      if i < |t| { assert Held(t, stack, i); }
    }
  }

  lemma DeclareDeclared(t: seq<Event>, stack: seq<ScopeMap>, s: Symbol)
    requires |stack| == Depth(t) && AllDeclared(t, stack) && s.name !in Top(stack)
    ensures AllDeclared(t + [Declare(s)], Added(stack, s))
  {
    hide Visible, Level, Depth;
    var e := Declare(s);
    DeclareDepth(t, e);
    LevelStep(t, e);
    VisibleStep(t, e);
    var r := Added(stack, s);
    forall l: nat, x | l < |r| && x in r[l] ensures HasHolder(t + [e], l, x) {
      if x in stack[l] {
        assert HasHolder(t, l, x);
        var i: nat :| VisibleAs(t, i, x) && Level(t, i) == l + 1;
        assert VisibleAs(t + [e], i, x);
      } else {
        assert VisibleAs(t + [e], |t|, x);
      }
    }
  }

  lemma DeclareOnce(t: seq<Event>, stack: seq<ScopeMap>, s: Symbol)
    requires |stack| == Depth(t) && AllHeld(t, stack) && NoneTwice(t) && s.name !in Top(stack)
    ensures NoneTwice(t + [Declare(s)])
  {
    hide Visible, Level, Depth;
    var e := Declare(s);
    var u := t + [e];
    LevelStep(t, e);
    VisibleStep(t, e);
    forall i: nat, j: nat | i < j && Visible(u, i) && Visible(u, j) && u[i].sym.name == u[j].sym.name
      ensures Level(u, i) != Level(u, j)
    {
      if j == |t| {
        assert Held(t, stack, i);
      }
    }
  }

  lemma OtherDepth(t: seq<Event>, stack: seq<ScopeMap>, e: Event)
    requires stack != [] && !e.Declare? && |stack| == Depth(t)
    ensures |After(stack, e)| == Depth(t + [e])
  {
    assert (t + [e])[..|t|] == t;
  }

  lemma MirrorsOther(t: seq<Event>, stack: seq<ScopeMap>, e: Event)
    requires Mirrors(t, stack) && stack != [] && !e.Declare?
    ensures Mirrors(t + [e], After(stack, e))
  {
    hide Visible, Level, Depth, AllDeclared;
    var u, r := t + [e], After(stack, e);
    OtherDepth(t, stack, e);
    LevelStep(t, e);
    VisibleStep(t, e);
    forall i: nat | Visible(u, i) ensures Held(u, r, i) {
      assert Held(t, stack, i);
    }
    OtherDeclared(t, stack, e);
  }

  lemma OtherDeclared(t: seq<Event>, stack: seq<ScopeMap>, e: Event)
    requires |stack| == Depth(t) && AllDeclared(t, stack) && stack != [] && !e.Declare?
    ensures AllDeclared(t + [e], After(stack, e))
  {
    hide Visible, Level, Depth;
    var u, r := t + [e], After(stack, e);
    OtherDepth(t, stack, e);
    LevelStep(t, e);
    VisibleStep(t, e);
    forall l: nat, x | l < |r| && x in r[l] ensures HasHolder(u, l, x) {
      assert l < |stack| && x in stack[l];
      assert HasHolder(t, l, x);
      var i: nat :| VisibleAs(t, i, x) && Level(t, i) == l + 1;
      assert VisibleAs(u, i, x);
    }
  }

  /** Running the stack over a trace it permits leaves exactly the visible declarations, scope by scope. */
  lemma {:induction false} RunMirrors(t: seq<Event>)
    requires Resolves([map[]], t)
    ensures Mirrors(t, Run([map[]], t))
  {
    hide Mirrors;
    if t == [] {
      MirrorsEmpty();
    } else {
      var u, e := t[..|t| - 1], t[|t| - 1];
      RunMirrors(u);
      assert t == u + [e];
      if e.Declare? {
        MirrorsDeclare(u, Run([map[]], u), e.sym);
      } else {
        MirrorsOther(u, Run([map[]], u), e);
      }
    }
  }

  lemma MirrorsEmpty()
    ensures Mirrors([], [map[]])
  {
  }

  ghost predicate AbsentAbove(stack: seq<ScopeMap>, n: nat, x: string) {
    forall l: nat :: n <= l < |stack| ==> x !in stack[l]
  }

  lemma HolderIsInnermost(t: seq<Event>, stack: seq<ScopeMap>, n: nat, x: string) returns (i: nat)
    requires Mirrors(t, stack) && n < |stack| && AbsentAbove(stack, n + 1, x) && x in stack[n]
    ensures Innermost(t, i, x) && stack[n][x] == t[i].sym
  {
    hide Visible, Level, Depth;
    assert HasHolder(t, n, x);
    i :| VisibleAs(t, i, x) && Level(t, i) == n + 1;
    assert Held(t, stack, i);
    forall j: nat | i < j < |t| ensures !VisibleAs(t, j, x) {
      if VisibleAs(t, j, x) {
        assert Held(t, stack, j);
        StaysAbove(t, i, j);
      }
    }
  }

  lemma NoneVisible(t: seq<Event>, stack: seq<ScopeMap>, x: string)
    requires Mirrors(t, stack) && AbsentAbove(stack, 0, x)
    ensures forall j: nat :: !VisibleAs(t, j, x)
  {
    hide Visible, Level, Depth;
    assert forall j: nat :: Visible(t, j) ==> Held(t, stack, j);
  }

  /** Looking a name up finds the innermost visible declaration, and nothing when there is none. */
  lemma {:induction false} LookupIsInnermost(t: seq<Event>, stack: seq<ScopeMap>, n: nat, x: string) returns (i: nat)
    requires Mirrors(t, stack) && n <= |stack| && AbsentAbove(stack, n, x)
    ensures Lookup(stack[..n], x).Some? ==> Innermost(t, i, x) && Lookup(stack[..n], x).value == t[i].sym
    ensures Lookup(stack[..n], x).None? ==> forall j: nat :: !VisibleAs(t, j, x)
  {
    hide Mirrors, Innermost, VisibleAs;
    i := 0;
    if n == 0 {
      NoneVisible(t, stack, x);
    } else if x in stack[n - 1] {
      i := HolderIsInnermost(t, stack, n - 1, x);
    } else {
      assert stack[..n][..n - 1] == stack[..n - 1];
      i := LookupIsInnermost(t, stack, n - 1, x);
    }
  }

  lemma StaysAbove(t: seq<Event>, i: nat, j: nat)
    requires Visible(t, i) && i < j <= |t|
    ensures Level(t, i) <= Level(t, j)
  {
  }

  /** One event: the stack permits it exactly when it is well scoped by position. */
  lemma PermitsScoped(t: seq<Event>, stack: seq<ScopeMap>, e: Event)
    requires Mirrors(t, stack) && stack != []
    ensures Permits(stack, e) <==> Scoped(t, e)
  {
    hide Mirrors, Lookup, LookupFunction, Innermost, Depth, DeclaredHere, SomeInnermost, ConstTarget, CallsGlobal;
    match e
    case Declare(s) => DeclareScoped(t, stack, s.name);
    case Use(x, r) => UseScoped(t, stack, x, r);
    case Store(x) => StoreScoped(t, stack, x);
    case Call(f, n, typ) => CallScoped(t, stack, f, n, typ);
    case _ =>
  }

  lemma DeclareScoped(t: seq<Event>, stack: seq<ScopeMap>, x: string)
    requires Mirrors(t, stack) && stack != []
    ensures x in Top(stack) <==> DeclaredHere(t, x)
    ensures |stack| == Depth(t)
  {
    hide Visible, Level, Depth, NoneTwice, AllHeld, AllDeclared, DeclaredHere;
    if x in Top(stack) {
      TopDeclared(t, stack, x);
    }
    if DeclaredHere(t, x) {
      DeclaredTop(t, stack, x);
    }
  }

  lemma TopDeclared(t: seq<Event>, stack: seq<ScopeMap>, x: string)
    requires |stack| == Depth(t) && AllDeclared(t, stack) && stack != [] && x in Top(stack)
    ensures DeclaredHere(t, x)
  {
    hide VisibleAs, Level, Depth;
    assert HasHolder(t, |stack| - 1, x);
  }

  lemma DeclaredTop(t: seq<Event>, stack: seq<ScopeMap>, x: string)
    requires |stack| == Depth(t) && AllHeld(t, stack) && stack != [] && DeclaredHere(t, x)
    ensures x in Top(stack)
  {
    hide Visible, Level, Depth;
    var i: nat :| VisibleAs(t, i, x) && Level(t, i) == Depth(t);
    assert Held(t, stack, i);
  }

  lemma UseScoped(t: seq<Event>, stack: seq<ScopeMap>, x: string, r: Resolution)
    requires Mirrors(t, stack) && stack != []
    ensures Lookup(stack, x).Some? && r == ResolutionOf(Lookup(stack, x).value) <==> SomeInnermost(t, x, r)
  {
    hide Mirrors, Lookup, Innermost, VisibleAs;
    assert AbsentAbove(stack, |stack|, x) && stack[..|stack|] == stack;
    var i := LookupIsInnermost(t, stack, |stack|, x);
    InnermostFacts(t, x);
  }

  lemma StoreScoped(t: seq<Event>, stack: seq<ScopeMap>, x: string)
    requires Mirrors(t, stack) && stack != []
    ensures Lookup(stack, x).Some? && Lookup(stack, x).value.isConst <==> ConstTarget(t, x)
  {
    hide Mirrors, Lookup, Innermost, VisibleAs;
    assert AbsentAbove(stack, |stack|, x) && stack[..|stack|] == stack;
    var i := LookupIsInnermost(t, stack, |stack|, x);
    InnermostFacts(t, x);
  }

  lemma CallScoped(t: seq<Event>, stack: seq<ScopeMap>, f: string, n: nat, typ: Type)
    requires Mirrors(t, stack) && stack != []
    ensures Permits(stack, Call(f, n, typ)) <==> CallsGlobal(t, f, n, typ)
  {
    hide Visible, Level, Depth, NoneTwice, AllDeclared, AllHeld;
    if f in stack[0] {
      var i := GlobalHolder(t, stack, f);
    }
    if CallsGlobal(t, f, n, typ) {
      var i: nat :| VisibleAs(t, i, f) && Level(t, i) == 1
                    && t[i].sym.isFunction && |t[i].sym.paramTypes| == n && t[i].sym.typ == typ;
      GlobalHeld(t, stack, i);
    }
  }

  lemma GlobalHolder(t: seq<Event>, stack: seq<ScopeMap>, f: string) returns (i: nat)
    requires AllDeclared(t, stack) && AllHeld(t, stack) && stack != [] && f in stack[0]
    ensures VisibleAs(t, i, f) && Level(t, i) == 1 && t[i].sym == stack[0][f]
  {
    hide Visible, Level;
    assert HasHolder(t, 0, f);
    i :| VisibleAs(t, i, f) && Level(t, i) == 0 + 1;
    assert Held(t, stack, i);
  }

  lemma GlobalHeld(t: seq<Event>, stack: seq<ScopeMap>, i: nat)
    requires AllHeld(t, stack) && stack != [] && Visible(t, i) && Level(t, i) == 1
    ensures t[i].sym.name in stack[0] && stack[0][t[i].sym.name] == t[i].sym
  {
    hide Visible, Level;
    assert Held(t, stack, i);
  }

  lemma InnermostFacts(t: seq<Event>, x: string)
    ensures forall i: nat :: Innermost(t, i, x) ==> VisibleAs(t, i, x)
    ensures forall i: nat, j: nat :: Innermost(t, i, x) && Innermost(t, j, x) ==> i == j
  {
  }

  /**
    The stack of maps accepts a program's trace exactly when every event obeys the positional rules: a use is
    recorded with its innermost visible declaration, no scope declares a name twice, nothing constant is stored
    to, and a call finds a global function of that arity and type, even past a local of the same name.
   */
  lemma {:induction false} ScopedExactly(t: seq<Event>)
    ensures Resolves([map[]], t) <==> WellScoped(t)
  {
    hide Mirrors, Permits, Scoped;
    if t != [] {
      var u, e := t[..|t| - 1], t[|t| - 1];
      ScopedExactly(u);
      assert forall k :: 0 <= k <= |u| ==> t[..k] == u[..k];
      assert u[..|u|] == u;
      if Resolves([map[]], u) {
        RunMirrors(u);
        PermitsScoped(u, Run([map[]], u), e);
      }
      assert WellScoped(t) <==> WellScoped(u) && Scoped(u, e) by {
        if WellScoped(t) { assert Scoped(t[..|u|], t[|u|]); }
      }
    }
  }
}
