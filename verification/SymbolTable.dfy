/** The symbol table: a stack of scopes, pushed and popped in place, each scope a map updated in place. */
module SymbolTable {
  import opened Ast
  import opened Scoping

  class Scope {
    var symbols: ScopeMap

    constructor ()
      ensures symbols == map[]
    {
      symbols := map[];
    }

    method AddSymbol(sym: Symbol) returns (added: bool)
      modifies this
      ensures added == (sym.name !in old(symbols))
      ensures symbols == if added then old(symbols)[sym.name := sym] else old(symbols)
    {
      if sym.name in symbols {
        return false;
      }
      symbols := symbols[sym.name := sym];
      return true;
    }

    method Lookup(name: string) returns (found: Option<Symbol>)
      ensures found == if name in symbols then Some(symbols[name]) else None
    {
      found := if name in symbols then Some(symbols[name]) else None;
    }
  }

  class Table {
    var scopes: seq<Scope>

    /** Scopes are owned one by one, and the global scope is always there. */
    ghost predicate Valid()
      reads this
    {
      scopes != [] && forall i, j :: 0 <= i < j < |scopes| ==> scopes[i] != scopes[j]
    }

    ghost function Stack(): (s: seq<ScopeMap>)
      reads this, scopes
      ensures |s| == |scopes|
    {
      seq(|scopes|, i requires 0 <= i < |scopes| reads this, scopes => scopes[i].symbols)
    }

    constructor ()
      ensures Valid() && Stack() == [map[]]
      ensures fresh(scopes)
    {
      var global := new Scope();
      scopes := [global];
    }

    method EnterScope()
      requires Valid()
      modifies this
      ensures Valid() && Stack() == old(Stack()) + [map[]]
      ensures |scopes| == |old(scopes)| + 1 && scopes[..|old(scopes)|] == old(scopes)
      ensures fresh(scopes[|old(scopes)|])
    {
      var inner := new Scope();
      scopes := scopes + [inner];
    }

    /** The outermost scope is never popped. */
    method ExitScope()
      requires Valid()
      modifies this
      ensures Valid()
      ensures scopes == if |old(scopes)| > 1 then old(scopes)[..|old(scopes)| - 1] else old(scopes)
      ensures Stack() == After(old(Stack()), Leave)
    {
      if |scopes| > 1 {
        scopes := scopes[..|scopes| - 1];
      }
    }

    method AddSymbol(sym: Symbol) returns (added: bool)
      requires Valid()
      modifies scopes[|scopes| - 1]
      ensures Valid() && scopes == old(scopes)
      ensures added == (sym.name !in old(Top(Stack())))
      ensures Stack() == After(old(Stack()), Declare(sym))
    {
      ghost var before := Stack();
      added := scopes[|scopes| - 1].AddSymbol(sym);
      assert Stack() == before[|before| - 1 := scopes[|scopes| - 1].symbols];
    }

    method Lookup(name: string) returns (found: Option<Symbol>)
      requires Valid()
      ensures found == Scoping.Lookup(Stack(), name)
    {
      var i := |scopes|;
      assert Stack()[..i] == Stack();
      while i > 0
        invariant 0 <= i <= |scopes|
        invariant Scoping.Lookup(Stack(), name) == Scoping.Lookup(Stack()[..i], name)
      {
        i := i - 1;
        found := scopes[i].Lookup(name);
        if found.Some? {
          return;
        }
        assert Stack()[..i + 1][..i] == Stack()[..i];
      }
      return None;
    }

    method LookupCurrent(name: string) returns (found: Option<Symbol>)
      requires Valid()
      ensures found == if name in Top(Stack()) then Some(Top(Stack())[name]) else None
    {
      found := scopes[|scopes| - 1].Lookup(name);
    }

    method LookupFunction(name: string) returns (found: Option<Symbol>)
      requires Valid()
      ensures found == Scoping.LookupFunction(Stack(), name)
    {
      found := scopes[0].Lookup(name);
      if found.Some? && !found.value.isFunction {
        found := None;
      }
    }

    method IsGlobalScope() returns (global: bool)
      requires Valid()
      ensures global == (|Stack()| == 1)
    {
      global := |scopes| == 1;
    }
  }
}
