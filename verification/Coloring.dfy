/** The interference graph and the register choices made on it. */
module Coloring {
  import opened Ir
  import opened IrFlow
  import opened Rv32
  import opened Liveness

  type Graph = map<string, set<string>>

  predicate Edge(g: Graph, u: string, v: string) { u in g && v in g[u] }

  predicate Symmetric(g: Graph) { forall u, v :: u in g && v in g[u] ==> v in g && u in g[v] }

  /** The definition at instruction i of d must not share a register with w: w is live after it,
      and is not the source of a copy into d. */
  predicate ClashAt(ir: seq<IrInst>, liveOut: seq<Names>, temps: map<string, Reg>, i: nat, d: string, w: string)
    requires |liveOut| == |ir| && i < |ir|
  {
    && Defines(ir[i], d) && w in liveOut[i] && d != w
    && d !in temps && w !in temps
    && !(IsCopy(ir[i]) && ir[i].src1.name == w)
  }

  ghost predicate Clash(ir: seq<IrInst>, liveOut: seq<Names>, temps: map<string, Reg>, n: nat, u: string, v: string)
    requires |liveOut| == |ir| && n <= |ir|
  {
    exists i :: 0 <= i < n && (ClashAt(ir, liveOut, temps, i, u, v) || ClashAt(ir, liveOut, temps, i, v, u))
  }

  function Neighbours(g: Graph, u: string): set<string> { if u in g then g[u] else {} }

  method AddInterference(g: Graph, lhs: string, rhs: string, temps: map<string, Reg>) returns (g': Graph)
    requires Symmetric(g)
    ensures Symmetric(g')
    ensures forall u, v :: Edge(g', u, v) <==>
              Edge(g, u, v) ||
              (lhs != rhs && lhs !in temps && rhs !in temps && ((u == lhs && v == rhs) || (u == rhs && v == lhs)))
  {
    if lhs == rhs || lhs in temps || rhs in temps { return g; }
    g' := g[lhs := Neighbours(g, lhs) + {rhs}];
    g' := g'[rhs := Neighbours(g', rhs) + {lhs}];
  }

  /** Edges between each definition and everything live after it, up to the copy exemption. */
  method BuildInterference(ir: seq<IrInst>, liveOut: seq<Names>, temps: map<string, Reg>) returns (g: Graph)
    requires |liveOut| == |ir|
    ensures Symmetric(g)
    ensures forall u, v :: Edge(g, u, v) <==> Clash(ir, liveOut, temps, |ir|, u, v)
  {
    hide ClashAt;
    g := map[];
    for i := 0 to |ir|
      invariant Symmetric(g)
      invariant forall u, v :: Edge(g, u, v) <==> Clash(ir, liveOut, temps, i, u, v)
    {
      ghost var g0 := g;
      if DefinesLocal(ir[i]) && ir[i].dest.name !in temps {
        g := AddDefinition(ir, liveOut, temps, i, g);
      } else {
        NoClash(ir, liveOut, temps, i);
      }
      assert forall u, v :: Edge(g, u, v) <==>
               Edge(g0, u, v) || ClashAt(ir, liveOut, temps, i, u, v) || ClashAt(ir, liveOut, temps, i, v, u);
      forall u, v ensures Edge(g, u, v) <==> Clash(ir, liveOut, temps, i + 1, u, v) {
        ClashStep(ir, liveOut, temps, i, u, v);
      }
    }
  }

  lemma ClashStep(ir: seq<IrInst>, liveOut: seq<Names>, temps: map<string, Reg>, i: nat, u: string, v: string)
    requires |liveOut| == |ir| && i < |ir|
    ensures Clash(ir, liveOut, temps, i + 1, u, v) <==>
            Clash(ir, liveOut, temps, i, u, v) || ClashAt(ir, liveOut, temps, i, u, v) ||
            ClashAt(ir, liveOut, temps, i, v, u)
  {
    hide ClashAt;
  }

  lemma NoClash(ir: seq<IrInst>, liveOut: seq<Names>, temps: map<string, Reg>, i: nat)
    requires |liveOut| == |ir| && i < |ir|
    requires !(DefinesLocal(ir[i]) && ir[i].dest.name !in temps)
    ensures forall u, v :: !ClashAt(ir, liveOut, temps, i, u, v)
  {
  }

  method AddDefinition(ir: seq<IrInst>, liveOut: seq<Names>, temps: map<string, Reg>, i: nat, g0: Graph)
    returns (g: Graph)
    requires |liveOut| == |ir| && i < |ir| && Symmetric(g0)
    requires DefinesLocal(ir[i]) && ir[i].dest.name !in temps
    ensures Symmetric(g)
    ensures forall u, v :: Edge(g, u, v) <==>
              Edge(g0, u, v) || ClashAt(ir, liveOut, temps, i, u, v) || ClashAt(ir, liveOut, temps, i, v, u)
  {
    g := g0;
    var d := ir[i].dest.name;
    var rest := liveOut[i];
    while rest != {}
      invariant Symmetric(g) && rest <= liveOut[i]
      invariant forall u, v :: Edge(g, u, v) <==>
                  Edge(g0, u, v) ||
                  (ClashAt(ir, liveOut, temps, i, u, v) && v !in rest) ||
                  (ClashAt(ir, liveOut, temps, i, v, u) && u !in rest)
      decreases |rest|
    {
      var live :| live in rest;
      rest := rest - {live};
      if !(IsCopy(ir[i]) && live == ir[i].src1.name) {
        g := AddInterference(g, d, live, temps);
      }
    }
  }

  // --------------------------------------------------------------------------
  // Greedy choice
  // --------------------------------------------------------------------------

  ghost predicate Proper(g: Graph, colors: map<string, Reg>)
  {
    forall u, v :: Edge(g, u, v) && u in colors && v in colors ==> colors[u] != colors[v]
  }

  function AllocatableRegisters(hasCall: bool): seq<Reg>
  {
    (if hasCall then [] else [A(0), A(1), A(2), A(3), A(4), A(5), A(6), A(7)]) +
    [S(2), S(3), S(4), S(5), S(6), S(7), S(8), S(9), S(10), S(11)]
  }

  /** Registers a local may be coloured with: caller-saved ones only when nothing is called. */
  predicate LocalRegister(r: Reg, hasCall: bool)
  {
    (!hasCall && r.A? && r.n <= 7) || (r.S? && 2 <= r.n <= 11)
  }

  /** Some coloured neighbour of v holds r. */
  ghost predicate Taken(g: Graph, colors: map<string, Reg>, v: string, r: Reg)
  {
    exists w :: Edge(g, v, w) && w in colors && colors[w] == r
  }

  method Conflicts(g: Graph, colors: map<string, Reg>, v: string, r: Reg) returns (b: bool)
    ensures b <==> Taken(g, colors, v, r)
  {
    b := false;
    var rest := Neighbours(g, v);
    while rest != {}
      invariant rest <= Neighbours(g, v)
      invariant b <==> exists w :: w in Neighbours(g, v) - rest && w in colors && colors[w] == r
      decreases |rest|
    {
      var w :| w in rest;
      rest := rest - {w};
      if w in colors && colors[w] == r { b := true; }
    }
    assert Neighbours(g, v) - rest == Neighbours(g, v);
  }

  /** The first register of the preference list no coloured neighbour holds. */
  method Select(g: Graph, colors: map<string, Reg>, v: string, preferred: seq<Reg>) returns (found: bool, r: Reg)
    ensures found ==> r in preferred && !Taken(g, colors, v, r)
    ensures !found ==> forall k :: 0 <= k < |preferred| ==> Taken(g, colors, v, preferred[k])
  {
    for k := 0 to |preferred|
      invariant forall m :: 0 <= m < k ==> Taken(g, colors, v, preferred[m])
    {
      var c := Conflicts(g, colors, v, preferred[k]);
      if !c { return true, preferred[k]; }
    }
    return false, X0;
  }

  /** Parameters that arrive in registers, with their index. */
  predicate IncomingOk(incoming: map<string, nat>)
  {
    && (forall p :: p in incoming ==> incoming[p] < 8)
    && (forall p, q :: p in incoming && q in incoming && p != q ==> incoming[p] != incoming[q])
  }

  method Precolor(incoming: map<string, nat>, temps: map<string, Reg>, hasCall: bool) returns (colors: map<string, Reg>)
    requires IncomingOk(incoming)
    ensures forall p :: p in colors <==> !hasCall && p in incoming && p !in temps
    ensures forall p :: p in colors ==> colors[p] == A(incoming[p])
  {
    colors := if hasCall then map[] else map p | p in incoming && p !in temps :: A(incoming[p]);
  }

  /** Registers of the already coloured copy partners, in some order. */
  method PartnerRegisters(partners: set<string>, colors: map<string, Reg>) returns (regs: seq<Reg>)
    ensures forall r :: r in regs ==> r in colors.Values
  {
    regs := [];
    var rest := partners;
    while rest != {}
      invariant forall r :: r in regs ==> r in colors.Values
      decreases |rest|
    {
      var p :| p in rest;
      rest := rest - {p};
      if p in colors { regs := regs + [colors[p]]; }
    }
  }

  /** The colouring: parameters keep their own argument register, everything else takes the first
      free register of its preference list, in any order and with any copy preferences. */
  method ColorLocals(g: Graph, order: seq<string>, partners: Graph, incoming: map<string, nat>,
                     temps: map<string, Reg>, hasCall: bool) returns (colors: map<string, Reg>)
    requires Symmetric(g) && (forall u :: !Edge(g, u, u)) && IncomingOk(incoming)
    ensures Proper(g, colors)
    ensures forall v :: v in colors ==>
              v !in temps && (v in order || v in incoming) && LocalRegister(colors[v], hasCall)
    ensures !hasCall ==> forall p :: p in incoming && p !in temps ==> p in colors && colors[p] == A(incoming[p])
  {
    colors := Precolor(incoming, temps, hasCall);
    for n := 0 to |order|
      invariant Proper(g, colors)
      invariant forall v :: v in colors ==>
                  v !in temps && (v in order || v in incoming) && LocalRegister(colors[v], hasCall)
      invariant !hasCall ==> forall p :: p in incoming && p !in temps ==> p in colors && colors[p] == A(incoming[p])
    {
      var v := order[n];
      if v in temps || v in colors { continue; }
      var preferred := PartnerRegisters(Neighbours(partners, v), colors);
      var found, r := Select(g, colors, v, preferred + AllocatableRegisters(hasCall));
      if found {
        ProperExtend(g, colors, v, r);
        colors := colors[v := r];
      }
    }
  }

  lemma ProperExtend(g: Graph, colors: map<string, Reg>, v: string, r: Reg)
    requires Symmetric(g) && (forall u :: !Edge(g, u, u)) && Proper(g, colors)
    requires !Taken(g, colors, v, r)
    ensures Proper(g, colors[v := r])
  {
    forall a, b | Edge(g, a, b) && a in colors[v := r] && b in colors[v := r]
      ensures colors[v := r][a] != colors[v := r][b]
    {
      assert Edge(g, b, a);
    }
  }
}
